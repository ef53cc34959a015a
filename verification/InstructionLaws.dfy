/**
 What the instruction comparison accepts, stated on the instructions: which register names
 overlap, which operands are alike, and that overlaps are kept.
 */
module InstructionLaws {
  import opened Basics
  import opened RegisterRenaming

  // ---------------------------------------------------------------- overlapping registers

  predicate IsLegacy(xx: string) {
    || xx == "ax" || xx == "bx" || xx == "cx" || xx == "dx"
    || xx == "si" || xx == "di" || xx == "bp" || xx == "sp"
  }

  /** The 16-, 32- and 64-bit names of one legacy register. */
  predicate NamesLegacy(xx: string, name: string) {
    name == xx || name == "e" + xx || name == "r" + xx
  }

  predicate IsNumbered(name: string) {
    |name| >= 2 && name[0] == 'r' && '0' <= name[1] <= '9'
  }

  predicate IsSuffix(c: char) {
    c == 'b' || c == 'w' || c == 'd'
  }

  /** `name` is a numbered register's 64-bit name `base`, or `base` with size suffixes. */
  ghost predicate NamesNumbered(base: string, name: string) {
    && IsNumbered(base) && !IsSuffix(base[|base| - 1])
    && base <= name && forall i :: |base| <= i < |name| ==> IsSuffix(name[i])
  }

  ghost predicate SameLegacy(a: string, b: string) {
    exists xx :: IsLegacy(xx) && NamesLegacy(xx, a) && NamesLegacy(xx, b)
  }

  ghost predicate SameNumbered(a: string, b: string) {
    exists base :: NamesNumbered(base, a) && NamesNumbered(base, b)
  }

  /** The two names are of one register.  The byte registers of the legacy ones, such as al,
      count as registers of their own. */
  ghost predicate Overlaps(a: string, b: string) {
    a == b || SameLegacy(a, b) || SameNumbered(a, b)
  }

  lemma {:induction false} StripMeans(name: string)
    requires IsNumbered(name)
    ensures NamesNumbered(StripSizeSuffix(name), name)
    decreases |name|
  {
    var n := |name| - 1;
    if IsSuffix(name[n]) {
      assert n >= 2;
      StripMeans(name[..n]);
      var base := StripSizeSuffix(name[..n]);
      forall i | |base| <= i < |name|
        ensures IsSuffix(name[i])
      {
        assert i < n ==> name[..n][i] == name[i];
      }
    }
  }

  lemma BaseNotShorter(base: string, base': string, name: string)
    requires NamesNumbered(base, name) && NamesNumbered(base', name)
    ensures |base'| <= |base|
  {
    assert base'[|base'| - 1] == name[|base'| - 1];
  }

  /** A name has one base at most. */
  lemma OneBase(base: string, base': string, name: string)
    requires NamesNumbered(base, name) && NamesNumbered(base', name)
    ensures base == base'
  {
    BaseNotShorter(base, base', name);
    BaseNotShorter(base', base, name);
  }

  lemma LastTwo(xx: string, name: string)
    requires |xx| == 2 && NamesLegacy(xx, name)
    ensures |name| >= 2 && name[|name| - 2..] == xx
  {
  }

  /** All names of a legacy register end with its two letters. */
  lemma OneLegacy(xx: string, yy: string, name: string)
    requires IsLegacy(xx) && IsLegacy(yy) && NamesLegacy(xx, name) && NamesLegacy(yy, name)
    ensures xx == yy
  {
    TwoLetters(xx);
    TwoLetters(yy);
    LastTwo(xx, name);
    LastTwo(yy, name);
  }

  lemma TwoLetters(xx: string)
    requires IsLegacy(xx)
    ensures |xx| == 2 && !('0' <= xx[0] <= '9')
  {
  }

  lemma LegacyNotNumbered(xx: string, name: string)
    requires IsLegacy(xx) && NamesLegacy(xx, name)
    ensures !IsNumbered(name)
  {
  }

  lemma LegacyListed(xx: string)
    ensures xx in LEGACY <==> IsLegacy(xx)
  {
  }

  lemma {:induction false} LegacyFamilyMeans(name: string, families: seq<string>, xx: string)
    requires forall k :: 0 <= k < |families| ==> IsLegacy(families[k])
    requires IsLegacy(xx) && NamesLegacy(xx, name)
    ensures LegacyFamily(name, families) == if xx in families then "r" + xx else name
  {
    if families != [] {
      var yy := families[0];
      if NamesLegacy(yy, name) {
        OneLegacy(xx, yy, name);
      } else {
        LegacyFamilyMeans(name, families[1..], xx);
      }
    }
  }

  lemma {:induction false} OtherFamilyMeans(name: string, families: seq<string>)
    requires forall k :: 0 <= k < |families| ==> !NamesLegacy(families[k], name)
    ensures LegacyFamily(name, families) == name
  {
    if families != [] {
      OtherFamilyMeans(name, families[1..]);
    }
  }

  lemma FamilyOfLegacy(xx: string, name: string)
    requires IsLegacy(xx) && NamesLegacy(xx, name)
    ensures RegisterFamily(name) == "r" + xx
  {
    LegacyNotNumbered(xx, name);
    forall k | 0 <= k < |LEGACY|
      ensures IsLegacy(LEGACY[k])
    {
      LegacyListed(LEGACY[k]);
    }
    LegacyListed(xx);
    LegacyFamilyMeans(name, LEGACY, xx);
  }

  lemma FamilyOfOther(name: string)
    requires !IsNumbered(name) && forall xx :: IsLegacy(xx) ==> !NamesLegacy(xx, name)
    ensures RegisterFamily(name) == name
  {
    forall k | 0 <= k < |LEGACY|
      ensures !NamesLegacy(LEGACY[k], name)
    {
      LegacyListed(LEGACY[k]);
    }
    OtherFamilyMeans(name, LEGACY);
  }

  lemma FamilyOfNumbered(name: string)
    requires IsNumbered(name)
    ensures NamesNumbered(RegisterFamily(name), name)
  {
    StripMeans(name);
  }

  lemma NumberedBase(base: string, name: string)
    requires NamesNumbered(base, name)
    ensures IsNumbered(name) && RegisterFamily(name) == base
  {
    FamilyOfNumbered(name);
    OneBase(base, RegisterFamily(name), name);
  }

  lemma OverlappingShare(a: string, b: string)
    requires Overlaps(a, b)
    ensures RegisterFamily(a) == RegisterFamily(b)
  {
    if SameLegacy(a, b) {
      var xx :| IsLegacy(xx) && NamesLegacy(xx, a) && NamesLegacy(xx, b);
      FamilyOfLegacy(xx, a);
      FamilyOfLegacy(xx, b);
    } else if SameNumbered(a, b) {
      var base :| NamesNumbered(base, a) && NamesNumbered(base, b);
      NumberedBase(base, a);
      NumberedBase(base, b);
    }
  }

  /** A family is always one of the names that share it. */
  lemma FamilyOverlaps(name: string)
    ensures Overlaps(RegisterFamily(name), name)
  {
    if IsNumbered(name) {
      FamilyOfNumbered(name);
      var base := RegisterFamily(name);
      assert NamesNumbered(base, base);
      assert SameNumbered(base, name);
    } else if xx :| IsLegacy(xx) && NamesLegacy(xx, name) {
      FamilyOfLegacy(xx, name);
      assert NamesLegacy(xx, "r" + xx);
      assert SameLegacy("r" + xx, name);
    } else {
      FamilyOfOther(name);
    }
  }

  lemma NotBoth(f: string, a: string, b: string)
    requires SameLegacy(f, a)
    ensures !SameNumbered(f, b)
  {
    var xx :| IsLegacy(xx) && NamesLegacy(xx, f) && NamesLegacy(xx, a);
    LegacyNotNumbered(xx, f);
    NumberedName(f, b);
  }

  lemma NumberedName(f: string, b: string)
    ensures SameNumbered(f, b) ==> IsNumbered(f)
  {
    if SameNumbered(f, b) {
      var base :| NamesNumbered(base, f) && NamesNumbered(base, b);
      NumberedBase(base, f);
    }
  }

  lemma LegacyJoins(a: string, f: string, b: string)
    requires SameLegacy(f, a) && SameLegacy(f, b)
    ensures SameLegacy(a, b)
  {
    var xx :| IsLegacy(xx) && NamesLegacy(xx, f) && NamesLegacy(xx, a);
    var yy :| IsLegacy(yy) && NamesLegacy(yy, f) && NamesLegacy(yy, b);
    OneLegacy(xx, yy, f);
  }

  lemma NumberedJoins(a: string, f: string, b: string)
    requires SameNumbered(f, a) && SameNumbered(f, b)
    ensures SameNumbered(a, b)
  {
    var base :| NamesNumbered(base, f) && NamesNumbered(base, a);
    var base' :| NamesNumbered(base', f) && NamesNumbered(base', b);
    OneBase(base, base', f);
  }

  lemma OverlapJoins(a: string, f: string, b: string)
    requires Overlaps(f, a) && Overlaps(f, b)
    ensures Overlaps(a, b)
  {
    if SameLegacy(f, a) {
      NotBoth(f, a, b);
      if SameLegacy(f, b) {
        LegacyJoins(a, f, b);
      }
    } else if SameNumbered(f, a) {
      if SameLegacy(f, b) {
        NotBoth(f, b, a);
      } else if SameNumbered(f, b) {
        NumberedJoins(a, f, b);
      }
    }
  }

  /** Two names share a family exactly when they are of one register. */
  lemma FamilyExactly(a: string, b: string)
    ensures RegisterFamily(a) == RegisterFamily(b) <==> Overlaps(a, b)
  {
    if RegisterFamily(a) == RegisterFamily(b) {
      FamilyOverlaps(a);
      FamilyOverlaps(b);
      OverlapJoins(a, RegisterFamily(a), b);
    }
    if Overlaps(a, b) {
      OverlappingShare(a, b);
    }
  }

  /** Names of one register, and names told apart; al counts as a register of its own. */
  lemma OverlapExamples()
    ensures Overlaps("rax", "eax") && Overlaps("r10d", "r10")
    ensures !Overlaps("eax", "edx") && !Overlaps("r1", "r10") && !Overlaps("al", "rax")
  {
    assert IsLegacy("ax") && NamesLegacy("ax", "rax") && NamesLegacy("ax", "eax");
    assert NamesNumbered("r10", "r10d") && NamesNumbered("r10", "r10") && NamesNumbered("r1", "r1");
    DifferentFamilies();
    FamilyExactly("eax", "edx");
    FamilyExactly("r1", "r10");
    FamilyExactly("al", "rax");
  }

  lemma DifferentFamilies()
    ensures RegisterFamily("eax") == "rax" == RegisterFamily("rax") && RegisterFamily("edx") == "rdx"
    ensures RegisterFamily("r1") == "r1" && RegisterFamily("r10") == "r10" && RegisterFamily("al") == "al"
  {
    FamilyOfLegacy("ax", "eax");
    FamilyOfLegacy("ax", "rax");
    FamilyOfLegacy("dx", "edx");
    NumberedBase("r1", "r1");
    NumberedBase("r10", "r10");
    forall xx | IsLegacy(xx)
      ensures !NamesLegacy(xx, "al")
    {
      TwoLetters(xx);
    }
    FamilyOfOther("al");
  }

  // ---------------------------------------------------------------- alike instructions

  /** The operands mean the same.  A renamed register may have another name; branch targets,
      sizes that may change and rip-relative displacements may differ. */
  ghost predicate OperandsAlike(a: Operand, b: Operand, renamed: bool, anySize: bool, aFlow: bool, bFlow: bool) {
    match a
    case Reg(name, size) => b.Reg? && b.size == size && (renamed || b.name == name)
    case Imm(value, size) =>
      && b.Imm? && b.size == size
      && (if aFlow || bFlow then aFlow && bFlow else anySize || b.value == value)
    case Mem(segment, base, index, scale, displacement, size) =>
      && b.Mem? && b.segment == segment && b.base == base && b.index == index && b.scale == scale && b.size == size
      && (base == "rip" || b.displacement == displacement)
    case Unsupported => false
  }

  predicate AnySize(spec: SignatureSpec, i: nat) {
    spec.allowSizeChange && (i == spec.sizeIndices.0 || i == spec.sizeIndices.1)
  }

  ghost predicate OneAlike(a: Instruction, b: Instruction, renamed: bool, anySize: bool) {
    && a.mnemonic == b.mnemonic && |a.operands| == |b.operands|
    && forall k :: 0 <= k < |a.operands| ==>
         OperandsAlike(a.operands[k], b.operands[k], renamed, anySize, a.controlFlow, b.controlFlow)
  }

  ghost predicate AllAlike(reference: seq<Instruction>, candidate: seq<Instruction>, spec: SignatureSpec) {
    && |reference| == |candidate|
    && forall i :: 0 <= i < |reference| ==>
         OneAlike(reference[i], candidate[i], i in spec.renamed, AnySize(spec, i))
  }

  /** An operand's place in an instruction sequence. */
  datatype Place = Place(i: int, k: int)

  /** A register operand of a renamed instruction. */
  predicate RenamedAt(instructions: seq<Instruction>, renamed: set<int>, p: Place) {
    && 0 <= p.i < |instructions| && p.i in renamed
    && 0 <= p.k < |instructions[p.i].operands| && instructions[p.i].operands[p.k].Reg?
  }

  function NameAt(instructions: seq<Instruction>, renamed: set<int>, p: Place): string
    requires RenamedAt(instructions, renamed, p)
  {
    instructions[p.i].operands[p.k].name
  }

  /** At any two renamed places the reference's registers overlap exactly when the candidate's
      do. */
  ghost predicate OverlapsKept(reference: seq<Instruction>, candidate: seq<Instruction>, renamed: set<int>) {
    forall p, q :: RenamedAt(reference, renamed, p) && RenamedAt(reference, renamed, q)
                   && RenamedAt(candidate, renamed, p) && RenamedAt(candidate, renamed, q) ==>
      (Overlaps(NameAt(reference, renamed, p), NameAt(reference, renamed, q)) <==>
       Overlaps(NameAt(candidate, renamed, p), NameAt(candidate, renamed, q)))
  }

  // ---------------------------------------------------------------- shapes of alike instructions

  lemma {:induction false} OperandMeanings(i: Instruction, operands: seq<Operand>, anySize: bool)
    ensures SemanticOperands(i, operands, anySize).Some? <==> forall k :: 0 <= k < |operands| ==> !operands[k].Unsupported?
    ensures var ms := SemanticOperands(i, operands, anySize);
            ms.Some? ==> |ms.value| == |operands|
                         && forall k :: 0 <= k < |operands| ==> Some(ms.value[k]) == SemanticOperand(i, operands[k], anySize)
    decreases |operands|
  {
    if operands != [] {
      OperandMeanings(i, operands[1..], anySize);
      assert (forall k :: 0 <= k < |operands| ==> !operands[k].Unsupported?) <==>
             !operands[0].Unsupported? && forall k :: 0 <= k < |operands| - 1 ==> !operands[1..][k].Unsupported?;
    }
  }

  lemma OneMeaning(i: Instruction, j: Instruction, a: Operand, b: Operand, renamed: bool, anySize: bool)
    ensures var x, y := SemanticOperand(i, a, anySize), SemanticOperand(j, b, anySize);
            OperandsAlike(a, b, renamed, anySize, i.controlFlow, j.controlFlow) <==>
            x.Some? && y.Some? && if renamed then SameSkeleton(x.value, y.value) else x == y
  {
  }

  lemma OneShape(a: Instruction, b: Instruction, renamed: bool, anySize: bool)
    ensures var x, y := SemanticShape(a, anySize), SemanticShape(b, anySize);
            OneAlike(a, b, renamed, anySize) <==> x.Some? && y.Some? && ShapeMatches(x.value, y.value, renamed)
  {
    OperandMeanings(a, a.operands, anySize);
    OperandMeanings(b, b.operands, anySize);
    forall k | 0 <= k < |a.operands| == |b.operands|
      ensures var x, y := SemanticOperand(a, a.operands[k], anySize), SemanticOperand(b, b.operands[k], anySize);
              OperandsAlike(a.operands[k], b.operands[k], renamed, anySize, a.controlFlow, b.controlFlow) <==>
              x.Some? && y.Some? && if renamed then SameSkeleton(x.value, y.value) else x == y
    {
      OneMeaning(a, b, a.operands[k], b.operands[k], renamed, anySize);
    }
    AlikeMeansShape(a, b, renamed, anySize);
  }

  lemma AlikeMeansShape(a: Instruction, b: Instruction, renamed: bool, anySize: bool)
    requires |a.operands| == |b.operands| ==> forall k :: 0 <= k < |a.operands| ==>
               var x, y := SemanticOperand(a, a.operands[k], anySize), SemanticOperand(b, b.operands[k], anySize);
               OperandsAlike(a.operands[k], b.operands[k], renamed, anySize, a.controlFlow, b.controlFlow) <==>
               x.Some? && y.Some? && if renamed then SameSkeleton(x.value, y.value) else x == y
    ensures var x, y := SemanticShape(a, anySize), SemanticShape(b, anySize);
            OneAlike(a, b, renamed, anySize) <==> x.Some? && y.Some? && ShapeMatches(x.value, y.value, renamed)
  {
    OperandMeanings(a, a.operands, anySize);
    OperandMeanings(b, b.operands, anySize);
  }

  // ---------------------------------------------------------------- kept overlaps are one renaming

  ghost predicate Registers(a: seq<Shape>, b: seq<Shape>, renamed: set<int>, p: Place) {
    && 0 <= p.i < |a| && p.i < |b| && p.i in renamed
    && 0 <= p.k < |a[p.i].operands| && p.k < |b[p.i].operands|
    && a[p.i].operands[p.k].MReg? && b[p.i].operands[p.k].MReg?
  }

  /** Renamed families agree at two places of one list exactly when they do in the other. */
  ghost predicate FamiliesKept(a: seq<Shape>, b: seq<Shape>, renamed: set<int>) {
    forall p, q :: Registers(a, b, renamed, p) && Registers(a, b, renamed, q) ==>
      (RegisterFamily(a[p.i].operands[p.k].name) == RegisterFamily(a[q.i].operands[q.k].name) <==>
       RegisterFamily(b[p.i].operands[p.k].name) == RegisterFamily(b[q.i].operands[q.k].name))
  }

  /** Which operand a family in the flat list comes from. */
  lemma {:induction false} LocateOperand(a: seq<Meaning>, b: seq<Meaning>, x: nat) returns (k: nat)
    requires |a| == |b| && (forall i :: 0 <= i < |a| ==> SameSkeleton(a[i], b[i])) && x < |Families(a)|
    ensures k < |a| && a[k].MReg? && b[k].MReg?
    ensures |Families(b)| == |Families(a)|
    ensures Families(a)[x] == RegisterFamily(a[k].name) && Families(b)[x] == RegisterFamily(b[k].name)
    decreases |a|
  {
    var n := |a| - 1;
    SkeletonsNameAlike(a, b);
    SkeletonsNameAlike(a[..n], b[..n]);
    if x < |Families(a[..n])| {
      k := LocateOperand(a[..n], b[..n], x);
    } else {
      k := n;
    }
  }

  lemma {:induction false} Locate(a: seq<Shape>, b: seq<Shape>, renamed: set<int>, x: nat) returns (p: Place)
    requires |a| == |b| && (forall i :: 0 <= i < |a| ==> ShapeMatches(a[i], b[i], i in renamed))
    requires x < |RenamedFamilies(a, renamed)|
    ensures Registers(a, b, renamed, p) && |RenamedFamilies(b, renamed)| == |RenamedFamilies(a, renamed)|
    ensures RenamedFamilies(a, renamed)[x] == RegisterFamily(a[p.i].operands[p.k].name)
    ensures RenamedFamilies(b, renamed)[x] == RegisterFamily(b[p.i].operands[p.k].name)
    decreases |a|
  {
    var n := |a| - 1;
    ShapesNameAlike(a, b, renamed);
    ShapesNameAlike(a[..n], b[..n], renamed);
    var before := |RenamedFamilies(a[..n], renamed)|;
    if x < before {
      p := Locate(a[..n], b[..n], renamed, x);
    } else {
      assert ShapeMatches(a[n], b[n], n in renamed);
      var k := LocateOperand(a[n].operands, b[n].operands, x - before);
      p := Place(n, k);
    }
  }

  lemma KeptAligned(a: seq<Shape>, b: seq<Shape>, renamed: set<int>)
    requires |a| == |b| && (forall i :: 0 <= i < |a| ==> ShapeMatches(a[i], b[i], i in renamed))
    requires FamiliesKept(a, b, renamed)
    ensures Aligned(RenamedFamilies(a, renamed), RenamedFamilies(b, renamed))
  {
    var x, y := RenamedFamilies(a, renamed), RenamedFamilies(b, renamed);
    ShapesNameAlike(a, b, renamed);
    forall i, j | 0 <= i < |x| && 0 <= j < |x|
      ensures x[i] == x[j] <==> y[i] == y[j]
    {
      var p := Locate(a, b, renamed, i);
      var q := Locate(a, b, renamed, j);
    }
  }

  lemma MatchedKept(a: seq<Shape>, b: seq<Shape>, renamed: set<int>)
    requires Matches(a, b, renamed)
    ensures FamiliesKept(a, b, renamed)
  {
    MatchesMeansOneRenaming(a, b, renamed);
    var m :| Injective(m) && AllRename(m, a, b, renamed);
    forall p | Registers(a, b, renamed, p)
      ensures RegisterFamily(a[p.i].operands[p.k].name) in m
      ensures m[RegisterFamily(a[p.i].operands[p.k].name)] == RegisterFamily(b[p.i].operands[p.k].name)
    {
      assert ShapeEqual(m, a[p.i], b[p.i], p.i in renamed);
      assert OperandRenames(m, a[p.i].operands[p.k], b[p.i].operands[p.k]);
    }
  }

  /** A match is shapes that agree one by one, and kept families. */
  lemma MatchesExactly(a: seq<Shape>, b: seq<Shape>, renamed: set<int>)
    ensures Matches(a, b, renamed) <==>
            && |a| == |b| && (forall i :: 0 <= i < |a| ==> ShapeMatches(a[i], b[i], i in renamed))
            && FamiliesKept(a, b, renamed)
  {
    if Matches(a, b, renamed) {
      MatchedKept(a, b, renamed);
    } else if |a| == |b| && (forall i :: 0 <= i < |a| ==> ShapeMatches(a[i], b[i], i in renamed)) {
      if FamiliesKept(a, b, renamed) {
        KeptAligned(a, b, renamed);
      }
    }
  }

  // ---------------------------------------------------------------- what is accepted

  /** The shapes of an instruction sequence whose operands are all supported. */
  ghost predicate HasShapes(instructions: seq<Instruction>, spec: SignatureSpec, shapes: seq<Shape>) {
    && |shapes| == |instructions|
    && forall i :: 0 <= i < |shapes| ==> SemanticShape(instructions[i], AnySize(spec, i)) == Some(shapes[i])
  }

  lemma ValuesAreShapes(instructions: seq<Instruction>, spec: SignatureSpec)
    requires AllSupported(Shapes(instructions, spec))
    ensures HasShapes(instructions, spec, Values(Shapes(instructions, spec)))
  {
  }

  lemma AlikeShapes(reference: seq<Instruction>, candidate: seq<Instruction>, spec: SignatureSpec)
    ensures AllAlike(reference, candidate, spec) <==>
            && |reference| == |candidate|
            && AllSupported(Shapes(reference, spec)) && AllSupported(Shapes(candidate, spec))
            && forall i :: 0 <= i < |reference| ==>
                 ShapeMatches(Values(Shapes(reference, spec))[i], Values(Shapes(candidate, spec))[i], i in spec.renamed)
  {
    forall i | 0 <= i < |reference| == |candidate|
      ensures var x, y := Shapes(reference, spec)[i], Shapes(candidate, spec)[i];
              OneAlike(reference[i], candidate[i], i in spec.renamed, AnySize(spec, i)) <==>
              x.Some? && y.Some? && ShapeMatches(x.value, y.value, i in spec.renamed)
    {
      OneShape(reference[i], candidate[i], i in spec.renamed, AnySize(spec, i));
    }
  }

  lemma RegisterShape(instructions: seq<Instruction>, spec: SignatureSpec, shapes: seq<Shape>, p: Place)
    requires HasShapes(instructions, spec, shapes) && 0 <= p.i < |shapes|
    ensures |shapes[p.i].operands| == |instructions[p.i].operands|
    ensures 0 <= p.k < |shapes[p.i].operands| ==>
              (shapes[p.i].operands[p.k].MReg? <==> instructions[p.i].operands[p.k].Reg?)
    ensures 0 <= p.k < |shapes[p.i].operands| && shapes[p.i].operands[p.k].MReg? ==>
              shapes[p.i].operands[p.k].name == instructions[p.i].operands[p.k].name
  {
    OperandMeanings(instructions[p.i], instructions[p.i].operands, AnySize(spec, p.i));
  }

  lemma RegisterPlace(reference: seq<Instruction>, candidate: seq<Instruction>, spec: SignatureSpec,
                      a: seq<Shape>, b: seq<Shape>, p: Place)
    requires HasShapes(reference, spec, a) && HasShapes(candidate, spec, b) && |a| == |b|
    ensures Registers(a, b, spec.renamed, p) <==>
            RenamedAt(reference, spec.renamed, p) && RenamedAt(candidate, spec.renamed, p)
    ensures Registers(a, b, spec.renamed, p) ==>
              && a[p.i].operands[p.k].name == NameAt(reference, spec.renamed, p)
              && b[p.i].operands[p.k].name == NameAt(candidate, spec.renamed, p)
  {
    if 0 <= p.i < |a| {
      RegisterShape(reference, spec, a, p);
      RegisterShape(candidate, spec, b, p);
    }
  }

  lemma KeptExactly(reference: seq<Instruction>, candidate: seq<Instruction>, spec: SignatureSpec,
                    a: seq<Shape>, b: seq<Shape>)
    requires HasShapes(reference, spec, a) && HasShapes(candidate, spec, b) && |a| == |b|
    ensures FamiliesKept(a, b, spec.renamed) <==> OverlapsKept(reference, candidate, spec.renamed)
  {
    forall p
      ensures Registers(a, b, spec.renamed, p) <==>
              RenamedAt(reference, spec.renamed, p) && RenamedAt(candidate, spec.renamed, p)
      ensures Registers(a, b, spec.renamed, p) ==>
                && a[p.i].operands[p.k].name == NameAt(reference, spec.renamed, p)
                && b[p.i].operands[p.k].name == NameAt(candidate, spec.renamed, p)
    {
      RegisterPlace(reference, candidate, spec, a, b, p);
    }
    forall x: string, y: string
      ensures RegisterFamily(x) == RegisterFamily(y) <==> Overlaps(x, y)
    {
      FamilyExactly(x, y);
    }
  }

  /** The comparison accepts exactly the instruction sequences that are alike one by one and
      keep overlaps at the renamed places. */
  lemma AcceptedExactlyWhen(reference: seq<Instruction>, candidate: seq<Instruction>, spec: SignatureSpec)
    ensures && AllSupported(Shapes(reference, spec)) && AllSupported(Shapes(candidate, spec))
            && Matches(Values(Shapes(reference, spec)), Values(Shapes(candidate, spec)), spec.renamed)
            <==> AllAlike(reference, candidate, spec) && OverlapsKept(reference, candidate, spec.renamed)
  {
    AlikeShapes(reference, candidate, spec);
    if AllSupported(Shapes(reference, spec)) && AllSupported(Shapes(candidate, spec)) {
      var a, b := Values(Shapes(reference, spec)), Values(Shapes(candidate, spec));
      MatchesExactly(a, b, spec.renamed);
      ValuesAreShapes(reference, spec);
      ValuesAreShapes(candidate, spec);
      if |a| == |b| {
        KeptExactly(reference, candidate, spec, a, b);
      }
    }
  }

  function Pair(first: string, second: string): seq<Instruction> {
    [Instruction("movsxd", [Reg(first, 8), Reg(second, 4)], false)]
  }

  lemma PairRefused(spec: SignatureSpec, first: string, second: string, other: string, another: string)
    requires 0 in spec.renamed && Overlaps(first, second) && !Overlaps(other, another)
    ensures !OverlapsKept(Pair(first, second), Pair(other, another), spec.renamed)
  {
    var p, q := Place(0, 0), Place(0, 1);
    var reference, candidate := Pair(first, second), Pair(other, another);
    assert RenamedAt(reference, spec.renamed, p) && RenamedAt(reference, spec.renamed, q);
    assert RenamedAt(candidate, spec.renamed, p) && RenamedAt(candidate, spec.renamed, q);
    assert NameAt(reference, spec.renamed, p) == first && NameAt(reference, spec.renamed, q) == second;
    assert NameAt(candidate, spec.renamed, p) == other && NameAt(candidate, spec.renamed, q) == another;
  }

  lemma DifferentLegacy(xx: string, a: string, yy: string, b: string)
    requires IsLegacy(xx) && NamesLegacy(xx, a) && IsLegacy(yy) && NamesLegacy(yy, b) && xx != yy
    ensures !Overlaps(a, b)
  {
    FamilyOfLegacy(xx, a);
    FamilyOfLegacy(yy, b);
    assert ("r" + xx)[1..] == xx && ("r" + yy)[1..] == yy;
    FamilyExactly(a, b);
  }

  /** Renaming rax to rcx renames eax to ecx, not to edx. */
  lemma OverlapIsRefused(spec: SignatureSpec)
    requires 0 in spec.renamed
    ensures var reference, candidate := Pair("rax", "eax"), Pair("rcx", "edx");
            !(&& AllSupported(Shapes(reference, spec)) && AllSupported(Shapes(candidate, spec))
              && Matches(Values(Shapes(reference, spec)), Values(Shapes(candidate, spec)), spec.renamed))
  {
    OverlapExamples();
    DifferentLegacy("cx", "rcx", "dx", "edx");
    PairRefused(spec, "rax", "eax", "rcx", "edx");
    AcceptedExactlyWhen(Pair("rax", "eax"), Pair("rcx", "edx"), spec);
  }

  /** The object size stands at both places and is a multiple of 8 from 0x100 to 0x1000. */
  lemma SizesConsistentExactly(candidate: seq<Instruction>, indices: (nat, nat))
    ensures SizesConsistent(candidate, indices) <==>
            exists words :: 32 <= words <= 512 && SizeAt(candidate, indices.0, 8 * words) && SizeAt(candidate, indices.1, 8 * words)
  {
    if SizesConsistent(candidate, indices) {
      var words := candidate[indices.0].operands[1].value / 8;
      assert SizeAt(candidate, indices.0, 8 * words) && SizeAt(candidate, indices.1, 8 * words);
    }
  }

  predicate SizeAt(instructions: seq<Instruction>, index: nat, size: int) {
    && index < |instructions| && |instructions[index].operands| == 2
    && instructions[index].operands[1].Imm? && instructions[index].operands[1].value == size
  }
}

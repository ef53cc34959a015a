/**
 Comparing two instruction sequences up to one injective renaming of register families,
 which applies to the register operands at a given set of indices.  The comparison in place
 keeps two dictionaries; `MatchesMeansOneRenaming` says what its success amounts to.
 */
module RegisterRenaming {
  import opened Basics

  // ---------------------------------------------------------------- instructions and shapes

  datatype Operand =
    | Reg(name: string, size: int)
    | Imm(value: int, size: int)
    | Mem(segment: string, base: string, index: string, scale: int, displacement: int, size: int)
    | Unsupported

  datatype Instruction = Instruction(mnemonic: string, operands: seq<Operand>, controlFlow: bool)

  datatype Immediate = ControlFlowTarget | RegistryObjectSize | Value(value: int)

  datatype Displacement = RipTarget | Fixed(value: int)

  datatype Meaning =
    | MReg(name: string, size: int)
    | MImm(immediate: Immediate, size: int)
    | MMem(segment: string, base: string, index: string, scale: int, displacement: Displacement, size: int)

  datatype Shape = Shape(mnemonic: string, operands: seq<Meaning>)

  function SemanticOperand(i: Instruction, operand: Operand, wildcardSize: bool): Option<Meaning> {
    match operand
    case Reg(name, size) => Some(MReg(name, size))
    case Imm(value, size) =>
      Some(MImm(if i.controlFlow then ControlFlowTarget
                else if wildcardSize then RegistryObjectSize else Value(value), size))
    case Mem(segment, base, index, scale, displacement, size) =>
      Some(MMem(segment, base, index, scale, if base == "rip" then RipTarget else Fixed(displacement), size))
    case Unsupported => None
  }

  function SemanticOperands(i: Instruction, operands: seq<Operand>, wildcardSize: bool): Option<seq<Meaning>> {
    if operands == [] then Some([])
    else
      var first := SemanticOperand(i, operands[0], wildcardSize);
      var rest := SemanticOperands(i, operands[1..], wildcardSize);
      if first.None? || rest.None? then None else Some([first.value] + rest.value)
  }

  function SemanticShape(i: Instruction, wildcardSize: bool): Option<Shape> {
    var operands := SemanticOperands(i, i.operands, wildcardSize);
    if operands.None? then None else Some(Shape(i.mnemonic, operands.value))
  }

  function StripSizeSuffix(name: string): string {
    if name != "" && name[|name| - 1] in "bwd" then StripSizeSuffix(name[..|name| - 1]) else name
  }

  const LEGACY := ["ax", "bx", "cx", "dx", "si", "di", "bp", "sp"]

  function LegacyFamily(name: string, families: seq<string>): string {
    if families == [] then name
    else if name in [families[0], "e" + families[0], "r" + families[0]] then "r" + families[0]
    else LegacyFamily(name, families[1..])
  }

  /** A common name for registers that overlap, such as `rax` for `ax` and `eax`. */
  function RegisterFamily(name: string): string {
    if |name| >= 2 && name[0] == 'r' && '0' <= name[1] <= '9' then StripSizeSuffix(name)
    else LegacyFamily(name, LEGACY)
  }

  // ---------------------------------------------------------------- what a match means

  /** Equal up to the names of register operands. */
  predicate SameSkeleton(a: Meaning, b: Meaning) {
    if a.MReg? && b.MReg? then a.size == b.size else a == b
  }

  ghost predicate SameSkeletons(a: Shape, b: Shape) {
    && a.mnemonic == b.mnemonic && |a.operands| == |b.operands|
    && forall k :: 0 <= k < |a.operands| ==> SameSkeleton(a.operands[k], b.operands[k])
  }

  /** The register families an operand list names, in order. */
  ghost function Families(operands: seq<Meaning>): seq<string> {
    if operands == [] then []
    else Families(operands[..|operands| - 1]) + Family(operands[|operands| - 1])
  }

  /** The families named by the shapes at `renamed` indices, in order. */
  ghost function RenamedFamilies(shapes: seq<Shape>, renamed: set<int>): seq<string> {
    if shapes == [] then []
    else
      var n := |shapes| - 1;
      RenamedFamilies(shapes[..n], renamed) + Named(shapes[n], n in renamed)
  }

  ghost function Named(shape: Shape, renamed: bool): seq<string> {
    if renamed then Families(shape.operands) else []
  }

  /** Two name lists are equal under one one-to-one renaming: positions agree in one exactly
      when they agree in the other. */
  ghost predicate Aligned(a: seq<string>, b: seq<string>) {
    && |a| == |b|
    && forall i, j :: 0 <= i < |a| && 0 <= j < |a| ==> (a[i] == a[j] <==> b[i] == b[j])
  }

  ghost predicate ShapeMatches(a: Shape, b: Shape, renamed: bool) {
    if renamed then SameSkeletons(a, b) else a == b
  }

  /** What `validate_semantic_match` compares, ahead of its size check. */
  ghost predicate Matches(reference: seq<Shape>, candidate: seq<Shape>, renamed: set<int>) {
    && |reference| == |candidate|
    && (forall i :: 0 <= i < |reference| ==> ShapeMatches(reference[i], candidate[i], i in renamed))
    && Aligned(RenamedFamilies(reference, renamed), RenamedFamilies(candidate, renamed))
  }

  // ---------------------------------------------------------------- the comparison in place

  /** The dictionaries hold exactly the pairs from[i], to[i], one in each direction. */
  ghost predicate Records(forward: map<string, string>, backward: map<string, string>,
                          from: seq<string>, to: seq<string>) {
    && |from| == |to|
    && (forall i :: 0 <= i < |from| ==> from[i] in forward && forward[from[i]] == to[i])
    && (forall i :: 0 <= i < |to| ==> to[i] in backward && backward[to[i]] == from[i])
    && (forall f :: f in forward ==> f in from)
    && (forall t :: t in backward ==> t in to)
  }

  /** Dictionaries that record some pairs are mutual inverses, and the pairs are a one-to-one
      renaming. */
  lemma RecordsAreInverse(forward: map<string, string>, backward: map<string, string>,
                          from: seq<string>, to: seq<string>)
    requires Records(forward, backward, from, to)
    ensures Aligned(from, to)
    ensures forall f :: f in forward ==> forward[f] in backward && backward[forward[f]] == f
    ensures forall t :: t in backward ==> backward[t] in forward && forward[backward[t]] == t
  {
  }

  /** Another pair fits exactly when neither dictionary contradicts it. */
  lemma AnotherPair(forward: map<string, string>, backward: map<string, string>,
                    from: seq<string>, to: seq<string>, left: string, right: string)
    requires Records(forward, backward, from, to)
    ensures Aligned(from + [left], to + [right]) <==>
            (left in forward ==> forward[left] == right) && (right in backward ==> backward[right] == left)
    ensures Aligned(from + [left], to + [right]) ==>
            Records(forward[left := right], backward[right := left], from + [left], to + [right])
  {
    var a, b, n := from + [left], to + [right], |from|;
    assert a[n] == left && b[n] == right;
    if left in forward {
      var i :| 0 <= i < n && from[i] == left;
      assert a[i] == left && b[i] == forward[left];
    }
    if right in backward {
      var i :| 0 <= i < n && to[i] == right;
      assert b[i] == right && a[i] == backward[right];
    }
  }

  /** The renames accepted so far, in both directions. */
  class Renames {
    var forward: map<string, string>
    var backward: map<string, string>
    ghost var from: seq<string>
    ghost var to: seq<string>

    ghost predicate Valid()
      reads this
    {
      Records(forward, backward, from, to)
    }

    constructor ()
      ensures Valid() && from == [] && to == []
    {
      forward, backward, from, to := map[], map[], [], [];
    }

    /** One pair of register operands: two `setdefault` calls. */
    method Accept(left: string, right: string) returns (ok: bool)
      requires Valid()
      modifies this
      ensures ok <==> Aligned(old(from) + [left], old(to) + [right])
      ensures ok ==> Valid() && from == old(from) + [left] && to == old(to) + [right]
    {
      AnotherPair(forward, backward, from, to, left, right);
      if left !in forward {
        forward := forward[left := right];
      }
      if forward[left] != right {
        return false;
      }
      if right !in backward {
        backward := backward[right := left];
      }
      if backward[right] != left {
        return false;
      }
      assert forward == old(forward)[left := right] && backward == old(backward)[right := left];
      from, to := from + [left], to + [right];
      return true;
    }

    method MatchOperand(left: Meaning, right: Meaning) returns (ok: bool)
      requires Valid()
      modifies this
      ensures ok <==> SameSkeleton(left, right) && Aligned(old(from) + Family(left), old(to) + Family(right))
      ensures ok ==> Valid() && from == old(from) + Family(left) && to == old(to) + Family(right)
    {
      if !left.MReg? || !right.MReg? {
        RecordsAreInverse(forward, backward, from, to);
        assert left == right ==> from + Family(left) == from && to + Family(right) == to;
        return left == right;
      }
      if left.size != right.size {
        return false;
      }
      ok := Accept(RegisterFamily(left.name), RegisterFamily(right.name));
    }

    method RenamedShapesMatch(reference: Shape, candidate: Shape) returns (ok: bool)
      requires Valid()
      modifies this
      ensures ok <==> reference.mnemonic == candidate.mnemonic
                      && OperandsMatch(old(from), reference.operands, old(to), candidate.operands)
      ensures ok ==> && Valid() && from == old(from) + Families(reference.operands)
                     && to == old(to) + Families(candidate.operands)
    {
      var a, b := reference.operands, candidate.operands;
      if reference.mnemonic != candidate.mnemonic || |a| != |b| {
        return false;
      }
      RecordsAreInverse(forward, backward, from, to);
      assert from + [] == from && to + [] == to;
      for k := 0 to |a|
        invariant Valid()
        invariant OperandsMatch(old(from), a[..k], old(to), b[..k])
        invariant from == old(from) + Families(a[..k]) && to == old(to) + Families(b[..k])
      {
        OneMoreOperand(old(from), a, old(to), b, k);
        ok := MatchOperand(a[k], b[k]);
        if !ok {
          if OperandsMatch(old(from), a, old(to), b) {
            OperandsMatchPrefix(old(from), a, old(to), b, k + 1);
          }
          return false;
        }
      }
      assert a[..|a|] == a && b[..|b|] == b;
      return true;
    }
  }

  ghost function Family(m: Meaning): seq<string> {
    if m.MReg? then [RegisterFamily(m.name)] else []
  }

  /** The operands agree but for register names, and naming them extends a one-to-one
      renaming of `x` to `y`. */
  ghost predicate OperandsMatch(x: seq<string>, a: seq<Meaning>, y: seq<string>, b: seq<Meaning>) {
    && |a| == |b| && (forall k :: 0 <= k < |a| ==> SameSkeleton(a[k], b[k]))
    && Aligned(x + Families(a), y + Families(b))
  }

  lemma OneMoreOperand(x: seq<string>, a: seq<Meaning>, y: seq<string>, b: seq<Meaning>, k: nat)
    requires k < |a| == |b| && OperandsMatch(x, a[..k], y, b[..k])
    ensures x + Families(a[..k + 1]) == x + Families(a[..k]) + Family(a[k])
    ensures y + Families(b[..k + 1]) == y + Families(b[..k]) + Family(b[k])
    ensures OperandsMatch(x, a[..k + 1], y, b[..k + 1]) <==>
            && SameSkeleton(a[k], b[k])
            && Aligned(x + Families(a[..k]) + Family(a[k]), y + Families(b[..k]) + Family(b[k]))
  {
    assert a[..k + 1][..k] == a[..k] && b[..k + 1][..k] == b[..k];
    assert forall i :: 0 <= i < k ==> a[..k][i] == a[i] && b[..k][i] == b[i];
  }

  lemma OperandsMatchPrefix(x: seq<string>, a: seq<Meaning>, y: seq<string>, b: seq<Meaning>, k: nat)
    requires k <= |a| && OperandsMatch(x, a, y, b) && |x| == |y|
    ensures OperandsMatch(x, a[..k], y, b[..k])
  {
    FamiliesGrow(a, k);
    FamiliesGrow(b, k);
    SkeletonsNameAlike(a[..k], b[..k]);
    PrefixAligned(x, Families(a[..k]), Families(a), y, Families(b[..k]), Families(b));
  }

  /** Longer lists that align have aligned beginnings. */
  lemma PrefixAligned(x: seq<string>, a: seq<string>, a': seq<string>, y: seq<string>, b: seq<string>, b': seq<string>)
    requires a <= a' && b <= b' && |x + a| == |y + b|
    ensures Aligned(x + a', y + b') ==> Aligned(x + a, y + b)
  {
    assert x + a <= x + a' && y + b <= y + b';
  }

  lemma {:induction false} FamiliesGrow(a: seq<Meaning>, k: nat)
    requires k <= |a|
    ensures Families(a[..k]) <= Families(a)
    decreases |a| - k
  {
    if k == |a| {
      assert a[..k] == a;
    } else {
      FamiliesGrow(a, k + 1);
      assert a[..k + 1][..k] == a[..k];
    }
  }

  /** Operands of the same skeleton name equally many registers. */
  lemma {:induction false} SkeletonsNameAlike(a: seq<Meaning>, b: seq<Meaning>)
    requires |a| == |b| && forall i :: 0 <= i < |a| ==> SameSkeleton(a[i], b[i])
    ensures |Families(a)| == |Families(b)|
  {
    if a != [] {
      SkeletonsNameAlike(a[..|a| - 1], b[..|a| - 1]);
    }
  }

  // ---------------------------------------------------------------- whole signatures

  datatype SignatureSpec = SignatureSpec(
    allowSizeChange: bool, sizeIndices: (nat, nat), renamed: set<int>)

  /** The shapes of a signature's instructions; None where an operand is unsupported. */
  function Shapes(instructions: seq<Instruction>, spec: SignatureSpec): (shapes: seq<Option<Shape>>)
    ensures |shapes| == |instructions|
  {
    seq(|instructions|, i requires 0 <= i < |instructions| =>
      SemanticShape(instructions[i], spec.allowSizeChange && (i == spec.sizeIndices.0 || i == spec.sizeIndices.1)))
  }

  ghost predicate AllSupported(shapes: seq<Option<Shape>>) {
    forall i :: 0 <= i < |shapes| ==> shapes[i].Some?
  }

  ghost function Values(shapes: seq<Option<Shape>>): (values: seq<Shape>)
    requires AllSupported(shapes)
    ensures |values| == |shapes| && forall i :: 0 <= i < |values| ==> values[i] == shapes[i].value
  {
    seq(|shapes|, i requires 0 <= i < |shapes| => shapes[i].value)
  }

  predicate HasSize(instructions: seq<Instruction>, index: nat) {
    && index < |instructions| && |instructions[index].operands| == 2
    && instructions[index].operands[1].Imm?
  }

  /** Both size operands are present, equal, multiples of eight and between 0x100 and 0x1000. */
  predicate SizesConsistent(candidate: seq<Instruction>, indices: (nat, nat)) {
    && HasSize(candidate, indices.0) && HasSize(candidate, indices.1)
    && var size := candidate[indices.0].operands[1].value;
       size == candidate[indices.1].operands[1].value && 0x100 <= size <= 0x1000 && size % 8 == 0
  }

  method ValidateSemanticMatch(reference: seq<Instruction>, candidate: seq<Instruction>, spec: SignatureSpec)
    returns (ok: bool)
    ensures ok <==> && AllSupported(Shapes(reference, spec)) && AllSupported(Shapes(candidate, spec))
                    && Matches(Values(Shapes(reference, spec)), Values(Shapes(candidate, spec)), spec.renamed)
                    && (spec.allowSizeChange ==> SizesConsistent(candidate, spec.sizeIndices))
  {
    ok := CompareShapes(Shapes(reference, spec), Shapes(candidate, spec), spec.renamed);
    if ok && spec.allowSizeChange {
      ok := SizesConsistent(candidate, spec.sizeIndices);
    }
  }

  method CompareShapes(reference: seq<Option<Shape>>, candidate: seq<Option<Shape>>, renamed: set<int>)
    returns (ok: bool)
    ensures ok <==> AllSupported(reference) && AllSupported(candidate)
                    && Matches(Values(reference), Values(candidate), renamed)
  {
    if |reference| != |candidate| {
      return false;
    }
    var renames := new Renames();
    for n := 0 to |reference|
      invariant AllSupported(reference[..n]) && AllSupported(candidate[..n])
      invariant Matches(Values(reference[..n]), Values(candidate[..n]), renamed)
      invariant fresh(renames) && renames.Valid()
      invariant renames.from == RenamedFamilies(Values(reference[..n]), renamed)
      invariant renames.to == RenamedFamilies(Values(candidate[..n]), renamed)
    {
      if reference[n].None? || candidate[n].None? {
        return false;
      }
      var a, b := reference[n].value, candidate[n].value;
      ValuesGrow(reference, n);
      ValuesGrow(candidate, n);
      ExtendMatch(Values(reference[..n]), a, Values(candidate[..n]), b, renamed);
      if n in renamed {
        ok := renames.RenamedShapesMatch(a, b);
      } else {
        ok := a == b;
      }
      if !ok {
        MismatchAt(reference, candidate, renamed, n);
        return false;
      }
    }
    assert reference[..|reference|] == reference && candidate[..|candidate|] == candidate;
    return true;
  }

  /** The test at index `n`, after the shapes before it matched. */
  ghost predicate MatchesAt(a: seq<Shape>, x: Shape, b: seq<Shape>, y: Shape, renamed: set<int>) {
    if |a| in renamed then
      && x.mnemonic == y.mnemonic
      && OperandsMatch(RenamedFamilies(a, renamed), x.operands, RenamedFamilies(b, renamed), y.operands)
    else x == y
  }

  lemma ExtendMatch(a: seq<Shape>, x: Shape, b: seq<Shape>, y: Shape, renamed: set<int>)
    requires Matches(a, b, renamed)
    ensures RenamedFamilies(a + [x], renamed) ==
            RenamedFamilies(a, renamed) + Named(x, |a| in renamed)
    ensures RenamedFamilies(b + [y], renamed) ==
            RenamedFamilies(b, renamed) + Named(y, |b| in renamed)
    ensures Matches(a + [x], b + [y], renamed) <==> MatchesAt(a, x, b, y, renamed)
  {
    var a', b', n := a + [x], b + [y], |a|;
    assert a'[..n] == a && b'[..n] == b && a'[n] == x && b'[n] == y;
    assert RenamedFamilies(a, renamed) + [] == RenamedFamilies(a, renamed);
    assert RenamedFamilies(b, renamed) + [] == RenamedFamilies(b, renamed);
    if Matches(a', b', renamed) {
      assert ShapeMatches(a'[n], b'[n], n in renamed);
    }
  }

  lemma {:induction false} MatchesPrefix(a: seq<Shape>, b: seq<Shape>, renamed: set<int>, n: nat)
    requires Matches(a, b, renamed) && n <= |a|
    ensures Matches(a[..n], b[..n], renamed)
    decreases |a|
  {
    if n == |a| {
      assert a[..n] == a && b[..n] == b;
    } else {
      var m := |a| - 1;
      LastShapeDropped(a, b, renamed);
      MatchesPrefix(a[..m], b[..m], renamed, n);
      assert a[..m][..n] == a[..n] && b[..m][..n] == b[..n];
    }
  }

  lemma LastShapeDropped(a: seq<Shape>, b: seq<Shape>, renamed: set<int>)
    requires Matches(a, b, renamed) && a != []
    ensures Matches(a[..|a| - 1], b[..|a| - 1], renamed)
  {
    var m := |a| - 1;
    forall i | 0 <= i < m
      ensures ShapeMatches(a[..m][i], b[..m][i], i in renamed)
    {
      assert ShapeMatches(a[i], b[i], i in renamed);
    }
    ShapesNameAlike(a[..m], b[..m], renamed);
    var x, y := RenamedFamilies(a[..m], renamed), RenamedFamilies(b[..m], renamed);
    assert x <= RenamedFamilies(a, renamed) && y <= RenamedFamilies(b, renamed);
  }

  lemma {:induction false} ShapesNameAlike(a: seq<Shape>, b: seq<Shape>, renamed: set<int>)
    requires |a| == |b| && forall i :: 0 <= i < |a| ==> ShapeMatches(a[i], b[i], i in renamed)
    ensures |RenamedFamilies(a, renamed)| == |RenamedFamilies(b, renamed)|
  {
    if a != [] {
      var m := |a| - 1;
      assert forall i :: 0 <= i < m ==> a[..m][i] == a[i] && b[..m][i] == b[i];
      ShapesNameAlike(a[..m], b[..m], renamed);
      assert ShapeMatches(a[m], b[m], m in renamed);
      SkeletonsNameAlike(a[m].operands, b[m].operands);
    }
  }

  lemma ValuesGrow(shapes: seq<Option<Shape>>, n: nat)
    requires n < |shapes| && shapes[n].Some? && AllSupported(shapes[..n])
    ensures AllSupported(shapes[..n + 1])
    ensures Values(shapes[..n + 1]) == Values(shapes[..n]) + [shapes[n].value]
    ensures AllSupported(shapes) ==> Values(shapes)[..n + 1] == Values(shapes[..n + 1])
  {
    assert forall i :: 0 <= i < n ==> shapes[..n][i] == shapes[i];
    assert forall i :: 0 <= i < n + 1 ==> shapes[..n + 1][i] == shapes[i];
  }

  lemma MismatchAt(a: seq<Option<Shape>>, b: seq<Option<Shape>>, renamed: set<int>, n: nat)
    requires n < |a| == |b| && AllSupported(a[..n + 1]) && AllSupported(b[..n + 1])
    requires !Matches(Values(a[..n + 1]), Values(b[..n + 1]), renamed)
    ensures AllSupported(a) && AllSupported(b) ==> !Matches(Values(a), Values(b), renamed)
  {
    if AllSupported(a) && AllSupported(b) && Matches(Values(a), Values(b), renamed) {
      assert Values(a)[..n + 1] == Values(a[..n + 1]) && Values(b)[..n + 1] == Values(b[..n + 1]);
      MatchesPrefix(Values(a), Values(b), renamed, n + 1);
    }
  }

  // ---------------------------------------------------------------- an equivalence, and one renaming

  lemma MatchesReflexive(a: seq<Shape>, renamed: set<int>)
    ensures Matches(a, a, renamed)
  {
  }

  lemma MatchesSymmetric(a: seq<Shape>, b: seq<Shape>, renamed: set<int>)
    requires Matches(a, b, renamed)
    ensures Matches(b, a, renamed)
  {
    forall i | 0 <= i < |a|
      ensures ShapeMatches(b[i], a[i], i in renamed)
    {
      assert ShapeMatches(a[i], b[i], i in renamed);
    }
  }

  lemma MatchesTransitive(a: seq<Shape>, b: seq<Shape>, c: seq<Shape>, renamed: set<int>)
    requires Matches(a, b, renamed) && Matches(b, c, renamed)
    ensures Matches(a, c, renamed)
  {
    forall i | 0 <= i < |a|
      ensures ShapeMatches(a[i], c[i], i in renamed)
    {
      assert ShapeMatches(a[i], b[i], i in renamed) && ShapeMatches(b[i], c[i], i in renamed);
    }
    var x, y := RenamedFamilies(a, renamed), RenamedFamilies(b, renamed);
    assert forall i, j :: 0 <= i < |x| && 0 <= j < |x| ==> (x[i] == x[j] <==> y[i] == y[j]);
  }

  ghost predicate Injective(m: map<string, string>) {
    forall f, g :: f in m && g in m && m[f] == m[g] ==> f == g
  }

  /** `m` carries each name of `a` to the one of `b` at the same place. */
  ghost predicate Carries(m: map<string, string>, a: seq<string>, b: seq<string>) {
    |a| == |b| && forall i :: 0 <= i < |a| ==> a[i] in m && m[a[i]] == b[i]
  }

  lemma {:induction false} AlignedIsInjection(a: seq<string>, b: seq<string>) returns (m: map<string, string>)
    requires Aligned(a, b)
    ensures Injective(m) && Carries(m, a, b)
    ensures forall f :: f in m ==> f in a && m[f] in b
  {
    if a == [] {
      m := map[];
    } else {
      var n := |a| - 1;
      m := AlignedIsInjection(a[..n], b[..n]);
      forall f | f in m
        ensures f == a[n] <==> m[f] == b[n]
      {
        var i :| 0 <= i < n && a[..n][i] == f;
        assert a[i] == f && b[..n][i] == b[i];
      }
      m := m[a[n] := b[n]];
    }
  }

  /** The operand or shape reads the same once its register families are renamed by `m`. */
  ghost predicate OperandRenames(m: map<string, string>, a: Meaning, b: Meaning) {
    if a.MReg? && b.MReg? then
      a.size == b.size && RegisterFamily(a.name) in m && m[RegisterFamily(a.name)] == RegisterFamily(b.name)
    else a == b
  }

  ghost predicate ShapeRenames(m: map<string, string>, a: Shape, b: Shape) {
    && a.mnemonic == b.mnemonic && |a.operands| == |b.operands|
    && forall k :: 0 <= k < |a.operands| ==> OperandRenames(m, a.operands[k], b.operands[k])
  }

  ghost predicate AllRename(m: map<string, string>, a: seq<Shape>, b: seq<Shape>, renamed: set<int>) {
    && |a| == |b|
    && forall i :: 0 <= i < |a| ==> ShapeEqual(m, a[i], b[i], i in renamed)
  }

  ghost predicate ShapeEqual(m: map<string, string>, a: Shape, b: Shape, renamed: bool) {
    if renamed then ShapeRenames(m, a, b) else a == b
  }

  lemma CarriesConcat(m: map<string, string>, a: seq<string>, x: seq<string>, b: seq<string>, y: seq<string>)
    requires |a| == |b|
    ensures Carries(m, a + x, b + y) <==> Carries(m, a, b) && Carries(m, x, y)
  {
    if Carries(m, a + x, b + y) {
      forall i | 0 <= i < |a|
        ensures a[i] in m && m[a[i]] == b[i]
      {
        assert (a + x)[i] in m && m[(a + x)[i]] == (b + y)[i];
      }
      forall i | 0 <= i < |x|
        ensures x[i] in m && m[x[i]] == y[i]
      {
        assert (a + x)[|a| + i] in m && m[(a + x)[|a| + i]] == (b + y)[|a| + i];
      }
    }
  }

  lemma {:induction false} OperandsCarry(m: map<string, string>, a: seq<Meaning>, b: seq<Meaning>)
    requires |a| == |b| && forall k :: 0 <= k < |a| ==> SameSkeleton(a[k], b[k])
    ensures Carries(m, Families(a), Families(b)) <==> forall k :: 0 <= k < |a| ==> OperandRenames(m, a[k], b[k])
  {
    if a != [] {
      var n := |a| - 1;
      OperandsCarry(m, a[..n], b[..n]);
      assert forall k :: 0 <= k < n ==> a[..n][k] == a[k] && b[..n][k] == b[k];
      SkeletonsNameAlike(a[..n], b[..n]);
      CarriesConcat(m, Families(a[..n]), Family(a[n]), Families(b[..n]), Family(b[n]));
      assert Carries(m, Family(a[n]), Family(b[n])) <==> OperandRenames(m, a[n], b[n]) by {
        OneOperandCarries(m, a[n], b[n]);
      }
    }
  }

  lemma OneOperandCarries(m: map<string, string>, a: Meaning, b: Meaning)
    requires SameSkeleton(a, b)
    ensures Carries(m, Family(a), Family(b)) <==> OperandRenames(m, a, b)
  {
    if a.MReg? && b.MReg? {
      assert Family(a)[0] == RegisterFamily(a.name) && Family(b)[0] == RegisterFamily(b.name);
    }
  }

  lemma ShapeCarries(m: map<string, string>, a: Shape, b: Shape, renamed: bool)
    requires ShapeMatches(a, b, renamed)
    ensures |Named(a, renamed)| == |Named(b, renamed)|
    ensures Carries(m, Named(a, renamed), Named(b, renamed)) <==> ShapeEqual(m, a, b, renamed)
  {
    if renamed {
      SkeletonsNameAlike(a.operands, b.operands);
      OperandsCarry(m, a.operands, b.operands);
    }
  }

  lemma {:induction false} ShapesCarry(m: map<string, string>, a: seq<Shape>, b: seq<Shape>, renamed: set<int>)
    requires |a| == |b| && forall i :: 0 <= i < |a| ==> ShapeMatches(a[i], b[i], i in renamed)
    ensures Carries(m, RenamedFamilies(a, renamed), RenamedFamilies(b, renamed)) <==> AllRename(m, a, b, renamed)
  {
    if a != [] {
      var n := |a| - 1;
      var a', b' := a[..n], b[..n];
      assert forall i :: 0 <= i < n ==> a'[i] == a[i] && b'[i] == b[i];
      ShapesCarry(m, a', b', renamed);
      ShapesNameAlike(a', b', renamed);
      ShapeCarries(m, a[n], b[n], n in renamed);
      CarriesConcat(m, RenamedFamilies(a', renamed), Named(a[n], n in renamed),
                    RenamedFamilies(b', renamed), Named(b[n], n in renamed));
      assert AllRename(m, a, b, renamed) <==> AllRename(m, a', b', renamed) && ShapeEqual(m, a[n], b[n], n in renamed);
    }
  }

  /** The comparison succeeds exactly when one injective map of register families makes the
      shapes equal at all renamed indices together. */
  lemma MatchesMeansOneRenaming(a: seq<Shape>, b: seq<Shape>, renamed: set<int>)
    ensures Matches(a, b, renamed) <==> exists m :: Injective(m) && AllRename(m, a, b, renamed)
  {
    if Matches(a, b, renamed) {
      var m := AlignedIsInjection(RenamedFamilies(a, renamed), RenamedFamilies(b, renamed));
      ShapesCarry(m, a, b, renamed);
    }
    if m: map<string, string> :| Injective(m) && AllRename(m, a, b, renamed) {
      forall i | 0 <= i < |a|
        ensures ShapeMatches(a[i], b[i], i in renamed)
      {
        assert ShapeEqual(m, a[i], b[i], i in renamed);
      }
      ShapesCarry(m, a, b, renamed);
    }
  }
}

/**
 Derivations in sequence: the ranges and anchors derived for one build are the reference of
 the next derivation, and two derivations amount to one along the composed offsets.
 */
module DerivationChains {
  import opened Basics
  import opened ConstructorRanges

  // ---------------------------------------------------------------- ranges are determined by what they run

  lemma SeparatedOrder(a: seq<Range>, i: nat, j: nat)
    requires Separated(a) && i < j < |a|
    ensures a[i].endExclusive < a[j].begin
    decreases j
  {
    if i < j - 1 {
      SeparatedOrder(a, i, j - 1);
    }
  }

  /** The index just before a range, and the one just after, do not run. */
  lemma GapAround(a: seq<Range>, k: nat)
    requires Separated(a) && k < |a|
    ensures !Runs(a, a[k].begin - 1) && !Runs(a, a[k].endExclusive)
  {
    forall j | 0 <= j < |a|
      ensures !Contains(a[j], a[k].begin - 1) && !Contains(a[j], a[k].endExclusive)
    {
      if j < k {
        SeparatedOrder(a, j, k);
      } else if k < j {
        SeparatedOrder(a, k, j);
      }
    }
  }

  lemma RunsTail(a: seq<Range>, index: int)
    requires Separated(a) && a != []
    ensures Runs(a[1..], index) <==> Runs(a, index) && !Contains(a[0], index)
    ensures Runs(a, index) ==> a[0].begin <= index
  {
    if Runs(a, index) {
      var k :| 0 <= k < |a| && Contains(a[k], index);
      if k > 0 {
        SeparatedOrder(a, 0, k);
        assert Contains(a[1..][k - 1], index);
      }
    }
    if Runs(a[1..], index) {
      var k :| 0 <= k < |a[1..]| && Contains(a[1..][k], index);
      SeparatedOrder(a, 0, k + 1);
      assert Contains(a[k + 1], index);
    }
  }

  /** Two separated lists that run the same indices are the same list. */
  lemma {:induction false} SeparatedIsUnique(a: seq<Range>, b: seq<Range>)
    requires Separated(a) && Separated(b)
    requires forall i :: Runs(a, i) <==> Runs(b, i)
    ensures a == b
  {
    if a == [] || b == [] {
      FirstRuns(a);
      FirstRuns(b);
    } else {
      FirstRangesAgree(a, b);
      forall i
        ensures Runs(a[1..], i) <==> Runs(b[1..], i)
      {
        RunsTail(a, i);
        RunsTail(b, i);
      }
      SeparatedIsUnique(a[1..], b[1..]);
      assert a == [a[0]] + a[1..] && b == [b[0]] + b[1..];
    }
  }

  lemma FirstRuns(a: seq<Range>)
    requires Separated(a)
    ensures a != [] ==> Runs(a, a[0].begin)
  {
    if a != [] {
      assert Contains(a[0], a[0].begin);
    }
  }

  lemma FirstRangesAgree(a: seq<Range>, b: seq<Range>)
    requires Separated(a) && Separated(b) && a != [] && b != []
    requires forall i :: Runs(a, i) <==> Runs(b, i)
    ensures a[0] == b[0]
  {
    assert Contains(a[0], a[0].begin) && Contains(b[0], b[0].begin);
    assert Runs(b, a[0].begin) && Runs(a, b[0].begin);
    RunsTail(a, b[0].begin);
    RunsTail(b, a[0].begin);
    GapAround(a, 0);
    GapAround(b, 0);
    assert !Contains(b[0], a[0].endExclusive) && !Contains(a[0], b[0].endExclusive);
  }

  // ---------------------------------------------------------------- chained derivations

  /** The derived anchors: candidate indices of the leading constructors, ascending. */
  ghost predicate IsReindexed(index: seq<int>, offsets: seq<int>) {
    && |index| == |offsets| && Ascending(index)
    && (forall i :: 0 <= i < |index| ==> index[i] - BEGIN in offsets)
    && (forall k :: 0 <= k < |offsets| ==> BEGIN + offsets[k] in index)
  }

  ghost function Shifted(offsets: seq<int>): (s: seq<int>) {
    seq(|offsets|, k requires 0 <= k < |offsets| => BEGIN + offsets[k])
  }

  ghost predicate Ascending(index: seq<int>) {
    forall i, j :: 0 <= i < j < |index| ==> index[i] < index[j]
  }

  lemma InsertedAnchor(index: seq<int>, x: int, k: nat)
    requires Ascending(index) && k <= |index|
    requires forall i :: 0 <= i < k ==> index[i] < x
    requires k < |index| ==> x < index[k]
    ensures Ascending(index[..k] + [x] + index[k..])
  {
    var more := index[..k] + [x] + index[k..];
    forall i, j | 0 <= i < j < |more|
      ensures more[i] < more[j]
    {
      var before := if i < k then i else i - 1;
      var behind := if j < k then j else j - 1;
      assert i != k ==> more[i] == index[before];
      assert j != k ==> more[j] == index[behind];
    }
  }

  lemma InsertedOnce(index: seq<int>, x: int, k: nat)
    requires k <= |index|
    ensures multiset(index[..k] + [x] + index[k..]) == multiset(index) + multiset{x}
  {
    assert index == index[..k] + index[k..];
  }

  lemma NotYetThere(index: seq<int>, offsets: seq<int>, n: nat, k: nat)
    requires n < |offsets| && Distinct(offsets) && k < |index|
    requires multiset(index) == multiset(Shifted(offsets[..n]))
    ensures index[k] != BEGIN + offsets[n]
  {
    assert index[k] in multiset(Shifted(offsets[..n]));
    var j :| 0 <= j < n && Shifted(offsets[..n])[j] == index[k];
    assert offsets[j] != offsets[n];
  }

  lemma ArrangedIsReindexed(index: seq<int>, offsets: seq<int>)
    requires Ascending(index) && multiset(index) == multiset(Shifted(offsets))
    ensures IsReindexed(index, offsets)
  {
    assert |multiset(index)| == |index| && |multiset(Shifted(offsets))| == |offsets|;
    forall i | 0 <= i < |index|
      ensures index[i] - BEGIN in offsets
    {
      assert index[i] in multiset(Shifted(offsets));
      var k :| 0 <= k < |offsets| && Shifted(offsets)[k] == index[i];
      assert offsets[k] == index[i] - BEGIN;
    }
    forall k | 0 <= k < |offsets|
      ensures BEGIN + offsets[k] in index
    {
      assert Shifted(offsets)[k] in multiset(index);
    }
  }

  /** Each anchor carries the address that was matched for its slot. */
  ghost predicate Carries(index: seq<int>, rvas: seq<int>, offsets: seq<int>, matched: seq<int>)
    requires |offsets| == |matched|
  {
    && |rvas| == |index|
    && forall i, k :: 0 <= i < |index| && 0 <= k < |offsets| && index[i] == BEGIN + offsets[k] ==> rvas[i] == matched[k]
  }

  lemma CarriesOneMore(index: seq<int>, rvas: seq<int>, offsets: seq<int>, matched: seq<int>, n: nat, at: nat)
    requires n < |offsets| == |matched| && Distinct(offsets) && at <= |index| == |rvas|
    requires Carries(index, rvas, offsets[..n], matched[..n])
    requires forall i :: 0 <= i < |index| ==> index[i] != BEGIN + offsets[n]
    ensures Carries(index[..at] + [BEGIN + offsets[n]] + index[at..], rvas[..at] + [matched[n]] + rvas[at..],
                    offsets[..n + 1], matched[..n + 1])
  {
    var index', rvas' := index[..at] + [BEGIN + offsets[n]] + index[at..], rvas[..at] + [matched[n]] + rvas[at..];
    var offsets', matched' := offsets[..n + 1], matched[..n + 1];
    forall i, k | 0 <= i < |index'| && 0 <= k < |offsets'| && index'[i] == BEGIN + offsets'[k]
      ensures rvas'[i] == matched'[k]
    {
      if i != at {
        var i' := if i < at then i else i - 1;
        assert index'[i] == index[i'] && rvas'[i] == rvas[i'];
        assert k < n && offsets[..n][k] == offsets[k] && matched[..n][k] == matched[k];
      }
    }
  }

  /** The anchors a derivation writes for the next one: indices with their addresses. */
  method ReindexedAnchors(offsets: seq<int>, matched: seq<int>) returns (index: seq<int>, rvas: seq<int>)
    requires Distinct(offsets) && |offsets| == |matched|
    ensures IsReindexed(index, offsets) && Carries(index, rvas, offsets, matched)
  {
    index, rvas := [], [];
    for n := 0 to |offsets|
      invariant Ascending(index) && multiset(index) == multiset(Shifted(offsets[..n]))
      invariant Carries(index, rvas, offsets[..n], matched[..n])
    {
      var x := BEGIN + offsets[n];
      var k := 0;
      while k < |index| && index[k] < x
        invariant k <= |index| && forall i :: 0 <= i < k ==> index[i] < x
      {
        k := k + 1;
      }
      forall i | 0 <= i < |index|
        ensures index[i] != x
      {
        NotYetThere(index, offsets, n, i);
      }
      InsertedAnchor(index, x, k);
      InsertedOnce(index, x, k);
      CarriesOneMore(index, rvas, offsets, matched, n, k);
      assert Shifted(offsets[..n + 1]) == Shifted(offsets[..n]) + [x];
      index, rvas := index[..k] + [x] + index[k..], rvas[..k] + [matched[n]] + rvas[k..];
    }
    assert offsets[..|offsets|] == offsets && matched[..|matched|] == matched;
    ArrangedIsReindexed(index, offsets);
  }

  /** What `match_leading_constructors` asks of the reference side's anchors: they lie in the
      leading window, leave a later constructor, and hold the init-array's addresses. */
  ghost predicate AnchorsFit(index: seq<int>, rvas: seq<int>, init: seq<int>) {
    && index != [] && |rvas| == |index|
    && index[|index| - 1] + 1 < |init|
    && forall i :: 0 <= i < |index| ==>
         BEGIN <= index[i] < BEGIN + LEADING_WINDOW && index[i] < |init| && rvas[i] == init[index[i]]
  }

  /** A derived profile always passes the checks the next derivation makes of its reference:
      `init` is the candidate's init-array, in which the constructors were matched. */
  lemma DerivedProfileFits(ranges: seq<Range>, offsets: seq<int>, referenceIndex: seq<int>, window: int,
                           init: seq<int>, matched: seq<int>,
                           derived: seq<Range>, derivedIndex: seq<int>, derivedRvas: seq<int>)
    requires MatchOk(offsets, referenceIndex, window) && window <= LEADING_WINDOW && BEGIN + window < |init|
    requires |matched| == |offsets| && forall k :: 0 <= k < |offsets| ==> matched[k] == init[BEGIN + offsets[k]]
    requires IsRemap(derived, ranges, offsets, referenceIndex, window, |init|)
    requires IsReindexed(derivedIndex, offsets) && Carries(derivedIndex, derivedRvas, offsets, matched)
    ensures ReferenceFits(derived, derivedIndex, |init|)
    ensures AnchorsFit(derivedIndex, derivedRvas, init)
  {
    RangesFit(ranges, offsets, referenceIndex, window, |init|, derived, derivedIndex);
    forall i | 0 <= i < |derivedIndex|
      ensures BEGIN <= derivedIndex[i] < BEGIN + window && derivedRvas[i] == init[derivedIndex[i]]
    {
      AnchorHolds(derivedIndex, derivedRvas, offsets, matched, init, window, i);
    }
  }

  lemma AnchorHolds(index: seq<int>, rvas: seq<int>, offsets: seq<int>, matched: seq<int>, init: seq<int>,
                    window: int, i: nat)
    requires |matched| == |offsets| && Carries(index, rvas, offsets, matched) && BEGIN + window <= |init|
    requires forall k :: 0 <= k < |offsets| ==> 0 <= offsets[k] < window && matched[k] == init[BEGIN + offsets[k]]
    requires i < |index| && index[i] - BEGIN in offsets
    ensures BEGIN <= index[i] < BEGIN + window && rvas[i] == init[index[i]]
  {
    var k :| 0 <= k < |offsets| && offsets[k] == index[i] - BEGIN;
  }

  lemma RangesFit(ranges: seq<Range>, offsets: seq<int>, referenceIndex: seq<int>, window: int,
                  count: int, derived: seq<Range>, derivedIndex: seq<int>)
    requires MatchOk(offsets, referenceIndex, window) && BEGIN + window < count
    requires IsRemap(derived, ranges, offsets, referenceIndex, window, count)
    requires IsReindexed(derivedIndex, offsets)
    ensures ReferenceFits(derived, derivedIndex, count)
  {
    var n := |derivedIndex| - 1;
    var leadingEnd := derivedIndex[n] + 1;
    assert forall o :: o in offsets ==> o + BEGIN < leadingEnd by {
      forall o | o in offsets
        ensures o + BEGIN < leadingEnd
      {
        var k :| 0 <= k < |offsets| && offsets[k] == o;
        var i :| 0 <= i < |derivedIndex| && derivedIndex[i] == BEGIN + offsets[k];
      }
    }
    assert derivedIndex[n] - BEGIN in offsets;
    assert Contains(derived[0], derived[0].begin);
    assert ShouldRun(ranges, offsets, referenceIndex, window, count, derived[0].begin);

    var last := derived[|derived| - 1];
    GapAround(derived, |derived| - 1);
    assert !ShouldRun(ranges, offsets, referenceIndex, window, count, last.begin - 1);
    assert !ShouldRun(ranges, offsets, referenceIndex, window, count, last.endExclusive);
    assert Contains(last, last.begin);
    assert ShouldRun(ranges, offsets, referenceIndex, window, count, count - 1);
    var k :| 0 <= k < |derived| && Contains(derived[k], count - 1);
    if k < |derived| - 1 {
      SeparatedOrder(derived, k, |derived| - 1);
    }
  }

  ghost function Position(s: seq<int>, x: int): (i: nat)
    requires x in s
    ensures i < |s| && s[i] == x
  {
    var i: nat :| i < |s| && s[i] == x; i
  }

  /** Following each constructor from A to B and from B to C. */
  ghost function Composed(toB: seq<int>, indexB: seq<int>, toC: seq<int>): (toC': seq<int>)
    requires IsReindexed(indexB, toB) && |toC| == |indexB|
    ensures |toC'| == |toB|
  {
    seq(|toB|, k requires 0 <= k < |toB| => toC[Position(indexB, BEGIN + toB[k])])
  }

  /** In B, a leading constructor runs exactly when it ran in A. */
  lemma KeepsDecision(ranges: seq<Range>, offsets: seq<int>, referenceIndex: seq<int>, window: int,
                      count: int, derived: seq<Range>, k: nat)
    requires MatchOk(offsets, referenceIndex, window) && Distinct(offsets)
    requires IsRemap(derived, ranges, offsets, referenceIndex, window, count)
    requires k < |offsets|
    ensures Runs(derived, BEGIN + offsets[k]) <==> Runs(ranges, referenceIndex[k])
  {
    assert offsets[k] in offsets;
    assert Runs(derived, BEGIN + offsets[k]) <==>
           ShouldRun(ranges, offsets, referenceIndex, window, count, BEGIN + offsets[k]);
  }

  /** The A-to-B step, with the anchors of B that the B-to-C step starts from. */
  ghost predicate Derived(rangesA: seq<Range>, indexA: seq<int>, toB: seq<int>, windowB: int, countB: int,
                          rangesB: seq<Range>, indexB: seq<int>) {
    && MatchOk(toB, indexA, windowB) && Distinct(toB)
    && IsRemap(rangesB, rangesA, toB, indexA, windowB, countB)
    && IsReindexed(indexB, toB)
  }

  lemma AnchorComesFrom(rangesA: seq<Range>, indexA: seq<int>, toB: seq<int>, windowB: int, countB: int,
                        rangesB: seq<Range>, indexB: seq<int>, j: nat) returns (k: nat)
    requires Derived(rangesA, indexA, toB, windowB, countB, rangesB, indexB) && j < |indexB|
    ensures k < |toB| && BEGIN + toB[k] == indexB[j]
    ensures Runs(rangesB, indexB[j]) <==> Runs(rangesA, indexA[k])
  {
    assert indexB[j] - BEGIN in toB;
    k :| k < |toB| && toB[k] == indexB[j] - BEGIN;
    KeepsDecision(rangesA, toB, indexA, windowB, countB, rangesB, k);
  }

  /** What the chained map sends to a slot, the composed map sends there too. */
  lemma ComposedReaches(rangesA: seq<Range>, indexA: seq<int>, toB: seq<int>, windowB: int, countB: int,
                        rangesB: seq<Range>, indexB: seq<int>, toC: seq<int>, j: nat) returns (k: nat)
    requires Derived(rangesA, indexA, toB, windowB, countB, rangesB, indexB) && |toC| == |indexB|
    requires j < |toC|
    ensures k < |toB| && Composed(toB, indexB, toC)[k] == toC[j]
    ensures Runs(rangesB, indexB[j]) <==> Runs(rangesA, indexA[k])
  {
    k := AnchorComesFrom(rangesA, indexA, toB, windowB, countB, rangesB, indexB, j);
    assert Position(indexB, BEGIN + toB[k]) == j;
  }

  ghost predicate OnSlot(ranges: seq<Range>, offsets: seq<int>, index: seq<int>, slot: int, k: int, run: bool)
    requires |offsets| == |index|
  {
    0 <= k < |offsets| && offsets[k] == slot && Runs(ranges, index[k]) == run
  }

  /** Whatever one map puts on `slot`, the other puts there with the same decision. */
  ghost predicate CarriesOver(ranges: seq<Range>, offsets: seq<int>, index: seq<int>,
                              ranges': seq<Range>, offsets': seq<int>, index': seq<int>, slot: int)
    requires |offsets| == |index| && |offsets'| == |index'|
  {
    forall k, run :: OnSlot(ranges, offsets, index, slot, k, run) ==>
      exists k' :: OnSlot(ranges', offsets', index', slot, k', run)
  }

  lemma SlotFollows(ranges: seq<Range>, offsets: seq<int>, index: seq<int>,
                    ranges': seq<Range>, offsets': seq<int>, index': seq<int>, slot: int)
    requires |offsets| == |index| && |offsets'| == |index'|
    requires CarriesOver(ranges, offsets, index, ranges', offsets', index', slot)
    ensures slot in offsets ==> slot in offsets'
    ensures slot in offsets && SlotRuns(ranges, offsets, index, slot) ==> SlotRuns(ranges', offsets', index', slot)
  {
    if slot in offsets {
      var k :| 0 <= k < |offsets| && offsets[k] == slot;
      assert OnSlot(ranges, offsets, index, slot, k, Runs(ranges, index[k]));
      if SlotRuns(ranges, offsets, index, slot) {
        var j :| 0 <= j < |offsets| && offsets[j] == slot && Runs(ranges, index[j]);
        assert OnSlot(ranges, offsets, index, slot, j, true);
      }
    }
  }

  /** The two maps put the same constructors on each slot of C, with the same decision. */
  lemma ComposedSlot(rangesA: seq<Range>, indexA: seq<int>, toB: seq<int>, windowB: int, countB: int,
                     rangesB: seq<Range>, indexB: seq<int>, toC: seq<int>, slot: int)
    requires Derived(rangesA, indexA, toB, windowB, countB, rangesB, indexB) && |toC| == |indexB|
    ensures CarriesOver(rangesB, toC, indexB, rangesA, Composed(toB, indexB, toC), indexA, slot)
    ensures CarriesOver(rangesA, Composed(toB, indexB, toC), indexA, rangesB, toC, indexB, slot)
  {
    var composed := Composed(toB, indexB, toC);
    forall j, run | OnSlot(rangesB, toC, indexB, slot, j, run)
      ensures exists k :: OnSlot(rangesA, composed, indexA, slot, k, run)
    {
      var k := ComposedReaches(rangesA, indexA, toB, windowB, countB, rangesB, indexB, toC, j);
      assert OnSlot(rangesA, composed, indexA, slot, k, run);
    }
    forall k, run | OnSlot(rangesA, composed, indexA, slot, k, run)
      ensures exists j :: OnSlot(rangesB, toC, indexB, slot, j, run)
    {
      KeepsDecision(rangesA, toB, indexA, windowB, countB, rangesB, k);
      assert OnSlot(rangesB, toC, indexB, slot, Position(indexB, BEGIN + toB[k]), run);
    }
  }

  /** Deriving A to B to C yields the very same range list as deriving A to C along the
      composed offsets. */
  lemma ChainedDerivation(rangesA: seq<Range>, indexA: seq<int>, toB: seq<int>, windowB: int, countB: int,
                          rangesB: seq<Range>, indexB: seq<int>, toC: seq<int>, windowC: int, countC: int,
                          chained: seq<Range>, direct: seq<Range>)
    requires Derived(rangesA, indexA, toB, windowB, countB, rangesB, indexB)
    requires MatchOk(toC, indexB, windowC)
    requires IsRemap(chained, rangesB, toC, indexB, windowC, countC)
    requires IsRemap(direct, rangesA, Composed(toB, indexB, toC), indexA, windowC, countC)
    ensures chained == direct
  {
    forall i
      ensures Runs(chained, i) <==> Runs(direct, i)
    {
      ComposedSlot(rangesA, indexA, toB, windowB, countB, rangesB, indexB, toC, i - BEGIN);
      SlotFollows(rangesB, toC, indexB, rangesA, Composed(toB, indexB, toC), indexA, i - BEGIN);
      SlotFollows(rangesA, Composed(toB, indexB, toC), indexA, rangesB, toC, indexB, i - BEGIN);
      assert ShouldRun(rangesB, toC, indexB, windowC, countC, i) <==>
             ShouldRun(rangesA, Composed(toB, indexB, toC), indexA, windowC, countC, i);
    }
    SeparatedIsUnique(chained, direct);
  }

  // ---------------------------------------------------------------- lists that are accepted

  lemma {:induction false} OrderedPairs(ranges: seq<Range>, count: int, i: nat, j: nat)
    requires ValidRanges(ranges, count) && i < j < |ranges|
    ensures ranges[i].endExclusive <= ranges[j].begin
    decreases j
  {
    if i < j - 1 {
      OrderedPairs(ranges, count, i, j - 1);
    }
  }

  /** A list is valid exactly when it is not empty, its ranges are not empty and lie in the
      array, and every index of a range precedes every index of the later ones. */
  lemma ValidExactly(ranges: seq<Range>, count: int)
    ensures ValidRanges(ranges, count) <==>
            && ranges != []
            && (forall k :: 0 <= k < |ranges| ==>
                  Contains(ranges[k], ranges[k].begin) && 0 <= ranges[k].begin && ranges[k].endExclusive <= count)
            && (forall i, j :: 0 <= i < j < |ranges| ==> Precedes(ranges[i], ranges[j]))
  {
    if ValidRanges(ranges, count) {
      forall i, j | 0 <= i < j < |ranges|
        ensures Precedes(ranges[i], ranges[j])
      {
        OrderedPairs(ranges, count, i, j);
      }
    }
    if (forall k :: 0 <= k < |ranges| ==> Contains(ranges[k], ranges[k].begin))
       && (forall i, j :: 0 <= i < j < |ranges| ==> Precedes(ranges[i], ranges[j])) {
      forall k | 0 < k < |ranges|
        ensures ranges[k - 1].endExclusive <= ranges[k].begin
      {
        assert Precedes(ranges[k - 1], ranges[k]);
        assert Contains(ranges[k - 1], ranges[k - 1].endExclusive - 1) && Contains(ranges[k], ranges[k].begin);
      }
    }
  }

  ghost predicate Precedes(a: Range, b: Range) {
    forall x, y :: Contains(a, x) && Contains(b, y) ==> x < y
  }

  /** A fitting reference replays nothing ahead of the leading constructors and everything
      behind them; a list whose ranges do not touch fits exactly then. */
  lemma FitsExactly(ranges: seq<Range>, index: seq<int>, count: int)
    requires index != [] && ValidRanges(ranges, count)
    ensures ReferenceFits(ranges, index, count) ==> ReplaysBehind(ranges, index, count)
    ensures Separated(ranges) && ReplaysBehind(ranges, index, count) ==> ReferenceFits(ranges, index, count)
  {
    var end, n := index[|index| - 1] + 1, |ranges| - 1;
    assert Contains(ranges[0], ranges[0].begin) && Runs(ranges, ranges[0].begin);
    if ReferenceFits(ranges, index, count) {
      forall i | Runs(ranges, i)
        ensures BEGIN <= i
      {
        var k :| 0 <= k < |ranges| && Contains(ranges[k], i);
        if k > 0 {
          OrderedPairs(ranges, count, 0, k);
        }
      }
      assert forall i :: end <= i < count ==> Contains(ranges[n], i);
    }
    if Separated(ranges) && ReplaysBehind(ranges, index, count) {
      GapAround(ranges, n);
      assert Runs(ranges, count - 1);
      var k :| 0 <= k < |ranges| && Contains(ranges[k], count - 1);
      if k < n {
        SeparatedOrder(ranges, k, n);
      }
    }
  }

  ghost predicate ReplaysBehind(ranges: seq<Range>, index: seq<int>, count: int)
    requires index != []
  {
    var end := index[|index| - 1] + 1;
    && end < count
    && (forall i :: Runs(ranges, i) ==> BEGIN <= i)
    && (forall i :: end <= i < count ==> Runs(ranges, i))
  }
}

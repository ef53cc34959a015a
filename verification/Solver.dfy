/**
 The matching solver: a partial bijection between reference and candidate functions, grown
 from unique shapes along the call graph and revised by scored matches.
 */
module Solver {
  import opened Basics
  import opened Scoring

  datatype Function = Function(size: int, shapeHash: int, calls: seq<int>)

  type Index = map<int, Function>

  // ---------------------------------------------------------------- the bijection

  /** `pairs` and `owners` are inverse partial bijections. */
  ghost predicate Bijection(pairs: map<int, int>, owners: map<int, int>) {
    && (forall s :: s in pairs ==> pairs[s] in owners && owners[pairs[s]] == s)
    && (forall o :: o in owners ==> owners[o] in pairs && pairs[owners[o]] == o)
  }

  /** The pairs once `start` is paired with `other`: whoever held `other` loses it, `start`
      leaves its former partner, and no one else is touched. */
  function Displaced(pairs: map<int, int>, start: int, other: int): map<int, int> {
    (map s | s in pairs && pairs[s] != other :: pairs[s])[start := other]
  }

  ghost predicate Extends(more: map<int, int>, pairs: map<int, int>) {
    forall s :: s in pairs ==> s in more && more[s] == pairs[s]
  }

  lemma DisplacedFresh(pairs: map<int, int>, owners: map<int, int>, start: int, other: int)
    requires Bijection(pairs, owners) && start !in pairs && other !in owners
    ensures Displaced(pairs, start, other) == pairs[start := other]
    ensures Extends(Displaced(pairs, start, other), pairs)
  {
    assert forall s :: s in pairs ==> pairs[s] != other;
  }

  /** Pairing two functions keeps the dictionaries inverse. */
  lemma DisplacedKeeps(pairs: map<int, int>, owners: map<int, int>, start: int, other: int)
    requires Bijection(pairs, owners)
    ensures Bijection(Displaced(pairs, start, other), Displaced(owners, other, start))
  {
  }

  /** Only the one holder of `other` is displaced. */
  lemma DisplacedHolder(pairs: map<int, int>, owners: map<int, int>, start: int, other: int)
    requires Bijection(pairs, owners)
    ensures Displaced(pairs, start, other) ==
            (if other in owners && owners[other] != start then pairs - {owners[other]} else pairs)[start := other]
  {
    assert forall s :: s in pairs && pairs[s] == other ==> other in owners && owners[other] == s;
  }

  // ---------------------------------------------------------------- shape anchors

  ghost predicate UniqueShape(index: Index, start: int) {
    start in index && forall s :: s in index && index[s].shapeHash == index[start].shapeHash ==> s == start
  }

  /** Functions whose shape occurs once in each build, and in both. */
  ghost predicate IsAnchor(reference: Index, candidate: Index, start: int, other: int) {
    && UniqueShape(reference, start) && UniqueShape(candidate, other)
    && reference[start].shapeHash == candidate[other].shapeHash
  }

  ghost predicate AreAnchors(reference: Index, candidate: Index, anchors: map<int, int>) {
    forall s, o :: (s in anchors && anchors[s] == o) <==> IsAnchor(reference, candidate, s, o)
  }

  /** The starts listed under a hash are those of that shape. */
  ghost predicate Grouped(index: Index, seen: set<int>, groups: map<int, seq<int>>) {
    && (forall s :: s in seen && s in index ==> index[s].shapeHash in groups && s in groups[index[s].shapeHash])
    && (forall h :: h in groups ==> groups[h] != [] && Distinct(groups[h]))
    && (forall h, i :: h in groups && 0 <= i < |groups[h]| ==>
          groups[h][i] in seen && groups[h][i] in index && index[groups[h][i]].shapeHash == h)
  }

  method GroupByShape(index: Index) returns (groups: map<int, seq<int>>)
    ensures Grouped(index, index.Keys, groups)
  {
    groups := map[];
    var rest := index.Keys;
    while rest != {}
      invariant rest <= index.Keys && Grouped(index, index.Keys - rest, groups)
    {
      SomeElement(rest);
      var s :| s in rest;
      var h := index[s].shapeHash;
      var listed := if h in groups then groups[h] else [];
      groups := groups[h := listed + [s]];
      rest := rest - {s};
    }
  }

  lemma TwiceTheSame(g: seq<int>, x: int)
    requires |g| >= 2 && forall i :: 0 <= i < |g| ==> g[i] == x
    ensures !Distinct(g)
  {
    assert g[0] == g[1];
  }

  lemma AloneInGroup(index: Index, groups: map<int, seq<int>>, start: int)
    requires Grouped(index, index.Keys, groups) && start in index
    ensures UniqueShape(index, start) <==> groups[index[start].shapeHash] == [start]
  {
    var h := index[start].shapeHash;
    if UniqueShape(index, start) {
      var g := groups[h];
      assert forall i :: 0 <= i < |g| ==> g[i] == start;
      if |g| >= 2 {
        TwiceTheSame(g, start);
      }
    } else {
      var s :| s in index && index[s].shapeHash == h && s != start;
      assert s in groups[h];
    }
  }

  lemma AnchorsDoNotCompete(reference: Index, candidate: Index, anchors: map<int, int>)
    requires AreAnchors(reference, candidate, anchors)
    ensures forall s, t :: s in anchors && t in anchors && anchors[s] == anchors[t] ==> s == t
    ensures forall s :: s in anchors ==> s in reference && anchors[s] in candidate
  {
    assert forall s :: s in anchors ==> IsAnchor(reference, candidate, s, anchors[s]);
  }

  method ShapeAnchors(reference: Index, candidate: Index) returns (anchors: map<int, int>)
    ensures AreAnchors(reference, candidate, anchors)
  {
    var mine := GroupByShape(reference);
    var theirs := GroupByShape(candidate);
    anchors := map[];
    var rest := mine.Keys;
    while rest != {}
      invariant rest <= mine.Keys
      invariant forall s, o :: (s in anchors && anchors[s] == o) <==>
                  IsAnchor(reference, candidate, s, o) && reference[s].shapeHash !in rest
    {
      SomeElement(rest);
      var h :| h in rest;
      var starts := mine[h];
      var others := if h in theirs then theirs[h] else [];
      if |starts| == 1 && |others| == 1 {
        anchors := anchors[starts[0] := others[0]];
      }
      rest := rest - {h};
      AnchorsOfShape(reference, candidate, mine, theirs, h);
    }
  }

  lemma AnchorsOfShape(reference: Index, candidate: Index, mine: map<int, seq<int>>, theirs: map<int, seq<int>>, h: int)
    requires Grouped(reference, reference.Keys, mine) && Grouped(candidate, candidate.Keys, theirs) && h in mine
    ensures forall s, o :: IsAnchor(reference, candidate, s, o) && reference[s].shapeHash == h <==>
              h in theirs && mine[h] == [s] && theirs[h] == [o]
  {
    forall s, o
      ensures IsAnchor(reference, candidate, s, o) && reference[s].shapeHash == h <==>
              h in theirs && mine[h] == [s] && theirs[h] == [o]
    {
      if s in reference && reference[s].shapeHash == h {
        AloneInGroup(reference, mine, s);
      }
      if o in candidate && candidate[o].shapeHash == h {
        AloneInGroup(candidate, theirs, o);
      }
      if h in theirs && mine[h] == [s] && theirs[h] == [o] {
        assert mine[h][0] == s && theirs[h][0] == o;
      }
    }
  }

  // ---------------------------------------------------------------- propagation along calls

  datatype Pairing = Pairing(start: int, other: int)

  /** The two function indexes and the anchors found between them. */
  datatype Builds = Builds(reference: Index, candidate: Index, anchors: map<int, int>)

  /** The sizes differ by at most a quarter of the reference's, or 16 bytes. */
  predicate SizesClose(size: int, other: int) {
    var difference := if size >= other then size - other else other - size;
    difference <= (if size / 4 > 16 then size / 4 else 16)
  }

  /** Sizes are close within 16 bytes, or within a quarter of the reference's size. */
  lemma SizesCloseExactly(size: nat, other: nat)
    ensures SizesClose(size, other) <==>
            (size - 16 <= other <= size + 16) || (3 * size <= 4 * other && 4 * other <= 5 * size)
  {
  }

  /** The dictionaries, and the pairs in the order they were found. */
  datatype Work = Work(pairs: map<int, int>, owners: map<int, int>, order: seq<Pairing>)

  predicate Known(b: Builds, pair: Pairing) {
    pair.start in b.reference && pair.other in b.candidate
  }

  /** The two builds call equally often from the paired functions. */
  predicate SameCallCount(b: Builds, parent: Pairing)
    requires Known(b, parent)
  {
    |b.reference[parent.start].calls| == |b.candidate[parent.other].calls|
  }

  function CallCount(b: Builds, parent: Pairing): nat
    requires Known(b, parent)
  {
    |b.reference[parent.start].calls|
  }

  /** What the paired functions call at position `k`. */
  function Callees(b: Builds, parent: Pairing, k: nat): Pairing
    requires Known(b, parent) && SameCallCount(b, parent) && k < CallCount(b, parent)
  {
    Pairing(b.reference[parent.start].calls[k], b.candidate[parent.other].calls[k])
  }

  /** The callees may be paired: neither has a partner, and their sizes are close. */
  predicate Pairable(b: Builds, w: Work, child: Pairing) {
    && child.start !in w.pairs && child.other !in w.owners && Known(b, child)
    && SizesClose(b.reference[child.start].size, b.candidate[child.other].size)
  }

  function TryCallees(b: Builds, w: Work, child: Pairing): Work {
    if Pairable(b, w, child)
    then Work(w.pairs[child.start := child.other], w.owners[child.other := child.start], w.order + [child])
    else w
  }

  function VisitFrom(b: Builds, w: Work, parent: Pairing, k: nat): Work
    requires Known(b, parent) && SameCallCount(b, parent) && k <= CallCount(b, parent)
    decreases CallCount(b, parent) - k
  {
    if k == CallCount(b, parent) then w
    else VisitFrom(b, TryCallees(b, w, Callees(b, parent, k)), parent, k + 1)
  }

  function Visit(b: Builds, w: Work, parent: Pairing): Work
    requires Known(b, parent)
  {
    if SameCallCount(b, parent) then VisitFrom(b, w, parent, 0) else w
  }

  // ---------------------------------------------------------------- what each visit keeps

  /** `child` is called at one position of `parent` in both builds, and is close in size. */
  ghost predicate CalledTogether(b: Builds, parent: Pairing, child: Pairing) {
    && Known(b, parent) && Known(b, child) && SameCallCount(b, parent)
    && SizesClose(b.reference[child.start].size, b.candidate[child.other].size)
    && exists k: nat :: k < CallCount(b, parent) && Callees(b, parent, k) == child
  }

  /** The pair at `i` is an anchor or a same-position callee of an earlier pair. */
  ghost predicate Justified(b: Builds, order: seq<Pairing>, i: nat)
    requires i < |order|
  {
    || (order[i].start in b.anchors && b.anchors[order[i].start] == order[i].other)
    || (exists j :: 0 <= j < i && CalledTogether(b, order[j], order[i]))
  }

  ghost predicate Lists(pairs: map<int, int>, order: seq<Pairing>) {
    && (forall i :: 0 <= i < |order| ==> order[i].start in pairs && pairs[order[i].start] == order[i].other)
    && (forall s :: s in pairs ==> Pairing(s, pairs[s]) in order)
    && (forall i, j :: 0 <= i < j < |order| ==> order[i].start != order[j].start)
  }

  ghost predicate WorkOk(b: Builds, w: Work) {
    && Bijection(w.pairs, w.owners)
    && Lists(w.pairs, w.order)
    && (forall i :: 0 <= i < |w.order| ==> Known(b, w.order[i]))
    && (forall i :: 0 <= i < |w.order| ==> Justified(b, w.order, i))
  }

  /** Pairs were only added. */
  ghost predicate Grows(w: Work, more: Work) {
    w.order <= more.order && Extends(more.pairs, w.pairs) && Extends(more.owners, w.owners)
  }

  lemma JustifiedGrows(b: Builds, order: seq<Pairing>, more: seq<Pairing>, i: nat)
    requires order <= more && i < |order| && Justified(b, order, i)
    ensures Justified(b, more, i)
  {
    if !(order[i].start in b.anchors && b.anchors[order[i].start] == order[i].other) {
      var j :| 0 <= j < i && CalledTogether(b, order[j], order[i]);
      assert CalledTogether(b, more[j], more[i]);
    }
  }

  lemma TryCalleesKeeps(b: Builds, w: Work, p: nat, k: nat)
    requires WorkOk(b, w) && p < |w.order| && SameCallCount(b, w.order[p]) && k < CallCount(b, w.order[p])
    ensures var more := TryCallees(b, w, Callees(b, w.order[p], k));
            WorkOk(b, more) && Grows(w, more) && !Pairable(b, more, Callees(b, w.order[p], k))
  {
    var child := Callees(b, w.order[p], k);
    if Pairable(b, w, child) {
      var more := TryCallees(b, w, child);
      assert CalledTogether(b, more.order[p], more.order[|w.order|]);
      forall i | 0 <= i < |w.order|
        ensures Justified(b, more.order, i)
      {
        JustifiedGrows(b, w.order, more.order, i);
      }
    }
  }

  ghost predicate SettledFrom(b: Builds, w: Work, parent: Pairing, from: nat)
    requires Known(b, parent) && SameCallCount(b, parent)
  {
    forall k: nat :: from <= k < CallCount(b, parent) ==> !Pairable(b, w, Callees(b, parent, k))
  }

  /** No callees of the pair are left to be paired. */
  ghost predicate Settled(b: Builds, w: Work, parent: Pairing) {
    Known(b, parent) && (SameCallCount(b, parent) ==> SettledFrom(b, w, parent, 0))
  }

  lemma PairableBefore(b: Builds, w: Work, more: Work, child: Pairing)
    requires Grows(w, more) && Pairable(b, more, child)
    ensures Pairable(b, w, child)
  {
  }

  lemma SettledFromStays(b: Builds, w: Work, more: Work, parent: Pairing, from: nat)
    requires Known(b, parent) && SameCallCount(b, parent) && SettledFrom(b, w, parent, from) && Grows(w, more)
    ensures SettledFrom(b, more, parent, from)
  {
    forall k: nat | from <= k < CallCount(b, parent)
      ensures !Pairable(b, more, Callees(b, parent, k))
    {
      if Pairable(b, more, Callees(b, parent, k)) {
        PairableBefore(b, w, more, Callees(b, parent, k));
      }
    }
  }

  lemma {:induction false} VisitFromKeeps(b: Builds, w: Work, p: nat, parent: Pairing, k: nat, more: Work)
    requires WorkOk(b, w) && p < |w.order| && w.order[p] == parent && Known(b, parent)
    requires SameCallCount(b, parent) && k <= CallCount(b, parent) && more == VisitFrom(b, w, parent, k)
    ensures WorkOk(b, more) && Grows(w, more) && SettledFrom(b, more, parent, k)
    decreases CallCount(b, parent) - k
  {
    if k < CallCount(b, parent) {
      var child := Callees(b, parent, k);
      var next := TryCallees(b, w, child);
      TryCalleesKeeps(b, w, p, k);
      VisitFromKeeps(b, next, p, parent, k + 1, more);
      GrowsTransitive(w, next, more);
      SettledOneMore(b, next, more, parent, k);
    }
  }

  lemma SettledOneMore(b: Builds, next: Work, more: Work, parent: Pairing, k: nat)
    requires Known(b, parent) && SameCallCount(b, parent) && k < CallCount(b, parent)
    requires Grows(next, more) && !Pairable(b, next, Callees(b, parent, k)) && SettledFrom(b, more, parent, k + 1)
    ensures SettledFrom(b, more, parent, k)
  {
    if Pairable(b, more, Callees(b, parent, k)) {
      PairableBefore(b, next, more, Callees(b, parent, k));
    }
  }

  lemma VisitKeeps(b: Builds, w: Work, p: nat)
    requires WorkOk(b, w) && p < |w.order|
    ensures var more := Visit(b, w, w.order[p]);
            WorkOk(b, more) && Grows(w, more) && Settled(b, more, w.order[p])
  {
    if SameCallCount(b, w.order[p]) {
      VisitFromKeeps(b, w, p, w.order[p], 0, VisitFrom(b, w, w.order[p], 0));
    }
  }

  /** Settled pairs stay settled as more are paired. */
  lemma SettledStays(b: Builds, w: Work, more: Work, parent: Pairing)
    requires Settled(b, w, parent) && Grows(w, more)
    ensures Settled(b, more, parent)
  {
    if SameCallCount(b, parent) {
      SettledFromStays(b, w, more, parent, 0);
    }
  }

  /** A justified pair is an anchor, or what both functions of an earlier pair call at one
      position of equally many, with sizes within 16 bytes or a quarter. */
  lemma JustifiedExactly(b: Builds, order: seq<Pairing>, i: nat)
    requires i < |order| && forall j :: 0 <= j < |order| ==> Known(b, order[j])
    ensures Justified(b, order, i) <==>
            || (order[i].start in b.anchors && b.anchors[order[i].start] == order[i].other)
            || (exists j :: 0 <= j < i && CallsAtOnePlace(b, order[j], order[i]))
  {
    forall j | 0 <= j < i
      ensures CalledTogether(b, order[j], order[i]) <==> CallsAtOnePlace(b, order[j], order[i])
    {
      CalledTogetherExactly(b, order[j], order[i]);
    }
  }

  predicate CallsAtOnePlace(b: Builds, parent: Pairing, child: Pairing)
    requires Known(b, parent) && Known(b, child)
  {
    var mine, theirs := b.reference[parent.start].calls, b.candidate[parent.other].calls;
    var size, other := b.reference[child.start].size, b.candidate[child.other].size;
    && |mine| == |theirs|
    && (exists k :: 0 <= k < |mine| && mine[k] == child.start && theirs[k] == child.other)
    && (other - size <= 16 || 4 * (other - size) <= size) && (size - other <= 16 || 4 * (size - other) <= size)
  }

  lemma CalledTogetherExactly(b: Builds, parent: Pairing, child: Pairing)
    requires Known(b, parent) && Known(b, child)
    ensures CalledTogether(b, parent, child) <==> CallsAtOnePlace(b, parent, child)
  {
    if CallsAtOnePlace(b, parent, child) {
      var mine, theirs := b.reference[parent.start].calls, b.candidate[parent.other].calls;
      var k :| 0 <= k < |mine| && mine[k] == child.start && theirs[k] == child.other;
      assert Callees(b, parent, k) == child;
    }
  }

  /** A pair is settled when it calls unequally often, or each two callees at one position are
      not both known, not both free, or too different in size. */
  lemma SettledExactly(b: Builds, w: Work, parent: Pairing)
    requires Known(b, parent)
    ensures var mine, theirs := b.reference[parent.start].calls, b.candidate[parent.other].calls;
            Settled(b, w, parent) <==>
            (|mine| == |theirs| ==> forall k :: 0 <= k < |mine| ==>
               || mine[k] !in b.reference || theirs[k] !in b.candidate || mine[k] in w.pairs || theirs[k] in w.owners
               || !SizesClose(b.reference[mine[k]].size, b.candidate[theirs[k]].size))
  {
    var mine, theirs := b.reference[parent.start].calls, b.candidate[parent.other].calls;
    if |mine| == |theirs| {
      forall k: nat | k < |mine|
        ensures Pairable(b, w, Callees(b, parent, k)) <==>
                && mine[k] in b.reference && theirs[k] in b.candidate && mine[k] !in w.pairs && theirs[k] !in w.owners
                && SizesClose(b.reference[mine[k]].size, b.candidate[theirs[k]].size)
      {
      }
    }
  }

  // ---------------------------------------------------------------- the solver object

  class Matcher {
    const builds: Builds
    var pairs: map<int, int>
    var owners: map<int, int>
    /** The dictionary's iteration order while pairs are only added: as they were inserted. */
    var order: seq<Pairing>
    var claimed: map<int, int>
    var matches: map<string, Match>
    /** Every accepted match: a reference start and the candidate it was given. */
    ghost var history: seq<Pairing>

    ghost function View(): Work
      reads this
    {
      Work(pairs, owners, order)
    }

    ghost function Claims(): Table
      reads this
    {
      Table(pairs, owners, claimed, history)
    }

    constructor (reference: Index, candidate: Index)
      ensures builds.reference == reference && builds.candidate == candidate
      ensures AreAnchors(reference, candidate, builds.anchors)
      ensures Extends(pairs, builds.anchors) && WorkOk(builds, View())
      ensures forall i :: 0 <= i < |order| ==> Settled(builds, View(), order[i])
      ensures matches == map[] && history == [] && claimed == map[]
      ensures TableOk(Claims()) && Within(builds, pairs)
    {
      var anchors := ShapeAnchors(reference, candidate);
      builds := Builds(reference, candidate, anchors);
      pairs, owners, order := map[], map[], [];
      claimed, matches, history := map[], map[], [];
      new;
      PairAnchors();
      PropagateCalls();
    }

    /** Pairs every anchor; anchors never compete. */
    method PairAnchors()
      requires AreAnchors(builds.reference, builds.candidate, builds.anchors)
      requires pairs == map[] && owners == map[] && order == []
      modifies `pairs, `owners, `order
      ensures pairs == builds.anchors && WorkOk(builds, View())
    {
      var anchors := builds.anchors;
      AnchorsDoNotCompete(builds.reference, builds.candidate, anchors);
      var rest := anchors.Keys;
      while rest != {}
        invariant rest <= anchors.Keys && WorkOk(builds, View())
        invariant pairs.Keys == anchors.Keys - rest && Extends(anchors, pairs)
      {
        SomeElement(rest);
        var s :| s in rest;
        PairAnchor(s);
        rest := rest - {s};
      }
      SameMap(pairs, anchors);
    }

    method PairAnchor(s: int)
      requires WorkOk(builds, View()) && Extends(builds.anchors, pairs)
      requires s in builds.anchors && s !in pairs && Known(builds, Pairing(s, builds.anchors[s]))
      requires forall t :: t in builds.anchors && builds.anchors[t] == builds.anchors[s] ==> t == s
      modifies `pairs, `owners, `order
      ensures WorkOk(builds, View()) && pairs == old(pairs)[s := builds.anchors[s]]
    {
      var other := builds.anchors[s];
      AnchorIsFree(pairs, owners, builds.anchors, s, other);
      DisplacedFresh(pairs, owners, s, other);
      DisplacedFresh(owners, pairs, other, s);
      DisplacedKeeps(pairs, owners, s, other);
      AnchorPaired(builds, View(), s);
      Pair(s, other);
      order := order + [Pairing(s, other)];
    }

    /** Makes `start` and `other` partners; their former partners are left without one. */
    method Pair(start: int, other: int)
      requires Bijection(pairs, owners)
      modifies `pairs, `owners
      ensures Bijection(pairs, owners)
      ensures pairs == Displaced(old(pairs), start, other)
      ensures owners == Displaced(old(owners), other, start)
    {
      DisplacedHolder(pairs, owners, start, other);
      DisplacedHolder(owners, pairs, other, start);
      DisplacedKeeps(pairs, owners, start, other);
      if other in owners && owners[other] != start {
        pairs := pairs - {owners[other]};
      }
      if start in pairs && pairs[start] != other {
        owners := owners - {pairs[start]};
      }
      pairs := pairs[start := other];
      owners := owners[other := start];
    }

    /** Pairs the callees of one pair by position. */
    method VisitPair(parent: Pairing) returns (discovered: seq<Pairing>)
      requires Bijection(pairs, owners) && Known(builds, parent)
      modifies `pairs, `owners, `order
      ensures Bijection(pairs, owners) && View() == Visit(builds, old(View()), parent)
      ensures order == old(order) + discovered
    {
      discovered := [];
      var mine, theirs := builds.reference[parent.start].calls, builds.candidate[parent.other].calls;
      if |mine| != |theirs| {
        return;
      }
      for k := 0 to |mine|
        invariant Bijection(pairs, owners) && order == old(order) + discovered
        invariant VisitFrom(builds, View(), parent, k) == Visit(builds, old(View()), parent)
      {
        var callee, other := mine[k], theirs[k];
        if callee in pairs || other in owners || callee !in builds.reference || other !in builds.candidate {
          continue;
        }
        if SizesClose(builds.reference[callee].size, builds.candidate[other].size) {
          DisplacedFresh(pairs, owners, callee, other);
          DisplacedFresh(owners, pairs, other, callee);
          Pair(callee, other);
          order := order + [Pairing(callee, other)];
          discovered := discovered + [Pairing(callee, other)];
        }
      }
    }

    /** Rounds of the work list until a round discovers nothing. */
    method PropagateCalls()
      requires WorkOk(builds, View())
      modifies `pairs, `owners, `order
      ensures WorkOk(builds, View()) && Grows(old(View()), View())
      ensures forall i :: 0 <= i < |order| ==> Settled(builds, View(), order[i])
    {
      var pending := order;
      ghost var done: nat := 0;
      while pending != []
        invariant WorkOk(builds, View()) && Grows(old(View()), View())
        invariant done + |pending| == |order| && pending == order[done..]
        invariant AllSettled(builds, View(), done)
        decreases builds.reference.Keys - pairs.Keys, |pending|
      {
        ghost var before := View();
        var discovered := VisitAll(pending, done);
        FewerUnpaired(builds, before, View());
        GrowsTransitive(old(View()), before, View());
        done := done + |pending|;
        pending := discovered;
      }
    }

    /** The candidates a match may choose from. */
    ghost predicate Eligible(start: int, other: int)
      reads this
    {
      && other in builds.candidate && (other in claimed ==> claimed[other] == start)
      && start in builds.reference && builds.candidate[other].size <= 8 * builds.reference[start].size + 64
    }

    /** What a match looks at: the gathered candidates, its present partner, the vtable slot. */
    ghost predicate Gathered(start: int, gathered: set<int>, vtableSlot: Option<int>, other: int)
      reads this
    {
      other in gathered || (start in pairs && pairs[start] == other) || vtableSlot == Some(other)
    }

    /** Matches one reference function.  `gathered` are the gap, neighbour and pattern
        candidates, `contract` filters them, and `graph` and `full` are their scores. */
    method MatchFunction(name: string, start: int, gathered: set<int>, contract: int -> bool,
                         vtableSlot: Option<int>, slotDecides: bool, graph: int -> real, full: int -> real,
                         dataUsers: map<int, set<int>>, mapped: set<int>)
      returns (r: Result<int>, ghost evidence: Option<Evidence>)
      requires TableOk(Claims()) && Within(builds, pairs) && gathered <= builds.candidate.Keys
      modifies `pairs, `owners, `claimed, `matches, `history
      ensures TableOk(Claims()) && Within(builds, pairs)
      ensures evidence.Some? <==> start in builds.reference && name !in old(matches)
      ensures start !in builds.reference ==> r.Err?
      ensures start in builds.reference && name in old(matches) ==> r == Ok(old(matches)[name].rva)
      ensures r.Err? || evidence.None? ==> Claims() == old(Claims()) && matches == old(matches)
      ensures evidence.Some? ==>
                var e := evidence.value;
                && e == Evidence(e.scored, e.candidates, vtableSlot, slotDecides, dataUsers, mapped)
                && (forall o :: o in e.candidates <==>
                      && o in builds.candidate && contract(o)
                      && (o in old(claimed) ==> old(claimed)[o] == start)
                      && builds.candidate[o].size <= 8 * builds.reference[start].size + 64
                      && (o in gathered || (start in old(pairs) && old(pairs)[start] == o) || vtableSlot == Some(o)))
                && IsShortlist(e.scored, e.candidates, vtableSlot, graph, full)
                && (r.Err? ==> Undecided(e))
                && (r.Ok? ==>
                      && r.value in e.candidates
                      && Claims() == Claim(old(Claims()), Pairing(start, r.value))
                      && name in matches && matches == old(matches)[name := matches[name]]
                      && var m := matches[name];
                         && m.rva == r.value && m.score == full(r.value)
                         && IsRunnerUp(e.scored, r.value, m.score - m.lead)
                         && Supported(e, r.value, m.decidedBy))
    {
      evidence := None;
      if start !in builds.reference {
        return Err, evidence;
      }
      if name in matches {
        return Ok(matches[name].rva), evidence;
      }
      var candidates := Candidates(start, gathered, contract, vtableSlot);
      var scored := ScoreAll(candidates, vtableSlot, graph, full);
      var e := Evidence(scored, candidates, vtableSlot, slotDecides, dataUsers, mapped);
      evidence := Some(e);
      var chosen, decidedBy := Decide(e);
      if chosen.None? {
        return Err, evidence;
      }
      var score := full(chosen.value);
      var runnerUp := RunnerUp(scored, chosen.value);
      Record(name, start, Match(chosen.value, score, score - runnerUp, decidedBy));
      return Ok(chosen.value), evidence;
    }

    /** Drops claimed, oversized and contract-breaking candidates. */
    method Candidates(start: int, gathered: set<int>, contract: int -> bool, vtableSlot: Option<int>)
      returns (candidates: set<int>)
      requires start in builds.reference && Within(builds, pairs) && gathered <= builds.candidate.Keys
      ensures forall o :: o in candidates <==>
                Eligible(start, o) && contract(o) && Gathered(start, gathered, vtableSlot, o)
    {
      var pool := gathered;
      if start in pairs {
        pool := pool + {pairs[start]};
      }
      if vtableSlot.Some? && vtableSlot.value in builds.candidate {
        pool := pool + {vtableSlot.value};
      }
      var limit := 8 * builds.reference[start].size + 64;
      candidates := set o | o in pool && (if o in claimed then claimed[o] else start) == start
                            && builds.candidate[o].size <= limit && contract(o);
    }

    method Record(name: string, start: int, m: Match)
      requires TableOk(Claims()) && Within(builds, pairs) && Eligible(start, m.rva)
      modifies `pairs, `owners, `claimed, `matches, `history
      ensures TableOk(Claims()) && Within(builds, pairs)
      ensures Claims() == Claim(old(Claims()), Pairing(start, m.rva))
      ensures matches == old(matches)[name := m]
    {
      ClaimKeeps(Claims(), Pairing(start, m.rva));
      matches := matches[name := m];
      claimed := claimed[m.rva := start];
      Pair(start, m.rva);
      history := history + [Pairing(start, m.rva)];
    }

    /** One round: visits the pairs the previous round discovered. */
    method VisitAll(pending: seq<Pairing>, ghost done: nat) returns (discovered: seq<Pairing>)
      requires WorkOk(builds, View()) && AllSettled(builds, View(), done)
      requires done + |pending| == |order| && pending == order[done..]
      modifies `pairs, `owners, `order
      ensures WorkOk(builds, View()) && Grows(old(View()), View())
      ensures order == old(order) + discovered
      ensures AllSettled(builds, View(), old(|order|))
    {
      discovered := [];
      for n := 0 to |pending|
        invariant WorkOk(builds, View()) && Grows(old(View()), View())
        invariant order == old(order) + discovered
        invariant AllSettled(builds, View(), done + n)
      {
        assert order[done + n] == pending[n];
        ghost var w := View();
        var found := VisitNext(pending[n], done + n);
        discovered := discovered + found;
        GrowsTransitive(old(View()), w, View());
      }
    }

    /** Visits the pair at `p`, which is then settled like those before it. */
    method VisitNext(parent: Pairing, ghost p: nat) returns (discovered: seq<Pairing>)
      requires WorkOk(builds, View()) && AllSettled(builds, View(), p) && p < |order| && order[p] == parent
      modifies `pairs, `owners, `order
      ensures WorkOk(builds, View()) && Grows(old(View()), View()) && order == old(order) + discovered
      ensures AllSettled(builds, View(), p + 1)
    {
      ghost var w := View();
      VisitKeeps(builds, w, p);
      discovered := VisitPair(parent);
      SettledGrow(builds, w, View(), p);
    }
  }

  // ---------------------------------------------------------------- scored matches

  datatype DecidedBy = ByScore | ByVtable | BySlot | ByData

  datatype Match = Match(rva: int, score: real, lead: real, decidedBy: DecidedBy)

  ghost predicate Within(b: Builds, pairs: map<int, int>) {
    forall s :: s in pairs ==> s in b.reference && pairs[s] in b.candidate
  }

  const FULL_SCORE_LIMIT := 64

  /** Every member of `pool` once, with its graph score. */
  ghost predicate ListsAll(listed: seq<Scored>, pool: set<int>, graph: int -> real) {
    && |listed| == |pool|
    && (forall i :: 0 <= i < |listed| ==> listed[i].rva in pool && listed[i].score == graph(listed[i].rva))
    && (forall i, j :: 0 <= i < j < |listed| ==> listed[i].rva != listed[j].rva)
    && (forall o :: o in pool ==> Mentions(listed, o))
  }

  ghost predicate Mentions(listed: seq<Scored>, rva: int) {
    exists i :: 0 <= i < |listed| && listed[i].rva == rva
  }

  lemma RearrangedListsAll(listed: seq<Scored>, ranked: seq<Scored>, at: seq<int>, pool: set<int>, graph: int -> real)
    requires ListsAll(listed, pool, graph) && Rearranges(ranked, listed, at)
    ensures ListsAll(ranked, pool, graph)
  {
    forall i, j | 0 <= i < j < |ranked|
      ensures ranked[i].rva != ranked[j].rva
    {
      assert at[i] != at[j];
    }
    forall o | o in pool
      ensures Mentions(ranked, o)
    {
      assert Mentions(listed, o);
      var i :| 0 <= i < |listed| && listed[i].rva == o;
      assert i in at;
      var k :| 0 <= k < |at| && at[k] == i;
      assert ranked[k].rva == o;
    }
  }

  lemma MentionsOneMore(listed: seq<Scored>, x: Scored, rva: int)
    ensures Mentions(listed + [x], rva) <==> Mentions(listed, rva) || x.rva == rva
  {
    if Mentions(listed, rva) {
      var i :| 0 <= i < |listed| && listed[i].rva == rva;
      assert (listed + [x])[i].rva == rva;
    }
    if x.rva == rva {
      assert (listed + [x])[|listed|].rva == rva;
    }
  }

  lemma ListOneMore(listed: seq<Scored>, pool: set<int>, graph: int -> real, o: int)
    requires ListsAll(listed, pool, graph) && o !in pool
    ensures ListsAll(listed + [Scored(graph(o), o)], pool + {o}, graph)
  {
    forall x | x in pool + {o}
      ensures Mentions(listed + [Scored(graph(o), o)], x)
    {
      MentionsOneMore(listed, Scored(graph(o), o), x);
    }
  }

  /** The candidates by falling graph score. */
  method RankByGraph(candidates: set<int>, graph: int -> real) returns (ranked: seq<Scored>)
    ensures ListsAll(ranked, candidates, graph) && Descending(ranked)
  {
    var listed: seq<Scored> := [];
    var rest := candidates;
    while rest != {}
      invariant rest <= candidates && ListsAll(listed, candidates - rest, graph)
      decreases |rest|
    {
      SomeElement(rest);
      var o :| o in rest;
      assert candidates - (rest - {o}) == (candidates - rest) + {o};
      ListOneMore(listed, candidates - rest, graph, o);
      listed := listed + [Scored(graph(o), o)];
      rest := rest - {o};
    }
    assert candidates - rest == candidates;
    ghost var at;
    ranked, at := Rank(listed);
    RearrangedListsAll(listed, ranked, at, candidates, graph);
  }

  function Smaller(a: nat, b: nat): nat {
    if a < b then a else b
  }

  /** `scored` holds the full scores of the 64 candidates with the best graph scores, best
      first, and behind them the vtable slot if it is a candidate that did not get in. */
  ghost predicate IsShortlist(scored: seq<Scored>, candidates: set<int>, vtableSlot: Option<int>,
                              graph: int -> real, full: int -> real) {
    var m := Smaller(|candidates|, 64);
    && m <= |scored|
    && (forall i :: 0 <= i < |scored| ==> scored[i].rva in candidates && scored[i].score == full(scored[i].rva))
    && (forall i, j :: 0 <= i < j < |scored| ==> scored[i].rva != scored[j].rva)
    && (forall i, j :: 0 <= i < j < m ==> graph(scored[i].rva) >= graph(scored[j].rva))
    && (forall o, i :: o in candidates && !Mentions(scored[..m], o) && 0 <= i < m ==>
          graph(scored[i].rva) >= graph(o))
    && (|scored| == m || (|scored| == m + 1 && vtableSlot == Some(scored[m].rva)))
    && (vtableSlot.Some? && vtableSlot.value in candidates ==> Mentions(scored, vtableSlot.value))
  }

  /** The first entries of the ranking with their full scores. */
  ghost predicate Rescored(scored: seq<Scored>, ranked: seq<Scored>, full: int -> real) {
    |scored| <= |ranked|
    && forall i :: 0 <= i < |scored| ==> scored[i] == Scored(full(ranked[i].rva), ranked[i].rva)
  }

  lemma TopIsShortlist(ranked: seq<Scored>, scored: seq<Scored>, candidates: set<int>, vtableSlot: Option<int>,
                       graph: int -> real, full: int -> real)
    requires ListsAll(ranked, candidates, graph) && Descending(ranked) && Rescored(scored, ranked, full)
    requires |scored| == Smaller(|candidates|, FULL_SCORE_LIMIT)
    ensures IsShortlist(scored, candidates, if vtableSlot.Some? && Mentions(scored, vtableSlot.value) then vtableSlot else None,
                        graph, full)
  {
    assert scored[..|scored|] == scored;
    forall o, i | o in candidates && !Mentions(scored, o) && 0 <= i < |scored|
      ensures graph(scored[i].rva) >= graph(o)
    {
      assert Mentions(ranked, o);
      var k :| 0 <= k < |ranked| && ranked[k].rva == o;
      assert forall j :: 0 <= j < |scored| ==> scored[j].rva == ranked[j].rva && scored[j].rva != o;
    }
  }

  lemma SlotJoinsShortlist(scored: seq<Scored>, candidates: set<int>, slot: int, graph: int -> real, full: int -> real)
    requires IsShortlist(scored, candidates, None, graph, full) && slot in candidates && !Mentions(scored, slot)
    ensures IsShortlist(scored + [Scored(full(slot), slot)], candidates, Some(slot), graph, full)
  {
    var more := scored + [Scored(full(slot), slot)];
    assert |scored| == Smaller(|candidates|, FULL_SCORE_LIMIT);
    assert more[..|scored|] == scored == scored[..|scored|];
    MentionsOneMore(scored, Scored(full(slot), slot), slot);
  }

  method ScoreAll(candidates: set<int>, vtableSlot: Option<int>, graph: int -> real, full: int -> real)
    returns (scored: seq<Scored>)
    ensures IsShortlist(scored, candidates, vtableSlot, graph, full)
  {
    var ranked := RankByGraph(candidates, graph);
    scored := [];
    var hasSlot := false;
    for k := 0 to Smaller(|ranked|, FULL_SCORE_LIMIT)
      invariant |scored| == k && Rescored(scored, ranked, full)
      invariant hasSlot <==> vtableSlot.Some? && Mentions(scored, vtableSlot.value)
    {
      var next := Scored(full(ranked[k].rva), ranked[k].rva);
      if vtableSlot.Some? {
        MentionsOneMore(scored, next, vtableSlot.value);
      }
      scored := scored + [next];
      if vtableSlot == Some(ranked[k].rva) {
        hasSlot := true;
      }
    }
    TopIsShortlist(ranked, scored, candidates, vtableSlot, graph, full);
    if vtableSlot.Some? && vtableSlot.value in candidates && !hasSlot {
      SlotJoinsShortlist(scored, candidates, vtableSlot.value, graph, full);
      scored := scored + [Scored(full(vtableSlot.value), vtableSlot.value)];
    }
  }

  /** What one match is decided from. */
  datatype Evidence = Evidence(scored: seq<Scored>, candidates: set<int>, vtableSlot: Option<int>, slotDecides: bool,
                               dataUsers: map<int, set<int>>, mapped: set<int>)

  /** The vtable slot is among the tied best. */
  ghost predicate SlotTied(e: Evidence) {
    e.vtableSlot.Some? && Tied(e.scored, e.vtableSlot.value)
  }

  predicate SlotPinned(e: Evidence) {
    e.slotDecides && e.vtableSlot.Some? && e.vtableSlot.value in e.candidates
  }

  /** `rva` is the one function using all mapped data, and no candidate scores clearly better. */
  ghost predicate DataPoints(e: Evidence, rva: int) {
    && |e.mapped| >= DATA_DECIDES_MIN && rva in e.candidates
    && OnlyUser(e.dataUsers, e.mapped, rva)
    && (exists i :: NoneAhead(e.scored, i) && e.scored[i].rva == rva)
  }

  ghost predicate SomeLeads(e: Evidence) {
    exists i :: Leads(e.scored, i)
  }

  /** The candidate the evidence decides for: a clear lead first, then the vtable slot among
      the tied, the pinned slot, and the data. */
  ghost predicate Supported(e: Evidence, chosen: int, decidedBy: DecidedBy) {
    match decidedBy
    case ByScore => exists i :: Leads(e.scored, i) && e.scored[i].rva == chosen
    case ByVtable => !SomeLeads(e) && SlotTied(e) && e.vtableSlot == Some(chosen)
    case BySlot => !SomeLeads(e) && !SlotTied(e) && SlotPinned(e) && e.vtableSlot == Some(chosen)
    case ByData => !SomeLeads(e) && !SlotTied(e) && !SlotPinned(e) && DataPoints(e, chosen)
  }

  ghost predicate Undecided(e: Evidence) {
    !SomeLeads(e) && !SlotTied(e) && !SlotPinned(e) && forall rva :: !DataPoints(e, rva)
  }

  method Decide(e: Evidence) returns (chosen: Option<int>, decidedBy: DecidedBy)
    requires forall i :: 0 <= i < |e.scored| ==> e.scored[i].rva in e.candidates
    ensures chosen.Some? ==> chosen.value in e.candidates && Supported(e, chosen.value, decidedBy)
    ensures chosen.None? ==> Undecided(e)
  {
    decidedBy := ByScore;
    chosen := ChooseCandidate(e.scored, None);
    if chosen.Some? {
      return;
    }
    if e.vtableSlot.Some? {
      chosen := ChooseCandidate(e.scored, e.vtableSlot);
      decidedBy := ByVtable;
    }
    if chosen.None? && e.slotDecides && e.vtableSlot.Some? && e.vtableSlot.value in e.candidates {
      chosen := e.vtableSlot;
      decidedBy := BySlot;
    }
    if chosen.None? {
      var byData := ChosenByData(e.dataUsers, e.mapped, e.candidates);
      if byData.Some? {
        assert UsesAll(e.dataUsers, e.mapped, byData.value);
        var near := NearBest(e.scored, byData.value);
        if near {
          chosen := byData;
          decidedBy := ByData;
        }
      }
    }
  }

  /** `best` is the highest score among the others, or zero without any. */
  ghost predicate IsRunnerUp(scored: seq<Scored>, chosen: int, best: real) {
    && (forall i :: 0 <= i < |scored| && scored[i].rva != chosen ==> scored[i].score <= best)
    && ((exists i :: 0 <= i < |scored| && scored[i].rva != chosen && scored[i].score == best)
        || (best == 0.0 && forall i :: 0 <= i < |scored| ==> scored[i].rva == chosen))
  }

  method RunnerUp(scored: seq<Scored>, chosen: int) returns (best: real)
    ensures IsRunnerUp(scored, chosen, best)
  {
    best := 0.0;
    var seen := false;
    for k := 0 to |scored|
      invariant !seen ==> best == 0.0 && forall i :: 0 <= i < k ==> scored[i].rva == chosen
      invariant seen ==> exists i :: 0 <= i < k && scored[i].rva != chosen && scored[i].score == best
      invariant forall i :: 0 <= i < k && scored[i].rva != chosen ==> scored[i].score <= best
    {
      if scored[k].rva != chosen && (!seen || scored[k].score > best) {
        best, seen := scored[k].score, true;
      }
    }
  }

  // ---------------------------------------------------------------- every run of matches

  /** The dictionaries matches write to, and the accepted matches so far. */
  datatype Table = Table(pairs: map<int, int>, owners: map<int, int>, claimed: map<int, int>, history: seq<Pairing>)

  /** Match `i` is its start's latest. */
  ghost predicate Latest(history: seq<Pairing>, i: int)
    requires 0 <= i < |history|
  {
    forall j :: i < j < |history| ==> history[j].start != history[i].start
  }

  ghost predicate TableOk(t: Table) {
    && Bijection(t.pairs, t.owners)
    && (forall i :: 0 <= i < |t.history| ==>
          t.history[i].other in t.claimed && t.claimed[t.history[i].other] == t.history[i].start)
    && (forall i :: 0 <= i < |t.history| && Latest(t.history, i) ==>
          t.history[i].start in t.pairs && t.pairs[t.history[i].start] == t.history[i].other)
  }

  /** A match may take what nobody claimed, or what its own start did. */
  predicate CanClaim(t: Table, c: Pairing) {
    c.other in t.claimed ==> t.claimed[c.other] == c.start
  }

  function Claim(t: Table, c: Pairing): Table {
    Table(Displaced(t.pairs, c.start, c.other), Displaced(t.owners, c.other, c.start),
          t.claimed[c.other := c.start], t.history + [c])
  }

  lemma ClaimKeeps(t: Table, c: Pairing)
    requires TableOk(t) && CanClaim(t, c)
    ensures TableOk(Claim(t, c))
  {
    DisplacedKeeps(t.pairs, t.owners, c.start, c.other);
    var t' := Claim(t, c);
    forall i | 0 <= i < |t'.history| && Latest(t'.history, i)
      ensures t'.history[i].start in t'.pairs && t'.pairs[t'.history[i].start] == t'.history[i].other
    {
      if i < |t.history| {
        assert t'.history[|t.history|] == c;
        assert forall j :: 0 <= j < |t.history| ==> t'.history[j] == t.history[j];
        assert Latest(t.history, i);
      }
    }
  }

  ghost predicate IsMatchRun(t: Table, run: seq<Pairing>)
    decreases |run|
  {
    run == [] || (CanClaim(t, run[0]) && IsMatchRun(Claim(t, run[0]), run[1..]))
  }

  ghost function AfterMatches(t: Table, run: seq<Pairing>): Table
    decreases |run|
  {
    if run == [] then t else AfterMatches(Claim(t, run[0]), run[1..])
  }

  lemma {:induction false} MatchRunKeeps(t: Table, run: seq<Pairing>)
    requires TableOk(t) && IsMatchRun(t, run)
    ensures TableOk(AfterMatches(t, run)) && AfterMatches(t, run).history == t.history + run
    decreases |run|
  {
    if run == [] {
      assert t.history + run == t.history;
    } else {
      ClaimKeeps(t, run[0]);
      MatchRunKeeps(Claim(t, run[0]), run[1..]);
      FirstThenRest(t.history, run);
    }
  }

  /** Over any run of matches from a fresh solver: the dictionaries stay inverse, two
      different starts never hold one candidate, and the pair of a start's latest match
      survives every later match of another start. */
  lemma MatchesNeverConflict(t: Table, run: seq<Pairing>)
    requires Bijection(t.pairs, t.owners) && t.claimed == map[] && t.history == [] && IsMatchRun(t, run)
    ensures var e := AfterMatches(t, run);
            && Bijection(e.pairs, e.owners)
            && (forall i, j :: 0 <= i < |run| && 0 <= j < |run| && run[i].start != run[j].start ==>
                  run[i].other != run[j].other)
            && (forall i :: 0 <= i < |run| && Latest(run, i) ==>
                  run[i].start in e.pairs && e.pairs[run[i].start] == run[i].other)
  {
    MatchRunKeeps(t, run);
    assert t.history + run == run;
  }

  lemma GrowsTransitive(a: Work, b: Work, c: Work)
    requires Grows(a, b) && Grows(b, c)
    ensures Grows(a, c)
  {
  }

  ghost predicate AllSettled(b: Builds, w: Work, n: nat) {
    n <= |w.order| && forall i :: 0 <= i < n ==> Settled(b, w, w.order[i])
  }

  lemma SettledGrow(b: Builds, w: Work, more: Work, n: nat)
    requires AllSettled(b, w, n) && n < |w.order| && Grows(w, more) && Settled(b, more, w.order[n])
    ensures AllSettled(b, more, n + 1)
  {
    forall i | 0 <= i < n
      ensures Settled(b, more, more.order[i])
    {
      SettledStays(b, w, more, w.order[i]);
    }
  }

  /** A round that discovers a pair leaves fewer reference functions unpaired. */
  lemma FewerUnpaired(b: Builds, w: Work, more: Work)
    requires WorkOk(b, w) && WorkOk(b, more) && Grows(w, more)
    ensures b.reference.Keys - more.pairs.Keys <= b.reference.Keys - w.pairs.Keys
    ensures |more.order| > |w.order| ==> b.reference.Keys - more.pairs.Keys < b.reference.Keys - w.pairs.Keys
  {
    assert forall s :: s in w.pairs ==> s in more.pairs;
    if |more.order| > |w.order| {
      var added := more.order[|w.order|].start;
      assert added !in w.pairs;
      assert Known(b, more.order[|w.order|]);
      assert added in b.reference.Keys - w.pairs.Keys && added !in b.reference.Keys - more.pairs.Keys;
    }
  }

  lemma SameMap(pairs: map<int, int>, anchors: map<int, int>)
    requires pairs.Keys == anchors.Keys && Extends(anchors, pairs)
    ensures pairs == anchors
  {
    forall s | s in pairs.Keys
      ensures s in anchors.Keys && pairs[s] == anchors[s]
    {
    }
  }

  /** An anchor's candidate has no owner before the anchor is paired. */
  lemma AnchorIsFree(pairs: map<int, int>, owners: map<int, int>, anchors: map<int, int>, s: int, other: int)
    requires Bijection(pairs, owners) && Extends(anchors, pairs)
    requires s !in pairs && forall t :: t in anchors && anchors[t] == other ==> t == s
    ensures other !in owners
  {
    assert forall t :: t in pairs ==> pairs[t] != other;
  }

  lemma AnchorPaired(b: Builds, w: Work, s: int)
    requires WorkOk(b, w) && s in b.anchors && s !in w.pairs && Known(b, Pairing(s, b.anchors[s]))
    requires Bijection(w.pairs[s := b.anchors[s]], w.owners[b.anchors[s] := s])
    ensures WorkOk(b, Work(w.pairs[s := b.anchors[s]], w.owners[b.anchors[s] := s], w.order + [Pairing(s, b.anchors[s])]))
  {
    var more := w.order + [Pairing(s, b.anchors[s])];
    forall i | 0 <= i < |w.order|
      ensures Justified(b, more, i)
    {
      JustifiedGrows(b, w.order, more, i);
    }
  }
}

/** Choosing one candidate from scored evidence.  Scores are real numbers here. */
module Scoring {
  import opened Basics

  const ACCEPT_SCORE := 0.6
  const ACCEPT_LEAD := 0.2
  const TOLERANCE := 0.000000001
  const MARGIN := ACCEPT_LEAD - TOLERANCE
  const DATA_DECIDES_MIN := 4

  datatype Scored = Scored(score: real, rva: int)

  /** Entry `i` clears the threshold and is ahead of every other entry by the margin. */
  ghost predicate Leads(scored: seq<Scored>, i: int) {
    && 0 <= i < |scored| && scored[i].score >= ACCEPT_SCORE
    && forall j :: 0 <= j < |scored| && j != i ==> scored[i].score - scored[j].score >= MARGIN
  }

  /** Entry `i` is less than the margin behind every other entry. */
  ghost predicate NoneAhead(scored: seq<Scored>, i: int) {
    0 <= i < |scored| && forall j :: 0 <= j < |scored| ==> scored[j].score - scored[i].score < MARGIN
  }

  /** Some entry for `rva` clears the threshold with none ahead of it. */
  ghost predicate Tied(scored: seq<Scored>, rva: int) {
    exists i :: NoneAhead(scored, i) && scored[i].rva == rva && scored[i].score >= ACCEPT_SCORE
  }

  /** A score of 0.6 is accepted and a lead of 0.2 is clear, and nothing noticeably less. */
  lemma ThresholdExamples()
    ensures Leads([Scored(0.6, 1)], 0) && !Leads([Scored(0.599, 1)], 0)
    ensures Leads([Scored(0.8, 1), Scored(0.6, 2)], 0) && !Leads([Scored(0.799, 1), Scored(0.6, 2)], 0)
    ensures Tied([Scored(0.799, 1), Scored(0.6, 2)], 2) && !Tied([Scored(0.8, 1), Scored(0.6, 2)], 2)
  {
    var near, far := [Scored(0.799, 1), Scored(0.6, 2)], [Scored(0.8, 1), Scored(0.6, 2)];
    assert near[0].score - near[1].score == 0.199 && far[0].score - far[1].score == 0.2;
    assert NoneAhead(near, 1) && near[1].rva == 2;
    assert !NoneAhead(far, 1) && far[0].rva != 2;
    assert [Scored(0.599, 1)][0].score == 0.599;
  }

  ghost predicate Descending(ranked: seq<Scored>) {
    forall i, j :: 0 <= i < j < |ranked| ==> ranked[i].score >= ranked[j].score
  }

  /** `at` says where each ranked entry came from; every entry comes exactly once. */
  ghost predicate Rearranges(ranked: seq<Scored>, scored: seq<Scored>, at: seq<int>) {
    && |ranked| == |at| == |scored|
    && (forall k :: 0 <= k < |at| ==> 0 <= at[k] < |scored| && ranked[k] == scored[at[k]])
    && (forall k, l :: 0 <= k < l < |at| ==> at[k] != at[l])
    && (forall i :: 0 <= i < |scored| ==> i in at)
  }

  /** Entries of equal score keep their order. */
  ghost predicate Stable(ranked: seq<Scored>, at: seq<int>)
    requires |ranked| == |at|
  {
    forall k, l :: 0 <= k < l < |at| && ranked[k].score == ranked[l].score ==> at[k] < at[l]
  }

  /** A stable sort by falling score. */
  method Rank(scored: seq<Scored>) returns (ranked: seq<Scored>, ghost at: seq<int>)
    ensures Descending(ranked) && Rearranges(ranked, scored, at) && Stable(ranked, at)
  {
    ranked, at := [], [];
    for n := 0 to |scored|
      invariant Descending(ranked) && Rearranges(ranked, scored[..n], at) && Stable(ranked, at)
    {
      var k := |ranked|;
      while k > 0 && ranked[k - 1].score < scored[n].score
        invariant 0 <= k <= |ranked|
        invariant forall i :: k <= i < |ranked| ==> ranked[i].score < scored[n].score
      {
        k := k - 1;
      }
      Inserted(ranked, scored[..n], at, k, scored[n]);
      StaysDescending(ranked, k, scored[n]);
      StaysStable(ranked, at, k, scored[n], n);
      assert scored[..n + 1] == scored[..n] + [scored[n]];
      ranked := ranked[..k] + [scored[n]] + ranked[k..];
      at := at[..k] + [n] + at[k..];
    }
    assert scored[..|scored|] == scored;
  }

  lemma StaysDescending(ranked: seq<Scored>, k: nat, x: Scored)
    requires Descending(ranked) && k <= |ranked|
    requires k > 0 ==> ranked[k - 1].score >= x.score
    requires forall i :: k <= i < |ranked| ==> ranked[i].score < x.score
    ensures Descending(ranked[..k] + [x] + ranked[k..])
  {
    assert forall i :: 0 <= i < k ==> ranked[i].score >= x.score;
  }

  lemma StaysStable(ranked: seq<Scored>, at: seq<int>, k: nat, x: Scored, n: int)
    requires |ranked| == |at| && k <= |ranked| && Stable(ranked, at) && (forall i :: 0 <= i < |at| ==> at[i] < n)
    requires forall i :: k <= i < |ranked| ==> ranked[i].score < x.score
    ensures Stable(ranked[..k] + [x] + ranked[k..], at[..k] + [n] + at[k..])
  {
    var ranked', at' := ranked[..k] + [x] + ranked[k..], at[..k] + [n] + at[k..];
    forall i, j | 0 <= i < j < |at'| && ranked'[i].score == ranked'[j].score
      ensures at'[i] < at'[j]
    {
      var i', j' := if i < k then i else i - 1, if j < k then j else j - 1;
      assert i != k ==> ranked'[i] == ranked[i'] && at'[i] == at[i'];
      assert j != k ==> ranked'[j] == ranked[j'] && at'[j] == at[j'];
    }
  }

  lemma Inserted(ranked: seq<Scored>, scored: seq<Scored>, at: seq<int>, k: nat, x: Scored)
    requires Rearranges(ranked, scored, at) && k <= |ranked|
    ensures Rearranges(ranked[..k] + [x] + ranked[k..], scored + [x], at[..k] + [|scored|] + at[k..])
  {
    var at', n := at[..k] + [|scored|] + at[k..], |scored|;
    forall i | 0 <= i < n + 1
      ensures i in at'
    {
      if i == n {
        assert at'[k] == n;
      } else {
        assert i in at;
        var l :| 0 <= l < |at| && at[l] == i;
        assert at'[if l < k then l else l + 1] == i;
      }
    }
  }

  method ChooseCandidate(scored: seq<Scored>, tieBreaker: Option<int>) returns (r: Option<int>)
    ensures forall i :: Leads(scored, i) ==> r == Some(scored[i].rva)
    ensures (forall i :: !Leads(scored, i)) ==>
              r == if tieBreaker.Some? && Tied(scored, tieBreaker.value) then tieBreaker else None
  {
    if scored == [] {
      return None;
    }
    var ranked;
    ghost var at;
    ranked, at := Rank(scored);
    var best := ranked[0];
    var runnerUp := if |ranked| > 1 then ranked[1].score else 0.0;
    TopOfRanking(scored, ranked, at);
    if best.score >= ACCEPT_SCORE && best.score - runnerUp >= MARGIN {
      return Some(best.rva);
    }
    var found := false;
    for k := 0 to |ranked|
      invariant found <==> exists l :: 0 <= l < k && InTie(ranked, l, tieBreaker)
    {
      if tieBreaker == Some(ranked[k].rva) && ranked[k].score >= ACCEPT_SCORE
         && best.score - ranked[k].score < MARGIN {
        assert InTie(ranked, k, tieBreaker);
        found := true;
      }
    }
    if tieBreaker.Some? {
      TieInRanking(scored, ranked, at, tieBreaker.value);
    }
    return if found then tieBreaker else None;
  }

  ghost predicate InTie(ranked: seq<Scored>, k: int, tieBreaker: Option<int>)
    requires 0 <= k < |ranked|
  {
    tieBreaker == Some(ranked[k].rva) && ranked[k].score >= ACCEPT_SCORE
    && ranked[0].score - ranked[k].score < MARGIN
  }

  /** Only the top of the ranking can lead, and it does when the second is far enough behind. */
  lemma TopOfRanking(scored: seq<Scored>, ranked: seq<Scored>, at: seq<int>)
    requires Descending(ranked) && Rearranges(ranked, scored, at) && scored != []
    ensures forall i :: Leads(scored, i) ==> i == at[0]
    ensures Leads(scored, at[0]) <==>
            && ranked[0].score >= ACCEPT_SCORE
            && (|ranked| > 1 ==> ranked[0].score - ranked[1].score >= MARGIN)
  {
    forall i | 0 <= i < |scored| && i != at[0]
      ensures scored[i].score <= ranked[0].score && |ranked| > 1 && scored[i].score <= ranked[1].score
    {
      assert i in at;
      var k :| 0 <= k < |at| && at[k] == i;
      assert ranked[k] == scored[i] && k >= 1;
    }
    assert ranked[0] == scored[at[0]];
    if |ranked| > 1 {
      assert ranked[1] == scored[at[1]] && at[1] != at[0];
    }
  }

  lemma TieInRanking(scored: seq<Scored>, ranked: seq<Scored>, at: seq<int>, rva: int)
    requires Descending(ranked) && Rearranges(ranked, scored, at) && scored != []
    ensures Tied(scored, rva) <==> exists k :: 0 <= k < |ranked| && InTie(ranked, k, Some(rva))
  {
    if Tied(scored, rva) {
      var i :| NoneAhead(scored, i) && scored[i].rva == rva && scored[i].score >= ACCEPT_SCORE;
      assert i in at;
      var k :| 0 <= k < |at| && at[k] == i;
      assert scored[at[0]].score - scored[i].score < MARGIN;
      assert InTie(ranked, k, Some(rva));
    }
    if k :| 0 <= k < |ranked| && InTie(ranked, k, Some(rva)) {
      forall j | 0 <= j < |scored|
        ensures scored[j].score - scored[at[k]].score < MARGIN
      {
        assert j in at;
        var l :| 0 <= l < |at| && at[l] == j;
        assert ranked[l] == scored[j] && ranked[0].score >= ranked[l].score;
      }
      assert NoneAhead(scored, at[k]);
    }
  }

  /** Whether `rva` was scored within the margin of the best. */
  method NearBest(scored: seq<Scored>, rva: int) returns (near: bool)
    ensures near <==> exists i :: NoneAhead(scored, i) && scored[i].rva == rva
  {
    var best := if scored == [] then 0.0 else scored[0].score;
    ghost var top := 0;
    for k := 0 to |scored|
      invariant scored != [] ==> 0 <= top < |scored| && best == scored[top].score
      invariant forall j :: 0 <= j < k ==> scored[j].score <= best
    {
      if scored[k].score > best {
        best, top := scored[k].score, k;
      }
    }
    near := false;
    for k := 0 to |scored|
      invariant near <==> exists i :: 0 <= i < k && NoneAhead(scored, i) && scored[i].rva == rva
    {
      assert NoneAhead(scored, k) <==> best - scored[k].score < MARGIN;
      if scored[k].rva == rva && best - scored[k].score < MARGIN {
        near := true;
      }
    }
  }

  /** The functions that use every one of the addresses. */
  ghost predicate UsesAll(dataUsers: map<int, set<int>>, addresses: set<int>, user: int) {
    forall a :: a in addresses ==> a in dataUsers && user in dataUsers[a]
  }

  ghost predicate OnlyUser(dataUsers: map<int, set<int>>, addresses: set<int>, user: int) {
    forall u :: UsesAll(dataUsers, addresses, u) <==> u == user
  }

  /** Returns the candidate, if there is one, that alone uses all of `mapped`. */
  method ChosenByData(dataUsers: map<int, set<int>>, mapped: set<int>, candidates: set<int>)
    returns (r: Option<int>)
    ensures r.Some? ==> && |mapped| >= DATA_DECIDES_MIN && r.value in candidates
                        && OnlyUser(dataUsers, mapped, r.value)
    ensures r.None? ==> || |mapped| < DATA_DECIDES_MIN
                        || forall u :: u in candidates ==> !OnlyUser(dataUsers, mapped, u)
  {
    if |mapped| < DATA_DECIDES_MIN {
      return None;
    }
    var users := UsersOfAll(dataUsers, mapped);
    if |users| != 1 {
      forall u | u in candidates
        ensures !OnlyUser(dataUsers, mapped, u)
      {
        if OnlyUser(dataUsers, mapped, u) {
          SoleUser(dataUsers, mapped, users, u);
        }
      }
      return None;
    }
    SomeElement(users);
    var only :| only in users;
    Singleton(users, only);
    assert UsesAll(dataUsers, mapped, only);
    assert OnlyUser(dataUsers, mapped, only);
    return if only in candidates then Some(only) else None;
  }

  /** Intersects the users of the addresses one by one. */
  method UsersOfAll(dataUsers: map<int, set<int>>, mapped: set<int>) returns (users: set<int>)
    requires mapped != {}
    ensures forall u :: u in users <==> UsesAll(dataUsers, mapped, u)
  {
    SomeElement(mapped);
    var first :| first in mapped;
    users := if first in dataUsers then dataUsers[first] else {};
    var rest := mapped - {first};
    assert mapped - rest == {first};
    while rest != {}
      invariant rest <= mapped
      invariant forall u :: u in users <==> UsesAll(dataUsers, mapped - rest, u)
      decreases |rest|
    {
      SomeElement(rest);
      var address :| address in rest;
      NextUsers(dataUsers, mapped, rest, address, users);
      users := users * (if address in dataUsers then dataUsers[address] else {});
      rest := rest - {address};
    }
    assert mapped - rest == mapped;
  }

  lemma NextUsers(dataUsers: map<int, set<int>>, mapped: set<int>, rest: set<int>, address: int, users: set<int>)
    requires rest <= mapped && address in rest
    requires forall u :: u in users <==> UsesAll(dataUsers, mapped - rest, u)
    ensures forall u :: u in users * (if address in dataUsers then dataUsers[address] else {}) <==>
              UsesAll(dataUsers, mapped - (rest - {address}), u)
  {
    var before, after := mapped - rest, mapped - (rest - {address});
    assert after == before + {address};
    forall u
      ensures UsesAll(dataUsers, after, u) <==>
              UsesAll(dataUsers, before, u) && address in dataUsers && u in dataUsers[address]
    {
      assert address in after;
    }
  }

  lemma SoleUser(dataUsers: map<int, set<int>>, mapped: set<int>, users: set<int>, u: int)
    requires forall v :: v in users <==> UsesAll(dataUsers, mapped, v)
    requires OnlyUser(dataUsers, mapped, u)
    ensures |users| == 1
  {
    forall v
      ensures v in users <==> v == u
    {
      assert UsesAll(dataUsers, mapped, v) <==> v == u;
    }
    assert users == {u};
  }

  lemma Singleton(s: set<int>, x: int)
    requires |s| == 1 && x in s
    ensures s == {x}
  {
    assert |s - {x}| == 0;
    assert s == {x} + (s - {x});
  }
}

/**
 Rewriting constructor-replay ranges from a reference init-array to a candidate one.

 A range list says which init-array indices a replay runs.  The candidate may order the
 leading constructors differently and mix new ones in.  The rewritten list is proved to give
 every old constructor the decision it had and to run all others.
 */
module ConstructorRanges {
  import opened Basics

  const BEGIN := 2
  const LEADING_COUNT := 4
  const LEADING_WINDOW := LEADING_COUNT + 2

  datatype Range = Range(begin: int, endExclusive: int)

  predicate Contains(r: Range, index: int) {
    r.begin <= index < r.endExclusive
  }

  /** `index` is replayed. */
  predicate Runs(ranges: seq<Range>, index: int) {
    exists k :: 0 <= k < |ranges| && Contains(ranges[k], index)
  }

  /** Sorted, disjoint, non-empty and inside [0, count): what `validated_ranges` accepts. */
  predicate ValidRanges(ranges: seq<Range>, count: int) {
    && ranges != []
    && (forall k :: 0 <= k < |ranges| ==> 0 <= ranges[k].begin < ranges[k].endExclusive <= count)
    && (forall k :: 0 < k < |ranges| ==> ranges[k - 1].endExclusive <= ranges[k].begin)
  }

  /** Consecutive ranges leave a gap, so the list is the shortest for its indices. */
  predicate Separated(ranges: seq<Range>) {
    && (forall k :: 0 <= k < |ranges| ==> ranges[k].begin < ranges[k].endExclusive)
    && (forall k :: 0 < k < |ranges| ==> ranges[k - 1].endExclusive < ranges[k].begin)
  }

  /** The reference side of the fit test, for leading constructors `referenceIndex`. */
  predicate ReferenceFits(ranges: seq<Range>, referenceIndex: seq<int>, referenceCount: int)
    requires referenceIndex != []
  {
    var leadingEnd := referenceIndex[|referenceIndex| - 1] + 1;
    && ValidRanges(ranges, referenceCount)
    && BEGIN <= ranges[0].begin
    && ranges[|ranges| - 1].begin <= leadingEnd
    && ranges[|ranges| - 1].endExclusive == referenceCount
    && leadingEnd < referenceCount
  }

  /** What the caller guarantees of one leading-constructor match. */
  predicate MatchOk(offsets: seq<int>, referenceIndex: seq<int>, window: int) {
    && |offsets| == |referenceIndex| > 0
    && (forall k :: 0 <= k < |offsets| ==> 0 <= offsets[k] < window)
  }

  /** The candidate window: up to two slots beyond the leading constructors, always leaving
      one later constructor. */
  function LeadingWindow(candidateCount: int): (r: Result<int>)
    ensures r.Ok? <==> candidateCount >= 7
    ensures r.Ok? ==> 4 <= r.value <= 6 && 2 + r.value < candidateCount
    ensures r.Ok? ==> r.value == 6 || 2 + r.value + 1 == candidateCount
  {
    var room := candidateCount - BEGIN - 1;
    var window := if room < LEADING_WINDOW then room else LEADING_WINDOW;
    if window < LEADING_COUNT then Err else Ok(window)
  }

  /** Locates each matched code address among the candidate's window entries.  Succeeds
      exactly when every address is an entry and no two fall on one slot. */
  method MatchOffsets(entries: seq<int>, matched: seq<int>) returns (r: Result<seq<int>>)
    ensures r.Ok? <==> (forall k :: 0 <= k < |matched| ==> matched[k] in entries) && Distinct(matched)
    ensures r.Ok? ==> && |r.value| == |matched| && Distinct(r.value)
                      && (forall k :: 0 <= k < |matched| ==>
                            && 0 <= r.value[k] < |entries| && entries[r.value[k]] == matched[k]
                            && matched[k] !in entries[..r.value[k]])
  {
    var offsets := [];
    for i := 0 to |matched|
      invariant |offsets| == i && Distinct(offsets)
      invariant forall k :: 0 <= k < i ==>
                  && 0 <= offsets[k] < |entries| && entries[offsets[k]] == matched[k]
                  && matched[k] !in entries[..offsets[k]]
    {
      if matched[i] !in entries {
        return Err;
      }
      var offset := 0;
      while entries[offset] != matched[i]
        invariant 0 <= offset < |entries| && matched[i] !in entries[..offset]
        invariant matched[i] in entries[offset..]
        decreases |entries| - offset
      {
        offset := offset + 1;
      }
      if offset in offsets {
        return Err;
      }
      offsets := offsets + [offset];
    }
    return Ok(offsets);
  }

  method ValidatedRanges(ranges: seq<Range>, count: int) returns (r: Result<seq<Range>>)
    ensures r == if ValidRanges(ranges, count) then Ok(ranges) else Err
  {
    if ranges == [] {
      return Err;
    }
    var previousEnd := 0;
    var result := [];
    for i := 0 to |ranges|
      invariant result == ranges[..i]
      invariant forall k :: 0 <= k < i ==> 0 <= ranges[k].begin < ranges[k].endExclusive <= count
      invariant forall k :: 0 < k < i ==> ranges[k - 1].endExclusive <= ranges[k].begin
      invariant previousEnd == if i == 0 then 0 else ranges[i - 1].endExclusive
    {
      var item := ranges[i];
      if item.begin < 0 || item.begin >= item.endExclusive || item.endExclusive > count
         || item.begin < previousEnd {
        return Err;
      }
      previousEnd := item.endExclusive;
      result := result + [item];
    }
    assert ranges[..|ranges|] == ranges;
    return Ok(result);
  }

  /** Whether the candidate slot at `offset` runs: unmapped slots always do, a mapped one
      when the reference replays some constructor mapped to it. */
  predicate SlotRuns(ranges: seq<Range>, offsets: seq<int>, referenceIndex: seq<int>, offset: int)
    requires |offsets| == |referenceIndex|
  {
    offset in offsets ==>
      exists k :: 0 <= k < |offsets| && offsets[k] == offset && Runs(ranges, referenceIndex[k])
  }

  /** The `runs` flags of the candidate window. */
  method WindowFlags(ranges: seq<Range>, offsets: seq<int>, referenceIndex: seq<int>, window: int)
    returns (runs: array<bool>)
    requires MatchOk(offsets, referenceIndex, window)
    ensures runs.Length == window && fresh(runs)
    ensures forall o :: 0 <= o < window ==> runs[o] == SlotRuns(ranges, offsets, referenceIndex, o)
  {
    assert 0 <= offsets[0] < window;
    runs := new bool[window](_ => true);
    for i := 0 to |offsets|
      invariant forall o :: 0 <= o < window ==> runs[o] == (o !in offsets[..i])
    {
      runs[offsets[i]] := false;
    }
    for r := 0 to |ranges|
      invariant forall o :: 0 <= o < window ==>
                  runs[o] == SlotRuns(ranges[..r], offsets, referenceIndex, o)
    {
      assert forall x :: Runs(ranges[..r + 1], x) <==> Runs(ranges[..r], x) || Contains(ranges[r], x) by {
        forall x | Runs(ranges[..r], x)
          ensures Runs(ranges[..r + 1], x)
        {
          var k :| 0 <= k < r && Contains(ranges[..r][k], x);
          assert Contains(ranges[..r + 1][k], x);
        }
        forall x | Contains(ranges[r], x)
          ensures Runs(ranges[..r + 1], x)
        {
          assert Contains(ranges[..r + 1][r], x);
        }
      }
      for k := 0 to |referenceIndex|
        invariant forall o :: 0 <= o < window ==>
                    runs[o] == (SlotRuns(ranges[..r], offsets, referenceIndex, o)
                      || exists j :: 0 <= j < k && offsets[j] == o && Contains(ranges[r], referenceIndex[j]))
      {
        if Contains(ranges[r], referenceIndex[k]) {
          runs[offsets[k]] := true;
        }
      }
    }
    assert ranges[..|ranges|] == ranges;
  }

  lemma RunsAppend(ranges: seq<Range>, r: Range, index: int)
    ensures Runs(ranges + [r], index) <==> Runs(ranges, index) || Contains(r, index)
  {
    if Runs(ranges, index) {
      var k :| 0 <= k < |ranges| && Contains(ranges[k], index);
      assert Contains((ranges + [r])[k], index);
    }
    if Contains(r, index) {
      assert Contains((ranges + [r])[|ranges|], index);
    }
  }

  /** The window slot of `index` is flagged to run. */
  predicate Flagged(runs: seq<bool>, index: int) {
    BEGIN <= index < BEGIN + |runs| && runs[index - BEGIN]
  }

  /** The ranges run the flagged slots and everything behind the window. */
  ghost predicate RunsFlagged(result: seq<Range>, runs: seq<bool>, count: int) {
    forall i :: Runs(result, i) <==> Flagged(runs, i) || BEGIN + |runs| <= i < count
  }

  /** The first `offset` slots are merged: `result` holds the closed ranges, and the range from
      `open` on is not closed yet. */
  ghost predicate MergedTo(result: seq<Range>, open: Option<int>, runs: seq<bool>, offset: int) {
    && Separated(result) && OpenAfter(result, open, runs, offset)
    && forall i :: Runs(result, i) <==>
         Flagged(runs, i) && i < BEGIN + offset && (open.Some? ==> i < open.value)
  }

  /** All closed ranges end ahead of the open one, or else of the next slot; the open one holds
      flagged slots only. */
  ghost predicate OpenAfter(result: seq<Range>, open: Option<int>, runs: seq<bool>, offset: int) {
    && (forall k :: 0 <= k < |result| ==> BEGIN <= result[k].begin && result[k].endExclusive < BEGIN + offset)
    && (open.Some? ==>
          && BEGIN <= open.value < BEGIN + offset
          && (forall k :: 0 <= k < |result| ==> result[k].endExclusive < open.value)
          && (forall i :: open.value <= i < BEGIN + offset ==> Flagged(runs, i)))
  }

  lemma NothingMerged(runs: seq<bool>)
    ensures MergedTo([], None, runs, 0)
  {
  }

  /** A slot that runs opens a range or extends the open one. */
  lemma SlotOpens(result: seq<Range>, open: Option<int>, runs: seq<bool>, offset: nat)
    requires offset < |runs| && runs[offset] && MergedTo(result, open, runs, offset)
    ensures MergedTo(result, if open.None? then Some(BEGIN + offset) else open, runs, offset + 1)
  {
  }

  /** A slot that does not run closes the open range. */
  lemma SlotCloses(result: seq<Range>, open: Option<int>, runs: seq<bool>, offset: nat)
    requires offset < |runs| && !runs[offset] && MergedTo(result, open, runs, offset)
    ensures MergedTo(if open.Some? then result + [Range(open.value, BEGIN + offset)] else result, None, runs, offset + 1)
  {
    if open.Some? {
      var closed := Range(open.value, BEGIN + offset);
      forall i
        ensures Runs(result + [closed], i) <==> Flagged(runs, i) && i < BEGIN + offset + 1
      {
        RunsAppend(result, closed, i);
      }
    }
  }

  /** The last range extends to the array's end. */
  lemma LastExtends(result: seq<Range>, open: Option<int>, runs: seq<bool>, count: int)
    requires MergedTo(result, open, runs, |runs|) && BEGIN + |runs| < count
    ensures var all := result + [Range(if open.None? then BEGIN + |runs| else open.value, count)];
            Separated(all) && ValidRanges(all, count) && RunsFlagged(all, runs, count)
  {
    var last := Range(if open.None? then BEGIN + |runs| else open.value, count);
    forall i
      ensures Runs(result + [last], i) <==> Flagged(runs, i) || BEGIN + |runs| <= i < count
    {
      RunsAppend(result, last, i);
    }
  }

  /** Merges running slots into maximal ranges. */
  method MergeRuns(runs: seq<bool>, count: int) returns (result: seq<Range>)
    requires BEGIN + |runs| < count
    ensures Separated(result) && ValidRanges(result, count) && RunsFlagged(result, runs, count)
  {
    result := [];
    var runBegin: Option<int> := None;
    NothingMerged(runs);
    for offset := 0 to |runs|
      invariant MergedTo(result, runBegin, runs, offset)
    {
      var index := BEGIN + offset;
      if runs[offset] {
        SlotOpens(result, runBegin, runs, offset);
        if runBegin.None? {
          runBegin := Some(index);
        }
      } else {
        SlotCloses(result, runBegin, runs, offset);
        if runBegin.Some? {
          result := result + [Range(runBegin.value, index)];
          runBegin := None;
        }
      }
    }
    LastExtends(result, runBegin, runs, count);
    result := result + [Range(if runBegin.None? then BEGIN + |runs| else runBegin.value, count)];
  }

  /** What the remapped replay must run, index by index. */
  ghost predicate ShouldRun(ranges: seq<Range>, offsets: seq<int>, referenceIndex: seq<int>,
                            window: int, count: int, index: int)
    requires |offsets| == |referenceIndex|
  {
    || (BEGIN <= index < BEGIN + window && SlotRuns(ranges, offsets, referenceIndex, index - BEGIN))
    || BEGIN + window <= index < count
  }

  /** `result` is a valid, gap-separated list that runs exactly the indices it should. */
  ghost predicate IsRemap(result: seq<Range>, ranges: seq<Range>, offsets: seq<int>,
                          referenceIndex: seq<int>, window: int, count: int)
    requires |offsets| == |referenceIndex|
  {
    && Separated(result) && ValidRanges(result, count)
    && (forall i :: Runs(result, i) <==> ShouldRun(ranges, offsets, referenceIndex, window, count, i))
  }

  method RemappedConstructorRanges(ranges: seq<Range>, offsets: seq<int>, referenceCount: int,
                                   candidateCount: int, referenceIndex: seq<int>, window: int)
    returns (r: Result<seq<Range>>)
    requires MatchOk(offsets, referenceIndex, window)
    ensures r.Ok? <==> ReferenceFits(ranges, referenceIndex, referenceCount) && BEGIN + window < candidateCount
    ensures r.Ok? ==> IsRemap(r.value, ranges, offsets, referenceIndex, window, candidateCount)
    ensures r.Ok? ==> forall i :: Runs(r.value, i) <==>
              || (BEGIN <= i < BEGIN + window && i - BEGIN !in offsets)
              || (exists k :: 0 <= k < |offsets| && BEGIN + offsets[k] == i && Runs(ranges, referenceIndex[k]))
              || BEGIN + window <= i < candidateCount
  {
    var leadingEnd := referenceIndex[|referenceIndex| - 1] + 1;
    var checked := ValidatedRanges(ranges, referenceCount);
    if checked.Err? {
      return Err;
    }
    if ranges[0].begin < BEGIN || ranges[|ranges| - 1].begin > leadingEnd
       || ranges[|ranges| - 1].endExclusive != referenceCount
       || referenceCount <= leadingEnd || candidateCount <= BEGIN + window {
      return Err;
    }
    var runs := WindowFlags(ranges, offsets, referenceIndex, window);
    var result := MergeRuns(runs[..], candidateCount);
    r := ValidatedRanges(result, candidateCount);
  }
}

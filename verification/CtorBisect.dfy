/**
 Locating constructors that break startup.  A trial runs a prefix of the constructors except
 skipped ones; the oracle is what the process then does, and depends only on the set of
 constructors actually run.
 */
module CtorBisect {
  import opened Basics

  datatype Outcome = Good | Bad | Other

  /** The constructors' offsets, the oracle, and what trial number `t`'s log tells about the
      offset at an index. */
  datatype Lab = Lab(offsets: seq<int>, oracle: set<int> -> Outcome, log: (nat, nat) -> Option<int>)

  ghost predicate LabOk(lab: Lab) {
    && Distinct(lab.offsets)
    && lab.oracle({}) == Good
    && (forall t: nat, i: nat :: lab.log(t, i).Some? ==> i < |lab.offsets| && lab.log(t, i).value == lab.offsets[i])
  }

  /** Every offset can be read from every log. */
  ghost predicate LogsComplete(lab: Lab) {
    forall t: nat, i: nat :: i < |lab.offsets| ==> lab.log(t, i).Some?
  }

  /** The constructors a trial of the first `max` runs. */
  function RunSet(lab: Lab, max: nat, skipped: seq<int>): set<int> {
    set i | 0 <= i < |lab.offsets| && i < max && lab.offsets[i] !in skipped :: lab.offsets[i]
  }

  function Trial(lab: Lab, max: nat, skipped: seq<int>): Outcome {
    lab.oracle(RunSet(lab, max, skipped))
  }

  // ---------------------------------------------------------------- run sets

  lemma EmptyPrefixIsGood(lab: Lab, skipped: seq<int>)
    requires LabOk(lab)
    ensures Trial(lab, 0, skipped) == Good
  {
    assert RunSet(lab, 0, skipped) == {};
  }

  /** A constructor already skipped adds nothing to a trial. */
  lemma SkippedAddsNothing(lab: Lab, index: nat, skipped: seq<int>)
    requires index < |lab.offsets| && lab.offsets[index] in skipped
    ensures RunSet(lab, index + 1, skipped) == RunSet(lab, index, skipped)
  {
  }

  /** Skipping a constructor leaves the trials of shorter prefixes as they were. */
  lemma SkipKeepsPrefixes(lab: Lab, index: nat, skipped: seq<int>, j: nat)
    requires Distinct(lab.offsets) && j <= index < |lab.offsets|
    ensures RunSet(lab, j, skipped + [lab.offsets[index]]) == RunSet(lab, j, skipped)
  {
    assert forall i :: 0 <= i < j ==> lab.offsets[i] != lab.offsets[index];
  }

  // ---------------------------------------------------------------- probes

  /** Halvings that bring a width down to one, rounding up. */
  function Log(n: nat): nat {
    if n <= 1 then 0 else 1 + Log((n + 1) / 2)
  }

  function Pow2(k: nat): nat {
    if k == 0 then 1 else 2 * Pow2(k - 1)
  }

  /** `Log` is the binary logarithm, rounded up. */
  lemma {:induction false} LogIsCeiling(n: nat)
    ensures n <= Pow2(Log(n))
    ensures n > 1 ==> Pow2(Log(n) - 1) < n
  {
    if n > 1 {
      LogIsCeiling((n + 1) / 2);
      assert Pow2(Log(n)) == 2 * Pow2(Log((n + 1) / 2));
    }
  }

  lemma {:induction false} LogMonotone(a: nat, b: nat)
    requires a <= b
    ensures Log(a) <= Log(b)
  {
    if a > 1 {
      LogMonotone((a + 1) / 2, (b + 1) / 2);
    }
  }

  /** What bisection found: the first bad prefix ends with this constructor. */
  datatype Found = Found(index: nat, offset: Option<int>)

  /** A constructor to quarantine. */
  datatype Suspect = Suspect(index: nat, offset: int)

  function OffsetsOf(suspects: seq<Suspect>): (offsets: seq<int>) {
    seq(|suspects|, i requires 0 <= i < |suspects| => suspects[i].offset)
  }

  lemma OffsetsOneMore(suspects: seq<Suspect>, s: Suspect)
    ensures OffsetsOf(suspects + [s]) == OffsetsOf(suspects) + [s.offset]
  {
  }

  ghost predicate Boundary(lab: Lab, skipped: seq<int>, index: nat) {
    && index < |lab.offsets|
    && Trial(lab, index, skipped) == Good && Trial(lab, index + 1, skipped) != Good
  }

  lemma BoundaryIsFresh(lab: Lab, skipped: seq<int>, index: nat)
    requires Boundary(lab, skipped, index)
    ensures lab.offsets[index] !in skipped
  {
    if lab.offsets[index] in skipped {
      SkippedAddsNothing(lab, index, skipped);
    }
  }

  class Bisector {
    const lab: Lab
    var trials: nat
    var skipped: seq<int>
    var found: seq<Suspect>

    constructor (lab: Lab, skipped: seq<int>)
      requires LabOk(lab)
      ensures this.lab == lab && trials == 1 && this.skipped == skipped && found == []
    {
      this.lab := lab;
      trials := 1;
      this.skipped := skipped;
      found := [];
    }

    method RunTrial(max: nat) returns (outcome: Outcome, number: nat)
      modifies `trials
      ensures outcome == Trial(lab, max, skipped) && number == old(trials) && trials == old(trials) + 1
    {
      outcome := Trial(lab, max, skipped);
      number := trials;
      trials := trials + 1;
    }

    /** Binary search between a good and a bad prefix length. */
    method FindFirstBad() returns (r: Option<Found>, full: Outcome, ghost last: nat)
      requires LabOk(lab)
      modifies `trials
      ensures full == Trial(lab, |lab.offsets|, skipped)
      ensures r.Some? <==> full == Bad
      ensures r.Some? ==>
                && Boundary(lab, skipped, r.value.index)
                && (r.value.offset.Some? ==> r.value.offset.value == lab.offsets[r.value.index])
                && (LogsComplete(lab) ==> r.value.offset.Some?)
      // Where the log of the last bad trial is silent, one more trial is asked.
      ensures r.Some? ==>
                && old(trials) <= last < trials
                && if lab.log(last, r.value.index).Some? then r.value.offset == lab.log(last, r.value.index)
                   else last < trials - 1 && r.value.offset == lab.log(trials - 1, r.value.index)
      ensures trials <= old(trials) + Log(|lab.offsets|) + 2
    {
      EmptyPrefixIsGood(lab, skipped);
      var number;
      full, number := RunTrial(|lab.offsets|);
      last := number;
      if full != Bad {
        return None, full, last;
      }
      var low, high := 0, |lab.offsets|;
      var lastBad := number;
      while high - low > 1
        invariant 0 <= low < high <= |lab.offsets|
        invariant Trial(lab, low, skipped) == Good && Trial(lab, high, skipped) != Good
        invariant old(trials) <= lastBad < trials
        invariant trials + Log(high - low) <= old(trials) + 1 + Log(|lab.offsets|)
      {
        var mid := (low + high) / 2;
        LogMonotone(mid - low, (high - low + 1) / 2);
        LogMonotone(high - mid, (high - low + 1) / 2);
        var outcome, n := RunTrial(mid);
        if outcome == Bad {
          high, lastBad := mid, n;
        } else if outcome == Good {
          low := mid;
        } else {
          high, lastBad := mid, n;
        }
      }
      last := lastBad;
      var badIndex := high - 1;
      var offset := lab.log(lastBad, badIndex);
      if offset.None? {
        var outcome, n := RunTrial(high);
        offset := lab.log(n, badIndex);
      }
      return Some(Found(badIndex, offset)), full, last;
    }

    /** Walks prefixes one by one, quarantining each constructor that turns its prefix bad.  The
        scan starts at index `start` and leaves off at `reached`; `news` is what it quarantined. */
    method ScanPrefix(scanStart: int, limit: int)
      returns (count: nat, ghost start: nat, ghost reached: nat, ghost n: nat, ghost news: seq<Suspect>)
      requires LabOk(lab)
      requires var first := if scanStart > 0 then scanStart else 0;
               !(&& first < limit && first < |lab.offsets| && StuckAt(lab, skipped, first)
                 && forall t: nat :: t >= trials ==> lab.log(t, first).Some?)
      modifies `trials, `skipped, `found
      ensures start == (if scanStart > 0 then scanStart else 0) && start <= reached
      ensures var end := if limit < |lab.offsets| then limit else |lab.offsets|;
              var s := Steps(lab, end, Scan(start, old(trials), old(skipped), old(found)), n);
              && skipped == s.skipped && found == s.found && reached == s.at
              && trials == s.trial + (if s.at < end then 1 else 0)
              && count == |s.found| - |old(found)|
      // Leaving off early: the last trial was neither good nor bad, or its log was silent.
      ensures reached < limit && reached < |lab.offsets| ==>
                && trials > old(trials)
                && (|| Trial(lab, reached + 1, skipped) == Other
                    || (Trial(lab, reached + 1, skipped) == Bad && lab.log(trials - 1, reached).None?))
      ensures !StuckAt(lab, old(skipped), start) ==>
                && skipped == old(skipped) + OffsetsOf(news) && found == old(found) + news && count == |news|
                && AreNew(lab, old(skipped), news) && Ascending(news) && Provoked(lab, old(skipped), news)
                && (forall i :: 0 <= i < |news| ==> start <= news[i].index <= reached)
                && (forall j: nat :: start < j <= reached ==> Trial(lab, j, skipped) == Good)
      ensures !StuckAt(lab, old(skipped), start) && LogsComplete(lab) && (forall x :: lab.oracle(x) != Other) ==>
                forall j: nat :: start < j <= limit && j <= |lab.offsets| ==> Trial(lab, j, skipped) == Good
    {
      count := 0;
      start := if scanStart > 0 then scanStart else 0;
      ghost var end' := if limit < |lab.offsets| then limit else |lab.offsets|;
      n, reached, news := ScanPlan(lab, end', Scan(start, trials, skipped, found));
      if limit <= 0 {
        return;
      }
      var first := if scanStart > 0 then scanStart else 0;
      count := ScanLoop(first, if limit < |lab.offsets| then limit else |lab.offsets|, n);
    }

    /** The loop of the scan, which is known to stop within `n` steps. */
    method ScanLoop(start: nat, end: int, ghost n: nat) returns (count: nat)
      requires Stopped(lab, end, Steps(lab, end, Scan(start, trials, skipped, found), n))
      modifies `trials, `skipped, `found
      ensures var s := Steps(lab, end, Scan(start, old(trials), old(skipped), old(found)), n);
              && skipped == s.skipped && found == s.found
              && trials == s.trial + (if s.at < end then 1 else 0)
              && count == |s.found| - |old(found)|
    {
      count := 0;
      var at: nat := start;
      ghost var goal := Steps(lab, end, Scan(at, trials, skipped, found), n);
      ghost var left: nat := n;
      while at < end
        invariant Steps(lab, end, Scan(at, trials, skipped, found), left) == goal
        invariant |found| == |old(found)| + count
        decreases left
      {
        var outcome, number := RunTrial(at + 1);
        if outcome == Bad {
          var offset := lab.log(number, at);
          if offset.None? {
            return;
          }
          found := found + [Suspect(at, offset.value)];
          skipped := skipped + [offset.value];
          count := count + 1;
        } else if outcome == Good {
          at := at + 1;
        } else {
          return;
        }
        left := left - 1;
      }
    }

    /** The outer loop of `main`: bisects, skips what it found, and repeats. */
    method Hunt(maxFind: nat) returns (verdict: Verdict, ghost news: seq<Suspect>)
      requires LabOk(lab)
      modifies `trials, `skipped, `found
      ensures skipped == old(skipped) + OffsetsOf(news) && found == old(found) + news
      ensures AreNew(lab, old(skipped), news) && FoundAtBoundary(lab, old(skipped), news)
      ensures |news| + |RunSet(lab, |lab.offsets|, skipped)| == |RunSet(lab, |lab.offsets|, old(skipped))|
      ensures |news| <= |lab.offsets|
      ensures trials <= old(trials) + (|news| + 1) * (Log(|lab.offsets|) + 2)
      ensures match verdict
              case Clean => Trial(lab, |lab.offsets|, skipped) == Good
              case Inconclusive => Trial(lab, |lab.offsets|, skipped) == Other
              case OffsetLost => !LogsComplete(lab)
              case LimitReached => |news| == maxFind && maxFind <= |lab.offsets|
    {
      news := [];
      RunSetSize(lab, |lab.offsets|, skipped);
      assert OffsetsOf([]) == [] && skipped + [] == skipped && found + [] == found;
      ghost var perRound := Log(|lab.offsets|) + 2;
      for round := 0 to maxFind
        invariant |news| == round
        invariant skipped == old(skipped) + OffsetsOf(news) && found == old(found) + news
        invariant AreNew(lab, old(skipped), news) && FoundAtBoundary(lab, old(skipped), news)
        invariant |news| + |RunSet(lab, |lab.offsets|, skipped)| == |RunSet(lab, |lab.offsets|, old(skipped))|
        invariant trials <= old(trials) + round * perRound
      {
        assert (round + 1) * perRound == round * perRound + perRound;
        var r, full, _ := FindFirstBad();
        if r.None? {
          return if full == Good then Clean else Inconclusive, news;
        }
        if r.value.offset.None? {
          return OffsetLost, news;
        }
        var suspect := Suspect(r.value.index, r.value.offset.value);
        BoundaryIsFresh(lab, skipped, r.value.index);
        SkipShrinks(lab, skipped, r.value.index);
        NewOneMore(lab, old(skipped), news, suspect);
        BoundaryOneMore(lab, old(skipped), news, suspect);
        OffsetsOneMore(news, suspect);
        found := found + [suspect];
        skipped := skipped + [suspect.offset];
        news := news + [suspect];
      }
      return LimitReached, news;
    }
  }

  datatype Verdict = Clean | Inconclusive | OffsetLost | LimitReached

  /** Constructors with their offsets, none skipped before and none twice. */
  ghost predicate AreNew(lab: Lab, skipped: seq<int>, news: seq<Suspect>) {
    && (forall i :: 0 <= i < |news| ==>
          && news[i].index < |lab.offsets| && news[i].offset == lab.offsets[news[i].index]
          && news[i].offset !in skipped)
    && (forall i, j :: 0 <= i < j < |news| ==> news[i].offset != news[j].offset)
  }

  ghost predicate Ascending(news: seq<Suspect>) {
    forall i, j :: 0 <= i < j < |news| ==> news[i].index < news[j].index
  }

  /** Each constructor was quarantined because its prefix was bad, under the skip list by then. */
  ghost predicate Provoked(lab: Lab, skipped: seq<int>, news: seq<Suspect>) {
    forall i :: 0 <= i < |news| ==> Trial(lab, news[i].index + 1, skipped + OffsetsOf(news[..i])) == Bad
  }

  lemma ProvokedOneMore(lab: Lab, skipped: seq<int>, news: seq<Suspect>, s: Suspect)
    requires Provoked(lab, skipped, news) && Trial(lab, s.index + 1, skipped + OffsetsOf(news)) == Bad
    ensures Provoked(lab, skipped, news + [s])
  {
    forall i | 0 <= i <= |news|
      ensures Trial(lab, (news + [s])[i].index + 1, skipped + OffsetsOf((news + [s])[..i])) == Bad
    {
      assert (news + [s])[..i] == news[..i];
    }
    assert news[..|news|] == news;
  }

  /** Each constructor was found at the end of the first bad prefix, under the skip list by
      then. */
  ghost predicate FoundAtBoundary(lab: Lab, skipped: seq<int>, news: seq<Suspect>) {
    forall i :: 0 <= i < |news| ==> Boundary(lab, skipped + OffsetsOf(news[..i]), news[i].index)
  }

  lemma BoundaryOneMore(lab: Lab, skipped: seq<int>, news: seq<Suspect>, s: Suspect)
    requires FoundAtBoundary(lab, skipped, news) && Boundary(lab, skipped + OffsetsOf(news), s.index)
    ensures FoundAtBoundary(lab, skipped, news + [s])
  {
    forall i | 0 <= i <= |news|
      ensures Boundary(lab, skipped + OffsetsOf((news + [s])[..i]), (news + [s])[i].index)
    {
      assert (news + [s])[..i] == news[..i];
    }
    assert news[..|news|] == news;
  }

  /** A constructor that still runs joins the list; in a scan, behind all others. */
  lemma NewOneMore(lab: Lab, skipped: seq<int>, news: seq<Suspect>, s: Suspect)
    requires AreNew(lab, skipped, news) && s.index < |lab.offsets| && s.offset == lab.offsets[s.index]
    requires s.offset !in skipped + OffsetsOf(news)
    ensures AreNew(lab, skipped, news + [s])
    ensures Ascending(news) && (forall i :: 0 <= i < |news| ==> news[i].index <= s.index) ==> Ascending(news + [s])
  {
    forall i | 0 <= i < |news|
      ensures news[i].offset != s.offset
    {
      assert (skipped + OffsetsOf(news))[|skipped| + i] == news[i].offset;
    }
  }

  lemma SkipShrinks(lab: Lab, skipped: seq<int>, index: nat)
    requires index < |lab.offsets| && lab.offsets[index] !in skipped
    ensures |RunSet(lab, |lab.offsets|, skipped + [lab.offsets[index]])| + 1 == |RunSet(lab, |lab.offsets|, skipped)|
  {
    var all, o := RunSet(lab, |lab.offsets|, skipped), lab.offsets[index];
    assert o in all;
    assert RunSet(lab, |lab.offsets|, skipped + [o]) == all - {o};
  }

  lemma {:induction false} RunSetSize(lab: Lab, max: nat, skipped: seq<int>)
    requires max <= |lab.offsets|
    ensures |RunSet(lab, max, skipped)| <= max
  {
    if max == 0 {
      assert RunSet(lab, 0, skipped) == {};
    } else {
      RunSetSize(lab, max - 1, skipped);
      var before, o := RunSet(lab, max - 1, skipped), lab.offsets[max - 1];
      assert RunSet(lab, max, skipped) == if o in skipped then before else before + {o};
    }
  }

  predicate SkippedAt(lab: Lab, skipped: seq<int>, index: nat) {
    index < |lab.offsets| && lab.offsets[index] in skipped
  }

  /** Prefixes past `start`, up to `at`, are good. */
  ghost predicate AllGood(lab: Lab, skipped: seq<int>, start: nat, at: nat) {
    forall j: nat :: start < j <= at ==> Trial(lab, j, skipped) == Good
  }

  /** The prefix is bad both with the constructor at `at` and without it. */
  predicate StuckAt(lab: Lab, skipped: seq<int>, at: nat) {
    Trial(lab, at, skipped) == Bad && Trial(lab, at + 1, skipped) == Bad
  }

  /** Quarantining the constructor that turned its prefix bad: it was not skipped before, all
      shorter prefixes keep their outcome, and the scan is not stuck on it. */
  lemma QuarantineKeeps(lab: Lab, skipped: seq<int>, start: nat, at: nat)
    requires Distinct(lab.offsets) && start <= at < |lab.offsets| && AllGood(lab, skipped, start, at)
    requires !StuckAt(lab, skipped, at) && Trial(lab, at + 1, skipped) == Bad
    ensures lab.offsets[at] !in skipped
    ensures var more := skipped + [lab.offsets[at]];
            && AllGood(lab, more, start, at) && !StuckAt(lab, more, at) && SkippedAt(lab, more, at)
            && Trial(lab, start, more) == Trial(lab, start, skipped)
  {
    if lab.offsets[at] in skipped {
      SkippedAddsNothing(lab, at, skipped);
    }
    var more := skipped + [lab.offsets[at]];
    assert more[|skipped|] == lab.offsets[at];
    forall j: nat | j <= at
      ensures Trial(lab, j, more) == Trial(lab, j, skipped)
    {
      SkipKeepsPrefixes(lab, at, skipped, j);
    }
  }

  // ---------------------------------------------------------------- the scan step by step

  /** Where a scan stands: the index it tries next, that trial's number, and the two lists. */
  datatype Scan = Scan(at: nat, trial: nat, skipped: seq<int>, found: seq<Suspect>)

  /** The scan is past its end, or its next trial ends it: by another outcome, or bad with a
      log that does not tell the offset. */
  predicate Stopped(lab: Lab, end: int, s: Scan) {
    || s.at >= end
    || Trial(lab, s.at + 1, s.skipped) == Other
    || (Trial(lab, s.at + 1, s.skipped) == Bad && lab.log(s.trial, s.at).None?)
  }

  function Step(lab: Lab, end: int, s: Scan): Scan
    requires !Stopped(lab, end, s)
  {
    if Trial(lab, s.at + 1, s.skipped) == Good then s.(at := s.at + 1, trial := s.trial + 1)
    else
      var offset := lab.log(s.trial, s.at).value;
      Scan(s.at, s.trial + 1, s.skipped + [offset], s.found + [Suspect(s.at, offset)])
  }

  /** At most `n` steps. */
  function Steps(lab: Lab, end: int, s: Scan, n: nat): Scan
    decreases n
  {
    if n == 0 || Stopped(lab, end, s) then s else Steps(lab, end, Step(lab, end, s), n - 1)
  }

  ghost predicate Ends(lab: Lab, end: int, s: Scan) {
    exists n: nat :: Stopped(lab, end, Steps(lab, end, s, n))
  }

  /** The first prefix is bad with and without its last constructor, and every log to come
      tells that constructor's offset. */
  ghost predicate Forever(lab: Lab, end: int, s: Scan) {
    && s.at < end && StuckAt(lab, s.skipped, s.at)
    && forall t: nat :: t >= s.trial ==> lab.log(t, s.at).Some?
  }

  // ---------------------------------------------------------------- scans that are not stuck

  /** What a scan from `s0` has achieved at `s`: it quarantined `news`, each constructor once
      and in order, and every prefix past the start is good under the skip list by now. */
  ghost predicate Progress(lab: Lab, s0: Scan, s: Scan, news: seq<Suspect>) {
    && s.skipped == s0.skipped + OffsetsOf(news) && s.found == s0.found + news
    && AreNew(lab, s0.skipped, news) && Ascending(news) && Provoked(lab, s0.skipped, news)
    && (forall i :: 0 <= i < |news| ==> s0.at <= news[i].index <= s.at)
    && s0.at <= s.at && AllGood(lab, s.skipped, s0.at, s.at)
    && Trial(lab, s0.at, s.skipped) == Trial(lab, s0.at, s0.skipped)
    && !StuckAt(lab, s.skipped, s.at)
  }

  lemma NothingYet(lab: Lab, s: Scan)
    requires !StuckAt(lab, s.skipped, s.at)
    ensures Progress(lab, s, s, [])
  {
    assert OffsetsOf([]) == [] && s.skipped + [] == s.skipped && s.found + [] == s.found;
  }

  lemma StepProgress(lab: Lab, end: int, s0: Scan, s: Scan, news: seq<Suspect>) returns (more: seq<Suspect>)
    requires LabOk(lab) && end <= |lab.offsets| && Progress(lab, s0, s, news) && !Stopped(lab, end, s)
    ensures Progress(lab, s0, Step(lab, end, s), more)
  {
    if Trial(lab, s.at + 1, s.skipped) == Good {
      more := news;
    } else {
      var suspect := Suspect(s.at, lab.log(s.trial, s.at).value);
      QuarantineKeeps(lab, s.skipped, s0.at, s.at);
      NewOneMore(lab, s0.skipped, news, suspect);
      ProvokedOneMore(lab, s0.skipped, news, suspect);
      OffsetsOneMore(news, suspect);
      more := news + [suspect];
    }
  }

  /** What a scan that is not stuck at its start has achieved after any number of steps. */
  lemma {:induction false} StepsProgress(lab: Lab, end: int, s0: Scan, s: Scan, news: seq<Suspect>, n: nat)
    returns (more: seq<Suspect>)
    requires LabOk(lab) && end <= |lab.offsets| && Progress(lab, s0, s, news)
    ensures Progress(lab, s0, Steps(lab, end, s, n), more)
    decreases n
  {
    more := news;
    if n > 0 && !Stopped(lab, end, s) {
      more := StepProgress(lab, end, s0, s, news);
      more := StepsProgress(lab, end, s0, Step(lab, end, s), more, n - 1);
    }
  }

  /** Each index costs one good trial, and one bad trial unless it is skipped already. */
  function TrialsLeft(lab: Lab, end: int, s: Scan): nat {
    if s.at >= end then 0 else 2 * (end - s.at) - (if SkippedAt(lab, s.skipped, s.at) then 1 else 0)
  }

  /** A scan that is not stuck ends within two trials per index. */
  lemma {:induction false} UnstuckEnds(lab: Lab, end: int, s: Scan, n: nat)
    requires LabOk(lab) && end <= |lab.offsets| && !StuckAt(lab, s.skipped, s.at) && n >= TrialsLeft(lab, end, s)
    ensures Stopped(lab, end, Steps(lab, end, s, n))
    decreases n
  {
    if !Stopped(lab, end, s) {
      if Trial(lab, s.at + 1, s.skipped) != Good {
        assert AllGood(lab, s.skipped, s.at, s.at);
        QuarantineKeeps(lab, s.skipped, s.at, s.at);
      }
      UnstuckEnds(lab, end, Step(lab, end, s), n - 1);
    }
  }

  /** A scan that meets good and bad outcomes only, and logs that tell every offset, stops
      nowhere but at its end. */
  lemma StopsAtEnd(lab: Lab, end: int, s: Scan)
    requires LogsComplete(lab) && end <= |lab.offsets| && (forall x :: lab.oracle(x) != Other)
    ensures Stopped(lab, end, s) <==> s.at >= end
  {
    if s.at < end {
      assert lab.log(s.trial, s.at).Some?;
    }
  }

  // ---------------------------------------------------------------- scans that are stuck

  function Copies<T>(x: T, k: nat): (r: seq<T>)
    ensures |r| == k && forall i :: 0 <= i < k ==> r[i] == x
  {
    seq(k, _ => x)
  }

  lemma StuckStep(lab: Lab, end: int, s: Scan)
    requires LabOk(lab) && s.at < end <= |lab.offsets| && StuckAt(lab, s.skipped, s.at) && lab.log(s.trial, s.at).Some?
    ensures !Stopped(lab, end, s)
    ensures var offset := lab.offsets[s.at];
            var next := Scan(s.at, s.trial + 1, s.skipped + [offset], s.found + [Suspect(s.at, offset)]);
            Step(lab, end, s) == next && StuckAt(lab, next.skipped, s.at)
  {
    var more := s.skipped + [lab.offsets[s.at]];
    assert more[|s.skipped|] == lab.offsets[s.at];
    SkipKeepsPrefixes(lab, s.at, s.skipped, s.at);
    SkippedAddsNothing(lab, s.at, more);
  }

  lemma CopiesOneMore<T>(before: seq<T>, x: T, n: nat)
    requires n > 0
    ensures before + [x] + Copies(x, n - 1) == before + Copies(x, n)
  {
  }

  /** While the logs tell its offset, a stuck scan quarantines the same constructor with every
      trial and never moves on. */
  lemma {:induction false} StuckSteps(lab: Lab, end: int, s: Scan, n: nat)
    requires LabOk(lab) && s.at < end <= |lab.offsets| && StuckAt(lab, s.skipped, s.at)
    requires forall t: nat :: s.trial <= t < s.trial + n ==> lab.log(t, s.at).Some?
    ensures var offset := lab.offsets[s.at];
            Steps(lab, end, s, n) ==
            Scan(s.at, s.trial + n, s.skipped + Copies(offset, n), s.found + Copies(Suspect(s.at, offset), n))
    ensures StuckAt(lab, Steps(lab, end, s, n).skipped, s.at)
    decreases n
  {
    var offset := lab.offsets[s.at];
    if n == 0 {
      assert s.skipped + Copies(offset, 0) == s.skipped && s.found + Copies(Suspect(s.at, offset), 0) == s.found;
    } else {
      StuckStep(lab, end, s);
      StuckSteps(lab, end, Step(lab, end, s), n - 1);
      CopiesOneMore(s.skipped, offset, n);
      CopiesOneMore(s.found, Suspect(s.at, offset), n);
    }
  }

  /** A log without the offset ends a stuck scan. */
  lemma {:induction false} LostOffsetEnds(lab: Lab, end: int, s: Scan, t: nat) returns (n: nat)
    requires LabOk(lab) && s.at < end <= |lab.offsets| && StuckAt(lab, s.skipped, s.at)
    requires t >= s.trial && lab.log(t, s.at).None?
    ensures Stopped(lab, end, Steps(lab, end, s, n))
    decreases t - s.trial
  {
    if lab.log(s.trial, s.at).None? {
      n := 0;
    } else {
      StuckStep(lab, end, s);
      n := LostOffsetEnds(lab, end, Step(lab, end, s), t);
      n := n + 1;
    }
  }

  /** A scan ends exactly unless it starts stuck and every log from its first trial on tells
      the offset it is stuck on. */
  lemma ScanEndsExactlyUnless(lab: Lab, end: int, s: Scan)
    requires LabOk(lab) && end <= |lab.offsets|
    ensures Ends(lab, end, s) <==> !Forever(lab, end, s)
  {
    if Forever(lab, end, s) {
      forall n: nat
        ensures !Stopped(lab, end, Steps(lab, end, s, n))
      {
        StuckSteps(lab, end, s, n);
      }
    } else if s.at >= end {
      assert Stopped(lab, end, Steps(lab, end, s, 0));
    } else if !StuckAt(lab, s.skipped, s.at) {
      UnstuckEnds(lab, end, s, TrialsLeft(lab, end, s));
    } else {
      var t: nat :| t >= s.trial && lab.log(t, s.at).None?;
      var n := LostOffsetEnds(lab, end, s, t);
    }
  }

  /** How many steps a scan takes, where it leaves off, and what it quarantines. */
  lemma ScanPlan(lab: Lab, end: int, s: Scan) returns (n: nat, reached: nat, news: seq<Suspect>)
    requires LabOk(lab) && end <= |lab.offsets| && !Forever(lab, end, s)
    ensures var e := Steps(lab, end, s, n);
            && Stopped(lab, end, e) && reached == e.at >= s.at && e.trial >= s.trial
            && (!StuckAt(lab, s.skipped, s.at) ==> Progress(lab, s, e, news))
            && (LogsComplete(lab) && (forall x :: lab.oracle(x) != Other) ==> reached >= end)
  {
    news := [];
    ScanEndsExactlyUnless(lab, end, s);
    n :| Stopped(lab, end, Steps(lab, end, s, n));
    StepsAdvance(lab, end, s, n);
    reached := Steps(lab, end, s, n).at;
    if !StuckAt(lab, s.skipped, s.at) {
      NothingYet(lab, s);
      news := StepsProgress(lab, end, s, s, [], n);
    }
    if LogsComplete(lab) && forall x :: lab.oracle(x) != Other {
      StopsAtEnd(lab, end, Steps(lab, end, s, n));
    }
  }

  lemma {:induction false} StepsAdvance(lab: Lab, end: int, s: Scan, n: nat)
    ensures Steps(lab, end, s, n).at >= s.at && Steps(lab, end, s, n).trial >= s.trial
    decreases n
  {
    if n > 0 && !Stopped(lab, end, s) {
      StepsAdvance(lab, end, Step(lab, end, s), n - 1);
    }
  }

  /** Two constructors of which the first is bad; `telling` is whether the logs tell offsets. */
  function BadFirst(telling: bool): Lab {
    Lab([1, 2], run => if 1 in run then Bad else Good,
        (t, i) => if telling && i == 0 then Some(1) else if telling && i == 1 then Some(2) else None)
  }

  /** Scanning two constructors from index 1, behind a bad one, never ends with telling logs and
      ends at once with silent ones. */
  lemma StuckScan()
    ensures LabOk(BadFirst(true)) && !Ends(BadFirst(true), 2, Scan(1, 0, [], []))
    ensures LabOk(BadFirst(false)) && Stopped(BadFirst(false), 2, Scan(1, 0, [], []))
  {
    forall telling: bool
      ensures LabOk(BadFirst(telling)) && StuckAt(BadFirst(telling), [], 1)
    {
      var lab := BadFirst(telling);
      assert lab.offsets[0] == 1 && 1 in RunSet(lab, 1, []) && 1 in RunSet(lab, 2, []);
    }
    ScanEndsExactlyUnless(BadFirst(true), 2, Scan(1, 0, [], []));
  }
}

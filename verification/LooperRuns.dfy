/**
 Every interleaving of the looper: registrations and removals from any thread, descriptor
 changes the looper never sees, and the polling thread's `pollOnce` cut at each point where
 it does not hold the mutex.
 */
module LooperRuns {
  import opened Basics
  import opened Looper

  /** Where the polling thread stands inside `pollOnce`. */
  datatype Phase =
    | Idle
    | Draining                                    // first TakePendingIdent
    | Waiting                                     // at epoll_wait
    | Ready(batch: seq<Interest>)                 // epoll_wait returned, tokens unresolved
    | Dispatching(responses: seq<Response>, at: nat, invoked: bool, woken: bool)
    | InCallback(responses: seq<Response>, at: nat, woken: bool)
    | Taking(invoked: bool, woken: bool)          // second TakePendingIdent

  /** What became of one queued ident response. */
  datatype Outcome = Outcome(response: Response, delivered: bool)

  /** `queued` and `settled` are histories: every ident response ever queued, and every one
      taken from the front of the queue with its fate. */
  datatype State = State(
    allowNonCallbacks: bool,
    shared: Shared,
    pending: seq<Response>,
    phase: Phase,
    queued: seq<Response>,
    settled: seq<Outcome>)

  datatype Action =
    | AddFd(fd: int, ident: int, events: int, callback: Option<int>, data: int,
            fault: Option<Errno>, retryFault: Option<Errno>)
    | RemoveFd(fd: int, fault: Option<Errno>)
    | ChangeDescriptors(files: map<int, File>, gone: set<(File, int)>)
    | BeginPoll
    | TakePending                                 // one turn of TakePendingIdent's loop
    | WaitEnds                                    // timeout or error
    | WaitReturns(ready: seq<((File, int), int)>) // kernel entries with their ready events
    | CollectBatch
    | SkipIdent
    | InvokeCallback
    | CallbackReturns(keep: int, fault: Option<Errno>)
    | EnqueueIdents

  /** The kernel reports each of its entries at most once per wait. */
  ghost predicate ReadyOk(k: Kernel, ready: seq<((File, int), int)>) {
    && (forall i :: 0 <= i < |ready| ==> ready[i].0 in k.interest)
    && (forall i, j :: 0 <= i < j < |ready| ==> ready[i].0 != ready[j].0)
  }

  function Reported(k: Kernel, ready: seq<((File, int), int)>): (batch: seq<Interest>)
    requires forall i :: 0 <= i < |ready| ==> ready[i].0 in k.interest
  {
    seq(|ready|, i requires 0 <= i < |ready| => Interest(k.interest[ready[i].0].token, ready[i].1))
  }

  /** Registering is possible at any time: what it asks of the maps is part of what every
      reachable state satisfies (`RunKeeps`). */
  ghost predicate Enabled(s: State, a: Action) {
    match a
    case AddFd(_, _, _, _, _, _, _) => MapsInverse(s.shared) && InRange(s.shared)
    case RemoveFd(_, _) => true
    case ChangeDescriptors(_, _) => true
    case BeginPoll => s.phase.Idle?
    case TakePending => s.phase.Draining? || s.phase.Taking?
    case WaitEnds => s.phase.Waiting?
    case WaitReturns(ready) => s.phase.Waiting? && ready != [] && ReadyOk(s.shared.kernel, ready)
    case CollectBatch => s.phase.Ready?
    case SkipIdent =>
      && s.phase.Dispatching? && s.phase.at < |s.phase.responses|
      && s.phase.responses[s.phase.at].registration.callback.None?
    case InvokeCallback =>
      && s.phase.Dispatching? && s.phase.at < |s.phase.responses|
      && s.phase.responses[s.phase.at].registration.callback.Some?
    case CallbackReturns(_, _) => s.phase.InCallback? && s.phase.at < |s.phase.responses|
    case EnqueueIdents => s.phase.Dispatching? && s.phase.at == |s.phase.responses|
  }

  ghost function Apply(s: State, a: Action): State
    requires Enabled(s, a)
  {
    match a
    case AddFd(fd, ident, events, callback, data, fault, retryFault) =>
      s.(shared := AddingFd(s.shared, s.allowNonCallbacks, fd, ident, events, callback, data,
                            fault, retryFault).0)
    case RemoveFd(fd, fault) => s.(shared := RemovingFd(s.shared, fd, fault).0)
    case ChangeDescriptors(files, gone) => s.(shared := Looper.ChangeDescriptors(s.shared, files, gone))
    case BeginPoll => s.(phase := Draining)
    case TakePending =>
      if s.pending == [] then
        s.(phase := if s.phase.Taking? && (s.phase.invoked || s.phase.woken) then Idle else Waiting)
      else
        var delivered := Deliverable(s.shared, s.pending[0]);
        s.(pending := s.pending[1..],
           settled := s.settled + [Outcome(s.pending[0], delivered)],
           phase := if delivered then Idle else s.phase)
    case WaitEnds => s.(phase := Idle)
    case WaitReturns(ready) => s.(phase := Ready(Reported(s.shared.kernel, ready)))
    case CollectBatch =>
      s.(phase := Dispatching(Collect(s.shared.registrations, s.phase.batch), 0, false, Wakes(s.phase.batch)))
    case SkipIdent =>
      s.(phase := Dispatching(s.phase.responses, s.phase.at + 1, s.phase.invoked, s.phase.woken))
    case InvokeCallback => s.(phase := InCallback(s.phase.responses, s.phase.at, s.phase.woken))
    case CallbackReturns(keep, fault) =>
      var r := s.phase.responses[s.phase.at].registration;
      s.(shared := if keep == 0 then RemovingFdLocked(s.shared, r.fd, r.token, fault).0 else s.shared,
         phase := Dispatching(s.phase.responses, s.phase.at + 1, true, s.phase.woken))
    case EnqueueIdents =>
      s.(pending := s.pending + Idents(s.phase.responses),
         queued := s.queued + Idents(s.phase.responses),
         phase := Taking(s.phase.invoked, s.phase.woken))
  }

  predicate Deliverable(s: Shared, r: Response) {
    IsCurrent(s, r.registration) && r.registration.callback.None?
  }

  // ---------------------------------------------------------------- runs

  ghost predicate IsRun(s: State, acts: seq<Action>)
    decreases |acts|
  {
    acts == [] || (Enabled(s, acts[0]) && IsRun(Apply(s, acts[0]), acts[1..]))
  }

  ghost function After(s: State, acts: seq<Action>): State
    requires IsRun(s, acts)
    decreases |acts|
  {
    if acts == [] then s else After(Apply(s, acts[0]), acts[1..])
  }

  /** A looper just prepared: its kernel list holds only the wake descriptor. */
  ghost predicate Initial(s: State) {
    && s.shared.tokenByFd == map[] && s.shared.registrations == map[]
    && s.shared.nextToken == 1 && s.shared.drawn == 0
    && (forall k, l :: k in s.shared.kernel.interest && l in s.shared.kernel.interest ==> k == l)
    && (forall k :: k in s.shared.kernel.interest ==> s.shared.kernel.interest[k].token == WAKE_TOKEN)
    && s.pending == [] && s.phase == Idle && s.queued == [] && s.settled == []
  }

  // ---------------------------------------------------------------- invariant

  /** `r` was resolved from a registration whose token, if still registered, still means
      exactly that registration. */
  ghost predicate Faithful(s: Shared, r: Response) {
    var t := r.registration.token;
    1 <= t <= s.drawn && (t in s.registrations ==> s.registrations[t] == r.registration)
  }

  ghost predicate ResponsesOk(s: Shared, rs: seq<Response>) {
    && (forall i :: 0 <= i < |rs| ==> Faithful(s, rs[i]))
    && DistinctTokens(rs)
  }

  ghost predicate DistinctTokens(rs: seq<Response>) {
    forall i, j :: 0 <= i < j < |rs| ==> rs[i].registration.token != rs[j].registration.token
  }

  ghost predicate BatchOk(batch: seq<Interest>) {
    forall i, j | 0 <= i < j < |batch| ::
      batch[i].token == batch[j].token ==> batch[i].token == WAKE_TOKEN
  }

  ghost predicate PendingOk(s: State) {
    && ResponsesOk(s.shared, s.pending)
    && (forall i :: 0 <= i < |s.pending| ==> s.pending[i].registration.callback.None?)
    && match s.phase
       case Ready(batch) => BatchOk(batch)
       case Dispatching(responses, _, _, _) => ResponsesOk(s.shared, responses)
       case InCallback(responses, _, _) => ResponsesOk(s.shared, responses)
       case _ => true
  }

  ghost predicate QueueEmptyWhileBusy(s: State) {
    !s.phase.Idle? && !s.phase.Draining? && !s.phase.Taking? ==> s.pending == []
  }

  function Settlements(settled: seq<Outcome>): (rs: seq<Response>) {
    seq(|settled|, i requires 0 <= i < |settled| => settled[i].response)
  }

  ghost predicate StateOk(s: State) {
    && SharedOk(s.shared)
    && QueueEmptyWhileBusy(s)
    && Settlements(s.settled) + s.pending == s.queued
    && (NoReuse(s.shared) ==> PendingOk(s))
    && (s.phase.Dispatching? ==> s.phase.at <= |s.phase.responses|)
    && (s.phase.InCallback? ==> s.phase.at < |s.phase.responses|
                                && s.phase.responses[s.phase.at].registration.callback.Some?)
  }

  // ---------------------------------------------------------------- lemmas about single steps

  /** Registered tokens change only by removal or by drawing a fresh token. */
  ghost predicate OnlyFreshTokens(s: Shared, s': Shared) {
    && s.drawn <= s'.drawn
    && (NoReuse(s') ==> forall t :: t in s'.registrations ==>
          t > s.drawn || (t in s.registrations && s'.registrations[t] == s.registrations[t]))
  }

  lemma AddDrawsFresh(s: Shared, allow: bool, fd: int, ident: int, events: int, callback: Option<int>,
                      data: int, fault: Option<Errno>, retryFault: Option<Errno>)
    requires SharedOk(s)
    ensures OnlyFreshTokens(s, AddingFd(s, allow, fd, ident, events, callback, data, fault, retryFault).0)
  {
    var s' := AddingFd(s, allow, fd, ident, events, callback, data, fault, retryFault).0;
    if NoReuse(s') && AddArgumentsOk(allow, fd, ident, callback) {
      assert s.nextToken !in s.registrations;
    }
  }

  lemma SharedStep(s: State, a: Action)
    requires SharedOk(s.shared) && Enabled(s, a)
    ensures SharedOk(Apply(s, a).shared) && OnlyFreshTokens(s.shared, Apply(s, a).shared)
  {
    match a
    case AddFd(fd, ident, events, callback, data, fault, retryFault) =>
      AddFdKeeps(s.shared, s.allowNonCallbacks, fd, ident, events, callback, data, fault, retryFault);
      AddDrawsFresh(s.shared, s.allowNonCallbacks, fd, ident, events, callback, data, fault, retryFault);
    case RemoveFd(fd, fault) => RemoveFdLockedKeeps(s.shared, fd, 0, fault);
    case ChangeDescriptors(files, gone) => ChangeDescriptorsKeeps(s.shared, files, gone);
    case CallbackReturns(keep, fault) =>
      var r := s.phase.responses[s.phase.at].registration;
      RemoveFdLockedKeeps(s.shared, r.fd, r.token, fault);
    case _ =>
  }

  lemma ResponsesSurvive(s: Shared, s': Shared, rs: seq<Response>)
    requires OnlyFreshTokens(s, s') && NoReuse(s') && ResponsesOk(s, rs)
    ensures ResponsesOk(s', rs)
  {
  }

  /** `r` carries a registration of `regs` whose token is in the batch. */
  ghost predicate ResolvedFrom(regs: map<nat, Registration>, batch: seq<Interest>, r: Response) {
    var t := r.registration.token;
    && t != WAKE_TOKEN && t in regs && regs[t] == r.registration
    && exists k :: 0 <= k < |batch| && batch[k].token == t
  }

  lemma {:induction false} CollectTokens(regs: map<nat, Registration>, batch: seq<Interest>)
    requires forall t :: t in regs ==> regs[t].token == t
    ensures forall i :: 0 <= i < |Collect(regs, batch)| ==> ResolvedFrom(regs, batch, Collect(regs, batch)[i])
  {
    if batch != [] {
      var n := |batch| - 1;
      var before, all := Collect(regs, batch[..n]), Collect(regs, batch);
      CollectTokens(regs, batch[..n]);
      forall i | 0 <= i < |all|
        ensures ResolvedFrom(regs, batch, all[i])
      {
        if i < |before| {
          assert ResolvedFrom(regs, batch[..n], before[i]);
          var k :| 0 <= k < n && batch[..n][k].token == all[i].registration.token;
          assert batch[k] == batch[..n][k];
        } else {
          assert batch[n].token == all[i].registration.token;
        }
      }
    }
  }

  lemma {:induction false} CollectDistinct(regs: map<nat, Registration>, batch: seq<Interest>)
    requires forall t :: t in regs ==> regs[t].token == t
    requires BatchOk(batch)
    ensures DistinctTokens(Collect(regs, batch))
  {
    if batch != [] {
      var n := |batch| - 1;
      var before := Collect(regs, batch[..n]);
      CollectDistinct(regs, batch[..n]);
      CollectTokens(regs, batch[..n]);
      forall i | 0 <= i < |before|
        ensures before[i].registration.token != batch[n].token
      {
        assert ResolvedFrom(regs, batch[..n], before[i]);
        var k :| 0 <= k < n && batch[..n][k].token == before[i].registration.token;
        assert batch[k] == batch[..n][k];
      }
    }
  }

  lemma {:induction false} IdentsOk(s: Shared, rs: seq<Response>)
    requires ResponsesOk(s, rs)
    ensures ResponsesOk(s, Idents(rs))
    ensures forall i :: 0 <= i < |Idents(rs)| ==> Idents(rs)[i] in rs && Idents(rs)[i].registration.callback.None?
  {
    if rs != [] {
      var n := |rs| - 1;
      IdentsOk(s, rs[..n]);
      forall i | 0 <= i < |Idents(rs)|
        ensures Idents(rs)[i] in rs
        ensures i < |Idents(rs[..n])| ==> Idents(rs)[i].registration.token != rs[n].registration.token
      {
        if i < |Idents(rs[..n])| {
          assert Idents(rs)[i] in rs[..n];
        }
      }
    }
  }

  lemma StepKeeps(s: State, a: Action)
    requires StateOk(s) && Enabled(s, a)
    ensures StateOk(Apply(s, a))
  {
    var s' := Apply(s, a);
    SharedStep(s, a);
    PendingStep(s, a);
    if a.TakePending? && s.pending != [] {
      assert Settlements(s'.settled) == Settlements(s.settled) + [s.pending[0]];
    }
  }

  lemma PendingStep(s: State, a: Action)
    requires StateOk(s) && Enabled(s, a) && OnlyFreshTokens(s.shared, Apply(s, a).shared)
    ensures NoReuse(Apply(s, a).shared) ==> PendingOk(Apply(s, a))
  {
    var s' := Apply(s, a);
    if NoReuse(s'.shared) {
      ResponsesSurvive(s.shared, s'.shared, s.pending);
      match a
      case AddFd(_, _, _, _, _, _, _) => PhaseSurvives(s, s');
      case RemoveFd(_, _) => PhaseSurvives(s, s');
      case CallbackReturns(_, _) => ResponsesSurvive(s.shared, s'.shared, s.phase.responses);
      case CollectBatch =>
        CollectTokens(s.shared.registrations, s.phase.batch);
        CollectDistinct(s.shared.registrations, s.phase.batch);
        assert forall i :: 0 <= i < |s'.phase.responses| ==>
                 ResolvedFrom(s.shared.registrations, s.phase.batch, s'.phase.responses[i]);
      case EnqueueIdents => IdentsOk(s.shared, s.phase.responses);
      case _ =>
    }
  }

  lemma PhaseSurvives(s: State, s': State)
    requires OnlyFreshTokens(s.shared, s'.shared) && NoReuse(s'.shared) && PendingOk(s)
    requires s' == s.(shared := s'.shared)
    ensures PendingOk(s')
  {
  }

  lemma {:induction false} RunKeeps(s: State, acts: seq<Action>)
    requires StateOk(s) && IsRun(s, acts)
    ensures StateOk(After(s, acts))
    decreases |acts|
  {
    if acts != [] {
      StepKeeps(s, acts[0]);
      RunKeeps(Apply(s, acts[0]), acts[1..]);
    }
  }

  // ---------------------------------------------------------------- what every run guarantees

  /** In every interleaving the maps stay mutual inverses, the wake token is never
      registered, and a kernel entry whose token is registered is its descriptor's current
      token (as long as no token value was handed out twice). */
  lemma RegistrationsStayConsistent(s: State, acts: seq<Action>)
    requires Initial(s) && IsRun(s, acts)
    ensures MapsInverse(After(s, acts).shared)
    ensures WAKE_TOKEN !in After(s, acts).shared.registrations
    ensures var e := After(s, acts).shared;
            e.drawn <= MAX_TOKEN ==>
              forall k :: k in e.kernel.interest && e.kernel.interest[k].token in e.registrations ==>
                k.1 in e.tokenByFd && e.tokenByFd[k.1] == e.kernel.interest[k].token
  {
    RunKeeps(s, acts);
  }

  /** The pending queue is empty at every `epoll_wait`, never holds one token twice, and
      what was taken from it together with what it still holds is exactly what was queued,
      in order. */
  lemma QueueDiscipline(s: State, acts: seq<Action>)
    requires Initial(s) && IsRun(s, acts)
    ensures var e := After(s, acts);
            && (e.phase.Waiting? ==> e.pending == [])
            && (NoReuse(e.shared) ==> DistinctTokens(e.pending))
            && Settlements(e.settled) + e.pending == e.queued
  {
    RunKeeps(s, acts);
  }

  /** `e` delivers its front response exactly when that response's token is registered. */
  ghost predicate TakesCurrent(e: State)
    requires Enabled(e, TakePending) && e.pending != []
  {
    var r := e.pending[0].registration;
    var delivered := r.token in e.shared.registrations;
    && Apply(e, TakePending).settled == e.settled + [Outcome(e.pending[0], delivered)]
    && Apply(e, TakePending).pending == e.pending[1..]
    && (delivered ==>
          && e.shared.registrations[r.token] == r
          && r.fd in e.shared.tokenByFd && e.shared.tokenByFd[r.fd] == r.token
          && Apply(e, TakePending).phase.Idle?)
  }

  lemma TakeIsCurrent(e: State)
    requires StateOk(e) && NoReuse(e.shared)
    requires Enabled(e, TakePending) && e.pending != []
    ensures TakesCurrent(e)
  {
    assert Faithful(e.shared, e.pending[0]);
  }

  /** One turn of `TakePendingIdent` in any reachable state: the front response is returned
      exactly when its token is still registered, and then the registration it carries is
      the one current at that moment; otherwise it is dropped. */
  lemma TakenResponseIsCurrent(s: State, acts: seq<Action>)
    requires Initial(s) && IsRun(s, acts)
    requires Enabled(After(s, acts), TakePending) && After(s, acts).pending != []
    requires NoReuse(After(s, acts).shared)
    ensures TakesCurrent(After(s, acts))
  {
    RunKeeps(s, acts);
    TakeIsCurrent(After(s, acts));
  }

  /** A token that left the table never comes back, so an event collected for it can never
      be taken for a later registration of the same descriptor. */
  lemma {:induction false} RetiredForever(s: State, acts: seq<Action>, token: nat)
    requires StateOk(s) && IsRun(s, acts)
    requires token <= s.shared.drawn && token !in s.shared.registrations
    requires NoReuse(After(s, acts).shared)
    ensures token !in After(s, acts).shared.registrations
    decreases |acts|
  {
    if acts != [] {
      var s' := Apply(s, acts[0]);
      StepKeeps(s, acts[0]);
      SharedStep(s, acts[0]);
      DrawnGrows(s', acts[1..]);
      RetiredForever(s', acts[1..], token);
    }
  }

  lemma {:induction false} DrawnGrows(s: State, acts: seq<Action>)
    requires StateOk(s) && IsRun(s, acts)
    ensures s.shared.drawn <= After(s, acts).shared.drawn
    decreases |acts|
  {
    if acts != [] {
      StepKeeps(s, acts[0]);
      SharedStep(s, acts[0]);
      DrawnGrows(Apply(s, acts[0]), acts[1..]);
    }
  }

  ghost predicate DroppedAreRetired(s: State) {
    NoReuse(s.shared) ==>
      forall i :: 0 <= i < |s.settled| && !s.settled[i].delivered ==>
        && s.settled[i].response.registration.token <= s.shared.drawn
        && s.settled[i].response.registration.token !in s.shared.registrations
  }

  lemma {:induction false} DroppedStayRetired(s: State, acts: seq<Action>)
    requires StateOk(s) && DroppedAreRetired(s) && IsRun(s, acts)
    ensures DroppedAreRetired(After(s, acts))
    decreases |acts|
  {
    if acts != [] {
      StepKeeps(s, acts[0]);
      SharedStep(s, acts[0]);
      DroppedStayRetired(Apply(s, acts[0]), acts[1..]);
    }
  }

  /** Over a whole run, a response is dropped only because its registration was removed or
      replaced: no dropped token is registered at the end. */
  lemma DroppedBecauseRetired(s: State, acts: seq<Action>, i: nat)
    requires Initial(s) && IsRun(s, acts) && NoReuse(After(s, acts).shared)
    requires i < |After(s, acts).settled| && !After(s, acts).settled[i].delivered
    ensures After(s, acts).settled[i].response.registration.token !in After(s, acts).shared.registrations
  {
    DroppedStayRetired(s, acts);
  }

  /** A callback that returns 0 takes away at most the registration it was invoked for (and
      does so when the kernel does not object); a newer registration of the same descriptor,
      and every other one, stays. */
  lemma CallbackRemovesOnlyItself(s: State, keep: int, fault: Option<Errno>)
    requires StateOk(s) && Enabled(s, CallbackReturns(keep, fault))
    requires NoReuse(s.shared)
    ensures var r := s.phase.responses[s.phase.at].registration;
            var e := Apply(s, CallbackReturns(keep, fault)).shared;
            && (keep != 0 ==> e == s.shared)
            && (keep == 0 && fault.None? ==> r.token !in e.registrations)
            && (forall t :: t in s.shared.registrations && t != r.token ==>
                  t in e.registrations && e.registrations[t] == s.shared.registrations[t])
            && (forall fd :: fd in s.shared.tokenByFd && s.shared.tokenByFd[fd] != r.token ==>
                  fd in e.tokenByFd && e.tokenByFd[fd] == s.shared.tokenByFd[fd])
            && e.registrations.Keys <= s.shared.registrations.Keys
  {
    assert Faithful(s.shared, s.phase.responses[s.phase.at]);
  }

  /** A batch queues its ident events in kernel order: `at` lists, ascending, exactly the
      positions whose token is registered without a callback. */
  lemma {:induction false} IdentsInKernelOrder(regs: map<nat, Registration>, batch: seq<Interest>)
    returns (at: seq<nat>)
    ensures var idents := Idents(Collect(regs, batch));
            && |at| == |idents|
            && (forall i, j :: 0 <= i < j < |at| ==> at[i] < at[j])
            && (forall i :: 0 <= i < |at| ==>
                  && at[i] < |batch| && batch[at[i]].token in regs
                  && idents[i] == Response(regs[batch[at[i]].token], AndroidEvents(batch[at[i]].events)))
            && (forall k :: 0 <= k < |batch| ==>
                  (k in at <==> batch[k].token != WAKE_TOKEN && batch[k].token in regs
                                && regs[batch[k].token].callback.None?))
  {
    if batch == [] {
      at := [];
    } else {
      var n := |batch| - 1;
      var before := Collect(regs, batch[..n]);
      at := IdentsInKernelOrder(regs, batch[..n]);
      assert forall k :: 0 <= k < n ==> batch[..n][k] == batch[k];
      assert n !in at;
      if batch[n].token != WAKE_TOKEN && batch[n].token in regs {
        var r := Response(regs[batch[n].token], AndroidEvents(batch[n].events));
        assert (before + [r])[..|before|] == before;
        if regs[batch[n].token].callback.None? {
          at := at + [n];
        }
      }
    }
  }

  /** Turns of the loop taken with nothing in between add up to the whole
      `TakePendingIdent` call. */
  lemma {:induction false} UninterruptedTake(s: State) returns (acts: seq<Action>)
    requires s.phase.Draining? || s.phase.Taking?
    ensures (forall i :: 0 <= i < |acts| ==> acts[i] == TakePending) && IsRun(s, acts)
    ensures After(s, acts).pending == Looper.TakePending(s.shared, s.pending).0
    ensures After(s, acts).shared == s.shared
    ensures match Looper.TakePending(s.shared, s.pending).1
            case None => After(s, acts).phase == s.phase
            case Some(r) =>
              var e := After(s, acts);
              e.phase == Idle && e.settled != [] && e.settled[|e.settled| - 1] == Outcome(r, true)
    decreases |s.pending|
  {
    if s.pending == [] {
      acts := [];
    } else {
      var s' := Apply(s, TakePending);
      if Deliverable(s.shared, s.pending[0]) {
        acts := [TakePending];
        assert After(s', []) == s';
      } else {
        var rest := UninterruptedTake(s');
        acts := [TakePending] + rest;
        assert acts[1..] == rest;
      }
    }
  }

  // ---------------------------------------------------------------- one round is one of these runs

  lemma {:induction false} RunConcat(s: State, a: seq<Action>, b: seq<Action>)
    requires IsRun(s, a) && IsRun(After(s, a), b)
    ensures IsRun(s, a + b) && After(s, a + b) == After(After(s, a), b)
    decreases |a|
  {
    if a == [] {
      assert a + b == b;
    } else {
      RunConcat(Apply(s, a[0]), a[1..], b);
      assert (a + b)[1..] == a[1..] + b;
    }
  }

  lemma SingleRun(s: State, a: Action)
    requires Enabled(s, a)
    ensures IsRun(s, [a]) && After(s, [a]) == Apply(s, a)
  {
    var s' := Apply(s, a);
    assert [a][0] == a && [a][1..] == [];
    assert IsRun(s', []) && After(s', []) == s';
  }

  lemma NextCallback(rs: seq<Response>, at: nat)
    requires at < |rs|
    ensures AnyCallback(rs, at) <==> rs[at].registration.callback.Some? || AnyCallback(rs, at + 1)
  {
  }

  /** A callback's call as a step of its own. */
  function CallStep(c: LooperCall): Action {
    match c
    case Adds(fd, ident, events, callback, data, fault, retryFault) =>
      AddFd(fd, ident, events, callback, data, fault, retryFault)
    case Removes(fd, fault) => RemoveFd(fd, fault)
    case Changes(files, gone) => ChangeDescriptors(files, gone)
  }

  lemma CallIsStep(s: State, c: LooperCall)
    requires SharedOk(s.shared)
    ensures Enabled(s, CallStep(c))
    ensures Apply(s, CallStep(c)) == s.(shared := Called(s.shared, s.allowNonCallbacks, c))
  {
  }

  lemma CalledFirst(s: Shared, allow: bool, calls: seq<LooperCall>, next: Shared)
    requires SharedOk(s) && calls != [] && next == Called(s, allow, calls[0])
    ensures CalledAll(s, allow, calls) == CalledAll(next, allow, calls[1..])
  {
  }

  function CallSteps(calls: seq<LooperCall>): (acts: seq<Action>) {
    seq(|calls|, i requires 0 <= i < |calls| => CallStep(calls[i]))
  }

  /** What a callback does with the looper, as steps. */
  lemma {:induction false} CallsRun(s: State, calls: seq<LooperCall>)
    requires SharedOk(s.shared)
    ensures IsRun(s, CallSteps(calls))
    ensures After(s, CallSteps(calls)) == s.(shared := CalledAll(s.shared, s.allowNonCallbacks, calls))
    decreases |calls|
  {
    if calls != [] {
      var step := CallStep(calls[0]);
      CallIsStep(s, calls[0]);
      CalledFirst(s.shared, s.allowNonCallbacks, calls, Apply(s, step).shared);
      SingleRun(s, step);
      CallsRun(Apply(s, step), calls[1..]);
      RunConcat(s, [step], CallSteps(calls[1..]));
      assert CallSteps(calls) == [step] + CallSteps(calls[1..]);
    }
  }

  /** Past one response: a callback has answered, an ident was skipped. */
  ghost function PastResponse(s: State, answer: Answer): State
    requires SharedOk(s.shared) && s.phase.Dispatching? && s.phase.at < |s.phase.responses|
  {
    var r := s.phase.responses[s.phase.at].registration;
    s.(shared := Answered(s.shared, s.allowNonCallbacks, r, answer),
       phase := Dispatching(s.phase.responses, s.phase.at + 1, s.phase.invoked || r.callback.Some?, s.phase.woken))
  }

  /** The steps of one response: nothing for an ident; a callback is invoked, makes its calls
      and returns. */
  function ResponseSteps(r: Registration, answer: Answer): (acts: seq<Action>) {
    if r.callback.None? then [SkipIdent]
    else [InvokeCallback] + CallSteps(answer.calls) + [CallbackReturns(answer.keep, answer.fault)]
  }

  lemma ResponseRun(s: State, answer: Answer)
    requires SharedOk(s.shared) && s.phase.Dispatching? && s.phase.at < |s.phase.responses|
    ensures var acts := ResponseSteps(s.phase.responses[s.phase.at].registration, answer);
            IsRun(s, acts) && After(s, acts) == PastResponse(s, answer)
  {
    if s.phase.responses[s.phase.at].registration.callback.None? {
      SingleRun(s, SkipIdent);
    } else {
      var back := CallbackReturns(answer.keep, answer.fault);
      SingleRun(s, InvokeCallback);
      CallsRun(Apply(s, InvokeCallback), answer.calls);
      RunConcat(s, [InvokeCallback], CallSteps(answer.calls));
      var acts := [InvokeCallback] + CallSteps(answer.calls);
      SingleRun(After(s, acts), back);
      RunConcat(s, acts, [back]);
    }
  }

  /** `s` once the callbacks from its position on have answered. */
  ghost function AllAnswered(s: State, answers: seq<Answer>): State
    requires SharedOk(s.shared) && s.phase.Dispatching? && s.phase.at <= |s.phase.responses| == |answers|
  {
    var rs, at := s.phase.responses, s.phase.at;
    s.(shared := Dispatched(s.shared, s.allowNonCallbacks, rs, answers, at),
       phase := Dispatching(rs, |rs|, s.phase.invoked || AnyCallback(rs, at), s.phase.woken))
  }

  lemma PastThenRest(s: State, answers: seq<Answer>)
    requires SharedOk(s.shared) && s.phase.Dispatching? && s.phase.at < |s.phase.responses| == |answers|
    ensures AllAnswered(PastResponse(s, answers[s.phase.at]), answers) == AllAnswered(s, answers)
  {
    NextCallback(s.phase.responses, s.phase.at);
  }

  /** The steps of a batch's responses from position `at` on, one response after another. */
  function DispatchSteps(rs: seq<Response>, answers: seq<Answer>, at: nat): (acts: seq<Action>)
    requires at <= |rs| == |answers|
    decreases |rs| - at
  {
    if at == |rs| then [] else ResponseSteps(rs[at].registration, answers[at]) + DispatchSteps(rs, answers, at + 1)
  }

  lemma FirstDispatched(rs: seq<Response>, answers: seq<Answer>, at: nat, first: seq<Action>, later: seq<Action>)
    requires at < |rs| == |answers|
    requires first == ResponseSteps(rs[at].registration, answers[at]) && later == DispatchSteps(rs, answers, at + 1)
    ensures DispatchSteps(rs, answers, at) == first + later
  {
  }

  lemma {:induction false} CallbacksRun(s: State, answers: seq<Answer>)
    requires SharedOk(s.shared) && s.phase.Dispatching? && s.phase.at <= |s.phase.responses| == |answers|
    ensures var acts := DispatchSteps(s.phase.responses, answers, s.phase.at);
            IsRun(s, acts) && After(s, acts) == AllAnswered(s, answers)
    decreases |s.phase.responses| - s.phase.at
  {
    if s.phase.at < |s.phase.responses| {
      var rs, at := s.phase.responses, s.phase.at;
      ResponseRun(s, answers[at]);
      CallbacksRun(PastResponse(s, answers[at]), answers);
      PastThenRest(s, answers);
      var first, later := ResponseSteps(rs[at].registration, answers[at]), DispatchSteps(rs, answers, at + 1);
      RunConcat(s, first, later);
      FirstDispatched(rs, answers, at, first, later);
    }
  }

  /** `n` turns of the loop of `TakePendingIdent`. */
  function Turns(n: nat): (acts: seq<Action>) {
    seq(n, _ => TakePending)
  }

  /** Queuing the ident responses of a finished batch and taking from the queue. */
  lemma QueueAndTakeRun(s: State) returns (n: nat)
    requires s.phase.Dispatching? && s.phase.at == |s.phase.responses|
    ensures var acts := [EnqueueIdents] + Turns(n);
            var (left, taken) := Looper.TakePending(s.shared, s.pending + Idents(s.phase.responses));
            && IsRun(s, acts)
            && After(s, acts).shared == s.shared && After(s, acts).pending == left
            && After(s, acts).phase == if taken.Some? then Idle else Taking(s.phase.invoked, s.phase.woken)
  {
    SingleRun(s, EnqueueIdents);
    var takes := UninterruptedTake(Apply(s, EnqueueIdents));
    n := |takes|;
    assert takes == Turns(n);
    RunConcat(s, [EnqueueIdents], takes);
  }

  /** The steps of one round behind `epoll_wait`. */
  function RoundSteps(rs: seq<Response>, answers: seq<Answer>, turns: nat): (acts: seq<Action>)
    requires |rs| == |answers|
  {
    [CollectBatch] + (DispatchSteps(rs, answers, 0) + ([EnqueueIdents] + Turns(turns)))
  }

  /** What `PollRound` does without interference, after `epoll_wait` returned, is the run of
      these steps: collecting, each callback with its calls and its return, queuing and
      taking.  The phase it ends in says what `pollOnce` makes of it. */
  lemma RoundIsARun(s: State, answers: seq<Answer>) returns (turns: nat)
    requires SharedOk(s.shared) && s.phase.Ready?
    requires |answers| == |Collect(s.shared.registrations, s.phase.batch)|
    ensures var rs := Collect(s.shared.registrations, s.phase.batch);
            var acts := RoundSteps(rs, answers, turns);
            var shared := Dispatched(s.shared, s.allowNonCallbacks, rs, answers, 0);
            var (left, taken) := Looper.TakePending(shared, s.pending + Idents(rs));
            && IsRun(s, acts)
            && After(s, acts).shared == shared && After(s, acts).pending == left
            && After(s, acts).phase == if taken.Some? then Idle else Taking(AnyCallback(rs, 0), Wakes(s.phase.batch))
  {
    var rs := Collect(s.shared.registrations, s.phase.batch);
    SingleRun(s, CollectBatch);
    var collected := Apply(s, CollectBatch);
    CallbacksRun(collected, answers);
    var dispatch := DispatchSteps(rs, answers, 0);
    turns := QueueAndTakeRun(After(collected, dispatch));
    RunConcat(collected, dispatch, [EnqueueIdents] + Turns(turns));
    RunConcat(s, [CollectBatch], dispatch + ([EnqueueIdents] + Turns(turns)));
  }
}

/**
 The Android looper over epoll: descriptor registrations under generation tokens.

 `Shared` is the state behind the looper's mutex together with the kernel's interest
 list.  Each critical section is a function on `Shared`; `ALooper` is the object that
 performs those sections in place.
 */
module Looper {
  import opened Basics

  const WAKE_TOKEN := 0
  const MAX_TOKEN := 0xffff_ffff_ffff_ffff
  const MAX_FD := 0x7fff_ffff
  const POLL_CALLBACK := -2

  datatype Registration = Registration(
    fd: int, ident: int, events: int, callback: Option<int>, data: int, token: nat)

  datatype Response = Response(registration: Registration, events: int)

  // ---------------------------------------------------------------- the kernel

  type File = nat

  datatype Errno = ENOENT | EBADF | EEXIST | OtherErrno(code: int)

  datatype Operation = Add | Modify | Delete

  datatype Interest = Interest(token: nat, events: int)

  /** `files` is the process descriptor table.  An interest entry belongs to an open file
      and the descriptor number it was added under, so it can outlive a close of that
      number when the file is still open elsewhere. */
  datatype Kernel = Kernel(files: map<int, File>, interest: map<(File, int), Interest>)

  /** One `epoll_ctl` call.  `fault` is an arbitrary failure the kernel may report. */
  function Control(k: Kernel, op: Operation, fd: int, want: Interest, fault: Option<Errno>)
    : (r: (Kernel, Option<Errno>))
    ensures r.1.Some? ==> r.0 == k
    ensures r.0.files == k.files
  {
    if fault.Some? then (k, fault)
    else if fd !in k.files then (k, Some(EBADF))
    else
      var key := (k.files[fd], fd);
      match op
      case Add =>
        if key in k.interest then (k, Some(EEXIST))
        else (k.(interest := k.interest[key := want]), None)
      case Modify =>
        if key !in k.interest then (k, Some(ENOENT))
        else (k.(interest := k.interest[key := want]), None)
      case Delete =>
        if key !in k.interest then (k, Some(ENOENT))
        else (k.(interest := k.interest - {key}), None)
  }

  /** The add or modify request of `addFd`, retried the other way round once when the
      kernel's list disagrees with the looper's. */
  function Install(k: Kernel, update: bool, fd: int, want: Interest,
                   fault: Option<Errno>, retryFault: Option<Errno>)
    : (r: (Kernel, Option<Errno>))
  {
    var first := Control(k, if update then Modify else Add, fd, want, fault);
    if update && first.1 == Some(ENOENT) then Control(k, Add, fd, want, retryFault)
    else if !update && first.1 == Some(EEXIST) then Control(k, Modify, fd, want, retryFault)
    else first
  }

  /** Android input and output bits become EPOLLIN (1) and EPOLLOUT (4). */
  function EpollEvents(events: int): int {
    (if events % 2 == 1 then 1 else 0) + (if (events / 2) % 2 == 1 then 4 else 0)
  }

  // ---------------------------------------------------------------- state behind the mutex

  /** `drawn` counts the values ever taken from the token counter. */
  datatype Shared = Shared(
    tokenByFd: map<int, nat>,
    registrations: map<nat, Registration>,
    nextToken: nat,
    drawn: nat,
    kernel: Kernel)

  /** The two maps are mutual inverses. */
  ghost predicate MapsInverse(s: Shared) {
    && (forall fd :: fd in s.tokenByFd ==>
          s.tokenByFd[fd] in s.registrations && s.registrations[s.tokenByFd[fd]].fd == fd)
    && (forall t :: t in s.registrations ==>
          s.registrations[t].fd in s.tokenByFd && s.tokenByFd[s.registrations[t].fd] == t)
  }

  /** Registered tokens are nonzero 64-bit values, and descriptors are nonnegative ints. */
  ghost predicate InRange(s: Shared) {
    && 1 <= s.nextToken <= MAX_TOKEN
    && (forall t :: t in s.registrations ==>
          && 1 <= t <= MAX_TOKEN
          && s.registrations[t].token == t
          && 0 <= s.registrations[t].fd <= MAX_FD)
  }

  /** No token has been handed out twice: fewer than 2^64 registrations were attempted. */
  predicate NoReuse(s: Shared) {
    s.drawn <= MAX_TOKEN
  }

  /** The kernel side: entries carry the wake token or distinct issued tokens, and an entry
      whose token is registered sits at that registration's descriptor. */
  ghost predicate KernelAgrees(s: Shared) {
    && (forall k :: k in s.kernel.interest ==>
          && s.kernel.interest[k].token <= s.drawn
          && (s.kernel.interest[k].token in s.registrations ==>
                s.registrations[s.kernel.interest[k].token].fd == k.1))
    && (forall k, l | k in s.kernel.interest && l in s.kernel.interest && k != l ::
          s.kernel.interest[k].token == s.kernel.interest[l].token ==>
            s.kernel.interest[k].token == WAKE_TOKEN)
  }

  ghost predicate Fresh(s: Shared) {
    && s.nextToken == (if s.drawn < MAX_TOKEN then s.drawn + 1 else 1)
    && (forall t :: t in s.registrations ==> t <= s.drawn)
  }

  ghost predicate SharedOk(s: Shared) {
    && MapsInverse(s)
    && InRange(s)
    && (NoReuse(s) ==> Fresh(s) && KernelAgrees(s))
  }

  // ---------------------------------------------------------------- token counter

  function Successor(token: nat): nat {
    if token >= MAX_TOKEN then 1 else token + 1
  }

  ghost predicate IsFree(regs: map<nat, Registration>, token: nat) {
    1 <= token <= MAX_TOKEN && token !in regs
  }

  ghost function Distance(token: nat, free: nat): nat
    requires token <= MAX_TOKEN && free <= MAX_TOKEN
  {
    if free >= token then free - token else free - token + MAX_TOKEN
  }

  /** The first unregistered token from `next` on, wrapping past the largest value to 1, and
      how many counter values were consumed to reach it. */
  function Draw(regs: map<nat, Registration>, next: nat, ghost free: nat): (r: (nat, nat))
    requires 1 <= next <= MAX_TOKEN && IsFree(regs, free)
    ensures IsFree(regs, r.0) && r.1 >= 1
    ensures next !in regs ==> r == (next, 1)
    decreases Distance(next, free)
  {
    if next !in regs then (next, 1)
    else
      var later := Draw(regs, Successor(next), free);
      (later.0, later.1 + 1)
  }

  /** Incrementing modulo 2^64 and stepping over zero is `Successor`. */
  lemma CounterStep(token: nat)
    requires 1 <= token <= MAX_TOKEN
    ensures var next := (token + 1) % (MAX_TOKEN + 1);
            (if next == WAKE_TOKEN then 1 else next) == Successor(token)
  {
  }

  /** A registered token brings the counter closer to any free one. */
  lemma DrawPast(regs: map<nat, Registration>, next: nat, free: nat)
    requires 1 <= next <= MAX_TOKEN && IsFree(regs, free) && next in regs
    ensures Distance(Successor(next), free) < Distance(next, free)
    ensures var later := Draw(regs, Successor(next), free);
            Draw(regs, next, free) == (later.0, later.1 + 1)
  {
  }

  /** At most one registration per descriptor, so a free token always exists. */
  lemma FreeTokenExists(s: Shared)
    requires MapsInverse(s) && InRange(s)
    ensures exists t :: IsFree(s.registrations, t)
  {
    var fds: map<int, int> := map t: int | t in s.registrations :: s.registrations[t].fd;
    assert fds.Keys == s.registrations.Keys;
    PigeonHole(fds, MAX_FD + 1);
    var all := Interval(1, MAX_TOKEN + 1);
    if all <= fds.Keys {
      SubsetSize(all, fds.Keys);
      assert false;
    }
    var t :| t in all && t !in fds.Keys;
    assert IsFree(s.registrations, t);
  }

  lemma SubsetSize(a: set<int>, b: set<int>)
    requires a <= b
    ensures |a| <= |b|
  {
    assert b == a + (b - a);
  }

  ghost function AFreeToken(s: Shared): (t: nat)
    requires MapsInverse(s) && InRange(s)
    ensures IsFree(s.registrations, t)
  {
    FreeTokenExists(s);
    var t :| IsFree(s.registrations, t); t
  }

  // ---------------------------------------------------------------- critical sections

  predicate AddArgumentsOk(allowNonCallbacks: bool, fd: int, ident: int, callback: Option<int>) {
    && 0 <= fd <= MAX_FD
    && (callback.None? ==> allowNonCallbacks && ident >= 0)
    && (callback.Some? ==> ident >= 0 || ident == POLL_CALLBACK)
  }

  function NewRegistration(fd: int, ident: int, events: int, callback: Option<int>, data: int, token: nat)
    : Registration
  {
    Registration(fd, if callback.Some? then POLL_CALLBACK else ident, events, callback, data, token)
  }

  /** The registrations once `r` has taken over its descriptor. */
  function Replaced(tokenByFd: map<int, nat>, regs: map<nat, Registration>, r: Registration): map<nat, Registration> {
    var kept := if r.fd in tokenByFd then regs - {tokenByFd[r.fd]} else regs;
    kept[r.token := r]
  }

  /** `ALooper_addFd`: the whole table moves to the new registration, or stays as it was. */
  ghost function AddingFd(s: Shared, allowNonCallbacks: bool, fd: int, ident: int, events: int,
                       callback: Option<int>, data: int,
                       fault: Option<Errno>, retryFault: Option<Errno>): (r: (Shared, int))
    requires MapsInverse(s) && InRange(s)
  {
    if !AddArgumentsOk(allowNonCallbacks, fd, ident, callback) then (s, -1)
    else
      var (token, draws) := Draw(s.registrations, s.nextToken, AFreeToken(s));
      var moved := s.(nextToken := Successor(token), drawn := s.drawn + draws);
      var want := Interest(token, EpollEvents(events));
      var (kernel, errno) := Install(s.kernel, fd in s.tokenByFd, fd, want, fault, retryFault);
      if errno.Some? then (moved, -1)
      else
        var registration := NewRegistration(fd, ident, events, callback, data, token);
        (moved.(tokenByFd := s.tokenByFd[fd := token],
                registrations := Replaced(s.tokenByFd, s.registrations, registration),
                kernel := kernel), 1)
  }

  /** `RemoveFdLocked`: a zero `expected` matches any registration of the descriptor. */
  function RemovingFdLocked(s: Shared, fd: int, expected: nat, fault: Option<Errno>): (r: (Shared, int)) {
    if fd !in s.tokenByFd || (expected != 0 && s.tokenByFd[fd] != expected) then (s, 0)
    else
      var (kernel, errno) := Control(s.kernel, Delete, fd, Interest(0, 0), fault);
      if errno.Some? && errno.value != ENOENT && errno.value != EBADF then (s, -1)
      else (s.(tokenByFd := s.tokenByFd - {fd},
               registrations := s.registrations - {s.tokenByFd[fd]},
               kernel := kernel), 1)
  }

  function RemovingFd(s: Shared, fd: int, fault: Option<Errno>): (r: (Shared, int)) {
    if !(0 <= fd <= MAX_FD) then (s, -1) else RemovingFdLocked(s, fd, 0, fault)
  }

  predicate IsCurrent(s: Shared, r: Registration) {
    r.fd in s.tokenByFd && s.tokenByFd[r.fd] == r.token && r.token in s.registrations
  }

  /** The descriptor table changes under the looper: numbers are closed, reopened or
      duplicated, and entries of files whose last reference went away leave the list. */
  function ChangeDescriptors(s: Shared, files: map<int, File>, gone: set<(File, int)>): Shared {
    s.(kernel := Kernel(files, s.kernel.interest - gone))
  }

  // ---------------------------------------------------------------- what every section keeps

  /** Handing a descriptor over to an unused token keeps the maps inverse. */
  lemma HandoverKeepsInverse(s: Shared, s': Shared, r: Registration)
    requires MapsInverse(s) && r.token !in s.registrations
    requires s'.tokenByFd == s.tokenByFd[r.fd := r.token]
    requires s'.registrations == Replaced(s.tokenByFd, s.registrations, r)
    ensures MapsInverse(s')
  {
  }

  lemma AddFdKeepsMaps(s: Shared, allow: bool, fd: int, ident: int, events: int, callback: Option<int>,
                       data: int, fault: Option<Errno>, retryFault: Option<Errno>)
    requires MapsInverse(s) && InRange(s)
    ensures var s' := AddingFd(s, allow, fd, ident, events, callback, data, fault, retryFault).0;
            MapsInverse(s') && InRange(s')
  {
    var (s', result) := AddingFd(s, allow, fd, ident, events, callback, data, fault, retryFault);
    if result == 1 {
      var token := s'.tokenByFd[fd];
      HandoverKeepsInverse(s, s', NewRegistration(fd, ident, events, callback, data, token));
    }
  }

  /** Putting a token drawn just now on one kernel entry keeps the list in agreement. */
  lemma HandoverKeepsKernel(s: Shared, s': Shared, key: (File, int), want: Interest, r: Registration)
    requires MapsInverse(s) && KernelAgrees(s) && Fresh(s)
    requires want.token == r.token == s.drawn + 1 && key.1 == r.fd && s'.drawn >= r.token
    requires s'.registrations == Replaced(s.tokenByFd, s.registrations, r)
    requires s'.kernel.interest == s.kernel.interest[key := want]
    ensures KernelAgrees(s')
  {
  }

  lemma AddFdKeepsKernel(s: Shared, allow: bool, fd: int, ident: int, events: int, callback: Option<int>,
                         data: int, fault: Option<Errno>, retryFault: Option<Errno>)
    requires SharedOk(s)
    ensures var s' := AddingFd(s, allow, fd, ident, events, callback, data, fault, retryFault).0;
            NoReuse(s') ==> Fresh(s') && KernelAgrees(s')
  {
    var (s', result) := AddingFd(s, allow, fd, ident, events, callback, data, fault, retryFault);
    if AddArgumentsOk(allow, fd, ident, callback) && NoReuse(s') {
      assert s.nextToken == s.drawn + 1 && s.nextToken !in s.registrations;
      var want := Interest(s.nextToken, EpollEvents(events));
      InstallTouchesOneEntry(s.kernel, fd in s.tokenByFd, fd, want, fault, retryFault);
      if result == 1 {
        HandoverKeepsKernel(s, s', (s.kernel.files[fd], fd), want,
                            NewRegistration(fd, ident, events, callback, data, s.nextToken));
      }
    }
  }

  lemma AddFdKeeps(s: Shared, allow: bool, fd: int, ident: int, events: int, callback: Option<int>,
                   data: int, fault: Option<Errno>, retryFault: Option<Errno>)
    requires SharedOk(s)
    ensures SharedOk(AddingFd(s, allow, fd, ident, events, callback, data, fault, retryFault).0)
  {
    AddFdKeepsMaps(s, allow, fd, ident, events, callback, data, fault, retryFault);
    AddFdKeepsKernel(s, allow, fd, ident, events, callback, data, fault, retryFault);
  }

  lemma InstallTouchesOneEntry(k: Kernel, update: bool, fd: int, want: Interest,
                               fault: Option<Errno>, retryFault: Option<Errno>)
    ensures var r := Install(k, update, fd, want, fault, retryFault);
            if r.1.Some? then r.0 == k
            else fd in k.files && r.0 == k.(interest := k.interest[(k.files[fd], fd) := want])
  {
  }

  /** A registration that fails leaves both maps and the kernel list exactly as they were. */
  lemma FailedAddRollsBack(s: Shared, allow: bool, fd: int, ident: int, events: int,
                           callback: Option<int>, data: int,
                           fault: Option<Errno>, retryFault: Option<Errno>)
    requires SharedOk(s)
    ensures var r := AddingFd(s, allow, fd, ident, events, callback, data, fault, retryFault);
            && (r.1 == -1 ==> r.0.tokenByFd == s.tokenByFd && r.0.registrations == s.registrations
                              && r.0.kernel == s.kernel)
            && (r.1 != -1 ==> r.1 == 1 && fd in r.0.tokenByFd
                              && r.0.registrations[r.0.tokenByFd[fd]] ==
                                 NewRegistration(fd, ident, events, callback, data, r.0.tokenByFd[fd])
                              && r.0.tokenByFd[fd] !in s.registrations
                              && r.0.tokenByFd - {fd} == s.tokenByFd - {fd})
  {
  }

  lemma RemoveFdLockedKeeps(s: Shared, fd: int, expected: nat, fault: Option<Errno>)
    requires SharedOk(s)
    ensures SharedOk(RemovingFdLocked(s, fd, expected, fault).0)
  {
  }

  lemma ChangeDescriptorsKeeps(s: Shared, files: map<int, File>, gone: set<(File, int)>)
    requires SharedOk(s)
    ensures SharedOk(ChangeDescriptors(s, files, gone))
  {
  }

  // ---------------------------------------------------------------- one round of polling

  /** EPOLLIN, EPOLLOUT, EPOLLERR and EPOLLHUP (1, 4, 8, 16) become Android bits 0 to 3. */
  function AndroidEvents(events: int): int {
    (if events % 2 == 1 then 1 else 0) + (if (events / 4) % 2 == 1 then 2 else 0)
    + (if (events / 8) % 2 == 1 then 4 else 0) + (if (events / 16) % 2 == 1 then 8 else 0)
  }

  /** The responses a ready batch stands for: registered tokens only, in order. */
  function Collect(regs: map<nat, Registration>, ready: seq<Interest>): (responses: seq<Response>) {
    if ready == [] then []
    else
      var last := ready[|ready| - 1];
      var before := Collect(regs, ready[..|ready| - 1]);
      if last.token == WAKE_TOKEN || last.token !in regs then before
      else before + [Response(regs[last.token], AndroidEvents(last.events))]
  }

  /** `at` lists, ascending, exactly the batch positions that report a registered token other
      than the wake token, with or without a callback; each response carries the table's entry. */
  ghost predicate InKernelOrder(regs: map<nat, Registration>, ready: seq<Interest>, responses: seq<Response>,
                                at: seq<nat>) {
    && |at| == |responses|
    && (forall i, j :: 0 <= i < j < |at| ==> at[i] < at[j])
    && (forall k :: 0 <= k < |ready| ==> (k in at <==> ready[k].token != WAKE_TOKEN && ready[k].token in regs))
    && (forall i :: 0 <= i < |at| ==>
          && at[i] < |ready| && ready[at[i]].token in regs
          && responses[i] == Response(regs[ready[at[i]].token], AndroidEvents(ready[at[i]].events)))
  }

  lemma {:induction false} CollectInKernelOrder(regs: map<nat, Registration>, ready: seq<Interest>)
    returns (at: seq<nat>)
    ensures InKernelOrder(regs, ready, Collect(regs, ready), at)
  {
    if ready == [] {
      at := [];
    } else {
      var n := |ready| - 1;
      at := CollectInKernelOrder(regs, ready[..n]);
      var before := Collect(regs, ready[..n]);
      OneMoreEvent(regs, ready[..n], ready[n], before, at);
      assert ready == ready[..n] + [ready[n]];
      if ready[n].token != WAKE_TOKEN && ready[n].token in regs {
        at := at + [n];
      }
    }
  }

  lemma OneMoreEvent(regs: map<nat, Registration>, ready: seq<Interest>, last: Interest, responses: seq<Response>,
                     at: seq<nat>)
    requires InKernelOrder(regs, ready, responses, at)
    ensures if last.token != WAKE_TOKEN && last.token in regs
            then InKernelOrder(regs, ready + [last],
                               responses + [Response(regs[last.token], AndroidEvents(last.events))], at + [|ready|])
            else InKernelOrder(regs, ready + [last], responses, at)
  {
    var more := ready + [last];
    assert forall k :: 0 <= k < |ready| ==> more[k] == ready[k];
    assert |ready| !in at;
    if last.token != WAKE_TOKEN && last.token in regs {
      var at' := at + [|ready|];
      assert at'[|at|] == |ready|;
      assert forall k :: k in at' <==> k in at || k == |ready|;
    }
  }

  /** The batch reports a registration that has a callback. */
  predicate CallsBack(regs: map<nat, Registration>, ready: seq<Interest>) {
    exists k :: 0 <= k < |ready| && ready[k].token != WAKE_TOKEN && ready[k].token in regs
                && regs[ready[k].token].callback.Some?
  }

  lemma InvokedExactlyWhen(regs: map<nat, Registration>, ready: seq<Interest>)
    ensures AnyCallback(Collect(regs, ready), 0) <==> CallsBack(regs, ready)
  {
    var at := CollectInKernelOrder(regs, ready);
    var responses := Collect(regs, ready);
    if AnyCallback(responses, 0) {
      var i :| 0 <= i < |responses| && responses[i].registration.callback.Some?;
      assert at[i] in at;
    }
    if CallsBack(regs, ready) {
      var k :| 0 <= k < |ready| && ready[k].token != WAKE_TOKEN && ready[k].token in regs
               && regs[ready[k].token].callback.Some?;
      assert k in at;
      var i :| 0 <= i < |at| && at[i] == k;
      assert responses[i].registration.callback.Some?;
    }
  }

  /** What `TakePendingIdent` leaves and returns when nothing interferes. */
  function TakePending(s: Shared, pending: seq<Response>): (r: (seq<Response>, Option<Response>)) {
    if pending == [] then ([], None)
    else if IsCurrent(s, pending[0].registration) && pending[0].registration.callback.None?
      then (pending[1..], Some(pending[0]))
    else TakePending(s, pending[1..])
  }

  /** The ident responses of a batch, which `pollOnce` queues after the callbacks ran. */
  function Idents(responses: seq<Response>): (idents: seq<Response>) {
    if responses == [] then []
    else
      var before := Idents(responses[..|responses| - 1]);
      if responses[|responses| - 1].registration.callback.None?
      then before + [responses[|responses| - 1]] else before
  }

  /** What a callback may do to the looper before it returns, short of polling. */
  datatype LooperCall =
    | Adds(fd: int, ident: int, events: int, callback: Option<int>, data: int,
           fault: Option<Errno>, retryFault: Option<Errno>)
    | Removes(fd: int, fault: Option<Errno>)
    | Changes(files: map<int, File>, gone: set<(File, int)>)

  ghost function Called(s: Shared, allow: bool, c: LooperCall): (s': Shared)
    requires SharedOk(s)
    ensures SharedOk(s')
  {
    match c
    case Adds(fd, ident, events, callback, data, fault, retryFault) =>
      AddFdKeeps(s, allow, fd, ident, events, callback, data, fault, retryFault);
      AddingFd(s, allow, fd, ident, events, callback, data, fault, retryFault).0
    case Removes(fd, fault) =>
      RemoveFdLockedKeeps(s, fd, 0, fault);
      RemovingFd(s, fd, fault).0
    case Changes(files, gone) =>
      ChangeDescriptorsKeeps(s, files, gone);
      ChangeDescriptors(s, files, gone)
  }

  ghost function CalledAll(s: Shared, allow: bool, calls: seq<LooperCall>): (s': Shared)
    requires SharedOk(s)
    ensures SharedOk(s')
    decreases |calls|
  {
    if calls == [] then s else CalledAll(Called(s, allow, calls[0]), allow, calls[1..])
  }

  /** What a callback does and answers, and how the kernel takes the removal a zero asks for. */
  datatype Answer = Answer(calls: seq<LooperCall>, keep: int, fault: Option<Errno>)

  /** The registrations once the callback of `r` has answered; without one, nothing happens. */
  ghost function Answered(s: Shared, allow: bool, r: Registration, answer: Answer): (s': Shared)
    requires SharedOk(s)
    ensures SharedOk(s')
  {
    if r.callback.None? then s
    else
      var called := CalledAll(s, allow, answer.calls);
      RemoveFdLockedKeeps(called, r.fd, r.token, answer.fault);
      if answer.keep == 0 then RemovingFdLocked(called, r.fd, r.token, answer.fault).0 else called
  }

  /** The registrations once the callbacks from position `at` on have answered. */
  ghost function Dispatched(s: Shared, allow: bool, responses: seq<Response>, answers: seq<Answer>, at: nat)
    : (s': Shared)
    requires SharedOk(s) && at <= |responses| == |answers|
    ensures SharedOk(s')
    decreases |responses| - at
  {
    if at == |responses| then s
    else Dispatched(Answered(s, allow, responses[at].registration, answers[at]), allow, responses, answers, at + 1)
  }

  /** The batch reports the wake descriptor. */
  predicate Wakes(ready: seq<Interest>) {
    exists i :: 0 <= i < |ready| && ready[i].token == WAKE_TOKEN
  }

  /** A callback is invoked from position `at` on. */
  predicate AnyCallback(responses: seq<Response>, at: nat) {
    exists i :: at <= i < |responses| && responses[i].registration.callback.Some?
  }

  // ---------------------------------------------------------------- the object

  class ALooper {
    const allowNonCallbacks: bool
    var tokenByFd: map<int, nat>
    var registrationsByToken: map<nat, Registration>
    var nextToken: nat
    var pendingResponses: seq<Response>
    var kernel: Kernel
    ghost var drawn: nat

    ghost function View(): Shared
      reads this
    {
      Shared(tokenByFd, registrationsByToken, nextToken, drawn, kernel)
    }

    constructor (allowNonCallbacks: bool, kernel: Kernel)
      requires forall k :: k in kernel.interest ==> kernel.interest[k].token == WAKE_TOKEN
      ensures this.allowNonCallbacks == allowNonCallbacks
      ensures View() == Shared(map[], map[], 1, 0, kernel) && pendingResponses == []
      ensures SharedOk(View())
    {
      this.allowNonCallbacks := allowNonCallbacks;
      this.kernel := kernel;
      tokenByFd, registrationsByToken, nextToken, drawn := map[], map[], 1, 0;
      pendingResponses := [];
    }

    method NextRegistrationTokenLocked() returns (token: nat)
      requires SharedOk(View())
      modifies `nextToken, `drawn
      ensures var d := Draw(old(registrationsByToken), old(nextToken), old(AFreeToken(View())));
              token == d.0 && nextToken == Successor(d.0) && drawn == old(drawn) + d.1
    {
      ghost var free := AFreeToken(View());
      ghost var goal := Draw(registrationsByToken, nextToken, free);
      while true
        invariant 1 <= nextToken <= MAX_TOKEN
        invariant drawn >= old(drawn)
        invariant Draw(registrationsByToken, nextToken, free) == (goal.0, goal.1 - (drawn - old(drawn)))
        decreases Distance(nextToken, free)
      {
        token := nextToken;
        CounterStep(token);
        nextToken := (nextToken + 1) % (MAX_TOKEN + 1);
        drawn := drawn + 1;
        if nextToken == WAKE_TOKEN {
          nextToken := 1;
        }
        if token != WAKE_TOKEN && token !in registrationsByToken {
          return;
        }
        DrawPast(registrationsByToken, token, free);
      }
    }

    method EpollControl(op: Operation, fd: int, want: Interest, fault: Option<Errno>)
      returns (errno: Option<Errno>)
      modifies `kernel
      ensures (kernel, errno) == Control(old(kernel), op, fd, want, fault)
    {
      var r := Control(kernel, op, fd, want, fault);
      kernel, errno := r.0, r.1;
    }

    method EpollInstall(update: bool, fd: int, want: Interest,
                        fault: Option<Errno>, retryFault: Option<Errno>)
      returns (errno: Option<Errno>)
      modifies `kernel
      ensures (kernel, errno) == Install(old(kernel), update, fd, want, fault, retryFault)
    {
      errno := EpollControl(if update then Modify else Add, fd, want, fault);
      if update && errno == Some(ENOENT) {
        errno := EpollControl(Add, fd, want, retryFault);
      } else if !update && errno == Some(EEXIST) {
        errno := EpollControl(Modify, fd, want, retryFault);
      }
    }

    /** The transactional part of `addFd`: both maps are updated first, and put back when
        the kernel refuses. */
    method Register(registration: Registration, fault: Option<Errno>, retryFault: Option<Errno>)
      returns (result: int)
      requires registration.token !in registrationsByToken
      requires registration.fd in tokenByFd ==> tokenByFd[registration.fd] in registrationsByToken
      modifies `tokenByFd, `registrationsByToken, `kernel
      ensures var fd, want := registration.fd, Interest(registration.token, EpollEvents(registration.events));
              var (k, errno) := Install(old(kernel), fd in old(tokenByFd), fd, want, fault, retryFault);
              if errno.Some? then
                && result == -1 && kernel == k
                && tokenByFd == old(tokenByFd) && registrationsByToken == old(registrationsByToken)
              else
                && result == 1 && kernel == k
                && tokenByFd == old(tokenByFd)[fd := registration.token]
                && registrationsByToken == Replaced(old(tokenByFd), old(registrationsByToken), registration)
    {
      var fd, token := registration.fd, registration.token;
      var update := fd in tokenByFd;
      var oldToken := if update then tokenByFd[fd] else 0;
      registrationsByToken := registrationsByToken[token := registration];
      tokenByFd := tokenByFd[fd := token];

      var want := Interest(token, EpollEvents(registration.events));
      var errno := EpollInstall(update, fd, want, fault, retryFault);
      if errno.Some? {
        registrationsByToken := registrationsByToken - {token};
        if update {
          tokenByFd := tokenByFd[fd := oldToken];
        } else {
          tokenByFd := tokenByFd - {fd};
        }
        return -1;
      }
      if update {
        registrationsByToken := registrationsByToken - {oldToken};
      }
      return 1;
    }

    method AddFd(fd: int, ident: int, events: int, callback: Option<int>, data: int,
                 fault: Option<Errno>, retryFault: Option<Errno>) returns (result: int)
      requires SharedOk(View())
      modifies `tokenByFd, `registrationsByToken, `kernel, `nextToken, `drawn
      ensures (View(), result) ==
              AddingFd(old(View()), allowNonCallbacks, fd, ident, events, callback, data, fault, retryFault)
      ensures SharedOk(View())
    {
      AddFdKeeps(View(), allowNonCallbacks, fd, ident, events, callback, data, fault, retryFault);
      if !AddArgumentsOk(allowNonCallbacks, fd, ident, callback) {
        return -1;
      }
      var token := NextRegistrationTokenLocked();
      result := Register(NewRegistration(fd, ident, events, callback, data, token), fault, retryFault);
    }

    method RemoveFdLocked(fd: int, expected: nat, fault: Option<Errno>) returns (result: int)
      requires SharedOk(View())
      modifies `tokenByFd, `registrationsByToken, `kernel
      ensures (View(), result) == RemovingFdLocked(old(View()), fd, expected, fault)
      ensures SharedOk(View())
    {
      RemoveFdLockedKeeps(View(), fd, expected, fault);
      if fd !in tokenByFd || (expected != 0 && tokenByFd[fd] != expected) {
        return 0;
      }
      var token := tokenByFd[fd];
      var errno := EpollControl(Delete, fd, Interest(0, 0), fault);
      if errno.Some? && errno.value != ENOENT && errno.value != EBADF {
        return -1;
      }
      tokenByFd := tokenByFd - {fd};
      registrationsByToken := registrationsByToken - {token};
      return 1;
    }

    method RemoveFd(fd: int, fault: Option<Errno>) returns (result: int)
      requires SharedOk(View())
      modifies `tokenByFd, `registrationsByToken, `kernel
      ensures (View(), result) == RemovingFd(old(View()), fd, fault)
      ensures SharedOk(View())
    {
      if !(0 <= fd <= MAX_FD) {
        return -1;
      }
      result := RemoveFdLocked(fd, 0, fault);
    }

    /** Resolves one batch of ready tokens to responses, in kernel order. */
    method CollectResponses(ready: seq<Interest>) returns (responses: seq<Response>, ghost at: seq<nat>)
      ensures responses == Collect(registrationsByToken, ready)
      ensures InKernelOrder(registrationsByToken, ready, responses, at)
    {
      at := CollectInKernelOrder(registrationsByToken, ready);
      responses := [];
      for i := 0 to |ready|
        invariant responses == Collect(registrationsByToken, ready[..i])
      {
        assert ready[..i + 1][..i] == ready[..i];
        var token := ready[i].token;
        if token == WAKE_TOKEN || token !in registrationsByToken {
          continue;
        }
        responses := responses + [Response(registrationsByToken[token], AndroidEvents(ready[i].events))];
      }
      assert ready[..|ready|] == ready;
    }

    /** One round of `pollOnce` behind `epoll_wait`: collects the batch, runs its callbacks,
        queues its ident responses and takes the first current one. */
    method PollRound(ready: seq<Interest>, answers: seq<Answer>)
      returns (taken: Option<Response>, invoked: bool, woken: bool)
      requires SharedOk(View()) && |answers| == |Collect(registrationsByToken, ready)|
      modifies `tokenByFd, `registrationsByToken, `kernel, `nextToken, `drawn, `pendingResponses
      ensures SharedOk(View())
      ensures var responses := Collect(old(registrationsByToken), ready);
              && View() == Dispatched(old(View()), allowNonCallbacks, responses, answers, 0)
              && (pendingResponses, taken) == TakePending(View(), old(pendingResponses) + Idents(responses))
              && invoked == AnyCallback(responses, 0) && woken == Wakes(ready)
      ensures invoked <==> CallsBack(old(registrationsByToken), ready)
    {
      InvokedExactlyWhen(registrationsByToken, ready);
      woken := HadWake(ready);
      var responses, _ := CollectResponses(ready);
      invoked := RunCallbacks(responses, answers);
      QueueIdents(responses);
      taken := TakePendingIdent();
    }

    method HadWake(ready: seq<Interest>) returns (woken: bool)
      ensures woken == Wakes(ready)
    {
      woken := false;
      for i := 0 to |ready|
        invariant woken <==> exists k :: 0 <= k < i && ready[k].token == WAKE_TOKEN
      {
        if ready[i].token == WAKE_TOKEN {
          woken := true;
        }
      }
    }

    /** What one callback does with the looper. */
    method PerformCalls(calls: seq<LooperCall>)
      requires SharedOk(View())
      modifies `tokenByFd, `registrationsByToken, `kernel, `nextToken, `drawn
      ensures View() == CalledAll(old(View()), allowNonCallbacks, calls)
    {
      for i := 0 to |calls|
        invariant SharedOk(View())
        invariant CalledAll(View(), allowNonCallbacks, calls[i..]) == CalledAll(old(View()), allowNonCallbacks, calls)
      {
        assert calls[i..][0] == calls[i] && calls[i..][1..] == calls[i + 1..];
        PerformCall(calls[i]);
      }
    }

    method PerformCall(c: LooperCall)
      requires SharedOk(View())
      modifies `tokenByFd, `registrationsByToken, `kernel, `nextToken, `drawn
      ensures View() == Called(old(View()), allowNonCallbacks, c)
    {
      match c {
        case Adds(fd, ident, events, callback, data, fault, retryFault) =>
          var _ := AddFd(fd, ident, events, callback, data, fault, retryFault);
        case Removes(fd, fault) =>
          var _ := RemoveFd(fd, fault);
        case Changes(files, gone) =>
          kernel := Kernel(files, kernel.interest - gone);
      }
    }

    /** Runs the callback of one response, if it has one. */
    method RunCallback(r: Registration, answer: Answer) returns (invoked: bool)
      requires SharedOk(View())
      modifies `tokenByFd, `registrationsByToken, `kernel, `nextToken, `drawn
      ensures View() == Answered(old(View()), allowNonCallbacks, r, answer) && invoked == r.callback.Some?
    {
      if r.callback.None? {
        return false;
      }
      PerformCalls(answer.calls);
      if answer.keep == 0 {
        var _ := RemoveFdLocked(r.fd, r.token, answer.fault);
      }
      return true;
    }

    method RunCallbacks(responses: seq<Response>, answers: seq<Answer>) returns (invoked: bool)
      requires SharedOk(View()) && |answers| == |responses|
      modifies `tokenByFd, `registrationsByToken, `kernel, `nextToken, `drawn
      ensures SharedOk(View()) && View() == Dispatched(old(View()), allowNonCallbacks, responses, answers, 0)
      ensures invoked == AnyCallback(responses, 0)
    {
      invoked := false;
      ghost var goal := Dispatched(View(), allowNonCallbacks, responses, answers, 0);
      for i := 0 to |responses|
        invariant SharedOk(View()) && Dispatched(View(), allowNonCallbacks, responses, answers, i) == goal
        invariant invoked <==> exists k :: 0 <= k < i && responses[k].registration.callback.Some?
      {
        var ran := RunCallback(responses[i].registration, answers[i]);
        invoked := invoked || ran;
      }
    }

    method QueueIdents(responses: seq<Response>)
      modifies `pendingResponses
      ensures pendingResponses == old(pendingResponses) + Idents(responses)
    {
      for i := 0 to |responses|
        invariant pendingResponses == old(pendingResponses) + Idents(responses[..i])
      {
        assert responses[..i + 1][..i] == responses[..i];
        if responses[i].registration.callback.None? {
          pendingResponses := pendingResponses + [responses[i]];
        }
      }
      assert responses[..|responses|] == responses;
    }

    method RegistrationIsCurrent(registration: Registration) returns (current: bool)
      ensures current == IsCurrent(View(), registration)
    {
      if registration.fd !in tokenByFd || tokenByFd[registration.fd] != registration.token {
        return false;
      }
      return registration.token in registrationsByToken;
    }

    /** `TakePendingIdent`: drops stale responses from the front and takes the first
        current one. */
    method TakePendingIdent() returns (taken: Option<Response>)
      modifies `pendingResponses
      ensures (pendingResponses, taken) == TakePending(View(), old(pendingResponses))
    {
      while pendingResponses != []
        invariant TakePending(View(), pendingResponses) == TakePending(View(), old(pendingResponses))
        decreases |pendingResponses|
      {
        var response := pendingResponses[0];
        pendingResponses := pendingResponses[1..];
        var current := RegistrationIsCurrent(response.registration);
        if !current || response.registration.callback.Some? {
          continue;
        }
        return Some(response);
      }
      return None;
    }
  }
}

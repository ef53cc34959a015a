/**
 What the looper's building blocks come to, in terms of descriptors, tokens and event bits:
 when requests succeed, what they leave, and what the bits of an event mean.
 */
module LooperLaws {
  import opened Basics
  import opened Looper
  import LooperRuns

  // ---------------------------------------------------------------- event bits

  function Bit(on: bool, value: int): int {
    if on then value else 0
  }

  /** EPOLLIN, EPOLLOUT, EPOLLERR and EPOLLHUP become input, output, error and hangup; EPOLLPRI
      and everything above EPOLLHUP are ignored. */
  lemma EventsReported(readable: bool, priority: bool, writable: bool, error: bool, hangup: bool, rest: nat)
    ensures AndroidEvents(Bit(readable, 1) + Bit(priority, 2) + Bit(writable, 4) + Bit(error, 8) + Bit(hangup, 16)
                          + 32 * rest)
            == Bit(readable, 1) + Bit(writable, 2) + Bit(error, 4) + Bit(hangup, 8)
  {
    var low, w, x, h := Bit(readable, 1) + Bit(priority, 2), Bit(writable, 1), Bit(error, 1), Bit(hangup, 1);
    Halves(Bit(readable, 1), Bit(priority, 1) + 2 * w + 4 * x + 8 * h + 16 * rest);
    Quarters(low, w + 2 * x + 4 * h + 8 * rest);
    Halves(w, x + 2 * h + 4 * rest);
    Eighths(low + 4 * w, x + 2 * h + 4 * rest);
    Halves(x, h + 2 * rest);
    Sixteenths(low + 4 * w + 8 * x, h + 2 * rest);
    Halves(h, rest);
  }

  lemma Halves(low: nat, high: nat)
    requires low < 2
    ensures (low + 2 * high) / 2 == high && (low + 2 * high) % 2 == low
  {
  }

  lemma Quarters(low: nat, high: nat)
    requires low < 4
    ensures (low + 4 * high) / 4 == high
  {
  }

  lemma Eighths(low: nat, high: nat)
    requires low < 8
    ensures (low + 8 * high) / 8 == high
  {
  }

  lemma Sixteenths(low: nat, high: nat)
    requires low < 16
    ensures (low + 16 * high) / 16 == high
  {
  }

  /** Input and output are asked for as EPOLLIN and EPOLLOUT, whatever other bits are set. */
  lemma EventsRequested(readable: bool, writable: bool, rest: nat)
    ensures EpollEvents(Bit(readable, 1) + Bit(writable, 2) + 4 * rest) == Bit(readable, 1) + Bit(writable, 4)
  {
    var e := Bit(readable, 1) + Bit(writable, 2);
    assert (e + 4 * rest) / 2 == e / 2 + 2 * rest;
  }

  // ---------------------------------------------------------------- tokens

  /** The `j`-th value of the counter from `next` on: 1 to 2^64 - 1, over and over. */
  function Nth(next: nat, j: nat): nat
    requires 1 <= next <= MAX_TOKEN
  {
    (next - 1 + j) % MAX_TOKEN + 1
  }

  lemma NthSuccessor(next: nat, j: nat)
    requires 1 <= next <= MAX_TOKEN
    ensures 1 <= Successor(next) <= MAX_TOKEN && Nth(Successor(next), j) == Nth(next, j + 1)
  {
    if next == MAX_TOKEN {
      assert (MAX_TOKEN - 1 + (j + 1)) % MAX_TOKEN == j % MAX_TOKEN;
    }
  }

  /** The drawn token is the first unregistered value of the counter. */
  lemma {:induction false} DrawIsFirst(regs: map<nat, Registration>, next: nat, free: nat)
    requires 1 <= next <= MAX_TOKEN && IsFree(regs, free)
    ensures var (token, draws) := Draw(regs, next, free);
            && token == Nth(next, draws - 1) && token !in regs
            && forall j: nat :: j < draws - 1 ==> Nth(next, j) in regs
    decreases Distance(next, free)
  {
    if next in regs {
      var (token, draws) := Draw(regs, Successor(next), free);
      DrawPast(regs, next, free);
      DrawIsFirst(regs, Successor(next), free);
      NthSuccessor(next, draws - 1);
      forall j: nat | j < draws
        ensures Nth(next, j) in regs
      {
        if j > 0 {
          NthSuccessor(next, j - 1);
        }
      }
    }
  }

  // ---------------------------------------------------------------- requests

  /** Where the kernel reports no failure of its own, a request goes through exactly when the
      descriptor is open, however the looper's tables and the kernel's list disagree. */
  lemma InstallSucceedsExactlyWhen(k: Kernel, update: bool, fd: int, want: Interest)
    ensures var r := Install(k, update, fd, want, None, None);
            && (r.1.None? <==> fd in k.files)
            && (r.1.None? ==> (k.files[fd], fd) in r.0.interest && r.0.interest[(k.files[fd], fd)] == want)
  {
  }

  /** `addFd` succeeds exactly when the descriptor is open and the arguments make sense; then
      the descriptor's registration holds just what was asked for. */
  lemma AddSucceedsExactlyWhen(s: Shared, allow: bool, fd: int, ident: int, events: int, callback: Option<int>, data: int)
    requires SharedOk(s)
    ensures var (s', result) := AddingFd(s, allow, fd, ident, events, callback, data, None, None);
            && (result == 1 <==>
                  && 0 <= fd <= MAX_FD && fd in s.kernel.files
                  && (callback.None? ==> allow && ident >= 0)
                  && (callback.Some? ==> ident >= 0 || ident == -2))
            && (result != 1 ==> result == -1)
            && (result == 1 ==>
                  && fd in s'.tokenByFd && s'.tokenByFd[fd] in s'.registrations
                  && s'.registrations[s'.tokenByFd[fd]] ==
                     Registration(fd, if callback.Some? then -2 else ident, events, callback, data, s'.tokenByFd[fd]))
  {
    if AddArgumentsOk(allow, fd, ident, callback) {
      var (token, draws) := Draw(s.registrations, s.nextToken, AFreeToken(s));
      InstallSucceedsExactlyWhen(s.kernel, fd in s.tokenByFd, fd, Interest(token, EpollEvents(events)));
    }
  }

  /** A kernel answer that `removeFd` takes for a success. */
  predicate Tolerated(fault: Option<Errno>) {
    fault.None? || fault == Some(ENOENT) || fault == Some(EBADF)
  }

  /** Removing a registered descriptor fails only on a real kernel failure; then nothing
      changes, and otherwise its registration is gone and all others stay. */
  lemma RemovalRemoves(s: Shared, fd: int, fault: Option<Errno>)
    requires SharedOk(s) && fd in s.tokenByFd
    ensures var (s', result) := RemovingFd(s, fd, fault);
            if Tolerated(fault) then
              && result == 1 && fd !in s'.tokenByFd && s.tokenByFd[fd] !in s'.registrations
              && s'.tokenByFd == s.tokenByFd - {fd} && s'.registrations == s.registrations - {s.tokenByFd[fd]}
              && (fault.None? && fd in s.kernel.files ==> (s.kernel.files[fd], fd) !in s'.kernel.interest)
            else result == -1 && s' == s
  {
    assert 0 <= s.registrations[s.tokenByFd[fd]].fd <= MAX_FD;
  }

  /** What `removeFd` took away is never delivered again, in any run that follows. */
  lemma RemovedNeverDelivered(s: LooperRuns.State, fd: int, fault: Option<Errno>, acts: seq<LooperRuns.Action>)
    requires LooperRuns.StateOk(s) && fd in s.shared.tokenByFd && Tolerated(fault)
    requires LooperRuns.IsRun(LooperRuns.Apply(s, LooperRuns.RemoveFd(fd, fault)), acts)
    requires var e := LooperRuns.After(LooperRuns.Apply(s, LooperRuns.RemoveFd(fd, fault)), acts);
             NoReuse(e.shared) && LooperRuns.Enabled(e, LooperRuns.TakePending) && e.pending != []
             && e.pending[0].registration.token == s.shared.tokenByFd[fd]
    ensures var e := LooperRuns.After(LooperRuns.Apply(s, LooperRuns.RemoveFd(fd, fault)), acts);
            LooperRuns.Apply(e, LooperRuns.TakePending).settled == e.settled + [LooperRuns.Outcome(e.pending[0], false)]
  {
    var removed := LooperRuns.Apply(s, LooperRuns.RemoveFd(fd, fault));
    LooperRuns.StepKeeps(s, LooperRuns.RemoveFd(fd, fault));
    LooperRuns.DrawnGrows(removed, acts);
    RemovalRemoves(s.shared, fd, fault);
    LooperRuns.RetiredForever(removed, acts, s.shared.tokenByFd[fd]);
    LooperRuns.RunKeeps(removed, acts);
    LooperRuns.TakeIsCurrent(LooperRuns.After(removed, acts));
  }

  // ---------------------------------------------------------------- callbacks

  /** A callback's calls are made in order, and its return of zero ends the registration it ran
      for unless the kernel fails; any other answer, and a response without a callback, end
      none. */
  lemma ZeroEndsRegistration(s: Shared, allow: bool, r: Registration, answer: Answer)
    requires SharedOk(s) && r.token != 0
    ensures var s' := Answered(s, allow, r, answer);
            && (r.callback.None? ==> s' == s)
            && (r.callback.Some? && answer.keep != 0 ==> s' == CalledAll(s, allow, answer.calls))
            && (r.callback.Some? && answer.keep == 0 && Tolerated(answer.fault) ==>
                  !IsCurrent(s', r) && (r.fd in s'.tokenByFd ==> s'.tokenByFd[r.fd] != r.token))
  {
  }
}

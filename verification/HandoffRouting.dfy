/** What holds of runs in which services have different ports and register before theirs are read. */
module HandoffRouting {
  import opened Descriptors
  import opened Handoff
  import opened HandoffInvariant
  import opened HandoffHistory
  import I = IssProcess
  import T = TracerProcess

  /** Ports are different, and each port read before state `k` was registered when it was read. */
  ghost predicate WellTimed(run: seq<System>, steps: seq<Step>, k: nat)
    requires k < |run| && k <= |steps|
  {
    Distinct(run[k].portOf) && forall m :: 0 <= m < k ==> ReadsRegistered(run[m], steps[m])
  }

  ghost predicate ReadsRegistered(s: System, step: Step) {
    forall port: T.Port :: Reads(s, step, port) ==> Registered(s, port)
  }

  lemma WellTimedBefore(run: seq<System>, steps: seq<Step>, m: nat, k: nat)
    requires IsRun(run, steps) && m <= k < |run| && WellTimed(run, steps, k)
    ensures WellTimed(run, steps, m)
  {
    hide Initial, Enabled, Apply, ReadsRegistered;
    RunGrows(run, steps, m, k);
  }

  lemma ReadWasRegistered(run: seq<System>, steps: seq<Step>, k: nat, m: nat, port: T.Port)
    requires m < k < |run| && k <= |steps| && WellTimed(run, steps, k) && ReadsAt(run, steps, m, port)
    ensures Registered(run[m], port)
  {
    hide Registered, Reads;
    assert ReadsRegistered(run[m], steps[m]);
  }

  // ----- routing

  /**
   * Each taken-over port belongs to one service: the table names the connection to it, and what
   * was taken over came from its signal handler, so it is its listening socket or, from a handler
   * that ran too early, its standard input.
   */
  lemma RoutesToOwner(run: seq<System>, steps: seq<Step>, k: nat, i: nat) returns (j: nat)
    requires IsRun(run, steps) && k < |run| && WellTimed(run, steps, k) && i < |run[k].iss.ports|
    ensures j < |run[k].portOf| && run[k].portOf[j] == run[k].iss.ports[i]
    ensures 0 <= run[k].iss.ports[i] < I.PORT_LIMIT && LinkFor(run[k], run[k].iss.ports[i]) == Link(j)
    ensures i < |run[k].iss.sfd| && Obj(run[k].issFds, run[k].iss.sfd[i]) in {Listener(j), StandardInput}
    ensures SentBefore(run, steps, k, j, Obj(run[k].issFds, run[k].iss.sfd[i]))
  {
    hide Initial, Enabled, Apply, ReadsAt, Registered, SentBefore;
    hide ProcessesOk, IssStageOk, DoorOk, FifoOk, Conserved, LogOk, TakenOk, SlotOk;
    var m, t;
    m, t, j := TakenFromOwnerIffRegistered(run, steps, k, i);
    SentStays(run, steps, t, k, j, Obj(run[k].issFds, run[k].iss.sfd[i]));
    var port: T.Port := run[k].iss.ports[i];
    ReadWasRegistered(run, steps, k, m, port);
    RunGrows(run, steps, m, k);
    RunInv(run, steps, k);
    RegisteredIsRouted(run[k], port);
    NamedLink(run[k], port);
  }

  /** Every client goes to the service on whose listening socket it came in. */
  lemma {:induction false} AllToOwners(run: seq<System>, steps: seq<Step>, k: nat, h: Handover)
    requires IsRun(run, steps) && k < |run| && WellTimed(run, steps, k) && h in run[k].log
    ensures h.client.Client? && h.client.service == h.to
  {
    hide Enabled, Apply, ReadsAt, Registered;
    if k == 0 {
    } else {
      var s, step := run[k - 1], steps[k - 1];
      assert Enabled(s, step) && run[k] == Apply(s, step);
      var i := LogStep(s, step);
      WellTimedBefore(run, steps, k - 1, k);
      if h in s.log {
        AllToOwners(run, steps, k - 1, h);
      } else {
        var m, h' := ForwardedToOwnerIff(run, steps, k - 1, i);
        ReadWasRegistered(run, steps, k, m, s.iss.ports[i]);
        assert h == h';
      }
    }
  }

  lemma LogStep(s: System, step: Step) returns (i: nat)
    requires Enabled(s, step)
    ensures Apply(s, step).log == s.log || Forwards(s, step, i)
  {
    i := if s.issPhase.Forwarding? then s.issPhase.next else 0;
  }

  // ----- a service handles at most one signal

  /** The port of service `j` has been read. */
  predicate PortRead(s: System, j: nat) {
    j < |s.portOf| && s.read <= |s.tracer.written| && s.portOf[j] in s.tracer.written[..s.read]
  }

  lemma PortReadStays(s: System, s': System, j: nat)
    requires Grows(s, s') && PortRead(s, j)
    ensures PortRead(s', j)
  {
  }

  /** No signal is pending for service `j`, and its port has been read, so none will come. */
  predicate Handled(s: System, j: nat) {
    PortRead(s, j) && j < |s.services| && !s.services[j].signalled
  }

  /** Only the owner of the port read is signalled. */
  lemma SignalledStep(s: System, step: Step, j: nat)
    requires Inv(s) && Enabled(s, step) && Distinct(s.portOf)
    requires j < |s.services| || j < |Apply(s, step).services|
    requires ReadsRegistered(s, step)
    ensures |s.services| == |s.portOf| == |Apply(s, step).services|
    ensures Apply(s, step).services[j].signalled ==>
      s.services[j].signalled || (Reads(s, step, s.portOf[j]) && s.iss.pids != [])
  {
    hide TakenOk, IssStageOk, Conserved, LogOk, ProcessOk, Registered;
    if step.IssRead? && s.iss.fifo in s.iss.readset {
      var port := s.tracer.written[s.read];
      assert Reads(s, step, port);
      RegisteredIsRouted(s, port);
    }
  }

  lemma ReadIsRead(s: System, step: Step, j: nat)
    requires Enabled(s, step) && j < |s.portOf| && Reads(s, step, s.portOf[j])
    ensures !(s.read <= |s.tracer.written| && T.OnceOnly(s.tracer) && s.portOf[j] in s.tracer.written[..s.read])
    ensures PortRead(Apply(s, step), j)
  {
    assert s.tracer.written[..s.read + 1] == s.tracer.written[..s.read] + [s.portOf[j]];
  }

  lemma StepBefore(run: seq<System>, steps: seq<Step>, k: nat)
    requires IsRun(run, steps) && 0 < k < |run| && WellTimed(run, steps, k)
    ensures WellTimed(run, steps, k - 1) && Inv(run[k - 1]) && Distinct(run[k - 1].portOf)
    ensures Enabled(run[k - 1], steps[k - 1]) && run[k] == Apply(run[k - 1], steps[k - 1])
    ensures ReadsRegistered(run[k - 1], steps[k - 1])
    ensures Grows(run[k - 1], run[k])
  {
    hide Initial, Enabled, Apply, Inv, ReadsRegistered;
    WellTimedBefore(run, steps, k - 1, k);
    RunInv(run, steps, k - 1);
    RunGrows(run, steps, k - 1, k);
  }

  lemma {:induction false} SignalledAfterRead(run: seq<System>, steps: seq<Step>, k: nat, j: nat)
    requires IsRun(run, steps) && k < |run| && WellTimed(run, steps, k)
    requires j < |run[k].services| && run[k].services[j].signalled
    ensures PortRead(run[k], j)
  {
    hide Enabled, Apply, Inv, Reads, ReadsRegistered, PortRead, Grows, WellTimed;
    if k == 0 {
    } else {
      StepBefore(run, steps, k);
      SignalledStep(run[k - 1], steps[k - 1], j);
      if run[k - 1].services[j].signalled {
        SignalledAfterRead(run, steps, k - 1, j);
        PortReadStays(run[k - 1], run[k], j);
      } else {
        ReadIsRead(run[k - 1], steps[k - 1], j);
      }
    }
  }

  lemma HandledStays(s: System, step: Step, j: nat)
    requires Inv(s) && Enabled(s, step) && Handled(s, j) && Distinct(s.portOf) && Grows(s, Apply(s, step))
    requires ReadsRegistered(s, step)
    ensures Handled(Apply(s, step), j)
  {
    hide ProcessesOk, SlotsOk, TakenOk, IssStageOk, DoorOk, Conserved, LogOk;
    hide Apply, Enabled, Reads, ReadsRegistered, Grows;
    PortReadStays(s, Apply(s, step), j);
    SignalledStep(s, step, j);
    if Reads(s, step, s.portOf[j]) { ReadIsRead(s, step, j); }
  }

  lemma HandledNow(s: System, j: nat)
    requires Enabled(s, Signal(j))
    ensures j < |s.services| && s.services[j].signalled
    ensures PortRead(s, j) ==> Handled(Apply(s, Signal(j)), j)
  {
  }

  lemma {:induction false} HandledSince(run: seq<System>, steps: seq<Step>, k: nat, m: nat, j: nat)
    requires IsRun(run, steps) && m < k < |run| && WellTimed(run, steps, k) && HandledAt(steps, m, j)
    ensures Handled(run[k], j)
  {
    hide Inv, Enabled, Apply, Handled, Initial, ReadsRegistered, Grows, WellTimed;
    StepBefore(run, steps, k);
    if k == m + 1 {
      HandledNow(run[m], j);
      SignalledAfterRead(run, steps, m, j);
    } else {
      HandledSince(run, steps, k - 1, m, j);
      HandledStays(run[k - 1], steps[k - 1], j);
    }
  }

  /** In a well-timed run no service handles two signals. */
  lemma OneSignal(run: seq<System>, steps: seq<Step>, k: nat, m: nat, n: nat, j: nat)
    requires IsRun(run, steps) && k < |run| && WellTimed(run, steps, k) && m < k && n < k
    requires HandledAt(steps, m, j) && HandledAt(steps, n, j)
    ensures m == n
  {
    hide Initial, Apply;
    if m < n {
      WellTimedBefore(run, steps, n, k);
      HandledSince(run, steps, n, m, j);
    } else if n < m {
      WellTimedBefore(run, steps, m, k);
      HandledSince(run, steps, m, n, j);
    }
  }

  // ----- the handler sends the listening socket if and only if there is one

  lemma RunningStep(s: System, step: Step, j: nat)
    requires Enabled(s, step) && j < |Apply(s, step).services|
    ensures |s.services| == |Apply(s, step).services|
    ensures Running(Apply(s, step).services[j]) <==> Running(s.services[j]) || (step.Listen? && step.j == j)
  {
  }

  lemma {:induction false} RunningIffListened(run: seq<System>, steps: seq<Step>, m: nat, j: nat)
    requires IsRun(run, steps) && m < |run| && j < |run[m].services|
    ensures Running(run[m].services[j]) <==> ListensBefore(steps, m, j)
  {
    hide Inv, Enabled, Apply;
    if m == 0 {
    } else {
      assert Enabled(run[m - 1], steps[m - 1]) && run[m] == Apply(run[m - 1], steps[m - 1]);
      RunningStep(run[m - 1], steps[m - 1], j);
      RunningIffListened(run, steps, m - 1, j);
    }
  }

  /**
   * In a well-timed run, what is taken over was sent by the one run of the handler of its service. It is
   * the listening socket if that service had started to listen by then, and otherwise, because
   * `sfd` was still 0, the standard input of the service.
   */
  lemma TakesListenerIffListening(run: seq<System>, steps: seq<Step>, k: nat, i: nat) returns (j: nat, m: nat)
    requires IsRun(run, steps) && k < |run| && WellTimed(run, steps, k) && i < |run[k].iss.ports|
    ensures j < |run[k].portOf| && run[k].portOf[j] == run[k].iss.ports[i] && i < |run[k].iss.sfd|
    ensures m < k && HandledAt(steps, m, j) && forall n: nat :: n < k && HandledAt(steps, n, j) ==> n == m
    ensures Obj(run[k].issFds, run[k].iss.sfd[i]) == if ListensBefore(steps, m, j) then Listener(j) else StandardInput
  {
    hide Initial, Enabled, Apply, WellTimed, ListensBefore;
    j := RoutesToOwner(run, steps, k, i);
    var o := Obj(run[k].issFds, run[k].iss.sfd[i]);
    m :| m < k && m < |run| && HandledAt(steps, m, j)
      && j < |run[m].services| && o == HandlerSends(run[m].services[j]);
    forall n: nat | n < k && HandledAt(steps, n, j)
      ensures n == m
    {
      OneSignal(run, steps, k, m, n, j);
    }
    RunInv(run, steps, m);
    assert ProcessOk(run[m].services[j], j);
    RunningIffListened(run, steps, m, j);
  }

  /** A forwarded client came in on the listening socket of the service it goes to, sent by its handler. */
  lemma ForwardedWhenListening(run: seq<System>, steps: seq<Step>, n: nat, f: nat, i: nat, m: nat) returns (h: Handover)
    requires IsRun(run, steps) && n < |run| && WellTimed(run, steps, n)
    requires f < n && m < n && Forwards(run[f], steps[f], i)
    ensures run[f + 1].log == run[f].log + [h]
    ensures HandledAt(steps, m, h.to) ==> ListensBefore(steps, m, h.to)
  {
    hide Initial, Enabled, Apply, WellTimed, ListensBefore, ReadsAt, Registered, HandledAt;
    var r, j, m';
    r, h := ForwardedToOwnerIff(run, steps, f, i);
    WellTimedBefore(run, steps, f + 1, n);
    AllToOwners(run, steps, f + 1, h);
    WellTimedBefore(run, steps, f, n);
    j, m' := TakesListenerIffListening(run, steps, f, i);
    if HandledAt(steps, m, h.to) { OneSignal(run, steps, n, m, m', h.to); }
  }

  /** A service that handles its signal before it listens never gets a client from the super server. */
  lemma {:induction false} EarlySignalStarves(run: seq<System>, steps: seq<Step>, n: nat, k: nat, m: nat, j: nat)
    requires IsRun(run, steps) && k <= n < |run| && WellTimed(run, steps, n) && m < n
    requires HandledAt(steps, m, j) && !ListensBefore(steps, m, j)
    ensures SentTo(run[k].log, j) == []
  {
    hide Enabled, Apply, WellTimed, ListensBefore, HandledAt, Forwards;
    if k == 0 {
    } else {
      EarlySignalStarves(run, steps, n, k - 1, m, j);
      assert Enabled(run[k - 1], steps[k - 1]) && run[k] == Apply(run[k - 1], steps[k - 1]);
      var i := LogStep(run[k - 1], steps[k - 1]);
      if run[k].log != run[k - 1].log {
        var h := ForwardedWhenListening(run, steps, n, k - 1, i, m);
      }
    }
  }

  // ----- the accept loop of the super server's process

  /** A descriptor goes over the connection to the service whose socket it was accepted on. */
  predicate SentToOwner(s: System, accepted: seq<int>, m: I.Passed) {
    exists k :: 0 <= k < |accepted| && k < |s.iss.sfd| && m.fd == accepted[k]
      && Obj(s.issFds, s.iss.sfd[k]).Listener?
      && Obj(s.issFds, m.over) == Link(Obj(s.issFds, s.iss.sfd[k]).service)
  }

  predicate AllSentToOwners(s: System, accepted: seq<int>, sent: seq<I.Passed>) {
    forall n :: 0 <= n < |sent| ==> SentToOwner(s, accepted, sent[n])
  }

  /** Connections are accepted on listening sockets only. */
  predicate AcceptsOnListeners(s: System, accepted: seq<int>) {
    forall k :: 0 <= k < |accepted| && k < |s.iss.sfd| && accepted[k] >= 0 ==>
      Obj(s.issFds, s.iss.sfd[k]).Listener?
  }

  lemma SendsToOwner(run: seq<System>, steps: seq<Step>, k: nat, accepted: seq<int>, i: nat)
    requires IsRun(run, steps) && k < |run| && WellTimed(run, steps, k) && AcceptsOnListeners(run[k], accepted)
    requires i < |accepted| && i < |run[k].iss.sfd| && i < |run[k].iss.ports| && accepted[i] >= 0
    ensures 0 <= run[k].iss.ports[i] < I.PORT_LIMIT == |run[k].iss.slots|
    ensures SentToOwner(run[k], accepted, I.Passed(LinkFd(run[k], run[k].iss.ports[i]), accepted[i]))
  {
    hide IsRun, WellTimed, SlotsOk, ProcessesOk, IssStageOk, DoorOk, FifoOk, Conserved, LogOk;
    var j := RoutesToOwner(run, steps, k, i);
    assert I.Passed(LinkFd(run[k], run[k].iss.ports[i]), accepted[i]).fd == accepted[i];
    RunInv(run, steps, k);
    TablesHold(run[k]);
  }

  lemma TablesHold(s: System)
    requires Inv(s)
    ensures I.Tables(s.iss)
  {
  }

  /** In any state of a well-timed run, the accept loop of the process sends to the right services. */
  lemma {:induction false} LoopSendsToOwners(run: seq<System>, steps: seq<Step>, k: nat, accepted: seq<int>, i: nat)
    requires IsRun(run, steps) && k < |run| && WellTimed(run, steps, k) && AcceptsOnListeners(run[k], accepted)
    requires i <= |accepted| && i <= |run[k].iss.sfd|
    ensures I.Tables(run[k].iss) && AllSentToOwners(run[k], accepted, I.Forwarded(run[k].iss, accepted, i))
  {
    hide IsRun, WellTimed, Inv, AcceptsOnListeners, SentToOwner;
    RunInv(run, steps, k);
    TablesHold(run[k]);
    if i == 0 {
    } else {
      LoopSendsToOwners(run, steps, k, accepted, i - 1);
      if accepted[i - 1] >= 0 { SendsToOwner(run, steps, k, accepted, i - 1); }
    }
  }
}

/**
 * Where a taken-over descriptor comes from and where its clients go, in every run: the table is
 * looked up when a port is read, and again whenever a client is forwarded.
 */
module HandoffHistory {
  import opened Descriptors
  import opened Handoff
  import opened HandoffInvariant
  import I = IssProcess
  import T = TracerProcess

  /** Step `m` is the run of the signal handler of service `j`. */
  predicate HandledAt(steps: seq<Step>, m: nat, j: nat) {
    m < |steps| && steps[m] == Signal(j)
  }

  /** Service `j` starts to listen before step `m`. */
  predicate ListensBefore(steps: seq<Step>, m: nat, j: nat) {
    exists l :: 0 <= l < m && l < |steps| && steps[l].Listen? && steps[l].j == j
  }

  /** The step reads `port` from the FIFO. */
  predicate Reads(s: System, step: Step, port: T.Port) {
    && step.IssRead? && s.iss.fifo in s.iss.readset
    && s.read < |s.tracer.written| && s.tracer.written[s.read] == port
  }

  predicate ReadsAt(run: seq<System>, steps: seq<Step>, m: nat, port: T.Port) {
    m < |run| && m < |steps| && Reads(run[m], steps[m], port)
  }

  /** Step `t` takes a descriptor over as `fd`, from the connection to service `x`. */
  predicate TakenAt(run: seq<System>, steps: seq<Step>, t: nat, fd: int, x: nat) {
    && t < |run| && t < |steps| && steps[t].IssTake? && steps[t].fd == fd && steps[t].ok
    && run[t].issPhase.Awaiting? && LinkFor(run[t], run[t].issPhase.port) == Link(x)
  }

  /** The handler of service `j` sent `o` before state `k`. */
  ghost predicate SentBefore(run: seq<System>, steps: seq<Step>, k: nat, j: nat, o: Object) {
    exists m: nat :: m < k && m < |run| && HandledAt(steps, m, j)
      && j < |run[m].services| && o == HandlerSends(run[m].services[j])
  }

  // ----- what grows in a run

  /** Registrations stay, and so does what was read. */
  ghost predicate Grows(s: System, s': System) {
    && s'.portOf == s.portOf && s.iss.pids <= s'.iss.pids
    && s.read <= s'.read && s.read <= |s.tracer.written| && s'.read <= |s'.tracer.written|
    && s.tracer.written[..s.read] <= s'.tracer.written[..s'.read]
  }

  lemma StepGrows(s: System, step: Step)
    requires s.read <= |s.tracer.written| && Enabled(s, step)
    ensures Grows(s, Apply(s, step))
  {
  }

  lemma {:induction false} RunGrows(run: seq<System>, steps: seq<Step>, m: nat, k: nat)
    requires IsRun(run, steps) && m <= k < |run|
    ensures Grows(run[m], run[k])
  {
    hide Enabled, Apply, Initial, ProcessesOk, SlotsOk, TakenOk, IssStageOk, DoorOk, Conserved, LogOk;
    RunInv(run, steps, m);
    if k == m {
    } else {
      RunGrows(run, steps, m, k - 1);
      assert Enabled(run[k - 1], steps[k - 1]) && run[k] == Apply(run[k - 1], steps[k - 1]);
      StepGrows(run[k - 1], steps[k - 1]);
    }
  }

  /** A port is read at most once. */
  lemma ReadOnce(run: seq<System>, steps: seq<Step>, m: nat, n: nat, port: T.Port)
    requires IsRun(run, steps) && ReadsAt(run, steps, m, port) && ReadsAt(run, steps, n, port)
    ensures m == n
  {
    if m < n {
      NotReadAgain(run, steps, m, n, port);
    } else if n < m {
      NotReadAgain(run, steps, n, m, port);
    }
  }

  lemma NotReadAgain(run: seq<System>, steps: seq<Step>, m: nat, n: nat, port: T.Port)
    requires IsRun(run, steps) && m < n && ReadsAt(run, steps, m, port)
    ensures !ReadsAt(run, steps, n, port)
  {
    hide Enabled, Initial, ProcessesOk, SlotsOk, TakenOk, IssStageOk, DoorOk, Conserved, LogOk;
    if n < |run| {
      assert Enabled(run[m], steps[m]) && run[m + 1] == Apply(run[m], steps[m]);
      RunGrows(run, steps, m + 1, n);
      RunInv(run, steps, n);
      var s := run[n];
      assert port in s.tracer.written[..s.read] by {
        assert run[m + 1].tracer.written[..run[m + 1].read][run[m].read] == port;
      }
    }
  }

  // ----- what the handlers send

  lemma SentStays(run: seq<System>, steps: seq<Step>, k: nat, k': nat, j: nat, o: Object)
    requires SentBefore(run, steps, k, j, o) && k <= k'
    ensures SentBefore(run, steps, k', j, o)
  {
  }

  lemma {:induction false} OutboxSent(run: seq<System>, steps: seq<Step>, k: nat, j: nat, o: Object)
    requires IsRun(run, steps) && k < |run| && j < |run[k].services| && o in run[k].services[j].outbox
    ensures SentBefore(run, steps, k, j, o)
  {
    hide Enabled, Apply, HandlerSends, TakesFrom, Inv;
    if k == 0 {
    } else {
      var s, step := run[k - 1], steps[k - 1];
      assert Enabled(s, step) && run[k] == Apply(s, step);
      OutboxMoves(s, step, j);
      if o in s.services[j].outbox {
        OutboxSent(run, steps, k - 1, j, o);
        SentStays(run, steps, k - 1, k, j, o);
      } else {
        assert HandledAt(steps, k - 1, j);
      }
    }
  }

  lemma SentIsSendable(run: seq<System>, steps: seq<Step>, k: nat, j: nat, o: Object)
    requires IsRun(run, steps) && SentBefore(run, steps, k, j, o)
    ensures Sendable(o, j)
  {
    var m: nat :| m < k && m < |run| && HandledAt(steps, m, j)
      && j < |run[m].services| && o == HandlerSends(run[m].services[j]);
    RunInv(run, steps, m);
    assert ProcessOk(run[m].services[j], j);
  }

  // ----- reading a port and taking over what comes for it

  /** Since port `port` was read in state `r`, the super server's tables have not changed. */
  predicate ReadIn(r: System, s: System, port: T.Port) {
    s.issPhase == Awaiting(port) && s.iss == r.iss && s.issFds == r.issFds && r.iss.pids != []
  }

  lemma AwaitingStep(s: System, step: Step)
    requires Enabled(s, step) && Apply(s, step).issPhase.Awaiting?
    ensures var s' := Apply(s, step);
      || (s'.issPhase == s.issPhase && s'.iss == s.iss && s'.issFds == s.issFds)
      || (Reads(s, step, s'.issPhase.port) && ReadIn(s, s', s'.issPhase.port))
  {
  }

  lemma {:induction false} AwaitingSince(run: seq<System>, steps: seq<Step>, t: nat) returns (m: nat)
    requires IsRun(run, steps) && t < |run| && run[t].issPhase.Awaiting?
    ensures m < t && ReadsAt(run, steps, m, run[t].issPhase.port) && ReadIn(run[m], run[t], run[t].issPhase.port)
  {
    hide Enabled, Apply, Reads;
    assert Enabled(run[t - 1], steps[t - 1]) && run[t] == Apply(run[t - 1], steps[t - 1]);
    AwaitingStep(run[t - 1], steps[t - 1]);
    if Reads(run[t - 1], steps[t - 1], run[t].issPhase.port) && ReadIn(run[t - 1], run[t], run[t].issPhase.port) {
      m := t - 1;
    } else {
      m := AwaitingSince(run, steps, t - 1);
    }
  }

  /** In state `s` the super server takes `o` over as `fd`, for `port` and from the named service. */
  predicate Takeable(s: System, step: Step, port: int, fd: int, o: Object) {
    && step.IssTake? && step.ok && step.fd == fd && s.issPhase.Awaiting? && s.issPhase.port == port
    && HasService(s, LinkFor(s, s.issPhase.port))
    && o in s.services[LinkFor(s, s.issPhase.port).service].outbox
  }

  lemma TakeStep(s: System, step: Step, i: nat)
    requires Inv(s) && Enabled(s, step) && i < |Apply(s, step).iss.ports|
    ensures |s.iss.sfd| == |s.iss.ports| && |Apply(s, step).iss.sfd| == |Apply(s, step).iss.ports|
    ensures var s' := Apply(s, step);
      var port, fd := s'.iss.ports[i], s'.iss.sfd[i];
      || (i < |s.iss.ports| && s.iss.ports[i] == port && s.iss.sfd[i] == fd && Obj(s.issFds, fd) == Obj(s'.issFds, fd))
      || Takeable(s, step, port, fd, Obj(s'.issFds, fd))
  {
    hide SlotsOk, IssStageOk, DoorOk, FifoOk, Conserved, LogOk, ProcessesOk;
    if i < |s.iss.ports| { assert Takes(s, s.iss.ports[i], s.iss.sfd[i]); }
  }

  lemma {:induction false} TakenSince(run: seq<System>, steps: seq<Step>, k: nat, i: nat) returns (t: nat)
    requires IsRun(run, steps) && k < |run| && i < |run[k].iss.ports|
    ensures i < |run[k].iss.sfd| && t < k
    ensures Takeable(run[t], steps[t], run[k].iss.ports[i], run[k].iss.sfd[i], Obj(run[k].issFds, run[k].iss.sfd[i]))
  {
    hide Inv, Apply, Enabled, Takeable;
    var s, step := run[k - 1], steps[k - 1];
    RunInv(run, steps, k - 1);
    assert Enabled(s, step) && run[k] == Apply(s, step);
    TakeStep(s, step, i);
    if Takeable(s, step, run[k].iss.ports[i], run[k].iss.sfd[i], Obj(run[k].issFds, run[k].iss.sfd[i])) {
      t := k - 1;
    } else {
      t := TakenSince(run, steps, k - 1, i);
    }
  }

  /** The table names an owner of the port, by its process id, if and only if one has registered. */
  lemma NamesOwner(s: System, port: T.Port, x: nat)
    requires SlotsOk(s) && x < |s.portOf| && PidFor(s, port) == Pid(x)
    ensures s.portOf[x] == port <==> Registered(s, port)
  {
    if Registered(s, port) {
      RegisteredIsRouted(s, port);
    }
    if s.portOf[x] == port {
      assert s.iss.pids[s.iss.slots[port]] == Pid(x);
    }
  }

  lemma NamedByRead(r: System, s: System, port: T.Port) returns (x: nat)
    requires Inv(r) && ReadIn(r, s, port)
    ensures x < |r.portOf| && PidFor(r, port) == Pid(x) && LinkFor(s, port) == Link(x)
    ensures r.portOf[x] == port <==> Registered(r, port)
  {
    hide ProcessesOk, IssStageOk, DoorOk, FifoOk, Conserved, LogOk, TakenOk, Registered;
    AllNamed(r, port);
    NamedLink(r, port);
    x := NamedService(r, port);
    NamesOwner(r, port, x);
  }

  /**
   * In every run: what stands for a taken-over port was sent by the handler of the service that
   * the table named when the port was read, over the connection to it. That service is an owner
   * of the port if and only if an owner had registered by then.
   */
  lemma TakenFromOwnerIffRegistered(run: seq<System>, steps: seq<Step>, k: nat, i: nat)
    returns (m: nat, t: nat, x: nat)
    requires IsRun(run, steps) && k < |run| && i < |run[k].iss.ports|
    ensures i < |run[k].iss.sfd| && 0 <= run[k].iss.ports[i] < I.PORT_LIMIT && m < t < k
    ensures ReadsAt(run, steps, m, run[k].iss.ports[i]) && PidFor(run[m], run[k].iss.ports[i]) == Pid(x)
    ensures TakenAt(run, steps, t, run[k].iss.sfd[i], x)
    ensures var o := Obj(run[k].issFds, run[k].iss.sfd[i]);
      SentBefore(run, steps, t, x, o) && Sendable(o, x)
    ensures x < |run[k].portOf|
    ensures run[k].portOf[x] == run[k].iss.ports[i] <==> Registered(run[m], run[k].iss.ports[i])
  {
    hide Inv, Apply, Enabled, Initial, SentBefore, Registered;
    t := TakenSince(run, steps, k, i);
    m := AwaitingSince(run, steps, t);
    RunInv(run, steps, m);
    x := NamedByRead(run[m], run[t], run[t].issPhase.port);
    RunGrows(run, steps, m, k);
    OutboxSent(run, steps, t, x, Obj(run[k].issFds, run[k].iss.sfd[i]));
    SentIsSendable(run, steps, t, x, Obj(run[k].issFds, run[k].iss.sfd[i]));
  }

  // ----- forwarding

  /** The step accepts a client on socket number `i` and forwards it. */
  predicate Forwards(s: System, step: Step, i: nat) {
    && step.IssForward? && step.ok && s.issPhase == Forwarding(i) && i < |s.iss.sfd| && i < |s.iss.ports|
    && s.iss.sfd[i] in s.iss.readset
  }

  /** The table names the same service in `r` and later in `s` unless an owner has registered in between. */
  lemma SameNameIff(r: System, s: System, port: T.Port)
    requires SlotsOk(r) && SlotsOk(s) && Grows(r, s) && r.iss.pids != [] && Distinct(s.portOf)
    ensures PidFor(s, port) == PidFor(r, port) <==> Registered(r, port) || !Registered(s, port)
  {
    AllNamed(r, port);
    AllNamed(s, port);
    NamedLink(r, port);
    NamedLink(s, port);
    NamesOwner(r, port, NamedService(r, port));
    NamesOwner(s, port, NamedService(s, port));
    if Registered(r, port) {
    } else if !Registered(s, port) {
      OtherSlotsAreRegistered(r, port);
      OtherSlotsAreRegistered(s, port);
      assert s.iss.pids[0] == r.iss.pids[0];
    }
  }

  lemma OtherSlotsAreRegistered(s: System, port: T.Port)
    requires SlotsOk(s)
    ensures s.iss.slots[port] != 0 ==> Registered(s, port)
  {
    if s.iss.slots[port] != 0 {
      assert Routed(s, port);
      assert s.portOf[NamedService(s, port)] == port;
    }
  }

  lemma ForwardStep(s: System, step: Step, i: nat)
    requires Inv(s) && Enabled(s, step) && Forwards(s, step, i)
    ensures 0 <= s.iss.ports[i] < I.PORT_LIMIT && Obj(s.issFds, s.iss.sfd[i]).Listener?
    ensures LinkFor(s, s.iss.ports[i]).Link? && PidFor(s, s.iss.ports[i]) == Pid(LinkFor(s, s.iss.ports[i]).service)
    ensures Apply(s, step).log == s.log + [Handover(Client(s.nextId, Obj(s.issFds, s.iss.sfd[i]).service, true),
                                             LinkFor(s, s.iss.ports[i]).service)]
  {
    hide ProcessesOk, IssStageOk, DoorOk, FifoOk, Conserved, LogOk, SlotOk;
    ForwardTarget(s, i);
  }

  /**
   * In every run: a client goes to the service on whose socket it came in if and only if the table
   * still names the service that it named when the port was read. With different ports that is
   * so unless the owner of the port has registered in between.
   */
  lemma ForwardedToOwnerIff(run: seq<System>, steps: seq<Step>, f: nat, i: nat) returns (m: nat, h: Handover)
    requires IsRun(run, steps) && f < |steps| && Forwards(run[f], steps[f], i)
    ensures 0 <= run[f].iss.ports[i] < I.PORT_LIMIT && m < f && ReadsAt(run, steps, m, run[f].iss.ports[i])
    ensures run[f + 1].log == run[f].log + [h] && h.client.Client?
    ensures Obj(run[f].issFds, run[f].iss.sfd[i]) == Listener(h.client.service)
    ensures var port := run[f].iss.ports[i];
      && (h.client.service == h.to <==> PidFor(run[f], port) == PidFor(run[m], port))
      && (Distinct(run[f].portOf) ==>
            (h.client.service == h.to <==> Registered(run[m], port) || !Registered(run[f], port)))
  {
    hide Inv, Enabled, Initial, SentBefore, Registered;
    var x, t;
    m, t, x := TakenFromOwnerIffRegistered(run, steps, f, i);
    RunInv(run, steps, f);
    assert Enabled(run[f], steps[f]) && run[f + 1] == Apply(run[f], steps[f]);
    ForwardStep(run[f], steps[f], i);
    h := run[f + 1].log[|run[f].log|];
    NamedSince(run, steps, m, f, run[f].iss.ports[i], x);
  }

  lemma NamedSince(run: seq<System>, steps: seq<Step>, m: nat, f: nat, port: T.Port, x: nat)
    requires IsRun(run, steps) && m <= f < |run| && PidFor(run[m], port) == Pid(x)
    ensures Distinct(run[f].portOf) ==>
      (PidFor(run[f], port) == Pid(x) <==> Registered(run[m], port) || !Registered(run[f], port))
  {
    hide Initial, Enabled, Apply, Registered;
    hide ProcessesOk, IssStageOk, DoorOk, FifoOk, Conserved, LogOk, TakenOk, SlotOk;
    RunInv(run, steps, m);
    RunInv(run, steps, f);
    RunGrows(run, steps, m, f);
    if Distinct(run[f].portOf) { SameNameIff(run[m], run[f], port); }
  }

  // ----- the channels to the super server keep their order

  /** What the handler of service `j` has sent before state `k`, in order. */
  ghost function SentBy(run: seq<System>, steps: seq<Step>, k: nat, j: nat): seq<Object>
    requires IsRun(run, steps) && k < |run|
  {
    if k == 0 then []
    else
      SentBy(run, steps, k - 1, j) +
      if steps[k - 1] == Signal(j) && j < |run[k - 1].services| then [HandlerSends(run[k - 1].services[j])] else []
  }

  /** What the super server has taken over from the connection to service `j` before state `k`, in order. */
  ghost function TakenFrom(run: seq<System>, steps: seq<Step>, k: nat, j: nat): seq<Object>
    requires IsRun(run, steps) && k < |run|
  {
    if k == 0 then []
    else
      TakenFrom(run, steps, k - 1, j) +
      if TakesFrom(run[k - 1], steps[k - 1], j) then [Obj(run[k].issFds, steps[k - 1].fd)] else []
  }

  predicate TakesFrom(s: System, step: Step, j: nat) {
    step.IssTake? && step.ok && s.issPhase.Awaiting? && LinkFor(s, s.issPhase.port) == Link(j)
  }

  lemma OutboxMoves(s: System, step: Step, j: nat)
    requires Enabled(s, step) && j < |Apply(s, step).services|
    ensures j < |s.services|
    ensures var s' := Apply(s, step);
      s'.services[j].outbox ==
      if step == Signal(j) then s.services[j].outbox + [HandlerSends(s.services[j])]
      else if TakesFrom(s, step, j) && s.services[j].outbox != [] then s.services[j].outbox[1..]
      else s.services[j].outbox
    ensures TakesFrom(s, step, j) ==>
      s.services[j].outbox != [] && Obj(Apply(s, step).issFds, step.fd) == s.services[j].outbox[0]
  {
  }

  /** What was taken over from a service, and then what is under way, is all its handler sent, in order. */
  lemma {:induction false} TakenInOrder(run: seq<System>, steps: seq<Step>, k: nat, j: nat)
    requires IsRun(run, steps) && k < |run| && j < |run[k].services|
    ensures TakenFrom(run, steps, k, j) + run[k].services[j].outbox == SentBy(run, steps, k, j)
  {
    hide Enabled, Apply, HandlerSends, TakesFrom, Inv;
    if k == 0 {
    } else {
      var s, step := run[k - 1], steps[k - 1];
      assert Enabled(s, step) && run[k] == Apply(s, step);
      OutboxMoves(s, step, j);
      TakenInOrder(run, steps, k - 1, j);
      if TakesFrom(s, step, j) {
        NotBoth(s, step, j);
        Regroup(TakenFrom(run, steps, k - 1, j), s.services[j].outbox, []);
      } else if step == Signal(j) {
        Regroup(TakenFrom(run, steps, k - 1, j), s.services[j].outbox, [HandlerSends(s.services[j])]);
      }
    }
  }

  lemma Regroup(a: seq<Object>, b: seq<Object>, c: seq<Object>)
    ensures b != [] ==> a + [b[0]] + b[1..] == a + b
    ensures a + (b + c) == a + b + c
  {
  }

  lemma NotBoth(s: System, step: Step, j: nat)
    requires TakesFrom(s, step, j)
    ensures step != Signal(j)
  {
  }

  /** The process ids of the services that have connected before state `k`, in order. */
  function ConnectedBefore(steps: seq<Step>, k: nat): seq<int>
    requires k <= |steps|
  {
    if k == 0 then []
    else ConnectedBefore(steps, k - 1) + if steps[k - 1].Connect? then [Pid(steps[k - 1].j)] else []
  }

  function Pids(door: seq<nat>): seq<int> {
    seq(|door|, k requires 0 <= k < |door| => Pid(door[k]))
  }

  lemma DoorMoves(s: System, step: Step)
    requires Enabled(s, step)
    ensures var s' := Apply(s, step);
      s'.iss.pids + Pids(s'.door) == s.iss.pids + Pids(s.door) + if step.Connect? then [Pid(step.j)] else []
  {
    hide Pids;
    PidsMove(s.iss.pids, s.door, if step.Connect? then step.j else 0);
    assert s.iss.pids + Pids(s.door) + [] == s.iss.pids + Pids(s.door);
  }

  lemma PidsMove(pids: seq<int>, door: seq<nat>, j: nat)
    ensures Pids([]) == []
    ensures door != [] ==> pids + [Pid(door[0])] + Pids(door[1..]) == pids + Pids(door)
    ensures pids + Pids(door + [j]) == pids + Pids(door) + [Pid(j)]
  {
    assert door != [] ==> Pids(door) == [Pid(door[0])] + Pids(door[1..]);
    assert Pids(door + [j]) == Pids(door) + [Pid(j)];
  }

  /** Services are registered in the order in which they connected. */
  lemma {:induction false} RegisteredInOrder(run: seq<System>, steps: seq<Step>, k: nat)
    requires IsRun(run, steps) && k < |run|
    ensures run[k].iss.pids + Pids(run[k].door) == ConnectedBefore(steps, k)
  {
    hide Enabled, Apply, Pids;
    if k == 0 {
      PidsMove([], [], 0);
    } else {
      assert Enabled(run[k - 1], steps[k - 1]) && run[k] == Apply(run[k - 1], steps[k - 1]);
      RegisteredInOrder(run, steps, k - 1);
      DoorMoves(run[k - 1], steps[k - 1]);
    }
  }
}

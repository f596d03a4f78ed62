/** Runs of the hand-off protocol: one that works, and some in which an announcement comes too early. */
module HandoffRuns {
  import opened Handoff
  import opened HandoffInvariant
  import S = ServiceProcess
  import I = IssProcess
  import T = TracerProcess

  const UNIX := 3
  const FIFO := 4

  function IdleProcess(): Process {
    Process(Idle, S.ServiceState(0, 0, [], false, 0, {}, 0), map[0 := StandardInput], false, [], [])
  }

  function TwoServices(): System {
    System([8000, 8001], [IdleProcess(), IdleProcess()],
           I.IssState(UNIX, FIFO, [], [], [], [], seq(I.PORT_LIMIT, _ => 0), FIFO, {UNIX, FIFO}, 0),
           Waiting, map[0 := StandardInput, UNIX := Door, FIFO := Pipe], [],
           T.TracerState(seq(0x1_0000, _ => false), []), 0, [], 0)
  }

  lemma StartRun() returns (run: seq<System>, steps: seq<Step>)
    ensures IsRun(run, steps) && run == [TwoServices()]
  {
    run, steps := [TwoServices()], [];
  }

  lemma ExtendRun(run: seq<System>, steps: seq<Step>, step: Step)
    returns (run': seq<System>, steps': seq<Step>)
    requires IsRun(run, steps) && Enabled(run[|run| - 1], step)
    ensures IsRun(run', steps') && run' != [] && run'[|run'| - 1] == Apply(run[|run| - 1], step)
  {
    hide Initial, Enabled, Apply;
    run', steps' := run + [Apply(run[|run| - 1], step)], steps + [step];
    forall k | 0 <= k < |steps'|
      ensures Enabled(run'[k], steps'[k]) && run'[k + 1] == Apply(run'[k], steps'[k])
    {
      if k < |steps| { assert Enabled(run[k], steps[k]) && run[k + 1] == Apply(run[k], steps[k]); }
    }
  }

  /** Service 0, registered by the super server. */
  predicate Registered0(p: Process) {
    && p.st == S.ServiceState(10, p.st.sfd, [], false, p.st.maxfp1, p.st.readset, 0)
    && p.fds.Keys <= {0, 10, 11} && p.inbox == [] && p.outbox == []
    && (p.phase.Connected? ==>
          p.st.sfd == 0 && p.fds == map[0 := StandardInput, 10 := Link(0)] && p.st.readset == {10} && p.st.maxfp1 == 10)
    && (p.phase.Selecting? ==>
          p.st.sfd == 11 && Obj(p.fds, 11) == Listener(0) && p.st.readset == {10, 11} && p.st.maxfp1 == 11)
  }

  /** The super server knows service 0 alone, on its descriptor 5. */
  predicate KnowsFirst(s: System) {
    && s.portOf == [8000, 8001] && Registered(s, 8000) && |s.services| == 2 && s.services[1] == IdleProcess()
    && s.iss.usfd == UNIX && s.iss.fifo == FIFO && s.iss.pids == [Pid(0)] && s.iss.nusfd == [5]
    && |s.iss.slots| == I.PORT_LIMIT && s.iss.slots[8000] == 0 && s.iss.slots[8001] == 0
    && Obj(s.issFds, 5) == Link(0) && s.door == [] && s.log == [] && s.nextId == 0
  }

  /** Service 0 has introduced itself, but does not listen; `port` was announced before all that. */
  predicate AnnouncedEarly(s: System, port: T.Port) {
    && KnowsFirst(s) && Registered0(s.services[0]) && s.services[0].phase.Connected? && !s.services[0].signalled
    && s.issPhase.AtFifo? && s.iss.readset == {UNIX, FIFO} && s.iss.maxfp1 == FIFO && s.iss.sto == 0
    && s.iss.ports == [] && s.iss.sfd == [] && s.issFds.Keys == {0, UNIX, FIFO, 5}
    && s.tracer.written == [port] && s.read == 0
  }

  /** A port is announced, then the first service introduces itself. */
  lemma ConnectFirst(port: T.Port) returns (run: seq<System>, steps: seq<Step>)
    ensures IsRun(run, steps)
    ensures var s, s0 := run[|run| - 1], TwoServices();
      && s == s0.(services := s.services, door := [0], tracer := s.tracer) && s.tracer.written == [port]
      && |s.services| == 2 && Registered0(s.services[0]) && s.services[0].phase.Connected? && !s.services[0].signalled
      && s.services[1] == IdleProcess()
  {
    hide IsRun;
    run, steps := StartRun();
    run, steps := ExtendRun(run, steps, Packet(port));
    run, steps := ExtendRun(run, steps, Connect(0, 10));
  }

  lemma IntroduceEarly(port: T.Port) returns (run: seq<System>, steps: seq<Step>)
    ensures IsRun(run, steps) && AnnouncedEarly(run[|run| - 1], port)
  {
    hide IsRun;
    run, steps := ConnectFirst(port);
    assert TwoServices().iss.slots[8000] == TwoServices().iss.slots[8001] == 0;
    run, steps := ExtendRun(run, steps, IssSelect({UNIX, FIFO}));
    run, steps := ExtendRun(run, steps, IssDoor(5));
  }

  /** The super server has taken `o` over for `port`. */
  predicate TookOver(s: System, port: T.Port, o: Object) {
    && KnowsFirst(s) && Registered0(s.services[0])
    && s.issPhase == Forwarding(0) && s.iss.readset == {UNIX, FIFO, 6} && s.iss.maxfp1 == 6 && s.iss.sto == 0
    && s.iss.ports == [port] && s.iss.sfd == [6] && Obj(s.issFds, 6) == o && s.issFds.Keys == {0, UNIX, FIFO, 5, 6}
  }

  /** `port` is at the head of the FIFO, whatever service 0 is doing. */
  predicate AboutToRead(s: System, port: T.Port) {
    && KnowsFirst(s) && Registered0(s.services[0]) && port in {8000, 8001}
    && s.issPhase.AtFifo? && s.iss.readset == {UNIX, FIFO} && s.iss.maxfp1 == FIFO && s.iss.sto == 0
    && s.iss.ports == [] && s.iss.sfd == [] && s.issFds.Keys == {0, UNIX, FIFO, 5}
    && s.tracer.written == [port] && s.read == 0
  }

  /** The port is read and the signal handled. */
  lemma ReadAndSignal(run: seq<System>, steps: seq<Step>, port: T.Port) returns (run': seq<System>, steps': seq<Step>)
    requires IsRun(run, steps) && AboutToRead(run[|run| - 1], port)
    ensures IsRun(run', steps')
    ensures var s, s' := run[|run| - 1], run'[|run'| - 1];
      && s' == s.(issPhase := Awaiting(port), read := 1, services := s'.services)
      && |s'.services| == 2 && s'.services[1] == s.services[1]
      && s'.services[0] == s.services[0].(signalled := false, outbox := [HandlerSends(s.services[0])])
  {
    hide IsRun;
    run', steps' := ExtendRun(run, steps, IssRead);
    run', steps' := ExtendRun(run', steps', Signal(0));
  }

  lemma TakeFirst(s: System, port: T.Port, o: Object)
    requires KnowsFirst(s) && s.issPhase == Awaiting(port) && port in {8000, 8001}
    requires Registered0(s.services[0].(outbox := [])) && s.services[0].outbox == [o]
    requires s.iss.readset == {UNIX, FIFO} && s.iss.maxfp1 == FIFO && s.iss.sto == 0
    requires s.iss.ports == [] && s.iss.sfd == [] && s.issFds.Keys == {0, UNIX, FIFO, 5}
    ensures Enabled(s, IssTake(6, true)) && TookOver(Apply(s, IssTake(6, true)), port, o)
    ensures Apply(s, IssTake(6, true)).services[0].phase == s.services[0].phase
  {
    hide Registered, LinkFor;
    StillKnown(s, s, port);
    StillKnown(s, Apply(s, IssTake(6, true)), port);
  }

  lemma StillKnown(s: System, s': System, port: T.Port)
    requires KnowsFirst(s) && port in {8000, 8001} && s'.portOf == s.portOf && s'.iss.pids == s.iss.pids
    ensures LinkFor(s, port) == Link(0) && Registered(s', 8000)
  {
  }

  /** Then what the handler sent is taken over. */
  lemma SignalAndTake(run: seq<System>, steps: seq<Step>, port: T.Port) returns (run': seq<System>, steps': seq<Step>)
    requires IsRun(run, steps) && AboutToRead(run[|run| - 1], port)
    ensures IsRun(run', steps')
    ensures TookOver(run'[|run'| - 1], port, HandlerSends(run[|run| - 1].services[0]))
    ensures run'[|run'| - 1].services[0].phase == run[|run| - 1].services[0].phase
  {
    hide Initial, Enabled, Apply, TookOver;
    run', steps' := ReadAndSignal(run, steps, port);
    TakeFirst(run'[|run'| - 1], port, HandlerSends(run[|run| - 1].services[0]));
    run', steps' := ExtendRun(run', steps', IssTake(6, true));
  }

  /** The port is announced before its owner registers or not, but service 0 listens before it is read. */
  lemma TakeListener(port: T.Port) returns (run: seq<System>, steps: seq<Step>)
    requires port in {8000, 8001}
    ensures IsRun(run, steps) && TookOver(run[|run| - 1], port, Listener(0))
    ensures run[|run| - 1].services[0].phase.Selecting?
  {
    hide IsRun;
    run, steps := IntroduceEarly(port);
    run, steps := ExtendRun(run, steps, Listen(0, 11));
    run, steps := SignalAndTake(run, steps, port);
  }

  // ----- a run that delivers a client

  /** A client is accepted on the taken socket and is under way to the service. */
  lemma AcceptClient() returns (run: seq<System>, steps: seq<Step>)
    ensures IsRun(run, steps)
    ensures var s, c := run[|run| - 1], Client(0, 0, true);
      && s.log == [Handover(c, 0)] && |s.services| == 2
      && Registered0(s.services[0].(inbox := [])) && s.services[0].phase.Selecting? && s.services[0].inbox == [c]
  {
    hide IsRun;
    run, steps := TakeListener(8000);
    run, steps := ExtendRun(run, steps, IssLoop);
    run, steps := ExtendRun(run, steps, IssSelect({6}));
    run, steps := ExtendRun(run, steps, IssDoor(7));
    run, steps := ExtendRun(run, steps, IssRead);
    run, steps := ExtendRun(run, steps, IssForward(7, true));
  }

  /** The protocol at work: a client accepted by the super server ends up in the table of the service. */
  lemma ClientDelivered() returns (run: seq<System>, steps: seq<Step>)
    ensures IsRun(run, steps)
    ensures var s, c := run[|run| - 1], Client(0, 0, true);
      && |s.services| == 2 && s.log == [Handover(c, 0)]
      && ReceivedBy(s.services[0]) == [c] && s.services[0].inbox == []
  {
    hide IsRun, Via, Objects;
    run, steps := AcceptClient();
    run, steps := ExtendRun(run, steps, ServiceSelect(0, {10}));
    run, steps := ExtendRun(run, steps, ServiceAccept(0, 12));
    run, steps := ExtendRun(run, steps, ServiceReceive(0, 12, true));
    OneReceived(run[|run| - 1].services[0], 12);
  }

  lemma OneReceived(p: Process, fd: int)
    requires p.st.nsfd == [fd] && Passed(Obj(p.fds, fd))
    ensures ReceivedBy(p) == [Obj(p.fds, fd)]
  {
    ViaAppend([], Obj(p.fds, fd), true);
    assert Objects([fd], p.fds) == [] + [Obj(p.fds, fd)];
  }

  // ----- announcements that come too early

  /**
   * Before a service listens, its signal handler sends descriptor 0: here the super server has
   * taken over, for the registered port 8000, something that is no listening socket.
   */
  lemma EarlySignalTakesInput() returns (run: seq<System>, steps: seq<Step>)
    ensures IsRun(run, steps)
    ensures var s := run[|run| - 1];
      Registered(s, 8000) && s.iss.ports == [8000] && s.iss.sfd == [6] && Obj(s.issFds, 6) == StandardInput
  {
    hide IsRun;
    run, steps := IntroduceEarly(8000);
    run, steps := SignalAndTake(run, steps, 8000);
  }

  /** A port is announced, and the super server begins a round in which only the FIFO is ready. */
  lemma OnlyAnnounced() returns (run: seq<System>, steps: seq<Step>)
    ensures IsRun(run, steps)
    ensures var s := run[|run| - 1];
      && s.issPhase.AtDoor? && s.iss.readset == {FIFO} && s.iss.usfd == UNIX && s.iss.fifo == FIFO
      && s.iss.pids == [] && s.tracer.written == [8000] && s.read == 0
  {
    hide IsRun;
    run, steps := StartRun();
    run, steps := ExtendRun(run, steps, Packet(8000));
    run, steps := ExtendRun(run, steps, IssSelect({FIFO}));
  }

  /** A port read before anybody has registered ends the super server. */
  lemma EarlyReadEnds() returns (run: seq<System>, steps: seq<Step>)
    ensures IsRun(run, steps) && run[|run| - 1].issPhase.Ended?
  {
    hide IsRun;
    run, steps := OnlyAnnounced();
    run, steps := ExtendRun(run, steps, IssDoor(5));
    run, steps := ExtendRun(run, steps, IssRead);
  }

  /** Both services are registered, but the socket of the first stands for the port of the second. */
  predicate CrossedOver(s: System) {
    && s.portOf == [8000, 8001] && |s.services| == 2 && s.services[1].inbox == []
    && s.iss.usfd == UNIX && s.iss.fifo == FIFO && s.iss.pids == [Pid(0), Pid(1)] && s.iss.nusfd == [5, 7]
    && |s.iss.slots| == I.PORT_LIMIT && s.iss.slots[8001] == 1 && Obj(s.issFds, 7) == Link(1)
    && s.iss.ports == [8001] && s.iss.sfd == [6] && Obj(s.issFds, 6) == Listener(0) && 8 !in s.issFds
    && s.iss.maxfp1 == 6 && s.log == [] && s.nextId == 0
  }

  /** Port 8001 is read while only the first service has registered; then the second registers. */
  lemma CrossOver() returns (run: seq<System>, steps: seq<Step>)
    ensures IsRun(run, steps)
    ensures var s := run[|run| - 1];
      CrossedOver(s) && s.issPhase.AtFifo? && s.iss.readset == {UNIX} && s.iss.sto == 1
  {
    hide IsRun;
    run, steps := TakeListener(8001);
    run, steps := ExtendRun(run, steps, IssLoop);
    run, steps := ExtendRun(run, steps, Connect(1, 10));
    run, steps := ExtendRun(run, steps, IssSelect({UNIX}));
    run, steps := ExtendRun(run, steps, IssDoor(7));
  }

  /** The round ends with everything watched again. */
  lemma CrossOverWaits() returns (run: seq<System>, steps: seq<Step>)
    ensures IsRun(run, steps)
    ensures var s := run[|run| - 1];
      CrossedOver(s) && s.issPhase.Waiting? && s.iss.readset == {UNIX, FIFO, 6}
  {
    hide IsRun;
    run, steps := CrossOver();
    run, steps := ExtendRun(run, steps, IssRead);
    run, steps := ExtendRun(run, steps, IssForward(8, false));
    run, steps := ExtendRun(run, steps, IssLoop);
  }

  /**
   * An early announcement misroutes for good: here both owners have registered, and a client of
   * the first service is under way to the second.
   */
  lemma EarlyReadMisdelivers() returns (run: seq<System>, steps: seq<Step>)
    ensures IsRun(run, steps)
    ensures var s, c := run[|run| - 1], Client(0, 0, true);
      && s.portOf == [8000, 8001] && Registered(s, 8000) && Registered(s, 8001)
      && s.log == [Handover(c, 1)] && |s.services| == 2 && s.services[1].inbox == [c]
  {
    hide IsRun;
    run, steps := CrossOverWaits();
    run, steps := ExtendRun(run, steps, IssSelect({6}));
    run, steps := ExtendRun(run, steps, IssDoor(8));
    run, steps := ExtendRun(run, steps, IssRead);
    run, steps := ExtendRun(run, steps, IssForward(8, true));
  }

}

/** The invariant of the hand-off protocol, kept by every step of every process. */
module HandoffInvariant {
  import opened Descriptors
  import opened Handoff
  import S = ServiceProcess
  import I = IssProcess
  import T = TracerProcess

  function Objects(fds: seq<int>, table: map<int, Object>): (r: seq<Object>)
  {
    seq(|fds|, k requires 0 <= k < |fds| => Obj(table, fds[k]))
  }

  /** The clients among `objs` that the super server accepted, or those it did not, in order. */
  function Via(objs: seq<Object>, viaIss: bool): seq<Object> {
    if objs == [] then []
    else
      var o := objs[|objs| - 1];
      Via(objs[..|objs| - 1], viaIss) + if o.Client? && o.viaIss == viaIss then [o] else []
  }

  /** The clients that were handed over to service `j`, in order. */
  function SentTo(log: seq<Handover>, j: nat): seq<Object> {
    if log == [] then []
    else
      var h := log[|log| - 1];
      SentTo(log[..|log| - 1], j) + if h.to == j then [h.client] else []
  }

  /** The clients in the table of a service that came from the super server, oldest first. */
  function ReceivedBy(p: Process): seq<Object> {
    Via(Objects(p.st.nsfd, p.fds), true)
  }

  function AcceptedBy(p: Process): seq<Object> {
    Via(Objects(p.st.nsfd, p.fds), false)
  }

  // ----- the invariant, component by component

  predicate StageOk(p: Process) {
    match p.phase
    case Selecting => S.AtSelect(p.st)
    case Accepting => S.MidRound(p.st, 0)
    case Receiving => S.MidRound(p.st, 1)
    case Rearming => S.MidRound(p.st, 2)
    case Connected => p.st.readset == {p.st.usfd} && p.st.maxfp1 == p.st.usfd && p.st.nsfd == [] && !p.st.f
    case Idle => p.st.nsfd == [] && !p.st.f
  }

  /** Descriptors refer to what the process believes they refer to. */
  predicate TableOk(p: Process, j: nat) {
    && Obj(p.fds, 0) == StandardInput
    && (!p.phase.Idle? ==> Obj(p.fds, p.st.usfd) == Link(j))
    && (if Running(p) then Obj(p.fds, p.st.sfd) == Listener(j) else p.st.sfd == 0)
    && (forall k :: 0 <= k < |p.st.nsfd| ==> OwnOrPassed(Obj(p.fds, p.st.nsfd[k]), j))
  }

  /** A client that service `j` accepted on its own socket, or that was passed to it. */
  predicate OwnOrPassed(o: Object, j: nat) {
    o.Client? && (o.viaIss || o.service == j)
  }

  predicate Passed(o: Object) {
    o.Client? && o.viaIss
  }

  /** What the signal handler of service `j` can send: its listening socket, or too early a 0. */
  predicate Sendable(o: Object, j: nat) {
    o == Listener(j) || o == StandardInput
  }

  predicate ChannelsOk(p: Process, j: nat) {
    && (forall k :: 0 <= k < |p.inbox| ==> Passed(p.inbox[k]))
    && (forall k :: 0 <= k < |p.outbox| ==> Sendable(p.outbox[k], j))
  }

  ghost predicate ProcessOk(p: Process, j: nat) {
    && StageOk(p) && TableOk(p, j) && ChannelsOk(p, j)
    && |AcceptedBy(p)| == (if p.st.f then 1 else 0)
  }

  ghost predicate ProcessesOk(s: System) {
    && |s.services| == |s.portOf|
    && forall j :: 0 <= j < |s.services| ==> ProcessOk(s.services[j], j)
  }

  /** The table leads from `port` to the slot of a service that was started with it. */
  predicate Routed(s: System, port: int) {
    && 0 <= port < |s.iss.slots|
    && var k := s.iss.slots[port];
       k < |s.iss.pids| && 1 <= s.iss.pids[k] <= |s.portOf| && s.portOf[s.iss.pids[k] - 1] == port
  }

  /** Slot `k` holds the Unix connection of a service, and the table leads from its port to such a service. */
  predicate SlotOk(s: System, k: nat)
    requires I.Tables(s.iss) && k < |s.iss.pids|
  {
    var pid := s.iss.pids[k];
    && 1 <= pid <= |s.portOf|
    && Obj(s.issFds, s.iss.nusfd[k]) == Link(pid - 1)
    && Routed(s, s.portOf[pid - 1])
  }

  ghost predicate SlotsOk(s: System) {
    && I.Tables(s.iss)
    && (forall k :: 0 <= k < |s.iss.pids| ==> SlotOk(s, k))
    && (forall p {:trigger Routed(s, p)} :: 0 <= p < I.PORT_LIMIT && s.iss.slots[p] != 0 ==> Routed(s, p))
  }

  /** The table names some service for `port`, of that port or not. */
  predicate Named(s: System, port: int) {
    0 <= port < |s.iss.slots| && s.iss.slots[port] < |s.iss.pids|
  }

  /** The service that the table names. */
  function NamedService(s: System, port: int): int
    requires Named(s, port)
  {
    s.iss.pids[s.iss.slots[port]] - 1
  }

  /** What stands at `fd` was taken over for `port` and comes from some service. */
  predicate Takes(s: System, port: int, fd: int) {
    && Named(s, port)
    && var o := Obj(s.issFds, fd);
       o == StandardInput || (o.Listener? && o.service < |s.portOf|)
  }

  ghost predicate TakenOk(s: System) {
    && |s.iss.ports| == |s.iss.sfd| && Distinct(s.iss.sfd)
    && Obj(s.issFds, s.iss.usfd) == Door && Obj(s.issFds, s.iss.fifo) == Pipe
    && (forall i :: 0 <= i < |s.iss.ports| ==> Takes(s, s.iss.ports[i], s.iss.sfd[i]))
    && (s.issPhase.Awaiting? ==> Named(s, s.issPhase.port))
  }

  predicate IssStageOk(s: System) {
    match s.issPhase
    case Waiting => I.AtSelect(s.iss)
    case AtDoor => I.MidRound(s.iss, 0, 0)
    case AtFifo => I.MidRound(s.iss, 1, 0)
    case Awaiting(_) => I.MidRound(s.iss, 1, 0) && s.iss.fifo in s.iss.readset
    case Forwarding(i) => I.MidRound(s.iss, 2, i)
    case Ended => true
  }

  predicate Started(s: System, j: int) {
    0 <= j < |s.services| && !s.services[j].phase.Idle?
  }

  /** A service introduces itself once: it is idle, at the door, or registered. */
  ghost predicate DoorOk(s: System) {
    && Distinct(s.door) && Distinct(s.iss.pids)
    && (forall k :: 0 <= k < |s.door| ==> Started(s, s.door[k]) && Pid(s.door[k]) !in s.iss.pids)
    && (forall k :: 0 <= k < |s.iss.pids| ==> Started(s, s.iss.pids[k] - 1))
  }

  /** Ports are announced once and taken over at most once, and only started services are signalled. */
  ghost predicate FifoOk(s: System) {
    && T.OnceOnly(s.tracer) && s.read <= |s.tracer.written|
    && Distinct(s.iss.ports)
    && (forall i :: 0 <= i < |s.iss.ports| ==> s.iss.ports[i] in s.tracer.written[..s.read])
    && (s.issPhase.Awaiting? ==>
          s.issPhase.port in s.tracer.written[..s.read] && s.issPhase.port !in s.iss.ports)
    && (forall j :: 0 <= j < |s.services| && s.services[j].signalled ==> Started(s, j))
  }

  /** What a service got, and what is still under way to it, is what was handed over to it. */
  ghost predicate Conserved(s: System) {
    forall j :: 0 <= j < |s.services| ==>
      ReceivedBy(s.services[j]) + s.services[j].inbox == SentTo(s.log, j)
  }

  /** The client of a handover came in on the socket of a service and was sent to one. */
  predicate HandoverOk(s: System, h: Handover) {
    Passed(h.client) && h.client.id < s.nextId && h.client.service < |s.services| && h.to < |s.services|
  }

  /** Clients of the log have ever increasing identities. */
  predicate LogOk(s: System) {
    && (forall a :: 0 <= a < |s.log| ==> HandoverOk(s, s.log[a]))
    && (forall a, b :: 0 <= a < b < |s.log| ==> s.log[a].client.id < s.log[b].client.id)
  }

  ghost predicate Inv(s: System) {
    && ProcessesOk(s) && SlotsOk(s) && TakenOk(s) && IssStageOk(s)
    && DoorOk(s) && FifoOk(s) && Conserved(s) && LogOk(s)
  }

  // ----- table updates

  lemma ObjectsAppend(fds: seq<int>, table: map<int, Object>, fd: int, o: Object)
    requires fd !in table && forall k :: 0 <= k < |fds| ==> !Obj(table, fds[k]).Nothing?
    ensures Objects(fds + [fd], table[fd := o]) == Objects(fds, table) + [o]
  {
  }

  lemma ViaAppend(objs: seq<Object>, o: Object, viaIss: bool)
    ensures Via(objs + [o], viaIss) == Via(objs, viaIss) + if o.Client? && o.viaIss == viaIss then [o] else []
  {
  }

  lemma NewClient(p: Process, j: nat, fd: int, o: Object)
    requires TableOk(p, j) && !p.phase.Idle? && fd !in p.fds && o.Client?
    ensures S.Fresh(p.st, fd) || !Running(p)
    ensures Via(Objects(p.st.nsfd + [fd], p.fds[fd := o]), true) == ReceivedBy(p) + if o.viaIss then [o] else []
    ensures Via(Objects(p.st.nsfd + [fd], p.fds[fd := o]), false) == AcceptedBy(p) + if o.viaIss then [] else [o]
  {
    assert forall k :: 0 <= k < |p.st.nsfd| ==> p.st.nsfd[k] in p.fds;
    ObjectsAppend(p.st.nsfd, p.fds, fd, o);
    ViaAppend(Objects(p.st.nsfd, p.fds), o, true);
    ViaAppend(Objects(p.st.nsfd, p.fds), o, false);
  }

  // ----- steps of a service

  lemma AcceptStepOk(p: Process, j: nat, step: Step, id: nat)
    requires ProcessOk(p, j) && step.ServiceAccept? && ServiceEnabled(p, step)
    ensures var p' := ServiceApply(p, j, step, id);
      ProcessOk(p', j) && ReceivedBy(p') == ReceivedBy(p)
  {
    if p.st.sfd in p.st.readset {
      NewClient(p, j, step.fd, Client(id, j, false));
      assert TableOk(ServiceApply(p, j, step, id), j);
      S.AcceptKeeps(p.st, step.fd);
    }
  }

  ghost predicate TookFromInbox(p: Process, p': Process, fd: int) {
    && p.inbox != [] && fd !in p.fds && Running(p)
    && p' == p.(phase := Rearming, st := S.AddClient(p.st, fd),
                fds := p.fds[fd := p.inbox[0]], inbox := p.inbox[1..])
  }

  lemma ReceivedMoves(p: Process, p': Process, j: nat, fd: int)
    requires TableOk(p, j) && ChannelsOk(p, j) && TookFromInbox(p, p', fd)
    ensures ReceivedBy(p') + p'.inbox == ReceivedBy(p) + p.inbox
    ensures AcceptedBy(p') == AcceptedBy(p)
  {
    NewClient(p, j, fd, p.inbox[0]);
    assert p.inbox == [p.inbox[0]] + p.inbox[1..];
    assert ReceivedBy(p') + p'.inbox == ReceivedBy(p) + ([p.inbox[0]] + p.inbox[1..]);
  }

  lemma ReceivedOk(p: Process, p': Process, j: nat, fd: int)
    requires ProcessOk(p, j) && p.phase.Receiving? && p.st.usfd in p.st.readset
    requires TookFromInbox(p, p', fd)
    ensures ProcessOk(p', j)
  {
    S.ReceiveKeeps(p.st, S.Received(fd));
    assert TableOk(p', j);
    ReceivedMoves(p, p', j, fd);
  }

  lemma ReceiveStepOk(p: Process, j: nat, step: Step, id: nat)
    requires ProcessOk(p, j) && step.ServiceReceive? && ServiceEnabled(p, step)
    ensures var p' := ServiceApply(p, j, step, id);
      ProcessOk(p', j) && ReceivedBy(p') + p'.inbox == ReceivedBy(p) + p.inbox
  {
    if p.st.usfd in p.st.readset && step.ok {
      ReceivedMoves(p, ServiceApply(p, j, step, id), j, step.fd);
      ReceivedOk(p, ServiceApply(p, j, step, id), j, step.fd);
    } else {
      S.ReceiveKeeps(p.st, S.Failed);
    }
  }

  lemma ServiceStepOk(p: Process, j: nat, step: Step, id: nat)
    requires ProcessOk(p, j) && ServiceEnabled(p, step) && (p.signalled ==> !p.phase.Idle?)
    ensures var p' := ServiceApply(p, j, step, id);
      && ProcessOk(p', j)
      && ReceivedBy(p') + p'.inbox == ReceivedBy(p) + p.inbox
      && (Running(p) ==> Running(p')) && !p'.phase.Idle? && (p'.signalled ==> p.signalled)
  {
    match step
    case ServiceAccept(_, _) => AcceptStepOk(p, j, step, id);
    case Listen(_, _) =>
    case ServiceReceive(_, _, _) => ReceiveStepOk(p, j, step, id);
    case ServiceSelect(_, ready) =>
      S.SelectedIsMidRound(p.st, ready);
    case ServiceRearm(_) =>
      S.RearmCompletes(p.st);
    case _ =>
  }

  /** `s'` differs from `s` in service `j`, which has only moved forward, and maybe at the door. */
  ghost predicate ServiceMoved(s: System, s': System, j: nat) {
    && j < |s.services| && |s'.services| == |s.services|
    && (forall k :: 0 <= k < |s.services| && k != j ==> s'.services[k] == s.services[k])
    && s'.portOf == s.portOf && s'.iss == s.iss && s'.issPhase == s.issPhase && s'.issFds == s.issFds
    && s'.tracer == s.tracer && s'.read == s.read && s'.log == s.log && s'.nextId >= s.nextId
    && var p, p' := s.services[j], s'.services[j];
       (Running(p) ==> Running(p')) && !p'.phase.Idle? && (p'.signalled ==> p.signalled)
  }

  lemma MovedKeepsTables(s: System, s': System, j: nat)
    requires ServiceMoved(s, s', j) && SlotsOk(s) && TakenOk(s) && IssStageOk(s) && LogOk(s)
    ensures SlotsOk(s') && TakenOk(s') && IssStageOk(s') && LogOk(s')
  {
    SameTables(s, s');
  }

  lemma MovedKeepsDoor(s: System, s': System, j: nat)
    requires ServiceMoved(s, s', j) && DoorOk(s)
    requires s'.door == s.door || (s'.door == s.door + [j] && s.services[j].phase.Idle?)
    ensures DoorOk(s')
  {
  }

  lemma ServiceStepMoves(s: System, step: Step)
    requires ProcessesOk(s) && FifoOk(s) && IsServiceStep(step) && Enabled(s, step)
    ensures var s', j := Apply(s, step), step.j;
      && ServiceMoved(s, s', j) && ProcessOk(s'.services[j], j)
      && ReceivedBy(s'.services[j]) + s'.services[j].inbox == ReceivedBy(s.services[j]) + s.services[j].inbox
      && (s'.door == s.door || (s'.door == s.door + [j] && s.services[j].phase.Idle?))
  {
    hide ProcessOk, ReceivedBy;
    assert ProcessOk(s.services[step.j], step.j);
    ServiceStepOk(s.services[step.j], step.j, step, s.nextId);
  }

  lemma MovedInv(s: System, s': System, j: nat)
    requires Inv(s) && ServiceMoved(s, s', j) && ProcessOk(s'.services[j], j)
    requires ReceivedBy(s'.services[j]) + s'.services[j].inbox == ReceivedBy(s.services[j]) + s.services[j].inbox
    requires s'.door == s.door || (s'.door == s.door + [j] && s.services[j].phase.Idle?)
    ensures Inv(s')
  {
    MovedKeepsTables(s, s', j);
    MovedKeepsDoor(s, s', j);
  }

  lemma ServiceStepInv(s: System, step: Step)
    requires Inv(s) && IsServiceStep(step) && Enabled(s, step)
    ensures Inv(Apply(s, step))
  {
    ServiceStepMoves(s, step);
    MovedInv(s, Apply(s, step), step.j);
  }

  // ----- steps of the tracer and the super server

  lemma PacketStepInv(s: System, step: Step)
    requires Inv(s) && step.Packet? && Enabled(s, step)
    ensures Inv(Apply(s, step))
  {
    var s' := Apply(s, step);
    PacketKeepsFifo(s, s', step.port);
    SameTables(s, s');
  }

  lemma PacketKeepsFifo(s: System, s': System, port: T.Port)
    requires FifoOk(s) && s' == s.(tracer := T.Announce(s.tracer, port))
    ensures FifoOk(s')
  {
    T.AnnounceOnce(s.tracer, port);
    assert s'.tracer.written[..s.read] == s.tracer.written[..s.read];
  }

  /** The super server's tables in `s'` extend those of `s`, with no new slot. */
  ghost predicate TablesKept(s: System, s': System) {
    && s'.portOf == s.portOf
    && s'.iss.slots == s.iss.slots && s'.iss.pids == s.iss.pids && s'.iss.nusfd == s.iss.nusfd
    && s'.iss.ports == s.iss.ports && s'.iss.sfd == s.iss.sfd
    && s'.iss.usfd == s.iss.usfd && s'.iss.fifo == s.iss.fifo
    && (forall fd :: fd in s.issFds ==> fd in s'.issFds && s'.issFds[fd] == s.issFds[fd])
  }

  lemma SlotsKept(s: System, s': System)
    requires TablesKept(s, s') && SlotsOk(s)
    ensures SlotsOk(s')
    ensures forall p :: Routed(s', p) <==> Routed(s, p)
  {
    forall k | 0 <= k < |s.iss.pids|
      ensures SlotOk(s', k)
    {
      assert SlotOk(s, k);
    }
    forall p
      ensures Routed(s', p) <==> Routed(s, p)
    {
    }
  }

  lemma SameTables(s: System, s': System)
    requires TablesKept(s, s') && s'.issPhase == s.issPhase && s'.iss == s.iss
    requires SlotsOk(s) && TakenOk(s) && IssStageOk(s)
    ensures SlotsOk(s') && TakenOk(s') && IssStageOk(s')
  {
    SlotsKept(s, s');
  }

  /** The services of `s'` are those of `s`, up to signals and to descriptors under way. */
  ghost predicate ServicesKept(s: System, s': System) {
    && |s'.services| == |s.services| == |s.portOf| && s'.portOf == s.portOf
    && forall j :: 0 <= j < |s.services| ==> s'.services[j].phase == s.services[j].phase
  }

  /** Steps that only move the super server on and put something back into its read set. */
  lemma IssMovesOn(s: System, s': System)
    requires Inv(s) && IssStageOk(s') && !s'.issPhase.Awaiting?
    requires s' == s.(issPhase := s'.issPhase, iss := s'.iss)
    requires s'.iss == s.iss.(readset := s'.iss.readset, sto := s'.iss.sto)
    ensures Inv(s')
  {
    SlotsKept(s, s');
  }

  lemma RegisterSlots(s: System, s': System, j: nat, fd: int)
    requires SlotsOk(s) && j < |s.portOf|
    requires fd !in s.issFds && s'.issFds == s.issFds[fd := Link(j)]
    requires s'.portOf == s.portOf && s'.iss == I.Register(s.iss, fd, s.portOf[j], Pid(j))
    ensures SlotsOk(s')
  {
    forall k | 0 <= k < |s'.iss.pids|
      ensures SlotOk(s', k)
    {
      if k < |s.iss.pids| { assert SlotOk(s, k); }
    }
    forall p | 0 <= p < I.PORT_LIMIT && s'.iss.slots[p] != 0
      ensures Routed(s', p)
    {
      if p != s.portOf[j] { assert Routed(s, p); }
    }
  }

  lemma RegisterDoor(s: System, s': System)
    requires DoorOk(s) && s.door != [] && s'.door == s.door[1..]
    requires s'.services == s.services && s'.iss.pids == s.iss.pids + [Pid(s.door[0])]
    ensures DoorOk(s')
  {
  }

  lemma RegisterInv(s: System, s': System, j: nat, fd: int)
    requires Inv(s) && s.issPhase.AtDoor? && s.iss.usfd in s.iss.readset
    requires s.door != [] && s.door[0] == j < |s.portOf| && fd !in s.issFds
    requires s' == s.(issPhase := AtFifo, door := s.door[1..], issFds := s.issFds[fd := Link(j)],
                      iss := I.Register(s.iss, fd, s.portOf[j], Pid(j)))
    ensures Inv(s')
  {
    assert Started(s, s.door[0]) && Pid(s.door[0]) !in s.iss.pids;
    RegisterSlots(s, s', j, fd);
    RegisterDoor(s, s');
  }

  lemma DoorStepInv(s: System, step: Step)
    requires Inv(s) && step.IssDoor? && Enabled(s, step)
    ensures Inv(Apply(s, step))
  {
    hide ProcessesOk, SlotsOk, DoorOk, FifoOk, Conserved, LogOk;
    if s.iss.usfd in s.iss.readset {
      RegisterInv(s, IssApply(s, step), s.door[0], step.fd);
    } else {
      IssMovesOn(s, IssApply(s, step));
    }
  }

  /** A registered port is routed to the service that was started with it. */
  lemma RegisteredIsRouted(s: System, port: T.Port)
    requires SlotsOk(s) && Registered(s, port)
    ensures Routed(s, port)
  {
    var j :| 0 <= j < |s.portOf| && s.portOf[j] == port && Pid(j) in s.iss.pids;
    var k :| 0 <= k < |s.iss.pids| && s.iss.pids[k] == Pid(j);
    assert SlotOk(s, k);
  }

  /** As soon as somebody has registered, the table names a service for every port. */
  lemma AllNamed(s: System, port: T.Port)
    requires SlotsOk(s) && s.iss.pids != []
    ensures Named(s, port)
  {
    assert s.iss.slots[port] != 0 ==> Routed(s, port);
  }

  lemma ReadFifo(s: System, s': System, j: nat)
    requires FifoOk(s) && s.read < |s.tracer.written| && ServicesKept(s, s')
    requires s'.read == s.read + 1 && s'.issPhase == Awaiting(s.tracer.written[s.read])
    requires s'.tracer == s.tracer && s'.iss == s.iss
    requires j < |s.services| && Started(s, j)
    requires s'.services == s.services[j := s.services[j].(signalled := true)]
    ensures FifoOk(s')
  {
    assert s.tracer.written[..s.read + 1] == s.tracer.written[..s.read] + [s.tracer.written[s.read]];
  }

  lemma SignalKeepsServices(s: System, s': System, j: nat)
    requires ProcessesOk(s) && Conserved(s)
    requires s'.portOf == s.portOf && s'.log == s.log
    requires j < |s.services| && s'.services == s.services[j := s.services[j].(signalled := true)]
    ensures ProcessesOk(s') && Conserved(s') && ServicesKept(s, s')
  {
  }

  lemma ReadTables(s: System, s': System, port: T.Port)
    requires SlotsOk(s) && TakenOk(s) && DoorOk(s) && Named(s, port) && ServicesKept(s, s')
    requires s'.iss == s.iss && s'.issFds == s.issFds && s'.door == s.door && s'.issPhase == Awaiting(port)
    ensures SlotsOk(s') && TakenOk(s') && DoorOk(s')
  {
    SlotsKept(s, s');
  }

  lemma ReadInv(s: System, s': System, port: T.Port)
    requires Inv(s) && s.issPhase.AtFifo? && s.iss.fifo in s.iss.readset && s.iss.pids != []
    requires s.read < |s.tracer.written| && s.tracer.written[s.read] == port
    requires s' == s.(issPhase := Awaiting(port), read := s.read + 1, services := Kill(s.services, PidFor(s, port)))
    ensures Inv(s')
  {
    hide SlotOk, FifoOk, Conserved;
    AllNamed(s, port);
    var j: nat := NamedService(s, port);
    SignalKeepsServices(s, s', j);
    ReadTables(s, s', port);
    ReadFifo(s, s', j);
  }

  lemma EndInv(s: System, s': System)
    requires Inv(s) && s.read < |s.tracer.written| && s' == s.(issPhase := Ended, read := s.read + 1)
    ensures Inv(s')
  {
    SlotsKept(s, s');
    assert s.tracer.written[..s.read + 1] == s.tracer.written[..s.read] + [s.tracer.written[s.read]];
  }

  lemma ReadStepInv(s: System, step: Step)
    requires Inv(s) && step.IssRead? && Enabled(s, step) && s.iss.fifo in s.iss.readset
    ensures Inv(Apply(s, step))
  {
    hide Inv;
    if s.iss.pids == [] {
      EndInv(s, IssApply(s, step));
      return;
    }
    ReadInv(s, IssApply(s, step), s.tracer.written[s.read]);
  }

  /** The connection that the table names is that of the service it names. */
  lemma NamedLink(s: System, port: T.Port)
    requires SlotsOk(s) && Named(s, port)
    ensures 0 <= NamedService(s, port) < |s.portOf| && LinkFor(s, port) == Link(NamedService(s, port))
  {
    assert SlotOk(s, s.iss.slots[port]);
  }

  lemma OutboxTaken(s: System, s': System, j: nat)
    requires ProcessesOk(s) && Conserved(s) && LogOk(s) && j < |s.services| && s.services[j].outbox != []
    requires s'.portOf == s.portOf && s'.log == s.log && s'.nextId == s.nextId
    requires s'.services == s.services[j := s.services[j].(outbox := s.services[j].outbox[1..])]
    ensures ProcessesOk(s') && Conserved(s') && LogOk(s') && ServicesKept(s, s')
    ensures forall i :: 0 <= i < |s.services| ==> s'.services[i].signalled == s.services[i].signalled
    ensures Sendable(s.services[j].outbox[0], j)
  {
  }

  lemma TakeTables(s: System, s': System, port: T.Port, fd: int, o: Object, x: nat)
    requires SlotsOk(s) && TakenOk(s) && Named(s, port) && fd !in s.issFds && s'.portOf == s.portOf
    requires s'.issFds == s.issFds[fd := o] && x < |s.portOf| && Sendable(o, x)
    requires s'.iss == I.TakeOver(s.iss, port, fd) && !s'.issPhase.Awaiting?
    ensures SlotsOk(s') && TakenOk(s')
  {
    var before := s'.(iss := s.iss);
    SlotsKept(s, before);
    forall k | 0 <= k < |s.iss.pids|
      ensures SlotOk(s', k)
    {
      assert SlotOk(before, k);
    }
    forall p
      ensures Routed(s', p) <==> Routed(before, p)
    {
    }
    forall i | 0 <= i < |s'.iss.ports|
      ensures Takes(s', s'.iss.ports[i], s'.iss.sfd[i])
    {
      if i < |s.iss.ports| { assert Takes(before, s.iss.ports[i], s.iss.sfd[i]); }
    }
  }

  lemma TakeStage(s: System, s': System, port: T.Port, fd: int)
    requires IssStageOk(s) && s.issPhase == Awaiting(port)
    requires s'.issPhase == Forwarding(0) && s'.iss == I.TakeOver(s.iss, port, fd)
    ensures IssStageOk(s')
  {
    I.TakeOverKeeps(s.iss, port, fd);
  }

  lemma TakeKeepsIssSide(s: System, s': System, port: T.Port, fd: int, j: nat, o: Object)
    requires SlotsOk(s) && TakenOk(s) && IssStageOk(s) && DoorOk(s) && FifoOk(s) && ServicesKept(s, s')
    requires s.issPhase == Awaiting(port) && fd !in s.issFds && LinkFor(s, port) == Link(j)
    requires s'.issPhase == Forwarding(0) && s'.iss == I.TakeOver(s.iss, port, fd)
    requires s'.issFds == s.issFds[fd := o] && Sendable(o, j)
    requires s'.door == s.door && s'.tracer == s.tracer && s'.read == s.read
    requires forall i :: 0 <= i < |s.services| ==> s'.services[i].signalled == s.services[i].signalled
    ensures SlotsOk(s') && TakenOk(s') && IssStageOk(s') && DoorOk(s') && FifoOk(s')
  {
    NamedLink(s, port);
    TakeStage(s, s', port, fd);
    TakeTables(s, s', port, fd, o, j);
  }

  lemma TakeInv(s: System, s': System, port: T.Port, fd: int, j: nat)
    requires Inv(s) && s.issPhase == Awaiting(port) && fd !in s.issFds
    requires LinkFor(s, port) == Link(j) && j < |s.services| && s.services[j].outbox != []
    requires s' == s.(
      issPhase := Forwarding(0), iss := I.TakeOver(s.iss, port, fd),
      issFds := s.issFds[fd := s.services[j].outbox[0]],
      services := s.services[j := s.services[j].(outbox := s.services[j].outbox[1..])])
    ensures Inv(s')
  {
    OutboxTaken(s, s', j);
    TakeKeepsIssSide(s, s', port, fd, j, s.services[j].outbox[0]);
  }

  lemma TakeStepInv(s: System, step: Step)
    requires Inv(s) && step.IssTake? && Enabled(s, step) && step.ok
    ensures Inv(Apply(s, step))
  {
    TakeInv(s, IssApply(s, step), s.issPhase.port, step.fd, LinkFor(s, s.issPhase.port).service);
  }

  /** A listening socket that was taken over belongs to a service, and the table names one for its port. */
  lemma ForwardTarget(s: System, i: nat)
    requires SlotsOk(s) && TakenOk(s) && i < |s.iss.ports|
    ensures Obj(s.issFds, s.iss.sfd[i]).Listener? ==> Obj(s.issFds, s.iss.sfd[i]).service < |s.portOf|
    ensures Named(s, s.iss.ports[i]) && 0 <= NamedService(s, s.iss.ports[i]) < |s.portOf|
    ensures LinkFor(s, s.iss.ports[i]) == Link(NamedService(s, s.iss.ports[i]))
  {
    assert Takes(s, s.iss.ports[i], s.iss.sfd[i]);
    NamedLink(s, s.iss.ports[i]);
  }

  lemma ForwardKeepsRest(s: System, s': System, fd: int, o: Object)
    requires SlotsOk(s) && TakenOk(s) && IssStageOk(s) && DoorOk(s) && FifoOk(s) && ServicesKept(s, s')
    requires s.issPhase.Forwarding? && s.issPhase.next < s.iss.sto <= |s.iss.sfd|
    requires s.iss.sfd[s.issPhase.next] in s.iss.readset && s'.issPhase == Forwarding(s.issPhase.next + 1)
    requires fd !in s.issFds && s'.issFds == s.issFds[fd := o]
    requires s'.iss == s.iss && s'.door == s.door && s'.tracer == s.tracer && s'.read == s.read
    requires forall j :: 0 <= j < |s.services| ==> s'.services[j].signalled == s.services[j].signalled
    ensures SlotsOk(s') && TakenOk(s') && IssStageOk(s') && DoorOk(s') && FifoOk(s')
  {
    var i := s.issPhase.next;
    assert I.Watch(s.iss, s.iss.sfd[i]) == s.iss by {
      assert s.iss.readset + {s.iss.sfd[i]} == s.iss.readset;
    }
    SlotsKept(s, s');
  }

  lemma ForwardInv(s: System, s': System, j: nat, fd: int, x: nat)
    requires Inv(s) && j < |s.services| && x < |s.services| && fd !in s.issFds
    requires s.issPhase.Forwarding? && s.issPhase.next < s.iss.sto <= |s.iss.sfd|
    requires s.iss.sfd[s.issPhase.next] in s.iss.readset
    requires var client := Client(s.nextId, x, true);
      s' == s.(issPhase := Forwarding(s.issPhase.next + 1), issFds := s.issFds[fd := client], nextId := s.nextId + 1,
               services := s.services[j := s.services[j].(inbox := s.services[j].inbox + [client])],
               log := s.log + [Handover(client, j)])
    ensures Inv(s')
  {
    ForwardKeepsRest(s, s', fd, Client(s.nextId, x, true));
    LogExtended(s, s');
  }

  lemma LogExtended(s: System, s': System)
    requires LogOk(s) && |s'.services| == |s.services| && s'.nextId == s.nextId + 1 && |s'.log| == |s.log| + 1
    requires s'.log[..|s.log|] == s.log
    requires HandoverOk(s', s'.log[|s.log|]) && s'.log[|s.log|].client.id == s.nextId
    ensures LogOk(s')
  {
    assert forall a :: 0 <= a < |s.log| ==> s'.log[a] == s.log[a] && HandoverOk(s, s.log[a]);
  }

  lemma ForwardStepInv(s: System, step: Step)
    requires Inv(s) && step.IssForward? && Enabled(s, step)
    requires s.iss.sfd[s.issPhase.next] in s.iss.readset && step.ok
    ensures Inv(Apply(s, step))
  {
    hide ProcessOk, DoorOk, FifoOk, Conserved, LogOk, SlotOk;
    var i := s.issPhase.next;
    ForwardTarget(s, i);
    ForwardInv(s, IssApply(s, step), LinkFor(s, s.iss.ports[i]).service, step.fd,
      Obj(s.issFds, s.iss.sfd[i]).service);
  }

  /** Steps that touch nothing but the super server's place in its round and its read set. */
  predicate Quiet(s: System, step: Step) {
    match step
    case IssSelect(_) => true
    case IssLoop => true
    case IssRead => s.iss.fifo !in s.iss.readset
    case IssTake(_, ok) => !ok
    case IssForward(_, ok) =>
      !ok || (s.issPhase.Forwarding? && s.issPhase.next < |s.iss.sfd|
              && s.iss.sfd[s.issPhase.next] !in s.iss.readset)
    case _ => false
  }

  lemma QuietStage(s: System, step: Step)
    requires IssStageOk(s) && I.Tables(s.iss) && Quiet(s, step) && IssEnabled(s, step)
    ensures IssStageOk(IssApply(s, step))
  {
  }

  lemma QuietStepInv(s: System, step: Step)
    requires Inv(s) && Quiet(s, step) && Enabled(s, step)
    ensures Inv(Apply(s, step))
  {
    hide ProcessesOk, DoorOk, FifoOk, Conserved, LogOk, IssStageOk;
    QuietStage(s, step);
    IssMovesOn(s, IssApply(s, step));
  }

  lemma StepInv(s: System, step: Step)
    requires Inv(s) && Enabled(s, step)
    ensures Inv(Apply(s, step))
  {
    hide Inv;
    if IsServiceStep(step) {
      ServiceStepInv(s, step);
    } else if Quiet(s, step) {
      QuietStepInv(s, step);
    } else {
      match step
      case Packet(_) => PacketStepInv(s, step);
      case IssDoor(_) => DoorStepInv(s, step);
      case IssRead => ReadStepInv(s, step);
      case IssTake(_, _) => TakeStepInv(s, step);
      case IssForward(_, _) => ForwardStepInv(s, step);
    }
  }

  /** Every state of every run satisfies the invariant. */
  lemma {:induction false} RunInv(run: seq<System>, steps: seq<Step>, k: nat)
    requires IsRun(run, steps) && k < |run|
    ensures Inv(run[k])
  {
    if k == 0 {
    } else {
      RunInv(run, steps, k - 1);
      StepInv(run[k - 1], steps[k - 1]);
    }
  }
}

/**
 * The hand-off protocol as one system: any number of services, the super server and the tracer,
 * each advancing by its own steps in any interleaving, over FIFO channels and per-process
 * descriptor tables. One step is one part of a round of a process, or one signal delivery.
 */
module Handoff {
  import opened Descriptors
  import S = ServiceProcess
  import I = IssProcess
  import T = TracerProcess

  /**
   * What a descriptor can refer to: the Unix socket and the FIFO of the super server, the two ends
   * of a service's Unix connection, listening sockets and clients. `viaIss` tells which process
   * accepted a client.
   */
  datatype Object =
    | Nothing
    | StandardInput
    | Door
    | Pipe
    | Link(service: nat)
    | Listener(service: nat)
    | Client(id: nat, service: nat, viaIss: bool)

  /** Where a service is: not started, introduced to the super server, or in its loop. */
  datatype Phase = Idle | Connected | Selecting | Accepting | Receiving | Rearming

  datatype Process = Process(
    phase: Phase,
    st: S.ServiceState,
    fds: map<int, Object>,
    signalled: bool,          // SIGUSR1 is pending
    inbox: seq<Object>,       // descriptors under way from the super server
    outbox: seq<Object>       // descriptors under way to the super server
  )

  /** Where the super server is in its round; `Ended` when it has signalled itself. */
  datatype IssPhase = Waiting | AtDoor | AtFifo | Awaiting(port: T.Port) | Forwarding(next: nat) | Ended

  /** A client that the super server has accepted, and the service it was sent to. */
  datatype Handover = Handover(client: Object, to: nat)

  datatype System = System(
    portOf: seq<T.Port>,      // the port each service is started with
    services: seq<Process>,
    iss: I.IssState,
    issPhase: IssPhase,
    issFds: map<int, Object>,
    door: seq<nat>,           // services whose introduction waits at the Unix socket
    tracer: T.TracerState,
    read: nat,                // how many ports the super server has read from the FIFO
    log: seq<Handover>,       // what the super server has handed over, oldest first
    nextId: nat               // identity of the next client to connect
  )

  /**
   * Descriptors handed out by the kernel are not negative. A service has its socket from `Listen`
   * on, which stands for creating it, binding it and listening; before that its `sfd` is 0.
   */
  datatype Step =
    | Connect(j: nat, fd: nat)
    | Listen(j: nat, fd: nat)
    | ServiceSelect(j: nat, ready: set<int>)
    | ServiceAccept(j: nat, fd: nat)
    | ServiceReceive(j: nat, fd: nat, ok: bool)
    | ServiceRearm(j: nat)
    | Signal(j: nat)
    | Packet(port: T.Port)
    | IssSelect(ready: set<int>)
    | IssDoor(fd: nat)
    | IssRead
    | IssTake(fd: nat, ok: bool)
    | IssForward(fd: nat, ok: bool)
    | IssLoop

  predicate Running(p: Process) {
    !p.phase.Idle? && !p.phase.Connected?
  }

  function Obj(fds: map<int, Object>, fd: int): Object {
    if fd in fds then fds[fd] else Nothing
  }

  /** Service `j` runs as process `j + 1`; process id 0 is no service. */
  function Pid(j: nat): nat {
    j + 1
  }

  /** The Unix connection and the process that the super server's table names for a port. */
  function LinkFd(s: System, port: T.Port): int {
    if port < |s.iss.slots| then At(s.iss.nusfd, s.iss.slots[port]) else 0
  }

  function LinkFor(s: System, port: T.Port): Object {
    Obj(s.issFds, LinkFd(s, port))
  }

  function PidFor(s: System, port: T.Port): int {
    if port < |s.iss.slots| then At(s.iss.pids, s.iss.slots[port]) else 0
  }

  /** A service with this port has been accepted at the Unix socket. */
  predicate Registered(s: System, port: T.Port) {
    exists j :: 0 <= j < |s.portOf| && s.portOf[j] == port && Pid(j) in s.iss.pids
  }

  predicate HasService(s: System, o: Object) {
    o.Link? && o.service < |s.services|
  }

  /** The handler of SIGUSR1 sends whatever `sfd` refers to, which is 0 at first. */
  function HandlerSends(p: Process): Object {
    Obj(p.fds, p.st.sfd)
  }

  // ----- steps of a service

  predicate ServiceEnabled(p: Process, step: Step) {
    match step
    case Connect(_, fd) => p.phase.Idle? && fd !in p.fds
    case Listen(_, fd) => p.phase.Connected? && fd !in p.fds
    case ServiceSelect(_, ready) =>
      p.phase.Selecting? && ready <= p.st.readset && forall fd :: fd in ready ==> fd <= p.st.maxfp1
    case ServiceAccept(_, fd) => p.phase.Accepting? && (p.st.sfd in p.st.readset ==> fd !in p.fds)
    case ServiceReceive(_, fd, ok) =>
      p.phase.Receiving? && (p.st.usfd in p.st.readset && ok ==> p.inbox != [] && fd !in p.fds)
    case ServiceRearm(_) => p.phase.Rearming? && p.st.sto <= |p.st.nsfd|
    case Signal(_) => p.signalled
    case _ => false
  }

  /** What the step does to service `j`; `id` names the client it accepts, if it accepts one. */
  function ServiceApply(p: Process, j: nat, step: Step, id: nat): Process
    requires ServiceEnabled(p, step)
  {
    match step
    case Connect(_, fd) =>
      p.(phase := Connected, st := S.ServiceState(fd, 0, [], false, fd, {fd}, 0), fds := p.fds[fd := Link(j)])
    case Listen(_, fd) =>
      p.(phase := Selecting, fds := p.fds[fd := Listener(j)],
         st := p.st.(sfd := fd, readset := p.st.readset + {fd}, maxfp1 := Max(fd, p.st.maxfp1)))
    case ServiceSelect(_, ready) => p.(phase := Accepting, st := S.Selected(p.st, ready))
    case ServiceAccept(_, fd) =>
      p.(phase := Receiving, st := S.AcceptPhase(p.st, fd),
         fds := if p.st.sfd in p.st.readset
                then p.fds[fd := Client(id, ServiceOf(Obj(p.fds, p.st.sfd)), false)] else p.fds)
    case ServiceReceive(_, fd, ok) =>
      if p.st.usfd in p.st.readset && ok then
        p.(phase := Rearming, st := S.ReceivePhase(p.st, S.Received(fd)),
           fds := p.fds[fd := p.inbox[0]], inbox := p.inbox[1..])
      else p.(phase := Rearming, st := S.ReceivePhase(p.st, S.Failed))
    case ServiceRearm(_) => p.(phase := Selecting, st := S.RearmPhase(p.st))
    case Signal(_) => p.(signalled := false, outbox := p.outbox + [HandlerSends(p)])
    case _ => p
  }

  function ServiceOf(o: Object): nat {
    if o.Listener? then o.service else 0
  }

  // ----- steps of the super server

  predicate IssEnabled(s: System, step: Step) {
    match step
    case IssSelect(ready) =>
      s.issPhase.Waiting? && ready <= s.iss.readset && forall fd :: fd in ready ==> fd <= s.iss.maxfp1
    case IssDoor(fd) =>
      && s.issPhase.AtDoor?
      && (s.iss.usfd in s.iss.readset ==>
            s.door != [] && s.door[0] < |s.portOf| && s.portOf[s.door[0]] < |s.iss.slots| && fd !in s.issFds)
    case IssRead => s.issPhase.AtFifo? && (s.iss.fifo in s.iss.readset ==> s.read < |s.tracer.written|)
    case IssTake(fd, ok) =>
      && s.issPhase.Awaiting?
      && (ok ==>
            var link := LinkFor(s, s.issPhase.port);
            HasService(s, link) && s.services[link.service].outbox != [] && fd !in s.issFds)
    case IssForward(fd, ok) =>
      && s.issPhase.Forwarding? && s.issPhase.next < s.iss.sto
      && s.issPhase.next < |s.iss.sfd| && s.issPhase.next < |s.iss.ports|
      && 0 <= s.iss.ports[s.issPhase.next] < I.PORT_LIMIT
      && (s.iss.sfd[s.issPhase.next] in s.iss.readset && ok ==>
            && Obj(s.issFds, s.iss.sfd[s.issPhase.next]).Listener?
            && HasService(s, LinkFor(s, s.iss.ports[s.issPhase.next])) && fd !in s.issFds)
    case IssLoop => s.issPhase.Forwarding? && s.issPhase.next >= s.iss.sto
    case _ => false
  }

  function Kill(services: seq<Process>, pid: int): seq<Process> {
    if 1 <= pid <= |services| then services[pid - 1 := services[pid - 1].(signalled := true)] else services
  }

  function IssApply(s: System, step: Step): System
    requires IssEnabled(s, step)
  {
    match step
    case IssSelect(ready) => s.(issPhase := AtDoor, iss := I.Selected(s.iss, ready))
    case IssDoor(fd) =>
      if s.iss.usfd in s.iss.readset then
        var j := s.door[0];
        s.(issPhase := AtFifo, door := s.door[1..], issFds := s.issFds[fd := Link(j)],
           iss := I.Register(s.iss, fd, s.portOf[j], Pid(j)))
      else s.(issPhase := AtFifo, iss := I.Watch(s.iss, s.iss.usfd))
    case IssRead =>
      if s.iss.fifo in s.iss.readset then
        var port := s.tracer.written[s.read];
        // While nobody has registered, the process id is 0: the signal ends the super server itself.
        if s.iss.pids == [] then s.(issPhase := Ended, read := s.read + 1)
        else s.(issPhase := Awaiting(port), read := s.read + 1, services := Kill(s.services, PidFor(s, port)))
      else s.(issPhase := Forwarding(0), iss := I.Watch(s.iss, s.iss.fifo))
    case IssTake(fd, ok) =>
      if ok then
        var j := LinkFor(s, s.issPhase.port).service;
        var p := s.services[j];
        s.(issPhase := Forwarding(0), issFds := s.issFds[fd := p.outbox[0]],
           services := s.services[j := p.(outbox := p.outbox[1..])],
           iss := I.TakeOver(s.iss, s.issPhase.port, fd))
      else s.(issPhase := Forwarding(0))
    case IssForward(fd, ok) =>
      var i := s.issPhase.next;
      if s.iss.sfd[i] !in s.iss.readset then
        s.(issPhase := Forwarding(i + 1), iss := I.Watch(s.iss, s.iss.sfd[i]))
      else if ok then
        var client := Client(s.nextId, ServiceOf(Obj(s.issFds, s.iss.sfd[i])), true);
        var j := LinkFor(s, s.iss.ports[i]).service;
        var p := s.services[j];
        s.(issPhase := Forwarding(i + 1), issFds := s.issFds[fd := client], nextId := s.nextId + 1,
           services := s.services[j := p.(inbox := p.inbox + [client])], log := s.log + [Handover(client, j)])
      else s.(issPhase := Forwarding(i + 1))
    case IssLoop => s.(issPhase := Waiting)
    case _ => s
  }

  // ----- the system

  predicate IsServiceStep(step: Step) {
    step.Connect? || step.Listen? || step.ServiceSelect? || step.ServiceAccept?
    || step.ServiceReceive? || step.ServiceRearm? || step.Signal?
  }

  predicate Enabled(s: System, step: Step) {
    if IsServiceStep(step) then step.j < |s.services| && ServiceEnabled(s.services[step.j], step)
    else if step.Packet? then T.Sized(s.tracer)
    else IssEnabled(s, step)
  }

  function Apply(s: System, step: Step): System
    requires Enabled(s, step)
  {
    if IsServiceStep(step) then
      var p := s.services[step.j];
      s.(services := s.services[step.j := ServiceApply(p, step.j, step, s.nextId)],
         door := if step.Connect? then s.door + [step.j] else s.door,
         nextId := if step.ServiceAccept? then s.nextId + 1 else s.nextId)
    else if step.Packet? then s.(tracer := T.Announce(s.tracer, step.port))
    else IssApply(s, step)
  }

  /** All services idle, the super server at its first `select`. Services may share a port. */
  ghost predicate Initial(s: System) {
    && |s.services| == |s.portOf|
    && (forall j :: 0 <= j < |s.services| ==>
          var p := s.services[j];
          p.phase.Idle? && p.fds == map[0 := StandardInput] && !p.signalled && p.inbox == []
          && p.outbox == [] && p.st.sfd == 0 && p.st.nsfd == [] && !p.st.f)
    && I.AtSelect(s.iss) && I.Tables(s.iss) && s.iss.ports == [] && s.iss.pids == []
    && (forall p :: 0 <= p < I.PORT_LIMIT ==> s.iss.slots[p] == 0)
    && s.iss.usfd != s.iss.fifo && s.iss.usfd != 0 && s.iss.fifo != 0
    && s.issPhase.Waiting? && s.door == []
    && s.issFds == map[0 := StandardInput, s.iss.usfd := Door, s.iss.fifo := Pipe]
    && s.tracer == T.TracerState(seq(0x1_0000, _ => false), [])
    && s.read == 0 && s.log == [] && s.nextId == 0
  }

  /** States connected by steps, from an initial one. */
  ghost predicate IsRun(run: seq<System>, steps: seq<Step>) {
    && |run| == |steps| + 1 && Initial(run[0])
    && forall k :: 0 <= k < |steps| ==> Enabled(run[k], steps[k]) && run[k + 1] == Apply(run[k], steps[k])
  }
}

/**
 * The super server (ISS): it registers services, learns from the tracer which port has seen its
 * first client, takes over that port's listening socket, accepts further clients on it and
 * hands them to the service.
 */
module IssProcess {
  import opened Basics
  import opened Descriptors

  const PORT_LIMIT := 65536

  datatype IssState = IssState(
    usfd: int,            // Unix listening socket
    fifo: int,            // read end of the tracer's FIFO
    ports: seq<int>,      // ports taken over; `ind` is its length
    sfd: seq<int>,        // their listening sockets
    pids: seq<int>,       // registered services; `nind` is its length
    nusfd: seq<int>,      // their Unix connections
    slots: seq<nat>,      // `map`: port number to index in `pids` and `nusfd`, zero-initialised
    maxfp1: int,
    readset: set<int>,
    sto: nat              // number of listening sockets when the round began
  )

  /** A descriptor sent over a Unix connection. */
  datatype Passed = Passed(over: int, fd: int)

  // ----- the parts of one round

  function Selected(s: IssState, ready: set<int>): IssState {
    s.(readset := ready, sto := |s.ports|)
  }

  /** A service connects and introduces itself by port and process id. */
  function Register(s: IssState, fd: int, port: int, pid: int): IssState
    requires 0 <= port < |s.slots|
  {
    s.(nusfd := s.nusfd + [fd], slots := s.slots[port := |s.pids|], pids := s.pids + [pid])
  }

  /** The listening socket of `port` has arrived as `fd`. */
  function TakeOver(s: IssState, port: int, fd: int): IssState {
    s.(ports := s.ports + [port], sfd := s.sfd + [fd],
       readset := s.readset + {fd}, maxfp1 := Max(fd, s.maxfp1))
  }

  function Watch(s: IssState, fd: int): IssState {
    s.(readset := s.readset + {fd})
  }

  /** The slot that the table names for `port`; a port nobody registered reads as slot 0. */
  function SlotOf(s: IssState, port: int): nat
    requires 0 <= port < |s.slots|
  {
    s.slots[port]
  }

  // ----- what has to be watched

  function Watched(s: IssState): set<int> {
    {s.usfd, s.fifo} + Elements(s.sfd)
  }

  predicate Bounded(s: IssState) {
    forall fd :: fd in Watched(s) ==> fd <= s.maxfp1
  }

  predicate AtSelect(s: IssState) {
    s.readset == Watched(s) && Bounded(s)
  }

  /**
   * After `select`: the first `n` of the Unix socket and the FIFO have been seen to, then the
   * first `i` listening sockets; those taken over in this round are watched already.
   */
  predicate MidRound(s: IssState, n: nat, i: nat) {
    && s.readset <= Watched(s) && Bounded(s)
    && i <= s.sto <= |s.sfd| && Elements(s.sfd[s.sto..]) <= s.readset
    && (n < 2 ==> s.sto == |s.sfd|)
    && (n >= 1 ==> s.usfd in s.readset)
    && (n >= 2 ==> s.fifo in s.readset)
    && Elements(s.sfd[..i]) <= s.readset
  }

  lemma SelectedIsMidRound(s: IssState, ready: set<int>)
    requires AtSelect(s) && |s.ports| == |s.sfd| && ready <= s.readset
    ensures MidRound(Selected(s, ready), 0, 0)
  {
  }

  lemma TakeOverKeeps(s: IssState, port: int, fd: int)
    requires MidRound(s, 1, 0) && s.fifo in s.readset
    ensures MidRound(TakeOver(s, port, fd), 2, 0)
  {
    ElementsAppend(s.sfd, fd, s.sto);
    assert (s.sfd + [fd])[..0] == [];
  }

  // ----- whole rounds

  /** A new Unix connection with the port and process id received on it. */
  datatype Greeting = Greeting(fd: int, port: int, pid: int)

  /** A port read from the FIFO, and the listening socket received for it, if any. */
  datatype Notice = Unreadable | Notice(port: int, fd: Option<int>)

  /** What the kernel answers in one round; `accepted[i]` is the result of accepting on `sfd[i]`. */
  datatype Answers = Answers(ready: set<int>, greeting: Greeting, notice: Notice, accepted: seq<int>)

  function DoorPhase(s: IssState, g: Greeting): IssState
    requires 0 <= g.port < |s.slots|
  {
    if s.usfd in s.readset then Register(s, g.fd, g.port, g.pid) else Watch(s, s.usfd)
  }

  function FifoPhase(s: IssState, n: Notice): IssState {
    if s.fifo !in s.readset then Watch(s, s.fifo)
    else if n.Notice? && n.fd.Some? then TakeOver(s, n.port, n.fd.value)
    else s
  }

  /**
   * The process signalled when notice `n` is read: the one the table names for its port, or
   * process 0 while nobody has registered, which stands for the sender's whole process group.
   */
  function Signalled(s: IssState, n: Notice): seq<int>
    requires n.Notice? ==> 0 <= n.port < |s.slots|
  {
    if s.fifo in s.readset && n.Notice? then [At(s.pids, SlotOf(s, n.port))] else []
  }

  /** The descriptors that the accept loop sends for the first `i` listening sockets. */
  function Forwarded(s: IssState, accepted: seq<int>, i: nat): seq<Passed>
    requires i <= |accepted| && i <= |s.sfd| == |s.ports|
    requires forall k :: 0 <= k < i ==> 0 <= s.ports[k] < |s.slots|
  {
    if i == 0 then []
    else
      Forwarded(s, accepted, i - 1) +
      if s.sfd[i - 1] in s.readset && accepted[i - 1] >= 0
      then [Passed(At(s.nusfd, SlotOf(s, s.ports[i - 1])), accepted[i - 1])]
      else []
  }

  /**
   * What is sent: each client accepted on a ready socket, over the connection in the slot that the
   * table holds for its port, or over descriptor 0 where that slot was never written.
   */
  lemma {:induction false} ForwardedIs(s: IssState, accepted: seq<int>, i: nat, m: Passed)
    requires i <= |accepted| && i <= |s.sfd| == |s.ports|
    requires forall k :: 0 <= k < i ==> 0 <= s.ports[k] < |s.slots|
    ensures m in Forwarded(s, accepted, i) <==>
      exists k :: 0 <= k < i && IsSent(s, accepted, k, m)
  {
    if i == 0 {
    } else {
      ForwardedIs(s, accepted, i - 1, m);
      assert IsSent(s, accepted, i - 1, m) ==> m in Forwarded(s, accepted, i);
    }
  }

  predicate IsSent(s: IssState, accepted: seq<int>, k: nat, m: Passed)
    requires k < |accepted| && k < |s.sfd| && k < |s.ports| && 0 <= s.ports[k] < |s.slots|
  {
    && s.sfd[k] in s.readset && accepted[k] >= 0 && m.fd == accepted[k]
    && var slot := s.slots[s.ports[k]];
       m.over == if slot < |s.nusfd| then s.nusfd[slot] else 0
  }

  function RearmPhase(s: IssState): IssState
    requires s.sto <= |s.sfd|
  {
    s.(readset := s.readset + Elements(s.sfd[..s.sto]))
  }

  function DoorAndFifo(s: IssState, a: Answers): IssState
    requires 0 <= a.greeting.port < |s.slots|
  {
    FifoPhase(DoorPhase(Selected(s, a.ready), a.greeting), a.notice)
  }

  /** Tables of one length, and port numbers in range. */
  predicate Tables(s: IssState) {
    && |s.ports| == |s.sfd| && |s.pids| == |s.nusfd| && |s.slots| == PORT_LIMIT
    && (forall k :: 0 <= k < |s.ports| ==> 0 <= s.ports[k] < PORT_LIMIT)
  }

  /** Plausible answers: nothing is ready that was not watched, and ports are in range. */
  predicate Plausible(s: IssState, a: Answers) {
    && a.ready <= s.readset
    && 0 <= a.greeting.port < |s.slots|
    && |a.accepted| == |s.sfd|
    && (a.notice.Notice? ==> 0 <= a.notice.port < |s.slots|)
  }

  lemma DoorAndFifoKeeps(s: IssState, a: Answers)
    requires AtSelect(s) && Tables(s) && Plausible(s, a)
    ensures Tables(DoorAndFifo(s, a)) && MidRound(DoorAndFifo(s, a), 2, 0)
    ensures DoorAndFifo(s, a).sto == |s.sfd|
  {
    var t := Selected(s, a.ready);
    SelectedIsMidRound(s, a.ready);
    var d := DoorPhase(t, a.greeting);
    assert MidRound(d, 1, 0);
    if d.fifo in d.readset && a.notice.Notice? && a.notice.fd.Some? {
      TakeOverKeeps(d, a.notice.port, a.notice.fd.value);
    }
  }

  /** Every round of the super server ends with exactly its three kinds of socket watched. */
  lemma RoundKeeps(s: IssState, a: Answers)
    requires AtSelect(s) && Tables(s) && Plausible(s, a)
    ensures var t := RearmPhase(DoorAndFifo(s, a));
      AtSelect(t) && Tables(t) && s.sfd <= t.sfd && s.ports <= t.ports
  {
    DoorAndFifoKeeps(s, a);
  }

  /** What a round adds to the tables: a ready door one service, a readable port its socket. */
  lemma RoundTables(s: IssState, a: Answers)
    requires Tables(s) && Plausible(s, a) && s.usfd != s.fifo
    ensures var t := RearmPhase(DoorAndFifo(s, a));
      && t.usfd == s.usfd && t.fifo == s.fifo
      && t.pids == s.pids + (if s.usfd in a.ready then [a.greeting.pid] else [])
      && t.nusfd == s.nusfd + (if s.usfd in a.ready then [a.greeting.fd] else [])
      && t.slots == (if s.usfd in a.ready then s.slots[a.greeting.port := |s.pids|] else s.slots)
      && (if s.fifo in a.ready && a.notice.Notice? && a.notice.fd.Some?
          then t.sfd == s.sfd + [a.notice.fd.value] && t.ports == s.ports + [a.notice.port]
          else t.sfd == s.sfd && t.ports == s.ports)
  {
  }

  // ----- the process

  class Iss {
    var usfd: int
    var fifo: int
    var ports: seq<int>
    var sfd: seq<int>
    var pids: seq<int>
    var nusfd: seq<int>
    var slots: seq<nat>
    var maxfp1: int
    var readset: set<int>
    var sto: nat

    function State(): IssState
      reads this
    {
      IssState(usfd, fifo, ports, sfd, pids, nusfd, slots, maxfp1, readset, sto)
    }

    constructor (unix: int, pipe: int)
      requires unix >= 0 && pipe >= 0
      ensures AtSelect(State()) && Tables(State()) && ports == [] && pids == []
      ensures usfd == unix && fifo == pipe && |slots| == 65536 && forall p :: 0 <= p < 65536 ==> slots[p] == 0
    {
      usfd, fifo, ports, sfd, pids, nusfd, sto := unix, pipe, [], [], [], [], 0;
      slots := seq(PORT_LIMIT, _ => 0);
      readset := {unix, pipe};
      var bound := if unix > -1 then unix else -1;
      maxfp1 := if pipe > bound then pipe else bound;
    }

    method AcceptService(g: Greeting)
      requires 0 <= g.port < |slots|
      modifies this
      ensures State() == DoorPhase(old(State()), g)
    {
      if usfd in readset {
        nusfd := nusfd + [g.fd];
        slots := slots[g.port := |pids|];
        pids := pids + [g.pid];
      } else {
        readset := readset + {usfd};
      }
    }

    /** Reads a port, signals the service that the table names for it, and takes its socket over. */
    method ReadTracer(n: Notice) returns (signalled: seq<int>)
      requires n.Notice? ==> 0 <= n.port < |slots|
      modifies this
      ensures State() == FifoPhase(old(State()), n)
      ensures signalled == Signalled(old(State()), n)
      ensures fifo in old(readset) && n.Notice? ==>
        signalled == [if slots[n.port] < |pids| then pids[slots[n.port]] else 0]
    {
      signalled := [];
      if fifo in readset {
        if n.Notice? {
          signalled := [At(pids, slots[n.port])];
          if n.fd.Some? {
            var fd := n.fd.value;
            sfd := sfd + [fd];
            ports := ports + [n.port];
            readset := readset + {fd};
            maxfp1 := if fd > maxfp1 then fd else maxfp1;
          }
        }
      } else {
        readset := readset + {fifo};
      }
    }

    method AcceptAndForward(accepted: seq<int>) returns (sent: seq<Passed>)
      requires Tables(State()) && sto <= |sfd| && sto <= |accepted| && Distinct(sfd)
      modifies this
      ensures State() == RearmPhase(old(State()))
      ensures sent == Forwarded(old(State()), accepted, sto)
    {
      sent := [];
      var i := 0;
      while i < sto
        invariant i <= sto <= |sfd|
        invariant State() == old(State()).(readset := old(readset) + Elements(sfd[..i]))
        invariant sent == Forwarded(old(State()), accepted, i)
      {
        assert sfd[..i + 1] == sfd[..i] + [sfd[i]];
        ElementsAppend(sfd[..i], sfd[i], 0);
        assert sfd[i] in readset <==> sfd[i] in old(readset);
        if sfd[i] in readset {
          var nsfd := accepted[i];
          if nsfd >= 0 {
            sent := sent + [Passed(At(nusfd, slots[ports[i]]), nsfd)];
          }
        } else {
          readset := readset + {sfd[i]};
        }
        i := i + 1;
      }
    }

    /** One round of the loop after a successful `select`. */
    method Serve(a: Answers) returns (signalled: seq<int>, sent: seq<Passed>)
      requires AtSelect(State()) && Tables(State()) && Plausible(State(), a)
      requires Distinct(DoorAndFifo(State(), a).sfd)
      modifies this
      ensures State() == RearmPhase(DoorAndFifo(old(State()), a))
      ensures AtSelect(State()) && Tables(State())
      ensures signalled == Signalled(DoorPhase(Selected(old(State()), a.ready), a.greeting), a.notice)
      ensures sent == Forwarded(DoorAndFifo(old(State()), a), a.accepted, |old(sfd)|)
    {
      DoorAndFifoKeeps(State(), a);
      RoundKeeps(State(), a);
      sto := |ports|;
      readset := a.ready;
      AcceptService(a.greeting);
      signalled := ReadTracer(a.notice);
      sent := AcceptAndForward(a.accepted);
    }
  }
}

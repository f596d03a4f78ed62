/**
 * One service process: its `select` loop and the tables it keeps. Descriptors are integers.
 * `select` overwrites the read set with the ready descriptors, so every round has to put back
 * whatever it wants watched.
 */
module ServiceProcess {
  import opened Descriptors

  datatype ServiceState = ServiceState(
    usfd: int,            // Unix connection to the super server
    sfd: int,             // listening socket
    nsfd: seq<int>,       // client connections; `ind` is its length
    f: bool,              // the first client has been accepted
    maxfp1: int,
    readset: set<int>,
    sto: nat              // number of clients when the round began
  )

  /** What `recvmsg` on the Unix connection does, short of reporting end of file. */
  datatype Incoming = Failed | Received(fd: int)

  // ----- the parts of one round

  function Selected(s: ServiceState, ready: set<int>): ServiceState {
    s.(readset := ready, sto := |s.nsfd|)
  }

  function AddClient(s: ServiceState, fd: int): ServiceState {
    s.(nsfd := s.nsfd + [fd], readset := s.readset + {fd}, maxfp1 := Max(fd, s.maxfp1))
  }

  function AcceptPhase(s: ServiceState, fd: int): ServiceState {
    if s.sfd in s.readset then
      var t := AddClient(s, fd);
      t.(readset := t.readset - {s.sfd}, f := true)
    else if !s.f then s.(readset := s.readset + {s.sfd})
    else s
  }

  function ReceivePhase(s: ServiceState, incoming: Incoming): ServiceState {
    if s.usfd in s.readset then
      match incoming
      case Failed => s
      case Received(fd) => AddClient(s, fd)
    else s.(readset := s.readset + {s.usfd})
  }

  function RearmPhase(s: ServiceState): ServiceState
    requires s.sto <= |s.nsfd|
  {
    s.(readset := s.readset + Elements(s.nsfd[..s.sto]))
  }

  // ----- what has to be watched

  /** Everything the service must hear from: the super server, its clients, at first its port. */
  function Watched(s: ServiceState): set<int> {
    {s.usfd} + Elements(s.nsfd) + if s.f then {} else {s.sfd}
  }

  predicate Bounded(s: ServiceState) {
    forall fd :: fd in Watched(s) ==> fd <= s.maxfp1
  }

  /** The state in which `select` is called. */
  predicate AtSelect(s: ServiceState) {
    s.readset == Watched(s) && Bounded(s)
  }

  /** After `select`, with `n` of the three parts of the round done. */
  predicate MidRound(s: ServiceState, n: nat) {
    && s.readset <= Watched(s) && Bounded(s)
    && s.sto <= |s.nsfd| && Elements(s.nsfd[s.sto..]) <= s.readset
    && (n == 0 ==> s.sto == |s.nsfd|)
    && (n >= 1 ==> s.f || s.sfd in s.readset)
    && (n >= 2 ==> s.usfd in s.readset)
    && (s.f ==> s.sfd !in s.readset)
    && (s.f ==> s.sfd !in Watched(s))
  }

  predicate Fresh(s: ServiceState, fd: int) {
    fd != s.usfd && fd != s.sfd && fd !in s.nsfd
  }

  /** The listening socket is neither the Unix connection nor a client. */
  predicate Separate(s: ServiceState) {
    s.sfd != s.usfd && s.sfd !in s.nsfd
  }

  lemma SelectedIsMidRound(s: ServiceState, ready: set<int>)
    requires AtSelect(s) && Separate(s) && ready <= s.readset
    ensures MidRound(Selected(s, ready), 0)
  {
  }

  lemma AcceptKeeps(s: ServiceState, fd: int)
    requires MidRound(s, 0) && Separate(s) && Fresh(s, fd)
    ensures MidRound(AcceptPhase(s, fd), 1) && Separate(AcceptPhase(s, fd))
    ensures s.sfd in s.readset ==> !s.f && AcceptPhase(s, fd).f
  {
    ElementsAppend(s.nsfd, fd, s.sto);
    assert s.nsfd[s.sto..] == [];
  }

  lemma ReceiveKeeps(s: ServiceState, incoming: Incoming)
    requires MidRound(s, 1) && Separate(s)
    requires incoming.Received? ==> Fresh(s, incoming.fd)
    ensures MidRound(ReceivePhase(s, incoming), 2) && Separate(ReceivePhase(s, incoming))
  {
    if incoming.Received? { ElementsAppend(s.nsfd, incoming.fd, s.sto); }
  }

  lemma RearmCompletes(s: ServiceState)
    requires MidRound(s, 2) && Separate(s)
    ensures AtSelect(RearmPhase(s))
  {
  }

  // ----- whole rounds

  /** What the kernel answers in one round: `select`, `accept` and `recvmsg`. */
  datatype Answers = Answers(ready: set<int>, accepted: int, incoming: Incoming)

  function Round(s: ServiceState, a: Answers): ServiceState {
    var t := ReceivePhase(AcceptPhase(Selected(s, a.ready), a.accepted), a.incoming);
    RearmPhase(t)
  }

  /** Kernel answers that respect the read set and hand out unused descriptors. */
  predicate Plausible(s: ServiceState, a: Answers) {
    && a.ready <= s.readset
    && Fresh(s, a.accepted)
    && (a.incoming.Received? ==> Fresh(AddClient(s, a.accepted), a.incoming.fd))
  }

  lemma RoundKeeps(s: ServiceState, a: Answers)
    requires AtSelect(s) && Separate(s) && Plausible(s, a)
    ensures AtSelect(Round(s, a)) && Separate(Round(s, a))
    ensures Round(s, a).nsfd == s.nsfd
      + (if s.sfd in a.ready then [a.accepted] else [])
      + (if s.usfd in a.ready && a.incoming.Received? then [a.incoming.fd] else [])
    ensures Round(s, a).usfd == s.usfd && Round(s, a).sfd == s.sfd
    ensures s.sfd in a.ready ==> !s.f && Round(s, a).f
    ensures s.f ==> Round(s, a).f
  {
    SelectedIsMidRound(s, a.ready);
    AcceptKeeps(Selected(s, a.ready), a.accepted);
    ReceiveKeeps(AcceptPhase(Selected(s, a.ready), a.accepted), a.incoming);
    RearmCompletes(ReceivePhase(AcceptPhase(Selected(s, a.ready), a.accepted), a.incoming));
  }

  function After(s: ServiceState, run: seq<Answers>): ServiceState {
    if run == [] then s else Round(After(s, run[..|run| - 1]), run[|run| - 1])
  }

  ghost predicate PlausibleRun(s: ServiceState, run: seq<Answers>) {
    forall k :: 0 <= k < |run| ==> Plausible(After(s, run[..k]), run[k])
  }

  /** How many rounds of a run call `accept` on the listening socket. */
  function Accepts(s: ServiceState, run: seq<Answers>): nat {
    if run == [] then 0
    else Accepts(s, run[..|run| - 1]) + if s.sfd in run[|run| - 1].ready then 1 else 0
  }

  /**
   * Whatever `select` reported in earlier rounds, each call of `select` watches exactly the
   * super server, every client so far, and the listening socket until the first client; and
   * the process accepts at most one client itself.
   */
  lemma {:induction false} ServiceRun(s: ServiceState, run: seq<Answers>)
    requires AtSelect(s) && Separate(s) && !s.f && PlausibleRun(s, run)
    ensures var t := After(s, run);
      AtSelect(t) && Separate(t) && t.sfd == s.sfd && s.nsfd <= t.nsfd
    ensures Accepts(s, run) == if After(s, run).f then 1 else 0
  {
    if run == [] {
    } else {
      var init := run[..|run| - 1];
      forall k | 0 <= k < |init|
        ensures Plausible(After(s, init[..k]), init[k])
      {
        assert init[..k] == run[..k] && init[k] == run[k];
      }
      ServiceRun(s, init);
      RoundKeeps(After(s, init), run[|run| - 1]);
    }
  }

  // ----- the process

  class Service {
    var usfd: int
    var sfd: int
    var nsfd: seq<int>
    var f: bool
    var maxfp1: int
    var readset: set<int>
    var sto: nat

    function State(): ServiceState
      reads this
    {
      ServiceState(usfd, sfd, nsfd, f, maxfp1, readset, sto)
    }

    constructor (unix: int, listener: int)
      requires unix != listener
      ensures AtSelect(State()) && Separate(State()) && !f && nsfd == []
      ensures usfd == unix && sfd == listener
    {
      usfd, sfd, nsfd, f, sto := unix, listener, [], false, 0;
      readset := {unix, listener};
      maxfp1 := if listener > unix then listener else unix;
    }

    /** The descriptor that `select` left in the read set, or one put back since. */
    method AcceptFirst(accepted: int)
      modifies this
      ensures State() == AcceptPhase(old(State()), accepted)
    {
      if sfd in readset {
        nsfd := nsfd + [accepted];
        readset := readset + {accepted};
        maxfp1 := if accepted > maxfp1 then accepted else maxfp1;
        readset := readset - {sfd};
        f := true;
      } else if !f {
        readset := readset + {sfd};
      }
    }

    method ReceiveClient(incoming: Incoming)
      modifies this
      ensures State() == ReceivePhase(old(State()), incoming)
    {
      if usfd in readset {
        if incoming.Received? {
          nsfd := nsfd + [incoming.fd];
          maxfp1 := if incoming.fd > maxfp1 then incoming.fd else maxfp1;
          readset := readset + {incoming.fd};
        }
      } else {
        readset := readset + {usfd};
      }
    }

    method Rearm()
      requires sto <= |nsfd|
      modifies this
      ensures State() == RearmPhase(old(State()))
    {
      var i := 0;
      while i < sto
        invariant i <= sto <= |nsfd|
        invariant State() == old(State()).(readset := old(readset) + Elements(nsfd[..i]))
      {
        assert nsfd[..i + 1] == nsfd[..i] + [nsfd[i]];
        ElementsAppend(nsfd[..i], nsfd[i], 0);
        if nsfd[i] !in readset {
          readset := readset + {nsfd[i]};
        }
        i := i + 1;
      }
    }

    /** One round of the loop after a successful `select`. */
    method Serve(answers: Answers)
      requires AtSelect(State()) && Separate(State()) && Plausible(State(), answers)
      modifies this
      ensures State() == Round(old(State()), answers)
      ensures AtSelect(State()) && Separate(State())
    {
      RoundKeeps(State(), answers);
      sto := |nsfd|;
      readset := answers.ready;
      AcceptFirst(answers.accepted);
      ReceiveClient(answers.incoming);
      Rearm();
    }
  }
}

/** What the hand-off protocol guarantees in every reachable state. */
module HandoffTheorems {
  import opened Descriptors
  import opened Handoff
  import opened HandoffInvariant
  import T = TracerProcess

  // ----- select

  /**
   * Whenever a service calls `select`, it watches exactly the super server, all clients it ever
   * got, and the listening socket until it has accepted one client there; and it has accepted
   * at most that one itself.
   */
  lemma ServiceWatches(run: seq<System>, steps: seq<Step>, k: nat, j: nat)
    requires IsRun(run, steps) && k < |run| && j < |run[k].services|
    ensures var p := run[k].services[j];
      && (p.phase.Selecting? ==>
            && p.st.readset == {p.st.usfd} + Elements(p.st.nsfd) + (if p.st.f then {} else {p.st.sfd})
            && forall fd :: fd in p.st.readset ==> fd <= p.st.maxfp1)
      && |AcceptedBy(p)| == if p.st.f then 1 else 0
  {
    RunInv(run, steps, k);
    assert ProcessOk(run[k].services[j], j);
  }

  /** Whenever the super server calls `select`, it watches its door, the FIFO and all taken sockets. */
  lemma IssWatches(run: seq<System>, steps: seq<Step>, k: nat)
    requires IsRun(run, steps) && k < |run| && run[k].issPhase.Waiting?
    ensures var s := run[k].iss;
      && s.readset == {s.usfd, s.fifo} + Elements(s.sfd)
      && forall fd :: fd in s.readset ==> fd <= s.maxfp1
  {
    RunInv(run, steps, k);
  }

  // ----- conservation

  /**
   * The clients a service has received are, in order, the first of those that the super server
   * sent to it, and the others are under way.
   */
  lemma DeliveredInOrder(run: seq<System>, steps: seq<Step>, k: nat, j: nat)
    requires IsRun(run, steps) && k < |run| && j < |run[k].services|
    ensures var s := run[k];
      && ReceivedBy(s.services[j]) <= SentTo(s.log, j)
      && s.services[j].inbox == SentTo(s.log, j)[|ReceivedBy(s.services[j])|..]
  {
    RunInv(run, steps, k);
    var p := run[k].services[j];
    assert ReceivedBy(p) + p.inbox == SentTo(run[k].log, j);
  }

  /** How often a client is in the table of a service or under way to it. */
  function Copies(p: Process, c: Object): nat {
    multiset(ReceivedBy(p))[c] + multiset(p.inbox)[c]
  }

  /**
   * Every client that the super server handed over is in exactly one place: the table of the
   * service it was sent to, or the channel to that service.
   */
  lemma EveryClientOnce(run: seq<System>, steps: seq<Step>, k: nat, h: Handover)
    requires IsRun(run, steps) && k < |run| && h in run[k].log
    ensures h.to < |run[k].services|
    ensures forall j :: 0 <= j < |run[k].services| ==>
      Copies(run[k].services[j], h.client) == if j == h.to then 1 else 0
  {
    RunInv(run, steps, k);
    forall j: nat | j < |run[k].services|
      ensures Copies(run[k].services[j], h.client) == if j == h.to then 1 else 0
    {
      SentOnce(run[k].log, h, j);
    }
  }

  lemma {:induction false} NotSent(log: seq<Handover>, c: Object, j: nat)
    requires forall a :: 0 <= a < |log| ==> log[a].client != c
    ensures multiset(SentTo(log, j))[c] == 0
  {
    if log == [] {
    } else {
      NotSent(log[..|log| - 1], c, j);
    }
  }

  lemma {:induction false} SentOnce(log: seq<Handover>, h: Handover, j: nat)
    requires forall a :: 0 <= a < |log| ==> log[a].client.Client?
    requires forall a, b :: 0 <= a < b < |log| ==> log[a].client.id < log[b].client.id
    requires h in log
    ensures multiset(SentTo(log, j))[h.client] == if j == h.to then 1 else 0
  {
    var init, last := log[..|log| - 1], log[|log| - 1];
    assert log == init + [last];
    if last == h {
      NotSent(init, h.client, j);
    } else {
      SentOnce(init, h, j);
    }
  }

  // ----- what is taken over

  /** No port is taken over twice, and no descriptor stands for two of them. */
  lemma TakenOnce(run: seq<System>, steps: seq<Step>, k: nat)
    requires IsRun(run, steps) && k < |run|
    ensures |run[k].iss.sfd| == |run[k].iss.ports|
    ensures forall i, j :: 0 <= i < j < |run[k].iss.ports| ==>
      run[k].iss.ports[i] != run[k].iss.ports[j] && run[k].iss.sfd[i] != run[k].iss.sfd[j]
  {
    RunInv(run, steps, k);
  }

  /** The process that the super server would signal for `port` is a service of that port. */
  predicate SignalsOwner(s: System, port: T.Port) {
    exists j :: 0 <= j < |s.portOf| && s.portOf[j] == port && PidFor(s, port) == Pid(j)
  }

  /** The table names a service of a port if and only if one has registered. */
  lemma RegistrationNeeded(run: seq<System>, steps: seq<Step>, k: nat, port: T.Port)
    requires IsRun(run, steps) && k < |run|
    ensures SignalsOwner(run[k], port) <==> Registered(run[k], port)
  {
    hide IsRun, ProcessesOk, IssStageOk, DoorOk, FifoOk, Conserved, LogOk;
    RunInv(run, steps, k);
    var s := run[k];
    if Registered(s, port) {
      RegisteredIsRouted(s, port);
      assert s.portOf[s.iss.pids[s.iss.slots[port]] - 1] == port;
    }
    if SignalsOwner(s, port) {
      var j :| 0 <= j < |s.portOf| && s.portOf[j] == port && PidFor(s, port) == Pid(j);
      assert s.iss.pids[s.iss.slots[port]] == Pid(j);
    }
  }
}

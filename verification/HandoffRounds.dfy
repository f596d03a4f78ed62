/** In every run the super server's steps from one `select` to the next are one round of its process. */
module HandoffRounds {
  import opened Basics
  import opened Descriptors
  import opened Handoff
  import opened HandoffInvariant
  import I = IssProcess

  /** What the super server sends to services in a step. */
  function SentIn(s: System, step: Step): seq<I.Passed>
    requires Enabled(s, step)
  {
    if step.IssForward? && step.ok && s.iss.sfd[s.issPhase.next] in s.iss.readset
    then [I.Passed(LinkFd(s, s.iss.ports[s.issPhase.next]), step.fd)]
    else []
  }

  /** The processes it signals in a step. */
  function SignalledIn(s: System, step: Step): seq<int>
    requires Enabled(s, step)
  {
    if step.IssRead? && s.iss.fifo in s.iss.readset then [PidFor(s, s.tracer.written[s.read])] else []
  }

  ghost function Sends(run: seq<System>, steps: seq<Step>, a: nat, k: nat): seq<I.Passed>
    requires IsRun(run, steps) && a <= k < |run|
  {
    if k == a then [] else Sends(run, steps, a, k - 1) + SentIn(run[k - 1], steps[k - 1])
  }

  ghost function Signals(run: seq<System>, steps: seq<Step>, a: nat, k: nat): seq<int>
    requires IsRun(run, steps) && a <= k < |run|
  {
    if k == a then [] else Signals(run, steps, a, k - 1) + SignalledIn(run[k - 1], steps[k - 1])
  }

  /** `select` returns in step `a`, and is not called again before state `b`. */
  ghost predicate IsRound(run: seq<System>, steps: seq<Step>, a: nat, b: nat) {
    && a < b < |run| && a < |steps| && steps[a].IssSelect?
    && run[b].issPhase.Waiting? && forall m :: a < m < b ==> !run[m].issPhase.Waiting?
  }

  /** The answers so far are plausible; those of `accept` are given in order. */
  predicate Partly(s0: I.IssState, a: I.Answers) {
    && I.Tables(s0) && a.ready <= s0.readset
    && 0 <= a.greeting.port < |s0.slots| && (a.notice.Notice? ==> 0 <= a.notice.port < |s0.slots|)
  }

  function AfterDoor(s0: I.IssState, a: I.Answers): I.IssState
    requires Partly(s0, a)
  {
    I.DoorPhase(I.Selected(s0, a.ready), a.greeting)
  }

  /** After the FIFO, with the first `i` listening sockets seen to. */
  predicate InLoop(f: I.IssState, s: I.IssState, accepted: seq<int>, i: nat, sent: seq<I.Passed>) {
    && I.Tables(f) && i <= f.sto <= |f.sfd| && i == |accepted|
    && s == f.(readset := f.readset + Elements(f.sfd[..i])) && sent == I.Forwarded(f, accepted, i)
  }

  /** `s` is in the round that began in `s0`, and what it has done is what the process would have done. */
  predicate InRound(s0: I.IssState, s: System, a: I.Answers, sent: seq<I.Passed>, signalled: seq<int>)
    requires Partly(s0, a)
  {
    var d := AfterDoor(s0, a);
    match s.issPhase
    case AtDoor => s.iss == I.Selected(s0, a.ready) && sent == [] && signalled == []
    case AtFifo => s.iss == d && sent == [] && signalled == []
    case Awaiting(port) => s.iss == d && sent == [] && signalled == I.Signalled(d, I.Notice(port, None))
    case Forwarding(i) =>
      && InLoop(I.FifoPhase(d, a.notice), s.iss, a.accepted, i, sent)
      && signalled == I.Signalled(d, a.notice)
    case Waiting =>
      && InLoop(I.FifoPhase(d, a.notice), s.iss, a.accepted, |s0.sfd|, sent)
      && signalled == I.Signalled(d, a.notice)
    case Ended => true
  }

  lemma {:induction false} ForwardedPrefix(f: I.IssState, accepted: seq<int>, x: int, i: nat)
    requires I.Tables(f) && i <= |accepted| && i <= |f.sfd|
    ensures I.Forwarded(f, accepted + [x], i) == I.Forwarded(f, accepted, i)
  {
    if i == 0 {
    } else {
      ForwardedPrefix(f, accepted, x, i - 1);
    }
  }

  /** One more listening socket. */
  lemma InLoopStep(f: I.IssState, s: I.IssState, accepted: seq<int>, x: int, sent: seq<I.Passed>)
    requires InLoop(f, s, accepted, |accepted|, sent) && |accepted| < f.sto && Distinct(f.sfd)
    ensures var i := |accepted|;
      && (f.sfd[i] in s.readset <==> f.sfd[i] in f.readset)
      && InLoop(f, if f.sfd[i] in s.readset then s else I.Watch(s, f.sfd[i]), accepted + [x], i + 1,
           sent + if f.sfd[i] in s.readset && x >= 0 then [I.Passed(At(f.nusfd, f.slots[f.ports[i]]), x)] else [])
  {
    var i := |accepted|;
    assert f.sfd[..i + 1] == f.sfd[..i] + [f.sfd[i]];
    ElementsAppend(f.sfd[..i], f.sfd[i], 0);
    ForwardedPrefix(f, accepted, x, i);
  }

  lemma DoorIn(s0: I.IssState, s: System, a: I.Answers, step: Step) returns (a': I.Answers)
    requires Partly(s0, a) && InRound(s0, s, a, [], []) && step.IssDoor? && IssEnabled(s, step)
    ensures Partly(s0, a') && a'.ready == a.ready && InRound(s0, IssApply(s, step), a', [], [])
  {
    a' := a;
    if s.iss.usfd in s.iss.readset {
      a' := a.(greeting := I.Greeting(step.fd, s.portOf[s.door[0]], Pid(s.door[0])));
    }
  }

  lemma ReadIn(s0: I.IssState, s: System, a: I.Answers) returns (a': I.Answers)
    requires Partly(s0, a) && InRound(s0, s, a, [], []) && IssEnabled(s, IssRead)
    ensures Partly(s0, a') && a'.ready == a.ready
    ensures InRound(s0, IssApply(s, IssRead), a', [], SignalledIn(s, IssRead))
  {
    a' := a.(notice := I.Unreadable, accepted := []);
    assert s.iss.readset + {s.iss.fifo} + Elements([]) == s.iss.readset + {s.iss.fifo};
  }

  lemma TakeIn(s0: I.IssState, s: System, a: I.Answers, step: Step, signalled: seq<int>) returns (a': I.Answers)
    requires Partly(s0, a) && InRound(s0, s, a, [], signalled) && step.IssTake? && IssEnabled(s, step)
    requires s.iss.fifo in s.iss.readset
    ensures Partly(s0, a') && a'.ready == a.ready && InRound(s0, IssApply(s, step), a', [], signalled)
  {
    a' := a.(notice := I.Notice(s.issPhase.port, if step.ok then Some(step.fd) else None), accepted := []);
    var f := I.FifoPhase(AfterDoor(s0, a), a'.notice);
    assert f.sfd[..0] == [] && f.readset + Elements([]) == f.readset;
  }

  lemma ForwardIn(s0: I.IssState, s: System, a: I.Answers, step: Step, sent: seq<I.Passed>, signalled: seq<int>)
    returns (a': I.Answers)
    requires Partly(s0, a) && InRound(s0, s, a, sent, signalled) && step.IssForward? && IssEnabled(s, step)
    requires Distinct(s.iss.sfd)
    ensures Partly(s0, a') && a'.ready == a.ready
    ensures InRound(s0, IssApply(s, step), a', sent + SentIn(s, step), signalled)
  {
    var f, x := I.FifoPhase(AfterDoor(s0, a), a.notice), if step.ok then step.fd else -1;
    a' := a.(accepted := a.accepted + [x]);
    InLoopStep(f, s.iss, a.accepted, x, sent);
  }

  lemma LoopIn(s0: I.IssState, s: System, a: I.Answers, sent: seq<I.Passed>, signalled: seq<int>)
    requires Partly(s0, a) && InRound(s0, s, a, sent, signalled) && IssEnabled(s, IssLoop)
    ensures InRound(s0, IssApply(s, IssLoop), a, sent, signalled)
  {
  }

  lemma StepIn(s0: I.IssState, s: System, a: I.Answers, step: Step, sent: seq<I.Passed>, signalled: seq<int>)
    returns (a': I.Answers)
    requires Partly(s0, a) && InRound(s0, s, a, sent, signalled) && Enabled(s, step)
    requires !s.issPhase.Waiting? && Distinct(s.iss.sfd)
    requires s.issPhase.Awaiting? ==> s.iss.fifo in s.iss.readset
    ensures Partly(s0, a') && a'.ready == a.ready
    ensures InRound(s0, Apply(s, step), a', sent + SentIn(s, step), signalled + SignalledIn(s, step))
  {
    hide InLoop;
    assert sent + [] == sent && signalled + [] == signalled;
    a' := a;
    match step
    case IssDoor(_) => a' := DoorIn(s0, s, a, step);
    case IssRead => a' := ReadIn(s0, s, a);
    case IssTake(_, _) => a' := TakeIn(s0, s, a, step, signalled);
    case IssForward(_, _) => a' := ForwardIn(s0, s, a, step, sent, signalled);
    case IssLoop => LoopIn(s0, s, a, sent, signalled);
    case _ =>
  }

  /** From `select` on, up to any state of its round. */
  lemma {:induction false} RoundSoFar(run: seq<System>, steps: seq<Step>, a: nat, b: nat, k: nat)
    returns (ans: I.Answers)
    requires IsRun(run, steps) && IsRound(run, steps, a, b) && a < k <= b
    ensures Partly(run[a].iss, ans) && ans.ready == steps[a].ready
    ensures InRound(run[a].iss, run[k], ans, Sends(run, steps, a, k), Signals(run, steps, a, k))
  {
    hide Inv, InRound, Partly, Enabled, Apply, SentIn, SignalledIn, Initial;
    RunInv(run, steps, k - 1);
    var s, step := run[k - 1], steps[k - 1];
    assert Enabled(s, step) && run[k] == Apply(s, step);
    if k == a + 1 {
      ans := RoundStarts(s, step);
    } else {
      ans := RoundSoFar(run, steps, a, b, k - 1);
      StateIn(s);
      ans := StepIn(run[a].iss, s, ans, step, Sends(run, steps, a, k - 1), Signals(run, steps, a, k - 1));
    }
  }

  lemma RoundStarts(s: System, step: Step) returns (ans: I.Answers)
    requires Inv(s) && step.IssSelect? && Enabled(s, step)
    ensures Partly(s.iss, ans) && ans.ready == step.ready
    ensures InRound(s.iss, Apply(s, step), ans, [] + SentIn(s, step), [] + SignalledIn(s, step))
  {
    ans := I.Answers(step.ready, I.Greeting(0, 0, 0), I.Unreadable, []);
  }

  lemma StateIn(s: System)
    requires Inv(s)
    ensures |s.iss.ports| == |s.iss.sfd| && Distinct(s.iss.sfd)
    ensures s.issPhase.Awaiting? ==> s.iss.fifo in s.iss.readset
    ensures I.Tables(s.iss) && forall ready :: Enabled(s, IssSelect(ready)) ==> I.AtSelect(s.iss)
  {
  }

  /**
   * Every round of the super server in every run is one call of `Iss.Serve`: there are plausible
   * answers of the kernel with which the process, from the state in which `select` was called,
   * signals and sends the same and ends in the same state.
   */
  lemma RoundIsServe(run: seq<System>, steps: seq<Step>, a: nat, b: nat) returns (ans: I.Answers)
    requires IsRun(run, steps) && IsRound(run, steps, a, b)
    ensures var s := run[a].iss;
      && I.AtSelect(s) && I.Tables(s) && I.Plausible(s, ans) && ans.ready == steps[a].ready
      && Distinct(I.DoorAndFifo(s, ans).sfd) && run[b].iss == I.RearmPhase(I.DoorAndFifo(s, ans))
      && Sends(run, steps, a, b) == I.Forwarded(I.DoorAndFifo(s, ans), ans.accepted, |s.sfd|)
      && Signals(run, steps, a, b)
         == I.Signalled(I.DoorPhase(I.Selected(s, ans.ready), ans.greeting), ans.notice)
  {
    hide Inv, Apply, Enabled, Sends, Signals, Initial;
    RunInv(run, steps, a);
    assert Enabled(run[a], steps[a]);
    StateIn(run[a]);
    RunInv(run, steps, b);
    StateIn(run[b]);
    ans := RoundSoFar(run, steps, a, b, b);
  }
}

// When the supervisor stops its VM, in terms of what happened before: who
// registered, how long it was quiet, how long the guest was silent
// (pkgs/vzlink/src/vzlink/supervisor.py).

module VzlinkStops {
  import opened Prelude
  import opened VzlinkSupervisor
  import opened VzlinkProtocol

  predicate Prefix(states: seq<Sys>, labels: seq<Label>, n: nat) {
    n <= |labels| < |states|
  }

  // ---- the connections ------------------------------------------------------------

  /** The id's last handled request but ENSURE_UPs was a REGISTER, and it was accepted. */
  function Enrolled(states: seq<Sys>, labels: seq<Label>, n: nat, id: Id): bool
    requires Prefix(states, labels, n)
  {
    if n == 0 then false
    else
      var s, l := states[n - 1], labels[n - 1];
      if l == Handle(id) && Rpcing(s, id, Requested(Register)) && !s.sup.stopping then true
      else if l == Handle(id) && Rpcing(s, id, Requested(Unregister)) then false
      else Enrolled(states, labels, n - 1, id)
  }

  lemma StepConns(s: Sys, l: Label, c: Config, id: Id)
    requires Enabled(s, l)
    ensures id in Next(s, l, c).sup.conns <==>
      if l == Handle(id) && Rpcing(s, id, Requested(Register)) && !s.sup.stopping then true
      else if l == Handle(id) && Rpcing(s, id, Requested(Unregister)) then false
      else id in s.sup.conns
  {
    match l
    case WakeUp(alive) => LoopFrame(s.sup, s.loop, c, alive, true, 0);
    case ProbeEnds(answers, now) => LoopFrame(s.sup, s.loop, c, true, answers, now);
    case _ =>
  }

  /** The connections are exactly the ids registered and not unregistered since. */
  lemma {:induction false} ConnsExact(states: seq<Sys>, labels: seq<Label>, c: Config, n: nat, id: Id)
    requires Behaviour(states, labels, c) && n < |states|
    ensures id in states[n].sup.conns <==> Enrolled(states, labels, n, id)
  {
    if n > 0 {
      ConnsExact(states, labels, c, n - 1, id);
      assert StepAt(states, labels, c, n - 1);
      StepConns(states[n - 1], labels[n - 1], c, id);
    }
  }

  // ---- the idle loop's clocks --------------------------------------------------------

  /** When the first of the unanswered probes since the last answered one failed. */
  function Silence(labels: seq<Label>, n: nat): Option<int>
    requires n <= |labels|
  {
    if n == 0 then None
    else match labels[n - 1]
      case ProbeEnds(answers, now) =>
        if answers then None
        else if Silence(labels, n - 1).Some? then Silence(labels, n - 1) else Some(now)
      case _ => Silence(labels, n - 1)
  }

  /** A failed probe at which the silence has lasted long enough. */
  predicate Hangs(labels: seq<Label>, c: Config, n: nat)
    requires n < |labels|
  {
    && labels[n].ProbeEnds? && !labels[n].answers
    && Silence(labels, n + 1).Some? && labels[n].now - Silence(labels, n + 1).value >= c.hangTimeout
  }

  /** A booted guest is probed, unless the test is off or another boot runs. */
  predicate Probes(s: Sup, c: Config) {
    c.hangTimeout > 0 && s.booted.Some? && s.lockHolder.None?
  }

  /** The tick gets as far as looking whether anybody is there. */
  predicate Looks(s: Sys, labels: seq<Label>, c: Config, n: nat)
    requires n < |labels|
  {
    || (labels[n].WakeUp? && labels[n].alive && !s.sup.stopping && !Probes(s.sup, c))
    || (labels[n].ProbeEnds? && !Hangs(labels, c, n))
  }

  predicate Busy(s: Sup) {
    s.conns != {} || s.lockHolder.Some?
  }

  /** Look n found somebody. */
  predicate BusyLook(states: seq<Sys>, labels: seq<Label>, c: Config, n: nat)
    requires n < |labels| < |states|
  {
    Looks(states[n], labels, c, n) && Busy(states[n].sup)
  }

  /** From this step on, up to step n, no look found anybody; the one before did, or there was none. */
  predicate QuietSince(states: seq<Sys>, labels: seq<Label>, c: Config, from: nat, n: nat)
    requires Prefix(states, labels, n)
  {
    && from <= n && (from == 0 || BusyLook(states, labels, c, from - 1))
    && forall i | from <= i < n :: !BusyLook(states, labels, c, i)
  }

  /** How many of the steps from one to another are looks. */
  function LooksIn(states: seq<Sys>, labels: seq<Label>, c: Config, from: nat, n: nat): nat
    requires Prefix(states, labels, n) && from <= n
  {
    if from == n then 0
    else LooksIn(states, labels, c, from, n - 1) + if Looks(states[n - 1], labels, c, n - 1) then 1 else 0
  }

  lemma StepClocks(s: Sys, labels: seq<Label>, c: Config, n: nat)
    requires n < |labels| && Enabled(s, labels[n]) && s.loop.silentSince == Silence(labels, n)
    ensures var s' := Next(s, labels[n], c);
      && s'.loop.silentSince == Silence(labels, n + 1)
      && s'.loop.idleFor == (if !Looks(s, labels, c, n) then s.loop.idleFor
                             else if Busy(s.sup) then 0 else s.loop.idleFor + c.idlePoll)
  {}

  lemma OneMore(poll: nat, looks: nat)
    ensures poll * (looks + 1) == poll * looks + poll
  {}

  /** What the idle clock shows at step n, if it has been quiet since a step. */
  ghost predicate Shows(states: seq<Sys>, labels: seq<Label>, c: Config, from: nat, n: nat)
    requires Prefix(states, labels, n)
  {
    QuietSince(states, labels, c, from, n)
    && states[n].loop.idleFor == c.idlePoll * LooksIn(states, labels, c, from, n)
  }

  lemma ShowsNext(states: seq<Sys>, labels: seq<Label>, c: Config, from: nat, n: nat)
    requires Behaviour(states, labels, c) && n < |labels| && Shows(states, labels, c, from, n)
    requires states[n].loop.silentSince == Silence(labels, n)
    ensures Shows(states, labels, c, if BusyLook(states, labels, c, n) then n + 1 else from, n + 1)
  {
    assert StepAt(states, labels, c, n);
    StepClocks(states[n], labels, c, n);
    OneMore(c.idlePoll, LooksIn(states, labels, c, from, n));
  }

  /** The idle clock is the poll interval times the looks since somebody was
      there; the silence clock is as Silence says. */
  lemma {:induction false} ClocksMean(states: seq<Sys>, labels: seq<Label>, c: Config, n: nat) returns (from: nat)
    requires Behaviour(states, labels, c) && n < |states|
    ensures states[n].loop.silentSince == Silence(labels, n)
    ensures QuietSince(states, labels, c, from, n)
    ensures states[n].loop.idleFor == c.idlePoll * LooksIn(states, labels, c, from, n)
  {
    from := 0;
    if n > 0 {
      from := ClocksMean(states, labels, c, n - 1);
      assert StepAt(states, labels, c, n - 1);
      StepClocks(states[n - 1], labels, c, n - 1);
      ShowsNext(states, labels, c, from, n - 1);
      if BusyLook(states, labels, c, n - 1) {
        from := n;
      }
    }
  }

  lemma QuietSinceOnce(states: seq<Sys>, labels: seq<Label>, c: Config, from: nat, other: nat, n: nat)
    requires Prefix(states, labels, n)
    requires QuietSince(states, labels, c, from, n) && QuietSince(states, labels, c, other, n)
    ensures from == other
  {}

  /** An idle stop begins at exactly the look that finds nobody and, with the
      looks before it since somebody was there, covers the idle timeout. */
  lemma IdleStopIff(states: seq<Sys>, labels: seq<Label>, c: Config, from: nat, n: nat)
    requires Behaviour(states, labels, c) && n < |labels| && QuietSince(states, labels, c, from, n)
    ensures BeginsIdleStop(states[n], labels[n], c) <==>
      && Looks(states[n], labels, c, n) && !Busy(states[n].sup)
      && c.idlePoll * (LooksIn(states, labels, c, from, n) + 1) >= c.idleTimeout
  {
    var since := ClocksMean(states, labels, c, n);
    QuietSinceOnce(states, labels, c, from, since, n);
    assert StepAt(states, labels, c, n);
    StepClocks(states[n], labels, c, n);
    OneMore(c.idlePoll, LooksIn(states, labels, c, from, n));
  }

  /** Probe i failed, and was the first to since one was answered; none was answered after it. */
  predicate FirstFailure(labels: seq<Label>, i: nat, n: nat)
    requires n <= |labels|
  {
    && i < n && labels[i].ProbeEnds? && !labels[i].answers
    && (forall j | i < j < n && labels[j].ProbeEnds? :: !labels[j].answers)
    && forall j | 0 <= j < i && labels[j].ProbeEnds? && !labels[j].answers ::
         exists k | j < k < i :: labels[k].ProbeEnds? && labels[k].answers
  }

  lemma {:induction false} SilenceMeans(labels: seq<Label>, n: nat, i: nat)
    requires n <= |labels|
    ensures FirstFailure(labels, i, n) ==> Silence(labels, n) == Some(labels[i].now)
    ensures Silence(labels, n).None? ==>
      forall j | 0 <= j < n && labels[j].ProbeEnds? && !labels[j].answers ::
        exists k | j < k < n :: labels[k].ProbeEnds? && labels[k].answers
    ensures Silence(labels, n).Some? ==> exists f: nat :: FirstFailure(labels, f, n)
  {
    if n > 0 {
      SilenceMeans(labels, n - 1, i);
      if labels[n - 1].ProbeEnds? && !labels[n - 1].answers && Silence(labels, n - 1).None? {
        assert FirstFailure(labels, n - 1, n);
      } else if Silence(labels, n).Some? {
        var f: nat :| FirstFailure(labels, f, n - 1);
        assert FirstFailure(labels, f, n);
      }
    }
  }

  predicate BeginsHangStop(s: Sys, l: Label, c: Config) {
    Enabled(s, l) && s.loop.pc != StoppingVm
    && Next(s, l, c).loop.pc == StoppingVm && Next(s, l, c).sup.stopReason == Hung
  }

  /** A hang stop begins at exactly the failed probe at which the silence has
      lasted the hang timeout, and never while the test is switched off. */
  lemma HangStopIff(states: seq<Sys>, labels: seq<Label>, c: Config, n: nat)
    requires Behaviour(states, labels, c) && n < |labels|
    ensures BeginsHangStop(states[n], labels[n], c) <==> Hangs(labels, c, n)
    ensures Hangs(labels, c, n) ==> c.hangTimeout > 0
  {
    var _ := ClocksMean(states, labels, c, n);
    assert StepAt(states, labels, c, n);
    ProbingMeans(states, labels, c, n);
  }

  lemma {:induction false} ProbingMeans(states: seq<Sys>, labels: seq<Label>, c: Config, n: nat)
    requires Behaviour(states, labels, c) && n < |states|
    ensures states[n].loop.pc == Probing ==> c.hangTimeout > 0 && states[n].sup.booted.Some?
  {
    if n > 0 {
      ProbingMeans(states, labels, c, n - 1);
      assert StepAt(states, labels, c, n - 1);
      assert states[n - 1].sup.booted.Some? ==> states[n].sup.booted.Some? by {
        AlwaysInv(states, labels, c, n - 1);
        if states[n - 1].sup.booted.Some? { StepBooted(states[n - 1], labels[n - 1], c); }
      }
    }
  }

  // ---- a registration left behind ---------------------------------------------------

  /** The id is registered, its proxy is gone and has no UNREGISTER on its way. */
  predicate Leaked(s: Sys, id: Id) {
    id in s.sup.conns && Has(s, id, Closed) && !Rpcing(s, id, Requested(Unregister))
  }

  lemma StepLeaked(s: Sys, l: Label, c: Config, id: Id)
    requires Enabled(s, l) && Leaked(s, id)
    ensures Leaked(Next(s, l, c), id) && !BeginsIdleStop(s, l, c)
  {
    StepConns(s, l, c, id);
    if BeginsIdleStop(s, l, c) {
      BeginsQuietly(s, l, c);
      assert false;
    }
  }

  /** Every registered id has a live proxy or a closed one. */
  ghost predicate Accounted(s: Sys) {
    forall id | id in s.sup.conns :: Live(s, id) || Has(s, id, Closed)
  }

  /** The label is a step of this connection's proxy or of its request's handler. */
  predicate Concerns(l: Label, id: Id) {
    match l
    case Ask(other) => other == id
    case Connected(other) => other == id
    case EndForward(other) => other == id
    case Receive(other, _) => other == id
    case GiveUp(other) => other == id
    case Handle(other) => other == id
    case GetLock(other) => other == id
    case BootEnds(other, _, _) => other == id
    case _ => false
  }

  lemma Unconcerned(s: Sys, l: Label, c: Config, id: Id)
    requires Enabled(s, l) && !Concerns(l, id)
    ensures var s' := Next(s, l, c);
      && (id in s'.phases <==> id in s.phases) && (id in s.phases ==> s'.phases[id] == s.phases[id])
      && (id in s'.rpcs <==> id in s.rpcs) && (id in s.rpcs ==> s'.rpcs[id] == s.rpcs[id])
      && (id in s'.sup.conns <==> id in s.sup.conns)
  {
    StepConns(s, l, c, id);
  }

  lemma StepAccounted(s: Sys, l: Label, c: Config, id: Id)
    requires Inv(s) && Accounted(s) && Enabled(s, l) && id in Next(s, l, c).sup.conns
    ensures Live(Next(s, l, c), id) || Has(Next(s, l, c), id, Closed)
  {
    StepConns(s, l, c, id);
    if Concerns(l, id) {
      assert id in s.phases && Matched(s, id);
    } else {
      Unconcerned(s, l, c, id);
    }
  }

  lemma {:induction false} AlwaysAccounted(states: seq<Sys>, labels: seq<Label>, c: Config, n: nat)
    requires Behaviour(states, labels, c) && n < |states|
    ensures Accounted(states[n])
  {
    if n > 0 {
      AlwaysAccounted(states, labels, c, n - 1);
      AlwaysInv(states, labels, c, n - 1);
      assert StepAt(states, labels, c, n - 1);
      forall id | id in states[n].sup.conns
        ensures Live(states[n], id) || Has(states[n], id, Closed)
      {
        StepAccounted(states[n - 1], labels[n - 1], c, id);
      }
    }
  }

  /** A REGISTER handled after its proxy gave up, or a proxy that gives up while
      registered, before it has sent its UNREGISTER. */
  predicate Leaks(s: Sys, l: Label, id: Id) {
    || (l == Handle(id) && Has(s, id, Closed) && Rpcing(s, id, Requested(Register)) && !s.sup.stopping)
    || (l == GiveUp(id) && Live(s, id) && !Rpcing(s, id, Requested(Unregister)))
  }

  /** An id is left behind by exactly these steps, and stays so. */
  lemma StepLeakedIff(s: Sys, l: Label, c: Config, id: Id)
    requires Inv(s) && Accounted(s) && Enabled(s, l)
    ensures Leaked(Next(s, l, c), id) <==> Leaked(s, id) || Leaks(s, l, id)
  {
    StepConns(s, l, c, id);
    if Concerns(l, id) {
      assert id in s.phases && Matched(s, id);
    } else {
      Unconcerned(s, l, c, id);
    }
  }

  ghost predicate LeaksAt(states: seq<Sys>, labels: seq<Label>, i: nat, id: Id)
    requires i < |labels| < |states|
  {
    Leaks(states[i], labels[i], id)
  }

  /** At any moment an id is left behind exactly if one of them has happened. */
  lemma {:induction false} LeakedIff(states: seq<Sys>, labels: seq<Label>, c: Config, n: nat, id: Id)
    requires Behaviour(states, labels, c) && n < |states|
    ensures Leaked(states[n], id) <==> exists i: nat | i < n :: LeaksAt(states, labels, i, id)
  {
    if n > 0 {
      LeakedIff(states, labels, c, n - 1, id);
      AlwaysInv(states, labels, c, n - 1);
      AlwaysAccounted(states, labels, c, n - 1);
      assert StepAt(states, labels, c, n - 1);
      StepLeakedIff(states[n - 1], labels[n - 1], c, id);
      assert Leaks(states[n - 1], labels[n - 1], id) <==> LeaksAt(states, labels, n - 1, id);
    }
  }

  /** And from then on there is never an idle stop. */
  lemma {:induction false} LeakKeepsRunning(states: seq<Sys>, labels: seq<Label>, c: Config, i: nat, j: nat, id: Id)
    requires Behaviour(states, labels, c) && i <= j < |states| && Leaked(states[i], id)
    ensures Leaked(states[j], id) && (j < |labels| ==> !BeginsIdleStop(states[j], labels[j], c))
  {
    if i < j {
      LeakKeepsRunning(states, labels, c, i, j - 1, id);
      assert StepAt(states, labels, c, j - 1);
      StepLeaked(states[j - 1], labels[j - 1], c, id);
    }
    if j < |labels| {
      assert StepAt(states, labels, c, j);
      StepLeaked(states[j], labels[j], c, id);
    }
  }
}

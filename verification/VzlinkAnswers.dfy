// What each request is answered, and what its proxy does with the answer
// (pkgs/vzlink/src/vzlink/supervisor.py and proxy.py), on the requests themselves.

module VzlinkAnswers {
  import opened Prelude
  import opened VzlinkSupervisor
  import opened VzlinkProtocol
  import opened VzlinkStops

  /** The request is answered with this status to its own op. */
  predicate AnsweredAs(s: Sys, id: Id, op: Op, status: Status) {
    id in s.rpcs && s.rpcs[id].Answered? && s.rpcs[id].response.op == op && s.rpcs[id].response.status == status
  }

  /** A request for a boot or a connection is refused, and changes nothing,
      exactly while the supervisor is stopping; otherwise one for a boot waits for
      the lock, one for a connection makes it, and in any case its end unmakes it. */
  lemma HandledAs(s: Sys, id: Id, c: Config)
    requires Enabled(s, Handle(id))
    ensures var op := s.rpcs[id].op; var s' := Next(s, Handle(id), c); var wants := op == EnsureUp || op == Register;
      && (AnsweredAs(s', id, op, Stopping) <==> wants && s.sup.stopping)
      && (wants && s.sup.stopping ==> s'.sup == s.sup)
      && (op == EnsureUp && !s.sup.stopping ==> Rpcing(s', id, Waiting) && s'.sup == s.sup)
      && (op == Register && !s.sup.stopping ==>
            AnsweredAs(s', id, op, Ok) && s'.sup == s.sup.(conns := s.sup.conns + {id}))
      && (op == Unregister ==> AnsweredAs(s', id, op, Ok) && s'.sup == s.sup.(conns := s.sup.conns - {id}))
      && (op == Unknown ==> AnsweredAs(s', id, op, Error) && s'.sup == s.sup)
  {}

  /** A boot's asker is told how it went. */
  lemma BootEndsAs(s: Sys, id: Id, status: Status, info: string, c: Config)
    requires Enabled(s, BootEnds(id, status, info))
    ensures Rpcing(Next(s, BootEnds(id, status, info), c), id, Answered(Response(EnsureUp, status, info)))
  {}

  predicate Pending(s: Sys, id: Id) {
    Rpcing(s, id, Waiting) || Rpcing(s, id, Booting)
  }

  lemma StepPending(s: Sys, l: Label, c: Config, id: Id)
    requires Inv(s) && Enabled(s, l) && s.sup.stopping && Pending(Next(s, l, c), id)
    ensures Pending(s, id) && l != Handle(id)
  {
    match l
    case Handle(other) => HandledAs(s, other, c);
    case _ =>
  }

  /** No request handled after stopping began ever waits for a boot or boots:
      whichever does has done so since before, and has not been handled since. */
  lemma {:induction false} PendingSinceBefore(
    states: seq<Sys>, labels: seq<Label>, c: Config, i: nat, n: nat, j: nat, id: Id)
    requires Behaviour(states, labels, c) && i <= n <= j < |states| && states[i].sup.stopping && Pending(states[j], id)
    ensures Pending(states[n], id) && (n < j ==> labels[n] != Handle(id))
    decreases j - n
  {
    if n < j {
      PendingSinceBefore(states, labels, c, i, n + 1, j, id);
      StoppingIsFinal(states, labels, c, i, n);
      AlwaysInv(states, labels, c, n);
      assert StepAt(states, labels, c, n);
      StepPending(states[n], labels[n], c, id);
    }
  }

  // ---- what an answer leads to ----------------------------------------------------------

  /** An answer moves its proxy on exactly if it is Ok; one that says stopping
      sends it back to ask again, if it has time left; any other ends it. */
  lemma ReceivedAs(s: Sys, id: Id, retry: bool, c: Config)
    requires Enabled(s, Receive(id, retry))
    ensures var s' := Next(s, Receive(id, retry), c); var status := s.rpcs[id].response.status;
      && id !in s'.rpcs && s'.sup == s.sup
      && (Has(s', id, Connecting) <==> Has(s, id, AskingUp) && status == Ok)
      && (Has(s', id, Forwarding) <==> Has(s, id, Registering) && status == Ok)
      && (Has(s', id, Preparing) <==> (Has(s, id, AskingUp) || Has(s, id, Registering)) && status == Stopping && retry)
      && (!Has(s', id, Connecting) && !Has(s', id, Forwarding) && !Has(s', id, Preparing) ==> Has(s', id, Closed))
  {}

  /** An ENSURE_UP answered Ok, and all that follows on it, has a boot behind it. */
  predicate NeedsBoot(s: Sys, id: Id) {
    || (Has(s, id, AskingUp) && AnsweredAs(s, id, EnsureUp, Ok))
    || Has(s, id, Connecting) || Has(s, id, Registering) || Has(s, id, Forwarding) || Has(s, id, Unregistering)
  }

  lemma HandlerNeedsBoot(s: Sys, l: Label, c: Config, id: Id)
    requires Inv(s) && Enabled(s, l) && NeedsBoot(Next(s, l, c), id)
    requires l == Handle(id) || l == GetLock(id) || (l.BootEnds? && l.id == id)
    ensures NeedsBoot(s, id) || Next(s, l, c).sup.booted.Some?
  {
    if l.Handle? { HandledAs(s, id, c); }
  }

  lemma ProxyNeedsBoot(s: Sys, l: Label, c: Config, id: Id)
    requires Enabled(s, l) && NeedsBoot(Next(s, l, c), id) && id in s.phases && Matched(s, id)
    requires l == Ask(id) || l == Connected(id) || l == EndForward(id) || l == GiveUp(id) || (l.Receive? && l.id == id)
    ensures NeedsBoot(s, id)
  {
    if l.Receive? { ReceivedAs(s, id, l.retry, c); }
  }

  lemma StepNeedsBoot(s: Sys, l: Label, c: Config, id: Id)
    requires Inv(s) && Enabled(s, l) && NeedsBoot(Next(s, l, c), id)
    ensures NeedsBoot(s, id) || Next(s, l, c).sup.booted.Some?
  {
    if !Concerns(l, id) {
      Unconcerned(s, l, c, id);
    } else if l.Handle? || l.GetLock? || l.BootEnds? {
      HandlerNeedsBoot(s, l, c, id);
    } else {
      assert id in s.phases && Matched(s, id);
      ProxyNeedsBoot(s, l, c, id);
    }
  }

  /** No proxy connects, registers or forwards before a boot has succeeded. */
  lemma {:induction false} ConnectsToBooted(states: seq<Sys>, labels: seq<Label>, c: Config, n: nat, id: Id)
    requires Behaviour(states, labels, c) && n < |states| && NeedsBoot(states[n], id)
    ensures exists k: nat | k < n :: BootedOk(labels, k)
  {
    assert n > 0;
    assert StepAt(states, labels, c, n - 1);
    AlwaysInv(states, labels, c, n - 1);
    StepNeedsBoot(states[n - 1], labels[n - 1], c, id);
    if NeedsBoot(states[n - 1], id) {
      ConnectsToBooted(states, labels, c, n - 1, id);
    } else {
      BootedIff(states, labels, c, n);
    }
  }

  // ---- how the supervisor ends ---------------------------------------------------------------

  /** The loop finds the VM dead, and nobody is stopping it. */
  predicate FindsDead(s: Sys, l: Label) {
    l == WakeUp(false) && !s.sup.stopping
  }

  /** Why the supervisor stops, and whether: a quiet or a hung guest, a signal, or
      a VM that died by itself, which leaves nothing to stop. */
  lemma StepReason(s: Sys, l: Label, c: Config)
    requires Enabled(s, l)
    ensures var s' := Next(s, l, c);
      && (s'.sup.stopping <==> s.sup.stopping || BeginsIdleStop(s, l, c) || BeginsHangStop(s, l, c) || l.SignalArrives?)
      && s'.sup.stopReason ==
           if BeginsIdleStop(s, l, c) then Idle else if BeginsHangStop(s, l, c) then Hung
           else if l.SignalArrives? then Signal else if FindsDead(s, l) then VmDied else s.sup.stopReason
  {}

  /** It ends at exactly the step that finds the VM dead or completes a stop. */
  lemma StepExits(s: Sys, l: Label, c: Config)
    requires Enabled(s, l)
    ensures Next(s, l, c).exited <==> s.exited || FindsDead(s, l) || l.LoopStopDone? || l.SignalStopDone?
  {
    match l
    case WakeUp(alive) => if alive { LoopGoesOn(s.sup, s.loop, c, true, 0); }
    case ProbeEnds(answers, now) => LoopGoesOn(s.sup, s.loop, c, answers, now);
    case _ =>
  }

  lemma LoopGoesOn(s: Sup, l: Loop, c: Config, answers: bool, now: int)
    ensures Tick(s, l, c, true).1.pc == Ended ==> l.pc == Ended
    ensures Probed(s, l, c, answers, now).1.pc == Ended ==> l.pc == Ended
  {}
}

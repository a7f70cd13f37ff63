// Any number of proxies with one supervisor, interleaved at every await
// (pkgs/vzlink/src/vzlink/supervisor.py with proxy.py).

module VzlinkProtocol {
  import opened Prelude
  import opened VzlinkSupervisor

  /** Where a proxy is in `_bring_up` and `_run_proxy`. */
  datatype Phase = Preparing | AskingUp | Connecting | Registering | Forwarding | Unregistering | Closed

  /** A proxy's request, from the moment it is sent until its answer is read. */
  datatype Rpc = Requested(op: Op) | Waiting | Booting | Answered(response: Response)

  datatype SignalPc = Listening | SignalStopping

  datatype Sys = Sys(
    sup: Sup,
    loop: Loop,
    signal: SignalPc,
    exited: bool,
    idleStopped: bool,       // history: an idle stop has begun
    phases: map<Id, Phase>,  // one proxy per connection id
    rpcs: map<Id, Rpc>)

  datatype Label =
    // a proxy
    | Ask(id: Id)                  // send ENSURE_UP
    | Connected(id: Id)            // upstream is open: send REGISTER
    | EndForward(id: Id)           // forwarding is over: send UNREGISTER
    | Receive(id: Id, retry: bool) // read the answer
    | GiveUp(id: Id)               // a timeout, an error, or the process dies
    // the supervisor's tasks
    | Handle(id: Id)
    | GetLock(id: Id)
    | BootEnds(id: Id, status: Status, info: string)
    | WakeUp(alive: bool)
    | ProbeEnds(answers: bool, now: int)
    | LoopStopDone
    | SignalArrives
    | SignalStopDone

  predicate Has(s: Sys, id: Id, p: Phase) {
    id in s.phases && s.phases[id] == p
  }

  predicate Rpcing(s: Sys, id: Id, r: Rpc) {
    id in s.rpcs && s.rpcs[id] == r
  }

  predicate Enabled(s: Sys, l: Label) {
    match l
    case Ask(id) => Has(s, id, Preparing) && !s.exited
    case Connected(id) => Has(s, id, Connecting)
    case EndForward(id) => Has(s, id, Forwarding)
    case Receive(id, _) => id in s.phases && id in s.rpcs && s.rpcs[id].Answered?
    case GiveUp(id) => id in s.phases
    case Handle(id) => !s.exited && id in s.rpcs && s.rpcs[id].Requested?
    case GetLock(id) => !s.exited && Rpcing(s, id, Waiting) && s.sup.lockHolder.None?
    case BootEnds(id, status, _) => !s.exited && Rpcing(s, id, Booting) && status != Stopping
    case WakeUp(_) => !s.exited && s.loop.pc == Sleeping
    case ProbeEnds(_, _) => !s.exited && s.loop.pc == Probing
    case LoopStopDone => !s.exited && s.loop.pc == StoppingVm
    case SignalArrives => !s.exited && s.signal == Listening
    case SignalStopDone => !s.exited && s.signal == SignalStopping
  }

  /** Where reading an answer takes the proxy: `check_response`, then the stage it was at. */
  function AfterAnswer(p: Phase, r: Response, retry: bool): Phase {
    match p
    case AskingUp => if r.status == Ok then Connecting else if r.status == Stopping && retry then Preparing else Closed
    case Registering => if r.status == Ok then Forwarding
      else if r.status == Stopping && retry then Preparing else Closed
    case _ => Closed
  }

  function Moved(s: Sys, id: Id, p: Phase): Sys {
    s.(phases := s.phases[id := p])
  }

  function Next(s: Sys, l: Label, c: Config): Sys
    requires Enabled(s, l)
  {
    match l
    case Ask(id) => Moved(s, id, AskingUp).(rpcs := s.rpcs[id := Requested(EnsureUp)])
    case Connected(id) => Moved(s, id, Registering).(rpcs := s.rpcs[id := Requested(Register)])
    case EndForward(id) => Moved(s, id, Unregistering).(rpcs := s.rpcs[id := Requested(Unregister)])
    case Receive(id, retry) =>
      Moved(s, id, AfterAnswer(s.phases[id], s.rpcs[id].response, retry)).(rpcs := s.rpcs - {id})
    case GiveUp(id) => Moved(s, id, Closed)
    case Handle(id) =>
      var (sup, d) := Dispatch(s.sup, s.rpcs[id].op, id);
      s.(sup := sup, rpcs := s.rpcs[id := if d.Replied? then Answered(d.response) else Waiting])
    case GetLock(id) =>
      var (sup, answer) := Acquire(s.sup, id);
      s.(sup := sup, rpcs := s.rpcs[id := if answer.Some? then Answered(answer.value) else Booting])
    case BootEnds(id, status, info) =>
      var answer := Response(EnsureUp, status, info);
      s.(sup := FinishBoot(s.sup, answer), rpcs := s.rpcs[id := Answered(answer)])
    case WakeUp(alive) => AfterLoop(s, Tick(s.sup, s.loop, c, alive))
    case ProbeEnds(answers, now) => AfterLoop(s, Probed(s.sup, s.loop, c, answers, now))
    case LoopStopDone => s.(loop := s.loop.(pc := Ended), exited := true)
    case SignalArrives => s.(sup := BeginStop(s.sup, Signal), signal := SignalStopping)
    case SignalStopDone => s.(exited := true)
  }

  /** The idle loop's return cancels every other task. */
  function AfterLoop(s: Sys, r: (Sup, Loop)): Sys {
    s.(sup := r.0, loop := r.1, exited := s.exited || r.1.pc == Ended,
       idleStopped := s.idleStopped || (r.1.pc == StoppingVm && r.0.stopReason == Idle))
  }

  predicate BeginsIdleStop(s: Sys, l: Label, c: Config) {
    Enabled(s, l) && s.loop.pc != StoppingVm
    && Next(s, l, c).loop.pc == StoppingVm && Next(s, l, c).sup.stopReason == Idle
  }

  // ---- the invariant --------------------------------------------------------------------

  /** Between an accepted REGISTER and its UNREGISTER being handled. */
  predicate Live(s: Sys, id: Id) {
    || (Has(s, id, Registering) && id in s.rpcs && s.rpcs[id].Answered? && s.rpcs[id].response.status == Ok)
    || Has(s, id, Forwarding)
    || (Has(s, id, Unregistering) && Rpcing(s, id, Requested(Unregister)))
  }

  /** What a proxy's phase says about its request. A closed proxy may have left one behind. */
  predicate Matched(s: Sys, id: Id)
    requires id in s.phases
  {
    match s.phases[id]
    case Preparing => id !in s.rpcs
    case Connecting => id !in s.rpcs
    case Forwarding => id !in s.rpcs
    case AskingUp =>
      id in s.rpcs && match s.rpcs[id] {
        case Requested(op) => op == EnsureUp
        case Answered(r) => r.op == EnsureUp
        case _ => true
      }
    case Registering =>
      id in s.rpcs &&
      (s.rpcs[id] == Requested(Register) || (s.rpcs[id].Answered? && s.rpcs[id].response.op == Register))
    case Unregistering =>
      id in s.rpcs && (s.rpcs[id] == Requested(Unregister) || s.rpcs[id].Answered?)
    case Closed => true
  }

  ghost predicate Inv(s: Sys) {
    && s.rpcs.Keys <= s.phases.Keys
    && (forall id | id in s.phases :: Matched(s, id))
    && (forall id | id in s.phases && Live(s, id) :: id in s.sup.conns)
    && (forall id | id in s.rpcs :: s.rpcs[id] == Booting <==> s.sup.lockHolder == Some(id))
    && (s.sup.lockHolder.Some? ==> s.sup.lockHolder.value in s.rpcs && s.sup.booted.None?)
    && (s.sup.booted.Some? ==> s.sup.booted.value.status == Ok && s.sup.booted.value.op == EnsureUp)
    && (s.idleStopped ==> s.sup.stopping && forall id | id in s.phases :: !Live(s, id))
    && (s.loop.pc == StoppingVm ==> s.sup.stopping)
  }

  ghost predicate Initial(s: Sys) {
    && s.sup == Fresh && s.loop == LoopStart && s.signal == Listening && !s.exited && !s.idleStopped
    && s.rpcs == map[] && forall id | id in s.phases :: s.phases[id] == Preparing
  }

  /** A step on one connection id leaves every other proxy where it was. */
  lemma OthersKeep(s: Sys, s': Sys, id: Id)
    requires Inv(s) && s'.phases.Keys == s.phases.Keys
    requires forall other | other in s.phases && other != id ::
      && s'.phases[other] == s.phases[other]
      && (other in s'.rpcs <==> other in s.rpcs) && (other in s.rpcs ==> s'.rpcs[other] == s.rpcs[other])
    ensures forall other | other in s'.phases && other != id ::
      Matched(s', other) && (Live(s', other) <==> Live(s, other))
  {
    forall other | other in s'.phases && other != id
      ensures Matched(s', other) && (Live(s', other) <==> Live(s, other))
    {
      assert Matched(s, other);
    }
  }

  /** A change confined to one proxy and its request, with the supervisor untouched. */
  lemma OneProxyKeeps(s: Sys, s': Sys, id: Id)
    requires Inv(s) && id in s.phases && s'.phases.Keys == s.phases.Keys && s'.rpcs.Keys <= s.rpcs.Keys + {id}
    requires s' == s.(phases := s'.phases, rpcs := s'.rpcs)
    requires forall other | other in s.phases && other != id ::
      && s'.phases[other] == s.phases[other]
      && (other in s'.rpcs <==> other in s.rpcs) && (other in s.rpcs ==> s'.rpcs[other] == s.rpcs[other])
    requires Matched(s', id) && (Live(s', id) ==> Live(s, id))
    requires id in s.rpcs && s.rpcs[id] == Booting ==> id in s'.rpcs && s'.rpcs[id] == Booting
    requires id in s'.rpcs && s'.rpcs[id] == Booting ==> id in s.rpcs && s.rpcs[id] == Booting
    ensures Inv(s')
  {
    OthersKeep(s, s', id);
  }

  lemma ProxyKeeps(s: Sys, l: Label, id: Id, c: Config)
    requires Inv(s) && Enabled(s, l)
    requires l == Ask(id) || l == Connected(id) || l == EndForward(id) || l == GiveUp(id) || (l.Receive? && l.id == id)
    ensures Inv(Next(s, l, c))
  {
    var s' := Next(s, l, c);
    assert Matched(s, id);
    assert Matched(s', id) && (Live(s', id) ==> Live(s, id));
    OneProxyKeeps(s, s', id);
  }

  lemma HandleKeeps(s: Sys, id: Id, c: Config)
    requires Inv(s) && Enabled(s, Handle(id))
    ensures Inv(Next(s, Handle(id), c))
  {
    var s' := Next(s, Handle(id), c);
    OthersKeep(s, s', id);
    assert Matched(s, id);
    assert Matched(s', id) && (Live(s', id) ==> id in s'.sup.conns);
    assert Live(s', id) ==> Live(s, id) || !s.sup.stopping;
    assert s'.sup.conns == s.sup.conns || s'.sup.conns == s.sup.conns + {id} || s'.sup.conns == s.sup.conns - {id};
    assert s'.sup.(conns := s.sup.conns) == s.sup;
  }

  lemma BootKeeps(s: Sys, l: Label, id: Id, c: Config)
    requires Inv(s) && Enabled(s, l) && (l == GetLock(id) || (l.BootEnds? && l.id == id))
    ensures Inv(Next(s, l, c))
  {
    var s' := Next(s, l, c);
    OthersKeep(s, s', id);
    assert Matched(s, id);
    assert Matched(s', id) && (Live(s', id) ==> Live(s, id));
  }

  /** The idle loop and the signal watcher leave proxies, requests, connections
      and boots alone; they may begin an idle stop only while nobody is live. */
  lemma StopKeeps(s: Sys, s': Sys)
    requires Inv(s) && s'.phases == s.phases && s'.rpcs == s.rpcs && s'.sup.conns == s.sup.conns
    requires s'.sup.lockHolder == s.sup.lockHolder && s'.sup.booted == s.sup.booted
    requires s'.idleStopped && !s.idleStopped ==> s'.sup.stopping && s.sup.conns == {}
    requires s.sup.stopping ==> s'.sup.stopping
    requires s'.loop.pc == StoppingVm ==> s'.sup.stopping
    ensures Inv(s')
  {
    forall id | id in s'.phases
      ensures Matched(s', id) && (Live(s', id) <==> Live(s, id))
    {
      assert Matched(s, id);
    }
  }

  lemma LoopFrame(s: Sup, l: Loop, c: Config, alive: bool, answers: bool, now: int)
    ensures var (s1, l1) := Tick(s, l, c, alive);
      && s1.conns == s.conns && s1.lockHolder == s.lockHolder && s1.booted == s.booted
      && (s.stopping ==> s1.stopping)
      && (l1.pc == StoppingVm && l.pc != StoppingVm ==>
            s1.stopping && s.lockHolder.None? && (s1.stopReason == Idle ==> s.conns == {}))
    ensures var (s2, l2) := Probed(s, l, c, answers, now);
      && s2.conns == s.conns && s2.lockHolder == s.lockHolder && s2.booted == s.booted
      && (s.stopping ==> s2.stopping)
      && (l2.pc == StoppingVm && l.pc != StoppingVm ==>
            s2.stopping && (s2.stopReason == Idle ==> s.conns == {} && s.lockHolder.None?))
  {}

  lemma LoopKeeps(s: Sys, l: Label, c: Config)
    requires Inv(s) && Enabled(s, l)
    requires l.WakeUp? || l.ProbeEnds? || l.LoopStopDone? || l.SignalArrives? || l.SignalStopDone?
    ensures Inv(Next(s, l, c))
  {
    match l
    case WakeUp(alive) => LoopFrame(s.sup, s.loop, c, alive, true, 0); StopKeeps(s, Next(s, l, c));
    case ProbeEnds(answers, now) => LoopFrame(s.sup, s.loop, c, true, answers, now); StopKeeps(s, Next(s, l, c));
    case LoopStopDone => StopKeeps(s, Next(s, l, c));
    case SignalArrives => StopKeeps(s, Next(s, l, c));
    case SignalStopDone => StopKeeps(s, Next(s, l, c));
  }

  lemma InvKept(s: Sys, l: Label, c: Config)
    requires Inv(s) && Enabled(s, l)
    ensures Inv(Next(s, l, c))
  {
    match l
    case Handle(id) => HandleKeeps(s, id, c);
    case GetLock(id) => BootKeeps(s, l, id, c);
    case BootEnds(id, _, _) => BootKeeps(s, l, id, c);
    case WakeUp(_) => LoopKeeps(s, l, c);
    case ProbeEnds(_, _) => LoopKeeps(s, l, c);
    case LoopStopDone => LoopKeeps(s, l, c);
    case SignalArrives => LoopKeeps(s, l, c);
    case SignalStopDone => LoopKeeps(s, l, c);
    case Ask(id) => ProxyKeeps(s, l, id, c);
    case Connected(id) => ProxyKeeps(s, l, id, c);
    case EndForward(id) => ProxyKeeps(s, l, id, c);
    case Receive(id, _) => ProxyKeeps(s, l, id, c);
    case GiveUp(id) => ProxyKeeps(s, l, id, c);
  }

  // ---- behaviours -------------------------------------------------------------------------

  ghost predicate Behaviour(states: seq<Sys>, labels: seq<Label>, c: Config) {
    && |states| == |labels| + 1 && Initial(states[0])
    && forall i {:trigger StepAt(states, labels, c, i)} | 0 <= i < |labels| :: StepAt(states, labels, c, i)
  }

  ghost predicate StepAt(states: seq<Sys>, labels: seq<Label>, c: Config, i: nat)
    requires |states| == |labels| + 1 && i < |labels|
  {
    Enabled(states[i], labels[i]) && states[i + 1] == Next(states[i], labels[i], c)
  }

  lemma {:induction false} AlwaysInv(states: seq<Sys>, labels: seq<Label>, c: Config, i: nat)
    requires Behaviour(states, labels, c) && i < |states|
    ensures Inv(states[i])
  {
    if i > 0 {
      AlwaysInv(states, labels, c, i - 1);
      assert StepAt(states, labels, c, i - 1);
      InvKept(states[i - 1], labels[i - 1], c);
    }
  }

  lemma BeginsQuietly(s: Sys, l: Label, c: Config)
    requires BeginsIdleStop(s, l, c)
    ensures s.sup.conns == {} && s.sup.lockHolder.None? && Next(s, l, c).idleStopped
  {
    match l
    case WakeUp(alive) => LoopFrame(s.sup, s.loop, c, alive, true, 0);
    case ProbeEnds(answers, now) => LoopFrame(s.sup, s.loop, c, true, answers, now);
    case _ =>
  }

  /** The step that begins an idle stop finds no connection, no boot in flight
      and no proxy between an accepted REGISTER and its UNREGISTER; and none is
      there at any later moment. */
  lemma IdleStopCutsNobody(states: seq<Sys>, labels: seq<Label>, c: Config, i: nat, j: nat, id: Id)
    requires Behaviour(states, labels, c) && i < |labels| && BeginsIdleStop(states[i], labels[i], c)
    requires i <= j < |states| && id in states[j].phases
    ensures states[i].sup.conns == {} && states[i].sup.lockHolder.None?
    ensures !Live(states[j], id)
  {
    AlwaysInv(states, labels, c, i);
    AlwaysInv(states, labels, c, j);
    assert StepAt(states, labels, c, i);
    BeginsQuietly(states[i], labels[i], c);
    if j > i {
      IdleStoppedStays(states, labels, c, i + 1, j);
    }
  }

  lemma {:induction false} IdleStoppedStays(states: seq<Sys>, labels: seq<Label>, c: Config, i: nat, j: nat)
    requires Behaviour(states, labels, c) && i <= j < |states| && states[i].idleStopped
    ensures states[j].idleStopped
  {
    if i < j {
      IdleStoppedStays(states, labels, c, i, j - 1);
      assert StepAt(states, labels, c, j - 1);
    }
  }

  lemma StepStopping(s: Sys, l: Label, c: Config)
    requires Enabled(s, l) && s.sup.stopping
    ensures Next(s, l, c).sup.stopping && Next(s, l, c).sup.conns <= s.sup.conns
  {
    match l
    case WakeUp(alive) => LoopFrame(s.sup, s.loop, c, alive, true, 0);
    case ProbeEnds(answers, now) => LoopFrame(s.sup, s.loop, c, true, answers, now);
    case _ =>
  }

  /** `stopping` never reverts and from then on `conns` only shrinks. */
  lemma {:induction false} StoppingIsFinal(states: seq<Sys>, labels: seq<Label>, c: Config, i: nat, j: nat)
    requires Behaviour(states, labels, c) && i <= j < |states| && states[i].sup.stopping
    ensures states[j].sup.stopping && states[j].sup.conns <= states[i].sup.conns
  {
    if i < j {
      StoppingIsFinal(states, labels, c, i, j - 1);
      assert StepAt(states, labels, c, j - 1);
      StepStopping(states[j - 1], labels[j - 1], c);
    }
  }

  // ---- boot is single-flight ------------------------------------------------------------------

  /** Two boots never overlap. */
  lemma OneBootAtATime(states: seq<Sys>, labels: seq<Label>, c: Config, i: nat, a: Id, b: Id)
    requires Behaviour(states, labels, c) && i < |states|
    requires Rpcing(states[i], a, Booting) && Rpcing(states[i], b, Booting)
    ensures a == b && states[i].sup.booted.None?
  {
    AlwaysInv(states, labels, c, i);
  }

  lemma StepBooted(s: Sys, l: Label, c: Config)
    requires Inv(s) && Enabled(s, l) && s.sup.booted.Some?
    ensures Next(s, l, c).sup.booted == s.sup.booted
    ensures l.GetLock? ==> Rpcing(Next(s, l, c), l.id, Answered(s.sup.booted.value))
  {
    match l
    case WakeUp(alive) => LoopFrame(s.sup, s.loop, c, alive, true, 0);
    case ProbeEnds(answers, now) => LoopFrame(s.sup, s.loop, c, true, answers, now);
    case _ =>
  }

  lemma BootSucceeds(s: Sys, l: Label, c: Config)
    requires Enabled(s, l) && l.BootEnds? && l.status == Ok
    ensures Next(s, l, c).sup.booted == Some(Response(EnsureUp, Ok, l.info))
  {}

  lemma NobodyBoots(s: Sys)
    requires Inv(s) && s.sup.booted.Some?
    ensures forall id :: !Rpcing(s, id, Booting)
  {}

  lemma {:induction false} BootedStays(states: seq<Sys>, labels: seq<Label>, c: Config, i: nat, j: nat)
    requires Behaviour(states, labels, c) && i <= j < |states| && states[i].sup.booted.Some?
    ensures states[j].sup.booted == states[i].sup.booted
  {
    if i < j {
      BootedStays(states, labels, c, i, j - 1);
      AlwaysInv(states, labels, c, j - 1);
      assert StepAt(states, labels, c, j - 1);
      StepBooted(states[j - 1], labels[j - 1], c);
    }
  }

  /** Once a boot has succeeded its answer is kept, nothing boots any more, and
      every later ask that gets the lock is answered with it. */
  lemma SuccessIsRemembered(states: seq<Sys>, labels: seq<Label>, c: Config, i: nat, j: nat)
    requires Behaviour(states, labels, c) && i < |labels| && i < j < |states|
    requires labels[i].BootEnds? && labels[i].status == Ok
    ensures var answer := Response(EnsureUp, Ok, labels[i].info);
      && states[j].sup.booted == Some(answer)
      && (forall id :: !Rpcing(states[j], id, Booting))
      && (j < |labels| && labels[j].GetLock? ==> Rpcing(states[j + 1], labels[j].id, Answered(answer)))
  {
    assert StepAt(states, labels, c, i);
    BootSucceeds(states[i], labels[i], c);
    BootedStays(states, labels, c, i + 1, j);
    AlwaysInv(states, labels, c, j);
    NobodyBoots(states[j]);
    if j < |labels| {
      assert StepAt(states, labels, c, j);
      StepBooted(states[j], labels[j], c);
    }
  }

  ghost predicate BootedOk(labels: seq<Label>, k: nat)
    requires k < |labels|
  {
    labels[k].BootEnds? && labels[k].status == Ok
  }

  lemma StepBootedIff(s: Sys, l: Label, c: Config)
    requires Enabled(s, l)
    ensures Next(s, l, c).sup.booted.Some? <==> s.sup.booted.Some? || (l.BootEnds? && l.status == Ok)
  {
    match l
    case WakeUp(alive) => LoopFrame(s.sup, s.loop, c, alive, true, 0);
    case ProbeEnds(answers, now) => LoopFrame(s.sup, s.loop, c, true, answers, now);
    case _ =>
  }

  lemma {:induction false} BootedIff(states: seq<Sys>, labels: seq<Label>, c: Config, n: nat)
    requires Behaviour(states, labels, c) && n < |states|
    ensures states[n].sup.booted.Some? <==> exists k: nat | k < n :: BootedOk(labels, k)
  {
    if n > 0 {
      BootedIff(states, labels, c, n - 1);
      assert StepAt(states, labels, c, n - 1);
      StepBootedIff(states[n - 1], labels[n - 1], c);
      assert BootedOk(labels, n - 1) <==> labels[n - 1].BootEnds? && labels[n - 1].status == Ok;
    }
  }

  /** Failed boots are not remembered: whoever gets the lock, whenever, boots
      exactly if no boot has succeeded so far. */
  lemma AskerBootsIff(states: seq<Sys>, labels: seq<Label>, c: Config, n: nat)
    requires Behaviour(states, labels, c) && n < |labels| && labels[n].GetLock?
    ensures Rpcing(states[n + 1], labels[n].id, Booting) <==> forall k: nat | k < n :: !BootedOk(labels, k)
  {
    BootedIff(states, labels, c, n);
    assert StepAt(states, labels, c, n);
  }

  /** A failed boot is answered to its asker and not remembered: unless some
      boot has succeeded, whoever gets the lock next boots again. */
  lemma FailureIsForgotten(states: seq<Sys>, labels: seq<Label>, c: Config, i: nat)
    requires Behaviour(states, labels, c) && i < |labels| && labels[i].BootEnds? && labels[i].status == Error
    ensures states[i + 1].sup.booted.None? && states[i + 1].sup.lockHolder.None?
    ensures i + 1 < |labels| && labels[i + 1].GetLock? ==> Rpcing(states[i + 2], labels[i + 1].id, Booting)
  {
    AlwaysInv(states, labels, c, i);
    assert StepAt(states, labels, c, i);
    if i + 1 < |labels| { assert StepAt(states, labels, c, i + 1); }
  }
}

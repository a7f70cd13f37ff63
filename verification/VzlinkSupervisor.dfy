// The VM supervisor's state and the pieces of its coroutines that run between
// two awaits (pkgs/vzlink/src/vzlink/supervisor.py).

module VzlinkSupervisor {
  import opened Prelude

  type Id = string

  datatype Op = EnsureUp | Register | Unregister | Unknown
  datatype Status = Ok | Error | Stopping
  datatype Response = Response(op: Op, status: Status, info: string)
  datatype StopReason = Idle | Signal | VmDied | Hung

  /** Durations in whole units; a hang timeout of 0 disables that test. */
  datatype Config = Config(idlePoll: nat, idleTimeout: nat, hangTimeout: nat)

  datatype Sup = Sup(
    conns: set<Id>,
    lockHolder: Option<Id>,
    booted: Option<Response>,
    stopReason: StopReason,
    stopping: bool)

  const Fresh := Sup({}, None, None, Idle, false)

  /** What a request's handler does up to its first await: answer, or queue for the boot lock. */
  datatype Dispatched = Replied(response: Response) | WaitsForLock

  function Dispatch(s: Sup, op: Op, id: Id): (Sup, Dispatched) {
    if s.stopping && (op == EnsureUp || op == Register) then (s, Replied(Response(op, Stopping, "")))
    else match op
      case EnsureUp => (s, WaitsForLock)
      case Register => (s.(conns := s.conns + {id}), Replied(Response(op, Ok, "")))
      case Unregister => (s.(conns := s.conns - {id}), Replied(Response(op, Ok, "")))
      case Unknown => (s, Replied(Response(op, Error, "unknown op")))
  }

  /** The lock is acquired: answer what is remembered, or start booting under it. */
  function Acquire(s: Sup, id: Id): (Sup, Option<Response>) {
    if s.booted.Some? then (s, s.booted) else (s.(lockHolder := Some(id)), None)
  }

  /** `_boot` has answered: remember only success, release the lock. */
  function FinishBoot(s: Sup, answer: Response): Sup {
    s.(lockHolder := None, booted := if answer.status == Ok then Some(answer) else s.booted)
  }

  /** `stop_vm` up to its first await. */
  function BeginStop(s: Sup, reason: StopReason): Sup {
    s.(stopReason := reason, stopping := true)
  }

  // ---- the idle loop -------------------------------------------------------------

  datatype LoopPc = Sleeping | Probing | StoppingVm | Ended

  datatype Loop = Loop(pc: LoopPc, idleFor: nat, silentSince: Option<int>)

  const LoopStart := Loop(Sleeping, 0, None)

  /** From the wake-up to the probe's await, or to the end of the tick. */
  function Tick(s: Sup, l: Loop, c: Config, alive: bool): (Sup, Loop) {
    if s.stopping then (s, l)
    else if !alive then (s.(stopReason := VmDied), l.(pc := Ended))
    else if c.hangTimeout > 0 && s.booted.Some? && s.lockHolder.None? then (s, l.(pc := Probing))
    else QuietCheck(s, l, c)
  }

  /** After the probe's answer. `stopping` is not looked at again. */
  function Probed(s: Sup, l: Loop, c: Config, answers: bool, now: int): (Sup, Loop) {
    if answers then QuietCheck(s, l.(silentSince := None), c)
    else
      var since := if l.silentSince.Some? then l.silentSince.value else now;
      var l' := l.(silentSince := Some(since));
      if now - since >= c.hangTimeout then (BeginStop(s, Hung), l'.(pc := StoppingVm))
      else QuietCheck(s, l', c)
  }

  function QuietCheck(s: Sup, l: Loop, c: Config): (Sup, Loop) {
    if s.conns != {} || s.lockHolder.Some? then (s, l.(pc := Sleeping, idleFor := 0))
    else if l.idleFor + c.idlePoll >= c.idleTimeout then
      (BeginStop(s, Idle), l.(pc := StoppingVm, idleFor := l.idleFor + c.idlePoll))
    else (s, l.(pc := Sleeping, idleFor := l.idleFor + c.idlePoll))
  }

  // ---- the object ------------------------------------------------------------------

  class Supervisor {
    var conns: set<Id>
    var bootLock: Option<Id>
    var booted: Option<Response>
    var stopReason: StopReason
    var stopping: bool
    // The idle loop's locals.
    var pc: LoopPc
    var idleFor: nat
    var silentSince: Option<int>
    const config: Config

    ghost function State(): Sup
      reads this
    {
      Sup(conns, bootLock, booted, stopReason, stopping)
    }

    ghost function LoopState(): Loop
      reads this
    {
      Loop(pc, idleFor, silentSince)
    }

    constructor (config: Config)
      ensures State() == Fresh && LoopState() == LoopStart && this.config == config
    {
      this.config := config;
      conns, bootLock, booted, stopReason, stopping := {}, None, None, Idle, false;
      pc, idleFor, silentSince := Sleeping, 0, None;
    }

    method HandleRequest(op: Op, id: Id) returns (d: Dispatched)
      modifies this`conns
      ensures (State(), d) == Dispatch(old(State()), op, id)
    {
      if stopping && (op == EnsureUp || op == Register) {
        return Replied(Response(op, Stopping, ""));
      }
      if op == EnsureUp {
        return WaitsForLock;
      }
      if op == Register {
        conns := conns + {id};
        return Replied(Response(op, Ok, ""));
      }
      if op == Unregister {
        conns := conns - {id};
        return Replied(Response(op, Ok, ""));
      }
      d := Replied(Response(op, Error, "unknown op"));
    }

    method TakeBootLock(id: Id) returns (answer: Option<Response>)
      requires bootLock.None?
      modifies this`bootLock
      ensures (State(), answer) == Acquire(old(State()), id)
    {
      bootLock := Some(id);
      if booted.Some? {
        bootLock := None;
        return booted;
      }
      answer := None;
    }

    method BootAnswered(answer: Response)
      modifies this`bootLock, this`booted
      ensures State() == FinishBoot(old(State()), answer)
    {
      if answer.status == Ok {
        booted := Some(answer);
      }
      bootLock := None;
    }

    method StopVm(reason: StopReason)
      modifies this`stopReason, this`stopping
      ensures State() == BeginStop(old(State()), reason)
    {
      stopReason := reason;
      stopping := true;
    }

    method WakeUp(alive: bool)
      requires pc == Sleeping
      modifies this
      ensures (State(), LoopState()) == Tick(old(State()), old(LoopState()), config, alive)
    {
      if stopping {
        return;
      }
      if !alive {
        stopReason, pc := VmDied, Ended;
        return;
      }
      if config.hangTimeout > 0 && booted.Some? && bootLock.None? {
        pc := Probing;
        return;
      }
      CheckQuiet();
    }

    method ProbeAnswered(answers: bool, now: int)
      requires pc == Probing
      modifies this
      ensures (State(), LoopState()) == Probed(old(State()), old(LoopState()), config, answers, now)
    {
      if answers {
        silentSince := None;
      } else {
        if silentSince.None? {
          silentSince := Some(now);
        }
        if now - silentSince.value >= config.hangTimeout {
          StopVm(Hung);
          pc := StoppingVm;
          return;
        }
      }
      CheckQuiet();
    }

    method CheckQuiet()
      modifies this
      ensures (State(), LoopState()) == QuietCheck(old(State()), old(LoopState()), config)
    {
      pc := Sleeping;
      if conns != {} || bootLock.Some? {
        idleFor := 0;
        return;
      }
      idleFor := idleFor + config.idlePoll;
      if idleFor >= config.idleTimeout {
        StopVm(Idle);
        pc := StoppingVm;
      }
    }
  }
}

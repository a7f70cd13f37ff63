// Which stops of an agent's turn are permitted (pkgs/wrapty/src/wrapty/wrapper.py):
// one mutable record driven by RPCs in any order.

module WraptyNudge {
  import opened Prelude

  const MIN_COMPACT_PCT := 25.0

  datatype Compaction = Compaction(instructions: string, usedPct: Option<real>)
  datatype Monitor = Monitor(pid: Option<int>, timeout: Option<real>, started: real)

  datatype Nudge = Nudge(
    allowStop: bool,
    resume: Option<string>,
    stopCount: nat,
    pendingCompact: Option<Compaction>,
    monitors: map<string, Monitor>,
    cooldowns: map<string, real>)

  const Initial := Nudge(false, None, 0, None, map[], map[])

  /** What the world looks like when a stop arrives: whether background tasks
      are outstanding, the loop's clock, which processes live. */
  datatype World = World(waiting: bool, now: real, alive: set<int>)

  datatype Rpc =
    | Send(resume: Option<string>)  // once its text has been typed
    | NeedUser(reason: string)
    | Compact(instructions: string, usedPct: Option<real>)
    | OnStop(world: World)
    | RegisterMonitor(tag: string, pid: Option<int>, timeout: Option<real>, now: real)
    | MonitorDone(tag: string)
    | MonitorList(world: World)
    | CheckCooldown(name: string, seconds: real, at: real)

  datatype Action = DoCompact(compaction: Compaction) | DoResume(text: string) | Allow | Wait | PushBack(count: nat)

  datatype Reply = Accepted | Refused | Stopped(action: Action) | Fires(yes: bool)

  predicate Blank(s: string) { forall c | c in s :: IsSpace(c) }

  /** A call that permits the next stop. */
  predicate Grants(r: Rpc) {
    match r
    case Send(resume) => resume.Some?
    case NeedUser(reason) => !Blank(reason)
    case Compact(_, pct) => !(pct.Some? && pct.value < MIN_COMPACT_PCT)
    case _ => false
  }

  predicate Dead(m: Monitor, w: World) {
    (m.pid.Some? && m.pid.value !in w.alive) || (m.timeout.Some? && w.now - m.started > m.timeout.value)
  }

  function Reaped(monitors: map<string, Monitor>, w: World): map<string, Monitor> {
    map l | l in monitors && !Dead(monitors[l], w) :: monitors[l]
  }

  /** `_stop_decision`: picks the kind of stop and consumes what permitted it. */
  function StopDecision(s: Nudge, waiting: bool): (Nudge, Action) {
    if s.pendingCompact.Some? then
      (s.(pendingCompact := None, allowStop := false, resume := None, stopCount := 0),
       DoCompact(s.pendingCompact.value))
    else if s.resume.Some? then
      (s.(resume := None, allowStop := false, stopCount := 0), DoResume(s.resume.value))
    else if s.allowStop then (s.(allowStop := false, stopCount := 0), Allow)
    else if s.monitors != map[] || waiting then (s.(stopCount := 0), Wait)
    else (s.(stopCount := s.stopCount + 1), PushBack(s.stopCount + 1))
  }

  function Apply(s: Nudge, r: Rpc): (Nudge, Reply) {
    match r
    case Send(resume) =>
      (if resume.Some? then s.(allowStop := true, resume := resume, stopCount := 0) else s, Accepted)
    case NeedUser(reason) =>
      if Grants(r) then (s.(allowStop := true, resume := None, stopCount := 0), Accepted) else (s, Refused)
    case Compact(instructions, pct) =>
      if Grants(r) then
        (s.(pendingCompact := Some(Compaction(instructions, pct)), allowStop := true, stopCount := 0), Accepted)
      else (s, Refused)
    case OnStop(w) =>
      var (s', action) := StopDecision(s.(monitors := Reaped(s.monitors, w)), w.waiting);
      (s', Stopped(action))
    case RegisterMonitor(tag, pid, timeout, now) =>
      (s.(monitors := s.monitors[tag := Monitor(pid, timeout, now)], stopCount := 0), Accepted)
    case MonitorDone(tag) => (s.(monitors := s.monitors - {tag}), Accepted)
    case MonitorList(w) => (s.(monitors := Reaped(s.monitors, w)), Accepted)
    case CheckCooldown(name, seconds, at) =>
      if name in s.cooldowns && at - s.cooldowns[name] < seconds then (s, Fires(false))
      else (s.(cooldowns := s.cooldowns[name := at]), Fires(true))
  }

  function Run(rpcs: seq<Rpc>): Nudge {
    if rpcs == [] then Initial else Apply(Run(rpcs[..|rpcs| - 1]), rpcs[|rpcs| - 1]).0
  }

  // ---- what the calls since the last stop mean, read off the history -------------

  function LastCompact(rpcs: seq<Rpc>): Option<Compaction> {
    if rpcs == [] then None
    else
      var last := rpcs[|rpcs| - 1];
      if last.OnStop? then None
      else if last.Compact? && Grants(last) then Some(Compaction(last.instructions, last.usedPct))
      else LastCompact(rpcs[..|rpcs| - 1])
  }

  /** The last accepted need_user or send-with-resume since the last stop. */
  function LastHandOver(rpcs: seq<Rpc>): (r: Option<Rpc>)
    ensures r.Some? ==> Grants(r.value) && !r.value.Compact? && r.value in rpcs
  {
    if rpcs == [] then None
    else
      var last := rpcs[|rpcs| - 1];
      if last.OnStop? then None
      else if !last.Compact? && Grants(last) then Some(last)
      else LastHandOver(rpcs[..|rpcs| - 1])
  }

  /** Permitting calls accepted since the last stop. */
  function Granted(rpcs: seq<Rpc>): nat {
    if rpcs == [] then 0
    else
      var last := rpcs[|rpcs| - 1];
      if last.OnStop? then 0 else Granted(rpcs[..|rpcs| - 1]) + if Grants(last) then 1 else 0
  }

  /** The record holds exactly what the calls since the last stop say; a pending
      compaction or resume implies that the stop is allowed. */
  lemma {:induction false} RecordMatchesCalls(rpcs: seq<Rpc>)
    ensures var s := Run(rpcs);
      && s.pendingCompact == LastCompact(rpcs)
      && s.resume == (if LastHandOver(rpcs).Some? && LastHandOver(rpcs).value.Send?
                      then LastHandOver(rpcs).value.resume else None)
      && (s.allowStop <==> Granted(rpcs) > 0)
      && (s.pendingCompact.Some? || s.resume.Some? ==> s.allowStop)
  {
    if rpcs != [] {
      RecordMatchesCalls(rpcs[..|rpcs| - 1]);
    }
  }

  /** After any history a stop is decided by the calls since the stop before it:
      the last compaction if there is one, else the last hand-over, and only
      without either by outstanding work. No permission is lost, kept past its
      stop, or taken from an older one. */
  lemma StopMeansCalls(rpcs: seq<Rpc>, w: World)
    ensures var (s', reply) := Apply(Run(rpcs), OnStop(w));
      && !s'.allowStop && s'.resume.None? && s'.pendingCompact.None?
      && reply == Stopped(
           if LastCompact(rpcs).Some? then DoCompact(LastCompact(rpcs).value)
           else if LastHandOver(rpcs).Some? then
             (if LastHandOver(rpcs).value.Send? then DoResume(LastHandOver(rpcs).value.resume.value) else Allow)
           else if Reaped(Run(rpcs).monitors, w) != map[] || w.waiting then Wait
           else PushBack(Streak(rpcs) + 1))
  {
    RecordMatchesCalls(rpcs);
    GrantedMeansCall(rpcs);
    CountIsStreak(rpcs);
  }

  lemma {:induction false} GrantedMeansCall(rpcs: seq<Rpc>)
    ensures Granted(rpcs) > 0 <==> LastCompact(rpcs).Some? || LastHandOver(rpcs).Some?
  {
    if rpcs != [] { GrantedMeansCall(rpcs[..|rpcs| - 1]); }
  }

  /** Stops pushed back in a row, with nothing granted or registered between. */
  function Streak(rpcs: seq<Rpc>): nat {
    if rpcs == [] then 0
    else
      var init, last := rpcs[..|rpcs| - 1], rpcs[|rpcs| - 1];
      if last.OnStop? then
        if Granted(init) == 0 && Reaped(Run(init).monitors, last.world) == map[] && !last.world.waiting
        then Streak(init) + 1 else 0
      else if Grants(last) || last.RegisterMonitor? then 0
      else Streak(init)
  }

  lemma {:induction false} CountIsStreak(rpcs: seq<Rpc>)
    ensures Run(rpcs).stopCount == Streak(rpcs)
  {
    if rpcs != [] {
      CountIsStreak(rpcs[..|rpcs| - 1]);
      RecordMatchesCalls(rpcs[..|rpcs| - 1]);
    }
  }

  /** A hand-over is refused exactly for a reason of white space, a compaction
      exactly below a quarter of the context, nothing else is, and a refusal
      changes nothing. */
  lemma RefusalsMean(s: Nudge, r: Rpc)
    ensures Apply(s, r).1 == Refused <==>
      || (r.NeedUser? && forall c | c in r.reason :: IsSpace(c))
      || (r.Compact? && r.usedPct.Some? && r.usedPct.value < 25.0)
    ensures Apply(s, r).1 == Refused ==> Apply(s, r).0 == s
  {}

  // ---- permissions are conserved ------------------------------------------------

  predicate Permitted(a: Action) {
    a.DoCompact? || a.DoResume? || a.Allow?
  }

  function PermittedStops(rpcs: seq<Rpc>): nat {
    if rpcs == [] then 0
    else
      var init, last := rpcs[..|rpcs| - 1], rpcs[|rpcs| - 1];
      PermittedStops(init) + Stops(Run(init), last)
  }

  /** One call's stop, if it is a permitted one. */
  function Stops(s: Nudge, r: Rpc): nat {
    if r.OnStop? && Permitted(Apply(s, r).1.action) then 1 else 0
  }

  /** A permission is spent by its stop. */
  lemma PermissionSpent(s: Nudge, r: Rpc)
    requires s.pendingCompact.Some? || s.resume.Some? ==> s.allowStop
    ensures Stops(s, r) + (if Apply(s, r).0.allowStop then 1 else 0)
         <= (if s.allowStop then 1 else 0) + if Grants(r) then 1 else 0
  {}

  /** Over any sequence of RPCs compact, resume and allow stops together, plus
      the permission still held, never outnumber the accepted calls. */
  lemma {:induction false} PermissionsConserved(rpcs: seq<Rpc>)
    ensures PermittedStops(rpcs) + (if Run(rpcs).allowStop then 1 else 0) <= CountIf(rpcs, Grants)
  {
    if rpcs != [] {
      var init, last := rpcs[..|rpcs| - 1], rpcs[|rpcs| - 1];
      PermissionsConserved(init);
      RecordMatchesCalls(init);
      PermissionSpent(Run(init), last);
      CountIfConcat(init, [last], Grants);
      CountIfSmall(last, last, Grants);
      assert init + [last] == rpcs;
    }
  }

  // ---- monitors ---------------------------------------------------------------------

  /** Call i registered the monitor, and since then nothing registered it anew,
      called it done, or looked and found it dead. */
  predicate Outstanding(rpcs: seq<Rpc>, i: nat, tag: string) {
    && i < |rpcs| && rpcs[i].RegisterMonitor? && rpcs[i].tag == tag
    && forall j | i < j < |rpcs| :: !Drops(rpcs[j], tag, MonitorOf(rpcs[i]))
  }

  function MonitorOf(r: Rpc): Monitor
    requires r.RegisterMonitor?
  {
    Monitor(r.pid, r.timeout, r.now)
  }

  /** Its process is gone, or it has run for longer than it may. */
  predicate Gone(m: Monitor, alive: set<int>, now: real) {
    || (m.pid.Some? && m.pid.value !in alive)
    || (m.timeout.Some? && m.started + m.timeout.value < now)
  }

  predicate Drops(r: Rpc, tag: string, m: Monitor) {
    match r
    case RegisterMonitor(other, _, _, _) => other == tag
    case MonitorDone(other) => other == tag
    case OnStop(w) => Gone(m, w.alive, w.now)
    case MonitorList(w) => Gone(m, w.alive, w.now)
    case _ => false
  }

  lemma OutstandingSnoc(rpcs: seq<Rpc>, i: nat, tag: string)
    requires rpcs != []
    ensures var init, last := rpcs[..|rpcs| - 1], rpcs[|rpcs| - 1];
      Outstanding(rpcs, i, tag) <==>
        if i == |init| then last.RegisterMonitor? && last.tag == tag
        else Outstanding(init, i, tag) && !Drops(last, tag, MonitorOf(rpcs[i]))
  {
    assert forall j | 0 <= j < |rpcs| - 1 :: rpcs[..|rpcs| - 1][j] == rpcs[j];
  }

  lemma MonitorStep(s: Nudge, r: Rpc, tag: string)
    ensures var monitors := Apply(s, r).0.monitors;
      if r.RegisterMonitor? && r.tag == tag then tag in monitors && monitors[tag] == MonitorOf(r)
      else (tag in monitors <==> tag in s.monitors && !Drops(r, tag, s.monitors[tag]))
           && (tag in monitors ==> monitors[tag] == s.monitors[tag])
  {}

  /** A monitor holds off the nudge exactly from its registration until it is
      done, registered anew, or found dead at a stop or a listing. */
  lemma {:induction false} MonitorsExact(rpcs: seq<Rpc>, tag: string)
    ensures tag in Run(rpcs).monitors <==> exists i: nat :: Outstanding(rpcs, i, tag)
    ensures forall i: nat | Outstanding(rpcs, i, tag) ::
      tag in Run(rpcs).monitors && Run(rpcs).monitors[tag] == MonitorOf(rpcs[i])
  {
    if rpcs != [] {
      var init, last := rpcs[..|rpcs| - 1], rpcs[|rpcs| - 1];
      MonitorsExact(init, tag);
      MonitorStep(Run(init), last, tag);
      OutstandingSnoc(rpcs, |init|, tag);
      forall i: nat | Outstanding(rpcs, i, tag)
        ensures tag in Run(rpcs).monitors && Run(rpcs).monitors[tag] == MonitorOf(rpcs[i])
      {
        OutstandingSnoc(rpcs, i, tag);
        assert i < |init| ==> init[i] == rpcs[i];
      }
      if tag in Run(rpcs).monitors && !(last.RegisterMonitor? && last.tag == tag) {
        var i: nat :| Outstanding(init, i, tag);
        assert init[i] == rpcs[i];
        OutstandingSnoc(rpcs, i, tag);
      }
    }
  }

  // ---- cooldowns -------------------------------------------------------------------

  predicate FiresAt(rpcs: seq<Rpc>, i: nat, name: string)
    requires i < |rpcs|
  {
    rpcs[i].CheckCooldown? && rpcs[i].name == name && Apply(Run(rpcs[..i]), rpcs[i]).1 == Fires(true)
  }

  /** The loop's clock does not go back between cooldown checks. */
  predicate MonotoneChecks(rpcs: seq<Rpc>) {
    forall i, j | 0 <= i <= j < |rpcs| && rpcs[i].CheckCooldown? && rpcs[j].CheckCooldown? :: rpcs[i].at <= rpcs[j].at
  }

  /** The last firing of a name among the first n calls. */
  predicate LastFiring(rpcs: seq<Rpc>, n: nat, i: nat, name: string)
    requires n <= |rpcs|
  {
    i < n && FiresAt(rpcs, i, name) && forall j | i < j < n :: !FiresAt(rpcs, j, name)
  }

  lemma CooldownStep(rpcs: seq<Rpc>, n: nat, name: string)
    requires n < |rpcs|
    ensures var c, c' := Run(rpcs[..n]).cooldowns, Run(rpcs[..n + 1]).cooldowns;
      if FiresAt(rpcs, n, name) then name in c' && c'[name] == rpcs[n].at
      else (name in c' <==> name in c) && (name in c ==> c'[name] == c[name])
  {
    assert rpcs[..n + 1][..n] == rpcs[..n];
  }

  lemma LastFiringStep(rpcs: seq<Rpc>, n: nat, i: nat, name: string)
    requires n < |rpcs|
    ensures LastFiring(rpcs, n + 1, i, name) <==>
      if FiresAt(rpcs, n, name) then i == n else LastFiring(rpcs, n, i, name)
  {}

  /** A cooldown is on record exactly if its name has fired, and holds the time
      of its last firing. */
  lemma {:induction false} CooldownIsLatest(rpcs: seq<Rpc>, n: nat, name: string)
    requires n <= |rpcs|
    ensures var c := Run(rpcs[..n]).cooldowns;
      && (name in c <==> exists i: nat :: LastFiring(rpcs, n, i, name))
      && (forall i: nat | LastFiring(rpcs, n, i, name) :: name in c && c[name] == rpcs[i].at)
      && (name !in c ==> forall i | 0 <= i < n :: !FiresAt(rpcs, i, name))
  {
    if n > 0 {
      CooldownIsLatest(rpcs, n - 1, name);
      CooldownStep(rpcs, n - 1, name);
      LastFiringStep(rpcs, n - 1, n - 1, name);
      forall i: nat
        ensures LastFiring(rpcs, n, i, name) <==>
          if FiresAt(rpcs, n - 1, name) then i == n - 1 else LastFiring(rpcs, n - 1, i, name)
      {
        LastFiringStep(rpcs, n - 1, i, name);
      }
      if name in Run(rpcs[..n]).cooldowns && !FiresAt(rpcs, n - 1, name) {
        var i: nat :| LastFiring(rpcs, n - 1, i, name);
        LastFiringStep(rpcs, n - 1, i, name);
      }
    }
  }

  /** A check fires exactly if every earlier firing of its name is at least
      `seconds` old. */
  lemma CooldownSpacing(rpcs: seq<Rpc>, j: nat, name: string)
    requires j < |rpcs| && MonotoneChecks(rpcs) && rpcs[j].CheckCooldown? && rpcs[j].name == name
    ensures FiresAt(rpcs, j, name) <==>
      forall i | 0 <= i < j && FiresAt(rpcs, i, name) :: rpcs[j].at - rpcs[i].at >= rpcs[j].seconds
  {
    var c := Run(rpcs[..j]).cooldowns;
    CooldownIsLatest(rpcs, j, name);
    if name in c {
      var last: nat :| LastFiring(rpcs, j, last, name);
      assert forall i | 0 <= i < j && FiresAt(rpcs, i, name) :: i <= last && rpcs[i].at <= rpcs[last].at;
    }
  }

  // ---- the record, updated in place ------------------------------------------------

  class Session {
    var allowStop: bool
    var resume: Option<string>
    var stopCount: nat
    var pendingCompact: Option<Compaction>
    var monitors: map<string, Monitor>
    var cooldowns: map<string, real>

    ghost function State(): Nudge
      reads this
    {
      Nudge(allowStop, resume, stopCount, pendingCompact, monitors, cooldowns)
    }

    constructor ()
      ensures State() == Initial
    {
      allowStop, resume, stopCount, pendingCompact := false, None, 0, None;
      monitors, cooldowns := map[], map[];
    }

    method Typed(resume: Option<string>)
      modifies this
      ensures State() == Apply(old(State()), Send(resume)).0
    {
      if resume.Some? {
        this.allowStop := true;
        this.resume := resume;
        this.stopCount := 0;
      }
    }

    method CallUser(reason: string) returns (reply: Reply)
      modifies this
      ensures (State(), reply) == Apply(old(State()), NeedUser(reason))
    {
      if Blank(reason) {
        return Refused;
      }
      allowStop, resume, stopCount := true, None, 0;
      reply := Accepted;
    }

    method ScheduleCompact(instructions: string, usedPct: Option<real>) returns (reply: Reply)
      modifies this
      ensures (State(), reply) == Apply(old(State()), Compact(instructions, usedPct))
    {
      if usedPct.Some? && usedPct.value < MIN_COMPACT_PCT {
        return Refused;
      }
      pendingCompact := Some(Compaction(instructions, usedPct));
      allowStop, stopCount := true, 0;
      reply := Accepted;
    }

    /** `_reap_monitors` over `_dead_monitors`. */
    method ReapMonitors(w: World)
      modifies this`monitors
      ensures monitors == Reaped(old(monitors), w)
    {
      var dead: set<string> := {};
      var rest := monitors.Keys;
      while rest != {}
        invariant monitors == old(monitors) && rest <= monitors.Keys
        invariant dead == set l | l in monitors.Keys - rest && Dead(monitors[l], w)
        decreases rest
      {
        var tag :| tag in rest;
        var info := monitors[tag];
        if info.pid.Some? && info.pid.value !in w.alive {
          dead := dead + {tag};
        } else if info.timeout.Some? && w.now - info.started > info.timeout.value {
          dead := dead + {tag};
        }
        rest := rest - {tag};
      }
      monitors := monitors - dead;
    }

    method Stop(w: World) returns (action: Action)
      modifies this
      ensures (State(), Stopped(action)) == Apply(old(State()), OnStop(w))
    {
      ReapMonitors(w);
      if pendingCompact.Some? {
        action := DoCompact(pendingCompact.value);
        pendingCompact, allowStop, resume, stopCount := None, false, None, 0;
      } else if resume.Some? {
        action := DoResume(resume.value);
        resume, allowStop, stopCount := None, false, 0;
      } else if allowStop {
        action := Allow;
        allowStop, stopCount := false, 0;
      } else if monitors != map[] || w.waiting {
        action := Wait;
        stopCount := 0;
      } else {
        stopCount := stopCount + 1;
        action := PushBack(stopCount);
      }
    }

    method Register(tag: string, pid: Option<int>, timeout: Option<real>, now: real)
      modifies this
      ensures State() == Apply(old(State()), RegisterMonitor(tag, pid, timeout, now)).0
    {
      monitors := monitors[tag := Monitor(pid, timeout, now)];
      stopCount := 0;
    }

    method Done(tag: string)
      modifies this
      ensures State() == Apply(old(State()), MonitorDone(tag)).0
    {
      monitors := monitors - {tag};
    }

    method Cooldown(name: string, seconds: real, at: real) returns (fires: bool)
      modifies this
      ensures (State(), Fires(fires)) == Apply(old(State()), CheckCooldown(name, seconds, at))
    {
      if name in cooldowns && at - cooldowns[name] < seconds {
        return false;
      }
      cooldowns := cooldowns[name := at];
      fires := true;
    }

    /** The dispatcher: one call, whichever it is. */
    method Serve(rpc: Rpc) returns (reply: Reply)
      modifies this
      ensures (State(), reply) == Apply(old(State()), rpc)
    {
      reply := Accepted;
      match rpc {
        case Send(resume) => Typed(resume);
        case NeedUser(reason) => reply := CallUser(reason);
        case Compact(instructions, usedPct) => reply := ScheduleCompact(instructions, usedPct);
        case OnStop(world) =>
          var action := Stop(world);
          reply := Stopped(action);
        case RegisterMonitor(tag, pid, timeout, now) => Register(tag, pid, timeout, now);
        case MonitorDone(tag) => Done(tag);
        case MonitorList(world) => ReapMonitors(world);
        case CheckCooldown(name, seconds, at) =>
          var fires := Cooldown(name, seconds, at);
          reply := Fires(fires);
      }
    }

    /** A session's life: whatever is called in whatever order, the record ends as the run says. */
    method ServeAll(rpcs: seq<Rpc>)
      requires State() == Initial
      modifies this
      ensures State() == Run(rpcs)
    {
      for i := 0 to |rpcs|
        invariant State() == Run(rpcs[..i])
      {
        var _ := Serve(rpcs[i]);
        assert rpcs[..i + 1][..i] == rpcs[..i];
      }
      assert rpcs[..|rpcs|] == rpcs;
    }
  }
}

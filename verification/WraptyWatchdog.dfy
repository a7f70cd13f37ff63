// The idle watchdog (pkgs/wrapty/src/wrapty/wrapper.py): poke a session that
// went quiet with work outstanding, backing off, and give up in the end.

module WraptyWatchdog {
  import opened Prelude
  import opened WraptyTranscript

  const POKE := 300000
  const POKE_MAX := 1800000
  const POKE_LIMIT := 3

  datatype Action = StopWatching | Poke | KeepWaiting

  /** `_idle_step`: one tick's action, next interval and poke count. */
  function IdleStep(progressed: bool, moved: bool, waiting: bool, interval: nat, pokes: nat): (Action, nat, nat) {
    if !waiting then (StopWatching, POKE, 0)
    else if progressed then (KeepWaiting, POKE, 0)
    else if moved then (KeepWaiting, interval, pokes)
    else (Poke, if interval * 2 < POKE_MAX then interval * 2 else POKE_MAX, pokes + 1)
  }

  datatype Tick = Tick(progressed: bool, moved: bool, waiting: bool)

  /** The loop's variables, the pokes typed and the ticks with progress so far. */
  datatype Watch = Watch(interval: nat, pokes: nat, typed: nat, progress: nat, over: bool)

  const Armed := Watch(POKE, 0, 0, 0, false)

  /** Neither over nor out of pokes. */
  predicate Going(w: Watch) {
    !w.over && w.pokes < POKE_LIMIT
  }

  function After(w: Watch, t: Tick): Watch {
    if !Going(w) then w.(over := true)
    else
      var (action, interval, pokes) := IdleStep(t.progressed, t.moved, t.waiting, w.interval, w.pokes);
      Watch(interval, pokes, w.typed + (if action == Poke then 1 else 0),
            w.progress + (if t.waiting && t.progressed then 1 else 0), action == StopWatching)
  }

  function Run(ticks: seq<Tick>): Watch {
    if ticks == [] then Armed else After(Run(ticks[..|ticks| - 1]), ticks[|ticks| - 1])
  }

  function Backoff(pokes: nat): nat {
    if pokes == 0 then POKE
    else if Backoff(pokes - 1) * 2 < POKE_MAX then Backoff(pokes - 1) * 2 else POKE_MAX
  }

  ghost predicate Bounded(w: Watch) {
    && w.interval == Backoff(w.pokes) && POKE <= w.interval <= POKE_MAX
    && w.pokes <= POKE_LIMIT
    && w.typed <= POKE_LIMIT * w.progress + w.pokes + (if w.over then POKE_LIMIT - w.pokes else 0)
  }

  lemma AfterBounded(w: Watch, t: Tick)
    requires Bounded(w)
    ensures Bounded(After(w, t))
  {}

  /** In any run the pokes are at most POKE_LIMIT per tick with progress, plus
      POKE_LIMIT; the interval is the backoff of the pokes since the last
      progress, which answering with mere movement does not buy back. */
  lemma {:induction false} PokesBounded(ticks: seq<Tick>)
    ensures Bounded(Run(ticks))
    ensures Run(ticks).typed <= POKE_LIMIT * (Run(ticks).progress + 1)
  {
    if ticks != [] {
      PokesBounded(ticks[..|ticks| - 1]);
      AfterBounded(Run(ticks[..|ticks| - 1]), ticks[|ticks| - 1]);
    }
  }

  /** A watch that is not over has seen work outstanding at every tick. */
  lemma {:induction false} OverMeans(ticks: seq<Tick>)
    requires forall i | 0 <= i < |ticks| :: Run(ticks[..i]).pokes < POKE_LIMIT
    ensures Run(ticks).over <==> exists i :: 0 <= i < |ticks| && !ticks[i].waiting
  {
    if ticks != [] {
      var init := ticks[..|ticks| - 1];
      assert forall i | 0 <= i < |init| :: init[..i] == ticks[..i];
      OverMeans(init);
      assert ticks[..|init|] == init;
      assert forall i | 0 <= i < |init| :: init[i] == ticks[i];
    }
  }

  // ---- when it pokes -----------------------------------------------------------------

  /** At tick i the watch was on, work was outstanding, and nothing had happened. */
  predicate PokeAt(ticks: seq<Tick>, i: nat)
    requires i < |ticks|
  {
    Going(Run(ticks[..i])) && ticks[i].waiting && !ticks[i].progressed && !ticks[i].moved
  }

  function PokesAt(ticks: seq<Tick>): set<nat> {
    set i: nat | i < |ticks| && PokeAt(ticks, i)
  }

  /** Those with no progress since. */
  function PokesSinceProgress(ticks: seq<Tick>): set<nat> {
    set i: nat | i < |ticks| && PokeAt(ticks, i) && forall j | i < j < |ticks| :: !ticks[j].progressed
  }

  lemma PokesGrow(ticks: seq<Tick>)
    requires ticks != []
    ensures var n := |ticks| - 1; var init := ticks[..n];
      && PokesAt(ticks) == PokesAt(init) + (if PokeAt(ticks, n) then {n} else {})
      && PokesSinceProgress(ticks) ==
           (if ticks[n].progressed then {} else PokesSinceProgress(init)) + (if PokeAt(ticks, n) then {n} else {})
      && n !in PokesAt(init) && n !in PokesSinceProgress(init)
  {
    var n := |ticks| - 1;
    var init := ticks[..n];
    assert forall i | 0 <= i < n :: init[i] == ticks[i] && init[..i] == ticks[..i];
    assert forall i: nat | i < n :: PokeAt(init, i) <==> PokeAt(ticks, i);
  }

  lemma TickPokes(w: Watch, t: Tick)
    ensures After(w, t).typed == w.typed + if Going(w) && t.waiting && !t.progressed && !t.moved then 1 else 0
    ensures Going(w) && t.waiting ==>
      After(w, t).pokes == if t.progressed then 0 else w.pokes + if t.moved then 0 else 1
    ensures Going(w) ==> (After(w, t).over <==> !t.waiting)
  {}

  /** A status request is typed at exactly the ticks at which the session was
      silent with work outstanding and the work had not changed. */
  lemma {:induction false} TypedExact(ticks: seq<Tick>)
    ensures Run(ticks).typed == |PokesAt(ticks)|
  {
    if ticks != [] {
      var init, last := ticks[..|ticks| - 1], ticks[|ticks| - 1];
      TypedExact(init);
      PokesGrow(ticks);
      TickPokes(Run(init), last);
    }
  }

  /** The pokes counted while the watch is on are those since the work last changed. */
  lemma {:induction false} PokesCounted(ticks: seq<Tick>)
    requires forall i | 0 <= i < |ticks| :: Going(Run(ticks[..i]))
    ensures !Run(ticks).over ==> Run(ticks).pokes == |PokesSinceProgress(ticks)|
  {
    if ticks != [] {
      var n := |ticks| - 1;
      var init := ticks[..n];
      assert forall i | 0 <= i < n :: init[..i] == ticks[..i];
      PokesCounted(init);
      PokesGrow(ticks);
      TickPokes(Run(init), ticks[n]);
    }
  }

  /** The watch looks after five minutes, after its first poke after ten, after
      its second after twenty, and its third is the last. */
  lemma IntervalsMean(ticks: seq<Tick>)
    requires Going(Run(ticks))
    ensures Run(ticks).pokes in {0, 1, 2}
    ensures Run(ticks).interval == match Run(ticks).pokes case 0 => 300000 case 1 => 600000 case _ => 1200000
    ensures forall t :: !After(Run(ticks), t).over ==>
      (Going(After(Run(ticks), t)) <==> After(Run(ticks), t).pokes != 3)
  {
    PokesBounded(ticks);
    assert Backoff(1) == 600000 && Backoff(2) == 1200000;
    forall t
      ensures After(Run(ticks), t).pokes <= 3
    {
      AfterBounded(Run(ticks), t);
    }
  }

  // ---- the loop, and why it ends -----------------------------------------------------

  /** The transcript at one look: its fingerprint, if there is a file, and its entries. */
  datatype Look = Look(mark: Option<(nat, int)>, entries: seq<Entry>)

  function Ids(tasks: seq<Task>): set<string> {
    set t | t in tasks :: t.id
  }

  function LastDeadline(events: seq<Event>): (d: int)
    ensures forall t: Task | Started(t) in events :: t.deadline <= d
  {
    if events == [] then 0
    else
      var d := LastDeadline(events[..|events| - 1]);
      var last := events[|events| - 1];
      assert events == events[..|events| - 1] + [last];
      if last.Started? && last.task.deadline > d then last.task.deadline else d
  }

  /** Every start carries a timestamp and no later look shows a new one. */
  ghost predicate NoNewWork(looks: nat -> Look) {
    && (forall n :: Timestamped(looks(n).entries))
    && (forall n, t :: Started(t) in Events(looks(n).entries, 0) ==> Started(t) in Events(looks(0).entries, 0))
  }

  lemma OpenBeforeDeadline(looks: nat -> Look, n: nat, now: int)
    requires NoNewWork(looks) && OpenTasks(looks(n).entries, now) != []
    ensures now < LastDeadline(Events(looks(0).entries, 0))
  {
    var entries := looks(n).entries;
    var t := OpenTasks(entries, now)[0];
    assert t in OpenTasks(entries, now);
    OpenTasksExact(entries, now, t);
    assert Timestamped(entries);
    EventsFixed(entries, now, 0);
    assert Started(t) in Events(entries, 0);
  }

  /** The loop's memory of its look n: the fingerprint and the open ids. */
  ghost predicate Remembers(looks: nat -> Look, n: nat, now: int, mark: Option<(nat, int)>, openIds: set<string>) {
    mark == looks(n).mark && openIds == Ids(OpenTasks(looks(n).entries, now))
  }

  function Horizon(looks: nat -> Look): int {
    LastDeadline(Events(looks(0).entries, 0))
  }

  /** What a tick sees: this look at the transcript against the one before. */
  function Seen(before: Look, earlier: int, after: Look, now: int): Tick {
    var was, tasks := OpenTasks(before.entries, earlier), OpenTasks(after.entries, now);
    Tick(Ids(tasks) != Ids(was), after.mark != before.mark, tasks != [])
  }

  /** Tick i is the one seen, after the interval its predecessors left (sleeps
      may run late) while they had neither used up the pokes nor ended the watch. */
  ghost predicate WitnessAt(looks: nat -> Look, late: nat -> nat, times: seq<int>, ticks: seq<Tick>, i: nat)
    requires i < |ticks| && i + 1 < |times|
  {
    && ticks[i] == Seen(looks(i), times[i], looks(i + 1), times[i + 1])
    && times[i + 1] == times[i] + Run(ticks[..i]).interval + late(i)
    && Going(Run(ticks[..i]))
  }

  ghost predicate Witnessed(looks: nat -> Look, late: nat -> nat, times: seq<int>, ticks: seq<Tick>) {
    && |times| == |ticks| + 1
    && forall i | 0 <= i < |ticks| :: WitnessAt(looks, late, times, ticks, i)
  }

  /** The loop's state after some ticks. */
  ghost predicate Watching(
    looks: nat -> Look, late: nat -> nat, times: seq<int>, ticks: seq<Tick>, w: Watch, now: int) {
    && Witnessed(looks, late, times, ticks) && times[|ticks|] == now
    && Run(ticks) == w
  }

  lemma WatchOne(
    looks: nat -> Look, late: nat -> nat, times: seq<int>, ticks: seq<Tick>, w: Watch, now: int, now': int, tick: Tick)
    requires Watching(looks, late, times, ticks, w, now) && Going(w)
    requires now' == now + w.interval + late(|ticks|)
    requires tick == Seen(looks(|ticks|), now, looks(|ticks| + 1), now')
    ensures Watching(looks, late, times + [now'], ticks + [tick], After(w, tick), now')
  {
    var ticks', times' := ticks + [tick], times + [now'];
    assert ticks'[..|ticks|] == ticks == ticks[..|ticks|];
    forall i | 0 <= i < |ticks'|
      ensures WitnessAt(looks, late, times', ticks', i)
    {
      assert ticks'[..i] == ticks[..i];
      assert i < |ticks| ==> WitnessAt(looks, late, times, ticks, i);
    }
  }

  /** One sleep and one look at the transcript, compared with the look before. */
  method TickOnce(
    looks: nat -> Look, late: nat -> nat, ghost times: seq<int>, ticks: seq<Tick>, ghost w: Watch,
    interval: nat, earlier: int, mark: Option<(nat, int)>, openIds: set<string>)
    returns (now: int, tick: Tick, mark': Option<(nat, int)>, ids: set<string>)
    requires NoNewWork(looks) && Remembers(looks, |ticks|, earlier, mark, openIds)
    requires Watching(looks, late, times, ticks, w, earlier) && Going(w) && w.interval == interval
    ensures now >= earlier + interval && Remembers(looks, |ticks| + 1, now, mark', ids)
    ensures Watching(looks, late, times + [now], ticks + [tick], After(w, tick), now)
    ensures tick.waiting ==> now < Horizon(looks)
  {
    var n := |ticks|;
    now := earlier + interval + late(n);
    mark' := looks(n + 1).mark;
    var waiting := ReadOpenTasks(looks(n + 1).entries, now);
    ids := Ids(waiting);
    tick := Tick(ids != openIds, mark' != mark, waiting != []);
    if waiting != [] { OpenBeforeDeadline(looks, n + 1, now); }
    WatchOne(looks, late, times, ticks, w, earlier, now, tick);
  }

  lemma GoingOnWaits(ticks: seq<Tick>, i: nat)
    requires 0 < i <= |ticks| && Going(Run(ticks[..i - 1])) && Going(Run(ticks[..i]))
    ensures ticks[i - 1].waiting
  {
    assert ticks[..i][..i - 1] == ticks[..i - 1] && ticks[..i][i - 1] == ticks[i - 1];
  }

  lemma TickBeforeHorizon(looks: nat -> Look, late: nat -> nat, times: seq<int>, ticks: seq<Tick>, i: nat)
    requires NoNewWork(looks) && Witnessed(looks, late, times, ticks) && 0 < i < |ticks|
    ensures times[i] < Horizon(looks)
  {
    assert WitnessAt(looks, late, times, ticks, i - 1) && WitnessAt(looks, late, times, ticks, i);
    GoingOnWaits(ticks, i);
    OpenBeforeDeadline(looks, i, times[i]);
  }

  /** Every tick but the last comes before the last deadline, and so they are
      at most as many as poll intervals fit before it, and one. */
  lemma TicksBeforeHorizon(looks: nat -> Look, late: nat -> nat, times: seq<int>, ticks: seq<Tick>)
    requires NoNewWork(looks) && Witnessed(looks, late, times, ticks)
    ensures forall i | 0 < i < |ticks| :: times[i] < Horizon(looks)
    ensures |ticks| > 1 ==> (|ticks| - 1) * POKE < Horizon(looks) - times[0]
  {
    forall i | 0 < i < |ticks|
      ensures times[i] < Horizon(looks)
    {
      TickBeforeHorizon(looks, late, times, ticks, i);
    }
    if |ticks| > 1 { TicksTakeTime(looks, late, times, ticks, |ticks| - 1); }
  }

  lemma {:induction false} TicksTakeTime(
    looks: nat -> Look, late: nat -> nat, times: seq<int>, ticks: seq<Tick>, n: nat)
    requires Witnessed(looks, late, times, ticks) && n <= |ticks|
    ensures n * POKE <= times[n] - times[0]
  {
    if n > 0 {
      TicksTakeTime(looks, late, times, ticks, n - 1);
      assert WitnessAt(looks, late, times, ticks, n - 1);
      PokesBounded(ticks[..n - 1]);
    }
  }

  predicate OpenIn(tasks: seq<Task>, id: string) {
    exists t :: t in tasks && t.id == id
  }

  /** The same ids are open. */
  predicate SameOpen(was: seq<Task>, tasks: seq<Task>) {
    (forall t | t in tasks :: OpenIn(was, t.id)) && (forall u | u in was :: OpenIn(tasks, u.id))
  }

  lemma IdsMean(tasks: seq<Task>)
    ensures forall id :: id in Ids(tasks) <==> OpenIn(tasks, id)
  {}

  lemma SameOpenIds(was: seq<Task>, tasks: seq<Task>)
    ensures SameOpen(was, tasks) <==> Ids(was) == Ids(tasks)
  {
    IdsMean(was);
    IdsMean(tasks);
    assert forall t | t in tasks :: OpenIn(tasks, t.id);
    assert forall u | u in was :: OpenIn(was, u.id);
    if SameOpen(was, tasks) {
      forall id
        ensures OpenIn(was, id) <==> OpenIn(tasks, id)
      {}
    }
  }

  /** From look i to the next nothing happened to a session with work outstanding:
      no task came or went and the transcript did not change. */
  predicate SilentAt(looks: nat -> Look, times: seq<int>, i: nat)
    requires i + 1 < |times|
  {
    var tasks := OpenTasks(looks(i + 1).entries, times[i + 1]);
    tasks != [] && looks(i + 1).mark == looks(i).mark && SameOpen(OpenTasks(looks(i).entries, times[i]), tasks)
  }

  /** The watch pokes at exactly the looks that find the session silent. */
  lemma PokesTheSilent(looks: nat -> Look, late: nat -> nat, times: seq<int>, ticks: seq<Tick>)
    requires Witnessed(looks, late, times, ticks)
    ensures Run(ticks).typed == |set i: nat | i < |ticks| && SilentAt(looks, times, i)|
  {
    TypedExact(ticks);
    forall i: nat | i < |ticks|
      ensures PokeAt(ticks, i) <==> SilentAt(looks, times, i)
    {
      assert WitnessAt(looks, late, times, ticks, i);
      SameOpenIds(OpenTasks(looks(i).entries, times[i]), OpenTasks(looks(i + 1).entries, times[i + 1]));
    }
    assert PokesAt(ticks) == set i: nat | i < |ticks| && SilentAt(looks, times, i);
  }

  /** `_watch_idle` returns: each tick advances the clock by a positive interval
      and no task outlives its deadline. It pokes as the run of the ticks it saw
      says, and leaves off when nothing is outstanding or the limit is reached. */
  method WatchIdle(looks: nat -> Look, late: nat -> nat, start: int)
    returns (ticks: seq<Tick>, typed: nat, ghost times: seq<int>)
    requires NoNewWork(looks)
    ensures Witnessed(looks, late, times, ticks) && times[0] == start
    ensures typed == Run(ticks).typed
    ensures looks(0).mark.None? ==> ticks == []
    ensures looks(0).mark.Some? ==> Run(ticks).over || Run(ticks).pokes == POKE_LIMIT
  {
    ticks, typed, times := [], 0, [start];
    var now, mark := start, looks(0).mark;
    assert Watching(looks, late, times, ticks, Armed, now);
    if mark.None? {
      return;
    }
    var open := ReadOpenTasks(looks(0).entries, now);
    var openIds := Ids(open);
    var interval: nat, pokes: nat := POKE, 0;
    ghost var w := Armed;
    while pokes < POKE_LIMIT
      invariant Watching(looks, late, times, ticks, w, now) && times[0] == start
      invariant Remembers(looks, |ticks|, now, mark, openIds)
      invariant interval > 0 && w == Watch(interval, pokes, typed, w.progress, false)
      decreases Horizon(looks) - now
    {
      var tick;
      now, tick, mark, openIds := TickOnce(looks, late, times, ticks, w, interval, now, mark, openIds);
      w, ticks, times := After(w, tick), ticks + [tick], times + [now];
      var (action, interval', pokes') := IdleStep(tick.progressed, tick.moved, tick.waiting, interval, pokes);
      interval, pokes := interval', pokes';
      if action == StopWatching {
        return;
      }
      if action == Poke {
        typed := typed + 1;
      }
    }
  }
}

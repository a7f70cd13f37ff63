// In which order the open tasks are answered (pkgs/wrapty/src/wrapty/transcript.py),
// and when that is the order they started in.

module WraptyOrder {
  import opened Prelude
  import opened WraptyTranscript

  /** Ordered by the starts that are in force. */
  ghost predicate InStartOrder(events: seq<Event>, tasks: seq<Task>) {
    forall k, l, i: nat, j: nat
      | 0 <= k < l < |tasks| && LatestStart(events, i, tasks[k]) && LatestStart(events, j, tasks[l]) :: i < j
  }

  /** t was there first, and was started again after u's start. */
  ghost predicate Overtaken(events: seq<Event>, t: Task, u: Task) {
    exists b: nat, c: nat, i: nat, j: nat ::
      Born(events, b, t.id) && Born(events, c, u.id) && LatestStart(events, i, t) && LatestStart(events, j, u)
      && b < c && j < i
  }

  /** The answer is in the order its tasks started exactly if none of them was
      started again, while open, after a younger one had. */
  lemma StartOrderIff(entries: seq<Entry>, now: int)
    ensures var events, tasks := Events(entries, now), OpenTasks(entries, now);
      InStartOrder(events, tasks) <==> forall t, u | t in tasks && u in tasks :: !Overtaken(events, t, u)
  {
    var events, tasks := Events(entries, now), OpenTasks(entries, now);
    OpenTasksOrdered(entries, now);
    if t, u :| t in tasks && u in tasks && Overtaken(events, t, u) {
      OvertakenOutOfOrder(events, tasks, t, u);
    }
    if !InStartOrder(events, tasks) {
      var k, l, i: nat, j: nat :|
        0 <= k < l < |tasks| && LatestStart(events, i, tasks[k]) && LatestStart(events, j, tasks[l]) && !(i < j);
      assert tasks[k] in tasks && tasks[l] in tasks;
      assert HasBirth(events, tasks[k].id) && HasBirth(events, tasks[l].id);
      assert Overtaken(events, tasks[k], tasks[l]);
    }
  }

  lemma OvertakenOutOfOrder(events: seq<Event>, tasks: seq<Task>, t: Task, u: Task)
    requires InBirthOrder(events, tasks) && t in tasks && u in tasks && Overtaken(events, t, u)
    ensures !InStartOrder(events, tasks)
  {
    var k :| 0 <= k < |tasks| && tasks[k] == t;
    var l :| 0 <= l < |tasks| && tasks[l] == u;
    var b: nat, c: nat, i: nat, j: nat :|
      Born(events, b, t.id) && Born(events, c, u.id) && LatestStart(events, i, t) && LatestStart(events, j, u)
      && b < c && j < i;
    EarlierBirth(events, tasks, k, l, b, c);
    assert LatestStart(events, i, tasks[k]) && LatestStart(events, j, tasks[l]);
  }

  lemma EarlierBirth(events: seq<Event>, tasks: seq<Task>, k: nat, l: nat, b: nat, c: nat)
    requires InBirthOrder(events, tasks) && k < |tasks| && l < |tasks|
    requires Born(events, b, tasks[k].id) && Born(events, c, tasks[l].id) && b < c
    ensures k < l
  {
    BornAtMeans(events, b, tasks[k].id);
    BornAtMeans(events, c, tasks[l].id);
  }

  function Opening(id: string): Entry {
    Entry(Some(1), [], Some(Result(Some(id), None, None, None, false, None)), None)
  }

  function Opened(id: string): Task {
    Task(id, Command, "command", 1 + DEFAULT_BOUND + GRACE)
  }

  lemma OpeningEvents(entries: seq<Entry>, id: string, now: int)
    requires id != "" && BlocksOf(entries) == []
    ensures Events(entries + [Opening(id)], now) == Events(entries, now) + [Started(TaskOf(id, Command,
              Opening(id).result.value, Use(Some(""), NoInput), 1))]
    ensures BlocksOf(entries + [Opening(id)]) == []
  {
    assert (entries + [Opening(id)])[..|entries|] == entries;
  }

  /** A log that opens a, b and a again, all in force: the answer begins with a,
      whose start is the youngest. */
  lemma RestartKeepsItsPlace()
    ensures var log := [Opening("a")] + [Opening("b")] + [Opening("a")];
      && OpenTasks(log, 1) == [Opened("a"), Opened("b")]
      && !InStartOrder(Events(log, 1), OpenTasks(log, 1))
  {
    var a, b := Opened("a"), Opened("b");
    var one := [Opening("a")];
    assert [] + [Opening("a")] == one;
    OpeningEvents([], "a", 1);
    OpeningEvents(one, "b", 1);
    OpeningEvents(one + [Opening("b")], "a", 1);
    var log := one + [Opening("b")] + [Opening("a")];
    var events := [Started(a), Started(b), Started(a)];
    assert Events(log, 1) == events;
    RestartReplay(a, b);
    LiveBoth(a, b, 1);
    assert LatestStart(events, 2, a) && LatestStart(events, 1, b);
    assert OpenTasks(log, 1)[0] == a && OpenTasks(log, 1)[1] == b;
  }

  lemma RestartReplay(a: Task, b: Task)
    requires a.id != b.id
    ensures Replay([], [Started(a), Started(b), Started(a)]) == [a, b]
  {
    var events := [Started(a), Started(b), Started(a)];
    assert events == [Started(a)] + [Started(b), Started(a)];
    ReplayConcat([], [Started(a)], [Started(b), Started(a)]);
    ReplaySmall([], Started(a), Started(a));
    ReplaySmall([a], Started(b), Started(a));
    assert Put([], a) == [a] && Put([a], b) == [a, b];
    assert Put([a, b], a) == [a, b] by {
      assert [a, b][0].id == a.id;
    }
  }

  lemma LiveBoth(a: Task, b: Task, now: int)
    requires a.deadline > now && b.deadline > now
    ensures Live([a, b], now) == [a, b]
  {
    assert [a, b][..1] == [a] && [a][..0] == [];
    assert Live([a], now) == [a];
  }
}

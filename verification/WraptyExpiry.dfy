// Which open tasks time closes (pkgs/wrapty/src/wrapty/transcript.py): a start
// without a timestamp is read as happening now, at every look.

module WraptyExpiry {
  import opened Prelude
  import opened WraptyTranscript

  // ---- the entry that opened an id last --------------------------------------------

  predicate OpensId(e: Entry, id: string) {
    e.result.Some? && Opens(e.result.value).Some? && Opens(e.result.value).value.0 == id
  }

  predicate Mentions(e: Entry, id: string) {
    OpensId(e, id) || Ended(id) in AllStops(e.blocks) || Ended(id) in Closes(e)
  }

  /** Entry i starts the id and nothing after it starts or ends it. */
  predicate OpenedAt(entries: seq<Entry>, i: nat, id: string) {
    && i < |entries| && OpensId(entries[i], id) && Ended(id) !in Closes(entries[i])
    && forall j | i < j < |entries| :: !Mentions(entries[j], id)
  }

  /** The task entry i starts, looked at now. */
  function StartTask(entries: seq<Entry>, i: nat, now: int): Task
    requires i < |entries| && entries[i].result.Some? && Opens(entries[i].result.value).Some?
  {
    var e := entries[i];
    var (id, k) := Opens(e.result.value).value;
    TaskOf(id, k, e.result.value, Origin(e.blocks, BlocksOf(entries[..i + 1])), StartTime(e, now))
  }

  lemma {:induction false} StopsEnd(blocks: seq<Block>)
    ensures forall e | e in AllStops(blocks) :: e.Ended?
  {
    if blocks != [] { StopsEnd(blocks[..|blocks| - 1]); }
  }

  lemma {:induction false} LastStartThenEnds(events: seq<Event>, ends: seq<Event>, id: string)
    requires forall e | e in ends :: e.Ended?
    ensures LastStart(events + ends, id) == if Ended(id) in ends then None else LastStart(events, id)
  {
    if ends == [] {
      assert events + ends == events;
    } else {
      var init, last := ends[..|ends| - 1], ends[|ends| - 1];
      assert ends == init + [last] && last in ends;
      assert Init(events + ends) == events + init;
      LastStartThenEnds(events, init, id);
    }
  }

  lemma LastStartSnoc(events: seq<Event>, e: Event, id: string)
    ensures LastStart(events + [e], id) ==
      if !Touches(e, id) then LastStart(events, id) else if e.Started? then Some(e.task) else None
  {
    assert Init(events + [e]) == events;
  }

  /** What one more entry does to the latest start of an id. */
  lemma EntryStart(entries: seq<Entry>, id: string, now: int)
    requires entries != []
    ensures var e := entries[|entries| - 1];
      LastStart(Events(entries, now), id) ==
        if Ended(id) in Closes(e) then None
        else if OpensId(e, id) then Some(StartTask(entries, |entries| - 1, now))
        else if Ended(id) in AllStops(e.blocks) then None
        else LastStart(Events(entries[..|entries| - 1], now), id)
  {
    var e := entries[|entries| - 1];
    var before := Events(entries[..|entries| - 1], now);
    var stopped := before + AllStops(e.blocks);
    var starts := Starts(e, BlocksOf(entries), now);
    StopsEnd(e.blocks);
    LastStartThenEnds(before, AllStops(e.blocks), id);
    LastStartThenEnds(stopped + starts, Closes(e), id);
    assert entries[..|entries|] == entries;
    if starts == [] {
      assert stopped + starts == stopped;
    } else {
      LastStartSnoc(stopped, starts[0], id);
    }
  }

  /** The same, of which entry opened it. */
  lemma EntryOpens(entries: seq<Entry>, id: string, i: nat)
    requires entries != []
    ensures var init, e := entries[..|entries| - 1], entries[|entries| - 1];
      OpenedAt(entries, i, id) <==>
        if i == |init| then OpensId(e, id) && Ended(id) !in Closes(e) else OpenedAt(init, i, id) && !Mentions(e, id)
  {
    var init := entries[..|entries| - 1];
    assert forall j | 0 <= j < |init| :: init[j] == entries[j];
  }

  lemma StartBefore(entries: seq<Entry>, i: nat, now: int)
    requires i < |entries| - 1 && entries[i].result.Some? && Opens(entries[i].result.value).Some?
    ensures StartTask(entries[..|entries| - 1], i, now) == StartTask(entries, i, now)
  {
    assert entries[..|entries| - 1][..i + 1] == entries[..i + 1];
  }

  /** An id is open in the log exactly if some entry opened it last, and then it
      is as that entry says. */
  lemma {:induction false} OpenedAtMeans(entries: seq<Entry>, id: string, now: int)
    ensures LastStart(Events(entries, now), id).Some? <==> exists i: nat :: OpenedAt(entries, i, id)
    ensures forall i: nat | OpenedAt(entries, i, id) ::
      LastStart(Events(entries, now), id) == Some(StartTask(entries, i, now))
  {
    if entries != [] {
      var init, e := entries[..|entries| - 1], entries[|entries| - 1];
      OpenedAtMeans(init, id, now);
      EntryStart(entries, id, now);
      EntryOpens(entries, id, |init|);
      forall i: nat | OpenedAt(entries, i, id)
        ensures LastStart(Events(entries, now), id) == Some(StartTask(entries, i, now))
      {
        EntryOpens(entries, id, i);
        if i < |init| { StartBefore(entries, i, now); }
      }
      if LastStart(Events(entries, now), id).Some? && !OpensId(e, id) {
        var i: nat :| OpenedAt(init, i, id);
        EntryOpens(entries, id, i);
      }
    }
  }

  lemma OpenTask(entries: seq<Entry>, i: nat, id: string, now: int, t: Task)
    requires OpenedAt(entries, i, id) && t.id == id
    ensures t in OpenTasks(entries, now) <==> t == StartTask(entries, i, now) && t.deadline > now
  {
    OpenedAtMeans(entries, id, now);
    OpenTasksExact(entries, now, t);
    LastStartMeans(Events(entries, now), t);
  }

  // ---- expiry ------------------------------------------------------------------------

  ghost predicate Lists(entries: seq<Entry>, now: int, id: string) {
    exists t :: t in OpenTasks(entries, now) && t.id == id
  }

  /** An id whose latest start has no timestamp is answered at every look,
      whatever follows that start in the log, until an entry ends it. */
  lemma UntimestampedNeverExpires(entries: seq<Entry>, i: nat, id: string, now: int)
    requires OpenedAt(entries, i, id) && !Stamped(entries[i])
    ensures Lists(entries, now, id)
  {
    OpenTask(entries, i, id, now, StartTask(entries, i, now));
  }

  ghost predicate GoneFrom(entries: seq<Entry>, end: int, id: string) {
    forall now | now >= end :: !Lists(entries, now, id)
  }

  /** An open id is no longer answered from some time on exactly if its latest
      start has a timestamp. */
  lemma ExpiresIff(entries: seq<Entry>, i: nat, id: string)
    requires OpenedAt(entries, i, id)
    ensures (exists end :: GoneFrom(entries, end, id)) <==> Stamped(entries[i])
  {
    if Stamped(entries[i]) {
      var end := StartTask(entries, i, 0).deadline;
      forall now | now >= end
        ensures !Lists(entries, now, id)
      {
        if t :| t in OpenTasks(entries, now) && t.id == id { OpenTask(entries, i, id, now, t); }
      }
      assert GoneFrom(entries, end, id);
    } else if end :| GoneFrom(entries, end, id) {
      UntimestampedNeverExpires(entries, i, id, end);
      assert Lists(entries, end, id);
    }
  }

  // ---- when the answer only shrinks -------------------------------------------------------

  predicate Alike(x: Event, y: Event) {
    match x
    case Started(t) => y.Started? && y.task.id == t.id
    case Ended(_) => y == x
  }

  predicate SameShape(a: seq<Event>, b: seq<Event>) {
    |a| == |b| && forall i | 0 <= i < |a| :: Alike(a[i], b[i])
  }

  predicate SameIds(a: seq<Task>, b: seq<Task>) {
    |a| == |b| && forall i | 0 <= i < |a| :: a[i].id == b[i].id
  }

  lemma ShapeConcat(a: seq<Event>, b: seq<Event>, c: seq<Event>, d: seq<Event>)
    requires SameShape(a, b) && SameShape(c, d)
    ensures SameShape(a + c, b + d)
  {}

  lemma SameIsAlike(a: seq<Event>)
    ensures SameShape(a, a)
  {}

  lemma {:induction false} EventsShape(entries: seq<Entry>, now: int, later: int)
    ensures SameShape(Events(entries, now), Events(entries, later))
  {
    if entries != [] {
      var init, e := entries[..|entries| - 1], entries[|entries| - 1];
      EventsShape(init, now, later);
      SameIsAlike(AllStops(e.blocks));
      SameIsAlike(Closes(e));
      var a, b := Starts(e, BlocksOf(entries), now), Starts(e, BlocksOf(entries), later);
      assert SameShape(a, b);
      ShapeConcat(Events(init, now), Events(init, later), AllStops(e.blocks), AllStops(e.blocks));
      ShapeConcat(Events(init, now) + AllStops(e.blocks), Events(init, later) + AllStops(e.blocks), a, b);
      ShapeConcat(Events(init, now) + AllStops(e.blocks) + a,
        Events(init, later) + AllStops(e.blocks) + b, Closes(e), Closes(e));
    }
  }

  lemma {:induction false} PopShape(a: seq<Task>, b: seq<Task>, id: string)
    requires SameIds(a, b)
    ensures SameIds(Pop(a, id), Pop(b, id))
  {
    if a != [] { PopShape(a[..|a| - 1], b[..|b| - 1], id); }
  }

  lemma PutShape(a: seq<Task>, b: seq<Task>, t: Task, u: Task)
    requires SameIds(a, b) && t.id == u.id
    ensures SameIds(Put(a, t), Put(b, u))
  {
    assert (exists i | 0 <= i < |a| :: a[i].id == t.id) <==> (exists i | 0 <= i < |b| :: b[i].id == t.id) by {
      assert forall i | 0 <= i < |a| :: a[i].id == b[i].id;
    }
  }

  lemma {:induction false} ReplayShape(a: seq<Event>, b: seq<Event>)
    requires SameShape(a, b)
    ensures SameIds(Replay([], a), Replay([], b))
  {
    if a != [] {
      var a', b' := a[..|a| - 1], b[..|b| - 1];
      ReplayShape(a', b');
      assert Alike(a[|a| - 1], b[|b| - 1]);
      match a[|a| - 1]
      case Started(t) => PutShape(Replay([], a'), Replay([], b'), t, b[|b| - 1].task);
      case Ended(id) => PopShape(Replay([], a'), Replay([], b'), id);
    }
  }

  /** Every id open at the end of the log has a timestamp on its latest start. */
  ghost predicate OpenStamped(entries: seq<Entry>) {
    forall i: nat, id | OpenedAt(entries, i, id) :: Stamped(entries[i])
  }

  lemma ReplayFixed(entries: seq<Entry>, now: int, later: int)
    requires OpenStamped(entries)
    ensures Replay([], Events(entries, now)) == Replay([], Events(entries, later))
  {
    var a, b := Events(entries, now), Events(entries, later);
    EventsShape(entries, now, later);
    ReplayShape(a, b);
    ReplayListed(a);
    ReplayListed(b);
    var s, t := Replay([], a), Replay([], b);
    forall k | 0 <= k < |s|
      ensures s[k] == t[k]
    {
      assert s[k] in s && t[k] in t;
      OpenedAtMeans(entries, s[k].id, now);
      OpenedAtMeans(entries, s[k].id, later);
      var i: nat :| OpenedAt(entries, i, s[k].id);
    }
  }

  /** Looked at later, the answer is always the earlier one less what expired
      since, in the same order, exactly if every open id is timestamped. */
  lemma ShrinksIff(entries: seq<Entry>)
    ensures (forall now, later | now <= later :: OpenTasks(entries, later) == Live(OpenTasks(entries, now), later))
       <==> OpenStamped(entries)
  {
    if OpenStamped(entries) {
      forall now, later | now <= later
        ensures OpenTasks(entries, later) == Live(OpenTasks(entries, now), later)
      {
        ReplayFixed(entries, now, later);
        LiveTwice(Replay([], Events(entries, now)), now, later);
      }
    } else {
      var i: nat, id :| OpenedAt(entries, i, id) && !Stamped(entries[i]);
      var t := StartTask(entries, i, 1);
      OpenTask(entries, i, id, 0, t);
      OpenTask(entries, i, id, 1, t);
      LiveMembers(OpenTasks(entries, 0), 1);
      assert t in OpenTasks(entries, 1) && t !in Live(OpenTasks(entries, 0), 1);
    }
  }
}

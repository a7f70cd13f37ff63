// What a session still waits on, replayed from its transcript
// (pkgs/wrapty/src/wrapty/transcript.py). Times are whole milliseconds.

module WraptyTranscript {
  import opened Prelude

  const GRACE := 60000
  const DEFAULT_BOUND := 3600000

  datatype Kind = Command | Monitor | Agent

  datatype Input = Input(
    timeout: Option<int>, taskId: Option<string>, shellId: Option<string>, description: Option<string>)

  const NoInput := Input(None, None, None, None)

  /** One content block: its type is tool_use or not; ids may be missing. */
  datatype Block = Block(
    toolUse: bool, id: Option<string>, name: Option<string>, input: Option<Input>, useId: Option<string>)

  datatype Result = Result(
    background: Option<string>, taskId: Option<string>, timeoutMs: Option<int>,
    agentId: Option<string>, isAsync: bool, description: Option<string>)

  /** A task notification's status and task id. */
  datatype Note = Note(status: Option<string>, id: Option<string>)

  datatype Entry = Entry(timestamp: Option<nat>, blocks: seq<Block>, result: Option<Result>, note: Option<Note>)

  datatype Task = Task(id: string, kind: Kind, description: string, deadline: int)

  datatype Use = Use(name: Option<string>, input: Input)

  // ---- what one entry says --------------------------------------------------------

  datatype Event = Started(task: Task) | Ended(id: string)

  function UseOf(b: Block): Use {
    Use(b.name, if b.input.Some? then b.input.value else NoInput)
  }

  /** The latest tool_use block with this id. */
  function LatestUse(blocks: seq<Block>, id: Option<string>): Option<Use> {
    if blocks == [] then None
    else
      var last := blocks[|blocks| - 1];
      if last.toolUse && last.id == id then Some(UseOf(last)) else LatestUse(blocks[..|blocks| - 1], id)
  }

  function EndOf(id: Option<string>): seq<Event> {
    if id.Some? then [Ended(id.value)] else []
  }

  function Stops(b: Block): seq<Event> {
    if b.toolUse && b.name == Some("TaskStop") && b.input.Some? then
      EndOf(b.input.value.taskId) + EndOf(b.input.value.shellId)
    else []
  }

  function AllStops(blocks: seq<Block>): seq<Event> {
    if blocks == [] then [] else AllStops(blocks[..|blocks| - 1]) + Stops(blocks[|blocks| - 1])
  }

  /** The first block that refers to a known tool use names the call. */
  function Origin(blocks: seq<Block>, known: seq<Block>): Use {
    if blocks == [] then Use(Some(""), NoInput)
    else if LatestUse(known, blocks[0].useId).Some? then LatestUse(known, blocks[0].useId).value
    else Origin(blocks[1..], known)
  }

  function KindName(k: Kind): string {
    match k
    case Command => "command"
    case Monitor => "monitor"
    case Agent => "agent"
  }

  function Bound(k: Kind, r: Result, input: Input): nat {
    if k == Monitor && r.timeoutMs.Some? && r.timeoutMs.value > 0 then r.timeoutMs.value
    else if k == Command && input.timeout.Some? && input.timeout.value > 0 then input.timeout.value
    else DEFAULT_BOUND
  }

  /** Which task the result opens, if any. */
  function Opens(r: Result): Option<(string, Kind)> {
    if Truthy(r.background) then Some((r.background.value, Command))
    else if Truthy(r.taskId) then Some((r.taskId.value, Monitor))
    else if Truthy(r.agentId) && r.isAsync then Some((r.agentId.value, Agent))
    else None
  }

  function TaskOf(id: string, k: Kind, r: Result, use: Use, started: int): Task {
    Task(id, k,
         if Truthy(r.description) then r.description.value
         else if Truthy(use.input.description) then use.input.description.value
         else if Truthy(use.name) then use.name.value else KindName(k),
         started + Bound(k, r, use.input) + GRACE)
  }

  predicate Stamped(e: Entry) {
    e.timestamp.Some? && e.timestamp.value != 0
  }

  /** `_epoch(...) or now`: a missing timestamp, and the epoch itself, read as now. */
  function StartTime(e: Entry, now: int): int {
    if Stamped(e) then e.timestamp.value else now
  }

  function Starts(e: Entry, known: seq<Block>, now: int): seq<Event> {
    if e.result.Some? && Opens(e.result.value).Some? then
      var (id, k) := Opens(e.result.value).value;
      [Started(TaskOf(id, k, e.result.value, Origin(e.blocks, known), StartTime(e, now)))]
    else []
  }

  predicate Terminal(status: Option<string>) {
    status in {Some("completed"), Some("failed"), Some("killed")}
  }

  function Closes(e: Entry): seq<Event> {
    if e.note.Some? && Terminal(e.note.value.status) then EndOf(e.note.value.id) else []
  }

  function BlocksOf(entries: seq<Entry>): seq<Block> {
    if entries == [] then [] else BlocksOf(entries[..|entries| - 1]) + entries[|entries| - 1].blocks
  }

  /** The log as starts and ends, in order. */
  function Events(entries: seq<Entry>, now: int): seq<Event> {
    if entries == [] then []
    else
      var e := entries[|entries| - 1];
      Events(entries[..|entries| - 1], now) + AllStops(e.blocks) + Starts(e, BlocksOf(entries), now) + Closes(e)
  }

  // ---- the insertion-ordered dict ------------------------------------------------------

  function Pop(tasks: seq<Task>, id: string): seq<Task> {
    if tasks == [] then []
    else
      var last := tasks[|tasks| - 1];
      Pop(tasks[..|tasks| - 1], id) + if last.id == id then [] else [last]
  }

  function Put(tasks: seq<Task>, t: Task): seq<Task> {
    if exists i | 0 <= i < |tasks| :: tasks[i].id == t.id then
      seq(|tasks|, i requires 0 <= i < |tasks| => if tasks[i].id == t.id then t else tasks[i])
    else tasks + [t]
  }

  function Apply(tasks: seq<Task>, e: Event): seq<Task> {
    match e
    case Started(t) => Put(tasks, t)
    case Ended(id) => Pop(tasks, id)
  }

  function Replay(tasks: seq<Task>, events: seq<Event>): seq<Task> {
    if events == [] then tasks else Apply(Replay(tasks, events[..|events| - 1]), events[|events| - 1])
  }

  function Live(tasks: seq<Task>, now: int): seq<Task> {
    if tasks == [] then []
    else
      var last := tasks[|tasks| - 1];
      Live(tasks[..|tasks| - 1], now) + if last.deadline > now then [last] else []
  }

  /** What `open_tasks` answers for a log. */
  function OpenTasks(entries: seq<Entry>, now: int): seq<Task> {
    Live(Replay([], Events(entries, now)), now)
  }

  // ---- the reference: read off the events, no replay ---------------------------------------

  predicate Touches(e: Event, id: string) {
    match e
    case Started(t) => t.id == id
    case Ended(other) => other == id
  }

  /** Event i starts this task and nothing later starts or ends its id. */
  predicate LatestStart(events: seq<Event>, i: nat, t: Task) {
    i < |events| && events[i] == Started(t) && forall j | i < j < |events| :: !Touches(events[j], t.id)
  }

  /** Before event n the id is not open: nothing mentions it since the
      beginning, or since an end of it. */
  predicate Closed(events: seq<Event>, n: nat, id: string)
    requires n <= |events|
  {
    exists e | 0 <= e <= n :: ClosedSince(events, e, n, id)
  }

  predicate ClosedSince(events: seq<Event>, e: nat, n: nat, id: string)
    requires e <= n <= |events|
  {
    (e == 0 || events[e - 1] == Ended(id)) && forall j | e <= j < n :: !Touches(events[j], id)
  }

  /** Event i is the id's first start since its last end. */
  predicate Born(events: seq<Event>, i: nat, id: string) {
    && i < |events| && events[i].Started? && events[i].task.id == id
    && (forall j | i < j < |events| :: events[j] != Ended(id))
    && Closed(events, i, id)
  }

  ghost predicate IsOpen(events: seq<Event>, t: Task) {
    exists i :: LatestStart(events, i, t)
  }

  /** Exactly the tasks whose latest start has no later end. */
  ghost predicate MembersOpen(events: seq<Event>, tasks: seq<Task>) {
    forall t :: t in tasks <==> IsOpen(events, t)
  }

  /** Each id once, in the order their ids were born. */
  ghost predicate InBirthOrder(events: seq<Event>, tasks: seq<Task>) {
    && (forall k | 0 <= k < |tasks| :: HasBirth(events, tasks[k].id))
    && (forall k, l, i: nat, j: nat
          | 0 <= k < l < |tasks| && Born(events, i, tasks[k].id) && Born(events, j, tasks[l].id) :: i < j)
    && (forall k, l | 0 <= k < l < |tasks| :: tasks[k].id != tasks[l].id)
  }

  ghost predicate HasBirth(events: seq<Event>, id: string) {
    exists i: nat :: Born(events, i, id)
  }

  // ---- the replay meets the reference ---------------------------------------------------------

  function Init(events: seq<Event>): seq<Event>
    requires events != []
  {
    events[..|events| - 1]
  }

  function LastStart(events: seq<Event>, id: string): (r: Option<Task>)
    ensures r.Some? ==> r.value.id == id
  {
    if events == [] then None
    else match events[|events| - 1]
      case Started(t) => if t.id == id then Some(t) else LastStart(Init(events), id)
      case Ended(other) => if other == id then None else LastStart(Init(events), id)
  }

  function BornAt(events: seq<Event>, id: string): (r: Option<nat>)
    ensures r.Some? ==> r.value < |events|
    ensures r.Some? <==> LastStart(events, id).Some?
  {
    if events == [] then None
    else
      var before := BornAt(Init(events), id);
      match events[|events| - 1]
      case Started(t) => if t.id == id && before.None? then Some(|events| - 1) else before
      case Ended(other) => if other == id then None else before
  }

  lemma {:induction false} LastStartMeans(events: seq<Event>, t: Task)
    ensures LastStart(events, t.id) == Some(t) <==> exists i :: LatestStart(events, i, t)
  {
    if events != [] {
      var init, last := Init(events), events[|events| - 1];
      LastStartMeans(init, t);
      if Touches(last, t.id) {
        if last == Started(t) { assert LatestStart(events, |init|, t); }
        assert forall i | LatestStart(events, i, t) :: i == |init|;
      } else {
        assert forall i :: LatestStart(events, i, t) <==> LatestStart(init, i, t);
      }
    }
  }

  lemma ClosedPrefix(init: seq<Event>, last: Event, n: nat, id: string)
    requires n <= |init|
    ensures Closed(init + [last], n, id) <==> Closed(init, n, id)
  {
    var events := init + [last];
    forall e | 0 <= e <= n
      ensures ClosedSince(events, e, n, id) <==> ClosedSince(init, e, n, id)
    {
      assert forall j | 0 <= j < n :: events[j] == init[j];
    }
  }

  lemma CarryClosed(events: seq<Event>, m: nat, id: string)
    requires m < |events| && !Touches(events[m], id)
    ensures Closed(events, m, id) <==> Closed(events, m + 1, id)
  {
    var n := m + 1;
    if Closed(events, m, id) {
      var e :| 0 <= e <= m && ClosedSince(events, e, m, id);
      assert ClosedSince(events, e, n, id);
    }
    if Closed(events, n, id) {
      var e :| 0 <= e <= n && ClosedSince(events, e, n, id);
      assert ClosedSince(events, e, m, id);
    }
  }

  /** An id has no birth exactly when it is not open. */
  lemma {:induction false} UnbornIffClosed(events: seq<Event>, id: string)
    ensures BornAt(events, id).None? <==> Closed(events, |events|, id)
  {
    var n := |events|;
    if n == 0 {
      assert ClosedSince(events, 0, 0, id);
    } else {
      var init, last := Init(events), events[n - 1];
      assert events == init + [last];
      UnbornIffClosed(init, id);
      ClosedPrefix(init, last, n - 1, id);
      if last == Ended(id) {
        assert ClosedSince(events, n, n, id);
      } else if Touches(last, id) {
        assert forall e | 0 <= e <= n :: !ClosedSince(events, e, n, id);
      } else {
        CarryClosed(events, n - 1, id);
      }
    }
  }

  lemma {:induction false} BornAtMeans(events: seq<Event>, i: nat, id: string)
    ensures Born(events, i, id) <==> BornAt(events, id) == Some(i)
  {
    if events != [] {
      var init, n := Init(events), |events| - 1;
      var last := events[n];
      assert events == init + [last];
      if i < n {
        BornAtMeans(init, i, id);
        ClosedPrefix(init, last, i, id);
        assert Born(events, i, id) <==> Born(init, i, id) && last != Ended(id);
      } else if i == n {
        UnbornIffClosed(init, id);
        ClosedPrefix(init, last, n, id);
        BornAtMeans(init, i, id);
      }
    }
  }

  ghost predicate Increasing(events: seq<Event>, tasks: seq<Task>) {
    && (forall k | 0 <= k < |tasks| :: BornAt(events, tasks[k].id).Some?)
    && (forall k, l | 0 <= k < l < |tasks| :: BornAt(events, tasks[k].id).value < BornAt(events, tasks[l].id).value)
  }

  ghost predicate Listed(events: seq<Event>, tasks: seq<Task>) {
    && Increasing(events, tasks)
    && (forall t | t in tasks :: LastStart(events, t.id) == Some(t))
    && (forall id | LastStart(events, id).Some? :: LastStart(events, id).value in tasks)
  }

  lemma {:induction false} PopMembers(tasks: seq<Task>, id: string)
    ensures forall t :: t in Pop(tasks, id) <==> t in tasks && t.id != id
  {
    if tasks != [] {
      PopMembers(tasks[..|tasks| - 1], id);
      assert tasks == tasks[..|tasks| - 1] + [tasks[|tasks| - 1]];
    }
  }

  lemma SnocIncreasing(events: seq<Event>, tasks: seq<Task>, t: Task)
    ensures Increasing(events, tasks + [t]) <==>
      && Increasing(events, tasks) && BornAt(events, t.id).Some?
      && forall u | u in tasks :: BornAt(events, u.id).Some? && BornAt(events, u.id).value < BornAt(events, t.id).value
  {
    var all := tasks + [t];
    assert all[|tasks|] == t && forall k | 0 <= k < |tasks| :: all[k] == tasks[k] && tasks[k] in tasks;
    if Increasing(events, all) {
      assert forall u | u in tasks :: exists k | 0 <= k < |tasks| :: all[k] == u;
    }
  }

  lemma {:induction false} PopIncreasing(events: seq<Event>, tasks: seq<Task>, id: string)
    requires Increasing(events, tasks)
    ensures Increasing(events, Pop(tasks, id))
  {
    if tasks != [] {
      var init, last := tasks[..|tasks| - 1], tasks[|tasks| - 1];
      assert tasks == init + [last];
      SnocIncreasing(events, init, last);
      PopIncreasing(events, init, id);
      PopMembers(init, id);
      SnocIncreasing(events, Pop(init, id), last);
    }
  }

  lemma EndListed(events: seq<Event>, tasks: seq<Task>, id: string)
    requires Listed(events, tasks)
    ensures Listed(events + [Ended(id)], Pop(tasks, id))
  {
    var events' := events + [Ended(id)];
    assert Init(events') == events;
    var popped := Pop(tasks, id);
    PopMembers(tasks, id);
    PopIncreasing(events, tasks, id);
    assert forall k | 0 <= k < |popped| ::
      popped[k] in popped && BornAt(events', popped[k].id) == BornAt(events, popped[k].id);
  }

  lemma AppendListed(events: seq<Event>, tasks: seq<Task>, t: Task)
    requires Listed(events, tasks) && LastStart(events, t.id).None?
    ensures Listed(events + [Started(t)], tasks + [t])
  {
    var events', put := events + [Started(t)], tasks + [t];
    assert Init(events') == events;
    assert forall k | 0 <= k < |tasks| :: put[k] in tasks && BornAt(events', put[k].id) == BornAt(events, put[k].id);
    assert BornAt(events', t.id) == Some(|events|);
    assert t in put;
  }

  lemma RestartIncreasing(events: seq<Event>, tasks: seq<Task>, t: Task, i: nat)
    requires Listed(events, tasks) && i < |tasks| && tasks[i].id == t.id
    ensures Increasing(events + [Started(t)], tasks[i := t])
  {
    var events', put := events + [Started(t)], tasks[i := t];
    assert Init(events') == events;
    assert forall k | 0 <= k < |put| ::
        put[k].id == tasks[k].id && BornAt(events', put[k].id) == BornAt(events, tasks[k].id);
  }

  lemma RestartListed(events: seq<Event>, tasks: seq<Task>, t: Task, i: nat)
    requires Listed(events, tasks) && i < |tasks| && tasks[i].id == t.id
    ensures Listed(events + [Started(t)], tasks[i := t])
  {
    var events', put := events + [Started(t)], tasks[i := t];
    RestartIncreasing(events, tasks, t, i);
    assert Init(events') == events;
    assert forall k | 0 <= k < |tasks| && k != i :: tasks[k].id != t.id;
    forall u | u in put
      ensures LastStart(events', u.id) == Some(u)
    {
      var k :| 0 <= k < |put| && put[k] == u;
      assert k != i ==> tasks[k] in tasks;
    }
    forall id | LastStart(events', id).Some?
      ensures LastStart(events', id).value in put
    {
      if id == t.id {
        assert put[i] == t;
      } else {
        var k :| 0 <= k < |tasks| && tasks[k] == LastStart(events, id).value;
        assert put[k] == tasks[k];
      }
    }
  }

  lemma StartListed(events: seq<Event>, tasks: seq<Task>, t: Task)
    requires Listed(events, tasks)
    ensures Listed(events + [Started(t)], Put(tasks, t))
  {
    assert forall k | 0 <= k < |tasks| :: tasks[k] in tasks;
    if i :| 0 <= i < |tasks| && tasks[i].id == t.id {
      assert forall k | 0 <= k < |tasks| && k != i :: tasks[k].id != t.id;
      assert Put(tasks, t) == tasks[i := t];
      RestartListed(events, tasks, t, i);
    } else {
      AppendListed(events, tasks, t);
    }
  }

  lemma {:induction false} ReplayListed(events: seq<Event>)
    ensures Listed(events, Replay([], events))
  {
    if events != [] {
      var init, last := Init(events), events[|events| - 1];
      ReplayListed(init);
      assert events == init + [last];
      match last
      case Started(t) => StartListed(init, Replay([], init), t);
      case Ended(id) => EndListed(init, Replay([], init), id);
    }
  }

  /** One pass over a log keeps exactly the tasks whose latest start has no
      later end, ordered by first start since the last end. */
  lemma ReplayExact(events: seq<Event>)
    ensures MembersOpen(events, Replay([], events))
    ensures InBirthOrder(events, Replay([], events))
  {
    ReplayListed(events);
    ListedMembers(events, Replay([], events));
    ListedOrder(events, Replay([], events));
  }

  lemma ListedMembers(events: seq<Event>, tasks: seq<Task>)
    requires Listed(events, tasks)
    ensures MembersOpen(events, tasks)
  {
    forall t
      ensures t in tasks <==> IsOpen(events, t)
    {
      LastStartMeans(events, t);
    }
  }

  lemma ListedOrder(events: seq<Event>, tasks: seq<Task>)
    requires Increasing(events, tasks)
    ensures InBirthOrder(events, tasks)
  {
    forall i: nat, id: string
      ensures Born(events, i, id) <==> BornAt(events, id) == Some(i)
    {
      BornAtMeans(events, i, id);
    }
    forall k | 0 <= k < |tasks|
      ensures HasBirth(events, tasks[k].id)
    {
      assert Born(events, BornAt(events, tasks[k].id).value, tasks[k].id);
    }
  }

  // ---- deadlines ---------------------------------------------------------------------------------

  lemma {:induction false} LiveMembers(tasks: seq<Task>, now: int)
    ensures forall t :: t in Live(tasks, now) <==> t in tasks && t.deadline > now
  {
    if tasks != [] {
      LiveMembers(tasks[..|tasks| - 1], now);
      assert tasks == tasks[..|tasks| - 1] + [tasks[|tasks| - 1]];
    }
  }

  lemma {:induction false} LiveIncreasing(events: seq<Event>, tasks: seq<Task>, now: int)
    requires Increasing(events, tasks)
    ensures Increasing(events, Live(tasks, now))
  {
    if tasks != [] {
      var init, last := tasks[..|tasks| - 1], tasks[|tasks| - 1];
      assert tasks == init + [last];
      SnocIncreasing(events, init, last);
      LiveIncreasing(events, init, now);
      LiveMembers(init, now);
      SnocIncreasing(events, Live(init, now), last);
      assert Live(init, now) + [] == Live(init, now);
    }
  }

  /** `open_tasks` answers in the order of first starts since the last end. */
  lemma OpenTasksOrdered(entries: seq<Entry>, now: int)
    ensures InBirthOrder(Events(entries, now), OpenTasks(entries, now))
  {
    var events := Events(entries, now);
    ReplayListed(events);
    LiveIncreasing(events, Replay([], events), now);
    ListedOrder(events, OpenTasks(entries, now));
  }

  /** `open_tasks`: exactly the tasks that are open in the log and not past their deadline. */
  lemma OpenTasksExact(entries: seq<Entry>, now: int, t: Task)
    ensures t in OpenTasks(entries, now) <==> t.deadline > now && IsOpen(Events(entries, now), t)
  {
    var tasks := Replay([], Events(entries, now));
    assert t in tasks <==> IsOpen(Events(entries, now), t) by {
      ReplayExact(Events(entries, now));
    }
    LiveMembers(tasks, now);
  }

  predicate Timestamped(entries: seq<Entry>) {
    forall e | e in entries && e.result.Some? && Opens(e.result.value).Some? :: Stamped(e)
  }

  lemma {:induction false} EventsFixed(entries: seq<Entry>, now: int, later: int)
    requires Timestamped(entries)
    ensures Events(entries, now) == Events(entries, later)
  {
    if entries != [] {
      EventsFixed(entries[..|entries| - 1], now, later);
      assert entries[|entries| - 1] in entries;
    }
  }

  lemma {:induction false} LiveTwice(tasks: seq<Task>, now: int, later: int)
    requires now <= later
    ensures Live(Live(tasks, now), later) == Live(tasks, later)
  {
    if tasks != [] {
      var init, last := tasks[..|tasks| - 1], tasks[|tasks| - 1];
      LiveTwice(init, now, later);
      var kept := Live(init, now);
      assert (kept + [last])[..|kept|] == kept && kept + [] == kept;
      assert Live(kept + [last], later) == Live(kept, later) + if last.deadline > later then [last] else [];
      assert Live(init, later) + [] == Live(init, later);
    }
  }

  /** A notification is seen twice, once enqueued and once removed: ending an
      id again changes nothing. */
  lemma {:induction false} EndTwice(tasks: seq<Task>, id: string)
    ensures Pop(Pop(tasks, id), id) == Pop(tasks, id)
  {
    if tasks != [] {
      var init, last := tasks[..|tasks| - 1], tasks[|tasks| - 1];
      EndTwice(init, id);
      var left := Pop(init, id);
      assert (left + [last])[..|left|] == left && left + [] == left;
      assert last.id != id ==> Pop(left + [last], id) == Pop(left, id) + [last];
    }
  }

  // ---- the single pass, as the loop it is -----------------------------------------------------------

  lemma {:induction false} ReplayConcat(tasks: seq<Task>, a: seq<Event>, b: seq<Event>)
    ensures Replay(tasks, a + b) == Replay(Replay(tasks, a), b)
  {
    if b == [] {
      assert a + b == a;
    } else {
      assert (a + b)[..|a + b| - 1] == a + b[..|b| - 1];
      ReplayConcat(tasks, a, b[..|b| - 1]);
    }
  }

  lemma ReplaySmall(tasks: seq<Task>, a: Event, b: Event)
    ensures Replay(tasks, []) == tasks && Replay(tasks, [a]) == Apply(tasks, a)
    ensures Replay(tasks, [a, b]) == Apply(Apply(tasks, a), b)
  {
    assert [a][..0] == [] && [a, b][..1] == [a];
  }

  /** The `uses` dict holds the latest tool_use of each id. */
  ghost predicate Knows(uses: map<Option<string>, Use>, known: seq<Block>) {
    forall id :: (id in uses <==> LatestUse(known, id).Some?) && (id in uses ==> uses[id] == LatestUse(known, id).value)
  }

  method EndIfGiven(tasks: seq<Task>, id: Option<string>) returns (left: seq<Task>)
    ensures left == Replay(tasks, EndOf(id))
  {
    if id.Some? {
      ReplaySmall(tasks, Ended(id.value), Ended(id.value));
      left := Pop(tasks, id.value);
    } else {
      left := tasks;
    }
  }

  method ScanBlock(
    b: Block, uses: map<Option<string>, Use>, tasks: seq<Task>, ghost known: seq<Block>, ghost seen: seq<Block>)
    returns (uses': map<Option<string>, Use>, tasks': seq<Task>)
    requires Knows(uses, known) && seen == known + [b]
    ensures Knows(uses', seen)
    ensures tasks' == Replay(tasks, Stops(b))
  {
    uses', tasks' := uses, tasks;
    assert seen[..|known|] == known;
    if b.toolUse {
      uses' := uses'[b.id := UseOf(b)];
      if b.name == Some("TaskStop") && b.input.Some? {
        ReplayConcat(tasks, EndOf(b.input.value.taskId), EndOf(b.input.value.shellId));
        tasks' := EndIfGiven(tasks', b.input.value.taskId);
        tasks' := EndIfGiven(tasks', b.input.value.shellId);
      }
    }
  }

  lemma StopsSnoc(tasks: seq<Task>, blocks: seq<Block>, i: nat)
    requires i < |blocks|
    ensures Replay(tasks, AllStops(blocks[..i + 1])) == Replay(Replay(tasks, AllStops(blocks[..i])), Stops(blocks[i]))
  {
    assert blocks[..i + 1][..i] == blocks[..i];
    ReplayConcat(tasks, AllStops(blocks[..i]), Stops(blocks[i]));
  }

  method ScanBlocks(blocks: seq<Block>, uses: map<Option<string>, Use>, tasks: seq<Task>, ghost known: seq<Block>)
    returns (uses': map<Option<string>, Use>, tasks': seq<Task>)
    requires Knows(uses, known)
    ensures Knows(uses', known + blocks)
    ensures tasks' == Replay(tasks, AllStops(blocks))
  {
    uses', tasks' := uses, tasks;
    assert known + blocks[..0] == known;
    for i := 0 to |blocks|
      invariant Knows(uses', known + blocks[..i])
      invariant tasks' == Replay(tasks, AllStops(blocks[..i]))
    {
      StopsSnoc(tasks, blocks, i);
      uses', tasks' := ScanBlock(blocks[i], uses', tasks', known + blocks[..i], known + blocks[..i + 1]);
    }
    assert blocks[..|blocks|] == blocks;
  }

  method FindOrigin(blocks: seq<Block>, uses: map<Option<string>, Use>, ghost known: seq<Block>) returns (use: Use)
    requires Knows(uses, known)
    ensures use == Origin(blocks, known)
  {
    use := Use(Some(""), NoInput);
    var i := 0;
    while i < |blocks|
      invariant 0 <= i <= |blocks| && use == Use(Some(""), NoInput)
      invariant Origin(blocks, known) == Origin(blocks[i..], known)
    {
      assert blocks[i..][1..] == blocks[i + 1..];
      if blocks[i].useId in uses {
        return uses[blocks[i].useId];
      }
      i := i + 1;
    }
  }

  /** One pass over the whole log computes the open tasks. */
  method ReadOpenTasks(entries: seq<Entry>, now: int) returns (open: seq<Task>)
    ensures open == OpenTasks(entries, now)
  {
    var uses: map<Option<string>, Use> := map[];
    var tasks: seq<Task> := [];
    for n := 0 to |entries|
      invariant Knows(uses, BlocksOf(entries[..n]))
      invariant tasks == Replay([], Events(entries[..n], now))
    {
      var e := entries[n];
      ghost var log, known := entries[..n], BlocksOf(entries[..n]);
      assert entries[..n + 1][..n] == log;
      ReplayEntry(Events(log, now), AllStops(e.blocks), Starts(e, known + e.blocks, now), Closes(e));
      uses, tasks := ScanBlocks(e.blocks, uses, tasks, known);
      if e.result.Some? && Opens(e.result.value).Some? {
        var (id, k) := Opens(e.result.value).value;
        var use := FindOrigin(e.blocks, uses, known + e.blocks);
        var task := TaskOf(id, k, e.result.value, use, StartTime(e, now));
        ReplaySmall(tasks, Started(task), Started(task));
        tasks := Put(tasks, task);
      }
      if e.note.Some? && Terminal(e.note.value.status) {
        tasks := EndIfGiven(tasks, e.note.value.id);
      }
    }
    assert entries[..|entries|] == entries;
    open := Live(tasks, now);
  }

  lemma ReplayEntry(log: seq<Event>, stops: seq<Event>, starts: seq<Event>, closes: seq<Event>)
    ensures Replay([], log + stops + starts + closes) == Replay(Replay(Replay(Replay([], log), stops), starts), closes)
  {
    ReplayConcat([], log + stops + starts, closes);
    ReplayConcat([], log + stops, starts);
    ReplayConcat([], log, stops);
  }
}

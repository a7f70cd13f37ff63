// What is open in a transcript, on the fields of its entries
// (pkgs/wrapty/src/wrapty/transcript.py).

module WraptyMeaning {
  import opened Prelude
  import opened WraptyTranscript
  import opened WraptyExpiry

  // ---- starting, stopping, being notified ---------------------------------------------

  /** The result reports a background command, else a monitor, else an async agent, of this id. */
  predicate StartsIn(e: Entry, id: string) {
    id != "" && e.result.Some? &&
    var r := e.result.value;
    var noCommand := r.background in {None, Some("")};
    var noMonitor := r.taskId in {None, Some("")};
    || r.background == Some(id)
    || (noCommand && r.taskId == Some(id))
    || (noCommand && noMonitor && r.agentId == Some(id) && r.isAsync)
  }

  /** A TaskStop call names the id, as a task or as a shell. */
  predicate StopsIn(e: Entry, id: string) {
    exists b | b in e.blocks ::
      && b.toolUse && b.name == Some("TaskStop") && b.input.Some?
      && (b.input.value.taskId == Some(id) || b.input.value.shellId == Some(id))
  }

  /** A notification says that the id is through. */
  predicate NotesIn(e: Entry, id: string) {
    && e.note.Some? && e.note.value.id == Some(id)
    && (e.note.value.status == Some("completed") || e.note.value.status == Some("failed")
        || e.note.value.status == Some("killed"))
  }

  lemma StartsMean(e: Entry, id: string)
    ensures StartsIn(e, id) <==> OpensId(e, id)
  {}

  lemma NotesMean(e: Entry, id: string)
    ensures NotesIn(e, id) <==> Ended(id) in Closes(e)
  {}

  lemma {:induction false} StopsMean(blocks: seq<Block>, id: string)
    ensures Ended(id) in AllStops(blocks) <==>
      exists b | b in blocks ::
        && b.toolUse && b.name == Some("TaskStop") && b.input.Some?
        && (b.input.value.taskId == Some(id) || b.input.value.shellId == Some(id))
  {
    if blocks != [] {
      StopsMean(blocks[..|blocks| - 1], id);
      assert blocks == blocks[..|blocks| - 1] + [blocks[|blocks| - 1]];
    }
  }

  /** Entry i starts the id, without a notification in the same entry, and nothing
      after it starts it again, stops it or notes that it is through. */
  predicate StartedLast(entries: seq<Entry>, i: nat, id: string) {
    && i < |entries| && StartsIn(entries[i], id) && !NotesIn(entries[i], id)
    && forall j | i < j < |entries| ::
         !StartsIn(entries[j], id) && !StopsIn(entries[j], id) && !NotesIn(entries[j], id)
  }

  lemma StartedLastMeans(entries: seq<Entry>, i: nat, id: string)
    ensures StartedLast(entries, i, id) <==> OpenedAt(entries, i, id)
  {
    forall j | 0 <= j < |entries|
      ensures StartsIn(entries[j], id) <==> OpensId(entries[j], id)
      ensures NotesIn(entries[j], id) <==> Ended(id) in Closes(entries[j])
      ensures StopsIn(entries[j], id) <==> Ended(id) in AllStops(entries[j].blocks)
    {
      StartsMean(entries[j], id);
      NotesMean(entries[j], id);
      StopsMean(entries[j].blocks, id);
    }
  }

  /** The blocks of the first n entries, in order. */
  function LogBlocks(entries: seq<Entry>, n: nat): seq<Block>
    requires n <= |entries|
  {
    Concat(seq(n, j requires 0 <= j < n => entries[j].blocks))
  }

  lemma {:induction false} LogBlocksMean(entries: seq<Entry>, n: nat)
    requires n <= |entries|
    ensures LogBlocks(entries, n) == BlocksOf(entries[..n])
  {
    if n > 0 {
      LogBlocksMean(entries, n - 1);
      var before := seq(n - 1, j requires 0 <= j < n - 1 => entries[j].blocks);
      assert seq(n, j requires 0 <= j < n => entries[j].blocks) == before + [entries[n - 1].blocks];
      ConcatSnoc(before, entries[n - 1].blocks);
      assert entries[..n][..n - 1] == entries[..n - 1];
    }
  }

  // ---- the call behind a start --------------------------------------------------------

  /** Block q is the latest call of its id among the blocks. */
  predicate LatestCall(known: seq<Block>, q: nat, id: Option<string>) {
    && q < |known| && known[q].toolUse && known[q].id == id
    && forall j | q < j < |known| :: !(known[j].toolUse && known[j].id == id)
  }

  predicate Called(known: seq<Block>, id: Option<string>) {
    exists b | b in known :: b.toolUse && b.id == id
  }

  lemma {:induction false} LatestUseMeans(known: seq<Block>, id: Option<string>)
    ensures LatestUse(known, id).Some? <==> Called(known, id)
    ensures forall q: nat | LatestCall(known, q, id) :: LatestUse(known, id) == Some(UseOf(known[q]))
  {
    if known != [] {
      var init, last := known[..|known| - 1], known[|known| - 1];
      LatestUseMeans(init, id);
      assert known == init + [last];
      forall q: nat | LatestCall(known, q, id)
        ensures LatestUse(known, id) == Some(UseOf(known[q]))
      {
        if !(last.toolUse && last.id == id) {
          assert LatestCall(init, q, id);
        }
      }
    }
  }

  /** The call a result belongs to, if the log has it: the latest one of the id
      that its first block to name a known call names. */
  ghost predicate CallOf(blocks: seq<Block>, known: seq<Block>, call: Option<Block>) {
    match call
    case None => forall b | b in blocks :: !Called(known, b.useId)
    case Some(block) => exists p: nat, q: nat :: NamesCall(blocks, known, p, q) && known[q] == block
  }

  predicate NamesCall(blocks: seq<Block>, known: seq<Block>, p: nat, q: nat) {
    && p < |blocks| && LatestCall(known, q, blocks[p].useId)
    && forall j | 0 <= j < p :: !Called(known, blocks[j].useId)
  }

  lemma {:induction false} OriginNamed(blocks: seq<Block>, known: seq<Block>, p: nat, q: nat)
    requires NamesCall(blocks, known, p, q)
    ensures Origin(blocks, known) == UseOf(known[q])
  {
    LatestUseMeans(known, blocks[0].useId);
    if p > 0 {
      assert !Called(known, blocks[0].useId);
      assert forall j | 0 <= j < p - 1 :: blocks[1..][j] == blocks[j + 1];
      OriginNamed(blocks[1..], known, p - 1, q);
    } else {
      assert known[q] in known;
    }
  }

  lemma {:induction false} NoOrigin(blocks: seq<Block>, known: seq<Block>)
    requires forall b | b in blocks :: !Called(known, b.useId)
    ensures Origin(blocks, known) == Use(Some(""), NoInput)
  {
    if blocks != [] {
      LatestUseMeans(known, blocks[0].useId);
      NoOrigin(blocks[1..], known);
    }
  }

  lemma {:induction false} LatestCallExists(known: seq<Block>, id: Option<string>) returns (q: nat)
    requires Called(known, id)
    ensures LatestCall(known, q, id)
  {
    var init, last := known[..|known| - 1], known[|known| - 1];
    assert known == init + [last];
    if last.toolUse && last.id == id {
      q := |init|;
    } else {
      q := LatestCallExists(init, id);
    }
  }

  lemma {:induction false} CallExists(blocks: seq<Block>, known: seq<Block>) returns (call: Option<Block>)
    ensures CallOf(blocks, known, call)
  {
    if blocks == [] {
      call := None;
    } else if Called(known, blocks[0].useId) {
      var q := LatestCallExists(known, blocks[0].useId);
      assert NamesCall(blocks, known, 0, q);
      call := Some(known[q]);
    } else {
      call := CallExists(blocks[1..], known);
      assert blocks == [blocks[0]] + blocks[1..];
      if call.Some? {
        var p: nat, q: nat :| NamesCall(blocks[1..], known, p, q) && known[q] == call.value;
        assert NamesCall(blocks, known, p + 1, q);
      }
    }
  }

  lemma OriginMeans(blocks: seq<Block>, known: seq<Block>, call: Option<Block>)
    requires CallOf(blocks, known, call)
    ensures Origin(blocks, known) == if call.Some? then UseOf(call.value) else Use(Some(""), NoInput)
  {
    if call.Some? {
      var p: nat, q: nat :| NamesCall(blocks, known, p, q) && known[q] == call.value;
      OriginNamed(blocks, known, p, q);
    } else {
      NoOrigin(blocks, known);
    }
  }

  // ---- the task -----------------------------------------------------------------------

  predicate Positive(n: Option<int>) { n.Some? && n.value > 0 }

  /** The task a start makes. A command has the positive timeout its call gave, a
      monitor the one its result gives, and any other an hour; a minute of grace
      after its start's timestamp, or after now if it has none; and the result's
      description, else its call's, else its call's name, else its kind. */
  predicate IsTask(e: Entry, call: Option<Block>, now: int, t: Task)
    requires e.result.Some?
  {
    var r := e.result.value;
    var started := if e.timestamp in {None, Some(0)} then now else e.timestamp.value;
    var input := if call.Some? then call.value.input else None;
    var name := if call.Some? then call.value.name else None;
    && t.kind == (if r.background !in {None, Some("")} then Command
                  else if r.taskId !in {None, Some("")} then Monitor else Agent)
    && t.deadline - started - 60000 ==
         (if t.kind == Command && input.Some? && Positive(input.value.timeout) then input.value.timeout.value
          else if t.kind == Monitor && Positive(r.timeoutMs) then r.timeoutMs.value else 3600000)
    && Some(t.description) ==
         if r.description !in {None, Some("")} then r.description
         else if input.Some? && input.value.description !in {None, Some("")} then input.value.description
         else if name !in {None, Some("")} then name
         else Some(match t.kind case Command => "command" case Monitor => "monitor" case Agent => "agent")
  }

  lemma TaskOfMeans(e: Entry, call: Option<Block>, now: int, t: Task)
    requires StartsIn(e, t.id)
    ensures Opens(e.result.value).Some? && Opens(e.result.value).value.0 == t.id
    ensures var use := if call.Some? then UseOf(call.value) else Use(Some(""), NoInput);
      t == TaskOf(t.id, Opens(e.result.value).value.1, e.result.value, use, StartTime(e, now)) <==>
      IsTask(e, call, now, t)
  {}

  lemma StartTaskMeans(entries: seq<Entry>, i: nat, call: Option<Block>, now: int, t: Task)
    requires i < |entries| && StartsIn(entries[i], t.id)
    requires CallOf(entries[i].blocks, LogBlocks(entries, i + 1), call)
    ensures entries[i].result.Some? && Opens(entries[i].result.value).Some?
    ensures t == StartTask(entries, i, now) <==> IsTask(entries[i], call, now, t)
  {
    TaskOfMeans(entries[i], call, now, t);
    LogBlocksMean(entries, i + 1);
    OriginMeans(entries[i].blocks, LogBlocks(entries, i + 1), call);
  }

  /** `open_tasks` answers exactly the tasks that an entry started, that are not
      past their deadline, and that nothing since has started again, stopped or
      noted as through; each as its start and the call behind it say. */
  lemma OpenTasksMean(entries: seq<Entry>, now: int, t: Task)
    ensures t in OpenTasks(entries, now) <==>
      t.deadline > now && exists i: nat, call :: Describes(entries, i, call, now, t)
  {
    OpenedAtMeans(entries, t.id, now);
    OpenTasksExact(entries, now, t);
    LastStartMeans(Events(entries, now), t);
    if t in OpenTasks(entries, now) {
      var i: nat :| OpenedAt(entries, i, t.id);
      StartedLastMeans(entries, i, t.id);
      var call := CallExists(entries[i].blocks, LogBlocks(entries, i + 1));
      StartTaskMeans(entries, i, call, now, t);
      assert Describes(entries, i, call, now, t);
    }
    if i: nat, call :| Describes(entries, i, call, now, t) {
      StartedLastMeans(entries, i, t.id);
      StartTaskMeans(entries, i, call, now, t);
    }
  }

  ghost predicate Describes(entries: seq<Entry>, i: nat, call: Option<Block>, now: int, t: Task) {
    && StartedLast(entries, i, t.id) && CallOf(entries[i].blocks, LogBlocks(entries, i + 1), call)
    && IsTask(entries[i], call, now, t)
  }
}

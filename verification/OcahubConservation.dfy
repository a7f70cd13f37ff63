// Mail is conserved: what enters the store, what leaves it, and what a sender is
// told about it.

module OcahubConservation {
  import opened Prelude
  import opened OcahubNames
  import opened OcahubStore
  import opened OcahubHub
  import opened OcahubInvariants
  import opened OcahubGuards
  import opened OcahubForms
  import opened OcahubRuns

  function Entering(r: Row): Event -> bool {
    (e: Event) => e.Queued? && e.row == r
  }

  function Leaving(r: Row): Event -> bool {
    (e: Event) => (e.Drained? || e.Dropped? || e.Expired?) && e.row == r
  }

  /** What enters the store and is in it is what leaves it and is still in it. */
  ghost predicate Conserves(mail: Table, events: seq<Event>, mail': Table, r: Row) {
    CountIf(events, Entering(r)) + Stored(mail, r) == CountIf(events, Leaving(r)) + Stored(mail', r)
  }

  // ---- one step -------------------------------------------------------------------

  /** The step stores a message under an id the store already has this row for. */
  ghost predicate Overwrites(s: HubState, step: Step, r: Row) {
    Stores(s, step) && Holds(s.mail, r) && r.msg.id.Some? && step.req.id == r.msg.id
  }

  /** The step drains this row, and has no id to delete it by. */
  predicate Redelivers(s: HubState, step: Step, r: Row) {
    && step.Handle? && !Unlinked(s, step.id) && DrainKey(s, step.id, step.req).Some?
    && Remains(s.mail, DrainKey(s, step.id, step.req).value, r)
  }

  lemma {:induction false} CountRows(events: seq<Event>, rows: seq<Row>, r: Row)
    requires |events| == |rows| && forall i | 0 <= i < |rows| :: Leaving(r)(events[i]) <==> rows[i] == r
    ensures CountIf(events, Leaving(r)) == multiset(rows)[r]
  {
    if rows != [] {
      assert forall i | 0 <= i < |rows[1..]| :: rows[1..][i] == rows[i + 1] && events[1..][i] == events[i + 1];
      CountRows(events[1..], rows[1..], r);
      assert rows == [rows[0]] + rows[1..];
    }
  }

  lemma EmitConserves(mail: Table, e: Event, withAsk: bool, r: Row)
    requires Keyed(mail) && IsSend(e)
    ensures
      var events := if withAsk then [e, AskMade(Msg(e).id)] else [e];
      && (Conserves(mail, events, if e.Queued? then Insert(mail, e.row) else mail, r) <==>
            !(Holds(mail, r) && e.Queued? && r.msg.id.Some? && e.row.msg.id == r.msg.id))
      && CountIf(events, Entering(r)) == if Entering(r)(e) then 1 else 0
  {
    CountIfSmall(e, AskMade(Msg(e).id), Entering(r));
    CountIfSmall(e, AskMade(Msg(e).id), Leaving(r));
    if e.Queued? { InsertStores(mail, e.row, r); }
  }

  lemma DrainConserves(mail: Table, k: Key, to: Identity, rows: seq<Row>, sent: nat, r: Row)
    requires Keyed(mail) && IsSelection(mail, k, rows)
    ensures Conserves(mail, DrainEvents(k, to, rows, sent), Without(mail, k), r) <==> !Remains(mail, k, r)
    ensures CountIf(DrainEvents(k, to, rows, sent), Entering(r)) == 0
  {
    CountIfNone(DrainEvents(k, to, rows, sent), Entering(r));
    CountRows(DrainEvents(k, to, rows, sent), rows, r);
    WithoutStores(mail, k, r);
  }

  lemma PurgeConserves(mail: Table, cutoff: real, gone: seq<Row>, r: Row)
    requires Keyed(mail) && IsListing(mail, Before(cutoff), gone)
    ensures Conserves(mail, ExpiredEvents(gone), Younger(mail, cutoff), r)
    ensures CountIf(ExpiredEvents(gone), Entering(r)) == 0
  {
    CountIfNone(ExpiredEvents(gone), Entering(r));
    CountRows(ExpiredEvents(gone), gone, r);
    YoungerStores(mail, cutoff, r);
  }

  /** One step moves a row into the store or out of it and never makes or loses
      one, exactly unless it puts mail under an id the row already holds, or
      drains the row without an id to delete it by. */
  lemma StepConserves(s: HubState, step: Step, r: Row)
    requires Keyed(s.mail) && Legal(s, step)
    ensures Conserves(s.mail, Next(s, step).events, Next(s, step).state.mail, r)
       <==> !Overwrites(s, step, r) && !Redelivers(s, step, r)
    ensures CountIf(Next(s, step).events, Entering(r)) <= 1
    ensures CountIf(Next(s, step).events, Entering(r)) == 1 ==> Stores(s, step) && step.req.id == r.msg.id
  {
    var o := Next(s, step);
    if step.Handle? && !Unlinked(s, step.id) && !step.req.Send? {
      var stamped := Stamp(s, step.id, step.now);
      StampKeeps(s, step.id, step.now);
      DispatchDrains(stamped, step.id, step.req, step.now, step.oracle);
      DispatchMail(stamped, step.id, step.req, step.now, step.oracle);
      var k := DrainKey(s, step.id, step.req);
      if k.Some? { DrainConserves(s.mail, k.value, step.id, step.oracle.rows, step.oracle.sent, r); }
    } else if step.Purge? {
      PurgeConserves(s.mail, step.now - MAILBOX_MAX_AGE, step.gone, r);
    } else if step.Handle? && !Unlinked(s, step.id) {
      SendConserves(s, step, r);
    }
  }

  lemma SendConserves(s: HubState, step: Step, r: Row)
    requires Keyed(s.mail) && Legal(s, step) && step.Handle? && !Unlinked(s, step.id) && step.req.Send?
    ensures Conserves(s.mail, Next(s, step).events, Next(s, step).state.mail, r) <==> !Overwrites(s, step, r)
    ensures CountIf(Next(s, step).events, Entering(r)) <= 1
    ensures CountIf(Next(s, step).events, Entering(r)) == 1 ==> Stores(s, step) && step.req.id == r.msg.id
  {
    var f := StepForm(s, step);
    GuardsMean(s, step);
    match f
    case Silent =>
    case Emits(e, withAsk) =>
      EmitConserves(s.mail, e, withAsk, r);
      assert Next(s, step).events[0] == e;
      assert forall e' | e' in Next(s, step).events && e'.Queued? :: e' == e;
  }

  // ---- runs -----------------------------------------------------------------------------

  /** What went into the store, and was there, is what left it and is still there. */
  ghost predicate Balances(mail0: Table, t: Trace, r: Row) {
    CountIf(t.history, Entering(r)) + Stored(mail0, r) == CountIf(t.history, Leaving(r)) + Stored(t.state.mail, r)
  }

  ghost predicate ConservedAt(s: HubState, steps: seq<Step>, r: Row, n: nat)
    requires n <= |steps|
  {
    Balances(s.mail, Run(s, steps[..n]), r)
  }

  ghost predicate Upsets(s: HubState, step: Step, r: Row) {
    Overwrites(s, step, r) || Redelivers(s, step, r)
  }

  ghost predicate NoneUpsets(s: HubState, steps: seq<Step>, r: Row) {
    forall n | 0 <= n < |steps| :: !Upsets(Run(s, steps[..n]).state, steps[n], r)
  }

  lemma BalanceStep(mail0: Table, before: Trace, o: Outcome, r: Row)
    requires Balances(mail0, before, r)
    ensures Balances(mail0, Trace(o.state, before.history + o.events), r)
       <==> Conserves(before.state.mail, o.events, o.state.mail, r)
  {
    CountIfConcat(before.history, o.events, Entering(r));
    CountIfConcat(before.history, o.events, Leaving(r));
  }

  lemma ConservedStep(s: HubState, steps: seq<Step>, start: real, r: Row, n: nat)
    requires Started(s, start) && Proper(s, steps, start) && n < |steps| && ConservedAt(s, steps, r, n)
    ensures ConservedAt(s, steps, r, n + 1) <==> !Upsets(Run(s, steps[..n]).state, steps[n], r)
  {
    var before := Run(s, steps[..n]);
    LegalAt(s, steps, start, n);
    RunNext(s, steps, n);
    StepConserves(before.state, steps[n], r);
    BalanceStep(s.mail, before, Next(before.state, steps[n]), r);
  }

  lemma {:induction false} ConservedUpTo(s: HubState, steps: seq<Step>, start: real, r: Row, n: nat)
    requires Started(s, start) && Proper(s, steps, start) && NoneUpsets(s, steps, r) && n <= |steps|
    ensures ConservedAt(s, steps, r, n)
  {
    if n > 0 {
      ConservedUpTo(s, steps, start, r, n - 1);
      ConservedStep(s, steps, start, r, n - 1);
    } else {
      assert steps[..0] == [];
    }
  }

  /** For any run at all, fresh ids or not, a row is conserved throughout exactly
      if no step stores a message under its id while it is stored, or drains it
      while it has none. */
  lemma ConservedThroughout(s: HubState, steps: seq<Step>, start: real, r: Row)
    requires Started(s, start) && Proper(s, steps, start)
    ensures (forall n | 0 <= n <= |steps| :: ConservedAt(s, steps, r, n)) <==> NoneUpsets(s, steps, r)
  {
    if NoneUpsets(s, steps, r) {
      forall n | 0 <= n <= |steps|
        ensures ConservedAt(s, steps, r, n)
      {
        ConservedUpTo(s, steps, start, r, n);
      }
    } else {
      var n :| 0 <= n < |steps| && Upsets(Run(s, steps[..n]).state, steps[n], r);
      if ConservedAt(s, steps, r, n) {
        ConservedStep(s, steps, start, r, n);
        assert !ConservedAt(s, steps, r, n + 1);
      }
    }
  }

  /** The id of the message a step sends, if it has one. */
  function Names(step: Step): Option<string> {
    if step.Handle? && step.req.Send? then step.req.id else None
  }

  /** Message ids in the store at the start or sent under since. */
  function Used(s: HubState, steps: seq<Step>): set<string> {
    s.mail.named.Keys + set i | 0 <= i < |steps| && Names(steps[i]).Some? :: Names(steps[i]).value
  }

  /** No send reuses a message id. */
  predicate Fresh(s: HubState, steps: seq<Step>) {
    forall i | 0 <= i < |steps| && Names(steps[i]).Some? :: Names(steps[i]).value !in Used(s, steps[..i])
  }

  lemma UsedGrows(s: HubState, steps: seq<Step>)
    requires steps != []
    ensures var last := steps[|steps| - 1]; var init := steps[..|steps| - 1];
      Used(s, steps) == Used(s, init) + (if Names(last).Some? then {Names(last).value} else {})
    ensures var init := steps[..|steps| - 1]; Fresh(s, steps) ==> Fresh(s, init)
  {
    var init := steps[..|steps| - 1];
    assert forall i | 0 <= i < |init| :: init[i] == steps[i] && init[..i] == steps[..i];
    assert steps == init + [steps[|init|]];
  }

  /** The bookkeeping of MailConserved, one step at a time. */
  ghost predicate Balanced(mail0: Table, t: Trace, used: set<string>, r: Row) {
    && Balances(mail0, t, r) && CountIf(t.history, Entering(r)) + Stored(mail0, r) <= 1
    && t.state.mail.named.Keys <= used && mail0.named.Keys <= used
    && (r.msg.id.Some? && r.msg.id.value !in used ==> CountIf(t.history, Entering(r)) == 0)
  }

  lemma StepKeys(s: HubState, step: Step)
    requires Keyed(s.mail) && Legal(s, step)
    ensures Next(s, step).state.mail.named.Keys
         <= s.mail.named.Keys + if Names(step).Some? then {Names(step).value} else {}
  {
    var f := StepForm(s, step);
  }

  lemma StepBalanced(mail0: Table, t: Trace, step: Step, used: set<string>, r: Row)
    requires Keyed(t.state.mail) && Legal(t.state, step) && Balanced(mail0, t, used, r) && r.msg.id.Some?
    requires Names(step).Some? ==> Names(step).value !in used
    ensures var o := Next(t.state, step);
      Balanced(mail0, Trace(o.state, t.history + o.events),
               if Names(step).Some? then used + {Names(step).value} else used, r)
  {
    var o := Next(t.state, step);
    StepConserves(t.state, step, r);
    BalanceStep(mail0, t, o, r);
    StepKeys(t.state, step);
    CountIfConcat(t.history, o.events, Entering(r));
    assert !Overwrites(t.state, step, r);
  }

  /** Over a run with fresh ids every row with an id that was ever put in the
      store, or was there at the start, is in exactly one place: still stored, or
      it left once - drained to a session its address matches, dropped by a drain
      whose send raised, or pruned for age. */
  lemma {:induction false} MailConserved(s: HubState, steps: seq<Step>, start: real, r: Row)
    requires Started(s, start) && Proper(s, steps, start) && Fresh(s, steps) && r.msg.id.Some?
    ensures var t := Run(s, steps);
      CountIf(t.history, Entering(r)) + Stored(s.mail, r)
        == CountIf(t.history, Leaving(r)) + Stored(t.state.mail, r) <= 1
    ensures Balanced(s.mail, Run(s, steps), Used(s, steps), r)
  {
    if steps != [] {
      var init, last := steps[..|steps| - 1], steps[|steps| - 1];
      UsedGrows(s, steps);
      ProperLast(s, steps, start);
      MailConserved(s, init, start, r);
      AlwaysKeyed(s, init, start);
      assert Names(last).Some? ==> steps[..|init|] == init;
      StepBalanced(s.mail, Run(s, init), last, Used(s, init), r);
    }
  }

  // ---- drains and acks ----------------------------------------------------------------

  /** The step drains a session, and a send raises before all rows are out. */
  predicate Breaks(s: HubState, step: Step) {
    && step.Handle? && !Unlinked(s, step.id) && DrainKey(s, step.id, step.req).Some?
    && step.oracle.sent < |step.oracle.rows|
  }

  /** A message leaves the store only for a session its address matches, and is
      lost exactly by a drain that breaks. */
  lemma DrainsMatch(s: HubState, step: Step)
    requires Keyed(s.mail) && Legal(s, step)
    ensures var o := Next(s, step);
      && (forall e | e in o.events && (e.Drained? || e.Dropped?) :: Holds(s.mail, e.row) && Matches(e.row, e.key))
      && ((exists e | e in o.events :: e.Dropped?) <==> Breaks(s, step))
  {
    var f := StepForm(s, step);
    FormMatches(s, Next(s, step), f, step);
    DropsIff(s, step, f);
  }

  lemma DropsIff(s: HubState, step: Step, f: Form)
    requires HasForm(s, Next(s, step), f, step)
    ensures (exists e | e in Next(s, step).events :: e.Dropped?) <==> Breaks(s, step)
  {
    if step.Handle? && !Unlinked(s, step.id) && !step.req.Send? {
      StampKeeps(s, step.id, step.now);
      DispatchDrains(Stamp(s, step.id, step.now), step.id, step.req, step.now, step.oracle);
      var k := DrainKey(s, step.id, step.req);
      if Breaks(s, step) {
        assert Next(s, step).events[step.oracle.sent].Dropped?;
      }
    }
  }

  /** The caller is told of an internal error exactly if a drain breaks, a hello
      raises on its title, or the ack of an accepted request cannot be sent. */
  lemma InternalErrorIff(s: HubState, step: Step)
    ensures Next(s, step).answer == Broken <==>
      || Breaks(s, step)
      || (step.Handle? && !Unlinked(s, step.id)
          && (Fails(step.req) || (!Refuses(s, step.id, step.req, step.oracle) && !step.oracle.answered)))
  {
    if step.Handle? && !Unlinked(s, step.id) {
      StampLooks(s, step.id, step.now);
      RefusedIff(Stamp(s, step.id, step.now), step.id, step.req, step.now, step.oracle);
      BrokenIff(Stamp(s, step.id, step.now), step);
    }
  }

  lemma SendNeverBreaks(s: HubState, id: Identity, req: Request, now: real, o: Oracle)
    requires req.Send?
    ensures OnSend(s, id, req, now, o).answer != Broken
  {}

  lemma BrokenIff(s: HubState, step: Step)
    requires step.Handle?
    ensures Dispatch(s, step.id, step.req, step.now, step.oracle).answer == Broken <==>
      || Fails(step.req)
      || (DrainKey(s, step.id, step.req).Some? && step.oracle.sent < |step.oracle.rows|)
  {
    if step.req.Send? { SendNeverBreaks(s, step.id, step.req, step.now, step.oracle); }
  }

  /** What a sender is told is what happened to its message. */
  lemma AckTellsFate(s: HubState, step: Step)
    requires Keyed(s.mail) && Legal(s, step) && Next(s, step).answer.Sent?
    ensures var o := Next(s, step);
      match o.answer.status
      case InMailbox => exists e :: e in o.events && e.Queued?
      case Delivered => exists e :: e in o.events && (e.Direct? || e.Routed?)
      case Lost => o.events == []
  {
    var f := StepForm(s, step);
    if f.Emits? { assert Next(s, step).events[0] == f.event; }
  }

  /** And a drain's caller is told how many messages it was handed. */
  lemma AckCounts(s: HubState, step: Step)
    requires Keyed(s.mail) && Legal(s, step) && Next(s, step).answer.DrainedCount?
    ensures var o := Next(s, step);
      o.answer.count == |o.events| && forall e | e in o.events :: e.Drained?
  {
    StampKeeps(s, step.id, step.now);
    DispatchDrains(Stamp(s, step.id, step.now), step.id, step.req, step.now, step.oracle);
  }

  lemma FormMatches(s: HubState, o: Outcome, f: Form, step: Step)
    requires HasForm(s, o, f, step)
    ensures forall e | e in o.events && (e.Drained? || e.Dropped?) :: Holds(s.mail, e.row) && Matches(e.row, e.key)
  {
    if f.Drains? {
      ListingHolds(s.mail, For(f.key), f.rows);
      assert forall i | 0 <= i < |f.rows| :: o.events[i].row == f.rows[i] && f.rows[i] in f.rows;
    }
  }

  ghost predicate IdsOnce(h: seq<Event>, used: set<string>) {
    && (forall i | 0 <= i < |h| && IsSend(h[i]) && Msg(h[i]).id.Some? :: Msg(h[i]).id.value in used)
    && (forall i, j | 0 <= i < j < |h| && IsSend(h[i]) && IsSend(h[j]) && Msg(h[i]).id.Some? ::
          Msg(h[i]).id != Msg(h[j]).id)
  }

  lemma FormIdsOnce(s: HubState, o: Outcome, f: Form, step: Step, h: seq<Event>, used: set<string>)
    requires HasForm(s, o, f, step) && IdsOnce(h, used)
    requires Names(step).Some? ==> Names(step).value !in used
    ensures IdsOnce(h + o.events, if Names(step).Some? then used + {Names(step).value} else used)
  {
    var h' := h + o.events;
    assert forall i | |h| <= i < |h'| :: h'[i] == o.events[i - |h|];
    assert forall i | |h| <= i < |h'| && IsSend(h'[i]) :: f.Emits? && i == |h| && h'[i] == f.event;
  }

  /** With fresh ids at most one message event happens under an id, so a
      message acked as delivered never enters the store. */
  lemma {:induction false} SentOnce(s: HubState, steps: seq<Step>, start: real)
    requires Started(s, start) && Proper(s, steps, start) && Fresh(s, steps)
    ensures IdsOnce(Run(s, steps).history, Used(s, steps))
  {
    if steps != [] {
      var init, last := steps[..|steps| - 1], steps[|steps| - 1];
      UsedGrows(s, steps);
      SentOnce(s, init, start);
      AlwaysKeyed(s, init, start);
      assert Names(last).Some? ==> steps[..|init|] == init;
      var f := StepForm(Run(s, init).state, last);
      FormIdsOnce(Run(s, init).state, Next(Run(s, init).state, last), f, last, Run(s, init).history, Used(s, init));
    }
  }
}

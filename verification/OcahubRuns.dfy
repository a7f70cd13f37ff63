// What holds over whole runs of the broker: no mail waits for an online session,
// the loop survives, order survives offline periods.

module OcahubRuns {
  import opened Prelude
  import opened OcahubNames
  import opened OcahubStore
  import opened OcahubHub
  import opened OcahubInvariants
  import opened OcahubGuards
  import opened OcahubForms

  // ---- runs ----------------------------------------------------------------------

  datatype Trace = Trace(state: HubState, history: seq<Event>)

  ghost function Run(s: HubState, steps: seq<Step>): Trace {
    if steps == [] then Trace(s, [])
    else
      var before := Run(s, steps[..|steps| - 1]);
      var o := Next(before.state, steps[|steps| - 1]);
      Trace(o.state, before.history + o.events)
  }

  function Clock(steps: seq<Step>, start: real): real {
    if steps == [] then start
    else
      var last := steps[|steps| - 1];
      if last.Handle? then last.now else Clock(steps[..|steps| - 1], start)
  }

  /** A run as the broker makes it: the store answers its queries and the clock
      does not go back. */
  ghost predicate Proper(s: HubState, steps: seq<Step>, start: real) {
    steps == [] ||
    var init := steps[..|steps| - 1];
    var last := steps[|steps| - 1];
    && Proper(s, init, start)
    && Legal(Run(s, init).state, last)
    && (last.Handle? ==> Clock(init, start) <= last.now)
  }

  /** No request of the run puts a session online and leaves mail of its. */
  ghost predicate NoneStrands(s: HubState, steps: seq<Step>) {
    forall n | 0 <= n < |steps| :: !Strands(Run(s, steps[..n]).state, steps[n])
  }

  /** No hello of the run for an unknown session fails halfway. */
  ghost predicate NoneUnlinks(s: HubState, steps: seq<Step>) {
    forall n | 0 <= n < |steps| :: !(steps[n].Handle? && HalfHello(Run(s, steps[..n]).state, steps[n].req))
  }

  lemma Prefixes(steps: seq<Step>)
    requires steps != []
    ensures var init := steps[..|steps| - 1];
      (forall n | 0 <= n < |init| :: init[n] == steps[n]) && forall n | 0 <= n <= |init| :: init[..n] == steps[..n]
  {}

  /** A broker that has just started, with whatever mail its store kept. */
  ghost predicate Started(s: HubState, start: real) {
    && s.registry == map[] && s.identityMap == map[] && s.pending == map[] && s.asks == map[]
    && Keyed(s.mail) && forall r | Holds(s.mail, r) :: r.msg.ts <= start
  }

  lemma {:induction false} AlwaysKeyed(s: HubState, steps: seq<Step>, start: real)
    requires Keyed(s.mail) && Proper(s, steps, start)
    ensures Keyed(Run(s, steps).state.mail)
  {
    if steps != [] {
      AlwaysKeyed(s, steps[..|steps| - 1], start);
      var _ := StepForm(Run(s, steps[..|steps| - 1]).state, steps[|steps| - 1]);
    }
  }

  /** Over any run, between any two requests: no mail waits for an online
      session, unless a request has left some. */
  lemma {:induction false} AlwaysMailed(s: HubState, steps: seq<Step>, start: real)
    requires Started(s, start) && NoneStrands(s, steps)
    ensures Mailed(Run(s, steps).state)
  {
    if steps != [] {
      var n := |steps| - 1;
      Prefixes(steps);
      AlwaysMailed(s, steps[..n], start);
      StepSound(Run(s, steps[..n]).state, steps[n]);
    }
  }

  lemma RunNext(s: HubState, steps: seq<Step>, n: nat)
    requires n < |steps|
    ensures var before := Run(s, steps[..n]); var o := Next(before.state, steps[n]);
      Run(s, steps[..n + 1]) == Trace(o.state, before.history + o.events)
  {
    assert steps[..n + 1][..n] == steps[..n];
  }

  lemma MailedStep(s: HubState, steps: seq<Step>, n: nat)
    requires n < |steps| && Mailed(Run(s, steps[..n]).state)
    ensures Mailed(Run(s, steps[..n + 1]).state) <==> !Strands(Run(s, steps[..n]).state, steps[n])
  {
    RunNext(s, steps, n);
    StepSound(Run(s, steps[..n]).state, steps[n]);
  }

  /** The condition is exact: mail is never stranded during a run exactly if no
      request of it leaves any. */
  lemma MailedThroughout(s: HubState, steps: seq<Step>, start: real)
    requires Started(s, start)
    ensures (forall n | 0 <= n <= |steps| :: Mailed(Run(s, steps[..n]).state)) <==> NoneStrands(s, steps)
  {
    if NoneStrands(s, steps) {
      forall n | 0 <= n <= |steps|
        ensures Mailed(Run(s, steps[..n]).state)
      {
        assert forall m | 0 <= m < n :: steps[..n][..m] == steps[..m];
        AlwaysMailed(s, steps[..n], start);
      }
    } else {
      var n :| 0 <= n < |steps| && Strands(Run(s, steps[..n]).state, steps[n]);
      if Mailed(Run(s, steps[..n]).state) {
        MailedStep(s, steps, n);
        assert !Mailed(Run(s, steps[..n + 1]).state);
      }
    }
  }

  lemma {:induction false} AlwaysLinked(s: HubState, steps: seq<Step>, start: real)
    requires Started(s, start) && NoneUnlinks(s, steps)
    ensures Linked(Run(s, steps).state)
  {
    if steps != [] {
      var n := |steps| - 1;
      Prefixes(steps);
      AlwaysLinked(s, steps[..n], start);
      StepLinked(Run(s, steps[..n]).state, steps[n]);
    }
  }

  lemma LinkedStep(s: HubState, steps: seq<Step>, n: nat)
    requires n < |steps| && Linked(Run(s, steps[..n]).state)
    ensures Linked(Run(s, steps[..n + 1]).state) <==>
      !(steps[n].Handle? && HalfHello(Run(s, steps[..n]).state, steps[n].req))
  {
    RunNext(s, steps, n);
    StepLinked(Run(s, steps[..n]).state, steps[n]);
  }

  /** The condition is exact: every mapped socket is registered throughout a run
      exactly if no hello of it for an unknown session fails halfway. */
  lemma LinkedThroughout(s: HubState, steps: seq<Step>, start: real)
    requires Started(s, start)
    ensures (forall n | 0 <= n <= |steps| :: Linked(Run(s, steps[..n]).state)) <==> NoneUnlinks(s, steps)
  {
    if NoneUnlinks(s, steps) {
      forall n | 0 <= n <= |steps|
        ensures Linked(Run(s, steps[..n]).state)
      {
        assert forall m | 0 <= m < n :: steps[..n][..m] == steps[..m];
        AlwaysLinked(s, steps[..n], start);
      }
    } else {
      var n :| 0 <= n < |steps| && steps[n].Handle? && HalfHello(Run(s, steps[..n]).state, steps[n].req);
      if Linked(Run(s, steps[..n]).state) {
        LinkedStep(s, steps, n);
        assert !Linked(Run(s, steps[..n + 1]).state);
      }
    }
  }

  /** After any run without a hello for an unknown session that fails halfway, the router
      loop ends on exactly the requests that are refused while their sender
      cannot be reached. */
  lemma LoopEndsIff(s: HubState, steps: seq<Step>, start: real, step: Step)
    requires Started(s, start) && NoneUnlinks(s, steps)
    ensures var before := Run(s, steps).state;
      Next(before, step).answer.Crashed? <==>
        step.Handle? && Refuses(before, step.id, step.req, step.oracle) && !step.oracle.answered
  {
    AlwaysLinked(s, steps, start);
    CrashIff(Run(s, steps).state, step);
  }

  // ---- order survives offline periods ----------------------------------------------

  /** Handed to one session: directly, or by a drain. */
  predicate HandedTo(e: Event, k: Key) {
    (e.Direct? || e.Drained?) && e.key == k
  }

  ghost predicate InOrder(h: seq<Event>) {
    forall i, j, k | 0 <= i < j < |h| && HandedTo(h[i], k) && HandedTo(h[j], k) ::
      Msg(h[i]).ts <= Msg(h[j]).ts
  }

  /** Nothing already handed to a session is younger than its waiting mail. */
  ghost predicate NotOvertaken(h: seq<Event>, mail: Table) {
    forall i, k, r | 0 <= i < |h| && HandedTo(h[i], k) && Holds(mail, r) && Matches(r, k) ::
      Msg(h[i]).ts <= r.msg.ts
  }

  ghost predicate UpTo(h: seq<Event>, mail: Table, t: real) {
    && (forall i, k | 0 <= i < |h| && HandedTo(h[i], k) :: Msg(h[i]).ts <= t)
    && (forall r | Holds(mail, r) :: r.msg.ts <= t)
  }

  ghost predicate Ordered(h: seq<Event>, mail: Table, t: real) {
    InOrder(h) && NotOvertaken(h, mail) && UpTo(h, mail, t)
  }

  lemma EmitOrdered(h: seq<Event>, mail: Table, t: real, now: real, e: Event, tail: seq<Event>)
    requires Ordered(h, mail, t) && t <= now
    requires IsSend(e) && Msg(e).ts == now
    requires e.Direct? ==> forall r | Holds(mail, r) && Matches(r, e.key) :: now <= r.msg.ts
    requires tail == [] || tail == [AskMade(Msg(e).id)]
    ensures Ordered(h + ([e] + tail), if e.Queued? then Insert(mail, e.row) else mail, now)
  {
    var h' := h + ([e] + tail);
    assert forall i, k | 0 <= i < |h'| && HandedTo(h'[i], k) :: i < |h| || (h'[i] == e && i == |h|);
  }

  /** A drain passes a row without an id: it hands over an earlier one after it, as
      it stays, and would be handed over behind younger mail. */
  ghost predicate Passes(mail: Table, k: Key, rows: seq<Row>, sent: nat) {
    exists i, r :: 0 <= i < |rows| && i < sent && Remains(mail, k, r) && r.msg.ts < rows[i].msg.ts
  }

  /** A row the session's drain hands over and does not delete. */
  predicate Remains(mail: Table, k: Key, r: Row) {
    Holds(mail, r) && Matches(r, k) && r.msg.id.None?
  }

  /** What a drain's events hand over: its first rows, in order, to its session. */
  lemma DrainHands(h: seq<Event>, k: Key, to: Identity, rows: seq<Row>, sent: nat)
    ensures var h' := h + DrainEvents(k, to, rows, sent);
      && |h'| == |h| + |rows|
      && (forall i, k' | 0 <= i < |h| :: HandedTo(h'[i], k') <==> HandedTo(h[i], k'))
      && (forall i, k' | |h| <= i < |h'| :: HandedTo(h'[i], k') <==> k' == k && i - |h| < sent)
      && (forall i | |h| <= i < |h'| && i - |h| < sent :: h'[i].Drained? && h'[i].row == rows[i - |h|])
      && (forall i | 0 <= i < |h| :: h'[i] == h[i])
  {}

  lemma DrainInOrder(h: seq<Event>, mail: Table, t: real, k: Key, to: Identity, rows: seq<Row>, sent: nat)
    requires Keyed(mail) && Ordered(h, mail, t) && IsSelection(mail, k, rows)
    ensures var h' := h + DrainEvents(k, to, rows, sent); InOrder(h') && UpTo(h', Without(mail, k), t)
  {
    var h' := h + DrainEvents(k, to, rows, sent);
    DrainHands(h, k, to, rows, sent);
    WithoutKeeps(mail, k);
    ListingHolds(mail, For(k), rows);
    assert forall i | 0 <= i < |rows| :: rows[i] in rows && Holds(mail, rows[i]) && Matches(rows[i], k);
    forall i, j, k' | 0 <= i < j < |h'| && HandedTo(h'[i], k') && HandedTo(h'[j], k')
      ensures Msg(h'[i]).ts <= Msg(h'[j]).ts
    {
      if i < |h| <= j {
        assert HandedTo(h[i], k) && Msg(h[i]).ts <= rows[j - |h|].msg.ts;
      }
    }
  }

  lemma DrainOrdered(
    h: seq<Event>, mail: Table, t: real, k: Key, to: Identity, rows: seq<Row>, sent: nat)
    requires Keyed(mail) && Ordered(h, mail, t) && IsSelection(mail, k, rows)
    ensures Ordered(h + DrainEvents(k, to, rows, sent), Without(mail, k), t) <==> !Passes(mail, k, rows, sent)
  {
    var h' := h + DrainEvents(k, to, rows, sent);
    DrainInOrder(h, mail, t, k, to, rows, sent);
    DrainHands(h, k, to, rows, sent);
    WithoutKeeps(mail, k);
    if Passes(mail, k, rows, sent) {
      var i, r :| 0 <= i < |rows| && i < sent && Remains(mail, k, r) && r.msg.ts < rows[i].msg.ts;
      assert HandedTo(h'[|h| + i], k) && Holds(Without(mail, k), r);
      assert !NotOvertaken(h', Without(mail, k));
    } else {
      forall i, k', r | 0 <= i < |h'| && HandedTo(h'[i], k') && Holds(Without(mail, k), r) && Matches(r, k')
        ensures Msg(h'[i]).ts <= r.msg.ts
      {
        if |h| <= i {
          assert Remains(mail, k, r) && i - |h| < sent && Msg(h'[i]) == rows[i - |h|].msg;
        } else {
          assert HandedTo(h[i], k') && Holds(mail, r);
        }
      }
    }
  }

  /** This step routes its message past older mail that waits for the same
      session - the target is online, the router takes the message, and a row it
      would drain is older - or its drain passes a row that remains. */
  ghost predicate Overtakes(s: HubState, step: Step) {
    || (RoutedTo(s, step).Some?
        && exists r :: Holds(s.mail, r) && Matches(r, RoutedTo(s, step).value) && r.msg.ts < step.now)
    || (step.Handle? && !Unlinked(s, step.id) && DrainKey(s, step.id, step.req).Some?
        && Passes(s.mail, DrainKey(s, step.id, step.req).value, step.oracle.rows, step.oracle.sent))
  }

  function TimeAfter(step: Step, t: real): real {
    if step.Handle? then step.now else t
  }

  /** One step keeps the order exactly unless it overtakes. */
  lemma StepOrderedIff(s: HubState, step: Step, h: seq<Event>, t: real)
    requires Keyed(s.mail) && Legal(s, step) && Ordered(h, s.mail, t) && t <= TimeAfter(step, t)
    ensures Ordered(h + Next(s, step).events, Next(s, step).state.mail, TimeAfter(step, t)) <==> !Overtakes(s, step)
  {
    var o, now := Next(s, step), TimeAfter(step, t);
    if step.Handle? && Unlinked(s, step.id) {
      assert h + o.events == h;
    } else if step.Handle? && !Unlinked(s, step.id) && !step.req.Send? {
      StampKeeps(s, step.id, step.now);
      DrainStepOrdered(s, step, h, now);
    } else {
      var f := StepForm(s, step);
      GuardsMean(s, step);
      if Overtakes(s, step) {
        var e := o.events[0];
        assert f.Emits? && f.event == e;
        assert (h + o.events)[|h|] == e && HandedTo(e, e.key) && Msg(e).ts == step.now;
      } else {
        assert f.Emits? ==> f.event == o.events[0] && f.event in o.events;
        FormOrdered(s, o, f, step, h, t);
      }
    }
  }

  lemma DrainStepOrdered(s: HubState, step: Step, h: seq<Event>, now: real)
    requires Keyed(s.mail) && Legal(s, step) && step.Handle? && !Unlinked(s, step.id) && !step.req.Send?
    requires Ordered(h, s.mail, now)
    ensures Ordered(h + Next(s, step).events, Next(s, step).state.mail, now) <==> !Overtakes(s, step)
  {
    var stamped := Stamp(s, step.id, step.now);
    StampKeeps(s, step.id, step.now);
    DispatchDrains(stamped, step.id, step.req, step.now, step.oracle);
    DispatchMail(stamped, step.id, step.req, step.now, step.oracle);
    var k := DrainKey(s, step.id, step.req);
    if k.Some? {
      DrainOrdered(h, s.mail, now, k.value, step.id, step.oracle.rows, step.oracle.sent);
    } else {
      assert h + Next(s, step).events == h;
    }
  }

  lemma DispatchMail(s: HubState, id: Identity, req: Request, now: real, o: Oracle)
    requires !req.Send?
    ensures var k := DrainKey(s, id, req);
      Dispatch(s, id, req, now, o).state.mail == if k.Some? then Without(s.mail, k.value) else s.mail
  {}

  lemma FormOrdered(s: HubState, o: Outcome, f: Form, step: Step, h: seq<Event>, t: real)
    requires Keyed(s.mail) && HasForm(s, o, f, step) && !f.Drains?
    requires Ordered(h, s.mail, t) && t <= TimeAfter(step, t)
    requires f.Emits? && f.event.Direct? ==>
      forall r | Holds(s.mail, r) && Matches(r, f.event.key) :: step.now <= r.msg.ts
    ensures Ordered(h + o.events, o.state.mail, TimeAfter(step, t))
  {
    match f
    case Silent =>
      assert h + o.events == h;
    case Emits(e, withAsk) =>
      var tail := if withAsk then [AskMade(Msg(e).id)] else [];
      assert o.events == [e] + tail;
      EmitOrdered(h, s.mail, t, step.now, e, tail);
    case Expires(cutoff, gone) =>
      var h' := h + o.events;
      assert forall i, k | 0 <= i < |h'| && HandedTo(h'[i], k) :: i < |h|;
      forall r
        ensures Holds(o.state.mail, r) ==> Holds(s.mail, r)
      {
        YoungerStores(s.mail, cutoff, r);
      }
  }

  lemma OvertakesNothing(s: HubState, step: Step)
    requires Mailed(s) && s.mail.unnamed == []
    ensures !Overtakes(s, step)
  {
    if RoutedTo(s, step).Some? { StampLooks(s, step.id, step.now); }
  }

  /** No row without an id is stored at any moment of the run. */
  ghost predicate NoneUnnamed(s: HubState, steps: seq<Step>) {
    forall n | 0 <= n <= |steps| :: Run(s, steps[..n]).state.mail.unnamed == []
  }

  /** All messages handed to one session over a run, directly and by drains
      together, have non-decreasing hub timestamps, unless a request leaves mail
      behind or a row without an id is stored. */
  lemma {:induction false} OrderSurvives(s: HubState, steps: seq<Step>, start: real)
    requires Started(s, start) && Proper(s, steps, start) && NoneStrands(s, steps) && NoneUnnamed(s, steps)
    ensures Ordered(Run(s, steps).history, Run(s, steps).state.mail, Clock(steps, start))
  {
    if steps != [] {
      var n := |steps| - 1;
      Prefixes(steps);
      OrderSurvives(s, steps[..n], start);
      AlwaysMailed(s, steps[..n], start);
      OvertakesNothing(Run(s, steps[..n]).state, steps[n]);
      StepOrderedIff(Run(s, steps[..n]).state, steps[n], Run(s, steps[..n]).history, Clock(steps[..n], start));
    }
  }

  ghost predicate OrderedAt(s: HubState, steps: seq<Step>, start: real, n: nat)
    requires n <= |steps|
  {
    Ordered(Run(s, steps[..n]).history, Run(s, steps[..n]).state.mail, Clock(steps[..n], start))
  }

  lemma {:induction false} ProperPrefix(s: HubState, steps: seq<Step>, start: real, n: nat)
    requires Proper(s, steps, start) && n <= |steps|
    ensures Proper(s, steps[..n], start)
    decreases |steps|
  {
    if n < |steps| {
      Prefixes(steps);
      ProperPrefix(s, steps[..|steps| - 1], start, n);
    } else {
      assert steps[..n] == steps;
    }
  }

  ghost predicate NoneOvertakes(s: HubState, steps: seq<Step>) {
    forall n | 0 <= n < |steps| :: !Overtakes(Run(s, steps[..n]).state, steps[n])
  }

  /** For any run at all, the order holds throughout exactly if no step overtakes. */
  lemma OrderedThroughout(s: HubState, steps: seq<Step>, start: real)
    requires Started(s, start) && Proper(s, steps, start)
    ensures (forall n | 0 <= n <= |steps| :: OrderedAt(s, steps, start, n)) <==> NoneOvertakes(s, steps)
  {
    if NoneOvertakes(s, steps) {
      forall n | 0 <= n <= |steps|
        ensures OrderedAt(s, steps, start, n)
      {
        OrderedUpTo(s, steps, start, n);
      }
    } else {
      var n :| 0 <= n < |steps| && Overtakes(Run(s, steps[..n]).state, steps[n]);
      if OrderedAt(s, steps, start, n) {
        OrderedStep(s, steps, start, n);
        assert !OrderedAt(s, steps, start, n + 1);
      }
    }
  }

  lemma {:induction false} OrderedUpTo(s: HubState, steps: seq<Step>, start: real, n: nat)
    requires Started(s, start) && Proper(s, steps, start) && NoneOvertakes(s, steps) && n <= |steps|
    ensures OrderedAt(s, steps, start, n)
  {
    if n > 0 {
      OrderedUpTo(s, steps, start, n - 1);
      OrderedStep(s, steps, start, n - 1);
    } else {
      assert steps[..0] == [];
    }
  }

  lemma ProperLast(s: HubState, steps: seq<Step>, start: real)
    requires Proper(s, steps, start) && steps != []
    ensures var init, last := steps[..|steps| - 1], steps[|steps| - 1];
      && Proper(s, init, start) && Legal(Run(s, init).state, last)
      && (last.Handle? ==> Clock(init, start) <= last.now)
      && Clock(steps, start) == TimeAfter(last, Clock(init, start))
  {}

  lemma LegalAt(s: HubState, steps: seq<Step>, start: real, n: nat)
    requires Keyed(s.mail) && Proper(s, steps, start) && n < |steps|
    ensures Keyed(Run(s, steps[..n]).state.mail) && Legal(Run(s, steps[..n]).state, steps[n])
    ensures steps[n].Handle? ==> Clock(steps[..n], start) <= steps[n].now
    ensures Clock(steps[..n + 1], start) == TimeAfter(steps[n], Clock(steps[..n], start))
  {
    var next := steps[..n + 1];
    ProperPrefix(s, steps, start, n + 1);
    ProperLast(s, next, start);
    assert next[..n] == steps[..n];
    AlwaysKeyed(s, steps[..n], start);
  }

  lemma OrderedStep(s: HubState, steps: seq<Step>, start: real, n: nat)
    requires Started(s, start) && Proper(s, steps, start) && n < |steps| && OrderedAt(s, steps, start, n)
    ensures OrderedAt(s, steps, start, n + 1) <==> !Overtakes(Run(s, steps[..n]).state, steps[n])
  {
    LegalAt(s, steps, start, n);
    RunNext(s, steps, n);
    StepOrderedIff(Run(s, steps[..n]).state, steps[n], Run(s, steps[..n]).history, Clock(steps[..n], start));
  }
}

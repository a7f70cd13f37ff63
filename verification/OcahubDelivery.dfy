// Whose socket a message reaches: who attached, who asked, who gets the mail
// that waited.

module OcahubDelivery {
  import opened Prelude
  import opened OcahubNames
  import opened OcahubStore
  import opened OcahubHub
  import opened OcahubInvariants
  import opened OcahubGuards
  import opened OcahubForms
  import opened OcahubRuns
  import opened OcahubConservation

  /** The step makes its socket the session's. */
  predicate Attaches(step: Step, k: Key) {
    step.Handle? && Attached(step.req) == Some(k)
  }

  /** The socket that attached to a session last. */
  function LastAttach(steps: seq<Step>, k: Key): Option<Identity> {
    if steps == [] then None
    else if Attaches(steps[|steps| - 1], k) then Some(steps[|steps| - 1].id)
    else LastAttach(steps[..|steps| - 1], k)
  }

  /** The socket has said it is this session. */
  ghost predicate Claimed(steps: seq<Step>, id: Identity, k: Key) {
    exists step :: step in steps && step.Handle? && step.id == id && Named(step.req) == Some(k)
  }

  /** The socket has sent a message under this id. */
  ghost predicate SentBy(steps: seq<Step>, m: Option<string>, id: Identity) {
    exists step :: step in steps && step.Handle? && step.id == id && step.req.Send? && step.req.id == m
  }

  ghost predicate CrashesAt(s: HubState, steps: seq<Step>, n: nat)
    requires n < |steps|
  {
    Next(Run(s, steps[..n]).state, steps[n]).answer.Crashed?
  }

  /** The router loop has survived the run. */
  ghost predicate Alive(s: HubState, steps: seq<Step>) {
    forall n | 0 <= n < |steps| :: !CrashesAt(s, steps, n)
  }

  // ---- sessions and their sockets ----------------------------------------------

  /** The registry and the identity map say what the requests so far said. */
  ghost predicate Bound(s: HubState, steps: seq<Step>) {
    && (forall k | k in s.registry :: LastAttach(steps, k) == Some(s.registry[k].identity))
    && (forall id | id in s.identityMap :: Claimed(steps, id, s.identityMap[id]))
  }

  /** A direct delivery goes to the socket the session has on record, a routed
      one to the socket remembered for the message it answers. */
  ghost predicate Reaches(s: HubState, o: Outcome) {
    forall e | e in o.events ::
      match e
      case Direct(k, to, _) => k in s.registry && to == s.registry[k].identity
      case Routed(to, msg) =>
        var m := msg.replyTo;
        (m in s.asks && to == s.asks[m].from) || (m in s.pending && to == s.pending[m].identity)
      case Queued(_) => true
      case AskMade(_) => true
      case _ => false
  }

  lemma SendReaches(s: HubState, id: Identity, req: Request, now: real, o: Oracle)
    requires req.Send?
    ensures Reaches(Remembered(s, id, req, now), OnSend(s, id, req, now, o))
  {
    if ParseKind(req.kind).Some? {
      var kind := ParseKind(req.kind).value;
      var s' := Remembered(s, id, req, now);
      var msg := MessageOf(s, id, req, kind, now);
      if kind == Reply && Truthy(req.replyTo) {
        ReplyReaches(s', msg, req.to, o);
      } else if !(Truthy(req.replyTo) && !Truthy(req.to)) {
        AddressedReaches(s', id, msg, req, o);
      }
    }
  }

  lemma DeliverReaches(s: HubState, target: Target, msg: Message, routed: bool)
    ensures Reaches(s, Deliver(s, target, msg, routed))
  {}

  lemma ReplyReaches(s: HubState, msg: Message, to: Option<string>, o: Oracle)
    ensures Reaches(s, SendReply(s, msg, to, o))
  {
    var m := msg.replyTo;
    var s' := s.(asks := s.asks - {m});
    var out := msg.(kind := if m in s.asks then Reply else Tell);
    if Truthy(to) && Resolve(s'.registry, to.value).Some? {
      DeliverReaches(s', Resolve(s'.registry, to.value).value, out, o.toSession);
    }
  }

  lemma AddressedReaches(s: HubState, id: Identity, msg: Message, req: Request, o: Oracle)
    requires req.Send?
    ensures Reaches(s, SendTo(s, id, msg, req, o))
  {
    if SendTarget(s.registry, req.to, req.dir).Some? {
      DeliverReaches(s, SendTarget(s.registry, req.to, req.dir).value, msg, o.toSession);
    }
  }

  /** What a request does to who is attached where. */
  ghost predicate Rebinds(s: HubState, s': HubState, id: Identity, req: Request) {
    && (forall k | k in s'.registry ::
          if Attached(req) == Some(k) then s'.registry[k].identity == id
          else k in s.registry && s'.registry[k].identity == s.registry[k].identity)
    && (forall other | other in s'.identityMap ::
          || (other in s.identityMap && s'.identityMap[other] == s.identityMap[other])
          || (other == id && Named(req) == Some(s'.identityMap[other])))
  }

  lemma HelloRebinds(s: HubState, id: Identity, req: Request, now: real, o: Oracle)
    requires req.Hello?
    ensures Rebinds(s, OnHello(s, id, req, now, o).state, id, req)
  {}

  lemma PollRebinds(s: HubState, id: Identity, req: Request, now: real, o: Oracle)
    requires req.Poll?
    ensures Rebinds(s, OnPoll(s, id, req, now, o).state, id, req)
  {}

  lemma DispatchRebinds(s: HubState, id: Identity, req: Request, now: real, o: Oracle)
    ensures Rebinds(s, Dispatch(s, id, req, now, o).state, id, req)
  {
    match req
    case Hello(_, _, _, _) => HelloRebinds(s, id, req, now, o);
    case Send(_, _, _, _, _, _, _) => SendSockets(s, id, req, now, o);
    case Poll(_, _, _) => PollRebinds(s, id, req, now, o);
    case Bye(_, _) => ByeSockets(s, id, req);
    case _ =>
  }

  lemma StepBinds(s: HubState, step: Step)
    requires !Next(s, step).answer.Crashed?
    ensures if step.Handle? then Rebinds(s, Next(s, step).state, step.id, step.req)
      else SameSockets(s, Next(s, step).state)
  {
    if step.Handle? {
      StampKeeps(s, step.id, step.now);
      var stamped := Stamp(s, step.id, step.now);
      assert SameSockets(s, stamped);
      DispatchRebinds(stamped, step.id, step.req, step.now, step.oracle);
    }
  }

  /** What a step the loop survives does to who is attached where. */
  ghost predicate Moves(s: HubState, s': HubState, step: Step) {
    if step.Handle? then Rebinds(s, s', step.id, step.req) else SameSockets(s, s')
  }

  lemma BoundStep(s: HubState, s': HubState, steps: seq<Step>, step: Step, next: seq<Step>)
    requires Bound(s, steps) && Moves(s, s', step) && next == steps + [step]
    ensures Bound(s', next)
  {
    ClaimsGrow(steps, step);
    assert next[..|steps|] == steps;
    assert forall k ::
        LastAttach(next, k) == if Attaches(step, k) then Some(step.id) else LastAttach(steps, k);
  }

  ghost predicate BoundAt(s: HubState, steps: seq<Step>, n: nat)
    requires n <= |steps|
  {
    Bound(Run(s, steps[..n]).state, steps[..n])
  }

  ghost predicate MovesAt(s: HubState, steps: seq<Step>, n: nat)
    requires n < |steps|
  {
    Moves(Run(s, steps[..n]).state, Run(s, steps[..n + 1]).state, steps[n])
  }

  lemma RunMoves(s: HubState, steps: seq<Step>, n: nat)
    requires n < |steps| && !CrashesAt(s, steps, n)
    ensures MovesAt(s, steps, n)
  {
    RunNext(s, steps, n);
    StepBinds(Run(s, steps[..n]).state, steps[n]);
  }

  lemma BoundNext(s: HubState, steps: seq<Step>, n: nat)
    requires n < |steps| && BoundAt(s, steps, n) && MovesAt(s, steps, n)
    ensures BoundAt(s, steps, n + 1)
  {
    BoundStep(Run(s, steps[..n]).state, Run(s, steps[..n + 1]).state, steps[..n], steps[n], steps[..n + 1]);
  }

  lemma {:induction false} BoundUpTo(s: HubState, steps: seq<Step>, n: nat)
    requires BoundAt(s, steps, 0) && n <= |steps| && forall i | 0 <= i < n :: MovesAt(s, steps, i)
    ensures BoundAt(s, steps, n)
  {
    if n > 0 {
      BoundUpTo(s, steps, n - 1);
      BoundNext(s, steps, n - 1);
    }
  }

  lemma AlwaysBound(s: HubState, steps: seq<Step>, start: real)
    requires Started(s, start) && Alive(s, steps)
    ensures Bound(Run(s, steps).state, steps)
  {
    forall i | 0 <= i < |steps|
      ensures MovesAt(s, steps, i)
    {
      RunMoves(s, steps, i);
    }
    assert steps[..0] == [] && Bound(s, []);
    BoundUpTo(s, steps, |steps|);
    assert steps[..|steps|] == steps;
  }

  lemma ClaimsGrow(steps: seq<Step>, step: Step)
    ensures forall id, k :: Claimed(steps, id, k) ==> Claimed(steps + [step], id, k)
    ensures step.Handle? && Named(step.req).Some? ==> Claimed(steps + [step], step.id, Named(step.req).value)
    ensures forall m, id :: SentBy(steps, m, id) ==> SentBy(steps + [step], m, id)
    ensures step.Handle? && step.req.Send? ==> SentBy(steps + [step], step.req.id, step.id)
  {
    var steps' := steps + [step];
    assert step == steps'[|steps|];
    assert forall x | x in steps :: x in steps';
  }

  // ---- who is remembered for a message -------------------------------------------

  /** The sockets remembered for replies are the senders of those messages. */
  ghost predicate Tracked(s: HubState, steps: seq<Step>) {
    && (forall m | m in s.pending :: SentBy(steps, m, s.pending[m].identity))
    && (forall m | m in s.asks :: SentBy(steps, m, s.asks[m].from))
  }

  /** What a step adds to what is remembered. */
  ghost predicate Remembers(s: HubState, s': HubState, step: Step) {
    && (forall m | m in s'.pending ::
          || (m in s.pending && s'.pending[m] == s.pending[m])
          || (step.Handle? && step.req.Send? && step.req.id == m && s'.pending[m].identity == step.id))
    && (forall m | m in s'.asks ::
          || (m in s.asks && s'.asks[m] == s.asks[m])
          || (step.Handle? && step.req.Send? && step.req.id == m && s'.asks[m].from == step.id))
  }

  lemma ReplyRemembers(s: HubState, msg: Message, to: Option<string>, o: Oracle)
    ensures SendReply(s, msg, to, o).state.pending == s.pending
    ensures SendReply(s, msg, to, o).state.asks == s.asks - {msg.replyTo}
  {}

  lemma AddressedRemembers(s: HubState, id: Identity, msg: Message, req: Request, o: Oracle)
    requires req.Send?
    ensures SendTo(s, id, msg, req, o).state.pending == s.pending
    ensures var asks := SendTo(s, id, msg, req, o).state.asks;
      asks == s.asks || (msg.id in asks && asks[msg.id].from == id && asks == s.asks[msg.id := asks[msg.id]])
  {}

  lemma SendRemembers(s: HubState, id: Identity, req: Request, now: real, o: Oracle)
    requires req.Send?
    ensures var s' := OnSend(s, id, req, now, o).state;
      && (s'.pending == s.pending || s'.pending == Remembered(s, id, req, now).pending)
      && (s'.asks.Keys <= s.asks.Keys + {req.id})
      && (forall m | m in s'.asks :: (m in s.asks && s'.asks[m] == s.asks[m]) || (req.id == m && s'.asks[m].from == id))
  {
    if ParseKind(req.kind).Some? {
      var kind := ParseKind(req.kind).value;
      var s' := Remembered(s, id, req, now);
      var msg := MessageOf(s, id, req, kind, now);
      if kind == Reply && Truthy(req.replyTo) {
        ReplyRemembers(s', msg, req.to, o);
      } else if !(Truthy(req.replyTo) && !Truthy(req.to)) {
        AddressedRemembers(s', id, msg, req, o);
      }
    }
  }

  lemma OthersRemember(s: HubState, id: Identity, req: Request, now: real, o: Oracle)
    requires !req.Send?
    ensures Dispatch(s, id, req, now, o).state.pending == s.pending
    ensures Dispatch(s, id, req, now, o).state.asks == s.asks
  {}

  lemma StepRemembers(s: HubState, step: Step)
    ensures Remembers(s, Next(s, step).state, step)
  {
    if step.Handle? && !Unlinked(s, step.id) {
      var stamped := Stamp(s, step.id, step.now);
      if step.req.Send? {
        SendRemembers(stamped, step.id, step.req, step.now, step.oracle);
      } else {
        OthersRemember(stamped, step.id, step.req, step.now, step.oracle);
      }
    }
  }

  lemma {:induction false} AlwaysTracked(s: HubState, steps: seq<Step>, start: real)
    requires Started(s, start)
    ensures Tracked(Run(s, steps).state, steps)
  {
    if steps != [] {
      var init, last := steps[..|steps| - 1], steps[|steps| - 1];
      AlwaysTracked(s, init, start);
      StepRemembers(Run(s, init).state, last);
      ClaimsGrow(init, last);
      assert init + [last] == steps;
    }
  }

  // ---- whose socket a message reaches ------------------------------------------------

  /** One event's socket, in terms of the state before the step. */
  ghost predicate Reaching(s: HubState, step: Step, e: Event) {
    match e
    case Direct(k, to, _) => k in s.registry && to == s.registry[k].identity
    case Routed(to, msg) =>
      && step.Handle? && step.req.Send?
      && var m := msg.replyTo;
         || (m in s.asks && to == s.asks[m].from)
         || (m in s.pending && to == s.pending[m].identity)
         || (m == step.req.id && to == step.id)
    case Drained(k, to, _) =>
      && step.Handle? && to == step.id
      && (Named(step.req) == Some(k) || (to in s.identityMap && s.identityMap[to] == k))
    case _ => true
  }

  lemma DrainReaches(s: HubState, step: Step)
    requires step.Handle? && (step.req.Hello? || step.req.Poll?)
    ensures forall e | e in Dispatch(s, step.id, step.req, step.now, step.oracle).events :: Reaching(s, step, e)
  {
    var o := Dispatch(s, step.id, step.req, step.now, step.oracle);
    DispatchDrains(s, step.id, step.req, step.now, step.oracle);
  }

  lemma StepReaches(s: HubState, step: Step)
    ensures forall e | e in Next(s, step).events :: Reaching(s, step, e)
  {
    if step.Handle? && !Unlinked(s, step.id) {
      StampKeeps(s, step.id, step.now);
      var stamped := Stamp(s, step.id, step.now);
      assert SameSockets(s, stamped) && stamped.pending == s.pending;
      match step.req
      case Hello(_, _, _, _) => DrainReaches(stamped, step);
      case Poll(_, _, _) => DrainReaches(stamped, step);
      case Send(_, _, _, _, _, _, _) =>
        SendReaches(stamped, step.id, step.req, step.now, step.oracle);
        assert Next(s, step).events == OnSend(stamped, step.id, step.req, step.now, step.oracle).events;
      case _ => DispatchDrains(stamped, step.id, step.req, step.now, step.oracle);
    }
  }

  /** Over any run the loop survives: a direct delivery goes to the socket that
      attached to the session last, a drain to the socket that asks for it,
      which has said it is that session. */
  lemma MailReachesItsSession(s: HubState, steps: seq<Step>, start: real, step: Step, e: Event)
    requires Started(s, start) && Alive(s, steps) && e in Next(Run(s, steps).state, step).events
    ensures e.Direct? ==> LastAttach(steps, e.key) == Some(e.to)
    ensures e.Drained? ==> step.Handle? && e.to == step.id && Claimed(steps + [step], e.to, e.key)
  {
    AlwaysBound(s, steps, start);
    StepReaches(Run(s, steps).state, step);
    ClaimsGrow(steps, step);
  }

  /** Over any run a message routed as an answer goes to a socket that sent a
      message under the id it answers. */
  lemma AnswersReachTheirSender(s: HubState, steps: seq<Step>, start: real, step: Step, e: Event)
    requires Started(s, start) && e in Next(Run(s, steps).state, step).events && e.Routed?
    ensures SentBy(steps + [step], e.msg.replyTo, e.to)
  {
    AlwaysTracked(s, steps, start);
    StepReaches(Run(s, steps).state, step);
    ClaimsGrow(steps, step);
  }

  // ---- mail that waited ------------------------------------------------------------------

  /** An attachment puts the session online on the caller's socket. */
  lemma AttachesOnline(s: HubState, step: Step)
    requires step.Handle? && !Unlinked(s, step.id) && Attached(step.req).Some?
    ensures var k, reg := Attached(step.req).value, Next(s, step).state.registry;
      Online(reg, k) && reg[k].identity == step.id
  {}

  /** Whoever drains a session gets all of its waiting mail, unless the drain
      breaks; what has no id is still there. */
  lemma AttachHandsOver(s: HubState, step: Step, k: Key, r: Row)
    requires Keyed(s.mail) && Legal(s, step) && step.Handle? && !Unlinked(s, step.id)
    requires DrainKey(s, step.id, step.req) == Some(k) && Holds(s.mail, r) && Matches(r, k)
    ensures var o := Next(s, step);
      (Breaks(s, step) || Drained(k, step.id, r) in o.events) && (Holds(o.state.mail, r) <==> r.msg.id.None?)
  {
    StampKeeps(s, step.id, step.now);
    var stamped := Stamp(s, step.id, step.now);
    var rows := step.oracle.rows;
    DispatchDrains(stamped, step.id, step.req, step.now, step.oracle);
    DispatchMail(stamped, step.id, step.req, step.now, step.oracle);
    WithoutKeeps(s.mail, k);
    ListingHolds(s.mail, For(k), rows);
    var i :| 0 <= i < |rows| && rows[i] == r;
    if !Breaks(s, step) {
      assert Next(s, step).events[i] == Drained(k, step.id, r);
    }
  }

  /** A session that says bye is offline until somebody attaches again. */
  lemma ByeDetaches(s: HubState, step: Step, k: Key)
    requires step.Handle? && step.req.Bye? && !Unlinked(s, step.id)
    requires !Refuses(s, step.id, step.req, step.oracle)
    requires if Explicit(step.req.bname, step.req.bsession)
             then k == Key(step.req.bname.value, step.req.bsession.value)
             else step.id in s.identityMap && s.identityMap[step.id] == k
    ensures !Online(Next(s, step).state.registry, k)
  {}

  /** The step takes a row out of the store: it drains a session of its and the
      row has an id to delete it by, it stores mail under that id, or the row is
      too old for the purge. */
  ghost predicate Removes(s: HubState, step: Step, r: Row) {
    || (step.Handle? && !Unlinked(s, step.id) && r.msg.id.Some? && DrainKey(s, step.id, step.req).Some?
        && Matches(r, DrainKey(s, step.id, step.req).value))
    || Overwrites(s, step, r)
    || (step.Purge? && r.msg.ts < step.now - MAILBOX_MAX_AGE)
  }

  lemma StepHolds(s: HubState, step: Step, r: Row)
    requires Keyed(s.mail) && Legal(s, step) && Holds(s.mail, r) && !Removes(s, step, r)
    ensures Holds(Next(s, step).state.mail, r)
  {
    if step.Handle? && !Unlinked(s, step.id) && !step.req.Send? {
      StampKeeps(s, step.id, step.now);
      DispatchMail(Stamp(s, step.id, step.now), step.id, step.req, step.now, step.oracle);
      var k := DrainKey(s, step.id, step.req);
      if k.Some? { WithoutStores(s.mail, k.value, r); }
    } else if step.Purge? {
      YoungerStores(s.mail, step.now - MAILBOX_MAX_AGE, r);
    } else if step.Handle? && !Unlinked(s, step.id) {
      var f := StepForm(s, step);
      GuardsMean(s, step);
      if f.Emits? && f.event.Queued? {
        InsertStores(s.mail, f.event.row, r);
        assert Next(s, step).events[0] == f.event;
      }
    }
  }

  lemma StoredStep(s: HubState, steps: seq<Step>, start: real, r: Row, n: nat)
    requires Keyed(s.mail) && Proper(s, steps, start) && n < |steps|
    requires HoldsAt(s, steps, r, n) && !RemovesAt(s, steps, r, n)
    ensures HoldsAt(s, steps, r, n + 1)
  {
    LegalAt(s, steps, start, n);
    RunNext(s, steps, n);
    StepHolds(Run(s, steps[..n]).state, steps[n], r);
  }

  ghost predicate RemovesAt(s: HubState, steps: seq<Step>, r: Row, i: nat)
    requires i < |steps|
  {
    Removes(Run(s, steps[..i]).state, steps[i], r)
  }

  /** No step from n up to m takes the row out. */
  ghost predicate NoneRemoves(s: HubState, steps: seq<Step>, r: Row, n: nat, m: nat)
    requires m <= |steps|
  {
    forall i | n <= i < m :: !RemovesAt(s, steps, r, i)
  }

  ghost predicate HoldsAt(s: HubState, steps: seq<Step>, r: Row, n: nat)
    requires n <= |steps|
  {
    Holds(Run(s, steps[..n]).state.mail, r)
  }

  lemma {:induction false} Stays(s: HubState, steps: seq<Step>, r: Row, n: nat, m: nat)
    requires n <= m <= |steps| && HoldsAt(s, steps, r, n)
    requires forall i | n <= i < m && HoldsAt(s, steps, r, i) :: HoldsAt(s, steps, r, i + 1)
    ensures HoldsAt(s, steps, r, m)
    decreases m - n
  {
    if n < m {
      assert HoldsAt(s, steps, r, n + 1);
      Stays(s, steps, r, n + 1, m);
    }
  }

  /** A row stays stored through any steps that do not take it out. */
  lemma StoredUntilRemoved(s: HubState, steps: seq<Step>, start: real, r: Row, n: nat, m: nat)
    requires Keyed(s.mail) && Proper(s, steps, start) && n <= m <= |steps|
    requires HoldsAt(s, steps, r, n) && NoneRemoves(s, steps, r, n, m)
    ensures HoldsAt(s, steps, r, m)
  {
    forall i | n <= i < m && HoldsAt(s, steps, r, i)
      ensures HoldsAt(s, steps, r, i + 1)
    {
      StoredStep(s, steps, start, r, i);
    }
    Stays(s, steps, r, n, m);
  }

  /** The step drains a session of this row's address, and does not break. */
  ghost predicate Fetches(s: HubState, step: Step, r: Row) {
    && step.Handle? && !Unlinked(s, step.id) && DrainKey(s, step.id, step.req).Some? && !Breaks(s, step)
    && Matches(r, DrainKey(s, step.id, step.req).value)
  }

  /** Store and forward: a stored row is handed to whoever drains a session of
      its address, however much later, unless something took it out before. */
  lemma WaitingMailArrives(s: HubState, steps: seq<Step>, start: real, r: Row, n: nat, m: nat)
    requires Keyed(s.mail) && Proper(s, steps, start) && n <= m < |steps|
    requires HoldsAt(s, steps, r, n) && Fetches(Run(s, steps[..m]).state, steps[m], r)
    requires NoneRemoves(s, steps, r, n, m)
    ensures var draining := Run(s, steps[..m]).state;
      Drained(DrainKey(draining, steps[m].id, steps[m].req).value, steps[m].id, r) in Next(draining, steps[m]).events
  {
    StoredUntilRemoved(s, steps, start, r, n, m);
    LegalAt(s, steps, start, m);
    var draining := Run(s, steps[..m]).state;
    AttachHandsOver(draining, steps[m], DrainKey(draining, steps[m].id, steps[m].req).value, r);
  }

  /** A row without an id is handed over by every drain of its sessions, until it
      is purged for age. */
  lemma UnnamedIsHandedAgain(s: HubState, steps: seq<Step>, start: real, r: Row, n: nat, m: nat)
    requires Keyed(s.mail) && Proper(s, steps, start) && n <= m < |steps| && r.msg.id.None?
    requires HoldsAt(s, steps, r, n) && Fetches(Run(s, steps[..m]).state, steps[m], r)
    requires forall i | n <= i < m && steps[i].Purge? :: steps[i].now - MAILBOX_MAX_AGE <= r.msg.ts
    ensures var draining := Run(s, steps[..m]).state;
      && Drained(DrainKey(draining, steps[m].id, steps[m].req).value, steps[m].id, r) in Next(draining, steps[m]).events
      && Holds(Next(draining, steps[m]).state.mail, r)
  {
    WaitingMailArrives(s, steps, start, r, n, m);
    StoredUntilRemoved(s, steps, start, r, n, m);
    LegalAt(s, steps, start, m);
    var draining := Run(s, steps[..m]).state;
    AttachHandsOver(draining, steps[m], DrainKey(draining, steps[m].id, steps[m].req).value, r);
  }

  /** The session a send is put to, by name, by its name's latest session, or by directory. */
  ghost function PutTo(s: HubState, send: Step): Option<Target> {
    if !send.Handle? || Unlinked(s, send.id) || !send.req.Send? then None
    else Addressee(Stamp(s, send.id, send.now), send.req, send.oracle)
  }

  /** And a message is such a row exactly if it is put to a target that is not
      online, or whose socket the router cannot reach. */
  lemma OfflineIsStored(s: HubState, send: Step)
    requires Keyed(s.mail) && PutTo(s, send).Some?
    ensures var target, o := PutTo(s, send).value, Next(s, send);
      && o.events != []
      && (o.events[0].Queued? <==> !Routable(s.registry, target, send.oracle))
      && (o.events[0].Queued? ==>
            && o.events[0].row.name == target.name && o.events[0].row.session == target.session
            && Holds(o.state.mail, o.events[0].row) && (send.oracle.answered ==> o.answer == Sent(InMailbox)))
  {
    var stamped := Stamp(s, send.id, send.now);
    StampLooks(s, send.id, send.now);
    SendGoesTo(stamped, send.id, send.req, send.now, send.oracle);
    var o := Next(s, send);
    assert o.events == OnSend(stamped, send.id, send.req, send.now, send.oracle).events;
    var f := StepForm(s, send);
    assert f.Emits? && f.event == o.events[0];
    if o.events[0].Queued? {
      InsertStores(s.mail, o.events[0].row, o.events[0].row);
      QueuedAnswer(stamped, send);
    }
  }

  lemma QueuedAnswer(s: HubState, send: Step)
    requires send.Handle? && send.req.Send?
    requires var o := OnSend(s, send.id, send.req, send.now, send.oracle); o.events != [] && o.events[0].Queued?
    ensures OnSend(s, send.id, send.req, send.now, send.oracle).answer == Sent(InMailbox)
  {}

  /** A message routed past a stored row of its session, which stays. */
  lemma RoutedPast(s: HubState, step: Step, h: seq<Event>, r: Row)
    requires Keyed(s.mail) && Legal(s, step) && Holds(s.mail, r)
    requires RoutedTo(s, step).Some? && Matches(r, RoutedTo(s, step).value) && r.msg.ts < step.now
    ensures !NotOvertaken(h + Next(s, step).events, Next(s, step).state.mail)
  {
    var f := StepForm(s, step);
    var o, h' := Next(s, step), h + Next(s, step).events;
    GuardsMean(s, step);
    assert f.Emits? && f.event == o.events[0];
    assert h'[|h|] == f.event && HandedTo(h'[|h|], f.event.key) && Msg(h'[|h|]).ts == step.now;
    assert Holds(o.state.mail, r);
  }

  /** Mail a request has left behind is overtaken: as long as it is stored, every
      message that is routed to its session breaks the order. */
  lemma LeftMailIsOvertaken(s: HubState, steps: seq<Step>, start: real, r: Row, n: nat, m: nat)
    requires Keyed(s.mail) && Proper(s, steps, start) && n <= m < |steps|
    requires HoldsAt(s, steps, r, n) && NoneRemoves(s, steps, r, n, m)
    requires RoutedTo(Run(s, steps[..m]).state, steps[m]).Some? && r.msg.ts < steps[m].now
    requires Matches(r, RoutedTo(Run(s, steps[..m]).state, steps[m]).value)
    ensures Overtakes(Run(s, steps[..m]).state, steps[m]) && !OrderedAt(s, steps, start, m + 1)
  {
    StoredUntilRemoved(s, steps, start, r, n, m);
    LegalAt(s, steps, start, m);
    RunNext(s, steps, m);
    var before := Run(s, steps[..m]);
    assert Holds(before.state.mail, r);
    RoutedPast(before.state, steps[m], before.history, r);
  }

  /** And such a request does leave a row, for a session it put online. */
  lemma StrandedIsLeft(s: HubState, step: Step)
    requires Mailed(s) && Strands(s, step)
    ensures var k, after := Attached(step.req).value, Next(s, step).state;
      Online(after.registry, k) && exists r :: Holds(s.mail, r) && Holds(after.mail, r) && Matches(r, k)
  {
    var k, stamped := Attached(step.req).value, Stamp(s, step.id, step.now);
    StampKeeps(s, step.id, step.now);
    AttachesOnline(s, step);
    DispatchMail(stamped, step.id, step.req, step.now, step.oracle);
    WithoutKeeps(s.mail, k);
    var r :| Holds(s.mail, r) && Matches(r, k) && ((step.req.Poll? && BlankCwd(step.req.pcwd)) || r.msg.id.None?);
    assert Holds(Next(s, step).state.mail, r);
  }
}

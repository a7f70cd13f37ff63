// What every request and sweep keeps: the registry backs every mapped socket,
// and no mail waits for a session that is online.

module OcahubInvariants {
  import opened Prelude
  import opened OcahubNames
  import opened OcahubStore
  import opened OcahubHub

  /** No row in the store is one an online session's next drain would take. */
  ghost predicate NoneStranded(s: HubState) {
    forall r, k | Holds(s.mail, r) && Online(s.registry, k) :: !Matches(r, k)
  }

  /** Every mapped socket has a registry entry, so `router_loop` can stamp it. */
  ghost predicate Linked(s: HubState) {
    forall id | id in s.identityMap :: s.identityMap[id] in s.registry
  }

  ghost predicate Mailed(s: HubState) {
    Keyed(s.mail) && NoneStranded(s)
  }

  /** The request puts its session online and leaves mail waiting for it: all of
      it if it is a poll with a blank cwd, which is refused and never drains,
      else the rows without an id, which no drain deletes. */
  ghost predicate Leaves(s: HubState, req: Request) {
    && Attached(req).Some?
    && exists r :: Holds(s.mail, r) && Matches(r, Attached(req).value)
                   && ((req.Poll? && BlankCwd(req.pcwd)) || r.msg.id.None?)
  }

  /** A hello for a session the registry does not know that fails after it was
      mapped to it: its cwd is blank, or its title is no title. */
  predicate HalfHello(s: HubState, req: Request) {
    && req.Hello? && ValidName(req.name) && ValidName(req.session)
    && (BlankCwd(req.cwd) || req.badTitle) && Key(req.name, req.session) !in s.registry
  }

  // ---- delivering ------------------------------------------------------------

  /** A target without a session is only used while no session of the name is online. */
  ghost predicate Addressed(reg: Registry, target: Target) {
    target.session.None? ==> LiveNamed(reg, target.name) == {}
  }

  lemma DeliverSound(s: HubState, target: Target, msg: Message, routed: bool)
    requires Mailed(s) && Addressed(s.registry, target)
    ensures Mailed(Deliver(s, target, msg, routed).state)
  {
    var s' := Deliver(s, target, msg, routed).state;
    var row := Row(target.name, target.session, msg);
    assert forall k | Online(s'.registry, k) :: Online(s.registry, k);
    assert forall k | Online(s.registry, k) && k.name == target.name :: k in LiveNamed(s.registry, target.name);
    forall r
      ensures Holds(s'.mail, r) ==> r == row || Holds(s.mail, r)
    {
      InsertStores(s.mail, row, r);
    }
    assert s'.mail != s.mail ==> forall k | Online(s'.registry, k) :: !Matches(row, k);
    InsertStores(s.mail, row, row);
  }

  lemma SendReplySound(s: HubState, msg: Message, to: Option<string>, o: Oracle)
    requires Mailed(s)
    ensures Mailed(SendReply(s, msg, to, o).state)
  {
    var m := msg.replyTo;
    var s' := s.(asks := s.asks - {m});
    if Truthy(to) && Resolve(s'.registry, to.value).Some? {
      DeliverSound(s', Resolve(s'.registry, to.value).value,
        msg.(kind := if m in s.asks then Reply else Tell), o.toSession);
    }
  }

  lemma SendToSound(s: HubState, id: Identity, msg: Message, req: Request, o: Oracle)
    requires Mailed(s) && req.Send?
    ensures Mailed(SendTo(s, id, msg, req, o).state)
  {
    if SendTarget(s.registry, req.to, req.dir).Some? {
      DeliverSound(s, SendTarget(s.registry, req.to, req.dir).value, msg, o.toSession);
    }
  }

  lemma SendSound(s: HubState, id: Identity, req: Request, now: real, o: Oracle)
    requires Mailed(s) && req.Send?
    ensures Mailed(OnSend(s, id, req, now, o).state)
  {
    if ParseKind(req.kind).Some? {
      var kind := ParseKind(req.kind).value;
      var s' := Remembered(s, id, req, now);
      var msg := MessageOf(s, id, req, kind, now);
      assert Mailed(s');
      if kind == Reply && Truthy(req.replyTo) {
        SendReplySound(s', msg, req.to, o);
      } else if Truthy(req.replyTo) && !Truthy(req.to) {
      } else {
        SendToSound(s', id, msg, req, o);
      }
    }
  }

  // ---- attaching -----------------------------------------------------------------

  lemma WithoutKeeps(t: Table, k: Key)
    requires Keyed(t)
    ensures Keyed(Without(t, k))
    ensures forall r :: Holds(Without(t, k), r) <==> Holds(t, r) && (r.msg.id.None? || !Matches(r, k))
  {}

  lemma HelloSound(s: HubState, id: Identity, req: Request, now: real, o: Oracle)
    requires Mailed(s) && req.Hello?
    ensures var s' := OnHello(s, id, req, now, o).state; Keyed(s'.mail) && (NoneStranded(s') <==> !Leaves(s, req))
  {
    var s' := OnHello(s, id, req, now, o).state;
    var k := Key(req.name, req.session);
    WithoutKeeps(s.mail, k);
    assert forall k' | Online(s'.registry, k') :: Attached(req) == Some(k') || Online(s.registry, k');
    if Attached(req).Some? {
      AttachedLeaves(s, s', req, k);
    } else {
      assert s'.mail == s.mail;
    }
  }

  /** An attachment that drained strands exactly the matching rows without an id. */
  lemma AttachedLeaves(s: HubState, s': HubState, req: Request, k: Key)
    requires Mailed(s) && Attached(req) == Some(k) && !(req.Poll? && BlankCwd(req.pcwd))
    requires s'.mail == Without(s.mail, k) && Online(s'.registry, k)
    requires forall k' | Online(s'.registry, k') :: k' == k || Online(s.registry, k')
    ensures NoneStranded(s') <==> !Leaves(s, req)
  {
    WithoutKeeps(s.mail, k);
    if Leaves(s, req) {
      var r :| Holds(s.mail, r) && Matches(r, k) && r.msg.id.None?;
      assert Holds(s'.mail, r);
    }
  }

  lemma HelloLinked(s: HubState, id: Identity, req: Request, now: real, o: Oracle)
    requires Linked(s) && req.Hello?
    ensures Linked(OnHello(s, id, req, now, o).state) <==> !HalfHello(s, req)
  {
    var s' := OnHello(s, id, req, now, o).state;
    if ValidName(req.name) && ValidName(req.session) {
      assert id in s'.identityMap && s'.identityMap[id] == Key(req.name, req.session);
      assert forall other | other in s'.identityMap && other != id ::
          other in s.identityMap && s'.identityMap[other] == s.identityMap[other];
    }
  }

  lemma PollSound(s: HubState, id: Identity, req: Request, now: real, o: Oracle)
    requires Mailed(s) && req.Poll?
    ensures var s' := OnPoll(s, id, req, now, o).state; Keyed(s'.mail) && (NoneStranded(s') <==> !Leaves(s, req))
  {
    var s' := OnPoll(s, id, req, now, o).state;
    if Attached(req).Some? {
      var k := Attached(req).value;
      WithoutKeeps(s.mail, k);
      assert Online(s'.registry, k);
      assert forall k' | Online(s'.registry, k') :: k' == k || Online(s.registry, k');
      if BlankCwd(req.pcwd) {
        assert s'.mail == s.mail;
        assert NoneStranded(s') ==> forall r | Holds(s'.mail, r) :: !Matches(r, k);
      } else {
        AttachedLeaves(s, s', req, k);
      }
    } else if !Explicit(req.pname, req.psession) && id in s.identityMap {
      WithoutKeeps(s.mail, s.identityMap[id]);
    }
  }

  lemma ByeSound(s: HubState, id: Identity, req: Request)
    requires Mailed(s) && req.Bye?
    ensures Mailed(OnBye(s, id, req).state)
  {
    var s' := OnBye(s, id, req).state;
    assert s'.registry.Keys == s.registry.Keys && s'.mail == s.mail;
    assert s'.identityMap.Keys <= s.identityMap.Keys;
    assert forall k | Online(s'.registry, k) :: Online(s.registry, k);
  }

  lemma MarkSound(s: HubState, k: Key)
    requires Mailed(s)
    ensures Mailed(OnMark(s, k).state)
  {
    var s' := OnMark(s, k).state;
    assert forall k' | Online(s'.registry, k') :: Online(s.registry, k');
  }

  lemma PurgeSound(s: HubState, now: real, gone: seq<Row>)
    requires Mailed(s)
    ensures Mailed(OnPurge(s, now, gone).state)
  {
    var s' := OnPurge(s, now, gone).state;
    YoungerKeyed(s.mail, now - MAILBOX_MAX_AGE);
    forall r
      ensures Holds(s'.mail, r) ==> Holds(s.mail, r)
    {
      YoungerStores(s.mail, now - MAILBOX_MAX_AGE, r);
    }
  }

  /** Stamping `last_seen` puts nobody online and touches nothing else. */
  lemma StampKeeps(s: HubState, id: Identity, now: real)
    requires !Unlinked(s, id)
    ensures var s' := Stamp(s, id, now);
      && s'.mail == s.mail && s'.registry.Keys == s.registry.Keys && s'.identityMap == s.identityMap
      && s'.asks == s.asks && (forall k | Online(s'.registry, k) :: Online(s.registry, k))
  {}

  lemma DispatchSound(s: HubState, id: Identity, req: Request, now: real, o: Oracle)
    requires Mailed(s)
    ensures var s' := Dispatch(s, id, req, now, o).state;
      Keyed(s'.mail) && (NoneStranded(s') <==> !Leaves(s, req))
  {
    match req
    case Hello(_, _, _, _) => HelloSound(s, id, req, now, o);
    case Send(_, _, _, _, _, _, _) => SendSound(s, id, req, now, o);
    case Poll(_, _, _) => PollSound(s, id, req, now, o);
    case Bye(_, _) => ByeSound(s, id, req);
    case _ =>
  }

  /** Between any two requests no mail waits for an online session: every step
      keeps that, exactly unless it puts a session online and leaves mail of its. */
  lemma StepSound(s: HubState, step: Step)
    requires Mailed(s)
    ensures Keyed(Next(s, step).state.mail)
    ensures NoneStranded(Next(s, step).state) <==> !Strands(s, step)
  {
    match step
    case Mark(k) => MarkSound(s, k);
    case Purge(now, gone) => PurgeSound(s, now, gone);
    case Handle(id, req, now, o) =>
      if !Unlinked(s, id) {
        StampKeeps(s, id, now);
        assert Leaves(Stamp(s, id, now), req) <==> Leaves(s, req);
        DispatchSound(Stamp(s, id, now), id, req, now, o);
      }
  }

  ghost predicate Strands(s: HubState, step: Step) {
    step.Handle? && !Unlinked(s, step.id) && Leaves(s, step.req)
  }

  // ---- the loop's lookup --------------------------------------------------------

  /** Nobody attached, and no socket said who it is; sockets may be forgotten. */
  ghost predicate SameSockets(s: HubState, s': HubState) {
    && s'.registry.Keys == s.registry.Keys
    && (forall k | k in s.registry :: s'.registry[k].identity == s.registry[k].identity)
    && forall id | id in s'.identityMap :: id in s.identityMap && s'.identityMap[id] == s.identityMap[id]
  }

  lemma DeliverSockets(s: HubState, target: Target, msg: Message, routed: bool)
    ensures SameSockets(s, Deliver(s, target, msg, routed).state)
  {}

  lemma ReplySockets(s: HubState, msg: Message, to: Option<string>, o: Oracle)
    ensures SameSockets(s, SendReply(s, msg, to, o).state)
  {
    var m := msg.replyTo;
    var s' := s.(asks := s.asks - {m});
    if Truthy(to) && Resolve(s'.registry, to.value).Some? {
      DeliverSockets(s', Resolve(s'.registry, to.value).value,
        msg.(kind := if m in s.asks then Reply else Tell), o.toSession);
    }
  }

  lemma SendSockets(s: HubState, id: Identity, req: Request, now: real, o: Oracle)
    requires req.Send?
    ensures SameSockets(s, OnSend(s, id, req, now, o).state)
  {
    if ParseKind(req.kind).Some? {
      var kind := ParseKind(req.kind).value;
      var s' := Remembered(s, id, req, now);
      var msg := MessageOf(s, id, req, kind, now);
      if kind == Reply && Truthy(req.replyTo) {
        ReplySockets(s', msg, req.to, o);
      } else if !(Truthy(req.replyTo) && !Truthy(req.to)) && SendTarget(s'.registry, req.to, req.dir).Some? {
        DeliverSockets(s', SendTarget(s'.registry, req.to, req.dir).value, msg, o.toSession);
      }
    }
  }

  lemma ByeSockets(s: HubState, id: Identity, req: Request)
    requires req.Bye?
    ensures SameSockets(s, OnBye(s, id, req).state)
  {}

  lemma PollLinked(s: HubState, id: Identity, req: Request, now: real, o: Oracle)
    requires Linked(s) && req.Poll?
    ensures Linked(OnPoll(s, id, req, now, o).state)
  {}

  /** Every step keeps every mapped socket registered, exactly unless it is a
      hello for an unknown session that fails halfway. */
  lemma StepLinked(s: HubState, step: Step)
    requires Linked(s)
    ensures Linked(Next(s, step).state) <==> !(step.Handle? && HalfHello(s, step.req))
  {
    if step.Handle? {
      var id, req, now, o := step.id, step.req, step.now, step.oracle;
      StampKeeps(s, id, now);
      var stamped := Stamp(s, id, now);
      match req
      case Hello(_, _, _, _) => HelloLinked(stamped, id, req, now, o);
      case Send(_, _, _, _, _, _, _) => SendSockets(stamped, id, req, now, o);
      case Poll(_, _, _) => PollLinked(stamped, id, req, now, o);
      case Bye(_, _) => ByeSockets(stamped, id, req);
      case _ =>
    }
  }

  /** After such a hello the same socket's next request ends the router loop. */
  lemma UnlinkedCrashes(s: HubState, step: Step, req: Request, now: real, o: Oracle)
    requires step.Handle? && !Unlinked(s, step.id) && HalfHello(s, step.req)
    ensures Next(Next(s, step).state, Handle(step.id, req, now, o)).answer == Crashed
  {
    StampKeeps(s, step.id, step.now);
    var s' := OnHello(Stamp(s, step.id, step.now), step.id, step.req, step.now, step.oracle).state;
    assert Next(s, step).state == s';
    assert step.id in s'.identityMap && s'.identityMap[step.id] == Key(step.req.name, step.req.session);
  }
}

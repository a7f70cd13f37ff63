// What a request will do, told from the state it finds: whether it is refused,
// whom it is addressed to, whether it is routed or stored.

module OcahubGuards {
  import opened Prelude
  import opened OcahubNames
  import opened OcahubStore
  import opened OcahubHub
  import opened OcahubInvariants

  // ---- refusals ---------------------------------------------------------------

  /** Some socket is remembered for the message this send answers. */
  predicate Socketed(s: HubState, req: Request)
    requires req.Send?
  {
    req.replyTo in s.asks || req.replyTo in s.pending || req.replyTo == req.id
  }

  /** A send that raises ProtocolError. */
  predicate SendRefused(s: HubState, req: Request, o: Oracle)
    requires req.Send?
  {
    match ParseKind(req.kind)
    case None => true
    case Some(kind) =>
      if kind == Reply && Truthy(req.replyTo) then
        !(Socketed(s, req) && o.toIdentity) && (!Truthy(req.to) || ParseTarget(req.to.value).None?)
      else if Truthy(req.to) then ParseTarget(req.to.value).None?
      else if Truthy(req.replyTo) then req.replyTo !in s.pending && req.replyTo != req.id
      else if Truthy(req.dir) then LiveInDir(s.registry, req.dir.value) == {}
      else true
  }

  /** A request that raises ProtocolError. */
  predicate Refuses(s: HubState, id: Identity, req: Request, o: Oracle) {
    match req
    case Hello(name, session, cwd, _) => !ValidName(name) || !ValidName(session) || BlankCwd(cwd)
    case Send(_, _, _, _, _, _, _) => SendRefused(s, req, o)
    case Poll(name, session, cwd) => AsksRefused(s, id, name, session) || (Explicit(name, session) && BlankCwd(cwd))
    case Bye(name, session) => Explicit(name, session) && (!ValidName(name.value) || !ValidName(session.value))
    case Asks(name, session) => AsksRefused(s, id, name, session)
    case ReadOnly => false
    case Malformed => true
  }

  lemma ReplyRefusedIff(s: HubState, msg: Message, to: Option<string>, o: Oracle)
    ensures SendReply(s, msg, to, o).answer == Refused <==>
      && !((msg.replyTo in s.asks || msg.replyTo in s.pending) && o.toIdentity)
      && (!Truthy(to) || ParseTarget(to.value).None?)
  {}

  lemma AddressedRefusedIff(s: HubState, id: Identity, msg: Message, req: Request, o: Oracle)
    requires req.Send?
    ensures SendTo(s, id, msg, req, o).answer == Refused <==>
      if Truthy(req.to) then ParseTarget(req.to.value).None?
      else if Truthy(req.dir) then LiveInDir(s.registry, req.dir.value) == {} else true
  {}

  /** A hello that raises on its title, once its names and its cwd have passed. */
  predicate Fails(req: Request) {
    req.Hello? && Named(req).Some? && !BlankCwd(req.cwd) && req.badTitle
  }

  lemma SendRefusedIff(s: HubState, id: Identity, req: Request, now: real, o: Oracle)
    requires req.Send?
    ensures OnSend(s, id, req, now, o).answer == Refused <==> SendRefused(s, req, o)
  {
    if ParseKind(req.kind).Some? {
      var kind := ParseKind(req.kind).value;
      var s' := Remembered(s, id, req, now);
      var msg := MessageOf(s, id, req, kind, now);
      if kind == Reply && Truthy(req.replyTo) {
        ReplyRefusedIff(s', msg, req.to, o);
      } else if !(Truthy(req.replyTo) && !Truthy(req.to)) {
        AddressedRefusedIff(s', id, msg, req, o);
      }
    }
  }

  lemma HelloRefusedIff(s: HubState, id: Identity, req: Request, now: real, o: Oracle)
    requires req.Hello?
    ensures var answer := OnHello(s, id, req, now, o).answer;
      !answer.Crashed? && (answer == Refused <==> Refuses(s, id, req, o))
  {}

  lemma PollRefusedIff(s: HubState, id: Identity, req: Request, now: real, o: Oracle)
    requires req.Poll?
    ensures var answer := OnPoll(s, id, req, now, o).answer;
      !answer.Crashed? && (answer == Refused <==> Refuses(s, id, req, o))
  {}

  lemma RefusedIff(s: HubState, id: Identity, req: Request, now: real, o: Oracle)
    ensures Dispatch(s, id, req, now, o).answer == Refused <==> Refuses(s, id, req, o)
    ensures !Dispatch(s, id, req, now, o).answer.Crashed?
  {
    match req
    case Send(_, _, _, _, _, _, _) => SendRefusedIff(s, id, req, now, o); SendNeverCrashes(s, id, req, now, o);
    case Hello(_, _, _, _) => HelloRefusedIff(s, id, req, now, o);
    case Poll(_, _, _) => PollRefusedIff(s, id, req, now, o);
    case _ =>
  }

  lemma SendNeverCrashes(s: HubState, id: Identity, req: Request, now: real, o: Oracle)
    requires req.Send?
    ensures !OnSend(s, id, req, now, o).answer.Crashed?
  {}

  lemma StampLooks(s: HubState, id: Identity, now: real)
    requires !Unlinked(s, id)
    ensures var s' := Stamp(s, id, now);
      && (forall k :: Online(s'.registry, k) <==> Online(s.registry, k))
      && (forall k | k in s.registry :: k in s'.registry && s'.registry[k].cwd == s.registry[k].cwd)
      && s'.pending == s.pending
      && forall req, o :: Refuses(s', id, req, o) <==> Refuses(s, id, req, o)
  {
    var s' := Stamp(s, id, now);
    forall req, o
      ensures Refuses(s', id, req, o) <==> Refuses(s, id, req, o)
    {
      if req.Send? && Truthy(req.dir) {
        assert LiveInDir(s'.registry, req.dir.value) == LiveInDir(s.registry, req.dir.value);
      }
    }
  }

  /** The router loop ends on a request exactly if its socket is mapped to no
      entry, or the request is refused and its error message cannot be sent. */
  lemma CrashIff(s: HubState, step: Step)
    ensures Next(s, step).answer.Crashed? <==>
      step.Handle? && (Unlinked(s, step.id) || (Refuses(s, step.id, step.req, step.oracle) && !step.oracle.answered))
  {
    if step.Handle? && !Unlinked(s, step.id) {
      StampLooks(s, step.id, step.now);
      RefusedIff(Stamp(s, step.id, step.now), step.id, step.req, step.now, step.oracle);
    }
  }

  // ---- where a send goes -------------------------------------------------------------

  /** The target a send is put to, if it gets that far. */
  ghost function Addressee(s: HubState, req: Request, o: Oracle): Option<Target>
    requires req.Send?
  {
    match ParseKind(req.kind)
    case None => None
    case Some(kind) =>
      if kind == Reply && Truthy(req.replyTo) then
        if (Socketed(s, req) && o.toIdentity) || !Truthy(req.to) then None else Resolve(s.registry, req.to.value)
      else if Truthy(req.replyTo) && !Truthy(req.to) then None
      else SendTarget(s.registry, req.to, req.dir)
  }

  /** A send that names its session is put to it, unless it is a reply that
      reaches the socket remembered for it. */
  lemma NamedAddressee(s: HubState, req: Request, o: Oracle, k: Key)
    requires req.Send? && ParseKind(req.kind).Some? && ValidName(k.name) && ValidName(k.session)
    requires req.to == Some(Address(k.name, k.session))
    requires !(ParseKind(req.kind) == Some(Reply) && Truthy(req.replyTo) && Socketed(s, req) && o.toIdentity)
    ensures Addressee(s, req, o) == Some(Target(k.name, Some(k.session)))
  {
    ParseTargetExact(req.to.value, k.name, k.session);
    assert Truthy(req.to);
  }

  /** The target is an online session and the router takes the message. */
  predicate Routable(reg: Registry, target: Target, o: Oracle) {
    target.session.Some? && Online(reg, Key(target.name, target.session.value)) && o.toSession
  }

  /** What a send with this addressee emits first. */
  ghost predicate GoesTo(s: HubState, req: Request, o: Oracle, events: seq<Event>) {
    req.Send? &&
    match Addressee(s, req, o)
    case None => forall e | e in events :: e.Routed?
    case Some(target) =>
      && events != [] && (forall i | 1 <= i < |events| :: events[i].AskMade?)
      && if Routable(s.registry, target, o)
         then events[0].Direct? && events[0].key == Key(target.name, target.session.value)
         else events[0].Queued? && events[0].row.name == target.name && events[0].row.session == target.session
  }

  lemma DeliverGoesTo(s: HubState, target: Target, msg: Message, o: Oracle)
    ensures var events := Deliver(s, target, msg, o.toSession).events;
      && |events| == 1
      && if Routable(s.registry, target, o)
         then events[0].Direct? && events[0].key == Key(target.name, target.session.value)
         else events[0].Queued? && events[0].row.name == target.name && events[0].row.session == target.session
  {}

  lemma SendGoesTo(s: HubState, id: Identity, req: Request, now: real, o: Oracle)
    requires req.Send?
    ensures GoesTo(s, req, o, OnSend(s, id, req, now, o).events)
  {
    if ParseKind(req.kind).Some? {
      var kind := ParseKind(req.kind).value;
      var s' := Remembered(s, id, req, now);
      var msg := MessageOf(s, id, req, kind, now);
      var target := Addressee(s, req, o);
      if kind == Reply && Truthy(req.replyTo) {
        ReplyGoesTo(s, s', req, msg, o);
      } else if target.Some? {
        DeliverGoesTo(s', target.value, msg, o);
        assert SendTarget(s'.registry, req.to, req.dir) == target;
      }
    }
  }

  lemma ReplyGoesTo(s: HubState, s': HubState, req: Request, msg: Message, o: Oracle)
    requires req.Send? && ParseKind(req.kind) == Some(Reply) && Truthy(req.replyTo) && msg.replyTo == req.replyTo
    requires s'.registry == s.registry && s'.asks == s.asks && s'.pending.Keys == s.pending.Keys + {req.id}
    ensures GoesTo(s, req, o, SendReply(s', msg, req.to, o).events)
  {
    var m := msg.replyTo;
    var target := Addressee(s, req, o);
    if target.Some? {
      DeliverGoesTo(s'.(asks := s'.asks - {m}), target.value, msg.(kind := if m in s.asks then Reply else Tell), o);
    }
  }

  /** The session this step routes a message to directly. */
  ghost function RoutedTo(s: HubState, step: Step): Option<Key> {
    if !step.Handle? || Unlinked(s, step.id) || !step.req.Send? then None
    else match Addressee(Stamp(s, step.id, step.now), step.req, step.oracle)
      case None => None
      case Some(target) =>
        if Routable(s.registry, target, step.oracle) then Some(Key(target.name, target.session.value)) else None
  }

  /** This step puts its message into the store. */
  ghost predicate Stores(s: HubState, step: Step) {
    && step.Handle? && !Unlinked(s, step.id) && step.req.Send?
    && var target := Addressee(Stamp(s, step.id, step.now), step.req, step.oracle);
       target.Some? && !Routable(s.registry, target.value, step.oracle)
  }

  lemma SendGuards(s: HubState, step: Step)
    requires step.Handle? && !Unlinked(s, step.id) && step.req.Send?
    ensures GoesTo(Stamp(s, step.id, step.now), step.req, step.oracle, Next(s, step).events)
    ensures forall t, o :: Routable(Stamp(s, step.id, step.now).registry, t, o) <==> Routable(s.registry, t, o)
  {
    StampLooks(s, step.id, step.now);
    SendGoesTo(Stamp(s, step.id, step.now), step.id, step.req, step.now, step.oracle);
  }

  /** Both guards say what the step emits. */
  lemma GuardsMean(s: HubState, step: Step)
    ensures forall e | e in Next(s, step).events && e.Direct? :: RoutedTo(s, step) == Some(e.key)
    ensures RoutedTo(s, step).Some? ==>
      var events := Next(s, step).events; events != [] && events[0].Direct? && events[0].key == RoutedTo(s, step).value
    ensures Stores(s, step) <==> exists e :: e in Next(s, step).events && e.Queued?
  {
    if step.Handle? && !Unlinked(s, step.id) {
      var events := Next(s, step).events;
      if step.req.Send? {
        SendGuards(s, step);
        assert events != [] ==> events[0] in events;
      } else {
        DispatchDrains(Stamp(s, step.id, step.now), step.id, step.req, step.now, step.oracle);
      }
    }
  }

  lemma DispatchDrains(s: HubState, id: Identity, req: Request, now: real, o: Oracle)
    requires !req.Send?
    ensures var k := DrainKey(s, id, req);
      Dispatch(s, id, req, now, o).events == if k.Some? then DrainEvents(k.value, id, o.rows, o.sent) else []
  {}
}

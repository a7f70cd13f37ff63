// The broker's state and what each request and sweep does to it
// (pkgs/ocahub/src/ocahub/daemon.py), as functions of the state.

module OcahubHub {
  import opened Prelude
  import opened OcahubNames
  import opened OcahubStore

  const SESSION_TTL := 120.0
  const MAILBOX_MAX_AGE := 604800.0
  const PENDING_TTL := 600.0
  const ASK_TTL := 1800.0

  type Identity = seq<byte>

  datatype Entry = Entry(identity: Identity, lastSeen: real, online: bool, cwd: Option<string>)
  datatype Pending = Pending(identity: Identity, expiry: real)
  datatype AskRecord = AskRecord(target: Target, from: Identity, sender: string, ts: real)

  type Registry = map<Key, Entry>

  datatype HubState = HubState(
    registry: Registry,
    identityMap: map<Identity, Key>,
    pending: map<Option<string>, Pending>,  // by message id
    asks: map<Option<string>, AskRecord>,
    mail: Table)

  /** A name or cwd that is no string is refused like an invalid one and is not
      told apart from it. A bad title is one that has no `strip`. */
  datatype Request =
    | Hello(name: string, session: string, cwd: Option<string>, badTitle: bool)
    | Send(id: Option<string>, kind: Option<string>, to: Option<string>, dir: Option<string>,
           topic: Option<string>, replyTo: Option<string>, payload: seq<byte>)
    | Poll(pname: Option<string>, psession: Option<string>, pcwd: Option<string>)
    | Bye(bname: Option<string>, bsession: Option<string>)
    | Asks(aname: Option<string>, asession: Option<string>)
    | ReadOnly   // ping, who, broadcast
    | Malformed  // frames that do not decode, types the router does not handle

  datatype SendStatus = Delivered | InMailbox | Lost

  datatype Answer =
    | Sent(status: SendStatus)
    | DrainedCount(count: nat)
    | Plain
    | Refused  // ProtocolError: answered with an error message
    | Broken   // the title, a drain's or the ack's send raised: "internal hub error"
    | Crashed  // the lookup before the handlers or the error message's send raised: router_loop ends

  /** What happens to messages and asks, in the order it happens. */
  datatype Event =
    | Direct(key: Key, to: Identity, msg: Message)   // routed to an online session's socket
    | Routed(to: Identity, msg: Message)             // a reply routed to a socket
    | Queued(row: Row)                               // put into the mailbox
    | Drained(key: Key, to: Identity, row: Row)      // taken out and passed to the router
    | Dropped(key: Key, row: Row)                    // taken out, the drain broke before it was sent
    | Expired(row: Row)                              // pruned for age
    | AskMade(id: Option<string>)

  datatype Outcome = Outcome(state: HubState, events: seq<Event>, answer: Answer)

  /** What the world decides during one request: whether each routing attempt
      succeeds, which order equal timestamps drain in, how many drained rows
      the router takes before a send raises, whether the caller is still there
      to be answered. */
  datatype Oracle = Oracle(toIdentity: bool, toSession: bool, rows: seq<Row>, sent: nat, answered: bool)

  function Digit(v: nat): char
    requires v < 16
  {
    "0123456789abcdef"[v]
  }

  function Hex(id: Identity): string {
    if id == [] then "" else [Digit(id[0] as nat / 16), Digit(id[0] as nat % 16)] + Hex(id[1..])
  }

  function SenderAddr(s: HubState, id: Identity): string {
    if id in s.identityMap then Address(s.identityMap[id].name, s.identityMap[id].session) else Hex(id)
  }

  function ParseKind(kind: Option<string>): Option<Kind> {
    match kind
    case None => Some(Tell)
    case Some(k) =>
      if k == "tell" then Some(Tell) else if k == "ask" then Some(Ask)
      else if k == "reply" then Some(Reply) else None
  }

  // ---- which session is meant ----------------------------------------------

  predicate KeyLeq(a: Key, b: Key) {
    if a.name == b.name then LexLeq(a.session, b.session) else LexLeq(a.name, b.name)
  }

  /** (last_seen, key) tuple order. */
  predicate NotAfter(reg: Registry, a: Key, b: Key)
    requires a in reg && b in reg
  {
    reg[a].lastSeen < reg[b].lastSeen || (reg[a].lastSeen == reg[b].lastSeen && KeyLeq(a, b))
  }

  ghost predicate IsLatest(reg: Registry, live: set<Key>, k: Key)
    requires live <= reg.Keys
  {
    k in live && forall other | other in live :: NotAfter(reg, other, k)
  }

  lemma {:induction false} LatestExists(reg: Registry, live: set<Key>)
    requires live <= reg.Keys && live != {}
    ensures exists k :: IsLatest(reg, live, k)
  {
    var k :| k in live;
    var rest := live - {k};
    LexTotal(k.name, k.name); LexTotal(k.session, k.session);
    if rest == {} {
      assert live == {k};
      assert IsLatest(reg, live, k);
    } else {
      LatestExists(reg, rest);
      var best :| IsLatest(reg, rest, best);
      assert live == rest + {k};
      NotAfterOrder(reg, k, best, best);
      if NotAfter(reg, k, best) {
        assert IsLatest(reg, live, best);
      } else {
        forall other | other in live ensures NotAfter(reg, other, k) {
          if other != k { NotAfterOrder(reg, other, best, k); }
        }
        assert IsLatest(reg, live, k);
      }
    }
  }

  lemma NotAfterOrder(reg: Registry, a: Key, b: Key, c: Key)
    requires a in reg && b in reg && c in reg
    ensures NotAfter(reg, a, b) || NotAfter(reg, b, a)
    ensures NotAfter(reg, a, b) && NotAfter(reg, b, a) ==> a == b
    ensures NotAfter(reg, a, b) && NotAfter(reg, b, c) ==> NotAfter(reg, a, c)
  {
    LexTotal(a.name, b.name); LexTotal(a.session, b.session);
    LexTotal(b.name, c.name);
    if LexLeq(a.name, b.name) && LexLeq(b.name, c.name) { LexTransitive(a.name, b.name, c.name); }
    if LexLeq(a.session, b.session) && LexLeq(b.session, c.session) {
      LexTransitive(a.session, b.session, c.session);
    }
  }

  ghost function Latest(reg: Registry, live: set<Key>): (r: Option<Key>)
    requires live <= reg.Keys
    ensures r.None? <==> live == {}
    ensures r.Some? ==> IsLatest(reg, live, r.value)
  {
    if live == {} then None
    else
      LatestExists(reg, live);
      var k :| IsLatest(reg, live, k);
      Some(k)
  }

  function LiveNamed(reg: Registry, name: string): set<Key> {
    set k | k in reg && k.name == name && reg[k].online
  }

  function LiveInDir(reg: Registry, dir: string): set<Key> {
    set k | k in reg && reg[k].online && Truthy(reg[k].cwd) && CwdMatch(reg[k].cwd.value, dir)
  }

  /** `(name, session) if session else latest live or (name, None)`. */
  ghost function Resolve(reg: Registry, to: string): Option<Target> {
    match ParseTarget(to)
    case None => None
    case Some(Target(name, Some(session))) => Some(Target(name, Some(session)))
    case Some(Target(name, None)) =>
      match Latest(reg, LiveNamed(reg, name))
      case Some(k) => Some(Target(k.name, Some(k.session)))
      case None => Some(Target(name, None))
  }

  // ---- delivery --------------------------------------------------------------

  function SetOnline(reg: Registry, k: Key, online: bool): Registry {
    if k in reg then reg[k := reg[k].(online := online)] else reg
  }

  predicate Online(reg: Registry, k: Key) {
    k in reg && reg[k].online
  }

  function Deliver(s: HubState, target: Target, msg: Message, routed: bool): Outcome {
    var row := Row(target.name, target.session, msg);
    match target.session
    case None => Outcome(s.(mail := Insert(s.mail, row)), [Queued(row)], Sent(InMailbox))
    case Some(session) =>
      var k := Key(target.name, session);
      if Online(s.registry, k) && routed then Outcome(s, [Direct(k, s.registry[k].identity, msg)], Sent(Delivered))
      else
        Outcome(s.(registry := SetOnline(s.registry, k, false), mail := Insert(s.mail, row)),
                [Queued(row)], Sent(InMailbox))
  }

  function DrainEvents(k: Key, to: Identity, rows: seq<Row>, sent: nat): seq<Event> {
    seq(|rows|, i requires 0 <= i < |rows| => if i < sent then Drained(k, to, rows[i]) else Dropped(k, rows[i]))
  }

  function Drain(s: HubState, k: Key, to: Identity, rows: seq<Row>, sent: nat): Outcome {
    Outcome(s.(mail := Without(s.mail, k)), DrainEvents(k, to, rows, sent),
            if sent < |rows| then Broken else DrainedCount(|rows|))
  }

  // ---- the handlers ------------------------------------------------------------

  function HelloBind(s: HubState, id: Identity, k: Key, cwd: Option<string>, badTitle: bool, now: real): HubState {
    var evicted := if k in s.registry && s.registry[k].identity != id
                   then s.identityMap - {s.registry[k].identity} else s.identityMap;
    var bound := s.(identityMap := evicted[id := k]);
    if BlankCwd(cwd) || badTitle then bound
    else
      var kept := if cwd.Some? then cwd else if k in s.registry then s.registry[k].cwd else None;
      bound.(registry := s.registry[k := Entry(id, now, true, kept)])
  }

  function OnHello(s: HubState, id: Identity, req: Request, now: real, o: Oracle): Outcome
    requires req.Hello?
  {
    if !ValidName(req.name) || !ValidName(req.session) then Outcome(s, [], Refused)
    else
      var k := Key(req.name, req.session);
      var s' := HelloBind(s, id, k, req.cwd, req.badTitle, now);
      if BlankCwd(req.cwd) then Outcome(s', [], Refused)
      else if req.badTitle then Outcome(s', [], Broken)
      else Drain(s', k, id, o.rows, o.sent)
  }

  /** The session a hello or poll names. */
  function Named(req: Request): Option<Key> {
    match req
    case Hello(name, session, _, _) =>
      if ValidName(name) && ValidName(session) then Some(Key(name, session)) else None
    case Poll(name, session, _) =>
      if Explicit(name, session) && ValidName(name.value) && ValidName(session.value)
      then Some(Key(name.value, session.value)) else None
    case _ => None
  }

  /** The session a request puts online on its own socket. */
  function Attached(req: Request): Option<Key> {
    if req.Hello? && (BlankCwd(req.cwd) || req.badTitle) then None else Named(req)
  }

  predicate Explicit(name: Option<string>, session: Option<string>) {
    Truthy(name) && Truthy(session)
  }

  function PollBind(s: HubState, id: Identity, k: Key, cwd: Option<string>, now: real): HubState {
    var entry := if k in s.registry then s.registry[k].(identity := id, lastSeen := now, online := true)
                 else Entry(id, now, true, None);
    var entry' := if Truthy(cwd) && !BlankCwd(cwd) then entry.(cwd := cwd) else entry;
    s.(identityMap := s.identityMap[id := k], registry := s.registry[k := entry'])
  }

  function OnPoll(s: HubState, id: Identity, req: Request, now: real, o: Oracle): Outcome
    requires req.Poll?
  {
    if Explicit(req.pname, req.psession) then
      if !ValidName(req.pname.value) || !ValidName(req.psession.value) then Outcome(s, [], Refused)
      else
        var k := Key(req.pname.value, req.psession.value);
        var s' := PollBind(s, id, k, req.pcwd, now);
        if BlankCwd(req.pcwd) then Outcome(s', [], Refused) else Drain(s', k, id, o.rows, o.sent)
    else if id !in s.identityMap then Outcome(s, [], Refused)
    else Drain(s, s.identityMap[id], id, o.rows, o.sent)
  }

  function OnBye(s: HubState, id: Identity, req: Request): Outcome
    requires req.Bye?
  {
    if Explicit(req.bname, req.bsession) then
      if !ValidName(req.bname.value) || !ValidName(req.bsession.value) then Outcome(s, [], Refused)
      else
        var k := Key(req.bname.value, req.bsession.value);
        if k in s.registry then
          Outcome(s.(identityMap := s.identityMap - {s.registry[k].identity},
                     registry := SetOnline(s.registry, k, false)), [], Plain)
        else Outcome(s, [], Plain)
    else if id in s.identityMap then
      Outcome(s.(identityMap := s.identityMap - {id},
                 registry := SetOnline(s.registry, s.identityMap[id], false)), [], Plain)
    else Outcome(s, [], Plain)
  }

  /** A reply to a remembered message: answers the ask if one is on the ledger,
      else travels as a tell; straight to the asker's socket, else by `to`. */
  ghost function SendReply(s: HubState, msg: Message, to: Option<string>, o: Oracle): Outcome {
    var m := msg.replyTo;
    var out := msg.(kind := if m in s.asks then Reply else Tell);
    var socket := if m in s.asks then Some(s.asks[m].from)
                  else if m in s.pending then Some(s.pending[m].identity) else None;
    var s' := s.(asks := s.asks - {m});
    if socket.Some? && o.toIdentity then Outcome(s', [Routed(socket.value, out)], Sent(Delivered))
    else if Truthy(to) then
      match Resolve(s'.registry, to.value)
      case None => Outcome(s', [], Refused)
      case Some(target) => Deliver(s', target, out, o.toSession)
    else Outcome(s', [], Refused)
  }

  /** A correlated tell or ask with no address of its own. */
  function SendBack(s: HubState, msg: Message, o: Oracle): Outcome {
    var m := msg.replyTo;
    if m !in s.pending then Outcome(s, [], Refused)
    else if o.toIdentity then Outcome(s, [Routed(s.pending[m].identity, msg)], Sent(Delivered))
    else Outcome(s, [], Sent(Lost))
  }

  ghost function SendTarget(reg: Registry, to: Option<string>, dir: Option<string>): Option<Target> {
    if Truthy(to) then Resolve(reg, to.value)
    else if Truthy(dir) then
      match Latest(reg, LiveInDir(reg, dir.value))
      case Some(k) => Some(Target(k.name, Some(k.session)))
      case None => None
    else None
  }

  /** An addressed message; an ask goes on the ledger in the same step. */
  ghost function SendTo(s: HubState, id: Identity, msg: Message, req: Request, o: Oracle): Outcome
    requires req.Send?
  {
    match SendTarget(s.registry, req.to, req.dir)
    case None => Outcome(s, [], Refused)
    case Some(target) =>
      var d := Deliver(s, target, msg, o.toSession);
      if msg.kind != Ask then d
      else
        Outcome(d.state.(asks := d.state.asks[msg.id := AskRecord(target, id, msg.sender, msg.ts)]),
                d.events + [AskMade(msg.id)], d.answer)
  }

  function MessageOf(s: HubState, id: Identity, req: Request, kind: Kind, now: real): Message
    requires req.Send?
  {
    Message(req.id, kind, SenderAddr(s, id), req.topic, req.replyTo, now, req.payload)
  }

  /** The sender is remembered for answers before anything else happens. */
  function Remembered(s: HubState, id: Identity, req: Request, now: real): HubState
    requires req.Send?
  {
    s.(pending := s.pending[req.id := Pending(id, now + PENDING_TTL)])
  }

  ghost function OnSend(s: HubState, id: Identity, req: Request, now: real, o: Oracle): Outcome
    requires req.Send?
  {
    match ParseKind(req.kind)
    case None => Outcome(s, [], Refused)
    case Some(kind) =>
      var s' := Remembered(s, id, req, now);
      var msg := MessageOf(s, id, req, kind, now);
      if kind == Reply && Truthy(req.replyTo) then SendReply(s', msg, req.to, o)
      else if Truthy(req.replyTo) && !Truthy(req.to) then SendBack(s', msg, o)
      else SendTo(s', id, msg, req, o)
  }

  // ---- one turn of the router loop, and the sweeper ----------------------------

  /** The sweeper awaits after every session it marks, and the router loop may
      run then: a sweep is marks, whenever they come, and a purge. A mark may be
      out of date, for the sweeper goes by entries it listed before. */
  datatype Step =
    | Handle(id: Identity, req: Request, now: real, oracle: Oracle)
    | Mark(key: Key)
    | Purge(now: real, gone: seq<Row>)  // gone: what is pruned, in any order

  predicate Unlinked(s: HubState, id: Identity) {
    id in s.identityMap && s.identityMap[id] !in s.registry
  }

  function Stamp(s: HubState, id: Identity, now: real): HubState
    requires !Unlinked(s, id)
  {
    if id in s.identityMap then
      var k := s.identityMap[id];
      s.(registry := s.registry[k := s.registry[k].(lastSeen := now)])
    else s
  }

  ghost function Dispatch(s: HubState, id: Identity, req: Request, now: real, o: Oracle): Outcome {
    match req
    case Hello(_, _, _, _) => OnHello(s, id, req, now, o)
    case Send(_, _, _, _, _, _, _) => OnSend(s, id, req, now, o)
    case Poll(_, _, _) => OnPoll(s, id, req, now, o)
    case Bye(_, _) => OnBye(s, id, req)
    case Asks(name, session) => Outcome(s, [], if AsksRefused(s, id, name, session) then Refused else Plain)
    case ReadOnly => Outcome(s, [], Plain)
    case Malformed => Outcome(s, [], Refused)
  }

  predicate AsksRefused(s: HubState, id: Identity, name: Option<string>, session: Option<string>) {
    if Explicit(name, session) then !ValidName(name.value) || !ValidName(session.value) else id !in s.identityMap
  }

  /** The answer on its way: an ack that cannot be sent raises where any error
      is caught, an error message that cannot be sent raises where none is. */
  function Reported(a: Answer, answered: bool): Answer {
    match a
    case Refused => if answered then Refused else Crashed
    case Broken => Broken
    case Crashed => Crashed
    case _ => if answered then a else Broken
  }

  predicate Stale(e: Entry, now: real) {
    e.online && now - e.lastSeen > SESSION_TTL
  }

  /** A sweep's marks, all in one go. */
  function SweepRegistry(reg: Registry, now: real): Registry {
    map k | k in reg :: if Stale(reg[k], now) then reg[k].(online := false) else reg[k]
  }

  function OnMark(s: HubState, k: Key): Outcome {
    Outcome(s.(registry := SetOnline(s.registry, k, false)), [], Plain)
  }

  function ExpiredEvents(gone: seq<Row>): seq<Event> {
    seq(|gone|, i requires 0 <= i < |gone| => Expired(gone[i]))
  }

  function OnPurge(s: HubState, now: real, gone: seq<Row>): Outcome {
    Outcome(
      HubState(s.registry, s.identityMap,
               map m | m in s.pending && !(s.pending[m].expiry < now) :: s.pending[m],
               map m | m in s.asks && !(now - s.asks[m].ts > ASK_TTL) :: s.asks[m],
               Younger(s.mail, now - MAILBOX_MAX_AGE)),
      ExpiredEvents(gone), Plain)
  }

  ghost function Next(s: HubState, step: Step): Outcome {
    match step
    case Mark(k) => OnMark(s, k)
    case Purge(now, gone) => OnPurge(s, now, gone)
    case Handle(id, req, now, o) =>
      if Unlinked(s, id) then Outcome(s, [], Crashed)
      else
        var out := Dispatch(Stamp(s, id, now), id, req, now, o);
        out.(answer := Reported(out.answer, o.answered))
  }

  /** The session whose mail this request drains, if it gets that far. */
  function DrainKey(s: HubState, id: Identity, req: Request): Option<Key> {
    match req
    case Hello(_, _, _, _) => Attached(req)
    case Poll(name, session, cwd) =>
      if Explicit(name, session) then (if BlankCwd(cwd) then None else Named(req))
      else if id in s.identityMap then Some(s.identityMap[id]) else None
    case _ => None
  }

  /** The oracle's rows are a possible answer of the store. */
  ghost predicate Legal(s: HubState, step: Step) {
    match step
    case Mark(_) => true
    case Purge(now, gone) => IsListing(s.mail, Before(now - MAILBOX_MAX_AGE), gone)
    case Handle(id, req, _, o) =>
      !Unlinked(s, id) && DrainKey(s, id, req).Some? ==> IsSelection(s.mail, DrainKey(s, id, req).value, o.rows)
  }
}

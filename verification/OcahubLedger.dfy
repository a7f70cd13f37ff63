// What each step does to the registry, the identity map, the routing entries and
// the ask ledger, entry by entry and told from the state before it.

module OcahubLedger {
  import opened Prelude
  import opened OcahubNames
  import opened OcahubStore
  import opened OcahubHub
  import opened OcahubInvariants
  import opened OcahubGuards
  import opened OcahubDelivery
  import opened OcahubContent

  // ---- sends ---------------------------------------------------------------------------

  /** The online session a send is put to and the router does not reach. */
  ghost function Missed(s: HubState, req: Request, o: Oracle): Option<Key>
    requires req.Send?
  {
    match Addressee(s, req, o)
    case Some(Target(name, Some(session))) =>
      if Online(s.registry, Key(name, session)) && !o.toSession then Some(Key(name, session)) else None
    case _ => None
  }

  lemma DeliverRegistry(s: HubState, target: Target, msg: Message, routed: bool)
    ensures var reg := Deliver(s, target, msg, routed).state.registry;
      if target.session.Some? && Online(s.registry, Key(target.name, target.session.value)) && !routed
      then reg == SetOnline(s.registry, Key(target.name, target.session.value), false)
      else reg == s.registry
    ensures var s' := Deliver(s, target, msg, routed).state;
      s'.identityMap == s.identityMap && s'.pending == s.pending && s'.asks == s.asks
    ensures Deliver(s, target, msg, routed).events != [] && Deliver(s, target, msg, routed).answer.Sent?
  {}

  /** What is left of the hub after a send, but for the store. */
  ghost predicate SendLeaves(s: HubState, id: Identity, req: Request, now: real, o: Oracle, s': HubState)
    requires req.Send?
  {
    var missed := Missed(s, req, o);
    && s'.registry == (if missed.Some? then SetOnline(s.registry, missed.value, false) else s.registry)
    && s'.identityMap == s.identityMap
    && s'.pending == (if ParseKind(req.kind).Some? then s.pending[req.id := Pending(id, now + 600.0)] else s.pending)
    && match ParseKind(req.kind) {
         case Some(Reply) => s'.asks == if Truthy(req.replyTo) then s.asks - {req.replyTo} else s.asks
         case Some(Ask) =>
           if Addressee(s, req, o).None? then s'.asks == s.asks
           else req.id in s'.asks && s'.asks == s.asks[req.id := s'.asks[req.id]]
                && s'.asks[req.id].target == Addressee(s, req, o).value
                && s'.asks[req.id].from == id && s'.asks[req.id].ts == now && SentFrom(s, id, s'.asks[req.id].sender)
         case _ => s'.asks == s.asks
       }
  }

  lemma ReplyLeaves(s: HubState, s': HubState, id: Identity, req: Request, now: real, o: Oracle)
    requires req.Send? && ParseKind(req.kind) == Some(Reply) && Truthy(req.replyTo)
    requires s' == Remembered(s, id, req, now)
    ensures SendLeaves(s, id, req, now, o, SendReply(s', MessageOf(s, id, req, Reply, now), req.to, o).state)
  {
    var msg := MessageOf(s, id, req, Reply, now);
    var out := msg.(kind := if req.replyTo in s.asks then Reply else Tell);
    var target := Addressee(s, req, o);
    if target.Some? {
      DeliverRegistry(s'.(asks := s.asks - {req.replyTo}), target.value, out, o.toSession);
    }
  }

  lemma AddressedLeaves(s: HubState, s': HubState, id: Identity, req: Request, kind: Kind, now: real, o: Oracle)
    requires req.Send? && ParseKind(req.kind) == Some(kind) && !(kind == Reply && Truthy(req.replyTo))
    requires !(Truthy(req.replyTo) && !Truthy(req.to)) && s' == Remembered(s, id, req, now)
    ensures SendLeaves(s, id, req, now, o, SendTo(s', id, MessageOf(s, id, req, kind, now), req, o).state)
  {
    HexMeans(id);
    var target := Addressee(s, req, o);
    if target.Some? {
      DeliverRegistry(s', target.value, MessageOf(s, id, req, kind, now), o.toSession);
    }
  }

  lemma SendLeft(s: HubState, id: Identity, req: Request, now: real, o: Oracle)
    requires req.Send?
    ensures SendLeaves(s, id, req, now, o, OnSend(s, id, req, now, o).state)
  {
    HexMeans(id);
    if ParseKind(req.kind).Some? {
      var kind := ParseKind(req.kind).value;
      var s' := Remembered(s, id, req, now);
      if kind == Reply && Truthy(req.replyTo) {
        ReplyLeaves(s, s', id, req, now, o);
      } else if !(Truthy(req.replyTo) && !Truthy(req.to)) {
        AddressedLeaves(s, s', id, req, kind, now, o);
      }
    }
  }

  // ---- whom a send means ---------------------------------------------------------------

  /** Of the sessions that pass a test, the one seen last, and of those the last by name and session. */
  ghost predicate SeenLast(reg: Registry, test: Key -> bool, k: Key) {
    && k in reg && test(k)
    && forall other | other in reg && test(other) && other != k ::
         || reg[other].lastSeen < reg[k].lastSeen
         || (reg[other].lastSeen == reg[k].lastSeen
             && (Precedes(other.name, k.name) || (other.name == k.name && Precedes(other.session, k.session))))
  }

  function OnlineAs(reg: Registry, name: string): Key -> bool {
    (k: Key) => Online(reg, k) && k.name == name
  }

  function OnlineIn(reg: Registry, dir: string): Key -> bool {
    (k: Key) => Online(reg, k) && Truthy(reg[k].cwd) && CwdMatch(reg[k].cwd.value, dir)
  }

  lemma LatestMeans(reg: Registry, live: set<Key>, test: Key -> bool)
    requires live <= reg.Keys && forall k | k in reg :: k in live <==> test(k)
    ensures Latest(reg, live).Some? <==> exists k :: k in reg && test(k)
    ensures Latest(reg, live).Some? ==> SeenLast(reg, test, Latest(reg, live).value)
  {
    if Latest(reg, live).Some? {
      var k := Latest(reg, live).value;
      forall other | other in live && other != k
        ensures || reg[other].lastSeen < reg[k].lastSeen
                || (reg[other].lastSeen == reg[k].lastSeen
                    && (Precedes(other.name, k.name) || (other.name == k.name && Precedes(other.session, k.session))))
      {
        assert NotAfter(reg, other, k);
        LexMeans(other.name, k.name);
        LexMeans(other.session, k.session);
      }
    }
  }

  /** A bare name means its session seen last of those online, or else any of the name. */
  lemma BareNameMeans(reg: Registry, name: string)
    requires ValidName(name)
    ensures var t := Resolve(reg, name);
      && t.Some? && t.value.name == name
      && (t.value.session.None? <==> !exists k :: k in reg && OnlineAs(reg, name)(k))
      && (t.value.session.Some? ==> SeenLast(reg, OnlineAs(reg, name), Key(name, t.value.session.value)))
  {
    ParseTargetExact(name, name, "");
    LatestMeans(reg, LiveNamed(reg, name), OnlineAs(reg, name));
  }

  /** A send by directory is put to the session seen last of those online in a matching one. */
  lemma DirectoryMeans(reg: Registry, to: Option<string>, dir: Option<string>)
    requires !Truthy(to)
    ensures var t := SendTarget(reg, to, dir);
      && (t.Some? <==> Truthy(dir) && exists k :: k in reg && OnlineIn(reg, dir.value)(k))
      && (t.Some? ==>
            t.value.session.Some? && SeenLast(reg, OnlineIn(reg, dir.value), Key(t.value.name, t.value.session.value)))
  {
    if Truthy(dir) { LatestMeans(reg, LiveInDir(reg, dir.value), OnlineIn(reg, dir.value)); }
  }

  // ---- who is online --------------------------------------------------------------------

  /** The session a bye takes leave of. */
  function Leaving(s: HubState, id: Identity, req: Request): Option<Key> {
    if !req.Bye? then None
    else if Explicit(req.bname, req.bsession) then
      if ValidName(req.bname.value) && ValidName(req.bsession.value)
      then Some(Key(req.bname.value, req.bsession.value)) else None
    else if id in s.identityMap then Some(s.identityMap[id]) else None
  }

  /** The step takes the session offline: the sweep marks it, it says bye, or the
      router does not reach its socket. */
  ghost predicate Detaches(s: HubState, step: Step, k: Key) {
    match step
    case Mark(key) => key == k
    case Purge(_, _) => false
    case Handle(id, req, now, o) =>
      !Unlinked(s, id) &&
      (Leaving(s, id, req) == Some(k) || (req.Send? && Missed(Stamp(s, id, now), req, o) == Some(k)))
  }

  /** The step takes note of the session: it attaches it, or is a request of its socket. */
  predicate Sees(s: HubState, step: Step, k: Key) {
    step.Handle? && !Unlinked(s, step.id) &&
    (Attached(step.req) == Some(k) || (step.id in s.identityMap && s.identityMap[step.id] == k))
  }

  /** The directory on record after an attachment: what it gives, else what it was. */
  function CwdAfter(s: HubState, req: Request, k: Key): Option<string> {
    var was := if k in s.registry then s.registry[k].cwd else None;
    if req.Hello? then (if req.cwd.Some? then req.cwd else was)
    else if req.Poll? then (if Truthy(req.pcwd) && !BlankCwd(req.pcwd) then req.pcwd else was)
    else was
  }

  /** One session's entry after a step. */
  ghost predicate EntryAfter(s: HubState, step: Step, s': HubState, k: Key) {
    var attaches := step.Handle? && !Unlinked(s, step.id) && Attached(step.req) == Some(k);
    && (k in s'.registry <==> k in s.registry || attaches)
    && (k in s'.registry ==>
          var e := s'.registry[k];
          && (e.online <==> attaches || (s.registry[k].online && !Detaches(s, step, k)))
          && e.identity == (if attaches then step.id else s.registry[k].identity)
          && e.lastSeen == (if Sees(s, step, k) then step.now else s.registry[k].lastSeen)
          && e.cwd == if attaches then CwdAfter(s, step.req, k) else s.registry[k].cwd)
  }

  lemma HelloEntry(s: HubState, s1: HubState, step: Step, k: Key)
    requires step.Handle? && step.req.Hello? && !Unlinked(s, step.id) && s1 == Stamp(s, step.id, step.now)
    ensures EntryAfter(s, step, OnHello(s1, step.id, step.req, step.now, step.oracle).state, k)
  {}

  lemma NamedPollEntry(s: HubState, s1: HubState, step: Step, k: Key)
    requires step.Handle? && step.req.Poll? && !Unlinked(s, step.id) && s1 == Stamp(s, step.id, step.now)
    requires Attached(step.req).Some?
    ensures EntryAfter(s, step, OnPoll(s1, step.id, step.req, step.now, step.oracle).state, k)
  {}

  lemma PollEntry(s: HubState, s1: HubState, step: Step, k: Key)
    requires step.Handle? && step.req.Poll? && !Unlinked(s, step.id) && s1 == Stamp(s, step.id, step.now)
    ensures EntryAfter(s, step, OnPoll(s1, step.id, step.req, step.now, step.oracle).state, k)
  {
    if Attached(step.req).Some? {
      NamedPollEntry(s, s1, step, k);
    } else {
      assert OnPoll(s1, step.id, step.req, step.now, step.oracle).state.registry == s1.registry;
    }
  }

  lemma LeavingEntry(s: HubState, s1: HubState, step: Step, k: Key)
    requires step.Handle? && step.req.Bye? && !Unlinked(s, step.id) && s1 == Stamp(s, step.id, step.now)
    ensures var left := Leaving(s, step.id, step.req); var reg := OnBye(s1, step.id, step.req).state.registry;
      reg == if left.Some? then SetOnline(s1.registry, left.value, false) else s1.registry
  {}

  lemma ByeEntry(s: HubState, s1: HubState, step: Step, k: Key)
    requires step.Handle? && step.req.Bye? && !Unlinked(s, step.id) && s1 == Stamp(s, step.id, step.now)
    ensures EntryAfter(s, step, OnBye(s1, step.id, step.req).state, k)
  {
    LeavingEntry(s, s1, step, k);
  }

  lemma SendEntry(s: HubState, s1: HubState, step: Step, k: Key)
    requires step.Handle? && step.req.Send? && !Unlinked(s, step.id) && s1 == Stamp(s, step.id, step.now)
    ensures EntryAfter(s, step, OnSend(s1, step.id, step.req, step.now, step.oracle).state, k)
  {
    SendLeft(s1, step.id, step.req, step.now, step.oracle);
  }

  /** Every session's entry after a step: whether it is known and online, on
      which socket, last seen when, in which directory. */
  lemma StepEntry(s: HubState, step: Step, k: Key)
    ensures EntryAfter(s, step, Next(s, step).state, k)
  {
    if step.Handle? && !Unlinked(s, step.id) {
      var s1 := Stamp(s, step.id, step.now);
      match step.req
      case Hello(_, _, _, _) => HelloEntry(s, s1, step, k);
      case Poll(_, _, _) => PollEntry(s, s1, step, k);
      case Bye(_, _) => ByeEntry(s, s1, step, k);
      case Send(_, _, _, _, _, _, _) => SendEntry(s, s1, step, k);
      case _ =>
    }
  }

  // ---- who is who --------------------------------------------------------------------------

  /** The step unmaps a socket: a hello takes its session over, or it or its
      session says bye. */
  predicate Unmaps(s: HubState, step: Step, id: Identity) {
    && step.Handle? && !Unlinked(s, step.id)
    && (|| (step.req.Hello? && Named(step.req).Some? && id != step.id && Named(step.req).value in s.registry
            && s.registry[Named(step.req).value].identity == id)
        || (step.req.Bye? && Explicit(step.req.bname, step.req.bsession) && Leaving(s, step.id, step.req).Some?
            && Leaving(s, step.id, step.req).value in s.registry
            && s.registry[Leaving(s, step.id, step.req).value].identity == id)
        || (step.req.Bye? && !Explicit(step.req.bname, step.req.bsession) && id == step.id))
  }

  /** The session a socket is mapped to after a step: the one it named, else the
      one it was mapped to, unless it was unmapped. */
  ghost predicate MappedAfter(s: HubState, step: Step, s': HubState, id: Identity, k: Key) {
    id in s'.identityMap && s'.identityMap[id] == k <==>
      if step.Handle? && !Unlinked(s, step.id) && id == step.id && Named(step.req).Some? then Named(step.req) == Some(k)
      else id in s.identityMap && s.identityMap[id] == k && !Unmaps(s, step, id)
  }

  lemma HelloMapped(s: HubState, s1: HubState, step: Step, id: Identity, k: Key)
    requires step.Handle? && step.req.Hello? && !Unlinked(s, step.id) && s1 == Stamp(s, step.id, step.now)
    ensures MappedAfter(s, step, OnHello(s1, step.id, step.req, step.now, step.oracle).state, id, k)
  {}

  lemma PollMapped(s: HubState, s1: HubState, step: Step, id: Identity, k: Key)
    requires step.Handle? && step.req.Poll? && !Unlinked(s, step.id) && s1 == Stamp(s, step.id, step.now)
    ensures MappedAfter(s, step, OnPoll(s1, step.id, step.req, step.now, step.oracle).state, id, k)
  {}

  lemma ByeMapped(s: HubState, s1: HubState, step: Step, id: Identity, k: Key)
    requires step.Handle? && step.req.Bye? && !Unlinked(s, step.id) && s1 == Stamp(s, step.id, step.now)
    ensures MappedAfter(s, step, OnBye(s1, step.id, step.req).state, id, k)
  {}

  lemma StepMapped(s: HubState, step: Step, id: Identity, k: Key)
    ensures MappedAfter(s, step, Next(s, step).state, id, k)
  {
    if step.Handle? && !Unlinked(s, step.id) {
      var s1 := Stamp(s, step.id, step.now);
      StampKeeps(s, step.id, step.now);
      match step.req
      case Hello(_, _, _, _) => HelloMapped(s, s1, step, id, k);
      case Poll(_, _, _) => PollMapped(s, s1, step, id, k);
      case Bye(_, _) => ByeMapped(s, s1, step, id, k);
      case Send(_, _, _, _, _, _, _) => SendLeft(s1, step.id, step.req, step.now, step.oracle);
      case _ =>
    }
  }

  /** A socket that was unmapped is nobody: its next poll without a name is refused. */
  lemma UnmappedIsNobody(s: HubState, step: Step, poll: Step)
    requires poll.Handle? && Unmaps(s, step, poll.id) && !(poll.id == step.id && Named(step.req).Some?)
    requires poll.req.Poll? && !Explicit(poll.req.pname, poll.req.psession) && poll.oracle.answered
    ensures Next(Next(s, step).state, poll).answer == Refused
  {
    var s' := Next(s, step).state;
    if poll.id in s'.identityMap {
      StepMapped(s, step, poll.id, s'.identityMap[poll.id]);
    }
    RefusedIff(s', poll.id, poll.req, poll.now, poll.oracle);
  }

  // ---- what is remembered ---------------------------------------------------------------------

  /** The sender of a message is remembered for ten minutes. */
  lemma StepRemembered(s: HubState, step: Step, m: Option<string>)
    ensures var s' := Next(s, step).state;
      if step.Handle? && !Unlinked(s, step.id) && step.req.Send? && ParseKind(step.req.kind).Some? && step.req.id == m
      then m in s'.pending && s'.pending[m] == Pending(step.id, step.now + 600.0)
      else (m in s'.pending <==> m in s.pending && !(step.Purge? && s.pending[m].expiry < step.now))
           && (m in s'.pending ==> s'.pending[m] == s.pending[m])
  {
    if step.Handle? && !Unlinked(s, step.id) {
      var s1 := Stamp(s, step.id, step.now);
      if step.req.Send? {
        SendLeft(s1, step.id, step.req, step.now, step.oracle);
      } else {
        OthersRemember(s1, step.id, step.req, step.now, step.oracle);
      }
    }
  }

  /** The step puts an ask on the ledger: one that is put to a target. */
  ghost predicate Asks(s: HubState, step: Step, m: Option<string>) {
    && step.Handle? && !Unlinked(s, step.id) && step.req.Send? && ParseKind(step.req.kind) == Some(Ask)
    && step.req.id == m && PutTo(s, step).Some?
  }

  /** The step settles an ask: a reply to it, or half an hour. */
  predicate Ends(s: HubState, step: Step, m: Option<string>)
    requires m in s.asks
  {
    || (step.Handle? && !Unlinked(s, step.id) && step.req.Send? && ParseKind(step.req.kind) == Some(Reply)
        && Truthy(step.req.replyTo) && step.req.replyTo == m)
    || (step.Purge? && step.now - s.asks[m].ts > 1800.0)
  }

  /** The ask ledger after a step, entry by entry. */
  lemma StepLedger(s: HubState, step: Step, m: Option<string>)
    ensures var s' := Next(s, step).state;
      if Asks(s, step, m)
      then m in s'.asks && s'.asks[m].target == PutTo(s, step).value && s'.asks[m].from == step.id
           && s'.asks[m].ts == step.now && SentFrom(s, step.id, s'.asks[m].sender)
      else (m in s'.asks <==> m in s.asks && !Ends(s, step, m)) && (m in s'.asks ==> s'.asks[m] == s.asks[m])
  {
    if step.Handle? && !Unlinked(s, step.id) {
      var s1 := Stamp(s, step.id, step.now);
      if step.req.Send? {
        SendLeft(s1, step.id, step.req, step.now, step.oracle);
      } else {
        OthersRemember(s1, step.id, step.req, step.now, step.oracle);
      }
    }
  }

  // ---- the sweep ----------------------------------------------------------------------------

  /** An uninterrupted sweep takes exactly the sessions offline that were not seen
      for two minutes, and changes nothing else about any. */
  lemma SweepMeans(reg: Registry, now: real)
    ensures var reg' := SweepRegistry(reg, now);
      && reg'.Keys == reg.Keys
      && forall k | k in reg ::
           && (reg'[k].online <==> reg[k].online && now - reg[k].lastSeen <= 120.0)
           && reg'[k] == reg[k].(online := reg'[k].online)
  {}

  /** The rest of it takes exactly the mail that is older than a week. */
  lemma PurgeMeans(s: HubState, now: real, gone: seq<Row>, r: Row)
    requires Keyed(s.mail) && Legal(s, Purge(now, gone))
    ensures Stored(Next(s, Purge(now, gone)).state.mail, r) ==
      if now - r.msg.ts > 7.0 * 24.0 * 3600.0 then 0 else Stored(s.mail, r)
    ensures multiset(gone)[r] == if now - r.msg.ts > 7.0 * 24.0 * 3600.0 then Stored(s.mail, r) else 0
  {
    YoungerStores(s.mail, now - MAILBOX_MAX_AGE, r);
  }
}

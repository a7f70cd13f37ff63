// The broker as the object it is: dictionaries updated in place by handlers
// that run one at a time, each proved against its function in OcahubHub.

module OcahubDaemon {
  import opened Prelude
  import opened OcahubNames
  import opened OcahubStore
  import opened OcahubHub
  import opened OcahubGuards
  import opened OcahubRuns

  class Hub {
    var registry: Registry
    var identityMap: map<Identity, Key>
    var pending: map<Option<string>, Pending>
    var asks: map<Option<string>, AskRecord>
    const mailbox: Mailbox

    ghost function State(): HubState
      reads this, mailbox
    {
      HubState(registry, identityMap, pending, asks, mailbox.rows)
    }

    constructor (mailbox: Mailbox)
      ensures this.mailbox == mailbox
      ensures State() == HubState(map[], map[], map[], map[], mailbox.rows)
    {
      this.mailbox := mailbox;
      registry, identityMap, pending, asks := map[], map[], map[], map[];
    }

    /** `max` over (last_seen, key). */
    method Max(live: set<Key>) returns (r: Option<Key>)
      requires live <= registry.Keys
      ensures r == Latest(registry, live)
    {
      r := None;
      var rest := live;
      while rest != {}
        invariant rest <= live
        invariant r.None? <==> rest == live
        invariant r.Some? ==> IsLatest(registry, live - rest, r.value)
        decreases rest
      {
        var k :| k in rest;
        ghost var seen := live - rest;
        NotAfterOrder(registry, k, k, k);
        if r.None? || NotAfter(registry, r.value, k) {
          forall other | other in seen + {k} ensures NotAfter(registry, other, k) {
            if other != k { NotAfterOrder(registry, other, r.value, k); }
          }
          r := Some(k);
        } else {
          NotAfterOrder(registry, r.value, k, k);
        }
        rest := rest - {k};
        assert live - rest == seen + {k};
      }
      if r.Some? {
        assert live - {} == live;
        NotAfterOrder(registry, r.value, Latest(registry, live).value, r.value);
      }
    }

    method LatestLive(name: string) returns (r: Option<Key>)
      ensures r == Latest(registry, LiveNamed(registry, name))
    {
      r := Max(set k | k in registry && k.name == name && registry[k].online);
    }

    method LatestLiveByCwd(dir: string) returns (r: Option<Key>)
      ensures r == Latest(registry, LiveInDir(registry, dir))
    {
      r := Max(set k | k in registry && registry[k].online &&
        Truthy(registry[k].cwd) && CwdMatch(registry[k].cwd.value, dir));
    }

    method MarkOnline(k: Key, online: bool)
      modifies this`registry
      ensures registry == SetOnline(old(registry), k, online)
    {
      if k in registry && registry[k].online != online {
        registry := registry[k := registry[k].(online := online)];
      }
    }

    method DeliverToSession(target: Target, msg: Message, routed: bool) returns (events: seq<Event>, answer: Answer)
      modifies this`registry, mailbox
      ensures Outcome(State(), events, answer) == Deliver(old(State()), target, msg, routed)
    {
      if target.session.Some? {
        var k := Key(target.name, target.session.value);
        if k in registry && registry[k].online {
          if routed {
            return [Direct(k, registry[k].identity, msg)], Sent(Delivered);
          }
          MarkOnline(k, false);
        }
      }
      var row := Row(target.name, target.session, msg);
      mailbox.Put(row);
      events, answer := [Queued(row)], Sent(InMailbox);
    }

    /** `_drain_mailbox`, then the sends; the router takes `sent` of them. */
    method DrainMailbox(k: Key, to: Identity, sent: nat) returns (rows: seq<Row>, events: seq<Event>, answer: Answer)
      requires Keyed(mailbox.rows)
      modifies mailbox
      ensures IsSelection(old(mailbox.rows), k, rows)
      ensures Outcome(State(), events, answer) == Drain(old(State()), k, to, rows, sent)
    {
      rows := mailbox.Take(k);
      events := [];
      for i := 0 to |rows|
        invariant events == DrainEvents(k, to, rows, sent)[..i]
        invariant mailbox.rows == Without(old(mailbox.rows), k)
      {
        events := events + [if i < sent then Drained(k, to, rows[i]) else Dropped(k, rows[i])];
      }
      answer := if sent < |rows| then Broken else DrainedCount(|rows|);
    }

    method OnHelloRequest(id: Identity, req: Request, now: real, sent: nat)
      returns (ghost rows: seq<Row>, events: seq<Event>, answer: Answer)
      requires req.Hello? && Keyed(mailbox.rows)
      modifies this, mailbox
      ensures Outcome(State(), events, answer) ==
        OnHello(old(State()), id, req, now, Oracle(false, false, rows, sent, true))
      ensures Attached(req).Some? ==> IsSelection(old(mailbox.rows), Attached(req).value, rows)
    {
      rows := [];
      if !ValidName(req.name) || !ValidName(req.session) {
        return rows, [], Refused;
      }
      var k := Key(req.name, req.session);
      if k in registry && registry[k].identity != id {
        identityMap := identityMap - {registry[k].identity};
      }
      identityMap := identityMap[id := k];
      if BlankCwd(req.cwd) {
        return rows, [], Refused;
      }
      if req.badTitle {
        return rows, [], Broken;
      }
      var cwd := if req.cwd.Some? then req.cwd else if k in registry then registry[k].cwd else None;
      registry := registry[k := Entry(id, now, true, cwd)];
      rows, events, answer := DrainMailbox(k, id, sent);
    }

    /** The reply branch of `_on_send`. */
    method ReplyTo(msg: Message, to: Option<string>, toIdentity: bool, toSession: bool)
      returns (events: seq<Event>, answer: Answer)
      modifies this, mailbox
      ensures forall rows, sent, answered ::
        Outcome(State(), events, answer) ==
          SendReply(old(State()), msg, to, Oracle(toIdentity, toSession, rows, sent, answered))
    {
      var m := msg.replyTo;
      var ask := if m in asks then Some(asks[m]) else None;
      asks := asks - {m};
      var out := msg.(kind := if ask.Some? then Reply else Tell);
      var socket := if ask.Some? then Some(ask.value.from)
                    else if m in pending then Some(pending[m].identity) else None;
      if socket.Some? && toIdentity {
        return [Routed(socket.value, out)], Sent(Delivered);
      }
      if !Truthy(to) {
        return [], Refused;
      }
      var target := ResolveTarget(to.value);
      if target.None? {
        return [], Refused;
      }
      events, answer := DeliverToSession(target.value, out, toSession);
    }

    method OnSendRequest(id: Identity, req: Request, now: real, toIdentity: bool, toSession: bool)
      returns (events: seq<Event>, answer: Answer)
      requires req.Send?
      modifies this, mailbox
      ensures forall rows, sent, answered ::
        Outcome(State(), events, answer) ==
          OnSend(old(State()), id, req, now, Oracle(toIdentity, toSession, rows, sent, answered))
    {
      var kind := ParseKind(req.kind);
      if kind.None? {
        return [], Refused;
      }
      pending := pending[req.id := Pending(id, now + PENDING_TTL)];
      var sender := if id in identityMap then Address(identityMap[id].name, identityMap[id].session) else Hex(id);
      var msg := Message(req.id, kind.value, sender, req.topic, req.replyTo, now, req.payload);
      var target: Option<Target>;
      if kind.value == Reply && Truthy(req.replyTo) {
        events, answer := ReplyTo(msg, req.to, toIdentity, toSession);
      } else if Truthy(req.replyTo) && !Truthy(req.to) {
        if req.replyTo !in pending {
          return [], Refused;
        }
        if toIdentity {
          return [Routed(pending[req.replyTo].identity, msg)], Sent(Delivered);
        }
        return [], Sent(Lost);
      } else {
        target := None;
        if Truthy(req.to) {
          target := ResolveTarget(req.to.value);
        } else if Truthy(req.dir) {
          var k := LatestLiveByCwd(req.dir.value);
          target := if k.Some? then Some(Target(k.value.name, Some(k.value.session))) else None;
        }
        if target.None? {
          return [], Refused;
        }
        events, answer := DeliverToSession(target.value, msg, toSession);
        if kind.value == Ask {
          asks := asks[req.id := AskRecord(target.value, id, msg.sender, msg.ts)];
          events := events + [AskMade(req.id)];
        }
      }
    }

    method ResolveTarget(to: string) returns (target: Option<Target>)
      ensures target == Resolve(registry, to)
    {
      target := ParseTarget(to);
      if target.Some? && target.value.session.None? {
        var k := LatestLive(target.value.name);
        if k.Some? {
          target := Some(Target(k.value.name, Some(k.value.session)));
        }
      }
    }

    /** `_resolve_session` with rebind; None when it raises. */
    method ResolveSession(id: Identity, req: Request, now: real) returns (key: Option<Key>)
      requires req.Poll?
      modifies this
      ensures key == DrainKey(old(State()), id, req)
      ensures State() ==
        if Explicit(req.pname, req.psession) && ValidName(req.pname.value) && ValidName(req.psession.value)
        then PollBind(old(State()), id, Key(req.pname.value, req.psession.value), req.pcwd, now)
        else old(State())
    {
      if Explicit(req.pname, req.psession) {
        if !ValidName(req.pname.value) || !ValidName(req.psession.value) {
          return None;
        }
        var k := Key(req.pname.value, req.psession.value);
        identityMap := identityMap[id := k];
        if k !in registry {
          registry := registry[k := Entry(id, now, true, None)];
        } else {
          registry := registry[k := registry[k].(identity := id, lastSeen := now)];
          MarkOnline(k, true);
        }
        if BlankCwd(req.pcwd) {
          return None;
        }
        if Truthy(req.pcwd) {
          registry := registry[k := registry[k].(cwd := req.pcwd)];
        }
      } else if id !in identityMap {
        return None;
      }
      key := Some(identityMap[id]);
    }

    /** `_resolve_session` without rebinding, for the ledger's readers. */
    method FindSession(id: Identity, name: Option<string>, session: Option<string>) returns (answer: Answer)
      ensures answer == if AsksRefused(State(), id, name, session) then Refused else Plain
    {
      if Explicit(name, session) {
        answer := if ValidName(name.value) && ValidName(session.value) then Plain else Refused;
      } else {
        answer := if id in identityMap then Plain else Refused;
      }
    }

    method OnPollRequest(id: Identity, req: Request, now: real, sent: nat)
      returns (ghost rows: seq<Row>, events: seq<Event>, answer: Answer)
      requires req.Poll? && Keyed(mailbox.rows)
      modifies this, mailbox
      ensures Outcome(State(), events, answer) ==
        OnPoll(old(State()), id, req, now, Oracle(false, false, rows, sent, true))
      ensures DrainKey(old(State()), id, req).Some? ==>
                IsSelection(old(mailbox.rows), DrainKey(old(State()), id, req).value, rows)
    {
      rows := [];
      var key := ResolveSession(id, req, now);
      if key.None? {
        return rows, [], Refused;
      }
      rows, events, answer := DrainMailbox(key.value, id, sent);
    }

    method OnByeRequest(id: Identity, req: Request) returns (events: seq<Event>, answer: Answer)
      requires req.Bye?
      modifies this
      ensures Outcome(State(), events, answer) == OnBye(old(State()), id, req)
    {
      events := [];
      var key: Option<Key> := None;
      if Explicit(req.bname, req.bsession) {
        if !ValidName(req.bname.value) || !ValidName(req.bsession.value) {
          return [], Refused;
        }
        key := Some(Key(req.bname.value, req.bsession.value));
        if key.value in registry {
          identityMap := identityMap - {registry[key.value].identity};
        }
      } else if id in identityMap {
        key := Some(identityMap[id]);
        identityMap := identityMap - {id};
      }
      if key.Some? && key.value in registry {
        registry := registry[key.value := registry[key.value].(online := false)];
      }
      answer := Plain;
    }

    /** `_handle`: what the handler does before its answer is sent. */
    method HandleRequest(id: Identity, req: Request, now: real, toIdentity: bool, toSession: bool, sent: nat)
      returns (ghost rows: seq<Row>, events: seq<Event>, answer: Answer)
      requires Keyed(mailbox.rows)
      modifies this, mailbox
      ensures DrainKey(old(State()), id, req).Some? ==>
                IsSelection(old(mailbox.rows), DrainKey(old(State()), id, req).value, rows)
      ensures forall answered ::
        Outcome(State(), events, answer)
          == Dispatch(old(State()), id, req, now, Oracle(toIdentity, toSession, rows, sent, answered))
    {
      rows := [];
      match req {
        case Hello(_, _, _, _) => rows, events, answer := OnHelloRequest(id, req, now, sent);
        case Send(_, _, _, _, _, _, _) => events, answer := OnSendRequest(id, req, now, toIdentity, toSession);
        case Poll(_, _, _) => rows, events, answer := OnPollRequest(id, req, now, sent);
        case Bye(_, _) => events, answer := OnByeRequest(id, req);
        case Asks(name, session) =>
          answer := FindSession(id, name, session);
          events := [];
        case ReadOnly => events, answer := [], Plain;
        case Malformed => events, answer := [], Refused;
      }
    }

    /** One turn of `router_loop`. The ack is sent inside its try, an error
        message outside of any. */
    method Turn(id: Identity, req: Request, now: real, toIdentity: bool, toSession: bool, sent: nat, answered: bool)
      returns (ghost rows: seq<Row>, events: seq<Event>, answer: Answer)
      requires Keyed(mailbox.rows)
      modifies this, mailbox
      ensures
        var step := Handle(id, req, now, Oracle(toIdentity, toSession, rows, sent, answered));
        Legal(old(State()), step) && Outcome(State(), events, answer) == Next(old(State()), step)
    {
      if id in identityMap {
        var k := identityMap[id];
        if k !in registry {
          return [], [], Crashed;
        }
        registry := registry[k := registry[k].(lastSeen := now)];
      }
      ghost var stamped := State();
      assert stamped == Stamp(old(State()), id, now);
      rows, events, answer := HandleRequest(id, req, now, toIdentity, toSession, sent);
      ghost var out := Dispatch(stamped, id, req, now, Oracle(toIdentity, toSession, rows, sent, answered));
      assert Outcome(State(), events, answer) == out && !out.answer.Crashed? by {
        RefusedIff(stamped, id, req, now, Oracle(toIdentity, toSession, rows, sent, answered));
      }
      if !answered {
        answer := if answer.Refused? then Crashed else Broken;
      }
    }

    /** The sweeper's first loop, when nothing comes between: it marks exactly the
        stale sessions, and is that many marks of the transition system. */
    method SweepSessions(now: real) returns (ghost marked: seq<Key>)
      modifies this`registry
      ensures registry == SweepRegistry(old(registry), now)
      ensures State() == Run(old(State()), Marks(marked)).state
    {
      marked := [];
      var rest := registry.Keys;
      while rest != {}
        invariant rest <= registry.Keys == old(registry).Keys
        invariant forall k | k in rest :: registry[k] == old(registry)[k]
        invariant forall k | k in registry && k !in rest :: registry[k] == SweepRegistry(old(registry), now)[k]
        invariant State() == Run(old(State()), Marks(marked)).state
        decreases rest
      {
        var k :| k in rest;
        if registry[k].online && now - registry[k].lastSeen > SESSION_TTL {
          MarksSnoc(old(State()), marked, k);
          MarkOnline(k, false);
          marked := marked + [k];
        }
        rest := rest - {k};
      }
    }

    /** Its loop over expired routing entries. */
    method SweepPending(now: real)
      modifies this`pending
      ensures pending == OnPurge(old(State()), now, []).state.pending
    {
      var expired := set m | m in pending && pending[m].expiry < now;
      while expired != {}
        invariant forall m | m in expired :: m in pending && pending[m].expiry < now
        invariant forall m | m in old(pending) && !(old(pending)[m].expiry < now) :: m in pending
        invariant forall m | m in pending :: m in old(pending) && pending[m] == old(pending)[m]
        invariant forall m | m in pending && pending[m].expiry < now :: m in expired
        decreases expired
      {
        var m :| m in expired;
        pending := pending - {m};
        expired := expired - {m};
      }
    }

    /** Its loop over stale asks. */
    method SweepAsks(now: real)
      modifies this`asks
      ensures asks == OnPurge(old(State()), now, []).state.asks
    {
      var stale := set m | m in asks && now - asks[m].ts > ASK_TTL;
      while stale != {}
        invariant forall m | m in stale :: m in asks && now - asks[m].ts > ASK_TTL
        invariant forall m | m in old(asks) && !(now - old(asks)[m].ts > ASK_TTL) :: m in asks
        invariant forall m | m in asks :: m in old(asks) && asks[m] == old(asks)[m]
        invariant forall m | m in asks && now - asks[m].ts > ASK_TTL :: m in stale
        decreases stale
      {
        var m :| m in stale;
        asks := asks - {m};
        stale := stale - {m};
      }
    }

    /** What `sweeper` does after its marks, without an await. */
    method SweepRest(now: real) returns (ghost gone: seq<Row>)
      requires Keyed(mailbox.rows)
      modifies this, mailbox
      ensures Legal(old(State()), Purge(now, gone)) && State() == Next(old(State()), Purge(now, gone)).state
    {
      var _, pruned := mailbox.Prune(MAILBOX_MAX_AGE, now);
      gone := pruned;
      SweepPending(now);
      SweepAsks(now);
    }
  }

  function Marks(keys: seq<Key>): seq<Step> {
    seq(|keys|, i requires 0 <= i < |keys| => Mark(keys[i]))
  }

  lemma MarksSnoc(s: HubState, keys: seq<Key>, k: Key)
    ensures Run(s, Marks(keys + [k])).state == OnMark(Run(s, Marks(keys)).state, k).state
  {
    assert Marks(keys + [k])[..|keys|] == Marks(keys);
  }
}

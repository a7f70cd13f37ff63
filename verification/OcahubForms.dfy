// The few shapes a step's effect on the mail can take.

module OcahubForms {
  import opened Prelude
  import opened OcahubNames
  import opened OcahubStore
  import opened OcahubHub
  import opened OcahubInvariants
  import opened OcahubGuards

  datatype Form =
    | Silent
    | Emits(event: Event, withAsk: bool)
    | Drains(key: Key, to: Identity, rows: seq<Row>, sent: nat)
    | Expires(cutoff: real, gone: seq<Row>)

  predicate IsSend(e: Event) {
    e.Direct? || e.Routed? || e.Queued?
  }

  /** The message an event moves. */
  function Msg(e: Event): Message
    requires IsSend(e) || e.Drained? || e.Dropped?
  {
    match e
    case Direct(_, _, m) => m
    case Routed(_, m) => m
    case Queued(r) => r.msg
    case Drained(_, _, r) => r.msg
    case Dropped(_, r) => r.msg
  }

  ghost predicate HasForm(s: HubState, o: Outcome, f: Form, step: Step) {
    match f
    case Silent => o.events == [] && o.state.mail == s.mail && (o.answer.Sent? ==> o.answer.status == Lost)
    case Emits(e, withAsk) =>
      && step.Handle? && step.req.Send? && IsSend(e)
      && o.events == (if withAsk then [e, AskMade(step.req.id)] else [e])
      && Msg(e).id == step.req.id && Msg(e).ts == step.now
      && (e.Direct? ==> Online(s.registry, e.key))
      && o.state.mail == (if e.Queued? then Insert(s.mail, e.row) else s.mail)
      && (o.answer.Sent? ==> o.answer.status == if e.Queued? then InMailbox else Delivered)
    case Drains(k, to, rows, sent) =>
      && step.Handle? && !step.req.Send?
      && IsSelection(s.mail, k, rows) && o.events == DrainEvents(k, to, rows, sent)
      && o.state.mail == Without(s.mail, k)
      && !o.answer.Sent?
    case Expires(cutoff, gone) =>
      && step.Purge? && IsListing(s.mail, Before(cutoff), gone) && o.events == ExpiredEvents(gone)
      && o.state.mail == Younger(s.mail, cutoff) && o.answer == Plain
  }

  /** Exactly one message event, or none. */
  ghost predicate EmitsAtMostOne(s: HubState, o: Outcome, msg: Message) {
    if o.events == [] then o.state.mail == s.mail && (o.answer.Sent? ==> o.answer.status == Lost)
    else
      var e := o.events[0];
      && IsSend(e) && Msg(e).id == msg.id && Msg(e).ts == msg.ts
      && o.events == (if |o.events| == 2 then [e, AskMade(msg.id)] else [e])
      && (e.Direct? ==> Online(s.registry, e.key))
      && o.state.mail == (if e.Queued? then Insert(s.mail, e.row) else s.mail)
      && o.answer == Sent(if e.Queued? then InMailbox else Delivered)
  }

  lemma DeliverForm(s: HubState, target: Target, msg: Message, routed: bool)
    ensures EmitsAtMostOne(s, Deliver(s, target, msg, routed), msg)
    ensures |Deliver(s, target, msg, routed).events| == 1
  {}

  lemma SendReplyForm(s: HubState, msg: Message, to: Option<string>, o: Oracle)
    ensures EmitsAtMostOne(s, SendReply(s, msg, to, o), msg)
  {
    var m := msg.replyTo;
    var s' := s.(asks := s.asks - {m});
    var out := msg.(kind := if m in s.asks then Reply else Tell);
    if Truthy(to) && Resolve(s'.registry, to.value).Some? {
      DeliverForm(s', Resolve(s'.registry, to.value).value, out, o.toSession);
    }
  }

  lemma SendToForm(s: HubState, id: Identity, msg: Message, req: Request, o: Oracle)
    requires req.Send?
    ensures EmitsAtMostOne(s, SendTo(s, id, msg, req, o), msg)
  {
    if SendTarget(s.registry, req.to, req.dir).Some? {
      DeliverForm(s, SendTarget(s.registry, req.to, req.dir).value, msg, o.toSession);
    }
  }

  lemma SendForm(s: HubState, id: Identity, req: Request, now: real, o: Oracle) returns (f: Form)
    requires req.Send?
    ensures HasForm(s, OnSend(s, id, req, now, o), f, Handle(id, req, now, o))
  {
    var out := OnSend(s, id, req, now, o);
    if ParseKind(req.kind).Some? {
      var kind := ParseKind(req.kind).value;
      var s' := Remembered(s, id, req, now);
      var msg := MessageOf(s, id, req, kind, now);
      if kind == Reply && Truthy(req.replyTo) {
        SendReplyForm(s', msg, req.to, o);
      } else if Truthy(req.replyTo) && !Truthy(req.to) {
        assert EmitsAtMostOne(s', SendBack(s', msg, o), msg);
      } else {
        SendToForm(s', id, msg, req, o);
      }
      assert EmitsAtMostOne(s', out, msg);
    }
    f := if out.events == [] then Silent else Emits(out.events[0], |out.events| == 2);
  }

  lemma DrainForm(s: HubState, id: Identity, req: Request, now: real, o: Oracle) returns (f: Form)
    requires req.Hello? || req.Poll?
    requires DrainKey(s, id, req).Some? ==> IsSelection(s.mail, DrainKey(s, id, req).value, o.rows)
    ensures HasForm(s, Dispatch(s, id, req, now, o), f, Handle(id, req, now, o))
  {
    var k := DrainKey(s, id, req);
    f := if k.Some? then Drains(k.value, id, o.rows, o.sent) else Silent;
  }

  lemma StepForm(s: HubState, step: Step) returns (f: Form)
    requires Keyed(s.mail) && Legal(s, step)
    ensures HasForm(s, Next(s, step), f, step)
    ensures Keyed(Next(s, step).state.mail)
  {
    match step
    case Mark(_) => f := Silent;
    case Purge(now, gone) =>
      YoungerKeyed(s.mail, now - MAILBOX_MAX_AGE);
      f := Expires(now - MAILBOX_MAX_AGE, gone);
    case Handle(id, req, now, o) =>
      if Unlinked(s, id) {
        return Silent;
      }
      StampKeeps(s, id, now);
      var s1 := Stamp(s, id, now);
      match req {
        case Send(_, _, _, _, _, _, _) => f := SendForm(s1, id, req, now, o);
        case Hello(_, _, _, _) => f := DrainForm(s1, id, req, now, o);
        case Poll(_, _, _) => f := DrainForm(s1, id, req, now, o);
        case _ => f := Silent;
      }
      FormBeforeStamp(s, s1, Dispatch(s1, id, req, now, o), f, step);
      FormReported(s, Dispatch(s1, id, req, now, o), f, step, o.answered);
      FormKeyed(s, Dispatch(s1, id, req, now, o), f, step);
  }

  lemma FormBeforeStamp(s: HubState, s1: HubState, o: Outcome, f: Form, step: Step)
    requires HasForm(s1, o, f, step) && s1.mail == s.mail
    requires forall k | Online(s1.registry, k) :: Online(s.registry, k)
    ensures HasForm(s, o, f, step)
  {}

  lemma FormKeyed(s: HubState, o: Outcome, f: Form, step: Step)
    requires Keyed(s.mail) && HasForm(s, o, f, step) && step.Handle?
    ensures Keyed(o.state.mail)
  {
    if f.Drains? { WithoutKeeps(s.mail, f.key); }
    if f.Emits? && f.event.Queued? { InsertStores(s.mail, f.event.row, f.event.row); }
  }

  lemma FormReported(s: HubState, o: Outcome, f: Form, step: Step, answered: bool)
    requires HasForm(s, o, f, step) && step.Handle?
    ensures HasForm(s, o.(answer := Reported(o.answer, answered)), f, step)
  {}
}

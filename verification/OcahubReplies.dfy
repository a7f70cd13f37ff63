// At most one reply per ask.

module OcahubReplies {
  import opened Prelude
  import opened OcahubNames
  import opened OcahubStore
  import opened OcahubHub
  import opened OcahubInvariants
  import opened OcahubForms
  import opened OcahubRuns

  function Answering(m: string): Event -> bool {
    (e: Event) => IsSend(e) && Msg(e).kind == Reply && Msg(e).replyTo == Some(m)
  }

  function Asking(m: string): Event -> bool {
    (e: Event) => e == AskMade(Some(m))
  }

  function Owed(s: HubState, m: string): nat {
    if Some(m) in s.asks then 1 else 0
  }

  /** The ledger accounting of one outcome. */
  ghost predicate Settles(s: HubState, o: Outcome, m: string) {
    CountIf(o.events, Answering(m)) + Owed(o.state, m) <= CountIf(o.events, Asking(m)) + Owed(s, m)
  }

  lemma SendSettles(s: HubState, id: Identity, req: Request, now: real, o: Oracle, m: string)
    requires req.Send? && m != ""
    ensures Settles(s, OnSend(s, id, req, now, o), m)
  {
    var out := OnSend(s, id, req, now, o);
    if ParseKind(req.kind).Some? {
      var kind := ParseKind(req.kind).value;
      var s' := Remembered(s, id, req, now);
      var msg := MessageOf(s, id, req, kind, now);
      if kind == Reply && Truthy(req.replyTo) {
        SendReplySettles(s', msg, req.to, o, m);
      } else if Truthy(req.replyTo) && !Truthy(req.to) {
        assert |SendBack(s', msg, o).events| <= 1;
        if out.events != [] { assert out.events[1..] == []; }
      } else {
        SendToSettles(s', id, msg, req, o, m);
      }
    }
  }

  lemma SendReplySettles(s: HubState, msg: Message, to: Option<string>, o: Oracle, m: string)
    requires msg.kind == Reply
    ensures Settles(s, SendReply(s, msg, to, o), m)
  {
    var out := SendReply(s, msg, to, o);
    var answered := msg.replyTo;
    assert out.state.asks == s.asks - {answered};
    assert |out.events| <= 1;
    if out.events != [] {
      assert out.events[1..] == [];
      assert IsSend(out.events[0]) && Msg(out.events[0]) == msg.(kind := if answered in s.asks then Reply else Tell);
    }
  }

  lemma SendToSettles(s: HubState, id: Identity, msg: Message, req: Request, o: Oracle, m: string)
    requires req.Send? && m != ""
    requires msg.kind == Reply ==> !Truthy(msg.replyTo)
    ensures Settles(s, SendTo(s, id, msg, req, o), m)
  {
    var out := SendTo(s, id, msg, req, o);
    if SendTarget(s.registry, req.to, req.dir).Some? {
      var target := SendTarget(s.registry, req.to, req.dir).value;
      var d := Deliver(s, target, msg, o.toSession);
      assert |d.events| == 1 && d.state.asks == s.asks;
      var e := d.events[0];
      assert d.events == [e] && Msg(e) == msg;
      CountIfSmall(e, AskMade(msg.id), Answering(m));
      CountIfSmall(e, AskMade(msg.id), Asking(m));
      assert out.events == if msg.kind == Ask then [e, AskMade(msg.id)] else [e];
    }
  }

  lemma OtherAsks(s: HubState, step: Step)
    requires !(step.Handle? && step.req.Send? && !Unlinked(s, step.id))
    ensures Next(s, step).state.asks.Keys <= s.asks.Keys
  {}

  lemma FormQuiet(s: HubState, o: Outcome, f: Form, step: Step, m: string)
    requires HasForm(s, o, f, step) && !f.Emits?
    ensures CountIf(o.events, Answering(m)) == 0
  {
    assert forall i | 0 <= i < |o.events| :: !IsSend(o.events[i]);
    CountIfNone(o.events, Answering(m));
  }

  lemma StepSettles(s: HubState, step: Step, m: string)
    requires Keyed(s.mail) && Legal(s, step) && m != ""
    ensures Settles(s, Next(s, step), m)
  {
    if step.Handle? && step.req.Send? && !Unlinked(s, step.id) {
      StampKeeps(s, step.id, step.now);
      SendSettles(Stamp(s, step.id, step.now), step.id, step.req, step.now, step.oracle, m);
    } else {
      OtherAsks(s, step);
      var f := StepForm(s, step);
      FormQuiet(s, Next(s, step), f, step, m);
    }
  }

  /** From any moment on, the replies emitted to an id plus the ask still owed
      never outnumber the asks made under it since plus the one owed then. */
  lemma {:induction false} RepliesNeedAsks(s: HubState, steps: seq<Step>, start: real, m: string)
    requires Keyed(s.mail) && Proper(s, steps, start) && m != ""
    ensures var t := Run(s, steps);
      CountIf(t.history, Answering(m)) + Owed(t.state, m) <= CountIf(t.history, Asking(m)) + Owed(s, m)
  {
    if steps != [] {
      var init, last := steps[..|steps| - 1], steps[|steps| - 1];
      var before := Run(s, init);
      RepliesNeedAsks(s, init, start, m);
      ProperLast(s, steps, start);
      AlwaysKeyed(s, init, start);
      StepSettles(before.state, last, m);
      CountIfConcat(before.history, Next(before.state, last).events, Answering(m));
      CountIfConcat(before.history, Next(before.state, last).events, Asking(m));
    }
  }

  /** For every message id, the replies emitted to it - routed or put in the
      mailbox - plus the ask still owed never outnumber the asks made under it. */
  lemma OneReplyPerAsk(s: HubState, steps: seq<Step>, start: real, m: string)
    requires Started(s, start) && Proper(s, steps, start) && m != ""
    ensures var t := Run(s, steps);
      CountIf(t.history, Answering(m)) + Owed(t.state, m) <= CountIf(t.history, Asking(m))
  {
    RepliesNeedAsks(s, steps, start, m);
  }

  /** A reply that finds no ask on the ledger goes out as a tell, if at all, and
      one that finds it settles it. */
  lemma LateRepliesAreTells(s: HubState, id: Identity, req: Request, now: real, o: Oracle)
    requires req.Send? && ParseKind(req.kind) == Some(Reply) && Truthy(req.replyTo)
    ensures var out := OnSend(s, id, req, now, o);
      && (forall e | e in out.events :: IsSend(e) && Msg(e).kind == if req.replyTo in s.asks then Reply else Tell)
      && req.replyTo !in out.state.asks
  {
    var s' := Remembered(s, id, req, now);
    var msg := MessageOf(s, id, req, Reply, now);
    assert OnSend(s, id, req, now, o) == SendReply(s', msg, req.to, o);
  }

  /** An ask that was sent is on the ledger exactly if it was addressed, by name
      or by directory, and not sent back along a correlation. */
  lemma AskOwedIff(s: HubState, id: Identity, req: Request, now: real, o: Oracle)
    requires req.Send? && ParseKind(req.kind) == Some(Ask) && req.id !in s.asks
    requires OnSend(s, id, req, now, o).answer.Sent?
    ensures req.id in OnSend(s, id, req, now, o).state.asks <==> Truthy(req.to) || !Truthy(req.replyTo)
  {
    var s' := Remembered(s, id, req, now);
    var msg := MessageOf(s, id, req, Ask, now);
    assert OnSend(s, id, req, now, o) ==
      if Truthy(req.replyTo) && !Truthy(req.to) then SendBack(s', msg, o) else SendTo(s', id, msg, req, o);
  }

  lemma {:induction false} NoneCounted<T>(items: seq<T>, p: T -> bool)
    requires CountIf(items, p) == 0
    ensures forall x | x in items :: !p(x)
  {
    if items != [] {
      assert items == [items[0]] + items[1..];
      NoneCounted(items[1..], p);
    }
  }

  /** An ask in answer to another message reaches its target as an ask and is
      owed nothing: until an ask is made under its id, whatever is replied to it,
      however much later, goes out as something else than a reply. */
  lemma CorrelatedAskIsNotOwed(s: HubState, ask: Step, steps: seq<Step>, start: real)
    requires Keyed(s.mail) && ask.Handle? && !Unlinked(s, ask.id)
    requires ask.req.Send? && ParseKind(ask.req.kind) == Some(Ask) && ask.req.id !in s.asks && Truthy(ask.req.id)
    requires !Truthy(ask.req.to) && Truthy(ask.req.replyTo) && ask.req.replyTo in s.pending && ask.oracle.toIdentity
    requires Proper(Next(s, ask).state, steps, start)
    requires AskMade(ask.req.id) !in Run(Next(s, ask).state, steps).history
    ensures var out := Next(s, ask);
      && |out.events| == 1 && out.events[0].Routed? && Msg(out.events[0]).kind == Ask && ask.req.id !in out.state.asks
      && forall e | e in Run(out.state, steps).history && IsSend(e) && Msg(e).replyTo == ask.req.id ::
           Msg(e).kind != Reply
  {
    var stamped := Stamp(s, ask.id, ask.now);
    StampKeeps(s, ask.id, ask.now);
    var msg := MessageOf(stamped, ask.id, ask.req, Ask, ask.now);
    var back := SendBack(Remembered(stamped, ask.id, ask.req, ask.now), msg, ask.oracle);
    assert OnSend(stamped, ask.id, ask.req, ask.now, ask.oracle) == back;
    var after, m := Next(s, ask).state, ask.req.id.value;
    var later := Run(after, steps).history;
    RepliesNeedAsks(after, steps, start, m);
    assert forall i | 0 <= i < |later| :: later[i] in later && !Asking(m)(later[i]);
    CountIfNone(later, Asking(m));
    NoneCounted(later, Answering(m));
    assert forall e | e in later :: !Answering(m)(e);
  }
}

// What a message carries, from the send that made it to the socket it reaches.

module OcahubContent {
  import opened Prelude
  import opened OcahubNames
  import opened OcahubStore
  import opened OcahubHub
  import opened OcahubInvariants
  import opened OcahubGuards
  import opened OcahubForms
  import opened OcahubRuns
  import opened OcahubConservation
  import opened OcahubDelivery

  // ---- the sender -------------------------------------------------------------------

  predicate HexDigit(c: char, v: nat) {
    if v < 10 then c as int == '0' as int + v else v < 16 && c as int == 'a' as int + v - 10
  }

  /** Two hexadecimal digits for each byte. */
  predicate IsHex(text: string, id: Identity) {
    && |text| == 2 * |id|
    && forall i | 0 <= i < |id| ::
         HexDigit(text[2 * i], id[i] as nat / 16) && HexDigit(text[2 * i + 1], id[i] as nat % 16)
  }

  lemma DigitMeans(v: nat)
    requires v < 16
    ensures HexDigit(Digit(v), v)
  {
  }

  lemma OneByte(id: Identity)
    requires id != []
    ensures |Hex(id)| == 2 + |Hex(id[1..])| && Hex(id)[2..] == Hex(id[1..])
    ensures HexDigit(Hex(id)[0], id[0] as nat / 16) && HexDigit(Hex(id)[1], id[0] as nat % 16)
  {
    DigitMeans(id[0] as nat / 16);
    DigitMeans(id[0] as nat % 16);
  }

  lemma HexCons(text: string, id: Identity)
    requires id != [] && |text| >= 2 && IsHex(text[2..], id[1..])
    requires HexDigit(text[0], id[0] as nat / 16) && HexDigit(text[1], id[0] as nat % 16)
    ensures IsHex(text, id)
  {
    forall i | 0 < i < |id|
      ensures HexDigit(text[2 * i], id[i] as nat / 16) && HexDigit(text[2 * i + 1], id[i] as nat % 16)
    {
      assert text[2 * i] == text[2..][2 * (i - 1)] && text[2 * i + 1] == text[2..][2 * (i - 1) + 1];
      assert id[i] == id[1..][i - 1];
    }
  }

  lemma {:induction false} HexMeans(id: Identity)
    ensures IsHex(Hex(id), id)
  {
    if id != [] {
      HexMeans(id[1..]);
      OneByte(id);
      HexCons(Hex(id), id);
    }
  }

  /** Name and session of the caller, if the hub knows them, else its socket's identity in hex. */
  predicate SentFrom(s: HubState, id: Identity, sender: string) {
    if id in s.identityMap then sender == s.identityMap[id].name + "@" + s.identityMap[id].session
    else IsHex(sender, id)
  }

  // ---- the message --------------------------------------------------------------------

  /** A kind not given is a tell, and a reply to nothing remembered as an ask is one too. */
  predicate KindSent(s: HubState, req: Request, kind: Kind)
    requires req.Send?
  {
    match kind
    case Ask => req.kind == Some("ask")
    case Reply => req.kind == Some("reply") && (Truthy(req.replyTo) ==> req.replyTo in s.asks)
    case Tell =>
      || req.kind.None? || req.kind == Some("tell")
      || (req.kind == Some("reply") && Truthy(req.replyTo) && req.replyTo !in s.asks)
  }

  /** The message is what the request gave and who gave it when. */
  predicate Carries(s: HubState, step: Step, msg: Message)
    requires step.Handle? && step.req.Send?
  {
    && msg.id == step.req.id && msg.ts == step.now && SentFrom(s, step.id, msg.sender)
    && msg.payload == step.req.payload && msg.topic == step.req.topic && msg.replyTo == step.req.replyTo
    && KindSent(s, step.req, msg.kind)
  }

  /** The message of every event but for its kind. */
  ghost predicate SameBut(events: seq<Event>, msg: Message) {
    forall e | e in events && IsSend(e) :: Msg(e) == msg.(kind := Msg(e).kind)
  }

  lemma ReplyCarries(s: HubState, msg: Message, to: Option<string>, o: Oracle)
    ensures forall e | e in SendReply(s, msg, to, o).events ::
      IsSend(e) && Msg(e) == msg.(kind := if msg.replyTo in s.asks then Reply else Tell)
  {}

  lemma AddressedCarries(s: HubState, id: Identity, msg: Message, req: Request, o: Oracle)
    requires req.Send?
    ensures forall e | e in SendTo(s, id, msg, req, o).events && IsSend(e) :: Msg(e) == msg
  {}

  lemma SendCarries(s: HubState, step: Step)
    requires step.Handle? && step.req.Send?
    ensures forall e | e in OnSend(s, step.id, step.req, step.now, step.oracle).events && IsSend(e) ::
      Carries(s, step, Msg(e))
  {
    var id, req, now, o := step.id, step.req, step.now, step.oracle;
    HexMeans(id);
    if ParseKind(req.kind).Some? {
      var kind := ParseKind(req.kind).value;
      var s' := Remembered(s, id, req, now);
      var msg := MessageOf(s, id, req, kind, now);
      assert SentFrom(s, id, msg.sender);
      if kind == Reply && Truthy(req.replyTo) {
        ReplyCarries(s', msg, req.to, o);
      } else if Truthy(req.replyTo) && !Truthy(req.to) {
        assert forall e | e in SendBack(s', msg, o).events :: Msg(e) == msg;
      } else {
        AddressedCarries(s', id, msg, req, o);
      }
    }
  }

  /** Whatever a step routes or stores is the message of its request. */
  lemma StepCarries(s: HubState, step: Step, e: Event)
    requires e in Next(s, step).events && IsSend(e)
    ensures step.Handle? && step.req.Send? && Carries(s, step, Msg(e))
  {
    if step.Handle? && !Unlinked(s, step.id) {
      var stamped := Stamp(s, step.id, step.now);
      StampKeeps(s, step.id, step.now);
      if step.req.Send? {
        SendCarries(stamped, step);
        assert Next(s, step).events == OnSend(stamped, step.id, step.req, step.now, step.oracle).events;
      } else {
        DispatchDrains(stamped, step.id, step.req, step.now, step.oracle);
      }
    }
  }

  // ---- and over runs ----------------------------------------------------------------------

  ghost predicate QueuedAt(s: HubState, steps: seq<Step>, i: nat, r: Row)
    requires i < |steps|
  {
    Queued(r) in Next(Run(s, steps[..i]).state, steps[i]).events
  }

  lemma StepStores(s: HubState, step: Step, r: Row)
    requires Keyed(s.mail) && Legal(s, step) && Holds(Next(s, step).state.mail, r)
    ensures Holds(s.mail, r) || Queued(r) in Next(s, step).events
  {
    var f := StepForm(s, step);
    match f
    case Silent =>
    case Emits(e, _) =>
      assert e == Next(s, step).events[0] && e in Next(s, step).events;
      if e.Queued? { InsertStores(s.mail, e.row, r); }
    case Drains(k, _, _, _) => WithoutStores(s.mail, k, r);
    case Expires(cutoff, _) => YoungerStores(s.mail, cutoff, r);
  }

  /** A stored row was there from the start or some step of the run queued it. */
  lemma {:induction false} RowOrigin(s: HubState, steps: seq<Step>, start: real, n: nat, r: Row)
    requires Keyed(s.mail) && Proper(s, steps, start) && n <= |steps| && HoldsAt(s, steps, r, n)
    ensures Holds(s.mail, r) || exists i: nat | i < n :: QueuedAt(s, steps, i, r)
  {
    if n > 0 {
      LegalAt(s, steps, start, n - 1);
      RunNext(s, steps, n - 1);
      StepStores(Run(s, steps[..n - 1]).state, steps[n - 1], r);
      if Holds(Run(s, steps[..n - 1]).state.mail, r) {
        RowOrigin(s, steps, start, n - 1, r);
      } else {
        assert QueuedAt(s, steps, n - 1, r);
      }
    } else {
      assert steps[..0] == [];
    }
  }

  /** A row a drain hands over carries what the send that stored it gave, unless
      it was in the store from the start. */
  lemma DrainedCarries(s: HubState, steps: seq<Step>, start: real, n: nat, k: Key, to: Identity, r: Row)
    requires Keyed(s.mail) && Proper(s, steps, start) && n < |steps|
    requires Drained(k, to, r) in Next(Run(s, steps[..n]).state, steps[n]).events
    ensures Holds(s.mail, r) || exists i: nat | i < n ::
      && QueuedAt(s, steps, i, r) && steps[i].Handle? && steps[i].req.Send?
      && Carries(Run(s, steps[..i]).state, steps[i], r.msg)
  {
    LegalAt(s, steps, start, n);
    DrainsMatch(Run(s, steps[..n]).state, steps[n]);
    RowOrigin(s, steps, start, n, r);
    if i: nat :| i < n && QueuedAt(s, steps, i, r) {
      StepCarries(Run(s, steps[..i]).state, steps[i], Queued(r));
    }
  }
}

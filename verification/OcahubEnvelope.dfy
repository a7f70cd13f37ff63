// The message dataclasses and their dictionaries
// (pkgs/ocahub/src/ocahub/protocol.py): to_dict and parse.

module OcahubEnvelope {
  import opened Prelude

  /** A JSON value. Equality is structural: 1, 1.0 and true are what they are. */
  datatype J = Null | Str(s: string) | Num(n: real) | Bool(b: bool) | List(items: seq<J>) | Obj(entries: map<string, J>)

  const VERSION := Num(1.0)

  /** A dataclass field: its default, or none if it is required. */
  type Schema = map<string, Option<J>>

  /** The twelve message classes, by wire type. */
  function SchemaOf(t: string): Option<Schema> {
    if t == "hello" then Some(map[
      "name" := None, "session" := None, "caps" := Some(List([])), "cwd" := Some(Null), "title" := Some(Null)])
    else if t == "send" then Some(map[
      "kind" := Some(Str("tell")), "to" := Some(Null),
      "cwd" := Some(Null), "topic" := Some(Null), "reply_to" := Some(Null)])
    else if t == "poll" then Some(map["name" := Some(Null), "session" := Some(Null), "cwd" := Some(Null)])
    else if t == "asks" then Some(map["name" := Some(Null), "session" := Some(Null), "cwd" := Some(Null)])
    else if t == "bye" then Some(map["name" := Some(Null), "session" := Some(Null)])
    else if t == "ping" then Some(map[])
    else if t == "who" then Some(map[])
    else if t == "ack" then Some(map[
      "ok" := Some(Bool(true)), "in_reply_to" := Some(Null), "status" := Some(Null), "kind" := Some(Null),
      "topic" := Some(Null), "mailbox" := Some(Null), "count" := Some(Null), "sessions" := Some(Null),
      "asks" := Some(Null), "note" := Some(Null)])
    else if t == "error" then Some(map["error" := None, "ok" := Some(Bool(false)), "in_reply_to" := Some(Null)])
    else if t == "deliver" then Some(map[
      "kind" := Some(Str("tell")), "sender" := Some(Str("")), "topic" := Some(Null), "reply_to" := Some(Null)])
    else if t == "broadcast" then Some(map["sender" := Some(Str("")), "topic" := Some(Str("user"))])
    else if t == "event" then Some(map["event" := Some(Str("")), "name" := Some(Null), "session" := Some(Null)])
    else None
  }

  const BASE: set<string> := {"v", "id", "ts", "type"}

  datatype Msg = Msg(t: string, v: J, id: J, ts: J, fields: map<string, J>)

  /** An instance of its class: a known type with exactly its fields. */
  predicate Instance(m: Msg) {
    SchemaOf(m.t).Some? && m.fields.Keys == SchemaOf(m.t).value.Keys
  }

  /** A dictionary, and whether `from` comes after `sender` in it when both are there. */
  datatype Meta = Meta(entries: map<string, J>, fromLast: bool)

  function PyName(k: string): string { if k == "from" then "sender" else k }

  function WireName(f: string): string { if f == "sender" then "from" else f }

  /** Every class field name is its own Python name, and no base field. */
  predicate PlainSchema(s: Schema) {
    forall f | f in s :: f != "from" && f !in BASE
  }

  lemma SchemasPlain(t: string)
    requires SchemaOf(t).Some?
    ensures PlainSchema(SchemaOf(t).value)
  {}

  // ---- encoding ---------------------------------------------------------------------

  /** All entries before absent values are dropped. */
  function AllEntries(m: Msg): map<string, J> {
    map k | k in (set f | f in m.fields :: WireName(f)) + BASE ::
      if k == "v" then m.v else if k == "id" then m.id else if k == "ts" then m.ts
      else if k == "type" then Str(m.t)
      else if PyName(k) in m.fields then m.fields[PyName(k)] else Null
  }

  /** `to_dict`. */
  function ToDict(m: Msg): Meta {
    var all := AllEntries(m);
    Meta(map k | k in all && all[k] != Null :: all[k], false)
  }

  // ---- parsing ------------------------------------------------------------------------

  /** The value a field gets from the dictionary: under either spelling of
      `sender`, the later one if both are there. */
  function Given(w: Meta, f: string): Option<J> {
    if f == "sender" && "from" in w.entries && (w.fromLast || "sender" !in w.entries) then Some(w.entries["from"])
    else if f in w.entries && f != "from" then Some(w.entries[f])
    else None
  }

  function Get(w: Meta, k: string, default: J): J {
    if k in w.entries then w.entries[k] else default
  }

  /** Fresh id and timestamp, as the dataclass defaults would make them. */
  datatype Defaults = Defaults(id: string, ts: real)

  /** `parse`; None is a ProtocolError. */
  function Parse(w: Meta, d: Defaults): Option<Msg> {
    if "type" !in w.entries || !w.entries["type"].Str? then None
    else
      var t := w.entries["type"].s;
      if SchemaOf(t).None? || Get(w, "v", VERSION) != VERSION then None
      else Build(w, t, SchemaOf(t).value, d)
  }

  /** The instance of a class a dictionary gives: no unknown field, no required field missing. */
  function Build(w: Meta, t: string, schema: Schema, d: Defaults): Option<Msg> {
    if exists k | k in w.entries :: k !in BASE && PyName(k) !in schema then None
    else if exists f | f in schema :: schema[f].None? && Given(w, f).None? then None
    else
      Some(Msg(t, VERSION, Get(w, "id", Str(d.id)), Get(w, "ts", Num(d.ts)),
               map f | f in schema :: if Given(w, f).Some? then Given(w, f).value else schema[f].value))
  }

  // ---- what is accepted, key by key ------------------------------------------------------

  /** A key every message has, a field of the class, or the wire's name for its sender. */
  predicate KnownKey(schema: Schema, k: string) {
    k in {"v", "id", "ts", "type"} || (k == "from" && "sender" in schema) || (k != "from" && k in schema)
  }

  predicate Provided(w: Meta, f: string) {
    f in w.entries || (f == "sender" && "from" in w.entries)
  }

  /** A known type, this version or none, no unknown key, no required field missing. */
  predicate Accepted(w: Meta) {
    && "type" in w.entries && w.entries["type"].Str? && SchemaOf(w.entries["type"].s).Some?
    && ("v" in w.entries ==> w.entries["v"] == Num(1.0))
    && var schema := SchemaOf(w.entries["type"].s).value;
       && (forall k | k in w.entries :: KnownKey(schema, k))
       && (forall f | f in schema && schema[f].None? :: Provided(w, f))
  }

  lemma BuildAccepts(w: Meta, t: string, schema: Schema, d: Defaults)
    requires PlainSchema(schema)
    ensures Build(w, t, schema, d).Some? <==>
      && (forall k | k in w.entries :: KnownKey(schema, k))
      && (forall f | f in schema && schema[f].None? :: Provided(w, f))
  {
    forall k: string
      ensures KnownKey(schema, k) <==> k in BASE || PyName(k) in schema
    {}
    forall f | f in schema
      ensures Provided(w, f) <==> Given(w, f).Some?
    {}
  }

  /** `parse` accepts exactly these. */
  lemma ParseAcceptsIff(w: Meta, d: Defaults)
    ensures Parse(w, d).Some? <==> Accepted(w)
  {
    if "type" in w.entries && w.entries["type"].Str? && SchemaOf(w.entries["type"].s).Some? {
      var t := w.entries["type"].s;
      var schema := SchemaOf(t).value;
      SchemasPlain(t);
      BuildAccepts(w, t, schema, d);
    }
  }

  /** A field's value: what the dictionary gives under its name, for the sender
      under the later of its two names, else the default. */
  predicate FieldIs(w: Meta, schema: Schema, f: string, x: J)
    requires f in schema
  {
    if f == "sender" && "from" in w.entries && ("sender" !in w.entries || w.fromLast) then x == w.entries["from"]
    else if f in w.entries then x == w.entries[f]
    else schema[f] == Some(x)
  }

  lemma BuiltFields(w: Meta, t: string, schema: Schema, d: Defaults)
    requires PlainSchema(schema) && Build(w, t, schema, d).Some?
    ensures var m := Build(w, t, schema, d).value;
      && m.t == t && m.v == Num(1.0)
      && m.id == (if "id" in w.entries then w.entries["id"] else Str(d.id))
      && m.ts == (if "ts" in w.entries then w.entries["ts"] else Num(d.ts))
      && m.fields.Keys == schema.Keys && forall f | f in schema :: FieldIs(w, schema, f, m.fields[f])
  {}

  /** What `parse` makes of what it accepts. */
  lemma ParsedAs(w: Meta, d: Defaults)
    requires Accepted(w)
    ensures Parse(w, d).Some?
    ensures var m := Parse(w, d).value; var schema := SchemaOf(w.entries["type"].s).value;
      && m.t == w.entries["type"].s && m.v == Num(1.0)
      && m.id == (if "id" in w.entries then w.entries["id"] else Str(d.id))
      && m.ts == (if "ts" in w.entries then w.entries["ts"] else Num(d.ts))
      && m.fields.Keys == schema.Keys && forall f | f in schema :: FieldIs(w, schema, f, m.fields[f])
  {
    ParseAcceptsIff(w, d);
    var t := w.entries["type"].s;
    SchemasPlain(t);
    BuiltFields(w, t, SchemaOf(t).value, d);
  }

  /** A send or a delivery that gives no kind is a tell. */
  lemma NoKindIsTell(w: Meta, d: Defaults)
    requires Accepted(w) && w.entries["type"] in {Str("send"), Str("deliver")} && "kind" !in w.entries
    ensures Parse(w, d).Some? && "kind" in Parse(w, d).value.fields
    ensures Parse(w, d).value.fields["kind"] == Str("tell")
  {
    ParsedAs(w, d);
    var schema := SchemaOf(w.entries["type"].s).value;
    assert "kind" in schema && schema["kind"] == Some(Str("tell"));
    assert FieldIs(w, schema, "kind", Parse(w, d).value.fields["kind"]);
  }

  // ---- round trips -----------------------------------------------------------------------

  /** Nothing is absent that its class would fill in or insist on. */
  predicate Typed(m: Msg)
    requires Instance(m)
  {
    TypedBy(m, SchemaOf(m.t).value)
  }

  predicate TypedBy(m: Msg, schema: Schema)
    requires m.fields.Keys == schema.Keys
  {
    m.v == VERSION && m.id != Null && m.ts != Null && NullsDefault(m.fields, schema)
  }

  lemma GivenBack(m: Msg, f: string)
    requires Instance(m) && f in m.fields
    ensures Given(ToDict(m), f) == if m.fields[f] == Null then None else Some(m.fields[f])
  {
    SchemasPlain(m.t);
    var all := AllEntries(m);
    assert WireName(f) in all && PyName(WireName(f)) == f && WireName(f) !in BASE;
    assert all[WireName(f)] == m.fields[f];
    assert "sender" in all ==> PyName("sender") == "sender";
    if f == "sender" {
      assert forall g | g in m.fields :: WireName(g) != "sender";
      assert "sender" !in all;
    }
  }

  lemma NoUnknown(m: Msg)
    requires Instance(m)
    ensures forall k | k in ToDict(m).entries :: k in BASE || PyName(k) in m.fields
  {
    SchemasPlain(m.t);
    forall k | k in ToDict(m).entries && k !in BASE
      ensures PyName(k) in m.fields
    {
      var f :| f in m.fields && WireName(f) == k;
    }
  }

  lemma BaseBack(m: Msg, k: string, default: J)
    requires k in BASE
    ensures var x := if k == "v" then m.v else if k == "id" then m.id else if k == "ts" then m.ts else Str(m.t);
      Get(ToDict(m), k, default) == if x == Null then default else x
  {}

  predicate NullsDefault(fields: map<string, J>, schema: Schema)
    requires fields.Keys == schema.Keys
  {
    forall f | f in fields && fields[f] == Null :: schema[f] == Some(Null)
  }

  /** A dictionary that gives all fields but the null ones builds them all
      exactly if null is the default of those. */
  lemma BuildFields(w: Meta, t: string, schema: Schema, d: Defaults, fields: map<string, J>)
    requires fields.Keys == schema.Keys
    requires forall k | k in w.entries :: k in BASE || PyName(k) in schema
    requires forall f | f in schema :: Given(w, f) == if fields[f] == Null then None else Some(fields[f])
    ensures Build(w, t, schema, d).Some? && Build(w, t, schema, d).value.fields == fields <==>
      NullsDefault(fields, schema)
  {
    var built := Build(w, t, schema, d);
    if built.Some? {
      assert built.value.fields.Keys == fields.Keys;
      assert built.value.fields == fields <==> forall f | f in schema :: built.value.fields[f] == fields[f];
    }
  }

  lemma BuildTyped(m: Msg, schema: Schema, d: Defaults)
    requires m.fields.Keys == schema.Keys
    requires forall k | k in ToDict(m).entries :: k in BASE || PyName(k) in schema
    requires forall f | f in schema :: Given(ToDict(m), f) == if m.fields[f] == Null then None else Some(m.fields[f])
    ensures Build(ToDict(m), m.t, schema, d) == Some(m) && m.v == VERSION <==> TypedBy(m, schema)
  {
    BaseBack(m, "id", Str(d.id)); BaseBack(m, "ts", Num(d.ts));
    BuildFields(ToDict(m), m.t, schema, d, m.fields);
  }

  /** Encoding and parsing gives an instance back, id, timestamp, sender and
      all, exactly when it is typed. */
  lemma RoundTrip(m: Msg, d: Defaults)
    requires Instance(m)
    ensures Parse(ToDict(m), d) == Some(m) <==> Typed(m)
  {
    var w := ToDict(m);
    var schema := SchemaOf(m.t).value;
    BaseBack(m, "type", Null); BaseBack(m, "v", VERSION);
    BaseBack(m, "id", Str(d.id)); BaseBack(m, "ts", Num(d.ts));
    NoUnknown(m);
    assert w.entries["type"] == Str(m.t);
    forall f | f in schema
      ensures Given(w, f) == if m.fields[f] == Null then None else Some(m.fields[f])
    {
      GivenBack(m, f);
    }
    BuildTyped(m, schema, d);
  }

  /** The dictionary gives null neither for id or ts nor for a field whose
      class does not default it to null. */
  predicate NoStrayNull(w: Meta, schema: Schema) {
    && Get(w, "id", Str("")) != Null && Get(w, "ts", Num(0.0)) != Null
    && forall f | f in schema && Given(w, f) == Some(Null) :: schema[f] == Some(Null)
  }

  /** Re-encoding what was parsed and parsing again changes nothing, exactly
      when the dictionary holds no stray null. */
  lemma ReparseIsFixed(w: Meta, d: Defaults, again: Defaults)
    requires Parse(w, d).Some?
    ensures Instance(Parse(w, d).value)
    ensures Parse(ToDict(Parse(w, d).value), again) == Parse(w, d)
       <==> NoStrayNull(w, SchemaOf(Parse(w, d).value.t).value)
  {
    var m := Parse(w, d).value;
    var schema := SchemaOf(m.t).value;
    assert m.fields.Keys == schema.Keys;
    RoundTrip(m, again);
    forall f | f in schema
      ensures (m.fields[f] == Null ==> schema[f] == Some(Null)) <==>
        (Given(w, f) == Some(Null) ==> schema[f] == Some(Null))
    {}
  }

  /** A send with an explicit null kind parses, but reads back as a tell. */
  lemma NullKindIsNotFixed(d: Defaults)
    ensures var w := Meta(map["type" := Str("send"), "id" := Str("m"), "ts" := Num(1.0), "kind" := Null], false);
      Parse(w, d).Some? && Parse(ToDict(Parse(w, d).value), d) != Parse(w, d)
  {
    var w := Meta(map["type" := Str("send"), "id" := Str("m"), "ts" := Num(1.0), "kind" := Null], false);
    assert w.entries["type"] == Str("send");
    var schema := SchemaOf("send").value;
    assert forall k | k in w.entries :: k in {"type", "id", "ts", "kind"};
    assert PyName("kind") in schema && "kind" in schema && Given(w, "kind") == Some(Null);
    assert Parse(w, d).Some?;
    ReparseIsFixed(w, d, d);
  }

  // ---- parse, as the loop it is ------------------------------------------------------------

  method ParseMeta(w: Meta, d: Defaults) returns (m: Option<Msg>)
    ensures m == Parse(w, d)
  {
    if "type" !in w.entries || !w.entries["type"].Str? {
      return None;
    }
    var t := w.entries["type"].s;
    var found := SchemaOf(t);
    if found.None? || Get(w, "v", VERSION) != VERSION {
      return None;
    }
    SchemasPlain(t);
    m := BuildMsg(w, t, found.value, d);
  }

  method BuildMsg(w: Meta, t: string, schema: Schema, d: Defaults) returns (m: Option<Msg>)
    requires PlainSchema(schema)
    ensures m == Build(w, t, schema, d)
  {
    var kwargs, unknown := Collect(w, schema);
    if unknown != {} {
      return None;
    }
    if exists f | f in schema :: schema[f].None? && f !in kwargs {
      return None;
    }
    var fields := map f | f in schema :: if f in kwargs then kwargs[f] else schema[f].value;
    m := Some(Msg(t, VERSION, Get(w, "id", Str(d.id)), Get(w, "ts", Num(d.ts)), fields));
    assert Build(w, t, schema, d).Some?;
    assert fields == Build(w, t, schema, d).value.fields;
  }

  /** The loop over the items, `from` and `sender` in the dictionary's order. */
  method Collect(w: Meta, schema: Schema) returns (kwargs: map<string, J>, unknown: set<string>)
    requires PlainSchema(schema)
    ensures unknown == {} <==> forall k | k in w.entries :: k in BASE || PyName(k) in schema
    ensures forall f :: f in kwargs <==> f in schema && Given(w, f).Some?
    ensures forall f | f in kwargs :: kwargs[f] == Given(w, f).value
  {
    kwargs, unknown := map[], {};
    var rest := w.entries.Keys;
    while rest != {}
      invariant rest <= w.entries.Keys
      invariant unknown == {} <==> forall k | k in w.entries && k !in rest :: k in BASE || PyName(k) in schema
      invariant forall f :: f in kwargs <==> f in schema && Given(Without(w, rest), f).Some?
      invariant forall f | f in kwargs :: kwargs[f] == Given(Without(w, rest), f).value
      invariant "sender" in rest && "from" in w.entries && w.fromLast ==> "from" in rest
      invariant "from" in rest && "sender" in w.entries && !w.fromLast ==> "sender" in rest
      decreases rest
    {
      ghost var any :| any in rest;
      ghost var other := if any == "from" then "sender" else "from";
      assert Next(w, rest, any) || (other in rest && Next(w, rest, other));
      var k :| k in rest && Next(w, rest, k);
      GivenStep(w, rest, k, schema);
      rest := rest - {k};
      if k !in BASE {
        if PyName(k) in schema {
          kwargs := kwargs[PyName(k) := w.entries[k]];
        } else {
          unknown := unknown + {k};
        }
      }
    }
    assert Without(w, {}).entries == w.entries;
  }

  predicate Next(w: Meta, rest: set<string>, k: string) {
    !(w.fromLast && k == "from" && "sender" in rest) && !(!w.fromLast && k == "sender" && "from" in rest)
  }

  function Without(w: Meta, rest: set<string>): Meta {
    w.(entries := w.entries - rest)
  }

  lemma GivenStep(w: Meta, rest: set<string>, k: string, schema: Schema)
    requires rest <= w.entries.Keys && k in rest && Next(w, rest, k) && PlainSchema(schema)
    requires "sender" in rest && "from" in w.entries && w.fromLast ==> "from" in rest
    requires "from" in rest && "sender" in w.entries && !w.fromLast ==> "sender" in rest
    ensures forall f | f in schema ::
      Given(Without(w, rest - {k}), f) == if PyName(k) == f then Some(w.entries[k]) else Given(Without(w, rest), f)
  {
    var after := Without(w, rest - {k});
    assert after.entries.Keys == Without(w, rest).entries.Keys + {k};
  }
}

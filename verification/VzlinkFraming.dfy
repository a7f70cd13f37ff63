// Newline-delimited framing (pkgs/vzlink/src/vzlink/protocol.py). The JSON
// codec is a parameter: decoding answers None where json.loads raises or the
// value is no object.

module VzlinkFraming {
  import opened Prelude

  const MAX_LINE := 1048576
  const NEWLINE: byte := 10

  datatype Outcome<Obj> = Message(obj: Obj) | PeerClosed | ProtocolError

  function DecodeLine<Obj>(line: seq<byte>, decode: seq<byte> -> Option<Obj>): Outcome<Obj> {
    if |line| > MAX_LINE then ProtocolError
    else match decode(line)
      case None => ProtocolError
      case Some(obj) => Message(obj)
  }

  /** Where the first newline is, or the length if there is none. */
  function FirstNewline(s: seq<byte>): (n: nat)
    ensures n <= |s| && (n < |s| ==> s[n] == NEWLINE) && NEWLINE !in s[..n] && (n == |s| <==> NEWLINE !in s)
  {
    if s == [] || s[0] == NEWLINE then 0
    else
      assert s == [s[0]] + s[1..];
      1 + FirstNewline(s[1..])
  }

  /** What a whole byte stream means, chunks forgotten. */
  function Meaning<Obj>(stream: seq<byte>, decode: seq<byte> -> Option<Obj>): Outcome<Obj> {
    if stream == [] then PeerClosed
    else if NEWLINE !in stream then ProtocolError
    else DecodeLine(stream[..FirstNewline(stream)], decode)
  }

  lemma FirstNewlineUnique(s: seq<byte>, n: nat)
    requires n < |s| && s[n] == NEWLINE && NEWLINE !in s[..n]
    ensures FirstNewline(s) == n
  {
    var m := FirstNewline(s);
    assert NEWLINE in s;
    assert forall i | 0 <= i < n :: s[i] == s[..n][i];
    assert forall i | 0 <= i < m :: s[i] == s[..m][i];
  }

  /** A stream that begins with `buf`, which already holds a newline or is too
      long without one, means what `buf` alone decides. */
  lemma MeaningDecided<Obj>(buf: seq<byte>, rest: seq<byte>, decode: seq<byte> -> Option<Obj>)
    ensures NEWLINE in buf ==> Meaning(buf + rest, decode) == DecodeLine(buf[..FirstNewline(buf)], decode)
    ensures NEWLINE !in buf && |buf| > MAX_LINE ==> Meaning(buf + rest, decode) == ProtocolError
  {
    var s := buf + rest;
    if NEWLINE in buf {
      var n := FirstNewline(buf);
      assert s[..n] == buf[..n];
      FirstNewlineUnique(s, n);
    } else if |buf| > MAX_LINE && NEWLINE in s {
      var n := FirstNewline(s);
      assert s[n] == NEWLINE;
      assert n >= |buf|;
    }
  }

  /** The first line ends at n and fits. */
  predicate FirstLine(stream: seq<byte>, n: nat) {
    n < |stream| && n <= 1048576 && stream[n] == 10 && forall i | 0 <= i < n :: stream[i] != 10
  }

  /** A stream is a message exactly if its first line fits and decodes; it is a
      closed peer exactly if it is empty, and an error otherwise. */
  lemma OutcomesMean<Obj(!new)>(stream: seq<byte>, decode: seq<byte> -> Option<Obj>)
    ensures Meaning(stream, decode) == PeerClosed <==> stream == []
    ensures forall obj ::
      Meaning(stream, decode) == Message(obj) <==>
      exists n: nat :: FirstLine(stream, n) && decode(stream[..n]) == Some(obj)
  {
    forall n: nat | FirstLine(stream, n)
      ensures FirstNewline(stream) == n && NEWLINE in stream
    {
      assert NEWLINE !in stream[..n];
      FirstNewlineUnique(stream, n);
    }
    if NEWLINE in stream && FirstNewline(stream) <= MAX_LINE {
      var n := FirstNewline(stream);
      assert forall i | 0 <= i < n :: stream[i] == stream[..n][i];
      assert FirstLine(stream, n);
    }
  }

  lemma {:induction false} ConcatSplit<T>(parts: seq<seq<T>>, i: nat)
    requires i < |parts|
    ensures Concat(parts[..i]) + parts[i] == Concat(parts[..i + 1])
    ensures Concat(parts[..i + 1]) + Concat(parts[i + 1..]) == Concat(parts)
    decreases |parts| - i
  {
    assert parts[..i + 1] == parts[..i] + [parts[i]];
    ConcatSnoc(parts[..i], parts[i]);
    ConcatJoin(parts[..i + 1], parts[i + 1..]);
    assert parts[..i + 1] + parts[i + 1..] == parts;
  }

  lemma {:induction false} ConcatJoin<T>(a: seq<seq<T>>, b: seq<seq<T>>)
    ensures Concat(a + b) == Concat(a) + Concat(b)
  {
    if a == [] {
      assert a + b == b;
    } else {
      assert (a + b)[1..] == a[1..] + b;
      ConcatJoin(a[1..], b);
    }
  }

  lemma {:induction false} NonEmptyConcat<T>(parts: seq<seq<T>>)
    requires forall i | 0 <= i < |parts| :: parts[i] != []
    ensures Concat(parts) == [] <==> parts == []
  {}

  /** `read_message`: for every stream and every split of it into non-empty
      chunks the outcome is the stream's meaning; in particular MAX_LINE fires
      only for a line that is too long. */
  method ReadMessage<Obj>(chunks: seq<seq<byte>>, decode: seq<byte> -> Option<Obj>) returns (r: Outcome<Obj>)
    requires forall i | 0 <= i < |chunks| :: chunks[i] != []
    ensures r == Meaning(Concat(chunks), decode)
  {
    var buf: seq<byte> := [];
    var i := 0;
    NonEmptyConcat(chunks);
    while true
      invariant 0 <= i <= |chunks| && buf == Concat(chunks[..i])
      invariant buf == [] <==> i == 0
      invariant NEWLINE !in buf && |buf| <= MAX_LINE
      decreases |chunks| - i
    {
      if i == |chunks| {
        assert chunks[..i] == chunks;
        if buf == [] {
          return PeerClosed;
        }
        return ProtocolError;
      }
      ConcatSplit(chunks, i);
      buf := buf + chunks[i];
      i := i + 1;
      MeaningDecided(buf, Concat(chunks[i..]), decode);
      if NEWLINE in buf {
        return DecodeLine(buf[..FirstNewline(buf)], decode);
      }
      if |buf| > MAX_LINE {
        return ProtocolError;
      }
    }
  }

  // ---- sending and reading back ---------------------------------------------------

  /** The laws of the JSON codec the framing leans on: what is written reads
      back, and holds no raw newline (control characters are escaped, section 7
      of RFC 8259). */
  ghost predicate Codec<Obj(!new)>(json: Obj -> seq<byte>, decode: seq<byte> -> Option<Obj>) {
    forall obj :: decode(json(obj)) == Some(obj) && NEWLINE !in json(obj)
  }

  function Encode<Obj>(obj: Obj, json: Obj -> seq<byte>): seq<byte> {
    json(obj) + [NEWLINE]
  }

  /** Whatever follows it and however it is cut, an encoded message reads back
      as itself if it fits in a line, and is refused if it does not. */
  lemma EncodedReadsBack<Obj(!new)>(
    obj: Obj, trailing: seq<byte>, json: Obj -> seq<byte>, decode: seq<byte> -> Option<Obj>)
    requires Codec(json, decode)
    ensures Meaning(Encode(obj, json) + trailing, decode)
         == if |json(obj)| <= MAX_LINE then Message(obj) else ProtocolError
  {
    var stream := Encode(obj, json) + trailing;
    var n := |json(obj)|;
    assert stream[..n] == json(obj) && stream[n] == NEWLINE;
    FirstNewlineUnique(stream, n);
  }
}

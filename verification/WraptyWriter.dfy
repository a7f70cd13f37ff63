// The pty write queue (pkgs/wrapty/src/wrapty/wrapper.py): a non-blocking
// descriptor that takes part of what it is given, or nothing, or fails.

module WraptyWriter {
  import opened Prelude

  /** What os.write does: take up to `room` bytes, would block, or fail. */
  datatype WriteResult = Room(room: nat) | WouldBlock | Fatal

  datatype Op =
    | Write(data: seq<byte>, result: WriteResult)
    | Writable(result: WriteResult)  // the event loop's writer callback

  /** `accepted`: what the descriptor took since the last fatal error. */
  datatype Queue = Queue(buffer: seq<byte>, registered: bool, accepted: seq<byte>)

  const Empty := Queue([], false, [])

  function Min(a: nat, b: nat): nat { if a < b then a else b }

  function Unregistered(q: Queue): Queue {
    if q.buffer == [] then q.(registered := false) else q
  }

  /** `_flush_master_buffer`. */
  function Flush(q: Queue, r: WriteResult): Queue {
    match r
    case WouldBlock => q
    case Fatal => Unregistered(q.(buffer := [], accepted := []))
    case Room(room) =>
      var n := Min(room, |q.buffer|);
      Unregistered(q.(buffer := q.buffer[n..], accepted := q.accepted + q.buffer[..n]))
  }

  /** `write_master`. */
  function WriteMaster(q: Queue, data: seq<byte>, r: WriteResult): Queue {
    var flushed := Flush(q.(buffer := q.buffer + data), r);
    if flushed.buffer != [] then flushed.(registered := true) else flushed
  }

  function Run(ops: seq<Op>): Queue {
    if ops == [] then Empty
    else
      var before := Run(ops[..|ops| - 1]);
      match ops[|ops| - 1]
      case Write(data, r) => WriteMaster(before, data, r)
      case Writable(r) => Flush(before, r)
  }

  /** All arguments of `write_master` since the last fatal error, in order. */
  function Written(ops: seq<Op>): seq<byte> {
    if ops == [] then []
    else
      var last := ops[|ops| - 1];
      if last.result == Fatal then []
      else Written(ops[..|ops| - 1]) + if last.Write? then last.data else []
  }

  lemma FlushKeeps(q: Queue, r: WriteResult)
    ensures r != Fatal ==> Flush(q, r).accepted + Flush(q, r).buffer == q.accepted + q.buffer
    ensures r == Fatal ==> Flush(q, r).accepted + Flush(q, r).buffer == []
  {
    if r.Room? {
      var n := Min(r.room, |q.buffer|);
      assert q.buffer == q.buffer[..n] + q.buffer[n..];
      assert q.accepted + q.buffer[..n] + q.buffer[n..] == q.accepted + (q.buffer[..n] + q.buffer[n..]);
    }
  }

  /** The descriptor takes the first bytes of the buffer, as many as it has room for. */
  lemma FlushTakes(q: Queue, room: nat)
    ensures var q' := Flush(q, Room(room)); var n := if room < |q.buffer| then room else |q.buffer|;
      q'.accepted == q.accepted + q.buffer[..n] && q'.buffer == q.buffer[n..]
    ensures Flush(q, WouldBlock) == q
  {}

  lemma WriteKeeps(q: Queue, data: seq<byte>, r: WriteResult)
    ensures var q' := WriteMaster(q, data, r);
      q'.accepted + q'.buffer == if r == Fatal then [] else q.accepted + q.buffer + data
  {
    FlushKeeps(q.(buffer := q.buffer + data), r);
    assert q.accepted + (q.buffer + data) == q.accepted + q.buffer + data;
  }

  /** The queue is an unbounded FIFO whatever the descriptor does: accepted
      bytes followed by the buffer are all bytes written, and the callback is
      registered exactly while something waits. */
  lemma {:induction false} RefinesFifo(ops: seq<Op>)
    ensures Run(ops).accepted + Run(ops).buffer == Written(ops)
    ensures Run(ops).registered <==> Run(ops).buffer != []
  {
    if ops != [] {
      var init, last := ops[..|ops| - 1], ops[|ops| - 1];
      RefinesFifo(init);
      match last
      case Write(data, r) => WriteKeeps(Run(init), data, r);
      case Writable(r) =>
        FlushKeeps(Run(init), r);
        assert Written(init) + [] == Written(init);
    }
  }

  class MasterWriter {
    var buffer: seq<byte>
    var registered: bool
    ghost var accepted: seq<byte>

    ghost function State(): Queue
      reads this
    {
      Queue(buffer, registered, accepted)
    }

    constructor ()
      ensures State() == Empty
    {
      buffer, registered, accepted := [], false, [];
    }

    method FlushBuffer(r: WriteResult)
      modifies this
      ensures State() == Flush(old(State()), r)
    {
      match r {
        case WouldBlock => return;
        case Fatal =>
          buffer := [];
          accepted := [];
        case Room(room) =>
          var n := Min(room, |buffer|);
          accepted := accepted + buffer[..n];
          buffer := buffer[n..];
      }
      if buffer == [] && registered {
        registered := false;
      }
    }

    method WriteBytes(data: seq<byte>, r: WriteResult)
      modifies this
      ensures State() == WriteMaster(old(State()), data, r)
    {
      buffer := buffer + data;
      FlushBuffer(r);
      if buffer != [] && !registered {
        registered := true;
      }
    }

    /** `_type_and_submit` while nobody else types: small chunks, then Enter.
        Without a fatal error the text joins the queue whole and in order. */
    method TypeAndSubmit(text: seq<byte>, chunkSize: nat, enter: bool, results: nat -> WriteResult)
      requires chunkSize > 0 && forall i :: results(i) != Fatal
      modifies this
      ensures accepted + buffer == old(accepted + buffer) + text + if enter then [13] else []
    {
      var i, k := 0, 0;
      while i < |text|
        invariant 0 <= i <= |text|
        invariant accepted + buffer == old(accepted + buffer) + text[..i]
        decreases |text| - i
      {
        var next := Min(i + chunkSize, |text|);
        WriteKeeps(State(), text[i..next], results(k));
        assert text[..next] == text[..i] + text[i..next];
        assert old(accepted + buffer) + text[..i] + text[i..next] == old(accepted + buffer) + text[..next];
        WriteBytes(text[i..next], results(k));
        i, k := next, k + 1;
      }
      assert text[..i] == text;
      if enter {
        WriteKeeps(State(), [13], results(k));
        WriteBytes([13], results(k));
      }
    }
  }
}

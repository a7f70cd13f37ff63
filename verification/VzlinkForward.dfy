// The full-duplex relay (pkgs/vzlink/src/vzlink/forward.py): two copy tasks
// over two streams, interleaved at every await.

module VzlinkForward {
  import opened Prelude

  datatype Pc =
    | Receiving                                 // awaiting src.receive
    | Sending(chunk: seq<byte>, rest: seq<byte>) // awaiting dst.send(chunk); `rest` is not out yet
    | SendingEof                                // awaiting dst.send_eof
    | Finished                                  // returned
    | Failed                                    // raised a stream error
    | Cancelled                                 // the other task raised

  /** One direction: all the source will deliver before its EOF, how much of it
      was read, what the destination got, and this direction's byte counter. */
  datatype Dir = Dir(source: seq<byte>, read: nat, sent: seq<byte>, counter: nat, eofSent: bool, pc: Pc)

  function Start(source: seq<byte>): Dir {
    Dir(source, 0, [], 0, false, Receiving)
  }

  datatype Event =
    | Received(n: nat)  // a chunk of n bytes
    | ReceivedEof
    | Wrote(n: nat)     // dst.send has moved n more bytes
    | EofDone(ok: bool) // send_eof returned, or raised a stream error (swallowed)
    | Raised            // receive or send raised
    | Cancel

  predicate Can(d: Dir, e: Event) {
    match e
    case Received(n) => d.pc == Receiving && 0 < n && d.read + n <= |d.source|
    case ReceivedEof => d.pc == Receiving && d.read == |d.source|
    case Wrote(n) => d.pc.Sending? && 0 < n <= |d.pc.rest|
    case EofDone(_) => d.pc == SendingEof
    case Raised => d.pc == Receiving || d.pc.Sending?
    case Cancel => !Over(d)
  }

  predicate Over(d: Dir) {
    d.pc == Finished || d.pc == Failed || d.pc == Cancelled
  }

  /** One step of a copy task. The counter moves when a whole chunk is out. */
  function Step(d: Dir, e: Event): Dir
    requires Can(d, e)
  {
    match e
    case Received(n) =>
      var chunk := d.source[d.read..d.read + n];
      d.(read := d.read + n, pc := Sending(chunk, chunk))
    case ReceivedEof => d.(pc := SendingEof)
    case Wrote(n) =>
      var out := d.(sent := d.sent + d.pc.rest[..n]);
      if n < |d.pc.rest| then out.(pc := Sending(d.pc.chunk, d.pc.rest[n..]))
      else out.(pc := Receiving, counter := d.counter + |d.pc.chunk|)
    case EofDone(ok) => d.(pc := Finished, eofSent := ok)
    case Raised => d.(pc := Failed)
    case Cancel => d.(pc := Cancelled)
  }

  /** The destination has a prefix of what was read, all of it but the unsent
      rest of the chunk in hand; EOF goes out only after everything. */
  ghost predicate Faithful(d: Dir) {
    && d.counter <= |d.sent| <= d.read <= |d.source|
    && d.sent == d.source[..|d.sent|]
    && (d.pc.Sending? ==>
          && d.pc.rest == d.source[|d.sent|..d.read] && 0 < |d.pc.rest| <= |d.pc.chunk|
          && d.counter + |d.pc.chunk| == d.read)
    && (d.pc == Receiving ==> |d.sent| == d.read == d.counter)
    && (d.pc == SendingEof || d.pc == Finished ==> d.sent == d.source && d.counter == |d.sent|)
    && (d.eofSent ==> d.pc == Finished)
  }

  lemma StepFaithful(d: Dir, e: Event)
    requires Faithful(d) && Can(d, e)
    ensures Faithful(Step(d, e))
    ensures Step(d, e).source == d.source && d.sent <= Step(d, e).sent
  {
    if e.Wrote? {
      var d' := Step(d, e);
      assert d.pc.rest[..e.n] == d.source[|d.sent|..|d.sent| + e.n];
      assert d.source[..|d.sent|] + d.source[|d.sent|..|d.sent| + e.n] == d.source[..|d.sent| + e.n];
    }
  }

  // ---- both directions, any interleaving -----------------------------------------

  datatype EndedBy = Eof | Error

  datatype Relay = Relay(aToB: Dir, bToA: Dir, ended: Option<EndedBy>)

  datatype Label = A(event: Event) | B(event: Event) | Close

  /** A raise in one task cancels the other; the group ends when both are over. */
  predicate Enabled(r: Relay, l: Label) {
    && r.ended.None?
    && match l
       case A(e) => Can(r.aToB, e) && (e == Cancel ==> r.bToA.pc == Failed)
       case B(e) => Can(r.bToA, e) && (e == Cancel ==> r.aToB.pc == Failed)
       case Close => Over(r.aToB) && Over(r.bToA)
  }

  function Next(r: Relay, l: Label): Relay
    requires Enabled(r, l)
  {
    match l
    case A(e) => r.(aToB := Step(r.aToB, e))
    case B(e) => r.(bToA := Step(r.bToA, e))
    case Close => r.(ended := Some(if r.aToB.pc == Failed || r.bToA.pc == Failed then Error else Eof))
  }

  /** The relay after a run of steps, or None where a step cannot happen. */
  function Run(r: Relay, labels: seq<Label>): Option<Relay> {
    if labels == [] then Some(r)
    else match Run(r, labels[..|labels| - 1])
      case None => None
      case Some(before) =>
        var l := labels[|labels| - 1];
        if Enabled(before, l) then Some(Next(before, l)) else None
  }

  function Opened(a: seq<byte>, b: seq<byte>): Relay {
    Relay(Start(a), Start(b), None)
  }

  ghost predicate Good(r: Relay, a: seq<byte>, b: seq<byte>) {
    && Faithful(r.aToB) && Faithful(r.bToA) && r.aToB.source == a && r.bToA.source == b
    && (r.aToB.pc == Cancelled ==> r.bToA.pc == Failed) && (r.bToA.pc == Cancelled ==> r.aToB.pc == Failed)
    && (r.ended.Some? ==> Over(r.aToB) && Over(r.bToA)
                          && (r.ended.value == Eof <==> r.aToB.pc == Finished && r.bToA.pc == Finished))
  }

  lemma {:induction false} RunGood(a: seq<byte>, b: seq<byte>, labels: seq<Label>)
    requires Run(Opened(a, b), labels).Some?
    ensures Good(Run(Opened(a, b), labels).value, a, b)
  {
    if labels != [] {
      RunGood(a, b, labels[..|labels| - 1]);
      var before := Run(Opened(a, b), labels[..|labels| - 1]).value;
      match labels[|labels| - 1]
      case A(e) => StepFaithful(before.aToB, e);
      case B(e) => StepFaithful(before.bToA, e);
      case Close =>
    }
  }

  /** At every moment of every interleaving the bytes sent to each side are a
      prefix of the bytes read from the other, EOF follows only all of them, and
      no counter runs ahead of the bytes moved. */
  lemma PairOfChannels(a: seq<byte>, b: seq<byte>, labels: seq<Label>)
    requires Run(Opened(a, b), labels).Some?
    ensures var r := Run(Opened(a, b), labels).value;
      && r.aToB.read <= |a| && r.bToA.read <= |b|
      && r.aToB.sent <= a[..r.aToB.read] && r.bToA.sent <= b[..r.bToA.read]
      && (r.aToB.eofSent ==> r.aToB.sent == a) && (r.bToA.eofSent ==> r.bToA.sent == b)
      && r.aToB.counter <= |r.aToB.sent| && r.bToA.counter <= |r.bToA.sent|
  {
    RunGood(a, b, labels);
  }

  /** An EOF ending means both sides were copied whole and both counters equal
      the bytes moved; an error ending means a copy task raised. */
  lemma EofEnding(a: seq<byte>, b: seq<byte>, labels: seq<Label>)
    requires Run(Opened(a, b), labels).Some? && Run(Opened(a, b), labels).value.ended.Some?
    ensures var r := Run(Opened(a, b), labels).value;
      if r.ended == Some(Eof) then
        && r.aToB.sent == a && r.bToA.sent == b && r.aToB.counter == |a| && r.bToA.counter == |b|
      else r.aToB.pc == Failed || r.bToA.pc == Failed
  {
    RunGood(a, b, labels);
  }

  /** One of the two directions, and its label. */
  function Direction(r: Relay, up: bool): Dir {
    if up then r.aToB else r.bToA
  }

  function Of(up: bool, e: Event): Label {
    if up then A(e) else B(e)
  }

  lemma StepEof(d: Dir, e: Event)
    requires Faithful(d) && Can(d, e)
    ensures Step(d, e).eofSent <==> d.eofSent || e == EofDone(true)
    ensures Step(d, e).pc == Finished <==> e.EofDone?
  {}

  /** A copy task returns exactly when it has tried to pass its EOF on, and its
      EOF is passed on exactly if that went well. */
  lemma {:induction false} EofPassedOn(a: seq<byte>, b: seq<byte>, labels: seq<Label>, up: bool)
    requires Run(Opened(a, b), labels).Some?
    ensures var d := Direction(Run(Opened(a, b), labels).value, up);
      && (d.eofSent <==> Of(up, EofDone(true)) in labels)
      && (d.pc == Finished <==> Of(up, EofDone(true)) in labels || Of(up, EofDone(false)) in labels)
  {
    if labels != [] {
      var init, last := labels[..|labels| - 1], labels[|labels| - 1];
      assert labels == init + [last];
      EofPassedOn(a, b, init, up);
      RunGood(a, b, init);
      var d := Direction(Run(Opened(a, b), init).value, up);
      if !last.Close? && last == Of(up, last.event) {
        StepEof(d, last.event);
        assert Can(d, last.event) ==> d.pc != Finished;
      }
    }
  }

  /** How many steps a copy task has left at most. */
  function Work(d: Dir): nat
    requires d.read <= |d.source|
  {
    var ahead := 2 * (|d.source| - d.read);
    match d.pc
    case Receiving => ahead + 2
    case Sending(_, rest) => ahead + |rest| + 2
    case SendingEof => 1
    case _ => 0
  }

  lemma StepWork(d: Dir, e: Event)
    requires Faithful(d) && Can(d, e) && e != Raised && e != Cancel
    ensures Faithful(Step(d, e)) && Work(Step(d, e)) < Work(d) <= 2 * |d.source| + 2
  {
    StepFaithful(d, e);
  }

  /** A step a live, faithful direction can always take. */
  ghost function Onward(d: Dir): (e: Event)
    requires Faithful(d) && !Over(d)
    ensures Can(d, e) && e != Raised && e != Cancel
  {
    match d.pc
    case Receiving => if d.read < |d.source| then Received(1) else ReceivedEof
    case Sending(_, rest) => Wrote(|rest|)
    case SendingEof => EofDone(true)
  }

  /** A step of one direction in which its streams do not raise. */
  predicate Undisturbed(l: Label, up: bool) {
    !l.Close? && l == Of(up, l.event) && l.event != Raised
  }

  /** The other direction is over by EOF, this one is faithful to its source. */
  ghost predicate Surviving(r: Relay, up: bool, source: seq<byte>) {
    && Direction(r, !up).pc == Finished && r.ended.None?
    && Faithful(Direction(r, up)) && Direction(r, up).source == source
    && Direction(r, up).pc != Failed && Direction(r, up).pc != Cancelled
  }

  lemma SurvivorStep(r: Relay, up: bool, source: seq<byte>, l: Label)
    requires Surviving(r, up, source) && Enabled(r, l) && Undisturbed(l, up)
    ensures Surviving(Next(r, l), up, source)
    ensures Work(Direction(Next(r, l), up)) < Work(Direction(r, up))
  {
    StepWork(Direction(r, up), l.event);
  }

  lemma {:induction false} SurvivorRuns(r: Relay, up: bool, source: seq<byte>, more: seq<Label>)
    requires Surviving(r, up, source) && Run(r, more).Some? && forall l | l in more :: Undisturbed(l, up)
    ensures var r' := Run(r, more).value;
      Surviving(r', up, source) && Work(Direction(r', up)) + |more| <= Work(Direction(r, up))
  {
    if more != [] {
      var init, last := more[..|more| - 1], more[|more| - 1];
      assert last in more && forall l | l in init :: l in more;
      SurvivorRuns(r, up, source, init);
      SurvivorStep(Run(r, init).value, up, source, last);
    }
  }

  /** One side's EOF does not stop the other direction. After it, as long as its
      streams do not raise, that direction is done after a bounded number of
      steps, nothing from outside ends it before, and it is stuck only when its
      whole source is sent and counted. */
  lemma HalfClose(a: seq<byte>, b: seq<byte>, labels: seq<Label>, up: bool, more: seq<Label>)
    requires Run(Opened(a, b), labels).Some? && Run(Run(Opened(a, b), labels).value, more).Some?
    requires Direction(Run(Opened(a, b), labels).value, !up).pc == Finished
    requires !Over(Direction(Run(Opened(a, b), labels).value, up)) && forall l | l in more :: Undisturbed(l, up)
    ensures var source := if up then a else b;
      var r' := Run(Run(Opened(a, b), labels).value, more).value;
      var d' := Direction(r', up);
      && |more| <= 2 * |source| + 2
      && (d'.pc == Finished || exists l :: Undisturbed(l, up) && Enabled(r', l))
      && (d'.pc == Finished ==> d'.sent == source && d'.counter == |source|)
      && !Enabled(r', Of(up, Cancel)) && (Enabled(r', Close) ==> d'.pc == Finished)
  {
    RunGood(a, b, labels);
    var r := Run(Opened(a, b), labels).value;
    var source := if up then a else b;
    SurvivorRuns(r, up, source, more);
    var r' := Run(r, more).value;
    var d' := Direction(r', up);
    StepWork(Direction(r, up), Onward(Direction(r, up)));
    if d'.pc != Finished {
      assert Undisturbed(Of(up, Onward(d')), up) && Enabled(r', Of(up, Onward(d')));
    }
  }

  // ---- one task as the loop it is --------------------------------------------------

  class ForwardStats {
    var aToB: nat
    var bToA: nat

    constructor ()
      ensures aToB == 0 && bToA == 0
    {
      aToB, bToA := 0, 0;
    }
  }

  class CopyTask {
    const stats: ForwardStats
    const upward: bool  // which of the two counters is this task's
    const source: seq<byte>
    var read: nat
    var sent: seq<byte>
    var eofSent: bool
    var pc: Pc

    ghost function State(): Dir
      reads this, stats
    {
      Dir(source, read, sent, if upward then stats.aToB else stats.bToA, eofSent, pc)
    }

    ghost function OtherCounter(): nat
      reads stats
    {
      if upward then stats.bToA else stats.aToB
    }

    constructor (source: seq<byte>, stats: ForwardStats, upward: bool)
      requires stats.aToB == stats.bToA == 0
      ensures State() == Start(source) && this.stats == stats && this.upward == upward
    {
      this.source, this.stats, this.upward := source, stats, upward;
      read, sent, eofSent, pc := 0, [], false, Receiving;
    }

    /** What the task does when its await comes back. */
    method Resume(e: Event)
      requires Can(State(), e)
      modifies this, stats
      ensures State() == Step(old(State()), e) && OtherCounter() == old(OtherCounter())
    {
      match e {
        case Received(n) =>
          var chunk := source[read..read + n];
          read, pc := read + n, Sending(chunk, chunk);
        case ReceivedEof => pc := SendingEof;
        case Wrote(n) =>
          sent := sent + pc.rest[..n];
          if n < |pc.rest| {
            pc := Sending(pc.chunk, pc.rest[n..]);
          } else {
            if upward {
              stats.aToB := stats.aToB + |pc.chunk|;
            } else {
              stats.bToA := stats.bToA + |pc.chunk|;
            }
            pc := Receiving;
          }
        case EofDone(ok) => pc, eofSent := Finished, ok;
        case Raised => pc := Failed;
        case Cancel => pc := Cancelled;
      }
    }

    /** `_copy` left alone: chunk after chunk, of any sizes, then EOF. */
    method Copy(sizes: seq<nat>, eofOk: bool)
      requires State() == Start(source)
      requires forall i | 0 <= i < |sizes| :: sizes[i] > 0
      requires Total(sizes) == |source|
      modifies this, stats
      ensures sent == source && pc == Finished && eofSent == eofOk
      ensures State().counter == |source| && OtherCounter() == old(OtherCounter())
    {
      var i := 0;
      while i < |sizes|
        invariant 0 <= i <= |sizes| && Faithful(State()) && pc == Receiving && !eofSent
        invariant read + Total(sizes[i..]) == |source|
        invariant OtherCounter() == old(OtherCounter())
      {
        assert sizes[i..][1..] == sizes[i + 1..];
        StepFaithful(State(), Received(sizes[i]));
        Resume(Received(sizes[i]));
        StepFaithful(State(), Wrote(sizes[i]));
        Resume(Wrote(sizes[i]));
        i := i + 1;
      }
      Resume(ReceivedEof);
      Resume(EofDone(eofOk));
    }
  }

  function Total(sizes: seq<nat>): nat {
    if sizes == [] then 0 else sizes[0] + Total(sizes[1..])
  }
}

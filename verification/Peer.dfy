/** The two halves of a connection (src/network/peer.rs), as objects that are resumed after short reads,
    short writes and would-block returns. What the operating system answers is a parameter. */
module Peer {
  import opened Bytes
  import opened Framing
  import opened Options
  import opened Sequences

  // ----- Reading

  /** What one read of the socket returns: some bytes (none at end of file or for an empty buffer) or an error. */
  datatype Incoming = Got(bytes: seq<Byte>) | Failed

  datatype ReadResult = Continue | Message(payload: seq<Byte>) | EOF | Error

  class ReadContext {
    var buffer: seq<Byte>
    var msgLength: nat
    var readLength: nat
    var state: DecodeState

    ghost var consumed: seq<Byte>        // every byte read so far
    ghost var yielded: seq<seq<Byte>>    // every message returned so far

    ghost predicate Valid()
      reads this
    {
      && readLength <= msgLength <= |buffer| && LENGTH_BYTES <= |buffer|
      && (state.Length? ==> readLength < msgLength == LENGTH_BYTES)
      && (readLength == msgLength ==> msgLength == 0)
      && Feed(START, consumed) == Fed(View(), yielded)
    }

    ghost function View(): Decoder
      reads this
      requires readLength <= |buffer|
    {
      Decoder(state, buffer[..readLength], msgLength)
    }

    constructor ()
      ensures Valid() && consumed == [] && yielded == []
    {
      buffer, msgLength, readLength, state := [0, 0, 0, 0], LENGTH_BYTES, 0, Length;
      consumed, yielded := [], [];
      new;
      assert View() == START;
    }

    /** One call, given what the socket returns for the slice `buffer[readLength..msgLength]`. */
    method Read(io: Incoming) returns (r: ReadResult)
      requires Valid()
      requires io.Got? ==> |io.bytes| <= msgLength - readLength
      modifies this
      ensures Valid()
      ensures consumed == old(consumed) + (if io.Got? then io.bytes else [])
      ensures yielded == old(yielded) + (if r.Message? then [r.payload] else [])
      ensures r.Error? <==> io.Failed?
      ensures r.EOF? <==> io == Got([])
    {
      if io.Failed? {
        assert consumed == consumed + [];
        return Error;
      }
      if io.bytes == [] {
        return EOF;
      }
      var bytes := io.bytes;
      ghost var before := View();
      FeedConcat(START, consumed, bytes);
      FeedChunk(before, bytes);
      consumed := consumed + bytes;

      buffer := Overwrite(buffer, readLength, bytes);
      readLength := readLength + |bytes|;
      if readLength == msgLength {
        r := FinishFrame(before.got + bytes);
      } else {
        r := Continue;
      }
    }

    /** The buffer is full: it holds a length, or a message. */
    method FinishFrame(ghost got: seq<Byte>) returns (r: ReadResult)
      requires 0 < readLength == msgLength <= |buffer| && LENGTH_BYTES <= |buffer| && got == buffer[..readLength]
      requires state.Length? ==> msgLength == LENGTH_BYTES
      requires var f := Finish(state, got); Feed(START, consumed) == Fed(f.decoder, yielded + f.messages)
      modifies this
      ensures Valid() && consumed == old(consumed)
      ensures r == if old(state).Length? then Continue else Message(got)
      ensures yielded == old(yielded) + (if r.Message? then [r.payload] else [])
    {
      match state {
        case Length =>
          var messageLength := FromBe(buffer[0..4]);
          state, readLength, msgLength := Payload, 0, messageLength;
          if |buffer| < msgLength {
            buffer := buffer + seq(msgLength - |buffer|, _ => 0);
          }
          r := Continue;
        case Payload =>
          var newPayload := buffer[0..msgLength];
          state, readLength, msgLength := Length, 0, LENGTH_BYTES;
          yielded := yielded + [newPayload];
          r := Message(newPayload);
      }
    }
  }

  /** `s` with `bytes` written from index `at` on. */
  function Overwrite(s: seq<Byte>, at: nat, bytes: seq<Byte>): (t: seq<Byte>)
    requires at + |bytes| <= |s|
    ensures |t| == |s| && t[..at + |bytes|] == s[..at] + bytes
  {
    s[..at] + bytes + s[at + |bytes|..]
  }

  // ----- Writing

  /** What one write or flush of the socket returns: how many bytes it is ready to take, or an error. */
  datatype Outgoing = Accept(n: nat) | Refuse

  datatype WriteResult = Complete | EndOfFile | ChanClosed | IoError

  /** The buffered socket: it takes some prefix of what it is offered, in order. */
  class Sink {
    const plan: nat -> Outgoing    // what the operating system will answer to the n-th call
    var calls: nat
    var accepted: seq<Byte>        // every byte taken so far

    constructor (plan: nat -> Outgoing)
      ensures this.plan == plan && accepted == [] && calls == 0
    {
      this.plan, calls, accepted := plan, 0, [];
    }

    /** What the operating system answered last. */
    function Answer(): Outgoing
      reads this
      requires calls > 0
    {
      plan(calls - 1)
    }

    method Write(slice: seq<Byte>) returns (ok: bool, written: nat)
      modifies this
      ensures ok == plan(old(calls)).Accept?
      ensures written <= |slice|
      ensures ok ==> written == if plan(old(calls)).n < |slice| then plan(old(calls)).n else |slice|
      ensures calls == old(calls) + 1
      ensures accepted == old(accepted) + (if ok then slice[..written] else [])
    {
      match plan(calls) {
        case Accept(n) =>
          ok, written := true, if n < |slice| then n else |slice|;
          accepted := accepted + slice[..written];
        case Refuse =>
          ok, written := false, 0;
          assert accepted == accepted + [];
      }
      calls := calls + 1;
    }

    method Flush() returns (ok: bool)
      modifies this
      ensures ok == plan(old(calls)).Accept?
      ensures calls == old(calls) + 1 && accepted == old(accepted)
    {
      ok := plan(calls).Accept?;
      calls := calls + 1;
    }
  }

  class WriteContext {
    const lenBuffer: array<Byte>
    var queue: seq<seq<Byte>>
    var closed: bool               // every sender of the queue is gone
    var msgBuffer: seq<Byte>
    var msgLength: nat
    var writtenLength: nat
    var state: DecodeState         // the part of the frame being sent

    ghost var dequeued: seq<seq<Byte>>    // every message taken from the queue so far

    ghost predicate Valid()
      reads this, lenBuffer
    {
      && lenBuffer.Length == LENGTH_BYTES && msgLength == |msgBuffer|
      && writtenLength <= (if state.Length? then LENGTH_BYTES else msgLength)
    }

    /** The part of the current frame that is still to be sent. */
    function Rest(): seq<Byte>
      reads this, lenBuffer
      requires Valid()
    {
      if state.Length? then lenBuffer[writtenLength..] + msgBuffer else msgBuffer[writtenLength..]
    }

    /** What the sink has and what is still to come of the current frame are the frames of the messages
        taken from the queue. */
    ghost predicate Sound(sink: Sink)
      reads this, lenBuffer, sink
    {
      Valid() && sink.accepted + Rest() == Frames(dequeued)
    }

    constructor ()
      ensures Valid() && fresh(lenBuffer) && queue == [] && dequeued == [] && !closed && Rest() == []
    {
      lenBuffer := new Byte[4](_ => 0);
      queue, closed, dequeued := [], false, [];
      msgBuffer, msgLength, writtenLength, state := [], 0, 0, Payload;
    }

    /** Takes the next message and makes it the current frame. */
    method Load(sink: Sink)
      requires Sound(sink) && Rest() == [] && queue != []
      modifies this, lenBuffer
      ensures Sound(sink)
      ensures state.Length? && writtenLength == 0 && closed == old(closed)
      ensures queue == old(queue)[1..] && dequeued == old(dequeued) + [old(queue)[0]]
    {
      FramesAppend(dequeued, queue[0]);
      dequeued := dequeued + [queue[0]];
      msgBuffer, queue := queue[0], queue[1..];
      msgLength := |msgBuffer|;
      for k := 0 to 4
        invariant forall j :: 0 <= j < k ==> lenBuffer[j] == ToBe(msgLength, LENGTH_BYTES)[j]
        modifies lenBuffer
      {
        lenBuffer[k] := ToBe(msgLength, LENGTH_BYTES)[k];
      }
      writtenLength := 0;
      state := Length;
      assert lenBuffer[..] == ToBe(msgLength, LENGTH_BYTES);
      assert Rest() == Frame(msgBuffer);
      assert sink.accepted + [] == sink.accepted;
    }

    /** Offers the unsent part of the length or of the payload. */
    method Send(sink: Sink) returns (ok: bool, written: nat)
      requires Sound(sink)
      requires writtenLength < if state.Length? then LENGTH_BYTES else msgLength
      modifies this`writtenLength, sink
      ensures Sound(sink) && old(sink.accepted) <= sink.accepted
      ensures writtenLength == old(writtenLength) + (if ok then written else 0)
      ensures sink.calls > old(sink.calls) && ok == sink.Answer().Accept?
      ensures (ok && written == 0 ==> sink.Answer() == Accept(0))
    {
      ghost var rest := Rest();
      var slice := if state.Length? then lenBuffer[writtenLength..] else msgBuffer[writtenLength..];
      ok, written := sink.Write(slice);
      if ok {
        writtenLength := writtenLength + written;
        assert rest == slice[..written] + Rest();
        AppendAssociates(old(sink.accepted), slice[..written], Rest());
      } else {
        assert sink.accepted == old(sink.accepted) + [] == old(sink.accepted);
      }
    }

    /** What can still happen before the queue is drained: messages, then their lengths, then bytes. */
    ghost function Rank(): nat
      reads this
    {
      if state.Length? then 1 else 0
    }

    ghost function Left(): int
      reads this
    {
      (if state.Length? then LENGTH_BYTES else msgLength) - writtenLength
    }

    /** The last message has been sent: flushes the socket and takes the next one. */
    method NextMessage(sink: Sink) returns (r: Option<WriteResult>)
      requires Sound(sink) && Rest() == []
      modifies this, lenBuffer, sink
      ensures Sound(sink) && sink.accepted == old(sink.accepted) && sink.calls > old(sink.calls)
      ensures closed == old(closed)
      ensures r == Some(IoError) <==> sink.Answer().Refuse?
      ensures r.Some? ==> !r.value.EndOfFile? && unchanged(this)
      ensures r.Some? && !r.value.IoError? ==> queue == [] && closed == r.value.ChanClosed?
      ensures r.None? ==> old(queue) != [] && queue == old(queue)[1..] && dequeued == old(dequeued) + [old(queue)[0]]
    {
      var flushed := sink.Flush();
      if !flushed {
        return Some(IoError);
      }
      if queue == [] {
        return Some(if closed then ChanClosed else Complete);
      }
      Load(sink);
      return None;
    }

    /** The length has been sent: goes on with the message. */
    method StartBody(sink: Sink)
      requires Sound(sink) && state.Length? && writtenLength == LENGTH_BYTES
      modifies this`writtenLength, this`state
      ensures Sound(sink) && state.Payload? && writtenLength == 0
    {
      assert Rest() == msgBuffer;
      writtenLength := 0;
      state := Payload;
    }

    /** One pass through the loop of `Write`; `None` means go on, and then something was achieved. */
    method Pass(sink: Sink) returns (r: Option<WriteResult>)
      requires Sound(sink)
      modifies this, lenBuffer, sink
      ensures Sound(sink) && old(sink.accepted) <= sink.accepted
      ensures dequeued + queue == old(dequeued + queue) && old(dequeued) <= dequeued && closed == old(closed)
      ensures r.Some? && (r.value.Complete? || r.value.ChanClosed?) ==>
        && queue == [] && Rest() == [] && closed == r.value.ChanClosed?
        && sink.calls > old(sink.calls) && sink.Answer().Accept?
      ensures r.Some? && r.value.IoError? ==> sink.calls > old(sink.calls) && sink.Answer().Refuse?
      ensures r.Some? && r.value.EndOfFile? ==> sink.calls > old(sink.calls) && sink.Answer() == Accept(0)
      ensures sink.calls >= old(sink.calls)
      ensures r.None? ==>
        || |queue| < |old(queue)|
        || (|queue| == |old(queue)| && (Rank() < old(Rank()) || (Rank() == old(Rank()) && Left() < old(Left()))))
    {
      if state.Length? && writtenLength == LENGTH_BYTES {
        StartBody(sink);
        return None;
      }
      if state.Payload? && writtenLength == msgLength {
        r := NextMessage(sink);
        return;
      }
      var ok, written := Send(sink);
      if !ok {
        return Some(IoError);
      }
      if written == 0 {
        return Some(EndOfFile);
      }
      return None;
    }

    /** One call: sends until the queue is drained or the socket stops taking bytes. */
    method Write(sink: Sink) returns (r: WriteResult)
      requires Sound(sink)
      modifies this, lenBuffer, sink
      ensures Sound(sink) && old(sink.accepted) <= sink.accepted
      ensures dequeued + queue == old(dequeued + queue) && old(dequeued) <= dequeued && closed == old(closed)
      ensures r.Complete? || r.ChanClosed? ==> queue == [] && Rest() == [] && closed == r.ChanClosed?
      ensures r.Complete? || r.ChanClosed? ==> sink.calls > old(sink.calls) && sink.Answer().Accept?
      ensures r.IoError? ==> sink.calls > old(sink.calls) && sink.Answer().Refuse?
      ensures r.EndOfFile? ==> sink.calls > old(sink.calls) && sink.Answer() == Accept(0)
    {
      while true
        invariant Sound(sink) && old(sink.accepted) <= sink.accepted && old(sink.calls) <= sink.calls
        invariant dequeued + queue == old(dequeued + queue) && old(dequeued) <= dequeued && closed == old(closed)
        decreases |queue|, Rank(), Left()
      {
        var result := Pass(sink);
        if result.Some? {
          return result.value;
        }
      }
    }
  }

  // ----- The two halves joined

  /** What can happen next on a connection. */
  datatype Event =
    | Send(message: seq<Byte>)    // a message is queued
    | Hangup                      // the last sender of the queue goes away
    | Writable                    // the writer runs
    | Readable(n: nat)            // the reader runs, and up to n bytes have arrived
    | NotReady                    // the reader runs, and would block

  class Connection {
    const sink: Sink
    const writer: WriteContext
    const reader: ReadContext
    var taken: nat                       // how many of the accepted bytes have been read
    var received: seq<seq<Byte>>
    ghost var queued: seq<seq<Byte>>     // every message ever queued

    ghost predicate Valid()
      reads this, sink, writer, writer.lenBuffer, reader
    {
      && writer.Sound(sink) && reader.Valid()
      && taken <= |sink.accepted| && reader.consumed == sink.accepted[..taken]
      && received == reader.yielded
      && writer.dequeued + writer.queue == queued
    }

    ghost function OnTheWay(): seq<Byte>
      reads this, sink, writer, writer.lenBuffer, reader
      requires Valid()
    {
      sink.accepted[taken..] + writer.Rest()
    }

    constructor (plan: nat -> Outgoing)
      ensures Valid() && queued == []
      ensures fresh(sink) && fresh(writer) && fresh(writer.lenBuffer) && fresh(reader)
    {
      sink := new Sink(plan);
      writer := new WriteContext();
      reader := new ReadContext();
      taken, received, queued := 0, [], [];
    }

    /** Whatever happens next, and however the socket cuts the bytes up. The writer stops only when it has
        nothing left to send or the socket takes no more. */
    method Handle(e: Event)
      requires Valid()
      modifies this, sink, writer, writer.lenBuffer, reader
      ensures Valid()
      ensures e.Readable? ==>
        taken == old(taken) +
          Least(e.n, old(reader.msgLength) - old(reader.readLength), |old(sink.accepted)| - old(taken))
      ensures e.Writable? ==>
        || (writer.queue == [] && writer.Rest() == [])
        || (sink.calls > old(sink.calls) && (sink.Answer().Refuse? || sink.Answer() == Accept(0)))
      ensures queued == old(queued) + (if e.Send? then [e.message] else [])
      ensures writer.closed <==> old(writer.closed) || e.Hangup?
    {
      match e {
        case Send(m) =>
          writer.queue := writer.queue + [m];
          queued := queued + [m];
          assert writer.Rest() == old(writer.Rest());
        case Hangup =>
          writer.closed := true;
        case Writable =>
          var _ := writer.Write(sink);
        case Readable(n) =>
          Arrive(n);
        case NotReady =>
          var _ := reader.Read(Failed);
      }
    }

    /** The reader gets as many of the next bytes as have arrived and fit in its buffer; it would block if
        none has, and it mistakes a full buffer for the end of the stream. */
    method Arrive(n: nat)
      requires Valid()
      modifies `taken, `received, reader
      ensures Valid()
      ensures taken == old(taken) +
        Least(n, old(reader.msgLength) - old(reader.readLength), |sink.accepted| - old(taken))
    {
      var room := reader.msgLength - reader.readLength;
      var k := Least(n, room, |sink.accepted| - taken);
      var r := reader.Read(if k == 0 < room then Failed else Got(sink.accepted[taken..taken + k]));
      taken := taken + k;
      if r.Message? {
        received := received + [r.payload];
      }
    }

    method Run(schedule: seq<Event>)
      requires Valid()
      modifies this, sink, writer, writer.lenBuffer, reader
      ensures Valid()
      ensures queued == old(queued) + Sent(schedule)
    {
      assert schedule[..0] == [];
      for i := 0 to |schedule|
        invariant Valid() && queued == old(queued) + Sent(schedule[..i])
      {
        assert schedule[..i + 1][..i] == schedule[..i];
        AppendAssociates(old(queued), Sent(schedule[..i]), if schedule[i].Send? then [schedule[i].message] else []);
        Handle(schedule[i]);
      }
      assert schedule[..|schedule|] == schedule;
    }

    /** The messages read are a prefix of the messages taken from the queue, in order and unchanged, and they
        are all of them when nothing is on the way. */
    lemma InOrder()
      requires Valid() && forall m :: m in queued ==> Fits(m)
      ensures received <= writer.dequeued <= queued
      ensures OnTheWay() == [] ==> received == writer.dequeued
      ensures reader.readLength < reader.msgLength    // the next read never asks for zero bytes
    {
      assert forall m :: m in writer.dequeued ==> m in queued;
      assert sink.accepted[..taken] + sink.accepted[taken..] == sink.accepted;
      AppendAssociates(sink.accepted[..taken], sink.accepted[taken..], writer.Rest());
      NothingLostOrReordered(writer.dequeued, reader.consumed, OnTheWay());
      assert Feed(START, reader.consumed).decoder == reader.View();
    }

    /** Once nothing is on the way, the messages read are those taken from the queue if and only if each of them
        has 1 to 2^32 - 1 bytes. */
    lemma DeliveredIff()
      requires Valid() && OnTheWay() == []
      ensures received == writer.dequeued <==> forall m :: m in writer.dequeued ==> Fits(m)
    {
      assert sink.accepted[..taken] + sink.accepted[taken..] == sink.accepted;
      AppendAssociates(sink.accepted[..taken], sink.accepted[taken..], writer.Rest());
      assert reader.consumed + [] == reader.consumed;
      QueueRoundTripIff(writer.dequeued);
    }

    /** If the socket takes bytes from now on, one write and finitely many reads deliver everything queued. */
    method Drain()
      requires Valid() && forall m :: m in queued ==> Fits(m)
      requires forall k: nat :: sink.calls <= k ==> sink.plan(k).Accept? && sink.plan(k).n > 0
      modifies this, sink, writer, writer.lenBuffer, reader
      ensures Valid() && queued == old(queued) && received == queued
    {
      Handle(Writable);
      while taken < |sink.accepted|
        invariant Valid() && queued == old(queued) && writer.queue == [] && writer.Rest() == []
        modifies `taken, `received, reader
      {
        InOrder();
        Arrive(1);
      }
      InOrder();
    }
  }

  function Least(a: nat, b: nat, c: nat): nat {
    var m := if a < b then a else b;
    if m < c then m else c
  }

  /** What has been read so far, against what has been taken from the queue so far. */
  lemma NothingLostOrReordered(sent: seq<seq<Byte>>, consumed: seq<Byte>, onTheWay: seq<Byte>)
    requires forall m :: m in sent ==> Fits(m)
    requires consumed + onTheWay == Frames(sent)
    ensures Feed(START, consumed).messages <= sent
    ensures onTheWay == [] ==> Feed(START, consumed).messages == sent
    ensures !Feed(START, consumed).decoder.Stuck()
  {
    PrefixDecodes(sent, consumed);
    if onTheWay == [] {
      assert consumed + [] == consumed;
    }
  }

  function Sent(schedule: seq<Event>): seq<seq<Byte>> {
    if schedule == [] then []
    else
      var last := schedule[|schedule| - 1];
      Sent(schedule[..|schedule| - 1]) + if last.Send? then [last.message] else []
  }

  /** The same over a whole run: for every answer of the operating system and every schedule of events. */
  method Converse(plan: nat -> Outgoing, schedule: seq<Event>) returns (c: Connection)
    requires forall m :: m in Sent(schedule) ==> Fits(m)
    ensures fresh(c) && c.Valid()
    ensures c.received <= c.writer.dequeued
    ensures c.writer.dequeued + c.writer.queue == Sent(schedule)
    ensures c.OnTheWay() == [] ==> c.received == c.writer.dequeued
  {
    c := new Connection(plan);
    c.Run(schedule);
    assert c.queued == Sent(schedule);
    c.InOrder();
  }
}

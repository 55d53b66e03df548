/** The length-prefixed wire format of src/network/peer.rs as values: what a frame is, and the reader
    as an automaton fed one byte at a time, so that how the bytes are cut into reads cannot matter. */
module Framing {
  import opened Bytes
  import opened Sequences

  const LENGTH_BYTES := 4

  /** The length, cast to 32 bits and big-endian, and then the message. */
  function Frame(m: seq<Byte>): seq<Byte> {
    ToBe(|m|, LENGTH_BYTES) + m
  }

  function Frames(ms: seq<seq<Byte>>): seq<Byte> {
    if ms == [] then [] else Frame(ms[0]) + Frames(ms[1..])
  }

  lemma {:induction false} FramesAppend(ms: seq<seq<Byte>>, m: seq<Byte>)
    ensures Frames(ms + [m]) == Frames(ms) + Frame(m)
  {
    if ms == [] {
      assert ms + [m] == [m];
      assert [m][1..] == [];
    } else {
      assert (ms + [m])[1..] == ms[1..] + [m];
      FramesAppend(ms[1..], m);
    }
  }

  predicate Fits(m: seq<Byte>) {
    1 <= |m| < 0x1_0000_0000
  }

  datatype DecodeState = Length | Payload

  /** What the reader is collecting, the bytes it has of it, and how many it needs. */
  datatype Decoder = Decoder(state: DecodeState, got: seq<Byte>, need: nat) {
    /** Nothing is left to read, so that the next read asks for zero bytes. */
    predicate Stuck() {
      |got| >= need
    }
  }

  const START := Decoder(Length, [], LENGTH_BYTES)

  datatype Fed = Fed(decoder: Decoder, messages: seq<seq<Byte>>)

  /** What happens when the buffer is full. */
  function Finish(state: DecodeState, got: seq<Byte>): Fed {
    match state
    case Length => Fed(Decoder(Payload, [], FromBe(got)), [])
    case Payload => Fed(START, [got])
  }

  /** One byte into a reader that is not stuck. */
  function Step(d: Decoder, b: Byte): Fed {
    var got := d.got + [b];
    if |got| < d.need then Fed(d.(got := got), []) else Finish(d.state, got)
  }

  function Feed(d: Decoder, s: seq<Byte>): Fed
    decreases |s|
  {
    if s == [] || d.Stuck() then Fed(d, [])
    else
      var f := Step(d, s[0]);
      var r := Feed(f.decoder, s[1..]);
      Fed(r.decoder, f.messages + r.messages)
  }

  /** Feeding two chunks in turn is feeding them at once. */
  lemma {:induction false} FeedConcat(d: Decoder, s: seq<Byte>, t: seq<Byte>)
    ensures var a := Feed(d, s); var b := Feed(a.decoder, t);
      Feed(d, s + t) == Fed(b.decoder, a.messages + b.messages)
    decreases |s|
  {
    if s == [] {
      assert s + t == t;
    } else if !d.Stuck() {
      var f := Step(d, s[0]);
      assert (s + t)[1..] == s[1..] + t;
      FeedConcat(f.decoder, s[1..], t);
      var a := Feed(f.decoder, s[1..]);
      var b := Feed(a.decoder, t);
      assert f.messages + (a.messages + b.messages) == (f.messages + a.messages) + b.messages;
    }
  }

  /** A chunk that stays within what is needed is collected, and acted on when it fills the buffer. */
  lemma {:induction false} FeedChunk(d: Decoder, s: seq<Byte>)
    requires s != [] && |d.got| + |s| <= d.need
    ensures Feed(d, s) == if |d.got| + |s| < d.need then Fed(d.(got := d.got + s), []) else Finish(d.state, d.got + s)
    decreases |s|
  {
    var next := d.(got := d.got + [s[0]]);
    if |s| == 1 {
      assert s == [s[0]];
    } else {
      assert Step(d, s[0]) == Fed(next, []);
      FeedChunk(next, s[1..]);
      assert next.got + s[1..] == d.got + s;
    }
  }

  /** Four bytes are taken as the length of what follows. */
  lemma FeedHeader(header: seq<Byte>)
    requires |header| == LENGTH_BYTES
    ensures Feed(START, header) == Fed(Decoder(Payload, [], FromBe(header)), [])
  {
    FeedChunk(START, header);
    assert [] + header == header;
  }

  /** A frame is a header that announces the length modulo 2^32, and the message. */
  lemma FrameShape(m: seq<Byte>) returns (header: seq<Byte>)
    ensures Frame(m) == header + m && |header| == 4
    ensures FromBe(header) == |m| % 0x1_0000_0000
  {
    header := ToBe(|m|, LENGTH_BYTES);
    ToBeThenFromBe(|m|, LENGTH_BYTES);
    assert Pow256(4) == 0x1_0000_0000;
  }

  lemma {:induction false} FeedPartOfBody(header: seq<Byte>, rest: seq<Byte>)
    requires |header| == LENGTH_BYTES && |rest| < FromBe(header)
    ensures Feed(START, header + rest) == Fed(Decoder(Payload, rest, FromBe(header)), [])
  {
    var body := Decoder(Payload, [], FromBe(header));
    FeedHeader(header);
    FeedConcat(START, header, rest);
    if rest != [] {
      FeedChunk(body, rest);
      assert [] + rest == rest;
    }
  }

  lemma FeedWholeBody(header: seq<Byte>, m: seq<Byte>)
    requires |header| == LENGTH_BYTES && 0 < |m| == FromBe(header)
    ensures Feed(START, header + m) == Fed(START, [m])
  {
    FeedHeader(header);
    FeedConcat(START, header, m);
    FeedChunk(Decoder(Payload, [], |m|), m);
    assert [] + m == m;
  }

  /** A whole frame yields its message and leaves the reader where it started. */
  lemma FeedFrame(m: seq<Byte>)
    requires Fits(m)
    ensures Feed(START, Frame(m)) == Fed(START, [m])
  {
    var header := FrameShape(m);
    FeedWholeBody(header, m);
  }

  /** Anything short of a whole frame yields nothing, and the next read never asks for zero bytes. */
  lemma FeedPart(header: seq<Byte>, m: seq<Byte>, s: seq<Byte>)
    requires |header| == LENGTH_BYTES && 0 < |m| == FromBe(header)
    requires s <= header + m && |s| < |header + m|
    ensures Feed(START, s).messages == [] && !Feed(START, s).decoder.Stuck()
  {
    if s == [] {
    } else if |s| < LENGTH_BYTES {
      FeedChunk(START, s);
    } else {
      var rest := SplitPrefix(header, m, s);
      FeedPartOfBody(header, rest);
    }
  }

  /** However much of the stream has arrived, what it yields is a prefix of what was sent; when all of it
      has arrived, it is all that was sent. */
  lemma {:induction false} PrefixDecodes(ms: seq<seq<Byte>>, s: seq<Byte>)
    requires forall m :: m in ms ==> Fits(m)
    requires s <= Frames(ms)
    ensures Feed(START, s).messages <= ms
    ensures !Feed(START, s).decoder.Stuck()
    ensures s == Frames(ms) ==> Feed(START, s) == Fed(START, ms)
    decreases |ms|
  {
    if ms == [] {
    } else {
      var frame, later := Frame(ms[0]), Frames(ms[1..]);
      if |s| < |frame| {
        var header := FrameShape(ms[0]);
        assert Fits(ms[0]);
        assert s <= frame;
        FeedPart(header, ms[0], s);
      } else {
        var rest := SplitPrefix(frame, later, s);
        FeedFrame(ms[0]);
        FeedConcat(START, frame, rest);
        PrefixDecodes(ms[1..], rest);
        assert ms == [ms[0]] + ms[1..];
      }
    }
  }

  /** A decoder with nothing left to collect stays as it is, whatever arrives. */
  lemma StuckForGood(d: Decoder, s: seq<Byte>)
    requires d.Stuck()
    ensures Feed(d, s) == Fed(d, [])
  {
  }

  /** An empty message silences the connection: whatever follows it is never yielded. */
  lemma EmptyMessageSilences(t: seq<Byte>)
    ensures Feed(START, Frame([]) + t).messages == []
    ensures Feed(START, Frame([]) + t).decoder.Stuck()
  {
    var header := FrameShape([]);
    assert Frame([]) == header;
    FeedHeader(header);
    FeedConcat(START, header, t);
    StuckForGood(Decoder(Payload, [], 0), t);
  }

  lemma FeedLonger(header: seq<Byte>, a: seq<Byte>, b: seq<Byte>)
    requires |header| == LENGTH_BYTES && 0 < |a| == FromBe(header)
    ensures [a] <= Feed(START, header + a + b).messages
  {
    FeedWholeBody(header, a);
    FeedConcat(START, header + a, b);
  }

  /** The first message of `s`, if there is one, is not `m`. */
  predicate Misses(s: seq<Byte>, m: seq<Byte>) {
    var messages := Feed(START, s).messages;
    messages == [] || messages[0] != m
  }

  /** A body longer than announced is cut at the announced length. */
  lemma FeedLongBody(header: seq<Byte>, m: seq<Byte>, t: seq<Byte>)
    requires |header| == LENGTH_BYTES && FromBe(header) < |m|
    ensures Misses(header + m + t, m)
  {
    if FromBe(header) == 0 {
      AppendAssociates(header, m, t);
      FeedHeader(header);
      FeedConcat(START, header, m + t);
      StuckForGood(Decoder(Payload, [], 0), m + t);
    } else {
      var a, b := SplitAt(m, FromBe(header));
      FeedLonger(header, a, b + t);
      AppendAssociates(header, a, b);
      AppendAssociates(header + a, b, t);
      assert Feed(START, header + m + t).messages[0] == [a][0];
    }
  }

  /** A message that does not fit is not what is yielded first, whatever follows it. */
  lemma MisfitIsMissed(m: seq<Byte>, t: seq<Byte>)
    requires !Fits(m)
    ensures Misses(Frame(m) + t, m)
  {
    if m == [] {
      EmptyMessageSilences(t);
    } else {
      var header := FrameShape(m);
      FeedLongBody(header, m, t);
    }
  }

  /** Exactly the messages of 1 to 2^32 - 1 bytes survive the trip. */
  lemma RoundTripIff(m: seq<Byte>)
    ensures Feed(START, Frame(m)) == Fed(START, [m]) <==> 1 <= |m| < 0x1_0000_0000
  {
    if Fits(m) {
      FeedFrame(m);
    } else {
      MisfitIsMissed(m, []);
      assert Frame(m) + [] == Frame(m);
    }
  }

  /** Exactly the queues of such messages do. */
  lemma {:induction false} QueueRoundTripIff(ms: seq<seq<Byte>>)
    ensures Feed(START, Frames(ms)).messages == ms <==> forall m :: m in ms ==> 1 <= |m| < 0x1_0000_0000
  {
    if ms == [] {
    } else {
      var frame, later := Frame(ms[0]), Frames(ms[1..]);
      QueueRoundTripIff(ms[1..]);
      assert ms == [ms[0]] + ms[1..];
      if Fits(ms[0]) {
        FeedFrame(ms[0]);
        FeedConcat(START, frame, later);
        assert Feed(START, frame + later).messages == [ms[0]] + Feed(START, later).messages;
        assert Feed(START, frame + later).messages[1..] == Feed(START, later).messages;
      } else {
        MisfitIsMissed(ms[0], later);
      }
    }
  }
}

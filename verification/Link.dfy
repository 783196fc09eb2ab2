/**
 Frames on the wire: sending them between zero bytes, and finding them again in a
 stream that may carry anything else in between.
 */
module Link {
  import opened Bytes
  import opened Cobs
  import opened Crc
  import opened Frame

  /** What asking the platform for a key can bring. */
  datatype Arrival = Key(b: Byte) | Nothing | Interrupt | Closed

  datatype Got = Received(header: Header, payload: seq<Byte>) | Interrupted | InputClosed

  function Sent(h: Header, payload: seq<Byte>): seq<Byte> {
    [0] + Encoded(Built(h, payload)) + [0]
  }

  /** A frame from the bytes between two zeros; more than the buffer holds is refused. */
  function Unpacked(held: seq<Byte>): Parsed {
    if |held| > MAX_COBS || held == [] then Rejected(CobsDecode)
    else
      match Decoded(held, MAX_COBS)
      case Done(raw) => Parse(raw)
      case Failed(err) => Rejected(err)
  }

  /** What one call of the reader returns, and the events it leaves. */
  function Read(events: seq<Arrival>, inFrame: bool, held: seq<Byte>): (r: (Got, seq<Arrival>))
    ensures |r.1| <= |events| && (r.0.Received? ==> |r.1| < |events|)
    decreases |events|
  {
    if events == [] then (InputClosed, [])
    else
      match events[0]
      case Nothing => Read(events[1..], inFrame, held)
      case Interrupt => (Interrupted, events[1..])
      case Closed => (InputClosed, events[1..])
      case Key(b) => ReadKey(b, events, inFrame, held)
  }

  function ReadKey(b: Byte, events: seq<Arrival>, inFrame: bool, held: seq<Byte>): (r: (Got, seq<Arrival>))
    requires events != []
    ensures |r.1| < |events|
    decreases |events|, 0
  {
    if !inFrame then
      if b == 3 then (Interrupted, events[1..])
      else Read(events[1..], b == 0, [])
    else if b == 0 then
      match Unpacked(held)
      case Accepted(h, payload) => (Received(h, payload), events[1..])
      case Rejected(_) => Read(events[1..], false, [])
    else Read(events[1..], true, held + [b])
  }

  // ----- what was sent is what is read -----

  predicate Quiet(noise: seq<Byte>) {
    forall k :: 0 <= k < |noise| ==> noise[k] != 0 && noise[k] != 3
  }

  /** The events of a wire, when keys arrive one after the other. */
  function Arriving(wire: seq<Byte>): seq<Arrival> {
    seq(|wire|, i requires 0 <= i < |wire| => Key(wire[i]))
  }

  lemma ArrivingHead(wire: seq<Byte>)
    requires wire != []
    ensures Arriving(wire) != [] && Arriving(wire)[0] == Key(wire[0]) && Arriving(wire)[1..] == Arriving(wire[1..])
  {
  }

  lemma {:induction false} ReadNoise(noise: seq<Byte>, rest: seq<Byte>)
    requires Quiet(noise)
    ensures Read(Arriving(noise + rest), false, []) == Read(Arriving(rest), false, [])
  {
    hide Read, Arriving;
    if noise == [] {
      assert noise + rest == rest;
    } else {
      ArrivingHead(noise + rest);
      ReadOneKey(Arriving(noise + rest), false, []);
      assert (noise + rest)[1..] == noise[1..] + rest;
      ReadNoise(noise[1..], rest);
    }
  }

  lemma ReadOneKey(events: seq<Arrival>, inFrame: bool, held: seq<Byte>)
    requires events != [] && events[0].Key?
    ensures Read(events, inFrame, held) == ReadKey(events[0].b, events, inFrame, held)
  {
    hide ReadKey;
  }

  lemma {:induction false} ReadBody(body: seq<Byte>, rest: seq<Byte>, held: seq<Byte>)
    requires ZeroFree(body)
    ensures Read(Arriving(body + rest), true, held) == Read(Arriving(rest), true, held + body)
    decreases |body|
  {
    hide Read, Arriving;
    if body == [] {
      assert body + rest == rest && held + body == held;
    } else {
      ArrivingHead(body + rest);
      ReadOneKey(Arriving(body + rest), true, held);
      assert (body + rest)[1..] == body[1..] + rest;
      ReadBody(body[1..], rest, held + [body[0]]);
      assert held + [body[0]] + body[1..] == held + body;
    }
  }

  lemma UnpackedEncoded(h: Header, payload: seq<Byte>)
    requires InRange(h, payload) && |payload| <= MAX_PAYLOAD
    ensures Unpacked(Encoded(Built(h, payload))) == Accepted(h, payload)
  {
    hide Encoded, Decoded, Built, Parse, Range;
    var raw := Built(h, payload);
    EncodedLength(raw);
    RoundTrip(raw, MAX_COBS);
    ParseBuilt(h, payload);
  }

  lemma {:induction false} ReadSent(noise: seq<Byte>, h: Header, payload: seq<Byte>, rest: seq<Byte>)
    requires Quiet(noise) && InRange(h, payload) && |payload| <= MAX_PAYLOAD
    ensures Read(Arriving(noise + Sent(h, payload) + rest), false, []) == (Received(h, payload), Arriving(rest))
  {
    hide Read, Arriving, Encoded, Built, Quiet, Unpacked, InRange;
    var body := Encoded(Built(h, payload));
    assert noise + Sent(h, payload) + rest == noise + ([0] + (body + ([0] + rest)));
    ReadNoise(noise, [0] + (body + ([0] + rest)));
    ArrivingHead([0] + (body + ([0] + rest)));
    assert ([0] + (body + ([0] + rest)))[1..] == body + ([0] + rest);
    ReadOneKey(Arriving([0] + (body + ([0] + rest))), false, []);
    EncodedZeroFree(Built(h, payload));
    ReadBody(body, [0] + rest, []);
    assert [] + body == body;
    ArrivingHead([0] + rest);
    assert ([0] + rest)[1..] == rest;
    ReadOneKey(Arriving([0] + rest), true, body);
    UnpackedEncoded(h, payload);
  }

  /** Noise and the frame sent after it. */
  datatype Item = Item(noise: seq<Byte>, header: Header, payload: seq<Byte>)

  ghost predicate Proper(item: Item) {
    Quiet(item.noise) && InRange(item.header, item.payload) && |item.payload| <= MAX_PAYLOAD
  }

  function Wire(items: seq<Item>): seq<Byte> {
    if items == [] then []
    else items[0].noise + Sent(items[0].header, items[0].payload) + Wire(items[1..])
  }

  function Frames(items: seq<Item>): seq<Got> {
    seq(|items|, i requires 0 <= i < |items| => Received(items[i].header, items[i].payload))
  }

  /** The results of `count` calls of the reader, and the events they leave. */
  function Reads(events: seq<Arrival>, count: nat): (seq<Got>, seq<Arrival>)
    decreases count
  {
    if count == 0 then ([], events)
    else
      var (got, rest) := Read(events, false, []);
      var (more, left) := Reads(rest, count - 1);
      ([got] + more, left)
  }

  /** The events without those that bring nothing. */
  function Strip(events: seq<Arrival>): seq<Arrival> {
    if events == [] then []
    else if events[0] == Nothing then Strip(events[1..])
    else [events[0]] + Strip(events[1..])
  }

  lemma {:induction false} ReadStrip(events: seq<Arrival>, inFrame: bool, held: seq<Byte>)
    ensures Read(Strip(events), inFrame, held).0 == Read(events, inFrame, held).0
    ensures Read(Strip(events), inFrame, held).1 == Strip(Read(events, inFrame, held).1)
    decreases |events|
  {
    hide Unpacked;
    if events != [] && events[0] != Nothing {
      var s := Strip(events);
      assert s[0] == events[0] && s[1..] == Strip(events[1..]);
    }
    if events != [] {
      if events[0] == Nothing {
        ReadStrip(events[1..], inFrame, held);
      } else if events[0].Key? {
        var b := events[0].b;
        ReadStrip(events[1..], b == 0, []);
        ReadStrip(events[1..], false, []);
        ReadStrip(events[1..], true, held + [b]);
      }
    }
  }

  lemma {:induction false} ReadsStrip(events: seq<Arrival>, count: nat)
    ensures Reads(Strip(events), count).0 == Reads(events, count).0
    ensures Reads(Strip(events), count).1 == Strip(Reads(events, count).1)
    decreases count
  {
    hide Read, Strip;
    if count > 0 {
      ReadStrip(events, false, []);
      ReadsStrip(Read(events, false, []).1, count - 1);
    }
  }

  lemma {:induction false} ReadsWire(items: seq<Item>, rest: seq<Byte>)
    requires forall i :: 0 <= i < |items| ==> Proper(items[i])
    ensures Reads(Arriving(Wire(items) + rest), |items|) == (Frames(items), Arriving(rest))
  {
    hide Read, Arriving, Sent, Quiet, InRange;
    if items == [] {
      assert Wire(items) + rest == rest;
    } else {
      var first, others := items[0], items[1..];
      assert Wire(items) + rest == first.noise + Sent(first.header, first.payload) + (Wire(others) + rest);
      assert Proper(first);
      ReadSent(first.noise, first.header, first.payload, Wire(others) + rest);
      ReadsWire(others, rest);
      assert Frames(items) == [Received(first.header, first.payload)] + Frames(others);
    }
  }

  /**
   Reading a stream of sent frames with noise in between, however the keys arrive,
   returns exactly the sent frames in order.
   */
  lemma StreamReads(events: seq<Arrival>, items: seq<Item>, rest: seq<Byte>)
    requires forall i :: 0 <= i < |items| ==> Proper(items[i])
    requires Strip(events) == Arriving(Wire(items) + rest)
    ensures Reads(events, |items|).0 == Frames(items)
    ensures Strip(Reads(events, |items|).1) == Arriving(rest)
  {
    hide Reads, Strip, Arriving, Wire, Frames, Proper;
    ReadsStrip(events, |items|);
    ReadsWire(items, rest);
  }

  /** Only frames a sender could have built are received. */
  lemma {:induction false} ReadBuilt(events: seq<Arrival>, inFrame: bool, held: seq<Byte>)
    ensures var got := Read(events, inFrame, held).0;
      got.Received? ==> InRange(got.header, got.payload) && |got.payload| <= MAX_PAYLOAD
    decreases |events|
  {
    hide InRange, Decoded, Parse;
    if events != [] && events[0] == Nothing {
      ReadBuilt(events[1..], inFrame, held);
    } else if events != [] && events[0].Key? {
      var b := events[0].b;
      if Decoded(held, MAX_COBS).Done? && Parse(Decoded(held, MAX_COBS).data).Accepted? {
        AcceptedIsBuilt(Decoded(held, MAX_COBS).data);
      }
      ReadBuilt(events[1..], b == 0, []);
      ReadBuilt(events[1..], false, []);
      ReadBuilt(events[1..], true, held + [b]);
    }
  }

  // ----- the code -----

  class Port {
    const rawFrame: array<Byte>
    const cobsFrame: array<Byte>
    const rxFrame: array<Byte>
    var rxPos: nat
    var rxOverflow: bool
    var wire: seq<Byte>

    ghost predicate Valid()
      reads this
    {
      && rawFrame.Length == MAX_RAW && cobsFrame.Length == MAX_COBS && rxFrame.Length == MAX_COBS
      && rawFrame != cobsFrame && rawFrame != rxFrame && cobsFrame != rxFrame
    }

    constructor ()
      ensures Valid() && fresh(rawFrame) && fresh(cobsFrame) && fresh(rxFrame) && wire == []
    {
      rawFrame := new Byte[MAX_RAW];
      cobsFrame := new Byte[MAX_COBS];
      rxFrame := new Byte[MAX_COBS];
      rxPos, rxOverflow, wire := 0, false, [];
    }

    method EmitRaw(b: Byte)
      modifies this`wire
      ensures wire == old(wire) + [b]
    {
      wire := wire + [b];
    }

    /** Builds, encodes and sends a frame; the buffers are large enough for every payload. */
    method SendFrame(h: Header, payload: seq<Byte>) returns (err: LinkError)
      requires Valid() && InRange(h, payload) && HEADER_SIZE + |payload| < Range(2)
      modifies this`wire, rawFrame, cobsFrame
      ensures err == if |payload| <= MAX_PAYLOAD then NoError else LinkOverflow
      ensures wire == old(wire) + if |payload| <= MAX_PAYLOAD then Sent(h, payload) else []
    {
      hide Encoded, Built, InRange, Range;
      var rawLength, cobsLength;
      rawLength, err := BuildFrame(h, payload, rawFrame);
      if err != NoError {
        return;
      }
      ghost var raw := Built(h, payload);
      EncodedLength(raw);
      cobsLength, err := Encode(rawFrame[..rawLength], cobsFrame);
      ghost var body := Encoded(raw);
      EmitRaw(0);
      var i := 0;
      while i < cobsLength
        invariant 0 <= i <= cobsLength && cobsFrame[..cobsLength] == body
        invariant wire == old(wire) + [0] + body[..i]
      {
        assert cobsFrame[i] == cobsFrame[..cobsLength][i];
        EmitRaw(cobsFrame[i]);
        i := i + 1;
        assert body[..i] == body[..i - 1] + [body[i - 1]];
      }
      EmitRaw(0);
      assert wire == old(wire) + ([0] + body + [0]);
    }

    method FrameReset()
      modifies this`rxPos, this`rxOverflow
      ensures rxPos == 0 && !rxOverflow
    {
      rxPos, rxOverflow := 0, false;
    }

    /** The bytes the reader has met since the zero that opened the frame. */
    ghost predicate Holds(held: seq<Byte>)
      reads this, rxFrame
    {
      && rxPos <= rxFrame.Length
      && (rxOverflow <==> |held| > rxFrame.Length)
      && (!rxOverflow ==> rxPos == |held| && rxFrame[..rxPos] == held)
      && (rxOverflow ==> rxPos == rxFrame.Length)
    }

    method FramePushByte(b: Byte, ghost held: seq<Byte>)
      requires Valid() && Holds(held)
      modifies this`rxPos, this`rxOverflow, rxFrame
      ensures Valid() && Holds(held + [b])
    {
      if rxPos >= MAX_COBS {
        rxOverflow := true;
        return;
      }
      rxFrame[rxPos] := b;
      rxPos := rxPos + 1;
    }

    method FrameDecode(ghost held: seq<Byte>) returns (parsed: Parsed)
      requires Valid() && Holds(held)
      modifies this`rxPos, this`rxOverflow, rxFrame
      ensures Valid() && parsed == Unpacked(held)
    {
      hide Decoded, Parse;
      if rxOverflow || rxPos == 0 {
        FrameReset();
        return Rejected(CobsDecode);
      }
      var length, err;
      ghost var r;
      length, err, r := Decode(rxFrame, rxPos, rxFrame, MAX_COBS);
      if err != NoError {
        FrameReset();
        return Rejected(err);
      }
      parsed := ParseFrame(rxFrame, length);
      if parsed.Rejected? {
        FrameReset();
      }
    }

    /** Reads keys until a frame, an interrupt, or the end of the input. */
    method ReadFrame(events: seq<Arrival>) returns (got: Got, used: nat)
      requires Valid()
      modifies this`rxPos, this`rxOverflow, rxFrame
      ensures Valid() && used <= |events|
      ensures Read(events, false, []) == (got, events[used..])
    {
      hide Unpacked;
      var inFrame := false;
      ghost var held: seq<Byte> := [];
      FrameReset();
      used := 0;
      assert events[0..] == events;
      while used < |events|
        invariant Valid() && used <= |events|
        invariant inFrame ==> Holds(held)
        invariant !inFrame ==> held == []
        invariant Read(events[used..], inFrame, held) == Read(events, false, [])
      {
        var event := events[used];
        assert events[used..][0] == event && events[used..][1..] == events[used + 1..];
        used := used + 1;
        if event == Nothing {
          continue;
        }
        if event == Interrupt {
          FrameReset();
          return Interrupted, used;
        }
        if event == Closed {
          FrameReset();
          return InputClosed, used;
        }
        var b := event.b;
        if !inFrame && b == 3 {
          FrameReset();
          return Interrupted, used;
        }
        if !inFrame {
          if b == 0 {
            FrameReset();
            inFrame := true;
          }
          continue;
        }
        if b == 0 {
          var parsed := FrameDecode(held);
          FrameReset();
          if parsed.Rejected? {
            inFrame := false;
            held := [];
            continue;
          }
          return Received(parsed.header, parsed.payload), used;
        }
        FramePushByte(b, held);
        held := held + [b];
      }
      FrameReset();
      got := InputClosed;
    }
  }
}

/**
 Frames of the control link: a header of 20 bytes, whose last four are a check over the
 first 16 and the payload, and the payload.
 */
module Frame {
  import opened Bytes
  import opened Cobs
  import opened Crc
  import opened Damage

  const HEADER_SIZE: nat := 20
  const MAX_PAYLOAD: nat := 1024
  const MAX_RAW: nat := 1044
  const MAX_COBS: nat := 1049
  const VERSION: Byte := 2

  datatype Header = Header(kind: Byte, session: nat, seqNo: nat)

  ghost predicate InRange(h: Header, payload: seq<Byte>) {
    h.session < Range(8) && h.seqNo < Range(2) && |payload| < Range(2)
  }

  /** The part of the header under the check. */
  function Head(h: Header, length: nat): (s: seq<Byte>)
    ensures |s| == 16
  {
    [0x46, 0x4c, VERSION, h.kind] + Little(h.session, 8) + Little(h.seqNo, 2) + Little(length, 2)
  }

  function FrameCrc(head: seq<Byte>, payload: seq<Byte>): bv32 {
    Update(Update(ALL_ONES, head), payload) ^ ALL_ONES
  }

  function Built(h: Header, payload: seq<Byte>): (s: seq<Byte>)
    ensures |s| == HEADER_SIZE + |payload|
  {
    var head := Head(h, |payload|);
    head + WordBytes(FrameCrc(head, payload)) + payload
  }

  datatype Parsed = Accepted(header: Header, payload: seq<Byte>) | Rejected(err: LinkError)

  function HeaderOf(frame: seq<Byte>): Header
    requires |frame| >= HEADER_SIZE
  {
    Header(frame[3], Value(frame[4..12]), Value(frame[12..14]))
  }

  function LengthOf(frame: seq<Byte>): nat
    requires |frame| >= HEADER_SIZE
  {
    Value(frame[14..16])
  }

  function Parse(frame: seq<Byte>): Parsed {
    if |frame| < HEADER_SIZE then Rejected(CobsDecode)
    else if frame[0] != 0x46 || frame[1] != 0x4c then Rejected(BadMagic)
    else if frame[2] != VERSION then Rejected(BadVersion)
    else if LengthOf(frame) > MAX_PAYLOAD then Rejected(TooLarge)
    else if HEADER_SIZE + LengthOf(frame) != |frame| then Rejected(CobsDecode)
    else if FrameCrc(frame[..16], frame[20..]) != ReadWord(frame[16..20]) then Rejected(BadCrc)
    else Accepted(HeaderOf(frame), frame[20..])
  }

  // ----- the accepted frames are the built ones -----

  lemma BuiltParts(h: Header, payload: seq<Byte>)
    ensures var f := Built(h, payload);
      && f[..16] == Head(h, |payload|) && f[16..20] == WordBytes(FrameCrc(Head(h, |payload|), payload)) && f[20..] == payload
      && f[0] == 0x46 && f[1] == 0x4c && f[2] == VERSION && f[3] == h.kind
      && f[4..12] == Little(h.session, 8) && f[12..14] == Little(h.seqNo, 2) && f[14..16] == Little(|payload|, 2)
  {
    hide Little, WordBytes, FrameCrc, Head;
    HeadParts(h, |payload|);
    var head := Head(h, |payload|);
    Glued(head, WordBytes(FrameCrc(head, payload)), payload);
  }

  lemma Glued(head: seq<Byte>, check: seq<Byte>, payload: seq<Byte>)
    requires |head| == 16 && |check| == 4
    ensures var f := head + check + payload;
      && f[..16] == head && f[16..20] == check && f[20..] == payload
      && f[0] == head[0] && f[1] == head[1] && f[2] == head[2] && f[3] == head[3]
      && f[4..12] == head[4..12] && f[12..14] == head[12..14] && f[14..16] == head[14..16]
  {
    var f := head + check + payload;
    assert f[..16] == head;
    assert f[4..12] == f[..16][4..12];
    assert f[12..14] == f[..16][12..14];
    assert f[14..16] == f[..16][14..16];
  }

  lemma HeadParts(h: Header, length: nat)
    ensures var f := Head(h, length);
      && f[0] == 0x46 && f[1] == 0x4c && f[2] == VERSION && f[3] == h.kind
      && f[4..12] == Little(h.session, 8) && f[12..14] == Little(h.seqNo, 2) && f[14..16] == Little(length, 2)
  {
    hide Little;
  }

  lemma ParseBuilt(h: Header, payload: seq<Byte>)
    requires InRange(h, payload) && |payload| <= MAX_PAYLOAD
    ensures Parse(Built(h, payload)) == Accepted(h, payload)
  {
    hide Built, Head, FrameCrc, Little, WordBytes, ReadWord, Value, Range;
    BuiltParts(h, payload);
    ReadBackExact(h.session, 8);
    ReadBackExact(h.seqNo, 2);
    ReadBackExact(|payload|, 2);
    WordOfBytes(FrameCrc(Head(h, |payload|), payload));
  }

  lemma LittleOfValue(s: seq<Byte>)
    ensures Little(Value(s), |s|) == s
  {
    ValueBelow(s);
    ReadBackExact(Value(s), |s|);
    ValueInjective(Little(Value(s), |s|), s);
  }

  lemma WordBytesOfRead(s: seq<Byte>)
    requires |s| == 4
    ensures WordBytes(ReadWord(s)) == s
  {
    hide WordBytes, ReadWord;
    WordOfBytes(ReadWord(s));
    ReadWordInjective(WordBytes(ReadWord(s)), s);
  }

  /** Whatever the parser accepts is exactly what the builder makes of it. */
  lemma AcceptedIsBuilt(frame: seq<Byte>)
    requires Parse(frame).Accepted?
    ensures var p := Parse(frame); InRange(p.header, p.payload) && |p.payload| <= MAX_PAYLOAD && frame == Built(p.header, p.payload)
  {
    hide FrameCrc, Little, WordBytes, ReadWord, Value, Range;
    var p := Parse(frame);
    LittleOfValue(frame[4..12]);
    LittleOfValue(frame[12..14]);
    LittleOfValue(frame[14..16]);
    ValueBelow(frame[4..12]);
    ValueBelow(frame[12..14]);
    ValueBelow(frame[14..16]);
    WordBytesOfRead(frame[16..20]);
    assert frame[..16] == Head(p.header, |p.payload|);
    assert frame == frame[..16] + frame[16..20] + frame[20..];
  }

  /** A frame parses if and only if it is one the builder makes. */
  lemma ParsesWhenBuilt(frame: seq<Byte>, h: Header, payload: seq<Byte>)
    ensures Parse(frame) == Accepted(h, payload) <==>
      InRange(h, payload) && |payload| <= MAX_PAYLOAD && frame == Built(h, payload)
  {
    hide Parse, Built, InRange;
    if Parse(frame) == Accepted(h, payload) {
      AcceptedIsBuilt(frame);
    }
    if InRange(h, payload) && |payload| <= MAX_PAYLOAD && frame == Built(h, payload) {
      ParseBuilt(h, payload);
    }
  }

  // ----- damage -----

  lemma FrameCrcJoined(head: seq<Byte>, payload: seq<Byte>)
    ensures FrameCrc(head, payload) == Crc32(head + payload)
  {
    hide Update;
    UpdateConcat(ALL_ONES, head, payload);
  }

  /** Changing any single byte of a built frame makes parsing fail. */
  lemma DamageRejected(h: Header, payload: seq<Byte>, frame: seq<Byte>, at: nat)
    requires OneChange(Built(h, payload), frame, at)
    ensures Parse(frame).Rejected?
  {
    hide Parse, Built, Head, InRange;
    if Parse(frame).Accepted? {
      AcceptedIsBuilt(frame);
      BuiltsFarApart(h, payload, Parse(frame).header, Parse(frame).payload, at);
    }
  }

  /** No two built frames differ in a single byte. */
  lemma BuiltsFarApart(h: Header, p: seq<Byte>, g: Header, q: seq<Byte>, at: nat)
    ensures !OneChange(Built(h, p), Built(g, q), at)
  {
    hide Built, Head, FrameCrc, Little, WordBytes, Crc32;
    var f, k := Built(h, p), Built(g, q);
    if OneChange(f, k, at) {
      BuiltParts(h, p);
      BuiltParts(g, q);
      FrameCrcJoined(f[..16], p);
      FrameCrcJoined(k[..16], q);
      WordOfBytes(FrameCrc(f[..16], p));
      WordOfBytes(FrameCrc(k[..16], q));
      SliceKept(f, k, at, 0, 16);
      SliceKept(f, k, at, 16, 20);
      SliceKept(f, k, at, 20, |f|);
      assert f[20..|f|] == p && k[20..|f|] == q && f[0..16] == f[..16] && k[0..16] == k[..16];
      SliceChanged(f, k, at, 16, 20);
      if !(16 <= at < 20) {
        var place := if at < 16 then at else at - 4;
        OneChangeAround(f, k, at, place);
        Crc32ChangeDetected(f[..16] + p, k[..16] + q, place);
      }
    }
  }

  lemma OneChangeAround(f: seq<Byte>, k: seq<Byte>, at: nat, place: nat)
    requires OneChange(f, k, at) && |f| >= 20 && !(16 <= at < 20)
    requires place == if at < 16 then at else at - 4
    ensures OneChange(f[..16] + f[20..], k[..16] + k[20..], place)
  {
    var x, y := f[..16] + f[20..], k[..16] + k[20..];
    forall i | 0 <= i < |x| && i != place
      ensures x[i] == y[i]
    {
      var j := if i < 16 then i else i + 4;
      Elsewhere(f, k, at, j);
    }
  }

  // ----- the code -----

  /** Builds a frame in a buffer; a payload that does not fit is refused. */
  method BuildFrame(h: Header, payload: seq<Byte>, out: array<Byte>) returns (total: nat, err: LinkError)
    requires InRange(h, payload) && HEADER_SIZE + |payload| < Range(2)
    modifies out
    ensures err == if HEADER_SIZE + |payload| > out.Length then LinkOverflow else NoError
    ensures err == NoError ==> total == HEADER_SIZE + |payload| && out[..total] == Built(h, payload)
  {
    hide Built, FrameCrc, Head, Little, WordBytes, Range;
    total := HEADER_SIZE + |payload|;
    if total > out.Length {
      return 0, LinkOverflow;
    }
    var head := Head(h, |payload|);
    WriteBytes(out, 0, head);
    WriteBytes(out, HEADER_SIZE, payload);
    assert out[..16] == head && out[20..total] == payload;
    var crc := ComputeFrameCrc(head, payload);
    ghost var rest := out[20..total];
    WriteBytes(out, 16, WordBytes(crc));
    assert out[20..total] == rest;
    assert out[..16] == head;
    BuiltIs(h, payload);
    assert out[..total] == out[..16] + out[16..20] + out[20..total];
    err := NoError;
  }

  lemma BuiltIs(h: Header, payload: seq<Byte>)
    ensures Built(h, payload) ==
      Head(h, |payload|) + WordBytes(FrameCrc(Head(h, |payload|), payload)) + payload
  {
    hide Head, FrameCrc, WordBytes;
  }

  method ParseFrame(frame: array<Byte>, length: nat) returns (parsed: Parsed)
    requires length <= frame.Length
    ensures parsed == Parse(frame[..length])
  {
    hide FrameCrc, Little, WordBytes, ReadWord, Value;
    if length < HEADER_SIZE {
      return Rejected(CobsDecode);
    }
    var bytes := frame[..length];
    if bytes[0] != 0x46 || bytes[1] != 0x4c {
      return Rejected(BadMagic);
    }
    if bytes[2] != VERSION {
      return Rejected(BadVersion);
    }
    var header := HeaderOf(bytes);
    var payloadLength := LengthOf(bytes);
    if payloadLength > MAX_PAYLOAD {
      return Rejected(TooLarge);
    }
    if HEADER_SIZE + payloadLength != length {
      return Rejected(CobsDecode);
    }
    var expected := ComputeFrameCrc(bytes[..16], bytes[20..]);
    if expected != ReadWord(bytes[16..20]) {
      return Rejected(BadCrc);
    }
    return Accepted(header, bytes[20..]);
  }

  method ComputeFrameCrc(head: seq<Byte>, payload: seq<Byte>) returns (crc: bv32)
    ensures crc == FrameCrc(head, payload)
  {
    crc := ComputeUpdate(ALL_ONES, head);
    crc := ComputeUpdate(crc, payload);
    crc := crc ^ 0xFFFF_FFFF;
  }

  method WriteBytes(out: array<Byte>, at: nat, bytes: seq<Byte>)
    requires at + |bytes| <= out.Length
    modifies out
    ensures out[at..at + |bytes|] == bytes
    ensures forall k :: 0 <= k < out.Length && !(at <= k < at + |bytes|) ==> out[k] == old(out[k])
  {
    var i: nat := 0;
    while i < |bytes|
      invariant i <= |bytes|
      invariant forall k :: at <= k < at + i ==> out[k] == bytes[k - at]
      invariant forall k :: 0 <= k < out.Length && !(at <= k < at + i) ==> out[k] == old(out[k])
    {
      out[at + i] := bytes[i];
      i := i + 1;
    }
  }
}

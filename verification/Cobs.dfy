/**
 Consistent overhead byte stuffing as the control link does it. A full block of 254
 bytes is always followed by another block, so a message that ends with one carries
 a trailing 0x01.
 */
module Cobs {
  import opened Bytes

  datatype LinkError =
    | NoError | CobsDecode | LinkOverflow | BadMagic | BadVersion | TooLarge | BadCrc | Signature | UnknownType

  datatype Outcome = Done(data: seq<Byte>) | Failed(err: LinkError)

  const MALFORMED: Outcome := Failed(CobsDecode)
  const OVERFLOW: Outcome := Failed(LinkOverflow)

  const FULL: nat := 254

  /** The number of leading bytes that are not zero. */
  function Run(s: seq<Byte>): (n: nat)
    ensures n <= |s|
    ensures forall k :: 0 <= k < n ==> s[k] != 0
    ensures n < |s| ==> s[n] == 0
  {
    if s == [] || s[0] == 0 then 0 else 1 + Run(s[1..])
  }

  function Encoded(s: seq<Byte>): seq<Byte>
    decreases |s|
  {
    var n := Run(s);
    if n >= FULL then [0xff] + s[..FULL] + Encoded(s[FULL..])
    else if n < |s| then [Octet(n + 1)] + s[..n] + Encoded(s[n + 1..])
    else [Octet(n + 1)] + s
  }

  /** Decodes `s` into a buffer that has room for `room` more bytes. */
  function Decoded(s: seq<Byte>, room: nat): Outcome
    decreases |s|
  {
    if s == [] then Done([])
    else if s[0] == 0 || Num(s[0]) > |s| then MALFORMED
    else DecodedBlock(s, Num(s[0]), room)
  }

  /** The block that fills the first `code` bytes of `s`, and what follows it. */
  function DecodedBlock(s: seq<Byte>, code: nat, room: nat): Outcome
    requires 0 < code <= |s|
    decreases |s|, 0
  {
    var body := s[1..code] + Separator(s, code);
    if |body| > room then OVERFLOW
    else
      match Decoded(s[code..], room - |body|)
      case Done(rest) => Done(body + rest)
      case failed => failed
  }

  /** The zero a block stands for, unless it is full or the last. */
  function Separator(s: seq<Byte>, code: nat): seq<Byte> {
    if code < 0xff && code < |s| then [0] else []
  }

  // ----- laws -----

  predicate ZeroFree(s: seq<Byte>) { forall k :: 0 <= k < |s| ==> s[k] != 0 }

  lemma ZeroFreeConcat(s: seq<Byte>, t: seq<Byte>)
    requires ZeroFree(s) && ZeroFree(t)
    ensures ZeroFree(s + t)
  {
  }

  lemma EncodedCases(s: seq<Byte>)
    ensures var n := Run(s);
      && n <= |s|
      && ZeroFree(s[..n])
      && (n >= FULL ==> Encoded(s) == [0xff] + s[..FULL] + Encoded(s[FULL..]))
      && (n < |s| ==> s == s[..n] + [0] + s[n + 1..])
      && (n < FULL && n < |s| ==> Encoded(s) == [Octet(n + 1)] + s[..n] + Encoded(s[n + 1..]))
      && (n < FULL && n == |s| ==> Encoded(s) == [Octet(n + 1)] + s)
  {
    hide Octet, Run, Encoded;
    var n := Run(s);
    CutAt(s, n);
    if n >= FULL {
      EncodedFull(s);
    } else if n < |s| {
      EncodedCut(s);
    } else {
      EncodedLast(s);
    }
  }

  lemma {:induction false} EncodedFull(s: seq<Byte>)
    requires Run(s) >= FULL
    ensures Encoded(s) == [0xff] + s[..FULL] + Encoded(s[FULL..])
  {
    hide Octet, Run;
  }

  lemma {:induction false} EncodedCut(s: seq<Byte>)
    requires Run(s) < FULL && Run(s) < |s|
    ensures Encoded(s) == [Octet(Run(s) + 1)] + s[..Run(s)] + Encoded(s[Run(s) + 1..])
  {
    hide Octet, Run;
  }

  lemma {:induction false} EncodedLast(s: seq<Byte>)
    requires Run(s) < FULL && Run(s) == |s|
    ensures Encoded(s) == [Octet(Run(s) + 1)] + s
  {
    hide Octet, Run;
  }

  lemma CutAt(s: seq<Byte>, n: nat)
    requires n < |s| ==> s[n] == 0
    ensures n < |s| ==> s == s[..n] + [0] + s[n + 1..]
  {
  }

  lemma {:induction false} EncodedZeroFree(s: seq<Byte>)
    ensures ZeroFree(Encoded(s))
    decreases |s|
  {
    hide Run, Encoded, Octet, Num, ZeroFree;
    var n := Run(s);
    EncodedCases(s);
    if n >= FULL {
      EncodedZeroFree(s[FULL..]);
      OneZeroFree(0xff);
      FirstZeroFree(s, n, FULL);
      ZeroFreeConcat([0xff], s[..FULL]);
      ZeroFreeConcat([0xff] + s[..FULL], Encoded(s[FULL..]));
    } else {
      NumOctet(n + 1);
      OneZeroFree(Octet(n + 1));
      ZeroFreeConcat([Octet(n + 1)], s[..n]);
      if n < |s| {
        EncodedZeroFree(s[n + 1..]);
        ZeroFreeConcat([Octet(n + 1)] + s[..n], Encoded(s[n + 1..]));
      } else {
        assert s[..n] == s;
      }
    }
  }

  lemma OneZeroFree(b: Byte)
    requires b != 0
    ensures ZeroFree([b])
  {
  }

  lemma FirstZeroFree(s: seq<Byte>, n: nat, m: nat)
    requires m <= n <= |s| && ZeroFree(s[..n])
    ensures ZeroFree(s[..m])
  {
    assert s[..m] == s[..n][..m];
  }

  /** The overhead is one byte in each full block of 254 and one more. */
  lemma {:induction false} EncodedLength(s: seq<Byte>)
    ensures |s| + 1 <= |Encoded(s)| <= |s| + |s| / FULL + 1
    decreases |s|
  {
    var n := Run(s);
    if n >= FULL {
      EncodedLength(s[FULL..]);
    } else if n < |s| {
      EncodedLength(s[n + 1..]);
    }
  }

  /** Decoding undoes encoding, in any buffer that has room for the message. */
  lemma {:induction false} RoundTrip(s: seq<Byte>, room: nat)
    ensures Decoded(Encoded(s), room) == if |s| <= room then Done(s) else OVERFLOW
    decreases |s|
  {
    hide Num, Octet, Encoded, Decoded, DecodedBlock, Run, ZeroFree;
    var n := Run(s);
    EncodedCases(s);
    DecodedEmpty();
    if n >= FULL {
      FullCode();
      var rest := s[FULL..];
      EncodedNotEmpty(rest);
      BlockFirst(0xff, s[..FULL], Encoded(rest), room);
      if FULL <= room { RoundTrip(rest, room - FULL); }
      assert s == s[..FULL] + rest;
    } else {
      NumOctet(n + 1);
      if n < |s| {
        var rest := s[n + 1..];
        EncodedNotEmpty(rest);
        BlockFirst(Octet(n + 1), s[..n], Encoded(rest), room);
        if n + 1 <= room { RoundTrip(rest, room - n - 1); }
        assert s == s[..n] + [0] + rest;
      } else {
        BlockFirst(Octet(n + 1), s, [], room);
        assert [Octet(n + 1)] + s + [] == [Octet(n + 1)] + s;
        assert s + [] == s;
      }
    }
  }

  lemma DecodedEmpty()
    ensures forall room: nat :: Decoded([], room) == Done([])
  {
  }

  lemma FullCode()
    ensures Num(0xff) == 0xff
  {
  }

  lemma EncodedNotEmpty(s: seq<Byte>)
    ensures Encoded(s) != []
  {
    EncodedLength(s);
  }

  /** Decoding a block that is complete. */
  lemma BlockFirst(code: Byte, body: seq<Byte>, rest: seq<Byte>, room: nat)
    requires code != 0 && Num(code) == |body| + 1
    ensures var whole := body + if Num(code) < 0xff && rest != [] then [0] else [];
      Decoded([code] + body + rest, room) ==
        if |whole| > room then OVERFLOW
        else match Decoded(rest, room - |whole|)
          case Done(tail) => Done(whole + tail)
          case failed => failed
  {
    hide Num;
    var s := [code] + body + rest;
    assert s[0] == code && s[1..|body| + 1] == body && s[|body| + 1..] == rest;
  }

  // ----- the encoder -----

  lemma RunOf(p: seq<Byte>, rest: seq<Byte>)
    requires ZeroFree(p)
    ensures Run(p + rest) == |p| + Run(rest)
  {
    if p == [] {
      assert p + rest == rest;
    } else {
      assert (p + rest)[1..] == p[1..] + rest;
      RunOf(p[1..], rest);
    }
  }

  lemma ZeroEndsBlock(p: seq<Byte>, rest: seq<Byte>)
    requires ZeroFree(p) && |p| < FULL
    ensures Encoded(p + [0] + rest) == [Octet(|p| + 1)] + p + Encoded(rest)
  {
    var s := p + [0] + rest;
    assert s == p + ([0] + rest);
    RunOf(p, [0] + rest);
    assert s[..|p|] == p && s[|p| + 1..] == rest;
  }

  lemma FullBlock(p: seq<Byte>, rest: seq<Byte>)
    requires ZeroFree(p) && |p| == FULL
    ensures Encoded(p + rest) == [0xff] + p + Encoded(rest)
  {
    RunOf(p, rest);
    assert (p + rest)[..FULL] == p && (p + rest)[FULL..] == rest;
  }

  lemma LastBlock(p: seq<Byte>)
    requires ZeroFree(p) && |p| < FULL
    ensures Encoded(p) == [Octet(|p| + 1)] + p
  {
    assert p + [] == p;
    RunOf(p, []);
  }

  /** What the encoder still owes: the open block and the input not yet read. */
  ghost predicate Pending(s: seq<Byte>, read: nat, written: seq<Byte>, codePos: nat) {
    && read <= |s| && codePos < |written|
    && |written| - codePos - 1 < FULL
    && ZeroFree(written[codePos + 1..])
    && Encoded(s) == written[..codePos] + Encoded(written[codePos + 1..] + s[read..])
  }

  lemma PendingStart(s: seq<Byte>, first: Byte)
    ensures Pending(s, 0, [first], 0)
  {
    hide Encoded;
    assert [first][1..] + s[0..] == s;
    assert [first][..0] + Encoded(s) == Encoded(s);
  }

  lemma PendingSize(s: seq<Byte>, read: nat, written: seq<Byte>, codePos: nat)
    requires Pending(s, read, written, codePos)
    ensures |Encoded(s)| >= |written| + |s| - read
  {
    hide Encoded;
    EncodedLength(written[codePos + 1..] + s[read..]);
  }

  lemma PendingZero(s: seq<Byte>, read: nat, written: seq<Byte>, codePos: nat, next: Byte)
    requires Pending(s, read, written, codePos) && read < |s| && s[read] == 0
    ensures Pending(s, read + 1, written[codePos := Octet(|written| - codePos)] + [next], |written|)
  {
    hide Encoded, Octet;
    var open, rest := written[codePos + 1..], s[read + 1..];
    var now := written[codePos := Octet(|open| + 1)] + [next];
    assert open + s[read..] == open + [0] + rest;
    ZeroEndsBlock(open, rest);
    assert now[|written| + 1..] + rest == rest;
    assert now[..|written|] == written[..codePos] + [Octet(|open| + 1)] + open;
  }

  lemma PendingByte(s: seq<Byte>, read: nat, written: seq<Byte>, codePos: nat)
    requires Pending(s, read, written, codePos) && read < |s| && s[read] != 0
    requires |written| - codePos < FULL
    ensures Pending(s, read + 1, written + [s[read]], codePos)
  {
    hide Encoded;
    var open, rest := written[codePos + 1..], s[read + 1..];
    var now := written + [s[read]];
    assert now[codePos + 1..] == open + [s[read]];
    assert open + s[read..] == now[codePos + 1..] + rest;
    assert now[..codePos] == written[..codePos];
  }

  lemma PendingFull(s: seq<Byte>, read: nat, written: seq<Byte>, codePos: nat, next: Byte)
    requires Pending(s, read, written, codePos) && read < |s| && s[read] != 0
    requires |written| - codePos == FULL
    ensures Pending(s, read + 1, written[codePos := 0xff] + [s[read], next], |written| + 1)
  {
    hide Encoded;
    var open, rest := written[codePos + 1..] + [s[read]], s[read + 1..];
    var now := written[codePos := 0xff] + [s[read], next];
    assert written[codePos + 1..] + s[read..] == open + rest;
    FullBlock(open, rest);
    assert now[|written| + 2..] + rest == rest;
    assert now[..|written| + 1] == written[..codePos] + [0xff] + open;
  }

  lemma PendingDone(s: seq<Byte>, written: seq<Byte>, codePos: nat)
    requires Pending(s, |s|, written, codePos)
    ensures Encoded(s) == written[codePos := Octet(|written| - codePos)]
  {
    hide Encoded, Octet;
    var open := written[codePos + 1..];
    assert open + s[|s|..] == open;
    LastBlock(open);
    assert written[codePos := Octet(|open| + 1)] == written[..codePos] + ([Octet(|open| + 1)] + open);
  }

  /** The encoder loop, over an output buffer of fixed size. */
  method Encode(input: seq<Byte>, output: array<Byte>) returns (written: nat, err: LinkError)
    requires output.Length > 0
    modifies output
    ensures err == if |Encoded(input)| <= output.Length then NoError else LinkOverflow
    ensures err == NoError ==> written <= output.Length && output[..written] == Encoded(input)
  {
    hide Encoded, Num, Octet, Run, Pending;
    var read: nat := 0;
    var codePos: nat := 0;
    var code: nat := 1;
    written, err := 1, LinkOverflow;
    PendingStart(input, output[0]);
    assert output[..1] == [output[0]];
    while read < |input|
      invariant read <= |input|
      invariant codePos < written <= output.Length
      invariant code == written - codePos <= FULL
      invariant Pending(input, read, output[..written], codePos)
    {
      ghost var was := output[..written];
      PendingSize(input, read, was, codePos);
      if input[read] == 0 {
        ghost var next := if written < output.Length then output[written] else 0;
        PendingZero(input, read, was, codePos, next);
        output[codePos] := Octet(code);
        ghost var block := codePos;
        codePos := written;
        if written >= output.Length {
          return;
        }
        written := written + 1;
        code := 1;
        read := read + 1;
        assert output[..written] == was[block := Octet(|was| - block)] + [next];
      } else {
        if written >= output.Length {
          return;
        }
        output[written] := input[read];
        written := written + 1;
        code := code + 1;
        read := read + 1;
        assert output[..written] == was + [input[read - 1]];
        if code == 0xff {
          ghost var next := if written < output.Length then output[written] else 0;
          PendingFull(input, read - 1, was, codePos, next);
          PendingSize(input, read, was[codePos := 0xff] + [input[read - 1], next], |was| + 1);
          output[codePos] := 0xff;
          ghost var block := codePos;
          codePos := written;
          if written >= output.Length {
            return;
          }
          written := written + 1;
          code := 1;
          assert output[..written] == was[block := 0xff] + [input[read - 1], next];
        } else {
          PendingByte(input, read - 1, was, codePos);
        }
      }
    }
    PendingDone(input, output[..written], codePos);
    output[codePos] := Octet(code);
    err := NoError;
  }

  // ----- the decoder -----

  /** What decoding the rest adds to the bytes already decoded. */
  function After(p: seq<Byte>, rest: Outcome): Outcome {
    match rest
    case Done(data) => Done(p + data)
    case failed => failed
  }

  lemma AfterAfter(p: seq<Byte>, q: seq<Byte>, rest: Outcome)
    ensures After(p, After(q, rest)) == After(p + q, rest)
  {
    if rest.Done? {
      assert p + (q + rest.data) == p + q + rest.data;
    }
  }

  lemma DecodedCases(s: seq<Byte>, room: nat)
    ensures s == [] ==> Decoded(s, room) == Done([])
    ensures s != [] && (s[0] == 0 || Num(s[0]) > |s|) ==> Decoded(s, room) == MALFORMED
    ensures s != [] ==> (s[0] == 0 <==> Num(s[0]) == 0)
    ensures s != [] && 0 < Num(s[0]) <= |s| ==> Decoded(s, room) == DecodedBlock(s, Num(s[0]), room)
  {
    hide DecodedBlock;
  }

  lemma BlockCases(s: seq<Byte>, code: nat, room: nat)
    requires 0 < code <= |s|
    ensures var body := s[1..code] + Separator(s, code);
      DecodedBlock(s, code, room) ==
        if |body| > room then OVERFLOW else After(body, Decoded(s[code..], room - |body|))
  {
  }

  /** The inner loop of the decoder; `read` is past `written` when the two buffers are one. */
  method CopyBlock(input: array<Byte>, read: nat, count: nat, output: array<Byte>, written: nat, cap: nat) returns (ok: bool)
    requires read + count <= input.Length && written < read
    requires written <= cap <= output.Length
    modifies output
    ensures ok <==> written + count <= cap
    ensures output[..written] == old(output[..written])
    ensures ok ==> output[written..written + count] == old(input[read..read + count])
    ensures ok && input == output ==> input[read + count..] == old(input[read + count..])
  {
    ghost var was := input[..];
    ghost var tail := input[read + count..];
    ok := false;
    var i: nat := 0;
    while i < count
      invariant i <= count && written + i <= cap
      invariant output[..written] == old(output[..written])
      invariant input[read + i..] == was[read + i..]
      invariant output[written..written + i] == was[read..read + i]
    {
      if written + i >= cap {
        return;
      }
      assert input[read + i] == input[read + i..][0] == was[read + i];
      output[written + i] := input[read + i];
      i := i + 1;
      assert output[written..written + i] == output[written..written + i - 1] + [was[read + i - 1]];
    }
    ok := true;
    assert was[read + count..] == tail;
  }

  /** The bytes of a block and the zero after it, if there is one. */
  method TakeBlock(input: array<Byte>, read: nat, count: nat, output: array<Byte>, start: nat, cap: nat, separator: bool)
    returns (written: nat, ok: bool)
    requires read + count <= input.Length && start < read
    requires start <= cap <= output.Length
    modifies output
    ensures ok <==> start + count + (if separator then 1 else 0) <= cap
    ensures ok ==> written <= cap && written <= read + count
    ensures ok ==>
      output[..written] == old(output[..start]) + (old(input[read..read + count]) + if separator then [0] else [])
    ensures ok ==> input[read + count..] == old(input[read + count..])
  {
    ok := CopyBlock(input, read, count, output, start, cap);
    if !ok {
      return start, false;
    }
    written := start + count;
    if separator {
      if written >= cap {
        return written, false;
      }
      ghost var tail := input[read + count..];
      output[written] := 0;
      assert input[read + count..] == tail;
      written := written + 1;
    }
  }

  /** What the block at `read` decodes to, with the zero it stands for behind it. */
  ghost function BlockAt(was: seq<Byte>, read: nat, length: nat): seq<Byte>
    requires read < length <= |was| && 0 < Num(was[read]) && read + Num(was[read]) <= length
  {
    var end := read + Num(was[read]);
    was[read + 1..end] + if Num(was[read]) < 0xff && end < length then [0] else []
  }

  /** One turn of the decoder, on what is still to be read. */
  lemma DecodeStep(was: seq<Byte>, read: nat, length: nat, room: nat, done: seq<Byte>)
    requires read < length <= |was|
    ensures var r := After(done, Decoded(was[read..length], room));
      var code := Num(was[read]);
      && (was[read] == 0 <==> code == 0)
      && (code == 0 || read + code > length ==> r == MALFORMED)
      && (0 < code && read + code <= length ==>
           var block := BlockAt(was, read, length);
           if |block| > room then r == OVERFLOW
           else r == After(done + block, Decoded(was[read + code..length], room - |block|)))
  {
    hide Decoded, DecodedBlock, Num, Separator, After;
    var rest := was[read..length];
    DecodedCases(rest, room);
    AfterFailed(done, MALFORMED);
    AfterFailed(done, OVERFLOW);
    var code := Num(was[read]);
    if 0 < code && read + code <= length {
      BlockCases(rest, code, room);
      SeparatorAt(rest, code);
      SliceOfSlice(was, read, length, 1, code);
      SliceOfSlice(was, read, length, code, length - read);
      var block := BlockAt(was, read, length);
      if |block| <= room {
        AfterAfter(done, block, Decoded(was[read + code..length], room - |block|));
      }
    }
  }

  /** Behind a code byte that has not been overwritten lie its block and the rest, as they were. */
  lemma BodyHere(now: seq<Byte>, was: seq<Byte>, read: nat, count: nat, length: nat)
    requires |now| == |was| && read + 1 + count <= length <= |was| && now[read..] == was[read..] && Num(was[read]) == count + 1
    ensures now[read + 1..read + 1 + count] + (if Num(was[read]) < 0xff && read + 1 + count < length then [0] else [])
         == BlockAt(was, read, length)
    ensures now[read + 1 + count..] == was[read + 1 + count..]
  {
    hide Num;
    assert now[read + 1..] == now[read..][1..] && was[read + 1..] == was[read..][1..];
    SliceOfTail(now, was, read + 1, count);
    TailOfTail(was, read + 1, count);
    TailOfTail(now, read + 1, count);
  }

  /**
   The decoder loop. The input may be the output buffer itself: every byte is read
   before it is overwritten, so decoding in place gives what decoding into a separate
   buffer gives.
   */
  method Decode(input: array<Byte>, length: nat, output: array<Byte>, cap: nat)
    returns (written: nat, err: LinkError, ghost r: Outcome)
    requires length <= input.Length && cap <= output.Length
    modifies output
    ensures r == Decoded(old(input[..length]), cap)
    ensures r.Done? ==> err == NoError && written <= cap && output[..written] == r.data
    ensures r.Failed? ==> err == r.err && err != NoError
  {
    hide Decoded, DecodedBlock, Num, Separator, After, BlockAt;
    ghost var was := input[..];
    r := Decoded(was[..length], cap);
    var read: nat := 0;
    written := 0;
    err := NoError;
    ghost var done: seq<Byte> := [];
    AfterNothing(was[..length], cap);
    assert was[0..length] == was[..length] == input[..length];
    while read < length
      invariant written <= read <= length && written <= cap
      invariant input[read..] == was[read..]
      invariant output[..written] == done
      invariant r == After(done, Decoded(was[read..length], cap - written))
    {
      assert input[read] == input[read..][0] == was[read..][0] == was[read];
      DecodeStep(was, read, length, cap - written, done);
      var code := input[read];
      if code == 0 {
        return written, CobsDecode, r;
      }
      var count: nat := Num(code) - 1;
      if read + 1 + count > length {
        return written, CobsDecode, r;
      }
      BodyHere(input[..], was, read, count, length);
      ghost var block := BlockAt(was, read, length);
      read := read + 1;
      var more := Num(code) < 0xff && read + count < length;
      var ok;
      written, ok := TakeBlock(input, read, count, output, written, cap, more);
      if !ok {
        return written, LinkOverflow, r;
      }
      read := read + count;
      done := done + block;
    }
    assert was[read..length] == [];
    DecodedCases([], cap - written);
    AfterNone(done);
  }

  lemma SliceOfSlice(s: seq<Byte>, a: nat, b: nat, c: nat, d: nat)
    requires a <= b <= |s| && c <= d <= b - a
    ensures s[a..b][c..d] == s[a + c..a + d]
  {
    forall k | 0 <= k < d - c ensures s[a..b][c..d][k] == s[a + c..a + d][k] { assert s[a..b][c + k] == s[a + c + k]; }
  }

  lemma SliceOfTail(s: seq<Byte>, t: seq<Byte>, from: nat, count: nat)
    requires |s| == |t| && from + count <= |s| && s[from..] == t[from..]
    ensures s[from..from + count] == t[from..from + count]
  {
    assert s[from..from + count] == s[from..][..count];
    assert t[from..from + count] == t[from..][..count];
  }

  lemma TailOfTail(s: seq<Byte>, from: nat, count: nat)
    requires from + count <= |s|
    ensures s[from..][count..] == s[from + count..]
  {
  }

  lemma AfterFailed(p: seq<Byte>, o: Outcome)
    requires !o.Done?
    ensures After(p, o) == o
  {
  }

  lemma AfterNone(p: seq<Byte>)
    ensures After(p, Done([])) == Done(p)
  {
    assert p + [] == p;
  }

  lemma AfterNothing(s: seq<Byte>, room: nat)
    ensures After([], Decoded(s, room)) == Decoded(s, room)
  {
    hide Decoded;
    if Decoded(s, room).Done? {
      assert [] + Decoded(s, room).data == Decoded(s, room).data;
    }
  }

  lemma SeparatorAt(s: seq<Byte>, code: nat)
    ensures Separator(s, code) == if code < 0xff && code < |s| then [0] else []
  {
  }

}

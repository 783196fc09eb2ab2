/**
 The cyclic redundancy check shared by the control link and the snapshot store:
 the frame check sequence of IEEE 802.3, section 3.2.9, low bit first.
 */
module Crc {
  import opened Bytes

  const ALL_ONES: bv32 := 0xFFFF_FFFF

  /** One turn of the bit loop. */
  function Step(c: bv32): bv32 {
    if c & 1 != 0 then (c >> 1) ^ 0xEDB88320 else c >> 1
  }

  /** The inverse of `Step`: the top bit tells whether the polynomial was added. */
  function Unstep(c: bv32): bv32 {
    if c & 0x8000_0000 != 0 then ((c ^ 0xEDB88320) << 1) | 1 else c << 1
  }

  /** The bit step is a bijection of the 32-bit states. */
  lemma StepBijective(c: bv32)
    ensures Unstep(Step(c)) == c
    ensures Step(Unstep(c)) == c
  {
    UnstepStep(c);
    StepUnstep(c);
  }

  lemma UnstepStep(c: bv32)
    ensures Unstep(Step(c)) == c
  {
  }

  lemma StepUnstep(c: bv32)
    ensures Step(Unstep(c)) == c
  {
    var u := Unstep(c);
    if c & 0x8000_0000 != 0 {
      TopSet(c);
    } else {
      TopClear(c);
    }
  }

  lemma TopSet(c: bv32)
    requires c & 0x8000_0000 != 0
    ensures (((c ^ 0xEDB88320) << 1) | 1) & 1 != 0
    ensures ((((c ^ 0xEDB88320) << 1) | 1) >> 1) ^ 0xEDB88320 == c
  {
  }

  lemma TopClear(c: bv32)
    requires c & 0x8000_0000 == 0
    ensures (c << 1) & 1 == 0
    ensures (c << 1) >> 1 == c
  {
  }

  function Steps(c: bv32, count: nat): bv32
    decreases count
  {
    if count == 0 then c else Steps(Step(c), count - 1)
  }

  lemma {:induction false} StepsInjective(c: bv32, d: bv32, count: nat)
    requires Steps(c, count) == Steps(d, count)
    ensures c == d
    decreases count
  {
    hide Step, Unstep;
    if count > 0 {
      StepsInjective(Step(c), Step(d), count - 1);
      StepBijective(c);
      StepBijective(d);
    }
  }

  lemma {:induction false} StepsLast(c: bv32, count: nat)
    ensures Steps(c, count + 1) == Step(Steps(c, count))
    decreases count
  {
    hide Step;
    if count > 0 {
      StepsLast(Step(c), count - 1);
    }
  }

  /** The state after one more byte. */
  function Absorb(c: bv32, b: Byte): bv32 { Steps(Mix(c, b), 8) }

  function Mix(c: bv32, b: Byte): bv32 { c ^ (b as bv32) }

  function Update(c: bv32, data: seq<Byte>): bv32
    decreases |data|
  {
    if data == [] then c else Update(Absorb(c, data[0]), data[1..])
  }

  function Crc32(data: seq<Byte>): bv32 { Update(ALL_ONES, data) ^ ALL_ONES }

  method ComputeUpdate(start: bv32, data: seq<Byte>) returns (crc: bv32)
    ensures crc == Update(start, data)
  {
    hide Step, Steps;
    crc := start;
    var i := 0;
    assert data[0..] == data;
    while i < |data|
      invariant 0 <= i <= |data|
      invariant Update(crc, data[i..]) == Update(start, data)
    {
      ghost var before := crc;
      crc := crc ^ (data[i] as bv32);
      ghost var mixed := crc;
      var bit: nat := 0;
      StepsNone(mixed);
      while bit < 8
        invariant bit <= 8
        invariant crc == Steps(mixed, bit)
      {
        StepsLast(mixed, bit);
        StepCases(crc);
        if crc & 1 != 0 {
          crc := (crc >> 1) ^ 0xEDB88320;
        } else {
          crc := crc >> 1;
        }
        bit := bit + 1;
      }
      assert data[i..][1..] == data[i + 1..] && data[i..][0] == data[i];
      assert crc == Absorb(before, data[i]);
      i := i + 1;
    }
  }

  lemma StepCases(c: bv32)
    ensures Step(c) == if c & 1 != 0 then (c >> 1) ^ 0xEDB88320 else c >> 1
  {
  }

  lemma StepsNone(c: bv32)
    ensures Steps(c, 0) == c
  {
  }

  method ComputeCrc32(data: seq<Byte>) returns (crc: bv32)
    ensures crc == Crc32(data)
  {
    var state := ComputeUpdate(ALL_ONES, data);
    crc := state ^ 0xFFFF_FFFF;
  }

  lemma {:induction false} UpdateConcat(c: bv32, x: seq<Byte>, y: seq<Byte>)
    ensures Update(c, x + y) == Update(Update(c, x), y)
    decreases |x|
  {
    hide Absorb;
    if x == [] {
      assert x + y == y;
    } else {
      assert (x + y)[1..] == x[1..] + y;
      UpdateConcat(Absorb(c, x[0]), x[1..], y);
    }
  }

  lemma AbsorbInjective(c: bv32, d: bv32, b: Byte)
    requires Absorb(c, b) == Absorb(d, b)
    ensures c == d
  {
    hide Steps, Mix;
    StepsInjective(Mix(c, b), Mix(d, b), 8);
    MixInjective(c, d, b);
  }

  lemma MixInjective(c: bv32, d: bv32, b: Byte)
    requires Mix(c, b) == Mix(d, b)
    ensures c == d
  {
    XorCancel(c, d, b as bv32);
  }

  lemma XorCancel(c: bv32, d: bv32, x: bv32)
    requires c ^ x == d ^ x
    ensures c == d
  {
    assert (c ^ x) ^ x == c;
    assert (d ^ x) ^ x == d;
  }

  /** Two states that differ stay different whatever bytes follow. */
  lemma {:induction false} UpdateInjective(c: bv32, d: bv32, data: seq<Byte>)
    requires Update(c, data) == Update(d, data)
    ensures c == d
    decreases |data|
  {
    hide Absorb;
    if data != [] {
      UpdateInjective(Absorb(c, data[0]), Absorb(d, data[0]), data[1..]);
      AbsorbInjective(c, d, data[0]);
    }
  }

  /** Two byte strings of one length that differ in exactly one place. */
  ghost predicate OneChange(x: seq<Byte>, y: seq<Byte>, at: nat) {
    && |x| == |y| && at < |x| && x[at] != y[at]
    && x[..at] == y[..at] && x[at + 1..] == y[at + 1..]
  }

  lemma AbsorbTells(c: bv32, x: Byte, y: Byte)
    requires x != y
    ensures Absorb(c, x) != Absorb(c, y)
  {
    hide Steps, Mix;
    if Absorb(c, x) == Absorb(c, y) {
      StepsInjective(Mix(c, x), Mix(c, y), 8);
      ByteTells(c, x, y);
    }
  }

  lemma ByteTells(c: bv32, x: Byte, y: Byte)
    requires x != y
    ensures Mix(c, x) != Mix(c, y)
  {
  }

  /** The check sees every change of a single byte. */
  lemma ChangeDetected(c: bv32, x: seq<Byte>, y: seq<Byte>, at: nat)
    requires OneChange(x, y, at)
    ensures Update(c, x) != Update(c, y)
  {
    hide Absorb;
    var mid := Update(c, x[..at]);
    UpdateSplit(c, x, at);
    UpdateSplit(c, y, at);
    AbsorbTells(mid, x[at], y[at]);
    if Update(c, x) == Update(c, y) {
      UpdateInjective(Absorb(mid, x[at]), Absorb(mid, y[at]), x[at + 1..]);
    }
  }

  lemma UpdateSplit(c: bv32, x: seq<Byte>, at: nat)
    requires at < |x|
    ensures Update(c, x) == Update(Absorb(Update(c, x[..at]), x[at]), x[at + 1..])
  {
    hide Absorb;
    assert x == x[..at] + x[at..];
    UpdateConcat(c, x[..at], x[at..]);
    assert x[at..][1..] == x[at + 1..];
  }

  lemma Crc32ChangeDetected(x: seq<Byte>, y: seq<Byte>, at: nat)
    requires OneChange(x, y, at)
    ensures Crc32(x) != Crc32(y)
  {
    hide Update;
    ChangeDetected(ALL_ONES, x, y, at);
    if Crc32(x) == Crc32(y) {
      XorCancel(Update(ALL_ONES, x), Update(ALL_ONES, y), ALL_ONES);
    }
  }
}

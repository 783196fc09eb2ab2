/**
 The checksum as a remainder of polynomials whose coefficients are bits.

 A polynomial is the set of the exponents whose coefficient is one.
 */
module Polynomial {
  import opened Bytes
  import opened Crc

  type Poly = set<nat>

  function Plus(a: Poly, b: Poly): Poly { (a - b) + (b - a) }

  /** `a` times the power `k` of x. */
  function Times(a: Poly, k: nat): Poly { set e | e in a :: e + k }

  /** The generator of IEEE 802.3, section 3.2.9. */
  function Generator(): Poly { {32, 26, 23, 22, 16, 12, 11, 10, 8, 7, 5, 4, 2, 1, 0} }

  /** The generator times the polynomial with these coefficients, highest first. */
  function Multiple(q: seq<bool>): Poly {
    if q == [] then {}
    else Plus(Times(Multiple(q[..|q| - 1]), 1), if q[|q| - 1] then Generator() else {})
  }

  /** `r` is `a` without a multiple of the generator, and of smaller degree than it. */
  ghost predicate Remainder(a: Poly, r: Poly) {
    (forall e :: e in r ==> e < 32) && exists q :: a == Plus(r, Multiple(q))
  }

  // ----- what a register stands for -----

  /** The bit that is the coefficient of the power `e`: the lowest bit is the highest power. */
  function Mask(e: nat): bv32 {
    match e
    case 31 => 0x00000001
    case 30 => 0x00000002
    case 29 => 0x00000004
    case 28 => 0x00000008
    case 27 => 0x00000010
    case 26 => 0x00000020
    case 25 => 0x00000040
    case 24 => 0x00000080
    case 23 => 0x00000100
    case 22 => 0x00000200
    case 21 => 0x00000400
    case 20 => 0x00000800
    case 19 => 0x00001000
    case 18 => 0x00002000
    case 17 => 0x00004000
    case 16 => 0x00008000
    case 15 => 0x00010000
    case 14 => 0x00020000
    case 13 => 0x00040000
    case 12 => 0x00080000
    case 11 => 0x00100000
    case 10 => 0x00200000
    case 9 => 0x00400000
    case 8 => 0x00800000
    case 7 => 0x01000000
    case 6 => 0x02000000
    case 5 => 0x04000000
    case 4 => 0x08000000
    case 3 => 0x10000000
    case 2 => 0x20000000
    case 1 => 0x40000000
    case 0 => 0x80000000
    case _ => 0
  }

  function Coefficient(c: bv32, e: nat): bool { c & Mask(e) != 0 }

  function Register(c: bv32): Poly { set e | 0 <= e < 32 && Coefficient(c, e) }

  /** The bits of a byte, the lowest one first, which makes it the highest power. */
  function ByteCoefficient(b: Byte, e: nat): bool { (b as bv32) & Mask(e + 24) != 0 }

  function ByteWord(b: Byte): Poly { set e | 0 <= e < 8 && ByteCoefficient(b, e) }

  /** The bits of the data in the order of transmission, the first one the highest power. */
  function Data(data: seq<Byte>): Poly {
    if data == [] then {}
    else Plus(Times(Data(data[..|data| - 1]), 8), ByteWord(data[|data| - 1]))
  }

  predicate Below(e: int, bound: nat) { 0 <= e < bound }

  function Ones(): Poly { set e | 0 <= e < 32 && Below(e, 32) }

  // ----- sums and shifts -----

  lemma InTimes(a: Poly, k: nat, e: nat)
    ensures e in Times(a, k) <==> e >= k && e - k in a
  {
    if e >= k && e - k in a {
      assert (e - k) + k == e;
    }
  }

  lemma TimesPlus(a: Poly, b: Poly, k: nat)
    ensures Times(Plus(a, b), k) == Plus(Times(a, k), Times(b, k))
  {
    hide Times;
    forall e: nat ensures e in Times(Plus(a, b), k) <==> e in Plus(Times(a, k), Times(b, k)) {
      InTimes(Plus(a, b), k, e);
      InTimes(a, k, e);
      InTimes(b, k, e);
    }
  }

  lemma TimesTwice(a: Poly, j: nat, k: nat)
    ensures Times(Times(a, j), k) == Times(a, j + k)
  {
    hide Times;
    forall e: nat ensures e in Times(Times(a, j), k) <==> e in Times(a, j + k) {
      InTimes(Times(a, j), k, e);
      InTimes(a, j + k, e);
      if e >= k { InTimes(a, j, e - k); }
    }
  }

  lemma TimesNone(a: Poly)
    ensures Times(a, 0) == a
  {
    hide Times;
    forall e: nat ensures e in Times(a, 0) <==> e in a { InTimes(a, 0, e); }
  }

  // ----- one step of division -----

  predicate OneBit(m: bv32) { m != 0 && m & (m - 1) == 0 }

  lemma MaskOneBit(e: nat)
    requires e < 32
    ensures OneBit(Mask(e))
  {
  }

  lemma MaskShift(e: nat)
    requires e < 32
    ensures Mask(e) << 1 == if e == 0 then 0 else Mask(e - 1)
  {
    hide Mask;
    if e < 16 { MaskShiftLow(e); } else { MaskShiftHigh(e); }
  }

  lemma MaskShiftLow(e: nat)
    requires e < 16
    ensures Mask(e) << 1 == if e == 0 then 0 else Mask(e - 1)
  {
  }

  lemma MaskShiftHigh(e: nat)
    requires 16 <= e < 32
    ensures Mask(e) << 1 == Mask(e - 1)
  {
  }

  /** The constant of the bit loop is the generator without its highest power. */
  lemma MaskGenerator(e: nat)
    requires e < 32
    ensures 0xEDB88320 & Mask(e) != 0 <==> e in Generator()
  {
  }

  lemma XorBit(a: bv32, b: bv32, m: bv32)
    requires OneBit(m)
    ensures (a ^ b) & m != 0 <==> ((a & m != 0) != (b & m != 0))
  {
  }

  lemma ShiftBit(c: bv32, m: bv32)
    ensures (c >> 1) & m != 0 <==> c & (m << 1) != 0
  {
  }

  lemma StepCoefficient(c: bv32, e: nat)
    requires e < 32
    ensures Coefficient(Step(c), e) == ((e > 0 && Coefficient(c, e - 1)) != (c & 1 != 0 && e in Generator()))
  {
    hide Mask, Generator, OneBit;
    MaskOneBit(e);
    MaskShift(e);
    MaskGenerator(e);
    XorBit(c >> 1, 0xEDB88320, Mask(e));
    ShiftBit(c, Mask(e));
    NoBits(c);
  }

  lemma NoBits(c: bv32)
    ensures c & 0 == 0
  {
  }

  /** A turn of the bit loop multiplies by x and takes the generator away if the result has
      its degree. */
  lemma StepRegister(c: bv32)
    ensures Times(Register(c), 1) == Plus(Register(Step(c)), if c & 1 != 0 then Generator() else {})
  {
    hide Times, Step, Coefficient, Generator;
    var g := if c & 1 != 0 then Generator() else {};
    GeneratorTop();
    forall e: nat ensures e in Times(Register(c), 1) <==> e in Plus(Register(Step(c)), g) {
      InTimes(Register(c), 1, e);
      if e < 32 { StepCoefficient(c, e); }
      if e == 32 { TopCoefficient(c); }
    }
  }

  lemma GeneratorTop()
    ensures 32 in Generator() && forall e :: e in Generator() ==> e <= 32
  {
  }

  lemma TopCoefficient(c: bv32)
    ensures Coefficient(c, 31) <==> c & 1 != 0
  {
  }

  lemma PlusSwap(a: Poly, b: Poly, c: Poly)
    ensures Plus(Plus(a, b), c) == Plus(a, Plus(c, b)) == Plus(Plus(a, c), b)
  {
  }

  lemma StepRemainder(a: Poly, c: bv32)
    requires Remainder(a, Register(c))
    ensures Remainder(Times(a, 1), Register(Step(c)))
  {
    hide Register, Times, Plus, Step, Generator;
    var q :| a == Plus(Register(c), Multiple(q));
    var bit := c & 1 != 0;
    var g, more := if bit then Generator() else {}, q + [bit];
    TimesPlus(Register(c), Multiple(q), 1);
    StepRegister(c);
    PlusSwap(Register(Step(c)), g, Times(Multiple(q), 1));
    assert more[..|more| - 1] == q;
    assert Times(a, 1) == Plus(Register(Step(c)), Multiple(more));
    RegisterSmall(Step(c));
  }

  lemma RegisterSmall(c: bv32)
    ensures forall e :: e in Register(c) ==> e < 32
  {
  }

  lemma {:induction false} StepsRemainder(a: Poly, c: bv32, count: nat)
    requires Remainder(a, Register(c))
    ensures Remainder(Times(a, count), Register(Steps(c, count)))
    decreases count
  {
    hide Register, Times, Step, Remainder;
    if count == 0 {
      TimesNone(a);
    } else {
      StepRemainder(a, c);
      StepsRemainder(Times(a, 1), Step(c), count - 1);
      TimesTwice(a, 1, count - 1);
    }
  }

  // ----- there is only one remainder -----

  /** The sum of two quotients, aligned at their lowest coefficients. */
  function Sum(p: seq<bool>, q: seq<bool>): seq<bool> {
    if p == [] then q
    else if q == [] then p
    else Sum(p[..|p| - 1], q[..|q| - 1]) + [p[|p| - 1] != q[|q| - 1]]
  }

  lemma {:induction false} MultipleSum(p: seq<bool>, q: seq<bool>)
    ensures Multiple(Sum(p, q)) == Plus(Multiple(p), Multiple(q))
  {
    hide Times, Plus, Generator;
    if p == [] || q == [] {
      PlusNothing(Multiple(p));
      PlusNothing(Multiple(q));
    } else {
      var x, y := p[..|p| - 1], q[..|q| - 1];
      var a, b := p[|p| - 1], q[|q| - 1];
      MultipleSum(x, y);
      var s := Sum(p, q);
      assert s[..|s| - 1] == Sum(x, y) && s[|s| - 1] == (a != b);
      TimesPlus(Multiple(x), Multiple(y), 1);
      PlusFour(Times(Multiple(x), 1), Times(Multiple(y), 1), a, b, Generator());
    }
  }

  lemma PlusNothing(a: Poly)
    ensures Plus({}, a) == a == Plus(a, {})
  {
  }

  lemma PlusFour(x: Poly, y: Poly, a: bool, b: bool, g: Poly)
    ensures Plus(Plus(x, y), if a != b then g else {}) == Plus(Plus(x, if a then g else {}), Plus(y, if b then g else {}))
  {
  }

  /** The degree of a multiple of the generator; zero for the multiple by zero. */
  function Degree(q: seq<bool>): nat {
    if q == [] then 0
    else
      var d := Degree(q[..|q| - 1]);
      if d > 0 then d + 1 else if q[|q| - 1] then 32 else 0
  }

  lemma {:induction false} DegreeIs(q: seq<bool>)
    ensures Degree(q) == 0 ==> Multiple(q) == {}
    ensures Degree(q) > 0 ==> Degree(q) >= 32 && Degree(q) in Multiple(q) && forall e :: e in Multiple(q) ==> e <= Degree(q)
  {
    hide Times, Generator;
    if q != [] {
      var front := q[..|q| - 1];
      DegreeIs(front);
      GeneratorTop();
      forall e: nat ensures e in Times(Multiple(front), 1) <==> e >= 1 && e - 1 in Multiple(front) {
        InTimes(Multiple(front), 1, e);
      }
    }
  }

  lemma RemainderOnce(a: Poly, r: Poly, s: Poly)
    requires Remainder(a, r) && Remainder(a, s)
    ensures r == s
  {
    hide Multiple;
    var p :| a == Plus(r, Multiple(p));
    var q :| a == Plus(s, Multiple(q));
    var m := Sum(p, q);
    MultipleSum(p, q);
    DegreeIs(m);
    assert Plus(r, s) == Multiple(m);
    if Degree(m) > 0 {
      assert Degree(m) in Plus(r, s);
    }
    assert Plus(r, s) == {};
  }

  // ----- one byte -----

  lemma MixCoefficient(c: bv32, b: Byte, e: nat)
    requires e < 32
    ensures Coefficient(Mix(c, b), e) == (Coefficient(c, e) != (e >= 24 && ByteCoefficient(b, e - 24)))
  {
    hide Mask, OneBit;
    WordCoefficient(c, b as bv32, e);
    if e < 24 {
      LowByte(b, e);
    } else {
      assert e - 24 + 24 == e;
    }
  }

  lemma WordCoefficient(c: bv32, w: bv32, e: nat)
    requires e < 32
    ensures Coefficient(c ^ w, e) == (Coefficient(c, e) != Coefficient(w, e))
  {
    hide Mask, OneBit;
    MaskOneBit(e);
    XorBit(c, w, Mask(e));
  }

  /** A byte has no bit for the powers below the 24th. */
  lemma LowByte(b: Byte, e: nat)
    requires e < 24
    ensures (b as bv32) & Mask(e) == 0
  {
    hide Mask;
    HighMask(e);
    Apart(b, Mask(e));
  }

  lemma HighMask(e: nat)
    requires e < 24
    ensures Mask(e) & 0xFF == 0
  {
  }

  lemma Apart(b: Byte, m: bv32)
    requires m & 0xFF == 0
    ensures (b as bv32) & m == 0
  {
  }

  lemma MixRegister(c: bv32, b: Byte)
    ensures Register(Mix(c, b)) == Plus(Register(c), Times(ByteWord(b), 24))
  {
    hide Times, Mix, Coefficient, ByteCoefficient;
    forall e: nat ensures e in Register(Mix(c, b)) <==> e in Plus(Register(c), Times(ByteWord(b), 24)) {
      InTimes(ByteWord(b), 24, e);
      if e < 32 { MixCoefficient(c, b, e); }
    }
  }

  lemma AbsorbRemainder(a: Poly, c: bv32, b: Byte)
    requires Remainder(a, Register(c))
    ensures Remainder(Plus(Times(a, 8), Times(ByteWord(b), 32)), Register(Absorb(c, b)))
  {
    hide Register, Times, Plus, Steps, Mix, ByteWord, Multiple;
    var q :| a == Plus(Register(c), Multiple(q));
    var word := Times(ByteWord(b), 24);
    MixRegister(c, b);
    PlusSwap(Register(c), Multiple(q), word);
    assert Plus(a, word) == Plus(Register(Mix(c, b)), Multiple(q));
    RegisterSmall(Mix(c, b));
    StepsRemainder(Plus(a, word), Mix(c, b), 8);
    TimesPlus(a, word, 8);
    TimesTwice(ByteWord(b), 24, 8);
  }

  // ----- whole strings -----

  /** The data times x to the 32nd, and the start times x to the number of bits. */
  function Dividend(start: Poly, data: seq<Byte>): Poly { Plus(Times(start, 8 * |data|), Times(Data(data), 32)) }

  lemma DividendNext(start: Poly, data: seq<Byte>)
    requires data != []
    ensures Dividend(start, data)
         == Plus(Times(Dividend(start, data[..|data| - 1]), 8), Times(ByteWord(data[|data| - 1]), 32))
  {
    hide Times, Plus, ByteWord;
    var front, word := data[..|data| - 1], ByteWord(data[|data| - 1]);
    var s, d := Times(start, 8 * |front|), Times(Data(front), 32);
    TimesPlus(s, d, 8);
    TimesTwice(start, 8 * |front|, 8);
    TimesTwice(Data(front), 32, 8);
    TimesTwice(Data(front), 8, 32);
    TimesPlus(Times(Data(front), 8), word, 32);
    PlusSwap(Times(s, 8), Times(d, 8), Times(word, 32));
    PlusTurn(Times(d, 8), Times(word, 32));
  }

  lemma PlusTurn(a: Poly, b: Poly)
    ensures Plus(a, b) == Plus(b, a)
  {
  }

  lemma {:induction false} UpdateRemainder(c: bv32, data: seq<Byte>)
    ensures Remainder(Dividend(Register(c), data), Register(Update(c, data)))
    decreases |data|
  {
    hide Register, Dividend, Absorb, Remainder;
    if data == [] {
      NothingAbsorbed(c);
    } else {
      var front := data[..|data| - 1];
      UpdateRemainder(c, front);
      AbsorbRemainder(Dividend(Register(c), front), Update(c, front), data[|data| - 1]);
      DividendNext(Register(c), data);
      assert data == front + [data[|data| - 1]];
      UpdateConcat(c, front, [data[|data| - 1]]);
      assert [data[|data| - 1]][1..] == [];
    }
  }

  lemma NothingAbsorbed(c: bv32)
    ensures Remainder(Dividend(Register(c), []), Register(c))
  {
    hide Times, Register;
    TimesNone(Register(c));
    assert Times({}, 32) == {} by {
      forall e: nat ensures e !in Times({}, 32) { InTimes({}, 32, e); }
    }
    assert Multiple([]) == {};
    assert Dividend(Register(c), []) == Plus(Register(c), Multiple([]));
    RegisterSmall(c);
  }

  lemma AllOnes()
    ensures Register(ALL_ONES) == Ones()
  {
    forall e: nat | e < 32 ensures Coefficient(ALL_ONES, e) {
    }
  }

  lemma ComplementCoefficient(c: bv32, e: nat)
    requires e < 32
    ensures Coefficient(c ^ ALL_ONES, e) == !Coefficient(c, e)
  {
    hide Mask, OneBit;
    MaskOneBit(e);
    WordCoefficient(c, ALL_ONES, e);
    FullBit(Mask(e));
  }

  lemma FullBit(m: bv32)
    requires OneBit(m)
    ensures ALL_ONES & m != 0
  {
  }

  /**
   The checksum is the complement of the remainder that is left when the data, followed by
   32 zero bits and with its first 32 bits complemented, is divided by the generator.
   */
  lemma ChecksumIsRemainder(data: seq<Byte>)
    ensures Remainder(Plus(Times(Ones(), 8 * |data|), Times(Data(data), 32)), Plus(Ones(), Register(Crc32(data))))
  {
    hide Register, Times, Update, Remainder, Ones;
    UpdateRemainder(ALL_ONES, data);
    AllOnes();
    Complemented(Update(ALL_ONES, data));
  }

  lemma Complemented(c: bv32)
    ensures Register(c) == Plus(Ones(), Register(c ^ ALL_ONES))
  {
    hide Coefficient;
    forall e: nat | e < 32 ensures Coefficient(c ^ ALL_ONES, e) == !Coefficient(c, e) {
      ComplementCoefficient(c, e);
    }
  }
}

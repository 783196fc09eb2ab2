/**
 Bytes, and unsigned integers laid out with the low byte first.
 */
module Bytes {
  type Byte = bv8

  /** The number a byte stands for. */
  function Num(b: Byte): nat { b as nat }

  /** The byte that stands for a number. */
  function Octet(n: nat): Byte
    requires n < 256
  {
    n as bv8
  }

  lemma OctetNum(b: Byte)
    ensures Num(b) < 256
    ensures Octet(Num(b)) == b
  {
  }

  lemma NumOctet(n: nat)
    requires n < 256
    ensures Num(Octet(n)) == n
    ensures Octet(n) == 0 <==> n == 0
  {
    hide Octet, Num;
    OctetBack(n);
    OctetBack(0);
    ZeroOctet();
  }

  lemma NextNum(b: Byte)
    requires b != 255
    ensures Num(b + 1) == Num(b) + 1
  {
  }

  lemma EndNums(b: Byte)
    ensures Num(0) == 0
    ensures b == 255 ==> Num(b) == 255
  {
  }

  lemma {:induction false} SomeByte(n: nat) returns (b: Byte)
    requires n < 256
    ensures Num(b) == n
  {
    hide Num;
    b := 0;
    if n == 0 {
      EndNums(b);
    } else {
      b := SomeByte(n - 1);
      EndNums(b);
      NextNum(b);
      b := b + 1;
    }
  }

  lemma OctetBack(n: nat)
    requires n < 256
    ensures Num(Octet(n)) == n
  {
    hide Num, Octet;
    var b := SomeByte(n);
    OctetNum(b);
  }

  lemma ZeroOctet()
    ensures Octet(0) == 0
  {
  }

  function Range(width: nat): (r: nat)
    ensures r > 0
  {
    if width == 0 then 1 else 256 * Range(width - 1)
  }

  /** The low `width` bytes of `n`, low byte first. */
  function Little(n: nat, width: nat): (s: seq<Byte>)
    ensures |s| == width
  {
    if width == 0 then [] else [Octet(n % 256)] + Little(n / 256, width - 1)
  }

  function Value(s: seq<Byte>): nat {
    if s == [] then 0 else Num(s[0]) + 256 * Value(s[1..])
  }

  lemma {:induction false} ValueBelow(s: seq<Byte>)
    ensures Value(s) < Range(|s|)
  {
    if s != [] {
      OctetNum(s[0]);
      ValueBelow(s[1..]);
    }
  }

  /** Reading back what was written gives the number modulo the field's range. */
  lemma {:induction false} ReadBack(n: nat, width: nat)
    ensures Value(Little(n, width)) == n % Range(width)
  {
    if width > 0 {
      var rest := n / 256;
      var r := Range(width - 1);
      ReadBack(rest, width - 1);
      NumOctet(n % 256);
      assert Little(n, width)[1..] == Little(rest, width - 1);
      ModSplit(n, r);
    }
  }

  lemma DivTwice(n: nat, a: nat, b: nat)
    requires a > 0 && b > 0
    ensures a * b > 0 && n / a / b == n / (a * b)
  {
    var q := n / a;
    var m := q / b;
    var low := n % a + a * (q % b);
    assert n == a * q + n % a && q == b * m + q % b;
    assert a * (b * m + q % b) == a * b * m + a * (q % b);
    assert a * (q % b) <= a * (b - 1) by { Scaled(a, q % b, b - 1); }
    assert n == (a * b) * m + low && 0 <= low < a * b;
    Quotient(n, a * b, m, low);
  }

  lemma Scaled(a: nat, x: int, y: int)
    requires x <= y
    ensures a * x <= a * y
  {
  }

  lemma Quotient(n: nat, d: nat, q: nat, r: nat)
    requires d > 0 && n == d * q + r && r < d
    ensures n / d == q
  {
    if n / d > q {
      Scaled(d, q + 1, n / d);
    } else if n / d < q {
      Scaled(d, n / d + 1, q);
    }
  }

  /** Byte `k` holds the bits from number `8 k` on. */
  lemma {:induction false} LittleAt(n: nat, width: nat, k: nat)
    requires k < width
    ensures Num(Little(n, width)[k]) == n / Range(k) % 256
  {
    hide Num, Octet;
    assert Little(n, width) == [Octet(n % 256)] + Little(n / 256, width - 1);
    if k == 0 {
      NumOctet(n % 256);
    } else {
      LittleAt(n / 256, width - 1, k - 1);
      DivTwice(n, 256, Range(k - 1));
    }
  }

  lemma ModSplit(n: nat, r: nat)
    requires r > 0
    ensures n % (256 * r) == n % 256 + 256 * (n / 256 % r)
  {
    var q := n / 256 / r;
    assert n == 256 * (n / 256) + n % 256;
    assert n / 256 == r * q + n / 256 % r;
    var m := n % 256 + 256 * (n / 256 % r);
    assert 256 * (r * q) == (256 * r) * q;
    assert n == (256 * r) * q + m;
    assert n / 256 % r <= r - 1;
    ModUnique(n, 256 * r, q, m);
  }

  lemma ModUnique(n: nat, d: nat, q: nat, m: nat)
    requires d > 0 && m < d && n == d * q + m
    ensures n % d == m
  {
    var k := n / d;
    assert n == d * k + n % d;
    NextMultiple(d, k, q);
    NextMultiple(d, q, k);
  }

  lemma NextMultiple(d: nat, a: nat, b: nat)
    ensures a < b ==> d * a + d <= d * b
  {
    if a < b {
      Product(d, b - a - 1);
      assert d * b == d * a + d + d * (b - a - 1);
    }
  }

  lemma Product(x: nat, y: nat)
    ensures x * y >= 0
  {
  }

  /** Different bytes stand for different numbers. */
  lemma {:induction false} ValueInjective(s: seq<Byte>, t: seq<Byte>)
    requires |s| == |t| && Value(s) == Value(t)
    ensures s == t
  {
    hide Num, Octet;
    if s != [] {
      OctetNum(s[0]);
      OctetNum(t[0]);
      SplitUnique(Num(s[0]), Value(s[1..]), Num(t[0]), Value(t[1..]));
      ValueInjective(s[1..], t[1..]);
      assert s == [s[0]] + s[1..] && t == [t[0]] + t[1..];
    }
  }

  lemma SplitUnique(a: nat, m: nat, b: nat, n: nat)
    requires a < 256 && b < 256 && a + 256 * m == b + 256 * n
    ensures a == b && m == n
  {
  }

  lemma ReadBackExact(n: nat, width: nat)
    requires n < Range(width)
    ensures Value(Little(n, width)) == n
  {
    ReadBack(n, width);
    ModUnique(n, Range(width), 0, n);
  }

  lemma Ranges()
    ensures Range(1) == 0x100 && Range(2) == 0x1_0000 && Range(4) == 0x1_0000_0000
    ensures Range(8) == 0x1_0000_0000_0000_0000
  {
    assert Range(1) == 256 * Range(0);
    assert Range(2) == 256 * Range(1);
    assert Range(3) == 256 * Range(2);
    assert Range(4) == 256 * Range(3);
    assert Range(5) == 256 * Range(4);
    assert Range(6) == 256 * Range(5);
    assert Range(7) == 256 * Range(6);
    assert Range(8) == 256 * Range(7);
  }

  /** A 32-bit word as four bytes, low byte first. */
  function Word(a: Byte, b: Byte, c: Byte, d: Byte): bv32 {
    (a as bv32) | ((b as bv32) << 8) | ((c as bv32) << 16) | ((d as bv32) << 24)
  }

  function WordBytes(v: bv32): (s: seq<Byte>)
    ensures |s| == 4
  {
    [(v & 0xff) as Byte, ((v >> 8) & 0xff) as Byte, ((v >> 16) & 0xff) as Byte, ((v >> 24) & 0xff) as Byte]
  }

  function ReadWord(s: seq<Byte>): bv32
    requires |s| == 4
  {
    Word(s[0], s[1], s[2], s[3])
  }

  lemma WordOfBytes(v: bv32)
    ensures ReadWord(WordBytes(v)) == v
  {
    hide *;
    WordLanes(v);
    WordBytesAt(v);
    ReadWordAt(WordBytes(v));
  }

  lemma WordLanes(v: bv32)
    ensures Word((v & 0xff) as Byte, ((v >> 8) & 0xff) as Byte, ((v >> 16) & 0xff) as Byte, ((v >> 24) & 0xff) as Byte) == v
  {
  }

  lemma WordBytesAt(v: bv32)
    ensures WordBytes(v) == [(v & 0xff) as Byte, ((v >> 8) & 0xff) as Byte, ((v >> 16) & 0xff) as Byte, ((v >> 24) & 0xff) as Byte]
  {
  }

  lemma ReadWordAt(s: seq<Byte>)
    requires |s| == 4
    ensures ReadWord(s) == Word(s[0], s[1], s[2], s[3])
  {
  }

  lemma LanesOfWord(a: Byte, b: Byte, c: Byte, d: Byte)
    ensures var v := Word(a, b, c, d);
      && (v & 0xff) as Byte == a && ((v >> 8) & 0xff) as Byte == b
      && ((v >> 16) & 0xff) as Byte == c && ((v >> 24) & 0xff) as Byte == d
  {
  }

  /** Different bytes make different words. */
  lemma ReadWordInjective(s: seq<Byte>, t: seq<Byte>)
    requires |s| == 4 && |t| == 4 && ReadWord(s) == ReadWord(t)
    ensures s == t
  {
    LanesOfWord(s[0], s[1], s[2], s[3]);
    LanesOfWord(t[0], t[1], t[2], t[3]);
  }

  // ----- text -----

  /** The bytes of a text, one for each character. */
  function Ascii(s: string): (r: seq<Byte>)
    ensures |r| == |s|
  {
    seq(|s|, i requires 0 <= i < |s| => Octet(s[i] as int % 256))
  }

  predicate Narrow(s: string) { forall k :: 0 <= k < |s| ==> s[k] as int < 256 }

  function Letter(b: Byte): char {
    OctetNum(b);
    Num(b) as char
  }

  function TextOf(b: seq<Byte>): (s: string)
    ensures |s| == |b|
  {
    seq(|b|, i requires 0 <= i < |b| => Letter(b[i]))
  }

  lemma TextOfAscii(s: string)
    requires Narrow(s)
    ensures TextOf(Ascii(s)) == s
  {
    hide Num, Octet;
    forall i | 0 <= i < |s|
      ensures TextOf(Ascii(s))[i] == s[i]
    {
      NumOctet(s[i] as int % 256);
    }
  }
}

/**
 Programs copied into a single block of storage: the arrays first, and the strings they
 point to behind them.
 */
module Packed {
  import opened Bytes
  import opened Ir

  // ----- alignment -----

  type Positive = n: nat | n > 0 witness 1

  /** Rounds a byte count up to an alignment. */
  function AlignUp(value: nat, alignment: Positive): (r: nat)
    ensures value <= r < value + alignment
  {
    var remainder := value % alignment;
    if remainder == 0 then value else value + (alignment - remainder)
  }

  lemma MulFar(a: nat, d: int)
    requires 0 < a
    ensures d >= 1 ==> a * d >= a
    ensures d <= -1 ==> a * d + a <= 0
  {
  }

  lemma Multiple(a: nat, k: nat)
    requires 0 < a
    ensures (a * k) % a == 0
  {
    var q, r := (a * k) / a, (a * k) % a;
    assert a * k == a * q + r && 0 <= r < a;
    MulFar(a, k - q);
    assert a * (k - q) == a * k - a * q;
  }

  /** Rounding up gives the least multiple that is large enough. */
  lemma Aligned(value: nat, alignment: Positive)
    ensures AlignUp(value, alignment) % alignment == 0
  {
    var k := value / alignment;
    assert value == alignment * k + value % alignment;
    if value % alignment != 0 {
      assert AlignUp(value, alignment) == alignment * (k + 1);
      Multiple(alignment, k + 1);
    }
  }

  // ----- sizes -----

  /** The sizes and alignments of the array elements on the machine at hand. */
  datatype Machine = Machine(
    literalSize: nat, literalAlign: Positive, nodeSize: nat, nodeAlign: Positive, linkSize: nat, linkAlign: Positive)

  /** Where an array of `count` elements begins and ends when `from` bytes come before it. */
  function ArrayStart(from: nat, count: nat, align: Positive): (r: nat)
    ensures from <= r
  {
    if count > 0 then AlignUp(from, align) else from
  }

  /** The starts of the three arrays and the end of the last. */
  datatype View = View(literals: nat, nodes: nat, links: nat, strings: nat)

  function ViewOf(m: Machine, literals: nat, nodes: nat, links: nat): View
  {
    var a := ArrayStart(0, literals, m.literalAlign);
    var b := ArrayStart(a + literals * m.literalSize, nodes, m.nodeAlign);
    var c := ArrayStart(b + nodes * m.nodeSize, links, m.linkAlign);
    View(a, b, c, c + links * m.linkSize)
  }

  function PackedBytes(m: Machine, literals: nat, nodes: nat, links: nat, stringBytes: nat): nat
  {
    ViewOf(m, literals, nodes, links).strings + stringBytes
  }

  method MeasurePacked(m: Machine, literals: nat, nodes: nat, links: nat, stringBytes: nat) returns (size: nat)
    ensures size == PackedBytes(m, literals, nodes, links, stringBytes)
  {
    size := 0;
    if literals > 0 {
      size := AlignUp(size, m.literalAlign);
      size := size + literals * m.literalSize;
    }
    if nodes > 0 {
      size := AlignUp(size, m.nodeAlign);
      size := size + nodes * m.nodeSize;
    }
    if links > 0 {
      size := AlignUp(size, m.linkAlign);
      size := size + links * m.linkSize;
    }
    size := size + stringBytes;
  }

  /** The arrays lie one behind the other, each where its elements may lie, and the strings
      fill exactly what is left. */
  lemma ViewFits(m: Machine, literals: nat, nodes: nat, links: nat, stringBytes: nat)
    ensures var v := ViewOf(m, literals, nodes, links);
      && v.literals + literals * m.literalSize <= v.nodes
      && v.nodes + nodes * m.nodeSize <= v.links
      && v.links + links * m.linkSize <= v.strings
      && (literals > 0 ==> v.literals % m.literalAlign == 0)
      && (nodes > 0 ==> v.nodes % m.nodeAlign == 0)
      && (links > 0 ==> v.links % m.linkAlign == 0)
      && PackedBytes(m, literals, nodes, links, stringBytes) - v.strings == stringBytes
  {
    hide AlignUp;
    var v := ViewOf(m, literals, nodes, links);
    Aligned(0, m.literalAlign);
    Aligned(v.literals + literals * m.literalSize, m.nodeAlign);
    Aligned(v.nodes + nodes * m.nodeSize, m.linkAlign);
  }

  // ----- strings -----

  function StringSize(s: string): nat { |s| + 1 }

  function StringsSize(ss: seq<string>): nat {
    if ss == [] then 0 else StringSize(ss[0]) + StringsSize(ss[1..])
  }

  /** The strings a literal and a node point to, in the order in which they are copied. */
  function LiteralStrings(l: Literal): seq<string> {
    match l
    case TextLiteral(text) => [text]
    case _ => []
  }

  function NodeStrings(n: Node): seq<string> {
    match n
    case ReadSlot(name) => [name]
    case ReadSlotFallback(name, other) => [name, other]
    case WriteSlot(name, _, _) => [name]
    case WriteSlotFallback(name, other, _, _) => [name, other]
    case SlotDesignator(name) => [name]
    case RecordDefNode(name, _, _) => [name]
    case ReadField(_, field) => [field]
    case WriteField(_, field, _) => [field]
    case _ => []
  }

  function LiteralBytes(ls: seq<Literal>): nat {
    if ls == [] then 0 else StringsSize(LiteralStrings(ls[0])) + LiteralBytes(ls[1..])
  }

  function NodeBytes(ns: seq<Node>): nat {
    if ns == [] then 0 else StringsSize(NodeStrings(ns[0])) + NodeBytes(ns[1..])
  }

  function StringBytes(p: Program): nat { LiteralBytes(p.literals) + NodeBytes(p.nodes) }

  /** The block a program's copy fills. */
  function ProgramBytes(m: Machine, p: Program): nat {
    PackedBytes(m, |p.literals|, |p.nodes|, |p.links|, StringBytes(p))
  }

  lemma BytesStep(p: Program, i: nat)
    ensures i < |p.literals| ==> LiteralBytes(p.literals[i..]) == StringsSize(LiteralStrings(p.literals[i])) + LiteralBytes(p.literals[i + 1..])
    ensures i < |p.nodes| ==> NodeBytes(p.nodes[i..]) == StringsSize(NodeStrings(p.nodes[i])) + NodeBytes(p.nodes[i + 1..])
    ensures LiteralBytes([]) == 0 && NodeBytes([]) == 0
  {
    if i < |p.literals| {
      assert p.literals[i..][1..] == p.literals[i + 1..];
    }
    if i < |p.nodes| {
      assert p.nodes[i..][1..] == p.nodes[i + 1..];
    }
  }

  lemma {:induction false} LiteralBytesNext(ls: seq<Literal>, l: Literal)
    ensures LiteralBytes(ls + [l]) == LiteralBytes(ls) + StringsSize(LiteralStrings(l))
  {
    hide StringsSize, LiteralStrings;
    if ls != [] {
      assert (ls + [l])[1..] == ls[1..] + [l];
      LiteralBytesNext(ls[1..], l);
    } else {
      assert ([] + [l])[1..] == [];
    }
  }

  lemma {:induction false} NodeBytesNext(ns: seq<Node>, n: Node)
    ensures NodeBytes(ns + [n]) == NodeBytes(ns) + StringsSize(NodeStrings(n))
  {
    hide StringsSize, NodeStrings;
    if ns != [] {
      assert (ns + [n])[1..] == ns[1..] + [n];
      NodeBytesNext(ns[1..], n);
    } else {
      assert ([] + [n])[1..] == [];
    }
  }

  lemma Sizes()
    ensures forall a: string {:trigger StringSize(a)} :: StringsSize([a]) == StringSize(a)
    ensures forall a: string, b: string {:trigger StringSize(a), StringSize(b)} :: StringsSize([a, b]) == StringSize(a) + StringSize(b)
    ensures StringsSize([]) == 0
  {
    forall a: string, b: string
      ensures StringsSize([a]) == StringSize(a) && StringsSize([a, b]) == StringSize(a) + StringSize(b)
    {
      assert [a][1..] == [] && [a, b][1..] == [b] && [b][1..] == [];
    }
  }

  method AddNodeBytes(n: Node, before: nat) returns (bytes: nat)
    ensures bytes == before + StringsSize(NodeStrings(n))
  {
    hide StringsSize, StringSize;
    Sizes();
    bytes := before;
    if n.ReadSlot? {
      bytes := bytes + StringSize(n.name);
    } else if n.ReadSlotFallback? {
      bytes := bytes + StringSize(n.name);
      bytes := bytes + StringSize(n.fallback);
    } else if n.WriteSlot? {
      bytes := bytes + StringSize(n.name);
    } else if n.WriteSlotFallback? {
      bytes := bytes + StringSize(n.name);
      bytes := bytes + StringSize(n.fallback);
    } else if n.SlotDesignator? {
      bytes := bytes + StringSize(n.name);
    } else if n.RecordDefNode? {
      bytes := bytes + StringSize(n.name);
    } else if n.ReadField? {
      bytes := bytes + StringSize(n.field);
    } else if n.WriteField? {
      bytes := bytes + StringSize(n.field);
    }
  }

  /** Counts the string bytes of a program, node kind by node kind. */
  method CountStringBytes(p: Program) returns (bytes: nat)
    ensures bytes == StringBytes(p)
  {
    hide StringsSize, StringSize, NodeStrings;
    Sizes();
    bytes := 0;
    var i: nat := 0;
    assert p.literals[0..] == p.literals && p.nodes[0..] == p.nodes;
    while i < |p.literals|
      invariant i <= |p.literals|
      invariant bytes + LiteralBytes(p.literals[i..]) == LiteralBytes(p.literals)
    {
      BytesStep(p, i);
      if p.literals[i].TextLiteral? {
        bytes := bytes + StringSize(p.literals[i].text);
      }
      i := i + 1;
    }
    assert p.literals[i..] == [];
    BytesStep(p, 0);
    i := 0;
    while i < |p.nodes|
      invariant i <= |p.nodes|
      invariant bytes + NodeBytes(p.nodes[i..]) == StringBytes(p)
    {
      BytesStep(p, i);
      bytes := AddNodeBytes(p.nodes[i], bytes);
      i := i + 1;
    }
    assert p.nodes[i..] == [];
  }

  // ----- the string area -----

  /** Characters a C string can hold. */
  predicate Printable(s: string) { forall k :: 0 <= k < |s| ==> 0 < s[k] as int < 256 }

  /** The number of bytes before the first zero. */
  function Length(b: seq<Byte>): (n: nat)
    ensures n <= |b|
  {
    if b == [] || b[0] == 0 then 0 else 1 + Length(b[1..])
  }

  /** The C string that begins at `at`. */
  function CString(b: seq<Byte>, at: nat): string
    requires at <= |b|
  {
    TextOf(b[at..at + Length(b[at..])])
  }

  lemma {:induction false} LengthOf(s: seq<Byte>, rest: seq<Byte>)
    requires forall k :: 0 <= k < |s| ==> s[k] != 0
    ensures Length(s + [0] + rest) == |s|
  {
    if s != [] {
      assert (s + [0] + rest)[1..] == s[1..] + [0] + rest;
      LengthOf(s[1..], rest);
    }
  }

  lemma CStringHere(b: seq<Byte>, at: nat, text: string)
    requires at + |text| < |b| && Printable(text)
    requires b[at..at + |text|] == Ascii(text) && b[at + |text|] == 0
    ensures CString(b, at) == text
  {
    hide Num, Octet;
    var s := Ascii(text);
    forall k | 0 <= k < |s| ensures s[k] != 0 {
      NumOctet(text[k] as int);
    }
    assert b[at..] == s + [0] + b[at + |text| + 1..];
    LengthOf(s, b[at + |text| + 1..]);
    assert Narrow(text);
    TextOfAscii(text);
  }

  /** Text that lies in front of `end` is not disturbed by what is copied behind it. */
  ghost predicate Holds(b: seq<Byte>, at: nat, text: string, end: nat) {
    && at + |text| < end <= |b|
    && b[at..at + |text|] == Ascii(text) && b[at + |text|] == 0
  }

  lemma HoldsKept(b: seq<Byte>, g: seq<Byte>, at: nat, text: string, end: nat, later: nat)
    requires Holds(b, at, text, end) && end <= later <= |g| && |g| == |b| && b[..end] == g[..end]
    ensures Holds(g, at, text, later)
  {
    assert b[at..at + |text|] == b[..end][at..at + |text|];
    assert g[at..at + |text|] == g[..end][at..at + |text|];
    assert b[at + |text|] == b[..end][at + |text|] && g[at + |text|] == g[..end][at + |text|];
  }

  class Area {
    const bytes: array<Byte>
    var cursor: nat

    ghost predicate Valid()
      reads this
    {
      cursor <= bytes.Length
    }

    constructor (size: nat)
      ensures Valid() && fresh(bytes) && bytes.Length == size && cursor == 0
    {
      bytes := new Byte[size];
      cursor := 0;
    }

    /** Copies a string and its final zero behind the strings copied before. */
    method Copy(text: string) returns (ok: bool, at: nat)
      requires Valid()
      modifies this`cursor, bytes
      ensures Valid()
      ensures ok <==> StringSize(text) <= bytes.Length - old(cursor)
      ensures ok ==> at == old(cursor) && cursor == at + StringSize(text) && Holds(bytes[..], at, text, cursor)
      ensures !ok ==> cursor == old(cursor)
      ensures bytes[..old(cursor)] == old(bytes[..cursor])
    {
      hide Num, Octet;
      if bytes.Length - cursor < |text| + 1 {
        return false, 0;
      }
      var s := Ascii(text);
      var i: nat := 0;
      ghost var before := bytes[..cursor];
      while i < |s|
        invariant i <= |s| && cursor + |s| < bytes.Length
        invariant bytes[..cursor] == before
        invariant bytes[cursor..cursor + i] == s[..i]
      {
        bytes[cursor + i] := s[i];
        i := i + 1;
        assert bytes[cursor..cursor + i] == bytes[cursor..cursor + i - 1] + [s[i - 1]];
      }
      assert s[..i] == s;
      bytes[cursor + |s|] := 0;
      assert bytes[cursor..cursor + |s|] == s;
      ok, at := true, cursor;
      cursor := cursor + |s| + 1;
      assert bytes[..][at..at + |text|] == bytes[at..at + |text|];
    }
  }

  // ----- the copy -----

  /** A string pointer of the copy: still into the source, or into the copy's own area. */
  datatype Pointer = Outside(text: string) | Inside(at: nat)

  function Seen(b: seq<Byte>, p: Pointer): string {
    match p
    case Outside(text) => text
    case Inside(at) => if at <= |b| then CString(b, at) else ""
  }

  datatype PackedLiteral = PackedLiteral(literal: Literal, pointers: seq<Pointer>)

  datatype PackedNode = PackedNode(node: Node, pointers: seq<Pointer>)

  /** A literal or a node seen through its pointers. */
  function LiteralSeen(b: seq<Byte>, l: PackedLiteral): Literal {
    match l.literal
    case TextLiteral(_) => if |l.pointers| == 1 then TextLiteral(Seen(b, l.pointers[0])) else l.literal
    case plain => plain
  }

  function NodeSeen(b: seq<Byte>, n: PackedNode): Node {
    if |n.pointers| == 2 then
      var x, y := Seen(b, n.pointers[0]), Seen(b, n.pointers[1]);
      match n.node
      case ReadSlotFallback(_, _) => ReadSlotFallback(x, y)
      case WriteSlotFallback(_, _, v, must) => WriteSlotFallback(x, y, v, must)
      case plain => plain
    else if |n.pointers| == 1 then
      var x := Seen(b, n.pointers[0]);
      match n.node
      case ReadSlot(_) => ReadSlot(x)
      case WriteSlot(_, v, must) => WriteSlot(x, v, must)
      case SlotDesignator(_) => SlotDesignator(x)
      case RecordDefNode(_, first, count) => RecordDefNode(x, first, count)
      case ReadField(base, _) => ReadField(base, x)
      case WriteField(base, _, v) => WriteField(base, x, v)
      case plain => plain
    else n.node
  }

  ghost predicate AllHeld(b: seq<Byte>, pointers: seq<Pointer>, ss: seq<string>, end: nat) {
    |pointers| == |ss| && forall k :: 0 <= k < |ss| ==> pointers[k].Inside? && Holds(b, pointers[k].at, ss[k], end)
  }

  lemma AllHeldKept(b: seq<Byte>, g: seq<Byte>, pointers: seq<Pointer>, ss: seq<string>, end: nat, later: nat)
    requires AllHeld(b, pointers, ss, end) && end <= later <= |g| && |g| == |b| && b[..end] == g[..end]
    ensures AllHeld(g, pointers, ss, later)
  {
    hide Holds;
    forall k | 0 <= k < |ss|
      ensures pointers[k].Inside? && Holds(g, pointers[k].at, ss[k], later)
    {
      HoldsKept(b, g, pointers[k].at, ss[k], end, later);
    }
  }

  predicate AllPrintable(ss: seq<string>) { forall k :: 0 <= k < |ss| ==> Printable(ss[k]) }

  lemma HeldSeen(b: seq<Byte>, pointers: seq<Pointer>, ss: seq<string>, end: nat)
    requires AllHeld(b, pointers, ss, end) && AllPrintable(ss)
    ensures forall k :: 0 <= k < |ss| ==> Seen(b, pointers[k]) == ss[k]
  {
    hide CString;
    forall k | 0 <= k < |ss|
      ensures Seen(b, pointers[k]) == ss[k]
    {
      CStringHere(b, pointers[k].at, ss[k]);
    }
  }

  /** Copies the strings of one element. */
  method CopyStrings(area: Area, ss: seq<string>) returns (ok: bool, pointers: seq<Pointer>)
    requires area.Valid()
    modifies area, area.bytes
    ensures area.Valid() && area.bytes[..old(area.cursor)] == old(area.bytes[..area.cursor])
    ensures StringsSize(ss) <= area.bytes.Length - old(area.cursor) ==> ok
    ensures ok ==> area.cursor == old(area.cursor) + StringsSize(ss)
    ensures ok ==> AllHeld(area.bytes[..], pointers, ss, area.cursor)
  {
    hide StringSize, Holds;
    pointers := [];
    var i: nat := 0;
    ghost var start := area.cursor;
    assert ss[0..] == ss && ss[..0] == [];
    while i < |ss|
      invariant i <= |ss| && area.Valid() && start <= area.cursor
      invariant area.bytes[..start] == old(area.bytes[..area.cursor])
      invariant area.cursor + StringsSize(ss[i..]) == start + StringsSize(ss)
      invariant AllHeld(area.bytes[..], pointers, ss[..i], area.cursor)
    {
      assert ss[i..][1..] == ss[i + 1..];
      ghost var was, end := area.bytes[..], area.cursor;
      var copied, at := area.Copy(ss[i]);
      if !copied {
        return false, [];
      }
      SizePositive(ss[i]);
      AllHeldKept(was, area.bytes[..], pointers, ss[..i], end, area.cursor);
      assert area.bytes[..start] == area.bytes[..end][..start];
      assert ss[..i + 1] == ss[..i] + [ss[i]];
      pointers := pointers + [Inside(at)];
      i := i + 1;
    }
    assert ss[i..] == [] && ss[..i] == ss;
    ok := true;
  }

  lemma SizePositive(s: string)
    ensures StringSize(s) > 0
  {
  }

  datatype Copied = Copied(literals: seq<PackedLiteral>, nodes: seq<PackedNode>, links: seq<nat>, root: nat, rootLocalCount: nat)

  function ProgramSeen(b: seq<Byte>, c: Copied): Program {
    Program(seq(|c.literals|, i requires 0 <= i < |c.literals| => LiteralSeen(b, c.literals[i])),
      seq(|c.nodes|, i requires 0 <= i < |c.nodes| => NodeSeen(b, c.nodes[i])), c.links, c.root, c.rootLocalCount)
  }

  predicate AllInside(c: Copied) {
    && (forall i :: 0 <= i < |c.literals| ==> forall k :: 0 <= k < |c.literals[i].pointers| ==> c.literals[i].pointers[k].Inside?)
    && (forall i :: 0 <= i < |c.nodes| ==> forall k :: 0 <= k < |c.nodes[i].pointers| ==> c.nodes[i].pointers[k].Inside?)
  }

  predicate Clean(p: Program) {
    && (forall i :: 0 <= i < |p.literals| ==> AllPrintable(LiteralStrings(p.literals[i])))
    && (forall i :: 0 <= i < |p.nodes| ==> AllPrintable(NodeStrings(p.nodes[i])))
  }

  ghost predicate LiteralCopied(b: seq<Byte>, l: Literal, c: PackedLiteral, end: nat) {
    c.literal == l && AllHeld(b, c.pointers, LiteralStrings(l), end)
  }

  ghost predicate NodeCopied(b: seq<Byte>, n: Node, c: PackedNode, end: nat) {
    c.node == n && AllHeld(b, c.pointers, NodeStrings(n), end)
  }

  ghost predicate FirstCopied(b: seq<Byte>, p: Program, literals: seq<PackedLiteral>, nodes: seq<PackedNode>, end: nat) {
    && |literals| <= |p.literals| && |nodes| <= |p.nodes|
    && (forall i :: 0 <= i < |literals| ==> LiteralCopied(b, p.literals[i], literals[i], end))
    && (forall i :: 0 <= i < |nodes| ==> NodeCopied(b, p.nodes[i], nodes[i], end))
  }

  lemma FirstCopiedKept(b: seq<Byte>, g: seq<Byte>, p: Program, literals: seq<PackedLiteral>, nodes: seq<PackedNode>, end: nat, later: nat)
    requires FirstCopied(b, p, literals, nodes, end) && end <= later <= |g| && |g| == |b| && b[..end] == g[..end]
    ensures FirstCopied(g, p, literals, nodes, later)
  {
    hide AllHeld, LiteralStrings, NodeStrings;
    forall i | 0 <= i < |literals|
      ensures LiteralCopied(g, p.literals[i], literals[i], later)
    {
      assert LiteralCopied(b, p.literals[i], literals[i], end);
      AllHeldKept(b, g, literals[i].pointers, LiteralStrings(p.literals[i]), end, later);
    }
    forall i | 0 <= i < |nodes|
      ensures NodeCopied(g, p.nodes[i], nodes[i], later)
    {
      assert NodeCopied(b, p.nodes[i], nodes[i], end);
      AllHeldKept(b, g, nodes[i].pointers, NodeStrings(p.nodes[i]), end, later);
    }
  }

  /**
   Copies a program into an area of exactly the measured size: no string runs out of
   room, nothing is left over, and seen through its own strings the copy is the source.
   */
  method ClonePacked(p: Program, area: Area) returns (ok: bool, c: Copied)
    requires area.Valid() && area.cursor == 0
    modifies area, area.bytes
    ensures area.Valid()
    ensures StringBytes(p) <= area.bytes.Length ==> ok && area.cursor == StringBytes(p)
    ensures ok ==> AllInside(c) && (Clean(p) ==> ProgramSeen(area.bytes[..], c) == p)
  {
    hide StringsSize, LiteralStrings, NodeStrings, AllHeld, Clean, AllInside, ProgramSeen, LiteralCopied, NodeCopied;
    var literals: seq<PackedLiteral> := [];
    var nodes: seq<PackedNode> := [];
    c := Copied([], [], [], 0, 0);
    assert p.literals[0..] == p.literals && p.nodes[0..] == p.nodes;
    var i: nat := 0;
    while i < |p.literals|
      invariant i <= |p.literals| && |literals| == i && area.Valid()
      invariant area.cursor + LiteralBytes(p.literals[i..]) == LiteralBytes(p.literals)
      invariant FirstCopied(area.bytes[..], p, literals, nodes, area.cursor)
    {
      BytesStep(p, i);
      ghost var was, end := area.bytes[..], area.cursor;
      var copied, pointers := CopyStrings(area, LiteralStrings(p.literals[i]));
      if !copied {
        return false, c;
      }
      FirstCopiedKept(was, area.bytes[..], p, literals, nodes, end, area.cursor);
      LiteralCopiedNow(area.bytes[..], p.literals[i], pointers, area.cursor);
      literals := literals + [PackedLiteral(p.literals[i], pointers)];
      i := i + 1;
    }
    assert p.literals[i..] == [];
    BytesStep(p, 0);
    i := 0;
    while i < |p.nodes|
      invariant i <= |p.nodes| && |nodes| == i && |literals| == |p.literals| && area.Valid()
      invariant area.cursor + NodeBytes(p.nodes[i..]) == StringBytes(p)
      invariant FirstCopied(area.bytes[..], p, literals, nodes, area.cursor)
    {
      BytesStep(p, i);
      ghost var was, end := area.bytes[..], area.cursor;
      var copied, pointers := CopyStrings(area, NodeStrings(p.nodes[i]));
      if !copied {
        return false, c;
      }
      FirstCopiedKept(was, area.bytes[..], p, literals, nodes, end, area.cursor);
      NodeCopiedNow(area.bytes[..], p.nodes[i], pointers, area.cursor);
      nodes := nodes + [PackedNode(p.nodes[i], pointers)];
      i := i + 1;
    }
    assert p.nodes[i..] == [];
    ok, c := true, Copied(literals, nodes, p.links, p.root, p.rootLocalCount);
    CopiedInside(area.bytes[..], p, c, area.cursor);
    if Clean(p) {
      CopiedSeen(area.bytes[..], p, c, area.cursor);
    }
  }

  lemma LiteralCopiedNow(b: seq<Byte>, l: Literal, pointers: seq<Pointer>, end: nat)
    requires AllHeld(b, pointers, LiteralStrings(l), end)
    ensures LiteralCopied(b, l, PackedLiteral(l, pointers), end)
  {
  }

  lemma NodeCopiedNow(b: seq<Byte>, n: Node, pointers: seq<Pointer>, end: nat)
    requires AllHeld(b, pointers, NodeStrings(n), end)
    ensures NodeCopied(b, n, PackedNode(n, pointers), end)
  {
  }

  lemma CopiedInside(b: seq<Byte>, p: Program, c: Copied, end: nat)
    requires FirstCopied(b, p, c.literals, c.nodes, end)
    ensures AllInside(c)
  {
    hide Holds, LiteralStrings, NodeStrings;
    assert forall i :: 0 <= i < |c.literals| ==> LiteralCopied(b, p.literals[i], c.literals[i], end);
    assert forall i :: 0 <= i < |c.nodes| ==> NodeCopied(b, p.nodes[i], c.nodes[i], end);
  }

  lemma CopiedSeen(b: seq<Byte>, p: Program, c: Copied, end: nat)
    requires FirstCopied(b, p, c.literals, c.nodes, end) && Clean(p)
    requires |c.literals| == |p.literals| && |c.nodes| == |p.nodes|
    requires c.links == p.links && c.root == p.root && c.rootLocalCount == p.rootLocalCount
    ensures ProgramSeen(b, c) == p
  {
    hide LiteralSeen, NodeSeen, AllHeld, AllPrintable, LiteralStrings, NodeStrings;
    forall i | 0 <= i < |p.literals|
      ensures LiteralSeen(b, c.literals[i]) == p.literals[i]
    {
      assert LiteralCopied(b, p.literals[i], c.literals[i], end);
      LiteralBack(b, p.literals[i], c.literals[i], end);
    }
    forall i | 0 <= i < |p.nodes|
      ensures NodeSeen(b, c.nodes[i]) == p.nodes[i]
    {
      assert NodeCopied(b, p.nodes[i], c.nodes[i], end);
      NodeBack(b, p.nodes[i], c.nodes[i], end);
    }
  }

  lemma LiteralBack(b: seq<Byte>, l: Literal, c: PackedLiteral, end: nat)
    requires LiteralCopied(b, l, c, end) && AllPrintable(LiteralStrings(l))
    ensures LiteralSeen(b, c) == l
  {
    hide Seen, Holds, AllPrintable;
    HeldSeen(b, c.pointers, LiteralStrings(l), end);
  }

  lemma NodeBack(b: seq<Byte>, n: Node, c: PackedNode, end: nat)
    requires NodeCopied(b, n, c, end) && AllPrintable(NodeStrings(n))
    ensures NodeSeen(b, c) == n
  {
    hide Seen, Holds, AllPrintable;
    HeldSeen(b, c.pointers, NodeStrings(n), end);
  }
}

/**
 The snapshot format: what a payload says, independent of any heap, and the bytes that
 say it.

 The functions that end in `Onto` put bytes in front of `rest`, so that reading is
 undoing them one after the other.
 */
module Image {
  import opened Bytes
  import opened Ir
  import opened Names
  import Values

  const SYMBOL_CAPACITY: nat := 512
  const LITERAL_CAPACITY: nat := 128
  const NODE_CAPACITY: nat := 512
  const LINK_CAPACITY: nat := 512
  const WORD: nat := 0x1_0000_0000

  /** A value in a payload; an object is named by its place in the object table. */
  datatype Datum = NilDatum | BoolDatum(b: bool) | IntDatum(n: Values.Int30) | RefDatum(index: nat)

  datatype Entry =
    | TextEntry(text: string)
    | CellsEntry(items: seq<Datum>)
    | CodeEntry(arity: nat, localCount: nat, body: nat, program: Program)
    | DefEntry(name: string, fields: seq<string>)
    | RecordEntry(definition: nat, values: seq<Datum>)

  datatype Binding = Binding(symbol: nat, value: Datum)

  datatype Image = Image(symbols: seq<string>, entries: seq<Entry>, bindings: seq<Binding>)

  // ----- primitives -----

  function U8(n: nat, rest: seq<Byte>): seq<Byte>
    requires n < 256
  {
    [Octet(n)] + rest
  }

  function U16(n: nat, rest: seq<Byte>): seq<Byte> { Little(n, 2) + rest }

  function U32(n: nat, rest: seq<Byte>): seq<Byte> { Little(n, 4) + rest }

  /** Signed words are written modulo 2^32. */
  function I32(n: int, rest: seq<Byte>): seq<Byte> { U32(n % WORD, rest) }

  function Raw(s: seq<Byte>, rest: seq<Byte>): seq<Byte> { s + rest }

  datatype Took<T> = Took(value: T, rest: seq<Byte>) | Short

  function TakeU8(s: seq<Byte>): Took<nat> {
    if |s| < 1 then Short else Took(Num(s[0]), s[1..])
  }

  function TakeU16(s: seq<Byte>): Took<nat> {
    if |s| < 2 then Short else Took(Value(s[..2]), s[2..])
  }

  function TakeU32(s: seq<Byte>): Took<nat> {
    if |s| < 4 then Short else Took(Value(s[..4]), s[4..])
  }

  function Signed(n: nat): int { if n < 0x8000_0000 then n else n - WORD }

  function TakeRaw(s: seq<Byte>, length: nat): Took<seq<Byte>> {
    if |s| < length then Short else Took(s[..length], s[length..])
  }

  predicate Int32(n: int) { -0x8000_0000 <= n < 0x8000_0000 }

  /** Reading undoes writing. */
  lemma Rules()
    ensures forall n: nat, rest {:trigger U8(n, rest)} :: n < 256 ==> TakeU8(U8(n, rest)) == Took(n, rest)
    ensures forall n: nat, rest {:trigger U16(n, rest)} :: n < 0x1_0000 ==> TakeU16(U16(n, rest)) == Took(n, rest)
    ensures forall n: nat, rest {:trigger U32(n, rest)} :: n < WORD ==> TakeU32(U32(n, rest)) == Took(n, rest)
    ensures forall s, rest {:trigger Raw(s, rest)} :: TakeRaw(Raw(s, rest), |s|) == Took(s, rest)
  {
    hide Num, Octet, Value, Little, Range;
    Ranges();
    forall n: nat, rest | n < 256 ensures TakeU8(U8(n, rest)) == Took(n, rest) {
      NumOctet(n);
    }
    forall n: nat, rest | n < 0x1_0000 ensures TakeU16(U16(n, rest)) == Took(n, rest) {
      ReadBackExact(n, 2);
      assert U16(n, rest)[..2] == Little(n, 2) && U16(n, rest)[2..] == rest;
    }
    forall n: nat, rest | n < WORD ensures TakeU32(U32(n, rest)) == Took(n, rest) {
      ReadBackExact(n, 4);
      assert U32(n, rest)[..4] == Little(n, 4) && U32(n, rest)[4..] == rest;
    }
    forall s, rest ensures TakeRaw(Raw(s, rest), |s|) == Took(s, rest) {
      assert Raw(s, rest)[..|s|] == s && Raw(s, rest)[|s|..] == rest;
    }
  }

  /** A string: its length in two bytes, and its characters. */
  function StrOnto(s: string, rest: seq<Byte>): seq<Byte> { U16(|s|, Raw(Ascii(s), rest)) }

  function TakeStr(s: seq<Byte>): Took<string> {
    match TakeU16(s)
    case Short => Short
    case Took(length, rest) =>
      match TakeRaw(rest, length)
      case Short => Short
      case Took(bytes, left) => Took(TextOf(bytes), left)
  }

  lemma StrBack(s: string, rest: seq<Byte>)
    requires Narrow(s) && |s| < 0x1_0000
    ensures TakeStr(StrOnto(s, rest)) == Took(s, rest)
  {
    hide U16, Raw, TakeU16, TakeRaw, Ascii, TextOf;
    Rules();
    TextOfAscii(s);
  }

  // ----- values -----

  function DatumOnto(d: Datum, rest: seq<Byte>): seq<Byte> {
    match d
    case NilDatum => U8(0, rest)
    case BoolDatum(b) => U8(if b then 2 else 1, rest)
    case IntDatum(n) => U8(3, I32(n, rest))
    case RefDatum(index) => U8(4, U32(index, rest))
  }

  function DataOnto(ds: seq<Datum>, rest: seq<Byte>): seq<Byte> {
    if ds == [] then rest else DatumOnto(ds[0], DataOnto(ds[1..], rest))
  }

  // ----- programs -----

  function BuiltinCode(b: Builtin): (n: nat)
    ensures n < 15
  {
    match b
    case NoBuiltin => 0
    case CellsOf => 1
    case Not => 2
    case Negate => 3
    case Add => 4
    case Sub => 5
    case Mul => 6
    case Div => 7
    case Rem => 8
    case Lt => 9
    case Le => 10
    case Gt => 11
    case Ge => 12
    case Eq => 13
    case Neq => 14
  }

  function BuiltinOf(n: nat): Builtin {
    if n == 1 then CellsOf
    else if n == 2 then Not
    else if n == 3 then Negate
    else if n == 4 then Add
    else if n == 5 then Sub
    else if n == 6 then Mul
    else if n == 7 then Div
    else if n == 8 then Rem
    else if n == 9 then Lt
    else if n == 10 then Le
    else if n == 11 then Gt
    else if n == 12 then Ge
    else if n == 13 then Eq
    else if n == 14 then Neq
    else NoBuiltin
  }

  lemma BuiltinBack(b: Builtin)
    ensures BuiltinOf(BuiltinCode(b)) == b
    ensures BuiltinCode(b) == 0 <==> b == NoBuiltin
  {
  }

  function Bit(b: bool): nat { if b then 1 else 0 }

  function LiteralOnto(l: Literal, rest: seq<Byte>): seq<Byte> {
    match l
    case IntLiteral(n) => U8(0, I32(n, rest))
    case BoolLiteral(b) => U8(1, U8(Bit(b), rest))
    case NilLiteral => U8(2, rest)
    case TextLiteral(text) => U8(3, U32(|text|, Raw(Ascii(text), rest)))
  }

  function LiteralsOnto(ls: seq<Literal>, rest: seq<Byte>): seq<Byte> {
    if ls == [] then rest else LiteralOnto(ls[0], LiteralsOnto(ls[1..], rest))
  }

  /** The place of a name in the symbol table; its length if it is missing. */
  function SymbolIndex(symbols: seq<string>, name: string): (i: nat)
    ensures i <= |symbols|
    ensures i < |symbols| ==> symbols[i] == name
    ensures i == |symbols| <==> name !in symbols
  {
    if symbols == [] then 0 else if symbols[0] == name then 0 else 1 + SymbolIndex(symbols[1..], name)
  }

  function NodeKind(n: Node): (k: nat)
    ensures k < 18
  {
    match n
    case Lit(_) => 0
    case ReadLocal(_) => 1
    case WriteLocal(_, _) => 2
    case ReadSlot(_) => 3
    case WriteSlot(_, _, _) => 4
    case ReadSlotFallback(_, _) => 5
    case WriteSlotFallback(_, _, _, _) => 6
    case SlotDesignator(_) => 7
    case RecordDefNode(_, _, _) => 8
    case ReadIndex(_, _) => 9
    case WriteIndex(_, _, _) => 10
    case ReadField(_, _) => 11
    case WriteField(_, _, _) => 12
    case Fn(_, _, _) => 13
    case Call(_, _, _, _) => 14
    case If(_, _, _, _) => 15
    case While(_, _) => 16
    case Seq(_, _) => 17
  }

  /** What follows a node's kind; slot names are given as symbols. */
  function NodeBodyOnto(n: Node, symbols: seq<string>, rest: seq<Byte>): seq<Byte> {
    match n
    case Lit(l) => U32(l, rest)
    case ReadLocal(l) => U32(l, rest)
    case WriteLocal(l, v) => U32(l, U32(v, rest))
    case ReadSlot(name) => U32(SymbolIndex(symbols, name), rest)
    case WriteSlot(name, v, must) => U32(SymbolIndex(symbols, name), U32(v, U8(Bit(must), rest)))
    case ReadSlotFallback(name, other) =>
      U32(SymbolIndex(symbols, name), U32(SymbolIndex(symbols, other), rest))
    case WriteSlotFallback(name, other, v, must) =>
      U32(SymbolIndex(symbols, name), U32(SymbolIndex(symbols, other), U32(v, U8(Bit(must), rest))))
    case SlotDesignator(name) => U32(SymbolIndex(symbols, name), rest)
    case RecordDefNode(_, _, _) => rest
    case ReadIndex(b, i) => U32(b, U32(i, rest))
    case WriteIndex(b, i, v) => U32(b, U32(i, U32(v, rest)))
    case ReadField(b, field) => U32(b, StrOnto(field, rest))
    case WriteField(b, field, v) => U32(b, StrOnto(field, U32(v, rest)))
    case Fn(arity, locals, body) => U32(arity, U32(locals, U32(body, rest)))
    case Call(builtin, callee, first, count) =>
      U8(BuiltinCode(builtin), U32(callee, U32(first, U32(count, rest))))
    case If(c, t, e, hasElse) => U32(c, U32(t, U32(e, U8(Bit(hasElse), rest))))
    case While(c, b) => U32(c, U32(b, rest))
    case Seq(first, count) => U32(first, U32(count, rest))
  }

  function NodeOnto(n: Node, symbols: seq<string>, rest: seq<Byte>): seq<Byte> {
    U8(NodeKind(n), NodeBodyOnto(n, symbols, rest))
  }

  function NodesOnto(ns: seq<Node>, symbols: seq<string>, rest: seq<Byte>): seq<Byte> {
    if ns == [] then rest else NodeOnto(ns[0], symbols, NodesOnto(ns[1..], symbols, rest))
  }

  function WordsOnto(ns: seq<nat>, rest: seq<Byte>): seq<Byte> {
    if ns == [] then rest else U32(ns[0], WordsOnto(ns[1..], rest))
  }

  function ArraysOnto(p: Program, symbols: seq<string>, rest: seq<Byte>): seq<Byte> {
    LiteralsOnto(p.literals, NodesOnto(p.nodes, symbols, WordsOnto(p.links, rest)))
  }

  function CodeOnto(arity: nat, localCount: nat, body: nat, p: Program, symbols: seq<string>, rest: seq<Byte>): seq<Byte> {
    U32(arity, U32(localCount, U32(body, U32(p.root, U32(p.rootLocalCount,
      U32(|p.literals|, U32(|p.nodes|, U32(|p.links|, ArraysOnto(p, symbols, rest)))))))))
  }

  // ----- objects -----

  function StrsOnto(ss: seq<string>, rest: seq<Byte>): seq<Byte> {
    if ss == [] then rest else StrOnto(ss[0], StrsOnto(ss[1..], rest))
  }

  function EntryKind(e: Entry): (n: nat)
    ensures n < 7
  {
    match e
    case TextEntry(_) => 1
    case CellsEntry(_) => 2
    case CodeEntry(_, _, _, _) => 3
    case DefEntry(_, _) => 5
    case RecordEntry(_, _) => 6
  }

  function EntryOnto(e: Entry, symbols: seq<string>, rest: seq<Byte>): seq<Byte> {
    U8(EntryKind(e), EntryBodyOnto(e, symbols, rest))
  }

  function EntryBodyOnto(e: Entry, symbols: seq<string>, rest: seq<Byte>): seq<Byte> {
    match e
    case TextEntry(text) => U32(|text|, Raw(Ascii(text), rest))
    case CellsEntry(items) => U32(|items|, DataOnto(items, rest))
    case CodeEntry(arity, locals, body, p) => CodeOnto(arity, locals, body, p, symbols, rest)
    case DefEntry(name, fields) => U32(|fields|, StrOnto(name, StrsOnto(fields, rest)))
    case RecordEntry(definition, values) => U32(definition, U32(|values|, DataOnto(values, rest)))
  }

  function EntriesOnto(es: seq<Entry>, symbols: seq<string>, rest: seq<Byte>): seq<Byte> {
    if es == [] then rest else EntryOnto(es[0], symbols, EntriesOnto(es[1..], symbols, rest))
  }

  function BindingsOnto(bs: seq<Binding>, rest: seq<Byte>): seq<Byte> {
    if bs == [] then rest else U32(bs[0].symbol, DatumOnto(bs[0].value, BindingsOnto(bs[1..], rest)))
  }

  /** The four characters every payload begins with. */
  function Magic(): (s: seq<Byte>)
    ensures |s| == 4
  {
    [0x46, 0x52, 0x54, 0x59]
  }

  const VERSION: nat := 2
  const IR_VERSION: nat := 2

  function SectionsOnto(m: Image, rest: seq<Byte>): seq<Byte> {
    U32(|m.symbols|, StrsOnto(m.symbols,
      U32(|m.entries|, EntriesOnto(m.entries, m.symbols,
        U32(|m.bindings|, BindingsOnto(m.bindings, rest))))))
  }

  function Payload(m: Image): seq<Byte> {
    Raw(Magic(), U16(VERSION, U16(IR_VERSION, SectionsOnto(m, []))))
  }

  // ----- what the writer can write and the reader will take back -----

  predicate Chars(s: string) { Narrow(s) && |s| < WORD }

  predicate LiteralReady(l: Literal) {
    match l
    case IntLiteral(n) => Int32(n)
    case TextLiteral(text) => Chars(text)
    case _ => true
  }

  predicate FieldReady(field: string) { SimpleName(field) && |field| < 0x1_0000 }

  predicate Small(n: nat) { n < WORD }

  /** A node id, or the mark for no node. */
  predicate NodeIdReady(id: nat, count: nat, mayMiss: bool) { id < count || (mayMiss && id == NODE_INVALID) }

  predicate SpanReady(first: nat, count: nat, links: nat) { first <= links && count <= links - first }

  /** The references of a node stay inside its program, and its names are known symbols. */
  predicate NodeReady(n: Node, p: Program, symbols: seq<string>) {
    var count := |p.nodes|;
    match n
    case Lit(l) => l < |p.literals|
    case ReadLocal(l) => Small(l)
    case WriteLocal(l, v) => Small(l) && v < count
    case ReadSlot(name) => name in symbols
    case WriteSlot(name, v, _) => name in symbols && v < count
    case ReadSlotFallback(name, other) => name in symbols && other in symbols
    case WriteSlotFallback(name, other, v, _) => name in symbols && other in symbols && v < count
    case SlotDesignator(name) => name in symbols
    case RecordDefNode(_, _, _) => false
    case ReadIndex(b, i) => b < count && i < count
    case WriteIndex(b, i, v) => b < count && i < count && v < count
    case ReadField(b, field) => b < count && FieldReady(field)
    case WriteField(b, field, v) => b < count && v < count && FieldReady(field)
    case Fn(arity, locals, body) => arity <= locals && Small(locals) && body < count
    case Call(builtin, callee, first, argCount) =>
      SpanReady(first, argCount, |p.links|) && NodeIdReady(callee, count, builtin != NoBuiltin)
    case If(c, t, e, hasElse) => c < count && t < count && NodeIdReady(e, count, !hasElse)
    case While(c, b) => c < count && b < count
    case Seq(first, itemCount) => SpanReady(first, itemCount, |p.links|)
  }

  predicate ProgramReady(p: Program, symbols: seq<string>) {
    && |p.literals| <= LITERAL_CAPACITY && |p.nodes| <= NODE_CAPACITY && |p.links| <= LINK_CAPACITY
    && p.root < |p.nodes| && Small(p.rootLocalCount)
    && |symbols| < WORD
    && (forall i :: 0 <= i < |p.literals| ==> LiteralReady(p.literals[i]))
    && (forall i :: 0 <= i < |p.nodes| ==> NodeReady(p.nodes[i], p, symbols))
    && (forall i :: 0 <= i < |p.links| ==> p.links[i] < |p.nodes|)
  }

  // ----- programs, wherever they come from -----

  /** Field names are simple names, and a child that is missing is marked as missing. */
  predicate Spelled(p: Program, node: Node) {
    match node
    case ReadField(_, field) => SimpleName(field)
    case WriteField(_, field, _) => SimpleName(field)
    case Call(builtin, callee, _, _) => NodeIdReady(callee, |p.nodes|, builtin != NoBuiltin)
    case If(_, _, e, hasElse) => NodeIdReady(e, |p.nodes|, !hasElse)
    case _ => true
  }

  /** Every link leads to a node, or, in a program that defines records, perhaps to a literal. */
  ghost predicate Linking(p: Program) {
    (exists n :: n in p.nodes && n.RecordDefNode?) || forall k :: 0 <= k < |p.links| ==> p.links[k] < |p.nodes|
  }

  ghost predicate LiteralsReady(p: Program) { forall k :: 0 <= k < |p.literals| ==> LiteralReady(p.literals[k]) }

  /** No name occurs twice. */
  predicate Distinct(ss: seq<string>) { forall i, j :: 0 <= i < j < |ss| ==> ss[i] != ss[j] }

  predicate DefReady(name: string, fields: seq<string>) {
    && SlotName(name) && |name| < 0x1_0000
    && 0 < |fields| <= LINK_CAPACITY
    && (forall i :: 0 <= i < |fields| ==> FieldReady(fields[i]))
    && Distinct(fields)
  }

  /** A value inside an object: a scalar, or a text or record that was numbered before. */
  predicate DatumReady(d: Datum, entries: seq<Entry>, before: nat)
    requires before <= |entries|
  {
    match d
    case RefDatum(index) => index < before && (entries[index].TextEntry? || entries[index].RecordEntry?)
    case _ => true
  }

  predicate DataReady(ds: seq<Datum>, entries: seq<Entry>, before: nat)
    requires before <= |entries|
  {
    forall k :: 0 <= k < |ds| ==> DatumReady(ds[k], entries, before)
  }

  predicate EntryReady(e: Entry, entries: seq<Entry>, before: nat, symbols: seq<string>)
    requires before <= |entries|
  {
    match e
    case TextEntry(text) => Chars(text)
    case CellsEntry(items) => 0 < |items| < WORD && DataReady(items, entries, before)
    case CodeEntry(arity, locals, body, p) =>
      arity <= locals && Small(locals) && body < |p.nodes| && ProgramReady(p, symbols)
    case DefEntry(name, fields) => DefReady(name, fields)
    case RecordEntry(definition, values) =>
      && 0 < |values| <= LINK_CAPACITY
      && definition < before && entries[definition].DefEntry? && |entries[definition].fields| == |values|
      && DataReady(values, entries, before)
  }

  predicate BindingReady(b: Binding, m: Image) {
    b.symbol < |m.symbols|
    && match b.value
          case RefDatum(index) => index < |m.entries|
       case _ => true
  }

  predicate SymbolReady(s: string) { SlotName(s) && |s| < 0x1_0000 }

  predicate SymbolsReady(ss: seq<string>) {
    && |ss| <= SYMBOL_CAPACITY
    && (forall i :: 0 <= i < |ss| ==> SymbolReady(ss[i]))
    && Distinct(ss)
  }

  predicate EntriesReady(es: seq<Entry>, symbols: seq<string>) {
    forall i :: 0 <= i < |es| ==> EntryReady(es[i], es, i, symbols)
  }

  /** An image whose payload can be written and taken back. `capacity` bounds the objects. */
  predicate Ready(m: Image, capacity: nat) {
    && SymbolsReady(m.symbols)
    && |m.entries| <= capacity && |m.entries| < WORD
    && EntriesReady(m.entries, m.symbols)
    && |m.bindings| < WORD
    && (forall i :: 0 <= i < |m.bindings| ==> BindingReady(m.bindings[i], m))
  }
}

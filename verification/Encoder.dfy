/**
 Writing a snapshot payload from the live heap and the slot table.

 A writer is given, as ghost state, the bytes it must end up with; `Owes(s)` says that
 `s` is what is still missing from its buffer.
 */
module Encoder {
  import opened Bytes
  import opened Ir
  import opened Values
  import opened Heap
  import opened Interp
  import opened Names
  import opened Image

  const SNAPSHOT_OVERFLOW: Error := Other(200)
  const SNAPSHOT_FORMAT: Error := Other(201)
  const SNAPSHOT_UNRESOLVED: Error := Other(202)
  const SNAPSHOT_INCOMPAT: Error := Other(204)
  const SNAPSHOT_BAD_NAME: Error := Other(206)
  const NOT_PERSISTABLE: Error := Other(27)

  /** The place of an object id in the object table; the table's length if it is missing. */
  function ItemIndex(items: seq<nat>, id: nat): (i: nat)
    ensures i <= |items|
    ensures i < |items| ==> items[i] == id
    ensures i == |items| <==> id !in items
  {
    if items == [] then 0 else if items[0] == id then 0 else 1 + ItemIndex(items[1..], id)
  }

  // ----- what the heap says, as an image -----

  function DatumOf(v: Value, items: seq<nat>): Datum {
    match v
    case Int(n) => IntDatum(n)
    case Bool(b) => BoolDatum(b)
    case Nil => NilDatum
    case Obj(id) => RefDatum(ItemIndex(items, id))
    case Slot(_) => NilDatum
  }

  function DataOf(vs: seq<Value>, items: seq<nat>): seq<Datum> {
    seq(|vs|, i requires 0 <= i < |vs| => DatumOf(vs[i], items))
  }

  function EntryOf(o: Object, items: seq<nat>): Entry {
    match o
    case Text(text) => TextEntry(text)
    case Cells(values) => CellsEntry(DataOf(values, items))
    case Code(program, body, arity, localCount) => CodeEntry(arity, localCount, body, program)
    case RecordDef(name, fields) => DefEntry(name, fields)
    case Record(Obj(id), fields) => RecordEntry(ItemIndex(items, id), DataOf(fields, items))
    case _ => TextEntry("")
  }

  function ObjectAt(h: Heap, id: nat): Object { if IsLive(h, id) then h[id].obj else Text("") }

  function EntriesOf(h: Heap, items: seq<nat>, from: nat): seq<Entry>
    requires from <= |items|
  {
    seq(|items| - from, i requires 0 <= i < |items| - from => EntryOf(ObjectAt(h, items[from + i]), items))
  }

  /** Slots of the overlay that are bound. */
  predicate Bound(s: SlotEntry) { s.overlay && s.impl.Some? }

  function BindingOf(s: SlotEntry, symbols: seq<string>, items: seq<nat>): Binding
    requires s.impl.Some?
  {
    Binding(SymbolIndex(symbols, s.name), DatumOf(s.impl.value, items))
  }

  function BindingsOf(slots: seq<SlotEntry>, symbols: seq<string>, items: seq<nat>): seq<Binding> {
    if slots == [] then []
    else (if Bound(slots[0]) then [BindingOf(slots[0], symbols, items)] else []) + BindingsOf(slots[1..], symbols, items)
  }

  function ImageOf(h: Heap, slots: seq<SlotEntry>, symbols: seq<string>, items: seq<nat>): Image {
    Image(symbols, EntriesOf(h, items, 0), BindingsOf(slots, symbols, items))
  }

  // ----- what the writer refuses -----

  predicate Scalar(v: Value) { v.Int? || v.Bool? || v.Nil? }

  /** A value inside an object that can be written. */
  predicate Inner(h: Heap, v: Value, items: seq<nat>) {
    Scalar(v) || (v.Obj? && IsLive(h, v.id) && v.id in items && (h[v.id].obj.Text? || h[v.id].obj.Record?))
  }

  predicate AllInner(h: Heap, vs: seq<Value>, items: seq<nat>) { forall k :: 0 <= k < |vs| ==> Inner(h, vs[k], items) }

  predicate Outer(h: Heap, v: Value, items: seq<nat>) {
    Scalar(v) || (v.Obj? && IsLive(h, v.id) && v.id in items)
  }

  predicate NodeWritable(n: Node, symbols: seq<string>) {
    match n
    case ReadSlot(name) => name in symbols
    case WriteSlot(name, _, _) => name in symbols
    case ReadSlotFallback(name, other) => name in symbols && other in symbols
    case WriteSlotFallback(name, other, _, _) => name in symbols && other in symbols
    case SlotDesignator(name) => name in symbols
    case RecordDefNode(_, _, _) => false
    case ReadField(_, field) => |field| < 0x1_0000
    case WriteField(_, field, _) => |field| < 0x1_0000
    case _ => true
  }

  predicate NodesWritable(ns: seq<Node>, symbols: seq<string>) {
    forall i :: 0 <= i < |ns| ==> NodeWritable(ns[i], symbols)
  }

  predicate ObjectWritable(h: Heap, o: Object, symbols: seq<string>, items: seq<nat>) {
    match o
    case Text(_) => true
    case Cells(values) => AllInner(h, values, items)
    case Code(p, _, _, _) => NodesWritable(p.nodes, symbols)
    case RecordDef(name, fields) => DefReady(name, fields)
    case Record(definition, fields) =>
      definition.Obj? && IsLive(h, definition.id) && definition.id in items && AllInner(h, fields, items)
    case Native(_, _) => false
  }

  predicate SlotWritable(h: Heap, s: SlotEntry, symbols: seq<string>, items: seq<nat>) {
    Bound(s) ==> s.name in symbols && Outer(h, s.impl.value, items)
  }

  predicate Writable(h: Heap, slots: seq<SlotEntry>, symbols: seq<string>, items: seq<nat>) {
    && (forall i :: 0 <= i < |items| ==> IsLive(h, items[i]) && ObjectWritable(h, h[items[i]].obj, symbols, items))
    && (forall i :: 0 <= i < |slots| ==> SlotWritable(h, slots[i], symbols, items))
  }

  // ----- the writer -----

  class Writer {
    const data: array<Byte>
    var length: nat
    ghost var goal: seq<Byte>

    ghost predicate Owes(rest: seq<Byte>)
      reads this, data
    {
      length <= data.Length && goal == data[..length] + rest
    }

    ghost predicate Fits()
      reads this
    {
      |goal| <= data.Length
    }

    constructor (capacity: nat, ghost goal: seq<Byte>)
      ensures fresh(data) && data.Length == capacity && this.goal == goal && length == 0 && Owes(goal)
    {
      data := new Byte[capacity];
      length := 0;
      this.goal := goal;
      new;
      assert data[..0] + goal == goal;
    }

    method WriteBytes(bytes: seq<Byte>, ghost rest: seq<Byte>) returns (err: Error)
      requires Owes(Raw(bytes, rest))
      modifies data, this`length
      ensures err == Ok ==> Owes(rest)
      ensures err != Ok ==> err == SNAPSHOT_OVERFLOW && !Fits()
    {
      if |bytes| > data.Length - length {
        return SNAPSHOT_OVERFLOW;
      }
      ghost var before := data[..length];
      var i: nat := 0;
      while i < |bytes|
        invariant i <= |bytes| && length + i <= data.Length
        invariant data[..length + i] == before + bytes[..i]
      {
        data[length + i] := bytes[i];
        i := i + 1;
        assert data[..length + i] == data[..length + i - 1] + [bytes[i - 1]];
      }
      assert bytes[..i] == bytes;
      length := length + |bytes|;
      assert before + Raw(bytes, rest) == (before + bytes) + rest;
      err := Ok;
    }

    method WriteU8(n: nat, ghost rest: seq<Byte>) returns (err: Error)
      requires n < 256 && Owes(U8(n, rest))
      modifies data, this`length
      ensures err == Ok ==> Owes(rest)
      ensures err != Ok ==> err == SNAPSHOT_OVERFLOW && !Fits()
    {
      assert U8(n, rest) == Raw([Octet(n)], rest);
      err := WriteBytes([Octet(n)], rest);
    }

    method WriteU16(n: nat, ghost rest: seq<Byte>) returns (err: Error)
      requires Owes(U16(n, rest))
      modifies data, this`length
      ensures err == Ok ==> Owes(rest)
      ensures err != Ok ==> err == SNAPSHOT_OVERFLOW && !Fits()
    {
      assert U16(n, rest) == Raw(Little(n, 2), rest);
      err := WriteBytes(Little(n, 2), rest);
    }

    method WriteU32(n: nat, ghost rest: seq<Byte>) returns (err: Error)
      requires Owes(U32(n, rest))
      modifies data, this`length
      ensures err == Ok ==> Owes(rest)
      ensures err != Ok ==> err == SNAPSHOT_OVERFLOW && !Fits()
    {
      assert U32(n, rest) == Raw(Little(n, 4), rest);
      err := WriteBytes(Little(n, 4), rest);
    }

    method WriteI32(n: int, ghost rest: seq<Byte>) returns (err: Error)
      requires Owes(I32(n, rest))
      modifies data, this`length
      ensures err == Ok ==> Owes(rest)
      ensures err != Ok ==> err == SNAPSHOT_OVERFLOW && !Fits()
    {
      err := WriteU32(n % WORD, rest);
    }

    /** Strings are limited by their length field. */
    method WriteStr(s: string, ghost rest: seq<Byte>) returns (err: Error)
      requires Owes(StrOnto(s, rest))
      modifies data, this`length
      ensures err == Ok ==> Owes(rest) && |s| < 0x1_0000
      ensures err != Ok ==> err == SNAPSHOT_OVERFLOW && (!Fits() || |s| >= 0x1_0000)
    {
      hide U16, Raw, Ascii;
      if |s| >= 0x1_0000 {
        return SNAPSHOT_OVERFLOW;
      }
      err := WriteU16(|s|, Raw(Ascii(s), rest));
      if err != Ok {
        return;
      }
      err := WriteBytes(Ascii(s), rest);
    }

    // ----- values -----

    method WriteScalar(v: Value, items: seq<nat>, ghost rest: seq<Byte>) returns (err: Error)
      requires Scalar(v) && Owes(DatumOnto(DatumOf(v, items), rest))
      modifies data, this`length
      ensures err == Ok ==> Owes(rest)
      ensures err != Ok ==> !Fits()
    {
      hide U8, I32;
      match v {
        case Int(n) =>
          err := WriteU8(3, I32(n, rest));
          if err != Ok {
            return;
          }
          err := WriteI32(n, rest);
        case Nil =>
          err := WriteU8(0, rest);
        case Bool(b) =>
          err := WriteU8(if b then 2 else 1, rest);
      }
    }

    method WriteRef(h: Heap, v: Value, items: seq<nat>, ghost rest: seq<Byte>) returns (err: Error)
      requires v.Obj? && Owes(DatumOnto(DatumOf(v, items), rest))
      modifies data, this`length
      ensures err == Ok ==> Owes(rest) && IsLive(h, v.id) && v.id in items
      ensures err != Ok ==> !Fits() || v.id !in items || !IsLive(h, v.id)
    {
      hide U8, U32;
      var index := ItemIndex(items, v.id);
      if index == |items| {
        return SNAPSHOT_UNRESOLVED;
      }
      if !IsLive(h, v.id) {
        return Bounds;
      }
      err := WriteU8(4, U32(index, rest));
      if err != Ok {
        return;
      }
      err := WriteU32(index, rest);
    }

    /** The value of a binding. */
    method WriteValue(h: Heap, v: Value, items: seq<nat>, ghost rest: seq<Byte>) returns (err: Error)
      requires Owes(DatumOnto(DatumOf(v, items), rest))
      modifies data, this`length
      ensures err == Ok ==> Owes(rest) && Outer(h, v, items)
      ensures err != Ok ==> !Fits() || !Outer(h, v, items)
    {
      hide DatumOnto, Writer.Owes;
      if Scalar(v) {
        err := WriteScalar(v, items, rest);
      } else if v.Slot? {
        err := TypeMismatch;
      } else {
        err := WriteRef(h, v, items, rest);
      }
    }

    /** A value inside an object. */
    method WriteRestricted(h: Heap, v: Value, items: seq<nat>, ghost rest: seq<Byte>) returns (err: Error)
      requires Owes(DatumOnto(DatumOf(v, items), rest))
      modifies data, this`length
      ensures err == Ok ==> Owes(rest) && Inner(h, v, items)
      ensures err != Ok ==> !Fits() || !Inner(h, v, items)
    {
      hide DatumOnto, Writer.Owes;
      if Scalar(v) {
        err := WriteScalar(v, items, rest);
      } else if v.Slot? {
        err := TypeMismatch;
      } else if !IsLive(h, v.id) {
        err := Bounds;
      } else if h[v.id].obj.Text? || h[v.id].obj.Record? {
        err := WriteRef(h, v, items, rest);
      } else {
        err := NOT_PERSISTABLE;
      }
    }

    method WriteRestrictedAll(h: Heap, vs: seq<Value>, items: seq<nat>, ghost rest: seq<Byte>) returns (err: Error)
      requires Owes(DataOnto(DataOf(vs, items), rest))
      modifies data, this`length
      ensures err == Ok ==> Owes(rest) && AllInner(h, vs, items)
      ensures err != Ok ==> !Fits() || !AllInner(h, vs, items)
    {
      hide DataOnto, DatumOnto, Inner, DatumOf, Writer.Owes;
      ghost var all := DataOf(vs, items);
      assert all[0..] == all;
      var i: nat := 0;
      while i < |vs|
        invariant i <= |vs| && Owes(DataOnto(all[i..], rest))
        invariant forall k :: 0 <= k < i ==> Inner(h, vs[k], items)
      {
        DataStep(all, i, rest);
        err := WriteRestricted(h, vs[i], items, DataOnto(all[i + 1..], rest));
        if err != Ok {
          return;
        }
        i := i + 1;
      }
      DataEnd(rest);
      assert all[i..] == [];
      err := Ok;
    }

    // ----- programs -----

    method WriteLiteral(l: Literal, ghost rest: seq<Byte>) returns (err: Error)
      requires Owes(LiteralOnto(l, rest))
      modifies data, this`length
      ensures err == Ok ==> Owes(rest)
      ensures err != Ok ==> !Fits()
    {
      hide U8, U32, I32, Raw, Ascii, Writer.Owes;
      match l {
        case IntLiteral(n) =>
          err := WriteU8(0, I32(n, rest));
          if err != Ok { return; }
          err := WriteI32(n, rest);
        case BoolLiteral(b) =>
          err := WriteU8(1, U8(Bit(b), rest));
          if err != Ok { return; }
          err := WriteU8(Bit(b), rest);
        case NilLiteral =>
          err := WriteU8(2, rest);
        case TextLiteral(text) =>
          err := WriteU8(3, U32(|text|, Raw(Ascii(text), rest)));
          if err != Ok { return; }
          err := WriteU32(|text|, Raw(Ascii(text), rest));
          if err != Ok { return; }
          err := WriteBytes(Ascii(text), rest);
      }
    }

    method WriteSymbol(name: string, symbols: seq<string>, ghost rest: seq<Byte>) returns (err: Error)
      requires Owes(U32(SymbolIndex(symbols, name), rest))
      modifies data, this`length
      ensures err == Ok ==> Owes(rest) && name in symbols
      ensures err != Ok ==> !Fits() || name !in symbols
    {
      hide U32, Writer.Owes;
      var index := SymbolIndex(symbols, name);
      if index == |symbols| {
        return SNAPSHOT_UNRESOLVED;
      }
      err := WriteU32(index, rest);
    }

    /** Nodes that name slots. */
    method WriteSlotNode(n: Node, symbols: seq<string>, ghost rest: seq<Byte>) returns (err: Error)
      requires n.ReadSlot? || n.WriteSlot? || n.ReadSlotFallback? || n.WriteSlotFallback? || n.SlotDesignator?
      requires Owes(NodeOnto(n, symbols, rest))
      modifies data, this`length
      ensures err == Ok ==> Owes(rest) && NodeWritable(n, symbols)
      ensures err != Ok ==> !Fits() || !NodeWritable(n, symbols)
    {
      hide U8, U32, SymbolIndex, Writer.Owes;
      match n {
        case ReadSlot(name) =>
          err := WriteU8(3, U32(SymbolIndex(symbols, name), rest));
          if err != Ok { return; }
          err := WriteSymbol(name, symbols, rest);
        case WriteSlot(name, v, must) =>
          err := WriteU8(4, U32(SymbolIndex(symbols, name), U32(v, U8(Bit(must), rest))));
          if err != Ok { return; }
          err := WriteSymbol(name, symbols, U32(v, U8(Bit(must), rest)));
          if err != Ok { return; }
          err := WriteU32(v, U8(Bit(must), rest));
          if err != Ok { return; }
          err := WriteU8(Bit(must), rest);
        case ReadSlotFallback(name, other) =>
          err := WriteU8(5, U32(SymbolIndex(symbols, name), U32(SymbolIndex(symbols, other), rest)));
          if err != Ok { return; }
          err := WriteSymbol(name, symbols, U32(SymbolIndex(symbols, other), rest));
          if err != Ok { return; }
          err := WriteSymbol(other, symbols, rest);
        case WriteSlotFallback(name, other, v, must) =>
          err := WriteU8(6, U32(SymbolIndex(symbols, name), U32(SymbolIndex(symbols, other), U32(v, U8(Bit(must), rest)))));
          if err != Ok { return; }
          err := WriteSymbol(name, symbols, U32(SymbolIndex(symbols, other), U32(v, U8(Bit(must), rest))));
          if err != Ok { return; }
          err := WriteSymbol(other, symbols, U32(v, U8(Bit(must), rest)));
          if err != Ok { return; }
          err := WriteU32(v, U8(Bit(must), rest));
          if err != Ok { return; }
          err := WriteU8(Bit(must), rest);
        case SlotDesignator(name) =>
          err := WriteU8(7, U32(SymbolIndex(symbols, name), rest));
          if err != Ok { return; }
          err := WriteSymbol(name, symbols, rest);
      }
    }

    method WriteNode(n: Node, symbols: seq<string>, ghost rest: seq<Byte>) returns (err: Error)
      requires Owes(NodeOnto(n, symbols, rest))
      modifies data, this`length
      ensures err == Ok ==> Owes(rest) && NodeWritable(n, symbols)
      ensures err != Ok ==> !Fits() || !NodeWritable(n, symbols)
    {
      hide U8, U32, SymbolIndex, StrOnto, Writer.Owes;
      match n {
        case Lit(l) =>
          err := WriteU8(0, U32(l, rest));
          if err != Ok { return; }
          err := WriteU32(l, rest);
        case ReadLocal(l) =>
          err := WriteU8(1, U32(l, rest));
          if err != Ok { return; }
          err := WriteU32(l, rest);
        case WriteLocal(l, v) =>
          err := WriteU8(2, U32(l, U32(v, rest)));
          if err != Ok { return; }
          err := WriteWords2(l, v, rest);
        case RecordDefNode(_, _, _) =>
          err := WriteU8(8, rest);
          if err != Ok { return; }
          err := NOT_PERSISTABLE;
        case ReadIndex(b, i) =>
          err := WriteU8(9, U32(b, U32(i, rest)));
          if err != Ok { return; }
          err := WriteWords2(b, i, rest);
        case WriteIndex(b, i, v) =>
          err := WriteU8(10, U32(b, U32(i, U32(v, rest))));
          if err != Ok { return; }
          err := WriteU32(b, U32(i, U32(v, rest)));
          if err != Ok { return; }
          err := WriteWords2(i, v, rest);
        case ReadField(b, field) =>
          err := WriteU8(11, U32(b, StrOnto(field, rest)));
          if err != Ok { return; }
          err := WriteU32(b, StrOnto(field, rest));
          if err != Ok { return; }
          err := WriteStr(field, rest);
        case WriteField(b, field, v) =>
          err := WriteU8(12, U32(b, StrOnto(field, U32(v, rest))));
          if err != Ok { return; }
          err := WriteU32(b, StrOnto(field, U32(v, rest)));
          if err != Ok { return; }
          err := WriteStr(field, U32(v, rest));
          if err != Ok { return; }
          err := WriteU32(v, rest);
        case Fn(arity, locals, body) =>
          err := WriteU8(13, U32(arity, U32(locals, U32(body, rest))));
          if err != Ok { return; }
          err := WriteU32(arity, U32(locals, U32(body, rest)));
          if err != Ok { return; }
          err := WriteWords2(locals, body, rest);
        case Call(builtin, callee, first, count) =>
          err := WriteU8(14, U8(BuiltinCode(builtin), U32(callee, U32(first, U32(count, rest)))));
          if err != Ok { return; }
          err := WriteU8(BuiltinCode(builtin), U32(callee, U32(first, U32(count, rest))));
          if err != Ok { return; }
          err := WriteU32(callee, U32(first, U32(count, rest)));
          if err != Ok { return; }
          err := WriteWords2(first, count, rest);
        case If(c, t, e, hasElse) =>
          err := WriteU8(15, U32(c, U32(t, U32(e, U8(Bit(hasElse), rest)))));
          if err != Ok { return; }
          err := WriteWords2(c, t, U32(e, U8(Bit(hasElse), rest)));
          if err != Ok { return; }
          err := WriteU32(e, U8(Bit(hasElse), rest));
          if err != Ok { return; }
          err := WriteU8(Bit(hasElse), rest);
        case While(c, b) =>
          err := WriteU8(16, U32(c, U32(b, rest)));
          if err != Ok { return; }
          err := WriteWords2(c, b, rest);
        case Seq(first, count) =>
          err := WriteU8(17, U32(first, U32(count, rest)));
          if err != Ok { return; }
          err := WriteWords2(first, count, rest);
        case _ =>
          err := WriteSlotNode(n, symbols, rest);
      }
    }

    method WriteWords2(a: nat, b: nat, ghost rest: seq<Byte>) returns (err: Error)
      requires Owes(U32(a, U32(b, rest)))
      modifies data, this`length
      ensures err == Ok ==> Owes(rest)
      ensures err != Ok ==> !Fits()
    {
      hide U32, Writer.Owes;
      err := WriteU32(a, U32(b, rest));
      if err != Ok { return; }
      err := WriteU32(b, rest);
    }

    method WriteArrays(p: Program, symbols: seq<string>, ghost rest: seq<Byte>) returns (err: Error)
      requires Owes(ArraysOnto(p, symbols, rest))
      modifies data, this`length
      ensures err == Ok ==> Owes(rest) && NodesWritable(p.nodes, symbols)
      ensures err != Ok ==> !Fits() || !NodesWritable(p.nodes, symbols)
    {
      hide LiteralsOnto, NodesOnto, WordsOnto, LiteralOnto, NodeOnto, NodeWritable, U32, Writer.Owes;
      ghost var links := WordsOnto(p.links, rest);
      ghost var nodes := NodesOnto(p.nodes, symbols, links);
      var i: nat := 0;
      assert p.literals[0..] == p.literals;
      while i < |p.literals|
        invariant i <= |p.literals| && Owes(LiteralsOnto(p.literals[i..], nodes))
      {
        LiteralsStep(p.literals, i, nodes);
        err := WriteLiteral(p.literals[i], LiteralsOnto(p.literals[i + 1..], nodes));
        if err != Ok { return; }
        i := i + 1;
      }
      assert p.literals[i..] == [];
      LiteralsStep(p.literals, i, nodes);
      i := 0;
      assert p.nodes[0..] == p.nodes;
      while i < |p.nodes|
        invariant i <= |p.nodes| && Owes(NodesOnto(p.nodes[i..], symbols, links))
        invariant forall k :: 0 <= k < i ==> NodeWritable(p.nodes[k], symbols)
      {
        NodesStep(p.nodes, symbols, i, links);
        err := WriteNode(p.nodes[i], symbols, NodesOnto(p.nodes[i + 1..], symbols, links));
        if err != Ok { return; }
        i := i + 1;
      }
      assert p.nodes[i..] == [];
      NodesStep(p.nodes, symbols, i, links);
      i := 0;
      assert p.links[0..] == p.links;
      while i < |p.links|
        invariant i <= |p.links| && Owes(WordsOnto(p.links[i..], rest))
      {
        WordsStep(p.links, i, rest);
        err := WriteU32(p.links[i], WordsOnto(p.links[i + 1..], rest));
        if err != Ok { return; }
        i := i + 1;
      }
      assert p.links[i..] == [];
      WordsStep(p.links, i, rest);
      err := Ok;
    }

    method WriteCode(o: Object, symbols: seq<string>, ghost rest: seq<Byte>) returns (err: Error)
      requires o.Code? && Owes(CodeOnto(o.arity, o.localCount, o.body, o.program, symbols, rest))
      modifies data, this`length
      ensures err == Ok ==> Owes(rest) && NodesWritable(o.program.nodes, symbols)
      ensures err != Ok ==> !Fits() || !NodesWritable(o.program.nodes, symbols)
    {
      hide U32, ArraysOnto, NodesWritable, Writer.Owes;
      var p := o.program;
      ghost var s8 := ArraysOnto(p, symbols, rest);
      ghost var s6 := U32(|p.nodes|, U32(|p.links|, s8));
      ghost var s4 := U32(p.rootLocalCount, U32(|p.literals|, s6));
      ghost var s2 := U32(o.body, U32(p.root, s4));
      err := WriteWords2(o.arity, o.localCount, s2);
      if err != Ok { return; }
      err := WriteWords2(o.body, p.root, s4);
      if err != Ok { return; }
      err := WriteWords2(p.rootLocalCount, |p.literals|, s6);
      if err != Ok { return; }
      err := WriteWords2(|p.nodes|, |p.links|, s8);
      if err != Ok { return; }
      err := WriteArrays(p, symbols, rest);
    }

    // ----- objects -----

    method WriteDef(name: string, fields: seq<string>, ghost rest: seq<Byte>) returns (err: Error)
      requires Owes(U32(|fields|, StrOnto(name, StrsOnto(fields, rest))))
      modifies data, this`length
      ensures err == Ok ==> Owes(rest) && DefReady(name, fields)
      ensures err != Ok ==> !Fits() || !DefReady(name, fields)
    {
      hide U32, StrOnto, StrsOnto, SlotName, SimpleName, Writer.Owes;
      if |fields| == 0 || |fields| > LINK_CAPACITY {
        return NOT_PERSISTABLE;
      }
      var ok := CheckSlotName(name);
      if !ok {
        return NOT_PERSISTABLE;
      }
      err := WriteU32(|fields|, StrOnto(name, StrsOnto(fields, rest)));
      if err != Ok { return; }
      err := WriteStr(name, StrsOnto(fields, rest));
      if err != Ok { return; }
      var i: nat := 0;
      assert fields[0..] == fields;
      while i < |fields|
        invariant i <= |fields| && Owes(StrsOnto(fields[i..], rest))
        invariant forall k :: 0 <= k < i ==> FieldReady(fields[k])
        invariant Distinct(fields[..i])
      {
        ok := CheckSimpleName(fields[i]);
        if !ok {
          assert !FieldReady(fields[i]);
          return NOT_PERSISTABLE;
        }
        ok := CheckFresh(fields, i);
        if !ok {
          return NOT_PERSISTABLE;
        }
        StrsStep(fields, i, rest);
        err := WriteStr(fields[i], StrsOnto(fields[i + 1..], rest));
        if err != Ok {
          assert |fields[i]| >= 0x1_0000 ==> !FieldReady(fields[i]);
          return;
        }
        assert FieldReady(fields[i]);
        i := i + 1;
      }
      assert fields[i..] == [] && fields[..i] == fields;
      StrsStep(fields, i, rest);
      err := Ok;
    }

    method WriteObject(h: Heap, o: Object, symbols: seq<string>, items: seq<nat>, ghost rest: seq<Byte>) returns (err: Error)
      requires Owes(EntryOnto(EntryOf(o, items), symbols, rest))
      modifies data, this`length
      ensures err == Ok ==> Owes(rest) && ObjectWritable(h, o, symbols, items)
      ensures err != Ok ==> !Fits() || !ObjectWritable(h, o, symbols, items)
    {
      hide U8, U32, Raw, Ascii, DataOnto, DatumOf, CodeOnto, StrOnto, StrsOnto, AllInner, NodesWritable, DefReady, Writer.Owes;
      ghost var body := EntryBodyOnto(EntryOf(o, items), symbols, rest);
      match o {
        case Text(text) =>
          err := WriteU8(1, body);
          if err != Ok { return; }
          err := WriteU32(|text|, Raw(Ascii(text), rest));
          if err != Ok { return; }
          err := WriteBytes(Ascii(text), rest);
        case Cells(values) =>
          err := WriteU8(2, body);
          if err != Ok { return; }
          err := WriteU32(|values|, DataOnto(DataOf(values, items), rest));
          if err != Ok { return; }
          err := WriteRestrictedAll(h, values, items, rest);
        case Code(_, _, _, _) =>
          err := WriteU8(3, body);
          if err != Ok { return; }
          err := WriteCode(o, symbols, rest);
        case RecordDef(name, fields) =>
          err := WriteU8(5, body);
          if err != Ok { return; }
          err := WriteDef(name, fields, rest);
        case Record(definition, fields) =>
          err := WriteRecord(h, definition, fields, symbols, items, rest);
        case Native(_, _) =>
          err := NOT_PERSISTABLE;
      }
    }

    method WriteRecord(h: Heap, definition: Value, fields: seq<Value>, symbols: seq<string>, items: seq<nat>, ghost rest: seq<Byte>)
      returns (err: Error)
      requires Owes(EntryOnto(EntryOf(Record(definition, fields), items), symbols, rest))
      modifies data, this`length
      ensures err == Ok ==> Owes(rest) && ObjectWritable(h, Record(definition, fields), symbols, items)
      ensures err != Ok ==> !Fits() || !ObjectWritable(h, Record(definition, fields), symbols, items)
    {
      hide U8, U32, DataOnto, DatumOf, AllInner, Writer.Owes;
      if !definition.Obj? {
        return TypeMismatch;
      }
      var index := ItemIndex(items, definition.id);
      if index == |items| {
        return SNAPSHOT_UNRESOLVED;
      }
      if !IsLive(h, definition.id) {
        return Bounds;
      }
      ghost var data := DataOnto(DataOf(fields, items), rest);
      err := WriteU8(6, U32(index, U32(|fields|, data)));
      if err != Ok { return; }
      err := WriteWords2(index, |fields|, data);
      if err != Ok { return; }
      err := WriteRestrictedAll(h, fields, items, rest);
    }

    // ----- sections -----

    method WriteSymbols(symbols: seq<string>, ghost rest: seq<Byte>) returns (err: Error)
      requires Owes(U32(|symbols|, StrsOnto(symbols, rest)))
      requires forall i :: 0 <= i < |symbols| ==> |symbols[i]| < 0x1_0000
      modifies data, this`length
      ensures err == Ok ==> Owes(rest)
      ensures err != Ok ==> !Fits()
    {
      hide U32, StrOnto, StrsOnto, Writer.Owes;
      err := WriteU32(|symbols|, StrsOnto(symbols, rest));
      if err != Ok { return; }
      var i: nat := 0;
      assert symbols[0..] == symbols;
      while i < |symbols|
        invariant i <= |symbols| && Owes(StrsOnto(symbols[i..], rest))
      {
        StrsStep(symbols, i, rest);
        err := WriteStr(symbols[i], StrsOnto(symbols[i + 1..], rest));
        if err != Ok { return; }
        i := i + 1;
      }
      assert symbols[i..] == [];
      StrsStep(symbols, i, rest);
      err := Ok;
    }

    method WriteObjects(h: Heap, symbols: seq<string>, items: seq<nat>, ghost rest: seq<Byte>) returns (err: Error)
      requires forall i :: 0 <= i < |items| ==> IsLive(h, items[i])
      requires Owes(U32(|items|, EntriesOnto(EntriesOf(h, items, 0), symbols, rest)))
      modifies data, this`length
      ensures err == Ok ==> Owes(rest) && forall i :: 0 <= i < |items| ==> ObjectWritable(h, h[items[i]].obj, symbols, items)
      ensures err != Ok ==> !Fits() || exists i :: 0 <= i < |items| && !ObjectWritable(h, h[items[i]].obj, symbols, items)
    {
      hide U32, EntriesOnto, EntryOnto, EntryOf, ObjectWritable, Writer.Owes;
      ghost var all := EntriesOf(h, items, 0);
      err := WriteU32(|items|, EntriesOnto(all, symbols, rest));
      if err != Ok { return; }
      var i: nat := 0;
      assert all[0..] == all;
      while i < |items|
        invariant i <= |items| && Owes(EntriesOnto(all[i..], symbols, rest))
        invariant forall k :: 0 <= k < i ==> ObjectWritable(h, h[items[k]].obj, symbols, items)
      {
        EntriesStep(all, symbols, i, rest);
        assert all[i] == EntryOf(h[items[i]].obj, items);
        err := WriteObject(h, h[items[i]].obj, symbols, items, EntriesOnto(all[i + 1..], symbols, rest));
        if err != Ok { return; }
        i := i + 1;
      }
      assert all[i..] == [];
      EntriesStep(all, symbols, i, rest);
      err := Ok;
    }

    method WriteBindings(h: Heap, slots: seq<SlotEntry>, symbols: seq<string>, items: seq<nat>, ghost rest: seq<Byte>) returns (err: Error)
      requires Owes(U32(|BindingsOf(slots, symbols, items)|, BindingsOnto(BindingsOf(slots, symbols, items), rest)))
      modifies data, this`length
      ensures err == Ok ==> Owes(rest) && forall i :: 0 <= i < |slots| ==> SlotWritable(h, slots[i], symbols, items)
      ensures err != Ok ==> !Fits() || exists i :: 0 <= i < |slots| && !SlotWritable(h, slots[i], symbols, items)
    {
      hide U32, BindingsOnto, DatumOnto, BindingsOf, DatumOf, Outer, SymbolIndex, Writer.Owes;
      var count := CountBindings(slots, symbols, items);
      err := WriteU32(count, BindingsOnto(BindingsOf(slots, symbols, items), rest));
      if err != Ok { return; }
      var i: nat := 0;
      assert slots[0..] == slots;
      while i < |slots|
        invariant i <= |slots| && Owes(BindingsOnto(BindingsOf(slots[i..], symbols, items), rest))
        invariant forall k :: 0 <= k < i ==> SlotWritable(h, slots[k], symbols, items)
      {
        ghost var left := BindingsOnto(BindingsOf(slots[i + 1..], symbols, items), rest);
        BindingsStep(slots, symbols, items, i, rest);
        if Bound(slots[i]) {
          var v := slots[i].impl.value;
          err := WriteSymbol(slots[i].name, symbols, DatumOnto(DatumOf(v, items), left));
          if err != Ok {
            assert !Fits() || !SlotWritable(h, slots[i], symbols, items);
            return;
          }
          err := WriteValue(h, v, items, left);
          if err != Ok {
            assert !Fits() || !SlotWritable(h, slots[i], symbols, items);
            return;
          }
        }
        i := i + 1;
      }
      assert slots[i..] == [];
      BindingsEnd(symbols, items, rest);
      err := Ok;
    }

    /** Writes the whole payload, or says why it cannot. */
    method WritePayload(h: Heap, slots: seq<SlotEntry>, symbols: seq<string>, items: seq<nat>) returns (err: Error)
      requires forall i :: 0 <= i < |items| ==> IsLive(h, items[i])
      requires forall i :: 0 <= i < |symbols| ==> |symbols[i]| < 0x1_0000
      requires goal == Payload(ImageOf(h, slots, symbols, items)) && length == 0
      modifies data, this`length
      ensures err == Ok <==> Fits() && Writable(h, slots, symbols, items)
      ensures err == Ok ==> length <= data.Length && data[..length] == Payload(ImageOf(h, slots, symbols, items))
    {
      hide U16, U32, Raw, Magic, StrsOnto, EntriesOnto, BindingsOnto, EntriesOf, BindingsOf, ObjectWritable, SlotWritable;
      ghost var m := ImageOf(h, slots, symbols, items);
      ghost var bindings := U32(|m.bindings|, BindingsOnto(m.bindings, []));
      ghost var objects := U32(|m.entries|, EntriesOnto(m.entries, m.symbols, bindings));
      ghost var sections := SectionsOnto(m, []);
      assert data[..0] + goal == goal;
      EntriesLength(h, items);
      err := WriteBytes(Magic(), U16(VERSION, U16(IR_VERSION, sections)));
      if err != Ok { return; }
      err := WriteU16(VERSION, U16(IR_VERSION, sections));
      if err != Ok { return; }
      err := WriteU16(IR_VERSION, sections);
      if err != Ok { return; }
      err := WriteSymbols(symbols, objects);
      if err != Ok { return; }
      err := WriteObjects(h, symbols, items, bindings);
      if err != Ok { return; }
      err := WriteBindings(h, slots, symbols, items, []);
      assert err == Ok ==> data[..length] + [] == data[..length];
    }
  }

  // ----- small facts -----

  lemma EntriesLength(h: Heap, items: seq<nat>)
    ensures |EntriesOf(h, items, 0)| == |items|
  {
  }

  method CheckFresh(fields: seq<string>, i: nat) returns (ok: bool)
    requires i < |fields| && Distinct(fields[..i])
    ensures ok ==> Distinct(fields[..i + 1])
    ensures !ok ==> !Distinct(fields)
  {
    var j: nat := 0;
    while j < i
      invariant j <= i && forall k :: 0 <= k < j ==> fields[k] != fields[i]
    {
      if fields[j] == fields[i] {
        return false;
      }
      j := j + 1;
    }
    ok := true;
    var was, now := fields[..i], fields[..i + 1];
    forall a, b | 0 <= a < b < |now|
      ensures now[a] != now[b]
    {
      assert b < i ==> was[a] != was[b];
    }
  }

  method CountBindings(slots: seq<SlotEntry>, ghost symbols: seq<string>, ghost items: seq<nat>) returns (count: nat)
    ensures count == |BindingsOf(slots, symbols, items)|
  {
    hide BindingOf;
    count := 0;
    var i: nat := 0;
    assert slots[0..] == slots;
    while i < |slots|
      invariant i <= |slots|
      invariant count + |BindingsOf(slots[i..], symbols, items)| == |BindingsOf(slots, symbols, items)|
    {
      assert slots[i..][0] == slots[i] && slots[i..][1..] == slots[i + 1..];
      if Bound(slots[i]) {
        count := count + 1;
      }
      i := i + 1;
    }
  }

  lemma DataStep(ds: seq<Datum>, i: nat, rest: seq<Byte>)
    requires i < |ds|
    ensures DataOnto(ds[i..], rest) == DatumOnto(ds[i], DataOnto(ds[i + 1..], rest))
  {
    hide DatumOnto;
    assert ds[i..][1..] == ds[i + 1..];
  }

  lemma DataEnd(rest: seq<Byte>)
    ensures DataOnto([], rest) == rest
  {
  }

  lemma LiteralsStep(ls: seq<Literal>, i: nat, rest: seq<Byte>)
    requires i <= |ls|
    ensures i < |ls| ==> LiteralsOnto(ls[i..], rest) == LiteralOnto(ls[i], LiteralsOnto(ls[i + 1..], rest))
    ensures LiteralsOnto([], rest) == rest
  {
    hide LiteralOnto;
    if i < |ls| {
      assert ls[i..][1..] == ls[i + 1..];
    }
  }

  lemma NodesStep(ns: seq<Node>, symbols: seq<string>, i: nat, rest: seq<Byte>)
    requires i <= |ns|
    ensures i < |ns| ==> NodesOnto(ns[i..], symbols, rest) == NodeOnto(ns[i], symbols, NodesOnto(ns[i + 1..], symbols, rest))
    ensures NodesOnto([], symbols, rest) == rest
  {
    hide NodeOnto;
    if i < |ns| {
      assert ns[i..][1..] == ns[i + 1..];
    }
  }

  lemma WordsStep(ns: seq<nat>, i: nat, rest: seq<Byte>)
    requires i <= |ns|
    ensures i < |ns| ==> WordsOnto(ns[i..], rest) == U32(ns[i], WordsOnto(ns[i + 1..], rest))
    ensures WordsOnto([], rest) == rest
  {
    hide U32;
    if i < |ns| {
      assert ns[i..][1..] == ns[i + 1..];
    }
  }

  lemma StrsStep(ss: seq<string>, i: nat, rest: seq<Byte>)
    requires i <= |ss|
    ensures i < |ss| ==> StrsOnto(ss[i..], rest) == StrOnto(ss[i], StrsOnto(ss[i + 1..], rest))
    ensures StrsOnto([], rest) == rest
  {
    hide StrOnto;
    if i < |ss| {
      assert ss[i..][1..] == ss[i + 1..];
    }
  }

  lemma EntriesStep(es: seq<Entry>, symbols: seq<string>, i: nat, rest: seq<Byte>)
    requires i <= |es|
    ensures i < |es| ==> EntriesOnto(es[i..], symbols, rest) == EntryOnto(es[i], symbols, EntriesOnto(es[i + 1..], symbols, rest))
    ensures EntriesOnto([], symbols, rest) == rest
  {
    hide EntryOnto;
    if i < |es| {
      assert es[i..][1..] == es[i + 1..];
    }
  }

  lemma BindingsStep(slots: seq<SlotEntry>, symbols: seq<string>, items: seq<nat>, i: nat, rest: seq<Byte>)
    requires i < |slots|
    ensures var left := BindingsOnto(BindingsOf(slots[i + 1..], symbols, items), rest);
      BindingsOnto(BindingsOf(slots[i..], symbols, items), rest) ==
        if Bound(slots[i])
        then U32(SymbolIndex(symbols, slots[i].name), DatumOnto(DatumOf(slots[i].impl.value, items), left))
        else left
  {
    hide U32, DatumOnto, DatumOf, SymbolIndex;
    assert slots[i..][1..] == slots[i + 1..];
    var more := BindingsOf(slots[i + 1..], symbols, items);
    if Bound(slots[i]) {
      assert ([BindingOf(slots[i], symbols, items)] + more)[1..] == more;
    } else {
      assert [] + more == more;
    }
  }

  lemma BindingsEnd(symbols: seq<string>, items: seq<nat>, rest: seq<Byte>)
    ensures BindingsOnto(BindingsOf([], symbols, items), rest) == rest
  {
  }
}

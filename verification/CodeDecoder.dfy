/**
 Reading a program back: a first pass measures its strings, a second one copies them.
 */
module CodeDecoder {
  import opened Bytes
  import opened Ir
  import opened Values
  import opened Names
  import opened Image
  import opened Encoder
  import opened Reader
  import opened Validator
  import opened Packed

  // ----- the measuring pass -----

  method MeasureLiteral(c: Cursor, ghost l: Literal, ghost rest: seq<Byte>) returns (err: Error, size: nat)
    requires c.Valid()
    modifies c
    ensures c.Valid() && c.offset >= old(c.offset)
    ensures old(c.Rest()) == LiteralOnto(l, rest) && LiteralReady(l)
         ==> err == Ok && c.Rest() == rest && size == StringsSize(LiteralStrings(l))
  {
    hide U8, U32, Raw, TakeU8, TakeU32, TakeRaw, Signed, Ascii, Narrow, StringsSize, Cursor.Rest;
    Rules();
    Sizes();
    ghost var text := if l.TextLiteral? then l.text else "";
    assert StringsSize([text]) == StringSize(text);
    size := 0;
    var kind;
    err, kind := c.ReadU8();
    if err != Ok { return; }
    if kind == 0 {
      var ignored;
      err, ignored := c.ReadI32();
    } else if kind == 1 {
      var ignored;
      err, ignored := c.ReadU8();
    } else if kind == 3 {
      var length;
      err, length := c.ReadU32();
      if err != Ok { return; }
      var ignored;
      err, ignored := c.ReadBytes(length);
      size := length + 1;
    }
  }

  method MeasureSlotBody(c: Cursor, kind: nat, symbols: seq<string>, ghost n: Node, ghost p: Program, ghost rest: seq<Byte>)
    returns (err: Error, size: nat)
    requires c.Valid() && (kind == 3 || kind == 4 || kind == 7)
    modifies c
    ensures c.Valid() && c.offset >= old(c.offset)
    ensures old(c.Rest()) == NodeBodyOnto(n, symbols, rest) && kind == NodeKind(n) && NodeReady(n, p, symbols)
         && |symbols| < WORD && |p.nodes| < WORD
         ==> err == Ok && c.Rest() == rest && size == StringsSize(NodeStrings(n))
  {
    hide U8, U32, TakeU8, TakeWords, SymbolIndex, StringsSize, StringSize, Cursor.Rest;
    Rules();
    WordRules();
    Sizes();
    size := 0;
    var w;
    err, w := SkipWords(c, if kind == 4 then 2 else 1);
    if err != Ok { return; }
    if kind == 4 {
      var ignored;
      err, ignored := c.ReadU8();
      if err != Ok { return; }
    }
    if w[0] >= |symbols| {
      return SNAPSHOT_FORMAT, 0;
    }
    size := StringSize(symbols[w[0]]);
  }

  method MeasureFallbackBody(c: Cursor, kind: nat, symbols: seq<string>, ghost n: Node, ghost p: Program, ghost rest: seq<Byte>)
    returns (err: Error, size: nat)
    requires c.Valid() && (kind == 5 || kind == 6)
    modifies c
    ensures c.Valid() && c.offset >= old(c.offset)
    ensures old(c.Rest()) == NodeBodyOnto(n, symbols, rest) && kind == NodeKind(n) && NodeReady(n, p, symbols)
         && |symbols| < WORD && |p.nodes| < WORD
         ==> err == Ok && c.Rest() == rest && size == StringsSize(NodeStrings(n))
  {
    hide U8, U32, TakeU8, TakeWords, SymbolIndex, StringsSize, StringSize, Cursor.Rest;
    Rules();
    WordRules();
    Sizes();
    size := 0;
    var w;
    err, w := SkipWords(c, if kind == 5 then 2 else 3);
    if err != Ok { return; }
    if kind == 6 {
      var ignored;
      err, ignored := c.ReadU8();
      if err != Ok { return; }
    }
    if w[0] >= |symbols| || w[1] >= |symbols| {
      return SNAPSHOT_FORMAT, 0;
    }
    size := StringSize(symbols[w[0]]) + StringSize(symbols[w[1]]);
  }

  method MeasureField(c: Cursor, ghost field: string, ghost rest: seq<Byte>) returns (err: Error, size: nat)
    requires c.Valid()
    modifies c
    ensures c.Valid() && c.offset >= old(c.offset)
    ensures old(c.Rest()) == StrOnto(field, rest) && FieldReady(field) ==> err == Ok && c.Rest() == rest && size == StringSize(field)
  {
    hide StrOnto, TakeStr, Cursor.Rest, FieldReady;
    FieldBack(field, rest);
    size := 0;
    var s;
    err, s := c.ReadStr();
    if err != Ok { return; }
    size := StringSize(s);
  }

  method MeasureFieldBody(c: Cursor, kind: nat, symbols: seq<string>, ghost n: Node, ghost p: Program, ghost rest: seq<Byte>)
    returns (err: Error, size: nat)
    requires c.Valid() && (kind == 11 || kind == 12)
    modifies c
    ensures c.Valid() && c.offset >= old(c.offset)
    ensures old(c.Rest()) == NodeBodyOnto(n, symbols, rest) && kind == NodeKind(n) && NodeReady(n, p, symbols) && |p.nodes| < WORD
         ==> err == Ok && c.Rest() == rest && size == StringsSize(NodeStrings(n))
  {
    hide U8, U32, TakeU8, TakeWords, StrOnto, SymbolIndex, NodeIdReady, SpanReady, FieldReady, StringsSize, StringSize,
      Cursor.Rest;
    Rules();
    WordRules();
    Sizes();
    size := 0;
    var w;
    err, w := SkipWords(c, 1);
    if err != Ok { return; }
    if kind == 11 {
      err, size := MeasureField(c, if n.ReadField? then n.field else "", rest);
    } else {
      err, size := MeasureField(c, if n.WriteField? then n.field else "", if n.WriteField? then U32(n.value, rest) else []);
      if err != Ok { return; }
      err, w := SkipWords(c, 1);
    }
  }

  method MeasureNode(c: Cursor, symbols: seq<string>, ghost n: Node, ghost p: Program, ghost rest: seq<Byte>)
    returns (err: Error, size: nat)
    requires c.Valid()
    modifies c
    ensures c.Valid() && c.offset >= old(c.offset)
    ensures old(c.Rest()) == NodeOnto(n, symbols, rest) && NodeReady(n, p, symbols)
         && |symbols| < WORD && |p.literals| < WORD && |p.nodes| < WORD && |p.links| < WORD
         ==> err == Ok && c.Rest() == rest && size == StringsSize(NodeStrings(n))
  {
    hide U8, U32, TakeU8, TakeWords, StrOnto, SymbolIndex, NodeIdReady, SpanReady, FieldReady, StringsSize, StringSize,
      Cursor.Rest;
    Rules();
    WordRules();
    SpanWords();
    Sizes();
    size := 0;
    var kind, w, ignored;
    err, kind := c.ReadU8();
    if err != Ok { return; }
    if kind == 0 || kind == 1 {
      err, w := SkipWords(c, 1);
    } else if kind == 2 || kind == 9 || kind == 16 || kind == 17 {
      err, w := SkipWords(c, 2);
    } else if kind == 5 || kind == 6 {
      err, size := MeasureFallbackBody(c, kind, symbols, n, p, rest);
    } else if 3 <= kind <= 7 {
      err, size := MeasureSlotBody(c, kind, symbols, n, p, rest);
    } else if kind == 8 {
      err := NOT_PERSISTABLE;
    } else if kind == 10 || kind == 13 {
      err, w := SkipWords(c, 3);
    } else if kind == 11 || kind == 12 {
      err, size := MeasureFieldBody(c, kind, symbols, n, p, rest);
    } else if kind == 14 {
      err, ignored := c.ReadU8();
      if err != Ok { return; }
      err, w := SkipWords(c, 3);
    } else if kind == 15 {
      err, w := SkipWords(c, 3);
      if err != Ok { return; }
      err, ignored := c.ReadU8();
    }
  }

  method MeasureCode(c: Cursor, symbols: seq<string>, literals: nat, nodes: nat, links: nat, ghost p: Program, ghost rest: seq<Byte>)
    returns (err: Error, size: nat)
    requires c.Valid()
    modifies c
    ensures c.Valid()
    ensures old(c.Rest()) == ArraysOnto(p, symbols, rest) && ProgramReady(p, symbols)
         && literals == |p.literals| && nodes == |p.nodes| && links == |p.links|
         ==> err == Ok && size == StringBytes(p)
  {
    hide LiteralsOnto, LiteralOnto, NodesOnto, NodeOnto, WordsOnto, NodeReady, LiteralReady, StringsSize,
      LiteralStrings, NodeStrings, U32, TakeU32, Cursor.Rest;
    ghost var good := c.Rest() == ArraysOnto(p, symbols, rest) && ProgramReady(p, symbols)
         && literals == |p.literals| && nodes == |p.nodes| && links == |p.links|;
    ghost var afterNodes := WordsOnto(p.links, rest);
    ghost var afterLiterals := NodesOnto(p.nodes, symbols, afterNodes);
    Rules();
    size := 0;
    var i: nat := 0;
    var more;
    assert p.literals[0..] == p.literals && p.nodes[0..] == p.nodes && p.links[0..] == p.links;
    while i < literals
      invariant i <= literals && c.Valid()
      invariant good ==> c.Rest() == LiteralsOnto(p.literals[i..], afterLiterals)
      invariant good ==> size + LiteralBytes(p.literals[i..]) == LiteralBytes(p.literals)
    {
      if good {
        LiteralsStep(p.literals, i, afterLiterals);
        BytesStep(p, i);
      }
      ghost var l := if good then p.literals[i] else NilLiteral;
      ghost var left := if good then LiteralsOnto(p.literals[i + 1..], afterLiterals) else [];
      err, more := MeasureLiteral(c, l, left);
      if err != Ok { return; }
      size := size + more;
      i := i + 1;
    }
    LiteralsStep(p.literals, 0, afterLiterals);
    BytesStep(p, 0);
    assert good ==> p.literals[i..] == [];
    i := 0;
    while i < nodes
      invariant i <= nodes && c.Valid()
      invariant good ==> c.Rest() == NodesOnto(p.nodes[i..], symbols, afterNodes)
      invariant good ==> size + NodeBytes(p.nodes[i..]) == StringBytes(p)
    {
      if good {
        NodesStep(p.nodes, symbols, i, afterNodes);
        BytesStep(p, i);
      }
      ghost var n := if good then p.nodes[i] else Lit(0);
      ghost var left := if good then NodesOnto(p.nodes[i + 1..], symbols, afterNodes) else [];
      err, more := MeasureNode(c, symbols, n, p, left);
      if err != Ok { return; }
      size := size + more;
      i := i + 1;
    }
    NodesStep(p.nodes, symbols, 0, afterNodes);
    assert good ==> p.nodes[i..] == [];
    i := 0;
    while i < links
      invariant i <= links && c.Valid()
      invariant good ==> c.Rest() == WordsOnto(p.links[i..], rest)
      invariant good ==> size == StringBytes(p)
    {
      if good { WordsStep(p.links, i, rest); }
      var ignored;
      err, ignored := c.ReadU32();
      if err != Ok { return; }
      i := i + 1;
    }
    err := Ok;
  }

  // ----- the copying pass -----

  method DecodeLiteral(c: Cursor, area: Area, ghost l: Literal, ghost rest: seq<Byte>) returns (err: Error, literal: Literal)
    requires c.Valid() && area.Valid()
    modifies c, area, area.bytes
    ensures c.Valid() && area.Valid() && area.cursor >= old(area.cursor)
    ensures old(c.Rest()) == LiteralOnto(l, rest) && LiteralReady(l)
         && StringsSize(LiteralStrings(l)) <= area.bytes.Length - old(area.cursor)
         ==> err == Ok && c.Rest() == rest && literal == l
    ensures err == Ok ==> area.cursor == old(area.cursor) + StringsSize(LiteralStrings(literal))
  {
    hide U8, U32, Raw, TakeU8, TakeU32, TakeRaw, Signed, Ascii, Narrow, TextOf, StringsSize, Holds, Cursor.Rest;
    Rules();
    Sizes();
    LiteralBack(l);
    literal := NilLiteral;
    var kind;
    err, kind := c.ReadU8();
    if err != Ok { return; }
    if kind == 0 {
      var n;
      err, n := c.ReadI32();
      literal := IntLiteral(n);
    } else if kind == 1 {
      var n;
      err, n := c.ReadU8();
      literal := BoolLiteral(n != 0);
    } else if kind == 3 {
      var length, bytes;
      err, length := c.ReadU32();
      if err != Ok { return; }
      err, bytes := c.ReadBytes(length);
      if err != Ok { return; }
      var ok, ignored := area.Copy(TextOf(bytes));
      if !ok {
        return OutOfMemory, literal;
      }
      literal := TextLiteral(TextOf(bytes));
    }
  }

  lemma LiteralBack(l: Literal)
    ensures LiteralReady(l) && l.TextLiteral? ==> TextOf(Ascii(l.text)) == l.text
    ensures LiteralReady(l) && l.IntLiteral? ==> Signed(l.n % WORD) == l.n
  {
    hide Ascii, TextOf;
    if LiteralReady(l) && l.TextLiteral? {
      TextOfAscii(l.text);
    }
  }

  method CopySymbol(area: Area, name: string) returns (err: Error)
    requires area.Valid()
    modifies area, area.bytes
    ensures area.Valid() && area.cursor >= old(area.cursor) && err in {Ok, OutOfMemory}
    ensures StringSize(name) <= area.bytes.Length - old(area.cursor) ==> err == Ok
    ensures err == Ok ==> area.cursor == old(area.cursor) + StringSize(name)
  {
    hide Holds;
    var ok, ignored := area.Copy(name);
    err := if ok then Ok else OutOfMemory;
  }

  method CopyPair(area: Area, name: string, other: string) returns (err: Error)
    requires area.Valid()
    modifies area, area.bytes
    ensures area.Valid() && area.cursor >= old(area.cursor) && err in {Ok, OutOfMemory}
    ensures StringsSize([name, other]) <= area.bytes.Length - old(area.cursor) ==> err == Ok
    ensures err == Ok ==> area.cursor == old(area.cursor) + StringsSize([name, other])
  {
    hide StringSize, StringsSize;
    Sizes();
    ghost var both := StringSize(name) + StringSize(other);
    assert StringsSize([name, other]) == both;
    err := CopySymbol(area, name);
    if err != Ok { return; }
    err := CopySymbol(area, other);
  }

  /** Nodes that name one slot. */
  method DecodeNamedBody(c: Cursor, kind: nat, symbols: seq<string>, area: Area, ghost n: Node, ghost p: Program, ghost rest: seq<Byte>)
    returns (err: Error, node: Node)
    requires c.Valid() && area.Valid() && kind in {3, 4, 7}
    modifies c, area, area.bytes
    ensures c.Valid() && area.Valid() && area.cursor >= old(area.cursor)
    ensures old(c.Rest()) == NodeBodyOnto(n, symbols, rest) && kind == NodeKind(n) && NodeReady(n, p, symbols)
         && |symbols| < WORD && |p.nodes| < WORD
         && StringsSize(NodeStrings(n)) <= area.bytes.Length - old(area.cursor)
         ==> err == Ok && c.Rest() == rest && node == n
    ensures err == Ok ==> area.cursor == old(area.cursor) + StringsSize(NodeStrings(node))
  {
    hide U8, U32, TakeU8, TakeWords, SymbolIndex, StringsSize, StringSize, Cursor.Rest;
    Rules();
    WordRules();
    Sizes();
    node := Lit(0);
    var w, flag;
    flag := 0;
    if kind == 4 {
      err, w := SkipWords(c, 2);
      if err != Ok { return; }
      err, flag := c.ReadU8();
    } else {
      err, w := SkipWords(c, 1);
    }
    if err != Ok { return; }
    if w[0] >= |symbols| {
      return SNAPSHOT_FORMAT, node;
    }
    var name := symbols[w[0]];
    err := CopySymbol(area, name);
    if err != Ok { return; }
    node := if kind == 3 then ReadSlot(name) else if kind == 4 then WriteSlot(name, w[1], flag != 0) else SlotDesignator(name);
  }

  /** Nodes that name a slot and another to fall back on. */
  method DecodeFallbackBody(c: Cursor, kind: nat, symbols: seq<string>, area: Area, ghost n: Node, ghost p: Program, ghost rest: seq<Byte>)
    returns (err: Error, node: Node)
    requires c.Valid() && area.Valid() && kind in {5, 6}
    modifies c, area, area.bytes
    ensures c.Valid() && area.Valid() && area.cursor >= old(area.cursor)
    ensures old(c.Rest()) == NodeBodyOnto(n, symbols, rest) && kind == NodeKind(n) && NodeReady(n, p, symbols)
         && |symbols| < WORD && |p.nodes| < WORD
         && StringsSize(NodeStrings(n)) <= area.bytes.Length - old(area.cursor)
         ==> err == Ok && c.Rest() == rest && node == n
    ensures err == Ok ==> area.cursor == old(area.cursor) + StringsSize(NodeStrings(node))
  {
    hide U8, U32, TakeU8, TakeWords, SymbolIndex, StringsSize, StringSize, Cursor.Rest;
    Rules();
    WordRules();
    Sizes();
    node := Lit(0);
    var w, flag;
    flag := 0;
    if kind == 6 {
      err, w := SkipWords(c, 3);
      if err != Ok { return; }
      err, flag := c.ReadU8();
    } else {
      err, w := SkipWords(c, 2);
    }
    if err != Ok { return; }
    if w[0] >= |symbols| || w[1] >= |symbols| {
      return SNAPSHOT_FORMAT, node;
    }
    var name, other := symbols[w[0]], symbols[w[1]];
    err := CopyPair(area, name, other);
    if err != Ok { return; }
    node := if kind == 5 then ReadSlotFallback(name, other) else WriteSlotFallback(name, other, w[2], flag != 0);
  }

  method DecodeField(c: Cursor, area: Area, ghost field: string, ghost rest: seq<Byte>) returns (err: Error, s: string)
    requires c.Valid() && area.Valid()
    modifies c, area, area.bytes
    ensures c.Valid() && area.Valid() && area.cursor >= old(area.cursor)
    ensures old(c.Rest()) == StrOnto(field, rest) && FieldReady(field) && StringSize(field) <= area.bytes.Length - old(area.cursor)
         ==> err == Ok && c.Rest() == rest && s == field
    ensures err == Ok ==> area.cursor == old(area.cursor) + StringSize(s)
  {
    hide StrOnto, TakeStr, Cursor.Rest, FieldReady;
    FieldBack(field, rest);
    err, s := c.ReadStr();
    if err != Ok { return; }
    err := CopySymbol(area, s);
  }

  /** Calls and branches. */
  method DecodeBranchBody(c: Cursor, kind: nat, ghost n: Node, ghost p: Program, ghost symbols: seq<string>, ghost rest: seq<Byte>)
    returns (err: Error, node: Node)
    requires c.Valid() && kind in {14, 15}
    modifies c
    ensures c.Valid()
    ensures old(c.Rest()) == NodeBodyOnto(n, symbols, rest) && kind == NodeKind(n) && NodeReady(n, p, symbols)
         && |p.nodes| < WORD && |p.links| < WORD
         ==> err == Ok && c.Rest() == rest && node == n
    ensures err == Ok ==> NodeStrings(node) == []
  {
    hide U8, U32, TakeU8, TakeWords, StrOnto, SymbolIndex, NodeIdReady, SpanReady, FieldReady, BuiltinCode, BuiltinOf,
      Cursor.Rest;
    Rules();
    WordRules();
    SpanWords();
    BuiltinsBack();
    node := Lit(0);
    var w, x;
    if kind == 14 {
      err, x := c.ReadU8();
      if err != Ok { return; }
      err, w := SkipWords(c, 3);
      if err != Ok { return; }
      return Ok, Call(BuiltinOf(x), w[0], w[1], w[2]);
    }
    err, w := SkipWords(c, 3);
    if err != Ok { return; }
    err, x := c.ReadU8();
    if err != Ok { return; }
    node := If(w[0], w[1], w[2], x != 0);
  }

  /** Nodes without strings. */
  method DecodePlainBody(c: Cursor, kind: nat, ghost n: Node, ghost p: Program, ghost symbols: seq<string>, ghost rest: seq<Byte>)
    returns (err: Error, node: Node)
    requires c.Valid() && (kind < 3 || kind == 9 || kind == 10 || kind == 13 || kind > 15)
    modifies c
    ensures c.Valid()
    ensures old(c.Rest()) == NodeBodyOnto(n, symbols, rest) && kind == NodeKind(n) && NodeReady(n, p, symbols)
         && |p.literals| < WORD && |p.nodes| < WORD && |p.links| < WORD
         ==> err == Ok && c.Rest() == rest && node == n
    ensures err == Ok ==> NodeStrings(node) == []
  {
    hide U8, U32, TakeU8, TakeWords, StrOnto, SymbolIndex, NodeIdReady, SpanReady, FieldReady, BuiltinCode, BuiltinOf,
      Cursor.Rest;
    Rules();
    WordRules();
    SpanWords();
    BuiltinsBack();
    node := Lit(0);
    var w;
    if kind == 0 || kind == 1 {
      err, w := SkipWords(c, 1);
      if err != Ok { return; }
      return Ok, if kind == 0 then Lit(w[0]) else ReadLocal(w[0]);
    }
    if kind == 10 || kind == 13 {
      err, w := SkipWords(c, 3);
      if err != Ok { return; }
      return Ok, if kind == 10 then WriteIndex(w[0], w[1], w[2]) else Fn(w[0], w[1], w[2]);
    }
    err, w := SkipWords(c, 2);
    if err != Ok { return; }
    if kind == 2 {
      node := WriteLocal(w[0], w[1]);
    } else if kind == 9 {
      node := ReadIndex(w[0], w[1]);
    } else if kind == 16 {
      node := While(w[0], w[1]);
    } else {
      node := Seq(w[0], w[1]);
    }
  }

  lemma BuiltinsBack()
    ensures forall b {:trigger BuiltinCode(b)} :: BuiltinCode(b) < 256 && BuiltinOf(BuiltinCode(b)) == b
  {
    forall b ensures BuiltinOf(BuiltinCode(b)) == b {
      BuiltinBack(b);
    }
  }

  /** Nodes that name a field. */
  method DecodeFieldBody(c: Cursor, kind: nat, area: Area, ghost n: Node, ghost p: Program, ghost symbols: seq<string>, ghost rest: seq<Byte>)
    returns (err: Error, node: Node)
    requires c.Valid() && area.Valid() && kind in {11, 12}
    modifies c, area, area.bytes
    ensures c.Valid() && area.Valid() && area.cursor >= old(area.cursor)
    ensures old(c.Rest()) == NodeBodyOnto(n, symbols, rest) && kind == NodeKind(n) && NodeReady(n, p, symbols)
         && |p.nodes| < WORD
         && StringsSize(NodeStrings(n)) <= area.bytes.Length - old(area.cursor)
         ==> err == Ok && c.Rest() == rest && node == n
    ensures err == Ok ==> area.cursor == old(area.cursor) + StringsSize(NodeStrings(node))
  {
    hide U8, U32, TakeU8, TakeWords, StrOnto, SymbolIndex, NodeIdReady, SpanReady, FieldReady, StringsSize, StringSize,
      Cursor.Rest;
    WordRules();
    Sizes();
    node := Lit(0);
    var w, v, field;
    err, w := SkipWords(c, 1);
    if err != Ok { return; }
    if kind == 11 {
      err, field := DecodeField(c, area, if n.ReadField? then n.field else "", rest);
      if err != Ok { return; }
      return Ok, ReadField(w[0], field);
    }
    err, field := DecodeField(c, area, if n.WriteField? then n.field else "", if n.WriteField? then U32(n.value, rest) else []);
    if err != Ok { return; }
    err, v := SkipWords(c, 1);
    if err != Ok { return; }
    node := WriteField(w[0], field, v[0]);
  }

  method DecodeNode(c: Cursor, symbols: seq<string>, area: Area, ghost n: Node, ghost p: Program, ghost rest: seq<Byte>)
    returns (err: Error, node: Node)
    requires c.Valid() && area.Valid()
    modifies c, area, area.bytes
    ensures c.Valid() && area.Valid() && area.cursor >= old(area.cursor)
    ensures old(c.Rest()) == NodeOnto(n, symbols, rest) && NodeReady(n, p, symbols)
         && |symbols| < WORD && |p.literals| < WORD && |p.nodes| < WORD && |p.links| < WORD
         && StringsSize(NodeStrings(n)) <= area.bytes.Length - old(area.cursor)
         ==> err == Ok && c.Rest() == rest && node == n
    ensures err == Ok ==> area.cursor == old(area.cursor) + StringsSize(NodeStrings(node))
  {
    hide U8, U32, TakeU8, TakeWords, StrOnto, SymbolIndex, NodeIdReady, SpanReady, FieldReady, StringsSize, StringSize,
      Cursor.Rest;
    Rules();
    WordRules();
    Sizes();
    node := Lit(0);
    var kind;
    err, kind := c.ReadU8();
    if err != Ok { return; }
    if kind in {3, 4, 7} {
      err, node := DecodeNamedBody(c, kind, symbols, area, n, p, rest);
    } else if kind in {5, 6} {
      err, node := DecodeFallbackBody(c, kind, symbols, area, n, p, rest);
    } else if kind == 8 {
      err := NOT_PERSISTABLE;
    } else if kind == 11 || kind == 12 {
      err, node := DecodeFieldBody(c, kind, area, n, p, symbols, rest);
    } else if kind in {14, 15} {
      err, node := DecodeBranchBody(c, kind, n, p, symbols, rest);
    } else {
      err, node := DecodePlainBody(c, kind, n, p, symbols, rest);
    }
  }

  method DecodeLiterals(c: Cursor, area: Area, count: nat, ghost want: seq<Literal>, ghost rest: seq<Byte>)
    returns (err: Error, ls: seq<Literal>)
    requires c.Valid() && area.Valid()
    modifies c, area, area.bytes
    ensures c.Valid() && area.Valid()
    ensures old(c.Rest()) == LiteralsOnto(want, rest) && count == |want| && (forall i :: 0 <= i < |want| ==> LiteralReady(want[i]))
         && old(area.cursor) + LiteralBytes(want) <= area.bytes.Length
         ==> err == Ok && ls == want && c.Rest() == rest
    ensures err == Ok ==> |ls| == count && area.cursor == old(area.cursor) + LiteralBytes(ls)
  {
    hide LiteralsOnto, LiteralOnto, LiteralReady, StringsSize, LiteralStrings, Cursor.Rest, LiteralBytes;
    ghost var start := area.cursor;
    ghost var good := c.Rest() == LiteralsOnto(want, rest) && count == |want|
      && (forall i :: 0 <= i < |want| ==> LiteralReady(want[i])) && start + LiteralBytes(want) <= area.bytes.Length;
    ghost var p := Program(want, [], [], 0, 0);
    ls := [];
    BytesStep(p, |want|);
    assert want[0..] == want;
    while |ls| < count
      invariant |ls| <= count && c.Valid() && area.Valid() && area.cursor == start + LiteralBytes(ls)
      invariant good ==> ls == want[..|ls|] && c.Rest() == LiteralsOnto(want[|ls|..], rest)
      invariant good ==> LiteralBytes(ls) + LiteralBytes(want[|ls|..]) == LiteralBytes(want)
    {
      ghost var i := |ls|;
      if good {
        LiteralsStep(want, i, rest);
        BytesStep(p, i);
      }
      ghost var l := if good then want[i] else NilLiteral;
      ghost var left := if good then LiteralsOnto(want[i + 1..], rest) else [];
      var got;
      err, got := DecodeLiteral(c, area, l, left);
      if err != Ok { return; }
      LiteralBytesNext(ls, got);
      ls := ls + [got];
    }
    LiteralsStep(want, 0, rest);
    BytesStep(p, 0);
    assert good ==> want[|ls|..] == [] && ls == want;
    err := Ok;
  }

  method DecodeNodes(c: Cursor, symbols: seq<string>, area: Area, count: nat, ghost p: Program, ghost rest: seq<Byte>)
    returns (err: Error, ns: seq<Node>)
    requires c.Valid() && area.Valid()
    modifies c, area, area.bytes
    ensures c.Valid() && area.Valid()
    ensures old(c.Rest()) == NodesOnto(p.nodes, symbols, rest) && count == |p.nodes| && ProgramReady(p, symbols)
         && old(area.cursor) + NodeBytes(p.nodes) <= area.bytes.Length
         ==> err == Ok && ns == p.nodes && c.Rest() == rest
    ensures err == Ok ==> |ns| == count && area.cursor == old(area.cursor) + NodeBytes(ns)
  {
    hide NodesOnto, NodeOnto, NodeReady, LiteralReady, StringsSize, NodeStrings, Cursor.Rest, NodeBytes;
    ghost var start := area.cursor;
    ghost var good := c.Rest() == NodesOnto(p.nodes, symbols, rest) && count == |p.nodes| && ProgramReady(p, symbols)
      && start + NodeBytes(p.nodes) <= area.bytes.Length;
    ns := [];
    BytesStep(p, |p.nodes|);
    assert p.nodes[0..] == p.nodes;
    while |ns| < count
      invariant |ns| <= count && c.Valid() && area.Valid() && area.cursor == start + NodeBytes(ns)
      invariant good ==> ns == p.nodes[..|ns|] && c.Rest() == NodesOnto(p.nodes[|ns|..], symbols, rest)
      invariant good ==> NodeBytes(ns) + NodeBytes(p.nodes[|ns|..]) == NodeBytes(p.nodes)
    {
      ghost var i := |ns|;
      if good {
        NodesStep(p.nodes, symbols, i, rest);
        BytesStep(p, i);
      }
      ghost var n := if good then p.nodes[i] else Lit(0);
      ghost var left := if good then NodesOnto(p.nodes[i + 1..], symbols, rest) else [];
      var got;
      err, got := DecodeNode(c, symbols, area, n, p, left);
      if err != Ok { return; }
      NodeBytesNext(ns, got);
      ns := ns + [got];
    }
    NodesStep(p.nodes, symbols, 0, rest);
    BytesStep(p, 0);
    assert good ==> p.nodes[|ns|..] == [] && ns == p.nodes;
    err := Ok;
  }

  method DecodeLinks(c: Cursor, count: nat, ghost want: seq<nat>, ghost rest: seq<Byte>) returns (err: Error, ks: seq<nat>)
    requires c.Valid()
    modifies c
    ensures c.Valid()
    ensures old(c.Rest()) == WordsOnto(want, rest) && count == |want| && (forall i :: 0 <= i < |want| ==> want[i] < WORD)
         ==> err == Ok && ks == want && c.Rest() == rest
    ensures err == Ok ==> |ks| == count
  {
    hide WordsOnto, U32, TakeU32, Cursor.Rest;
    Rules();
    ghost var good := c.Rest() == WordsOnto(want, rest) && count == |want| && (forall i :: 0 <= i < |want| ==> want[i] < WORD);
    ks := [];
    assert want[0..] == want;
    while |ks| < count
      invariant |ks| <= count && c.Valid()
      invariant good ==> ks == want[..|ks|] && c.Rest() == WordsOnto(want[|ks|..], rest)
    {
      ghost var i := |ks|;
      if good { WordsStep(want, i, rest); }
      var got;
      err, got := c.ReadU32();
      if err != Ok { return; }
      ks := ks + [got];
    }
    WordsStep(want, 0, rest);
    assert good ==> want[|ks|..] == [] && ks == want;
    err := Ok;
  }

  method DecodeArrays(c: Cursor, symbols: seq<string>, area: Area, literals: nat, nodes: nat, links: nat, ghost p: Program, ghost rest: seq<Byte>)
    returns (err: Error, q: Program)
    requires c.Valid() && area.Valid() && area.cursor == 0
    modifies c, area, area.bytes
    ensures c.Valid() && area.Valid()
    ensures old(c.Rest()) == ArraysOnto(p, symbols, rest) && ProgramReady(p, symbols)
         && literals == |p.literals| && nodes == |p.nodes| && links == |p.links| && area.bytes.Length == StringBytes(p)
         ==> err == Ok && c.Rest() == rest && area.cursor == area.bytes.Length
             && q.literals == p.literals && q.nodes == p.nodes && q.links == p.links
    ensures err == Ok ==> |q.literals| == literals && |q.nodes| == nodes && |q.links| == links && StringBytes(q) <= area.bytes.Length
  {
    hide LiteralsOnto, NodesOnto, WordsOnto, NodeReady, LiteralReady, Cursor.Rest, LiteralBytes, NodeBytes;
    q := Program([], [], [], 0, 0);
    var ls, ns, ks;
    err, ls := DecodeLiterals(c, area, literals, p.literals, NodesOnto(p.nodes, symbols, WordsOnto(p.links, rest)));
    if err != Ok { return; }
    err, ns := DecodeNodes(c, symbols, area, nodes, p, WordsOnto(p.links, rest));
    if err != Ok { return; }
    err, ks := DecodeLinks(c, links, p.links, rest);
    if err != Ok { return; }
    q := Program(ls, ns, ks, 0, 0);
  }

  /** A program read back, and the bytes of the block that holds it. */
  datatype Decoded = Decoded(arity: nat, localCount: nat, body: nat, program: Program, size: nat)

  method DecodeCode(c: Cursor, symbols: seq<string>, machine: Machine,
      ghost arity: nat, ghost locals: nat, ghost body: nat, ghost p: Program, ghost rest: seq<Byte>)
    returns (err: Error, d: Decoded)
    requires c.Valid()
    modifies c
    ensures c.Valid()
    ensures old(c.Rest()) == CodeOnto(arity, locals, body, p, symbols, rest) && ProgramReady(p, symbols)
         && arity <= locals < WORD && body < |p.nodes|
         ==> err == Ok && c.Rest() == rest
             && d == Decoded(arity, locals, body, p, ProgramBytes(machine, p))
    ensures err == Ok ==> ProgramBytes(machine, d.program) <= d.size
  {
    hide U32, TakeWords, ArraysOnto, LiteralReady, NodeReady, StringBytes, ProgramBytes, ViewOf, Cursor.Rest;
    WordRules();
    RootedBytes(machine, p, p.root, p.rootLocalCount);
    d := Decoded(0, 0, 0, Program([], [], [], 0, 0), 0);
    var a, b, e;
    err, a := SkipWords(c, 3);
    if err != Ok { return; }
    err, b := SkipWords(c, 3);
    if err != Ok { return; }
    err, e := SkipWords(c, 2);
    if err != Ok { return; }
    if b[2] > LITERAL_CAPACITY || e[0] > NODE_CAPACITY || e[1] > LINK_CAPACITY {
      return SNAPSHOT_OVERFLOW, d;
    }
    var measure := new Cursor(c.data);
    measure.offset := c.offset;
    SameRest(measure, c);
    var stringBytes;
    err, stringBytes := MeasureCode(measure, symbols, b[2], e[0], e[1], p, rest);
    if err != Ok { return; }
    var size := MeasurePacked(machine, b[2], e[0], e[1], stringBytes);
    var area := new Area(stringBytes);
    var q;
    err, q := DecodeArrays(c, symbols, area, b[2], e[0], e[1], p, rest);
    if err != Ok { return; }
    RootedBytes(machine, q, b[0], b[1]);
    d := Decoded(a[0], a[1], a[2], q.(root := b[0], rootLocalCount := b[1]), size);
  }

  lemma RootedBytes(m: Machine, q: Program, root: nat, locals: nat)
    ensures ProgramBytes(m, q.(root := root, rootLocalCount := locals))
         == ViewOf(m, |q.literals|, |q.nodes|, |q.links|).strings + StringBytes(q)
  {
    hide LiteralBytes, NodeBytes, ViewOf;
  }

  lemma SameRest(x: Cursor, y: Cursor)
    requires x.Valid() && y.Valid() && x.data == y.data && x.offset == y.offset
    ensures x.Rest() == y.Rest()
  {
  }
}

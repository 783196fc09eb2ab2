/**
 The check a payload must pass before anything is restored from it.
 */
module Validator {
  import opened Bytes
  import opened Ir
  import opened Values
  import opened Names
  import opened Image
  import opened Encoder
  import opened Reader

  method ValidateNodeId(id: nat, count: nat, mayMiss: bool) returns (err: Error)
    ensures err == if NodeIdReady(id, count, mayMiss) then Ok else SNAPSHOT_FORMAT
  {
    if mayMiss && id == NODE_INVALID {
      return Ok;
    }
    if id >= count {
      return SNAPSHOT_FORMAT;
    }
    err := Ok;
  }

  method ValidateSpan(first: nat, count: nat, links: nat) returns (err: Error)
    ensures err == if SpanReady(first, count, links) then Ok else SNAPSHOT_FORMAT
  {
    if first > links || count > links - first {
      return SNAPSHOT_FORMAT;
    }
    err := Ok;
  }

  /** The kinds of the first objects of a table. */
  predicate KindsKnown(kinds: seq<nat>, entries: seq<Entry>, upTo: nat) {
    upTo <= |entries| == |kinds| && forall k :: 0 <= k < upTo ==> kinds[k] == EntryKind(entries[k])
  }

  method ValidateDatum(c: Cursor, kinds: seq<nat>, inner: bool, limit: nat,
      ghost d: Datum, ghost entries: seq<Entry>, ghost rest: seq<Byte>) returns (err: Error)
    requires c.Valid() && limit <= |kinds|
    modifies c
    ensures c.Valid() && c.offset >= old(c.offset)
    ensures old(c.Rest()) == DatumOnto(d, rest) && |kinds| < WORD && KindsKnown(kinds, entries, limit)
         && (if inner then DatumReady(d, entries, limit) else d.RefDatum? ==> limit == |kinds| && d.index < limit)
         ==> err == Ok && c.Rest() == rest
  {
    hide U8, U32, TakeU8, TakeU32, Signed, Cursor.Rest;
    Rules();
    var tag;
    err, tag := c.ReadU8();
    if err != Ok { return; }
    if tag == 0 || tag == 1 || tag == 2 {
      return Ok;
    }
    if tag == 3 {
      var ignored;
      err, ignored := c.ReadI32();
      return;
    }
    if tag != 4 {
      return SNAPSHOT_FORMAT;
    }
    var index;
    err, index := c.ReadU32();
    if err != Ok { return; }
    if index >= |kinds| || (inner && index >= limit) {
      return SNAPSHOT_FORMAT;
    }
    if inner && kinds[index] != 1 && kinds[index] != 6 {
      return NOT_PERSISTABLE;
    }
    if !inner && (kinds[index] == 4 || kinds[index] == 0) {
      return NOT_PERSISTABLE;
    }
    err := Ok;
  }

  method ValidateData(c: Cursor, count: nat, kinds: seq<nat>, limit: nat,
      ghost ds: seq<Datum>, ghost entries: seq<Entry>, ghost rest: seq<Byte>) returns (err: Error)
    requires c.Valid() && limit <= |kinds|
    modifies c
    ensures c.Valid() && c.offset >= old(c.offset)
    ensures old(c.Rest()) == DataOnto(ds, rest) && count == |ds| && |kinds| < WORD
         && KindsKnown(kinds, entries, limit) && DataReady(ds, entries, limit)
         ==> err == Ok && c.Rest() == rest
  {
    hide DataOnto, DatumOnto, DatumReady, Cursor.Rest;
    ghost var good := c.Rest() == DataOnto(ds, rest) && count == |ds| && |kinds| < WORD && limit <= |entries|
         && KindsKnown(kinds, entries, limit) && DataReady(ds, entries, limit);
    assert ds[0..] == ds;
    var i: nat := 0;
    while i < count
      invariant i <= count && c.Valid() && c.offset >= old(c.offset)
      invariant good ==> c.Rest() == DataOnto(ds[i..], rest)
    {
      if good {
        DataStep(ds, i, rest);
      }
      ghost var d := if good then ds[i] else NilDatum;
      ghost var left := if good then DataOnto(ds[i + 1..], rest) else [];
      err := ValidateDatum(c, kinds, true, limit, d, entries, left);
      if err != Ok { return; }
      i := i + 1;
    }
    DataEnd(rest);
    assert good ==> ds[i..] == [];
    err := Ok;
  }

  // ----- programs -----

  method ValidateLiteral(c: Cursor, ghost l: Literal, ghost rest: seq<Byte>) returns (err: Error)
    requires c.Valid()
    modifies c
    ensures c.Valid() && c.offset >= old(c.offset)
    ensures old(c.Rest()) == LiteralOnto(l, rest) && LiteralReady(l) ==> err == Ok && c.Rest() == rest
  {
    hide U8, U32, Raw, TakeU8, TakeU32, TakeRaw, Signed, Ascii, Narrow, Cursor.Rest;
    Rules();
    var kind;
    err, kind := c.ReadU8();
    if err != Ok { return; }
    if kind == 0 {
      var ignored;
      err, ignored := c.ReadI32();
    } else if kind == 1 {
      var ignored;
      err, ignored := c.ReadU8();
    } else if kind == 2 {
      err := Ok;
    } else if kind == 3 {
      var length;
      err, length := c.ReadU32();
      if err != Ok { return; }
      var ignored;
      err, ignored := c.ReadBytes(length);
    } else {
      err := SNAPSHOT_FORMAT;
    }
  }

  method ValidateField(c: Cursor, ghost field: string, ghost rest: seq<Byte>) returns (err: Error)
    requires c.Valid()
    modifies c
    ensures c.Valid() && c.offset >= old(c.offset)
    ensures old(c.Rest()) == StrOnto(field, rest) && FieldReady(field) ==> err == Ok && c.Rest() == rest
  {
    hide StrOnto, TakeStr, Cursor.Rest, SimpleName;
    FieldBack(field, rest);
    var s;
    err, s := c.ReadStr();
    if err != Ok { return; }
    var ok := CheckSimpleName(s);
    err := if ok then Ok else SNAPSHOT_BAD_NAME;
  }

  lemma FieldBack(field: string, rest: seq<Byte>)
    ensures FieldReady(field) ==> TakeStr(StrOnto(field, rest)) == Took(field, rest) && field != []
  {
    hide StrOnto, TakeStr;
    if FieldReady(field) {
      SimpleIsSlotName(field);
      StrBack(field, rest);
    }
  }

  method SkipWords(c: Cursor, count: nat) returns (err: Error, words: seq<nat>)
    requires c.Valid() && count <= 3
    modifies c
    ensures c.Valid() && c.offset >= old(c.offset)
    ensures err == Ok ==> |words| == count
    ensures var t := TakeWords(old(c.Rest()), count);
      t.Took? ==> err == Ok && words == t.value && c.Rest() == t.rest
  {
    hide TakeU32, Cursor.Rest;
    words := [];
    err := Ok;
    if count == 0 {
      return;
    }
    var a;
    err, a := c.ReadU32();
    if err != Ok { return; }
    if count == 1 {
      return Ok, [a];
    }
    var b;
    err, b := c.ReadU32();
    if err != Ok { return; }
    if count == 2 {
      return Ok, [a, b];
    }
    var d;
    err, d := c.ReadU32();
    words := [a, b, d];
  }

  function TakeWords(s: seq<Byte>, count: nat): Took<seq<nat>> {
    if count == 0 then Took([], s)
    else
      match TakeU32(s)
      case Short => Short
      case Took(a, r) =>
        if count == 1 then Took([a], r)
        else
          match TakeU32(r)
          case Short => Short
          case Took(b, q) =>
            if count == 2 then Took([a, b], q)
            else
              match TakeU32(q)
              case Short => Short
              case Took(d, p) => Took([a, b, d], p)
  }

  lemma WordRules()
    ensures forall a: nat, s {:trigger U32(a, s)} :: a < WORD ==> TakeWords(U32(a, s), 1) == Took([a], s)
    ensures forall a: nat, b: nat, s {:trigger U32(a, U32(b, s))} :: a < WORD && b < WORD ==>
      TakeWords(U32(a, U32(b, s)), 2) == Took([a, b], s)
    ensures forall a: nat, b: nat, d: nat, s {:trigger U32(a, U32(b, U32(d, s)))} :: a < WORD && b < WORD && d < WORD ==>
      TakeWords(U32(a, U32(b, U32(d, s))), 3) == Took([a, b, d], s)
  {
    hide U32, TakeU32;
    Rules();
  }

  /** Functions, calls, branches and sequences. */
  method ValidateBranchBody(c: Cursor, kind: nat, nodes: nat, links: nat,
      ghost n: Node, ghost p: Program, ghost symbols: seq<string>, ghost rest: seq<Byte>) returns (err: Error)
    requires c.Valid() && kind > 12 && kind != 16
    modifies c
    ensures c.Valid() && c.offset >= old(c.offset)
    ensures old(c.Rest()) == NodeBodyOnto(n, symbols, rest) && kind == NodeKind(n) && NodeReady(n, p, symbols)
         && nodes == |p.nodes| < WORD && links == |p.links| < WORD
         ==> err == Ok && c.Rest() == rest
  {
    hide U8, U32, TakeU8, TakeWords, StrOnto, SymbolIndex, NodeIdReady, SpanReady, FieldReady, Cursor.Rest;
    Rules();
    WordRules();
    SpanWords();
    var w;
    if kind == 13 {
      err, w := SkipWords(c, 3);
      if err != Ok { return; }
      err := if w[1] < w[0] || w[2] >= nodes then SNAPSHOT_FORMAT else Ok;
    } else if kind == 14 || kind == 15 {
      err := ValidateCallBody(c, kind, nodes, links, n, p, symbols, rest);
    } else if kind == 17 {
      err, w := SkipWords(c, 2);
      if err != Ok { return; }
      err := ValidateSpan(w[0], w[1], links);
    } else {
      err := SNAPSHOT_FORMAT;
    }
  }

  /** Calls and branches. */
  method ValidateCallBody(c: Cursor, kind: nat, nodes: nat, links: nat,
      ghost n: Node, ghost p: Program, ghost symbols: seq<string>, ghost rest: seq<Byte>) returns (err: Error)
    requires c.Valid() && (kind == 14 || kind == 15)
    modifies c
    ensures c.Valid() && c.offset >= old(c.offset)
    ensures old(c.Rest()) == NodeBodyOnto(n, symbols, rest) && kind == NodeKind(n) && NodeReady(n, p, symbols)
         && nodes == |p.nodes| < WORD && links == |p.links| < WORD
         ==> err == Ok && c.Rest() == rest
  {
    hide U8, U32, TakeU8, TakeWords, StrOnto, SymbolIndex, NodeIdReady, SpanReady, FieldReady, Cursor.Rest;
    Rules();
    WordRules();
    SpanWords();
    var w;
    if kind == 14 {
      var builtin;
      err, builtin := c.ReadU8();
      if err != Ok { return; }
      err, w := SkipWords(c, 3);
      if err != Ok { return; }
      if builtin > 14 {
        return SNAPSHOT_FORMAT;
      }
      err := ValidateSpan(w[1], w[2], links);
      if err != Ok { return; }
      err := ValidateNodeId(w[0], nodes, builtin != 0);
    } else {
      err, w := SkipWords(c, 3);
      if err != Ok { return; }
      var flag;
      err, flag := c.ReadU8();
      if err != Ok { return; }
      err := ValidateNodeId(w[0], nodes, false);
      if err != Ok { return; }
      err := ValidateNodeId(w[1], nodes, false);
      if err != Ok { return; }
      err := ValidateNodeId(w[2], nodes, flag == 0);
    }
  }

  /** Reading and writing a field. */
  method ValidateFieldBody(c: Cursor, kind: nat, nodes: nat,
      ghost n: Node, ghost p: Program, ghost symbols: seq<string>, ghost rest: seq<Byte>) returns (err: Error)
    requires c.Valid() && (kind == 11 || kind == 12)
    modifies c
    ensures c.Valid() && c.offset >= old(c.offset)
    ensures old(c.Rest()) == NodeBodyOnto(n, symbols, rest) && kind == NodeKind(n) && NodeReady(n, p, symbols)
         && nodes == |p.nodes| < WORD
         ==> err == Ok && c.Rest() == rest
  {
    hide U8, U32, TakeU8, TakeWords, StrOnto, SymbolIndex, NodeIdReady, SpanReady, FieldReady, Cursor.Rest;
    Rules();
    WordRules();
    SpanWords();
    var w;
    err, w := SkipWords(c, 1);
    if err != Ok { return; }
    if kind == 11 {
      err := ValidateField(c, if n.ReadField? then n.field else "", rest);
      if err != Ok { return; }
      err := ValidateNodeId(w[0], nodes, false);
    } else {
      err := ValidateField(c, if n.WriteField? then n.field else "", if n.WriteField? then U32(n.value, rest) else []);
      if err != Ok { return; }
      var v;
      err, v := SkipWords(c, 1);
      if err != Ok { return; }
      err := ValidateNodeId(w[0], nodes, false);
      if err != Ok { return; }
      err := ValidateNodeId(v[0], nodes, false);
    }
  }

  /** What the validator asks of a node after its kind. */
  method ValidateNodeBody(c: Cursor, kind: nat, symbolCount: nat, literals: nat, nodes: nat, links: nat,
      ghost n: Node, ghost p: Program, ghost symbols: seq<string>, ghost rest: seq<Byte>) returns (err: Error)
    requires c.Valid()
    modifies c
    ensures c.Valid() && c.offset >= old(c.offset)
    ensures old(c.Rest()) == NodeBodyOnto(n, symbols, rest) && kind == NodeKind(n) && NodeReady(n, p, symbols)
         && symbolCount == |symbols| < WORD && literals == |p.literals| < WORD && nodes == |p.nodes| < WORD && links == |p.links| < WORD
         ==> err == Ok && c.Rest() == rest
  {
    hide U8, U32, TakeU8, TakeWords, StrOnto, SymbolIndex, NodeIdReady, SpanReady, FieldReady, Cursor.Rest;
    Rules();
    WordRules();
    SpanWords();
    var w;
    if kind <= 8 {
      err := ValidateSimpleBody(c, kind, symbolCount, literals, nodes, n, p, symbols, rest);
    } else if kind == 9 || kind == 16 {
      err, w := SkipWords(c, 2);
      if err != Ok { return; }
      err := ValidateNodeId(w[0], nodes, false);
      if err != Ok { return; }
      err := ValidateNodeId(w[1], nodes, false);
    } else if kind == 10 {
      err, w := SkipWords(c, 3);
      if err != Ok { return; }
      err := ValidateNodeId(w[0], nodes, false);
      if err != Ok { return; }
      err := ValidateNodeId(w[1], nodes, false);
      if err != Ok { return; }
      err := ValidateNodeId(w[2], nodes, false);
    } else if kind == 11 || kind == 12 {
      err := ValidateFieldBody(c, kind, nodes, n, p, symbols, rest);
    } else {
      err := ValidateBranchBody(c, kind, nodes, links, n, p, symbols, rest);
    }
  }

  lemma SpanWords()
    ensures forall first: nat, count: nat, links: nat {:trigger SpanReady(first, count, links)} ::
      SpanReady(first, count, links) && links < WORD ==> first < WORD && count < WORD
    ensures forall id: nat, count: nat, mayMiss {:trigger NodeIdReady(id, count, mayMiss)} ::
      NodeIdReady(id, count, mayMiss) && count < WORD ==> id < WORD
    ensures forall id: nat, count: nat {:trigger NodeIdReady(id, count, false)} ::
      NodeIdReady(id, count, false) <==> id < count
  {
  }

  /** Slot names with a fallback. */
  method ValidateFallbackBody(c: Cursor, kind: nat, symbolCount: nat, nodes: nat,
      ghost n: Node, ghost p: Program, ghost symbols: seq<string>, ghost rest: seq<Byte>) returns (err: Error)
    requires c.Valid() && (kind == 5 || kind == 6)
    modifies c
    ensures c.Valid() && c.offset >= old(c.offset)
    ensures old(c.Rest()) == NodeBodyOnto(n, symbols, rest) && kind == NodeKind(n) && NodeReady(n, p, symbols)
         && symbolCount == |symbols| < WORD && nodes == |p.nodes| < WORD
         ==> err == Ok && c.Rest() == rest
  {
    hide U8, U32, TakeU8, TakeWords, StrOnto, SymbolIndex, NodeIdReady, SpanReady, FieldReady, Cursor.Rest;
    Rules();
    WordRules();
    SpanWords();
    var w;
    if kind == 5 {
      err, w := SkipWords(c, 2);
      if err != Ok { return; }
      err := if w[0] >= symbolCount || w[1] >= symbolCount then SNAPSHOT_FORMAT else Ok;
    } else {
      err, w := SkipWords(c, 3);
      if err != Ok { return; }
      var ignored;
      err, ignored := c.ReadU8();
      if err != Ok { return; }
      if w[0] >= symbolCount || w[1] >= symbolCount {
        return SNAPSHOT_FORMAT;
      }
      err := ValidateNodeId(w[2], nodes, false);
    }
  }

  /** Literals, locals and slot names. */
  method ValidateSimpleBody(c: Cursor, kind: nat, symbolCount: nat, literals: nat, nodes: nat,
      ghost n: Node, ghost p: Program, ghost symbols: seq<string>, ghost rest: seq<Byte>) returns (err: Error)
    requires c.Valid() && kind <= 8
    modifies c
    ensures c.Valid() && c.offset >= old(c.offset)
    ensures old(c.Rest()) == NodeBodyOnto(n, symbols, rest) && kind == NodeKind(n) && NodeReady(n, p, symbols)
         && symbolCount == |symbols| < WORD && literals == |p.literals| < WORD && nodes == |p.nodes| < WORD
         ==> err == Ok && c.Rest() == rest
  {
    hide U8, U32, TakeU8, TakeWords, StrOnto, SymbolIndex, NodeIdReady, SpanReady, FieldReady, Cursor.Rest;
    Rules();
    WordRules();
    SpanWords();
    var w;
    if kind == 0 {
      err, w := SkipWords(c, 1);
      if err != Ok { return; }
      err := if w[0] >= literals then SNAPSHOT_FORMAT else Ok;
    } else if kind == 1 {
      err, w := SkipWords(c, 1);
    } else if kind == 2 {
      err, w := SkipWords(c, 2);
      if err != Ok { return; }
      err := ValidateNodeId(w[1], nodes, false);
    } else if kind == 3 || kind == 7 {
      err, w := SkipWords(c, 1);
      if err != Ok { return; }
      err := if w[0] >= symbolCount then SNAPSHOT_FORMAT else Ok;
    } else if kind == 4 {
      err, w := SkipWords(c, 2);
      if err != Ok { return; }
      var ignored;
      err, ignored := c.ReadU8();
      if err != Ok { return; }
      if w[0] >= symbolCount {
        return SNAPSHOT_FORMAT;
      }
      err := ValidateNodeId(w[1], nodes, false);
    } else if kind == 5 || kind == 6 {
      err := ValidateFallbackBody(c, kind, symbolCount, nodes, n, p, symbols, rest);
    } else {
      err := NOT_PERSISTABLE;
    }
  }

  method ValidateNode(c: Cursor, symbolCount: nat, literals: nat, nodes: nat, links: nat,
      ghost n: Node, ghost p: Program, ghost symbols: seq<string>, ghost rest: seq<Byte>) returns (err: Error)
    requires c.Valid()
    modifies c
    ensures c.Valid() && c.offset >= old(c.offset)
    ensures old(c.Rest()) == NodeOnto(n, symbols, rest) && NodeReady(n, p, symbols)
         && symbolCount == |symbols| < WORD && literals == |p.literals| < WORD && nodes == |p.nodes| < WORD && links == |p.links| < WORD
         ==> err == Ok && c.Rest() == rest
  {
    hide U8, TakeU8, NodeBodyOnto, NodeReady, Cursor.Rest;
    Rules();
    var kind;
    err, kind := c.ReadU8();
    if err != Ok { return; }
    err := ValidateNodeBody(c, kind, symbolCount, literals, nodes, links, n, p, symbols, rest);
  }

  method ValidateArrays(c: Cursor, symbolCount: nat, literals: nat, nodes: nat, links: nat,
      ghost p: Program, ghost symbols: seq<string>, ghost rest: seq<Byte>) returns (err: Error)
    requires c.Valid()
    modifies c
    ensures c.Valid() && c.offset >= old(c.offset)
    ensures old(c.Rest()) == ArraysOnto(p, symbols, rest) && ProgramReady(p, symbols)
         && symbolCount == |symbols| && literals == |p.literals| && nodes == |p.nodes| && links == |p.links|
         ==> err == Ok && c.Rest() == rest
  {
    hide LiteralsOnto, LiteralOnto, NodesOnto, NodeOnto, WordsOnto, NodeReady, LiteralReady, TakeU32, U32, Cursor.Rest;
    ghost var good := c.Rest() == ArraysOnto(p, symbols, rest) && ProgramReady(p, symbols)
         && symbolCount == |symbols| && literals == |p.literals| && nodes == |p.nodes| && links == |p.links|;
    ghost var afterNodes := WordsOnto(p.links, rest);
    ghost var afterLiterals := NodesOnto(p.nodes, symbols, afterNodes);
    Rules();
    var i: nat := 0;
    assert p.literals[0..] == p.literals && p.nodes[0..] == p.nodes && p.links[0..] == p.links;
    while i < literals
      invariant i <= literals && c.Valid() && c.offset >= old(c.offset)
      invariant good ==> c.Rest() == LiteralsOnto(p.literals[i..], afterLiterals)
    {
      if good { LiteralsStep(p.literals, i, afterLiterals); }
      ghost var l := if good then p.literals[i] else NilLiteral;
      ghost var left := if good then LiteralsOnto(p.literals[i + 1..], afterLiterals) else [];
      err := ValidateLiteral(c, l, left);
      if err != Ok { return; }
      i := i + 1;
    }
    LiteralsStep(p.literals, 0, afterLiterals);
    assert good ==> p.literals[i..] == [];
    i := 0;
    while i < nodes
      invariant i <= nodes && c.Valid() && c.offset >= old(c.offset)
      invariant good ==> c.Rest() == NodesOnto(p.nodes[i..], symbols, afterNodes)
    {
      if good { NodesStep(p.nodes, symbols, i, afterNodes); }
      ghost var n := if good then p.nodes[i] else Lit(0);
      ghost var left := if good then NodesOnto(p.nodes[i + 1..], symbols, afterNodes) else [];
      err := ValidateNode(c, symbolCount, literals, nodes, links, n, p, symbols, left);
      if err != Ok { return; }
      i := i + 1;
    }
    NodesStep(p.nodes, symbols, 0, afterNodes);
    assert good ==> p.nodes[i..] == [];
    i := 0;
    while i < links
      invariant i <= links && c.Valid() && c.offset >= old(c.offset)
      invariant good ==> c.Rest() == WordsOnto(p.links[i..], rest)
    {
      if good { WordsStep(p.links, i, rest); }
      var link;
      err, link := c.ReadU32();
      if err != Ok { return; }
      if link >= nodes {
        return SNAPSHOT_FORMAT;
      }
      i := i + 1;
    }
    WordsStep(p.links, 0, rest);
    assert good ==> p.links[i..] == [];
    err := Ok;
  }

  method ValidateCode(c: Cursor, symbolCount: nat,
      ghost arity: nat, ghost locals: nat, ghost body: nat, ghost p: Program, ghost symbols: seq<string>, ghost rest: seq<Byte>)
    returns (err: Error)
    requires c.Valid()
    modifies c
    ensures c.Valid() && c.offset >= old(c.offset)
    ensures old(c.Rest()) == CodeOnto(arity, locals, body, p, symbols, rest) && ProgramReady(p, symbols)
         && arity <= locals < WORD && body < |p.nodes| && symbolCount == |symbols|
         ==> err == Ok && c.Rest() == rest
  {
    hide U32, TakeWords, ArraysOnto, LiteralReady, NodeReady, Cursor.Rest;
    WordRules();
    var a, b, d;
    err, a := SkipWords(c, 3);
    if err != Ok { return; }
    err, b := SkipWords(c, 3);
    if err != Ok { return; }
    err, d := SkipWords(c, 2);
    if err != Ok { return; }
    if a[1] < a[0] || a[2] >= d[0] || b[0] >= d[0] {
      return SNAPSHOT_FORMAT;
    }
    if b[2] > LITERAL_CAPACITY || d[0] > NODE_CAPACITY || d[1] > LINK_CAPACITY {
      return SNAPSHOT_OVERFLOW;
    }
    err := ValidateArrays(c, symbolCount, b[2], d[0], d[1], p, symbols, rest);
  }

  // ----- objects -----

  method ValidateDef(c: Cursor, ghost name: string, ghost fields: seq<string>, ghost rest: seq<Byte>)
    returns (err: Error, count: nat)
    requires c.Valid()
    modifies c
    ensures c.Valid() && c.offset >= old(c.offset)
    ensures old(c.Rest()) == U32(|fields|, StrOnto(name, StrsOnto(fields, rest))) && DefReady(name, fields)
         ==> err == Ok && count == |fields| && c.Rest() == rest
  {
    hide U32, TakeU32, StrOnto, TakeStr, StrsOnto, SlotName, SimpleName, Cursor.Rest;
    ghost var good := c.Rest() == U32(|fields|, StrOnto(name, StrsOnto(fields, rest))) && DefReady(name, fields);
    Rules();
    err, count := c.ReadU32();
    if err != Ok { return; }
    if count == 0 || count > LINK_CAPACITY {
      return SNAPSHOT_FORMAT, 0;
    }
    if good { SymbolBack(name, StrsOnto(fields, rest)); }
    var s;
    err, s := c.ReadStr();
    if err != Ok { return; }
    var ok := CheckSlotName(s);
    if !ok {
      return SNAPSHOT_BAD_NAME, 0;
    }
    var names: seq<string> := [];
    var i: nat := 0;
    assert fields[0..] == fields;
    while i < count
      invariant i <= count && |names| == i && c.Valid() && c.offset >= old(c.offset)
      invariant Distinct(names)
      invariant good ==> c.Rest() == StrsOnto(fields[i..], rest) && names == fields[..i] && count == |fields|
    {
      if good {
        StrsStep(fields, i, rest);
        FieldBack(fields[i], StrsOnto(fields[i + 1..], rest));
      }
      err, s := c.ReadStr();
      if err != Ok { return; }
      ok := CheckSimpleName(s);
      if !ok {
        return SNAPSHOT_BAD_NAME, 0;
      }
      assert (names + [s])[..i] == names;
      ok := CheckFresh(names + [s], i);
      if good {
        assert names + [s] == fields[..i + 1];
        PrefixDistinct(fields, i + 1);
      }
      if !ok {
        return SNAPSHOT_FORMAT, 0;
      }
      assert (names + [s])[..i + 1] == names + [s];
      names := names + [s];
      i := i + 1;
    }
    assert good ==> fields[i..] == [];
    StrsStep(fields, 0, rest);
    err := Ok;
  }

  lemma PrefixDistinct(ss: seq<string>, n: nat)
    requires n <= |ss| && Distinct(ss)
    ensures Distinct(ss[..n])
  {
  }

  lemma SymbolBack(name: string, rest: seq<Byte>)
    requires SlotName(name) && |name| < 0x1_0000
    ensures TakeStr(StrOnto(name, rest)) == Took(name, rest) && name != []
  {
    hide StrOnto, TakeStr;
    SlotNameNarrow(name, true);
    StrBack(name, rest);
  }

  /** The kinds and field counts found so far. */
  datatype Layout = Layout(kinds: seq<nat>, fieldCounts: seq<nat>)

  predicate LayoutKnown(y: Layout, entries: seq<Entry>, upTo: nat) {
    && KindsKnown(y.kinds, entries, upTo) && |y.fieldCounts| == |entries|
    && forall k :: 0 <= k < upTo && entries[k].DefEntry? ==> y.fieldCounts[k] == |entries[k].fields|
  }

  method ValidateRecord(c: Cursor, y: Layout, at: nat, ghost e: Entry, ghost entries: seq<Entry>, ghost symbols: seq<string>, ghost rest: seq<Byte>)
    returns (err: Error)
    requires c.Valid() && at < |y.kinds| == |y.fieldCounts|
    modifies c
    ensures c.Valid() && c.offset >= old(c.offset)
    ensures e.RecordEntry? && old(c.Rest()) == EntryBodyOnto(e, symbols, rest)
         && |entries| == |y.kinds| < WORD && EntryReady(e, entries, at, symbols) && LayoutKnown(y, entries, at)
         ==> err == Ok && c.Rest() == rest
  {
    hide U32, TakeWords, DataOnto, DatumReady, Cursor.Rest;
    WordRules();
    var w;
    err, w := SkipWords(c, 2);
    if err != Ok { return; }
    var definition, count := w[0], w[1];
    if count == 0 || count > LINK_CAPACITY {
      return SNAPSHOT_FORMAT;
    }
    if definition >= at || y.kinds[definition] != 5 {
      return SNAPSHOT_FORMAT;
    }
    if count != y.fieldCounts[definition] {
      return SNAPSHOT_FORMAT;
    }
    err := ValidateData(c, count, y.kinds, at, if e.RecordEntry? then e.values else [], entries, rest);
  }

  method ValidateEntry(c: Cursor, symbolCount: nat, y: Layout, at: nat,
      ghost e: Entry, ghost entries: seq<Entry>, ghost symbols: seq<string>, ghost rest: seq<Byte>)
    returns (err: Error, after: Layout)
    requires c.Valid() && at < |y.kinds| == |y.fieldCounts|
    modifies c
    ensures c.Valid() && c.offset >= old(c.offset)
    ensures |after.kinds| == |after.fieldCounts| == |y.kinds|
    ensures old(c.Rest()) == EntryOnto(e, symbols, rest)
         && |entries| == |y.kinds| < WORD && entries[at] == e && EntryReady(e, entries, at, symbols)
         && LayoutKnown(y, entries, at) && symbolCount == |symbols|
         ==> err == Ok && c.Rest() == rest && LayoutKnown(after, entries, at + 1)
  {
    hide U8, TakeU8, U32, TakeU32, Raw, TakeRaw, Ascii, CodeOnto, DataOnto, StrOnto, StrsOnto, ProgramReady, DefReady,
      DatumReady, Narrow, Cursor.Rest;
    Rules();
    after := y;
    var kind;
    err, kind := c.ReadU8();
    if err != Ok { return; }
    var here := y.(kinds := y.kinds[at := kind]);
    after := here;
    assert |here.kinds| == |y.kinds|;
    if kind == 1 {
      var length;
      err, length := c.ReadU32();
      if err != Ok { return; }
      var ignored;
      err, ignored := c.ReadBytes(length);
    } else if kind == 2 {
      var count;
      err, count := c.ReadU32();
      if err != Ok { return; }
      if count == 0 {
        return SNAPSHOT_FORMAT, after;
      }
      err := ValidateData(c, count, here.kinds, at, if e.CellsEntry? then e.items else [], entries, rest);
    } else if kind == 3 {
      ghost var code := if e.CodeEntry? then e else CodeEntry(0, 0, 0, Program([], [], [], 0, 0));
      err := ValidateCode(c, symbolCount, code.arity, code.localCount, code.body, code.program, symbols, rest);
    } else if kind == 5 {
      ghost var def := if e.DefEntry? then e else DefEntry("", []);
      var count;
      err, count := ValidateDef(c, def.name, def.fields, rest);
      after := here.(fieldCounts := here.fieldCounts[at := count]);
    } else if kind == 6 {
      err := ValidateRecord(c, here, at, e, entries, symbols, rest);
    } else {
      err := NOT_PERSISTABLE;
    }
  }

  // ----- the whole payload -----

  method ValidateSymbols(c: Cursor, count: nat, ghost symbols: seq<string>, ghost rest: seq<Byte>) returns (err: Error)
    requires c.Valid()
    modifies c
    ensures c.Valid() && c.offset >= old(c.offset)
    ensures old(c.Rest()) == StrsOnto(symbols, rest) && SymbolsReady(symbols) && count == |symbols|
         ==> err == Ok && c.Rest() == rest
  {
    hide StrOnto, TakeStr, StrsOnto, SlotName, Cursor.Rest;
    ghost var good := c.Rest() == StrsOnto(symbols, rest) && SymbolsReady(symbols) && count == |symbols|;
    assert symbols[0..] == symbols;
    var i: nat := 0;
    while i < count
      invariant i <= count && c.Valid() && c.offset >= old(c.offset)
      invariant good ==> c.Rest() == StrsOnto(symbols[i..], rest)
    {
      if good {
        StrsStep(symbols, i, rest);
        assert SymbolReady(symbols[i]);
        SymbolBack(symbols[i], StrsOnto(symbols[i + 1..], rest));
      }
      var s;
      err, s := c.ReadStr(SNAPSHOT_BAD_NAME);
      if err != Ok { return; }
      var ok := CheckSlotName(s);
      if !ok {
        return SNAPSHOT_BAD_NAME;
      }
      i := i + 1;
    }
    assert good ==> symbols[i..] == [];
    StrsStep(symbols, 0, rest);
    err := Ok;
  }

  method ValidateEntries(c: Cursor, symbolCount: nat, count: nat, ghost entries: seq<Entry>, ghost symbols: seq<string>, ghost rest: seq<Byte>)
    returns (err: Error, y: Layout)
    requires c.Valid()
    modifies c
    ensures c.Valid() && c.offset >= old(c.offset) && |y.kinds| == |y.fieldCounts| == count
    ensures old(c.Rest()) == EntriesOnto(entries, symbols, rest) && EntriesReady(entries, symbols)
         && count == |entries| < WORD && symbolCount == |symbols|
         ==> err == Ok && c.Rest() == rest && LayoutKnown(y, entries, count)
  {
    hide EntriesOnto, EntryOnto, EntryReady, Cursor.Rest;
    ghost var good := c.Rest() == EntriesOnto(entries, symbols, rest) && EntriesReady(entries, symbols)
         && count == |entries| < WORD && symbolCount == |symbols|;
    assert entries[0..] == entries;
    y := Layout(seq(count, _ => 0), seq(count, _ => 0));
    var i: nat := 0;
    while i < count
      invariant i <= count && c.Valid() && c.offset >= old(c.offset)
      invariant |y.kinds| == |y.fieldCounts| == count
      invariant good ==> c.Rest() == EntriesOnto(entries[i..], symbols, rest) && LayoutKnown(y, entries, i)
    {
      if good { EntriesStep(entries, symbols, i, rest); }
      ghost var e := if good then entries[i] else TextEntry("");
      ghost var left := if good then EntriesOnto(entries[i + 1..], symbols, rest) else [];
      err, y := ValidateEntry(c, symbolCount, y, i, e, entries, symbols, left);
      if err != Ok { return; }
      i := i + 1;
    }
    assert good ==> entries[i..] == [];
    EntriesStep(entries, symbols, 0, rest);
    err := Ok;
  }

  method ValidateBindings(c: Cursor, symbolCount: nat, y: Layout, count: nat, ghost m: Image, ghost rest: seq<Byte>)
    returns (err: Error)
    requires c.Valid()
    modifies c
    ensures c.Valid() && c.offset >= old(c.offset)
    ensures old(c.Rest()) == BindingsOnto(m.bindings, rest) && count == |m.bindings| && symbolCount == |m.symbols| < WORD
         && |m.entries| < WORD && KindsKnown(y.kinds, m.entries, |m.entries|)
         && (forall i :: 0 <= i < |m.bindings| ==> BindingReady(m.bindings[i], m))
         ==> err == Ok && c.Rest() == rest
  {
    hide BindingsOnto, DatumOnto, U32, TakeU32, Cursor.Rest;
    ghost var good := c.Rest() == BindingsOnto(m.bindings, rest) && count == |m.bindings| && symbolCount == |m.symbols| < WORD
         && |m.entries| < WORD && KindsKnown(y.kinds, m.entries, |m.entries|)
         && (forall i :: 0 <= i < |m.bindings| ==> BindingReady(m.bindings[i], m));
    Rules();
    assert m.bindings[0..] == m.bindings;
    var i: nat := 0;
    while i < count
      invariant i <= count && c.Valid() && c.offset >= old(c.offset)
      invariant good ==> c.Rest() == BindingsOnto(m.bindings[i..], rest)
    {
      if good {
        BindingsOntoStep(m.bindings, i, rest);
        assert BindingReady(m.bindings[i], m);
      }
      var symbol;
      err, symbol := c.ReadU32();
      if err != Ok { return; }
      if symbol >= symbolCount {
        return SNAPSHOT_FORMAT;
      }
      ghost var d := if good then m.bindings[i].value else NilDatum;
      ghost var left := if good then BindingsOnto(m.bindings[i + 1..], rest) else [];
      err := ValidateDatum(c, y.kinds, false, |y.kinds|, d, m.entries, left);
      if err != Ok { return; }
      i := i + 1;
    }
    assert good ==> m.bindings[i..] == [];
    BindingsOntoStep(m.bindings, 0, rest);
    err := Ok;
  }

  lemma BindingsOntoStep(bs: seq<Binding>, i: nat, rest: seq<Byte>)
    ensures i < |bs| ==> BindingsOnto(bs[i..], rest) == U32(bs[i].symbol, DatumOnto(bs[i].value, BindingsOnto(bs[i + 1..], rest)))
    ensures BindingsOnto([], rest) == rest
  {
    hide U32, DatumOnto;
    if i < |bs| {
      assert bs[i..][1..] == bs[i + 1..];
    }
  }

  /** How many symbols, objects and bindings a payload declares. */
  datatype Counts = Counts(symbols: nat, entries: nat, bindings: nat)

  /**
   Accepts every payload that was written from an image in order, and reads it to its
   last byte.
   */
  method ValidatePayload(payload: seq<Byte>, capacity: nat, ghost m: Image) returns (err: Error, counts: Counts)
    ensures payload == Payload(m) && Ready(m, capacity)
        ==> err == Ok && counts == Counts(|m.symbols|, |m.entries|, |m.bindings|)
  {
    hide U16, U32, TakeU16, TakeU32, Raw, TakeRaw, Magic, StrsOnto, EntriesOnto, BindingsOnto, SymbolsReady,
      EntriesReady, BindingReady, Cursor.Rest;
    Rules();
    SymbolsFew();
    ghost var good := payload == Payload(m) && Ready(m, capacity);
    ghost var bindings := U32(|m.bindings|, BindingsOnto(m.bindings, []));
    ghost var objects := U32(|m.entries|, EntriesOnto(m.entries, m.symbols, bindings));
    var c := new Cursor(payload);
    counts := Counts(0, 0, 0);
    var magic;
    err, magic := c.ReadBytes(4);
    if err != Ok { return; }
    if magic != Magic() {
      return SNAPSHOT_FORMAT, counts;
    }
    var version, irVersion;
    err, version := c.ReadU16();
    if err != Ok { return; }
    err, irVersion := c.ReadU16();
    if err != Ok { return; }
    if version != VERSION || irVersion != IR_VERSION {
      return SNAPSHOT_INCOMPAT, counts;
    }
    var symbolCount, entryCount, bindingCount;
    err, symbolCount := c.ReadU32();
    if err != Ok { return; }
    if symbolCount > SYMBOL_CAPACITY {
      return SNAPSHOT_OVERFLOW, counts;
    }
    err := ValidateSymbols(c, symbolCount, m.symbols, objects);
    if err != Ok { return; }
    err, entryCount := c.ReadU32();
    if err != Ok { return; }
    if entryCount > capacity {
      return SNAPSHOT_OVERFLOW, counts;
    }
    var y;
    err, y := ValidateEntries(c, symbolCount, entryCount, m.entries, m.symbols, bindings);
    if err != Ok { return; }
    err, bindingCount := c.ReadU32();
    if err != Ok { return; }
    assert good ==> entryCount == |m.entries| && symbolCount == |m.symbols|;
    err := ValidateBindings(c, symbolCount, y, bindingCount, m, []);
    if err != Ok { return; }
    AtEnd(c);
    if c.offset != |c.data| {
      return SNAPSHOT_FORMAT, counts;
    }
    counts := Counts(symbolCount, entryCount, bindingCount);
  }

  lemma SymbolsFew()
    ensures forall ss {:trigger SymbolsReady(ss)} :: SymbolsReady(ss) ==> |ss| <= SYMBOL_CAPACITY
  {
    hide SymbolReady, Distinct;
  }

  lemma AtEnd(c: Cursor)
    requires c.Valid()
    ensures c.Rest() == [] <==> c.offset == |c.data|
  {
  }
}

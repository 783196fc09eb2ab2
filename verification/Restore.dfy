/**
 Restoring an overlay: the objects of a payload are rebuilt, its bindings are made, and
 the anchors that kept the objects alive in the meantime are released.
 */
module Restore {
  import opened Bytes
  import opened Values
  import opened Spans
  import opened Heap
  import opened Interp
  import opened Sim
  import opened Runtime
  import opened Ownership
  import opened Names
  import opened Image
  import opened Encoder
  import opened Reader
  import opened Validator
  import opened Storage
  import opened Decoder

  // ----- what the bindings of a payload become -----

  function DatumArity(d: Datum, entries: seq<Entry>, objects: seq<Values.Value>): Option<nat> {
    if d.RefDatum? && d.index < |entries| then SlotArity(Some(ObjectFrom(entries[d.index], objects))) else None
  }

  /** The slot table after the bindings have been made in order. */
  function Rebound(slots: seq<SlotEntry>, bindings: seq<Binding>, m: Image, objects: seq<Values.Value>): seq<SlotEntry>
    decreases |bindings|
  {
    if bindings == [] then slots
    else
      var b := bindings[0];
      var name := if b.symbol < |m.symbols| then m.symbols[b.symbol] else "";
      Rebound(BindSlot(slots, name, ValueOf(b.value, objects), true, DatumArity(b.value, m.entries, objects)), bindings[1..], m, objects)
  }

  /** A record definition bound to a slot that does not carry its name. */
  predicate Misnamed(b: Binding, m: Image) {
    && b.symbol < |m.symbols| && b.value.RefDatum? && b.value.index < |m.entries|
    && m.entries[b.value.index].DefEntry? && m.entries[b.value.index].name != m.symbols[b.symbol]
  }

  predicate WellNamed(bindings: seq<Binding>, m: Image) { forall i :: 0 <= i < |bindings| ==> !Misnamed(bindings[i], m) }

  // ----- facts about slots and anchors -----

  function OldValue(slots: seq<SlotEntry>, name: string): Values.Value {
    var i := FindSlot(slots, name);
    if i < |slots| && slots[i].impl.Some? then slots[i].impl.value else Nil
  }

  lemma BindRefs(slots: seq<SlotEntry>, name: string, v: Values.Value, overlay: bool, arity: Option<nat>)
    ensures Refs(SlotValues(BindSlot(slots, name, v, overlay, arity))) + Ref(OldValue(slots, name)) == Refs(SlotValues(slots)) + Ref(v)
  {
    hide Refs;
    var i := FindSlot(slots, name);
    var after := BindSlot(slots, name, v, overlay, arity);
    if i < |slots| {
      assert SlotValues(after) == SlotValues(slots)[i := v];
      RefsUpdate(SlotValues(slots), i, v);
    } else {
      assert SlotValues(after) == SlotValues(slots) + [v];
      RefsConcat(SlotValues(slots), [v]);
      OneRef(v);
    }
  }

  lemma OneRef(v: Values.Value)
    ensures Refs([v]) == Ref(v) && Ref(Nil) == multiset{}
  {
    assert [v][1..] == [];
  }

  /** What is anchored survives every release. */
  lemma StandsShrunk(h: Heap, g: Heap, objects: seq<Values.Value>, entries: seq<Entry>, upTo: nat, owed: multiset<nat>)
    requires Stands(h, objects, entries, upTo) && Shrunk(h, g) && Accurate(g, owed) && Refs(objects) <= owed
    ensures Stands(g, objects, entries, upTo)
  {
    hide ObjectFrom, Accurate;
    forall k | 0 <= k < upTo ensures StandsAt(g, objects, entries, k) {
      assert StandsAt(h, objects, entries, k);
      InRefs(objects, objects[k]);
      HeldIsLive(g, owed, objects[k]);
      var id := objects[k].id;
      assert CellShrunk(h[id], g[id]);
    }
  }

  lemma StandsArity(h: Heap, objects: seq<Values.Value>, m: Image, d: Datum)
    requires Stands(h, objects, m.entries, |m.entries|) && (d.RefDatum? ==> d.index < |m.entries|)
    ensures SlotArity(Deref(h, ValueOf(d, objects))) == DatumArity(d, m.entries, objects)
    ensures Deref(h, ValueOf(d, objects)) == if d.RefDatum? then Some(ObjectFrom(m.entries[d.index], objects)) else None
  {
    hide ObjectFrom;
    if d.RefDatum? {
      assert StandsAt(h, objects, m.entries, d.index);
    }
  }

  lemma BindSlotGrows(slots: seq<SlotEntry>, name: string, v: Values.Value, arity: Option<nat>)
    ensures |slots| <= |BindSlot(slots, name, v, true, arity)|
    ensures FindSlot(slots, name) == |slots| ==> |slots| < |BindSlot(slots, name, v, true, arity)|
  {
  }

  lemma {:induction false} ReboundGrows(slots: seq<SlotEntry>, bindings: seq<Binding>, m: Image, objects: seq<Values.Value>)
    ensures |slots| <= |Rebound(slots, bindings, m, objects)|
    decreases |bindings|
  {
    hide BindSlot, ValueOf, DatumArity;
    if bindings != [] {
      var b := bindings[0];
      var name := if b.symbol < |m.symbols| then m.symbols[b.symbol] else "";
      BindSlotGrows(slots, name, ValueOf(b.value, objects), DatumArity(b.value, m.entries, objects));
      ReboundGrows(BindSlot(slots, name, ValueOf(b.value, objects), true, DatumArity(b.value, m.entries, objects)), bindings[1..], m, objects);
    }
  }

  class Restorer {
    const rt: Runtime
    const slotLimit: nat
    var slots: seq<SlotEntry>

    ghost predicate Owned(loose: multiset<nat>)
      reads this, rt, rt.payload, rt.payload.spans, rt.cellspace, rt.cellspace.spans
    {
      rt.Valid() && Accurate(rt.heap, Refs(SlotValues(slots)) + loose)
    }

    /** A restorer for an existing runtime and its slots. */
    constructor (rt: Runtime, slots: seq<SlotEntry>, slotLimit: nat)
      requires rt.Valid() && Accurate(rt.heap, Refs(SlotValues(slots)))
      ensures this.rt == rt && this.slots == slots && this.slotLimit == slotLimit && Owned(multiset{})
    {
      this.rt, this.slots, this.slotLimit := rt, slots, slotLimit;
      new;
      assert Refs(SlotValues(slots)) + multiset{} == Refs(SlotValues(slots));
    }

    /** Binds a slot; the reference to the value moves into the slot, and the old one is released. */
    method BindSlotValue(name: string, v: Values.Value, ghost loose: multiset<nat>) returns (err: Error)
      requires Owned(loose + Ref(v)) && this !in rt.Repr()
      modifies this`slots, rt, rt.payload, rt.payload.spans, rt.cellspace, rt.cellspace.spans
      ensures ghost var o := Deref(old(rt.heap), v);
        var bad := o.Some? && o.value.RecordDef? && o.value.name != name;
        var full := FindSlot(old(slots), name) == |old(slots)| && |old(slots)| >= slotLimit;
        err == if bad then SNAPSHOT_BAD_NAME else if full then SlotTableFull else Ok
      ensures err == Ok ==> Owned(loose) && Shrunk(old(rt.heap), rt.heap)
      ensures err == Ok ==> slots == BindSlot(old(slots), name, v, true, SlotArity(Deref(old(rt.heap), v)))
      ensures err != Ok ==> Owned(loose + Ref(v)) && slots == old(slots) && rt.heap == old(rt.heap)
    {
      hide Runtime.Valid, Accurate, Refs, SlotValues, BindSlot, Shrunk, SpanAllocator.Valid;
      var o := Deref(rt.heap, v);
      if o.Some? && o.value.RecordDef? && o.value.name != name {
        return SNAPSHOT_BAD_NAME;
      }
      if FindSlot(slots, name) == |slots| && |slots| >= slotLimit {
        return SlotTableFull;
      }
      var previous := OldValue(slots, name);
      BindRefs(slots, name, v, true, SlotArity(o));
      ghost var before := Refs(SlotValues(slots));
      slots := BindSlot(slots, name, v, true, SlotArity(o));
      ghost var after := Refs(SlotValues(slots));
      Exchanged(before, loose, Ref(v), after, Ref(previous));
      rt.Release(previous, after + loose);
      err := Ok;
    }

    /** Binds a slot to an anchored value; the slot takes a reference of its own. */
    method BindAnchored(name: string, v: Values.Value, objects: seq<Values.Value>, ghost entries: seq<Entry>) returns (err: Error)
      requires Owned(Refs(objects)) && (v.Obj? ==> v in objects) && this !in rt.Repr()
      modifies this`slots, rt, rt.payload, rt.payload.spans, rt.cellspace, rt.cellspace.spans
      ensures Owned(Refs(objects))
      ensures ghost var o := Deref(old(rt.heap), v);
        var bad := o.Some? && o.value.RecordDef? && o.value.name != name;
        var full := FindSlot(old(slots), name) == |old(slots)| && |old(slots)| >= slotLimit;
        err == if bad then SNAPSHOT_BAD_NAME else if full then SlotTableFull else Ok
      ensures err == Ok ==> slots == BindSlot(old(slots), name, v, true, SlotArity(Deref(old(rt.heap), v)))
      ensures err == Ok && Stands(old(rt.heap), objects, entries, |entries|) ==> Stands(rt.heap, objects, entries, |entries|)
    {
      hide BindSlot, Stands, Runtime.Valid, Accurate, Refs, SlotValues, Shrunk, SpanAllocator.Valid, Deref, Grown;
      InRefs(objects, v);
      ghost var anchors, before := Refs(objects), rt.heap;
      HeldIsLive(rt.heap, Refs(SlotValues(slots)) + anchors, v);
      rt.Retain(v, Refs(SlotValues(slots)) + anchors);
      Assoc(Refs(SlotValues(slots)), anchors, Ref(v));
      ghost var mid := rt.heap;
      RetainedSame(before, mid, v);
      err := BindSlotValue(name, v, anchors);
      if err != Ok {
        rt.Release(v, Refs(SlotValues(slots)) + anchors);
        return;
      }
      SubAdd(anchors, Refs(SlotValues(slots)));
      if Stands(before, objects, entries, |entries|) {
        GrownSame(before, mid);
        StandsGrown(before, mid, objects, entries, |entries|);
        StandsShrunk(mid, rt.heap, objects, entries, |entries|, Refs(SlotValues(slots)) + anchors);
      }
    }

    method DecodeBindings(c: Cursor, symbols: seq<string>, objects: seq<Values.Value>, count: nat, ghost m: Image)
      returns (err: Error)
      requires c.Valid() && Owned(Refs(objects)) && this !in rt.Repr() && c !in rt.Repr()
      modifies this`slots, c, rt, rt.payload, rt.payload.spans, rt.cellspace, rt.cellspace.spans
      ensures c.Valid() && Owned(Refs(objects))
      ensures old(c.Rest()) == BindingsOnto(m.bindings, []) && count == |m.bindings| && symbols == m.symbols
           && |symbols| < WORD && |m.entries| < WORD
           && Stands(old(rt.heap), objects, m.entries, |m.entries|)
           && (forall i :: 0 <= i < |m.bindings| ==> BindingReady(m.bindings[i], m))
           ==> (err == Ok || err == SNAPSHOT_BAD_NAME || err == SlotTableFull)
               && (err == SNAPSHOT_BAD_NAME ==> !WellNamed(m.bindings, m))
               && (err == SlotTableFull ==> slotLimit < |Rebound(old(slots), m.bindings, m, objects)|)
               && (err == Ok ==> WellNamed(m.bindings, m))
               && (err == Ok ==> slots == Rebound(old(slots), m.bindings, m, objects))
               && (err == Ok ==> Stands(rt.heap, objects, m.entries, |m.entries|))
    {
      hide U32, TakeU32, BindingsOnto, DatumOnto, ValueOf, Rebound, BindSlot, DatumArity, Stands, Cursor.Rest,
        Runtime.Valid, Accurate, Refs, SlotValues, Shrunk, SpanAllocator.Valid, Deref;
      ghost var good := c.Rest() == BindingsOnto(m.bindings, []) && count == |m.bindings| && symbols == m.symbols
           && |symbols| < WORD && |m.entries| < WORD
           && Stands(rt.heap, objects, m.entries, |m.entries|)
           && (forall i :: 0 <= i < |m.bindings| ==> BindingReady(m.bindings[i], m));
      Rules();
      ghost var start := slots;
      assert m.bindings[0..] == m.bindings;
      var i: nat := 0;
      while i < count
        invariant i <= count && c.Valid() && Owned(Refs(objects))
        invariant good ==> c.Rest() == BindingsOnto(m.bindings[i..], [])
        invariant good ==> Rebound(slots, m.bindings[i..], m, objects) == Rebound(start, m.bindings, m, objects)
        invariant good ==> Stands(rt.heap, objects, m.entries, |m.entries|)
        invariant good ==> forall k :: 0 <= k < i ==> !Misnamed(m.bindings[k], m)
      {
        ghost var d := if good then m.bindings[i].value else NilDatum;
        ghost var left := if good then BindingsOnto(m.bindings[i + 1..], []) else [];
        if good {
          BindingsOntoStep(m.bindings, i, []);
          ReboundStep(slots, m.bindings, i, m, objects);
          assert BindingReady(m.bindings[i], m);
          StandsLength(rt.heap, objects, m.entries);
          StandsArity(rt.heap, objects, m, d);
        }
        var symbol;
        err, symbol := c.ReadU32();
        if err != Ok { return; }
        if symbol >= |symbols| {
          return SNAPSHOT_FORMAT;
        }
        var v;
        err, v := DecodeDatum(c, objects, d, left);
        if err != Ok { return; }
        if good {
          DefinitionMisnamed(m, i, objects);
          ReboundGrows(BindSlot(slots, symbols[symbol], v, true, SlotArity(Deref(rt.heap, v))), m.bindings[i + 1..], m, objects);
          BindSlotGrows(slots, symbols[symbol], v, SlotArity(Deref(rt.heap, v)));
        }
        err := BindAnchored(symbols[symbol], v, objects, m.entries);
        if err != Ok { return; }
        i := i + 1;
      }
      ReboundEnd(slots, m, objects);
      assert good ==> m.bindings[i..] == [];
      err := Ok;
    }

    /** Restores a payload. On an error the caller resets the image. */
    method RestorePayload(payload: seq<Byte>, capacity: nat, ghost m: Image)
      returns (err: Error, ghost objects: seq<Values.Value>)
      requires Owned(multiset{}) && this !in rt.Repr()
      modifies this`slots, rt, rt.payload, rt.payload.spans, rt.cellspace, rt.cellspace.spans
      ensures Owned(multiset{})
      ensures payload == Payload(m) && Ready(m, capacity) ==>
        && (err in {Ok, SNAPSHOT_BAD_NAME, SlotTableFull, OutOfMemory, CellspaceFull})
        && (err == OutOfMemory || err == CellspaceFull ==>
              !Suffices(old(rt.Available()), NeedOfAll(rt.machine, rt.alignment, Shapes(m.entries))))
        && (err == SlotTableFull ==> slotLimit < |Rebound(old(slots), m.bindings, m, objects)|)
        && (err == SNAPSHOT_BAD_NAME ==> !WellNamed(m.bindings, m))
        && (err == Ok ==> WellNamed(m.bindings, m) && slots == Rebound(old(slots), m.bindings, m, objects))
        && (err == Ok ==> exists anchored :: Stands(anchored, objects, m.entries, |m.entries|) && Shrunk(anchored, rt.heap))
    {
      hide U32, TakeU32, Payload, EntriesOnto, BindingsOnto, SymbolsReady, EntriesReady, BindingReady, Stands, Rebound,
        Cursor.Rest, Runtime.Valid, Accurate, Refs, SlotValues, Shrunk, Grown, SpanAllocator.Valid, WellNamed, Metered, Suffices,
        NeedOfAll, Runtime.Available;
      ghost var good := payload == Payload(m) && Ready(m, capacity);
      ghost var room := rt.Available();
      ghost var bindings := U32(|m.bindings|, BindingsOnto(m.bindings, []));
      Rules();
      SymbolsFew();
      objects := [];
      var counts;
      err, counts := ValidatePayload(payload, capacity, m);
      if err != Ok { return; }
      var c := new Cursor(payload);
      var symbols, section;
      err, symbols := DecodeHead(c, counts.symbols, counts.entries, m);
      if err != Ok { return; }
      NothingOwed(Refs(SlotValues(slots)));
      var table;
      err, table := DecodeObjects(c, symbols, rt, counts.entries, Refs(SlotValues(slots)), m.entries, bindings);
      objects := table;
      if good && Suffices(room, NeedOfAll(rt.machine, rt.alignment, Shapes(m.entries))) {
        EnoughRoom(err, room, rt.Available(), NeedOfAll(rt.machine, rt.alignment, Shapes(m.entries)));
      }
      if err == Ok {
        err, section := c.ReadU32();
        if err == Ok && section != counts.bindings {
          err := SNAPSHOT_FORMAT;
        }
        if err == Ok {
          err := DecodeBindings(c, symbols, table, counts.bindings, m);
        }
      }
      ghost var anchored := rt.heap;
      rt.ReleaseAll(table, Refs(SlotValues(slots)));
      NothingOwed(Refs(SlotValues(slots)));
      assert good && err == Ok ==> Stands(anchored, objects, m.entries, |m.entries|) && Shrunk(anchored, rt.heap);
    }
  }

  /** The marks, the symbols, and the number of objects. */
  method DecodeHead(c: Cursor, symbolCount: nat, entryCount: nat, ghost m: Image) returns (err: Error, symbols: seq<string>)
    requires c.Valid()
    modifies c
    ensures c.Valid()
    ensures old(c.Rest()) == Payload(m) && SymbolsReady(m.symbols) && symbolCount == |m.symbols| < WORD && entryCount == |m.entries| < WORD
         ==> err == Ok && symbols == m.symbols
             && c.Rest() == EntriesOnto(m.entries, m.symbols, U32(|m.bindings|, BindingsOnto(m.bindings, [])))
  {
    hide U16, U32, TakeU16, TakeU32, Raw, TakeRaw, Magic, StrsOnto, EntriesOnto, BindingsOnto, SymbolsReady, Cursor.Rest;
    ghost var tables := U32(|m.entries|, EntriesOnto(m.entries, m.symbols, U32(|m.bindings|, BindingsOnto(m.bindings, []))));
    Rules();
    symbols := [];
    var magic, version, irVersion, section;
    err, magic := c.ReadBytes(4);
    if err != Ok { return; }
    err, version := c.ReadU16();
    if err != Ok { return; }
    err, irVersion := c.ReadU16();
    if err != Ok { return; }
    err, section := c.ReadU32();
    if err != Ok { return; }
    if section != symbolCount {
      return SNAPSHOT_FORMAT, [];
    }
    err, symbols := DecodeSymbols(c, symbolCount, m.symbols, tables);
    if err != Ok { return; }
    err, section := c.ReadU32();
    if err != Ok { return; }
    if section != entryCount {
      err := SNAPSHOT_FORMAT;
    }
  }

  method DecodeSymbols(c: Cursor, count: nat, ghost expected: seq<string>, ghost rest: seq<Byte>) returns (err: Error, symbols: seq<string>)
    requires c.Valid()
    modifies c
    ensures c.Valid()
    ensures old(c.Rest()) == StrsOnto(expected, rest) && SymbolsReady(expected) && count == |expected|
         ==> err == Ok && symbols == expected && c.Rest() == rest
  {
    hide StrOnto, TakeStr, StrsOnto, SlotName, Cursor.Rest;
    ghost var good := c.Rest() == StrsOnto(expected, rest) && SymbolsReady(expected) && count == |expected|;
    symbols := [];
    assert expected[0..] == expected;
    while |symbols| < count
      invariant |symbols| <= count && c.Valid()
      invariant good ==> c.Rest() == StrsOnto(expected[|symbols|..], rest) && symbols == expected[..|symbols|]
    {
      ghost var i := |symbols|;
      if good {
        StrsStep(expected, i, rest);
        assert SymbolReady(expected[i]);
        SymbolBack(expected[i], StrsOnto(expected[i + 1..], rest));
      }
      var s;
      err, s := c.ReadStr();
      if err != Ok { return; }
      symbols := symbols + [s];
    }
    StrsStep(expected, 0, rest);
    assert good ==> expected[|symbols|..] == [];
    err := Ok;
  }

  // ----- small facts -----

  lemma Exchanged(before: multiset<nat>, loose: multiset<nat>, v: multiset<nat>, after: multiset<nat>, previous: multiset<nat>)
    requires after + previous == before + v
    ensures before + (loose + v) == (after + loose) + previous
  {
    assert before + (loose + v) == (before + v) + loose;
    assert (after + loose) + previous == (after + previous) + loose;
  }

  lemma Assoc(a: multiset<nat>, b: multiset<nat>, c: multiset<nat>)
    ensures (a + b) + c == a + (b + c)
  {
  }

  lemma SubAdd(a: multiset<nat>, b: multiset<nat>)
    ensures a <= b + a
  {
  }

  lemma NothingOwed(a: multiset<nat>)
    ensures a + multiset{} == a
  {
  }

  lemma RetainedSame(h: Heap, g: Heap, v: Values.Value)
    requires SameObjects(h, g)
    ensures Deref(g, v) == Deref(h, v)
    ensures Grown(h, g)
  {
    if v.Obj? && v.id < |h| {
      assert CellKept(h[v.id], g[v.id]);
    }
  }

  lemma StandsLength(h: Heap, objects: seq<Values.Value>, entries: seq<Entry>)
    requires Stands(h, objects, entries, |entries|)
    ensures |objects| == |entries|
  {
  }

  lemma ReboundStep(slots: seq<SlotEntry>, bindings: seq<Binding>, i: nat, m: Image, objects: seq<Values.Value>)
    requires i < |bindings| && bindings[i].symbol < |m.symbols|
    ensures Rebound(slots, bindings[i..], m, objects)
         == Rebound(BindSlot(slots, m.symbols[bindings[i].symbol], ValueOf(bindings[i].value, objects), true,
                      DatumArity(bindings[i].value, m.entries, objects)), bindings[i + 1..], m, objects)
  {
    hide BindSlot, ValueOf, DatumArity;
    assert bindings[i..][1..] == bindings[i + 1..];
  }

  lemma ReboundEnd(slots: seq<SlotEntry>, m: Image, objects: seq<Values.Value>)
    ensures Rebound(slots, [], m, objects) == slots
  {
  }

  lemma DefinitionMisnamed(m: Image, i: nat, objects: seq<Values.Value>)
    requires i < |m.bindings| && BindingReady(m.bindings[i], m)
    ensures var b := m.bindings[i];
      var o := if b.value.RefDatum? then Some(ObjectFrom(m.entries[b.value.index], objects)) else None;
      Misnamed(b, m) <==> o.Some? && o.value.RecordDef? && o.value.name != m.symbols[b.symbol]
  {
  }
}

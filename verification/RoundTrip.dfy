/**
 Restoring what was saved gives the same overlay up to the naming of objects, and saving
 that again gives the same payload.
 */
module RoundTrip {
  import opened Bytes
  import opened Ir
  import opened Values
  import opened Heap
  import opened Interp
  import opened Sim
  import opened Runtime
  import opened Ownership
  import opened Names
  import opened Image
  import opened Encoder
  import opened Collector
  import opened Decoder
  import opened Restore
  import opened Snapshot

  // ----- slots -----

  predicate DistinctSlots(slots: seq<SlotEntry>) { forall j, k :: 0 <= j < k < |slots| ==> slots[j].name != slots[k].name }

  /**
   `base` is the slot table of the base image, on which the saved table was built: the
   same names first, and then the names the overlay added.
   */
  predicate BuiltOn(slots: seq<SlotEntry>, base: seq<SlotEntry>) {
    && |base| <= |slots| && DistinctSlots(slots)
    && (forall k :: 0 <= k < |base| ==> base[k].name == slots[k].name && !base[k].overlay)
    && (forall k :: |base| <= k < |slots| ==> Bound(slots[k]))
    && (forall k :: 0 <= k < |slots| && slots[k].overlay ==> slots[k].impl.Some?)
  }

  function NewEntry(s: SlotEntry, m: Image, items: seq<nat>, objects: seq<Values.Value>): SlotEntry
    requires s.impl.Some?
  {
    var d := DatumOf(s.impl.value, items);
    SlotEntry(s.name, Some(ValueOf(d, objects)), true, DatumArity(d, m.entries, objects))
  }

  function MixedAt(slots: seq<SlotEntry>, base: seq<SlotEntry>, i: nat, m: Image, items: seq<nat>, objects: seq<Values.Value>, k: nat): SlotEntry
    requires k < |slots|
  {
    if k < i && Bound(slots[k]) then NewEntry(slots[k], m, items, objects) else if k < |base| then base[k] else slots[k]
  }

  /** The table after the first `i` saved slots have been bound again. */
  function Mixed(slots: seq<SlotEntry>, base: seq<SlotEntry>, i: nat, m: Image, items: seq<nat>, objects: seq<Values.Value>): (r: seq<SlotEntry>)
    requires |base| <= |slots| && i <= |slots|
    ensures |r| == if i < |base| then |base| else i
    ensures forall k :: 0 <= k < |r| ==> r[k] == MixedAt(slots, base, i, m, items, objects, k)
  {
    var n := if i < |base| then |base| else i;
    seq(n, k requires 0 <= k < n => MixedAt(slots, base, i, m, items, objects, k))
  }

  lemma {:induction false} FindUnique(slots: seq<SlotEntry>, name: string, i: nat)
    requires i <= |slots| && (forall k :: 0 <= k < i ==> slots[k].name != name) && (i < |slots| ==> slots[i].name == name)
    ensures FindSlot(slots, name) == i
  {
    if slots != [] && i > 0 {
      FindUnique(slots[1..], name, i - 1);
    }
  }

  lemma MixedNames(slots: seq<SlotEntry>, base: seq<SlotEntry>, i: nat, m: Image, items: seq<nat>, objects: seq<Values.Value>)
    requires BuiltOn(slots, base) && i <= |slots|
    ensures forall k :: 0 <= k < |Mixed(slots, base, i, m, items, objects)| ==> Mixed(slots, base, i, m, items, objects)[k].name == slots[k].name
  {
    hide ValueOf, DatumOf, DatumArity;
  }

  lemma MixedStep(slots: seq<SlotEntry>, base: seq<SlotEntry>, i: nat, m: Image, items: seq<nat>, objects: seq<Values.Value>)
    requires BuiltOn(slots, base) && i < |slots|
    ensures Bound(slots[i]) ==>
      var e := NewEntry(slots[i], m, items, objects);
      BindSlot(Mixed(slots, base, i, m, items, objects), slots[i].name, e.impl.value, true, e.arity) == Mixed(slots, base, i + 1, m, items, objects)
    ensures !Bound(slots[i]) ==> Mixed(slots, base, i + 1, m, items, objects) == Mixed(slots, base, i, m, items, objects)
  {
    hide ValueOf, DatumOf, DatumArity;
    var now := Mixed(slots, base, i, m, items, objects);
    var next := Mixed(slots, base, i + 1, m, items, objects);
    MixedNames(slots, base, i, m, items, objects);
    if Bound(slots[i]) {
      FindUnique(now, slots[i].name, i);
      var e := NewEntry(slots[i], m, items, objects);
      var bound := BindSlot(now, slots[i].name, e.impl.value, true, e.arity);
      assert |bound| == |next|;
      forall k | 0 <= k < |next| ensures bound[k] == next[k] {
        if k == i {
          assert next[k] == e;
        } else {
          assert now[k] == MixedAt(slots, base, i, m, items, objects, k);
        }
      }
    } else {
      forall k | 0 <= k < |next| ensures now[k] == next[k] {
        assert now[k] == MixedAt(slots, base, i, m, items, objects, k);
      }
    }
  }

  /** Making the saved bindings in order rebuilds the saved table slot by slot. */
  lemma {:induction false} ReboundMixed(slots: seq<SlotEntry>, base: seq<SlotEntry>, i: nat, m: Image, items: seq<nat>, objects: seq<Values.Value>)
    requires BuiltOn(slots, base) && i <= |slots|
    requires forall k :: 0 <= k < |slots| && Bound(slots[k]) ==> slots[k].name in m.symbols
    ensures Rebound(Mixed(slots, base, i, m, items, objects), BindingsOf(slots[i..], m.symbols, items), m, objects)
         == Mixed(slots, base, |slots|, m, items, objects)
    decreases |slots| - i
  {
    hide BindSlot, DatumOf, ValueOf, DatumArity, Mixed, BuiltOn, SymbolIndex;
    if i < |slots| {
      MixedStep(slots, base, i, m, items, objects);
      ReboundMixed(slots, base, i + 1, m, items, objects);
      assert slots[i..][0] == slots[i] && slots[i..][1..] == slots[i + 1..];
      var rest := BindingsOf(slots[i + 1..], m.symbols, items);
      if Bound(slots[i]) {
        var b := BindingOf(slots[i], m.symbols, items);
        assert BindingsOf(slots[i..], m.symbols, items) == [b] + rest;
        assert ([b] + rest)[1..] == rest;
      } else {
        assert [] + rest == rest;
      }
    } else {
      assert slots[i..] == [];
    }
  }

  lemma MixedStart(slots: seq<SlotEntry>, base: seq<SlotEntry>, m: Image, items: seq<nat>, objects: seq<Values.Value>)
    requires |base| <= |slots|
    ensures Mixed(slots, base, 0, m, items, objects) == base && slots[0..] == slots
  {
    assert Mixed(slots, base, 0, m, items, objects) == base;
  }

  // ----- renaming objects -----

  function NewId(objects: seq<Values.Value>, k: nat): nat {
    if k < |objects| && objects[k].Obj? then objects[k].id else 0
  }

  /** The new name of each saved object. */
  function Renames(items: seq<nat>, objects: seq<Values.Value>): map<nat, nat> {
    map id | id in items :: NewId(objects, ItemIndex(items, id))
  }

  lemma ValueRenamed(v: Values.Value, items: seq<nat>, objects: seq<Values.Value>)
    requires |objects| == |items| && (forall k :: 0 <= k < |objects| ==> objects[k].Obj?)
    requires Scalar(v) || (v.Obj? && v.id in items)
    ensures ValueOf(DatumOf(v, items), objects) == MapV(Renames(items, objects), v)
  {
  }

  lemma ValuesRenamed(h: Heap, vs: seq<Values.Value>, items: seq<nat>, objects: seq<Values.Value>)
    requires |objects| == |items| && (forall k :: 0 <= k < |objects| ==> objects[k].Obj?)
    requires AllInner(h, vs, items)
    ensures ValuesOf(DataOf(vs, items), objects) == MapS(Renames(items, objects), vs)
  {
    hide ValueOf, DatumOf, MapV, Renames;
    forall k | 0 <= k < |vs|
      ensures ValuesOf(DataOf(vs, items), objects)[k] == MapS(Renames(items, objects), vs)[k]
    {
      assert Inner(h, vs[k], items);
      ValueRenamed(vs[k], items, objects);
    }
  }

  lemma ObjectRenamed(h: Heap, o: Object, symbols: seq<string>, items: seq<nat>, objects: seq<Values.Value>)
    requires |objects| == |items| && (forall k :: 0 <= k < |objects| ==> objects[k].Obj?)
    requires Closed(h, o, symbols, items)
    ensures ObjectFrom(EntryOf(o, items), objects) == MapO(Renames(items, objects), o)
  {
    hide ValuesOf, DataOf, MapS, AllInner, Renames, NodeSymbols;
    match o {
      case Cells(values) =>
        ValuesRenamed(h, values, items, objects);
      case Record(definition, fields) =>
        ValuesRenamed(h, fields, items, objects);
        ValueRenamed(definition, items, objects);
      case _ =>
    }
  }

  /** `g` holds, under new names, the objects of `h` that `r` names. */
  ghost predicate Renaming(h: Heap, g: Heap, r: map<nat, nat>) {
    && Injective(r)
    && forall i | i in r :: RenamedAt(h, g, r, i)
  }

  ghost predicate RenamedAt(h: Heap, g: Heap, r: map<nat, nat>, i: nat)
    requires i in r
  {
    IsLive(h, i) && IsLive(g, r[i]) && g[r[i]].obj == MapO(r, h[i].obj) && AllKnown(r, Children(h[i].obj))
  }

  lemma ChildrenKnown(h: Heap, o: Object, symbols: seq<string>, items: seq<nat>, objects: seq<Values.Value>)
    requires Closed(h, o, symbols, items)
    ensures AllKnown(Renames(items, objects), Children(o))
  {
    hide NodeSymbols, NewId, ItemIndex;
    forall v | v in Children(o) ensures Known(Renames(items, objects), v) {
      if o.Cells? {
        var n :| 0 <= n < |o.items| && o.items[n] == v;
        assert Inner(h, o.items[n], items);
      } else if o.Record? && v != o.definition {
        assert v in o.fields;
        var n :| 0 <= n < |o.fields| && o.fields[n] == v;
        assert Inner(h, o.fields[n], items);
      }
    }
  }

  lemma SavedObjects(h: Heap, t: Tables, g: Heap, objects: seq<Values.Value>)
    requires Stands(g, objects, EntriesOf(h, t.items, 0), |EntriesOf(h, t.items, 0)|)
    ensures |objects| == |t.items| && forall k :: 0 <= k < |objects| ==> objects[k].Obj?
  {
    hide ObjectFrom, EntriesOf;
    EntriesLength(h, t.items);
    forall k | 0 <= k < |objects| ensures objects[k].Obj? {
      assert StandsAt(g, objects, EntriesOf(h, t.items, 0), k);
    }
  }

  /** One object comes back as itself, its references renamed. */
  lemma SavedRenamedAt(h: Heap, t: Tables, g: Heap, objects: seq<Values.Value>, k: nat)
    requires Stands(g, objects, EntriesOf(h, t.items, 0), |EntriesOf(h, t.items, 0)|)
    requires |objects| == |t.items| && (forall k :: 0 <= k < |objects| ==> objects[k].Obj?) && k < |t.items| && ItemOk(h, t, k)
    ensures IsLive(h, t.items[k]) && IsLive(g, objects[k].id)
    ensures g[objects[k].id].obj == MapO(Renames(t.items, objects), h[t.items[k]].obj)
    ensures AllKnown(Renames(t.items, objects), Children(h[t.items[k]].obj))
  {
    hide ObjectFrom, EntryOf, EntriesOf, MapO, Closed, AllKnown, Renames;
    EntriesLength(h, t.items);
    assert StandsAt(g, objects, EntriesOf(h, t.items, 0), k);
    EntryAt(h, t.items, k);
    ObjectLive(h, t.items[k]);
    var o := h[t.items[k]].obj;
    ClosedMore(h, o, t.symbols, t.symbols, t.items[..k], t.items);
    ObjectRenamed(h, o, t.symbols, t.items, objects);
    ChildrenKnown(h, o, t.symbols, t.items, objects);
  }

  lemma RenamesApart(items: seq<nat>, objects: seq<Values.Value>)
    requires |objects| == |items| && (forall k :: 0 <= k < |objects| ==> objects[k].Obj?)
    requires forall j, k :: 0 <= j < k < |objects| ==> objects[j] != objects[k]
    ensures Injective(Renames(items, objects))
  {
    var r := Renames(items, objects);
    forall i, j | i in r && j in r && r[i] == r[j] ensures i == j {
      var a, b := ItemIndex(items, i), ItemIndex(items, j);
      assert objects[a] == objects[b];
    }
  }

  lemma SavedRenamed(h: Heap, t: Tables, g: Heap, objects: seq<Values.Value>, m: Image)
    requires Ordered(h, t) && m.entries == EntriesOf(h, t.items, 0) && Stands(g, objects, m.entries, |m.entries|)
    ensures |objects| == |t.items| && forall k :: 0 <= k < |objects| ==> objects[k].Obj?
    ensures Renaming(h, g, Renames(t.items, objects))
  {
    hide StandsAt, ItemOk, MapO, AllKnown, EntriesOf, Injective, SymbolsReady;
    SavedObjects(h, t, g, objects);
    EntriesLength(h, t.items);
    RenamesApart(t.items, objects);
    var r := Renames(t.items, objects);
    forall i | i in r ensures RenamedAt(h, g, r, i) {
      SavedRenamedAt(h, t, g, objects, ItemIndex(t.items, i));
    }
  }

  // ----- the theorem -----

  /** The slots of `s2` are those of `s`, their values renamed. */
  ghost predicate SameSlots(s: seq<SlotEntry>, s2: seq<SlotEntry>, r: map<nat, nat>) {
    |s2| == |s| && forall k :: 0 <= k < |s| ==> RenamedSlot(s[k], s2[k], r)
  }

  ghost predicate RenamedSlot(s: SlotEntry, s2: SlotEntry, r: map<nat, nat>) {
    && s2.name == s.name
    && (Bound(s) ==> Bound(s2) && s2.impl.value == MapV(r, s.impl.value) && (s.impl.value.Obj? ==> s.impl.value.id in r) && !s.impl.value.Slot?)
    && (!Bound(s) ==> !s.overlay && !s2.overlay)
  }

  /** The overlay restored into `g` and `s2` is the overlay of `h` and `s`, under new names. */
  ghost predicate SameOverlay(h: Heap, s: seq<SlotEntry>, g: Heap, s2: seq<SlotEntry>, r: map<nat, nat>) {
    Renaming(h, g, r) && SameSlots(s, s2, r)
  }

  lemma MixedSame(h: Heap, slots: seq<SlotEntry>, base: seq<SlotEntry>, m: Image, items: seq<nat>, objects: seq<Values.Value>)
    requires BuiltOn(slots, base)
    requires forall k :: 0 <= k < |slots| ==> SlotWritable(h, slots[k], m.symbols, items)
    requires |objects| == |items| && (forall k :: 0 <= k < |objects| ==> objects[k].Obj?)
    ensures SameSlots(slots, Mixed(slots, base, |slots|, m, items, objects), Renames(items, objects))
  {
    hide ValueOf, DatumOf, DatumArity, ItemIndex, NewId;
    var r := Renames(items, objects);
    var s2 := Mixed(slots, base, |slots|, m, items, objects);
    forall k | 0 <= k < |slots| ensures RenamedSlot(slots[k], s2[k], r) {
      assert s2[k] == MixedAt(slots, base, |slots|, m, items, objects, k);
      assert SlotWritable(h, slots[k], m.symbols, items);
      if Bound(slots[k]) {
        ValueRenamed(slots[k].impl.value, items, objects);
      }
    }
  }

  lemma BindingValue(slots: seq<SlotEntry>, symbols: seq<string>, items: seq<nat>, i: nat)
    requires i < |BindingsOf(slots, symbols, items)|
    ensures exists k :: 0 <= k < |slots| && Bound(slots[k]) && BindingsOf(slots, symbols, items)[i].value == DatumOf(slots[k].impl.value, items)
  {
    hide DatumOf, SymbolIndex;
    var own := if Bound(slots[0]) then 1 else 0;
    if i < own {
      assert BindingsOf(slots, symbols, items)[i].value == DatumOf(slots[0].impl.value, items);
    } else {
      BindingValue(slots[1..], symbols, items, i - own);
      var k :| 0 <= k < |slots[1..]| && Bound(slots[1..][k]) && BindingsOf(slots[1..], symbols, items)[i - own].value == DatumOf(slots[1..][k].impl.value, items);
      assert slots[k + 1] == slots[1..][k];
    }
  }

  /** What a slot of the restored table holds is counted among the references of the slots. */
  lemma SlotOwned(slots: seq<SlotEntry>, k: nat)
    requires k < |slots| && slots[k].impl.Some? && slots[k].impl.value.Obj?
    ensures slots[k].impl.value.id in Refs(SlotValues(slots))
  {
    var vs := SlotValues(slots);
    assert vs[k] == slots[k].impl.value && vs[k] == Obj(vs[k].id);
    RefsOf(vs, vs[k].id);
  }

  lemma BindingsOwned(h: Heap, slots: seq<SlotEntry>, base: seq<SlotEntry>, t: Tables, m: Image, objects: seq<Values.Value>)
    requires BuiltOn(slots, base) && m == ImageOf(h, slots, t.symbols, t.items) && |objects| == |t.items|
    requires forall k :: 0 <= k < |objects| ==> objects[k].Obj?
    ensures var s2 := Mixed(slots, base, |slots|, m, t.items, objects);
      forall i :: 0 <= i < |m.bindings| && m.bindings[i].value.RefDatum? && m.bindings[i].value.index < |objects| ==>
        objects[m.bindings[i].value.index].Obj? && objects[m.bindings[i].value.index].id in Refs(SlotValues(s2))
  {
    hide DatumOf, ValueOf, DatumArity, EntriesOf, BindingsOf, Refs, SlotValues;
    var s2 := Mixed(slots, base, |slots|, m, t.items, objects);
    forall i | 0 <= i < |m.bindings| && m.bindings[i].value.RefDatum? && m.bindings[i].value.index < |objects|
      ensures objects[m.bindings[i].value.index].Obj? && objects[m.bindings[i].value.index].id in Refs(SlotValues(s2))
    {
      BindingValue(slots, t.symbols, t.items, i);
      var k :| 0 <= k < |slots| && Bound(slots[k]) && m.bindings[i].value == DatumOf(slots[k].impl.value, t.items);
      assert s2[k] == MixedAt(slots, base, |slots|, m, t.items, objects, k);
      RefValue(m.bindings[i].value, objects);
      SlotOwned(s2, k);
    }
  }

  lemma RefValue(d: Datum, objects: seq<Values.Value>)
    requires d.RefDatum? && d.index < |objects|
    ensures ValueOf(d, objects) == objects[d.index]
  {
  }

  /**
   The round trip. A payload is saved from one heap and restored into another, as
   `Restorer.RestorePayload` promises: first every object stands, anchored, and then the
   anchors go. What remains is the same overlay under new names.
   */
  lemma RestoredOverlay(h: Heap, slots: seq<SlotEntry>, base: seq<SlotEntry>, t: Tables, capacity: nat, m: Image,
      anchored: Heap, g: Heap, s2: seq<SlotEntry>, objects: seq<Values.Value>)
    requires Saved(h, slots, t, capacity) && BuiltOn(slots, base) && m == ImageOf(h, slots, t.symbols, t.items)
    requires Stands(anchored, objects, m.entries, |m.entries|) && Shrunk(anchored, g)
    requires s2 == Rebound(base, m.bindings, m, objects) && Accurate(g, Refs(SlotValues(s2)))
    ensures SameOverlay(h, slots, g, s2, Renames(t.items, objects))
    ensures s2 == Mixed(slots, base, |slots|, m, t.items, objects)
    ensures Stands(g, objects, m.entries, |m.entries|) && Ordered(h, t)
  {
    hide Collect, Sound, SlotsSound, ObjectWritable, SlotWritable, BuiltOn, Stands, Shrunk, Accurate, Rebound, Refs,
      SlotValues, EntriesOf, BindingsOf, Rooted, Ready, SameSlots, Renaming, Mixed, Ordered, Renames, Bound;
    SavedReady(h, slots, t, capacity);
    SavedRooted(h, slots, t, capacity);
    BuiltSize(slots, base);
    SlotsNamed(h, slots, t);
    MixedStart(slots, base, m, t.items, objects);
    ReboundMixed(slots, base, 0, m, t.items, objects);
    SavedRenamed(h, t, anchored, objects, m);
    BindingsOwned(h, slots, base, t, m, objects);
    StandsRooted(anchored, g, objects, m, Refs(SlotValues(s2)));
    SavedRenamed(h, t, g, objects, m);
    MixedSame(h, slots, base, m, t.items, objects);
  }

  lemma BuiltSize(slots: seq<SlotEntry>, base: seq<SlotEntry>)
    requires BuiltOn(slots, base)
    ensures |base| <= |slots|
  {
  }

  lemma SlotsNamed(h: Heap, slots: seq<SlotEntry>, t: Tables)
    requires forall k :: 0 <= k < |slots| ==> SlotWritable(h, slots[k], t.symbols, t.items)
    ensures forall k :: 0 <= k < |slots| && Bound(slots[k]) ==> slots[k].name in t.symbols
  {
  }
}

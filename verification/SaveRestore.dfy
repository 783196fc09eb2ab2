/**
 The whole cycle: save, restore, and save again.
 */
module SaveRestore {
  import opened Bytes
  import opened Values
  import opened Spans
  import opened Heap
  import opened Interp
  import opened Sim
  import opened Runtime
  import opened Ownership
  import opened Names
  import opened Image
  import opened Encoder
  import opened Collector
  import opened Storage
  import Packed
  import opened Decoder
  import opened Restore
  import opened Snapshot
  import opened RoundTrip
  import opened Resave

  /** Collects and writes the overlay, or says why it cannot be saved. */
  method SavePayload(h: Heap, slots: seq<SlotEntry>, capacity: nat, room: nat)
    returns (err: Error, payload: seq<Byte>, ghost t: Tables)
    requires Defined(h)
    ensures err == Ok ==>
      && Collect(h, slots, capacity) == Found(t) && Writable(h, slots, t.symbols, t.items)
      && payload == Payload(ImageOf(h, slots, t.symbols, t.items)) && |payload| <= room
    ensures err != Ok ==>
      || Collect(h, slots, capacity).Refused?
      || (Collect(h, slots, capacity) == Found(t)
          && (!Writable(h, slots, t.symbols, t.items) || |Payload(ImageOf(h, slots, t.symbols, t.items))| > room))
  {
    hide Collect, Writable, Payload, ImageOf, Defined, Collector.Ordered;
    t := Tables([], []);
    payload := [];
    if |h| > capacity {
      TooManyObjects(h, slots, capacity);
      return OutOfMemory, [], t;
    }
    var walker := new Walker(capacity);
    WalkerStarts(walker, h);
    err := walker.CollectOverlay(h, slots);
    if err != Ok {
      return;
    }
    t := walker.Held();
    CollectedOk(h, slots, capacity, t);
    var writer := new Writer(room, Payload(ImageOf(h, slots, t.symbols, t.items)));
    err := writer.WritePayload(h, slots, walker.symbols, walker.items);
    if err == Ok {
      payload := writer.data[..writer.length];
    }
  }

  lemma TooManyObjects(h: Heap, slots: seq<SlotEntry>, capacity: nat)
    requires |h| > capacity
    ensures Collect(h, slots, capacity).Refused?
  {
  }

  lemma WalkerStarts(w: Walker, h: Heap)
    requires |h| <= w.capacity && w.indexById.Length == w.capacity && w.recordStack.Length == w.capacity && w.items == []
    requires forall id :: 0 <= id < w.capacity ==> w.indexById[id] == -1
    ensures w.Valid(h)
  {
  }

  lemma CollectedOk(h: Heap, slots: seq<SlotEntry>, capacity: nat, t: Tables)
    requires Defined(h) && Collect(h, slots, capacity) == Found(t)
    ensures forall i :: 0 <= i < |t.items| ==> IsLive(h, t.items[i])
    ensures forall i :: 0 <= i < |t.symbols| ==> |t.symbols[i]| < 0x1_0000
  {
    hide Collect, Closed, SlotName, Distinct;
    CollectOk(h, slots, capacity);
    forall i | 0 <= i < |t.items| ensures IsLive(h, t.items[i]) {
      assert ItemOk(h, t, i);
    }
    forall i | 0 <= i < |t.symbols| ensures |t.symbols[i]| < 0x1_0000 {
      assert SymbolReady(t.symbols[i]);
    }
  }

  /** Every slot that holds a record definition has that definition's name. */
  ghost predicate NamedAlike(h: Heap, slots: seq<SlotEntry>) {
    forall k :: 0 <= k < |slots| ==> NamedAlikeAt(h, slots[k])
  }

  ghost predicate NamedAlikeAt(h: Heap, s: SlotEntry) {
    Bound(s) ==>
      var o := Deref(h, s.impl.value);
      o.Some? && o.value.RecordDef? ==> o.value.name == s.name
  }

  lemma NamedSlot(h: Heap, s: SlotEntry, m: Image, items: seq<nat>)
    requires Bound(s) && s.name in m.symbols && Outer(h, s.impl.value, items) && m.entries == EntriesOf(h, items, 0)
    ensures Misnamed(BindingOf(s, m.symbols, items), m) <==> !NamedAlikeAt(h, s)
  {
    if s.impl.value.Obj? {
      EntriesLength(h, items);
      EntryAt(h, items, ItemIndex(items, s.impl.value.id));
    }
  }

  lemma {:induction false} NamedBindings(h: Heap, slots: seq<SlotEntry>, m: Image, items: seq<nat>)
    requires m.entries == EntriesOf(h, items, 0)
    requires forall k :: 0 <= k < |slots| ==> SlotWritable(h, slots[k], m.symbols, items)
    ensures WellNamed(BindingsOf(slots, m.symbols, items), m) <==> NamedAlike(h, slots)
  {
    hide Misnamed, NamedAlikeAt, EntriesOf, Outer, SymbolIndex, DatumOf;
    if slots != [] {
      var s, rest := slots[0], slots[1..];
      assert forall k :: 0 <= k < |rest| ==> rest[k] == slots[k + 1];
      NamedBindings(h, rest, m, items);
      var bs := BindingsOf(slots, m.symbols, items);
      var more := BindingsOf(rest, m.symbols, items);
      assert SlotWritable(h, s, m.symbols, items);
      NamedUnbound(h, s);
      if Bound(s) {
        NamedSlot(h, s, m, items);
        assert bs[0] == BindingOf(s, m.symbols, items) && bs[1..] == more;
        assert forall i :: 0 <= i < |more| ==> bs[i + 1] == more[i];
      } else {
        assert bs == more;
      }
      assert NamedAlike(h, slots) <==> NamedAlikeAt(h, s) && NamedAlike(h, rest) by {
        assert forall k :: 1 <= k < |slots| ==> slots[k] == rest[k - 1];
      }
    }
  }

  lemma NamedUnbound(h: Heap, s: SlotEntry)
    ensures !Bound(s) ==> NamedAlikeAt(h, s)
  {
  }

  // ----- the room a restore takes -----

  ghost function ObjectsAt(h: Heap, items: seq<nat>): (os: seq<Object>)
    ensures |os| == |items|
  {
    seq(|items|, k requires 0 <= k < |items| => ObjectAt(h, items[k]))
  }

  /** There are enough free object numbers for the saved objects, enough payload for their
      texts, programs, definitions and records, each in whole alignment units, enough cells
      for the elements of all cells objects, and enough entries for the saved slots. */
  ghost predicate Enough(restorer: Restorer, h: Heap, slots: seq<SlotEntry>, t: Tables)
    reads restorer.rt, restorer.rt.payload, restorer.rt.cellspace
  {
    && Suffices(restorer.rt.Available(), NeedOfAll(restorer.rt.machine, restorer.rt.alignment, ObjectsAt(h, t.items)))
    && |slots| <= restorer.slotLimit
  }

  lemma ShapeSaved(m: Packed.Machine, alignment: Packed.Positive, h: Heap, o: Object, symbols: seq<string>, items: seq<nat>)
    requires ObjectWritable(h, o, symbols, items)
    ensures NeedOf(m, alignment, ObjectFrom(EntryOf(o, items), [])) == NeedOf(m, alignment, o)
  {
    hide ValueOf, DatumOf, Inner, NodesWritable, DefReady;
  }

  lemma {:induction false} SameNeeds(m: Packed.Machine, alignment: Packed.Positive, os: seq<Object>, ps: seq<Object>)
    requires |os| == |ps| && forall k :: 0 <= k < |os| ==> NeedOf(m, alignment, os[k]) == NeedOf(m, alignment, ps[k])
    ensures NeedOfAll(m, alignment, os) == NeedOfAll(m, alignment, ps)
  {
    hide NeedOf;
    if os != [] {
      assert forall k :: 0 <= k < |os| - 1 ==> os[1..][k] == os[k + 1] && ps[1..][k] == ps[k + 1];
      SameNeeds(m, alignment, os[1..], ps[1..]);
    }
  }

  /** The payload asks for what the saved objects hold. */
  lemma NeedSaved(m: Packed.Machine, alignment: Packed.Positive, h: Heap, slots: seq<SlotEntry>, t: Tables)
    requires Writable(h, slots, t.symbols, t.items)
    ensures NeedOfAll(m, alignment, Shapes(EntriesOf(h, t.items, 0))) == NeedOfAll(m, alignment, ObjectsAt(h, t.items))
  {
    hide NeedOf, NeedOfAll, EntryOf, ObjectFrom, ObjectWritable, SlotWritable, EntriesOf;
    EntriesLength(h, t.items);
    var os, ps := Shapes(EntriesOf(h, t.items, 0)), ObjectsAt(h, t.items);
    forall k | 0 <= k < |os| ensures NeedOf(m, alignment, os[k]) == NeedOf(m, alignment, ps[k]) {
      EntryAt(h, t.items, k);
      ShapeSaved(m, alignment, h, h[t.items[k]].obj, t.symbols, t.items);
    }
    SameNeeds(m, alignment, os, ps);
  }

  /** However the objects are numbered, the restored table is as long as the saved one. */
  lemma ReboundLength(h: Heap, slots: seq<SlotEntry>, base: seq<SlotEntry>, t: Tables, m: Image, objects: seq<Values.Value>)
    requires Writable(h, slots, t.symbols, t.items) && BuiltOn(slots, base) && m == ImageOf(h, slots, t.symbols, t.items)
    ensures |Rebound(base, m.bindings, m, objects)| == |slots|
  {
    hide BindingsOf, BuiltOn, Rebound, Mixed, ObjectWritable, SlotWritable, EntriesOf, Bound;
    BuiltSize(slots, base);
    SlotsNamed(h, slots, t);
    MixedStart(slots, base, m, t.items, objects);
    ReboundMixed(slots, base, 0, m, t.items, objects);
    assert slots[0..] == slots;
  }

  /**
   Restoring a saved payload on the base image it was built on. It runs out of room only if
   there is not enough for what was saved, and otherwise succeeds exactly when every slot
   that holds a record definition has the definition's own name; then the overlay is the
   saved one under new names, and saving it again gives the same payload to the byte.
   */
  method RestoreSaved(restorer: Restorer, payload: seq<Byte>, capacity: nat,
      ghost h: Heap, ghost slots: seq<SlotEntry>, ghost t: Tables)
    returns (err: Error, ghost r: map<nat, nat>)
    requires restorer.Owned(multiset{}) && restorer !in restorer.rt.Repr() && restorer.rt.limit == capacity
    requires Saved(h, slots, t, capacity) && BuiltOn(slots, restorer.slots) && payload == Payload(ImageOf(h, slots, t.symbols, t.items))
    modifies restorer`slots, restorer.rt, restorer.rt.payload, restorer.rt.payload.spans, restorer.rt.cellspace, restorer.rt.cellspace.spans
    ensures restorer.Owned(multiset{})
    ensures err in {Ok, SNAPSHOT_BAD_NAME, SlotTableFull, OutOfMemory, CellspaceFull}
    ensures old(Enough(restorer, h, slots, t)) ==> (err == Ok <==> NamedAlike(h, slots))
    ensures err in {SlotTableFull, OutOfMemory, CellspaceFull} ==> old(!Enough(restorer, h, slots, t))
    ensures err == SNAPSHOT_BAD_NAME ==> !NamedAlike(h, slots)
    ensures err == Ok ==> NamedAlike(h, slots)
    ensures err == Ok ==> SameOverlay(h, slots, restorer.rt.heap, restorer.slots, r)
    ensures err == Ok ==>
      && Collect(restorer.rt.heap, restorer.slots, capacity) == Found(MapT(r, t))
      && Writable(restorer.rt.heap, restorer.slots, t.symbols, MapI(r, t.items))
      && Payload(ImageOf(restorer.rt.heap, restorer.slots, t.symbols, MapI(r, t.items))) == payload
  {
    hide Saved, Payload, Ready, BuiltOn, Stands, Rebound, Shrunk, Accurate, Refs, SlotValues, SameOverlay, NamedAlike,
      WellNamed, Collect, Writable, MapT, MapI, Runtime.Valid, EntriesOf, BindingsOf, NeedOfAll, Suffices, Runtime.Available;
    ghost var m := ImageOf(h, slots, t.symbols, t.items);
    ghost var base := restorer.slots;
    SavedReady(h, slots, t, capacity);
    SavedNames(h, slots, t, capacity);
    SavedWritable(h, slots, t, capacity);
    NeedSaved(restorer.rt.machine, restorer.rt.alignment, h, slots, t);
    ghost var objects;
    r := map[];
    err, objects := restorer.RestorePayload(payload, capacity, m);
    ReboundLength(h, slots, base, t, m, objects);
    if err == Ok {
      ghost var anchored :| Stands(anchored, objects, m.entries, |m.entries|) && Shrunk(anchored, restorer.rt.heap);
      NothingOwed(Refs(SlotValues(restorer.slots)));
      RestoredOverlay(h, slots, base, t, capacity, m, anchored, restorer.rt.heap, restorer.slots, objects);
      r := Renames(t.items, objects);
      RenamesAll(t.items, objects);
      HeapFits(restorer.rt);
      SavedAgain(h, slots, t, capacity, restorer.rt.heap, restorer.slots, r);
    }
  }

  lemma SavedWritable(h: Heap, slots: seq<SlotEntry>, t: Tables, capacity: nat)
    requires Saved(h, slots, t, capacity)
    ensures Writable(h, slots, t.symbols, t.items)
  {
    hide Collect, Sound, SlotsSound, ObjectWritable, SlotWritable;
  }

  lemma HeapFits(rt: Runtime)
    requires rt.Valid()
    ensures |rt.heap| <= rt.limit
  {
  }

  lemma SavedNames(h: Heap, slots: seq<SlotEntry>, t: Tables, capacity: nat)
    requires Saved(h, slots, t, capacity)
    ensures var m := ImageOf(h, slots, t.symbols, t.items);
      WellNamed(m.bindings, m) <==> NamedAlike(h, slots)
  {
    hide Collect, Sound, SlotsSound, ObjectWritable, SlotWritable, EntriesOf, BindingsOf, WellNamed, NamedAlike;
    var m := ImageOf(h, slots, t.symbols, t.items);
    NamedBindings(h, slots, m, t.items);
  }

  // ----- a save that cannot be restored -----

  /** A definition named `p`, held by a slot named `q`. */
  function MisnamedHeap(): Heap { [Live(1, RecordDef("p", ["x"]), Span(0, 0))] }

  function MisnamedSlots(): seq<SlotEntry> { [SlotEntry("q", Some(Obj(0)), true, Some(1))] }

  /** Saving accepts an overlay that restoring then refuses. */
  lemma MisnamedIsSaved()
    ensures Saved(MisnamedHeap(), MisnamedSlots(), Tables(["q"], [0]), 128)
    ensures !NamedAlike(MisnamedHeap(), MisnamedSlots())
  {
    var h, slots := MisnamedHeap(), MisnamedSlots();
    var s := slots[0];
    assert SlotName("q") by {
      assert "q"[1..] == "";
    }
    assert SimpleName("x") && SimpleName("p");
    assert SlotName("p") by {
      assert "p"[1..] == "";
    }
    var empty := Tables([], []);
    assert AddSymbol(empty, "q") == Found(Tables(["q"], [])) by {
      assert empty.symbols + ["q"] == ["q"];
    }
    assert Visit(h, Obj(0), Tables(["q"], []), [], 128) == Found(Tables(["q"], [0])) by {
      assert Tables(["q"], []).items + [0] == [0];
    }
    assert CollectSlot(h, s, empty, 128) == Found(Tables(["q"], [0]));
    assert slots[1..] == [];
    assert Collect(h, slots, 128) == Found(Tables(["q"], [0]));
    assert DefReady("p", ["x"]);
    assert !NamedAlikeAt(h, s);
  }
}

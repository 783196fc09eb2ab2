/**
 Saving is blind to the names of objects: the same overlay under other names is walked in
 the same order, and makes the same payload.
 */
module Resave {
  import opened Bytes
  import opened Ir
  import opened Values
  import opened Heap
  import opened Interp
  import opened Sim
  import opened Runtime
  import opened Ownership
  import opened Names
  import opened Image
  import opened Encoder
  import opened Collector
  import opened Decoder
  import opened Restore
  import opened Snapshot
  import opened RoundTrip

  function MapI(r: map<nat, nat>, ids: seq<nat>): (s: seq<nat>)
    ensures |s| == |ids|
  {
    seq(|ids|, k requires 0 <= k < |ids| => if ids[k] in r then r[ids[k]] else 0)
  }

  function MapT(r: map<nat, nat>, t: Tables): Tables { Tables(t.symbols, MapI(r, t.items)) }

  function MapC(r: map<nat, nat>, c: Collected): Collected {
    match c
    case Found(t) => Found(MapT(r, t))
    case Refused(err) => Refused(err)
  }

  predicate AllIn(r: map<nat, nat>, ids: seq<nat>) { forall k :: 0 <= k < |ids| ==> ids[k] in r }

  lemma MapIn(r: map<nat, nat>, ids: seq<nat>, id: nat)
    requires Injective(r) && AllIn(r, ids) && id in r
    ensures r[id] in MapI(r, ids) <==> id in ids
  {
    if id in ids {
      var k :| 0 <= k < |ids| && ids[k] == id;
      assert MapI(r, ids)[k] == r[id];
    }
    if r[id] in MapI(r, ids) {
      var k :| 0 <= k < |ids| && MapI(r, ids)[k] == r[id];
      assert r[ids[k]] == r[id];
    }
  }

  lemma MapAppend(r: map<nat, nat>, ids: seq<nat>, id: nat)
    requires id in r
    ensures MapI(r, ids + [id]) == MapI(r, ids) + [r[id]]
  {
  }

  lemma MapPath(h: Heap, g: Heap, r: map<nat, nat>, stack: seq<nat>)
    requires Renaming(h, g, r) && AllIn(r, stack) && Path(stack, |h|)
    ensures Path(MapI(r, stack), |g|)
  {
    var s := MapI(r, stack);
    forall k | 0 <= k < |s| ensures s[k] < |g| {
      assert RenamedAt(h, g, r, stack[k]);
    }
    forall j, k | 0 <= j < k < |s| ensures s[j] != s[k] {
      assert stack[j] in r && stack[k] in r;
    }
  }

  /** What a walk over the renamed heap must find, and that it stays among the named objects. */
  ghost predicate Follows(r: map<nat, nat>, renamed: Collected, plain: Collected) {
    renamed == MapC(r, plain) && (plain.Found? ==> AllIn(r, plain.tables.items))
  }

  lemma FollowsThen(r: map<nat, nat>, renamed: Collected, plain: Collected, id: nat, capacity: nat)
    requires Follows(r, renamed, plain) && id in r
    ensures Follows(r, Then(renamed, r[id], capacity), Then(plain, id, capacity))
  {
    if plain.Found? {
      MapAppend(r, plain.tables.items, id);
    }
  }

  lemma AddSymbolBlind(t: Tables, s: Tables, name: string)
    requires t.symbols == s.symbols
    ensures AddSymbol(t, name).Found? == AddSymbol(s, name).Found?
    ensures AddSymbol(t, name).Refused? ==> AddSymbol(t, name) == AddSymbol(s, name)
    ensures AddSymbol(t, name).Found? ==>
      AddSymbol(t, name).tables.items == t.items && AddSymbol(s, name).tables == AddSymbol(t, name).tables.(items := s.items)
  {
  }

  lemma {:induction false} AddSymbolsBlind(t: Tables, s: Tables, names: seq<string>)
    requires t.symbols == s.symbols
    ensures AddSymbols(t, names).Found? == AddSymbols(s, names).Found?
    ensures AddSymbols(t, names).Refused? ==> AddSymbols(t, names) == AddSymbols(s, names)
    ensures AddSymbols(t, names).Found? ==>
      AddSymbols(t, names).tables.items == t.items && AddSymbols(s, names).tables == AddSymbols(t, names).tables.(items := s.items)
    decreases |names|
  {
    hide AddSymbol;
    if names != [] {
      AddSymbolBlind(t, s, names[0]);
      if AddSymbol(t, names[0]).Found? {
        AddSymbolsBlind(AddSymbol(t, names[0]).tables, AddSymbol(s, names[0]).tables, names[1..]);
      }
    }
  }

  lemma VisitRenamed(h: Heap, g: Heap, r: map<nat, nat>, v: Values.Value, t: Tables, stack: seq<nat>, capacity: nat)
    requires Renaming(h, g, r) && Path(stack, |h|) && AllIn(r, stack) && AllIn(r, t.items) && Known(r, v)
    ensures Path(MapI(r, stack), |g|)
    ensures Follows(r, Visit(g, MapV(r, v), MapT(r, t), MapI(r, stack), capacity), Visit(h, v, t, stack, capacity))
    decreases |h| - |stack|, IsCells(h, v), 1
  {
    hide Renaming, MapI, AddSymbols, VisitAll, VisitRecord, Then, AddItem, MapS, AllKnown, Path, NodesSymbols, Injective;
    PathFits(stack, |h|);
    MapPath(h, g, r, stack);
    if v.Obj? {
      RenamedHere(h, g, r, v.id);
      MapIn(r, stack, v.id);
      MapIn(r, t.items, v.id);
      if !(h[v.id].obj.Record? && v.id in stack) && v.id !in t.items {
        match h[v.id].obj {
          case Text(_) =>
            LeafFollows(r, t, v.id, capacity);
          case RecordDef(_, _) =>
            LeafFollows(r, t, v.id, capacity);
          case Native(_, _) =>
          case Code(program, _, _, _) =>
            CodeFollows(r, t, program.nodes, v.id, capacity);
          case Cells(values) =>
            ChildrenOfCells(values);
            VisitAllRenamed(h, g, r, values, t, stack, capacity);
            FollowsThen(r, VisitAll(g, MapS(r, values), MapT(r, t), MapI(r, stack), capacity), VisitAll(h, values, t, stack, capacity), v.id, capacity);
          case Record(_, _) =>
            VisitRecordRenamed(h, g, r, v.id, t, stack, capacity);
        }
      }
    }
  }

  lemma RenamedHere(h: Heap, g: Heap, r: map<nat, nat>, i: nat)
    requires Renaming(h, g, r) && i in r
    ensures RenamedAt(h, g, r, i) && Injective(r)
  {
    hide RenamedAt;
  }

  lemma ChildrenOfCells(values: seq<Values.Value>)
    ensures Children(Cells(values)) == values
  {
  }

  lemma LeafFollows(r: map<nat, nat>, t: Tables, id: nat, capacity: nat)
    requires id in r && AllIn(r, t.items)
    ensures Follows(r, AddItem(MapT(r, t), r[id], capacity), AddItem(t, id, capacity))
  {
    FollowsThen(r, Found(MapT(r, t)), Found(t), id, capacity);
  }

  lemma CodeFollows(r: map<nat, nat>, t: Tables, ns: seq<Node>, id: nat, capacity: nat)
    requires id in r && AllIn(r, t.items)
    ensures Follows(r, Then(AddSymbols(MapT(r, t), NodesSymbols(ns)), r[id], capacity), Then(AddSymbols(t, NodesSymbols(ns)), id, capacity))
  {
    hide AddSymbols, NodesSymbols, MapI;
    AddSymbolsBlind(t, MapT(r, t), NodesSymbols(ns));
    FollowsThen(r, AddSymbols(MapT(r, t), NodesSymbols(ns)), AddSymbols(t, NodesSymbols(ns)), id, capacity);
  }

  lemma VisitRecordRenamed(h: Heap, g: Heap, r: map<nat, nat>, id: nat, t: Tables, stack: seq<nat>, capacity: nat)
    requires Renaming(h, g, r) && Path(stack, |h|) && AllIn(r, stack) && AllIn(r, t.items) && id in r
    requires IsLive(h, id) && h[id].obj.Record? && id !in stack
    ensures Path(MapI(r, stack), |g|) && IsLive(g, r[id]) && g[r[id]].obj.Record? && r[id] !in MapI(r, stack)
    ensures Follows(r, VisitRecord(g, r[id], MapT(r, t), MapI(r, stack), capacity), VisitRecord(h, id, t, stack, capacity))
    decreases |h| - |stack|, 0, 0
  {
    hide Renaming, MapI, VisitAll, Visit, VisitRecord, Then, MapS, Path, Injective, Follows, Known;
    PathFits(stack, |h|);
    PathPush(stack, |h|, id);
    MapPath(h, g, r, stack);
    RenamedHere(h, g, r, id);
    MapIn(r, stack, id);
    MapAppend(r, stack, id);
    PathPush(MapI(r, stack), |g|, r[id]);
    var deeper := stack + [id];
    var o := h[id].obj;
    RecordChildren(r, o.definition, o.fields);
    VisitRecordIs(h, id, t, stack, capacity);
    VisitRecordIs(g, r[id], MapT(r, t), MapI(r, stack), capacity);
    VisitRenamed(h, g, r, o.definition, t, deeper, capacity);
    var first := Visit(h, o.definition, t, deeper, capacity);
    var first2 := Visit(g, MapV(r, o.definition), MapT(r, t), MapI(r, deeper), capacity);
    FollowsUse(r, first2, first);
    if first.Found? {
      VisitAllRenamed(h, g, r, o.fields, first.tables, deeper, capacity);
      FollowsThen(r, VisitAll(g, MapS(r, o.fields), MapT(r, first.tables), MapI(r, deeper), capacity),
        VisitAll(h, o.fields, first.tables, deeper, capacity), id, capacity);
    }
  }

  lemma RecordChildren(r: map<nat, nat>, definition: Values.Value, fields: seq<Values.Value>)
    requires AllKnown(r, Children(Record(definition, fields)))
    ensures Known(r, definition) && AllKnown(r, fields)
  {
    var all := Children(Record(definition, fields));
    assert all[|fields|] == definition;
    forall v | v in fields ensures Known(r, v) {
      assert v in all;
    }
  }

  lemma FollowsUse(r: map<nat, nat>, renamed: Collected, plain: Collected)
    requires Follows(r, renamed, plain)
    ensures plain.Refused? ==> renamed == plain
    ensures plain.Found? ==> renamed == Found(MapT(r, plain.tables)) && AllIn(r, plain.tables.items)
  {
  }

  lemma FollowsMake(r: map<nat, nat>, t: Tables)
    requires AllIn(r, t.items)
    ensures Follows(r, Found(MapT(r, t)), Found(t))
    ensures forall err :: Follows(r, Refused(err), Refused(err))
  {
  }

  lemma VisitAllRenamed(h: Heap, g: Heap, r: map<nat, nat>, vs: seq<Values.Value>, t: Tables, stack: seq<nat>, capacity: nat)
    requires Renaming(h, g, r) && Path(stack, |h|) && AllIn(r, stack) && AllIn(r, t.items) && AllKnown(r, vs)
    ensures Path(MapI(r, stack), |g|)
    ensures Follows(r, VisitAll(g, MapS(r, vs), MapT(r, t), MapI(r, stack), capacity), VisitAll(h, vs, t, stack, capacity))
    decreases |h| - |stack|, 1, |vs|
  {
    hide Renaming, MapI, Visit, MapS, Path, Injective, Follows, AllKnown;
    PathFits(stack, |h|);
    MapPath(h, g, r, stack);
    FollowsMake(r, t);
    MapTail(r, vs);
    if vs != [] {
      var v, rest := vs[0], vs[1..];
      if v.Obj? {
        RenamedHere(h, g, r, v.id);
        if h[v.id].obj.Text? || h[v.id].obj.Record? {
          VisitRenamed(h, g, r, v, t, stack, capacity);
          var first := Visit(h, v, t, stack, capacity);
          FollowsUse(r, Visit(g, MapV(r, v), MapT(r, t), MapI(r, stack), capacity), first);
          if first.Found? {
            VisitAllRenamed(h, g, r, rest, first.tables, stack, capacity);
          }
        }
      } else {
        VisitAllRenamed(h, g, r, rest, t, stack, capacity);
      }
    }
  }

  lemma MapTail(r: map<nat, nat>, vs: seq<Values.Value>)
    requires AllKnown(r, vs)
    ensures |MapS(r, vs)| == |vs|
    ensures vs != [] ==> MapS(r, vs)[0] == MapV(r, vs[0]) && MapS(r, vs)[1..] == MapS(r, vs[1..]) && Known(r, vs[0]) && AllKnown(r, vs[1..])
  {
  }

  lemma {:induction false} CollectFromRenamed(h: Heap, s: seq<SlotEntry>, g: Heap, s2: seq<SlotEntry>, r: map<nat, nat>, t: Tables, capacity: nat)
    requires Renaming(h, g, r) && SameSlots(s, s2, r) && AllIn(r, t.items)
    ensures Follows(r, CollectFrom(g, s2, MapT(r, t), capacity), CollectFrom(h, s, t, capacity))
    decreases |s|
  {
    hide Renaming, MapI, Visit, AddSymbol, Follows, CollectSlot, RenamedSlot;
    FollowsMake(r, t);
    if s != [] {
      assert RenamedSlot(s[0], s2[0], r);
      CollectSlotRenamed(h, s[0], g, s2[0], r, t, capacity);
      FollowsUse(r, CollectSlot(g, s2[0], MapT(r, t), capacity), CollectSlot(h, s[0], t, capacity));
      if CollectSlot(h, s[0], t, capacity).Found? {
        assert forall k :: 0 <= k < |s[1..]| ==> s[1..][k] == s[k + 1] && s2[1..][k] == s2[k + 1];
        CollectFromRenamed(h, s[1..], g, s2[1..], r, CollectSlot(h, s[0], t, capacity).tables, capacity);
      }
    }
  }

  lemma CollectSlotRenamed(h: Heap, s: SlotEntry, g: Heap, s2: SlotEntry, r: map<nat, nat>, t: Tables, capacity: nat)
    requires Renaming(h, g, r) && RenamedSlot(s, s2, r) && AllIn(r, t.items)
    ensures Follows(r, CollectSlot(g, s2, MapT(r, t), capacity), CollectSlot(h, s, t, capacity))
  {
    hide Renaming, MapI, Visit, AddSymbol, Follows;
    FollowsMake(r, t);
    if Bound(s) {
      AddSymbolBlind(t, MapT(r, t), s.name);
      if AddSymbol(t, s.name).Found? {
        var named := AddSymbol(t, s.name).tables;
        VisitRenamed(h, g, r, s.impl.value, named, [], capacity);
        NothingMapped(r);
      } else {
        FollowsMake(r, t);
      }
    }
  }

  lemma NothingMapped(r: map<nat, nat>)
    ensures MapI(r, []) == []
  {
  }

  // ----- the image -----

  lemma {:induction false} IndexRenamed(r: map<nat, nat>, items: seq<nat>, id: nat)
    requires Injective(r) && AllIn(r, items) && id in r
    ensures ItemIndex(MapI(r, items), r[id]) == ItemIndex(items, id)
  {
    if items != [] {
      assert MapI(r, items)[1..] == MapI(r, items[1..]);
      assert items[0] in r;
      IndexRenamed(r, items[1..], id);
    }
  }

  lemma DatumRenamed(r: map<nat, nat>, items: seq<nat>, v: Values.Value)
    requires Injective(r) && AllIn(r, items) && Known(r, v)
    ensures DatumOf(MapV(r, v), MapI(r, items)) == DatumOf(v, items)
  {
    hide MapI, ItemIndex, Injective, AllIn;
    if v.Obj? {
      IndexRenamed(r, items, v.id);
    }
  }

  lemma DataRenamed(r: map<nat, nat>, items: seq<nat>, vs: seq<Values.Value>)
    requires Injective(r) && AllIn(r, items) && AllKnown(r, vs)
    ensures DataOf(MapS(r, vs), MapI(r, items)) == DataOf(vs, items)
  {
    hide MapI, DatumOf, Injective, AllIn, MapV;
    forall k | 0 <= k < |vs| ensures DataOf(MapS(r, vs), MapI(r, items))[k] == DataOf(vs, items)[k] {
      DatumRenamed(r, items, vs[k]);
    }
  }

  lemma EntryRenamed(r: map<nat, nat>, items: seq<nat>, o: Object)
    requires Injective(r) && AllIn(r, items) && AllKnown(r, Children(o))
    ensures EntryOf(MapO(r, o), MapI(r, items)) == EntryOf(o, items)
  {
    hide MapI, DataOf, Injective, AllIn, MapS, ItemIndex, AllKnown;
    match o {
      case Cells(values) =>
        ChildrenOfCells(values);
        DataRenamed(r, items, values);
      case Record(definition, fields) =>
        RecordChildren(r, definition, fields);
        DataRenamed(r, items, fields);
        if definition.Obj? {
          IndexRenamed(r, items, definition.id);
        }
      case _ =>
    }
  }

  lemma EntriesRenamed(h: Heap, g: Heap, r: map<nat, nat>, items: seq<nat>)
    requires Renaming(h, g, r) && AllIn(r, items)
    ensures EntriesOf(g, MapI(r, items), 0) == EntriesOf(h, items, 0)
  {
    hide EntryOf, Renaming, Injective, MapO, EntriesOf, AllKnown;
    EntriesLength(h, items);
    EntriesLength(g, MapI(r, items));
    forall k | 0 <= k < |items| ensures EntriesOf(g, MapI(r, items), 0)[k] == EntriesOf(h, items, 0)[k] {
      RenamedHere(h, g, r, items[k]);
      EntryAt(h, items, k);
      EntryAt(g, MapI(r, items), k);
      ObjectLive(h, items[k]);
      ObjectLive(g, r[items[k]]);
      EntryRenamed(r, items, h[items[k]].obj);
    }
  }

  lemma {:induction false} BindingsRenamed(s: seq<SlotEntry>, s2: seq<SlotEntry>, r: map<nat, nat>, symbols: seq<string>, items: seq<nat>)
    requires SameSlots(s, s2, r) && Injective(r) && AllIn(r, items)
    ensures BindingsOf(s2, symbols, MapI(r, items)) == BindingsOf(s, symbols, items)
  {
    hide MapI, Injective, AllIn, DatumOf, SymbolIndex, MapV;
    if s != [] {
      assert RenamedSlot(s[0], s2[0], r);
      assert forall k :: 0 <= k < |s[1..]| ==> s[1..][k] == s[k + 1] && s2[1..][k] == s2[k + 1];
      BindingsRenamed(s[1..], s2[1..], r, symbols, items);
      if Bound(s[0]) {
        DatumRenamed(r, items, s[0].impl.value);
      }
    }
  }

  // ----- what could be written can be written again -----

  lemma InnerRenamed(h: Heap, g: Heap, r: map<nat, nat>, items: seq<nat>, v: Values.Value)
    requires Renaming(h, g, r) && AllIn(r, items) && Inner(h, v, items)
    ensures Inner(g, MapV(r, v), MapI(r, items))
  {
    hide MapI, Renaming;
    if v.Obj? {
      ItemNamed(r, items, v.id);
      RenamedHere(h, g, r, v.id);
      MapIn(r, items, v.id);
    }
  }

  lemma ItemNamed(r: map<nat, nat>, items: seq<nat>, id: nat)
    requires AllIn(r, items) && id in items
    ensures id in r
  {
  }

  lemma AllInnerRenamed(h: Heap, g: Heap, r: map<nat, nat>, items: seq<nat>, vs: seq<Values.Value>)
    requires Renaming(h, g, r) && AllIn(r, items) && AllInner(h, vs, items)
    ensures AllInner(g, MapS(r, vs), MapI(r, items))
  {
    hide MapI, Renaming, Inner, MapV, AllIn;
    forall k | 0 <= k < |vs| ensures Inner(g, MapS(r, vs)[k], MapI(r, items)) {
      assert Inner(h, vs[k], items);
      InnerRenamed(h, g, r, items, vs[k]);
    }
  }

  lemma WritableRenamed(h: Heap, s: seq<SlotEntry>, g: Heap, s2: seq<SlotEntry>, r: map<nat, nat>, t: Tables)
    requires SameOverlay(h, s, g, s2, r) && AllIn(r, t.items) && Writable(h, s, t.symbols, t.items)
    ensures Writable(g, s2, t.symbols, MapI(r, t.items))
  {
    hide Renaming, ObjectWritable, SlotWritable, MapI, RenamedSlot, MapO;
    var items := MapI(r, t.items);
    forall i | 0 <= i < |items| ensures IsLive(g, items[i]) && ObjectWritable(g, g[items[i]].obj, t.symbols, items) {
      MapAt(r, t.items, i);
      RenamedHere(h, g, r, t.items[i]);
      ObjectWritableRenamed(h, g, r, t, h[t.items[i]].obj);
    }
    forall i | 0 <= i < |s2| ensures SlotWritable(g, s2[i], t.symbols, items) {
      assert SlotWritable(h, s[i], t.symbols, t.items) && RenamedSlot(s[i], s2[i], r);
      SlotWritableRenamed(h, g, r, t, s[i], s2[i]);
    }
  }

  lemma MapAt(r: map<nat, nat>, ids: seq<nat>, i: nat)
    requires i < |ids| && AllIn(r, ids)
    ensures ids[i] in r && MapI(r, ids)[i] == r[ids[i]]
  {
  }

  lemma ObjectWritableRenamed(h: Heap, g: Heap, r: map<nat, nat>, t: Tables, o: Object)
    requires Renaming(h, g, r) && AllIn(r, t.items) && ObjectWritable(h, o, t.symbols, t.items)
    ensures ObjectWritable(g, MapO(r, o), t.symbols, MapI(r, t.items))
  {
    hide Renaming, MapI, AllInner, NodesWritable, DefReady, MapS, AllIn;
    match o {
      case Cells(values) =>
        AllInnerRenamed(h, g, r, t.items, values);
      case Record(definition, fields) =>
        AllInnerRenamed(h, g, r, t.items, fields);
        ItemNamed(r, t.items, definition.id);
        RenamedHere(h, g, r, definition.id);
        MapIn(r, t.items, definition.id);
      case _ =>
    }
  }

  lemma SlotWritableRenamed(h: Heap, g: Heap, r: map<nat, nat>, t: Tables, s: SlotEntry, s2: SlotEntry)
    requires Renaming(h, g, r) && AllIn(r, t.items) && SlotWritable(h, s, t.symbols, t.items) && RenamedSlot(s, s2, r)
    ensures SlotWritable(g, s2, t.symbols, MapI(r, t.items))
  {
    hide Renaming, MapI, AllIn;
    if Bound(s) && s.impl.value.Obj? {
      RenamedHere(h, g, r, s.impl.value.id);
      MapIn(r, t.items, s.impl.value.id);
    }
  }

  /**
   Saving again what was restored: the walk finds the same symbols and the same objects
   under their new names, the writer accepts them, and the payload is the same to the byte.
   */
  lemma SavedAgain(h: Heap, slots: seq<SlotEntry>, t: Tables, capacity: nat, g: Heap, s2: seq<SlotEntry>, r: map<nat, nat>)
    requires Saved(h, slots, t, capacity) && SameOverlay(h, slots, g, s2, r) && |g| <= capacity && AllIn(r, t.items)
    ensures Collect(g, s2, capacity) == Found(MapT(r, t))
    ensures Writable(g, s2, t.symbols, MapI(r, t.items))
    ensures Payload(ImageOf(g, s2, t.symbols, MapI(r, t.items))) == Payload(ImageOf(h, slots, t.symbols, t.items))
  {
    hide CollectFrom, Renaming, SameSlots, Writable, MapI, EntriesOf, BindingsOf, Payload, Sound, SlotsSound, AllIn, Injective;
    NothingNamed(r);
    CollectFromRenamed(h, slots, g, s2, r, Tables([], []), capacity);
    FollowsUse(r, CollectFrom(g, s2, Tables([], []), capacity), CollectFrom(h, slots, Tables([], []), capacity));
    WritableRenamed(h, slots, g, s2, r, t);
    EntriesRenamed(h, g, r, t.items);
    RenamingInjective(h, g, r);
    BindingsRenamed(slots, s2, r, t.symbols, t.items);
  }

  lemma RenamingInjective(h: Heap, g: Heap, r: map<nat, nat>)
    requires Renaming(h, g, r)
    ensures Injective(r)
  {
    hide RenamedAt;
  }

  lemma NothingNamed(r: map<nat, nat>)
    ensures MapT(r, Tables([], [])) == Tables([], []) && AllIn(r, [])
  {
    NothingMapped(r);
  }

  lemma RenamesAll(items: seq<nat>, objects: seq<Values.Value>)
    ensures AllIn(Renames(items, objects), items)
  {
  }
}

/**
 Saving an overlay and restoring it: what the collector, the writer, the validator and
 the decoder add up to.
 */
module Snapshot {
  import opened Bytes
  import opened Ir
  import opened Values
  import opened Heap
  import opened Interp
  import opened Sim
  import opened Runtime
  import opened Ownership
  import opened Names
  import opened Image
  import opened Encoder
  import opened Collector
  import opened Decoder
  import opened Restore

  // ----- heaps the runtime makes -----

  /** Programs as the parser and the decoder make them: every reference stays inside the
      program, and nothing is too large for a word. */
  ghost predicate ProgramSound(p: Program) {
    && |p.literals| <= LITERAL_CAPACITY && |p.nodes| <= NODE_CAPACITY && |p.links| <= LINK_CAPACITY
    && p.root < |p.nodes| && Small(p.rootLocalCount)
    && (forall i :: 0 <= i < |p.literals| ==> LiteralReady(p.literals[i]))
    && (forall i :: 0 <= i < |p.nodes| ==> NodeSound(p, p.nodes[i]))
    && Linking(p)
  }

  ghost predicate NodeSound(p: Program, n: Node) {
    && RefersBelow(p, n, |p.nodes|) && Spelled(p, n)
    && match n
       case ReadLocal(l) => Small(l)
       case WriteLocal(l, _) => Small(l)
       case Fn(arity, locals, _) => arity <= locals && Small(locals)
       case _ => true
  }

  /** Objects as the allocators and the parser make them. */
  ghost predicate ObjectSound(h: Heap, o: Object) {
    match o
    case Text(text) => Chars(text)
    case Cells(values) => 0 < |values| < WORD
    case Code(p, body, arity, locals) => arity <= locals && Small(locals) && body < |p.nodes| && ProgramSound(p)
    case Record(definition, fields) =>
      && 0 < |fields|
      && definition.Obj? && IsLive(h, definition.id) && h[definition.id].obj.RecordDef?
      && |h[definition.id].obj.fieldNames| == |fields|
    case _ => true
  }

  ghost predicate Sound(h: Heap) { forall i {:trigger h[i]} :: 0 <= i < |h| && h[i].Live? ==> ObjectSound(h, h[i].obj) }

  predicate SlotsSound(slots: seq<SlotEntry>) {
    |slots| < WORD
  }

  lemma SoundDefined(h: Heap)
    requires Sound(h)
    ensures Defined(h)
  {
    hide ProgramSound, Chars;
    forall i {:trigger h[i]} | 0 <= i < |h| && h[i].Live? && h[i].obj.Record?
      ensures var d := h[i].obj.definition; d.Obj? && IsLive(h, d.id) && h[d.id].obj.RecordDef?
    {
      assert ObjectSound(h, h[i].obj);
    }
  }

  // ----- what is saved can be read back -----

  /** The conditions under which a payload was written. */
  ghost predicate Saved(h: Heap, slots: seq<SlotEntry>, t: Tables, capacity: nat) {
    && Sound(h) && SlotsSound(slots) && |h| <= capacity < WORD
    && Collect(h, slots, capacity) == Found(t)
    && Writable(h, slots, t.symbols, t.items)
  }

  lemma EntryAt(h: Heap, items: seq<nat>, k: nat)
    requires k < |items|
    ensures EntriesOf(h, items, 0)[k] == EntryOf(ObjectAt(h, items[k]), items)
  {
    hide EntryOf;
  }

  lemma DatumSaved(h: Heap, t: Tables, v: Values.Value, k: nat)
    requires k <= |t.items| && Inner(h, v, t.items[..k])
    ensures DatumReady(DatumOf(v, t.items), EntriesOf(h, t.items, 0), k)
  {
    if v.Obj? {
      var n :| 0 <= n < k && t.items[..k][n] == v.id;
      IndexOfItem(t.items, n);
      EntryAt(h, t.items, ItemIndex(t.items, v.id));
    }
  }

  lemma DataSaved(h: Heap, t: Tables, vs: seq<Values.Value>, k: nat)
    requires k <= |t.items| && AllInner(h, vs, t.items[..k])
    ensures DataReady(DataOf(vs, t.items), EntriesOf(h, t.items, 0), k)
  {
    hide Inner, DatumOf, DatumReady, EntriesOf;
    EntriesLength(h, t.items);
    forall j | 0 <= j < |vs|
      ensures DatumReady(DatumOf(vs[j], t.items), EntriesOf(h, t.items, 0), k)
    {
      assert Inner(h, vs[j], t.items[..k]);
      DatumSaved(h, t, vs[j], k);
    }
  }

  lemma NodeSaved(n: Node, p: Program, symbols: seq<string>)
    requires NodeSound(p, n) && NodeWritable(n, symbols)
    ensures NodeReady(n, p, symbols)
  {
    hide SimpleName;
  }

  lemma ProgramSaved(p: Program, symbols: seq<string>)
    requires ProgramSound(p) && NodesWritable(p.nodes, symbols) && |symbols| < WORD
    ensures ProgramReady(p, symbols)
  {
    hide NodeReady, LiteralReady, NodeSound, NodeWritable;
    forall i | 0 <= i < |p.nodes| ensures NodeReady(p.nodes[i], p, symbols) && !p.nodes[i].RecordDefNode? {
      assert NodeWritable(p.nodes[i], symbols) && NodeSound(p, p.nodes[i]);
      NotRecordDef(p.nodes[i], symbols);
      NodeSaved(p.nodes[i], p, symbols);
    }
  }

  lemma NotRecordDef(n: Node, symbols: seq<string>)
    requires NodeWritable(n, symbols)
    ensures !n.RecordDefNode?
  {
  }

  lemma RecordSaved(h: Heap, t: Tables, k: nat, definition: Values.Value, fields: seq<Values.Value>)
    requires k <= |t.items| && ObjectSound(h, Record(definition, fields)) && Closed(h, Record(definition, fields), t.symbols, t.items[..k])
    requires DefReady(h[definition.id].obj.name, h[definition.id].obj.fieldNames)
    ensures EntryReady(EntryOf(Record(definition, fields), t.items), EntriesOf(h, t.items, 0), k, t.symbols)
  {
    hide DataReady, DataOf, AllInner, FieldReady, SlotName, Distinct;
    DataSaved(h, t, fields, k);
    var n :| 0 <= n < k && t.items[..k][n] == definition.id;
    IndexOfItem(t.items, n);
    EntryAt(h, t.items, ItemIndex(t.items, definition.id));
    DataLength(fields, t.items);
    EntriesLength(h, t.items);
  }

  lemma DataLength(vs: seq<Values.Value>, items: seq<nat>)
    ensures |DataOf(vs, items)| == |vs|
  {
  }

  lemma EntrySaved(h: Heap, slots: seq<SlotEntry>, t: Tables, capacity: nat, k: nat)
    requires Saved(h, slots, t, capacity) && Ordered(h, t) && k < |t.items|
    ensures EntryReady(EntryOf(h[t.items[k]].obj, t.items), EntriesOf(h, t.items, 0), k, t.symbols)
  {
    hide Collect, SlotsSound, DataReady, DataOf, AllInner, ProgramReady, ProgramSound, NodesWritable, NodeSymbols,
      DefReady, SymbolsReady, SlotWritable, Chars, EntriesOf;
    EntriesLength(h, t.items);
    assert ItemOk(h, t, k);
    var o := h[t.items[k]].obj;
    assert ObjectWritable(h, o, t.symbols, t.items);
    SymbolsFewer(t.symbols);
    match o {
      case Cells(values) =>
        DataSaved(h, t, values, k);
        DataLength(values, t.items);
      case Code(p, _, _, _) =>
        ProgramSaved(p, t.symbols);
      case Record(definition, fields) =>
        var n :| 0 <= n < k && t.items[..k][n] == definition.id;
        assert t.items[n] == definition.id;
        assert ObjectWritable(h, h[t.items[n]].obj, t.symbols, t.items);
        RecordSaved(h, t, k, definition, fields);
      case _ =>
    }
  }

  lemma SymbolsFewer(ss: seq<string>)
    ensures SymbolsReady(ss) ==> |ss| < WORD
  {
    hide SymbolReady, Distinct;
  }

  lemma {:induction false} BindingsSaved(h: Heap, slots: seq<SlotEntry>, m: Image, items: seq<nat>)
    requires forall i :: 0 <= i < |slots| ==> SlotWritable(h, slots[i], m.symbols, items)
    requires |m.entries| == |items|
    ensures var bs := BindingsOf(slots, m.symbols, items);
      |bs| <= |slots| && forall i :: 0 <= i < |bs| ==> BindingReady(bs[i], m)
  {
    hide SymbolIndex, ItemIndex;
    if slots != [] {
      assert forall i :: 0 <= i < |slots| - 1 ==> slots[1..][i] == slots[i + 1];
      BindingsSaved(h, slots[1..], m, items);
      assert SlotWritable(h, slots[0], m.symbols, items);
    }
  }

  /** Every payload that the writer completes is one the validator accepts. */
  lemma SavedReady(h: Heap, slots: seq<SlotEntry>, t: Tables, capacity: nat)
    requires Saved(h, slots, t, capacity)
    ensures Ordered(h, t)
    ensures Ready(ImageOf(h, slots, t.symbols, t.items), capacity)
  {
    hide Collect, EntryReady, BindingReady, EntryOf, EntriesOf, BindingsOf, SymbolsReady, Closed, Bound, SlotWritable,
      ObjectWritable, SlotsSound, Sound;
    SoundDefined(h);
    CollectOk(h, slots, capacity);
    var m := ImageOf(h, slots, t.symbols, t.items);
    EntriesLength(h, t.items);
    forall k | 0 <= k < |m.entries| ensures EntryReady(m.entries[k], m.entries, k, m.symbols) {
      assert ItemOk(h, t, k);
      EntryAt(h, t.items, k);
      ObjectLive(h, t.items[k]);
      EntrySaved(h, slots, t, capacity, k);
    }
    SlotsFit(slots);
    BindingsSaved(h, slots, m, t.items);
    ItemsFew(h, t);
  }

  lemma ObjectLive(h: Heap, id: nat)
    requires IsLive(h, id)
    ensures ObjectAt(h, id) == h[id].obj
  {
  }

  lemma SlotsFit(slots: seq<SlotEntry>)
    requires SlotsSound(slots)
    ensures |slots| < WORD
  {
  }

  lemma ItemsFew(h: Heap, t: Tables)
    requires Ordered(h, t)
    ensures |t.items| <= |h| && SymbolsReady(t.symbols)
  {
    hide Closed, SymbolsReady;
    forall k | 0 <= k < |t.items| ensures t.items[k] < |h| {
      assert ItemOk(h, t, k);
    }
    PathFits(t.items, |h|);
  }

  // ----- everything saved is reached from a binding -----

  /** Entry `e` refers to entry `k`. */
  predicate Mentions(e: Entry, k: nat) {
    match e
    case CellsEntry(items) => RefDatum(k) in items
    case RecordEntry(definition, values) => definition == k || RefDatum(k) in values
    case _ => false
  }

  ghost predicate Rooted(m: Image) {
    forall k :: 0 <= k < |m.entries| ==> RootedAt(m, k)
  }

  ghost predicate RootedAt(m: Image, k: nat) {
    || (exists i :: 0 <= i < |m.bindings| && m.bindings[i].value == RefDatum(k))
    || (exists j :: k < j < |m.entries| && Mentions(m.entries[j], k))
  }

  lemma IndexOfDistinct(items: seq<nat>, k: nat)
    requires k < |items| && forall i, j :: 0 <= i < j < |items| ==> items[i] != items[j]
    ensures ItemIndex(items, items[k]) == k
  {
    IndexOfItem(items, k);
    var n := ItemIndex(items, items[k]);
    assert items[n] == items[k];
  }

  lemma MentionsSaved(h: Heap, t: Tables, j: nat, k: nat)
    requires Ordered(h, t) && j < |t.items| && k < |t.items| && RefersTo(h, t.items[j], t.items[k])
    ensures Mentions(EntryOf(h[t.items[j]].obj, t.items), k)
  {
    hide SymbolsReady;
    assert ItemOk(h, t, j);
    IndexOfDistinct(t.items, k);
    var o := h[t.items[j]].obj;
    if o.Cells? {
      MentionsData(o.items, t.items, k);
    } else if o.Record? {
      if o.definition != Obj(t.items[k]) {
        MentionsData(o.fields, t.items, k);
      }
    }
  }

  lemma MentionsData(vs: seq<Values.Value>, items: seq<nat>, k: nat)
    requires k < |items| && Obj(items[k]) in vs && ItemIndex(items, items[k]) == k
    ensures RefDatum(k) in DataOf(vs, items)
  {
    var n :| 0 <= n < |vs| && vs[n] == Obj(items[k]);
    assert DataOf(vs, items)[n] == RefDatum(k);
  }

  lemma {:induction false} BoundMentioned(slots: seq<SlotEntry>, symbols: seq<string>, items: seq<nat>, k: nat)
    requires k < |items| && Obj(items[k]) in BoundValues(slots) && ItemIndex(items, items[k]) == k
    ensures exists i :: 0 <= i < |BindingsOf(slots, symbols, items)| && BindingsOf(slots, symbols, items)[i].value == RefDatum(k)
  {
    hide SymbolIndex;
    var bs := BindingsOf(slots, symbols, items);
    if Bound(slots[0]) && slots[0].impl.value == Obj(items[k]) {
      assert bs[0].value == RefDatum(k);
    } else {
      BoundMentioned(slots[1..], symbols, items, k);
      var rest := BindingsOf(slots[1..], symbols, items);
      var i :| 0 <= i < |rest| && rest[i].value == RefDatum(k);
      if Bound(slots[0]) {
        assert bs[i + 1] == rest[i];
      } else {
        assert bs[i] == rest[i];
      }
    }
  }

  lemma SavedRooted(h: Heap, slots: seq<SlotEntry>, t: Tables, capacity: nat)
    requires Collect(h, slots, capacity) == Found(t) && Ordered(h, t)
    ensures Rooted(ImageOf(h, slots, t.symbols, t.items))
  {
    hide CollectFrom, Needed, EntryOf, EntriesOf, BindingsOf, BoundValues, Mentions, Closed, SymbolsReady, RefersTo;
    var m := ImageOf(h, slots, t.symbols, t.items);
    EntriesLength(h, t.items);
    CollectFromNeeds(h, slots, Tables([], []), capacity);
    forall k | 0 <= k < |m.entries| ensures RootedAt(m, k) {
      IndexOfDistinct(t.items, k);
      if Needed(h, t.items, k) {
        NeededMentioned(h, t, m, k);
      } else {
        BoundMentioned(slots, t.symbols, t.items, k);
      }
    }
  }

  lemma NeededMentioned(h: Heap, t: Tables, m: Image, k: nat)
    requires Ordered(h, t) && k < |t.items| && Needed(h, t.items, k) && m.entries == EntriesOf(h, t.items, 0)
    ensures RootedAt(m, k)
  {
    hide EntryOf, EntriesOf, Mentions, Closed, SymbolsReady, RefersTo;
    var j :| k < j < |t.items| && RefersTo(h, t.items[j], t.items[k]);
    MentionsSaved(h, t, j, k);
    EntriesLength(h, t.items);
    EntryAt(h, t.items, j);
    assert ItemOk(h, t, j);
    ObjectLive(h, t.items[j]);
    assert Mentions(m.entries[j], k);
  }

  // ----- what is restored survives -----

  lemma MentionedChild(e: Entry, k: nat, objects: seq<Values.Value>)
    requires Mentions(e, k) && k < |objects|
    ensures objects[k] in Children(ObjectFrom(e, objects))
  {
    match e {
      case CellsEntry(items) =>
        var n :| 0 <= n < |items| && items[n] == RefDatum(k);
        assert ValuesOf(items, objects)[n] == objects[k];
      case RecordEntry(definition, values) =>
        if definition != k {
          var n :| 0 <= n < |values| && values[n] == RefDatum(k);
          assert ValuesOf(values, objects)[n] == objects[k];
          assert Children(ObjectFrom(e, objects))[n] == objects[k];
        }
    }
  }

  /** What a live object refers to is live. */
  lemma ChildAlive(h: Heap, owed: multiset<nat>, i: nat, v: Values.Value)
    requires Accurate(h, owed) && IsLive(h, i) && h[i].count > 0 && v in Children(h[i].obj) && v.Obj?
    ensures IsLive(h, v.id)
  {
    SumIncludes(CellRefs, h, i);
    RefsOf(Children(h[i].obj), v.id);
    assert v == Obj(v.id);
    assert v.id in CellRefs(h[i]) && CellRefs(h[i]) <= HeapRefs(h);
    assert Count(h, v.id) == (owed + HeapRefs(h))[v.id];
  }

  lemma StillThere(h: Heap, g: Heap, id: nat)
    requires Shrunk(h, g) && IsLive(h, id) && h[id].count > 0 && IsLive(g, id)
    ensures g[id].count > 0 && g[id].obj == h[id].obj
  {
    assert CellShrunk(h[id], g[id]);
  }

  lemma {:induction false} StandsRootedAt(h: Heap, g: Heap, objects: seq<Values.Value>, m: Image, owed: multiset<nat>, k: nat)
    requires Stands(h, objects, m.entries, |m.entries|) && Shrunk(h, g) && Accurate(g, owed) && Rooted(m)
    requires forall i :: 0 <= i < |m.bindings| && m.bindings[i].value.RefDatum? && m.bindings[i].value.index < |objects| ==>
      objects[m.bindings[i].value.index].Obj? && objects[m.bindings[i].value.index].id in owed
    requires k < |m.entries|
    ensures StandsAt(g, objects, m.entries, k)
    decreases |m.entries| - k
  {
    hide ObjectFrom, Mentions, Accurate, Shrunk;
    assert StandsAt(h, objects, m.entries, k);
    assert RootedAt(m, k);
    if i :| 0 <= i < |m.bindings| && m.bindings[i].value == RefDatum(k) {
      HeldIsLive(g, owed, objects[k]);
    } else {
      var j :| k < j < |m.entries| && Mentions(m.entries[j], k);
      StandsRootedAt(h, g, objects, m, owed, j);
      MentionedChild(m.entries[j], k, objects);
      ChildAlive(g, owed, objects[j].id, objects[k]);
    }
    StillThere(h, g, objects[k].id);
  }

  /** Once the anchors are gone, the bindings alone keep every restored object. */
  lemma StandsRooted(h: Heap, g: Heap, objects: seq<Values.Value>, m: Image, owed: multiset<nat>)
    requires Stands(h, objects, m.entries, |m.entries|) && Shrunk(h, g) && Accurate(g, owed) && Rooted(m)
    requires forall i :: 0 <= i < |m.bindings| && m.bindings[i].value.RefDatum? && m.bindings[i].value.index < |objects| ==>
      objects[m.bindings[i].value.index].Obj? && objects[m.bindings[i].value.index].id in owed
    ensures Stands(g, objects, m.entries, |m.entries|)
  {
    hide StandsAt, Accurate, Shrunk;
    forall k | 0 <= k < |m.entries| ensures StandsAt(g, objects, m.entries, k) {
      StandsRootedAt(h, g, objects, m, owed, k);
    }
  }
}

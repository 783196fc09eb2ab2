/**
 Restoring objects and bindings from a payload into the counted heap.

 While objects are decoded each is anchored by one reference; bindings take references
 of their own, and at the end the anchors are released.
 */
module Decoder {
  import opened Bytes
  import opened Ir
  import opened Values
  import opened Spans
  import opened Heap
  import opened Interp
  import opened Sim
  import opened Runtime
  import opened Ownership
  import opened Names
  import opened Image
  import opened Encoder
  import opened Reader
  import opened Validator
  import Packed
  import opened Storage
  import opened CodeDecoder

  // ----- what the objects of a payload become -----

  function ValueOf(d: Datum, objects: seq<Values.Value>): Values.Value {
    match d
    case NilDatum => Nil
    case BoolDatum(b) => Bool(b)
    case IntDatum(n) => Int(n)
    case RefDatum(index) => if index < |objects| then objects[index] else Nil
  }

  function ValuesOf(ds: seq<Datum>, objects: seq<Values.Value>): (vs: seq<Values.Value>)
    ensures |vs| == |ds|
    ensures forall k :: 0 <= k < |ds| ==> vs[k] == ValueOf(ds[k], objects)
  {
    seq(|ds|, k requires 0 <= k < |ds| => ValueOf(ds[k], objects))
  }

  function ObjectFrom(e: Entry, objects: seq<Values.Value>): Object {
    match e
    case TextEntry(text) => Text(text)
    case CellsEntry(items) => Cells(ValuesOf(items, objects))
    case CodeEntry(arity, localCount, body, program) => Code(program, body, arity, localCount)
    case DefEntry(name, fields) => RecordDef(name, fields)
    case RecordEntry(definition, values) => Record(ValueOf(RefDatum(definition), objects), ValuesOf(values, objects))
  }

  /** Objects as large as those the entries become. */
  ghost function Shapes(entries: seq<Entry>): (os: seq<Object>)
    ensures |os| == |entries|
  {
    seq(|entries|, k requires 0 <= k < |entries| => ObjectFrom(entries[k], []))
  }

  /** Object `k` of the table stands for entry `k`. */
  ghost predicate StandsAt(h: Heap, objects: seq<Values.Value>, entries: seq<Entry>, k: nat)
    requires k < |objects| == |entries|
  {
    objects[k].Obj? && IsLive(h, objects[k].id) && h[objects[k].id].count > 0
    && h[objects[k].id].obj == ObjectFrom(entries[k], objects)
  }

  /** The first `upTo` objects of the table stand for their entries; the rest is empty. */
  ghost predicate Stands(h: Heap, objects: seq<Values.Value>, entries: seq<Entry>, upTo: nat) {
    && upTo <= |objects| == |entries|
    && (forall k :: 0 <= k < upTo ==> StandsAt(h, objects, entries, k))
    && (forall j, k :: 0 <= j < k < upTo ==> objects[j] != objects[k])
    && (forall k :: upTo <= k < |objects| ==> objects[k] == Nil)
  }

  /** Live objects stay as they are; there may be more of them. */
  ghost predicate Grown(h: Heap, g: Heap) {
    |h| <= |g| && forall i :: 0 <= i < |h| && h[i].Live? ==> CellKept(h[i], g[i])
  }

  lemma GrownSame(h: Heap, g: Heap)
    requires SameObjects(h, g)
    ensures Grown(h, g)
  {
  }

  lemma GrownNew(h: Heap, g: Heap, id: nat, o: Object)
    requires NewObject(h, g, id, o)
    ensures Grown(h, g)
  {
  }

  lemma GrownTransitive(a: Heap, b: Heap, c: Heap)
    requires Grown(a, b) && Grown(b, c)
    ensures Grown(a, c)
  {
    forall i | 0 <= i < |a| && a[i].Live? ensures CellKept(a[i], c[i]) {
      assert CellKept(a[i], b[i]);
      assert b[i].Live?;
      assert CellKept(b[i], c[i]);
    }
  }

  lemma StandsGrown(h: Heap, g: Heap, objects: seq<Values.Value>, entries: seq<Entry>, upTo: nat)
    requires Stands(h, objects, entries, upTo) && Grown(h, g)
    ensures Stands(g, objects, entries, upTo)
  {
    hide ObjectFrom;
    forall k | 0 <= k < upTo ensures StandsAt(g, objects, entries, k) {
      assert StandsAt(h, objects, entries, k);
      assert CellKept(h[objects[k].id], g[objects[k].id]);
    }
  }

  lemma DatumStable(d: Datum, entries: seq<Entry>, before: nat, objects: seq<Values.Value>, more: seq<Values.Value>)
    requires before <= |entries| && DatumReady(d, entries, before)
    requires before <= |objects| && before <= |more| && objects[..before] == more[..before]
    ensures ValueOf(d, objects) == ValueOf(d, more)
  {
    if d.RefDatum? {
      assert objects[d.index] == objects[..before][d.index] && more[d.index] == more[..before][d.index];
    }
  }

  /** An entry only refers to entries before it. */
  lemma EntryStable(e: Entry, entries: seq<Entry>, k: nat, symbols: seq<string>, objects: seq<Values.Value>, more: seq<Values.Value>)
    requires k <= |entries| && EntryReady(e, entries, k, symbols)
    requires k <= |objects| && k <= |more| && objects[..k] == more[..k]
    ensures ObjectFrom(e, objects) == ObjectFrom(e, more)
  {
    hide ValueOf, DatumReady, ProgramReady, DefReady;
    match e {
      case CellsEntry(items) =>
        forall j | 0 <= j < |items| ensures ValueOf(items[j], objects) == ValueOf(items[j], more) {
          DatumStable(items[j], entries, k, objects, more);
        }
        assert ValuesOf(items, objects) == ValuesOf(items, more);
      case RecordEntry(definition, values) =>
        forall j | 0 <= j < |values| ensures ValueOf(values[j], objects) == ValueOf(values[j], more) {
          DatumStable(values[j], entries, k, objects, more);
        }
        assert ValuesOf(values, objects) == ValuesOf(values, more);
        DefinitionStable(definition, k, objects, more);
      case _ =>
    }
  }

  lemma DefinitionStable(definition: nat, k: nat, objects: seq<Values.Value>, more: seq<Values.Value>)
    requires definition < k <= |objects| && k <= |more| && objects[..k] == more[..k]
    ensures ValueOf(RefDatum(definition), objects) == ValueOf(RefDatum(definition), more)
  {
    assert objects[definition] == objects[..k][definition] && more[definition] == more[..k][definition];
  }

  /** Entering the next object keeps what stands. */
  lemma StandsNext(h: Heap, g: Heap, objects: seq<Values.Value>, entries: seq<Entry>, at: nat, symbols: seq<string>, v: Values.Value)
    requires Stands(h, objects, entries, at) && at < |entries| && EntriesReady(entries, symbols) && Grown(h, g)
    requires v.Obj? && !IsLive(h, v.id) && IsLive(g, v.id) && g[v.id].count > 0 && g[v.id].obj == ObjectFrom(entries[at], objects)
    ensures Stands(g, objects[at := v], entries, at + 1)
  {
    hide ObjectFrom, EntryReady;
    var more := objects[at := v];
    StandsGrown(h, g, objects, entries, at);
    forall k | 0 <= k < at + 1 ensures StandsAt(g, more, entries, k) {
      assert objects[..k] == more[..k];
      EntryStable(entries[k], entries, k, symbols, objects, more);
      if k < at {
        assert StandsAt(g, objects, entries, k);
      }
    }
    forall j, k | 0 <= j < k < at + 1 ensures more[j] != more[k] {
      if k == at {
        assert StandsAt(h, objects, entries, j);
      }
    }
  }

  // ----- values -----

  method DecodeDatum(c: Cursor, objects: seq<Values.Value>, ghost d: Datum, ghost rest: seq<Byte>) returns (err: Error, v: Values.Value)
    requires c.Valid()
    modifies c
    ensures c.Valid() && (v.Obj? ==> v in objects)
    ensures old(c.Rest()) == DatumOnto(d, rest) && (d.RefDatum? ==> d.index < |objects| < WORD)
         ==> err == Ok && c.Rest() == rest && v == ValueOf(d, objects)
  {
    hide U8, U32, TakeU8, TakeU32, Cursor.Rest;
    Rules();
    v := Nil;
    var tag;
    err, tag := c.ReadU8();
    if err != Ok { return; }
    if tag == 0 {
      return Ok, Nil;
    }
    if tag == 1 || tag == 2 {
      return Ok, Bool(tag == 2);
    }
    if tag == 3 {
      var n;
      err, n := c.ReadI32();
      if err != Ok { return; }
      if !FitsInt(n) {
        return ValueOverflow, Nil;
      }
      return Ok, Int(n);
    }
    if tag != 4 {
      return SNAPSHOT_FORMAT, Nil;
    }
    var index;
    err, index := c.ReadU32();
    if err != Ok { return; }
    if index >= |objects| {
      return SNAPSHOT_FORMAT, Nil;
    }
    v := objects[index];
  }

  method DecodeData(c: Cursor, count: nat, objects: seq<Values.Value>,
      ghost ds: seq<Datum>, ghost entries: seq<Entry>, ghost limit: nat, ghost rest: seq<Byte>)
    returns (err: Error, vs: seq<Values.Value>)
    requires c.Valid()
    modifies c
    ensures c.Valid() && forall k :: 0 <= k < |vs| && vs[k].Obj? ==> vs[k] in objects
    ensures old(c.Rest()) == DataOnto(ds, rest) && count == |ds| && |objects| == |entries| < WORD
         && limit <= |entries| && DataReady(ds, entries, limit)
         ==> err == Ok && c.Rest() == rest && vs == ValuesOf(ds, objects)
  {
    hide DataOnto, DatumOnto, DatumReady, ValueOf, Cursor.Rest;
    ghost var good := c.Rest() == DataOnto(ds, rest) && count == |ds| && |objects| == |entries| < WORD
         && limit <= |entries| && DataReady(ds, entries, limit);
    vs := [];
    assert ds[0..] == ds;
    while |vs| < count
      invariant |vs| <= count && c.Valid()
      invariant forall k :: 0 <= k < |vs| && vs[k].Obj? ==> vs[k] in objects
      invariant good ==> c.Rest() == DataOnto(ds[|vs|..], rest) && forall k :: 0 <= k < |vs| ==> vs[k] == ValueOf(ds[k], objects)
    {
      ghost var i := |vs|;
      if good {
        DataStep(ds, i, rest);
        DatumUse(ds, i, entries, limit);
      }
      ghost var d := if good then ds[i] else NilDatum;
      ghost var left := if good then DataOnto(ds[i + 1..], rest) else [];
      var v;
      err, v := DecodeDatum(c, objects, d, left);
      if err != Ok { return; }
      vs := vs + [v];
    }
    DataEnd(rest);
    assert good ==> ds[|vs|..] == [];
    err := Ok;
  }

  lemma DatumUse(items: seq<Datum>, j: nat, entries: seq<Entry>, limit: nat)
    requires limit <= |entries| && DataReady(items, entries, limit) && j < |items|
    ensures items[j].RefDatum? ==> items[j].index < |entries|
  {
  }

  // ----- cells -----

  lemma InRefs(objects: seq<Values.Value>, v: Values.Value)
    ensures v.Obj? && v in objects ==> v.id in Refs(objects)
  {
    if v.Obj? && v in objects {
      RefsOf(objects, v.id);
      assert v == Obj(v.id);
    }
  }

  /** Moving one more reference into a place that holds none. */
  lemma Placed(h: Heap, owed: multiset<nat>, id: nat, index: nat, v: Values.Value)
    requires Accurate(h, owed + Ref(v)) && IsLive(h, id) && h[id].count > 0
    requires HasPlace(h[id].obj, index) && !PlaceOf(h[id].obj, index).Obj?
    ensures Accurate(h[id := h[id].(obj := WithPlace(h[id].obj, index, v))], owed)
  {
    hide Accurate, WithPlace, PlaceOf, HasPlace;
    var o := h[id].obj;
    PlaceRefs(o, index, v);
    assert Ref(PlaceOf(o, index)) == multiset{};
    assert Refs(Children(WithPlace(o, index, v))) + multiset{} == Refs(Children(o)) + Ref(v);
    ContentsChange(h, owed, id, WithPlace(o, index, v), Ref(v), multiset{});
    assert owed + multiset{} == owed;
  }

  /** The cells object `id`, its first places filled. */
  ghost predicate Filling(h: Heap, id: nat, items: seq<Values.Value>, upTo: nat) {
    && IsLive(h, id) && h[id].count > 0 && h[id].obj.Cells?
    && |h[id].obj.items| == |items| && upTo <= |items|
    && (forall k :: 0 <= k < upTo ==> h[id].obj.items[k] == items[k])
    && (forall k :: upTo <= k < |items| ==> h[id].obj.items[k] == Nil)
  }

  /** Everything but the new object is as it was. */
  ghost predicate GrownBeside(h: Heap, g: Heap, id: nat) {
    !IsLive(h, id) && Grown(h, g)
  }

  lemma BesideSame(h: Heap, mid: Heap, g: Heap, id: nat, items: seq<Values.Value>, upTo: nat)
    requires GrownBeside(h, mid, id) && Filling(mid, id, items, upTo) && SameObjects(mid, g)
    ensures GrownBeside(h, g, id) && Filling(g, id, items, upTo)
  {
    assert CellKept(mid[id], g[id]);
    GrownSame(mid, g);
    GrownTransitive(h, mid, g);
  }

  lemma BesidePlaced(h: Heap, mid: Heap, id: nat, items: seq<Values.Value>, upTo: nat, v: Values.Value)
    requires GrownBeside(h, mid, id) && Filling(mid, id, items, upTo) && upTo < |items|
    ensures var g := mid[id := mid[id].(obj := WithPlace(mid[id].obj, upTo, v))];
      GrownBeside(h, g, id) && Filling(g, id, items[upTo := v], upTo + 1)
  {
  }

  /** Stores a value in the next place of a cells object, with a reference of its own. */
  method PutCell(rt: Runtime, id: nat, j: nat, u: Values.Value, objects: seq<Values.Value>, ghost owed: multiset<nat>,
      ghost start: Heap, ghost target: seq<Values.Value>)
    requires rt.Valid() && Accurate(rt.heap, owed + multiset{id}) && Refs(objects) <= owed && (u.Obj? ==> u in objects)
    requires GrownBeside(start, rt.heap, id) && j < |target| && Filling(rt.heap, id, target, j)
    modifies rt`heap
    ensures rt.Valid() && Accurate(rt.heap, owed + multiset{id})
    ensures GrownBeside(start, rt.heap, id) && Filling(rt.heap, id, target[j := u], j + 1)
  {
    hide ValueOf, Runtime.Valid, Accurate, Filling, GrownBeside, HasPlace, WithPlace, PlaceOf, SameObjects, Grown,
      CellKept, SpanAllocator.Valid, Retained;
    ghost var held := owed + multiset{id};
    InRefs(objects, u);
    HeldIsLive(rt.heap, held, u);
    ghost var before := rt.heap;
    rt.Retain(u, held);
    BesideSame(start, before, rt.heap, id, target, j);
    FillingPlace(rt.heap, id, target, j);
    Placed(rt.heap, held, id, j, u);
    BesidePlaced(start, rt.heap, id, target, j, u);
    rt.SetObject(id, WithPlace(rt.heap[id].obj, j, u));
  }

  /** Reads the contents of a cells object that is still empty. */
  method FillCells(c: Cursor, rt: Runtime, id: nat, count: nat, objects: seq<Values.Value>, ghost owed: multiset<nat>, ghost start: Heap,
      ghost items: seq<Datum>, ghost entries: seq<Entry>, ghost limit: nat, ghost goal: seq<Values.Value>, ghost rest: seq<Byte>)
    returns (err: Error)
    requires c.Valid() && rt.Valid() && Accurate(rt.heap, owed + multiset{id}) && Refs(objects) <= owed
    requires GrownBeside(start, rt.heap, id) && |goal| == count && Filling(rt.heap, id, goal, 0)
    modifies c, rt`heap
    ensures c.Valid() && rt.Valid() && Accurate(rt.heap, owed + multiset{id}) && Grown(start, rt.heap)
    ensures !IsLive(start, id) && IsLive(rt.heap, id) && rt.heap[id].count > 0
    ensures old(c.Rest()) == DataOnto(items, rest) && count == |items| && |objects| == |entries| < WORD
         && limit <= |entries| && DataReady(items, entries, limit) && goal == ValuesOf(items, objects)
         ==> err == Ok && c.Rest() == rest && rt.heap[id].obj == Cells(goal)
  {
    hide DataOnto, DatumOnto, DatumReady, DataReady, ValueOf, ValuesOf, Cursor.Rest, Cursor.Valid, Runtime.Valid, Accurate,
      Filling, GrownBeside, Grown, CellKept, IsLive, Refs, SpanAllocator.Valid;
    ghost var good := c.Rest() == DataOnto(items, rest) && count == |items| && |objects| == |entries| < WORD
         && limit <= |entries| && DataReady(items, entries, limit) && goal == ValuesOf(items, objects);
    assert items[0..] == items;
    ghost var target := goal;
    var j: nat := 0;
    while j < count
      invariant j <= count && c.Valid() && rt.Valid() && |target| == count
      invariant Accurate(rt.heap, owed + multiset{id})
      invariant GrownBeside(start, rt.heap, id) && Filling(rt.heap, id, target, j)
      invariant good ==> target == goal && c.Rest() == DataOnto(items[j..], rest)
    {
      if good {
        DataStep(items, j, rest);
        DatumUse(items, j, entries, limit);
      }
      ghost var d := if good then items[j] else NilDatum;
      ghost var left := if good then DataOnto(items[j + 1..], rest) else [];
      var u;
      err, u := DecodeDatum(c, objects, d, left);
      if err != Ok {
        FillingLive(start, rt.heap, id, target, j);
        return;
      }
      PutCell(rt, id, j, u, objects, owed, start, target);
      assert good ==> target[j := u] == target;
      target := target[j := u];
      j := j + 1;
    }
    FillingDone(start, rt.heap, id, target);
    DataEnd(rest);
    assert good ==> items[j..] == [];
    err := Ok;
  }

  /**
   A cells object and its contents. The object is returned even when its contents cannot
   be read, so that it can be released with the other anchors.
   */
  method DecodeCells(c: Cursor, rt: Runtime, count: nat, objects: seq<Values.Value>, ghost owed: multiset<nat>,
      ghost items: seq<Datum>, ghost entries: seq<Entry>, ghost limit: nat, ghost rest: seq<Byte>)
    returns (err: Error, v: Values.Value)
    requires c.Valid() && rt.Valid() && Accurate(rt.heap, owed) && Refs(objects) <= owed
    requires c !in rt.Repr()
    modifies c, rt, rt.cellspace, rt.cellspace.spans
    ensures c.Valid() && rt.Valid() && Accurate(rt.heap, owed + Ref(v)) && Grown(old(rt.heap), rt.heap)
    ensures v.Obj? ==> !IsLive(old(rt.heap), v.id) && IsLive(rt.heap, v.id) && rt.heap[v.id].count > 0
    ensures old(c.Rest()) == DataOnto(items, rest) && count == |items| && 0 < count && |objects| == |entries| < WORD
         && limit <= |entries| && DataReady(items, entries, limit)
         ==> (err == Ok || err == CellspaceFull || err == OutOfMemory)
             && Metered(err, old(rt.Available()), rt.Available(), Room(1, 0, count))
             && (err == Ok ==> c.Rest() == rest && v.Obj? && rt.heap[v.id].obj == Cells(ValuesOf(items, objects)))
    ensures err == Ok ==> v.Obj?
    ensures v.Obj? || v == Nil
  {
    hide DataOnto, DataReady, ValueOf, Cursor.Rest, Runtime.Valid, Accurate, NewObject, Filling, GrownBeside, Grown,
      CellKept, SpanAllocator.Valid, Metered, Runtime.Available;
    ghost var start := rt.heap;
    err, v := rt.AllocCells(count, owed);
    GrownReflexive(start);
    if err != Ok {
      v := Nil;
      assert owed + Ref(v) == owed;
      return;
    }
    ghost var goal := if count == |items| then ValuesOf(items, objects) else seq(count, _ => Nil);
    CellsStarted(start, rt.heap, v.id, count, goal);
    err := FillCells(c, rt, v.id, count, objects, owed, start, items, entries, limit, goal, rest);
  }

  lemma GrownReflexive(h: Heap)
    ensures Grown(h, h)
  {
  }

  lemma CellsStarted(h: Heap, g: Heap, id: nat, count: nat, items: seq<Values.Value>)
    requires NewObject(h, g, id, Cells(seq(count, _ => Nil))) && |items| == count
    ensures GrownBeside(h, g, id) && Filling(g, id, items, 0)
  {
  }

  lemma FillingPlace(h: Heap, id: nat, items: seq<Values.Value>, upTo: nat)
    requires Filling(h, id, items, upTo) && upTo < |items|
    ensures IsLive(h, id) && h[id].count > 0 && HasPlace(h[id].obj, upTo) && !PlaceOf(h[id].obj, upTo).Obj? && h[id].obj.Cells?
  {
  }

  lemma FillingLive(h: Heap, g: Heap, id: nat, items: seq<Values.Value>, upTo: nat)
    requires GrownBeside(h, g, id) && Filling(g, id, items, upTo)
    ensures Grown(h, g) && !IsLive(h, id) && IsLive(g, id) && g[id].count > 0
  {
  }

  lemma FillingDone(h: Heap, g: Heap, id: nat, items: seq<Values.Value>)
    requires GrownBeside(h, g, id) && Filling(g, id, items, |items|)
    ensures Grown(h, g) && !IsLive(h, id) && IsLive(g, id) && g[id].count > 0 && g[id].obj == Cells(items)
  {
    assert g[id].obj.items == items;
  }

  // ----- records and definitions -----

  lemma StorableFields(h: Heap, objects: seq<Values.Value>, entries: seq<Entry>, at: nat, ds: seq<Datum>, from: nat)
    requires Stands(h, objects, entries, at) && DataReady(ds, entries, at) && from <= |ds|
    ensures FirstUnstorable(ValuesOf(ds, objects)[from..], DerefAll(h, ValuesOf(ds, objects))[from..]) == Ok
    decreases |ds| - from
  {
    hide ValueOf, ObjectFrom, DatumReady, StandsAt;
    var vs := ValuesOf(ds, objects);
    var os := DerefAll(h, vs);
    if from < |ds| {
      StorableFields(h, objects, entries, at, ds, from + 1);
      assert vs[from..][0] == vs[from] && vs[from..][1..] == vs[from + 1..];
      assert os[from..][0] == os[from] && os[from..][1..] == os[from + 1..];
      StorableField(h, objects, entries, at, ds[from]);
    }
  }

  lemma StorableField(h: Heap, objects: seq<Values.Value>, entries: seq<Entry>, at: nat, d: Datum)
    requires Stands(h, objects, entries, at) && DatumReady(d, entries, at)
    ensures Storable(ValueOf(d, objects), Deref(h, ValueOf(d, objects))) == Ok
  {
    if d.RefDatum? {
      assert StandsAt(h, objects, entries, d.index);
    }
  }

  lemma RecordAccepted(h: Heap, objects: seq<Values.Value>, entries: seq<Entry>, at: nat, symbols: seq<string>, definition: nat, values: seq<Datum>)
    requires Stands(h, objects, entries, at) && at <= |entries| && EntryReady(RecordEntry(definition, values), entries, at, symbols)
    ensures var fields := ValuesOf(values, objects);
      RecordCheck(Deref(h, ValueOf(RefDatum(definition), objects)), fields, DerefAll(h, fields)) == Ok
  {
    hide FirstUnstorable, DataReady, ValuesOf;
    assert StandsAt(h, objects, entries, definition);
    var fields := ValuesOf(values, objects);
    StorableFields(h, objects, entries, at, values, 0);
    assert fields[0..] == fields && DerefAll(h, fields)[0..] == DerefAll(h, fields);
  }

  method DecodeRecord(c: Cursor, rt: Runtime, objects: seq<Values.Value>, ghost owed: multiset<nat>,
      ghost e: Entry, ghost entries: seq<Entry>, ghost at: nat, ghost symbols: seq<string>, ghost rest: seq<Byte>)
    returns (err: Error, v: Values.Value)
    requires c.Valid() && rt.Valid() && Accurate(rt.heap, owed) && Refs(objects) <= owed
    requires c !in rt.Repr()
    modifies c, rt, rt.payload, rt.payload.spans
    ensures c.Valid() && rt.Valid() && Accurate(rt.heap, owed + Ref(v)) && Grown(old(rt.heap), rt.heap)
    ensures v.Obj? ==> !IsLive(old(rt.heap), v.id) && IsLive(rt.heap, v.id) && rt.heap[v.id].count > 0
    ensures e.RecordEntry? && old(c.Rest()) == EntryBodyOnto(e, symbols, rest) && at <= |objects| == |entries| < WORD
         && EntryReady(e, entries, at, symbols) && Stands(old(rt.heap), objects, entries, at)
         ==> (err == Ok || err == OutOfMemory)
             && Metered(err, old(rt.Available()), rt.Available(), rt.Need(ObjectFrom(e, objects)))
             && (err == Ok ==> c.Rest() == rest && v.Obj? && rt.heap[v.id].obj == ObjectFrom(e, objects))
    ensures (v.Obj? || v == Nil) && (err == Ok ==> v.Obj?)
  {
    hide U32, TakeWords, DataOnto, DatumReady, ValueOf, ValuesOf, Cursor.Rest, Runtime.Valid, Accurate, NewObject,
      Grown, CellKept, Stands, RecordCheck, Held, SpanAllocator.Valid, Metered, Runtime.Available, Runtime.Need,
      EntryReady, EntryBodyOnto, ObjectFrom;
    WordRules();
    if e.RecordEntry? { RecordFacts(e, entries, at, symbols, objects, rest); }
    ghost var good := e.RecordEntry? && c.Rest() == EntryBodyOnto(e, symbols, rest) && at <= |objects| == |entries| < WORD
         && EntryReady(e, entries, at, symbols) && Stands(rt.heap, objects, entries, at);
    GrownReflexive(rt.heap);
    v := Nil;
    assert owed + Ref(Nil) == owed;
    var w;
    err, w := SkipWords(c, 2);
    if err != Ok { return; }
    if w[0] >= |objects| || w[1] == 0 || w[1] > LINK_CAPACITY {
      return SNAPSHOT_FORMAT, Nil;
    }
    var definition := objects[w[0]];
    var fields;
    err, fields := DecodeData(c, w[1], objects, if e.RecordEntry? then e.values else [], entries, at, rest);
    if err != Ok { return; }
    if good {
      RecordAccepted(rt.heap, objects, entries, at, symbols, e.definition, e.values);
      DefinitionIs(e.definition, objects);
    }
    err := RecordCheck(Deref(rt.heap, definition), fields, DerefAll(rt.heap, fields));
    if err != Ok { return; }
    RecordHeld(definition, fields, objects, owed);
    ghost var before := rt.heap;
    err, v := rt.AllocRecord(definition, fields, owed);
    if err == Ok {
      GrownNew(before, rt.heap, v.id, Record(definition, fields));
      NewIsFresh(before, rt.heap, v.id, Record(definition, fields));
    } else {
      v := Nil;
      GrownSame(before, rt.heap);
    }
  }

  lemma RecordFacts(e: Entry, entries: seq<Entry>, at: nat, symbols: seq<string>, objects: seq<Values.Value>, rest: seq<Byte>)
    requires e.RecordEntry?
    ensures EntryBodyOnto(e, symbols, rest) == U32(e.definition, U32(|e.values|, DataOnto(e.values, rest)))
    ensures at <= |entries| && EntryReady(e, entries, at, symbols) ==>
      0 < |e.values| <= LINK_CAPACITY && e.definition < at && DataReady(e.values, entries, at)
    ensures ObjectFrom(e, objects) == Record(ValueOf(RefDatum(e.definition), objects), ValuesOf(e.values, objects))
  {
    hide U32, DataOnto, DataReady, ValueOf, ValuesOf;
  }

  lemma DefinitionIs(definition: nat, objects: seq<Values.Value>)
    ensures definition < |objects| ==> ValueOf(RefDatum(definition), objects) == objects[definition]
  {
  }

  lemma NewIsFresh(h: Heap, g: Heap, id: nat, o: Object)
    requires NewObject(h, g, id, o)
    ensures !IsLive(h, id) && IsLive(g, id) && g[id].count > 0 && g[id].obj == o
  {
  }

  lemma RecordHeld(definition: Values.Value, fields: seq<Values.Value>, objects: seq<Values.Value>, owed: multiset<nat>)
    requires Refs(objects) <= owed && definition in objects
    requires forall k :: 0 <= k < |fields| && fields[k].Obj? ==> fields[k] in objects
    ensures Held([definition] + fields, owed)
  {
    forall v | v in [definition] + fields && v.Obj? ensures v.id in owed {
      assert v == definition || v in fields;
      InRefs(objects, v);
    }
  }

  method DecodeDef(c: Cursor, ghost name: string, ghost fields: seq<string>, ghost rest: seq<Byte>)
    returns (err: Error, s: string, names: seq<string>)
    requires c.Valid()
    modifies c
    ensures c.Valid()
    ensures old(c.Rest()) == U32(|fields|, StrOnto(name, StrsOnto(fields, rest))) && DefReady(name, fields)
         ==> err == Ok && s == name && names == fields && c.Rest() == rest
  {
    hide U32, TakeU32, StrOnto, TakeStr, StrsOnto, SlotName, SimpleName, Cursor.Rest;
    ghost var good := c.Rest() == U32(|fields|, StrOnto(name, StrsOnto(fields, rest))) && DefReady(name, fields);
    Rules();
    s, names := "", [];
    var count;
    err, count := c.ReadU32();
    if err != Ok { return; }
    if count == 0 || count > LINK_CAPACITY {
      return SNAPSHOT_FORMAT, s, names;
    }
    if good { SymbolBack(name, StrsOnto(fields, rest)); }
    err, s := c.ReadStr();
    if err != Ok { return; }
    assert fields[0..] == fields;
    while |names| < count
      invariant |names| <= count && c.Valid()
      invariant good ==> c.Rest() == StrsOnto(fields[|names|..], rest) && names == fields[..|names|]
    {
      ghost var i := |names|;
      if good {
        StrsStep(fields, i, rest);
        FieldBack(fields[i], StrsOnto(fields[i + 1..], rest));
      }
      var field;
      err, field := c.ReadStr();
      if err != Ok { return; }
      names := names + [field];
    }
    StrsStep(fields, 0, rest);
    assert good ==> fields[|names|..] == [];
    err := Ok;
  }

  /** An object that owns no references. */
  method EnterLeaf(rt: Runtime, o: Object, size: nat, ghost owed: multiset<nat>) returns (err: Error, v: Values.Value)
    requires rt.Valid() && Accurate(rt.heap, owed) && Children(o) == [] && !o.Cells? && PayloadBytes(rt.machine, o) <= size
    modifies rt, rt.payload, rt.payload.spans
    ensures Metered(err, old(rt.Available()), rt.Available(), Room(1, Packed.AlignUp(size, rt.alignment), 0))
    ensures rt.Valid() && Accurate(rt.heap, owed + Ref(v)) && Grown(old(rt.heap), rt.heap)
    ensures err == Ok || err == OutOfMemory
    ensures if err == Ok then v.Obj? && !IsLive(old(rt.heap), v.id) && IsLive(rt.heap, v.id) && rt.heap[v.id].count > 0 && rt.heap[v.id].obj == o
            else v == Nil
  {
    hide Runtime.Valid, Accurate, NewObject, Grown, CellKept, SpanAllocator.Valid, Metered, Runtime.Available, PayloadBytes;
    ghost var before := rt.heap;
    GrownReflexive(before);
    assert owed + Ref(Nil) == owed;
    err, v := rt.AllocLeaf(o, size, owed);
    if err == Ok {
      GrownNew(before, rt.heap, v.id, o);
      NewIsFresh(before, rt.heap, v.id, o);
    } else {
      v := Nil;
    }
  }

  // ----- objects -----

  method DecodeLeaf(c: Cursor, kind: nat, symbols: seq<string>, machine: Packed.Machine,
      ghost e: Entry, ghost entries: seq<Entry>, ghost at: nat, ghost rest: seq<Byte>)
    returns (err: Error, o: Object, size: nat)
    requires c.Valid() && kind in {1, 3, 5}
    modifies c
    ensures c.Valid() && Children(o) == [] && !o.Cells?
    ensures old(c.Rest()) == EntryBodyOnto(e, symbols, rest) && kind == EntryKind(e)
         && at <= |entries| && EntryReady(e, entries, at, symbols)
         ==> err == Ok && c.Rest() == rest && o == ObjectFrom(e, []) && size == PayloadBytes(machine, o)
    ensures err == Ok ==> PayloadBytes(machine, o) <= size
  {
    hide U32, TakeU32, Raw, TakeRaw, Ascii, TextOf, CodeOnto, DataOnto, StrOnto, StrsOnto, ProgramReady, DefReady,
      Narrow, DataReady, Cursor.Rest, Packed.ProgramBytes, Packed.StringsSize;
    Rules();
    o, size := Text(""), 0;
    if kind == 1 {
      ghost var text := if e.TextEntry? then e.text else "";
      if Narrow(text) { TextOfAscii(text); }
      var length, bytes;
      err, length := c.ReadU32();
      if err != Ok { return; }
      err, bytes := c.ReadBytes(length);
      if err != Ok { return; }
      o, size := Text(TextOf(bytes)), length + 1;
    } else if kind == 3 {
      ghost var code := if e.CodeEntry? then e else CodeEntry(0, 0, 0, Program([], [], [], 0, 0));
      var d;
      err, d := DecodeCode(c, symbols, machine, code.arity, code.localCount, code.body, code.program, rest);
      if err != Ok { return; }
      o, size := Code(d.program, d.body, d.arity, d.localCount), d.size;
    } else {
      ghost var def := if e.DefEntry? then e else DefEntry("", []);
      var name, fields;
      err, name, fields := DecodeDef(c, def.name, def.fields, rest);
      if err != Ok { return; }
      o, size := RecordDef(name, fields), 4 + Packed.StringsSize([name] + fields);
    }
  }

  lemma LeafFrom(e: Entry, objects: seq<Values.Value>)
    requires e.TextEntry? || e.CodeEntry? || e.DefEntry?
    ensures ObjectFrom(e, []) == ObjectFrom(e, objects)
  {
  }

  /** What an object takes depends on its entry alone. */
  lemma ShapeNeed(rt: Runtime, e: Entry, objects: seq<Values.Value>)
    ensures rt.Need(ObjectFrom(e, objects)) == rt.Need(ObjectFrom(e, []))
    ensures e.CellsEntry? ==> rt.Need(ObjectFrom(e, [])) == Room(1, 0, |e.items|)
  {
    hide ValueOf;
  }

  lemma LeafNeed(rt: Runtime, o: Object)
    ensures !o.Cells? ==> rt.Need(o) == Room(1, Packed.AlignUp(PayloadBytes(rt.machine, o), rt.alignment), 0)
  {
  }

  method DecodeLeafEntry(c: Cursor, kind: nat, symbols: seq<string>, rt: Runtime, ghost objects: seq<Values.Value>, ghost owed: multiset<nat>,
      ghost e: Entry, ghost entries: seq<Entry>, ghost at: nat, ghost rest: seq<Byte>)
    returns (err: Error, v: Values.Value)
    requires c.Valid() && rt.Valid() && Accurate(rt.heap, owed) && kind in {1, 3, 5}
    requires c !in rt.Repr()
    modifies c, rt, rt.payload, rt.payload.spans
    ensures c.Valid() && rt.Valid() && Accurate(rt.heap, owed + Ref(v)) && Grown(old(rt.heap), rt.heap)
    ensures v.Obj? ==> !IsLive(old(rt.heap), v.id) && IsLive(rt.heap, v.id) && rt.heap[v.id].count > 0
    ensures old(c.Rest()) == EntryBodyOnto(e, symbols, rest) && kind == EntryKind(e) && at <= |entries| && EntryReady(e, entries, at, symbols)
         ==> (err == Ok || err == OutOfMemory)
             && Metered(err, old(rt.Available()), rt.Available(), rt.Need(ObjectFrom(e, [])))
             && (err == Ok ==> c.Rest() == rest && v.Obj? && rt.heap[v.id].obj == ObjectFrom(e, objects))
    ensures (v.Obj? || v == Nil) && (err == Ok ==> v.Obj?)
  {
    hide EntryBodyOnto, EntryReady, Cursor.Rest, Runtime.Valid, Accurate, Grown, SpanAllocator.Valid,
      Metered, Runtime.Available, Runtime.Need, PayloadBytes, ObjectFrom;
    GrownReflexive(rt.heap);
    assert owed + Ref(Nil) == owed;
    v := Nil;
    var o, size;
    err, o, size := DecodeLeaf(c, kind, symbols, rt.machine, e, entries, at, rest);
    if err != Ok { return; }
    if e.TextEntry? || e.CodeEntry? || e.DefEntry? { LeafFrom(e, objects); }
    LeafNeed(rt, o);
    LeafKinds(e);
    err, v := EnterLeaf(rt, o, size, owed);
  }

  lemma LeafKinds(e: Entry)
    ensures EntryKind(e) in {1, 3, 5} <==> e.TextEntry? || e.CodeEntry? || e.DefEntry?
  {
  }

  method DecodeCellsEntry(c: Cursor, rt: Runtime, objects: seq<Values.Value>, ghost owed: multiset<nat>,
      ghost e: Entry, ghost entries: seq<Entry>, ghost at: nat, ghost symbols: seq<string>, ghost rest: seq<Byte>)
    returns (err: Error, v: Values.Value)
    requires c.Valid() && rt.Valid() && Accurate(rt.heap, owed) && Refs(objects) <= owed
    requires c !in rt.Repr()
    modifies c, rt, rt.cellspace, rt.cellspace.spans
    ensures c.Valid() && rt.Valid() && Accurate(rt.heap, owed + Ref(v)) && Grown(old(rt.heap), rt.heap)
    ensures v.Obj? ==> !IsLive(old(rt.heap), v.id) && IsLive(rt.heap, v.id) && rt.heap[v.id].count > 0
    ensures e.CellsEntry? && old(c.Rest()) == EntryBodyOnto(e, symbols, rest) && at <= |objects| == |entries| < WORD
         && EntryReady(e, entries, at, symbols)
         ==> (err == Ok || err == OutOfMemory || err == CellspaceFull)
             && Metered(err, old(rt.Available()), rt.Available(), rt.Need(ObjectFrom(e, [])))
             && (err == Ok ==> c.Rest() == rest && v.Obj? && rt.heap[v.id].obj == ObjectFrom(e, objects))
    ensures (v.Obj? || v == Nil) && (err == Ok ==> v.Obj?)
  {
    hide U32, TakeU32, DataOnto, DataReady, ValueOf, ValuesOf, Cursor.Rest, Runtime.Valid, Accurate, Grown, CellKept,
      SpanAllocator.Valid, Metered, Runtime.Available, Runtime.Need, PayloadBytes;
    Rules();
    GrownReflexive(rt.heap);
    assert owed + Ref(Nil) == owed;
    v := Nil;
    var count;
    err, count := c.ReadU32();
    if err != Ok { return; }
    if e.CellsEntry? { ShapeNeed(rt, e, objects); }
    err, v := DecodeCells(c, rt, count, objects, owed, if e.CellsEntry? then e.items else [], entries, at, rest);
  }

  method DecodeEntry(c: Cursor, symbols: seq<string>, rt: Runtime, objects: seq<Values.Value>, ghost owed: multiset<nat>,
      ghost e: Entry, ghost entries: seq<Entry>, ghost at: nat, ghost rest: seq<Byte>)
    returns (err: Error, v: Values.Value)
    requires c.Valid() && rt.Valid() && Accurate(rt.heap, owed) && Refs(objects) <= owed
    requires c !in rt.Repr()
    modifies c, rt, rt.payload, rt.payload.spans, rt.cellspace, rt.cellspace.spans
    ensures c.Valid() && rt.Valid() && Accurate(rt.heap, owed + Ref(v)) && Grown(old(rt.heap), rt.heap)
    ensures v.Obj? ==> !IsLive(old(rt.heap), v.id) && IsLive(rt.heap, v.id) && rt.heap[v.id].count > 0
    ensures old(c.Rest()) == EntryOnto(e, symbols, rest) && at <= |objects| == |entries| < WORD
         && EntryReady(e, entries, at, symbols) && Stands(old(rt.heap), objects, entries, at)
         ==> (err == Ok || err == OutOfMemory || err == CellspaceFull)
             && Metered(err, old(rt.Available()), rt.Available(), rt.Need(ObjectFrom(e, [])))
             && (err == Ok ==> c.Rest() == rest && v.Obj? && rt.heap[v.id].obj == ObjectFrom(e, objects))
    ensures (v.Obj? || v == Nil) && (err == Ok ==> v.Obj?)
  {
    hide U8, TakeU8, EntryBodyOnto, EntryReady, ObjectFrom,
      Cursor.Rest, Runtime.Valid, Accurate, Grown, CellKept, Stands, SpanAllocator.Valid,
      Metered, Runtime.Available, Runtime.Need, PayloadBytes;
    Rules();
    GrownReflexive(rt.heap);
    assert owed + Ref(Nil) == owed;
    v := Nil;
    KindKnown(e);
    var kind;
    err, kind := c.ReadU8();
    if err != Ok { return; }
    if kind == 2 {
      err, v := DecodeCellsEntry(c, rt, objects, owed, e, entries, at, symbols, rest);
    } else if kind == 6 {
      if e.RecordEntry? { ShapeNeed(rt, e, objects); }
      err, v := DecodeRecord(c, rt, objects, owed, e, entries, at, symbols, rest);
    } else if kind in {1, 3, 5} {
      err, v := DecodeLeafEntry(c, kind, symbols, rt, objects, owed, e, entries, at, rest);
    } else {
      err := NOT_PERSISTABLE;
    }
  }

  lemma KindKnown(e: Entry)
    ensures EntryKind(e) in {1, 2, 3, 5, 6}
    ensures EntryKind(e) == 2 ==> e.CellsEntry?
    ensures EntryKind(e) == 6 ==> e.RecordEntry?
  {
  }

  lemma AnchorAdded(objects: seq<Values.Value>, at: nat, v: Values.Value, owed: multiset<nat>)
    requires at < |objects| && !objects[at].Obj?
    ensures (owed + Refs(objects)) + Ref(v) == owed + Refs(objects[at := v])
  {
    RefsUpdate(objects, at, v);
    assert Refs(objects[at := v]) == Refs(objects) + Ref(v);
  }

  /** Before entry `i`: what is left to read, and what stands already. */
  ghost predicate Underway(left: seq<Byte>, h: Heap, objects: seq<Values.Value>, entries: seq<Entry>, i: nat, symbols: seq<string>, rest: seq<Byte>) {
    && i <= |objects| == |entries| < WORD && EntriesReady(entries, symbols)
    && left == EntriesOnto(entries[i..], symbols, rest) && Stands(h, objects, entries, i)
  }

  lemma UnderwayStart(left: seq<Byte>, h: Heap, entries: seq<Entry>, symbols: seq<string>, rest: seq<Byte>)
    requires left == EntriesOnto(entries, symbols, rest) && EntriesReady(entries, symbols) && |entries| < WORD
    ensures Underway(left, h, seq(|entries|, _ => Nil), entries, 0, symbols, rest)
  {
    hide EntriesOnto, EntryReady;
    assert entries[0..] == entries;
  }

  lemma UnderwayEntry(left: seq<Byte>, h: Heap, objects: seq<Values.Value>, entries: seq<Entry>, i: nat, symbols: seq<string>, rest: seq<Byte>)
    requires Underway(left, h, objects, entries, i, symbols, rest) && i < |objects|
    ensures left == EntryOnto(entries[i], symbols, EntriesOnto(entries[i + 1..], symbols, rest))
    ensures EntryReady(entries[i], entries, i, symbols) && Stands(h, objects, entries, i)
  {
    hide EntriesOnto, EntryOnto, EntryReady, Stands;
    EntriesStep(entries, symbols, i, rest);
  }

  lemma UnderwayNext(left: seq<Byte>, h: Heap, g: Heap, objects: seq<Values.Value>, entries: seq<Entry>, i: nat, symbols: seq<string>, rest: seq<Byte>,
                     v: Values.Value)
    requires Underway(left, h, objects, entries, i, symbols, rest) && i < |objects| && Grown(h, g)
    requires v.Obj? && !IsLive(h, v.id) && IsLive(g, v.id) && g[v.id].count > 0 && g[v.id].obj == ObjectFrom(entries[i], objects)
    ensures Underway(EntriesOnto(entries[i + 1..], symbols, rest), g, objects[i := v], entries, i + 1, symbols, rest)
  {
    hide EntriesOnto, EntryReady, Stands, Grown, ObjectFrom;
    StandsNext(h, g, objects, entries, i, symbols, v);
  }

  lemma UnderwayEnd(left: seq<Byte>, h: Heap, objects: seq<Values.Value>, entries: seq<Entry>, symbols: seq<string>, rest: seq<Byte>)
    requires Underway(left, h, objects, entries, |objects|, symbols, rest)
    ensures left == rest && Stands(h, objects, entries, |objects|)
  {
    hide EntryOnto, EntryReady, Stands;
    assert entries[|entries|..] == [];
  }

  /** Decodes entry `i` and anchors its object. */
  method DecodeNext(c: Cursor, symbols: seq<string>, rt: Runtime, objects: seq<Values.Value>, i: nat, ghost owed: multiset<nat>,
      ghost entries: seq<Entry>, ghost rest: seq<Byte>)
    returns (err: Error, anchored: seq<Values.Value>)
    requires c.Valid() && rt.Valid() && Accurate(rt.heap, owed + Refs(objects))
    requires c !in rt.Repr() && i < |objects| && objects[i] == Nil
    modifies c, rt, rt.payload, rt.payload.spans, rt.cellspace, rt.cellspace.spans
    ensures c.Valid() && rt.Valid() && Accurate(rt.heap, owed + Refs(anchored)) && Grown(old(rt.heap), rt.heap)
    ensures |anchored| == |objects| && forall k :: 0 <= k < |objects| && k != i ==> anchored[k] == objects[k]
    ensures old(Underway(c.Rest(), rt.heap, objects, entries, i, symbols, rest))
         ==> (err == Ok || err == OutOfMemory || err == CellspaceFull)
             && i < |entries| && Metered(err, old(rt.Available()), rt.Available(), rt.Need(ObjectFrom(entries[i], [])))
             && (err == Ok ==> Underway(c.Rest(), rt.heap, anchored, entries, i + 1, symbols, rest))
  {
    hide EntriesOnto, EntryOnto, EntryReady, ObjectFrom, Stands, Underway, EntriesReady, Cursor.Rest, Runtime.Valid,
      Accurate, Grown, Refs, SpanAllocator.Valid, Metered, Runtime.Available, Runtime.Need;
    ghost var left, before := c.Rest(), rt.heap;
    ghost var good := Underway(left, rt.heap, objects, entries, i, symbols, rest);
    ghost var e, after := TextEntry(""), [];
    if good {
      UnderwayFits(left, rt.heap, objects, entries, i, symbols, rest);
      UnderwayEntry(left, rt.heap, objects, entries, i, symbols, rest);
      e, after := entries[i], EntriesOnto(entries[i + 1..], symbols, rest);
    }
    var v;
    err, v := DecodeEntry(c, symbols, rt, objects, owed + Refs(objects), e, entries, i, after);
    AnchorAdded(objects, i, v, owed);
    anchored := objects[i := v];
    if good && err == Ok {
      UnderwayNext(left, before, rt.heap, objects, entries, i, symbols, rest, v);
    }
  }

  lemma UnderwayFits(left: seq<Byte>, h: Heap, objects: seq<Values.Value>, entries: seq<Entry>, i: nat, symbols: seq<string>, rest: seq<Byte>)
    requires Underway(left, h, objects, entries, i, symbols, rest)
    ensures i <= |objects| == |entries| < WORD
  {
  }

  /**
   Decodes the object table. Whatever happens, the heap stays accurate, with one more
   reference for each object that was made.
   */
  method DecodeObjects(c: Cursor, symbols: seq<string>, rt: Runtime, count: nat, ghost owed: multiset<nat>,
      ghost entries: seq<Entry>, ghost rest: seq<Byte>)
    returns (err: Error, objects: seq<Values.Value>)
    requires c.Valid() && rt.Valid() && Accurate(rt.heap, owed)
    requires c !in rt.Repr()
    modifies c, rt, rt.payload, rt.payload.spans, rt.cellspace, rt.cellspace.spans
    ensures c.Valid() && rt.Valid() && Accurate(rt.heap, owed + Refs(objects)) && Grown(old(rt.heap), rt.heap)
    ensures |objects| == count
    ensures old(c.Rest()) == EntriesOnto(entries, symbols, rest) && EntriesReady(entries, symbols) && count == |entries| < WORD
         ==> (err == Ok || err == OutOfMemory || err == CellspaceFull)
             && Metered(err, old(rt.Available()), rt.Available(), NeedOfAll(rt.machine, rt.alignment, Shapes(entries)))
             && (err == Ok ==> c.Rest() == rest && Stands(rt.heap, objects, entries, count))
  {
    hide EntriesOnto, Stands, EntriesReady, Underway, Cursor.Rest, Runtime.Valid, Accurate, Grown, Refs,
      SpanAllocator.Valid, Metered, Runtime.Available, NeedOf, NeedOfAll, ObjectFrom, OnCourse;
    ghost var start, os := rt.Available(), Shapes(entries);
    assert os[0..] == os;
    OnCourseStart(start, NeedOfAll(rt.machine, rt.alignment, os));
    ghost var good := c.Rest() == EntriesOnto(entries, symbols, rest) && EntriesReady(entries, symbols) && count == |entries| < WORD;
    if good { UnderwayStart(c.Rest(), rt.heap, entries, symbols, rest); }
    GrownReflexive(rt.heap);
    objects := seq(count, _ => Nil);
    NilsOwnNothing(count);
    assert owed + Refs(objects) == owed;
    var i: nat := 0;
    while i < count
      invariant i <= count && |objects| == count && c.Valid() && rt.Valid()
      invariant Accurate(rt.heap, owed + Refs(objects)) && Grown(old(rt.heap), rt.heap)
      invariant forall k :: i <= k < count ==> objects[k] == Nil
      invariant good ==> Underway(c.Rest(), rt.heap, objects, entries, i, symbols, rest)
      invariant good ==> OnCourse(start, rt.Available(), NeedOfAll(rt.machine, rt.alignment, os), NeedOfAll(rt.machine, rt.alignment, os[i..]))
    {
      ghost var before, room := rt.heap, rt.Available();
      err, objects := DecodeNext(c, symbols, rt, objects, i, owed, entries, rest);
      GrownTransitive(old(rt.heap), before, rt.heap);
      if good {
        OnCourseNext(err, start, room, rt.Available(), rt.machine, rt.alignment, os, i);
      }
      if err != Ok { return; }
      i := i + 1;
    }
    if good {
      UnderwayEnd(c.Rest(), rt.heap, objects, entries, symbols, rest);
      OnCourseEnd(start, rt.Available(), rt.machine, rt.alignment, os);
    }
    err := Ok;
  }
}

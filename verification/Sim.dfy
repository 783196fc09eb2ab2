/**
 How the counted heap, whose object numbers are reused, stands for the interpreter's
 heap, whose object numbers are not.

 `ids` sends each live object number to the creation number of the object that
 currently sits there.  `Simulates` says that the live objects are exactly the mapped
 ones and that contents agree up to `ids`.
 */
module Sim {
  import opened Ir
  import opened Values
  import opened Heap
  import opened Interp

  type Ids = map<nat, nat>

  ghost function MapV(m: Ids, v: Value): Value {
    if v.Obj? && v.id in m then Obj(m[v.id]) else v
  }

  ghost function MapS(m: Ids, vs: seq<Value>): (r: seq<Value>)
    ensures |r| == |vs| && forall i | 0 <= i < |vs| :: r[i] == MapV(m, vs[i])
  {
    seq(|vs|, i requires 0 <= i < |vs| => MapV(m, vs[i]))
  }

  ghost function MapO(m: Ids, o: Object): Object {
    match o
    case Cells(items) => Cells(MapS(m, items))
    case Record(definition, fields) => Record(MapV(m, definition), MapS(m, fields))
    case _ => o
  }

  ghost function MapOpt(m: Ids, o: Option<Object>): Option<Object> {
    if o.Some? then Some(MapO(m, o.value)) else None
  }

  ghost function MapOpts(m: Ids, os: seq<Option<Object>>): (r: seq<Option<Object>>)
    ensures |r| == |os| && forall i | 0 <= i < |os| :: r[i] == MapOpt(m, os[i])
  {
    seq(|os|, i requires 0 <= i < |os| => MapOpt(m, os[i]))
  }

  ghost function MapEntry(m: Ids, e: SlotEntry): SlotEntry {
    if e.impl.Some? then e.(impl := Some(MapV(m, e.impl.value))) else e
  }

  ghost function MapSlots(m: Ids, slots: seq<SlotEntry>): (r: seq<SlotEntry>)
    ensures |r| == |slots| && forall i | 0 <= i < |slots| :: r[i] == MapEntry(m, slots[i])
  {
    seq(|slots|, i requires 0 <= i < |slots| => MapEntry(m, slots[i]))
  }

  /** The reference, if `v` is one, has a creation number. */
  ghost predicate Known(m: Ids, v: Value) { v.Obj? ==> v.id in m }

  ghost predicate AllKnown(m: Ids, vs: seq<Value>) { forall v | v in vs :: Known(m, v) }

  ghost predicate Injective(m: Ids) {
    forall i, j | i in m && j in m && m[i] == m[j] :: i == j
  }

  ghost predicate CellMatches(m: Ids, c: Cell, heap: seq<Object>, id: nat) {
    c.Live? && id < |heap| && heap[id] == MapO(m, c.obj) && AllKnown(m, Children(c.obj))
  }

  ghost predicate Simulates(h: Heap, heap: seq<Object>, m: Ids) {
    && Injective(m)
    && (forall i: nat :: i in m <==> IsLive(h, i))
    && (forall i | i in m :: i < |h| && CellMatches(m, h[i], heap, m[i]))
  }

  /** The object a reference leads to in the counted heap. */
  function Deref(h: Heap, v: Value): Option<Object> {
    if v.Obj? && IsLive(h, v.id) then Some(h[v.id].obj) else None
  }

  function DerefAll(h: Heap, vs: seq<Value>): seq<Option<Object>> {
    seq(|vs|, i requires 0 <= i < |vs| => Deref(h, vs[i]))
  }

  // ----- the two heaps look alike -----

  lemma LookAlike(h: Heap, heap: seq<Object>, m: Ids, v: Value)
    requires Simulates(h, heap, m) && Known(m, v)
    ensures Look(heap, MapV(m, v)) == MapOpt(m, Deref(h, v))
  {
    if v.Obj? { assert CellMatches(m, h[v.id], heap, m[v.id]); }
  }

  lemma LookAlikeAll(h: Heap, heap: seq<Object>, m: Ids, vs: seq<Value>)
    requires Simulates(h, heap, m) && AllKnown(m, vs)
    ensures LookAll(heap, MapS(m, vs)) == MapOpts(m, DerefAll(h, vs))
  {
    forall i | 0 <= i < |vs| ensures Look(heap, MapS(m, vs)[i]) == MapOpt(m, DerefAll(h, vs)[i]) {
      LookAlike(h, heap, m, vs[i]);
    }
  }

  lemma SameClass(m: Ids, v: Value, o: Option<Object>)
    ensures ClassOf(MapV(m, v), MapOpt(m, o)) == ClassOf(v, o)
    ensures Storable(MapV(m, v), MapOpt(m, o)) == Storable(v, o)
  {
  }

  lemma SameEquality(m: Ids, a: Value, b: Value, oa: Option<Object>, ob: Option<Object>)
    requires Injective(m) && Known(m, a) && Known(m, b)
    ensures EqualValues(MapV(m, a), MapV(m, b), MapOpt(m, oa), MapOpt(m, ob)) == EqualValues(a, b, oa, ob)
  {
    SameClass(m, a, oa);
    SameClass(m, b, ob);
    assert MapV(m, a) == MapV(m, b) <==> a == b;
  }

  lemma SameBuiltin(m: Ids, b: Builtin, args: seq<Value>, objs: seq<Option<Object>>)
    requires |objs| == |args| && Injective(m) && AllKnown(m, args)
    ensures ApplyBuiltin(b, MapS(m, args), MapOpts(m, objs)) == ApplyBuiltin(b, args, objs)
    ensures ApplyBuiltin(b, args, objs).Result? ==> !ApplyBuiltin(b, args, objs).v.Obj?
  {
    if |args| == 2 {
      assert args[0] in args && args[1] in args;
      SameEquality(m, args[0], args[1], objs[0], objs[1]);
    }
  }

  lemma SamePlace(m: Ids, o: Option<Object>, def: Option<Object>, index: Value, name: string)
    ensures CellPlace(MapOpt(m, o), MapV(m, index)) == CellPlace(o, index)
    ensures FieldPlace(MapOpt(m, o), MapOpt(m, def), name) == FieldPlace(o, def, name)
    ensures Definition(MapOpt(m, o)) == MapV(m, Definition(o))
  {
  }

  lemma SameResolution(m: Ids, o: Option<Object>, argCount: nat)
    ensures Resolve(MapOpt(m, o), argCount) == Resolve(o, argCount)
    ensures SlotArity(MapOpt(m, o)) == SlotArity(o)
  {
  }

  lemma {:induction false} SameStorable(m: Ids, vs: seq<Value>, objs: seq<Option<Object>>)
    requires |objs| == |vs|
    ensures FirstUnstorable(MapS(m, vs), MapOpts(m, objs)) == FirstUnstorable(vs, objs)
  {
    if vs != [] {
      SameClass(m, vs[0], objs[0]);
      assert MapS(m, vs)[1..] == MapS(m, vs[1..]);
      assert MapOpts(m, objs)[1..] == MapOpts(m, objs[1..]);
      SameStorable(m, vs[1..], objs[1..]);
    }
  }

  lemma SameRecordCheck(m: Ids, def: Option<Object>, fields: seq<Value>, objs: seq<Option<Object>>)
    requires |objs| == |fields|
    ensures RecordCheck(MapOpt(m, def), MapS(m, fields), MapOpts(m, objs)) == RecordCheck(def, fields, objs)
  {
    SameStorable(m, fields, objs);
  }

  // ----- slots -----

  lemma {:induction false} SameSlot(m: Ids, slots: seq<SlotEntry>, name: string)
    ensures FindSlot(MapSlots(m, slots), name) == FindSlot(slots, name)
  {
    if slots != [] {
      assert MapSlots(m, slots)[1..] == MapSlots(m, slots[1..]);
      SameSlot(m, slots[1..], name);
    }
  }

  // ----- keeping the simulation -----

  /** Two maps that agree on a value's reference send the value to the same place. */
  ghost predicate Extends(m: Ids, after: Ids) { forall i | i in after && i in m :: after[i] == m[i] }

  lemma MapAgrees(m: Ids, after: Ids, vs: seq<Value>)
    requires Extends(m, after) && AllKnown(m, vs) && AllKnown(after, vs)
    ensures MapS(after, vs) == MapS(m, vs)
  {
    forall i | 0 <= i < |vs| ensures MapS(after, vs)[i] == MapS(m, vs)[i] {
      assert vs[i] in vs && Known(m, vs[i]) && Known(after, vs[i]);
    }
  }

  lemma ObjectAgrees(m: Ids, after: Ids, o: Object)
    requires Extends(m, after) && AllKnown(m, Children(o)) && AllKnown(after, Children(o))
    ensures MapO(after, o) == MapO(m, o)
  {
    match o
    case Cells(items) => MapAgrees(m, after, items);
    case Record(definition, fields) =>
      assert Children(o) == fields + [definition];
      assert definition in Children(o) && Known(m, definition) && Known(after, definition);
      assert AllKnown(m, fields) && AllKnown(after, fields) by {
        forall v | v in fields ensures Known(m, v) && Known(after, v) { assert v in Children(o); }
      }
      MapAgrees(m, after, fields);
    case _ =>
  }

  ghost function Restrict(m: Ids, h: Heap): (r: Ids)
    ensures forall i :: i in r <==> i in m && IsLive(h, i)
    ensures forall i | i in r :: r[i] == m[i]
  {
    map i | i in m && IsLive(h, i) :: m[i]
  }

  lemma ChildrenLive(h: Heap, owed: multiset<nat>, i: nat)
    requires Accurate(h, owed) && NoneDying(h) && IsLive(h, i)
    ensures forall v | v in Children(h[i].obj) && v.Obj? :: IsLive(h, v.id)
  {
    assert !IsDying(h, i);
    SumIncludes(CellRefs, h, i);
    forall v | v in Children(h[i].obj) && v.Obj? ensures IsLive(h, v.id) {
      RefsOf(Children(h[i].obj), v.id);
      assert v == Obj(v.id);
      assert v.id in CellRefs(h[i]) && CellRefs(h[i]) <= HeapRefs(h);
      assert Count(h, v.id) == (owed + HeapRefs(h))[v.id];
    }
  }

  /** Freeing objects keeps the simulation; the interpreter's heap does not change. */
  lemma SimulatesShrunk(h: Heap, after: Heap, heap: seq<Object>, m: Ids, owed: multiset<nat>)
    requires Simulates(h, heap, m) && NoneDying(h) && Shrunk(h, after) && Accurate(after, owed)
    ensures NoneDying(after) && Simulates(after, heap, Restrict(m, after)) && Extends(m, Restrict(m, after))
  {
    var r := Restrict(m, after);
    forall i: nat ensures !IsDying(after, i) && (IsLive(after, i) ==> IsLive(h, i)) {
      if i < |h| { assert !IsDying(h, i) && CellShrunk(h[i], after[i]); }
    }
    forall i | i in r ensures i < |after| && CellMatches(r, after[i], heap, r[i]) {
      assert !IsDying(h, i) && CellShrunk(h[i], after[i]);
      assert CellMatches(m, h[i], heap, m[i]);
      ChildrenLive(after, owed, i);
      assert AllKnown(r, Children(after[i].obj)) by {
        forall v | v in Children(after[i].obj) ensures Known(r, v) { assert Known(m, v); }
      }
      ObjectAgrees(m, r, after[i].obj);
    }
  }

  lemma SimulatesSame(h: Heap, after: Heap, heap: seq<Object>, m: Ids)
    requires Simulates(h, heap, m) && NoneDying(h) && SameObjects(h, after)
    ensures NoneDying(after) && Simulates(after, heap, m)
  {
    forall i: nat ensures !IsDying(after, i) && (IsLive(after, i) <==> IsLive(h, i)) {
      if i < |h| { assert !IsDying(h, i) && CellKept(h[i], after[i]); }
    }
    forall i | i in m ensures i < |after| && CellMatches(m, after[i], heap, m[i]) {
      assert !IsDying(h, i) && CellKept(h[i], after[i]) && CellMatches(m, h[i], heap, m[i]);
    }
  }

  /** A new object gets the next creation number. */
  lemma SimulatesNew(h: Heap, after: Heap, heap: seq<Object>, m: Ids, id: nat, o: Object)
    requires Simulates(h, heap, m) && NoneDying(h) && NewObject(h, after, id, o)
    requires AllKnown(m, Children(o))
    ensures NoneDying(after)
    ensures Simulates(after, heap + [MapO(m, o)], m[id := |heap|])
    ensures Extends(m, m[id := |heap|]) && id !in m
  {
    var r, grown := m[id := |heap|], heap + [MapO(m, o)];
    forall i: nat ensures !IsDying(after, i) && (IsLive(after, i) <==> i in r) {
      if i < |h| && i != id { assert !IsDying(h, i) && CellKept(h[i], after[i]); }
    }
    forall i | i in m ensures m[i] < |heap| { assert CellMatches(m, h[i], heap, m[i]); }
    forall i | i in r ensures i < |after| && CellMatches(r, after[i], grown, r[i]) {
      if i != id {
        assert !IsDying(h, i) && CellKept(h[i], after[i]) && CellMatches(m, h[i], heap, m[i]);
        forall v | v in Children(h[i].obj) ensures Known(r, v) { assert Known(m, v); }
        ObjectAgrees(m, r, h[i].obj);
      } else {
        forall v | v in Children(o) ensures Known(r, v) { assert Known(m, v); }
        ObjectAgrees(m, r, o);
      }
    }
  }

  /** Replacing an object's contents on both sides keeps the simulation. */
  lemma SimulatesStored(h: Heap, heap: seq<Object>, m: Ids, id: nat, o: Object)
    requires Simulates(h, heap, m) && id in m && AllKnown(m, Children(o))
    ensures id < |h| && h[id].Live? && m[id] < |heap|
    ensures Simulates(h[id := h[id].(obj := o)], heap[m[id] := MapO(m, o)], m)
  {
    assert CellMatches(m, h[id], heap, m[id]);
    var g, t := h[id := h[id].(obj := o)], heap[m[id] := MapO(m, o)];
    forall i | i in m ensures i < |g| && CellMatches(m, g[i], t, m[i]) {
      assert CellMatches(m, h[i], heap, m[i]);
    }
    assert forall i: nat :: IsLive(g, i) <==> IsLive(h, i);
  }
}

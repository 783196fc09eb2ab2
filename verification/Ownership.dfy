/**
 The ownership invariant of the evaluator, on values: the heap's counts are accurate for
 the references held outside it, no teardown is in progress, and the heap stands for the
 interpreter's heap under `ids`.
 */
module Ownership {
  import opened Values
  import opened Heap
  import opened Interp
  import opened Sim
  import opened Runtime

  ghost predicate Good(h: Heap, created: seq<Object>, ids: Ids, owed: multiset<nat>) {
    Accurate(h, owed) && NoneDying(h) && Simulates(h, created, ids)
  }

  /** The two numberings agree on every reference in `held`. */
  ghost predicate Kept(before: Ids, after: Ids, held: multiset<nat>) {
    forall i | i in held :: i in before && i in after && after[i] == before[i]
  }

  ghost function SlotValues(slots: seq<SlotEntry>): (r: seq<Value>)
    ensures |r| == |slots|
  {
    seq(|slots|, i requires 0 <= i < |slots| => if slots[i].impl.Some? then slots[i].impl.value else Nil)
  }

  lemma OwedIsLive(h: Heap, created: seq<Object>, ids: Ids, owed: multiset<nat>)
    requires Good(h, created, ids, owed)
    ensures forall i | i in owed :: i in ids && IsLive(h, i) && !IsDying(h, i)
  {
    forall i | i in owed ensures i in ids && IsLive(h, i) && !IsDying(h, i) {
      HeldIsLive(h, owed, Obj(i));
    }
  }

  lemma SameView(before: Ids, after: Ids, held: multiset<nat>, vs: seq<Value>)
    requires Kept(before, after, held) && Refs(vs) <= held
    ensures MapS(after, vs) == MapS(before, vs)
  {
    forall i | 0 <= i < |vs| ensures MapS(after, vs)[i] == MapS(before, vs)[i] {
      if vs[i].Obj? {
        assert vs[i] == Obj(vs[i].id) && vs[i] in vs;
        RefsOf(vs, vs[i].id);
      }
    }
  }

  lemma SameSlotView(before: Ids, after: Ids, held: multiset<nat>, slots: seq<SlotEntry>)
    requires Kept(before, after, held) && Refs(SlotValues(slots)) <= held
    ensures MapSlots(after, slots) == MapSlots(before, slots)
  {
    SameView(before, after, held, SlotValues(slots));
    forall i | 0 <= i < |slots| ensures MapSlots(after, slots)[i] == MapSlots(before, slots)[i] {
      assert MapS(after, SlotValues(slots))[i] == MapS(before, SlotValues(slots))[i];
    }
  }

  lemma GoodShrunk(h: Heap, after: Heap, created: seq<Object>, ids: Ids, owed: multiset<nat>, rest: multiset<nat>)
    requires Good(h, created, ids, owed) && Shrunk(h, after) && Accurate(after, rest) && rest <= owed
    ensures Good(after, created, Restrict(ids, after), rest) && Kept(ids, Restrict(ids, after), rest)
  {
    SimulatesShrunk(h, after, created, ids, rest);
    OwedIsLive(h, created, ids, owed);
    OwedIsLive(after, created, Restrict(ids, after), rest);
  }

  lemma GoodSame(h: Heap, after: Heap, created: seq<Object>, ids: Ids, owed: multiset<nat>, more: multiset<nat>)
    requires Good(h, created, ids, owed) && SameObjects(h, after) && Accurate(after, more)
    ensures Good(after, created, ids, more)
  {
    SimulatesSame(h, after, created, ids);
  }

  lemma GoodNew(h: Heap, after: Heap, created: seq<Object>, ids: Ids, owed: multiset<nat>, id: nat, o: Object)
    requires Good(h, created, ids, owed) && NewObject(h, after, id, o) && Accurate(after, owed + multiset{id})
    requires AllKnown(ids, Children(o))
    ensures Good(after, created + [MapO(ids, o)], ids[id := |created|], owed + multiset{id})
    ensures Kept(ids, ids[id := |created|], owed)
  {
    OwedIsLive(h, created, ids, owed);
    SimulatesNew(h, after, created, ids, id, o);
  }

  /** What is held outside the heap is known. */
  lemma HeldIsKnown(h: Heap, created: seq<Object>, ids: Ids, owed: multiset<nat>, vs: seq<Value>)
    requires Good(h, created, ids, owed) && Refs(vs) <= owed
    ensures AllKnown(ids, vs)
  {
    OwedIsLive(h, created, ids, owed);
    forall v | v in vs ensures Known(ids, v) {
      if v.Obj? { RefsOf(vs, v.id); assert v == Obj(v.id); }
    }
  }

  /** Overwriting a place inside an object, on both sides. */
  lemma GoodOverwritten(h: Heap, after: Heap, created: seq<Object>, ids: Ids, owed: multiset<nat>, id: nat, index: nat, v: Value)
    requires Good(h, created, ids, owed + Ref(v)) && IsLive(h, id) && HasPlace(h[id].obj, index)
    requires Shrunk(Stored(h, id, index, v), after) && Accurate(after, owed)
    ensures id in ids && ids[id] < |created|
    ensures Good(after, created[ids[id] := MapO(ids, WithPlace(h[id].obj, index, v))], Restrict(ids, after), owed)
    ensures Kept(ids, Restrict(ids, after), owed)
  {
    var o := WithPlace(h[id].obj, index, v);
    OwedIsLive(h, created, ids, owed + Ref(v));
    assert AllKnown(ids, Children(o)) by { StoredKnown(h, created, ids, owed, id, index, v); }
    SimulatesStored(h, created, ids, id, o);
    var g := Stored(h, id, index, v);
    var made := created[ids[id] := MapO(ids, o)];
    assert forall k: nat :: IsDying(g, k) <==> IsDying(h, k);
    SimulatesShrunk(g, after, made, ids, owed);
    OwedIsLive(after, made, Restrict(ids, after), owed);
  }

  lemma StoredKnown(h: Heap, created: seq<Object>, ids: Ids, owed: multiset<nat>, id: nat, index: nat, v: Value)
    requires Good(h, created, ids, owed + Ref(v)) && IsLive(h, id) && HasPlace(h[id].obj, index)
    ensures AllKnown(ids, Children(WithPlace(h[id].obj, index, v)))
  {
    OwedIsLive(h, created, ids, owed + Ref(v));
    assert CellMatches(ids, h[id], created, ids[id]);
    var o := WithPlace(h[id].obj, index, v);
    forall u | u in Children(o) ensures Known(ids, u) {
      assert u == v || u in Children(h[id].obj);
    }
  }

  /** What a live object refers to is live. */
  lemma PlaceIsLive(h: Heap, created: seq<Object>, ids: Ids, owed: multiset<nat>, id: nat, index: nat)
    requires Good(h, created, ids, owed) && IsLive(h, id) && HasPlace(h[id].obj, index)
    ensures PlaceOf(h[id].obj, index).Obj? ==> IsLive(h, PlaceOf(h[id].obj, index).id)
  {
    ChildrenLive(h, owed, id);
    var o := h[id].obj;
    assert PlaceOf(o, index) == Children(o)[index];
  }

  // ----- operations on held objects mean the same on both sides -----

  lemma IndexAgrees(h: Heap, w: World, ids: Ids, owed: multiset<nat>, base: Value, index: Value)
    requires Good(h, w.heap, ids, owed) && Held([base], owed)
    ensures var o, r := Deref(h, base), ReadIndexIn(w, MapV(ids, base), MapV(ids, index));
      match CellPlace(o, index)
      case Nowhere(e) => r == Fail(e, w)
      case At(i) => HasPlace(h[base.id].obj, i) && r == Result.Value(MapV(ids, o.value.items[i]), w)
  {
    OwedIsLive(h, w.heap, ids, owed);
    assert base in [base];
    LookAlike(h, w.heap, ids, base);
    SamePlace(ids, Deref(h, base), None, index, "");
  }

  lemma FieldAgrees(h: Heap, w: World, ids: Ids, owed: multiset<nat>, base: Value, name: string)
    requires Good(h, w.heap, ids, owed) && Held([base], owed)
    ensures var o, r := Deref(h, base), ReadFieldIn(w, MapV(ids, base), name);
      match FieldPlace(o, Deref(h, Definition(o)), name)
      case Nowhere(e) => r == Fail(e, w)
      case At(i) => HasPlace(h[base.id].obj, i) && r == Result.Value(MapV(ids, o.value.fields[i]), w)
  {
    DefinitionAgrees(h, w, ids, owed, base);
    SamePlace(ids, Deref(h, base), Deref(h, Definition(Deref(h, base))), Nil, name);
  }

  lemma DefinitionAgrees(h: Heap, w: World, ids: Ids, owed: multiset<nat>, base: Value)
    requires Good(h, w.heap, ids, owed) && Held([base], owed)
    ensures var o := Deref(h, base);
      && Look(w.heap, MapV(ids, base)) == MapOpt(ids, o)
      && Look(w.heap, Definition(MapOpt(ids, o))) == MapOpt(ids, Deref(h, Definition(o)))
      && Definition(MapOpt(ids, o)) == MapV(ids, Definition(o))
  {
    OwedIsLive(h, w.heap, ids, owed);
    assert base in [base];
    LookAlike(h, w.heap, ids, base);
    var o := Deref(h, base);
    SamePlace(ids, o, None, Nil, "");
    if o.Some? && o.value.Record? {
      assert CellMatches(ids, h[base.id], w.heap, ids[base.id]);
      assert Children(o.value) == o.value.fields + [o.value.definition];
      assert o.value.definition in Children(o.value);
    }
    LookAlike(h, w.heap, ids, Definition(o));
  }

  /** The interpreter's heap after the same store. */
  ghost function StoredIn(w: World, h: Heap, ids: Ids, id: nat, index: nat, v: Value): World
    requires IsLive(h, id) && HasPlace(h[id].obj, index) && id in ids && ids[id] < |w.heap|
  {
    w.(heap := w.heap[ids[id] := MapO(ids, WithPlace(h[id].obj, index, v))])
  }

  ghost predicate CanStore(w: World, h: Heap, ids: Ids, id: nat, index: nat) {
    IsLive(h, id) && HasPlace(h[id].obj, index) && id in ids && ids[id] < |w.heap|
  }

  ghost predicate StoreAgrees(w: World, h: Heap, ids: Ids, id: nat, index: nat, v: Value, r: Interp.Result) {
    var err := Storable(v, Deref(h, v));
    if err != Ok then r == Fail(err, w)
    else CanStore(w, h, ids, id, index) && r == Result.Value(Nil, StoredIn(w, h, ids, id, index, v))
  }

  lemma IndexStoreAgrees(h: Heap, w: World, ids: Ids, owed: multiset<nat>, base: Value, index: Value, v: Value)
    requires Good(h, w.heap, ids, owed + Ref(v)) && Held([base], owed)
    ensures var o, r := Deref(h, base), WriteIndexIn(w, MapV(ids, base), MapV(ids, index), MapV(ids, v));
      match CellPlace(o, index)
      case Nowhere(e) => r == Fail(e, w)
      case At(i) => base.Obj? && base.id in owed && StoreAgrees(w, h, ids, base.id, i, v, r)
  {
    OwedIsLive(h, w.heap, ids, owed + Ref(v));
    assert base in [base];
    LookAlike(h, w.heap, ids, base);
    LookAlike(h, w.heap, ids, v);
    SameClass(ids, v, Deref(h, v));
    SamePlace(ids, Deref(h, base), None, index, "");
    var o := Deref(h, base);
    if CellPlace(o, index).At? {
      assert CellMatches(ids, h[base.id], w.heap, ids[base.id]);
      var i := CellPlace(o, index).index;
      assert MapS(ids, o.value.items[i := v]) == MapS(ids, o.value.items)[i := MapV(ids, v)];
    }
  }

  lemma FieldStoreAgrees(h: Heap, w: World, ids: Ids, owed: multiset<nat>, base: Value, name: string, v: Value)
    requires Good(h, w.heap, ids, owed + Ref(v)) && Held([base], owed)
    ensures var o, r := Deref(h, base), WriteFieldIn(w, MapV(ids, base), name, MapV(ids, v));
      if Storable(v, Deref(h, v)) != Ok then r == Fail(Storable(v, Deref(h, v)), w)
      else match FieldPlace(o, Deref(h, Definition(o)), name)
           case Nowhere(e) => r == Fail(e, w)
           case At(i) => base.Obj? && base.id in owed && StoreAgrees(w, h, ids, base.id, i, v, r)
  {
    hide Good, Held, FieldPlace, Storable, Ref, MapO, MapS, Look, StoredIn;
    HeldMore([base], owed, Ref(v));
    DefinitionAgrees(h, w, ids, owed + Ref(v), base);
    StorableAgrees(h, w, ids, owed, v);
    var o := Deref(h, base);
    SamePlace(ids, o, Deref(h, Definition(o)), Nil, name);
    FieldPlaceBounds(o, Deref(h, Definition(o)), name);
    if FieldPlace(o, Deref(h, Definition(o)), name).At? {
      HeldIsHere(h, w, ids, owed, base, v);
      FieldStored(h, w, ids, owed, base.id, FieldPlace(o, Deref(h, Definition(o)), name).index, v);
    }
  }

  lemma StorableAgrees(h: Heap, w: World, ids: Ids, owed: multiset<nat>, v: Value)
    requires Good(h, w.heap, ids, owed + Ref(v))
    ensures Storable(MapV(ids, v), Look(w.heap, MapV(ids, v))) == Storable(v, Deref(h, v))
  {
    OwedIsLive(h, w.heap, ids, owed + Ref(v));
    LookAlike(h, w.heap, ids, v);
    SameClass(ids, v, Deref(h, v));
  }

  lemma HeldIsHere(h: Heap, w: World, ids: Ids, owed: multiset<nat>, base: Value, v: Value)
    requires Good(h, w.heap, ids, owed + Ref(v)) && Held([base], owed) && base.Obj?
    ensures base.id in owed && base.id in ids && IsLive(h, base.id)
  {
    OwedIsLive(h, w.heap, ids, owed + Ref(v));
    assert base in [base];
  }

  lemma FieldPlaceBounds(o: Option<Object>, def: Option<Object>, name: string)
    ensures FieldPlace(o, def, name).At? ==> o.Some? && o.value.Record? && FieldPlace(o, def, name).index < |o.value.fields|
  {
  }

  lemma FieldStored(h: Heap, w: World, ids: Ids, owed: multiset<nat>, id: nat, i: nat, v: Value)
    requires Good(h, w.heap, ids, owed + Ref(v)) && IsLive(h, id) && id in ids && h[id].obj.Record? && i < |h[id].obj.fields|
    ensures CanStore(w, h, ids, id, i)
    ensures var o := MapO(ids, h[id].obj);
      StoredIn(w, h, ids, id, i, v) == w.(heap := w.heap[ids[id] := Record(o.definition, o.fields[i := MapV(ids, v)])])
  {
    assert CellMatches(ids, h[id], w.heap, ids[id]);
    assert MapS(ids, h[id].obj.fields[i := v]) == MapS(ids, h[id].obj.fields)[i := MapV(ids, v)];
  }


  lemma HeldMore(values: seq<Value>, owed: multiset<nat>, more: multiset<nat>)
    requires Held(values, owed)
    ensures Held(values, owed + more)
  {
  }

  lemma KeptAlready(h: Heap, created: seq<Object>, ids: Ids, owed: multiset<nat>, v: Value, held: multiset<nat>)
    requires Good(h, created, ids, owed + Ref(v)) && held <= owed
    ensures Kept(ids, ids, held)
  {
    OwedIsLive(h, created, ids, owed + Ref(v));
  }
}

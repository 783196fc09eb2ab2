/**
 The evaluator: an explicit stack of phase-numbered frames, an argument arena, and
 hand-tracked ownership of every reference.

 Two ghost fields tie it to the interpreter: `created` is the interpreter's heap and
 `ids` numbers the live objects by order of creation.  `Now` is the evaluator's state
 with references given by creation number.
 */
module Evaluator {
  import opened Ir
  import opened Values
  import opened Heap
  import Packed
  import opened Storage
  import opened Runtime
  import opened Interp
  import opened Sim
  import opened Ownership
  import opened Continuation
  import opened Steps

  /** The references that frames, arena, result and slots own; `outer` is what the frames
      of suspended evaluations hold. */
  ghost function RootRefs(outer: seq<Value>, scratch: seq<Value>, arena: seq<Value>, result: Value, slots: seq<SlotEntry>): multiset<nat> {
    Refs(outer) + (Refs(scratch) + Refs(arena) + Ref(result) + Refs(SlotValues(slots)))
  }

  ghost function View(ids: Ids, frames: seq<Frame>, scratch: seq<Value>, arena: seq<Value>, result: Value, world: World): Config {
    Config(frames, MapS(ids, scratch), MapS(ids, arena), MapV(ids, result), world)
  }

  lemma SameConfig(before: Ids, after: Ids, outer: seq<Value>, scratch: seq<Value>, arena: seq<Value>, result: Value, slots: seq<SlotEntry>)
    requires Kept(before, after, RootRefs(outer, scratch, arena, result, slots))
    ensures MapS(after, scratch) == MapS(before, scratch) && MapS(after, arena) == MapS(before, arena)
    ensures MapV(after, result) == MapV(before, result) && MapSlots(after, slots) == MapSlots(before, slots)
    ensures MapS(after, outer) == MapS(before, outer)
  {
    var held := RootRefs(outer, scratch, arena, result, slots);
    SameView(before, after, held, scratch);
    SameView(before, after, held, arena);
    SameView(before, after, held, outer);
    SameSlotView(before, after, held, slots);
    if result.Obj? { assert result.id in held; }
  }

  function ValueIn(scratch: seq<Value>, arena: seq<Value>, result: Value, loc: Loc): Value {
    match loc
    case ToResult => result
    case ToScratch(i) => if i < |scratch| then scratch[i] else Nil
    case ToArena(i) => if i < |arena| then arena[i] else Nil
  }

  predicate Within(loc: Loc, scratch: nat, arena: nat) {
    match loc
    case ToResult => true
    case ToScratch(i) => i < scratch
    case ToArena(i) => i < arena
  }

  /** One of the two stores after `v` has been put at number `i`, if the location is in it. */
  function With(store: seq<Value>, here: bool, i: nat, v: Value): seq<Value> {
    if here && i < |store| then store[i := v] else store
  }

  lemma Moved(o: multiset<nat>, s: multiset<nat>, a: multiset<nat>, r: multiset<nat>, s1: multiset<nat>, a1: multiset<nat>, r1: multiset<nat>,
              t: multiset<nat>, x: multiset<nat>, y: multiset<nat>, loose: multiset<nat>)
    requires (s1 + x == s + y && a1 == a && r1 == r) || (s1 == s && a1 + x == a + y && r1 == r)
          || (s1 == s && a1 == a && r1 + x == r + y)
    ensures o + (s1 + a1 + r1 + t) + (loose + x) == o + (s + a + r + t) + (loose + y)
  {
    forall k ensures (o + (s1 + a1 + r1 + t) + (loose + x))[k] == (o + (s + a + r + t) + (loose + y))[k] {
      assert (s1 + x)[k] == (s + y)[k] || (a1 + x)[k] == (a + y)[k] || (r1 + x)[k] == (r + y)[k];
    }
  }

  /** Swapping one place's value for another moves one reference each way. */
  lemma PlaceMoved(outer: seq<Value>, scratch: seq<Value>, arena: seq<Value>, result: Value, slots: seq<SlotEntry>, loc: Loc, v: Value, loose: multiset<nat>)
    requires Within(loc, |scratch|, |arena|)
    ensures RootRefs(outer, With(scratch, loc.ToScratch?, Index(loc), v), With(arena, loc.ToArena?, Index(loc), v),
                     if loc.ToResult? then v else result, slots)
              + (loose + Ref(ValueIn(scratch, arena, result, loc)))
         == RootRefs(outer, scratch, arena, result, slots) + (loose + Ref(v))
  {
    var u := ValueIn(scratch, arena, result, loc);
    var scratch1, arena1 := With(scratch, loc.ToScratch?, Index(loc), v), With(arena, loc.ToArena?, Index(loc), v);
    var result1 := if loc.ToResult? then v else result;
    match loc {
      case ToScratch(i) => RefsUpdate(scratch, i, v);
      case ToArena(i) => RefsUpdate(arena, i, v);
      case ToResult =>
    }
    assert loc.ToResult? ==> Ref(result1) + Ref(u) == Ref(result) + Ref(v);
    hide Refs, Ref;
    Moved(Refs(outer), Refs(scratch), Refs(arena), Ref(result), Refs(scratch1), Refs(arena1), Ref(result1),
          Refs(SlotValues(slots)), Ref(u), Ref(v), loose);
  }

  lemma ViewPut(ids: Ids, frames: seq<Frame>, scratch: seq<Value>, arena: seq<Value>, result: Value, w: World, loc: Loc, v: Value)
    requires Within(loc, |scratch|, |arena|)
    ensures View(ids, frames, With(scratch, loc.ToScratch?, Index(loc), v), With(arena, loc.ToArena?, Index(loc), v),
                 if loc.ToResult? then v else result, w)
         == Put(View(ids, frames, scratch, arena, result, w), loc, MapV(ids, v))
  {
    match loc
    case ToScratch(i) => assert MapS(ids, scratch[i := v]) == MapS(ids, scratch)[i := MapV(ids, v)];
    case ToArena(i) => assert MapS(ids, arena[i := v]) == MapS(ids, arena)[i := MapV(ids, v)];
    case ToResult =>
  }

  lemma Replaced(scratch: seq<Value>, arena: seq<Value>, result: Value, loc: Loc, v: Value)
    requires Within(loc, |scratch|, |arena|)
    ensures var scratch1, arena1 := With(scratch, loc.ToScratch?, Index(loc), v), With(arena, loc.ToArena?, Index(loc), v);
      |scratch1| == |scratch| && |arena1| == |arena|
      && ValueIn(scratch1, arena1, if loc.ToResult? then v else result, loc) == v
  {
  }

  /** Errors that only a machine of finite size can meet, or that come from outside. */
  const RESOURCE_ERRORS: set<Error> := {CallDepth, OutOfMemory, CellspaceFull, SlotTableFull, Interrupted}

  /** The top frame's own scratch and the world may differ. */
  ghost predicate SameBelow(before: Config, c: Config) {
    && before.frames != [] && c.frames == before.frames && c.arena == before.arena && c.result == before.result
    && |c.scratch| == |before.scratch| && forall i | 0 <= i < SCRATCH * (|c.frames| - 1) && i < |c.scratch| :: c.scratch[i] == before.scratch[i]
  }

  /** The top frame's delivery place exists and is empty, and its buffer ends the arena. */
  ghost predicate Deliverable(c: Config) {
    c.frames != [] &&
    var f := Top(c);
    && Within(f.out, |c.scratch|, |c.arena|) && Get(c, f.out) == Nil
    && |c.scratch| == SCRATCH * |c.frames| && (f.bufferCount > 0 ==> f.bufferBase + f.bufferCount == |c.arena|)
  }

  function Delivery(c: Config, v: Value): Config
    requires c.frames != []
  {
    DropTop(Put(c, Top(c).out, v))
  }

  ghost function LocalMoved(c: Config, i: nat, k: nat): Config
    requires i < |c.arena| && k < |c.scratch|
  {
    c.(arena := c.arena[i := c.scratch[k]], scratch := c.scratch[k := Nil])
  }

  class Machine {
    const rt: Runtime
    const frameLimit: nat
    const valueLimit: nat
    const slotLimit: nat
    var booted: bool
    var outerFrames: seq<Frame>    // frames of suspended evaluations: the stack below `base_depth`
    var outerScratch: seq<Value>
    var frames: seq<Frame>         // frames of this evaluation
    var scratch: seq<Value>        // three per frame
    var arena: seq<Value>          // the part in use
    var result: Value
    var slots: seq<SlotEntry>
    var script: seq<NativeEffect>  // what the environment makes native calls do
    var polls: seq<bool>           // whether an interrupt is pending at each poll
    var epoch: nat
    ghost var outerHeld: seq<Value>  // `outerScratch`, or nothing once a reset has made it stale
    ghost var outerView: seq<Value>  // what the values in `outerHeld` stand for
    ghost var ids: Ids
    ghost var created: seq<Object>
    ghost var met: set<Error>        // the limits that have been met, and whether an interrupt was

    /** A resource has run out, or an interrupt was pending when it was polled for. */
    ghost predicate Met(err: Error) reads this`met { err in RESOURCE_ERRORS && err in met }

    constructor (rt: Runtime, frameLimit: nat, valueLimit: nat, slotLimit: nat, booted: bool,
                 script: seq<NativeEffect>, polls: seq<bool>)
      requires rt.Valid() && rt.heap == [] && Accurate(rt.heap, multiset{})
      ensures met == {} && Owned(multiset{}) && this.rt == rt && outerFrames == [] && outerScratch == [] && frames == [] && scratch == [] && arena == [] && slots == []
    {
      this.rt, this.frameLimit, this.valueLimit, this.slotLimit := rt, frameLimit, valueLimit, slotLimit;
      this.booted, this.script, this.polls := booted, script, polls;
      outerFrames, outerScratch, outerHeld, outerView := [], [], [], [];
      frames, scratch, arena, result, slots, epoch := [], [], [], Nil, [], 0;
      ids, created, met := map[], [], {};
      new;
      assert Roots() + multiset{} == multiset{};
    }

    ghost function Roots(): multiset<nat> reads this { RootRefs(outerHeld, scratch, arena, result, slots) }

    /** The evaluator's references, plus those in `loose`, are exactly the ones counted. */
    ghost predicate Owned(loose: multiset<nat>)
      reads this, rt, rt.payload, rt.payload.spans, rt.cellspace, rt.cellspace.spans
    {
      rt.Valid() && Good(rt.heap, created, ids, Roots() + loose) && MapS(ids, outerHeld) == outerView
    }

    /** What no evaluation changes: the stack below it, and whether the base image is booted. */
    ghost function Fixed(): (seq<Frame>, seq<Value>, bool) reads this`outerFrames, this`outerScratch, this`booted {
      (outerFrames, outerScratch, booted)
    }

    /** What the frames below hold, and what that stands for. */
    ghost function Beneath(): (seq<Value>, seq<Value>) reads this`outerHeld, this`outerView { (outerHeld, outerView) }

    ghost function Now(): Config reads this {
      View(ids, frames, scratch, arena, result, World(created, MapSlots(ids, slots), script, booted))
    }

    function ValueAt(loc: Loc): Value reads this { ValueIn(scratch, arena, result, loc) }

    lemma GetNow(loc: Loc)
      ensures Get(Now(), loc) == MapV(ids, ValueAt(loc))
    {
    }

    /** Stores through an out-pointer. */
    method Write(loc: Loc, v: Value)
      requires Within(loc, |scratch|, |arena|)
      modifies this`scratch, this`arena, this`result
      ensures scratch == With(old(scratch), loc.ToScratch?, Index(loc), v)
      ensures arena == With(old(arena), loc.ToArena?, Index(loc), v)
      ensures result == if loc.ToResult? then v else old(result)
    {
      match loc
      case ToResult => result := v;
      case ToScratch(i) => scratch := scratch[i := v];
      case ToArena(i) => arena := arena[i := v];
    }

    /** Moves a value out of its place. */
    method Take(loc: Loc, ghost loose: multiset<nat>) returns (v: Value)
      requires Owned(loose) && Within(loc, |scratch|, |arena|)
      modifies this`scratch, this`arena, this`result
      ensures Owned(loose + Ref(v)) && v == old(ValueAt(loc)) && ValueAt(loc) == Nil
      ensures Now() == Put(old(Now()), loc, Nil) && MapV(ids, v) == Get(old(Now()), loc)
      ensures |scratch| == old(|scratch|) && |arena| == old(|arena|)
    {
      hide RootRefs, Good, Runtime.Valid, View, Put, With, Get, ValueIn, Within, Index;
      v := ValueAt(loc);
      PlaceMoved(outerHeld, scratch, arena, result, slots, loc, Nil, loose);
      ViewPut(ids, frames, scratch, arena, result, World(created, MapSlots(ids, slots), script, booted), loc, Nil);
      GetNow(loc);
      assert loose + Ref(Nil) == loose;
      Replaced(scratch, arena, result, loc, Nil);
      Write(loc, Nil);
    }

    /** Moves a value into an empty place. */
    method Give(loc: Loc, v: Value, ghost loose: multiset<nat>)
      requires Owned(loose + Ref(v)) && Within(loc, |scratch|, |arena|) && ValueAt(loc) == Nil
      modifies this`scratch, this`arena, this`result
      ensures Owned(loose) && ValueAt(loc) == v && Now() == Put(old(Now()), loc, MapV(ids, v))
      ensures |scratch| == old(|scratch|) && |arena| == old(|arena|)
    {
      hide RootRefs, Good, Runtime.Valid, View, Put, With, Get, ValueIn, Within, Index;
      PlaceMoved(outerHeld, scratch, arena, result, slots, loc, v, loose);
      ViewPut(ids, frames, scratch, arena, result, World(created, MapSlots(ids, slots), script, booted), loc, v);
      assert loose + Ref(Nil) == loose;
      Replaced(scratch, arena, result, loc, v);
      Write(loc, v);
    }

    /** Gives up a reference that is not in any place. */
    method Drop(v: Value, ghost loose: multiset<nat>)
      requires Owned(loose + Ref(v))
      modifies this`ids, rt, rt.payload, rt.payload.spans, rt.cellspace, rt.cellspace.spans
      ensures Owned(loose) && Now() == old(Now()) && Kept(old(ids), ids, loose)
    {
      hide RootRefs, Good, Runtime.Valid;
      ghost var owed, before := Roots() + loose, rt.heap;
      assert Roots() + (loose + Ref(v)) == owed + Ref(v);
      GoodIsAccurate(rt.heap, created, ids, owed + Ref(v));
      rt.Release(v, owed);
      GoodShrunk(before, rt.heap, created, ids, owed + Ref(v), owed);
      ghost var after := Restrict(ids, rt.heap);
      SameConfig(ids, after, outerHeld, scratch, arena, result, slots);
      ids := after;
    }

    /** Takes a second reference to a value. */
    method Share(v: Value, ghost loose: multiset<nat>)
      requires Owned(loose) && (v.Obj? ==> IsLive(rt.heap, v.id))
      modifies rt`heap
      ensures Owned(loose + Ref(v)) && SameObjects(old(rt.heap), rt.heap)
    {
      hide RootRefs, Runtime.Valid;
      ghost var owed, before := Roots() + loose, rt.heap;
      assert v.Obj? ==> !IsDying(rt.heap, v.id);
      GoodIsAccurate(rt.heap, created, ids, owed);
      hide Good;
      rt.Retain(v, owed);
      GoodSame(before, rt.heap, created, ids, owed, owed + Ref(v));
      assert owed + Ref(v) == Roots() + (loose + Ref(v));
    }

    // ----- allocating -----

    ghost predicate Allocated(before: Config, v: Value, o: Object) reads this {
      && Now() == before.(world := before.world.(heap := before.world.heap + [o]))
      && MapV(ids, v) == Obj(|before.world.heap|)
    }

    /** Enters a new object in the interpreter's heap. */
    ghost method Enter(v: Value, o: Object, before: Heap, loose: multiset<nat>)
      requires rt.Valid() && v.Obj? && Good(before, created, ids, Roots() + loose)
      requires NewObject(before, rt.heap, v.id, o) && Accurate(rt.heap, (Roots() + loose) + Ref(v))
      requires AllKnown(ids, Children(o)) && MapS(ids, outerHeld) == outerView
      modifies this`ids, this`created
      ensures Owned(loose + Ref(v)) && Allocated(old(Now()), v, MapO(old(ids), o)) && Kept(old(ids), ids, loose)
    {
      hide RootRefs, Good, Runtime.Valid, Accurate, NewObject, MapO;
      GoodNew(before, rt.heap, created, ids, Roots() + loose, v.id, o);
      ghost var after := ids[v.id := |created|];
      SameConfig(ids, after, outerHeld, scratch, arena, result, slots);
      assert (Roots() + loose) + Ref(v) == Roots() + (loose + Ref(v));
      created := created + [MapO(ids, o)];
      ids := after;
    }

    method NewLeaf(o: Object, length: nat, ghost loose: multiset<nat>) returns (err: Error, v: Value)
      requires Owned(loose) && Children(o) == [] && !o.Cells? && PayloadBytes(rt.machine, o) <= length
      modifies this`met, this`ids, this`created, rt, rt.payload, rt.payload.spans
      ensures err == Ok ==> Owned(loose + Ref(v)) && Allocated(old(Now()), v, o) && Kept(old(ids), ids, loose)
      ensures err != Ok ==> err == OutOfMemory && Owned(loose) && Now() == old(Now()) && ids == old(ids)
      ensures Metered(err, old(rt.Available()), rt.Available(), Room(1, Packed.AlignUp(length, rt.alignment), 0))
      ensures met == if err == Ok then old(met) else old(met) + {err}
    {
      hide RootRefs, Good, Runtime.Valid, Accurate, NewObject, Metered, Runtime.Available;
      ghost var before := rt.heap;
      GoodIsAccurate(rt.heap, created, ids, Roots() + loose);
      err, v := rt.AllocLeaf(o, length, Roots() + loose);
      if err == Ok { Enter(v, o, before, loose); } else { met := met + {err}; }
    }

    method NewCells(n: nat, ghost loose: multiset<nat>) returns (err: Error, v: Value)
      requires Owned(loose)
      modifies this`met, this`ids, this`created, rt, rt.cellspace, rt.cellspace.spans
      ensures err == Ok ==> n > 0 && Owned(loose + Ref(v)) && Allocated(old(Now()), v, Cells(Nils(n))) && Kept(old(ids), ids, loose)
      ensures err != Ok ==> err in {Bounds, CellspaceFull, OutOfMemory} && (err == Bounds <==> n == 0)
                            && Owned(loose) && Now() == old(Now()) && ids == old(ids)
      ensures Metered(err, old(rt.Available()), rt.Available(), Room(1, 0, n))
      ensures met == if err == Ok || n == 0 then old(met) else old(met) + {err}
    {
      hide RootRefs, Good, Runtime.Valid, Accurate, NewObject, Metered, Runtime.Available;
      ghost var before := rt.heap;
      GoodIsAccurate(rt.heap, created, ids, Roots() + loose);
      err, v := rt.AllocCells(n, Roots() + loose);
      if err == Ok {
        assert seq(n, _ => Nil) == Nils(n) && MapS(ids, Nils(n)) == Nils(n);
        Enter(v, Cells(Nils(n)), before, loose);
      } else if n > 0 {
        met := met + {err};
      }
    }

    method NewRecord(definition: Value, fields: seq<Value>, ghost loose: multiset<nat>) returns (err: Error, v: Value)
      requires Owned(loose) && Held([definition] + fields, Roots() + loose)
      modifies this`met, this`ids, this`created, rt, rt.payload, rt.payload.spans
      ensures err == Ok ==> Owned(loose + Ref(v)) && Kept(old(ids), ids, loose)
      ensures err == Ok ==> Allocated(old(Now()), v, MapO(old(ids), Record(definition, fields)))
      ensures err != Ok ==> err == OutOfMemory && Owned(loose) && Now() == old(Now()) && ids == old(ids)
      ensures Metered(err, old(rt.Available()), rt.Available(), rt.Need(Record(definition, fields)))
      ensures met == if err == Ok then old(met) else old(met) + {err}
    {
      hide RootRefs, Good, Runtime.Valid, Accurate, NewObject, SameObjects, MapO, Metered, Runtime.Available;
      ghost var before := rt.heap;
      GoodIsAccurate(rt.heap, created, ids, Roots() + loose);
      RecordKnown(rt.heap, created, ids, Roots() + loose, definition, fields);
      err, v := rt.AllocRecord(definition, fields, Roots() + loose);
      if err == Ok {
        Enter(v, Record(definition, fields), before, loose);
      } else {
        GoodSame(before, rt.heap, created, ids, Roots() + loose, Roots() + loose);
        met := met + {err};
      }
    }

    // ----- cells and record fields -----

    method ReadIndexOwned(base: Value, index: Value, ghost loose: multiset<nat>) returns (err: Error, v: Value)
      requires Owned(loose) && Held([base], Roots() + loose)
      modifies rt`heap
      ensures err == Ok ==> Owned(loose + Ref(v))
      ensures err != Ok ==> Owned(loose) && v == Nil
      ensures ReadIndexIn(Now().world, MapV(ids, base), MapV(ids, index))
           == if err == Ok then Result.Value(MapV(ids, v), Now().world) else Fail(err, Now().world)
    {
      hide RootRefs, Good, Runtime.Valid, ReadIndexIn;
      IndexAgrees(rt.heap, Now().world, ids, Roots() + loose, base, index);
      var o := Deref(rt.heap, base);
      match CellPlace(o, index)
      case Nowhere(e) => err, v := e, Nil;
      case At(i) =>
        v := o.value.items[i];
        PlaceIsLive(rt.heap, created, ids, Roots() + loose, base.id, i);
        Share(v, loose);
        err := Ok;
    }

    method ReadFieldOwned(base: Value, name: string, ghost loose: multiset<nat>) returns (err: Error, v: Value)
      requires Owned(loose) && Held([base], Roots() + loose)
      modifies rt`heap
      ensures err == Ok ==> Owned(loose + Ref(v))
      ensures err != Ok ==> Owned(loose) && v == Nil
      ensures ReadFieldIn(Now().world, MapV(ids, base), name)
           == if err == Ok then Result.Value(MapV(ids, v), Now().world) else Fail(err, Now().world)
    {
      hide RootRefs, Good, Runtime.Valid, ReadFieldIn;
      FieldAgrees(rt.heap, Now().world, ids, Roots() + loose, base, name);
      var o := Deref(rt.heap, base);
      match FieldPlace(o, Deref(rt.heap, Definition(o)), name)
      case Nowhere(e) => err, v := e, Nil;
      case At(i) =>
        v := o.value.fields[i];
        PlaceIsLive(rt.heap, created, ids, Roots() + loose, base.id, i);
        Share(v, loose);
        err := Ok;
    }

    /** Moves `v` into a place of a held object and drops what was there. */
    method Overwrite(id: nat, index: nat, v: Value, ghost loose: multiset<nat>)
      requires Owned(loose + Ref(v)) && id in Roots() + loose
      requires IsLive(rt.heap, id) && HasPlace(rt.heap[id].obj, index)
      modifies this`ids, this`created, rt, rt.payload, rt.payload.spans, rt.cellspace, rt.cellspace.spans
      ensures old(id in ids && ids[id] < |created|)
      ensures Owned(loose) && Kept(old(ids), ids, loose)
      ensures Now() == old(Now()).(world := old(Now()).world.(heap :=
        old(created)[old(ids)[id] := MapO(old(ids), WithPlace(old(rt.heap)[id].obj, index, v))]))
    {
      hide RootRefs, Good, Runtime.Valid, Accurate, MapO, HasPlace, WithPlace, Shrunk;
      ghost var owed, before := Roots() + loose, rt.heap;
      assert Roots() + (loose + Ref(v)) == owed + Ref(v);
      GoodIsAccurate(rt.heap, created, ids, owed + Ref(v));
      rt.Overwrite(id, index, v, owed);
      GoodOverwritten(before, rt.heap, created, ids, owed, id, index, v);
      ghost var after := Restrict(ids, rt.heap);
      SameConfig(ids, after, outerHeld, scratch, arena, result, slots);
      created := created[ids[id] := MapO(ids, WithPlace(before[id].obj, index, v))];
      ids := after;
    }

    method WriteIndexOwned(base: Value, index: Value, v: Value, ghost loose: multiset<nat>) returns (err: Error)
      requires Owned(loose + Ref(v)) && Held([base], Roots() + loose)
      modifies this`ids, this`created, rt, rt.payload, rt.payload.spans, rt.cellspace, rt.cellspace.spans
      ensures Kept(old(ids), ids, loose)
      ensures err == Ok ==> Owned(loose)
      ensures err != Ok ==> Owned(loose + Ref(v)) && ids == old(ids)
      ensures Now() == old(Now()).(world := Now().world)
      ensures WriteIndexIn(old(Now()).world, MapV(old(ids), base), MapV(old(ids), index), MapV(old(ids), v))
           == if err == Ok then Result.Value(Nil, Now().world) else Fail(err, old(Now()).world)
      ensures err != Ok ==> Now() == old(Now())
    {
      hide RootRefs, Good, Runtime.Valid, WriteIndexIn;
      assert Roots() + (loose + Ref(v)) == (Roots() + loose) + Ref(v);
      IndexStoreAgrees(rt.heap, Now().world, ids, Roots() + loose, base, index, v);
      KeptAlready(rt.heap, created, ids, Roots() + loose, v, loose);
      var o := Deref(rt.heap, base);
      match CellPlace(o, index)
      case Nowhere(e) => err := e;
      case At(i) =>
        err := Storable(v, Deref(rt.heap, v));
        if err == Ok { Overwrite(base.id, i, v, loose); }
    }

    method WriteFieldOwned(base: Value, name: string, v: Value, ghost loose: multiset<nat>) returns (err: Error)
      requires Owned(loose + Ref(v)) && Held([base], Roots() + loose)
      modifies this`ids, this`created, rt, rt.payload, rt.payload.spans, rt.cellspace, rt.cellspace.spans
      ensures Kept(old(ids), ids, loose)
      ensures err == Ok ==> Owned(loose)
      ensures err != Ok ==> Owned(loose + Ref(v)) && ids == old(ids)
      ensures Now() == old(Now()).(world := Now().world)
      ensures WriteFieldIn(old(Now()).world, MapV(old(ids), base), name, MapV(old(ids), v))
           == if err == Ok then Result.Value(Nil, Now().world) else Fail(err, old(Now()).world)
      ensures err != Ok ==> Now() == old(Now())
    {
      hide RootRefs, Good, Runtime.Valid, WriteFieldIn;
      assert Roots() + (loose + Ref(v)) == (Roots() + loose) + Ref(v);
      FieldStoreAgrees(rt.heap, Now().world, ids, Roots() + loose, base, name, v);
      KeptAlready(rt.heap, created, ids, Roots() + loose, v, loose);
      err := Storable(v, Deref(rt.heap, v));
      if err != Ok { return; }
      var o := Deref(rt.heap, base);
      match FieldPlace(o, Deref(rt.heap, Definition(o)), name)
      case Nowhere(e) => err := e;
      case At(i) => Overwrite(base.id, i, v, loose);
    }

    // ----- slots -----

    /** Replaces or appends a slot entry; the reference it held comes loose. */
    method SetEntry(i: nat, e: SlotEntry, ghost loose: multiset<nat>) returns (ghost u: Value)
      requires i <= |slots| && Owned(loose + Ref(EntryValue(e)))
      modifies this`slots
      ensures slots == WithEntry(old(slots), i, e)
      ensures u == (if i < |old(slots)| then EntryValue(old(slots)[i]) else Nil) && Owned(loose + Ref(u))
      ensures Now() == old(Now()).(world := old(Now()).world.(slots := MapSlots(ids, slots)))
    {
      hide RootRefs, Good, Runtime.Valid, EntryValue;
      u := if i < |slots| then EntryValue(slots[i]) else Nil;
      EntryMoved(outerHeld, scratch, arena, result, slots, i, e, loose);
      slots := if i < |slots| then slots[i := e] else slots + [e];
    }

    method ReadSlotOwned(name: string, ghost loose: multiset<nat>) returns (err: Error, v: Value)
      requires Owned(loose)
      modifies rt`heap
      ensures err == Ok ==> Owned(loose + Ref(v))
      ensures err != Ok ==> Owned(loose) && v == Nil
      ensures ReadSlotIn(Now().world, name) == if err == Ok then Result.Value(MapV(ids, v), Now().world) else Fail(err, Now().world)
    {
      hide RootRefs, Good, Runtime.Valid;
      SameSlot(ids, slots, name);
      match ReadSlotValue(slots, name)
      case None => err, v := UndefinedWord, Nil;
      case Some(impl) =>
        SlotIsLive(rt.heap, created, ids, outerHeld, scratch, arena, result, slots, FindSlot(slots, name), loose);
        Share(impl, loose);
        err, v := Ok, impl;
    }

    method WriteSlotOwned(name: string, v: Value, requireExisting: bool, ghost loose: multiset<nat>) returns (err: Error)
      requires Owned(loose + Ref(v))
      modifies this`met, this`ids, this`slots, rt, rt.payload, rt.payload.spans, rt.cellspace, rt.cellspace.spans
      ensures Kept(old(ids), ids, loose)
      ensures err == Ok ==> Owned(loose)
      ensures err != Ok ==> Owned(loose + Ref(v)) && ids == old(ids) && Now() == old(Now())
      ensures Now() == old(Now()).(world := Now().world)
      ensures err != SlotTableFull ==>
        WriteSlotIn(old(Now()).world, name, MapV(old(ids), v), requireExisting)
          == if err == Ok then Result.Value(Nil, Now().world) else Fail(err, old(Now()).world)
      ensures met == if err == SlotTableFull then old(met) + {SlotTableFull} else old(met)
      ensures err == SlotTableFull ==> |old(slots)| >= slotLimit && forall k :: 0 <= k < |old(slots)| ==> old(slots)[k].name != name
      ensures !v.Slot? && !requireExisting && |old(slots)| < slotLimit ==> err == Ok
    {
      hide RootRefs, Good, Runtime.Valid, SlotWriteCheck, BindSlot, MapSlots, SlotArity, MapS, Deref, FindSlot;
      KeptLoose(rt.heap, created, ids, Roots(), loose, v);
      SlotCheckAgrees(ids, slots, name, v, requireExisting);
      err := SlotWriteCheck(slots, name, v, requireExisting);
      CheckErrors(slots, name, v, requireExisting);
      if err != Ok { return; }
      var i := FindSlot(slots, name);
      if i == |slots| && |slots| >= slotLimit {
        met := met + {SlotTableFull};
        return SlotTableFull;
      }
      BindOwned(i, name, v, loose);
    }

    /** Moves a value into a slot, which is created if it is not there. */
    method BindOwned(i: nat, name: string, v: Value, ghost loose: multiset<nat>)
      requires Owned(loose + Ref(v)) && i == FindSlot(slots, name)
      modifies this`ids, this`slots, rt, rt.payload, rt.payload.spans, rt.cellspace, rt.cellspace.spans
      ensures Owned(loose) && Kept(old(ids), ids, loose)
      ensures Now() == old(Now()).(world := old(Now()).world.(slots :=
        BindSlot(old(Now()).world.slots, name, MapV(old(ids), v), booted, SlotArity(Look(old(Now()).world.heap, MapV(old(ids), v))))))
    {
      hide RootRefs, Good, Runtime.Valid, BindSlot, MapSlots, SlotArity, MapS, Deref, FindSlot;
      ghost var before, start := ids, slots;
      KeptLoose(rt.heap, created, ids, Roots(), loose, v);
      Unbind(i, name, v, loose);
      var arity := SlotArity(Deref(rt.heap, v));
      BoundAgrees(before, ids, start, slots, name, v, booted, arity);
      ArityAgrees(rt.heap, created, ids, Roots(), loose, v);
      ghost var u := SetEntry(i, SlotEntry(name, Some(v), booted, arity), loose);
      assert loose + Ref(u) == loose;
    }

    static lemma CheckErrors(slots: seq<SlotEntry>, name: string, v: Value, requireExisting: bool)
      ensures SlotWriteCheck(slots, name, v, requireExisting) != SlotTableFull
      ensures !v.Slot? && !requireExisting ==> SlotWriteCheck(slots, name, v, requireExisting) == Ok
    {
    }

    /** Creates the slot, or releases what it was bound to. */
    method Unbind(i: nat, name: string, ghost v: Value, ghost loose: multiset<nat>)
      requires Owned(loose + Ref(v)) && i <= |slots|
      modifies this`ids, this`slots, rt, rt.payload, rt.payload.spans, rt.cellspace, rt.cellspace.spans
      ensures Owned(loose + Ref(v)) && Kept(old(ids), ids, loose + Ref(v))
      ensures exists e :: EntryValue(e) == Nil && slots == WithEntry(old(slots), i, e)
      ensures MapSlots(ids, slots) == MapSlots(old(ids), slots)
      ensures Now() == old(Now()).(world := old(Now()).world.(slots := MapSlots(ids, slots)))
    {
      hide RootRefs, Good, Runtime.Valid, MapSlots;
      assert (loose + Ref(v)) + Ref(Nil) == loose + Ref(v);
      KeptLoose(rt.heap, created, ids, Roots(), loose + Ref(v), Nil);
      if i == |slots| {
        var e := SlotEntry(name, None, false, None);
        ghost var u := SetEntry(i, e, loose + Ref(v));
        assert EntryValue(e) == Nil && slots == WithEntry(old(slots), i, e);
      } else if slots[i].impl.Some? {
        var e, previous := slots[i].(impl := None), slots[i].impl.value;
        ghost var u := SetEntry(i, e, loose + Ref(v));
        Drop(previous, loose + Ref(v));
        assert EntryValue(e) == Nil && slots == WithEntry(old(slots), i, e);
      } else {
        assert EntryValue(slots[i]) == Nil && slots == WithEntry(slots, i, slots[i]);
      }
    }

    // ----- frames and buffers -----

    /** Enters a child of the top frame. */
    method PushChild(next: Frame, child: Frame) returns (err: Error)
      requires Owned(multiset{}) && frames != []
      modifies this`met, this`frames, this`scratch
      ensures Owned(multiset{})
      ensures err == Ok ==> Now() == Pushed(old(Now()), next, child)
      ensures err != Ok ==> err == CallDepth && Now() == WithTop(old(Now()), next)
      ensures err == Ok <==> |outerFrames| + |old(frames)| < frameLimit
      ensures met == if err == Ok then old(met) else old(met) + {CallDepth}
    {
      hide RootRefs, Good, Runtime.Valid;
      frames := frames[..|frames| - 1] + [next];
      if |outerFrames| + |frames| >= frameLimit {
        met := met + {CallDepth};
        return CallDepth;
      }
      NilScratch(ids, outerHeld, scratch, arena, result, slots);
      frames := frames + [child];
      assert frames == old(frames)[..|old(frames)| - 1] + [next, child];
      scratch := scratch + [Nil, Nil, Nil];
      err := Ok;
    }

    /** Takes an argument buffer from the arena. */
    method BufferInit(callee: Callee, count: nat) returns (err: Error)
      requires Owned(multiset{}) && frames != []
      modifies this`met, this`frames, this`arena
      ensures Owned(multiset{})
      ensures err == Ok ==> Now() == Buffered(old(Now()), callee, count)
      ensures err != Ok ==> err == OutOfMemory && Now() == old(Now())
      ensures err == Ok <==> count == 0 || |old(arena)| + count <= valueLimit
      ensures met == if err == Ok then old(met) else old(met) + {OutOfMemory}
    {
      hide RootRefs, Good, Runtime.Valid;
      if count > 0 && |arena| + count > valueLimit {
        met := met + {OutOfMemory};
        return OutOfMemory;
      }
      NilArena(ids, outerHeld, scratch, arena, result, slots, count);
      var n := |frames| - 1;
      frames := frames[..n] + [frames[n].(phase := 2, index := 0, callee := callee, bufferBase := |arena|, bufferCount := count)];
      arena := arena + Nils(count);
      err := Ok;
    }

    method ReleasePlace(loc: Loc, ghost loose: multiset<nat> := multiset{})
      requires Owned(loose) && Within(loc, |scratch|, |arena|)
      modifies this`scratch, this`arena, this`result, this`ids, rt, rt.payload, rt.payload.spans, rt.cellspace, rt.cellspace.spans
      ensures Owned(loose) && Now() == Put(old(Now()), loc, Nil) && ValueAt(loc) == Nil
      ensures |scratch| == old(|scratch|) && |arena| == old(|arena|) && Kept(old(ids), ids, loose)
    {
      hide RootRefs, Good, Runtime.Valid, View, Put, Get, Within, Index, ValueIn;
      var v := Take(loc, loose);
      Drop(v, loose);
    }

    /** Releases the top frame's scratch values and forgets their places. */
    method DropScratch(base: nat)
      requires Owned(multiset{}) && |scratch| == base + SCRATCH
      modifies this`scratch, this`arena, this`result, this`ids, rt, rt.payload, rt.payload.spans, rt.cellspace, rt.cellspace.spans
      ensures Owned(multiset{}) && |arena| == old(|arena|) && |scratch| == base
      ensures Now() == old(Now()).(scratch := old(Now()).scratch[..base])
    {
      hide RootRefs, Good, Runtime.Valid, ValueIn;
      ReleasePlace(ToScratch(base));
      ReleasePlace(ToScratch(base + 1));
      assert scratch[base] == Nil by { ScratchNil(Now(), ids, scratch, base); }
      ReleasePlace(ToScratch(base + 2));
      ScratchNil(Now(), ids, scratch, base);
      ScratchNil(Now(), ids, scratch, base + 1);
      ScratchNil(Now(), ids, scratch, base + 2);
      assert scratch[base..] == Nils(SCRATCH);
      ScratchCut(ids, outerHeld, scratch, arena, result, slots, base);
      scratch := scratch[..base];
    }

    /** Releases a buffer at the top of the arena and gives its places back. */
    method BufferFree(base: nat)
      requires Owned(multiset{}) && base <= |arena|
      modifies this`scratch, this`arena, this`result, this`ids, rt, rt.payload, rt.payload.spans, rt.cellspace, rt.cellspace.spans
      ensures Owned(multiset{}) && |scratch| == old(|scratch|) && |arena| == base
      ensures Now() == old(Now()).(arena := old(Now()).arena[..base])
    {
      hide RootRefs, Good, Runtime.Valid;
      ghost var c := Now();
      var i := base;
      while i < |arena|
        invariant base <= i <= |arena| == |Now().arena| == |c.arena| && |scratch| == old(|scratch|)
        invariant Owned(multiset{})
        invariant Now() == c.(arena := Now().arena) && Now().arena[..base] == c.arena[..base]
        invariant forall k | base <= k < i :: arena[k] == Nil
      {
        ReleasePlace(ToArena(i));
        i := i + 1;
      }
      assert arena[base..] == Nils(|arena| - base);
      ArenaCut(ids, outerHeld, scratch, arena, result, slots, base);
      arena := arena[..base];
    }

    method PopFrame()
      requires Owned(multiset{}) && frames != [] && |scratch| == SCRATCH * |frames|
      requires var f := frames[|frames| - 1]; f.bufferCount > 0 ==> f.bufferBase + f.bufferCount == |arena|
      modifies this`frames, this`scratch, this`arena, this`result, this`ids,
               rt, rt.payload, rt.payload.spans, rt.cellspace, rt.cellspace.spans
      ensures Owned(multiset{}) && Now() == DropTop(old(Now()))
    {
      hide RootRefs, Good, Runtime.Valid;
      var n := |frames| - 1;
      var f := frames[n];
      DropScratch(SCRATCH * n);
      if f.bufferCount > 0 { BufferFree(f.bufferBase); }
      frames := frames[..n];
    }

    // ----- one turn of the loop -----

    /** The stack can be taken down frame by frame. */
    ghost predicate Tidy(base: nat) reads this {
      StackOk(frames, base, epoch) && |scratch| == SCRATCH * |frames| && |arena| == ArenaTop(frames, base)
    }

    ghost predicate Ready(base: nat, g: nat)
      reads this, rt, rt.payload, rt.payload.spans, rt.cellspace, rt.cellspace.spans
    {
      0 < g && frames != [] && Owned(multiset{}) && Shape(Now(), base, epoch)
    }

    /** What one turn achieves: the prediction stands, or the error is the predicted one,
        or it is one the interpreter does not know. */
    ghost predicate Stepped(before: Config, base: nat, g: nat, err: Error)
      requires 0 < g && before.frames != []
      reads this, rt, rt.payload, rt.payload.spans, rt.cellspace, rt.cellspace.spans
    {
      && Owned(multiset{})
      && if err == Ok then Shape(Now(), base, epoch) && Resume(before, g) == Resume(Now(), g - 1)
         else Tidy(base) && !Returning(Top(before)) && Now().result == before.result
              && (Met(err) || TopRest(before, g) == Stop(err, Now().world))
    }

    /** Evaluates a child into one of the frame's own scratch places. */
    method PushScratchChild(next: Frame, node: nat, k: nat, ghost base: nat, ghost g: nat) returns (err: Error)
      requires Ready(base, g) && NextScratch(Top(Now())) == ScratchChild(next, node, k)
      modifies this`met, this`frames, this`scratch
      ensures Stepped(old(Now()), base, g, err)
    {
      hide RootRefs, Good, Runtime.Valid, Shape, NextScratch, Resume, TopRest, Returning;
      NextScratchFacts(Top(Now()));
      ScratchTurn(Now(), g, base, epoch);
      TidyWith(Now(), next, base, epoch);
      var f := frames[|frames| - 1];
      err := PushChild(next, Child(f, node, ToScratch(SCRATCH * (|frames| - 1) + k)));
    }

    /** Stores through the top frame's out-pointer and takes the frame down. */
    method Deliver(v: Value)
      requires Owned(Ref(v)) && Deliverable(Now())
      modifies this`frames, this`scratch, this`arena, this`result, this`ids,
               rt, rt.payload, rt.payload.spans, rt.cellspace, rt.cellspace.spans
      ensures Owned(multiset{}) && Now() == Delivery(old(Now()), MapV(old(ids), v))
    {
      hide RootRefs, Good, Runtime.Valid, Put, DropTop, ValueIn;
      PutKeepsFrames(Now(), frames[|frames| - 1].out, MapV(ids, v));
      var out := frames[|frames| - 1].out;
      GetNow(out);
      assert multiset{} + Ref(v) == Ref(v);
      Give(out, v, multiset{});
      PopFrame();
    }

    /** The frame has produced `v`: deliver it and take the frame down. */
    method CompleteValue(v: Value, ghost before: Config, ghost base: nat, ghost g: nat)
      requires 0 < g && frames != [] && Owned(Ref(v)) && Shape(before, base, epoch)
      requires SameBelow(before, Now()) && !Returning(Top(before))
      requires TopRest(before, g) == Done(MapV(ids, v), LocalsOf(before, Top(before)), Now().world, g - 1)
      modifies this`frames, this`scratch, this`arena, this`result, this`ids,
               rt, rt.payload, rt.payload.spans, rt.cellspace, rt.cellspace.spans
      ensures Stepped(before, base, g, Ok)
    {
      hide RootRefs, Good, Runtime.Valid, Shape, Resume, TopRest, Returning, Put, LocalsOf, DropTop;
      CompletePlace(before, Now(), base, epoch, MapV(ids, v));
      FinishTurn(before, Now().world, MapV(ids, v), g, base, epoch);
      var out := frames[|frames| - 1].out;
      GetNow(out);
      assert multiset{} + Ref(v) == Ref(v);
      Give(out, v, multiset{});
      PopFrame();
    }

    /** The value of a node without children. */
    method EvalLeaf(f: Frame, node: Node) returns (err: Error, v: Value)
      requires Owned(multiset{}) && IsLeaf(node) && f.localsBase + f.localCount <= |arena|
      modifies this`met, this`ids, this`created, rt, rt.payload, rt.payload.spans
      ensures err == Ok ==> Owned(Ref(v))
      ensures err != Ok ==> Owned(multiset{}) && Now() == old(Now())
      ensures Now() == old(Now()).(world := Now().world)
      ensures !Met(err) ==>
        LeafResult(f.program, node, LocalsOf(old(Now()), f), old(Now()).world)
          == if err == Ok then Result.Value(MapV(ids, v), Now().world) else Fail(err, old(Now()).world)
    {
      hide RootRefs, Good, Runtime.Valid, FieldNames;
      assert multiset{} + Ref(Nil) == multiset{} == Ref(Nil);
      v := Nil;
      match node
      case Lit(l) =>
        if l >= |f.program.literals| { return Malformed, Nil; }
        err, v := EvalLiteral(f.program.literals[l]);
      case ReadLocal(i) =>
        if i >= f.localCount { return Bounds, Nil; }
        v := arena[f.localsBase + i];
        LocalIsLive(rt.heap, created, ids, outerHeld, scratch, arena, result, slots, f.localsBase + i);
        Share(v, multiset{});
        assert multiset{} + Ref(v) == Ref(v);
        err := Ok;
      case ReadSlot(name) =>
        err, v := ReadSlotOwned(name, multiset{});
        assert multiset{} + Ref(v) == Ref(v);
      case ReadSlotFallback(name, fallback) =>
        SameSlot(ids, slots, name);
        err, v := ReadSlotOwned(FallbackName(slots, name, fallback), multiset{});
        assert multiset{} + Ref(v) == Ref(v);
      case SlotDesignator(name) =>
        SameSlot(ids, slots, name);
        if FindSlot(slots, name) == |slots| { return UndefinedWord, Nil; }
        err, v := Ok, Slot(name);
      case RecordDefNode(_, _, _) => err, v := EvalDefinition(f.program, node);
      case Fn(_, _, _) => err, v := EvalDefinition(f.program, node);
    }

    /** Functions and record definitions are new objects each time. */
    method EvalDefinition(program: Program, node: Node) returns (err: Error, v: Value)
      requires Owned(multiset{}) && (node.Fn? || node.RecordDefNode?)
      modifies this`met, this`ids, this`created, rt, rt.payload, rt.payload.spans
      ensures err == Ok ==> Owned(Ref(v))
      ensures err != Ok ==> Owned(multiset{}) && Now() == old(Now())
      ensures Now() == old(Now()).(world := Now().world)
      ensures !Met(err) ==>
        LeafResult(program, node, [], old(Now()).world)
          == if err == Ok then Result.Value(MapV(ids, v), Now().world) else Fail(err, old(Now()).world)
    {
      hide RootRefs, Good, Runtime.Valid, FieldNames, MapS, MapSlots;
      v := Nil;
      if node.Fn? {
        err, v := NewLeaf(Code(program, node.body, node.arity, node.localCount), Packed.ProgramBytes(rt.machine, program), multiset{});
        assert multiset{} + Ref(v) == Ref(v);
        return;
      }
      var names := RecordDefNames(program, node.firstField, node.fieldCount);
      if names.BadNames? {
        BadNamesError(program, node.firstField, node.fieldCount);
        return names.err, Nil;
      }
      err, v := NewLeaf(RecordDef(node.name, names.names), 4 + Packed.StringsSize([node.name] + names.names), multiset{});
      assert multiset{} + Ref(v) == Ref(v);
    }

    method EvalLiteral(l: Literal) returns (err: Error, v: Value)
      requires Owned(multiset{})
      modifies this`met, this`ids, this`created, rt, rt.payload, rt.payload.spans
      ensures err == Ok ==> Owned(Ref(v))
      ensures err != Ok ==> Owned(multiset{}) && Now() == old(Now())
      ensures Now() == old(Now()).(world := Now().world)
      ensures !Met(err) ==>
        LiteralValue(l, old(Now()).world) == if err == Ok then Result.Value(MapV(ids, v), Now().world) else Fail(err, old(Now()).world)
    {
      hide RootRefs, Good, Runtime.Valid;
      assert Ref(Nil) == multiset{};
      match l
      case IntLiteral(n) => if FitsInt(n) { err, v := Ok, Int(n); } else { err, v := ValueOverflow, Nil; }
      case BoolLiteral(b) => err, v := Ok, Bool(b);
      case NilLiteral => err, v := Ok, Nil;
      case TextLiteral(t) =>
        err, v := NewLeaf(Text(t), |t| + 1, multiset{});
        assert multiset{} + Ref(v) == Ref(v);
    }

    /** A primitive operation has come out as the interpreter's `r` says. */
    ghost predicate Produced(before: Config, r: Interp.Result, err: Error, v: Value)
      reads this, rt, rt.payload, rt.payload.spans, rt.cellspace, rt.cellspace.spans
    {
      && SameBelow(before, Now())
      && (err == Ok ==> Owned(Ref(v)) && r == Result.Value(MapV(ids, v), Now().world))
      && (err != Ok ==> Owned(multiset{}) && (Met(err) || r == Fail(err, Now().world)))
    }

    /** Ends a node with the result of its primitive operation. */
    method CompleteOut(err: Error, v: Value, ghost r: Interp.Result, ghost before: Config, ghost base: nat, ghost g: nat)
      requires 0 < g && frames != [] && Shape(before, base, epoch)
      requires Produced(before, r, err, v) && !Returning(Top(before))
      requires TopRest(before, g) == Finish(r, LocalsOf(before, Top(before)), g - 1)
      modifies this`frames, this`scratch, this`arena, this`result, this`ids,
               rt, rt.payload, rt.payload.spans, rt.cellspace, rt.cellspace.spans
      ensures Stepped(before, base, g, err)
    {
      hide RootRefs, Good, Runtime.Valid, Shape, Resume, TopRest, Returning, Put, LocalsOf, DropTop;
      if err == Ok {
        CompleteValue(v, before, base, g);
      } else {
        TidyBelow(before, Now(), base, epoch);
      }
    }

    method TurnLeaf(ghost base: nat, ghost g: nat) returns (err: Error)
      requires Ready(base, g) && frames[|frames| - 1].node < |frames[|frames| - 1].program.nodes|
      requires IsLeaf(CallOf(frames[|frames| - 1]))
      modifies this`met, this`frames, this`scratch, this`arena, this`result, this`ids, this`created,
               rt, rt.payload, rt.payload.spans, rt.cellspace, rt.cellspace.spans
      ensures Stepped(old(Now()), base, g, err)
    {
      hide RootRefs, Good, Runtime.Valid, Shape, Resume, TopRest, Returning, LocalsOf, LeafResult;
      ghost var c := Now();
      var f := frames[|frames| - 1];
      LeafRest(c, g);
      LocalsFit(c, base, epoch);
      var v;
      err, v := EvalLeaf(f, CallOf(f));
      CompleteOut(err, v, LeafResult(f.program, CallOf(f), LocalsOf(c, f), c.world), c, base, g);
    }

    method TurnWriteLocal(ghost base: nat, ghost g: nat) returns (err: Error)
      requires Ready(base, g) && frames[|frames| - 1].node < |frames[|frames| - 1].program.nodes|
      requires CallOf(frames[|frames| - 1]).WriteLocal?
      modifies this`met, this`frames, this`scratch, this`arena, this`result, this`ids,
               rt, rt.payload, rt.payload.spans, rt.cellspace, rt.cellspace.spans
      ensures Stepped(old(Now()), base, g, err)
    {
      hide RootRefs, Good, Runtime.Valid, Shape, Resume, TopRest, Returning, LocalsOf, Put, DropTop, Finished, ScratchOf, LocalMoved, Delivery, Slice, Get, Within;
      ghost var c := Now();
      var n := |frames| - 1;
      var f := frames[n];
      var i := CallOf(f).local;
      LocalsFit(c, base, epoch);
      if i >= f.localCount {
        WriteLocalOutside(c, g);
        TidyBelow(c, c, base, epoch);
        return Bounds;
      }
      if f.phase == 0 {
        err := PushScratchChild(f.(phase := 1), CallOf(f).value, 0, base, g);
        return;
      }
      WriteLocalTurn(c, i, g, base, epoch);
      WriteLocalPlace(c, i, base, epoch);
      MoveToLocal(f.localsBase + i, SCRATCH * n);
      assert Ref(Nil) == multiset{};
      Deliver(Nil);
      err := Ok;
    }

    /** Releases a local and moves a scratch value into it. */
    method MoveToLocal(i: nat, k: nat)
      requires Owned(multiset{}) && i < |arena| && k < |scratch|
      modifies this`scratch, this`arena, this`result, this`ids, rt, rt.payload, rt.payload.spans, rt.cellspace, rt.cellspace.spans
      ensures Owned(multiset{})
      ensures Now() == LocalMoved(old(Now()), i, k)
    {
      hide RootRefs, Good, Runtime.Valid;
      ReleasePlace(ToArena(i));
      var v := Take(ToScratch(k), multiset{});
      Give(ToArena(i), v, multiset{});
    }

    method WriteSlotFallbackOwned(name: string, fallback: string, v: Value, requireExisting: bool, ghost loose: multiset<nat>)
      returns (err: Error)
      requires Owned(loose + Ref(v))
      modifies this`met, this`ids, this`slots, rt, rt.payload, rt.payload.spans, rt.cellspace, rt.cellspace.spans
      ensures err == SlotTableFull ==> Met(err)
      ensures err == Ok ==> Owned(loose)
      ensures err != Ok ==> Owned(loose + Ref(v)) && ids == old(ids) && Now() == old(Now())
      ensures Now() == old(Now()).(world := Now().world)
      ensures err != SlotTableFull ==>
        WriteSlotFallbackIn(old(Now()).world, name, fallback, MapV(old(ids), v), requireExisting)
          == if err == Ok then Result.Value(Nil, Now().world) else Fail(err, old(Now()).world)
    {
      hide RootRefs, Good, Runtime.Valid, WriteSlotIn;
      err := WriteSlotOwned(name, v, requireExisting, loose);
      if err == UndefinedWord {
        err := WriteSlotOwned(fallback, v, requireExisting, loose);
      }
    }

    method TurnWriteSlot(ghost base: nat, ghost g: nat) returns (err: Error)
      requires Ready(base, g) && frames[|frames| - 1].node < |frames[|frames| - 1].program.nodes|
      requires CallOf(frames[|frames| - 1]).WriteSlot? || CallOf(frames[|frames| - 1]).WriteSlotFallback?
      modifies this`met, this`frames, this`scratch, this`arena, this`result, this`ids, this`created, this`slots,
               rt, rt.payload, rt.payload.spans, rt.cellspace, rt.cellspace.spans
      ensures Stepped(old(Now()), base, g, err)
    {
      hide RootRefs, Good, Runtime.Valid, Shape, Resume, TopRest, Returning, LocalsOf, PrimitiveResult;
      ghost var c := Now();
      var n := |frames| - 1;
      var f := frames[n];
      if f.phase == 0 {
        err := PushScratchChild(f.(phase := 1), CallOf(f).value, 0, base, g);
        return;
      }
      PrimitiveRest(c, g);
      LocalsFit(c, base, epoch);
      var v;
      err, v := DoWriteSlot();
      CompleteOut(err, v, PrimitiveResult(c), c, base, g);
    }

    method DoWriteSlot() returns (err: Error, v: Value)
      requires Owned(multiset{}) && frames != [] && AtPrimitive(frames[|frames| - 1]) && |scratch| == SCRATCH * |frames|
      requires CallOf(frames[|frames| - 1]).WriteSlot? || CallOf(frames[|frames| - 1]).WriteSlotFallback?
      modifies this`met, this`scratch, this`arena, this`result, this`ids, this`created, this`slots,
               rt, rt.payload, rt.payload.spans, rt.cellspace, rt.cellspace.spans
      ensures Produced(old(Now()), PrimitiveResult(old(Now())), err, v)
    {
      hide RootRefs, Good, Runtime.Valid, PrimitiveResult, WriteSlotIn, WriteSlotFallbackIn, MapSlots, Kept, AtPrimitive, MapS, Refs;
      PrimitiveNow();
      SlotResult(Now());
      var n := |frames| - 1;
      var node := CallOf(frames[n]);
      var u := Take(ToScratch(SCRATCH * n), multiset{});
      if node.WriteSlot? {
        err := WriteSlotOwned(node.name, u, node.requireExisting, multiset{});
      } else {
        err := WriteSlotFallbackOwned(node.name, node.fallback, u, node.requireExisting, multiset{});
      }
      if err != Ok { Drop(u, multiset{}); }
      assert Ref(Nil) == multiset{};
      v := Nil;
    }

    /** Releases one of the top frame's own scratch values. */
    method ReleaseOwn(k: nat, ghost before: Config, ghost loose: multiset<nat>)
      requires Owned(loose) && SameBelow(before, Now()) && SCRATCH * (|frames| - 1) <= k < |scratch|
      modifies this`scratch, this`arena, this`result, this`ids, rt, rt.payload, rt.payload.spans, rt.cellspace, rt.cellspace.spans
      ensures Owned(loose) && SameBelow(before, Now()) && Now().world == old(Now()).world
      ensures |scratch| == old(|scratch|) && Kept(old(ids), ids, loose)
    {
      hide RootRefs, Good, Runtime.Valid, SameBelow, Put;
      OwnPlace(before, Now(), k);
      ReleasePlace(ToScratch(k), loose);
    }

    method TurnReadIndex(ghost base: nat, ghost g: nat) returns (err: Error)
      requires Ready(base, g) && frames[|frames| - 1].node < |frames[|frames| - 1].program.nodes|
      requires CallOf(frames[|frames| - 1]).ReadIndex?
      modifies this`met, this`frames, this`scratch, this`arena, this`result, this`ids, this`created, this`slots,
               rt, rt.payload, rt.payload.spans, rt.cellspace, rt.cellspace.spans
      ensures Stepped(old(Now()), base, g, err)
    {
      hide RootRefs, Good, Runtime.Valid, Shape, Resume, TopRest, Returning, LocalsOf, PrimitiveResult, Produced;
      ghost var c := Now();
      var f := frames[|frames| - 1];
      if f.phase == 0 {
        err := PushScratchChild(f.(phase := 1), CallOf(f).base, 0, base, g);
      } else if f.phase == 1 {
        err := PushScratchChild(f.(phase := 2), CallOf(f).index, 1, base, g);
      } else {
        PrimitiveRest(c, g);
        LocalsFit(c, base, epoch);
        var v;
        err, v := DoReadIndex();
        CompleteOut(err, v, PrimitiveResult(c), c, base, g);
      }
    }

    method DoReadIndex() returns (err: Error, v: Value)
      requires Owned(multiset{}) && frames != [] && AtPrimitive(frames[|frames| - 1]) && |scratch| == SCRATCH * |frames|
      requires CallOf(frames[|frames| - 1]).ReadIndex?
      modifies this`scratch, this`arena, this`result, this`ids, this`created, this`slots,
               rt, rt.payload, rt.payload.spans, rt.cellspace, rt.cellspace.spans
      ensures Produced(old(Now()), PrimitiveResult(old(Now())), err, v)
    {
      hide RootRefs, Good, Runtime.Valid, PrimitiveResult, ReadIndexIn, Held, SameBelow, Put, AtPrimitive, MapSlots, MapS, Refs, Within, Get;
      ghost var c := Now();
      PrimitiveNow();
      IndexResult(c);
      var k := SCRATCH * (|frames| - 1);
      ScratchHeld(outerHeld, scratch, arena, result, slots, k, multiset{});
      err, v := ReadIndexOwned(scratch[k], scratch[k + 1], multiset{});
      ghost var loose := if err == Ok then Ref(v) else multiset{};
      assert multiset{} + Ref(v) == Ref(v);
      SameSelf(c);
      OwnWorld(c, c, Now().world);
      ReleasePair(k, c, loose);
    }

    lemma PrimitiveNow()
      requires frames != [] && AtPrimitive(frames[|frames| - 1])
      ensures Now().frames != [] && AtPrimitive(Top(Now()))
    {
    }

    /** Releases the first two of the top frame's own scratch values. */
    method ReleasePair(k: nat, ghost before: Config, ghost loose: multiset<nat>)
      requires Owned(loose) && SameBelow(before, Now()) && frames != [] && k == SCRATCH * (|frames| - 1) && k + 1 < |scratch|
      modifies this`scratch, this`arena, this`result, this`ids, rt, rt.payload, rt.payload.spans, rt.cellspace, rt.cellspace.spans
      ensures Owned(loose) && SameBelow(before, Now()) && Now().world == old(Now()).world
      ensures |scratch| == old(|scratch|) && Kept(old(ids), ids, loose)
    {
      hide RootRefs, Good, Runtime.Valid, SameBelow, View;
      ReleaseOwn(k + 1, before, loose);
      ReleaseOwn(k, before, loose);
    }


    method TurnReadField(ghost base: nat, ghost g: nat) returns (err: Error)
      requires Ready(base, g) && frames[|frames| - 1].node < |frames[|frames| - 1].program.nodes|
      requires CallOf(frames[|frames| - 1]).ReadField?
      modifies this`met, this`frames, this`scratch, this`arena, this`result, this`ids, this`created, this`slots,
               rt, rt.payload, rt.payload.spans, rt.cellspace, rt.cellspace.spans
      ensures Stepped(old(Now()), base, g, err)
    {
      hide RootRefs, Good, Runtime.Valid, Shape, Resume, TopRest, Returning, LocalsOf, PrimitiveResult, Produced;
      ghost var c := Now();
      var f := frames[|frames| - 1];
      if f.phase == 0 {
        err := PushScratchChild(f.(phase := 1), CallOf(f).base, 0, base, g);
      } else {
        PrimitiveRest(c, g);
        LocalsFit(c, base, epoch);
        var v;
        err, v := DoReadField();
        CompleteOut(err, v, PrimitiveResult(c), c, base, g);
      }
    }

    method DoReadField() returns (err: Error, v: Value)
      requires Owned(multiset{}) && frames != [] && AtPrimitive(frames[|frames| - 1]) && |scratch| == SCRATCH * |frames|
      requires CallOf(frames[|frames| - 1]).ReadField?
      modifies this`scratch, this`arena, this`result, this`ids, this`created, this`slots,
               rt, rt.payload, rt.payload.spans, rt.cellspace, rt.cellspace.spans
      ensures Produced(old(Now()), PrimitiveResult(old(Now())), err, v)
    {
      hide RootRefs, Good, Runtime.Valid, PrimitiveResult, ReadFieldIn, Held;
      FieldResult(Now());
      var k := SCRATCH * (|frames| - 1);
      ScratchHeld(outerHeld, scratch, arena, result, slots, k, multiset{});
      err, v := ReadFieldOwned(scratch[k], CallOf(frames[|frames| - 1]).field, multiset{});
      ghost var loose := if err == Ok then Ref(v) else multiset{};
      assert multiset{} + Ref(v) == Ref(v);
      ReleasePlace(ToScratch(k), loose);
    }

    method TurnWriteIndex(ghost base: nat, ghost g: nat) returns (err: Error)
      requires Ready(base, g) && frames[|frames| - 1].node < |frames[|frames| - 1].program.nodes|
      requires CallOf(frames[|frames| - 1]).WriteIndex?
      modifies this`met, this`frames, this`scratch, this`arena, this`result, this`ids, this`created, this`slots,
               rt, rt.payload, rt.payload.spans, rt.cellspace, rt.cellspace.spans
      ensures Stepped(old(Now()), base, g, err)
    {
      hide RootRefs, Good, Runtime.Valid, Shape, Resume, TopRest, Returning, LocalsOf, PrimitiveResult, Produced;
      ghost var c := Now();
      var f := frames[|frames| - 1];
      if f.phase == 0 {
        err := PushScratchChild(f.(phase := 1), CallOf(f).base, 0, base, g);
      } else if f.phase == 1 {
        err := PushScratchChild(f.(phase := 2), CallOf(f).index, 1, base, g);
      } else if f.phase == 2 {
        err := PushScratchChild(f.(phase := 3), CallOf(f).value, 2, base, g);
      } else {
        PrimitiveRest(c, g);
        LocalsFit(c, base, epoch);
        var v;
        err, v := DoWriteIndex();
        CompleteOut(err, v, PrimitiveResult(c), c, base, g);
      }
    }

    /** A store has come out as the interpreter's `r` says; if it was refused, `u` is loose. */
    ghost predicate Attempted(before: Config, r: Interp.Result, err: Error, u: Value)
      reads this, rt, rt.payload, rt.payload.spans, rt.cellspace, rt.cellspace.spans
    {
      && SameBelow(before, Now())
      && Owned(if err == Ok then multiset{} else Ref(u))
      && r == if err == Ok then Result.Value(Nil, Now().world) else Fail(err, Now().world)
    }

    /** The store itself; if it is refused, the value `u` is still to be released. */
    method StoreIndex() returns (err: Error, u: Value)
      requires Owned(multiset{}) && frames != [] && AtPrimitive(frames[|frames| - 1]) && |scratch| == SCRATCH * |frames|
      requires CallOf(frames[|frames| - 1]).WriteIndex?
      modifies this`scratch, this`arena, this`result, this`ids, this`created, rt, rt.payload, rt.payload.spans, rt.cellspace, rt.cellspace.spans
      ensures Attempted(old(Now()), PrimitiveResult(old(Now())), err, u) && |scratch| == old(|scratch|)
    {
      hide RootRefs, Good, Runtime.Valid, PrimitiveResult, WriteIndexIn, Held, SameBelow, Put, AtPrimitive, MapSlots, Kept, Get;
      ghost var c := Now();
      IndexResult(c);
      SameSelf(c);
      var k := SCRATCH * (|frames| - 1);
      OwnPlace(c, c, k + 2);
      u := Take(ToScratch(k + 2), multiset{});
      ScratchHeld(outerHeld, scratch, arena, result, slots, k, multiset{});
      ghost var c1 := Now();
      err := WriteIndexOwned(scratch[k], scratch[k + 1], u, multiset{});
      OwnWorld(c, c1, Now().world);
      assert multiset{} + Ref(u) == Ref(u);
    }

    method DoWriteIndex() returns (err: Error, v: Value)
      requires Owned(multiset{}) && frames != [] && AtPrimitive(frames[|frames| - 1]) && |scratch| == SCRATCH * |frames|
      requires CallOf(frames[|frames| - 1]).WriteIndex?
      modifies this`scratch, this`arena, this`result, this`ids, this`created, this`slots,
               rt, rt.payload, rt.payload.spans, rt.cellspace, rt.cellspace.spans
      ensures Produced(old(Now()), PrimitiveResult(old(Now())), err, v)
    {
      hide RootRefs, Good, Runtime.Valid, PrimitiveResult, SameBelow, AtPrimitive, CallOf, View, Kept;
      var k := SCRATCH * (|frames| - 1);
      ghost var c := Now();
      var u;
      err, u := StoreIndex();
      ghost var loose := if err == Ok then multiset{} else Ref(u);
      ReleasePair(k, c, loose);
      assert multiset{} + Ref(u) == Ref(u) && Ref(Nil) == multiset{};
      if err != Ok { Drop(u, multiset{}); }
      v := Nil;
    }

    method TurnWriteField(ghost base: nat, ghost g: nat) returns (err: Error)
      requires Ready(base, g) && frames[|frames| - 1].node < |frames[|frames| - 1].program.nodes|
      requires CallOf(frames[|frames| - 1]).WriteField?
      modifies this`met, this`frames, this`scratch, this`arena, this`result, this`ids, this`created, this`slots,
               rt, rt.payload, rt.payload.spans, rt.cellspace, rt.cellspace.spans
      ensures Stepped(old(Now()), base, g, err)
    {
      hide RootRefs, Good, Runtime.Valid, Shape, Resume, TopRest, Returning, LocalsOf, PrimitiveResult, Produced;
      ghost var c := Now();
      var f := frames[|frames| - 1];
      if f.phase == 0 {
        err := PushScratchChild(f.(phase := 1), CallOf(f).base, 0, base, g);
      } else if f.phase == 1 {
        err := PushScratchChild(f.(phase := 2), CallOf(f).value, 1, base, g);
      } else {
        PrimitiveRest(c, g);
        LocalsFit(c, base, epoch);
        var v;
        err, v := DoWriteField();
        CompleteOut(err, v, PrimitiveResult(c), c, base, g);
      }
    }

    /** The store itself; if it is refused, the value `u` is still to be released. */
    method StoreField() returns (err: Error, u: Value)
      requires Owned(multiset{}) && frames != [] && AtPrimitive(frames[|frames| - 1]) && |scratch| == SCRATCH * |frames|
      requires CallOf(frames[|frames| - 1]).WriteField?
      modifies this`scratch, this`arena, this`result, this`ids, this`created, rt, rt.payload, rt.payload.spans, rt.cellspace, rt.cellspace.spans
      ensures Attempted(old(Now()), PrimitiveResult(old(Now())), err, u) && |scratch| == old(|scratch|)
    {
      hide RootRefs, Good, Runtime.Valid, PrimitiveResult, WriteFieldIn, Held, SameBelow, Put, MapSlots, Kept;
      ghost var c := Now();
      FieldResult(c);
      SameSelf(c);
      var k := SCRATCH * (|frames| - 1);
      OwnPlace(c, c, k + 1);
      u := Take(ToScratch(k + 1), multiset{});
      ScratchHeld(outerHeld, scratch, arena, result, slots, k, multiset{});
      ghost var c1 := Now();
      err := WriteFieldOwned(scratch[k], CallOf(frames[|frames| - 1]).field, u, multiset{});
      OwnWorld(c, c1, Now().world);
      assert multiset{} + Ref(u) == Ref(u);
    }

    method DoWriteField() returns (err: Error, v: Value)
      requires Owned(multiset{}) && frames != [] && AtPrimitive(frames[|frames| - 1]) && |scratch| == SCRATCH * |frames|
      requires CallOf(frames[|frames| - 1]).WriteField?
      modifies this`scratch, this`arena, this`result, this`ids, this`created, this`slots,
               rt, rt.payload, rt.payload.spans, rt.cellspace, rt.cellspace.spans
      ensures Produced(old(Now()), PrimitiveResult(old(Now())), err, v)
    {
      hide RootRefs, Good, Runtime.Valid, PrimitiveResult, SameBelow, AtPrimitive, CallOf, View, Kept;
      var k := SCRATCH * (|frames| - 1);
      ghost var c := Now();
      var u;
      err, u := StoreField();
      ghost var loose := if err == Ok then multiset{} else Ref(u);
      ReleaseOwn(k, c, loose);
      assert multiset{} + Ref(u) == Ref(u) && Ref(Nil) == multiset{};
      if err != Ok { Drop(u, multiset{}); }
      v := Nil;
    }

    // ----- branches, loops and sequences -----

    /** Lets a child deliver straight to the top frame's own destination. */
    method PushHandOn(node: nat, ghost c: Config, ghost base: nat, ghost g: nat) returns (err: Error)
      requires 0 < g && frames != [] && Owned(multiset{}) && Shape(c, base, epoch) && c.frames == frames
      requires Now() == c || Now() == Blank(c, 0)
      requires var f := frames[|frames| - 1].(phase := 2);
        Returning(f) && !Returning(Top(c)) && !InCall(Top(c)) && HandsOn(c, f, node, g)
        && ScratchRule(f, Now().scratch, |frames| - 1)
      modifies this`met, this`frames, this`scratch
      ensures Stepped(c, base, g, err)
    {
      hide RootRefs, Good, Runtime.Valid, Shape, Resume, TopRest, Returning, LocalsOf, HandsOn, ScratchRule, InCall;
      var f := frames[|frames| - 1].(phase := 2);
      ShapeBlank(c, 0, base, epoch);
      HandOnTurn(c, Now(), f, node, g, base, epoch);
      TidyWith(Now(), f, base, epoch);
      BlankResult(c);
      err := PushChild(f, Child(f, node, f.out));
    }

    /** The top frame's child has already delivered for it. */
    method CompleteHandedOn(ghost base: nat, ghost g: nat)
      requires Ready(base, g) && Returning(frames[|frames| - 1]) && frames[|frames| - 1].phase > 0
      modifies this`frames, this`scratch, this`arena, this`result, this`ids,
               rt, rt.payload, rt.payload.spans, rt.cellspace, rt.cellspace.spans
      ensures Stepped(old(Now()), base, g, Ok)
    {
      hide RootRefs, Good, Runtime.Valid, Shape, Resume, TopRest, Returning, LocalsOf, DropTop, Finished;
      ghost var c := Now();
      PopFits(c, base, epoch);
      ReturningRest(c, g);
      FinishTurn(c, c.world, Get(c, Top(c).out), g, base, epoch);
      HandedOn(c, base, epoch);
      PopFrame();
    }

    /** Ends a node with nil once its condition has been cleared. */
    method CompleteNil(ghost c: Config, ghost base: nat, ghost g: nat)
      requires 0 < g && frames != [] && Owned(multiset{}) && Shape(c, base, epoch) && SameBelow(c, Now())
      requires !Returning(Top(c)) && TopRest(c, g) == Finish(NilResult(c), LocalsOf(c, Top(c)), g - 1)
      requires Now().world == c.world
      modifies this`frames, this`scratch, this`arena, this`result, this`ids,
               rt, rt.payload, rt.payload.spans, rt.cellspace, rt.cellspace.spans
      ensures Stepped(c, base, g, Ok)
    {
      hide RootRefs, Good, Runtime.Valid, Shape, Resume, TopRest, Returning, LocalsOf, SameBelow;
      assert Ref(Nil) == multiset{};
      CompleteOut(Ok, Nil, NilResult(c), c, base, g);
    }

    /** Releases the top frame's first scratch value, which was looked at first. */
    method ClearCondition(k: nat) returns (v: Value)
      requires Owned(multiset{}) && frames != [] && |scratch| == SCRATCH * |frames| && k < SCRATCH
      modifies this`scratch, this`arena, this`result, this`ids, rt, rt.payload, rt.payload.spans, rt.cellspace, rt.cellspace.spans
      ensures Owned(multiset{}) && Now() == Blank(old(Now()), k)
      ensures v.Bool? ==> ScratchOf(old(Now()), k) == v
      ensures !v.Bool? ==> !ScratchOf(old(Now()), k).Bool?
    {
      hide RootRefs, Good, Runtime.Valid;
      var i := SCRATCH * (|frames| - 1) + k;
      v := scratch[i];
      ReleasePlace(ToScratch(i));
    }

    method TurnIf(ghost base: nat, ghost g: nat) returns (err: Error)
      requires Ready(base, g) && frames[|frames| - 1].node < |frames[|frames| - 1].program.nodes|
      requires CallOf(frames[|frames| - 1]).If?
      modifies this`met, this`frames, this`scratch, this`arena, this`result, this`ids, this`created, this`slots,
               rt, rt.payload, rt.payload.spans, rt.cellspace, rt.cellspace.spans
      ensures Stepped(old(Now()), base, g, err)
    {
      hide RootRefs, Good, Runtime.Valid, Shape, Resume, TopRest, Returning, LocalsOf, HandsOn, ScratchRule, InCall,
        ScratchOf, Blank, SameBelow;
      ghost var c := Now();
      var f := frames[|frames| - 1];
      var node := CallOf(f);
      if f.phase == 0 {
        err := PushScratchChild(f.(phase := 1), node.condition, 0, base, g);
        return;
      }
      if f.phase != 1 {
        LatePhase(f);
        CompleteHandedOn(base, g);
        return Ok;
      }
      IfRest(c, g);
      LocalsFit(c, base, epoch);
      BranchScratch(c, base, epoch);
      BlankFacts(c, base, epoch);
      var v := ClearCondition(0);
      if !v.Bool? {
        return TypeMismatch;
      }
      if v.b {
        err := PushHandOn(node.thenBranch, c, base, g);
      } else if !node.hasElse {
        CompleteNil(c, base, g);
        err := Ok;
      } else {
        err := PushHandOn(node.elseBranch, c, base, g);
      }
    }

    /** Drops the value of a finished loop body or sequence item and starts over. */
    method NextRound(k: nat, ghost base: nat, ghost g: nat)
      requires Ready(base, g) && AtNext(frames[|frames| - 1], k)
      modifies this`frames, this`scratch, this`arena, this`result, this`ids,
               rt, rt.payload, rt.payload.spans, rt.cellspace, rt.cellspace.spans
      ensures Stepped(old(Now()), base, g, Ok)
    {
      hide RootRefs, Good, Runtime.Valid, Shape, Resume, TopRest, Returning, Blank, ScratchOf;
      ghost var c := Now();
      var n := |frames| - 1;
      NextTurn(c, k, g, base, epoch);
      PopFits(c, base, epoch);
      BlankResult(c);
      var v := ClearCondition(k);
      frames := frames[..n] + [frames[n].(phase := 0)];
    }

    /** The condition has a value: run the body, or end the loop. */
    method TestLoop(ghost base: nat, ghost g: nat) returns (err: Error)
      requires Ready(base, g) && frames[|frames| - 1].node < |frames[|frames| - 1].program.nodes|
      requires CallOf(frames[|frames| - 1]).While? && frames[|frames| - 1].phase == 1
      modifies this`met, this`frames, this`scratch, this`arena, this`result, this`ids, this`created, this`slots,
               rt, rt.payload, rt.payload.spans, rt.cellspace, rt.cellspace.spans
      ensures Stepped(old(Now()), base, g, err)
    {
      hide RootRefs, Good, Runtime.Valid, Shape, Resume, TopRest, Returning, LocalsOf, HandsOn, ScratchRule, InCall,
        ScratchOf, Blank, SameBelow;
      ghost var c := Now();
      var f := frames[|frames| - 1];
      var node := CallOf(f);
      WhileRest(c, g);
      LocalsFit(c, base, epoch);
      BlankFacts(c, base, epoch);
      var v := ClearCondition(0);
      if !v.Bool? {
        return TypeMismatch;
      }
      if !v.b {
        CompleteNil(c, base, g);
        return Ok;
      }
      WhileBodyTurn(c, node.body, g, base, epoch);
      BlankTidy(c, f.(phase := 2), base, epoch);
      err := PushChild(f.(phase := 2), Child(f, node.body, ToScratch(SCRATCH * (|frames| - 1) + 1)));
    }

    method TurnWhile(ghost base: nat, ghost g: nat) returns (err: Error)
      requires Ready(base, g) && frames[|frames| - 1].node < |frames[|frames| - 1].program.nodes|
      requires CallOf(frames[|frames| - 1]).While?
      modifies this`met, this`frames, this`scratch, this`arena, this`result, this`ids, this`created, this`slots,
               rt, rt.payload, rt.payload.spans, rt.cellspace, rt.cellspace.spans
      ensures Stepped(old(Now()), base, g, err)
    {
      hide RootRefs, Good, Runtime.Valid, Shape, Resume, TopRest, Returning, LocalsOf, HandsOn, ScratchRule, InCall,
        ScratchOf, Blank, SameBelow;
      ghost var c := Now();
      var f := frames[|frames| - 1];
      var node := CallOf(f);
      if f.phase == 0 {
        err := PushScratchChild(f.(phase := 1), node.condition, 0, base, g);
        return;
      }
      if f.phase != 1 {
        TopPhase(c, base, epoch);
        NextRound(1, base, g);
        return Ok;
      }
      err := TestLoop(base, g);
    }

    method TurnSeq(ghost base: nat, ghost g: nat) returns (err: Error)
      requires Ready(base, g) && frames[|frames| - 1].node < |frames[|frames| - 1].program.nodes|
      requires CallOf(frames[|frames| - 1]).Seq?
      modifies this`met, this`frames, this`scratch, this`arena, this`result, this`ids, this`created, this`slots,
               rt, rt.payload, rt.payload.spans, rt.cellspace, rt.cellspace.spans
      ensures Stepped(old(Now()), base, g, err)
    {
      hide RootRefs, Good, Runtime.Valid, Shape, Resume, TopRest, Returning, LocalsOf, HandsOn, ScratchRule, InCall,
        ScratchOf, Blank, SameBelow;
      ghost var c := Now();
      var f := frames[|frames| - 1];
      var node := CallOf(f);
      if f.phase == 1 {
        NextRound(0, base, g);
        return Ok;
      }
      if f.phase != 0 {
        LatePhase(f);
        CompleteHandedOn(base, g);
        return Ok;
      }
      SeqRest(c, g);
      TidySelf(c, base, epoch);
      BranchScratch(c, base, epoch);
      if node.itemCount == 0 {
        SameSelf(c);
        CompleteNil(c, base, g);
        return Ok;
      }
      if node.firstItem + f.index >= |f.program.links| {
        return Malformed;
      }
      var item := f.program.links[node.firstItem + f.index];
      if f.index + 1 < node.itemCount {
        err := PushScratchChild(f.(phase := 1, index := f.index + 1), item, 0, base, g);
      } else {
        err := PushHandOn(item, c, base, g);
      }
    }

    // ----- calls -----

    /** Resolves what is called and takes the argument buffer. */
    method TurnCallStart(ghost base: nat, ghost g: nat) returns (err: Error)
      requires Ready(base, g) && AtCallStart(frames[|frames| - 1])
      modifies this`met, this`frames, this`arena
      ensures Stepped(old(Now()), base, g, err)
    {
      hide RootRefs, Good, Runtime.Valid, Shape, Resume, TopRest, Returning, Target, Buffered, MapS, MapSlots, Refs;
      ghost var c := Now();
      var f := frames[|frames| - 1];
      var node := CallOf(f);
      BufferRest(c, g, base, epoch);
      TidySelf(c, base, epoch);
      if f.phase == 0 {
        BuiltinTarget(c);
        BufferTurn(c, g, base, epoch);
        err := BufferInit(BuiltinCallee(node.builtin), node.argCount);
      } else {
        var v := scratch[SCRATCH * (|frames| - 1)];
        CalleeTarget(rt.heap, c, ids, outerHeld, scratch, arena, result, slots);
        match Resolve(Deref(rt.heap, v), node.argCount)
        case Unresolved(e) => err := e;
        case Resolved(callee, size) =>
          BufferTurn(c, g, base, epoch);
          err := BufferInit(callee, size);
      }
    }

    /** Evaluates the next argument into its place. */
    method TurnArgument(ghost base: nat, ghost g: nat) returns (err: Error)
      requires Ready(base, g) && Filling(frames[|frames| - 1])
      requires frames[|frames| - 1].index < CallOf(frames[|frames| - 1]).argCount
      modifies this`met, this`frames, this`scratch
      ensures Stepped(old(Now()), base, g, err)
    {
      hide RootRefs, Good, Runtime.Valid, Shape, Resume, TopRest, Returning, BufferOf;
      ghost var c := Now();
      var f := frames[|frames| - 1];
      var node := CallOf(f);
      TidySelf(c, base, epoch);
      LocalsFit(c, base, epoch);
      if node.firstArg + f.index >= |f.program.links| || f.index >= f.bufferCount {
        ArgumentsOutside(c, g);
        return Malformed;
      }
      ArgumentTurn(c, g, base, epoch);
      NotReturning(f);
      TidyWith(c, NextArgument(f), base, epoch);
      err := PushChild(f.(index := f.index + 1), Child(f, f.program.links[node.firstArg + f.index], ToArena(f.bufferBase + f.index)));
    }

    /** Runs the body of the called code on the completed buffer. */
    method TurnCode(ghost base: nat, ghost g: nat) returns (err: Error)
      requires Ready(base, g) && AtCall(frames[|frames| - 1]) && frames[|frames| - 1].callee.CodeCallee?
      modifies this`met, this`frames, this`scratch
      ensures Stepped(old(Now()), base, g, err)
    {
      hide RootRefs, Good, Runtime.Valid, Shape, Resume, TopRest, Returning, Filling;
      ghost var c := Now();
      var f := frames[|frames| - 1];
      BodyTurn(c, g, base, epoch);
      NotReturning(f);
      TidyWith(c, f.(phase := 3), base, epoch);
      err := PushChild(f.(phase := 3), BodyFrame(f, f.callee.program, f.callee.body));
    }

    method EvalBuiltin(b: Builtin, args: seq<Value>) returns (err: Error, v: Value)
      requires Owned(multiset{}) && Refs(args) <= Roots()
      modifies this`met, this`ids, this`created, rt, rt.payload, rt.payload.spans, rt.cellspace, rt.cellspace.spans
      ensures err == Ok ==> Owned(Ref(v))
      ensures err != Ok ==> Owned(multiset{}) && Now() == old(Now())
      ensures Now() == old(Now()).(world := Now().world)
      ensures !Met(err) ==>
        BuiltinIn(old(Now()).world, b, MapS(old(ids), args))
          == if err == Ok then Result.Value(MapV(ids, v), Now().world) else Fail(err, old(Now()).world)
    {
      hide RootRefs, Good, Runtime.Valid, ApplyBuiltin;
      BuiltinAgrees(rt.heap, created, ids, Roots() + multiset{}, b, args);
      BuiltinError(b, args, DerefAll(rt.heap, args));
      assert Ref(Nil) == multiset{};
      v := Nil;
      match ApplyBuiltin(b, args, DerefAll(rt.heap, args))
      case Result(u) => err, v := Ok, u;
      case NewCells(n) =>
        err, v := NewCells(n, multiset{});
        assert multiset{} + Ref(v) == Ref(v);
      case Error(e) => err := e;
    }

    method EvalRecord(definition: Value, fields: seq<Value>) returns (err: Error, v: Value)
      requires Owned(multiset{}) && Held([definition] + fields, Roots() + multiset{})
      modifies this`met, this`ids, this`created, rt, rt.payload, rt.payload.spans
      ensures err == Ok ==> Owned(Ref(v))
      ensures err != Ok ==> Owned(multiset{}) && Now() == old(Now())
      ensures Now() == old(Now()).(world := Now().world)
      ensures !Met(err) ==>
        NewRecordIn(old(Now()).world, MapV(old(ids), definition), MapS(old(ids), fields))
          == if err == Ok then Result.Value(MapV(ids, v), Now().world) else Fail(err, old(Now()).world)
    {
      hide RootRefs, Good, Runtime.Valid, RecordCheck, Held;
      RecordAgrees(rt.heap, created, ids, Roots() + multiset{}, definition, fields);
      err, v := RecordCheck(Deref(rt.heap, definition), fields, DerefAll(rt.heap, fields)), Nil;
      if err == Ok {
        err, v := NewRecord(definition, fields, multiset{});
        assert multiset{} + Ref(v) == Ref(v);
      }
    }

    method DoBuiltin() returns (err: Error, v: Value)
      requires Owned(multiset{}) && frames != [] && AtCall(frames[|frames| - 1]) && |scratch| == SCRATCH * |frames|
      requires frames[|frames| - 1].callee.BuiltinCallee?
      requires frames[|frames| - 1].bufferBase + frames[|frames| - 1].bufferCount <= |arena|
      modifies this`met, this`scratch, this`arena, this`result, this`ids, this`created, this`slots,
               rt, rt.payload, rt.payload.spans, rt.cellspace, rt.cellspace.spans
      ensures Produced(old(Now()), CallResult(old(Now())), err, v)
    {
      hide RootRefs, Good, Runtime.Valid, AtCall, CallResult, BuiltinIn, SameBelow, Slice, MapSlots;
      ghost var c := Now();
      BuiltinCallResult(c);
      SameSelf(c);
      var f := frames[|frames| - 1];
      var args := Slice(arena, f.bufferBase, f.bufferCount);
      SliceHeld(ids, outerHeld, scratch, arena, result, slots, f.bufferBase, f.bufferCount);
      err, v := EvalBuiltin(f.callee.builtin, args);
      OwnWorld(c, c, Now().world);
    }

    method DoRecord() returns (err: Error, v: Value)
      requires Owned(multiset{}) && frames != [] && AtCall(frames[|frames| - 1]) && |scratch| == SCRATCH * |frames|
      requires frames[|frames| - 1].callee.RecordCallee?
      requires frames[|frames| - 1].bufferBase + frames[|frames| - 1].bufferCount <= |arena|
      modifies this`met, this`scratch, this`arena, this`result, this`ids, this`created, this`slots,
               rt, rt.payload, rt.payload.spans, rt.cellspace, rt.cellspace.spans
      ensures Produced(old(Now()), CallResult(old(Now())), err, v)
    {
      hide RootRefs, Good, Runtime.Valid, AtCall, CallResult, NewRecordIn, Held, SameBelow, Slice, MapSlots;
      ghost var c := Now();
      RecordResult(c);
      SameSelf(c);
      var f := frames[|frames| - 1];
      var k := SCRATCH * (|frames| - 1);
      var fields := Slice(arena, f.bufferBase, f.bufferCount);
      SliceHeld(ids, outerHeld, scratch, arena, result, slots, f.bufferBase, f.bufferCount);
      RecordHeld(outerHeld, scratch, arena, result, slots, k, fields);
      err, v := EvalRecord(scratch[k], fields);
      OwnWorld(c, c, Now().world);
      ReleaseOwn(k, c, if err == Ok then Ref(v) else multiset{});
    }

    /** Makes a call of a builtin or of a record definition. */
    method TurnDirect(ghost base: nat, ghost g: nat) returns (err: Error)
      requires Ready(base, g) && AtCall(frames[|frames| - 1])
      requires frames[|frames| - 1].callee.BuiltinCallee? || frames[|frames| - 1].callee.RecordCallee?
      modifies this`met, this`frames, this`scratch, this`arena, this`result, this`ids, this`created, this`slots,
               rt, rt.payload, rt.payload.spans, rt.cellspace, rt.cellspace.spans
      ensures Stepped(old(Now()), base, g, err)
    {
      hide RootRefs, Good, Runtime.Valid, Shape, Resume, TopRest, Returning, Filling, LocalsOf, CallResult, Produced;
      ghost var c := Now();
      CallRest(c, g);
      LocalsFit(c, base, epoch);
      var v;
      if frames[|frames| - 1].callee.BuiltinCallee? {
        err, v := DoBuiltin();
      } else {
        err, v := DoRecord();
      }
      CompleteOut(err, v, CallResult(c), c, base, g);
    }

    // ----- native calls -----

    /** No frame holds a reference: what the frames of every evaluation under way still
        name is stale. */
    ghost predicate Detached()
      reads this, rt, rt.payload, rt.payload.spans, rt.cellspace, rt.cellspace.spans
    {
      && rt.Valid() && Good(rt.heap, created, ids, RootRefs([], [], arena, result, slots))
      && outerHeld == [] && outerView == []
    }

    /** Nothing but the slots holds a reference. */
    ghost predicate Emptied()
      reads this, rt, rt.payload, rt.payload.spans, rt.cellspace, rt.cellspace.spans
    {
      Detached() && arena == [] && result == Nil
    }

    /** Drops every object and slot, then seeds base slots with texts. */
    method ResetAll(seeds: seq<(string, string)>)
      requires rt.Valid() && result == Nil
      modifies this`arena, this`ids, this`created, this`slots, this`epoch, this`outerHeld, this`outerView,
               rt, rt.payload, rt.payload.spans, rt.cellspace, rt.cellspace.spans
      ensures Emptied() && epoch == old(epoch) + 1
    {
      hide Runtime.Valid, Good, RootRefs;
      rt.Reset();
      slots, arena, epoch := [], [], epoch + 1;
      ids, created, outerHeld, outerView := map[], [], [], [];
      EmptyIsGood();
      var i := 0;
      while i < |seeds|
        invariant Emptied() && epoch == old(epoch) + 1
      {
        Seed(seeds[i].0, seeds[i].1);
        i := i + 1;
      }
    }

    /** Binds a base slot to a new text, if there is room. */
    method Seed(name: string, text: string)
      requires Emptied()
      modifies this`ids, this`created, this`slots, rt, rt.payload, rt.payload.spans
      ensures Emptied()
    {
      hide Runtime.Valid, Good, RootRefs, NewObject, Accurate, Refs, SlotValues;
      if FindSlot(slots, name) < |slots| || |slots| >= slotLimit { return; }
      ghost var before, owed := rt.heap, RootRefs([], [], arena, result, slots);
      GoodIsAccurate(rt.heap, created, ids, owed);
      var err, v := rt.AllocLeaf(Text(text), |text| + 1, owed);
      if err == Ok {
        GoodNew(before, rt.heap, created, ids, owed, v.id, Text(text));
        var e := SlotEntry(name, Some(v), false, None);
        SeedRefs(slots, e, arena, result);
        ids, created := ids[v.id := |created|], created + [Text(text)];
        slots := slots + [e];
      }
    }

    /** One turn, or the end of the run by a reset. */
    ghost predicate Turned(before: Config, base: nat, g: nat, startEpoch: nat, err: Error)
      requires 0 < g && before.frames != []
      reads this, rt, rt.payload, rt.payload.spans, rt.cellspace, rt.cellspace.spans
    {
      if epoch == startEpoch then Stepped(before, base, g, err)
      else Emptied() && err != Ok && epoch > startEpoch && frames == before.frames
           && |scratch| == |before.scratch| && !Returning(Top(before)) && TopRest(before, g) == Wiped(err)
    }

    method DoNative() returns (err: Error, v: Value)
      requires Owned(multiset{}) && frames != [] && AtCall(frames[|frames| - 1]) && |scratch| == SCRATCH * |frames|
      requires frames[|frames| - 1].callee.NativeCallee? && !NextEffect(script).ResetRuntime?
      requires frames[|frames| - 1].bufferBase + frames[|frames| - 1].bufferCount <= |arena|
      modifies this`met, this`scratch, this`arena, this`result, this`ids, this`created, this`script, rt, rt.payload, rt.payload.spans,
               rt.cellspace, rt.cellspace.spans
      ensures |script| <= old(|script|)
      ensures Produced(old(Now()), CallResult(old(Now())), err, v)
    {
      hide RootRefs, Good, Runtime.Valid, AtCall, CallResult, NativeResult, SameBelow, Slice, MapSlots;
      ghost var c := Now();
      NativeCallResult(c);
      SameSelf(c);
      var f := frames[|frames| - 1];
      var args := Slice(arena, f.bufferBase, f.bufferCount);
      SliceHeld(ids, outerHeld, scratch, arena, result, slots, f.bufferBase, f.bufferCount);
      err, v := NativeValue(args);
      OwnWorld(c, c, Now().world);
      ReleaseOwn(SCRATCH * (|frames| - 1), c, if err == Ok then Ref(v) else multiset{});
    }

    /** A native returns one of its arguments. */
    method NativeArgument(args: seq<Value>, k: nat) returns (v: Value)
      requires Owned(multiset{}) && Refs(args) <= Roots()
      modifies rt`heap
      ensures Owned(Ref(v)) && Now() == old(Now())
      ensures MapV(ids, v) == ArgumentOf(MapS(ids, args), k)
    {
      hide RootRefs, Good, Runtime.Valid;
      v := Nil;
      assert Ref(Nil) == multiset{};
      if k < |args| {
        v := args[k];
        ArgumentIsLive(rt.heap, created, ids, Roots() + multiset{}, args, k);
        Share(v, multiset{});
        assert multiset{} + Ref(v) == Ref(v);
      }
    }

    /** A native stores an immediate value into cells that are among its arguments. */
    method NativeStore(args: seq<Value>, k: nat, index: Value, u: Value) returns (err: Error)
      requires Owned(multiset{}) && Refs(args) <= Roots() && !index.Obj? && !u.Obj?
      modifies this`ids, this`created, rt, rt.payload, rt.payload.spans, rt.cellspace, rt.cellspace.spans
      ensures Owned(multiset{}) && Now() == old(Now()).(world := Now().world)
      ensures WriteIndexIn(old(Now()).world, ArgumentOf(MapS(old(ids), args), k), index, u)
           == if err == Ok then Result.Value(Nil, Now().world) else Fail(err, Now().world)
    {
      hide RootRefs, Good, Runtime.Valid, WriteIndexIn, Held, View, MapS;
      var target := ArgumentOf(args, k);
      ArgumentHeld(args, target, Roots());
      assert multiset{} + Ref(u) == multiset{};
      err := WriteIndexOwned(target, index, u, multiset{});
    }

    /** The native's own work, as the environment scripts it. */
    method NativeValue(args: seq<Value>) returns (err: Error, v: Value)
      requires Owned(multiset{}) && Refs(args) <= Roots() && !NextEffect(script).ResetRuntime?
      modifies this`met, this`script, this`ids, this`created, rt, rt.payload, rt.payload.spans, rt.cellspace, rt.cellspace.spans
      ensures err == Ok ==> Owned(Ref(v))
      ensures err != Ok ==> Owned(multiset{})
      ensures Now() == old(Now()).(world := Now().world)
      ensures !Met(err) ==>
        NativeResult(old(Now()).world, MapS(old(ids), args))
          == if err == Ok then Result.Value(MapV(ids, v), Now().world) else Fail(err, Now().world)
      ensures |script| <= old(|script|)
    {
      hide RootRefs, Good, Runtime.Valid, MapS, MapV, MapSlots, EffectResult;
      var effect := NextEffect(script);
      script := Rest(script);
      err, v := ApplyEffect(effect, args);
    }

    method ApplyEffect(effect: NativeEffect, args: seq<Value>) returns (err: Error, v: Value)
      requires Owned(multiset{}) && Refs(args) <= Roots() && !effect.ResetRuntime?
      modifies this`met, this`ids, this`created, rt, rt.payload, rt.payload.spans, rt.cellspace, rt.cellspace.spans
      ensures err == Ok ==> Owned(Ref(v))
      ensures err != Ok ==> Owned(multiset{})
      ensures Now() == old(Now()).(world := Now().world)
      ensures !Met(err) ==>
        EffectResult(effect, old(Now()).world, MapS(old(ids), args))
          == if err == Ok then Result.Value(MapV(ids, v), Now().world) else Fail(err, Now().world)
    {
      hide RootRefs, Good, Runtime.Valid, WriteIndexIn, MapS, MapSlots, Kept, View;
      NothingExtra();
      err, v := Ok, Nil;
      match effect
      case ReturnImmediate(u) => v := Immediate(u);
      case ReturnArgument(k) => v := NativeArgument(args, k);
      case ReturnText(text) =>
        err, v := NewLeaf(Text(text), |text| + 1, multiset{});
      case StoreElement(k, index, u) => err := NativeStore(args, k, Immediate(index), Immediate(u));
      case FailWith(code) => err := Other(code);
    }

    /** A native resets the runtime and evaluates base forms; the frames are then stale. */
    method ResetByNative(code: nat, seeds: seq<(string, string)>, forms: seq<BaseForm>, ghost base: nat, ghost g: nat) returns (err: Error)
      requires Ready(base, g) && AtCall(frames[|frames| - 1]) && frames[|frames| - 1].callee.NativeCallee?
      requires NextEffect(script) == ResetRuntime(code, seeds, forms)
      modifies this`met, this`frames, this`scratch, this`arena, this`result, this`ids, this`created, this`slots, this`script, this`polls,
               this`booted, this`outerFrames, this`outerScratch, this`outerHeld, this`outerView,
               this`epoch, rt, rt.payload, rt.payload.spans, rt.cellspace, rt.cellspace.spans
      ensures Turned(old(Now()), base, g, old(epoch), err) && epoch > old(epoch)
      ensures Fixed() == old(Fixed()) && |script| <= old(|script|)
      decreases |script|, 1
    {
      hide RootRefs, Good, Runtime.Valid, Shape, TopRest, Returning, Filling, MapSlots, MapS;
      CallRest(Now(), g);
      ReadyIsValid(base, g);
      PendingResult(base, g);
      script := Rest(script);
      ResetAll(seeds);
      EvalBase(forms);
      err := ResetError(code);
    }

    /** Calls into the host.  The native may reset the whole runtime; the frames are then stale. */
    method TurnNative(ghost base: nat, ghost g: nat) returns (err: Error)
      requires Ready(base, g) && AtCall(frames[|frames| - 1]) && frames[|frames| - 1].callee.NativeCallee?
      modifies this`met, this`frames, this`scratch, this`arena, this`result, this`ids, this`created, this`slots, this`script, this`polls,
               this`booted, this`outerFrames, this`outerScratch, this`outerHeld, this`outerView,
               this`epoch, rt, rt.payload, rt.payload.spans, rt.cellspace, rt.cellspace.spans
      ensures Turned(old(Now()), base, g, old(epoch), err)
      ensures Fixed() == old(Fixed()) && |script| <= old(|script|) && epoch >= old(epoch)
      ensures epoch == old(epoch) ==> Beneath() == old(Beneath())
      decreases |script|, 2
    {
      hide RootRefs, Good, Runtime.Valid, Shape, Resume, TopRest, Returning, Filling, LocalsOf, CallResult, Produced, Stepped;
      ghost var c := Now();
      CallRest(c, g);
      LocalsFit(c, base, epoch);
      match NextEffect(script)
      case ResetRuntime(code, seeds, forms) => err := ResetByNative(code, seeds, forms, base, g);
      case _ =>
        var v;
        err, v := DoNative();
        CompleteOut(err, v, CallResult(c), c, base, g);
    }

    /** Stopping with the predicted error, nothing changed. */
    lemma Refused(base: nat, g: nat, err: Error)
      requires Ready(base, g) && err != Ok && !Returning(Top(Now()))
      requires TopRest(Now(), g) == Stop(err, Now().world)
      ensures Stepped(Now(), base, g, err)
    {
      hide RootRefs, Good, Runtime.Valid, Resume, TopRest, Returning;
      TidySelf(Now(), base, epoch);
    }

    /** Nothing has been delivered yet while a call is under way. */
    lemma PendingResult(base: nat, g: nat)
      requires Ready(base, g) && AtCall(frames[|frames| - 1])
      ensures result == Nil
    {
      BottomResult(Now(), base, epoch);
      assert !Returning(frames[|frames| - 1]);
    }

    lemma ReadyIsValid(base: nat, g: nat)
      requires Ready(base, g)
      ensures rt.Valid()
    {
    }

    method TurnCall(ghost base: nat, ghost g: nat) returns (err: Error)
      requires Ready(base, g) && frames[|frames| - 1].node < |frames[|frames| - 1].program.nodes|
      requires CallOf(frames[|frames| - 1]).Call?
      modifies this`met, this`frames, this`scratch, this`arena, this`result, this`ids, this`created, this`slots, this`script, this`polls,
               this`booted, this`outerFrames, this`outerScratch, this`outerHeld, this`outerView,
               this`epoch, rt, rt.payload, rt.payload.spans, rt.cellspace, rt.cellspace.spans
      ensures Turned(old(Now()), base, g, old(epoch), err)
      ensures Fixed() == old(Fixed()) && |script| <= old(|script|) && epoch >= old(epoch)
      ensures epoch == old(epoch) ==> Beneath() == old(Beneath())
      decreases |script|, 3
    {
      hide RootRefs, Good, Runtime.Valid, Shape, Resume, TopRest, Returning, LocalsOf, Produced, Stepped;
      ghost var c := Now();
      var f := frames[|frames| - 1];
      var node := CallOf(f);
      if f.phase == 0 && node.builtin == NoBuiltin {
        err := PushScratchChild(f.(phase := 1), node.callee, 0, base, g);
      } else if f.phase < 2 {
        err := TurnCallStart(base, g);
      } else if f.phase > 2 {
        LatePhase(f);
        CompleteHandedOn(base, g);
        err := Ok;
      } else if f.index < node.argCount {
        err := TurnArgument(base, g);
      } else {
        match f.callee
        case NativeCallee(_) => err := TurnNative(base, g);
        case CodeCallee(_, _) => err := TurnCode(base, g);
        case NoCallee =>
          CallRest(c, g);
          Refused(base, g, Signature);
          err := Signature;
        case _ => err := TurnDirect(base, g);
      }
    }

    /** One turn of the evaluator loop on the top frame. */
    method Turn(ghost base: nat, ghost g: nat) returns (err: Error)
      requires Ready(base, g)
      modifies this`met, this`frames, this`scratch, this`arena, this`result, this`ids, this`created, this`slots, this`script, this`polls,
               this`booted, this`outerFrames, this`outerScratch, this`outerHeld, this`outerView,
               this`epoch, rt, rt.payload, rt.payload.spans, rt.cellspace, rt.cellspace.spans
      ensures Turned(old(Now()), base, g, old(epoch), err)
      ensures Fixed() == old(Fixed()) && |script| <= old(|script|) && epoch >= old(epoch)
      ensures epoch == old(epoch) ==> Beneath() == old(Beneath())
      decreases |script|, 4
    {
      hide RootRefs, Good, Runtime.Valid, Shape, Resume, TopRest, Returning, LocalsOf, CallResult, Produced, Stepped;
      ghost var c := Now();
      var f := frames[|frames| - 1];
      if f.node >= |f.program.nodes| {
        OutsideRest(c, g);
        Refused(base, g, Malformed);
        return Malformed;
      }
      match CallOf(f)
      case WriteLocal(_, _) => err := TurnWriteLocal(base, g);
      case WriteSlot(_, _, _) => err := TurnWriteSlot(base, g);
      case WriteSlotFallback(_, _, _, _) => err := TurnWriteSlot(base, g);
      case ReadIndex(_, _) => err := TurnReadIndex(base, g);
      case WriteIndex(_, _, _) => err := TurnWriteIndex(base, g);
      case ReadField(_, _) => err := TurnReadField(base, g);
      case WriteField(_, _, _) => err := TurnWriteField(base, g);
      case Call(_, _, _, _) => err := TurnCall(base, g);
      case If(_, _, _, _) => err := TurnIf(base, g);
      case While(_, _) => err := TurnWhile(base, g);
      case Seq(_, _) => err := TurnSeq(base, g);
      case _ => err := TurnLeaf(base, g);
    }

    // ----- whole runs -----

    method PollInterrupt() returns (interrupted: bool)
      modifies this`polls, this`met
      ensures interrupted <==> old(polls) != [] && old(polls)[0]
      ensures polls == if old(polls) == [] then [] else old(polls)[1..]
      ensures met == if interrupted then old(met) + {Interrupted} else old(met)
    {
      interrupted := polls != [] && polls[0];
      polls := Rest(polls);
      if interrupted { met := met + {Interrupted}; }
    }

    /** Takes down what is left of the stack after an error.  Frames entered before a reset
        are only forgotten: their references no longer mean anything. */
    method Cleanup(ghost base: nat, ghost stale: bool)
      requires !stale ==> Owned(multiset{}) && Tidy(base)
      requires stale ==> Emptied() && |scratch| == SCRATCH * |frames| && forall f | f in frames :: f.epoch != epoch
      modifies this`frames, this`scratch, this`arena, this`result, this`ids,
               rt, rt.payload, rt.payload.spans, rt.cellspace, rt.cellspace.spans
      ensures frames == [] && scratch == []
      ensures !stale ==> Owned(multiset{}) && |arena| == base && Now().world == old(Now()).world && Now().result == old(Now()).result
      ensures stale ==> Emptied() && arena == old(arena) && result == old(result)
    {
      hide RootRefs, Good, Runtime.Valid, DropTop, StackOk, ArenaTop, MapSlots;
      NoFrames(base, epoch);
      while frames != []
        invariant !stale ==> Owned(multiset{}) && Tidy(base) && Now().world == old(Now()).world && Now().result == old(Now()).result
        invariant stale ==> Emptied() && |scratch| == SCRATCH * |frames| && arena == old(arena) && result == old(result)
        invariant stale ==> forall f | f in frames :: f.epoch != epoch
        decreases |frames|
      {
        var n := |frames| - 1;
        ghost var c := Now();
        if !stale { TidyTop(c, base, epoch); }
        if frames[n].epoch == epoch {
          PopFrame();
        } else {
          frames, scratch := frames[..n], scratch[..SCRATCH * n];
        }
      }
    }

    /** One round of the loop: a frame that is about to start polls for an interrupt first. */
    method Advance(ghost base: nat, ghost g: nat) returns (err: Error)
      requires Ready(base, g)
      modifies this`met, this`frames, this`scratch, this`arena, this`result, this`ids, this`created, this`slots, this`script, this`polls,
               this`booted, this`outerFrames, this`outerScratch, this`outerHeld, this`outerView,
               this`epoch, rt, rt.payload, rt.payload.spans, rt.cellspace, rt.cellspace.spans
      ensures Turned(old(Now()), base, g, old(epoch), err)
      ensures Fixed() == old(Fixed()) && |script| <= old(|script|) && epoch >= old(epoch)
      ensures epoch == old(epoch) ==> Beneath() == old(Beneath())
      decreases |script|, 5
    {
      hide RootRefs, Good, Runtime.Valid, Shape, Resume, TopRest, Returning, StackOk, ArenaTop, Beneath, Fixed;
      ghost var c := Now();
      if frames[|frames| - 1].phase == 0 {
        var interrupted := PollInterrupt();
        if interrupted {
          TidySelf(c, base, epoch);
          PhaseZero(c);
          return Interrupted;
        }
      }
      err := Turn(base, g);
    }

    /** A run has come out as `p`, what the whole stack was to produce, says. */
    ghost predicate Predicted(p: Outcome, base: nat, startEpoch: nat, err: Error, running: bool)
      reads this, rt, rt.payload, rt.payload.spans, rt.cellspace, rt.cellspace.spans
    {
      if epoch != startEpoch then
        p == Wiped(err) && !running && Emptied()
      else
        && Owned(multiset{})
        && (running ==> p == OutOfGas && Shape(Now(), base, epoch))
        && (!running ==> |arena| == base)
        && (!running && err == Ok ==> p.Done? && p.value == Now().result && p.locals == Now().arena && p.world == Now().world)
        && (!running && err != Ok ==> result == Nil && (Met(err) || p == Stop(err, Now().world)))
    }

    /** The loop, from an evaluation's first frame on. */
    method RunFrames(ghost base: nat, fuel: nat) returns (err: Error, running: bool)
      requires Owned(multiset{}) && Shape(Now(), base, epoch)
      modifies this`met, this`frames, this`scratch, this`arena, this`result, this`ids, this`created, this`slots, this`script, this`polls,
               this`booted, this`outerFrames, this`outerScratch, this`outerHeld, this`outerView,
               this`epoch, rt, rt.payload, rt.payload.spans, rt.cellspace, rt.cellspace.spans
      ensures Predicted(Resume(old(Now()), fuel), base, old(epoch), err, running)
      ensures !running ==> frames == [] && scratch == []
      ensures Fixed() == old(Fixed()) && |script| <= old(|script|) && epoch >= old(epoch)
      ensures epoch == old(epoch) ==> Beneath() == old(Beneath())
      decreases |script|, 6
    {
      hide RootRefs, Good, Runtime.Valid, Shape, Resume, TopRest, Returning, Stepped, StackOk, ArenaTop, Turned, MapS, MapSlots;
      ghost var startEpoch, prediction := epoch, Resume(Now(), fuel);
      running := false;
      var gas := fuel;
      err := Ok;
      while frames != [] && gas > 0
        invariant err == Ok && epoch == startEpoch && Owned(multiset{}) && Shape(Now(), base, epoch)
        invariant Resume(Now(), gas) == prediction
        invariant Fixed() == old(Fixed()) && |script| <= old(|script|) && Beneath() == old(Beneath())
        decreases gas
      {
        ghost var c := Now();
        err := Advance(base, gas);
        if err != Ok {
          StopRun(err, c, base, gas, startEpoch);
          return;
        }
        SteppedOk(c, base, gas, startEpoch);
        gas := gas - 1;
      }
      RunEnds(Now(), gas, base, epoch);
      running := frames != [];
    }

    /** Takes the stack down after a turn from `c` that has ended in an error. */
    method StopRun(err: Error, ghost c: Config, ghost base: nat, ghost g: nat, ghost startEpoch: nat)
      requires err != Ok && 0 < g && c.frames != [] && Shape(c, base, startEpoch) && Turned(c, base, g, startEpoch, err)
      modifies this`frames, this`scratch, this`arena, this`result, this`ids,
               rt, rt.payload, rt.payload.spans, rt.cellspace, rt.cellspace.spans
      ensures Predicted(Resume(c, g), base, startEpoch, err, false)
      ensures frames == [] && scratch == []
    {
      hide RootRefs, Good, Runtime.Valid, Shape, Resume, TopRest, Returning, Stepped, StackOk, ArenaTop, Turned, MapS, MapSlots;
      BottomResult(c, base, startEpoch);
      TidySelf(c, base, startEpoch);
      ResumeStops(c, g);
      SteppedError(c, base, g, startEpoch, err);
      Cleanup(base, epoch != startEpoch);
    }

    /** An evaluation on a stack of its own. */
    method RunNode(program: Program, localsBase: nat, localCount: nat, node: nat, fuel: nat, cut: bool) returns (err: Error, running: bool)
      requires Owned(multiset{}) && frames == [] && scratch == [] && result == Nil
      requires node < |program.nodes| && localsBase + localCount <= |arena|
      modifies this`met, this`frames, this`scratch, this`arena, this`result, this`ids, this`created, this`slots, this`script, this`polls,
               this`booted, this`outerFrames, this`outerScratch, this`outerHeld, this`outerView,
               this`epoch, rt, rt.payload, rt.payload.spans, rt.cellspace, rt.cellspace.spans
      ensures Ended(Eval(program, node, Slice(old(Now()).arena, localsBase, localCount), old(Now()).world, fuel),
                    old(Now()).arena, localsBase, old(epoch), err, running)
      ensures !running ==> frames == [] && scratch == []
      ensures running ==> !cut
      ensures Fixed() == old(Fixed()) && |script| <= old(|script|) && epoch >= old(epoch)
      ensures epoch == old(epoch) ==> Owned(multiset{}) && Beneath() == old(Beneath())
      decreases |script|, 7
    {
      hide RootRefs, Good, Runtime.Valid, Shape, Resume, Eval, MapS, MapSlots, SetSlice, Slice;
      ghost var base := |arena|;
      running := false;
      err := PushRoot(program, localsBase, localCount, node, fuel);
      if err != Ok { return; }
      err, running := RunFrames(base, fuel);
      if running && cut {
        CutShort(base);
        return Interrupted, false;
      }
    }

    /** The first frame of an evaluation, if the stack can take one. */
    method PushRoot(program: Program, localsBase: nat, localCount: nat, node: nat, ghost fuel: nat) returns (err: Error)
      requires Owned(multiset{}) && frames == [] && scratch == [] && result == Nil
      requires localsBase + localCount <= |arena|
      modifies this`frames, this`scratch, this`met
      ensures Owned(multiset{}) && (err == Ok <==> |outerFrames| < frameLimit)
      ensures err != Ok ==> err == CallDepth && met == old(met) + {CallDepth} && Now() == old(Now()) && frames == [] && scratch == []
      ensures err == Ok ==> met == old(met) && Shape(Now(), |arena|, epoch)
      ensures err == Ok ==> var o := Eval(program, node, Slice(old(Now()).arena, localsBase, localCount), old(Now()).world, fuel);
        Resume(Now(), fuel) == if o.Done? then Done(o.value, SetSlice(old(Now()).arena, localsBase, o.locals), o.world, o.gas) else o
    {
      hide RootRefs, Good, Runtime.Valid, Shape, Resume, Eval, MapS, MapSlots;
      if |outerFrames| >= frameLimit {
        met := met + {CallDepth};
        return CallDepth;
      }
      err := Ok;
      ghost var start := Now();
      var first := RootFrame(program, localsBase, localCount, node, epoch);
      EmptyPlus(ids);
      NilScratch(ids, outerHeld, scratch, arena, result, slots);
      frames, scratch := [first], scratch + [Nil, Nil, Nil];
      StartShape(start, Now(), first, |arena|, epoch);
      StartResume(start, Now(), first, fuel);
    }

    /** Ends a run that is to go no further, as an interrupt would. */
    method CutShort(ghost base: nat)
      requires Owned(multiset{}) && Shape(Now(), base, epoch)
      modifies this`met, this`frames, this`scratch, this`arena, this`result, this`ids, rt, rt.payload, rt.payload.spans, rt.cellspace, rt.cellspace.spans
      ensures Owned(multiset{}) && frames == [] && scratch == [] && |arena| == base && result == Nil
      ensures met == old(met) + {Interrupted}
    {
      hide RootRefs, Good, Runtime.Valid, Shape, MapS, MapSlots;
      TidySelf(Now(), base, epoch);
      Cleanup(base, false);
      ReleasePlace(ToResult);
      met := met + {Interrupted};
    }

    lemma SteppedError(c: Config, base: nat, g: nat, startEpoch: nat, err: Error)
      requires 0 < g && c.frames != [] && Turned(c, base, g, startEpoch, err) && err != Ok
      ensures epoch == startEpoch ==> Owned(multiset{}) && Tidy(base) && !Returning(Top(c)) && Now().result == c.result
      ensures epoch == startEpoch ==> Met(err) || TopRest(c, g) == Stop(err, Now().world)
      ensures epoch != startEpoch ==> Emptied() && epoch > startEpoch && arena == [] && frames == c.frames && |scratch| == |c.scratch|
      ensures epoch != startEpoch ==> (c.result == Nil ==> result == Nil) && !Returning(Top(c)) && TopRest(c, g) == Wiped(err)
    {
      hide RootRefs, Good, Runtime.Valid, Resume, TopRest, Returning;
    }

    lemma SteppedOk(c: Config, base: nat, g: nat, startEpoch: nat)
      requires 0 < g && c.frames != [] && Turned(c, base, g, startEpoch, Ok)
      ensures epoch == startEpoch && Owned(multiset{}) && Shape(Now(), base, epoch) && Resume(c, g) == Resume(Now(), g - 1)
    {
      hide RootRefs, Good, Runtime.Valid, Resume, TopRest, Returning;
    }

    /** What an evaluation leaves of everything but its own stack. */
    ghost predicate Ended(o: Outcome, arenaBefore: seq<Value>, localsBase: nat, startEpoch: nat, err: Error, running: bool)
      reads this, rt, rt.payload, rt.payload.spans, rt.cellspace, rt.cellspace.spans
    {
      if epoch != startEpoch then
        o == Wiped(err) && !running && Emptied()
      else
        && (running ==> o == OutOfGas)
        && (!running ==> |arena| == |arenaBefore|)
        && (!running && err == Ok ==>
              o.Done? && Now().result == o.value && Now().world == o.world
              && Now().arena == SetSlice(arenaBefore, localsBase, o.locals))
        && (!running && err != Ok ==> result == Nil && (Met(err) || o == Stop(err, Now().world)))
    }

    /** The references are in order: `stale` if a reset has outdated the frames under way. */
    ghost predicate InOrder(stale: bool)
      reads this, rt, rt.payload, rt.payload.spans, rt.cellspace, rt.cellspace.spans
    {
      if stale then Detached() else Owned(multiset{})
    }

    /** Suspends the evaluation under way: its frames are below the new one's. */
    method Suspend(ghost stale: bool)
      requires InOrder(stale)
      modifies this`frames, this`scratch, this`outerFrames, this`outerScratch, this`outerHeld, this`outerView
      ensures Owned(multiset{}) && frames == [] && scratch == []
      ensures outerFrames == old(outerFrames) + old(frames) && outerScratch == old(outerScratch) + old(scratch)
      ensures outerHeld == (if stale then [] else old(outerHeld) + old(scratch))
      ensures outerView == (if stale then [] else old(outerView) + old(Now()).scratch)
      ensures Now() == old(Now()).(frames := [], scratch := [])
    {
      hide RootRefs, Good, Runtime.Valid;
      if stale {
        SuspendedStale(ids, arena, result, slots);
      } else {
        Suspended(ids, outerHeld, scratch, arena, result, slots);
        outerHeld, outerView := outerHeld + scratch, outerView + Now().scratch;
      }
      outerFrames, outerScratch, frames, scratch := outerFrames + frames, outerScratch + scratch, [], [];
    }

    /** Goes on with the evaluation that was suspended: the frames from number `depth` on. */
    method Unsuspend(depth: nat, width: nat, ghost stale: bool, ghost held: seq<Value>, ghost heldView: seq<Value>, ghost view: seq<Value>)
      requires Owned(multiset{}) && frames == [] && scratch == [] && depth <= |outerFrames| && width <= |outerScratch|
      requires stale ==> outerHeld == [] && outerView == []
      requires !stale ==> outerHeld == held + outerScratch[width..] && outerView == heldView + view
      requires !stale ==> |heldView| == |held| && |view| == |outerScratch[width..]|
      modifies this`frames, this`scratch, this`outerFrames, this`outerScratch, this`outerHeld, this`outerView
      ensures InOrder(stale) && frames == old(outerFrames)[depth..] && scratch == old(outerScratch)[width..]
      ensures outerFrames == old(outerFrames)[..depth] && outerScratch == old(outerScratch)[..width]
      ensures stale ==> outerHeld == [] && outerView == []
      ensures !stale ==> outerHeld == held && outerView == heldView && Now().scratch == view
      ensures Now() == old(Now()).(frames := frames, scratch := Now().scratch)
    {
      hide RootRefs, Good, Runtime.Valid;
      frames, scratch, outerFrames, outerScratch := outerFrames[depth..], outerScratch[width..], outerFrames[..depth], outerScratch[..width];
      if stale {
        SuspendedStale(ids, arena, result, slots);
      } else {
        outerHeld, outerView := held, heldView;
        Unsuspended(ids, held, scratch, heldView, view);
        Suspended(ids, held, scratch, arena, result, slots);
      }
    }

    /**
     Evaluates a node on the locals at `localsBase`, for at most `fuel` turns, above whatever
     evaluations are under way. For every fuel the machine does what the interpreter says, or
     meets a limit, or is interrupted (`met` says which); the stack, and what the frames below hold,
     are as they were. A run that needs more fuel stops `running`, with its ownership in
     order, or, if it is to be `cut`, as an interrupt would stop it.
     */
    method EvalNode(program: Program, localsBase: nat, localCount: nat, node: nat, fuel: nat, cut: bool, ghost stale: bool)
      returns (err: Error, running: bool)
      requires met == {} && InOrder(stale) && result == Nil && localsBase + localCount <= |arena|
      modifies this`met, this`frames, this`scratch, this`arena, this`result, this`ids, this`created, this`slots, this`script, this`polls,
               this`booted, this`outerFrames, this`outerScratch, this`outerHeld, this`outerView,
               this`epoch, rt, rt.payload, rt.payload.spans, rt.cellspace, rt.cellspace.spans
      ensures node >= |program.nodes| ==> err == Bounds && !running && Now() == old(Now()) && epoch == old(epoch)
      ensures node < |program.nodes| ==>
        Ended(Eval(program, node, Slice(old(Now()).arena, localsBase, localCount), old(Now()).world, fuel),
              old(Now()).arena, localsBase, old(epoch), err, running)
      ensures !running ==> frames == old(frames) && scratch == old(scratch) && outerFrames == old(outerFrames) && outerScratch == old(outerScratch)
      ensures running ==> !cut && Owned(multiset{})
      ensures running ==> outerFrames == old(outerFrames) + old(frames) && outerScratch == old(outerScratch) + old(scratch)
      ensures booted == old(booted) && |script| <= old(|script|) && epoch >= old(epoch)
      ensures epoch == old(epoch) && !running ==> InOrder(stale) && outerHeld == old(outerHeld) && outerView == old(outerView)
      ensures epoch == old(epoch) && !running && !stale ==> Now().scratch == old(Now()).scratch
      decreases |script|, 8
    {
      hide RootRefs, Good, Runtime.Valid, Eval;
      if node >= |program.nodes| { return Bounds, false; }
      var depth, width := |outerFrames|, |outerScratch|;
      ghost var before, view := outerHeld, outerView;
      InOrderViews(stale);
      Suspend(stale);
      err, running := RunNode(program, localsBase, localCount, node, fuel, cut);
      if running { return; }
      if epoch != old(epoch) { EmptiedIsOwned(); }
      Unsuspend(depth, width, stale || epoch != old(epoch), before, view, old(Now()).scratch);
    }

    lemma EmptiedIsOwned()
      requires Emptied() && frames == [] && scratch == []
      ensures Owned(multiset{})
    {
      hide RootRefs, Good, Runtime.Valid;
      SuspendedStale(ids, arena, result, slots);
    }

    /** What a run of a whole program leaves of everything but its own stack. */
    ghost predicate Concluded(o: Outcome, arenaBefore: seq<Value>, startEpoch: nat, err: Error, running: bool)
      reads this, rt, rt.payload, rt.payload.spans, rt.cellspace, rt.cellspace.spans
    {
      if epoch != startEpoch then
        !running && Emptied() && o.Wiped? && err == (if o.err == Reset then Ok else o.err)
      else
        && (running ==> o == OutOfGas)
        && (!running ==> |arena| == |arenaBefore|)
        && (!running && err == Ok ==>
              o.Done? && Now().result == o.value && Now().world == o.world && Now().arena == arenaBefore)
        && (!running && err != Ok ==> result == Nil && (Met(err) || o == Stop(err, Now().world)))
    }

    /** Evaluates a program's root on fresh nil locals, above whatever evaluations are under way. */
    method EvalProgram(program: Program, fuel: nat, cut: bool, ghost stale: bool) returns (err: Error, running: bool)
      requires met == {} && InOrder(stale) && result == Nil
      modifies this`met, this`frames, this`scratch, this`arena, this`result, this`ids, this`created, this`slots, this`script, this`polls,
               this`booted, this`outerFrames, this`outerScratch, this`outerHeld, this`outerView,
               this`epoch, rt, rt.payload, rt.payload.spans, rt.cellspace, rt.cellspace.spans
      ensures program.root >= |program.nodes| ==> err == Bounds && !running && Now() == old(Now()) && arena == old(arena) && result == Nil && epoch == old(epoch)
      ensures program.root < |program.nodes| ==>
        Concluded(Eval(program, program.root, Nils(program.rootLocalCount), old(Now()).world, fuel),
                  old(Now()).arena, old(epoch), err, running)
      ensures !running ==> frames == old(frames) && scratch == old(scratch) && outerFrames == old(outerFrames) && outerScratch == old(outerScratch)
      ensures running ==> !cut && Owned(multiset{})
      ensures running ==> outerFrames == old(outerFrames) + old(frames) && outerScratch == old(outerScratch) + old(scratch)
      ensures booted == old(booted) && |script| <= old(|script|) && epoch >= old(epoch)
      ensures epoch == old(epoch) && !running ==> InOrder(stale) && outerHeld == old(outerHeld) && outerView == old(outerView)
      ensures epoch == old(epoch) && !running && !stale ==> Now().scratch == old(Now()).scratch
      decreases |script|, 9
    {
      hide RootRefs, Good, Runtime.Valid, Eval, SetSlice, MapS, MapSlots, Slice, Refs;
      if program.root >= |program.nodes| { return Bounds, false; }
      var base, count := |arena|, program.rootLocalCount;
      var startEpoch := epoch;
      ghost var before := Now().arena;
      running := false;
      err := TakeLocals(count, stale);
      if err != Ok { return; }
      ghost var o := Eval(program, program.root, Nils(count), Now().world, fuel);
      BufferSlice(before, count);
      err, running := EvalNode(program, base, count, program.root, fuel, cut, stale);
      if running { return; }
      if epoch == startEpoch {
        if o.Done? { LocalsForgotten(before, Nils(count), o.locals); }
        FreeLocals(base, stale);
      } else if err == Reset {
        err := Ok;
      }
    }

    /** Takes fresh nil locals from the arena, if it has room for them. */
    method TakeLocals(count: nat, ghost stale: bool) returns (err: Error)
      requires InOrder(stale)
      modifies this`met, this`arena
      ensures InOrder(stale) && (err == Ok <==> count == 0 || |old(arena)| + count <= valueLimit)
      ensures err != Ok ==> err == OutOfMemory && met == old(met) + {OutOfMemory} && arena == old(arena)
      ensures err == Ok ==> met == old(met) && arena == old(arena) + Nils(count)
      ensures err == Ok ==> Now() == old(Now()).(arena := old(Now()).arena + Nils(count))
    {
      hide RootRefs, Good, Runtime.Valid;
      if count > 0 && |arena| + count > valueLimit {
        met := met + {OutOfMemory};
        return OutOfMemory;
      }
      NilArena(ids, if stale then [] else outerHeld, if stale then [] else scratch, arena, result, slots, count);
      arena := arena + Nils(count);
      err := Ok;
    }

    /** Releases the locals of a program and gives their places back. */
    method FreeLocals(base: nat, ghost stale: bool)
      requires InOrder(stale) && base <= |arena|
      modifies this`frames, this`scratch, this`arena, this`result, this`ids, this`outerFrames, this`outerScratch, this`outerHeld, this`outerView,
               rt, rt.payload, rt.payload.spans, rt.cellspace, rt.cellspace.spans
      ensures InOrder(stale) && scratch == old(scratch) && |arena| == base
      ensures Now().arena == old(Now()).arena[..base] && Now().world == old(Now()).world && Now().result == old(Now()).result
      ensures !stale ==> Now().scratch == old(Now()).scratch
      ensures frames == old(frames) && outerFrames == old(outerFrames) && outerScratch == old(outerScratch)
      ensures outerHeld == old(outerHeld) && outerView == old(outerView)
    {
      hide RootRefs, Good, Runtime.Valid;
      var depth, width := |outerFrames|, |outerScratch|;
      ghost var held, view := outerHeld, outerView;
      InOrderViews(stale);
      Suspend(stale);
      BufferFree(base);
      Unsuspend(depth, width, stale, held, view, old(Now()).scratch);
    }

    lemma InOrderViews(stale: bool)
      requires InOrder(stale)
      ensures |outerView| == |outerHeld| && |Now().scratch| == |scratch| && (stale ==> outerHeld == [])
    {
      hide Good, RootRefs, Runtime.Valid;
    }

    /**
     Evaluates base forms one after the other, while the evaluation that called for a reset is
     still under way below. Whatever becomes of them, the stack below is untouched, and
     nothing but the slots holds a reference.
     */
    method EvalBase(forms: seq<BaseForm>)
      requires Emptied()
      modifies this`met, this`frames, this`scratch, this`arena, this`result, this`ids, this`created, this`slots, this`script, this`polls,
               this`booted, this`outerFrames, this`outerScratch, this`outerHeld, this`outerView,
               this`epoch, rt, rt.payload, rt.payload.spans, rt.cellspace, rt.cellspace.spans
      ensures Emptied()
      ensures frames == old(frames) && scratch == old(scratch) && outerFrames == old(outerFrames) && outerScratch == old(outerScratch)
      ensures booted == old(booted) && |script| <= old(|script|) && epoch >= old(epoch)
      decreases |script|, 10
    {
      hide RootRefs, Good, Runtime.Valid, Eval;
      var saved := booted;
      booted := false;
      var i := 0;
      while i < |forms|
        invariant Emptied() && epoch >= old(epoch)
        invariant frames == old(frames) && scratch == old(scratch) && outerFrames == old(outerFrames) && outerScratch == old(outerScratch)
        invariant |script| <= old(|script|)
      {
        met := {};
        var err, running := EvalProgram(forms[i].program, forms[i].fuel, true, true);
        if err != Ok { break; }
        ReleaseResult();
        i := i + 1;
      }
      booted := saved;
    }

    /** Gives up the value a base form has come to. */
    method ReleaseResult()
      requires Detached() && arena == []
      modifies this`result, this`ids, rt, rt.payload, rt.payload.spans, rt.cellspace, rt.cellspace.spans
      ensures Emptied()
    {
      hide RootRefs, Good, Runtime.Valid, Shrunk, Kept, Accurate, Restrict, MapS;
      ghost var before, owed := rt.heap, RootRefs([], [], arena, Nil, slots);
      var v := result;
      ResultMoved(arena, v, slots);
      GoodIsAccurate(rt.heap, created, ids, owed + Ref(v));
      result := Nil;
      rt.Release(v, owed);
      GoodShrunk(before, rt.heap, created, ids, owed + Ref(v), owed);
      ids := Restrict(ids, rt.heap);
    }
  }

  lemma NothingExtra()
    ensures Ref(Nil) == multiset{} && forall v: Value {:trigger Ref(v)} :: multiset{} + Ref(v) == Ref(v)
  {
  }

  lemma ResultMoved(arena: seq<Value>, v: Value, slots: seq<SlotEntry>)
    ensures RootRefs([], [], arena, v, slots) == RootRefs([], [], arena, Nil, slots) + Ref(v)
  {
    hide Refs;
    assert Ref(Nil) == multiset{};
  }

  /** Moving the references of scratch to those held below changes no count. */
  lemma Suspended(ids: Ids, outer: seq<Value>, scratch: seq<Value>, arena: seq<Value>, result: Value, slots: seq<SlotEntry>)
    ensures RootRefs(outer + scratch, [], arena, result, slots) == RootRefs(outer, scratch, arena, result, slots)
    ensures MapS(ids, outer + scratch) == MapS(ids, outer) + MapS(ids, scratch) && MapS(ids, []) == []
  {
    RefsConcat(outer, scratch);
    hide Ref;
  }

  lemma SuspendedStale(ids: Ids, arena: seq<Value>, result: Value, slots: seq<SlotEntry>)
    ensures RootRefs([], [], arena, result, slots) + multiset{} == RootRefs([], [], arena, result, slots)
    ensures MapS(ids, []) == []
  {
  }

  lemma Unsuspended(ids: Ids, outer: seq<Value>, scratch: seq<Value>, outerView: seq<Value>, view: seq<Value>)
    requires |outerView| == |outer| && |view| == |scratch| && MapS(ids, outer + scratch) == outerView + view
    ensures MapS(ids, outer) == outerView && MapS(ids, scratch) == view
  {
    forall i | 0 <= i < |outer| ensures MapS(ids, outer)[i] == outerView[i] {
      assert MapS(ids, outer + scratch)[i] == MapV(ids, (outer + scratch)[i]);
    }
    forall i | 0 <= i < |scratch| ensures MapS(ids, scratch)[i] == view[i] {
      assert MapS(ids, outer + scratch)[|outer| + i] == MapV(ids, (outer + scratch)[|outer| + i]);
    }
  }

  lemma ArgumentHeld(args: seq<Value>, v: Value, owed: multiset<nat>)
    requires Refs(args) <= owed && (v.Obj? ==> v in args)
    ensures Held([v], owed + multiset{})
  {
    if v.Obj? {
      assert v == Obj(v.id);
      RefsOf(args, v.id);
    }
  }

  lemma GoodIsAccurate(h: Heap, created: seq<Object>, ids: Ids, owed: multiset<nat>)
    requires Good(h, created, ids, owed)
    ensures Accurate(h, owed)
  {
  }

  lemma RecordKnown(h: Heap, created: seq<Object>, ids: Ids, owed: multiset<nat>, definition: Value, fields: seq<Value>)
    requires Good(h, created, ids, owed) && Held([definition] + fields, owed)
    ensures AllKnown(ids, Children(Record(definition, fields)))
  {
    OwedIsLive(h, created, ids, owed);
    forall v | v in Children(Record(definition, fields)) ensures Known(ids, v) {
      assert v in [definition] + fields;
    }
  }

  ghost function EntryValue(e: SlotEntry): Value { if e.impl.Some? then e.impl.value else Nil }

  function WithEntry(slots: seq<SlotEntry>, i: nat, e: SlotEntry): seq<SlotEntry>
    requires i <= |slots|
  {
    if i < |slots| then slots[i := e] else slots + [e]
  }

  lemma EntryMoved(outer: seq<Value>, scratch: seq<Value>, arena: seq<Value>, result: Value, slots: seq<SlotEntry>, i: nat, e: SlotEntry, loose: multiset<nat>)
    requires i <= |slots|
    ensures RootRefs(outer, scratch, arena, result, WithEntry(slots, i, e))
              + (loose + Ref(if i < |slots| then EntryValue(slots[i]) else Nil))
         == RootRefs(outer, scratch, arena, result, slots) + (loose + Ref(EntryValue(e)))
  {
    var vs, v := SlotValues(slots), EntryValue(e);
    var u := if i < |slots| then EntryValue(slots[i]) else Nil;
    var after := SlotValues(WithEntry(slots, i, e));
    if i < |slots| {
      assert after == vs[i := v];
      RefsUpdate(vs, i, v);
    } else {
      assert after == vs + [v];
      RefsConcat(vs, [v]);
      assert Refs([v]) == Ref(v) + Refs([v][1..]);
    }
    assert Refs(after) + Ref(u) == Refs(vs) + Ref(v);
    Shifted(Refs(outer), Refs(scratch) + Refs(arena) + Ref(result), Refs(after), Refs(vs), Ref(u), Ref(v), loose);
  }

  lemma Shifted(o: multiset<nat>, rest: multiset<nat>, t1: multiset<nat>, t: multiset<nat>, x: multiset<nat>, y: multiset<nat>, loose: multiset<nat>)
    requires t1 + x == t + y
    ensures o + (rest + t1) + (loose + x) == o + (rest + t) + (loose + y)
  {
    assert o + (rest + t1) + (loose + x) == o + rest + (t1 + x) + loose;
    assert o + (rest + t) + (loose + y) == o + rest + (t + y) + loose;
  }

  lemma SlotIsLive(h: Heap, created: seq<Object>, ids: Ids, outer: seq<Value>, scratch: seq<Value>, arena: seq<Value>, result: Value,
                   slots: seq<SlotEntry>, i: nat, loose: multiset<nat>)
    requires Good(h, created, ids, RootRefs(outer, scratch, arena, result, slots) + loose)
    requires i < |slots| && slots[i].impl.Some?
    ensures slots[i].impl.value.Obj? ==> IsLive(h, slots[i].impl.value.id)
  {
    var v := slots[i].impl.value;
    if v.Obj? {
      OwedIsLive(h, created, ids, RootRefs(outer, scratch, arena, result, slots) + loose);
      assert SlotValues(slots)[i] == v && v == Obj(v.id);
      RefsOf(SlotValues(slots), v.id);
    }
  }

  lemma KeptLoose(h: Heap, created: seq<Object>, ids: Ids, roots: multiset<nat>, loose: multiset<nat>, v: Value)
    requires Good(h, created, ids, roots + (loose + Ref(v)))
    ensures Kept(ids, ids, loose)
  {
    OwedIsLive(h, created, ids, roots + (loose + Ref(v)));
  }

  lemma SlotCheckAgrees(ids: Ids, slots: seq<SlotEntry>, name: string, v: Value, requireExisting: bool)
    ensures SlotWriteCheck(MapSlots(ids, slots), name, MapV(ids, v), requireExisting)
         == SlotWriteCheck(slots, name, v, requireExisting)
    ensures FindSlot(MapSlots(ids, slots), name) == FindSlot(slots, name)
  {
    SameSlot(ids, slots, name);
  }

  lemma BoundAgrees(before: Ids, ids: Ids, start: seq<SlotEntry>, slots: seq<SlotEntry>, name: string, v: Value,
                    booted: bool, arity: Option<nat>)
    requires var i := FindSlot(start, name); exists e :: slots == WithEntry(start, i, e)
    requires MapSlots(ids, slots) == MapSlots(before, slots) && MapV(ids, v) == MapV(before, v)
    ensures var i := FindSlot(start, name);
      i <= |slots| && i < |slots| &&
      BindSlot(MapSlots(before, start), name, MapV(before, v), booted, arity)
        == MapSlots(ids, WithEntry(slots, i, SlotEntry(name, Some(v), booted, arity)))
  {
    var i := FindSlot(start, name);
    SameSlot(before, start, name);
    var e := SlotEntry(name, Some(v), booted, arity);
    forall k | 0 <= k < |slots| && k != i ensures MapEntry(ids, slots[k]) == MapEntry(before, start[k]) {
      assert MapSlots(ids, slots)[k] == MapSlots(before, slots)[k];
    }
    assert MapEntry(ids, e) == SlotEntry(name, Some(MapV(before, v)), booted, arity);
  }

  lemma ArityAgrees(h: Heap, created: seq<Object>, ids: Ids, roots: multiset<nat>, loose: multiset<nat>, v: Value)
    requires Good(h, created, ids, roots + (loose + Ref(v)))
    ensures SlotArity(Look(created, MapV(ids, v))) == SlotArity(Deref(h, v))
  {
    OwedIsLive(h, created, ids, roots + (loose + Ref(v)));
    LookAlike(h, created, ids, v);
    SameResolution(ids, Deref(h, v), 0);
  }

  lemma NilsAppended(ids: Ids, vs: seq<Value>, count: nat)
    ensures Refs(vs + Nils(count)) == Refs(vs)
    ensures MapS(ids, vs + Nils(count)) == MapS(ids, vs) + Nils(count)
  {
    hide Refs;
    RefsConcat(vs, Nils(count));
    NilsOwnNothing(count);
    assert Nils(count) == seq(count, _ => Nil);
    assert Refs(vs) + multiset{} == Refs(vs);
  }

  lemma NilScratch(ids: Ids, outer: seq<Value>, scratch: seq<Value>, arena: seq<Value>, result: Value, slots: seq<SlotEntry>)
    ensures RootRefs(outer, scratch + [Nil, Nil, Nil], arena, result, slots) == RootRefs(outer, scratch, arena, result, slots)
    ensures MapS(ids, scratch + [Nil, Nil, Nil]) == MapS(ids, scratch) + [Nil, Nil, Nil]
  {
    hide Refs, MapS;
    assert Nils(SCRATCH) == [Nil, Nil, Nil];
    NilsAppended(ids, scratch, SCRATCH);
  }

  lemma NilArena(ids: Ids, outer: seq<Value>, scratch: seq<Value>, arena: seq<Value>, result: Value, slots: seq<SlotEntry>, count: nat)
    ensures RootRefs(outer, scratch, arena + Nils(count), result, slots) == RootRefs(outer, scratch, arena, result, slots)
    ensures MapS(ids, arena + Nils(count)) == MapS(ids, arena) + Nils(count)
  {
    hide Refs, MapS;
    NilsAppended(ids, arena, count);
  }

  lemma ScratchNil(c: Config, ids: Ids, scratch: seq<Value>, i: nat)
    requires c.scratch == MapS(ids, scratch) && i < |scratch| && c.scratch[i] == Nil
    ensures scratch[i] == Nil
  {
  }

  lemma NilsCut(ids: Ids, vs: seq<Value>, base: nat)
    requires base <= |vs| && vs[base..] == Nils(|vs| - base)
    ensures Refs(vs[..base]) == Refs(vs)
    ensures MapS(ids, vs[..base]) == MapS(ids, vs)[..base]
  {
    hide Refs;
    NilsAppended(ids, vs[..base], |vs| - base);
    assert vs == vs[..base] + Nils(|vs| - base);
  }

  lemma ScratchCut(ids: Ids, outer: seq<Value>, scratch: seq<Value>, arena: seq<Value>, result: Value, slots: seq<SlotEntry>, base: nat)
    requires base <= |scratch| && scratch[base..] == Nils(|scratch| - base)
    ensures RootRefs(outer, scratch[..base], arena, result, slots) == RootRefs(outer, scratch, arena, result, slots)
    ensures MapS(ids, scratch[..base]) == MapS(ids, scratch)[..base]
  {
    hide Refs;
    NilsCut(ids, scratch, base);
  }

  lemma ArenaCut(ids: Ids, outer: seq<Value>, scratch: seq<Value>, arena: seq<Value>, result: Value, slots: seq<SlotEntry>, base: nat)
    requires base <= |arena| && arena[base..] == Nils(|arena| - base)
    ensures RootRefs(outer, scratch, arena[..base], result, slots) == RootRefs(outer, scratch, arena, result, slots)
    ensures MapS(ids, arena[..base]) == MapS(ids, arena)[..base]
  {
    hide Refs;
    NilsCut(ids, arena, base);
  }

  lemma TidyWith(c: Config, f: Frame, base: nat, epoch: nat)
    requires Shape(c, base, epoch) && c.frames != [] && SameSetting(Top(c), f)
    ensures var d := WithTop(c, f);
      StackOk(d.frames, base, epoch) && |d.scratch| == SCRATCH * |d.frames| && |d.arena| == ArenaTop(d.frames, base)
  {
    WithTopStack(c.frames, f, base, epoch);
  }

  lemma CompletePlace(before: Config, c: Config, base: nat, epoch: nat, v: Value)
    requires Shape(before, base, epoch) && SameBelow(before, c) && !Returning(Top(before))
    ensures Deliverable(c) && Delivery(c, v) == Finished(before, c.world, v)
  {
    hide Shape, StackOk, ArenaTop, Returning;
    TopFacts(before, base, epoch);
    OutNil(before, base, epoch);
    DropSame(before, c);
    DropPut(c, Top(c).out, v);
  }

  lemma PutKeepsFrames(c: Config, loc: Loc, v: Value)
    ensures var d := Put(c, loc, v);
      d.frames == c.frames && |d.scratch| == |c.scratch| && |d.arena| == |c.arena|
  {
  }

  lemma DropSame(before: Config, c: Config)
    requires SameBelow(before, c)
    ensures DropTop(c) == DropTop(before.(world := c.world))
  {
    var n := |c.frames| - 1;
    assert SCRATCH * n <= |c.scratch| ==> c.scratch[..SCRATCH * n] == before.scratch[..SCRATCH * n];
    assert SCRATCH * n > |c.scratch| ==> c.scratch == before.scratch;
  }

  lemma DropPut(c: Config, out: Loc, v: Value)
    requires c.frames != [] && |c.scratch| == SCRATCH * |c.frames|
    requires out.ToScratch? ==> out.i < SCRATCH * (|c.frames| - 1)
    requires out.ToArena? ==> out.i + Top(c).bufferCount < |c.arena|
    requires Top(c).bufferCount > 0 ==> Top(c).bufferBase + Top(c).bufferCount == |c.arena|
    ensures DropTop(Put(c, out, v)) == Put(DropTop(c), out, v)
  {
  }

  lemma LocalIsLive(h: Heap, created: seq<Object>, ids: Ids, outer: seq<Value>, scratch: seq<Value>, arena: seq<Value>, result: Value,
                    slots: seq<SlotEntry>, i: nat)
    requires Good(h, created, ids, RootRefs(outer, scratch, arena, result, slots) + multiset{}) && i < |arena|
    ensures arena[i].Obj? ==> IsLive(h, arena[i].id)
  {
    if arena[i].Obj? {
      OwedIsLive(h, created, ids, RootRefs(outer, scratch, arena, result, slots) + multiset{});
      assert arena[i] == Obj(arena[i].id) && arena[i] in arena;
      RefsOf(arena, arena[i].id);
    }
  }

  lemma {:induction false} FieldNamesError(p: Program, first: nat, count: nat)
    ensures FieldNames(p, first, count).BadNames? ==> FieldNames(p, first, count).err in {Signature, Bounds}
    decreases count
  {
    if count > 0 { FieldNamesError(p, first + 1, count - 1); }
  }

  lemma BadNamesError(p: Program, first: nat, count: nat)
    ensures RecordDefNames(p, first, count).BadNames? ==> RecordDefNames(p, first, count).err in {Signature, Bounds}
  {
    FieldNamesError(p, first, count);
  }

  lemma TidyBelow(before: Config, c: Config, base: nat, epoch: nat)
    requires Shape(before, base, epoch) && SameBelow(before, c)
    ensures StackOk(c.frames, base, epoch) && |c.scratch| == SCRATCH * |c.frames| && |c.arena| == ArenaTop(c.frames, base)
  {
  }

  lemma LocalsFit(c: Config, base: nat, epoch: nat)
    requires Shape(c, base, epoch) && c.frames != []
    ensures var f := Top(c);
      f.localsBase + f.localCount <= |c.arena| && |c.scratch| == SCRATCH * |c.frames|
      && f.bufferBase + f.bufferCount <= |c.arena|
      && |LocalsOf(c, f)| == f.localCount && |BufferOf(c, f)| == f.bufferCount
  {
    TopFacts(c, base, epoch);
  }

  lemma WriteLocalOutside(c: Config, g: nat)
    requires c.frames != [] && 0 < g && Top(c).node < |Top(c).program.nodes| && CallOf(Top(c)).WriteLocal?
    requires |LocalsOf(c, Top(c))| <= CallOf(Top(c)).local
    ensures TopRest(c, g) == Stop(Bounds, c.world) && !Returning(Top(c))
  {
    hide LocalsOf, ScratchOf;
  }

  /** Moving the new value into the local and delivering nil. */
  lemma WriteLocalPlace(c: Config, i: nat, base: nat, epoch: nat)
    requires Shape(c, base, epoch) && c.frames != [] && Top(c).node < |Top(c).program.nodes|
    requires CallOf(Top(c)).WriteLocal? && i < Top(c).localCount
    ensures var f, k := Top(c), SCRATCH * (|c.frames| - 1);
      && f.localsBase + i < |c.arena| && k < |c.scratch| && !Returning(f)
      && var d := LocalMoved(c, f.localsBase + i, k);
         Deliverable(d) && Delivery(d, Nil)
           == Finished(c.(arena := c.arena[f.localsBase + i := ScratchOf(c, 0)]), c.world, Nil)
  {
    hide Shape, StackOk, ArenaTop;
    TopFacts(c, base, epoch);
    OutNil(c, base, epoch);
    var f, k := Top(c), SCRATCH * (|c.frames| - 1);
    var d := LocalMoved(c, f.localsBase + i, k);
    DropSame(c.(arena := d.arena), d);
    DropPut(d, f.out, Nil);
  }

  lemma SlotResult(c: Config)
    requires c.frames != [] && AtPrimitive(Top(c)) && |c.scratch| == SCRATCH * |c.frames|
    ensures var node, v, r := CallOf(Top(c)), Get(c, ToScratch(SCRATCH * (|c.frames| - 1))), PrimitiveResult(c);
      && (node.WriteSlot? ==> r == WriteSlotIn(c.world, node.name, v, node.requireExisting))
      && (node.WriteSlotFallback? ==> r == WriteSlotFallbackIn(c.world, node.name, node.fallback, v, node.requireExisting))
  {
  }

  lemma IndexResult(c: Config)
    requires c.frames != [] && AtPrimitive(Top(c)) && |c.scratch| == SCRATCH * |c.frames|
    ensures var node, k, r := CallOf(Top(c)), SCRATCH * (|c.frames| - 1), PrimitiveResult(c);
      && (node.ReadIndex? ==> r == ReadIndexIn(c.world, c.scratch[k], c.scratch[k + 1]))
      && (node.WriteIndex? ==> r == WriteIndexIn(c.world, c.scratch[k], c.scratch[k + 1], c.scratch[k + 2]))
  {
  }

  lemma FieldResult(c: Config)
    requires c.frames != [] && AtPrimitive(Top(c)) && |c.scratch| == SCRATCH * |c.frames|
    ensures var node, k, r := CallOf(Top(c)), SCRATCH * (|c.frames| - 1), PrimitiveResult(c);
      && (node.ReadField? ==> r == ReadFieldIn(c.world, c.scratch[k], node.field))
      && (node.WriteField? ==> r == WriteFieldIn(c.world, c.scratch[k], node.field, c.scratch[k + 1]))
  {
  }

  lemma BuiltinCallResult(c: Config)
    requires c.frames != [] && AtCall(Top(c)) && Top(c).callee.BuiltinCallee?
    ensures CallResult(c) == BuiltinIn(c.world, Top(c).callee.builtin, BufferOf(c, Top(c)))
  {
  }

  lemma NativeCallResult(c: Config)
    requires c.frames != [] && AtCall(Top(c)) && Top(c).callee.NativeCallee?
    ensures CallResult(c) == NativeResult(c.world, BufferOf(c, Top(c)))
  {
  }

  lemma RecordResult(c: Config)
    requires c.frames != [] && AtCall(Top(c)) && |c.scratch| == SCRATCH * |c.frames| && Top(c).callee.RecordCallee?
    ensures CallResult(c) == NewRecordIn(c.world, c.scratch[SCRATCH * (|c.frames| - 1)], BufferOf(c, Top(c)))
  {
  }

  lemma ScratchHeld(outer: seq<Value>, scratch: seq<Value>, arena: seq<Value>, result: Value, slots: seq<SlotEntry>, i: nat, loose: multiset<nat>)
    requires i < |scratch|
    ensures Held([scratch[i]], RootRefs(outer, scratch, arena, result, slots) + loose)
  {
    if scratch[i].Obj? {
      assert scratch[i] == Obj(scratch[i].id) && scratch[i] in scratch;
      RefsOf(scratch, scratch[i].id);
    }
  }

  lemma BlankResult(c: Config)
    requires c.frames != []
    ensures var d := Blank(c, 0);
      d.result == c.result && d.world == c.world && d.frames == c.frames
  {
  }

  lemma PopFits(c: Config, base: nat, epoch: nat)
    requires Shape(c, base, epoch) && c.frames != []
    ensures |c.scratch| == SCRATCH * |c.frames|
    ensures Top(c).bufferCount > 0 ==> Top(c).bufferBase + Top(c).bufferCount == |c.arena|
  {
    TopFacts(c, base, epoch);
  }

  /** After the phases that wait for scratch values come those that hand on. */
  lemma LatePhase(f: Frame)
    requires f.node < |f.program.nodes|
    ensures CallOf(f).If? && f.phase > 1 ==> Returning(f)
    ensures CallOf(f).Seq? && f.phase > 1 ==> Returning(f)
    ensures CallOf(f).Call? && f.phase > 2 ==> Returning(f)
  {
  }

  lemma BlankFacts(c: Config, base: nat, epoch: nat)
    requires Shape(c, base, epoch) && c.frames != []
    ensures var d := Blank(c, 0);
      && SameBelow(c, d) && d.world == c.world && d.result == c.result && d.frames == c.frames
      && StackOk(d.frames, base, epoch) && |d.scratch| == SCRATCH * |d.frames| && |d.arena| == ArenaTop(d.frames, base)
  {
  }

  lemma TopPhase(c: Config, base: nat, epoch: nat)
    requires Shape(c, base, epoch) && c.frames != [] && Top(c).node < |Top(c).program.nodes|
    ensures CallOf(Top(c)).While? && Top(c).phase > 1 ==> AtNext(Top(c), 1)
    ensures CallOf(Top(c)).Call? ==> Top(c).phase <= 3
  {
    assert ScratchRule(Top(c), c.scratch, |c.frames| - 1);
  }

  lemma BlankTidy(c: Config, f: Frame, base: nat, epoch: nat)
    requires Shape(c, base, epoch) && c.frames != [] && SameSetting(Top(c), f)
    ensures var d := WithTop(Blank(c, 0), f);
      && d.result == c.result && d.world == c.world
      && StackOk(d.frames, base, epoch) && |d.scratch| == SCRATCH * |d.frames| && |d.arena| == ArenaTop(d.frames, base)
  {
    hide Shape, StackOk, ArenaTop;
    ShapeBlank(c, 0, base, epoch);
    TidyWith(Blank(c, 0), f, base, epoch);
    BlankResult(c);
  }

  lemma TidySelf(c: Config, base: nat, epoch: nat)
    requires Shape(c, base, epoch)
    ensures StackOk(c.frames, base, epoch) && |c.scratch| == SCRATCH * |c.frames| && |c.arena| == ArenaTop(c.frames, base)
  {
  }

  /** The top frame's own scratch values may be emptied. */
  lemma OwnPlace(before: Config, c: Config, k: nat)
    requires SameBelow(before, c) && SCRATCH * (|c.frames| - 1) <= k < |c.scratch|
    ensures var d := Put(c, ToScratch(k), Nil);
      && SameBelow(before, d) && d.world == c.world && d.frames == c.frames && |d.scratch| == |c.scratch|
      && forall j | 0 <= j < |c.scratch| && j != k :: d.scratch[j] == c.scratch[j]
  {
  }

  lemma OwnWorld(before: Config, c: Config, w: World)
    requires SameBelow(before, c)
    ensures SameBelow(before, c.(world := w))
  {
  }

  lemma SameSelf(c: Config)
    requires c.frames != []
    ensures SameBelow(c, c)
  {
  }

  lemma NotReturning(f: Frame)
    requires Filling(f)
    ensures !Returning(f)
  {
  }

  lemma BuiltinTarget(c: Config)
    requires c.frames != [] && AtCallStart(Top(c)) && Top(c).phase == 0
    ensures Target(c) == Resolved(BuiltinCallee(CallOf(Top(c)).builtin), CallOf(Top(c)).argCount)
  {
  }

  lemma CalleeTarget(h: Heap, c: Config, ids: Ids, outer: seq<Value>, scratch: seq<Value>, arena: seq<Value>, result: Value, slots: seq<SlotEntry>)
    requires Good(h, c.world.heap, ids, RootRefs(outer, scratch, arena, result, slots) + multiset{})
    requires c.frames != [] && AtCallStart(Top(c)) && Top(c).phase == 1
    requires c.scratch == MapS(ids, scratch) && |scratch| == SCRATCH * |c.frames|
    ensures Target(c) == Resolve(Deref(h, scratch[SCRATCH * (|c.frames| - 1)]), CallOf(Top(c)).argCount)
  {
    hide Resolve, RootRefs;
    var k := SCRATCH * (|c.frames| - 1);
    ScratchHeld(outer, scratch, arena, result, slots, k, multiset{});
    assert scratch[k] in [scratch[k]];
    OwedIsLive(h, c.world.heap, ids, RootRefs(outer, scratch, arena, result, slots) + multiset{});
    LookAlike(h, c.world.heap, ids, scratch[k]);
    SameResolution(ids, Deref(h, scratch[k]), CallOf(Top(c)).argCount);
  }

  lemma BuiltinAgrees(h: Heap, created: seq<Object>, ids: Ids, owed: multiset<nat>, b: Builtin, args: seq<Value>)
    requires Good(h, created, ids, owed) && Refs(args) <= owed
    ensures ApplyBuiltin(b, MapS(ids, args), LookAll(created, MapS(ids, args))) == ApplyBuiltin(b, args, DerefAll(h, args))
    ensures ApplyBuiltin(b, args, DerefAll(h, args)).Result? ==> !ApplyBuiltin(b, args, DerefAll(h, args)).v.Obj?
  {
    hide ApplyBuiltin;
    HeldIsKnown(h, created, ids, owed, args);
    LookAlikeAll(h, created, ids, args);
    SameBuiltin(ids, b, args, DerefAll(h, args));
  }

  lemma RecordAgrees(h: Heap, created: seq<Object>, ids: Ids, owed: multiset<nat>, definition: Value, fields: seq<Value>)
    requires Good(h, created, ids, owed) && Held([definition] + fields, owed)
    ensures RecordCheck(Look(created, MapV(ids, definition)), MapS(ids, fields), LookAll(created, MapS(ids, fields)))
         == RecordCheck(Deref(h, definition), fields, DerefAll(h, fields))
    ensures MapO(ids, Record(definition, fields)) == Record(MapV(ids, definition), MapS(ids, fields))
  {
    hide RecordCheck;
    RecordKnown(h, created, ids, owed, definition, fields);
    var all := Children(Record(definition, fields));
    assert all == fields + [definition] && definition in all;
    assert AllKnown(ids, fields) by { forall v | v in fields ensures Known(ids, v) { assert v in all; } }
    LookAlike(h, created, ids, definition);
    LookAlikeAll(h, created, ids, fields);
    SameRecordCheck(ids, Deref(h, definition), fields, DerefAll(h, fields));
  }

  lemma SliceHeld(ids: Ids, outer: seq<Value>, scratch: seq<Value>, arena: seq<Value>, result: Value, slots: seq<SlotEntry>, base: nat, count: nat)
    requires base + count <= |arena|
    ensures var part := Slice(arena, base, count);
      Refs(part) <= RootRefs(outer, scratch, arena, result, slots) && Slice(MapS(ids, arena), base, count) == MapS(ids, part)
  {
    hide Refs;
    var a, part, b := arena[..base], arena[base..base + count], arena[base + count..];
    assert arena == a + (part + b);
    RefsConcat(a, part + b);
    RefsConcat(part, b);
  }

  lemma RecordHeld(outer: seq<Value>, scratch: seq<Value>, arena: seq<Value>, result: Value, slots: seq<SlotEntry>, k: nat, fields: seq<Value>)
    requires k < |scratch| && Refs(fields) <= RootRefs(outer, scratch, arena, result, slots)
    ensures Held([scratch[k]] + fields, RootRefs(outer, scratch, arena, result, slots) + multiset{})
  {
    hide RootRefs, Refs;
    var owed := RootRefs(outer, scratch, arena, result, slots) + multiset{};
    ScratchHeld(outer, scratch, arena, result, slots, k, multiset{});
    forall v | v in [scratch[k]] + fields && v.Obj? ensures v.id in owed {
      if v in fields { assert v == Obj(v.id); RefsOf(fields, v.id); } else { assert v in [scratch[k]]; }
    }
  }

  lemma BuiltinError(b: Builtin, args: seq<Value>, objs: seq<Option<Object>>)
    requires |objs| == |args|
    ensures ApplyBuiltin(b, args, objs).Error? ==> ApplyBuiltin(b, args, objs).e != Ok
  {
  }

  lemma EmptyIsGood()
    ensures Accurate([], multiset{}) ==> Good([], [], map[], RootRefs([], [], [], Nil, []))
  {
    assert RootRefs([], [], [], Nil, []) == multiset{};
  }

  lemma SeedRefs(slots: seq<SlotEntry>, e: SlotEntry, arena: seq<Value>, result: Value)
    requires e.impl.Some?
    ensures RootRefs([], [], arena, result, slots + [e]) == RootRefs([], [], arena, result, slots) + Ref(e.impl.value)
  {
    var v := e.impl.value;
    assert SlotValues(slots + [e]) == SlotValues(slots) + [v];
    RefsConcat(SlotValues(slots), [v]);
    assert Refs([v]) == Ref(v) + Refs([v][1..]);
  }

  lemma ArgumentIsLive(h: Heap, created: seq<Object>, ids: Ids, owed: multiset<nat>, args: seq<Value>, k: nat)
    requires Good(h, created, ids, owed) && Refs(args) <= owed && k < |args|
    ensures args[k].Obj? ==> IsLive(h, args[k].id)
  {
    if args[k].Obj? {
      OwedIsLive(h, created, ids, owed);
      assert args[k] == Obj(args[k].id) && args[k] in args;
      RefsOf(args, args[k].id);
    }
  }

  lemma OutsideRest(c: Config, g: nat)
    requires c.frames != [] && 0 < g && Top(c).node >= |Top(c).program.nodes|
    ensures TopRest(c, g) == Stop(Malformed, c.world) && !Returning(Top(c))
  {
    hide LocalsOf, ScratchOf;
  }

  lemma NoFrames(base: nat, epoch: nat)
    ensures StackOk([], base, epoch) && ArenaTop([], base) == base
  {
  }

  lemma TidyTop(c: Config, base: nat, epoch: nat)
    requires StackOk(c.frames, base, epoch) && |c.scratch| == SCRATCH * |c.frames| && |c.arena| == ArenaTop(c.frames, base)
    requires c.frames != []
    ensures var f, d := Top(c), DropTop(c);
      && (f.bufferCount > 0 ==> f.bufferBase + f.bufferCount == |c.arena|) && f.epoch == epoch
      && StackOk(d.frames, base, epoch) && |d.scratch| == SCRATCH * |d.frames| && |d.arena| == ArenaTop(d.frames, base)
      && d.world == c.world && d.result == c.result && d.frames == c.frames[..|c.frames| - 1]
  {
  }

  lemma EmptyPlus(ids: Ids)
    ensures MapS(ids, []) == []
  {
  }

  function RootFrame(program: Program, localsBase: nat, localCount: nat, node: nat, epoch: nat): Frame {
    Frame(program, localsBase, localCount, node, ToResult, 0, 0, epoch, NoCallee, 0, 0)
  }

  lemma StartShape(start: Config, c: Config, f: Frame, base: nat, epoch: nat)
    requires start.frames == [] && start.result == Nil && base == |start.arena|
    requires c == start.(frames := [f], scratch := [Nil, Nil, Nil])
    requires Fresh(f) && f.out == ToResult && f.epoch == epoch && f.localsBase + f.localCount <= base && f.bufferBase <= base
    ensures Shape(c, base, epoch)
  {
    assert c.frames[..0] == [] && ArenaTop([], base) == base && StackOk([], base, epoch);
    assert FrameOk(f, 0, base, epoch) && Clear(c.frames, f.localsBase, f.localCount);
    assert StackOk(c.frames, base, epoch);
    assert ScratchRule(f, c.scratch, 0) && BufferRule(f, c.arena) && OutRule(c, 0);
  }

  lemma StartResume(start: Config, c: Config, f: Frame, fuel: nat)
    requires c == start.(frames := [f], scratch := [Nil, Nil, Nil]) && Fresh(f) && f.out == ToResult
    ensures var o := Eval(f.program, f.node, LocalsOf(start, f), start.world, fuel);
      Resume(c, fuel) == if o.Done? then Done(o.value, SetSlice(start.arena, f.localsBase, o.locals), o.world, o.gas) else o
  {
    var o := Eval(f.program, f.node, LocalsOf(c, f), c.world, fuel);
    assert TopRest(c, fuel) == o;
    if o.Done? { assert Completed(c, o.locals, o.world, o.value).frames == []; }
  }

  lemma ResumeStops(c: Config, g: nat)
    requires c.frames != []
    ensures !TopRest(c, g).Done? ==> Resume(c, g) == TopRest(c, g)
  {
    hide TopRest;
  }

  lemma PhaseZero(c: Config)
    requires c.frames != []
    ensures Top(c).phase == 0 ==> !Returning(Top(c))
  {
  }

  /** At the end of the loop either the stack is empty or the gas is. */
  lemma RunEnds(c: Config, g: nat, base: nat, epoch: nat)
    requires Shape(c, base, epoch) && (c.frames == [] || g == 0)
    ensures c.frames == [] ==> Resume(c, g) == Done(c.result, c.arena, c.world, g) && c.scratch == [] && |c.arena| == base
    ensures c.frames != [] ==> Resume(c, g) == OutOfGas
  {
    if c.frames != [] {
      OutOfGasRest(c);
      ResumeStops(c, 0);
    }
  }

  lemma OutOfGasRest(c: Config)
    requires c.frames != []
    ensures TopRest(c, 0) == OutOfGas
  {
  }

  /** The result is empty until the bottom frame has delivered. */
  lemma BottomResult(c: Config, base: nat, epoch: nat)
    requires Shape(c, base, epoch) && c.frames != []
    ensures c.result == Nil || Returning(Top(c))
    ensures forall f | f in c.frames :: f.epoch == epoch
  {
    PrefixOk(c.frames, 1, base, epoch);
    assert OutRule(c, 0) && c.frames[..1][..0] == [];
    assert c.frames[..1][0] == c.frames[0];
    StackBounds(c.frames, base, epoch);
  }

  lemma BufferSlice(before: seq<Value>, count: nat)
    ensures Slice(before + Nils(count), |before|, count) == Nils(count)
  {
  }

  lemma LocalsForgotten(before: seq<Value>, buffer: seq<Value>, ls: seq<Value>)
    requires |ls| == |buffer|
    ensures SetSlice(before + buffer, |before|, ls)[..|before|] == before
  {
  }
}

/**
 The runtime heap with its storage: objects, reference counts, and the two span
 allocators that hold object payloads and cells.

 The ownership argument `owed` of each method is ghost: it is the multiset of
 references held by everything outside the heap.
 */
module Runtime {
  import opened Values
  import opened Spans
  import opened Heap
  import Packed
  import opened Storage

  /** The new contents take the same storage. */
  predicate SameSize(o: Object, after: Object) {
    (o.Cells? && after.Cells? && |after.items| == |o.items|) || (o.Record? && after.Record? && |after.fields| == |o.fields|)
  }

  ghost predicate Returned(before: multiset<Span>, after: multiset<Span>, spans: multiset<Span>) {
    after == before - spans
  }

  lemma NothingReturned(spans: multiset<Span>)
    ensures Returned(spans, spans, multiset{})
  {
  }

  lemma OneReturned(before: multiset<Span>, after: multiset<Span>, span: Span)
    requires after == before - multiset{span}
    ensures Returned(before, after, multiset{span})
  {
  }

  lemma CellSpan(c: Cell)
    requires c.Live?
    ensures CellPayload(c) == if !c.obj.Cells? && c.span.length > 0 then multiset{c.span} else multiset{}
    ensures CellCells(c) == if c.obj.Cells? && c.span.length > 0 then multiset{c.span} else multiset{}
  {
  }

  function Retained(h: Heap, v: Value): Heap {
    if v.Obj? && IsLive(h, v.id) then h[v.id := h[v.id].(count := h[v.id].count + 1)] else h
  }

  /** Places inside an object that hold an owned reference and can be overwritten. */
  predicate HasPlace(o: Object, index: nat) {
    (o.Cells? && index < |o.items|) || (o.Record? && index < |o.fields|)
  }

  function PlaceOf(o: Object, index: nat): Value
    requires HasPlace(o, index)
  {
    if o.Cells? then o.items[index] else o.fields[index]
  }

  function WithPlace(o: Object, index: nat, v: Value): (r: Object)
    requires HasPlace(o, index)
    ensures HasPlace(r, index) && SameSize(o, r) && PlaceOf(r, index) == v
  {
    if o.Cells? then Cells(o.items[index := v]) else Record(o.definition, o.fields[index := v])
  }

  function Stored(h: Heap, id: nat, index: nat, v: Value): Heap
    requires IsLive(h, id) && HasPlace(h[id].obj, index)
  {
    h[id := h[id].(obj := WithPlace(h[id].obj, index, v))]
  }

  lemma PlaceRefs(o: Object, index: nat, v: Value)
    requires HasPlace(o, index)
    ensures Refs(Children(WithPlace(o, index, v))) + Ref(PlaceOf(o, index)) == Refs(Children(o)) + Ref(v)
  {
    hide Refs, Ref;
    RefsUpdate(Children(o), index, v);
    if o.Record? {
      assert Children(WithPlace(o, index, v)) == Children(o)[index := v];
    }
  }

  function Installed(h: Heap, i: nat, o: Object, span: Span): Heap
    requires i <= |h|
  {
    if i < |h| then h[i := Live(1, o, span)] else h + [Live(1, o, span)]
  }

  ghost function OwnedBytes(span: Span): multiset<Span> {
    if span.length > 0 then multiset{span} else multiset{}
  }

  lemma CountChange(h: Heap, owed: multiset<nat>, i: nat, count: nat, after: multiset<nat>)
    requires Accurate(h, owed) && IsLive(h, i) && h[i].count > 0 && count > 0
    requires after[i] + h[i].count == owed[i] + count
    requires forall k | k != i :: after[k] == owed[k]
    ensures Accurate(h[i := h[i].(count := count)], after)
  {
    var g := h[i := h[i].(count := count)];
    SumSame(CellRefs, h, i, g[i]);
    forall k: nat ensures Count(g, k) == (after + HeapRefs(g))[k] {
      assert Count(h, k) == (owed + HeapRefs(h))[k];
    }
  }

  lemma Rebalance(h: Heap, g: Heap, i: nat, total: multiset<nat>, after: multiset<nat>)
    requires Balanced(h, total) && i < |g| && |h| <= |g|
    requires forall k: nat | k != i :: Count(g, k) == Count(h, k)
    requires Count(g, i) + total[i] == Count(h, i) + after[i]
    requires forall k: nat | k != i :: after[k] == total[k]
    ensures Balanced(g, after)
  {
    forall k: nat ensures Count(g, k) == after[k] {
      assert Count(h, k) == total[k];
    }
  }

  /** When the count reaches zero the object's own references become loose. */
  lemma LastReference(h: Heap, owed: multiset<nat>, i: nat)
    requires Accurate(h, owed + multiset{i}) && IsLive(h, i) && h[i].count == 1
    ensures Accurate(h[i := h[i].(count := 0)], owed + Refs(Children(h[i].obj)))
  {
    var g, own := h[i := h[i].(count := 0)], Refs(Children(h[i].obj));
    SumUpdate(CellRefs, h, i, g[i]);
    assert HeapRefs(g) + own == HeapRefs(h) + multiset{};
    Loosen(owed, multiset{i}, own, HeapRefs(g), HeapRefs(h));
    Rebalance(h, g, i, owed + multiset{i} + HeapRefs(h), owed + own + HeapRefs(g));
  }

  lemma Loosen(owed: multiset<nat>, one: multiset<nat>, own: multiset<nat>, after: multiset<nat>, before: multiset<nat>)
    requires after + own == before + multiset{}
    ensures owed + own + after + one == owed + one + before
  {
    assert owed + own + after + one == owed + one + (after + own);
    assert before + multiset{} == before;
  }

  lemma DyingCleared(h: Heap, owed: multiset<nat>, i: nat)
    requires Accurate(h, owed) && IsDying(h, i)
    ensures Accurate(h[i := Free], owed)
  {
    var g := h[i := Free];
    SumSame(CellRefs, h, i, Free);
    Rebalance(h, g, i, owed + HeapRefs(h), owed + HeapRefs(g));
  }

  lemma InstalledAccurate(h: Heap, owed: multiset<nat>, i: nat, o: Object, span: Span)
    requires Accurate(h, owed + Refs(Children(o))) && i <= |h| && !IsLive(h, i)
    ensures Accurate(Installed(h, i, o, span), owed + multiset{i})
  {
    hide Refs, Children, Sum;
    var c, own := Live(1, o, span), Refs(Children(o));
    var g := Installed(h, i, o, span);
    SumFill(CellRefs, h, i, c);
    assert HeapRefs(g) == HeapRefs(h) + own;
    Fasten(owed, multiset{i}, own, HeapRefs(h), HeapRefs(g));
    Rebalance(h, g, i, owed + own + HeapRefs(h), owed + multiset{i} + HeapRefs(g));
  }

  lemma InstalledNew(h: Heap, i: nat, o: Object, span: Span)
    requires i <= |h| && !IsLive(h, i) && forall j | 0 <= j < i :: IsLive(h, j)
    ensures NewObject(h, Installed(h, i, o, span), i, o)
  {
  }

  lemma InstalledSized(m: Packed.Machine, h: Heap, i: nat, o: Object, span: Span)
    requires Sized(m, h) && Fits(m, o, span) && i <= |h|
    ensures var g := Installed(h, i, o, span);
      Sized(m, g) && i < |g| && |g| == (if i < |h| then |h| else |h| + 1) && g[i] == Live(1, o, span)
  {
    hide Fits;
  }

  lemma Fasten(owed: multiset<nat>, one: multiset<nat>, own: multiset<nat>, before: multiset<nat>, after: multiset<nat>)
    requires after == before + own
    ensures owed + one + after == owed + own + before + one
  {
  }

  /** Replacing the contents of a live object trades its old references for the new ones. */
  lemma ContentsChange(h: Heap, owed: multiset<nat>, i: nat, o: Object, gained: multiset<nat>, lost: multiset<nat>)
    requires Accurate(h, owed + gained) && IsLive(h, i) && h[i].count > 0
    requires Refs(Children(o)) + lost == Refs(Children(h[i].obj)) + gained
    ensures Accurate(h[i := h[i].(obj := o)], owed + lost)
  {
    hide Refs, Children, Sum, Balanced;
    var g := h[i := h[i].(obj := o)];
    SumUpdate(CellRefs, h, i, g[i]);
    Trade(owed, gained, lost, HeapRefs(h), HeapRefs(g), Refs(Children(h[i].obj)), Refs(Children(o)));
    Rebalance(h, g, i, owed + gained + HeapRefs(h), owed + lost + HeapRefs(g));
  }

  lemma Trade(owed: multiset<nat>, gained: multiset<nat>, lost: multiset<nat>,
              before: multiset<nat>, after: multiset<nat>, old_: multiset<nat>, new_: multiset<nat>)
    requires new_ + lost == old_ + gained
    requires after + old_ == before + new_
    ensures owed + lost + after == owed + gained + before
  {
    forall k
      ensures (owed + lost + after)[k] == (owed + gained + before)[k]
    {
      assert (new_ + lost)[k] == (old_ + gained)[k];
      assert (after + old_)[k] == (before + new_)[k];
    }
  }

  /** An object with one reference left and none of its own. */
  predicate LastLeaf(h: Heap, id: nat) { IsLive(h, id) && h[id].count == 1 && Children(h[id].obj) == [] }

  class Runtime {
    const limit: nat                // object capacity
    const alignment: Packed.Positive
    const machine: Packed.Machine   // sizes of what program blocks are made of
    const payload: SpanAllocator
    const cellspace: SpanAllocator
    var heap: Heap
    var liveCount: nat

    ghost function Repr(): set<object> { {this, payload, payload.spans, cellspace, cellspace.spans} }

    /** The storage invariant.  `p` and `c` are spans that are allocated but not yet owned
        by an object. */
    ghost predicate Valid(p: multiset<Span> := multiset{}, c: multiset<Span> := multiset{})
      reads this, payload, payload.spans, cellspace, cellspace.spans
    {
      && payload != cellspace && payload.spans != cellspace.spans
      && payload.Valid() && cellspace.Valid()
      && payload.spans.Length == cellspace.spans.Length == limit
      && |heap| <= limit && Sized(machine, heap)
      && multiset(payload.live) == PayloadSpans(heap) + p
      && multiset(cellspace.live) == CellSpans(heap) + c
      && liveCount == LiveCount(heap)
    }

    /** What is left for new objects, whatever the gaps below may hold. */
    ghost function Available(): Room
      reads this`liveCount, payload`extent, cellspace`extent
    {
      Room(limit - liveCount, payload.limit - payload.extent, cellspace.limit - cellspace.extent)
    }

    ghost function Need(o: Object): Room { NeedOf(machine, alignment, o) }

    /** The cells in use are the lengths of the live cells objects together, and the payload
        in use holds everything that the other live objects need. */
    lemma StorageInUse()
      requires Valid()
      ensures cellspace.used == CellsHeld(heap)
      ensures payload.used == Lengths(heap, CellPayload) >= BytesNeeded(machine, heap)
    {
      hide Sized, Lengths, CellsHeld, BytesNeeded, OwnSpans, Sum, Ordered, Gaps, Total;
      BothOwn();
      SettledStorage();
      TotalOwned(cellspace.live, heap, CellCells);
      TotalOwned(payload.live, heap, CellPayload);
      CellsLengths(machine, heap);
      PayloadLengths(machine, heap);
    }

    /** Two live objects never share a byte of payload or a cell, and each lies inside its
        store with all that it needs. */
    lemma ObjectsApart(i: nat, j: nat)
      requires Valid() && IsLive(heap, i) && IsLive(heap, j) && i < j
      ensures heap[i].obj.Cells? == heap[j].obj.Cells? ==> Apart(heap[i].span, heap[j].span)
      ensures Fits(machine, heap[i].obj, heap[i].span)
      ensures var store := if heap[i].obj.Cells? then cellspace else payload;
        heap[i].span.length > 0 ==> store.origin <= heap[i].span.offset && heap[i].span.End() <= store.extent <= store.limit
    {
      hide Sum, Ordered, Gaps, Total, Fits, CellCells, CellPayload;
      SettledStorage();
      CellSpan(heap[i]);
      CellSpan(heap[j]);
      var f, store := if heap[i].obj.Cells? then CellCells else CellPayload, if heap[i].obj.Cells? then cellspace else payload;
      if heap[i].span.length > 0 {
        OwnerInside(store.live, store.origin, heap, f, i);
        if heap[j].span.length > 0 && heap[i].obj.Cells? == heap[j].obj.Cells? {
          OwnersApart(store.live, store.origin, heap, f, i, j);
        }
      }
    }

    constructor (limit: nat, alignment: Packed.Positive, machine: Packed.Machine, payloadBytes: nat, cellBase: nat, cellLimit: nat)
      requires 0 < limit && cellBase <= cellLimit
      ensures Valid() && fresh(Repr()) && heap == [] && Accurate(heap, multiset{})
      ensures Available() == Room(limit, payloadBytes, cellLimit - cellBase)
    {
      this.limit, this.alignment, this.machine := limit, alignment, machine;
      payload := new SpanAllocator(0, payloadBytes, limit);
      cellspace := new SpanAllocator(cellBase, cellLimit, limit);
      heap, liveCount := [], 0;
      new;
      EmptyHeap();
    }

    /** Forgets every object, without releasing anything. */
    method Reset()
      requires Valid()
      modifies this, payload, cellspace
      ensures Valid() && heap == [] && Accurate(heap, multiset{})
      ensures Available() == Room(limit, payload.limit - payload.origin, cellspace.limit - cellspace.origin)
    {
      OriginBelowLimit(payload);
      OriginBelowLimit(cellspace);
      payload.Reset();
      cellspace.Reset();
      heap, liveCount := [], 0;
      EmptyHeap();
    }

    /** Writes back a live object's cell with nothing but its count changed. */
    method SetCount(id: nat, count: nat, ghost spare: multiset<Span> := multiset{})
      requires Valid(spare) && IsLive(heap, id)
      modifies this`heap
      ensures Valid(spare) && heap == old(heap)[id := old(heap)[id].(count := count)]
    {
      hide SpanAllocator.Valid, PayloadSpans, CellSpans, LiveCount, Fits;
      SameStorage(heap, id, heap[id].(count := count));
      heap := heap[id := heap[id].(count := count)];
    }

    method Retain(v: Value, ghost owed: multiset<nat>, ghost spare: multiset<Span> := multiset{})
      requires Valid(spare) && Accurate(heap, owed)
      requires v.Obj? ==> IsLive(heap, v.id) && !IsDying(heap, v.id)
      modifies this`heap
      ensures Valid(spare) && Accurate(heap, owed + Ref(v))
      ensures heap == Retained(old(heap), v) && SameObjects(old(heap), heap)
    {
      hide Runtime.Valid, Accurate;
      if v.Obj? {
        CountChange(heap, owed, v.id, heap[v.id].count + 1, owed + Ref(v));
        SetCount(v.id, heap[v.id].count + 1, spare);
      } else {
        assert owed + Ref(v) == owed;
      }
    }

    /** Drops a reference that is not the last one. */
    method Decrement(v: Value, ghost owed: multiset<nat>, ghost spare: multiset<Span> := multiset{})
      requires Valid(spare) && Accurate(heap, owed + Ref(v))
      requires v.Obj? ==> Count(heap, v.id) > 1
      modifies this`heap
      ensures Valid(spare) && Accurate(heap, owed)
      ensures SameObjects(old(heap), heap)
    {
      hide Runtime.Valid, Accurate;
      if v.Obj? {
        CountChange(heap, owed + Ref(v), v.id, heap[v.id].count - 1, owed);
        SetCount(v.id, heap[v.id].count - 1, spare);
      } else {
        assert owed + Ref(v) == owed;
      }
    }

    /** Drops one reference; the last one tears the object down, recursively. */
    method Release(v: Value, ghost owed: multiset<nat>)
      requires Valid() && Accurate(heap, owed + Ref(v))
      modifies this, payload, payload.spans, cellspace, cellspace.spans
      ensures Valid() && Accurate(heap, owed)
      ensures Shrunk(old(heap), heap)
      ensures v.Obj? && LastLeaf(old(heap), v.id) ==> heap == old(heap)[v.id := Free]
      ensures NoneDying(old(heap)) && Acyclic(old(heap)) ==> NothingLeaked(owed)
      decreases AliveCount(heap), 0, 1
    {
      hide Runtime.Valid, Accurate, NoneDying, Acyclic, Reachable, Shrunk;
      DropReference(v, owed);
      SettledStorage();
      if NoneDying(old(heap)) && Acyclic(old(heap)) {
        ReleaseIsExact(old(heap), heap, owed);
      }
    }

    /** What is live is what can be reached, and no storage is in use for anything else. */
    ghost predicate NothingLeaked(owed: multiset<nat>)
      reads this, payload, payload.spans, cellspace, cellspace.spans
    {
      && (forall k: nat :: IsLive(heap, k) <==> Reachable(heap, owed, k))
      && multiset(payload.live) == PayloadSpans(heap) && multiset(cellspace.live) == CellSpans(heap)
      && liveCount == LiveCount(heap)
    }

    lemma SettledStorage()
      requires Valid()
      ensures multiset(payload.live) == PayloadSpans(heap) && multiset(cellspace.live) == CellSpans(heap)
      ensures liveCount == LiveCount(heap)
    {
      assert forall m: multiset<Span> {:trigger m + multiset{}} :: m + multiset{} == m;
    }

    method DropReference(v: Value, ghost owed: multiset<nat>)
      requires Valid() && Accurate(heap, owed + Ref(v))
      modifies this, payload, payload.spans, cellspace, cellspace.spans
      ensures Valid() && Accurate(heap, owed)
      ensures Shrunk(old(heap), heap)
      ensures v.Obj? && LastLeaf(old(heap), v.id) ==> heap == old(heap)[v.id := Free]
      decreases AliveCount(heap), 0, 0
    {
      hide Runtime.Valid, Accurate;
      if !v.Obj? {
        assert owed + Ref(v) == owed;
        return;
      }
      HeldIsAlive(heap, owed, v.id);
      var count := heap[v.id].count - 1;
      if count > 0 {
        Decrement(v, owed);
        SameIsShrunk(old(heap), heap);
      } else {
        LastReference(heap, owed, v.id);
        FewerAlive(heap, v.id);
        SetCount(v.id, 0);
        ghost var dying := heap;
        ClearLive(v.id, owed);
        ShrunkByTeardown(old(heap), dying, heap, v.id);
      }
    }

    /** Releases everything an object owns, then its storage, then the object itself. */
    method ClearLive(id: nat, ghost owed: multiset<nat>)
      requires Valid() && IsDying(heap, id)
      requires Accurate(heap, owed + Refs(Children(heap[id].obj)))
      modifies this, payload, payload.spans, cellspace, cellspace.spans
      ensures Valid() && Accurate(heap, owed)
      ensures Shrunk(old(heap)[id := Free], heap)
      ensures Children(old(heap)[id].obj) == [] ==> heap == old(heap)[id := Free]
      decreases AliveCount(heap), 1
    {
      hide Runtime.Valid, Accurate;
      ReleaseAll(Children(heap[id].obj), owed);
      ghost var settled := heap;
      assert IsDying(old(heap), id);
      DyingCleared(heap, owed, id);
      FinishTeardown(id);
      ShrunkButOne(old(heap), settled, id);
    }

    /** Releases a run of owned references in order. */
    method ReleaseAll(values: seq<Value>, ghost owed: multiset<nat>)
      requires Valid() && Accurate(heap, owed + Refs(values))
      modifies this, payload, payload.spans, cellspace, cellspace.spans
      ensures Valid() && Accurate(heap, owed)
      ensures Shrunk(old(heap), heap)
      ensures values == [] ==> heap == old(heap)
      decreases AliveCount(heap), 1, 0
    {
      hide Runtime.Valid, CellShrunk, Accurate;
      var i := 0;
      assert values[0..] == values;
      ShrunkReflexive(heap);
      while i < |values|
        invariant i <= |values|
        invariant Valid() && Shrunk(old(heap), heap)
        invariant Accurate(heap, owed + Refs(values[i..]))
        invariant values == [] ==> heap == old(heap)
      {
        ShrunkAlive(old(heap), heap);
        NextRef(values, i, owed);
        ghost var before := heap;
        Release(values[i], owed + Refs(values[i + 1..]));
        ShrunkTransitive(old(heap), before, heap);
        i := i + 1;
      }
      assert owed + Refs(values[i..]) == owed;
    }

    /** Reserves payload storage; nothing is reserved for zero bytes. */
    method AllocPayload(length: nat) returns (ok: bool, span: Span, ghost at: nat)
      requires Valid()
      modifies payload, payload.spans
      ensures ok ==> Valid(OwnedBytes(span)) && length <= span.length
      ensures Metered(if ok then Ok else OutOfMemory, old(Available()), Available(), Room(0, Packed.AlignUp(length, alignment), 0))
      ensures ok && span.length > 0 ==> at <= |old(payload.live)| && payload.live == InsertAt(old(payload.live), at, span)
      ensures Ordered(old(payload.live), payload.origin) && |Gaps(old(payload.live), payload.origin)| < limit
      ensures !ok ==> Valid() && NoRoomBefore(payload.live, payload.origin, |payload.live|, Packed.AlignUp(length, alignment))
    {
      hide Fits, Sized, PayloadSpans, CellSpans, LiveCount, Ordered, Gaps, SpanAllocator.Valid, NoRoomBefore, Packed.AlignUp;
      var reserved := Packed.AlignUp(length, alignment);
      payload.HasRoom();
      if reserved == 0 {
        return true, Span(0, 0), 0;
      }
      ok, span, at := payload.Allocate(reserved);
      if ok { InsertedBag(old(payload.live), at, span); }
    }

    /** Gives back the payload that was reserved last. */
    method UndoPayload(span: Span, ghost at: nat, ghost before: seq<Span>)
      requires Valid(OwnedBytes(span))
      requires span.length > 0 ==> at <= |before| && payload.live == InsertAt(before, at, span)
      requires Ordered(before, payload.origin) && |Gaps(before, payload.origin)| < limit
      modifies payload, payload.spans
      ensures Valid()
    {
      hide SpanAllocator.Valid, PayloadSpans, CellSpans, LiveCount, Ordered, Gaps;
      if span.length > 0 {
        InsertedBag(before, at, span);
        Cancel(multiset(before), PayloadSpans(heap), multiset{span});
        payload.TakeBack(span, at, before);
      }
    }

    /** Puts an object with one reference into the first free place, or behind the last. */
    method AppendObject(o: Object, span: Span, ghost owed: multiset<nat>) returns (err: Error, v: Value)
      requires Valid(CellPayload(Live(1, o, span)), CellCells(Live(1, o, span)))
      requires Accurate(heap, owed + Refs(Children(o))) && Fits(machine, o, span)
      modifies this
      ensures err == Ok ==> v.Obj? && Valid() && NewObject(old(heap), heap, v.id, o) && heap[v.id].span == span
                            && Accurate(heap, owed + Ref(v))
      ensures err == Ok ==> v.id <= |old(heap)| && heap == Installed(old(heap), v.id, o, span)
      ensures Metered(err, old(Available()), Available(), Room(1, 0, 0))
      ensures err != Ok ==> err == OutOfMemory && heap == old(heap) && liveCount == limit && unchanged(this)
    {
      hide SpanAllocator.Valid, PayloadSpans, CellSpans, LiveCount, CellPayload, CellCells, Accurate, NewObject, Fits,
        Sized, Installed, Refs, Children;
      var id := 0;
      while id < |heap| && heap[id].Live?
        invariant id <= |heap| && forall i | 0 <= i < id :: IsLive(heap, i)
      {
        id := id + 1;
      }
      if id == |heap| && |heap| >= limit {
        AllLive(heap);
        return OutOfMemory, Nil;
      }
      StorageInstalled(heap, id, o, span);
      InstalledNew(heap, id, o, span);
      InstalledSized(machine, heap, id, o, span);
      InstalledAccurate(heap, owed, id, o, span);
      heap := Installed(heap, id, o, span);
      liveCount := liveCount + 1;
      err, v := Ok, Obj(id);
    }

    /** Allocates an object that owns no references: a payload first, then the object,
        and the payload is given back if no object is free. */
    method AllocLeaf(o: Object, length: nat, ghost owed: multiset<nat>) returns (err: Error, v: Value)
      requires Valid() && Accurate(heap, owed)
      requires Children(o) == [] && !o.Cells? && PayloadBytes(machine, o) <= length
      modifies this, payload, payload.spans
      ensures Valid()
      ensures Metered(err, old(Available()), Available(), Room(1, Packed.AlignUp(length, alignment), 0))
      ensures err == Ok ==> v.Obj? && NewObject(old(heap), heap, v.id, o) && Accurate(heap, owed + Ref(v))
      ensures err == Ok ==> v.id <= |old(heap)| && v.id < |heap| && heap == Installed(old(heap), v.id, o, SpanOf(heap[v.id]))
      ensures err != Ok ==> err == OutOfMemory && heap == old(heap)
    {
      hide Runtime.Valid, SpanAllocator.Valid, Accurate, NewObject, Ordered, Gaps, PayloadBytes, NoRoomBefore, Metered, Available;
      ghost var start, bytes := Available(), Room(0, Packed.AlignUp(length, alignment), 0);
      ghost var need := Room(1, Packed.AlignUp(length, alignment), 0);
      var ok, span, at := AllocPayload(length);
      if !ok {
        MeteredFirst(OutOfMemory, start, Available(), bytes, need);
        return OutOfMemory, Nil;
      }
      ghost var mid := Available();
      assert owed + Refs(Children(o)) == owed;
      LeafSpans(o, span);
      err, v := AppendObject(o, span, owed);
      ghost var after := Available();
      MeteredThen(err, start, mid, after, bytes, Room(1, 0, 0), need);
      if err != Ok {
        UndoPayload(span, at, old(payload.live));
        MeteredFailed(err, start, after, Available(), need);
      }
    }

    method AllocCells(length: nat, ghost owed: multiset<nat>) returns (err: Error, v: Value)
      requires Valid() && Accurate(heap, owed)
      modifies this, cellspace, cellspace.spans
      ensures Valid()
      ensures length == 0 ==> err == Bounds
      ensures err == Ok ==> v.Obj? && NewObject(old(heap), heap, v.id, Cells(seq(length, _ => Nil)))
                            && Accurate(heap, owed + Ref(v)) && heap[v.id].span.length == length
      ensures Metered(err, old(Available()), Available(), Room(1, 0, length))
      ensures err != Ok ==> (err == Bounds <==> length == 0) && (err in {Bounds, CellspaceFull, OutOfMemory})
                            && heap == old(heap)
    {
      hide Runtime.Valid, SpanAllocator.Valid, Accurate, NewObject, Ordered, Gaps, NoRoomBefore, Metered, Available;
      ghost var start, cells, need := Available(), Room(0, 0, length), Room(1, 0, length);
      if length == 0 {
        OtherError(Bounds, start, start, need);
        return Bounds, Nil;
      }
      var ok, span, at := AllocCellSpan(length);
      if !ok {
        MeteredFirst(CellspaceFull, start, Available(), cells, need);
        return CellspaceFull, Nil;
      }
      ghost var mid := Available();
      var o := Cells(seq(length, _ => Nil));
      NilsOwnNothing(length);
      assert owed + Refs(Children(o)) == owed;
      LeafSpans(o, span);
      err, v := AppendObject(o, span, owed);
      ghost var after := Available();
      MeteredThen(err, start, mid, after, cells, Room(1, 0, 0), need);
      if err != Ok {
        UndoCellSpan(span, at, old(cellspace.live));
        MeteredFailed(err, start, after, Available(), need);
      }
    }

    /** Reserves a run of cells. */
    method AllocCellSpan(length: nat) returns (ok: bool, span: Span, ghost at: nat)
      requires Valid() && length > 0
      modifies cellspace, cellspace.spans
      ensures ok ==> Valid(multiset{}, OwnedBytes(span)) && span.length == length
      ensures Metered(if ok then Ok else CellspaceFull, old(Available()), Available(), Room(0, 0, length))
      ensures ok ==> at <= |old(cellspace.live)| && cellspace.live == InsertAt(old(cellspace.live), at, span)
      ensures Ordered(old(cellspace.live), cellspace.origin) && |Gaps(old(cellspace.live), cellspace.origin)| < limit
      ensures !ok ==> Valid() && NoRoomBefore(cellspace.live, cellspace.origin, |cellspace.live|, length)
    {
      hide Fits, Sized, PayloadSpans, CellSpans, LiveCount, Ordered, Gaps, SpanAllocator.Valid, NoRoomBefore;
      cellspace.HasRoom();
      ok, span, at := cellspace.Allocate(length);
      if ok { InsertedBag(old(cellspace.live), at, span); }
    }

    /** Gives back the cells that were reserved last. */
    method UndoCellSpan(span: Span, ghost at: nat, ghost before: seq<Span>)
      requires Valid(multiset{}, OwnedBytes(span)) && span.length > 0
      requires at <= |before| && cellspace.live == InsertAt(before, at, span)
      requires Ordered(before, cellspace.origin) && |Gaps(before, cellspace.origin)| < limit
      modifies cellspace, cellspace.spans
      ensures Valid()
    {
      hide SpanAllocator.Valid, PayloadSpans, CellSpans, LiveCount, Ordered, Gaps;
      InsertedBag(before, at, span);
      Cancel(multiset(before), CellSpans(heap), multiset{span});
      cellspace.TakeBack(span, at, before);
    }

    method RetainAll(values: seq<Value>, ghost owed: multiset<nat>, ghost spare: multiset<Span>)
      requires Valid(spare) && Accurate(heap, owed)
      requires Held(values, owed)
      modifies this`heap
      ensures Valid(spare) && Accurate(heap, owed + Refs(values)) && SameObjects(old(heap), heap)
    {
      hide Runtime.Valid, Accurate, CellKept;
      var i := 0;
      assert owed + Refs(values[..0]) == owed;
      SameReflexive(heap);
      while i < |values|
        invariant i <= |values|
        invariant Valid(spare) && SameObjects(old(heap), heap)
        invariant Accurate(heap, owed + Refs(values[..i]))
      {
        LastRef(values, i, owed);
        HeldIsLive(heap, owed + Refs(values[..i]), values[i]);
        ghost var before := heap;
        Retain(values[i], owed + Refs(values[..i]), spare);
        SameTransitive(old(heap), before, heap);
        i := i + 1;
      }
      assert values[..i] == values;
    }

    /** Undoes `RetainAll` on references that somebody else still holds: no object dies. */
    method UnretainAll(values: seq<Value>, ghost owed: multiset<nat>, ghost spare: multiset<Span>)
      requires Valid(spare) && Accurate(heap, owed + Refs(values))
      requires Held(values, owed)
      modifies this`heap
      ensures Valid(spare) && Accurate(heap, owed) && SameObjects(old(heap), heap)
    {
      hide Runtime.Valid, Accurate, CellKept;
      var i := 0;
      assert values[0..] == values;
      SameReflexive(heap);
      while i < |values|
        invariant i <= |values|
        invariant Valid(spare) && SameObjects(old(heap), heap)
        invariant Accurate(heap, owed + Refs(values[i..]))
      {
        NextRef(values, i, owed);
        StillHeld(heap, owed, owed + Refs(values[i + 1..]), values[i]);
        ghost var before := heap;
        Decrement(values[i], owed + Refs(values[i + 1..]), spare);
        SameTransitive(old(heap), before, heap);
        i := i + 1;
      }
      assert owed + Refs(values[i..]) == owed;
    }

    /** Allocates a record: it takes its own references to the definition and the fields,
        and gives them back if no object is free. */
    method AllocRecord(definition: Value, fields: seq<Value>, ghost owed: multiset<nat>)
      returns (err: Error, v: Value)
      requires Valid() && Accurate(heap, owed)
      requires Held([definition] + fields, owed)
      modifies this, payload, payload.spans
      ensures Valid()
      ensures err == Ok ==> v.Obj? && NewObject(old(heap), heap, v.id, Record(definition, fields))
                            && Accurate(heap, owed + Ref(v))
      ensures err != Ok ==> err == OutOfMemory && SameObjects(old(heap), heap) && Accurate(heap, owed)
      ensures Metered(err, old(Available()), Available(), Need(Record(definition, fields)))
    {
      hide Runtime.Valid, SpanAllocator.Valid, PayloadSpans, CellSpans, LiveCount, Accurate, NewObject, Held, CellKept,
        Ordered, Gaps, NoRoomBefore, Metered, Available, SameObjects;
      ghost var start, room := heap, Available();
      ghost var o, bytes := Record(definition, fields), Room(0, Packed.AlignUp(4 * |fields|, alignment), 0);
      var ok, span, at := AllocPayload(4 * |fields|);
      SameReflexive(heap);
      if !ok {
        MeteredFirst(OutOfMemory, room, Available(), bytes, Need(o));
        return OutOfMemory, Nil;
      }
      ghost var reserved := Available();
      RetainAll([definition] + fields, owed, OwnedBytes(span));
      RecordRefs(definition, fields);
      LeafSpans(o, span);
      ghost var mid := heap;
      err, v := AppendObject(Record(definition, fields), span, owed);
      ghost var after := Available();
      MeteredThen(err, room, reserved, after, bytes, Room(1, 0, 0), Need(o));
      if err == Ok {
        SameThenNew(start, mid, heap, v.id, Record(definition, fields));
      } else {
        UnretainAll([definition] + fields, owed, OwnedBytes(span));
        SameTransitive(start, mid, heap);
        UndoPayload(span, at, old(payload.live));
        MeteredFailed(err, room, after, Available(), Need(o));
      }
    }

    /** Overwrites one reference inside an object that somebody holds.  The old reference
        is dropped and the new one moves in. */
    method Overwrite(id: nat, index: nat, stored: Value, ghost owed: multiset<nat>)
      requires Valid() && Accurate(heap, owed + Ref(stored))
      requires id in owed && IsLive(heap, id)
      requires HasPlace(heap[id].obj, index)
      modifies this, payload, payload.spans, cellspace, cellspace.spans
      ensures Valid() && Accurate(heap, owed)
      ensures Shrunk(Stored(old(heap), id, index, stored), heap)
    {
      hide Runtime.Valid, Accurate, CellShrunk, HasPlace, WithPlace;
      var previous := PlaceOf(heap[id].obj, index);
      HeldIsLive(heap, owed + Ref(stored), Obj(id));
      Blanked(heap, owed + Ref(stored), id, index);
      SetObject(id, WithPlace(heap[id].obj, index, Nil));
      Release(previous, owed + Ref(stored));
      HeldIsLive(heap, owed + Ref(stored), Obj(id));
      ghost var mid := heap;
      Filled(old(heap), mid, owed, id, index, stored);
      SetObject(id, WithPlace(heap[id].obj, index, stored));
    }

    method SetObject(id: nat, o: Object)
      requires Valid() && IsLive(heap, id) && SameSize(heap[id].obj, o)
      modifies this`heap
      ensures Valid() && heap == old(heap)[id := old(heap)[id].(obj := o)]
    {
      hide SpanAllocator.Valid, PayloadSpans, CellSpans, LiveCount;
      SameStorage(heap, id, heap[id].(obj := o));
      heap := heap[id := heap[id].(obj := o)];
    }

    /** Gives the storage of a cell back to the allocator it came from. */
    method ReleaseStorage(id: nat)
      requires Valid() && IsLive(heap, id)
      modifies payload, payload.spans, cellspace, cellspace.spans
      ensures payload.Valid() && cellspace.Valid()
      ensures Returned(old(multiset(payload.live)), multiset(payload.live), CellPayload(heap[id]))
      ensures Returned(old(multiset(cellspace.live)), multiset(cellspace.live), CellCells(heap[id]))
    {
      hide SpanAllocator.Valid, PayloadSpans, CellSpans, LiveCount, Accurate, HeapRefs, AliveCount, Sum, Returned,
        CellPayload, CellCells;
      var c := heap[id];
      CellSpan(c);
      NothingReturned(multiset(payload.live));
      NothingReturned(multiset(cellspace.live));
      ghost var p, s := multiset(payload.live), multiset(cellspace.live);
      StorageFits(heap, id, payload.live, cellspace.live);
      if c.span.length > 0 {
        if c.obj.Cells? {
          cellspace.ReleaseOwned(c.span);
          OneReturned(s, multiset(cellspace.live), c.span);
        } else {
          payload.ReleaseOwned(c.span);
          OneReturned(p, multiset(payload.live), c.span);
        }
      }
    }

    /** Gives an object's span back and frees its cell. */
    method FinishTeardown(id: nat)
      requires Valid() && IsDying(heap, id)
      modifies this, payload, payload.spans, cellspace, cellspace.spans
      ensures Valid() && heap == old(heap)[id := Free]
    {
      hide SpanAllocator.Valid, PayloadSpans, CellSpans, LiveCount, CellPayload, CellCells, Accurate;
      StorageAfter(heap, id, multiset(payload.live), multiset(cellspace.live));
      ReleaseStorage(id);
      heap := heap[id := Free];
      liveCount := liveCount - 1;
    }
  }

  lemma LeafSpans(o: Object, span: Span)
    ensures !o.Cells? ==> CellPayload(Live(1, o, span)) == OwnedBytes(span) && CellCells(Live(1, o, span)) == multiset{}
    ensures o.Cells? ==> CellCells(Live(1, o, span)) == OwnedBytes(span) && CellPayload(Live(1, o, span)) == multiset{}
  {
  }

  lemma OriginBelowLimit(a: SpanAllocator)
    requires a.Valid()
    ensures a.origin <= a.limit
  {
    ExtentBeyond(a.live, a.origin);
  }

  /** Somebody outside the heap holds each of these references. */
  ghost predicate Held(values: seq<Value>, owed: multiset<nat>) {
    forall v | v in values && v.Obj? :: v.id in owed
  }

  lemma LastRef(values: seq<Value>, i: nat, owed: multiset<nat>)
    requires i < |values|
    ensures owed + Refs(values[..i + 1]) == (owed + Refs(values[..i])) + Ref(values[i])
  {
    assert values[..i + 1] == values[..i] + [values[i]];
    RefsConcat(values[..i], [values[i]]);
    assert [values[i]][1..] == [];
    assert Refs([values[i]]) == Ref(values[i]) + multiset{};
  }

  lemma HeldIsLive(h: Heap, owed: multiset<nat>, v: Value)
    requires Accurate(h, owed) && (v.Obj? ==> v.id in owed)
    ensures v.Obj? ==> IsLive(h, v.id) && !IsDying(h, v.id)
  {
    if v.Obj? { assert Count(h, v.id) == (owed + HeapRefs(h))[v.id]; }
  }

  lemma StillHeld(h: Heap, owed: multiset<nat>, more: multiset<nat>, v: Value)
    requires Accurate(h, more + Ref(v)) && owed <= more && (v.Obj? ==> v.id in owed)
    ensures v.Obj? ==> Count(h, v.id) > 1
  {
    if v.Obj? { assert Count(h, v.id) == (more + Ref(v) + HeapRefs(h))[v.id]; }
  }

  lemma SameIsShrunk(h: Heap, after: Heap)
    requires SameObjects(h, after)
    ensures Shrunk(h, after)
  {
    forall i | 0 <= i < |h| ensures CellShrunk(h[i], after[i]) { assert CellKept(h[i], after[i]); }
  }

  lemma RecordRefs(definition: Value, fields: seq<Value>)
    ensures Refs([definition] + fields) == Refs(Children(Record(definition, fields)))
  {
    assert ([definition] + fields)[1..] == fields;
    RefsConcat(fields, [definition]);
    assert [definition][1..] == [];
  }

  lemma Cancel<T>(a: multiset<T>, b: multiset<T>, x: multiset<T>)
    requires a + x == b + x
    ensures a == b
  {
    assert a == (a + x) - x && b == (b + x) - x;
  }

  lemma InsertedBag(live: seq<Span>, at: nat, span: Span)
    requires at <= |live|
    ensures multiset(InsertAt(live, at, span)) == multiset(live) + multiset{span}
  {
    assert live == live[..at] + live[at..];
  }

  lemma {:induction false} NilsOwnNothing(length: nat)
    ensures Refs(seq(length, _ => Nil)) == multiset{}
  {
    if length > 0 {
      assert seq(length, _ => Nil)[1..] == seq(length - 1, _ => Nil);
      NilsOwnNothing(length - 1);
    }
  }

  lemma StorageInstalled(h: Heap, i: nat, o: Object, span: Span)
    requires i <= |h| && !IsLive(h, i)
    ensures var c := Live(1, o, span);
            var g := Installed(h, i, o, span);
            && PayloadSpans(g) == PayloadSpans(h) + CellPayload(c)
            && CellSpans(g) == CellSpans(h) + CellCells(c)
            && LiveCount(g) == LiveCount(h) + 1
  {
    SumFill(CellPayload, h, i, Live(1, o, span));
    SumFill(CellCells, h, i, Live(1, o, span));
    SumFill(CellLive, h, i, Live(1, o, span));
  }

  lemma {:induction false} AllLive(h: Heap)
    requires forall i | 0 <= i < |h| :: IsLive(h, i)
    ensures LiveCount(h) == |h|
  {
    if h != [] {
      forall i | 0 <= i < |h| - 1 ensures IsLive(h[1..], i) { assert IsLive(h, i + 1); }
      AllLive(h[1..]);
      assert IsLive(h, 0);
    }
  }

  lemma EmptyHeap()
    ensures PayloadSpans([]) == multiset{} && CellSpans([]) == multiset{} && LiveCount([]) == 0
    ensures Accurate([], multiset{})
  {
  }

  lemma NextRef(values: seq<Value>, i: nat, owed: multiset<nat>)
    requires i < |values|
    ensures owed + Refs(values[i..]) == (owed + Refs(values[i + 1..])) + Ref(values[i])
  {
    assert values[i..][1..] == values[i + 1..];
  }

  /** A reference somebody holds leads to a live object that is not being torn down. */
  lemma HeldIsAlive(h: Heap, owed: multiset<nat>, id: nat)
    requires Accurate(h, owed + multiset{id})
    ensures IsLive(h, id) && !IsDying(h, id)
  {
    assert Count(h, id) == (owed + multiset{id} + HeapRefs(h))[id];
  }

  lemma FewerAlive(h: Heap, id: nat)
    requires IsLive(h, id) && h[id].count > 0
    ensures AliveCount(h[id := h[id].(count := 0)]) < AliveCount(h)
  {
    SumUpdate(CellAlive, h, id, h[id].(count := 0));
    assert |Sum(CellAlive, h[id := h[id].(count := 0)]) + CellAlive(h[id])| == |Sum(CellAlive, h)|;
  }

  lemma ShrunkByTeardown(h: Heap, dying: Heap, after: Heap, id: nat)
    requires IsLive(h, id) && h[id].count > 0
    requires dying == h[id := h[id].(count := 0)]
    requires Shrunk(dying[id := Free], after)
    ensures Shrunk(h, after)
  {
    forall i | 0 <= i < |h| ensures CellShrunk(h[i], after[i]) {
      assert CellShrunk(dying[id := Free][i], after[i]);
    }
  }

  lemma ShrunkButOne(h: Heap, after: Heap, id: nat)
    requires Shrunk(h, after) && id < |h|
    ensures Shrunk(h[id := Free], after[id := Free])
  {
    var g, t := h[id := Free], after[id := Free];
    forall i | 0 <= i < |g| ensures CellShrunk(g[i], t[i]) {
      assert CellShrunk(h[i], after[i]);
    }
  }

  lemma SumRemove<T>(f: Cell -> multiset<T>, h: Heap, i: nat)
    requires i < |h| && f(Free) == multiset{}
    ensures Sum(f, h[i := Free]) == Sum(f, h) - f(h[i])
    ensures |Sum(f, h[i := Free])| + |f(h[i])| == |Sum(f, h)|
  {
    SumUpdate(f, h, i, Free);
    var a, b, c := Sum(f, h[i := Free]), f(h[i]), Sum(f, h);
    assert a + b == c + multiset{} == c;
    assert a == c - b;
  }

  lemma SameStorage(h: Heap, i: nat, c: Cell)
    requires IsLive(h, i) && c.Live? && c.obj.Cells? == h[i].obj.Cells? && c.span == h[i].span
    ensures PayloadSpans(h[i := c]) == PayloadSpans(h)
    ensures CellSpans(h[i := c]) == CellSpans(h)
    ensures LiveCount(h[i := c]) == LiveCount(h)
  {
    SumSame(CellPayload, h, i, c);
    SumSame(CellCells, h, i, c);
    SumSame(CellLive, h, i, c);
  }

  lemma Blanked(h: Heap, owed: multiset<nat>, id: nat, index: nat)
    requires Accurate(h, owed) && IsLive(h, id) && !IsDying(h, id) && HasPlace(h[id].obj, index)
    ensures Accurate(Stored(h, id, index, Nil), owed + Ref(PlaceOf(h[id].obj, index)))
  {
    PlaceRefs(h[id].obj, index, Nil);
    assert owed + multiset{} == owed;
    ContentsChange(h, owed, id, WithPlace(h[id].obj, index, Nil), multiset{}, Ref(PlaceOf(h[id].obj, index)));
  }

  lemma Filled(h: Heap, mid: Heap, owed: multiset<nat>, id: nat, index: nat, stored: Value)
    requires IsLive(h, id) && HasPlace(h[id].obj, index) && h[id].count > 0
    requires Shrunk(Stored(h, id, index, Nil), mid) && Accurate(mid, owed + Ref(stored))
    requires IsLive(mid, id) && !IsDying(mid, id)
    ensures HasPlace(mid[id].obj, index)
    ensures Accurate(Stored(mid, id, index, stored), owed)
    ensures Shrunk(Stored(h, id, index, stored), Stored(mid, id, index, stored))
  {
    hide Accurate, Shrunk, WithPlace, HasPlace, PlaceOf, Refs;
    FilledShrunk(h, mid, id, index, stored);
    PlaceRefs(mid[id].obj, index, stored);
    NilRef();
    assert Refs(Children(WithPlace(mid[id].obj, index, stored))) + multiset{} == Refs(Children(mid[id].obj)) + Ref(stored);
    ContentsChange(mid, owed, id, WithPlace(mid[id].obj, index, stored), Ref(stored), multiset{});
    assert owed + multiset{} == owed;
  }

  lemma NilRef()
    ensures Ref(Nil) == multiset{}
  {
  }

  lemma FilledShrunk(h: Heap, mid: Heap, id: nat, index: nat, stored: Value)
    requires IsLive(h, id) && HasPlace(h[id].obj, index) && h[id].count > 0
    requires Shrunk(Stored(h, id, index, Nil), mid) && IsLive(mid, id) && !IsDying(mid, id)
    ensures HasPlace(mid[id].obj, index) && PlaceOf(mid[id].obj, index) == Nil
    ensures Shrunk(Stored(h, id, index, stored), Stored(mid, id, index, stored))
  {
    var blank := Stored(h, id, index, Nil);
    assert CellShrunk(blank[id], mid[id]);
    var g, t := Stored(h, id, index, stored), Stored(mid, id, index, stored);
    forall i | 0 <= i < |g| ensures CellShrunk(g[i], t[i]) { assert CellShrunk(blank[i], mid[i]); }
  }

  lemma StorageAfter(h: Heap, id: nat, payload: multiset<Span>, cells: multiset<Span>)
    requires IsLive(h, id)
    requires payload == PayloadSpans(h) + multiset{} && cells == CellSpans(h) + multiset{}
    ensures payload - CellPayload(h[id]) == PayloadSpans(h[id := Free]) + multiset{}
    ensures cells - CellCells(h[id]) == CellSpans(h[id := Free]) + multiset{}
    ensures LiveCount(h[id := Free]) == LiveCount(h) - 1
  {
    hide Sum;
    SumRemove(CellPayload, h, id);
    SumRemove(CellCells, h, id);
    SumRemove(CellLive, h, id);
    Remainder(payload, PayloadSpans(h), PayloadSpans(h[id := Free]), CellPayload(h[id]));
    Remainder(cells, CellSpans(h), CellSpans(h[id := Free]), CellCells(h[id]));
  }

  lemma Remainder(held: multiset<Span>, all: multiset<Span>, rest: multiset<Span>, own: multiset<Span>)
    requires held == all + multiset{} && rest == all - own
    ensures held - own == rest + multiset{}
  {
  }

  lemma StorageFits(h: Heap, id: nat, payload: seq<Span>, cells: seq<Span>)
    requires IsLive(h, id)
    requires multiset(payload) == PayloadSpans(h) + multiset{} && multiset(cells) == CellSpans(h) + multiset{}
    ensures |payload| <= |h| && |cells| <= |h|
    ensures h[id].span.length > 0 ==> h[id].span in (if h[id].obj.Cells? then cells else payload)
  {
    OwnsItsSpan(h, id, CellPayload, payload);
    OwnsItsSpan(h, id, CellCells, cells);
  }

  /** An object's span is live, and live spans never outnumber heap cells. */
  lemma OwnsItsSpan(h: Heap, id: nat, f: Cell -> multiset<Span>, live: seq<Span>)
    requires multiset(live) == Sum(f, h) + multiset{}
    requires forall c :: |f(c)| <= 1
    requires id < |h| && h[id].Live?
    ensures |live| <= |h|
    ensures f(h[id]) == multiset{h[id].span} ==> h[id].span in live
  {
    SumIncludes(f, h, id);
    SumBound(f, h);
    assert |live| == |multiset(live)| == |Sum(f, h)|;
    assert f(h[id]) == multiset{h[id].span} ==> h[id].span in multiset(live);
  }
}

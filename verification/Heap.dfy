/**
 The reference-counted object heap.

 `Accurate(heap, owed)` is the ownership invariant: every live object's count is
 the number of references held outside the heap (`owed`) plus the number held by
 other objects.  An object whose count has reached zero and whose storage is
 still being torn down ("dying") no longer owns its children; they are then part
 of `owed` until they have been released one by one.
 */
module Heap {
  import opened Values
  import opened Spans

  datatype Cell = Free | Live(count: nat, obj: Object, span: Span)

  type Heap = seq<Cell>

  function Count(h: Heap, k: nat): nat {
    if k < |h| && h[k].Live? then h[k].count else 0
  }

  predicate IsLive(h: Heap, k: nat) { k < |h| && h[k].Live? }

  predicate IsDying(h: Heap, k: nat) { k < |h| && h[k].Live? && h[k].count == 0 }

  function SpanOf(c: Cell): Span { if c.Live? then c.span else Span(0, 0) }

  // ----- totals over the heap -----

  /** References that one cell owns. */
  ghost function CellRefs(c: Cell): multiset<nat> {
    if c.Live? && c.count > 0 then Refs(Children(c.obj)) else multiset{}
  }

  ghost function CellPayload(c: Cell): multiset<Span> {
    if c.Live? && !c.obj.Cells? && c.span.length > 0 then multiset{c.span} else multiset{}
  }

  ghost function CellCells(c: Cell): multiset<Span> {
    if c.Live? && c.obj.Cells? && c.span.length > 0 then multiset{c.span} else multiset{}
  }

  ghost function CellLive(c: Cell): multiset<bool> {
    if c.Live? then multiset{true} else multiset{}
  }

  ghost function CellAlive(c: Cell): multiset<bool> {
    if c.Live? && c.count > 0 then multiset{true} else multiset{}
  }

  ghost function Sum<T>(f: Cell -> multiset<T>, h: Heap): multiset<T> {
    if h == [] then multiset{} else f(h[0]) + Sum(f, h[1..])
  }

  ghost function HeapRefs(h: Heap): multiset<nat> { Sum(CellRefs, h) }

  /** The payload storage that live objects own. */
  ghost function PayloadSpans(h: Heap): multiset<Span> { Sum(CellPayload, h) }

  /** The cell storage that live objects own. */
  ghost function CellSpans(h: Heap): multiset<Span> { Sum(CellCells, h) }

  ghost function LiveCount(h: Heap): nat { |Sum(CellLive, h)| }

  ghost function AliveCount(h: Heap): nat { |Sum(CellAlive, h)| }

  /** The reference counts, read as a multiset, are `total`. */
  ghost predicate Balanced(h: Heap, total: multiset<nat>) {
    forall k: nat {:trigger Count(h, k)} :: Count(h, k) == total[k]
  }

  ghost predicate Accurate(h: Heap, owed: multiset<nat>) {
    Balanced(h, owed + HeapRefs(h))
  }

  ghost predicate NoneDying(h: Heap) { forall k: nat :: !IsDying(h, k) }

  lemma Exchange<T>(a: multiset<T>, b: multiset<T>, c: multiset<T>, d: multiset<T>, e: multiset<T>)
    requires b + c == d + e
    ensures (a + b) + c == (a + d) + e
  {
    assert (a + b) + c == a + (b + c);
  }

  lemma {:induction false} SumUpdate<T>(f: Cell -> multiset<T>, h: Heap, i: nat, c: Cell)
    requires i < |h|
    ensures Sum(f, h[i := c]) + f(h[i]) == Sum(f, h) + f(c)
  {
    var g := h[i := c];
    if i == 0 {
      assert g[1..] == h[1..];
    } else {
      assert g[0] == h[0] && g[1..] == h[1..][i - 1 := c];
      SumUpdate(f, h[1..], i - 1, c);
      Exchange(f(h[0]), Sum(f, g[1..]), f(h[i]), Sum(f, h[1..]), f(c));
    }
  }

  lemma {:induction false} SumAppend<T>(f: Cell -> multiset<T>, h: Heap, c: Cell)
    ensures Sum(f, h + [c]) == Sum(f, h) + f(c)
  {
    if h == [] {
      assert h + [c] == [c] && [c][1..] == [];
    } else {
      assert (h + [c])[0] == h[0] && (h + [c])[1..] == h[1..] + [c];
      SumAppend(f, h[1..], c);
    }
  }

  lemma {:induction false} SumSame<T>(f: Cell -> multiset<T>, h: Heap, i: nat, c: Cell)
    requires i < |h| && f(c) == f(h[i])
    ensures Sum(f, h[i := c]) == Sum(f, h)
  {
    var g := h[i := c];
    if i == 0 {
      assert g[1..] == h[1..];
    } else {
      assert g[0] == h[0] && g[1..] == h[1..][i - 1 := c];
      SumSame(f, h[1..], i - 1, c);
    }
  }

  /** Filling an empty place, or the one behind the last, adds exactly the new cell. */
  lemma {:induction false} SumFill<T>(f: Cell -> multiset<T>, h: Heap, i: nat, c: Cell)
    requires i <= |h| && (i < |h| ==> f(h[i]) == multiset{})
    ensures Sum(f, if i < |h| then h[i := c] else h + [c]) == Sum(f, h) + f(c)
  {
    if i < |h| {
      SumUpdate(f, h, i, c);
      assert Sum(f, h[i := c]) + f(h[i]) == Sum(f, h[i := c]);
    } else {
      SumAppend(f, h, c);
    }
  }

  lemma {:induction false} SumIncludes<T>(f: Cell -> multiset<T>, h: Heap, i: nat)
    requires i < |h|
    ensures f(h[i]) <= Sum(f, h)
  {
    if i > 0 { SumIncludes(f, h[1..], i - 1); }
  }

  /** One object owns at most one span, so live spans never outnumber heap cells. */
  lemma {:induction false} SumBound<T>(f: Cell -> multiset<T>, h: Heap)
    requires forall c :: |f(c)| <= 1
    ensures |Sum(f, h)| <= |h|
  {
    if h != [] { SumBound(f, h[1..]); }
  }

  /** Some live object accounts for every reference counted in the heap. */
  lemma {:induction false} RefOwner(h: Heap, k: nat) returns (i: nat)
    requires k in HeapRefs(h)
    ensures i < |h| && k in CellRefs(h[i])
  {
    if k in CellRefs(h[0]) {
      i := 0;
    } else {
      i := RefOwner(h[1..], k);
      i := i + 1;
    }
  }

  // ----- how a release may change the heap -----

  /** A live object may disappear or lose references; what remains keeps its contents and
      storage.  An object already being torn down is left alone. */
  predicate CellShrunk(c: Cell, after: Cell) {
    if c.Live? && c.count > 0 then
      after.Free? || (after.Live? && after.count > 0 && after.obj == c.obj && after.span == c.span)
    else after == c
  }

  ghost predicate Shrunk(h: Heap, after: Heap) {
    |after| == |h| && forall i | 0 <= i < |h| :: CellShrunk(h[i], after[i])
  }

  /** The cell keeps its contents and storage; only its count may differ. */
  predicate CellKept(c: Cell, after: Cell) {
    if c.Live? && c.count > 0
    then after.Live? && after.count > 0 && after.obj == c.obj && after.span == c.span
    else after == c
  }

  /** Only counts of live objects may differ. */
  ghost predicate SameObjects(h: Heap, after: Heap) {
    |after| == |h| && forall i | 0 <= i < |h| :: CellKept(h[i], after[i])
  }

  /** `o` has become object `id`, in the first free place; everything else is kept. */
  ghost predicate NewObject(h: Heap, after: Heap, id: nat, o: Object) {
    && id <= |h| && !IsLive(h, id) && (forall i | 0 <= i < id :: IsLive(h, i))
    && |after| == (if id == |h| then |h| + 1 else |h|)
    && after[id].Live? && after[id].count == 1 && after[id].obj == o
    && forall i | 0 <= i < |h| && i != id :: CellKept(h[i], after[i])
  }

  lemma SameThenNew(h: Heap, mid: Heap, after: Heap, id: nat, o: Object)
    requires SameObjects(h, mid) && NewObject(mid, after, id, o)
    ensures NewObject(h, after, id, o)
  {
    assert id < |h| ==> CellKept(h[id], mid[id]);
    forall i | 0 <= i < id ensures IsLive(h, i) { assert IsLive(mid, i) && CellKept(h[i], mid[i]); }
    forall i | 0 <= i < |h| && i != id ensures CellKept(h[i], after[i]) {
      assert CellKept(h[i], mid[i]) && CellKept(mid[i], after[i]);
    }
  }

  lemma SameReflexive(h: Heap)
    ensures SameObjects(h, h)
  {
  }

  lemma SameTransitive(a: Heap, b: Heap, c: Heap)
    requires SameObjects(a, b) && SameObjects(b, c)
    ensures SameObjects(a, c)
  {
    forall i | 0 <= i < |a| ensures CellKept(a[i], c[i]) {
      assert CellKept(a[i], b[i]) && CellKept(b[i], c[i]);
    }
  }

  lemma ShrunkReflexive(h: Heap)
    ensures Shrunk(h, h)
  {
  }

  lemma ShrunkTransitive(a: Heap, b: Heap, c: Heap)
    requires Shrunk(a, b) && Shrunk(b, c)
    ensures Shrunk(a, c)
  {
    forall i | 0 <= i < |a| ensures CellShrunk(a[i], c[i]) {
      assert CellShrunk(a[i], b[i]) && CellShrunk(b[i], c[i]);
    }
  }

  lemma {:induction false} ShrunkAlive(h: Heap, after: Heap)
    requires Shrunk(h, after)
    ensures AliveCount(after) <= AliveCount(h)
  {
    if h != [] {
      assert CellShrunk(h[0], after[0]);
      assert forall i | 0 <= i < |h| - 1 :: h[1..][i] == h[i + 1] && after[1..][i] == after[i + 1];
      ShrunkAlive(h[1..], after[1..]);
    }
  }

  // ----- reachability -----

  ghost predicate Edge(h: Heap, i: nat, k: nat) { i < |h| && k in CellRefs(h[i]) }

  /** A chain of references that starts at a root. */
  ghost predicate IsPath(h: Heap, roots: multiset<nat>, p: seq<nat>) {
    p != [] &&
    if |p| == 1 then p[0] in roots
    else Edge(h, p[|p| - 2], p[|p| - 1]) && IsPath(h, roots, p[..|p| - 1])
  }

  ghost predicate Reachable(h: Heap, roots: multiset<nat>, k: nat) {
    exists p :: IsPath(h, roots, p) && p[|p| - 1] == k
  }

  /** References only ever lead to a smaller rank. */
  ghost predicate RankedBy(h: Heap, rank: seq<nat>) {
    && |rank| == |h|
    && forall i: nat, k: nat :: Edge(h, i, k) && k < |h| ==> rank[k] < rank[i]
  }

  ghost predicate Acyclic(h: Heap) { exists rank :: RankedBy(h, rank) }

  /** Nothing reachable is ever missing. */
  lemma {:induction false} ReachableIsLive(h: Heap, owed: multiset<nat>, p: seq<nat>)
    requires Accurate(h, owed) && IsPath(h, owed, p)
    ensures IsLive(h, p[|p| - 1])
  {
    var k := p[|p| - 1];
    assert Count(h, k) == (owed + HeapRefs(h))[k];
    if |p| > 1 {
      assert Edge(h, p[|p| - 2], k);
      SumIncludes(CellRefs, h, p[|p| - 2]);
    }
  }

  lemma LiveIsReachable(h: Heap, owed: multiset<nat>, rank: seq<nat>, bound: nat, k: nat)
    requires Accurate(h, owed) && NoneDying(h) && RankedBy(h, rank)
    requires forall i | 0 <= i < |rank| :: rank[i] <= bound
    requires IsLive(h, k)
    ensures Reachable(h, owed, k)
    decreases bound - rank[k]
  {
    assert !IsDying(h, k);
    assert Count(h, k) == (owed + HeapRefs(h))[k];
    if k in owed {
      assert IsPath(h, owed, [k]);
    } else {
      var i := RefOwner(h, k);
      assert Edge(h, i, k);
      LiveIsReachable(h, owed, rank, bound, i);
      var p :| IsPath(h, owed, p) && p[|p| - 1] == i;
      var q := p + [k];
      assert q[..|q| - 1] == p;
      assert IsPath(h, owed, q) && q[|q| - 1] == k;
    }
  }

  ghost function MaxOf(s: seq<nat>): (m: nat)
    ensures forall i | 0 <= i < |s| :: s[i] <= m
  {
    if s == [] then 0
    else
      var m := MaxOf(s[1..]);
      assert forall i | 0 < i < |s| :: s[i] == s[1..][i - 1];
      if s[0] > m then s[0] else m
  }

  /** On an accurate acyclic heap, the live objects are exactly the reachable ones. */
  lemma LiveExactlyReachable(h: Heap, owed: multiset<nat>)
    requires Accurate(h, owed) && NoneDying(h) && Acyclic(h)
    ensures forall k: nat :: IsLive(h, k) <==> Reachable(h, owed, k)
  {
    var rank :| RankedBy(h, rank);
    forall k: nat
      ensures IsLive(h, k) <==> Reachable(h, owed, k)
    {
      if IsLive(h, k) {
        LiveIsReachable(h, owed, rank, MaxOf(rank), k);
      }
      if Reachable(h, owed, k) {
        var p :| IsPath(h, owed, p) && p[|p| - 1] == k;
        ReachableIsLive(h, owed, p);
      }
    }
  }

  /** A release keeps an acyclic heap acyclic and a settled heap settled, so what it
      leaves behind is exactly what is still reachable. */
  lemma ReleaseIsExact(h: Heap, after: Heap, owed: multiset<nat>)
    requires NoneDying(h) && Acyclic(h) && Shrunk(h, after) && Accurate(after, owed)
    ensures NoneDying(after) && Acyclic(after)
    ensures forall k: nat :: IsLive(after, k) <==> Reachable(after, owed, k)
  {
    forall k: nat ensures !IsDying(after, k) {
      if k < |h| { assert !IsDying(h, k) && CellShrunk(h[k], after[k]); }
    }
    var rank :| RankedBy(h, rank);
    forall i: nat, k: nat | Edge(after, i, k) && k < |after| ensures rank[k] < rank[i] {
      assert !IsDying(h, i) && CellShrunk(h[i], after[i]);
      assert Edge(h, i, k);
    }
    assert RankedBy(after, rank);
    LiveExactlyReachable(after, owed);
  }
}

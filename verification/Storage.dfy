/**
 The storage that objects own: how much each kind of object asks for, what it means that
 every live object has as much as it needs, and what follows for the heap as a whole.
 */
module Storage {
  import opened Values
  import opened Spans
  import opened Heap
  import Packed

  // ----- what an object asks for -----

  /** Bytes of payload: a text ends with a zero, a program is copied into one block, a
      definition keeps a count and its names, a record one word for each field. */
  function PayloadBytes(m: Packed.Machine, o: Object): nat {
    match o
    case Text(text) => |text| + 1
    case Cells(_) => 0
    case Code(program, _, _, _) => Packed.ProgramBytes(m, program)
    case Native(_, _) => 0
    case RecordDef(name, fieldNames) => 4 + Packed.StringsSize([name] + fieldNames)
    case Record(_, fields) => 4 * |fields|
  }

  /** The span is large enough; a run of cells has exactly one cell for each element. */
  ghost predicate Fits(m: Packed.Machine, o: Object, span: Span) {
    if o.Cells? then span.length == |o.items| else PayloadBytes(m, o) <= span.length
  }

  /** Every live object owns the storage it needs. */
  ghost predicate Sized(m: Packed.Machine, h: Heap) {
    forall i :: 0 <= i < |h| && h[i].Live? ==> Fits(m, h[i].obj, h[i].span)
  }

  // ----- what is free -----

  /** Free object numbers, payload bytes and cells above the highest one in use. */
  datatype Room = Room(numbers: int, payload: int, cells: int)

  ghost predicate Suffices(room: Room, need: Room) {
    room.numbers >= need.numbers && room.payload >= need.payload && room.cells >= need.cells
  }

  /** What one object takes; payload is handed out in whole alignment units. */
  ghost function NeedOf(m: Packed.Machine, alignment: Packed.Positive, o: Object): Room {
    Room(1, Packed.AlignUp(PayloadBytes(m, o), alignment), if o.Cells? then |o.items| else 0)
  }

  ghost function NeedOfAll(m: Packed.Machine, alignment: Packed.Positive, os: seq<Object>): (r: Room)
    ensures r.numbers == |os| && r.payload >= 0 && r.cells >= 0
  {
    if os == [] then Room(0, 0, 0)
    else
      var first, rest := NeedOf(m, alignment, os[0]), NeedOfAll(m, alignment, os[1..]);
      Room(first.numbers + rest.numbers, first.payload + rest.payload, first.cells + rest.cells)
  }

  /** An attempt that needs `need` takes no more than that, and fails only for want of it. */
  ghost predicate Metered(err: Error, before: Room, after: Room, need: Room) {
    && (err == Ok ==>
          after.numbers >= before.numbers - need.numbers && after.payload >= before.payload - need.payload
          && after.cells >= before.cells - need.cells)
    && (err == OutOfMemory ==> before.numbers < need.numbers || before.payload < need.payload)
    && (err == CellspaceFull ==> before.cells < need.cells)
  }

  /** With enough room an attempt does not fail for want of it. */
  lemma EnoughRoom(err: Error, before: Room, after: Room, need: Room)
    requires Metered(err, before, after, need) && Suffices(before, need)
    ensures err != OutOfMemory && err != CellspaceFull
  {
  }

  lemma MeteredFirst(err: Error, before: Room, after: Room, first: Room, need: Room)
    requires Metered(err, before, after, first)
    requires first.numbers <= need.numbers && first.payload <= need.payload && first.cells <= need.cells
    ensures Metered(err, before, after, need)
  {
  }

  lemma MeteredThen(err: Error, before: Room, mid: Room, after: Room, first: Room, second: Room, need: Room)
    requires Metered(Ok, before, mid, first) && Metered(err, mid, after, second)
    requires need == Room(first.numbers + second.numbers, first.payload + second.payload, first.cells + second.cells)
    ensures Metered(err, before, after, need)
  {
  }

  /** A failure stays one, whatever is given back afterwards. */
  lemma MeteredFailed(err: Error, before: Room, after: Room, undone: Room, need: Room)
    requires err != Ok && Metered(err, before, after, need)
    ensures Metered(err, before, undone, need)
  {
  }

  lemma OtherError(err: Error, before: Room, after: Room, need: Room)
    requires err !in {Ok, OutOfMemory, CellspaceFull}
    ensures Metered(err, before, after, need)
  {
  }

  /** What is still needed fits what is left at least as well as everything fitted at first. */
  ghost predicate OnCourse(start: Room, now: Room, total: Room, rest: Room) {
    && now.numbers - rest.numbers >= start.numbers - total.numbers
    && now.payload - rest.payload >= start.payload - total.payload
    && now.cells - rest.cells >= start.cells - total.cells
  }

  lemma OnCourseStart(start: Room, total: Room)
    ensures OnCourse(start, start, total, total)
  {
  }

  lemma OnCourseNext(err: Error, start: Room, now: Room, next: Room, m: Packed.Machine, alignment: Packed.Positive, os: seq<Object>, i: nat)
    requires i < |os| && OnCourse(start, now, NeedOfAll(m, alignment, os), NeedOfAll(m, alignment, os[i..]))
    requires Metered(err, now, next, NeedOf(m, alignment, os[i]))
    ensures err == Ok ==> OnCourse(start, next, NeedOfAll(m, alignment, os), NeedOfAll(m, alignment, os[i + 1..]))
    ensures err != Ok ==> Metered(err, start, next, NeedOfAll(m, alignment, os))
  {
    hide NeedOf;
    assert os[i..][0] == os[i] && os[i..][1..] == os[i + 1..];
  }

  lemma OnCourseEnd(start: Room, now: Room, m: Packed.Machine, alignment: Packed.Positive, os: seq<Object>)
    requires OnCourse(start, now, NeedOfAll(m, alignment, os), NeedOfAll(m, alignment, os[|os|..]))
    ensures Metered(Ok, start, now, NeedOfAll(m, alignment, os))
  {
    assert os[|os|..] == [];
  }

  // ----- the heap as a whole -----

  /** The lengths of all live cells objects together. */
  ghost function CellsHeld(h: Heap): nat {
    if h == [] then 0 else (if h[0].Live? && h[0].obj.Cells? then |h[0].obj.items| else 0) + CellsHeld(h[1..])
  }

  ghost function Lengths(h: Heap, f: Cell -> multiset<Span>): nat {
    if h == [] then 0 else (if f(h[0]) == multiset{} then 0 else SpanOf(h[0]).length) + Lengths(h[1..], f)
  }

  /** Each cell contributes its own span or nothing. */
  ghost predicate OwnSpans(f: Cell -> multiset<Span>) {
    forall c :: f(c) == multiset{} || f(c) == multiset{SpanOf(c)}
  }

  lemma OwnSpan(f: Cell -> multiset<Span>, c: Cell)
    requires OwnSpans(f) && f(c) != multiset{}
    ensures f(c) == multiset{SpanOf(c)}
  {
  }

  lemma NoSpans()
    ensures Total([]) == 0
  {
  }

  lemma TotalRemoved(live: seq<Span>, s: Span) returns (rest: seq<Span>)
    requires s in live
    ensures multiset(rest) == multiset(live) - multiset{s} && Total(rest) == Total(live) - s.length
  {
    var k := IndexOf(live, s);
    Removed(live, k);
    rest := RemoveAt(live, k);
    assert live == live[..k] + ([live[k]] + live[k + 1..]);
    TotalConcat(live[..k], [live[k]] + live[k + 1..]);
    TotalConcat(live[..k], live[k + 1..]);
  }

  /** The storage in use is what the live objects own, object by object. */
  lemma {:induction false} TotalOwned(live: seq<Span>, h: Heap, f: Cell -> multiset<Span>)
    requires OwnSpans(f) && multiset(live) == Sum(f, h)
    ensures Total(live) == Lengths(h, f)
    decreases |h|
  {
    hide OwnSpans, SpanOf, Total;
    if h == [] {
      assert |multiset(live)| == 0;
      NoSpans();
    } else if f(h[0]) == multiset{} {
      assert multiset(live) == Sum(f, h[1..]);
      TotalOwned(live, h[1..], f);
    } else {
      var s := SpanOf(h[0]);
      OwnSpan(f, h[0]);
      assert s in multiset(live);
      var rest := TotalRemoved(live, s);
      assert multiset(rest) == Sum(f, h[1..]);
      TotalOwned(rest, h[1..], f);
    }
  }

  lemma {:induction false} CellsLengths(m: Packed.Machine, h: Heap)
    requires Sized(m, h)
    ensures Lengths(h, CellCells) == CellsHeld(h)
  {
    if h != [] {
      assert forall i :: 0 <= i < |h| - 1 ==> h[1..][i] == h[i + 1];
      CellsLengths(m, h[1..]);
      assert h[0].Live? ==> Fits(m, h[0].obj, h[0].span);
    }
  }

  /** The payload bytes that the live objects need. */
  ghost function BytesNeeded(m: Packed.Machine, h: Heap): nat {
    if h == [] then 0 else (if h[0].Live? then PayloadBytes(m, h[0].obj) else 0) + BytesNeeded(m, h[1..])
  }

  lemma {:induction false} PayloadLengths(m: Packed.Machine, h: Heap)
    requires Sized(m, h)
    ensures BytesNeeded(m, h) <= Lengths(h, CellPayload)
  {
    hide PayloadBytes;
    if h != [] {
      assert forall i :: 0 <= i < |h| - 1 ==> h[1..][i] == h[i + 1];
      PayloadLengths(m, h[1..]);
      FirstBytes(m, h[0]);
      assert h[0].Live? ==> Fits(m, h[0].obj, h[0].span);
    }
  }

  lemma FirstBytes(m: Packed.Machine, c: Cell)
    ensures c.Live? && c.obj.Cells? ==> PayloadBytes(m, c.obj) == 0
  {
  }

  lemma BothOwn()
    ensures OwnSpans(CellCells) && OwnSpans(CellPayload)
  {
  }

  // ----- no two objects overlap -----

  /** The addresses `[a, a + |a|)` and `[b, b + |b|)` have nothing in common. */
  predicate Apart(a: Span, b: Span) { a.length == 0 || b.length == 0 || a.End() <= b.offset || b.End() <= a.offset }

  lemma {:induction false} OrderedApart(live: seq<Span>, from: nat, i: nat, j: nat)
    requires Ordered(live, from) && i < j < |live|
    ensures from <= live[i].offset && 0 < live[i].length && live[i].End() <= live[j].offset
  {
    if i > 0 {
      OrderedApart(live[1..], live[0].End(), i - 1, j - 1);
    } else {
      OrderedAbove(live[1..], live[0].End(), j - 1);
    }
  }

  lemma {:induction false} OrderedAbove(live: seq<Span>, from: nat, j: nat)
    requires Ordered(live, from) && j < |live|
    ensures from <= live[j].offset && 0 < live[j].length
  {
    if j > 0 { OrderedAbove(live[1..], live[0].End(), j - 1); }
  }

  /** An object's span lies inside its store. */
  lemma OwnerInside(live: seq<Span>, from: nat, h: Heap, f: Cell -> multiset<Span>, i: nat)
    requires Ordered(live, from) && multiset(live) == Sum(f, h) && i < |h| && f(h[i]) == multiset{SpanOf(h[i])}
    ensures from <= SpanOf(h[i]).offset && SpanOf(h[i]).End() <= Extent(live, from)
  {
    SumIncludes(f, h, i);
    var s := SpanOf(h[i]);
    assert multiset{s}[s] <= multiset(live)[s];
    assert s in multiset(live);
    var k := IndexOf(live, s);
    ExtentAbove(live, from);
  }

  lemma Places(live: seq<Span>, a: Span, b: Span) returns (i: nat, j: nat)
    requires multiset{a} + multiset{b} <= multiset(live)
    ensures i < |live| && j < |live| && i != j && live[i] == a && live[j] == b
  {
    assert a in multiset(live) && b in multiset(live);
    i := IndexOf(live, a);
    Removed(live, i);
    var rest := RemoveAt(live, i);
    assert multiset(rest) == multiset(live) - multiset{a};
    assert (multiset{a} + multiset{b})[b] <= multiset(live)[b];
    assert b in multiset(rest);
    var k := IndexOf(rest, b);
    j := if k < i then k else k + 1;
  }

  lemma {:induction false} SumIncludesTwo(f: Cell -> multiset<Span>, h: Heap, i: nat, j: nat)
    requires i < j < |h|
    ensures f(h[i]) + f(h[j]) <= Sum(f, h)
  {
    if i > 0 {
      SumIncludesTwo(f, h[1..], i - 1, j - 1);
    } else {
      SumIncludes(f, h[1..], j - 1);
    }
  }

  /** Two objects that own spans of the same store own different addresses. */
  lemma OwnersApart(live: seq<Span>, from: nat, h: Heap, f: Cell -> multiset<Span>, i: nat, j: nat)
    requires Ordered(live, from) && multiset(live) == Sum(f, h) && i < j < |h|
    requires f(h[i]) == multiset{SpanOf(h[i])} && f(h[j]) == multiset{SpanOf(h[j])}
    ensures Apart(SpanOf(h[i]), SpanOf(h[j]))
  {
    SumIncludesTwo(f, h, i, j);
    var a, b := Places(live, SpanOf(h[i]), SpanOf(h[j]));
    if a < b {
      OrderedApart(live, from, a, b);
    } else {
      OrderedApart(live, from, b, a);
    }
  }
}

/**
 What a stack of evaluator frames still has to do.

 A `Config` is an evaluator state with every reference given by creation number.
 `Resume` says what the whole stack will produce, by letting the interpreter finish
 the top frame and handing its value to the place where the frame was told to put it.
 The evaluator is correct because none of its steps changes what `Resume` predicts.
 */
module Continuation {
  import opened Ir
  import opened Values
  import opened Interp

  /** Where a frame delivers its value. */
  datatype Loc = ToResult | ToScratch(i: nat) | ToArena(i: nat)

  datatype Frame = Frame(
    program: Program, localsBase: nat, localCount: nat, node: nat, out: Loc,
    phase: nat, index: nat, epoch: nat,
    callee: Callee, bufferBase: nat, bufferCount: nat)

  /** Three scratch values per frame, kept side by side in `scratch`. */
  datatype Config = Config(
    frames: seq<Frame>, scratch: seq<Value>, arena: seq<Value>, result: Value, world: World)

  const SCRATCH: nat := 3

  function Top(c: Config): Frame
    requires c.frames != []
  {
    c.frames[|c.frames| - 1]
  }

  function Slice(a: seq<Value>, base: nat, count: nat): seq<Value> {
    if base + count <= |a| then a[base..base + count] else []
  }

  function SetSlice(a: seq<Value>, base: nat, vs: seq<Value>): seq<Value> {
    if base + |vs| <= |a| then a[..base] + vs + a[base + |vs|..] else a
  }

  function Get(c: Config, loc: Loc): Value {
    match loc
    case ToResult => c.result
    case ToScratch(i) => if i < |c.scratch| then c.scratch[i] else Nil
    case ToArena(i) => if i < |c.arena| then c.arena[i] else Nil
  }

  function Put(c: Config, loc: Loc, v: Value): Config {
    match loc
    case ToResult => c.(result := v)
    case ToScratch(i) => if i < |c.scratch| then c.(scratch := c.scratch[i := v]) else c
    case ToArena(i) => if i < |c.arena| then c.(arena := c.arena[i := v]) else c
  }

  function LocalsOf(c: Config, f: Frame): seq<Value> { Slice(c.arena, f.localsBase, f.localCount) }

  function BufferOf(c: Config, f: Frame): seq<Value> { Slice(c.arena, f.bufferBase, f.bufferCount) }

  function ScratchOf(c: Config, k: nat): Value
    requires c.frames != []
  {
    Get(c, ToScratch(SCRATCH * (|c.frames| - 1) + k))
  }

  /** Whether the frame is waiting to hand on a value its child delivers for it. */
  predicate Returning(f: Frame) {
    f.node < |f.program.nodes| &&
    match f.program.nodes[f.node]
    case If(_, _, _, _) => f.phase >= 2
    case Seq(_, _) => f.phase >= 2
    case Call(_, _, _, _) => f.phase >= 3
    case _ => false
  }

  /** What the interpreter still has to do for the top frame. */
  ghost function TopRest(c: Config, g: nat): Outcome
    requires c.frames != []
  {
    var f := Top(c);
    var p, ls, w := f.program, LocalsOf(c, f), c.world;
    if f.phase == 0 && !(f.node < |p.nodes| && p.nodes[f.node].Seq?) then Eval(p, f.node, ls, w, g)
    else if f.node >= |p.nodes| then (if g == 0 then OutOfGas else Stop(Malformed, w))
    else if Returning(f) then Return(Get(c, f.out), ls, w, g)
    else match p.nodes[f.node]
    case WriteLocal(i, _) => WriteLocalEnd(i, ScratchOf(c, 0), ls, w, g)
    case WriteSlot(name, _, requireExisting) => End(WriteSlotIn(w, name, ScratchOf(c, 0), requireExisting), ls, w, g)
    case WriteSlotFallback(name, fallback, _, requireExisting) =>
      End(WriteSlotFallbackIn(w, name, fallback, ScratchOf(c, 0), requireExisting), ls, w, g)
    case ReadIndex(_, index) =>
      if f.phase == 1 then ReadIndexMid(p, index, ScratchOf(c, 0), ls, w, g)
      else End(ReadIndexIn(w, ScratchOf(c, 0), ScratchOf(c, 1)), ls, w, g)
    case WriteIndex(_, index, value) =>
      if f.phase == 1 then WriteIndexMid(p, index, value, ScratchOf(c, 0), ls, w, g)
      else if f.phase == 2 then WriteIndexLate(p, value, ScratchOf(c, 0), ScratchOf(c, 1), ls, w, g)
      else End(WriteIndexIn(w, ScratchOf(c, 0), ScratchOf(c, 1), ScratchOf(c, 2)), ls, w, g)
    case ReadField(_, name) => End(ReadFieldIn(w, ScratchOf(c, 0), name), ls, w, g)
    case WriteField(_, name, value) =>
      if f.phase == 1 then WriteFieldMid(p, name, value, ScratchOf(c, 0), ls, w, g)
      else End(WriteFieldIn(w, ScratchOf(c, 0), name, ScratchOf(c, 1)), ls, w, g)
    case Call(_, _, first, count) =>
      if f.phase == 1 then CallResolved(p, first, count, ScratchOf(c, 0), ls, w, g)
      else Arguments(p, first, count, f.callee, f.index, ScratchOf(c, 0), BufferOf(c, f), ls, w, g)
    case If(_, t, e, hasElse) => IfBranch(p, t, e, hasElse, ScratchOf(c, 0), ls, w, g)
    case While(_, body) =>
      if f.phase == 1 then WhileTest(p, f.node, body, ScratchOf(c, 0), ls, w, g)
      else WhileNext(p, f.node, ls, w, g)
    case Seq(first, count) =>
      if f.phase == 0 then SeqFrom(p, first, count, f.index, ls, w, g)
      else SeqNext(p, first, count, f.index, ls, w, g)
    case _ => Eval(p, f.node, ls, w, g)
  }

  /** Removes the top frame with its scratch values and its buffer. */
  function DropTop(c: Config): Config
    requires c.frames != []
  {
    var n := |c.frames| - 1;
    c.(frames := c.frames[..n],
       scratch := if SCRATCH * n <= |c.scratch| then c.scratch[..SCRATCH * n] else c.scratch,
       arena := if Top(c).bufferCount > 0 && Top(c).bufferBase <= |c.arena|
                then c.arena[..Top(c).bufferBase] else c.arena)
  }

  function Updated(c: Config, ls: seq<Value>, w: World): Config
    requires c.frames != []
  {
    c.(arena := SetSlice(c.arena, Top(c).localsBase, ls), world := w)
  }

  /** The top frame has finished with `v`. */
  function Completed(c: Config, ls: seq<Value>, w: World, v: Value): Config
    requires c.frames != []
  {
    Put(DropTop(Updated(c, ls, w)), Top(c).out, v)
  }

  /** What the whole stack will produce. */
  ghost function Resume(c: Config, g: nat): Outcome
    decreases |c.frames|
  {
    if c.frames == [] then Done(c.result, c.arena, c.world, g)
    else match TopRest(c, g)
         case Done(v, ls, w, g1) => Resume(Completed(c, ls, w, v), g1)
         case o => o
  }

  // ----- the shape of a stack -----

  /** The arena in use by `frames`, the first of which was entered at `base`. */
  function ArenaTop(frames: seq<Frame>, base: nat): nat {
    if frames == [] then base else ArenaTop(frames[..|frames| - 1], base) + frames[|frames| - 1].bufferCount
  }

  /** A frame's locals and delivery place lie below its buffer. */
  predicate FrameOk(f: Frame, depth: nat, start: nat, epoch: nat) {
    && f.epoch == epoch && (depth == 0 ==> f.out == ToResult)
    && f.localsBase + f.localCount <= start
    && f.bufferBase <= start
    && (f.bufferCount > 0 ==> f.bufferBase == start)
    && match f.out
       case ToResult => true
       case ToScratch(k) => k < SCRATCH * depth
       case ToArena(k) => k < start
  }

  /** The frame is still filling its argument buffer. */
  predicate Filling(f: Frame) {
    f.node < |f.program.nodes| && f.program.nodes[f.node].Call? && f.phase == 2
  }

  predicate Apart(f: Frame, base: nat, count: nat) {
    count > 0 ==>
    && (f.out.ToArena? ==> f.out.i < base || base + count <= f.out.i)
    && (Filling(f) && f.bufferCount > 0 ==> base + count <= f.bufferBase || f.bufferBase + f.bufferCount <= base)
  }

  /** No frame delivers into this range of the arena or is filling it with arguments. */
  predicate Clear(frames: seq<Frame>, base: nat, count: nat) {
    forall f | f in frames :: Apart(f, base, count)
  }

  predicate StackOk(frames: seq<Frame>, base: nat, epoch: nat) {
    frames == [] ||
    var n := |frames| - 1;
    && StackOk(frames[..n], base, epoch)
    && FrameOk(frames[n], n, ArenaTop(frames[..n], base), epoch)
    && Clear(frames, frames[n].localsBase, frames[n].localCount)
  }

  /** Where the child of frame number `depth` delivers. */
  function Awaited(f: Frame, depth: nat): Loc
    requires f.phase > 0
  {
    if Returning(f) then f.out
    else if Filling(f) then ToArena(f.bufferBase + (if f.index > 0 then f.index - 1 else 0))
    else ToScratch(SCRATCH * depth + f.phase - 1)
  }

  /** `child` is what frame number `depth` is waiting for. */
  predicate Link(f: Frame, depth: nat, child: Frame) {
    && 0 < f.phase <= 3 && child.out == Awaited(f, depth)
    && (Filling(f) ==> 0 < f.index <= f.bufferCount)
  }

  predicate Linked(frames: seq<Frame>) {
    forall i | 0 <= i < |frames| - 1 :: Link(frames[i], i, frames[i + 1])
  }

  predicate PhaseOk(f: Frame) {
    f.node < |f.program.nodes| ==>
      var node := f.program.nodes[f.node];
      (node.If? || node.While? || node.Seq? ==> f.phase <= 2) && (node.Call? ==> f.phase <= 3)
  }

  /** Scratch places that have not been filled yet are nil. */
  predicate ScratchRule(f: Frame, scratch: seq<Value>, depth: nat) {
    var b := SCRATCH * depth;
    b + SCRATCH <= |scratch| && PhaseOk(f) &&
    (f.phase == 0 ==> scratch[b] == Nil) &&
    (f.phase <= 1 ==> scratch[b + 1] == Nil) &&
    (f.phase <= 2 ==> scratch[b + 2] == Nil) &&
    (f.phase == 2 && f.node < |f.program.nodes| && f.program.nodes[f.node].While? ==> scratch[b] == Nil)
  }

  /** A frame has a buffer from the second phase of a call on. */
  predicate InCall(f: Frame) { f.node < |f.program.nodes| && f.program.nodes[f.node].Call? && f.phase >= 2 }

  /** Buffer places that have not been filled yet are nil. */
  predicate BufferRule(f: Frame, arena: seq<Value>) {
    (f.bufferCount > 0 ==> InCall(f)) &&
    (Filling(f) ==>
      forall k | f.bufferBase + f.index <= k < f.bufferBase + f.bufferCount && k < |arena| :: arena[k] == Nil)
  }

  /** Nothing has been delivered to a frame's place, unless the top frame is handing on
      what was delivered to that very place. */
  predicate OutRule(c: Config, i: nat)
    requires i < |c.frames|
  {
    Get(c, c.frames[i].out) == Nil || (Returning(Top(c)) && c.frames[i].out == Top(c).out)
  }

  ghost predicate Shape(c: Config, base: nat, epoch: nat) {
    && StackOk(c.frames, base, epoch)
    && Linked(c.frames)
    && |c.scratch| == SCRATCH * |c.frames|
    && |c.arena| == ArenaTop(c.frames, base)
    && (forall i | 0 <= i < |c.frames| :: ScratchRule(c.frames[i], c.scratch, i))
    && (forall i | 0 <= i < |c.frames| :: BufferRule(c.frames[i], c.arena))
    && (forall i | 0 <= i < |c.frames| :: OutRule(c, i))
  }

  // ----- facts about stacks -----

  lemma {:induction false} StackBounds(frames: seq<Frame>, base: nat, epoch: nat)
    requires StackOk(frames, base, epoch)
    ensures forall f | f in frames ::
      f.epoch == epoch && (f.out.ToScratch? ==> f.out.i < SCRATCH * |frames|)
      && (f.out.ToArena? ==> f.out.i < ArenaTop(frames, base))
    ensures base <= ArenaTop(frames, base)
  {
    if frames != [] {
      var n := |frames| - 1;
      StackBounds(frames[..n], base, epoch);
      assert frames == frames[..n] + [frames[n]];
    }
  }

  /** Earlier frames deliver below the top frame's own scratch values and buffer. */
  lemma OutsBelow(frames: seq<Frame>, base: nat, epoch: nat)
    requires StackOk(frames, base, epoch) && frames != []
    ensures var n := |frames| - 1;
            forall f | f in frames ::
              (f.out.ToScratch? ==> f.out.i < SCRATCH * n)
              && (f.out.ToArena? ==> f.out.i < ArenaTop(frames[..n], base))
  {
    var n := |frames| - 1;
    StackBounds(frames[..n], base, epoch);
    assert frames == frames[..n] + [frames[n]];
  }

  // ----- pushing -----

  /** Replaces the top frame by `f` and enters `child`. */
  function Pushed(c: Config, f: Frame, child: Frame): Config
    requires c.frames != []
  {
    c.(frames := c.frames[..|c.frames| - 1] + [f, child], scratch := c.scratch + [Nil, Nil, Nil])
  }

  function WithTop(c: Config, f: Frame): Config
    requires c.frames != []
  {
    c.(frames := c.frames[..|c.frames| - 1] + [f])
  }

  /** Only the frame's progress may differ. */
  predicate SameSetting(f: Frame, f': Frame) {
    && f'.program == f.program && f'.localsBase == f.localsBase && f'.localCount == f.localCount
    && f'.node == f.node && f'.out == f.out && f'.epoch == f.epoch
    && f'.bufferBase == f.bufferBase && f'.bufferCount == f.bufferCount
  }

  predicate Fresh(child: Frame) { child.phase == 0 && child.index == 0 && child.bufferCount == 0 }

  lemma Snoc(init: seq<Frame>, f: Frame, base: nat, epoch: nat)
    ensures ArenaTop(init + [f], base) == ArenaTop(init, base) + f.bufferCount
    ensures StackOk(init + [f], base, epoch) <==>
      StackOk(init, base, epoch) && FrameOk(f, |init|, ArenaTop(init, base), epoch)
      && Clear(init + [f], f.localsBase, f.localCount)
  {
    assert (init + [f])[..|init|] == init;
  }

  lemma WithTopStack(frames: seq<Frame>, f: Frame, base: nat, epoch: nat)
    requires StackOk(frames, base, epoch) && frames != [] && SameSetting(frames[|frames| - 1], f)
    ensures StackOk(frames[..|frames| - 1] + [f], base, epoch)
    ensures ArenaTop(frames[..|frames| - 1] + [f], base) == ArenaTop(frames, base)
  {
    hide ArenaTop, StackOk;
    var init, last := frames[..|frames| - 1], frames[|frames| - 1];
    assert frames == init + [last];
    Snoc(init, last, base, epoch);
    Snoc(init, f, base, epoch);
    forall h | h in init + [f] ensures Apart(h, f.localsBase, f.localCount) {
      assert h in init ==> h in init + [last];
      assert last in init + [last] && Apart(last, f.localsBase, f.localCount);
    }
  }

  lemma ShapeWithTop(c: Config, f: Frame, base: nat, epoch: nat)
    requires Shape(c, base, epoch) && c.frames != []
    requires SameSetting(Top(c), f) && !Returning(Top(c))
    requires ScratchRule(f, c.scratch, |c.frames| - 1) && BufferRule(f, c.arena)
    ensures Shape(WithTop(c, f), base, epoch)
  {
    hide StackOk, ArenaTop;
    var n := |c.frames| - 1;
    var d := WithTop(c, f);
    WithTopStack(c.frames, f, base, epoch);
    forall i | 0 <= i <= n ensures OutRule(d, i) { assert OutRule(c, i) && d.frames[i].out == c.frames[i].out; }
    assert forall i | 0 <= i < n :: d.frames[i] == c.frames[i];
    forall i | 0 <= i <= n ensures ScratchRule(d.frames[i], d.scratch, i) && BufferRule(d.frames[i], d.arena) {
      assert ScratchRule(c.frames[i], c.scratch, i) && BufferRule(c.frames[i], c.arena);
    }
    forall i | 0 <= i < |d.frames| - 1 ensures Link(d.frames[i], i, d.frames[i + 1]) {
      assert Link(c.frames[i], i, c.frames[i + 1]);
    }
  }

  lemma PushStack(frames: seq<Frame>, child: Frame, base: nat, epoch: nat)
    requires StackOk(frames, base, epoch) && frames != []
    requires FrameOk(child, |frames|, ArenaTop(frames, base), epoch) && Fresh(child)
    requires Clear(frames + [child], child.localsBase, child.localCount)
    ensures StackOk(frames + [child], base, epoch)
    ensures ArenaTop(frames + [child], base) == ArenaTop(frames, base)
  {
    assert (frames + [child])[..|frames|] == frames;
  }

  lemma ShapePush(c: Config, f: Frame, child: Frame, base: nat, epoch: nat)
    requires Shape(c, base, epoch) && c.frames != []
    requires SameSetting(Top(c), f) && !Returning(Top(c))
    requires ScratchRule(f, c.scratch, |c.frames| - 1) && BufferRule(f, c.arena)
    requires Fresh(child) && Link(f, |c.frames| - 1, child) && Get(c, child.out) == Nil
    requires FrameOk(child, |c.frames|, |c.arena|, epoch)
    requires Clear(WithTop(c, f).frames + [child], child.localsBase, child.localCount)
    ensures Shape(Pushed(c, f, child), base, epoch)
  {
    hide StackOk, ArenaTop, Clear, FrameOk, ScratchRule, BufferRule, OutRule, Link, Get;
    var d, e := Pushed(c, f, child), WithTop(c, f);
    ShapeWithTopPending(c, f, base, epoch);
    assert d.frames == e.frames + [child];
    PushStack(e.frames, child, base, epoch);
    forall i | 0 <= i < |d.frames| - 1 ensures Link(d.frames[i], i, d.frames[i + 1]) {
      PushedLink(c, f, child, base, epoch, i);
    }
    forall i | 0 <= i < |d.frames| ensures ScratchRule(d.frames[i], d.scratch, i) && BufferRule(d.frames[i], d.arena) {
      if i < |e.frames| {
        ScratchMore(d.frames[i], e.scratch, d.scratch, i);
      } else {
        ScratchFresh(child, e.scratch, i);
      }
    }
    forall i | 0 <= i < |d.frames| ensures OutRule(d, i) { PushedOut(c, f, child, base, epoch, i); }
  }

  lemma PushedLink(c: Config, f: Frame, child: Frame, base: nat, epoch: nat, i: nat)
    requires Shape(c, base, epoch) && c.frames != [] && i < |c.frames|
    requires SameSetting(Top(c), f) && Link(f, |c.frames| - 1, child)
    ensures var d := Pushed(c, f, child); Link(d.frames[i], i, d.frames[i + 1])
  {
    hide StackOk, ArenaTop, ScratchRule, BufferRule, OutRule, Returning, Filling;
    if i < |c.frames| - 1 {
      assert Link(c.frames[i], i, c.frames[i + 1]);
    }
  }

  lemma PushedOut(c: Config, f: Frame, child: Frame, base: nat, epoch: nat, i: nat)
    requires Shape(c, base, epoch) && c.frames != [] && i <= |c.frames|
    requires SameSetting(Top(c), f) && !Returning(Top(c)) && Get(c, child.out) == Nil
    ensures OutRule(Pushed(c, f, child), i)
  {
    hide StackOk, ArenaTop, Linked, ScratchRule, BufferRule, Returning;
    if i < |c.frames| {
      assert OutRule(c, i);
    }
  }

  lemma ScratchMore(f: Frame, scratch: seq<Value>, more: seq<Value>, depth: nat)
    requires ScratchRule(f, scratch, depth) && scratch <= more
    ensures ScratchRule(f, more, depth)
  {
    hide PhaseOk;
  }

  lemma ScratchFresh(child: Frame, scratch: seq<Value>, depth: nat)
    requires Fresh(child) && |scratch| == SCRATCH * depth
    ensures ScratchRule(child, scratch + [Nil, Nil, Nil], depth) && forall arena :: BufferRule(child, arena)
  {
  }

  /** A child that shares the locals of the top frame. */
  lemma ClearShared(frames: seq<Frame>, child: Frame, base: nat, epoch: nat)
    requires StackOk(frames, base, epoch) && frames != [] && Fresh(child)
    requires var f := frames[|frames| - 1];
      child.localsBase == f.localsBase && child.localCount == f.localCount
    requires child.out.ToArena? ==> var f := frames[|frames| - 1];
      child.out == f.out || f.localsBase + f.localCount <= child.out.i
    ensures Clear(frames + [child], child.localsBase, child.localCount)
  {
    var f := frames[|frames| - 1];
    assert Clear(frames, f.localsBase, f.localCount) && Apart(f, f.localsBase, f.localCount);
    forall h | h in frames + [child] ensures Apart(h, child.localsBase, child.localCount) {
      if h in frames { assert Apart(h, f.localsBase, f.localCount); }
    }
  }

  lemma {:induction false} BuffersBelow(frames: seq<Frame>, base: nat, epoch: nat)
    requires StackOk(frames, base, epoch)
    ensures forall f | f in frames && f.bufferCount > 0 :: f.bufferBase + f.bufferCount <= ArenaTop(frames, base)
  {
    if frames != [] {
      var n := |frames| - 1;
      BuffersBelow(frames[..n], base, epoch);
      assert frames == frames[..n] + [frames[n]];
    }
  }

  /** A child whose locals are the completed buffer of the top frame. */
  lemma ClearBuffer(frames: seq<Frame>, child: Frame, base: nat, epoch: nat)
    requires StackOk(frames, base, epoch) && frames != [] && Fresh(child)
    requires var f := frames[|frames| - 1];
      child.localsBase == f.bufferBase && child.localCount == f.bufferCount && child.out == f.out && !Filling(f)
    ensures Clear(frames + [child], child.localsBase, child.localCount)
  {
    var n := |frames| - 1;
    OutsBelow(frames, base, epoch);
    BuffersBelow(frames[..n], base, epoch);
    forall h | h in frames + [child] ensures Apart(h, child.localsBase, child.localCount) {
      assert frames == frames[..n] + [frames[n]];
      assert h == child || h == frames[n] || h in frames[..n];
      assert frames[n] in frames;
    }
  }

  /** As `ShapeWithTop`, without the rules about delivery places and links. */
  lemma ShapeWithTopPending(c: Config, f: Frame, base: nat, epoch: nat)
    requires Shape(c, base, epoch) && c.frames != [] && SameSetting(Top(c), f)
    requires ScratchRule(f, c.scratch, |c.frames| - 1) && BufferRule(f, c.arena)
    ensures var e := WithTop(c, f);
      && StackOk(e.frames, base, epoch) && |e.arena| == ArenaTop(e.frames, base)
      && (forall i | 0 <= i < |e.frames| :: ScratchRule(e.frames[i], e.scratch, i) && BufferRule(e.frames[i], e.arena))
  {
    WithTopStack(c.frames, f, base, epoch);
    var e := WithTop(c, f);
    forall i | 0 <= i < |e.frames| ensures ScratchRule(e.frames[i], e.scratch, i) && BufferRule(e.frames[i], e.arena) {
      assert ScratchRule(c.frames[i], c.scratch, i) && BufferRule(c.frames[i], c.arena);
    }
  }

  // ----- completing -----

  lemma GetPut(c: Config, loc: Loc, other: Loc, v: Value)
    ensures other != loc ==> Get(Put(c, loc, v), other) == Get(c, other)
    ensures Get(Put(c, loc, v), loc) in {v, Get(c, loc)}
  {
  }

  /** Storing locals disturbs neither a pending delivery nor an unfilled buffer place. */
  lemma ApartKept(c: Config, f: Frame, base: nat, vs: seq<Value>)
    requires Apart(f, base, |vs|)
    ensures var d := c.(arena := SetSlice(c.arena, base, vs));
      && Get(d, f.out) == Get(c, f.out)
      && (BufferRule(f, c.arena) ==> BufferRule(f, d.arena))
  {
  }

  lemma ShapeStored(c: Config, vs: seq<Value>, w: World, base: nat, epoch: nat)
    requires Shape(c, base, epoch) && c.frames != [] && |vs| == Top(c).localCount
    ensures Shape(Updated(c, vs, w), base, epoch)
  {
    var d, f := Updated(c, vs, w), Top(c);
    assert Clear(c.frames, f.localsBase, f.localCount);
    forall i | 0 <= i < |c.frames|
      ensures BufferRule(d.frames[i], d.arena) && OutRule(d, i)
    {
      assert BufferRule(c.frames[i], c.arena) && OutRule(c, i);
      assert Apart(c.frames[i], f.localsBase, f.localCount);
      ApartKept(c, c.frames[i], f.localsBase, vs);
    }
    forall i | 0 <= i < |c.frames| ensures ScratchRule(d.frames[i], d.scratch, i) {
      assert ScratchRule(c.frames[i], c.scratch, i);
    }
  }

  /** The frame below the top one, when the top one delivers into its scratch or buffer,
      is the only one that waits for that place. */
  lemma {:induction false} DeliveryPlace(c: Config, i: nat, base: nat, epoch: nat)
    requires Shape(c, base, epoch) && |c.frames| > 1 && i < |c.frames| - 1
    requires c.frames[i].out == Top(c).out
    ensures var below := c.frames[|c.frames| - 2];
      Returning(below) && below.out == Top(c).out
  {
    var n := |c.frames| - 2;
    var below := c.frames[n];
    assert Link(below, n, Top(c));
    var init := c.frames[..n + 1];
    assert StackOk(init, base, epoch) && init[n] == below;
    OutsBelow(init, base, epoch);
    assert c.frames[i] == init[i] && init[i] in init;
    BufferBase(c, n, base, epoch);
  }

  lemma BufferBase(c: Config, n: nat, base: nat, epoch: nat)
    requires Shape(c, base, epoch) && n < |c.frames|
    ensures StackOk(c.frames[..n], base, epoch)
    ensures c.frames[n].bufferCount > 0 ==> c.frames[n].bufferBase == ArenaTop(c.frames[..n], base)
  {
    PrefixOk(c.frames, n + 1, base, epoch);
    assert c.frames[..n + 1][..n] == c.frames[..n];
  }

  lemma {:induction false} PrefixOk(frames: seq<Frame>, n: nat, base: nat, epoch: nat)
    requires StackOk(frames, base, epoch) && n <= |frames|
    ensures StackOk(frames[..n], base, epoch)
    ensures ArenaTop(frames[..n], base) <= ArenaTop(frames, base)
  {
    if n < |frames| {
      var m := |frames| - 1;
      PrefixOk(frames[..m], n, base, epoch);
      assert frames[..m][..n] == frames[..n];
    } else {
      assert frames[..n] == frames;
    }
  }

  /** A pending delivery into scratch goes to the place its owner is waiting for. */
  lemma {:induction false} ScratchDelivery(frames: seq<Frame>, m: nat, i: nat, base: nat, epoch: nat)
    requires StackOk(frames, base, epoch) && Linked(frames)
    requires i < m < |frames| && frames[m].out.ToScratch?
    ensures SCRATCH * i <= frames[m].out.i < SCRATCH * i + SCRATCH ==>
              frames[m].out.i == SCRATCH * i + frames[i].phase - 1 && !Returning(frames[i])
  {
    var f, k := frames[m - 1], frames[m].out.i;
    assert Link(f, m - 1, frames[m]);
    if Returning(f) {
      PrefixOk(frames, m, base, epoch);
      OutsBelow(frames[..m], base, epoch);
      assert f == frames[..m][m - 1] && f in frames[..m];
      if i < m - 1 { ScratchDelivery(frames, m - 1, i, base, epoch); }
    }
  }

  /** A pending delivery into the arena stays clear of places that must still be nil. */
  lemma {:induction false} ArenaDelivery(frames: seq<Frame>, m: nat, i: nat, base: nat, epoch: nat)
    requires StackOk(frames, base, epoch) && Linked(frames)
    requires i < m < |frames| && frames[m].out.ToArena? && Filling(frames[i])
    ensures var f := frames[i];
      frames[m].out.i < f.bufferBase + f.index || f.bufferBase + f.bufferCount <= frames[m].out.i
  {
    var f, k := frames[m - 1], frames[m].out.i;
    assert Link(f, m - 1, frames[m]) && Link(frames[i], i, frames[i + 1]);
    if Returning(f) {
      if i < m - 1 { ArenaDelivery(frames, m - 1, i, base, epoch); }
    } else if i < m - 1 {
      PrefixOk(frames, m, base, epoch);
      var init := frames[..m];
      PrefixOk(init, m - 1, base, epoch);
      assert init[..m - 1] == frames[..m - 1] && init[m - 1] == f;
      BuffersBelow(frames[..m - 1], base, epoch);
      assert frames[..m - 1][i] == frames[i] && frames[i] in frames[..m - 1];
    }
  }

  lemma ScratchDelivered(c: Config, v: Value, base: nat, epoch: nat)
    requires Shape(c, base, epoch) && c.frames != []
    ensures var d := Put(DropTop(c), Top(c).out, v);
      forall i | 0 <= i < |d.frames| :: ScratchRule(d.frames[i], d.scratch, i)
  {
    hide StackOk, ArenaTop, Clear, Awaited, Filling;
    var n, f := |c.frames| - 1, Top(c);
    var d := Put(DropTop(c), f.out, v);
    DroppedSize(c, base, epoch);
    forall i | 0 <= i < n ensures ScratchRule(d.frames[i], d.scratch, i) {
      assert ScratchRule(c.frames[i], c.scratch, i);
      if f.out.ToScratch? { ScratchDelivery(c.frames, n, i, base, epoch); }
      assert Link(c.frames[i], i, c.frames[i + 1]);
    }
  }

  lemma BufferDelivered(c: Config, v: Value, base: nat, epoch: nat)
    requires Shape(c, base, epoch) && c.frames != []
    ensures var d := Put(DropTop(c), Top(c).out, v);
      forall i | 0 <= i < |d.frames| :: BufferRule(d.frames[i], d.arena)
  {
    hide StackOk, ArenaTop, Clear, Awaited, Returning;
    var n, f := |c.frames| - 1, Top(c);
    var d := Put(DropTop(c), f.out, v);
    DroppedSize(c, base, epoch);
    forall i | 0 <= i < n ensures BufferRule(d.frames[i], d.arena) {
      assert BufferRule(c.frames[i], c.arena);
      if f.out.ToArena? && Filling(c.frames[i]) { ArenaDelivery(c.frames, n, i, base, epoch); }
    }
  }

  /** Dropping the top frame empties places but changes none. */
  lemma GetDropped(c: Config, loc: Loc, base: nat, epoch: nat)
    requires Shape(c, base, epoch) && c.frames != []
    ensures Get(DropTop(c), loc) in {Nil, Get(c, loc)}
  {
    hide StackOk, ArenaTop, Linked, ScratchRule, BufferRule, OutRule;
    DroppedSize(c, base, epoch);
  }

  lemma OutDeliveredAt(c: Config, v: Value, i: nat, base: nat, epoch: nat)
    requires Shape(c, base, epoch) && i < |c.frames| - 1
    ensures i < |Put(DropTop(c), Top(c).out, v).frames| && OutRule(Put(DropTop(c), Top(c).out, v), i)
  {
    hide Shape, Get, Returning;
    var out := c.frames[i].out;
    assert OutRule(c, i) by { OutNow(c, i, base, epoch); }
    if out == Top(c).out {
      DeliveryPlace(c, i, base, epoch);
    } else {
      GetDropped(c, out, base, epoch);
      GetPut(DropTop(c), Top(c).out, out, v);
    }
  }

  lemma OutNow(c: Config, i: nat, base: nat, epoch: nat)
    requires Shape(c, base, epoch) && i < |c.frames|
    ensures OutRule(c, i)
  {
    hide StackOk, ArenaTop, Linked, ScratchRule, BufferRule, OutRule;
  }

  lemma OutDelivered(c: Config, v: Value, base: nat, epoch: nat)
    requires Shape(c, base, epoch) && c.frames != []
    ensures var d := Put(DropTop(c), Top(c).out, v);
      forall i | 0 <= i < |d.frames| :: OutRule(d, i)
  {
    hide Shape, OutRule;
    var d := Put(DropTop(c), Top(c).out, v);
    forall i | 0 <= i < |d.frames| ensures OutRule(d, i) {
      OutDeliveredAt(c, v, i, base, epoch);
    }
  }

  lemma ShapeDelivered(c: Config, v: Value, base: nat, epoch: nat)
    requires Shape(c, base, epoch) && c.frames != []
    ensures Shape(Put(DropTop(c), Top(c).out, v), base, epoch)
  {
    DroppedSize(c, base, epoch);
    ScratchDelivered(c, v, base, epoch);
    BufferDelivered(c, v, base, epoch);
    OutDelivered(c, v, base, epoch);
    hide StackOk, ArenaTop, ScratchRule, BufferRule, OutRule, Link;
    var d := Put(DropTop(c), Top(c).out, v);
    forall i | 0 <= i < |d.frames| - 1 ensures Link(d.frames[i], i, d.frames[i + 1]) {
      assert Link(c.frames[i], i, c.frames[i + 1]);
    }
  }

  lemma DroppedSize(c: Config, base: nat, epoch: nat)
    requires Shape(c, base, epoch) && c.frames != []
    ensures var d := DropTop(c);
      && |d.scratch| == SCRATCH * |d.frames|
      && |d.arena| == ArenaTop(d.frames, base)
      && StackOk(d.frames, base, epoch)
      && d.scratch == c.scratch[..|d.scratch|] && d.arena == c.arena[..|d.arena|]
  {
  }

  lemma ShapeCompleted(c: Config, ls: seq<Value>, w: World, v: Value, base: nat, epoch: nat)
    requires Shape(c, base, epoch) && c.frames != [] && |ls| == Top(c).localCount
    requires Get(c, Top(c).out) == Nil || (Returning(Top(c)) && Get(c, Top(c).out) == v)
    ensures Shape(Completed(c, ls, w, v), base, epoch)
  {
    ShapeStored(c, ls, w, base, epoch);
    var f := Top(c);
    assert Clear(c.frames, f.localsBase, f.localCount) && f in c.frames;
    ApartKept(c, f, f.localsBase, ls);
    ShapeDelivered(Updated(c, ls, w), v, base, epoch);
  }
}

/**
 Each turn of the evaluator loop, as a change of configuration that leaves the
 prediction of `Resume` as it was, one unit of gas later.
 */
module Steps {
  import opened Ir
  import opened Values
  import opened Interp
  import opened Continuation

  function Child(f: Frame, node: nat, out: Loc): Frame {
    Frame(f.program, f.localsBase, f.localCount, node, out, 0, 0, f.epoch, NoCallee, 0, 0)
  }

  function BodyFrame(f: Frame, program: Program, body: nat): Frame {
    Frame(program, f.bufferBase, f.bufferCount, body, f.out, 0, 0, f.epoch, NoCallee, 0, 0)
  }

  function ScratchLoc(c: Config, k: nat): Loc
    requires c.frames != []
  {
    ToScratch(SCRATCH * (|c.frames| - 1) + k)
  }

  /** The parent's configuration once the child has delivered `v`. */
  function Delivered(c: Config, child: Frame, ls: seq<Value>, w: World, v: Value): Config {
    Put(c.(arena := SetSlice(c.arena, child.localsBase, ls), world := w), child.out, v)
  }

  function ChildOutcome(c: Config, child: Frame, g: nat): Outcome {
    Eval(child.program, child.node, LocalsOf(c, child), c.world, g)
  }

  /** What becomes of the stack after the child ended with `o`. */
  ghost function AfterChild(c: Config, f: Frame, child: Frame, o: Outcome): Outcome
    requires c.frames != []
  {
    if o.Done? then Resume(Delivered(WithTop(c, f), child, o.locals, o.world, o.value), o.gas) else o
  }

  lemma ResumePushed(c: Config, f: Frame, child: Frame, g: nat)
    requires c.frames != [] && |c.scratch| == SCRATCH * |c.frames| && Fresh(child)
    ensures Resume(Pushed(c, f, child), g) == AfterChild(c, f, child, ChildOutcome(c, child, g))
  {
    var d, o := Pushed(c, f, child), ChildOutcome(c, child, g);
    assert TopRest(d, g) == o;
    if o.Done? {
      assert d.frames[..|c.frames|] == WithTop(c, f).frames;
      assert d.scratch[..SCRATCH * |c.frames|] == c.scratch;
      assert DropTop(Updated(d, o.locals, o.world))
        == WithTop(c, f).(arena := SetSlice(c.arena, child.localsBase, o.locals), world := o.world);
    }
  }

  /** The two configurations complete their top frames in the same way. */
  ghost predicate SameCompletion(c: Config, d: Config, o: Outcome)
    requires c.frames != [] && d.frames != []
  {
    o.Done? ==> Completed(d, o.locals, o.world, o.value) == Completed(c, o.locals, o.world, o.value)
  }

  lemma CompleteStep(c: Config, ls: seq<Value>, w: World, v: Value, g: nat)
    requires c.frames != [] && 0 < g && TopRest(c, g) == Done(v, ls, w, g - 1)
    ensures Resume(c, g) == Resume(Completed(c, ls, w, v), g - 1)
  {
    hide TopRest, Completed;
  }

  /** Replacing the top frame and perhaps growing the arena, with the same work left. */
  lemma InnerStep(c: Config, d: Config, g: nat)
    requires c.frames != [] && d.frames != [] && 0 < g
    requires TopRest(c, g) == TopRest(d, g - 1)
    requires SameCompletion(c, d, TopRest(c, g))
    ensures Resume(c, g) == Resume(d, g - 1)
  {
    hide TopRest, Completed;
  }

  // ----- what a frame forgets when it completes -----

  lemma TwiceStored(a: seq<Value>, base: nat, ls: seq<Value>, ls2: seq<Value>)
    requires |ls| == |ls2|
    ensures SetSlice(SetSlice(a, base, ls), base, ls2) == SetSlice(a, base, ls2)
    ensures |SetSlice(a, base, ls)| == |a|
    ensures base + |ls| <= |a| ==> Slice(SetSlice(a, base, ls), base, |ls|) == ls
  {
  }

  lemma OtherSlice(a: seq<Value>, base: nat, ls: seq<Value>, other: nat, count: nat)
    requires base + |ls| <= other || other + count <= base || count == 0 || ls == []
    ensures Slice(SetSlice(a, base, ls), other, count) == Slice(a, other, count)
  {
  }

  /** Everything the top frame knows about its own place in the stack. */
  lemma TopFacts(c: Config, base: nat, epoch: nat)
    requires Shape(c, base, epoch) && c.frames != []
    ensures var f, n := Top(c), |c.frames| - 1;
      && |c.scratch| == SCRATCH * n + SCRATCH
      && f.localsBase + f.localCount + f.bufferCount <= |c.arena|
      && f.bufferBase + f.bufferCount <= |c.arena|
      && (f.bufferCount > 0 ==>
            f.localsBase + f.localCount <= f.bufferBase && f.bufferBase + f.bufferCount == |c.arena|)
      && (f.out.ToScratch? ==> f.out.i < SCRATCH * n)
      && (f.out.ToArena? ==> f.out.i + f.bufferCount < |c.arena|)
      && (f.out.ToArena? && f.localCount > 0 ==> f.out.i < f.localsBase || f.localsBase + f.localCount <= f.out.i)
      && f.epoch == epoch
  {
    assert Clear(c.frames, Top(c).localsBase, Top(c).localCount) && Apart(Top(c), Top(c).localsBase, Top(c).localCount);
  }

  function PutAt(s: seq<Value>, hit: bool, k: nat, v: Value): seq<Value> {
    if hit && k < |s| then s[k := v] else s
  }

  function Index(loc: Loc): nat {
    match loc
    case ToResult => 0
    case ToScratch(i) => i
    case ToArena(i) => i
  }

  /** A completed configuration, component by component. */
  lemma CompletedParts(c: Config, f: Frame, ls: seq<Value>, w: World, v: Value, start: nat)
    requires c.frames != [] && SameSetting(f, Top(c)) && |c.scratch| == SCRATCH * |c.frames|
    requires start + f.bufferCount == |c.arena| && (f.bufferCount > 0 ==> f.bufferBase == start)
    ensures var n := |c.frames| - 1;
      Completed(c, ls, w, v) == Config(c.frames[..n],
        PutAt(c.scratch[..SCRATCH * n], f.out.ToScratch?, Index(f.out), v),
        PutAt(SetSlice(c.arena, f.localsBase, ls)[..start], f.out.ToArena?, Index(f.out), v),
        if f.out.ToResult? then v else c.result, w)
  {
  }

  lemma SamePut(a: seq<Value>, b: seq<Value>, hit: bool, k: nat, v: Value)
    requires |a| == |b| && forall i | 0 <= i < |a| && !(hit && i == k) :: a[i] == b[i]
    ensures PutAt(a, hit, k, v) == PutAt(b, hit, k, v)
  {
  }

  lemma SameStored(a: seq<Value>, b: seq<Value>, base: nat, ls: seq<Value>, start: nat, hit: bool, k: nat)
    requires |a| == |b| && start <= |a| && base + |ls| <= start
    requires forall i | 0 <= i < start && !(hit && i == k) && (i < base || base + |ls| <= i) :: a[i] == b[i]
    ensures |SetSlice(a, base, ls)| == |SetSlice(b, base, ls)| == |a|
    ensures forall i | 0 <= i < start && !(hit && i == k) :: SetSlice(a, base, ls)[i] == SetSlice(b, base, ls)[i]
  {
  }

  /** `e` differs from `c` only in the top frame's progress, locals, own scratch and buffer,
      and in the place it delivers to. */
  ghost predicate Unseen(c: Config, e: Config, f: Frame) {
    && c.frames != [] && e.frames == WithTop(c, f).frames && |e.scratch| == |c.scratch| && |e.arena| == |c.arena|
    && (f.out.ToResult? || e.result == c.result)
    && (forall i | 0 <= i < SCRATCH * (|c.frames| - 1) && i < |c.scratch| && !(f.out.ToScratch? && i == Index(f.out)) ::
          e.scratch[i] == c.scratch[i])
    && (forall i | 0 <= i < |c.arena| - f.bufferCount && !(f.out.ToArena? && i == Index(f.out))
          && (i < f.localsBase || f.localsBase + f.localCount <= i) :: e.arena[i] == c.arena[i])
  }

  /** None of that is left once the top frame completes. */
  lemma Forgotten(c: Config, e: Config, f: Frame, o: Outcome, base: nat, epoch: nat)
    requires Shape(c, base, epoch) && Unseen(c, e, f) && SameSetting(Top(c), f)
    requires o.Done? && |o.locals| == f.localCount
    ensures SameCompletion(c, e, o)
  {
    hide Shape, Completed, SetSlice, PutAt;
    TopFacts(c, base, epoch);
    var n, start := |c.frames| - 1, |c.arena| - f.bufferCount;
    CompletedParts(c, f, o.locals, o.world, o.value, start);
    assert e.frames[..n] == c.frames[..n] && Top(e) == f;
    CompletedParts(e, f, o.locals, o.world, o.value, start);
    SamePut(c.scratch[..SCRATCH * n], e.scratch[..SCRATCH * n], f.out.ToScratch?, Index(f.out), o.value);
    SameStored(c.arena, e.arena, f.localsBase, o.locals, start, f.out.ToArena?, Index(f.out));
    SamePut(SetSlice(c.arena, f.localsBase, o.locals)[..start], SetSlice(e.arena, f.localsBase, o.locals)[..start],
            f.out.ToArena?, Index(f.out), o.value);
  }

  /** The state of a shared-locals child's parent after the delivery. */
  function After(c: Config, f: Frame, loc: Loc, ls: seq<Value>, w: World, v: Value): Config
    requires c.frames != []
  {
    Put(WithTop(c, f).(arena := SetSlice(c.arena, f.localsBase, ls), world := w), loc, v)
  }

  lemma AfterScratch(c: Config, f: Frame, k: nat, ls: seq<Value>, w: World, v: Value, base: nat, epoch: nat)
    requires Shape(c, base, epoch) && c.frames != [] && SameSetting(Top(c), f)
    requires |ls| == f.localCount && k < SCRATCH
    ensures var e := After(c, f, ScratchLoc(c, k), ls, w, v);
      && e.frames != [] && Top(e) == f && e.world == w && LocalsOf(e, f) == ls
      && ScratchOf(e, k) == v && (forall j | 0 <= j < SCRATCH && j != k :: ScratchOf(e, j) == ScratchOf(c, j))
      && BufferOf(e, f) == BufferOf(c, Top(c))
      && forall o: Outcome | o.Done? && |o.locals| == f.localCount :: SameCompletion(c, e, o)
  {
    var e := After(c, f, ScratchLoc(c, k), ls, w, v);
    TopFacts(c, base, epoch);
    TwiceStored(c.arena, f.localsBase, ls, ls);
    OtherSlice(c.arena, f.localsBase, ls, f.bufferBase, f.bufferCount);
    forall o: Outcome | o.Done? && |o.locals| == f.localCount ensures SameCompletion(c, e, o) {
      Forgotten(c, e, f, o, base, epoch);
    }
  }

  lemma {:induction false} AfterArgumentParts(c: Config, f: Frame, k: nat, ls: seq<Value>, w: World, v: Value)
    requires c.frames != [] && SameSetting(Top(c), f) && |ls| == f.localCount && k < f.bufferCount
    requires f.localsBase + f.localCount <= f.bufferBase && f.bufferBase + f.bufferCount == |c.arena|
    ensures var e := After(c, f, ToArena(f.bufferBase + k), ls, w, v);
      && e.frames != [] && Top(e) == f && e.world == w && LocalsOf(e, f) == ls
      && (forall j | 0 <= j < SCRATCH :: ScratchOf(e, j) == ScratchOf(c, j))
      && |BufferOf(c, Top(c))| == f.bufferCount
      && BufferOf(e, f) == BufferOf(c, Top(c))[k := v]
      && Unseen(c, e, f)
  {
    hide BufferOf, Unseen;
    var a := SetSlice(c.arena, f.localsBase, ls);
    assert |a| == |c.arena|;
    assert a[f.localsBase..f.localsBase + f.localCount] == ls;
    AfterArgumentBuffer(c, f, k, ls, w, v);
  }

  lemma {:induction false} AfterArgumentBuffer(c: Config, f: Frame, k: nat, ls: seq<Value>, w: World, v: Value)
    requires c.frames != [] && SameSetting(Top(c), f) && |ls| == f.localCount && k < f.bufferCount
    requires f.localsBase + f.localCount <= f.bufferBase && f.bufferBase + f.bufferCount == |c.arena|
    ensures var e := After(c, f, ToArena(f.bufferBase + k), ls, w, v);
      && |BufferOf(c, Top(c))| == f.bufferCount
      && BufferOf(e, f) == BufferOf(c, Top(c))[k := v]
      && Unseen(c, e, f)
  {
    assert |SetSlice(c.arena, f.localsBase, ls)| == |c.arena|;
  }

  lemma AfterArgument(c: Config, f: Frame, k: nat, ls: seq<Value>, w: World, v: Value, base: nat, epoch: nat)
    requires Shape(c, base, epoch) && c.frames != [] && SameSetting(Top(c), f)
    requires |ls| == f.localCount && k < f.bufferCount
    ensures var e := After(c, f, ToArena(f.bufferBase + k), ls, w, v);
      && e.frames != [] && Top(e) == f && e.world == w && LocalsOf(e, f) == ls
      && (forall j | 0 <= j < SCRATCH :: ScratchOf(e, j) == ScratchOf(c, j))
      && |BufferOf(c, Top(c))| == f.bufferCount
      && BufferOf(e, f) == BufferOf(c, Top(c))[k := v]
      && forall o: Outcome | o.Done? && |o.locals| == f.localCount :: SameCompletion(c, e, o)
  {
    hide Shape, SameCompletion, After, LocalsOf, BufferOf, ScratchOf, Unseen;
    TopFacts(c, base, epoch);
    AfterArgumentParts(c, f, k, ls, w, v);
    forall o: Outcome | o.Done? && |o.locals| == f.localCount
      ensures SameCompletion(c, After(c, f, ToArena(f.bufferBase + k), ls, w, v), o)
    {
      Forgotten(c, After(c, f, ToArena(f.bufferBase + k), ls, w, v), f, o, base, epoch);
    }
  }

  lemma {:induction false} AfterHandOnParts(c: Config, f: Frame, ls: seq<Value>, w: World, v: Value)
    requires c.frames != [] && SameSetting(Top(c), f) && |ls| == f.localCount && f.localsBase + f.localCount <= |c.arena|
    requires f.out.ToScratch? ==> f.out.i < |c.scratch|
    requires f.out.ToArena? ==> f.out.i < |c.arena|
    requires f.out.ToArena? && f.localCount > 0 ==> f.out.i < f.localsBase || f.localsBase + f.localCount <= f.out.i
    ensures var e := After(c, f, f.out, ls, w, v);
      && e.frames != [] && Top(e) == f && e.world == w && LocalsOf(e, f) == ls
      && Get(e, f.out) == v && Unseen(c, e, f)
  {
    hide Unseen;
    TwiceStored(c.arena, f.localsBase, ls, ls);
    AfterHandOnUnseen(c, f, ls, w, v);
  }

  lemma {:induction false} AfterHandOnUnseen(c: Config, f: Frame, ls: seq<Value>, w: World, v: Value)
    requires c.frames != [] && SameSetting(Top(c), f) && |ls| == f.localCount && f.localsBase + f.localCount <= |c.arena|
    ensures Unseen(c, After(c, f, f.out, ls, w, v), f)
  {
    assert |SetSlice(c.arena, f.localsBase, ls)| == |c.arena|;
  }

  lemma AfterHandOn(c: Config, f: Frame, ls: seq<Value>, w: World, v: Value, base: nat, epoch: nat)
    requires Shape(c, base, epoch) && c.frames != [] && SameSetting(Top(c), f)
    requires |ls| == f.localCount
    ensures var e := After(c, f, f.out, ls, w, v);
      && e.frames != [] && Top(e) == f && e.world == w && LocalsOf(e, f) == ls
      && Get(e, f.out) == v
      && forall o: Outcome | o.Done? && |o.locals| == f.localCount :: SameCompletion(c, e, o)
  {
    hide Shape, SameCompletion, After, LocalsOf, Get, Unseen;
    TopFacts(c, base, epoch);
    AfterHandOnParts(c, f, ls, w, v);
    forall o: Outcome | o.Done? && |o.locals| == f.localCount ensures SameCompletion(c, After(c, f, f.out, ls, w, v), o) {
      Forgotten(c, After(c, f, f.out, ls, w, v), f, o, base, epoch);
    }
  }

  function AfterCall(c: Config, f: Frame, lsB: seq<Value>, w: World, v: Value): Config
    requires c.frames != []
  {
    Put(WithTop(c, f).(arena := SetSlice(c.arena, f.bufferBase, lsB), world := w), f.out, v)
  }

  lemma {:induction false} AfterBodyParts(c: Config, f: Frame, lsB: seq<Value>, w: World, v: Value)
    requires c.frames != [] && SameSetting(Top(c), f) && |lsB| == f.bufferCount
    requires f.localsBase + f.localCount <= |c.arena| && f.bufferBase + f.bufferCount <= |c.arena|
    requires f.bufferCount > 0 ==> f.localsBase + f.localCount <= f.bufferBase && f.bufferBase + f.bufferCount == |c.arena|
    requires f.out.ToScratch? ==> f.out.i < |c.scratch|
    requires f.out.ToArena? ==> f.out.i + f.bufferCount < |c.arena|
    requires f.out.ToArena? && f.localCount > 0 ==> f.out.i < f.localsBase || f.localsBase + f.localCount <= f.out.i
    ensures var e := AfterCall(c, f, lsB, w, v);
      && e.frames != [] && Top(e) == f && e.world == w && LocalsOf(e, f) == LocalsOf(c, Top(c))
      && Get(e, f.out) == v && Unseen(c, e, f)
  {
    hide Unseen, SetSlice;
    SetSliceSize(c.arena, f.bufferBase, lsB);
    OtherSlice(c.arena, f.bufferBase, lsB, f.localsBase, f.localCount);
    AfterBodyUnseen(c, f, lsB, w, v);
  }

  lemma SetSliceSize(arena: seq<Value>, base: nat, vs: seq<Value>)
    requires base + |vs| <= |arena|
    ensures |SetSlice(arena, base, vs)| == |arena|
  {
  }

  lemma {:induction false} AfterBodyUnseen(c: Config, f: Frame, lsB: seq<Value>, w: World, v: Value)
    requires c.frames != [] && SameSetting(Top(c), f) && |lsB| == f.bufferCount
    requires f.localsBase + f.localCount <= |c.arena| && f.bufferBase + f.bufferCount <= |c.arena|
    requires f.bufferCount > 0 ==> f.localsBase + f.localCount <= f.bufferBase && f.bufferBase + f.bufferCount == |c.arena|
    ensures Unseen(c, AfterCall(c, f, lsB, w, v), f)
  {
  }

  lemma AfterBody(c: Config, f: Frame, lsB: seq<Value>, w: World, v: Value, base: nat, epoch: nat)
    requires Shape(c, base, epoch) && c.frames != [] && SameSetting(Top(c), f)
    requires |lsB| == f.bufferCount
    ensures var e := AfterCall(c, f, lsB, w, v);
      && e.frames != [] && Top(e) == f && e.world == w && LocalsOf(e, f) == LocalsOf(c, Top(c))
      && Get(e, f.out) == v
      && forall o: Outcome | o.Done? && |o.locals| == f.localCount :: SameCompletion(c, e, o)
  {
    hide Shape, SameCompletion, AfterCall, LocalsOf, Get, Unseen;
    TopFacts(c, base, epoch);
    AfterBodyParts(c, f, lsB, w, v);
    forall o: Outcome | o.Done? && |o.locals| == f.localCount ensures SameCompletion(c, AfterCall(c, f, lsB, w, v), o) {
      Forgotten(c, AfterCall(c, f, lsB, w, v), f, o, base, epoch);
    }
  }

  // ----- the turns -----

  lemma TopRestBounds(c: Config, g: nat)
    requires c.frames != []
    ensures var o := TopRest(c, g);
      o.Done? ==> o.gas < g && |o.locals| == |LocalsOf(c, Top(c))|
  {
  }

  function Blank(c: Config, k: nat): Config
    requires c.frames != []
  {
    Put(c, ScratchLoc(c, k), Nil)
  }

  /** Clearing one of its own scratch values is forgotten when the top frame completes. */
  lemma BlankForgotten(c: Config, k: nat, o: Outcome, base: nat, epoch: nat)
    requires Shape(c, base, epoch) && c.frames != [] && k < SCRATCH
    requires o.Done? && |o.locals| == Top(c).localCount
    ensures SameCompletion(c, Blank(c, k), o)
  {
    hide Shape, SameCompletion;
    TopFacts(c, base, epoch);
    assert WithTop(c, Top(c)).frames == c.frames;
    Forgotten(c, Blank(c, k), Top(c), o, base, epoch);
  }

  lemma ShapeBlank(c: Config, k: nat, base: nat, epoch: nat)
    requires Shape(c, base, epoch) && c.frames != [] && k < SCRATCH
    ensures Shape(Blank(c, k), base, epoch)
  {
    hide StackOk, ArenaTop, Link, BufferRule, Returning;
    var d, n := Blank(c, k), |c.frames| - 1;
    OutsBelow(c.frames, base, epoch);
    TopFacts(c, base, epoch);
    forall i | 0 <= i <= n ensures ScratchRule(d.frames[i], d.scratch, i) && OutRule(d, i) {
      assert ScratchRule(c.frames[i], c.scratch, i) && OutRule(c, i);
      assert c.frames[i] in c.frames;
    }
    assert forall i | 0 <= i <= n :: BufferRule(c.frames[i], c.arena);
  }

  /** The parent's remaining work, from `c`, is: in `c1` run the child, then what is left. */
  lemma PushFrom(c: Config, c1: Config, f: Frame, child: Frame, g: nat)
    requires c.frames != [] && c1.frames == c.frames && |c1.scratch| == SCRATCH * |c.frames| && Fresh(child) && 0 < g
    requires var o := ChildOutcome(c1, child, g - 1);
      if o.Done? then
        var e := Delivered(WithTop(c1, f), child, o.locals, o.world, o.value);
        e.frames != [] && TopRest(c, g) == TopRest(e, o.gas)
        && (TopRest(c, g).Done? ==> SameCompletion(c, e, TopRest(c, g)))
      else TopRest(c, g) == o
    ensures Resume(c, g) == Resume(Pushed(c1, f, child), g - 1)
  {
    hide TopRest, Eval, Completed, Put;
    ResumePushed(c1, f, child, g - 1);
  }

  lemma BlankCompletion(c: Config, c1: Config, e: Config, o: Outcome, base: nat, epoch: nat)
    requires Shape(c, base, epoch) && c.frames != [] && e.frames != []
    requires c1 == c || c1 == Blank(c, 0)
    requires o.Done? ==> |o.locals| == Top(c).localCount
    requires SameCompletion(c1, e, o)
    ensures SameCompletion(c, e, o)
  {
    hide Shape;
    if o.Done? && c1 != c { BlankForgotten(c, 0, o, base, epoch); }
  }

  lemma ScratchFrom(c: Config, c1: Config, f: Frame, node: nat, k: nat, g: nat, base: nat, epoch: nat)
    requires Shape(c, base, epoch) && Shape(c1, base, epoch) && c.frames != [] && (c1 == c || c1 == Blank(c, 0))
    requires SameSetting(Top(c), f) && k < SCRATCH && 0 < g
    requires var o := Eval(f.program, node, LocalsOf(c, f), c.world, g - 1);
      TopRest(c, g) ==
        if o.Done? then TopRest(After(c1, f, ScratchLoc(c, k), o.locals, o.world, o.value), o.gas) else o
    ensures Resume(c, g) == Resume(Pushed(c1, f, Child(Top(c), node, ScratchLoc(c, k))), g - 1)
  {
    var child := Child(Top(c), node, ScratchLoc(c, k));
    var o := ChildOutcome(c1, child, g - 1);
    TopFacts(c, base, epoch);
    TopRestBounds(c, g);
    hide Shape, TopRest, Completed, SameCompletion, Eval, Blank, Returning, Filling, SetSlice;
    if o.Done? {
      DeliveredAfter(c1, f, child, k, o.locals, o.world, o.value);
      AfterScratch(c1, f, k, o.locals, o.world, o.value, base, epoch);
      hide Delivered, After, Slice, Get, Put;
      BlankCompletion(c, c1, After(c1, f, ScratchLoc(c, k), o.locals, o.world, o.value), TopRest(c, g), base, epoch);
    }
    PushFrom(c, c1, f, child, g);
  }

  lemma DeliveredAfter(c: Config, f: Frame, child: Frame, k: nat, ls: seq<Value>, w: World, v: Value)
    requires c.frames != [] && child.out == ScratchLoc(c, k) && child.localsBase == f.localsBase
    ensures Delivered(WithTop(c, f), child, ls, w, v) == After(c, f, ScratchLoc(c, k), ls, w, v)
  {
  }

  /** The next child a frame evaluates into one of its scratch places, if that is its next step. */
  datatype Scratch = NoScratch | ScratchChild(next: Frame, node: nat, k: nat)

  function NextScratch(f: Frame): Scratch {
    if f.node >= |f.program.nodes| then NoScratch
    else match f.program.nodes[f.node]
    case WriteLocal(i, value) => if f.phase == 0 && i < f.localCount then ScratchChild(f.(phase := 1), value, 0) else NoScratch
    case WriteSlot(_, value, _) => if f.phase == 0 then ScratchChild(f.(phase := 1), value, 0) else NoScratch
    case WriteSlotFallback(_, _, value, _) => if f.phase == 0 then ScratchChild(f.(phase := 1), value, 0) else NoScratch
    case ReadIndex(base, index) =>
      if f.phase == 0 then ScratchChild(f.(phase := 1), base, 0)
      else if f.phase == 1 then ScratchChild(f.(phase := 2), index, 1) else NoScratch
    case WriteIndex(base, index, value) =>
      if f.phase == 0 then ScratchChild(f.(phase := 1), base, 0)
      else if f.phase == 1 then ScratchChild(f.(phase := 2), index, 1)
      else if f.phase == 2 then ScratchChild(f.(phase := 3), value, 2) else NoScratch
    case ReadField(base, _) => if f.phase == 0 then ScratchChild(f.(phase := 1), base, 0) else NoScratch
    case WriteField(base, _, value) =>
      if f.phase == 0 then ScratchChild(f.(phase := 1), base, 0)
      else if f.phase == 1 then ScratchChild(f.(phase := 2), value, 1) else NoScratch
    case Call(builtin, callee, _, _) =>
      if f.phase == 0 && builtin == NoBuiltin then ScratchChild(f.(phase := 1), callee, 0) else NoScratch
    case If(condition, _, _, _) => if f.phase == 0 then ScratchChild(f.(phase := 1), condition, 0) else NoScratch
    case While(condition, _) => if f.phase == 0 then ScratchChild(f.(phase := 1), condition, 0) else NoScratch
    case Seq(first, count) =>
      if f.phase == 0 && f.index + 1 < count && first + f.index < |f.program.links|
      then ScratchChild(f.(phase := 1, index := f.index + 1), f.program.links[first + f.index], 0) else NoScratch
    case _ => NoScratch
  }

  /** A frame evaluates a child into its own scratch. */
  lemma ScratchTurn(c: Config, g: nat, base: nat, epoch: nat)
    requires Shape(c, base, epoch) && c.frames != [] && 0 < g
    requires NextScratch(Top(c)).ScratchChild?
    ensures var s := NextScratch(Top(c));
      var d := Pushed(c, s.next, Child(Top(c), s.node, ScratchLoc(c, s.k)));
      Resume(c, g) == Resume(d, g - 1) && Shape(d, base, epoch)
  {
    hide Shape;
    var f, s := Top(c), NextScratch(Top(c));
    var o := Eval(f.program, s.node, LocalsOf(c, f), c.world, g - 1);
    TopFacts(c, base, epoch);
    ScratchShape(c, base, epoch);
    if o.Done? {
      AfterScratch(c, s.next, s.k, o.locals, o.world, o.value, base, epoch);
      ScratchRest(c, g, o, After(c, s.next, ScratchLoc(c, s.k), o.locals, o.world, o.value));
    } else {
      ScratchRest(c, g, o, c);
    }
    ScratchFrom(c, c, s.next, s.node, s.k, g, base, epoch);
  }

  lemma ScratchRest(c: Config, g: nat, o: Outcome, e: Config)
    requires c.frames != [] && 0 < g && |LocalsOf(c, Top(c))| == Top(c).localCount
    requires var s := NextScratch(Top(c));
      s.ScratchChild? && o == Eval(Top(c).program, s.node, LocalsOf(c, Top(c)), c.world, g - 1)
      && (o.Done? ==>
        e.frames != [] && Top(e) == s.next && e.world == o.world && LocalsOf(e, s.next) == o.locals
        && ScratchOf(e, s.k) == o.value && (forall j | 0 <= j < SCRATCH && j != s.k :: ScratchOf(e, j) == ScratchOf(c, j)))
    ensures TopRest(c, g) == if o.Done? then TopRest(e, o.gas) else o
  {
    hide LocalsOf, ScratchOf;
  }

  lemma NextScratchFacts(f: Frame)
    ensures var s := NextScratch(f);
      s.ScratchChild? ==>
        && SameSetting(f, s.next) && s.k < SCRATCH && f.phase == s.k && s.next.phase == s.k + 1
        && !Returning(f) && !Returning(s.next) && !Filling(f) && !Filling(s.next)
        && (f.program.nodes[f.node].While? ==> s.k == 0) && PhaseOk(s.next)
  {
  }

  lemma ScratchShape(c: Config, base: nat, epoch: nat)
    requires Shape(c, base, epoch) && c.frames != [] && NextScratch(Top(c)).ScratchChild?
    ensures var s := NextScratch(Top(c));
      SameSetting(Top(c), s.next) && s.k < SCRATCH
      && Shape(Pushed(c, s.next, Child(Top(c), s.node, ScratchLoc(c, s.k))), base, epoch)
  {
    hide NextScratch, Shape, Returning, Filling;
    NextScratchFacts(Top(c));
    var s := NextScratch(Top(c));
    PushScratchShape(c, s.next, s.node, s.k, base, epoch);
  }

  lemma PushScratchFacts(c: Config, f: Frame, node: nat, k: nat, base: nat, epoch: nat)
    requires Shape(c, base, epoch) && c.frames != [] && SameSetting(Top(c), f)
    requires k < SCRATCH && Top(c).phase == k && f.phase == k + 1
    requires !Returning(Top(c)) && !Returning(f) && !Filling(f) && PhaseOk(f)
    requires f.node < |f.program.nodes| && f.program.nodes[f.node].While? && k == 1 ==> ScratchOf(c, 0) == Nil
    ensures var n := |c.frames| - 1;
      var child := Child(Top(c), node, ScratchLoc(c, k));
      && StackOk(c.frames, base, epoch) && BufferRule(f, c.arena) && ScratchRule(f, c.scratch, n)
      && Get(c, child.out) == Nil
      && FrameOk(child, |c.frames|, |c.arena|, epoch) && Link(f, n, child)
  {
    hide StackOk, ArenaTop, Linked;
    TopFacts(c, base, epoch);
    assert ScratchRule(Top(c), c.scratch, |c.frames| - 1) && BufferRule(Top(c), c.arena);
  }

  /** A frame in phase `k` may wait for its scratch value number `k`. */
  lemma PushScratchShape(c: Config, f: Frame, node: nat, k: nat, base: nat, epoch: nat)
    requires Shape(c, base, epoch) && c.frames != [] && SameSetting(Top(c), f)
    requires k < SCRATCH && Top(c).phase == k && f.phase == k + 1
    requires !Returning(Top(c)) && !Returning(f) && !Filling(f) && PhaseOk(f)
    requires f.node < |f.program.nodes| && f.program.nodes[f.node].While? && k == 1 ==> ScratchOf(c, 0) == Nil
    ensures Shape(Pushed(c, f, Child(Top(c), node, ScratchLoc(c, k))), base, epoch)
  {
    hide Shape, StackOk, ArenaTop, Clear, ScratchRule, BufferRule, Get, Link, FrameOk, Returning, Filling, PhaseOk;
    var child := Child(Top(c), node, ScratchLoc(c, k));
    PushScratchFacts(c, f, node, k, base, epoch);
    WithTopStack(c.frames, f, base, epoch);
    ClearShared(WithTop(c, f).frames, child, base, epoch);
    ShapePush(c, f, child, base, epoch);
  }

  // ----- handing on -----

  /** All that is left is to run `node` and return its value. */
  ghost predicate HandsOn(c: Config, f: Frame, node: nat, g: nat)
    requires c.frames != [] && 0 < g
  {
    var o := Eval(f.program, node, LocalsOf(c, f), c.world, g - 1);
    TopRest(c, g) == if o.Done? then Return(o.value, o.locals, o.world, o.gas) else o
  }

  /** A frame that lets a child deliver for it. */
  lemma HandOnTurn(c: Config, c1: Config, f: Frame, node: nat, g: nat, base: nat, epoch: nat)
    requires Shape(c1, base, epoch) && c.frames != [] && 0 < g && (c1 == c || c1 == Blank(c, 0)) && Shape(c, base, epoch)
    requires f == Top(c).(phase := 2) && Returning(f) && !Returning(Top(c)) && !InCall(Top(c))
    requires HandsOn(c, f, node, g)
    requires ScratchRule(f, c1.scratch, |c.frames| - 1)
    ensures var d := Pushed(c1, f, Child(f, node, f.out));
      Resume(c, g) == Resume(d, g - 1) && Shape(d, base, epoch)
  {
    hide Shape, Returning, ScratchRule, TopRest;
    var child := Child(f, node, f.out);
    var o := ChildOutcome(c1, child, g - 1);
    TopFacts(c, base, epoch);
    HandOnShape(c1, f, node, base, epoch);
    TopRestBounds(c, g);
    if o.Done? {
      var e := After(c1, f, f.out, o.locals, o.world, o.value);
      AfterHandOn(c1, f, o.locals, o.world, o.value, base, epoch);
      assert e == Delivered(WithTop(c1, f), child, o.locals, o.world, o.value);
      BlankCompletion(c, c1, e, TopRest(c, g), base, epoch);
      HandOnRest(e, f, o.gas);
    }
    PushFrom(c, c1, f, child, g);
  }

  lemma HandOnRest(e: Config, f: Frame, g: nat)
    requires e.frames != [] && Top(e) == f && Returning(f) && f.phase > 0
    ensures TopRest(e, g) == Return(Get(e, f.out), LocalsOf(e, f), e.world, g)
  {
    hide Return, LocalsOf;
  }

  lemma HandOnFacts(c: Config, f: Frame, node: nat, base: nat, epoch: nat)
    requires Shape(c, base, epoch) && c.frames != []
    requires f == Top(c).(phase := 2) && Returning(f) && !Returning(Top(c)) && !InCall(Top(c))
    ensures var child := Child(f, node, f.out);
      && StackOk(c.frames, base, epoch) && BufferRule(f, c.arena) && Get(c, f.out) == Nil
      && FrameOk(child, |c.frames|, |c.arena|, epoch) && Link(f, |c.frames| - 1, child)
  {
    hide StackOk, ArenaTop, Linked;
    TopFacts(c, base, epoch);
    assert BufferRule(Top(c), c.arena) && OutRule(c, |c.frames| - 1);
  }

  lemma HandOnShape(c: Config, f: Frame, node: nat, base: nat, epoch: nat)
    requires Shape(c, base, epoch) && c.frames != []
    requires f == Top(c).(phase := 2) && Returning(f) && !Returning(Top(c)) && !InCall(Top(c))
    requires ScratchRule(f, c.scratch, |c.frames| - 1)
    ensures Shape(Pushed(c, f, Child(f, node, f.out)), base, epoch)
  {
    hide Shape, StackOk, ArenaTop, Clear, ScratchRule, BufferRule, Get, Link, FrameOk, Returning, InCall;
    var child := Child(f, node, f.out);
    HandOnFacts(c, f, node, base, epoch);
    WithTopStack(c.frames, f, base, epoch);
    ClearShared(WithTop(c, f).frames, child, base, epoch);
    ShapePush(c, f, child, base, epoch);
  }

  // ----- loops and sequences -----

  lemma WhileTestRest(c: Config, g: nat)
    requires c.frames != [] && 0 < g && Top(c).phase == 1
    requires Top(c).node < |Top(c).program.nodes| && Top(c).program.nodes[Top(c).node].While?
    ensures var f := Top(c);
      TopRest(c, g) == WhileTest(f.program, f.node, f.program.nodes[f.node].body, ScratchOf(c, 0), LocalsOf(c, f), c.world, g)
  {
    hide WhileTest, LocalsOf, ScratchOf;
  }

  lemma WhileNextRest(c: Config, g: nat)
    requires c.frames != [] && Top(c).phase == 2
    requires Top(c).node < |Top(c).program.nodes| && Top(c).program.nodes[Top(c).node].While?
    ensures TopRest(c, g) == WhileNext(Top(c).program, Top(c).node, LocalsOf(c, Top(c)), c.world, g)
  {
    hide WhileNext, LocalsOf, ScratchOf;
  }

  /** A while loop whose test succeeded evaluates its body for effect. */
  lemma WhileBodyTurn(c: Config, body: nat, g: nat, base: nat, epoch: nat)
    requires Shape(c, base, epoch) && c.frames != [] && 0 < g && Top(c).phase == 1
    requires Top(c).node < |Top(c).program.nodes| && Top(c).program.nodes[Top(c).node].While?
    requires body == Top(c).program.nodes[Top(c).node].body && ScratchOf(c, 0) == Bool(true)
    ensures var f := Top(c).(phase := 2);
      var d := Pushed(Blank(c, 0), f, Child(f, body, ScratchLoc(c, 1)));
      Resume(c, g) == Resume(d, g - 1) && Shape(d, base, epoch)
  {
    hide Shape, TopRest, After, Eval, Resume;
    var f, c1 := Top(c).(phase := 2), Blank(c, 0);
    TopFacts(c, base, epoch);
    ShapeBlank(c, 0, base, epoch);
    PushScratchShape(c1, f, body, 1, base, epoch);
    WhileTestRest(c, g);
    WhileBodyRest(c, g, base, epoch);
    ScratchFrom(c, c1, f, body, 1, g, base, epoch);
  }

  lemma WhileBodyRest(c: Config, g: nat, base: nat, epoch: nat)
    requires Shape(c, base, epoch) && c.frames != [] && 0 < g && Top(c).phase == 1
    requires Top(c).node < |Top(c).program.nodes| && Top(c).program.nodes[Top(c).node].While?
    requires ScratchOf(c, 0) == Bool(true)
    ensures var f := Top(c).(phase := 2);
      var o := Eval(f.program, f.program.nodes[f.node].body, LocalsOf(c, f), c.world, g - 1);
      TopRest(c, g) ==
        if o.Done? then TopRest(After(Blank(c, 0), f, ScratchLoc(c, 1), o.locals, o.world, o.value), o.gas) else o
  {
    hide Shape, TopRest, SameCompletion;
    var f, c1 := Top(c).(phase := 2), Blank(c, 0);
    var o := Eval(f.program, f.program.nodes[f.node].body, LocalsOf(c, f), c.world, g - 1);
    TopFacts(c, base, epoch);
    WhileTestRest(c, g);
    if o.Done? {
      ShapeBlank(c, 0, base, epoch);
      AfterScratch(c1, f, 1, o.locals, o.world, o.value, base, epoch);
      WhileNextRest(After(c1, f, ScratchLoc(c, 1), o.locals, o.world, o.value), o.gas);
    }
  }

  predicate AtNext(f: Frame, k: nat) {
    f.node < |f.program.nodes| &&
    var node := f.program.nodes[f.node];
    (node.While? && f.phase == 2 && k == 1) || (node.Seq? && f.phase == 1 && k == 0)
  }

  lemma NextRest(c: Config, d: Config, k: nat, g: nat)
    requires c.frames != [] && d.frames != [] && 0 < g && AtNext(Top(c), k)
    requires Top(d) == Top(c).(phase := 0) && d.world == c.world && LocalsOf(d, Top(d)) == LocalsOf(c, Top(c))
    ensures TopRest(c, g) == TopRest(d, g - 1)
  {
    hide LocalsOf, ScratchOf, Eval, SeqFrom;
  }

  lemma NextShape(c: Config, k: nat, base: nat, epoch: nat)
    requires Shape(c, base, epoch) && c.frames != [] && AtNext(Top(c), k)
    ensures Shape(WithTop(Blank(c, k), Top(c).(phase := 0)), base, epoch)
  {
    var f, c1 := Top(c).(phase := 0), Blank(c, k);
    TopFacts(c, base, epoch);
    ShapeBlank(c, k, base, epoch);
    assert ScratchRule(Top(c), c.scratch, |c.frames| - 1) && BufferRule(Top(c), c.arena);
    assert ScratchRule(f, c1.scratch, |c.frames| - 1) && BufferRule(f, c1.arena);
    hide Shape, ScratchRule;
    ShapeWithTop(c1, f, base, epoch);
  }

  /** The value of a finished loop body or sequence item is dropped and the frame goes on. */
  lemma {:induction false} NextTurn(c: Config, k: nat, g: nat, base: nat, epoch: nat)
    requires Shape(c, base, epoch) && c.frames != [] && 0 < g && AtNext(Top(c), k)
    ensures var d := WithTop(Blank(c, k), Top(c).(phase := 0));
      Resume(c, g) == Resume(d, g - 1) && Shape(d, base, epoch)
  {
    hide Shape, TopRest;
    var f := Top(c).(phase := 0);
    var d := WithTop(Blank(c, k), f);
    TopFacts(c, base, epoch);
    NextShape(c, k, base, epoch);
    NextRest(c, d, k, g);
    TopRestBounds(c, g);
    var rest := TopRest(c, g);
    if rest.Done? { Forgotten(c, d, f, rest, base, epoch); }
    InnerStep(c, d, g);
  }

  // ----- calls -----

  function CallOf(f: Frame): Node
    requires f.node < |f.program.nodes|
  {
    f.program.nodes[f.node]
  }

  lemma ArgumentsRest(c: Config, g: nat)
    requires c.frames != [] && Filling(Top(c))
    ensures var f := Top(c);
      TopRest(c, g) == Arguments(f.program, CallOf(f).firstArg, CallOf(f).argCount, f.callee, f.index,
                                 ScratchOf(c, 0), BufferOf(c, f), LocalsOf(c, f), c.world, g)
  {
    hide LocalsOf, ScratchOf, BufferOf, Arguments;
  }

  lemma ArgumentFacts(c: Config, node: nat, base: nat, epoch: nat)
    requires Shape(c, base, epoch) && c.frames != [] && Filling(Top(c)) && Top(c).index < Top(c).bufferCount
    ensures var n, f := |c.frames| - 1, Top(c);
      var child := Child(f, node, ToArena(f.bufferBase + f.index));
      && ScratchRule(f.(index := f.index + 1), c.scratch, n) && BufferRule(f.(index := f.index + 1), c.arena)
      && Get(c, child.out) == Nil && !Returning(f)
      && |c.arena| == ArenaTop(c.frames, base) && StackOk(c.frames, base, epoch)
      && FrameOk(child, |c.frames|, |c.arena|, epoch) && Link(f.(index := f.index + 1), n, child)
      && f.localsBase + f.localCount <= f.bufferBase + f.index
  {
    hide StackOk, ArenaTop, OutRule, Linked;
    var n, f := |c.frames| - 1, Top(c);
    assert BufferRule(f, c.arena) && ScratchRule(f, c.scratch, n);
    TopFacts(c, base, epoch);
  }

  lemma ArgumentShape(c: Config, node: nat, base: nat, epoch: nat)
    requires Shape(c, base, epoch) && c.frames != [] && Filling(Top(c)) && Top(c).index < Top(c).bufferCount
    ensures var f := Top(c);
      Shape(Pushed(c, f.(index := f.index + 1), Child(f, node, ToArena(f.bufferBase + f.index))), base, epoch)
  {
    hide Shape, StackOk, ArenaTop, Clear, ScratchRule, BufferRule, Get, Link, FrameOk, Filling, Returning;
    var n, f := |c.frames| - 1, Top(c);
    var f1, child := f.(index := f.index + 1), Child(f, node, ToArena(f.bufferBase + f.index));
    ArgumentFacts(c, node, base, epoch);
    WithTopStack(c.frames, f1, base, epoch);
    ClearShared(WithTop(c, f1).frames, child, base, epoch);
    ShapePush(c, f1, child, base, epoch);
  }

  predicate MoreArguments(f: Frame) {
    && Filling(f) && f.index < CallOf(f).argCount && f.index < f.bufferCount
    && CallOf(f).firstArg + f.index < |f.program.links|
  }

  function ArgumentNode(f: Frame): nat
    requires MoreArguments(f)
  {
    f.program.links[CallOf(f).firstArg + f.index]
  }

  function NextArgument(f: Frame): Frame { f.(index := f.index + 1) }

  function ArgumentLoc(f: Frame): Loc { ToArena(f.bufferBase + f.index) }

  lemma ArgumentUnfold(c: Config, e: Config, g: nat)
    requires c.frames != [] && 0 < g && MoreArguments(Top(c)) && |BufferOf(c, Top(c))| == Top(c).bufferCount
    requires var f := Top(c);
      var o := Eval(f.program, ArgumentNode(f), LocalsOf(c, f), c.world, g - 1);
      o.Done? ==>
        e.frames != [] && Top(e) == NextArgument(f) && e.world == o.world && LocalsOf(e, NextArgument(f)) == o.locals
        && ScratchOf(e, 0) == ScratchOf(c, 0) && BufferOf(e, NextArgument(f)) == BufferOf(c, f)[f.index := o.value]
    ensures var f := Top(c);
      var o := Eval(f.program, ArgumentNode(f), LocalsOf(c, f), c.world, g - 1);
      TopRest(c, g) == if o.Done? then TopRest(e, o.gas) else o
  {
    var f := Top(c);
    var o := Eval(f.program, ArgumentNode(f), LocalsOf(c, f), c.world, g - 1);
    ArgumentsRest(c, g);
    if o.Done? { ArgumentsRest(e, o.gas); }
    hide TopRest, LocalsOf, ScratchOf, BufferOf, Eval;
  }

  /** The next argument is evaluated into its place in the buffer. */
  lemma ArgumentTurn(c: Config, g: nat, base: nat, epoch: nat)
    requires Shape(c, base, epoch) && c.frames != [] && 0 < g && MoreArguments(Top(c))
    ensures var f := Top(c);
      var d := Pushed(c, NextArgument(f), Child(f, ArgumentNode(f), ArgumentLoc(f)));
      Resume(c, g) == Resume(d, g - 1) && Shape(d, base, epoch)
  {
    hide Shape, TopRest, SameCompletion, Eval, ArgumentNode, BufferOf, Delivered, After, LocalsOf, ScratchOf, ChildOutcome;
    var f := Top(c);
    var child := Child(f, ArgumentNode(f), ArgumentLoc(f));
    var o := ChildOutcome(c, child, g - 1);
    TopFacts(c, base, epoch);
    ArgumentShape(c, ArgumentNode(f), base, epoch);
    TopRestBounds(c, g);
    ChildOfTop(c, child, g - 1);
    var e := c;
    if o.Done? {
      e := Delivered(WithTop(c, NextArgument(f)), child, o.locals, o.world, o.value);
      AfterArgument(c, NextArgument(f), f.index, o.locals, o.world, o.value, base, epoch);
      DeliveredArgument(c, NextArgument(f), child, o.locals, o.world, o.value);
    }
    ArgumentUnfold(c, e, g);
    PushFrom(c, c, NextArgument(f), child, g);
  }

  lemma ChildOfTop(c: Config, child: Frame, g: nat)
    requires c.frames != [] && child == Child(Top(c), child.node, child.out)
    requires var f := Top(c); f.localsBase + f.localCount <= |c.arena| && f.bufferBase + f.bufferCount <= |c.arena|
    ensures var f, o := Top(c), ChildOutcome(c, child, g);
      && o == Eval(f.program, child.node, LocalsOf(c, f), c.world, g) && (o.Done? ==> |o.locals| == f.localCount)
      && |LocalsOf(c, f)| == f.localCount && |BufferOf(c, f)| == f.bufferCount
  {
    hide Eval;
  }

  lemma DeliveredArgument(c: Config, f: Frame, child: Frame, ls: seq<Value>, w: World, v: Value)
    requires c.frames != [] && child.localsBase == f.localsBase
    ensures Delivered(WithTop(c, f), child, ls, w, v) == After(c, f, child.out, ls, w, v)
  {
  }

  /** The call's target runs with the completed buffer as its locals. */
  lemma BodyTurn(c: Config, g: nat, base: nat, epoch: nat)
    requires Shape(c, base, epoch) && c.frames != [] && 0 < g && Filling(Top(c)) && Top(c).callee.CodeCallee?
    requires CallOf(Top(c)).argCount <= Top(c).index
    ensures var f := Top(c);
      var d := Pushed(c, f.(phase := 3), BodyFrame(f, f.callee.program, f.callee.body));
      Resume(c, g) == Resume(d, g - 1) && Shape(d, base, epoch)
  {
    var f := Top(c);
    var f1, child := f.(phase := 3), BodyFrame(f, f.callee.program, f.callee.body);
    var o := ChildOutcome(c, child, g - 1);
    TopFacts(c, base, epoch);
    BodyShape(c, base, epoch);
    TopRestBounds(c, g);
    ArgumentsRest(c, g);
    assert |BufferOf(c, f)| == f.bufferCount;
    assert TopRest(c, g) == if o.Done? then Return(o.value, LocalsOf(c, f), o.world, o.gas) else o;
    hide Shape, TopRest, Completed, SameCompletion, Eval, SetSlice, Arguments, Return;
    if o.Done? {
      var e := Delivered(WithTop(c, f1), child, o.locals, o.world, o.value);
      AfterBody(c, f1, o.locals, o.world, o.value, base, epoch);
      HandOnRest(e, f1, o.gas);
    }
    PushFrom(c, c, f1, child, g);
  }

  lemma BodyFacts(c: Config, base: nat, epoch: nat)
    requires Shape(c, base, epoch) && c.frames != [] && Filling(Top(c)) && Top(c).callee.CodeCallee?
    ensures var n, f := |c.frames| - 1, Top(c);
      var child := BodyFrame(f, f.callee.program, f.callee.body);
      && ScratchRule(f.(phase := 3), c.scratch, n) && BufferRule(f.(phase := 3), c.arena)
      && Get(c, f.out) == Nil && !Filling(f.(phase := 3)) && !Returning(f)
      && |c.arena| == ArenaTop(c.frames, base) && StackOk(c.frames, base, epoch)
      && FrameOk(child, |c.frames|, |c.arena|, epoch) && Link(f.(phase := 3), n, child)
  {
    hide StackOk, ArenaTop, Linked;
    var n, f := |c.frames| - 1, Top(c);
    assert BufferRule(f, c.arena) && ScratchRule(f, c.scratch, n) && OutRule(c, n);
    TopFacts(c, base, epoch);
  }

  lemma BodyShape(c: Config, base: nat, epoch: nat)
    requires Shape(c, base, epoch) && c.frames != [] && Filling(Top(c)) && Top(c).callee.CodeCallee?
    ensures var f := Top(c);
      Shape(Pushed(c, f.(phase := 3), BodyFrame(f, f.callee.program, f.callee.body)), base, epoch)
  {
    hide Shape, StackOk, ArenaTop, Clear, ScratchRule, BufferRule, Get, Link, FrameOk, Filling, Returning;
    var f := Top(c);
    var f1, child := f.(phase := 3), BodyFrame(f, f.callee.program, f.callee.body);
    BodyFacts(c, base, epoch);
    WithTopStack(c.frames, f1, base, epoch);
    ClearBuffer(WithTop(c, f1).frames, child, base, epoch);
    ShapePush(c, f1, child, base, epoch);
  }

  /** The argument buffer is taken from the top of the arena, all nil. */
  function Buffered(c: Config, callee: Callee, count: nat): Config
    requires c.frames != []
  {
    WithTop(c, Top(c).(phase := 2, index := 0, callee := callee, bufferBase := |c.arena|, bufferCount := count))
      .(arena := c.arena + Nils(count))
  }

  predicate AtCallStart(f: Frame) {
    f.node < |f.program.nodes| && CallOf(f).Call? && (f.phase == 1 || (f.phase == 0 && CallOf(f).builtin != NoBuiltin))
  }

  /** What is called, and how large a buffer it needs. */
  function Target(c: Config): Resolution
    requires c.frames != [] && AtCallStart(Top(c))
  {
    if Top(c).phase == 0 then Resolved(BuiltinCallee(CallOf(Top(c)).builtin), CallOf(Top(c)).argCount)
    else Resolve(Look(c.world.heap, ScratchOf(c, 0)), CallOf(Top(c)).argCount)
  }

  lemma BufferedParts(c: Config, callee: Callee, count: nat)
    requires c.frames != [] && Top(c).localsBase + Top(c).localCount <= |c.arena|
    ensures var d := Buffered(c, callee, count);
      && BufferOf(d, Top(d)) == Nils(count) && LocalsOf(d, Top(d)) == LocalsOf(c, Top(c))
      && ScratchOf(d, 0) == ScratchOf(c, 0) && d.world == c.world
      && (AtCallStart(Top(c)) ==> Filling(Top(d)))
  {
    var d := Buffered(c, callee, count);
    assert d.arena[|c.arena|..|c.arena| + count] == Nils(count);
  }

  lemma CallStartRest(c: Config, g: nat)
    requires c.frames != [] && 0 < g && AtCallStart(Top(c)) && (Top(c).phase == 0 ==> ScratchOf(c, 0) == Nil)
    ensures var f, t := Top(c), Target(c);
      && (t.Unresolved? ==> TopRest(c, g) == Stop(t.err, c.world))
      && (t.Resolved? ==>
            TopRest(c, g)
              == Arguments(f.program, CallOf(f).firstArg, CallOf(f).argCount, t.callee, 0, ScratchOf(c, 0), Nils(t.slots),
                           LocalsOf(c, f), c.world, g - 1))
    ensures !Returning(Top(c))
  {
    hide LocalsOf, ScratchOf, Arguments, Resolve;
  }

  lemma BufferRest(c: Config, g: nat, base: nat, epoch: nat)
    requires Shape(c, base, epoch) && c.frames != [] && 0 < g && AtCallStart(Top(c))
    ensures Target(c).Unresolved? ==> TopRest(c, g) == Stop(Target(c).err, c.world)
    ensures Target(c).Resolved? ==>
      TopRest(c, g) == TopRest(Buffered(c, Target(c).callee, Target(c).slots), g - 1)
    ensures !Returning(Top(c))
  {
    hide Shape, Arguments, Target, TopRest, LocalsOf, ScratchOf, BufferOf, Filling, Returning;
    TopFacts(c, base, epoch);
    CallStartScratch(c, base, epoch);
    CallStartRest(c, g);
    var t := Target(c);
    if t.Resolved? {
      BufferedParts(c, t.callee, t.slots);
      ArgumentsRest(Buffered(c, t.callee, t.slots), g - 1);
    }
  }

  lemma CallStartScratch(c: Config, base: nat, epoch: nat)
    requires Shape(c, base, epoch) && c.frames != [] && AtCallStart(Top(c))
    ensures Top(c).phase == 0 ==> ScratchOf(c, 0) == Nil
  {
    assert ScratchRule(Top(c), c.scratch, |c.frames| - 1);
  }

  lemma BufferShape(c: Config, callee: Callee, count: nat, base: nat, epoch: nat)
    requires Shape(c, base, epoch) && c.frames != [] && AtCallStart(Top(c))
    ensures Shape(Buffered(c, callee, count), base, epoch)
  {
    hide StackOk, ArenaTop, Clear;
    var n, f := |c.frames| - 1, Top(c);
    var d := Buffered(c, callee, count);
    TopFacts(c, base, epoch);
    assert BufferRule(f, c.arena) && ScratchRule(f, c.scratch, n);
    BufferStack(c.frames, Top(d), base, epoch);
    StackBounds(c.frames, base, epoch);
    BufferedRules(c, callee, count, base, epoch);
    forall i | 0 <= i < n ensures Link(d.frames[i], i, d.frames[i + 1]) {
      assert Link(c.frames[i], i, c.frames[i + 1]);
    }
  }

  lemma BufferedRules(c: Config, callee: Callee, count: nat, base: nat, epoch: nat)
    requires Shape(c, base, epoch) && c.frames != [] && AtCallStart(Top(c))
    requires Top(c).bufferCount == 0
    ensures var d := Buffered(c, callee, count);
      forall i | 0 <= i < |c.frames| ::
        ScratchRule(d.frames[i], d.scratch, i) && BufferRule(d.frames[i], d.arena) && OutRule(d, i)
  {
    hide StackOk, ArenaTop;
    var n, f := |c.frames| - 1, Top(c);
    var d := Buffered(c, callee, count);
    StackBounds(c.frames, base, epoch);
    BuffersBelow(c.frames, base, epoch);
    forall i | 0 <= i <= n ensures ScratchRule(d.frames[i], d.scratch, i) && BufferRule(d.frames[i], d.arena) && OutRule(d, i) {
      assert ScratchRule(c.frames[i], c.scratch, i) && BufferRule(c.frames[i], c.arena) && OutRule(c, i);
      assert c.frames[i] in c.frames;
    }
  }

  lemma BufferStack(frames: seq<Frame>, f: Frame, base: nat, epoch: nat)
    requires StackOk(frames, base, epoch) && frames != []
    requires var g := frames[|frames| - 1];
      && f.localsBase == g.localsBase && f.localCount == g.localCount && f.out == g.out && f.epoch == g.epoch
      && g.bufferCount == 0 && f.bufferBase == ArenaTop(frames, base)
    ensures StackOk(frames[..|frames| - 1] + [f], base, epoch)
    ensures ArenaTop(frames[..|frames| - 1] + [f], base) == ArenaTop(frames, base) + f.bufferCount
  {
    hide StackOk, ArenaTop;
    var init, g := frames[..|frames| - 1], frames[|frames| - 1];
    assert frames == init + [g];
    Snoc(init, g, base, epoch);
    Snoc(init, f, base, epoch);
    forall h | h in init + [f] ensures Apart(h, f.localsBase, f.localCount) {
      assert h in init ==> h in init + [g];
      assert g in init + [g] && Apart(g, f.localsBase, f.localCount);
    }
  }

  lemma BufferTurn(c: Config, g: nat, base: nat, epoch: nat)
    requires Shape(c, base, epoch) && c.frames != [] && 0 < g && AtCallStart(Top(c)) && Target(c).Resolved?
    ensures var d := Buffered(c, Target(c).callee, Target(c).slots);
      Resume(c, g) == Resume(d, g - 1) && Shape(d, base, epoch)
  {
    var t := Target(c);
    var d := Buffered(c, t.callee, t.slots);
    BufferShape(c, t.callee, t.slots, base, epoch);
    BufferRest(c, g, base, epoch);
    TopRestBounds(c, g);
    TopFacts(c, base, epoch);
    assert BufferRule(Top(c), c.arena);
    var rest := TopRest(c, g);
    hide Shape, TopRest, Target;
    if rest.Done? { BufferForgotten(c, d, t.callee, t.slots, rest.locals, rest.world, rest.value); }
    InnerStep(c, d, g);
  }

  lemma BufferForgotten(c: Config, d: Config, callee: Callee, count: nat, ls: seq<Value>, w: World, v: Value)
    requires c.frames != [] && d == Buffered(c, callee, count) && |c.scratch| == SCRATCH * |c.frames|
    requires Top(c).localsBase + |ls| <= |c.arena| && Top(c).bufferCount == 0
    ensures Completed(d, ls, w, v) == Completed(c, ls, w, v)
  {
    var base, n := Top(c).localsBase, |c.frames| - 1;
    var arena := c.arena + Nils(count);
    assert SetSlice(arena, base, ls)[..|c.arena|] == SetSlice(c.arena, base, ls)[..|c.arena|];
    assert d.arena == arena && d.frames[..n] == c.frames[..n] && |arena| == |c.arena| + count;
    hide Completed, PutAt, SetSlice, Nils;
    CompletedParts(c, Top(c), ls, w, v, |c.arena|);
    CompletedParts(d, Top(d), ls, w, v, |c.arena|);
  }

  lemma ArgumentsOutside(c: Config, g: nat)
    requires c.frames != [] && 0 < g && Filling(Top(c)) && |BufferOf(c, Top(c))| == Top(c).bufferCount
    requires Top(c).index < CallOf(Top(c)).argCount && !MoreArguments(Top(c))
    ensures TopRest(c, g) == Stop(Malformed, c.world) && !Returning(Top(c))
  {
    hide BufferOf, LocalsOf, ScratchOf, Eval, TopRest;
    ArgumentsRest(c, g);
  }

  predicate AtCall(f: Frame) { Filling(f) && CallOf(f).argCount <= f.index }

  /** What a completed call of anything but code or a native yields. */
  function CallResult(c: Config): Interp.Result
    requires c.frames != [] && AtCall(Top(c))
  {
    match Top(c).callee
    case BuiltinCallee(b) => BuiltinIn(c.world, b, BufferOf(c, Top(c)))
    case RecordCallee => NewRecordIn(c.world, ScratchOf(c, 0), BufferOf(c, Top(c)))
    case NativeCallee(_) => NativeResult(c.world, BufferOf(c, Top(c)))
    case _ => Fail(Signature, c.world)
  }

  predicate Resets(c: Config)
    requires c.frames != []
  {
    Top(c).callee.NativeCallee? && NextEffect(c.world.script).ResetRuntime?
  }

  lemma CallRest(c: Config, g: nat)
    requires c.frames != [] && 0 < g && AtCall(Top(c)) && !Top(c).callee.CodeCallee?
    ensures !Resets(c) ==> TopRest(c, g) == Finish(CallResult(c), LocalsOf(c, Top(c)), g - 1)
    ensures Resets(c) ==> TopRest(c, g) == Wiped(ResetError(NextEffect(c.world.script).code))
    ensures !Returning(Top(c))
  {
    hide BufferOf, LocalsOf, ScratchOf, Eval, TopRest, BuiltinIn, NewRecordIn, NativeResult;
    ArgumentsRest(c, g);
  }

  // ----- finishing -----

  /** The top frame has finished with `v`, its locals unchanged. */
  function Finished(c: Config, w: World, v: Value): Config
    requires c.frames != []
  {
    Put(DropTop(c.(world := w)), Top(c).out, v)
  }

  lemma FinishTurn(c: Config, w: World, v: Value, g: nat, base: nat, epoch: nat)
    requires Shape(c, base, epoch) && c.frames != [] && 0 < g
    requires TopRest(c, g) == Done(v, LocalsOf(c, Top(c)), w, g - 1)
    requires Returning(Top(c)) ==> v == Get(c, Top(c).out)
    ensures Resume(c, g) == Resume(Finished(c, w, v), g - 1) && Shape(Finished(c, w, v), base, epoch)
  {
    var f, ls := Top(c), LocalsOf(c, Top(c));
    TopFacts(c, base, epoch);
    assert OutRule(c, |c.frames| - 1);
    assert SetSlice(c.arena, f.localsBase, ls) == c.arena;
    assert Completed(c, ls, w, v) == Finished(c, w, v);
    hide Shape, TopRest, Completed, Finished, LocalsOf;
    CompleteStep(c, ls, w, v, g);
    ShapeCompleted(c, ls, w, v, base, epoch);
  }

  lemma WriteLocalTurn(c: Config, i: nat, g: nat, base: nat, epoch: nat)
    requires Shape(c, base, epoch) && c.frames != [] && 0 < g && Top(c).phase > 0
    requires Top(c).node < |Top(c).program.nodes| && Top(c).program.nodes[Top(c).node].WriteLocal?
    requires i == Top(c).program.nodes[Top(c).node].local < Top(c).localCount
    ensures Top(c).localsBase + i < |c.arena|
    ensures var d := Finished(c.(arena := c.arena[Top(c).localsBase + i := ScratchOf(c, 0)]), c.world, Nil);
      Resume(c, g) == Resume(d, g - 1) && Shape(d, base, epoch)
  {
    hide Shape, TopRest, Completed, LocalsOf, Returning, ScratchOf, Finished;
    TopFacts(c, base, epoch);
    var f, ls, v := Top(c), LocalsOf(c, Top(c)), ScratchOf(c, 0);
    OutNil(c, base, epoch);
    WriteLocalParts(c, i, v, g);
    CompleteStep(c, ls[i := v], c.world, Nil, g);
    ShapeCompleted(c, ls[i := v], c.world, Nil, base, epoch);
  }

  lemma OutNil(c: Config, base: nat, epoch: nat)
    requires Shape(c, base, epoch) && c.frames != []
    ensures Get(c, Top(c).out) == Nil || Returning(Top(c))
  {
    assert OutRule(c, |c.frames| - 1);
  }

  lemma WriteLocalParts(c: Config, i: nat, v: Value, g: nat)
    requires c.frames != [] && 0 < g && Top(c).phase > 0
    requires Top(c).node < |Top(c).program.nodes| && CallOf(Top(c)).WriteLocal?
    requires i == CallOf(Top(c)).local < Top(c).localCount && v == ScratchOf(c, 0)
    requires Top(c).localsBase + Top(c).localCount <= |c.arena|
    ensures var f, ls := Top(c), LocalsOf(c, Top(c));
      && |ls| == f.localCount && TopRest(c, g) == Done(Nil, ls[i := v], c.world, g - 1) && !Returning(f)
      && Completed(c, ls[i := v], c.world, Nil) == Finished(c.(arena := c.arena[f.localsBase + i := v]), c.world, Nil)
  {
    hide ScratchOf;
    var f, ls := Top(c), LocalsOf(c, Top(c));
    assert SetSlice(c.arena, f.localsBase, ls[i := v]) == c.arena[f.localsBase + i := v];
  }

  // ----- nodes without children -----

  predicate IsLeaf(node: Node) {
    node.Lit? || node.ReadLocal? || node.ReadSlot? || node.ReadSlotFallback? || node.SlotDesignator?
    || node.RecordDefNode? || node.Fn?
  }

  function LeafResult(p: Program, node: Node, ls: seq<Value>, w: World): Interp.Result
    requires IsLeaf(node)
  {
    match node
    case Lit(l) => if l >= |p.literals| then Fail(Malformed, w) else LiteralValue(p.literals[l], w)
    case ReadLocal(i) => if i >= |ls| then Fail(Bounds, w) else Result.Value(ls[i], w)
    case ReadSlot(name) => ReadSlotIn(w, name)
    case ReadSlotFallback(name, fallback) => ReadSlotIn(w, FallbackName(w.slots, name, fallback))
    case SlotDesignator(name) => DesignateIn(w, name)
    case RecordDefNode(name, first, count) => RecordDefIn(p, name, first, count, w)
    case Fn(arity, localCount, body) => NewObjectIn(w, Code(p, body, arity, localCount))
  }

  lemma LeafRest(c: Config, g: nat)
    requires c.frames != [] && 0 < g && Top(c).node < |Top(c).program.nodes| && IsLeaf(CallOf(Top(c)))
    ensures var f := Top(c);
      TopRest(c, g) == Finish(LeafResult(f.program, CallOf(f), LocalsOf(c, f), c.world), LocalsOf(c, f), g - 1)
    ensures !Returning(Top(c))
  {
    hide LocalsOf, ScratchOf, LiteralValue, ReadSlotIn, DesignateIn, RecordDefIn, NewObjectIn;
  }

  // ----- nodes whose children have all been evaluated -----

  predicate AtPrimitive(f: Frame) {
    f.node < |f.program.nodes| &&
    match f.program.nodes[f.node]
    case WriteSlot(_, _, _) => f.phase > 0
    case WriteSlotFallback(_, _, _, _) => f.phase > 0
    case ReadIndex(_, _) => f.phase > 1
    case WriteIndex(_, _, _) => f.phase > 2
    case ReadField(_, _) => f.phase > 0
    case WriteField(_, _, _) => f.phase > 1
    case _ => false
  }

  function PrimitiveResult(c: Config): Interp.Result
    requires c.frames != [] && AtPrimitive(Top(c))
  {
    var w, a, b := c.world, ScratchOf(c, 0), ScratchOf(c, 1);
    match CallOf(Top(c))
    case WriteSlot(name, _, requireExisting) => WriteSlotIn(w, name, a, requireExisting)
    case WriteSlotFallback(name, fallback, _, requireExisting) => WriteSlotFallbackIn(w, name, fallback, a, requireExisting)
    case ReadIndex(_, _) => ReadIndexIn(w, a, b)
    case WriteIndex(_, _, _) => WriteIndexIn(w, a, b, ScratchOf(c, 2))
    case ReadField(_, name) => ReadFieldIn(w, a, name)
    case WriteField(_, name, _) => WriteFieldIn(w, a, name, b)
  }

  lemma PrimitiveRest(c: Config, g: nat)
    requires c.frames != [] && 0 < g && AtPrimitive(Top(c))
    ensures TopRest(c, g) == Finish(PrimitiveResult(c), LocalsOf(c, Top(c)), g - 1)
    ensures !Returning(Top(c))
  {
    hide LocalsOf, ScratchOf, WriteSlotIn, WriteSlotFallbackIn, ReadIndexIn, WriteIndexIn, ReadFieldIn, WriteFieldIn;
  }

  // ----- branches -----

  /** The end of a node that yields nil. */
  function NilResult(c: Config): Interp.Result { Result.Value(Nil, c.world) }

  lemma IfRest(c: Config, g: nat)
    requires c.frames != [] && 0 < g && Top(c).phase == 1
    requires Top(c).node < |Top(c).program.nodes| && CallOf(Top(c)).If?
    ensures var f, node, v := Top(c), CallOf(Top(c)), ScratchOf(c, 0);
      && !Returning(f) && Returning(f.(phase := 2)) && !InCall(f)
      && (!v.Bool? ==> TopRest(c, g) == Stop(TypeMismatch, c.world))
      && (v == Bool(false) && !node.hasElse ==> TopRest(c, g) == Finish(NilResult(c), LocalsOf(c, f), g - 1))
      && (v == Bool(true) ==> HandsOn(c, f.(phase := 2), node.thenBranch, g))
      && (v == Bool(false) && node.hasElse ==> HandsOn(c, f.(phase := 2), node.elseBranch, g))
  {
    hide ScratchOf;
    assert LocalsOf(c, Top(c).(phase := 2)) == LocalsOf(c, Top(c));
  }

  lemma WhileRest(c: Config, g: nat)
    requires c.frames != [] && 0 < g && Top(c).phase == 1
    requires Top(c).node < |Top(c).program.nodes| && CallOf(Top(c)).While?
    ensures var f, v := Top(c), ScratchOf(c, 0);
      && !Returning(f)
      && (!v.Bool? ==> TopRest(c, g) == Stop(TypeMismatch, c.world))
      && (v == Bool(false) ==> TopRest(c, g) == Finish(NilResult(c), LocalsOf(c, f), g - 1))
  {
    hide ScratchOf, LocalsOf;
  }

  lemma SeqRest(c: Config, g: nat)
    requires c.frames != [] && 0 < g && Top(c).phase == 0
    requires Top(c).node < |Top(c).program.nodes| && CallOf(Top(c)).Seq?
    ensures var f, node := Top(c), CallOf(Top(c));
      var outside := node.firstItem + f.index >= |f.program.links|;
      && !Returning(f) && Returning(f.(phase := 2)) && !InCall(f)
      && (node.itemCount == 0 ==> TopRest(c, g) == Finish(NilResult(c), LocalsOf(c, f), g - 1))
      && (node.itemCount > 0 && outside ==> TopRest(c, g) == Stop(Malformed, c.world))
      && (node.itemCount > 0 && !outside && node.itemCount <= f.index + 1 ==>
            HandsOn(c, f.(phase := 2), f.program.links[node.firstItem + f.index], g))
  {
    hide ScratchOf;
    assert LocalsOf(c, Top(c).(phase := 2)) == LocalsOf(c, Top(c));
  }

  /** A value that was handed on is already in place. */
  lemma HandedOn(c: Config, base: nat, epoch: nat)
    requires Shape(c, base, epoch) && c.frames != [] && Returning(Top(c))
    ensures Finished(c, c.world, Get(c, Top(c).out)) == DropTop(c)
  {
    TopFacts(c, base, epoch);
  }

  lemma ReturningRest(c: Config, g: nat)
    requires c.frames != [] && 0 < g && Returning(Top(c)) && Top(c).phase > 0
    ensures TopRest(c, g) == Done(Get(c, Top(c).out), LocalsOf(c, Top(c)), c.world, g - 1)
  {
    HandOnRest(c, Top(c), g);
  }

  /** Once its condition is cleared, a branch has nothing left in its scratch. */
  lemma BranchScratch(c: Config, base: nat, epoch: nat)
    requires Shape(c, base, epoch) && c.frames != []
    requires Top(c).node < |Top(c).program.nodes|
    requires (CallOf(Top(c)).If? && Top(c).phase == 1) || (CallOf(Top(c)).Seq? && Top(c).phase == 0)
    ensures ScratchRule(Top(c).(phase := 2), c.scratch, |c.frames| - 1)
    ensures ScratchRule(Top(c).(phase := 2), Blank(c, 0).scratch, |c.frames| - 1)
  {
    hide StackOk, ArenaTop, Linked, OutRule, BufferRule;
    assert ScratchRule(Top(c), c.scratch, |c.frames| - 1);
  }
}

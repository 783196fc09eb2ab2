/**
 What a node does, without fuel: the outcome of a run that is given enough of it, or
 nothing if no amount is enough.
 */
module Runs {
  import opened Ir
  import opened Values
  import opened Interp
  import opened Fuel
  import opened Surface

  datatype Ending =
    | Yields(value: Value, locals: seq<Value>, world: World)
    | Fails(err: Error, world: World)
    | Resets(err: Error)

  function Strip(o: Outcome): Option<Ending> {
    match o
    case Done(v, ls, w, _) => Some(Yields(v, ls, w))
    case Stop(e, w) => Some(Fails(e, w))
    case Wiped(e) => Some(Resets(e))
    case OutOfGas => None
  }

  ghost predicate Ends(p: Program, n: nat, ls: seq<Value>, w: World) {
    exists g: nat :: Eval(p, n, ls, w, g) != OutOfGas
  }

  ghost function Run(p: Program, n: nat, ls: seq<Value>, w: World): Option<Ending> {
    if Ends(p, n, ls, w) then
      var g: nat :| Eval(p, n, ls, w, g) != OutOfGas;
      Strip(Eval(p, n, ls, w, g))
    else None
  }

  /** Any sufficient fuel shows the outcome. */
  lemma RunIs(p: Program, n: nat, ls: seq<Value>, w: World, g: nat)
    requires Eval(p, n, ls, w, g) != OutOfGas
    ensures Run(p, n, ls, w) == Strip(Eval(p, n, ls, w, g))
  {
    hide Eval;
    assert Ends(p, n, ls, w);
    var h: nat :| Eval(p, n, ls, w, h) != OutOfGas && Run(p, n, ls, w) == Strip(Eval(p, n, ls, w, h));
    EvalMore(p, n, ls, w, g, h);
    EvalMore(p, n, ls, w, h, g);
    var a, c, d := Eval(p, n, ls, w, g), Eval(p, n, ls, w, g + h), Eval(p, n, ls, w, h);
    assert Eval(p, n, ls, w, h + g) == c;
    assert Strip(a) == Strip(c) && Strip(d) == Strip(c);
  }

  lemma RunNever(p: Program, n: nat, ls: seq<Value>, w: World)
    requires Run(p, n, ls, w) == None
    ensures forall g: nat :: Eval(p, n, ls, w, g) == OutOfGas
  {
    hide Eval;
    assert Ends(p, n, ls, w) ==> Run(p, n, ls, w).Some?;
  }

  /** A fuel that shows the outcome with at least `spare` units left over. */
  lemma Enough(p: Program, n: nat, ls: seq<Value>, w: World, spare: nat) returns (g: nat)
    requires Run(p, n, ls, w).Some?
    ensures Run(p, n, ls, w) == Strip(Eval(p, n, ls, w, g))
    ensures var o := Eval(p, n, ls, w, g); o != OutOfGas && (o.Done? ==> o.gas >= spare)
  {
    hide Eval;
    var h: nat :| Eval(p, n, ls, w, h) != OutOfGas;
    g := h + spare;
    EvalMore(p, n, ls, w, h, spare);
    RunIs(p, n, ls, w, g);
  }

  function Primitive(r: Result, ls: seq<Value>): Ending {
    match r
    case Value(v, w) => Yields(v, ls, w)
    case Fail(e, w) => Fails(e, w)
  }

  // ----- one equation per kind of node -----

  lemma RunAtOnce(p: Program, n: nat, ls: seq<Value>, w: World)
    requires Eval(p, n, ls, w, 1) != OutOfGas
    ensures Run(p, n, ls, w) == Strip(Eval(p, n, ls, w, 1))
  {
    RunIs(p, n, ls, w, 1);
  }

  lemma RunReadLocal(p: Program, n: nat, ls: seq<Value>, w: World, i: nat)
    requires NodeAt(p, n, ReadLocal(i)) && i < |ls|
    ensures Run(p, n, ls, w) == Some(Yields(ls[i], ls, w))
  {
    RunAtOnce(p, n, ls, w);
  }

  lemma RunLiteral(p: Program, n: nat, ls: seq<Value>, w: World, l: Literal)
    requires LiteralAt(p, n, l)
    ensures Run(p, n, ls, w) == Some(Primitive(LiteralValue(l, w), ls))
  {
    RunAtOnce(p, n, ls, w);
  }

  lemma RunWriteLocal(p: Program, n: nat, ls: seq<Value>, w: World)
    requires n < |p.nodes| && p.nodes[n].WriteLocal? && p.nodes[n].local < |ls|
    ensures var r := Run(p, p.nodes[n].value, ls, w);
      (r.Some? && r.value.Yields? ==> |r.value.locals| == |ls|) &&
      Run(p, n, ls, w) ==
        if r.Some? && r.value.Yields?
        then Some(Yields(Nil, r.value.locals[p.nodes[n].local := r.value.value], r.value.world)) else r
  {
    var r := Run(p, p.nodes[n].value, ls, w);
    if r.Some? {
      var g := Enough(p, p.nodes[n].value, ls, w, 1);
      RunIs(p, n, ls, w, g + 1);
    } else {
      RunNever(p, p.nodes[n].value, ls, w);
      assert forall g: nat :: Eval(p, n, ls, w, g) == OutOfGas;
    }
  }

  /** Whatever the fuel, a run that ends has ended the same way. */
  lemma EvalShows(p: Program, n: nat, ls: seq<Value>, w: World, g: nat)
    ensures var o := Eval(p, n, ls, w, g); o == OutOfGas || Run(p, n, ls, w) == Strip(o)
    ensures Eval(p, n, ls, w, g).Done? ==> |Eval(p, n, ls, w, g).locals| == |ls|
  {
    hide Eval;
    if Eval(p, n, ls, w, g) != OutOfGas { RunIs(p, n, ls, w, g); }
  }

  /** More fuel than enough. */
  lemma Bumped(p: Program, n: nat, ls: seq<Value>, w: World, g: nat, h: nat)
    requires Eval(p, n, ls, w, g) != OutOfGas && g <= h
    ensures Strip(Eval(p, n, ls, w, h)) == Strip(Eval(p, n, ls, w, g)) && Eval(p, n, ls, w, h) != OutOfGas
    ensures Eval(p, n, ls, w, g).Done? ==> Eval(p, n, ls, w, h).gas == Eval(p, n, ls, w, g).gas + (h - g)
  {
    hide Eval;
    EvalMore(p, n, ls, w, g, h - g);
    assert g + (h - g) == h;
  }

  // ----- branches -----

  ghost function Branch(p: Program, node: Node, y: Ending): Option<Ending>
    requires node.If? && y.Yields?
  {
    if !y.value.Bool? then Some(Fails(TypeMismatch, y.world))
    else if !y.value.b && !node.hasElse then Some(Yields(Nil, y.locals, y.world))
    else Run(p, if y.value.b then node.thenBranch else node.elseBranch, y.locals, y.world)
  }

  lemma BranchShows(p: Program, node: Node, y: Ending, g: nat)
    requires node.If? && y.Yields?
    ensures var o := IfBranch(p, node.thenBranch, node.elseBranch, node.hasElse, y.value, y.locals, y.world, g);
      o == OutOfGas || Branch(p, node, y) == Strip(o)
  {
    hide Run, Eval;
    if g > 0 && y.value.Bool? {
      EvalShows(p, if y.value.b then node.thenBranch else node.elseBranch, y.locals, y.world, g - 1);
    }
  }

  lemma BranchEnough(p: Program, node: Node, y: Ending) returns (h: nat)
    requires node.If? && y.Yields? && Branch(p, node, y).Some?
    ensures forall g: nat | g >= h ::
      IfBranch(p, node.thenBranch, node.elseBranch, node.hasElse, y.value, y.locals, y.world, g) != OutOfGas
  {
    hide Run, Eval;
    h := 1;
    if y.value.Bool? && (y.value.b || node.hasElse) {
      var b := if y.value.b then node.thenBranch else node.elseBranch;
      var k := Enough(p, b, y.locals, y.world, 1);
      h := k + 1;
      forall g: nat | g >= h
        ensures IfBranch(p, node.thenBranch, node.elseBranch, node.hasElse, y.value, y.locals, y.world, g) != OutOfGas
      {
        Bumped(p, b, y.locals, y.world, k, g - 1);
      }
    }
  }

  lemma RunIf(p: Program, n: nat, ls: seq<Value>, w: World)
    requires n < |p.nodes| && p.nodes[n].If?
    ensures var r := Run(p, p.nodes[n].condition, ls, w);
      Run(p, n, ls, w) == if r.Some? && r.value.Yields? then Branch(p, p.nodes[n], r.value) else r
  {
    hide Run, Branch, IfBranch;
    var node := p.nodes[n];
    var r := Run(p, node.condition, ls, w);
    var e := if r.Some? && r.value.Yields? then Branch(p, node, r.value) else r;
    if e.Some? {
      var h := 0;
      if r.value.Yields? { h := BranchEnough(p, node, r.value); }
      var g := Enough(p, node.condition, ls, w, h);
      var o := Eval(p, node.condition, ls, w, g);
      if o.Done? { BranchShows(p, node, r.value, o.gas); }
      EvalShows(p, n, ls, w, g + 1);
    } else {
      forall g: nat ensures Eval(p, n, ls, w, g) == OutOfGas {
        if g > 0 {
          EvalShows(p, node.condition, ls, w, g - 1);
          var o := Eval(p, node.condition, ls, w, g - 1);
          if o.Done? { BranchShows(p, node, r.value, o.gas); }
        }
      }
      NeverEnds(p, n, ls, w);
    }
  }

  lemma NeverEnds(p: Program, n: nat, ls: seq<Value>, w: World)
    requires forall g: nat :: Eval(p, n, ls, w, g) == OutOfGas
    ensures Run(p, n, ls, w) == None
  {
    hide Eval;
  }

  // ----- loops -----

  ghost function Round(p: Program, n: nat, y: Ending): Option<Ending>
    requires n < |p.nodes| && p.nodes[n].While? && y.Yields?
  {
    if !y.value.Bool? then Some(Fails(TypeMismatch, y.world))
    else if !y.value.b then Some(Yields(Nil, y.locals, y.world))
    else
      var r := Run(p, p.nodes[n].body, y.locals, y.world);
      if r.Some? && r.value.Yields? then Run(p, n, r.value.locals, r.value.world) else r
  }

  lemma RoundShows(p: Program, n: nat, y: Ending, g: nat)
    requires n < |p.nodes| && p.nodes[n].While? && y.Yields?
    ensures var o := WhileTest(p, n, p.nodes[n].body, y.value, y.locals, y.world, g);
      o == OutOfGas || Round(p, n, y) == Strip(o)
  {
    hide Run, Eval;
    if g > 0 && y.value.Bool? && y.value.b {
      EvalShows(p, p.nodes[n].body, y.locals, y.world, g - 1);
      var o := Eval(p, p.nodes[n].body, y.locals, y.world, g - 1);
      if o.Done? && o.gas > 0 { EvalShows(p, n, o.locals, o.world, o.gas - 1); }
    }
  }

  lemma RoundEnough(p: Program, n: nat, y: Ending) returns (h: nat)
    requires n < |p.nodes| && p.nodes[n].While? && y.Yields? && Round(p, n, y).Some?
    ensures forall g: nat | g >= h :: WhileTest(p, n, p.nodes[n].body, y.value, y.locals, y.world, g) != OutOfGas
  {
    hide Run, Eval;
    h := 1;
    if y.value.Bool? && y.value.b {
      var body := p.nodes[n].body;
      var r := Run(p, body, y.locals, y.world);
      var j := 0;
      if r.value.Yields? { j := Enough(p, n, r.value.locals, r.value.world, 0); }
      var k := Enough(p, body, y.locals, y.world, j + 1);
      h := k + 1;
      forall g: nat | g >= h ensures WhileTest(p, n, body, y.value, y.locals, y.world, g) != OutOfGas {
        Bumped(p, body, y.locals, y.world, k, g - 1);
        var o := Eval(p, body, y.locals, y.world, g - 1);
        if o.Done? { Bumped(p, n, o.locals, o.world, j, o.gas - 1); }
      }
    }
  }

  lemma RunWhile(p: Program, n: nat, ls: seq<Value>, w: World)
    requires n < |p.nodes| && p.nodes[n].While?
    ensures var r := Run(p, p.nodes[n].condition, ls, w);
      Run(p, n, ls, w) == if r.Some? && r.value.Yields? then Round(p, n, r.value) else r
  {
    hide Run, Round, WhileTest;
    var condition := p.nodes[n].condition;
    var r := Run(p, condition, ls, w);
    var e := if r.Some? && r.value.Yields? then Round(p, n, r.value) else r;
    if e.Some? {
      var h := 0;
      if r.value.Yields? { h := RoundEnough(p, n, r.value); }
      var g := Enough(p, condition, ls, w, h);
      var o := Eval(p, condition, ls, w, g);
      if o.Done? { RoundShows(p, n, r.value, o.gas); }
      EvalShows(p, n, ls, w, g + 1);
    } else {
      forall g: nat ensures Eval(p, n, ls, w, g) == OutOfGas {
        if g > 0 {
          EvalShows(p, condition, ls, w, g - 1);
          var o := Eval(p, condition, ls, w, g - 1);
          if o.Done? { RoundShows(p, n, r.value, o.gas); }
        }
      }
      NeverEnds(p, n, ls, w);
    }
  }

  // ----- sequences -----

  /** The items from number `i` on, one after the other. */
  ghost function ItemsRun(p: Program, first: nat, count: nat, i: nat, ls: seq<Value>, w: World): Option<Ending>
    decreases count - i
  {
    if count == 0 then Some(Yields(Nil, ls, w))
    else if first + i >= |p.links| then Some(Fails(Malformed, w))
    else
      var r := Run(p, p.links[first + i], ls, w);
      if r.Some? && r.value.Yields? && i + 1 < count
      then ItemsRun(p, first, count, i + 1, r.value.locals, r.value.world) else r
  }

  lemma {:induction false} ItemsShow(p: Program, first: nat, count: nat, i: nat, ls: seq<Value>, w: World, g: nat)
    ensures var o := SeqFrom(p, first, count, i, ls, w, g); o == OutOfGas || ItemsRun(p, first, count, i, ls, w) == Strip(o)
    decreases count - i
  {
    hide Run, Eval;
    if g > 0 && count > 0 && first + i < |p.links| {
      EvalShows(p, p.links[first + i], ls, w, g - 1);
      var o := Eval(p, p.links[first + i], ls, w, g - 1);
      if o.Done? && o.gas > 0 && i + 1 < count { ItemsShow(p, first, count, i + 1, o.locals, o.world, o.gas - 1); }
    }
  }

  lemma {:induction false} ItemsEnough(p: Program, first: nat, count: nat, i: nat, ls: seq<Value>, w: World) returns (h: nat)
    requires ItemsRun(p, first, count, i, ls, w).Some?
    ensures forall g: nat | g >= h :: SeqFrom(p, first, count, i, ls, w, g) != OutOfGas
    decreases count - i
  {
    hide Run, Eval;
    h := 1;
    if count > 0 && first + i < |p.links| {
      var item := p.links[first + i];
      var r := Run(p, item, ls, w);
      var j := 0;
      if r.value.Yields? && i + 1 < count { j := ItemsEnough(p, first, count, i + 1, r.value.locals, r.value.world); }
      var k := Enough(p, item, ls, w, j + 1);
      h := k + 1;
      forall g: nat | g >= h ensures SeqFrom(p, first, count, i, ls, w, g) != OutOfGas {
        Bumped(p, item, ls, w, k, g - 1);
        var o := Eval(p, item, ls, w, g - 1);
        if o.Done? && i + 1 < count {
          assert SeqFrom(p, first, count, i + 1, o.locals, o.world, o.gas - 1) != OutOfGas;
        }
      }
    }
  }

  lemma RunSeq(p: Program, n: nat, ls: seq<Value>, w: World)
    requires n < |p.nodes| && p.nodes[n].Seq?
    ensures Run(p, n, ls, w) == ItemsRun(p, p.nodes[n].firstItem, p.nodes[n].itemCount, 0, ls, w)
  {
    hide Run, ItemsRun, SeqFrom;
    var first, count := p.nodes[n].firstItem, p.nodes[n].itemCount;
    if ItemsRun(p, first, count, 0, ls, w).Some? {
      var h := ItemsEnough(p, first, count, 0, ls, w);
      ItemsShow(p, first, count, 0, ls, w, h + 1);
      EvalShows(p, n, ls, w, h + 1);
    } else {
      forall g: nat ensures Eval(p, n, ls, w, g) == OutOfGas { ItemsShow(p, first, count, 0, ls, w, g); }
      NeverEnds(p, n, ls, w);
    }
  }

  // ----- calls -----

  /** What a call yields once its arguments are in place. */
  ghost function Made(callee: Callee, vc: Value, args: seq<Value>, ls: seq<Value>, w: World): Option<Ending> {
    match callee
    case BuiltinCallee(b) => Some(Primitive(BuiltinIn(w, b, args), ls))
    case RecordCallee => Some(Primitive(NewRecordIn(w, vc, args), ls))
    case NativeCallee(_) =>
      Some(if NextEffect(w.script).ResetRuntime? then Resets(ResetError(NextEffect(w.script).code)) else Primitive(NativeResult(w, args), ls))
    case CodeCallee(program, body) =>
      var r := Run(program, body, args, w);
      if r.Some? && r.value.Yields? then Some(Yields(r.value.value, ls, r.value.world)) else r
    case NoCallee => Some(Fails(Signature, w))
  }

  /** The arguments from number `i` on, and then the call. */
  ghost function CallRun(p: Program, first: nat, count: nat, callee: Callee, vc: Value, i: nat, args: seq<Value>, ls: seq<Value>, w: World)
    : Option<Ending>
    decreases count - i
  {
    if i >= count then Made(callee, vc, args, ls, w)
    else if first + i >= |p.links| || i >= |args| then Some(Fails(Malformed, w))
    else
      var r := Run(p, p.links[first + i], ls, w);
      if r.Some? && r.value.Yields?
      then CallRun(p, first, count, callee, vc, i + 1, args[i := r.value.value], r.value.locals, r.value.world) else r
  }

  lemma MadeShows(p: Program, first: nat, count: nat, callee: Callee, vc: Value, args: seq<Value>, ls: seq<Value>, w: World, g: nat)
    ensures var o := Arguments(p, first, count, callee, count, vc, args, ls, w, g);
      o == OutOfGas || Made(callee, vc, args, ls, w) == Strip(o)
  {
    hide Run, Eval, BuiltinIn, NewRecordIn, NativeResult;
    if g > 0 && callee.CodeCallee? {
      EvalShows(callee.program, callee.body, args, w, g - 1);
    }
  }

  lemma {:induction false} CallShows(p: Program, first: nat, count: nat, callee: Callee, vc: Value, i: nat, args: seq<Value>,
                                     ls: seq<Value>, w: World, g: nat)
    requires i <= count
    ensures var o := Arguments(p, first, count, callee, i, vc, args, ls, w, g);
      o == OutOfGas || CallRun(p, first, count, callee, vc, i, args, ls, w) == Strip(o)
    decreases count - i
  {
    hide Run, Eval, BuiltinIn, NewRecordIn, NativeResult, Made;
    if i == count {
      MadeShows(p, first, count, callee, vc, args, ls, w, g);
    } else if g > 0 && first + i < |p.links| && i < |args| {
      EvalShows(p, p.links[first + i], ls, w, g - 1);
      var o := Eval(p, p.links[first + i], ls, w, g - 1);
      if o.Done? { CallShows(p, first, count, callee, vc, i + 1, args[i := o.value], o.locals, o.world, o.gas); }
    }
  }

  lemma MadeEnough(p: Program, first: nat, count: nat, callee: Callee, vc: Value, args: seq<Value>, ls: seq<Value>, w: World) returns (h: nat)
    requires Made(callee, vc, args, ls, w).Some?
    ensures forall g: nat | g >= h :: Arguments(p, first, count, callee, count, vc, args, ls, w, g) != OutOfGas
  {
    hide Run, Eval, BuiltinIn, NewRecordIn, NativeResult;
    h := 1;
    if callee.CodeCallee? {
      var k := Enough(callee.program, callee.body, args, w, 1);
      h := k + 1;
      forall g: nat | g >= h ensures Arguments(p, first, count, callee, count, vc, args, ls, w, g) != OutOfGas {
        Bumped(callee.program, callee.body, args, w, k, g - 1);
      }
    }
  }

  lemma {:induction false} CallEnough(p: Program, first: nat, count: nat, callee: Callee, vc: Value, i: nat, args: seq<Value>,
                                      ls: seq<Value>, w: World)
    returns (h: nat)
    requires i <= count && CallRun(p, first, count, callee, vc, i, args, ls, w).Some?
    ensures forall g: nat | g >= h :: Arguments(p, first, count, callee, i, vc, args, ls, w, g) != OutOfGas
    decreases count - i
  {
    hide Run, Eval, BuiltinIn, NewRecordIn, NativeResult, Made;
    h := 1;
    if i == count {
      h := MadeEnough(p, first, count, callee, vc, args, ls, w);
    } else if first + i < |p.links| && i < |args| {
      var item := p.links[first + i];
      var r := Run(p, item, ls, w);
      var j := 0;
      if r.value.Yields? {
        j := CallEnough(p, first, count, callee, vc, i + 1, args[i := r.value.value], r.value.locals, r.value.world);
      }
      var k := Enough(p, item, ls, w, j);
      h := k + 1;
      forall g: nat | g >= h ensures Arguments(p, first, count, callee, i, vc, args, ls, w, g) != OutOfGas {
        Bumped(p, item, ls, w, k, g - 1);
      }
    }
  }

  /** The call is made without looking at its callee node. */
  lemma RunBuiltin(p: Program, n: nat, ls: seq<Value>, w: World)
    requires n < |p.nodes| && p.nodes[n].Call? && p.nodes[n].builtin != NoBuiltin
    ensures Run(p, n, ls, w)
         == CallRun(p, p.nodes[n].firstArg, p.nodes[n].argCount, BuiltinCallee(p.nodes[n].builtin), Nil, 0,
              Nils(p.nodes[n].argCount), ls, w)
  {
    hide Run, CallRun, Arguments;
    var first, count, callee := p.nodes[n].firstArg, p.nodes[n].argCount, BuiltinCallee(p.nodes[n].builtin);
    if CallRun(p, first, count, callee, Nil, 0, Nils(count), ls, w).Some? {
      var h := CallEnough(p, first, count, callee, Nil, 0, Nils(count), ls, w);
      CallShows(p, first, count, callee, Nil, 0, Nils(count), ls, w, h);
      EvalShows(p, n, ls, w, h + 1);
    } else {
      forall g: nat ensures Eval(p, n, ls, w, g) == OutOfGas {
        if g > 0 { CallShows(p, first, count, callee, Nil, 0, Nils(count), ls, w, g - 1); }
      }
      NeverEnds(p, n, ls, w);
    }
  }

  /** A call of a value: resolved first, and its arguments evaluated only then. */
  ghost function Resolving(p: Program, first: nat, count: nat, y: Ending): Option<Ending>
    requires y.Yields?
  {
    match Interp.Resolve(Look(y.world.heap, y.value), count)
    case Unresolved(e) => Some(Fails(e, y.world))
    case Resolved(callee, size) => CallRun(p, first, count, callee, y.value, 0, Nils(size), y.locals, y.world)
  }

  lemma ResolvingShows(p: Program, first: nat, count: nat, y: Ending, g: nat)
    requires y.Yields?
    ensures var o := CallResolved(p, first, count, y.value, y.locals, y.world, g);
      o == OutOfGas || Resolving(p, first, count, y) == Strip(o)
  {
    hide CallRun, Arguments;
    var r := Interp.Resolve(Look(y.world.heap, y.value), count);
    if g > 0 && r.Resolved? {
      CallShows(p, first, count, r.callee, y.value, 0, Nils(r.slots), y.locals, y.world, g - 1);
    }
  }

  lemma ResolvingEnough(p: Program, first: nat, count: nat, y: Ending) returns (h: nat)
    requires y.Yields? && Resolving(p, first, count, y).Some?
    ensures forall g: nat | g >= h :: CallResolved(p, first, count, y.value, y.locals, y.world, g) != OutOfGas
  {
    hide CallRun, Arguments;
    h := 1;
    var r := Interp.Resolve(Look(y.world.heap, y.value), count);
    if r.Resolved? {
      h := CallEnough(p, first, count, r.callee, y.value, 0, Nils(r.slots), y.locals, y.world);
      h := h + 1;
    }
  }

  lemma RunCall(p: Program, n: nat, ls: seq<Value>, w: World)
    requires n < |p.nodes| && p.nodes[n].Call? && p.nodes[n].builtin == NoBuiltin
    ensures var c := Run(p, p.nodes[n].callee, ls, w);
      Run(p, n, ls, w) ==
        if c.Some? && c.value.Yields? then Resolving(p, p.nodes[n].firstArg, p.nodes[n].argCount, c.value) else c
  {
    hide Run, Resolving, CallResolved;
    var callee, first, count := p.nodes[n].callee, p.nodes[n].firstArg, p.nodes[n].argCount;
    var c := Run(p, callee, ls, w);
    var e := if c.Some? && c.value.Yields? then Resolving(p, first, count, c.value) else c;
    if e.Some? {
      var h := 0;
      if c.value.Yields? { h := ResolvingEnough(p, first, count, c.value); }
      var g := Enough(p, callee, ls, w, h);
      var o := Eval(p, callee, ls, w, g);
      if o.Done? { ResolvingShows(p, first, count, c.value, o.gas); }
      EvalShows(p, n, ls, w, g + 1);
    } else {
      forall g: nat ensures Eval(p, n, ls, w, g) == OutOfGas {
        if g > 0 {
          EvalShows(p, callee, ls, w, g - 1);
          var o := Eval(p, callee, ls, w, g - 1);
          if o.Done? { ResolvingShows(p, first, count, c.value, o.gas); }
        }
      }
      NeverEnds(p, n, ls, w);
    }
  }
}

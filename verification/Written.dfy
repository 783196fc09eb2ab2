/**
 What the parts of an expression do in what it was parsed into: which are run, in which
 order, and what becomes of their values.
 */
module Written {
  import opened Ir
  import opened Values
  import opened Interp
  import opened Surface
  import opened Runs
  import opened Meaning

  predicate Goes(r: Option<Ending>) { r.Some? && r.value.Yields? }

  // ----- operators -----

  /** The left operand is evaluated first, and the right one only if that yields a value. Both
      values are handed to the operator, the left one first. */
  lemma OperatorParsed(env: Env, e: Expr, p: Program, id: nat, n: nat, ls: seq<Value>, w: World) returns (a: nat, b: nat)
    requires e.Binary? && Means(env, e, p, id, n)
    ensures Means(env, e.left, p, a, n) && Means(env, e.right, p, b, n + Used(e.left))
    ensures var l := Run(p, a, ls, w);
      if !Goes(l) then Run(p, id, ls, w) == l
      else
        var r := Run(p, b, l.value.locals, l.value.world);
        if !Goes(r) then Run(p, id, ls, w) == r
        else Operands(p, id, e.op, ls, w, [l.value.value, r.value.value], r.value.locals, r.value.world)
  {
    hide Run, Made;
    a, b := Arg(p, id, 0), Arg(p, id, 1);
    var first := p.nodes[id].firstArg;
    RunBuiltin(p, id, ls, w);
    var l := Run(p, a, ls, w);
    if Goes(l) {
      var args := Nils(2)[0 := l.value.value];
      assert CallRun(p, first, 2, BuiltinCallee(e.op), Nil, 0, Nils(2), ls, w)
        == CallRun(p, first, 2, BuiltinCallee(e.op), Nil, 1, args, l.value.locals, l.value.world);
      var r := Run(p, b, l.value.locals, l.value.world);
      if Goes(r) {
        BothEvaluated(p, a, b, ls, w);
        assert p.links[first..first + 2] == [a, b];
      }
    }
  }

  lemma BothEvaluated(p: Program, a: nat, b: nat, ls: seq<Value>, w: World)
    requires Goes(Run(p, a, ls, w)) && Goes(Run(p, b, Run(p, a, ls, w).value.locals, Run(p, a, ls, w).value.world))
    ensures var l := Run(p, a, ls, w).value;
      var r := Run(p, b, l.locals, l.world).value;
      Evaluates(p, [a, b], ls, w, [l.value, r.value], r.locals, r.world)
  {
    hide Run;
    var l := Run(p, a, ls, w).value;
    var r := Run(p, b, l.locals, l.world).value;
    assert [a, b][1..] == [b] && [b][1..] == [] && [l.value, r.value][1..] == [r.value] && [r.value][1..] == [];
    assert Evaluates(p, [], r.locals, r.world, [], r.locals, r.world);
    assert Evaluates(p, [b], l.locals, l.world, [r.value], r.locals, r.world);
  }

  /** Written arithmetic on written integers. */
  lemma ArithmeticWritten(env: Env, op: Builtin, x: Int30, y: Int30, p: Program, id: nat, n: nat, ls: seq<Value>, w: World)
    requires Means(env, Binary(op, Number(x), Number(y)), p, id, n)
    ensures op == Add ==> YieldsWrapped(Run(p, id, ls, w), x + y, ls, w)
    ensures op == Sub ==> YieldsWrapped(Run(p, id, ls, w), x - y, ls, w)
    ensures op == Mul ==> YieldsWrapped(Run(p, id, ls, w), x * y, ls, w)
    ensures op == Lt ==> Run(p, id, ls, w) == Some(Yields(Bool(x < y), ls, w))
    ensures op == Gt ==> Run(p, id, ls, w) == Some(Yields(Bool(y < x), ls, w))
    ensures forall q: int, r: int :: op == Div && y != 0 && Divides(x, y, q, r) ==> YieldsWrapped(Run(p, id, ls, w), q, ls, w)
  {
    hide Run, Operands, YieldsWrapped, Divides;
    var a, b := OperatorParsed(env, Binary(op, Number(x), Number(y)), p, id, n, ls, w);
    WrittenLiteral(env, Number(x), p, a, n, ls, w);
    WrittenLiteral(env, Number(y), p, b, n + Used(Number(x)), ls, w);
    match op
    case Add => SumMeaning(p, id, ls, w, x, y, ls, w);
    case Sub => DifferenceMeaning(p, id, ls, w, x, y, ls, w);
    case Mul => ProductMeaning(p, id, ls, w, x, y, ls, w);
    case Lt | Gt => OrderMeaning(p, id, op, ls, w, x, y, ls, w);
    case Div =>
      forall q: int, r: int | y != 0 && Divides(x, y, q, r) ensures YieldsWrapped(Run(p, id, ls, w), q, ls, w) {
        QuotientMeaning(p, id, ls, w, x, y, ls, w, q, r);
      }
    case _ =>
  }

  // ----- control -----

  /** The condition is run first and must yield a boolean; then one block is run, and no other.
      Without an `else` block a false condition yields nil. */
  lemma ChoiceParsed(env: Env, e: Expr, p: Program, id: nat, n: nat, ls: seq<Value>, w: World) returns (c: nat, yes: nat, no: nat)
    requires e.Choice? && Means(env, e, p, id, n)
    ensures Means(env, e.condition, p, c, n) && BlockMeans(env, e.yes, p, yes, n + Used(e.condition))
    ensures e.otherwise.Else? ==> BlockMeans(env, e.otherwise.items, p, no, n + Used(e.condition) + UsedItems(e.yes))
    ensures var r := Run(p, c, ls, w);
      Run(p, id, ls, w) ==
        if !Goes(r) then r
        else if !r.value.value.Bool? then Some(Fails(TypeMismatch, r.value.world))
        else if r.value.value.b then Run(p, yes, r.value.locals, r.value.world)
        else if e.otherwise.NoElse? then Some(Yields(Nil, r.value.locals, r.value.world))
        else Run(p, no, r.value.locals, r.value.world)
  {
    hide Run, BlockMeans;
    c, yes, no := p.nodes[id].condition, p.nodes[id].thenBranch, p.nodes[id].elseBranch;
    RunIf(p, id, ls, w);
  }

  /** As long as the condition yields true the body is run and then the whole loop again; a loop
      that ends yields nil. */
  lemma LoopParsed(env: Env, e: Expr, p: Program, id: nat, n: nat, ls: seq<Value>, w: World) returns (c: nat, body: nat)
    requires e.Loop? && Means(env, e, p, id, n)
    ensures Means(env, e.condition, p, c, n) && BlockMeans(env, e.body, p, body, n + Used(e.condition))
    ensures var r := Run(p, c, ls, w);
      Run(p, id, ls, w) ==
        if !Goes(r) then r
        else if !r.value.value.Bool? then Some(Fails(TypeMismatch, r.value.world))
        else if !r.value.value.b then Some(Yields(Nil, r.value.locals, r.value.world))
        else
          var s := Run(p, body, r.value.locals, r.value.world);
          if Goes(s) then Run(p, id, s.value.locals, s.value.world) else s
  {
    hide Run, BlockMeans;
    c, body := p.nodes[id].condition, p.nodes[id].body;
    RunWhile(p, id, ls, w);
  }

  // ----- blocks -----

  /** The nodes one after the other; the last one's value, or nil if there are none. */
  ghost function InOrder(p: Program, nodes: seq<nat>, ls: seq<Value>, w: World): Option<Ending>
    decreases |nodes|
  {
    if nodes == [] then Some(Yields(Nil, ls, w))
    else
      var r := Run(p, nodes[0], ls, w);
      if |nodes| > 1 && Goes(r) then InOrder(p, nodes[1..], r.value.locals, r.value.world) else r
  }

  lemma {:induction false} InOrderIs(p: Program, first: nat, count: nat, i: nat, ls: seq<Value>, w: World)
    requires first + count <= |p.links| && (i < count || i == count == 0)
    ensures ItemsRun(p, first, count, i, ls, w) == InOrder(p, p.links[first + i..first + count], ls, w)
    decreases count - i
  {
    hide Run;
    var nodes := p.links[first + i..first + count];
    if count > 0 {
      assert nodes[0] == p.links[first + i] && nodes[1..] == p.links[first + (i + 1)..first + count];
      var r := Run(p, nodes[0], ls, w);
      if Goes(r) && i + 1 < count { InOrderIs(p, first, count, i + 1, r.value.locals, r.value.world); }
    }
  }

  lemma {:induction false} ItemsListed(env: Env, items: Items, p: Program, first: nat, n: nat)
    requires ItemsMean(env, items, p, first, n) && first + Count(items) <= |p.links|
    ensures ItemIdsMean(env, items, p, p.links[first..first + Count(items)], n)
    decreases items
  {
    hide ItemMeans;
    if items.MoreItems? {
      ItemsListed(After(env, items.head, n), items.tail, p, first + 1, n + UsedItem(items.head));
      assert p.links[first..first + Count(items)][1..] == p.links[first + 1..first + 1 + Count(items.tail)];
    }
  }

  /** A block runs its items in the order written, each in the scope of the ones before, and
      yields what the last one yields. */
  lemma BlockParsed(env: Env, items: Items, p: Program, id: nat, n: nat, ls: seq<Value>, w: World) returns (nodes: seq<nat>)
    requires BlockMeans(env, items, p, id, n)
    ensures |nodes| == Count(items) && ItemIdsMean(env, items, p, nodes, n)
    ensures Run(p, id, ls, w) == InOrder(p, nodes, ls, w)
  {
    hide Run, ItemsMean, ItemIdsMean, ItemsRun, InOrder;
    var first := p.nodes[id].firstItem;
    nodes := p.links[first..first + Count(items)];
    ItemsListed(env, items, p, first, n);
    RunSeq(p, id, ls, w);
    InOrderIs(p, first, Count(items), 0, ls, w);
  }

  // ----- local names -----

  /** A declared name holds the value it was declared with: its next use reads that. */
  lemma HereThenRead(env: Env, x: Token, value: Expr, p: Program, id: nat, n: nat, ls: seq<Value>, w: World,
      q: Program, use: nat, m: nat)
    returns (v: nat)
    requires ItemMeans(env, Here(x, value), p, id, n) && n + Used(value) < |ls|
    requires Means(After(env, Here(x, value), n), Name(x), q, use, m)
    ensures Means(env, value, p, v, n)
    ensures var r := Run(p, v, ls, w);
      if !Goes(r) then Run(p, id, ls, w) == r
      else
        exists ls2 ::
          && Run(p, id, ls, w) == Some(Yields(Nil, ls2, r.value.world)) && |ls2| == |r.value.locals|
          && (forall k :: 0 <= k < |ls2| && k != n + Used(value) ==> ls2[k] == r.value.locals[k])
          && forall u :: Run(q, use, ls2, u) == Some(Yields(r.value.value, ls2, u))
  {
    hide Run;
    v := p.nodes[id].value;
    var at := n + Used(value);
    RunWriteLocal(p, id, ls, w);
    var r := Run(p, v, ls, w);
    if Goes(r) {
      var ls2 := r.value.locals[at := r.value.value];
      assert Find(After(env, Here(x, value), n).inner, x) == Some(at);
      forall u ensures Run(q, use, ls2, u) == Some(Yields(r.value.value, ls2, u)) {
        RunReadLocal(q, use, ls2, u, at);
      }
    }
  }

  /** After `set x to value` the name reads as the value, and no other local has changed. */
  lemma SetThenRead(env: Env, x: Token, value: Expr, p: Program, id: nat, n: nat, ls: seq<Value>, w: World,
      q: Program, use: nat, m: nat)
    returns (v: nat)
    requires ItemMeans(env, Set(Name(x), value), p, id, n) && Surface.Resolve(env, x).Local? && Surface.Resolve(env, x).index < |ls|
    requires Means(env, Name(x), q, use, m)
    ensures Means(env, value, p, v, n)
    ensures var r := Run(p, v, ls, w);
      if !Goes(r) then Run(p, id, ls, w) == r
      else
        exists ls2 ::
          && Run(p, id, ls, w) == Some(Yields(Nil, ls2, r.value.world)) && |ls2| == |r.value.locals|
          && (forall k :: 0 <= k < |ls2| && k != Surface.Resolve(env, x).index ==> ls2[k] == r.value.locals[k])
          && forall u :: Run(q, use, ls2, u) == Some(Yields(r.value.value, ls2, u))
  {
    hide Run, Surface.Resolve;
    v := p.nodes[id].value;
    var at := Surface.Resolve(env, x).index;
    RunWriteLocal(p, id, ls, w);
    var r := Run(p, v, ls, w);
    if Goes(r) {
      var ls2 := r.value.locals[at := r.value.value];
      forall u ensures Run(q, use, ls2, u) == Some(Yields(r.value.value, ls2, u)) {
        RunReadLocal(q, use, ls2, u, at);
      }
    }
  }

  // ----- functions -----

  lemma {:induction false} ParameterFound(params: seq<string>, upTo: nat, k: nat)
    requires k < upTo <= |params| && forall i, j :: 0 <= i < j < |params| ==> params[i] != params[j]
    ensures Find(seq(upTo, i requires 0 <= i < upTo => (params[i], i)), params[k]) == Some(k)
    decreases upTo
  {
    var inner := seq(upTo, i requires 0 <= i < upTo => (params[i], i));
    if k < upTo - 1 {
      assert inner[..upTo - 1] == seq(upTo - 1, i requires 0 <= i < upTo - 1 => (params[i], i));
      ParameterFound(params, upTo - 1, k);
    }
  }

  /** A function yields a new code object that takes as many arguments as it has parameters.
      Its body is run on its arguments, and there parameter number k is argument number k. */
  lemma FunctionParsed(env: Env, e: Expr, p: Program, id: nat, n: nat, ls: seq<Value>, w: World) returns (f: Object)
    requires e.Lambda? && Means(env, e, p, id, n)
    ensures Run(p, id, ls, w) == Some(Yields(Obj(|w.heap|), ls, w.(heap := w.heap + [f])))
    ensures f.Code? && f.arity == |e.params| <= f.localCount && BlockMeans(FnEnv(env, e.params), e.body, f.program, f.body, f.arity)
    ensures forall k, q, use, m, args, u ::
      0 <= k < |e.params| <= |args| && (forall i, j :: 0 <= i < j < |e.params| ==> e.params[i] != e.params[j])
      && Means(FnEnv(env, e.params), Name(e.params[k]), q, use, m)
      ==> Run(q, use, args, u) == Some(Yields(args[k], args, u))
  {
    hide Run, BlockMeans, FnEnv;
    f := Code(p, p.nodes[id].body, |e.params|, |e.params| + UsedItems(e.body));
    RunAtOnce(p, id, ls, w);
    forall k, q, use, m, args, u |
      0 <= k < |e.params| <= |args| && (forall i, j :: 0 <= i < j < |e.params| ==> e.params[i] != e.params[j])
      && Means(FnEnv(env, e.params), Name(e.params[k]), q, use, m)
      ensures Run(q, use, args, u) == Some(Yields(args[k], args, u))
    {
      ParameterRead(env, e.params, k, q, use, m, args, u);
    }
  }

  lemma ParameterRead(env: Env, params: seq<string>, k: nat, q: Program, use: nat, m: nat, args: seq<Value>, u: World)
    requires k < |params| <= |args| && (forall i, j :: 0 <= i < j < |params| ==> params[i] != params[j]) && IsToken(params[k])
    requires Means(FnEnv(env, params), Name(params[k]), q, use, m)
    ensures Run(q, use, args, u) == Some(Yields(args[k], args, u))
  {
    hide Run;
    ParameterFound(params, |params|, k);
    RunReadLocal(q, use, args, u, k);
  }

  lemma {:induction false} ArgumentsListed(env: Env, args: Exprs, p: Program, first: nat, n: nat)
    requires ArgsMean(env, args, p, first, n) && first + ArgCount(args) <= |p.links|
    ensures ArgIdsMean(env, args, p, p.links[first..first + ArgCount(args)], n)
    decreases args
  {
    hide Means;
    if args.MoreExprs? {
      ArgumentsListed(env, args.tail, p, first + 1, n + Used(args.head));
      assert p.links[first..first + ArgCount(args)][1..] == p.links[first + 1..first + 1 + ArgCount(args.tail)];
    }
  }

  /** The callee is evaluated first and then, if it is a function of as many parameters, the
      arguments in the order written; its body is run on their values, and nil locals behind them. */
  lemma CallParsed(env: Env, e: Expr, p: Program, id: nat, n: nat, ls: seq<Value>, w: World,
      f: nat, ls1: seq<Value>, w1: World, vs: seq<Value>, ls2: seq<Value>, w2: World)
    returns (callee: nat, nodes: seq<nat>)
    requires e.Apply? && Means(env, e, p, id, n) && Backward(p)
    ensures Means(env, e.callee, p, callee, n) && |nodes| == ArgCount(e.args) && ArgIdsMean(env, e.args, p, nodes, n + Used(e.callee))
    ensures !Goes(Run(p, callee, ls, w)) ==> Run(p, id, ls, w) == Run(p, callee, ls, w)
    ensures Run(p, callee, ls, w) == Some(Yields(Obj(f), ls1, w1)) && f < |w1.heap| && w1.heap[f].Code? ==>
      Evaluates(p, nodes, ls1, w1, vs, ls2, w2) ==>
      var c := w1.heap[f];
      if c.arity != ArgCount(e.args) || c.localCount < c.arity then Run(p, id, ls, w) == Some(Fails(Signature, w1))
      else
        var r := Run(c.program, c.body, vs + seq(c.localCount - c.arity, _ => Nil), w2);
        Run(p, id, ls, w) == if Goes(r) then Some(Yields(r.value.value, ls2, r.value.world)) else r
  {
    hide Run, Evaluates, ArgIdsMean, ArgsMean, Means;
    CallShape(env, e, p, id, n);
    var first, count := p.nodes[id].firstArg, ArgCount(e.args);
    callee, nodes := p.nodes[id].callee, p.links[first..first + count];
    ArgumentsListed(env, e.args, p, first, n + Used(e.callee));
    RunCall(p, id, ls, w);
    if Run(p, callee, ls, w) == Some(Yields(Obj(f), ls1, w1)) && f < |w1.heap| && w1.heap[f].Code?
      && Evaluates(p, nodes, ls1, w1, vs, ls2, w2) {
      FunctionMeaning(p, id, ls, w, f, ls1, w1, vs, ls2, w2);
    }
  }

  lemma CallShape(env: Env, e: Expr, p: Program, id: nat, n: nat)
    requires e.Apply? && Means(env, e, p, id, n) && Backward(p)
    ensures id < |p.nodes| && p.nodes[id].Call? && p.nodes[id].builtin == NoBuiltin && p.nodes[id].argCount == ArgCount(e.args)
    ensures Means(env, e.callee, p, p.nodes[id].callee, n)
    ensures ArgsMean(env, e.args, p, p.nodes[id].firstArg, n + Used(e.callee))
    ensures p.nodes[id].firstArg + ArgCount(e.args) <= |p.links|
  {
    assert RefersBelow(p, p.nodes[id], id);
  }

  // ----- elements and fields -----

  /** The object is evaluated first, then the position. */
  lemma ElementParsed(env: Env, e: Expr, p: Program, id: nat, n: nat, ls: seq<Value>, w: World,
      obj: nat, i: Int30, ls2: seq<Value>, w2: World)
    returns (b: nat, x: nat)
    requires e.Element? && Means(env, e, p, id, n)
    ensures Means(env, e.base, p, b, n) && Means(env, e.position, p, x, n + Used(e.base))
    ensures Evaluates(p, [b, x], ls, w, [Obj(obj), Int(i)], ls2, w2) && obj < |w2.heap| && w2.heap[obj].Cells? ==>
      Run(p, id, ls, w) ==
        if 0 <= i < |w2.heap[obj].items| then Some(Yields(w2.heap[obj].items[i], ls2, w2)) else Some(Fails(Bounds, w2))
  {
    hide Run, Evaluates;
    b, x := p.nodes[id].base, p.nodes[id].index;
    if Evaluates(p, [b, x], ls, w, [Obj(obj), Int(i)], ls2, w2) && obj < |w2.heap| && w2.heap[obj].Cells? {
      ReadCellMeaning(p, id, ls, w, obj, i, ls2, w2);
    }
  }

  /** The object, then the position, then the value; and then that element holds that value. */
  lemma ElementSet(env: Env, place: Expr, value: Expr, p: Program, id: nat, n: nat, ls: seq<Value>, w: World,
      obj: nat, i: Int30, v: Value, ls2: seq<Value>, w2: World)
    returns (b: nat, x: nat, y: nat)
    requires place.Element? && ItemMeans(env, Set(place, value), p, id, n)
    ensures Means(env, place.base, p, b, n) && Means(env, place.position, p, x, n + Used(place.base))
    ensures Means(env, value, p, y, n + Used(place.base) + Used(place.position))
    ensures Evaluates(p, [b, x, y], ls, w, [Obj(obj), Int(i), v], ls2, w2) && obj < |w2.heap| && w2.heap[obj].Cells?
        && Known(w2, v) && Keepable(w2, v) && 0 <= i < |w2.heap[obj].items|
      ==> Run(p, id, ls, w) == Some(Yields(Nil, ls2, w2.(heap := w2.heap[obj := Cells(w2.heap[obj].items[i := v])])))
  {
    hide Run, Evaluates, Keepable, Means, ItemMeans;
    ElementPlace(env, place, value, p, id, n);
    b, x, y := p.nodes[id].base, p.nodes[id].index, p.nodes[id].value;
    if Evaluates(p, [b, x, y], ls, w, [Obj(obj), Int(i), v], ls2, w2) && obj < |w2.heap| && w2.heap[obj].Cells? && Known(w2, v) {
      WriteCellMeaning(p, id, ls, w, obj, i, v, ls2, w2);
    }
  }

  lemma ElementPlace(env: Env, place: Expr, value: Expr, p: Program, id: nat, n: nat)
    requires place.Element? && ItemMeans(env, Set(place, value), p, id, n)
    ensures id < |p.nodes| && p.nodes[id].WriteIndex?
    ensures Means(env, place.base, p, p.nodes[id].base, n) && Means(env, place.position, p, p.nodes[id].index, n + Used(place.base))
    ensures Means(env, value, p, p.nodes[id].value, n + Used(place.base) + Used(place.position))
  {
    hide Means, Used;
  }

  /** The record, then the value; and then that field holds that value. */
  lemma FieldSet(env: Env, place: Expr, value: Expr, p: Program, id: nat, n: nat, ls: seq<Value>, w: World,
      obj: nat, k: nat, v: Value, ls2: seq<Value>, w2: World)
    returns (b: nat, y: nat)
    requires place.Member? && ItemMeans(env, Set(place, value), p, id, n)
    ensures Means(env, place.base, p, b, n) && Means(env, value, p, y, n + Used(place.base))
    ensures Evaluates(p, [b, y], ls, w, [Obj(obj), v], ls2, w2) && FieldAt(w2, obj, place.field, k) && Known(w2, v) && Keepable(w2, v) ==>
      Run(p, id, ls, w) == Some(Yields(Nil, ls2,
        w2.(heap := w2.heap[obj := Record(w2.heap[obj].definition, w2.heap[obj].fields[k := v])])))
  {
    hide Run, Evaluates, Keepable, FieldAt;
    b, y := p.nodes[id].base, p.nodes[id].value;
    if Evaluates(p, [b, y], ls, w, [Obj(obj), v], ls2, w2) && FieldAt(w2, obj, place.field, k) && Known(w2, v) {
      WriteFieldMeaning(p, id, ls, w, obj, k, v, ls2, w2);
    }
  }
}

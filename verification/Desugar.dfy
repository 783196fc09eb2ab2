/**
 What the nodes that `repeat`, `case`, `cond`, `and`, `or` and `unless` become mean.
 */
module Desugar {
  import opened Ir
  import opened Values
  import opened Interp
  import opened Surface
  import opened Locals
  import opened Runs
  import opened Scoping

  lemma RunKeeps(p: Program, n: nat, ls: seq<Value>, w: World, k: nat)
    requires LocalsBelow(p, n, k)
    ensures var r := Run(p, n, ls, w);
      r.Some? && r.value.Yields? ==>
        |r.value.locals| == |ls| && forall i | k <= i < |ls| :: r.value.locals[i] == ls[i]
  {
    hide Eval, LocalsBelow;
    if Run(p, n, ls, w).Some? {
      var g := Enough(p, n, ls, w, 0);
      EvalKeeps(p, n, ls, w, g, k);
    }
  }

  // ----- two-argument builtins on simple arguments -----

  lemma RunPair(p: Program, id: nat, op: Builtin, ls: seq<Value>, w: World, a: Value, b: Value, w1: World)
    requires BuiltinAt(p, id, op, 2)
    requires Run(p, Arg(p, id, 0), ls, w) == Some(Yields(a, ls, w))
    requires Run(p, Arg(p, id, 1), ls, w) == Some(Yields(b, ls, w1))
    ensures Run(p, id, ls, w) == Some(Primitive(BuiltinIn(w1, op, [a, b]), ls))
  {
    hide Run, BuiltinIn;
    RunBuiltin(p, id, ls, w);
    var first := p.nodes[id].firstArg;
    assert Nils(2)[0 := a][1 := b] == [a, b];
    assert CallRun(p, first, 2, BuiltinCallee(op), Nil, 2, [a, b], ls, w1) == Some(Primitive(BuiltinIn(w1, op, [a, b]), ls));
    assert CallRun(p, first, 2, BuiltinCallee(op), Nil, 1, Nils(2)[0 := a], ls, w) == CallRun(p, first, 2, BuiltinCallee(op), Nil, 2, [a, b], ls, w1);
  }

  // ----- repeat -----

  function WithIndex(ls: seq<Value>, index: Option<nat>, i: Int30): seq<Value> {
    if index.Some? && index.value < |ls| then ls[index.value := Int(i)] else ls
  }

  /** The rounds from number `i` on: each starts with the index at its own number, whatever
      earlier rounds did to it. */
  ghost function Rounds(p: Program, index: Option<nat>, body: nat, counter: nat, i: Int30, n: Int30, ls: seq<Value>, w: World): Option<Ending>
    decreases n - i
  {
    if i >= n then Some(Yields(Nil, ls, w))
    else
      var r := Run(p, body, WithIndex(ls, index, i), w);
      if r.Some? && r.value.Yields? && counter < |r.value.locals|
      then Rounds(p, index, body, counter, i + 1, n, r.value.locals[counter := Int(i + 1)], r.value.world) else r
  }

  /** `repeat`: the count once, then one round for each number below it. */
  ghost function RepeatRun(p: Program, count: nat, index: Option<nat>, body: nat, limit: nat, ls: seq<Value>, w: World): Option<Ending> {
    var r := Run(p, count, ls, w);
    if r.Some? && r.value.Yields? && |r.value.locals| > limit + 1 then
      if r.value.value.Int?
      then Rounds(p, index, body, limit + 1, 0, r.value.value.n,
                  r.value.locals[limit := r.value.value][limit + 1 := Int(0)], r.value.world)
      else Some(Fails(TypeMismatch, r.value.world))
    else r
  }

  lemma RunCopy(p: Program, id: nat, index: nat, counter: nat, ls: seq<Value>, w: World)
    requires IndexCopy(p, id, index, counter) && counter < |ls| && index < |ls|
    ensures Run(p, id, ls, w) == Some(Yields(Nil, ls[index := ls[counter]], w))
  {
    hide Run;
    RunWriteLocal(p, id, ls, w);
    RunReadLocal(p, p.nodes[id].value, ls, w, counter);
  }

  lemma RunBump(p: Program, id: nat, counter: nat, ls: seq<Value>, w: World, i: Int30)
    requires CounterBump(p, id, counter) && counter < |ls| && ls[counter] == Int(i) && i < INT_MAX
    ensures Run(p, id, ls, w) == Some(Yields(Nil, ls[counter := Int(i + 1)], w))
  {
    hide Run;
    RunWriteLocal(p, id, ls, w);
    var sum := p.nodes[id].value;
    RunReadLocal(p, Arg(p, sum, 0), ls, w, counter);
    RunLiteral(p, Arg(p, sum, 1), ls, w, IntLiteral(1));
    RunPair(p, sum, Add, ls, w, Int(i), Int(1), w);
    assert ApplyBuiltin(Add, [Int(i), Int(1)], LookAll(w.heap, [Int(i), Int(1)])) == Result(Int(WrapInt(i + 1)));
  }

  /** One round: index, body, counter. */
  lemma RunRound(p: Program, id: nat, index: Option<nat>, body: nat, limit: nat, ls: seq<Value>, w: World, i: Int30)
    requires RoundAt(p, id, index, body, limit + 1) && LocalsBelow(p, body, limit)
    requires limit + 1 < |ls| && ls[limit + 1] == Int(i) && i < INT_MAX && (index.Some? ==> index.value < limit)
    ensures var counter := limit + 1;
      var r := Run(p, body, WithIndex(ls, index, i), w);
      Run(p, id, ls, w) ==
        if r.Some? && r.value.Yields? && counter < |r.value.locals|
        then Some(Yields(Nil, r.value.locals[counter := Int(i + 1)], r.value.world)) else r
  {
    hide Run, LocalsBelow, CounterBump, IndexCopy;
    var counter := limit + 1;
    var first := p.nodes[id].firstItem;
    RunSeq(p, id, ls, w);
    var l1 := WithIndex(ls, index, i);
    RunKeeps(p, body, l1, w, limit);
    var r := Run(p, body, l1, w);
    if r.Some? && r.value.Yields? {
      RunBump(p, if index.Some? then Part(p, id, 2) else Part(p, id, 1), counter, r.value.locals, r.value.world, i);
    }
    if index.Some? {
      RunCopy(p, Part(p, id, 0), index.value, counter, ls, w);
      assert ItemsRun(p, first, 3, 0, ls, w) == ItemsRun(p, first, 3, 1, l1, w);
    }
  }

  lemma RunCompare(p: Program, id: nat, limit: nat, counter: nat, ls: seq<Value>, w: World, i: Int30)
    requires BuiltinAt(p, id, Lt, 2) && NodeAt(p, Arg(p, id, 0), ReadLocal(counter)) && NodeAt(p, Arg(p, id, 1), ReadLocal(limit))
    requires counter < |ls| && limit < |ls| && ls[counter] == Int(i)
    ensures Run(p, id, ls, w) ==
      if ls[limit].Int? then Some(Yields(Bool(i < ls[limit].n), ls, w)) else Some(Fails(TypeMismatch, w))
  {
    hide Run;
    RunReadLocal(p, Arg(p, id, 0), ls, w, counter);
    RunReadLocal(p, Arg(p, id, 1), ls, w, limit);
    RunPair(p, id, Lt, ls, w, Int(i), ls[limit], w);
  }

  lemma {:induction false} RunLoop(p: Program, id: nat, index: Option<nat>, body: nat, limit: nat, ls: seq<Value>, w: World, i: Int30)
    requires RepeatLoopAt(p, id, index, body, limit, limit + 1) && LocalsBelow(p, body, limit)
    requires |ls| > limit + 1 && ls[limit + 1] == Int(i)
    requires index.Some? ==> index.value < limit
    ensures Run(p, id, ls, w) ==
      if ls[limit].Int? then Rounds(p, index, body, limit + 1, i, ls[limit].n, ls, w) else Some(Fails(TypeMismatch, w))
    decreases if ls[limit].Int? then ls[limit].n - i else 0
  {
    hide Run, LocalsBelow, RoundAt;
    RunWhile(p, id, ls, w);
    RunCompare(p, p.nodes[id].condition, limit, limit + 1, ls, w, i);
    if ls[limit].Int? && i < ls[limit].n {
      RunRound(p, p.nodes[id].body, index, body, limit, ls, w, i);
      var l1 := WithIndex(ls, index, i);
      RunKeeps(p, body, l1, w, limit);
      var r := Run(p, body, l1, w);
      if r.Some? && r.value.Yields? {
        RunLoop(p, id, index, body, limit, r.value.locals[limit + 1 := Int(i + 1)], r.value.world, i + 1);
      }
    }
  }

  /** The count is evaluated once, and the body runs once for each of 0, 1, ... below it, with
      the index at that number, whatever the body does to the index. */
  lemma RepeatMeaning(p: Program, id: nat, count: nat, index: Option<nat>, body: nat, limit: nat, ls: seq<Value>, w: World)
    requires RepeatAt(p, id, count, index, body, limit, limit + 1)
    requires LocalsBelow(p, count, limit) && LocalsBelow(p, body, limit) && (index.Some? ==> index.value < limit)
    requires |ls| > limit + 1
    ensures Run(p, id, ls, w) == RepeatRun(p, count, index, body, limit, ls, w)
  {
    hide Run, LocalsBelow, RepeatLoopAt, Rounds;
    var first := p.nodes[id].firstItem;
    RunSeq(p, id, ls, w);
    RunWriteLocal(p, Part(p, id, 0), ls, w);
    RunKeeps(p, count, ls, w, limit);
    var r := Run(p, count, ls, w);
    if r.Some? && r.value.Yields? {
      var l1 := r.value.locals[limit := r.value.value];
      RunWriteLocal(p, Part(p, id, 1), l1, r.value.world);
      RunLiteral(p, p.nodes[Part(p, id, 1)].value, l1, r.value.world, IntLiteral(0));
      var l2 := l1[limit + 1 := Int(0)];
      RunLoop(p, Part(p, id, 2), index, body, limit, l2, r.value.world, 0);
      assert ItemsRun(p, first, 3, 2, l2, r.value.world) == Run(p, Part(p, id, 2), l2, r.value.world);
      assert ItemsRun(p, first, 3, 1, l1, r.value.world) == ItemsRun(p, first, 3, 2, l2, r.value.world);
    }
  }

  /** What the parser makes of `repeat`. */
  lemma RepeatParsed(env: Env, e: Expr, p: Program, id: nat, n: nat, ls: seq<Value>, w: World) returns (c: nat, b: nat)
    requires e.Repeat? && Means(env, e, p, id, n) && Backward(p) && Bound(env, n) && |ls| >= n + Used(e)
    ensures RepeatMeans(env, e, p, id, c, b, n)
    ensures var m := n + Used(e.count);
      var limit := m + Hidden(e.index) + UsedItems(e.body);
      Run(p, id, ls, w) == RepeatRun(p, c, IndexLocal(e.index, m), b, limit, ls, w)
  {
    hide Run, RepeatRun, RepeatAt, BlockMeans, LocalsBelow;
    c, b :| RepeatMeans(env, e, p, id, c, b, n);
    var m := n + Used(e.count);
    var limit := m + Hidden(e.index) + UsedItems(e.body);
    MeansLocals(env, e.count, p, c, n, limit);
    BlockLocals(IndexEnv(env, e.index, m), e.body, p, b, m + Hidden(e.index), limit);
    RepeatMeaning(p, id, c, IndexLocal(e.index, m), b, limit, ls, w);
  }

  // ----- and, or -----

  /** A run that must yield a boolean, as a boolean. */
  function AsBool(r: Option<Ending>): Option<Ending> {
    if r.Some? && r.value.Yields? && !r.value.value.Bool? then Some(Fails(TypeMismatch, r.value.world)) else r
  }

  lemma RunBoolOf(p: Program, id: nat, c: nat, ls: seq<Value>, w: World)
    requires BoolOf(p, id, c)
    ensures Run(p, id, ls, w) == AsBool(Run(p, c, ls, w))
  {
    hide Run;
    RunIf(p, id, ls, w);
    var r := Run(p, c, ls, w);
    if r.Some? && r.value.Yields? {
      RunLiteral(p, p.nodes[id].thenBranch, r.value.locals, r.value.world, BoolLiteral(true));
      RunLiteral(p, p.nodes[id].elseBranch, r.value.locals, r.value.world, BoolLiteral(false));
    }
  }

  /** The right side is evaluated only if the left side did not decide; the result is a boolean. */
  ghost function ShortCircuit(p: Program, isOr: bool, l: nat, r: nat, ls: seq<Value>, w: World): Option<Ending> {
    var left := AsBool(Run(p, l, ls, w));
    if left.Some? && left.value.Yields? && left.value.value.b != isOr
    then AsBool(Run(p, r, left.value.locals, left.value.world)) else left
  }

  lemma LogicMeaning(p: Program, id: nat, isOr: bool, l: nat, r: nat, ls: seq<Value>, w: World)
    requires if isOr then OrAt(p, id, l, r) else AndAt(p, id, l, r)
    ensures Run(p, id, ls, w) == ShortCircuit(p, isOr, l, r, ls, w)
  {
    hide Run, BoolOf;
    RunIf(p, id, ls, w);
    var y := Run(p, l, ls, w);
    if y.Some? && y.value.Yields? && y.value.value.Bool? {
      if isOr {
        RunLiteral(p, p.nodes[id].thenBranch, y.value.locals, y.value.world, BoolLiteral(true));
        RunBoolOf(p, p.nodes[id].elseBranch, r, y.value.locals, y.value.world);
      } else {
        RunLiteral(p, p.nodes[id].elseBranch, y.value.locals, y.value.world, BoolLiteral(false));
        RunBoolOf(p, p.nodes[id].thenBranch, r, y.value.locals, y.value.world);
      }
    }
  }

  // ----- case -----

  /** The first clause whose literal equals the value in the hidden local, or what follows. */
  ghost function ClausesRun(p: Program, clauses: Clauses, hidden: nat, id: nat, ls: seq<Value>, w: World): Option<Ending>
    decreases clauses
  {
    if clauses.NoClauses? then Run(p, id, ls, w)
    else if id >= |p.nodes| || !p.nodes[id].If? || !IsLiteral(clauses.test) || hidden >= |ls| then None
    else match LiteralValue(LiteralOf(clauses.test), w)
         case Fail(e, w1) => Some(Fails(e, w1))
         case Value(v, w1) =>
           match EqualValues(ls[hidden], v, Look(w1.heap, ls[hidden]), Look(w1.heap, v))
           case None => Some(Fails(Bounds, w1))
           case Some(true) => Run(p, p.nodes[id].thenBranch, ls, w1)
           case Some(false) => ClausesRun(p, clauses.tail, hidden, p.nodes[id].elseBranch, ls, w1)
  }

  /** Comparing with a literal that does not fit fails; otherwise the answer is the equality. */
  lemma RunMatch(p: Program, id: nat, hidden: nat, l: Literal, ls: seq<Value>, w: World)
    requires BuiltinAt(p, id, Eq, 2) && NodeAt(p, Arg(p, id, 0), ReadLocal(hidden)) && LiteralAt(p, Arg(p, id, 1), l)
    requires hidden < |ls|
    ensures match LiteralValue(l, w)
      case Fail(e, w1) => Run(p, id, ls, w) == Some(Fails(e, w1))
      case Value(v, w1) =>
        Run(p, id, ls, w) == Some(Primitive(BuiltinIn(w1, Eq, [ls[hidden], v]), ls))
  {
    hide Run, BuiltinIn;
    RunReadLocal(p, Arg(p, id, 0), ls, w, hidden);
    RunLiteral(p, Arg(p, id, 1), ls, w, l);
    match LiteralValue(l, w)
    case Value(v, w1) => RunPair(p, id, Eq, ls, w, ls[hidden], v, w1);
    case Fail(e, w1) =>
      RunBuiltin(p, id, ls, w);
      var first := p.nodes[id].firstArg;
      assert CallRun(p, first, 2, BuiltinCallee(Eq), Nil, 1, Nils(2)[0 := ls[hidden]], ls, w) == Some(Fails(e, w1));
  }

  lemma {:induction false} ClausesMeaning(env: Env, clauses: Clauses, hidden: nat, p: Program, id: nat, end: nat, n: nat,
                                          ls: seq<Value>, w: World)
    requires CaseMeans(env, clauses, hidden, p, id, end, n) && hidden < |ls|
    ensures Run(p, id, ls, w) == ClausesRun(p, clauses, hidden, id, ls, w)
    decreases clauses
  {
    hide Run, BlockMeans, BuiltinIn;
    if clauses.MoreClauses? {
      var node := p.nodes[id];
      RunIf(p, id, ls, w);
      RunMatch(p, node.condition, hidden, LiteralOf(clauses.test), ls, w);
      match LiteralValue(LiteralOf(clauses.test), w)
      case Fail(_, _) =>
      case Value(v, w1) =>
        EqualityIn(w1, ls[hidden], v);
        ClausesMeaning(env, clauses.tail, hidden, p, node.elseBranch, end, n + Used(clauses.test) + UsedItems(clauses.body), ls, w1);
    }
  }

  lemma EqualityIn(w: World, a: Value, b: Value)
    ensures BuiltinIn(w, Eq, [a, b]) ==
      match EqualValues(a, b, Look(w.heap, a), Look(w.heap, b))
      case None => Result.Fail(Bounds, w)
      case Some(e) => Result.Value(Bool(e), w)
  {
  }

  /** `case`: the scrutinee once, then the first equal clause. */
  ghost function CaseRun(p: Program, scrutinee: nat, clauses: Clauses, hidden: nat, chain: nat, ls: seq<Value>, w: World): Option<Ending> {
    var r := Run(p, scrutinee, ls, w);
    if r.Some? && r.value.Yields? && hidden < |r.value.locals|
    then ClausesRun(p, clauses, hidden, chain, r.value.locals[hidden := r.value.value], r.value.world) else r
  }

  lemma CaseMeaning(env: Env, e: Expr, p: Program, id: nat, end: nat, n: nat, ls: seq<Value>, w: World)
    requires e.Case? && CaseChainMeans(env, e, p, id, end, n) && |ls| >= n + Used(e)
    ensures var hidden := n + Used(e.scrutinee) + UsedClauses(e.clauses) + UsedElse(e.otherwise);
      Run(p, id, ls, w) == CaseRun(p, p.nodes[Part(p, id, 0)].value, e.clauses, hidden, Part(p, id, 1), ls, w)
  {
    hide Run, ClausesRun, CaseMeans, ElseMeans, Means;
    var hidden := n + Used(e.scrutinee) + UsedClauses(e.clauses) + UsedElse(e.otherwise);
    var first := p.nodes[id].firstItem;
    RunSeq(p, id, ls, w);
    RunWriteLocal(p, Part(p, id, 0), ls, w);
    var r := Run(p, p.nodes[Part(p, id, 0)].value, ls, w);
    if r.Some? && r.value.Yields? {
      var l1 := r.value.locals[hidden := r.value.value];
      assert ItemsRun(p, first, 2, 1, l1, r.value.world) == Run(p, Part(p, id, 1), l1, r.value.world);
      ClausesMeaning(env, e.clauses, hidden, p, Part(p, id, 1), end, n + Used(e.scrutinee), l1, r.value.world);
    }
  }

  // ----- cond, unless -----

  /** The body of the first clause whose condition is true, or what follows. */
  ghost function CondRun(p: Program, clauses: Clauses, id: nat, ls: seq<Value>, w: World): Option<Ending>
    decreases clauses
  {
    if clauses.NoClauses? then Run(p, id, ls, w)
    else if id >= |p.nodes| || !p.nodes[id].If? then None
    else
      var c := AsBool(Run(p, p.nodes[id].condition, ls, w));
      if c.Some? && c.value.Yields? then
        if c.value.value.b then Run(p, p.nodes[id].thenBranch, c.value.locals, c.value.world)
        else CondRun(p, clauses.tail, p.nodes[id].elseBranch, c.value.locals, c.value.world)
      else c
  }

  lemma {:induction false} CondMeaning(env: Env, clauses: Clauses, p: Program, id: nat, end: nat, n: nat, ls: seq<Value>, w: World)
    requires CondMeans(env, clauses, p, id, end, n)
    ensures Run(p, id, ls, w) == CondRun(p, clauses, id, ls, w)
    decreases clauses
  {
    hide Run, BlockMeans, Means;
    if clauses.MoreClauses? {
      RunIf(p, id, ls, w);
      var c := Run(p, p.nodes[id].condition, ls, w);
      if c.Some? && c.value.Yields? {
        CondMeaning(env, clauses.tail, p, p.nodes[id].elseBranch, end, n + Used(clauses.test) + UsedItems(clauses.body),
                    c.value.locals, c.value.world);
      }
    }
  }

  /** The body runs exactly when the condition is false. */
  lemma UnlessMeaning(env: Env, e: Expr, p: Program, id: nat, n: nat, ls: seq<Value>, w: World)
    requires e.Unless? && Means(env, e, p, id, n)
    ensures var c := AsBool(Run(p, Arg(p, p.nodes[id].condition, 0), ls, w));
      Run(p, id, ls, w) ==
        if c.Some? && c.value.Yields? then
          if c.value.value.b then Some(Yields(Nil, c.value.locals, c.value.world))
          else Run(p, p.nodes[id].thenBranch, c.value.locals, c.value.world)
        else c
  {
    hide Run, BlockMeans;
    RunIf(p, id, ls, w);
    var negated := p.nodes[id].condition;
    RunBuiltin(p, negated, ls, w);
    var c := Run(p, Arg(p, negated, 0), ls, w);
    if c.Some? && c.value.Yields? {
      var args := Nils(1)[0 := c.value.value];
      assert args == [c.value.value];
      assert CallRun(p, p.nodes[negated].firstArg, 1, BuiltinCallee(Not), Nil, 1, args, c.value.locals, c.value.world)
        == Some(Primitive(BuiltinIn(c.value.world, Not, args), c.value.locals));
    }
  }
}

/**
 The translation of an expression touches only the locals its environment binds and the
 ones it declares itself.
 */
module Scoping {
  import opened Ir
  import opened Interp
  import opened Surface
  import opened Locals
  import opened Translation

  /** Every visible binding is numbered below `n`. */
  ghost predicate Bound(env: Env, n: nat) {
    forall i | 0 <= i < |env.inner| :: env.inner[i].1 < n
  }

  lemma {:induction false} FoundIsBound(inner: seq<(string, nat)>, name: string, n: nat)
    requires forall i | 0 <= i < |inner| :: inner[i].1 < n
    ensures Find(inner, name).Some? ==> Find(inner, name).value < n
  {
    if inner != [] && inner[|inner| - 1].0 != name { FoundIsBound(inner[..|inner| - 1], name, n); }
  }

  lemma {:induction false} LocalsStable(p: Program, q: Program, id: nat, k: nat)
    requires LocalsBelow(p, id, k) && Prefix(p, q)
    ensures LocalsBelow(q, id, k)
    decreases id
  {
    match p.nodes[id]
    case WriteLocal(_, v) => LocalsStable(p, q, v, k);
    case WriteSlot(_, v, _) => LocalsStable(p, q, v, k);
    case WriteSlotFallback(_, _, v, _) => LocalsStable(p, q, v, k);
    case ReadIndex(b, i) => LocalsStable(p, q, b, k); LocalsStable(p, q, i, k);
    case WriteIndex(b, i, v) => LocalsStable(p, q, b, k); LocalsStable(p, q, i, k); LocalsStable(p, q, v, k);
    case ReadField(b, _) => LocalsStable(p, q, b, k);
    case WriteField(b, _, v) => LocalsStable(p, q, b, k); LocalsStable(p, q, v, k);
    case Call(op, callee, first, count) =>
      if op == NoBuiltin { LocalsStable(p, q, callee, k); }
      LinkedStable(p, q, first, count, id, k);
    case If(c, t, e, hasElse) =>
      LocalsStable(p, q, c, k);
      LocalsStable(p, q, t, k);
      if hasElse { LocalsStable(p, q, e, k); }
    case While(c, b) => LocalsStable(p, q, c, k); LocalsStable(p, q, b, k);
    case Seq(first, count) => LinkedStable(p, q, first, count, id, k);
    case _ =>
  }

  lemma {:induction false} LinkedStable(p: Program, q: Program, first: nat, count: nat, id: nat, k: nat)
    requires LinkedBelow(p, first, count, id, k) && Prefix(p, q)
    ensures LinkedBelow(q, first, count, id, k)
    decreases id, 0
  {
    forall j | first <= j < first + count ensures q.links[j] == p.links[j] && LocalsBelow(q, q.links[j], k) {
      LocalsStable(p, q, p.links[j], k);
    }
  }

  // ----- translations -----

  lemma {:induction false} MeansLocals(env: Env, e: Expr, p: Program, id: nat, n: nat, k: nat)
    requires Backward(p) && Means(env, e, p, id, n) && Bound(env, n) && n + Used(e) <= k
    ensures LocalsBelow(p, id, k)
    decreases e, 1
  {
    hide Means, LocalsBelow;
    match e
    case Choice(_, _, _) => ChoiceLocals(env, e, p, id, n, k);
    case Unless(_, _) => UnlessLocals(env, e, p, id, n, k);
    case Cond(_, _) => CondLocals(env, e, p, id, n, k);
    case Case(_, _, _) => CaseLocals(env, e, p, id, n, k);
    case Repeat(_, _, _) => RepeatLocals(env, e, p, id, n, k);
    case And(_, _) => LogicLocals(env, e, p, id, n, k);
    case Or(_, _) => LogicLocals(env, e, p, id, n, k);
    case Unary(_, _) => OperatorLocals(env, e, p, id, n, k);
    case Binary(_, _, _) => OperatorLocals(env, e, p, id, n, k);
    case Apply(_, _, _) => ApplyLocals(env, e, p, id, n, k);
    case _ => PlainLocals(env, e, p, id, n, k);
  }

  lemma {:induction false} PlainLocals(env: Env, e: Expr, p: Program, id: nat, n: nat, k: nat)
    requires Backward(p) && Means(env, e, p, id, n) && Bound(env, n) && n + Used(e) <= k
    requires !e.Choice? && !e.Unless? && !e.Cond? && !e.Case? && !e.Repeat? && !e.And? && !e.Or?
    requires !e.Unary? && !e.Binary? && !e.Apply?
    ensures LocalsBelow(p, id, k)
    decreases e, 0
  {
    hide BlockMeans, ArgsMean, RepeatMeans, CaseChainMeans, CondChainMeans, AndAt, OrAt, FnEnv, Find, BuiltinAt, IfAt;
    assert RefersBelow(p, p.nodes[id], id);
    match e
    case Name(x) => FoundIsBound(env.inner, x, n);
    case Loop(c, body) =>
      MeansLocals(env, c, p, p.nodes[id].condition, n, k);
      BlockLocals(env, body, p, p.nodes[id].body, n + Used(c), k);
    case Element(b, i) =>
      MeansLocals(env, b, p, p.nodes[id].base, n, k);
      MeansLocals(env, i, p, p.nodes[id].index, n + Used(b), k);
    case Member(b, _) => MeansLocals(env, b, p, p.nodes[id].base, n, k);
    case _ =>
  }

  lemma {:induction false} OperatorLocals(env: Env, e: Expr, p: Program, id: nat, n: nat, k: nat)
    requires Backward(p) && Means(env, e, p, id, n) && Bound(env, n) && n + Used(e) <= k
    requires e.Unary? || e.Binary?
    ensures LocalsBelow(p, id, k)
    decreases e, 0
  {
    if e.Unary? {
      MeansLocals(env, e.operand, p, Arg(p, id, 0), n, k);
      OneBelow(p, id, Arg(p, id, 0), k);
    } else {
      MeansLocals(env, e.left, p, Arg(p, id, 0), n, k);
      MeansLocals(env, e.right, p, Arg(p, id, 1), n + Used(e.left), k);
      TwoBelow(p, id, k);
    }
  }

  lemma OneBelow(p: Program, id: nat, a: nat, k: nat)
    requires Backward(p) && id < |p.nodes| && p.nodes[id].Call? && p.nodes[id].argCount == 1 && p.nodes[id].builtin != NoBuiltin
    requires p.nodes[id].firstArg < |p.links| && Arg(p, id, 0) == a && LocalsBelow(p, a, k)
    ensures LocalsBelow(p, id, k)
  {
    assert RefersBelow(p, p.nodes[id], id);
  }

  lemma TwoBelow(p: Program, id: nat, k: nat)
    requires Backward(p) && id < |p.nodes| && p.nodes[id].Call? && p.nodes[id].argCount == 2 && p.nodes[id].builtin != NoBuiltin
    requires p.nodes[id].firstArg + 1 < |p.links| && LocalsBelow(p, Arg(p, id, 0), k) && LocalsBelow(p, Arg(p, id, 1), k)
    ensures LocalsBelow(p, id, k)
  {
    assert RefersBelow(p, p.nodes[id], id);
    var first := p.nodes[id].firstArg;
    forall j | first <= j < first + 2 ensures LocalsBelow(p, p.links[j], k) {
      assert j == first || j == first + 1;
    }
  }

  lemma PartsBelow(p: Program, id: nat, k: nat)
    requires Backward(p) && id < |p.nodes| && p.nodes[id].Seq? && p.nodes[id].firstItem + p.nodes[id].itemCount <= |p.links|
    requires forall j | 0 <= j < p.nodes[id].itemCount :: LocalsBelow(p, Part(p, id, j), k)
    ensures LocalsBelow(p, id, k)
  {
    assert RefersBelow(p, p.nodes[id], id);
    var first, count := p.nodes[id].firstItem, p.nodes[id].itemCount;
    forall j | first <= j < first + count ensures LocalsBelow(p, p.links[j], k) {
      assert LocalsBelow(p, Part(p, id, j - first), k);
    }
  }

  lemma {:induction false} ApplyLocals(env: Env, e: Expr, p: Program, id: nat, n: nat, k: nat)
    requires Backward(p) && Means(env, e, p, id, n) && Bound(env, n) && n + Used(e) <= k
    requires e.Apply?
    ensures LocalsBelow(p, id, k)
    decreases e, 0
  {
    hide ArgsMean;
    assert RefersBelow(p, p.nodes[id], id);
    MeansLocals(env, e.callee, p, p.nodes[id].callee, n, k);
    ArgsLocals(env, e.args, p, p.nodes[id].firstArg, n + Used(e.callee), k);
  }

  lemma {:induction false} ArgsLocals(env: Env, args: Exprs, p: Program, first: nat, n: nat, k: nat)
    requires Backward(p) && ArgsMean(env, args, p, first, n) && Bound(env, n) && n + UsedArgs(args) <= k
    ensures args.MoreExprs? ==> first + ArgCount(args) <= |p.links|
    ensures forall j | first <= j < first + ArgCount(args) && j < |p.links| :: LocalsBelow(p, p.links[j], k)
    decreases args
  {
    hide LocalsBelow, Means;
    if args.MoreExprs? {
      MeansLocals(env, args.head, p, p.links[first], n, k);
      ArgsLocals(env, args.tail, p, first + 1, n + Used(args.head), k);
      forall j | first <= j < first + ArgCount(args) && j < |p.links| ensures LocalsBelow(p, p.links[j], k) {
        assert j == first || first + 1 <= j < first + 1 + ArgCount(args.tail);
      }
    }
  }

  lemma {:induction false} ItemLocals(env: Env, item: Item, p: Program, id: nat, n: nat, k: nat)
    requires Backward(p) && ItemMeans(env, item, p, id, n) && Bound(env, n) && n + UsedItem(item) <= k
    ensures LocalsBelow(p, id, k)
    decreases item
  {
    hide Means, Find;
    var node := p.nodes[id];
    assert RefersBelow(p, node, id);
    match item
    case Do(e) => MeansLocals(env, e, p, id, n, k);
    case Here(_, value) => MeansLocals(env, value, p, node.value, n, k);
    case Set(place, value) =>
      match place
      case Name(x) => FoundIsBound(env.inner, x, n); MeansLocals(env, value, p, node.value, n, k);
      case At(_) => MeansLocals(env, value, p, node.value, n, k);
      case Element(b, i) =>
        MeansLocals(env, b, p, node.base, n, k);
        MeansLocals(env, i, p, node.index, n + Used(b), k);
        MeansLocals(env, value, p, node.value, n + Used(b) + Used(i), k);
      case Member(b, _) =>
        MeansLocals(env, b, p, node.base, n, k);
        MeansLocals(env, value, p, node.value, n + Used(b), k);
      case _ =>
  }

  lemma {:induction false} ItemsLocals(env: Env, items: Items, p: Program, first: nat, n: nat, k: nat)
    requires Backward(p) && ItemsMean(env, items, p, first, n) && Bound(env, n) && n + UsedItems(items) <= k
    ensures items.MoreItems? ==> first + Count(items) <= |p.links|
    ensures forall j | first <= j < first + Count(items) && j < |p.links| :: LocalsBelow(p, p.links[j], k)
    decreases items, 0
  {
    hide LocalsBelow, ItemMeans;
    if items.MoreItems? {
      ItemLocals(env, items.head, p, p.links[first], n, k);
      ItemsLocals(After(env, items.head, n), items.tail, p, first + 1, n + UsedItem(items.head), k);
      forall j | first <= j < first + Count(items) && j < |p.links| ensures LocalsBelow(p, p.links[j], k) {
        assert j == first || first + 1 <= j < first + 1 + Count(items.tail);
      }
    }
  }

  lemma {:induction false} BlockLocals(env: Env, items: Items, p: Program, id: nat, n: nat, k: nat)
    requires Backward(p) && BlockMeans(env, items, p, id, n) && Bound(env, n) && n + UsedItems(items) <= k
    ensures LocalsBelow(p, id, k)
    decreases items, 1
  {
    hide ItemsMean, LocalsBelow;
    ItemsLocals(env, items, p, p.nodes[id].firstItem, n, k);
    PartsBelow(p, id, k);
  }

  lemma {:induction false} ElseLocals(env: Env, otherwise: Else, p: Program, id: nat, n: nat, k: nat)
    requires Backward(p) && ElseMeans(env, otherwise, p, id, n) && Bound(env, n) && n + UsedElse(otherwise) <= k
    ensures LocalsBelow(p, id, k)
    decreases otherwise
  {
    if otherwise.Else? { BlockLocals(env, otherwise.items, p, id, n, k); }
  }

  lemma {:induction false} ChoiceLocals(env: Env, e: Expr, p: Program, id: nat, n: nat, k: nat)
    requires Backward(p) && Means(env, e, p, id, n) && Bound(env, n) && n + Used(e) <= k
    requires e.Choice?
    ensures LocalsBelow(p, id, k)
    decreases e, 0
  {
    hide BlockMeans, LocalsBelow, ArgsMean, RepeatMeans, CaseChainMeans, CondChainMeans, AndAt, OrAt, Surface.Resolve,
      FnEnv, BuiltinAt;
    MeansLocals(env, e.condition, p, p.nodes[id].condition, n, k);
    BlockLocals(env, e.yes, p, p.nodes[id].thenBranch, n + Used(e.condition), k);
    if e.otherwise.Else? { BlockLocals(env, e.otherwise.items, p, p.nodes[id].elseBranch, n + Used(e.condition) + UsedItems(e.yes), k); }
    IfBelow(p, id, k);
  }

  lemma {:induction false} UnlessLocals(env: Env, e: Expr, p: Program, id: nat, n: nat, k: nat)
    requires Backward(p) && Means(env, e, p, id, n) && Bound(env, n) && n + Used(e) <= k
    requires e.Unless?
    ensures LocalsBelow(p, id, k)
    decreases e, 0
  {
    hide BlockMeans, LocalsBelow, ArgsMean, RepeatMeans, CaseChainMeans, CondChainMeans, AndAt, OrAt, Surface.Resolve, FnEnv;
    var c := p.nodes[id].condition;
    MeansLocals(env, e.condition, p, Arg(p, c, 0), n, k);
    OneBelow(p, c, Arg(p, c, 0), k);
    BlockLocals(env, e.body, p, p.nodes[id].thenBranch, n + Used(e.condition), k);
    IfBelow(p, id, k);
  }

  lemma {:induction false} LogicLocals(env: Env, e: Expr, p: Program, id: nat, n: nat, k: nat)
    requires Backward(p) && Means(env, e, p, id, n) && Bound(env, n) && n + Used(e) <= k
    requires e.And? || e.Or?
    ensures LocalsBelow(p, id, k)
    decreases e, 0
  {
    hide Means;
    var l, r := LogicParts(env, e, p, id, n);
    MeansLocals(env, e.left, p, l, n, k);
    MeansLocals(env, e.right, p, r, n + Used(e.left), k);
    LogicBelow(p, id, e.Or?, l, r, k);
  }

  lemma LogicBelow(p: Program, id: nat, isOr: bool, l: nat, r: nat, k: nat)
    requires Backward(p) && (if isOr then OrAt(p, id, l, r) else AndAt(p, id, l, r))
    requires LocalsBelow(p, l, k) && LocalsBelow(p, r, k)
    ensures LocalsBelow(p, id, k)
  {
    hide LocalsBelow;
    var node := p.nodes[id];
    if isOr {
      LiteralBelow(p, node.thenBranch, BoolLiteral(true), k);
      BoolBelow(p, node.elseBranch, r, k);
    } else {
      BoolBelow(p, node.thenBranch, r, k);
      LiteralBelow(p, node.elseBranch, BoolLiteral(false), k);
    }
    IfBelow(p, id, k);
  }

  lemma BoolBelow(p: Program, id: nat, c: nat, k: nat)
    requires Backward(p) && BoolOf(p, id, c) && LocalsBelow(p, c, k)
    ensures LocalsBelow(p, id, k)
  {
    hide LocalsBelow;
    LiteralBelow(p, p.nodes[id].thenBranch, BoolLiteral(true), k);
    LiteralBelow(p, p.nodes[id].elseBranch, BoolLiteral(false), k);
    IfBelow(p, id, k);
  }

  lemma {:induction false} IfBelow(p: Program, id: nat, k: nat)
    requires Backward(p) && id < |p.nodes| && p.nodes[id].If?
    requires var node := p.nodes[id];
      LocalsBelow(p, node.condition, k) && LocalsBelow(p, node.thenBranch, k) && (node.hasElse ==> LocalsBelow(p, node.elseBranch, k))
    ensures LocalsBelow(p, id, k)
  {
    assert RefersBelow(p, p.nodes[id], id);
  }

  lemma {:induction false} CondLocals(env: Env, e: Expr, p: Program, id: nat, n: nat, k: nat)
    requires Backward(p) && Means(env, e, p, id, n) && Bound(env, n) && n + Used(e) <= k
    requires e.Cond?
    ensures LocalsBelow(p, id, k)
    decreases e, 0
  {
    hide CondMeans, ElseMeans;
    var end: nat :| CondChainMeans(env, e, p, id, end, n);
    ElseLocals(env, e.otherwise, p, end, n + UsedClauses(e.clauses), k);
    ClausesLocals(env, e.clauses, p, id, end, n, k);
  }

  lemma {:induction false} ClausesLocals(env: Env, clauses: Clauses, p: Program, id: nat, end: nat, n: nat, k: nat)
    requires Backward(p) && CondMeans(env, clauses, p, id, end, n) && Bound(env, n) && n + UsedClauses(clauses) <= k
    requires LocalsBelow(p, end, k)
    ensures LocalsBelow(p, id, k)
    decreases clauses
  {
    hide Means, BlockMeans;
    if clauses.MoreClauses? {
      assert RefersBelow(p, p.nodes[id], id);
      MeansLocals(env, clauses.test, p, p.nodes[id].condition, n, k);
      BlockLocals(env, clauses.body, p, p.nodes[id].thenBranch, n + Used(clauses.test), k);
      ClausesLocals(env, clauses.tail, p, p.nodes[id].elseBranch, end, n + Used(clauses.test) + UsedItems(clauses.body), k);
    }
  }

  lemma {:induction false} CaseLocals(env: Env, e: Expr, p: Program, id: nat, n: nat, k: nat)
    requires Backward(p) && Means(env, e, p, id, n) && Bound(env, n) && n + Used(e) <= k
    requires e.Case?
    ensures LocalsBelow(p, id, k)
    decreases e, 0
  {
    hide CaseMeans, ElseMeans, LocalsBelow;
    var end: nat :| CaseChainMeans(env, e, p, id, end, n);
    var m := n + Used(e.scrutinee);
    var hidden := m + UsedClauses(e.clauses) + UsedElse(e.otherwise);
    MeansLocals(env, e.scrutinee, p, p.nodes[Part(p, id, 0)].value, n, k);
    ElseLocals(env, e.otherwise, p, end, m + UsedClauses(e.clauses), k);
    MatchesLocals(env, e.clauses, hidden, p, Part(p, id, 1), end, m, k);
    WriteBelow(p, Part(p, id, 0), k);
    PartsBelow(p, id, k);
  }

  lemma WriteBelow(p: Program, id: nat, k: nat)
    requires Backward(p) && id < |p.nodes| && p.nodes[id].WriteLocal? && p.nodes[id].local < k && LocalsBelow(p, p.nodes[id].value, k)
    ensures LocalsBelow(p, id, k)
  {
    assert RefersBelow(p, p.nodes[id], id);
  }

  lemma {:induction false} MatchesLocals(env: Env, clauses: Clauses, hidden: nat, p: Program, id: nat, end: nat, n: nat, k: nat)
    requires Backward(p) && CaseMeans(env, clauses, hidden, p, id, end, n) && Bound(env, n) && n + UsedClauses(clauses) <= k
    requires hidden < k && LocalsBelow(p, end, k)
    ensures LocalsBelow(p, id, k)
    decreases clauses
  {
    hide BlockMeans, LocalsBelow;
    if clauses.MoreClauses? {
      TwoBelow(p, p.nodes[id].condition, k);
      BlockLocals(env, clauses.body, p, p.nodes[id].thenBranch, n + Used(clauses.test), k);
      MatchesLocals(env, clauses.tail, hidden, p, p.nodes[id].elseBranch, end, n + Used(clauses.test) + UsedItems(clauses.body), k);
      IfBelow(p, id, k);
    }
  }

  lemma {:induction false} RepeatLocals(env: Env, e: Expr, p: Program, id: nat, n: nat, k: nat)
    requires Backward(p) && Means(env, e, p, id, n) && Bound(env, n) && n + Used(e) <= k
    requires e.Repeat?
    ensures LocalsBelow(p, id, k)
    decreases e, 0
  {
    hide Means, RepeatAt, BlockMeans, LocalsBelow, Used, UsedItems;
    Parts(e);
    var c, b := RepeatParts(env, e, p, id, n);
    var m := n + Used(e.count);
    var limit := m + Hidden(e.index) + UsedItems(e.body);
    MeansLocals(env, e.count, p, c, n, k);
    BlockLocals(IndexEnv(env, e.index, m), e.body, p, b, m + Hidden(e.index), k);
    RepeatBelow(p, id, c, IndexLocal(e.index, m), b, limit, k);
  }

  lemma RepeatBelow(p: Program, id: nat, c: nat, index: Option<nat>, b: nat, limit: nat, k: nat)
    requires Backward(p) && RepeatAt(p, id, c, index, b, limit, limit + 1) && limit + 1 < k && (index.Some? ==> index.value < k)
    requires LocalsBelow(p, c, k) && LocalsBelow(p, b, k)
    ensures LocalsBelow(p, id, k)
  {
    hide RepeatLoopAt, LocalsBelow;
    WriteBelow(p, Part(p, id, 0), k);
    LiteralBelow(p, p.nodes[Part(p, id, 1)].value, IntLiteral(0), k);
    WriteBelow(p, Part(p, id, 1), k);
    LoopBelow(p, Part(p, id, 2), index, b, limit, k);
    PartsBelow(p, id, k);
  }

  lemma LiteralBelow(p: Program, id: nat, l: Literal, k: nat)
    requires LiteralAt(p, id, l)
    ensures LocalsBelow(p, id, k)
  {
  }

  lemma LoopBelow(p: Program, id: nat, index: Option<nat>, b: nat, limit: nat, k: nat)
    requires Backward(p) && RepeatLoopAt(p, id, index, b, limit, limit + 1) && limit + 1 < k && (index.Some? ==> index.value < k)
    requires LocalsBelow(p, b, k)
    ensures LocalsBelow(p, id, k)
  {
    hide RoundAt;
    assert RefersBelow(p, p.nodes[id], id);
    TwoBelow(p, p.nodes[id].condition, k);
    RoundBelow(p, p.nodes[id].body, index, b, limit + 1, k);
  }

  lemma RoundBelow(p: Program, id: nat, index: Option<nat>, b: nat, counter: nat, k: nat)
    requires Backward(p) && RoundAt(p, id, index, b, counter) && counter < k && (index.Some? ==> index.value < k)
    requires LocalsBelow(p, b, k)
    ensures LocalsBelow(p, id, k)
  {
    hide LocalsBelow;
    var last := if index.Some? then Part(p, id, 2) else Part(p, id, 1);
    BumpBelow(p, last, counter, k);
    if index.Some? { CopyBelow(p, Part(p, id, 0), index.value, counter, k); }
    PartsBelow(p, id, k);
  }

  lemma BumpBelow(p: Program, id: nat, counter: nat, k: nat)
    requires Backward(p) && CounterBump(p, id, counter) && counter < k
    ensures LocalsBelow(p, id, k)
  {
    TwoBelow(p, p.nodes[id].value, k);
    WriteBelow(p, id, k);
  }

  lemma CopyBelow(p: Program, id: nat, index: nat, counter: nat, k: nat)
    requires Backward(p) && IndexCopy(p, id, index, counter) && counter < k && index < k
    ensures LocalsBelow(p, id, k)
  {
    WriteBelow(p, id, k);
  }

  /** The locals of a top-level form are numbered below the program's root count. */
  lemma {:induction false} FormLocals(env: Env, form: Form, p: Program, id: nat, n: nat, k: nat)
    requires Backward(p) && FormMeans(env, form, p, id, n) && Bound(env, n) && n + UsedForm(form) <= k
    ensures LocalsBelow(p, id, k)
    decreases form
  {
    hide Means, ItemMeans, FormsMean;
    match form
    case BindForm(_, value) =>
      MeansLocals(env, value, p, p.nodes[id].value, n, k);
      DefinitionBelow(p, id, k);
    case CellsForm(_, _) =>
      OneBelow(p, p.nodes[id].value, Arg(p, p.nodes[id].value, 0), k);
      DefinitionBelow(p, id, k);
    case RecordForm(_, _) => DefinitionBelow(p, id, k);
    case InForm(name, forms) =>
      FormsLocals(Prefixed(env, name), forms, p, p.nodes[id].firstItem, n, k);
      PartsBelow(p, id, k);
    case SetForm(place, value) => ItemLocals(env, Set(place, value), p, id, n, k);
    case ExprForm(e) => MeansLocals(env, e, p, id, n, k);
  }

  lemma DefinitionBelow(p: Program, id: nat, k: nat)
    requires Backward(p) && id < |p.nodes| && p.nodes[id].WriteSlot? && LocalsBelow(p, p.nodes[id].value, k)
    ensures LocalsBelow(p, id, k)
  {
    assert RefersBelow(p, p.nodes[id], id);
  }

  lemma {:induction false} FormsLocals(env: Env, forms: Forms, p: Program, first: nat, n: nat, k: nat)
    requires Backward(p) && FormsMean(env, forms, p, first, n) && Bound(env, n) && n + UsedForms(forms) <= k
    ensures forms.MoreForms? ==> first + FormCount(forms) <= |p.links|
    ensures forall j | first <= j < first + FormCount(forms) && j < |p.links| :: LocalsBelow(p, p.links[j], k)
    decreases forms
  {
    hide LocalsBelow, FormMeans;
    if forms.MoreForms? {
      FormLocals(env, forms.head, p, p.links[first], n, k);
      FormsLocals(env, forms.tail, p, first + 1, n + UsedForm(forms.head), k);
      forall j | first <= j < first + FormCount(forms) && j < |p.links| ensures LocalsBelow(p, p.links[j], k) {
        assert j == first || first + 1 <= j < first + 1 + FormCount(forms.tail);
      }
    }
  }
}

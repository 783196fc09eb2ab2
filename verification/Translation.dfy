/**
 Facts about translations: they survive when a program grows, they only use the locals
 they declare, and no local crosses a function boundary.
 */
module Translation {
  import opened Ir
  import opened Interp
  import opened Surface

  ghost predicate Prefix(p: Program, q: Program) {
    p.literals <= q.literals && p.nodes <= q.nodes && p.links <= q.links
  }

  // ----- a translation stays one when the program grows -----

  lemma {:induction false} MeansStable(env: Env, e: Expr, p: Program, q: Program, id: nat, n: nat)
    requires Means(env, e, p, id, n) && Prefix(p, q)
    ensures Means(env, e, q, id, n)
    decreases e, 1
  {
    hide Means;
    match e
    case Choice(_, _, _) => BranchStable(env, e, p, q, id, n);
    case Unless(_, _) => BranchStable(env, e, p, q, id, n);
    case Cond(_, _) => CondStable(env, e, p, q, id, n);
    case Case(_, _, _) => CaseStable(env, e, p, q, id, n);
    case Repeat(_, _, _) => RepeatStable(env, e, p, q, id, n);
    case And(_, _) => LogicStable(env, e, p, q, id, n);
    case Or(_, _) => LogicStable(env, e, p, q, id, n);
    case _ => PlainStable(env, e, p, q, id, n);
  }

  lemma {:induction false} PlainStable(env: Env, e: Expr, p: Program, q: Program, id: nat, n: nat)
    requires Means(env, e, p, id, n) && Prefix(p, q)
    requires !e.Choice? && !e.Unless? && !e.Cond? && !e.Case? && !e.Repeat? && !e.And? && !e.Or?
    ensures Means(env, e, q, id, n)
    decreases e, 0
  {
    hide BlockMeans, ArgsMean, RepeatMeans, CaseChainMeans, CondChainMeans, AndAt, OrAt, Surface.Resolve, ReadsGlobal,
      FnEnv, Used, UsedItems;
    match e
    case Lambda(params, body) => BlockStable(FnEnv(env, params), body, p, q, p.nodes[id].body, |params|);
    case Loop(c, body) =>
      MeansStable(env, c, p, q, p.nodes[id].condition, n);
      BlockStable(env, body, p, q, p.nodes[id].body, n + Used(c));
    case Apply(callee, args, _) =>
      MeansStable(env, callee, p, q, p.nodes[id].callee, n);
      ArgsStable(env, args, p, q, p.nodes[id].firstArg, n + Used(callee));
    case Element(b, i) =>
      MeansStable(env, b, p, q, p.nodes[id].base, n);
      MeansStable(env, i, p, q, p.nodes[id].index, n + Used(b));
    case Member(b, _) => MeansStable(env, b, p, q, p.nodes[id].base, n);
    case Unary(_, a) => MeansStable(env, a, p, q, Arg(p, id, 0), n);
    case Binary(_, a, b) =>
      MeansStable(env, a, p, q, Arg(p, id, 0), n);
      MeansStable(env, b, p, q, Arg(p, id, 1), n + Used(a));
    case _ =>
  }

  lemma LogicParts(env: Env, e: Expr, p: Program, id: nat, n: nat) returns (l: nat, r: nat)
    requires Means(env, e, p, id, n) && (e.And? || e.Or?)
    ensures if e.Or? then OrAt(p, id, l, r) else AndAt(p, id, l, r)
    ensures Means(env, e.left, p, l, n) && Means(env, e.right, p, r, n + Used(e.left))
  {
    if e.Or? {
      l, r :| OrAt(p, id, l, r) && Means(env, e.left, p, l, n) && Means(env, e.right, p, r, n + Used(e.left));
    } else {
      l, r :| AndAt(p, id, l, r) && Means(env, e.left, p, l, n) && Means(env, e.right, p, r, n + Used(e.left));
    }
  }

  lemma LogicMeans(env: Env, e: Expr, p: Program, id: nat, l: nat, r: nat, n: nat)
    requires e.And? || e.Or?
    requires Means(env, e.left, p, l, n) && Means(env, e.right, p, r, n + Used(e.left))
    requires if e.Or? then OrAt(p, id, l, r) else AndAt(p, id, l, r)
    ensures Means(env, e, p, id, n)
  {
  }

  lemma {:induction false} LogicStable(env: Env, e: Expr, p: Program, q: Program, id: nat, n: nat)
    requires (e.And? || e.Or?) && Means(env, e, p, id, n) && Prefix(p, q)
    ensures Means(env, e, q, id, n)
    decreases e, 0
  {
    hide Means;
    var l, r := LogicParts(env, e, p, id, n);
    MeansStable(env, e.left, p, q, l, n);
    MeansStable(env, e.right, p, q, r, n + Used(e.left));
    LogicMeans(env, e, q, id, l, r, n);
  }

  lemma RepeatParts(env: Env, e: Expr, p: Program, id: nat, n: nat) returns (c: nat, b: nat)
    requires e.Repeat? && Means(env, e, p, id, n)
    ensures id < |p.nodes| && RepeatMeans(env, e, p, id, c, b, n)
  {
    hide RepeatMeans;
    c, b :| RepeatMeans(env, e, p, id, c, b, n);
  }

  lemma {:induction false} BranchStable(env: Env, e: Expr, p: Program, q: Program, id: nat, n: nat)
    requires (e.Choice? || e.Unless?) && Means(env, e, p, id, n) && Prefix(p, q)
    ensures Means(env, e, q, id, n)
    decreases e, 0
  {
    hide BlockMeans, ArgsMean, RepeatMeans, CaseChainMeans, CondChainMeans, AndAt, OrAt, Surface.Resolve, ReadsGlobal,
      FnEnv, Used, UsedItems;
    match e
    case Choice(c, yes, otherwise) =>
      MeansStable(env, c, p, q, p.nodes[id].condition, n);
      BlockStable(env, yes, p, q, p.nodes[id].thenBranch, n + Used(c));
      if otherwise.Else? {
        BlockStable(env, otherwise.items, p, q, p.nodes[id].elseBranch, n + Used(c) + UsedItems(yes));
      }
    case Unless(c, body) =>
      MeansStable(env, c, p, q, Arg(p, p.nodes[id].condition, 0), n);
      BlockStable(env, body, p, q, p.nodes[id].thenBranch, n + Used(c));
  }

  lemma {:induction false} RepeatStable(env: Env, e: Expr, p: Program, q: Program, id: nat, n: nat)
    requires e.Repeat? && Means(env, e, p, id, n) && Prefix(p, q)
    ensures Means(env, e, q, id, n)
    decreases e, 0
  {
    hide RepeatAt, BlockMeans, IndexEnv;
    var c: nat, b: nat :| RepeatMeans(env, e, p, id, c, b, n);
    var m := n + Used(e.count);
    MeansStable(env, e.count, p, q, c, n);
    BlockStable(IndexEnv(env, e.index, m), e.body, p, q, b, m + Hidden(e.index));
    RepeatAtStable(p, q, id, c, IndexLocal(e.index, m), b, m + Hidden(e.index) + UsedItems(e.body));
    assert RepeatMeans(env, e, q, id, c, b, n);
  }

  lemma RepeatAtStable(p: Program, q: Program, id: nat, c: nat, index: Option<nat>, b: nat, limit: nat)
    requires RepeatAt(p, id, c, index, b, limit, limit + 1) && Prefix(p, q)
    ensures RepeatAt(q, id, c, index, b, limit, limit + 1) && id < |q.nodes|
  {
    hide RoundAt;
    var loop := Part(p, id, 2);
    assert Part(q, id, 0) == Part(p, id, 0) && Part(q, id, 1) == Part(p, id, 1) && Part(q, id, 2) == loop;
    RoundAtStable(p, q, p.nodes[loop].body, index, b, limit + 1);
    assert RepeatLoopAt(q, loop, index, b, limit, limit + 1);
  }

  lemma RoundAtStable(p: Program, q: Program, id: nat, index: Option<nat>, b: nat, counter: nat)
    requires RoundAt(p, id, index, b, counter) && Prefix(p, q)
    ensures RoundAt(q, id, index, b, counter)
  {
  }

  lemma {:induction false} CondStable(env: Env, e: Expr, p: Program, q: Program, id: nat, n: nat)
    requires e.Cond? && Means(env, e, p, id, n) && Prefix(p, q)
    ensures Means(env, e, q, id, n)
    decreases e, 0
  {
    var end: nat :| CondChainMeans(env, e, p, id, end, n);
    ClausesStable(env, e.clauses, p, q, id, end, n);
    ElseStable(env, e.otherwise, p, q, end, n + UsedClauses(e.clauses));
    assert CondChainMeans(env, e, q, id, end, n);
  }

  lemma {:induction false} CaseStable(env: Env, e: Expr, p: Program, q: Program, id: nat, n: nat)
    requires e.Case? && Means(env, e, p, id, n) && Prefix(p, q)
    ensures Means(env, e, q, id, n)
    decreases e, 0
  {
    hide CaseMeans, ElseMeans, UsedClauses, UsedElse, Used;
    var hidden := n + Used(e.scrutinee) + UsedClauses(e.clauses) + UsedElse(e.otherwise);
    var end: nat :| CaseChainMeans(env, e, p, id, end, n);
    MeansStable(env, e.scrutinee, p, q, p.nodes[Part(p, id, 0)].value, n);
    MatchesStable(env, e.clauses, hidden, p, q, Part(p, id, 1), end, n + Used(e.scrutinee));
    ElseStable(env, e.otherwise, p, q, end, n + Used(e.scrutinee) + UsedClauses(e.clauses));
    assert CaseChainMeans(env, e, q, id, end, n);
  }

  lemma {:induction false} ArgsStable(env: Env, args: Exprs, p: Program, q: Program, first: nat, n: nat)
    requires ArgsMean(env, args, p, first, n) && Prefix(p, q)
    ensures ArgsMean(env, args, q, first, n)
    decreases args
  {
    if args.MoreExprs? {
      MeansStable(env, args.head, p, q, p.links[first], n);
      ArgsStable(env, args.tail, p, q, first + 1, n + Used(args.head));
    }
  }

  lemma {:induction false} ItemStable(env: Env, item: Item, p: Program, q: Program, id: nat, n: nat)
    requires ItemMeans(env, item, p, id, n) && Prefix(p, q)
    ensures ItemMeans(env, item, q, id, n)
    decreases item
  {
    hide Means, Surface.Resolve, WritesGlobal, Used;
    var node := p.nodes[id];
    match item
    case Do(e) => MeansStable(env, e, p, q, id, n);
    case Here(_, value) => MeansStable(env, value, p, q, node.value, n);
    case Set(place, value) =>
      match place
      case Element(b, i) =>
        MeansStable(env, b, p, q, node.base, n);
        MeansStable(env, i, p, q, node.index, n + Used(b));
        MeansStable(env, value, p, q, node.value, n + Used(b) + Used(i));
      case Member(b, _) =>
        MeansStable(env, b, p, q, node.base, n);
        MeansStable(env, value, p, q, node.value, n + Used(b));
      case Name(_) => MeansStable(env, value, p, q, node.value, n);
      case At(_) => MeansStable(env, value, p, q, node.value, n);
      case _ =>
  }

  lemma {:induction false} ItemsStable(env: Env, items: Items, p: Program, q: Program, first: nat, n: nat)
    requires ItemsMean(env, items, p, first, n) && Prefix(p, q)
    ensures ItemsMean(env, items, q, first, n)
    decreases items, 0
  {
    if items.MoreItems? {
      ItemStable(env, items.head, p, q, p.links[first], n);
      ItemsStable(Surface.After(env, items.head, n), items.tail, p, q, first + 1, n + UsedItem(items.head));
    }
  }

  lemma {:induction false} BlockStable(env: Env, items: Items, p: Program, q: Program, id: nat, n: nat)
    requires BlockMeans(env, items, p, id, n) && Prefix(p, q)
    ensures BlockMeans(env, items, q, id, n)
    decreases items, 1
  {
    ItemsStable(env, items, p, q, p.nodes[id].firstItem, n);
  }

  lemma {:induction false} ElseStable(env: Env, otherwise: Else, p: Program, q: Program, id: nat, n: nat)
    requires ElseMeans(env, otherwise, p, id, n) && Prefix(p, q)
    ensures ElseMeans(env, otherwise, q, id, n)
    decreases otherwise
  {
    if otherwise.Else? { BlockStable(env, otherwise.items, p, q, id, n); }
  }

  lemma {:induction false} ClausesStable(env: Env, clauses: Clauses, p: Program, q: Program, id: nat, end: nat, n: nat)
    requires CondMeans(env, clauses, p, id, end, n) && Prefix(p, q)
    ensures CondMeans(env, clauses, q, id, end, n)
    decreases clauses
  {
    if clauses.MoreClauses? {
      MeansStable(env, clauses.test, p, q, p.nodes[id].condition, n);
      BlockStable(env, clauses.body, p, q, p.nodes[id].thenBranch, n + Used(clauses.test));
      ClausesStable(env, clauses.tail, p, q, p.nodes[id].elseBranch, end, n + Used(clauses.test) + UsedItems(clauses.body));
    }
  }

  lemma {:induction false} MatchesStable(env: Env, clauses: Clauses, hidden: nat, p: Program, q: Program, id: nat, end: nat, n: nat)
    requires CaseMeans(env, clauses, hidden, p, id, end, n) && Prefix(p, q)
    ensures CaseMeans(env, clauses, hidden, q, id, end, n)
    decreases clauses
  {
    if clauses.MoreClauses? {
      BlockStable(env, clauses.body, p, q, p.nodes[id].thenBranch, n + Used(clauses.test));
      MatchesStable(env, clauses.tail, hidden, p, q, p.nodes[id].elseBranch, end, n + Used(clauses.test) + UsedItems(clauses.body));
    }
  }

  lemma {:induction false} ItemIdsStable(env: Env, items: Items, p: Program, q: Program, ids: seq<nat>, n: nat)
    requires ItemIdsMean(env, items, p, ids, n) && Prefix(p, q)
    ensures ItemIdsMean(env, items, q, ids, n)
    decreases items
  {
    hide ItemMeans;
    if items.MoreItems? {
      ItemStable(env, items.head, p, q, ids[0], n);
      ItemIdsStable(Surface.After(env, items.head, n), items.tail, p, q, ids[1..], n + UsedItem(items.head));
    }
  }

  lemma {:induction false} ArgIdsStable(env: Env, args: Exprs, p: Program, q: Program, ids: seq<nat>, n: nat)
    requires ArgIdsMean(env, args, p, ids, n) && Prefix(p, q)
    ensures ArgIdsMean(env, args, q, ids, n)
    decreases args
  {
    hide Means;
    if args.MoreExprs? {
      MeansStable(env, args.head, p, q, ids[0], n);
      ArgIdsStable(env, args.tail, p, q, ids[1..], n + Used(args.head));
    }
  }

  lemma {:induction false} ClauseIdsStable(env: Env, clauses: Clauses, matching: bool, p: Program, q: Program,
                                           tests: seq<nat>, bodies: seq<nat>, n: nat)
    requires ClauseIdsMean(env, clauses, matching, p, tests, bodies, n) && Prefix(p, q)
    ensures ClauseIdsMean(env, clauses, matching, q, tests, bodies, n)
    decreases clauses
  {
    hide Means, BlockMeans;
    if clauses.MoreClauses? {
      if !matching { MeansStable(env, clauses.test, p, q, tests[0], n); }
      BlockStable(env, clauses.body, p, q, bodies[0], n + Used(clauses.test));
      ClauseIdsStable(env, clauses.tail, matching, p, q, tests[1..], bodies[1..], n + Used(clauses.test) + UsedItems(clauses.body));
    }
  }

  /** Node numbers that have been copied to the link array. */
  lemma {:induction false} ItemsLinked(env: Env, items: Items, p: Program, ids: seq<nat>, first: nat, n: nat)
    requires ItemIdsMean(env, items, p, ids, n)
    requires first + |ids| <= |p.links| && p.links[first..first + |ids|] == ids
    ensures |ids| == Count(items) && ItemsMean(env, items, p, first, n)
    decreases items
  {
    hide ItemMeans;
    if items.MoreItems? {
      assert p.links[first] == ids[0] && p.links[first + 1..first + 1 + |ids[1..]|] == ids[1..];
      ItemsLinked(Surface.After(env, items.head, n), items.tail, p, ids[1..], first + 1, n + UsedItem(items.head));
    }
  }

  lemma {:induction false} ArgsLinked(env: Env, args: Exprs, p: Program, ids: seq<nat>, first: nat, n: nat)
    requires ArgIdsMean(env, args, p, ids, n)
    requires first + |ids| <= |p.links| && p.links[first..first + |ids|] == ids
    ensures |ids| == ArgCount(args) && ArgsMean(env, args, p, first, n)
    decreases args
  {
    hide Means;
    if args.MoreExprs? {
      assert p.links[first] == ids[0] && p.links[first + 1..first + 1 + |ids[1..]|] == ids[1..];
      ArgsLinked(env, args.tail, p, ids[1..], first + 1, n + Used(args.head));
    }
  }

  lemma {:induction false} FormStable(env: Env, form: Form, p: Program, q: Program, id: nat, n: nat)
    requires FormMeans(env, form, p, id, n) && Prefix(p, q)
    ensures FormMeans(env, form, q, id, n)
    decreases form
  {
    hide Means, ItemMeans;
    match form
    case BindForm(_, value) => MeansStable(env, value, p, q, p.nodes[id].value, n);
    case InForm(name, forms) => FormsStable(Prefixed(env, name), forms, p, q, p.nodes[id].firstItem, n);
    case SetForm(place, value) => ItemStable(env, Set(place, value), p, q, id, n);
    case ExprForm(e) => MeansStable(env, e, p, q, id, n);
    case RecordForm(name, fields) => RecordStable(p, q, p.nodes[id].value, p.nodes[id].name, fields);
    case CellsForm(_, _) =>
  }

  lemma RecordStable(p: Program, q: Program, id: nat, name: string, fields: seq<string>)
    requires RecordAt(p, id, name, fields) && Prefix(p, q)
    ensures RecordAt(q, id, name, fields)
  {
    var first := p.nodes[id].firstField;
    assert forall k | first <= k < first + |fields| :: q.links[k] == p.links[k];
  }

  lemma {:induction false} FormsStable(env: Env, forms: Forms, p: Program, q: Program, first: nat, n: nat)
    requires FormsMean(env, forms, p, first, n) && Prefix(p, q)
    ensures FormsMean(env, forms, q, first, n)
    decreases forms
  {
    hide FormMeans;
    if forms.MoreForms? {
      FormStable(env, forms.head, p, q, p.links[first], n);
      FormsStable(env, forms.tail, p, q, first + 1, n + UsedForm(forms.head));
    }
  }

  lemma {:induction false} FormIdsStable(env: Env, forms: Forms, p: Program, q: Program, ids: seq<nat>, n: nat)
    requires FormIdsMean(env, forms, p, ids, n) && Prefix(p, q)
    ensures FormIdsMean(env, forms, q, ids, n)
    decreases forms
  {
    hide FormMeans;
    if forms.MoreForms? {
      FormStable(env, forms.head, p, q, ids[0], n);
      FormIdsStable(env, forms.tail, p, q, ids[1..], n + UsedForm(forms.head));
    }
  }

  lemma {:induction false} FormsLinked(env: Env, forms: Forms, p: Program, ids: seq<nat>, first: nat, n: nat)
    requires FormIdsMean(env, forms, p, ids, n)
    requires first + |ids| <= |p.links| && p.links[first..first + |ids|] == ids
    ensures |ids| == FormCount(forms) && FormsMean(env, forms, p, first, n)
    decreases forms
  {
    hide FormMeans;
    if forms.MoreForms? {
      assert p.links[first] == ids[0] && p.links[first + 1..first + 1 + |ids[1..]|] == ids[1..];
      FormsLinked(env, forms.tail, p, ids[1..], first + 1, n + UsedForm(forms.head));
    }
  }
}

/**
 Which syntax the parser accepts, said of the syntax alone.

 A function cannot see the names bound around it, a scope declares a name once, and a few
 forms are only allowed in some places.  Nothing else is refused.
 */
module Acceptance {
  import opened Ir
  import Interp
  import opened Surface

  predicate Unique(names: seq<string>) { forall i, j :: 0 <= i < j < |names| ==> names[i] != names[j] }

  predicate IsPlace(e: Expr) { e.Name? || e.At? || e.Element? || e.Member? }

  /** The names a scope has declared after an item of it. */
  function Named(item: Item, here: set<string>): set<string> { if item.Here? then here + {item.name} else here }

  function IndexNames(index: Interp.Option<string>): set<string> { if index.Some? then {index.value} else {} }

  predicate Accepts(env: Env, e: Expr, n: nat)
    decreases e, 1
  {
    match e
    case Name(x) => !Resolve(env, x).Captured?
    case Lambda(params, body) => Unique(params) && AcceptsBlock(FnEnv(env, params), body, |params|)
    case Choice(c, yes, otherwise) =>
      Accepts(env, c, n) && AcceptsBlock(env, yes, n + Used(c)) && AcceptsElse(env, otherwise, n + Used(c) + UsedItems(yes))
    case Loop(c, body) => Accepts(env, c, n) && AcceptsBlock(env, body, n + Used(c))
    case Unless(c, body) => Accepts(env, c, n) && AcceptsBlock(env, body, n + Used(c))
    case Cond(clauses, otherwise) =>
      ElseFollows(clauses, otherwise) && AcceptsClauses(env, clauses, false, n)
      && AcceptsElse(env, otherwise, n + UsedClauses(clauses))
    case Case(scrutinee, clauses, otherwise) =>
      var m := n + Used(scrutinee);
      Accepts(env, scrutinee, n) && ElseFollows(clauses, otherwise) && AcceptsClauses(env, clauses, true, m)
      && AcceptsElse(env, otherwise, m + UsedClauses(clauses))
    case Repeat(count, index, body) =>
      var m := n + Used(count);
      Accepts(env, count, n)
      && AcceptsItems(IndexEnv(env, index, m), body, m + Hidden(index), IndexNames(index))
    case Apply(callee, args, keyword) =>
      (if keyword then args.MoreExprs? else !callee.At?)
      && Accepts(env, callee, n) && AcceptsArgs(env, args, n + Used(callee))
    case Element(b, i) => !b.At? && Accepts(env, b, n) && Accepts(env, i, n + Used(b))
    case Member(b, field) => '.' !in field && Accepts(env, b, n)
    case Unary(op, a) => op != NoBuiltin && Accepts(env, a, n)
    case Binary(op, a, b) => op != NoBuiltin && Accepts(env, a, n) && Accepts(env, b, n + Used(a))
    case And(a, b) => Accepts(env, a, n) && Accepts(env, b, n + Used(a))
    case Or(a, b) => Accepts(env, a, n) && Accepts(env, b, n + Used(a))
    case _ => true
  }

  predicate AcceptsArgs(env: Env, args: Exprs, n: nat)
    decreases args, 0
  {
    args.MoreExprs? ==> Accepts(env, args.head, n) && AcceptsArgs(env, args.tail, n + Used(args.head))
  }

  /** An `else` needs a clause before it. */
  predicate ElseFollows(clauses: Clauses, otherwise: Else) { clauses.NoClauses? ==> otherwise.NoElse? }

  predicate AcceptsClauses(env: Env, clauses: Clauses, matching: bool, n: nat)
    decreases clauses, 0
  {
    clauses.MoreClauses? ==>
      && (if matching then IsLiteral(clauses.test) else Accepts(env, clauses.test, n))
      && AcceptsBlock(env, clauses.body, n + Used(clauses.test))
      && AcceptsClauses(env, clauses.tail, matching, n + Used(clauses.test) + UsedItems(clauses.body))
  }

  predicate AcceptsElse(env: Env, otherwise: Else, n: nat)
    decreases otherwise, 0
  {
    otherwise.Else? ==> AcceptsBlock(env, otherwise.items, n)
  }

  /** A block is a scope of its own. */
  predicate AcceptsBlock(env: Env, items: Items, n: nat)
    decreases items, 1
  {
    AcceptsItems(env, items, n, {})
  }

  /** `here` holds the names the scope has declared so far. */
  predicate AcceptsItems(env: Env, items: Items, n: nat, here: set<string>)
    decreases items, 0
  {
    items.MoreItems? ==>
      && AcceptsItem(env, items.head, n, here)
      && AcceptsItems(After(env, items.head, n), items.tail, n + UsedItem(items.head), Named(items.head, here))
  }

  predicate AcceptsItem(env: Env, item: Item, n: nat, here: set<string>)
    decreases item, 0
  {
    match item
    case Here(name, value) => name !in here && Accepts(env, value, n)
    case Set(place, value) => IsPlace(place) && Accepts(env, place, n) && Accepts(env, value, n + Used(place))
    case Do(e) => Accepts(env, e, n)
  }

  predicate AcceptsPair(env: Env, l: Expr, r: Expr, n: nat) { Accepts(env, l, n) && Accepts(env, r, n + Used(l)) }

  predicate AcceptsGuarded(env: Env, c: Expr, body: Items, n: nat) { Accepts(env, c, n) && AcceptsBlock(env, body, n + Used(c)) }

  predicate AcceptsParts(env: Env, clauses: Clauses, otherwise: Else, matching: bool, n: nat) {
    ElseFollows(clauses, otherwise) && AcceptsClauses(env, clauses, matching, n) && AcceptsElse(env, otherwise, n + UsedClauses(clauses))
  }

  /** The body of a `repeat` is a scope with the index in it. */
  predicate AcceptsRound(env: Env, index: Interp.Option<string>, items: Items, n: nat) {
    AcceptsItems(IndexEnv(env, index, n), items, n + Hidden(index), IndexNames(index))
  }

  predicate AcceptsClause(env: Env, test: Expr, body: Items, matching: bool, n: nat) {
    (if matching then IsLiteral(test) else Accepts(env, test, n)) && AcceptsBlock(env, body, n + Used(test))
  }

  predicate AcceptsCallee(env: Env, callee: Expr, keyword: bool, n: nat) { (keyword || !callee.At?) && Accepts(env, callee, n) }

  predicate AcceptsForm(env: Env, form: Form, n: nat)
    decreases form, 0
  {
    match form
    case BindForm(_, value) => Accepts(env, value, n)
    case CellsForm(_, size) => size > 0
    case RecordForm(name, fields) =>
      '.' !in name && fields != [] && Unique(fields) && forall i :: 0 <= i < |fields| ==> '.' !in fields[i]
    case InForm(name, forms) => AcceptsForms(Prefixed(env, name), forms, n)
    case SetForm(place, value) => AcceptsItem(env, Set(place, value), n, {})
    case ExprForm(e) => Accepts(env, e, n)
  }

  /** Inside a prefix block only definitions are allowed. */
  predicate AcceptsForms(env: Env, forms: Forms, n: nat)
    decreases forms, 0
  {
    forms.MoreForms? ==>
      && !forms.head.SetForm? && !forms.head.ExprForm?
      && AcceptsForm(env, forms.head, n) && AcceptsForms(env, forms.tail, n + UsedForm(forms.head))
  }

  // ----- unfolding by hand -----

  lemma AcceptsIs(env: Env, e: Expr, n: nat)
    ensures Accepts(env, e, n) == (
      match e
      case Name(x) => !Resolve(env, x).Captured?
      case Lambda(params, body) => Unique(params) && AcceptsBlock(FnEnv(env, params), body, |params|)
      case Choice(c, yes, otherwise) =>
        Accepts(env, c, n) && AcceptsBlock(env, yes, n + Used(c)) && AcceptsElse(env, otherwise, n + Used(c) + UsedItems(yes))
      case Loop(c, body) => Accepts(env, c, n) && AcceptsBlock(env, body, n + Used(c))
      case Unless(c, body) => Accepts(env, c, n) && AcceptsBlock(env, body, n + Used(c))
      case Cond(clauses, otherwise) =>
        ElseFollows(clauses, otherwise) && AcceptsClauses(env, clauses, false, n)
        && AcceptsElse(env, otherwise, n + UsedClauses(clauses))
      case Case(scrutinee, clauses, otherwise) =>
        var m := n + Used(scrutinee);
        Accepts(env, scrutinee, n) && ElseFollows(clauses, otherwise) && AcceptsClauses(env, clauses, true, m)
        && AcceptsElse(env, otherwise, m + UsedClauses(clauses))
      case Repeat(count, index, body) =>
        var m := n + Used(count);
        Accepts(env, count, n)
        && AcceptsItems(IndexEnv(env, index, m), body, m + Hidden(index), IndexNames(index))
      case Apply(callee, args, keyword) =>
        (if keyword then args.MoreExprs? else !callee.At?)
        && Accepts(env, callee, n) && AcceptsArgs(env, args, n + Used(callee))
      case Element(b, i) => !b.At? && Accepts(env, b, n) && Accepts(env, i, n + Used(b))
      case Member(b, field) => '.' !in field && Accepts(env, b, n)
      case Unary(op, a) => op != NoBuiltin && Accepts(env, a, n)
      case Binary(op, a, b) => op != NoBuiltin && Accepts(env, a, n) && Accepts(env, b, n + Used(a))
      case And(a, b) => Accepts(env, a, n) && Accepts(env, b, n + Used(a))
      case Or(a, b) => Accepts(env, a, n) && Accepts(env, b, n + Used(a))
      case _ => true)
  {
    hide AcceptsItems, AcceptsBlock, AcceptsClauses, AcceptsArgs, AcceptsElse, Resolve, Used;
  }

  lemma AcceptsLambdaIs(env: Env, e: Expr, n: nat)
    requires e.Lambda?
    ensures Accepts(env, e, n) == (Unique(e.params) && AcceptsBlock(FnEnv(env, e.params), e.body, |e.params|))
  {
    hide AcceptsBlock, Unique, FnEnv;
  }

  lemma AcceptsChoiceIs(env: Env, e: Expr, n: nat)
    requires e.Choice?
    ensures Accepts(env, e, n)
         == (AcceptsGuarded(env, e.condition, e.yes, n) && AcceptsElse(env, e.otherwise, n + Used(e.condition) + UsedItems(e.yes)))
  {
    hide AcceptsBlock, AcceptsElse, Used, UsedItems;
  }

  lemma AcceptsCaseIs(env: Env, e: Expr, n: nat)
    requires e.Case?
    ensures Accepts(env, e, n)
         == (Accepts(env, e.scrutinee, n) && AcceptsParts(env, e.clauses, e.otherwise, true, n + Used(e.scrutinee)))
  {
    hide AcceptsClauses, AcceptsElse, ElseFollows, Used, UsedClauses;
  }

  lemma AcceptsRepeatIs(env: Env, e: Expr, n: nat)
    requires e.Repeat?
    ensures Accepts(env, e, n) == (Accepts(env, e.count, n) && AcceptsRound(env, e.index, e.body, n + Used(e.count)))
  {
    hide AcceptsItems, IndexEnv, IndexNames, Used;
  }

  lemma AcceptsApplyIs(env: Env, e: Expr, n: nat)
    requires e.Apply?
    ensures Accepts(env, e, n)
         == ((e.keyword ==> e.args.MoreExprs?)
             && AcceptsCallee(env, e.callee, e.keyword, n) && AcceptsArgs(env, e.args, n + Used(e.callee)))
  {
    hide AcceptsArgs, Used;
  }

  lemma AcceptsPairIs(env: Env, l: Expr, r: Expr, body: Items, n: nat)
    ensures AcceptsPair(env, l, r, n) == (Accepts(env, l, n) && Accepts(env, r, n + Used(l)))
    ensures AcceptsGuarded(env, l, body, n) == (Accepts(env, l, n) && AcceptsBlock(env, body, n + Used(l)))
  {
    hide Accepts, AcceptsBlock, Used;
  }

  lemma AcceptsArgsIs(env: Env, args: Exprs, n: nat)
    ensures args.NoExprs? ==> AcceptsArgs(env, args, n)
    ensures args.MoreExprs? ==>
      AcceptsArgs(env, args, n) == (Accepts(env, args.head, n) && AcceptsArgs(env, args.tail, n + Used(args.head)))
  {
    hide Accepts, Used;
  }

  lemma AcceptsItemsIs(env: Env, items: Items, n: nat, here: set<string>)
    ensures items.NoItems? ==> AcceptsItems(env, items, n, here)
    ensures items.MoreItems? ==>
      AcceptsItems(env, items, n, here)
      == (AcceptsItem(env, items.head, n, here)
          && AcceptsItems(After(env, items.head, n), items.tail, n + UsedItem(items.head), Named(items.head, here)))
  {
    hide AcceptsItem, Named, After, UsedItem;
  }

  lemma AcceptsClausesIs(env: Env, clauses: Clauses, matching: bool, n: nat)
    ensures clauses.NoClauses? ==> AcceptsClauses(env, clauses, matching, n)
    ensures clauses.MoreClauses? ==>
      AcceptsClauses(env, clauses, matching, n)
      == (AcceptsClause(env, clauses.test, clauses.body, matching, n)
          && AcceptsClauses(env, clauses.tail, matching, n + Used(clauses.test) + UsedItems(clauses.body)))
  {
    hide Accepts, AcceptsBlock, Used, UsedItems;
  }

  lemma AcceptsFormsIs(env: Env, forms: Forms, n: nat)
    ensures forms.NoForms? ==> AcceptsForms(env, forms, n)
    ensures forms.MoreForms? ==>
      AcceptsForms(env, forms, n)
      == (!forms.head.SetForm? && !forms.head.ExprForm?
          && AcceptsForm(env, forms.head, n) && AcceptsForms(env, forms.tail, n + UsedForm(forms.head)))
  {
    hide AcceptsForm, UsedForm;
  }

  lemma AcceptsItemIs(env: Env, item: Item, n: nat, here: set<string>)
    ensures AcceptsItem(env, item, n, here) == (
      match item
      case Here(name, value) => name !in here && Accepts(env, value, n)
      case Set(place, value) => IsPlace(place) && AcceptsPair(env, place, value, n)
      case Do(e) => Accepts(env, e, n))
  {
    hide Accepts, Used;
  }

  lemma AcceptsElseIs(env: Env, otherwise: Else, items: Items, n: nat)
    ensures otherwise.NoElse? ==> AcceptsElse(env, otherwise, n)
    ensures otherwise.Else? ==> AcceptsElse(env, otherwise, n) == AcceptsBlock(env, otherwise.items, n)
    ensures AcceptsBlock(env, items, n) == AcceptsItems(env, items, n, {})
  {
    hide AcceptsItems;
  }

  lemma ChainIsNoDesignator(env: Env, clauses: Clauses, otherwise: Else, p: Program, id: nat, end: nat, n: nat, m: nat)
    requires CondMeans(env, clauses, p, id, end, n) && ElseMeans(env, otherwise, p, end, m)
    ensures id < |p.nodes| && !p.nodes[id].SlotDesignator?
  {
    hide Means, ItemsMean;
  }

  /** Only a slot designator is parsed as one. */
  lemma DesignatorIsAt(env: Env, e: Expr, p: Program, id: nat, n: nat)
    requires Means(env, e, p, id, n)
    ensures id < |p.nodes| && (p.nodes[id].SlotDesignator? <==> e.At?)
  {
    hide ItemsMean, ArgsMean, Find, FnEnv, RepeatLoopAt;
    if e.Cond? {
      var end :| CondChainMeans(env, e, p, id, end, n);
      ChainIsNoDesignator(env, e.clauses, e.otherwise, p, id, end, n, n + UsedClauses(e.clauses));
    } else if e.Case? {
      var end :| CaseChainMeans(env, e, p, id, end, n);
    }
  }
}

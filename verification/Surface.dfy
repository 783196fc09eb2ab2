/**
 Surface syntax, name resolution, and what it means for a program node to be the
 translation of a piece of syntax.

 The parser's token stream is represented by the tree it describes.
 */
module Surface {
  import opened Ir
  import opened Interp
  import Values
  import Names
  import Image

  /** A name as the lexer cuts it out of the source, dots included. */
  predicate IsToken(s: string) {
    0 < |s| < Image.WORD && Names.Starts(s[0]) && forall k :: 1 <= k < |s| ==> Names.Continues(s[k]) || s[k] == '.'
  }

  type Token = s: string | IsToken(s) witness "a"

  const STRING_LIMIT: nat := 256

  /** The bytes of a text literal. */
  type Quoted = s: string | Image.Chars(s) && |s| <= STRING_LIMIT

  datatype Expr =
    | Number(n: Values.Int30) | Truth(b: bool) | Nothing | Words(text: Quoted)
    | Name(name: Token) | At(name: Token)
    | Lambda(params: seq<Token>, body: Items)
    | Choice(condition: Expr, yes: Items, otherwise: Else)
    | Loop(condition: Expr, body: Items)
    | Unless(condition: Expr, body: Items)
    | Cond(clauses: Clauses, otherwise: Else)
    | Case(scrutinee: Expr, clauses: Clauses, otherwise: Else)
    | Repeat(count: Expr, index: Option<Token>, body: Items)
    | Apply(callee: Expr, args: Exprs, keyword: bool)   // `call f with ...`, or `f(...)`
    | Element(base: Expr, position: Expr)
    | Member(base: Expr, field: Token)
    | Unary(op: Builtin, operand: Expr)
    | Binary(op: Builtin, left: Expr, right: Expr)
    | And(left: Expr, right: Expr)
    | Or(left: Expr, right: Expr)

  datatype Item = Here(name: Token, value: Expr) | Set(place: Expr, value: Expr) | Do(e: Expr)

  datatype Items = NoItems | MoreItems(head: Item, tail: Items)

  datatype Exprs = NoExprs | MoreExprs(head: Expr, tail: Exprs)

  /** The clauses of a `cond`, with their conditions, or of a `case`, with their literals. */
  datatype Clauses = NoClauses | MoreClauses(test: Expr, body: Items, tail: Clauses)

  datatype Else = NoElse | Else(items: Items)

  function Count(items: Items): nat { if items.NoItems? then 0 else 1 + Count(items.tail) }

  function ArgCount(args: Exprs): nat { if args.NoExprs? then 0 else 1 + ArgCount(args.tail) }

  predicate IsLiteral(e: Expr) { e.Number? || e.Truth? || e.Nothing? || e.Words? }

  // ----- names -----

  /** What a name can refer to: bindings of the function being parsed, innermost last, and
      the names bound only in enclosing functions.  `prefix` are the names of the prefix
      blocks around, outermost first. */
  datatype Env = Env(inner: seq<(string, nat)>, outer: seq<string>, rejects: bool, prefix: seq<string>)

  datatype Where = Local(index: nat) | Global | Captured

  function Find(inner: seq<(string, nat)>, name: string): Option<nat> {
    if inner == [] then None
    else if inner[|inner| - 1].0 == name then Some(inner[|inner| - 1].1)
    else Find(inner[..|inner| - 1], name)
  }

  /** A name bound only in an enclosing function refers to nothing: there are no closures. */
  function Resolve(env: Env, name: string): Where {
    match Find(env.inner, name)
    case Some(i) => Local(i)
    case None => if env.rejects && name in env.outer then Captured else Global
  }

  /** `s` is made of the parts, in order, with a dot between each two. */
  predicate Spells(s: string, parts: seq<string>) {
    if parts == [] then false
    else if |parts| == 1 then s == parts[0]
    else
      && |parts[0]| < |s| && s[..|parts[0]|] == parts[0] && s[|parts[0]|] == '.'
      && Spells(s[|parts[0]| + 1..], parts[1..])
  }

  /** There is only one way to spell the parts. */
  lemma {:induction false} SpellsOnce(s: string, t: string, parts: seq<string>)
    requires Spells(s, parts) && Spells(t, parts)
    ensures s == t
  {
    if |parts| > 1 {
      var k := |parts[0]|;
      SpellsOnce(s[k + 1..], t[k + 1..], parts[1..]);
      assert s == s[..k] + ['.'] + s[k + 1..] && t == t[..k] + ['.'] + t[k + 1..];
    }
  }

  /** In a prefix block a name without a dot reads the block's own slot if there is one, and the
      slot of that very name otherwise. */
  ghost predicate ReadsGlobal(env: Env, name: string, node: Node) {
    if env.prefix != [] && '.' !in name
    then node.ReadSlotFallback? && Spells(node.name, env.prefix + [name]) && node.fallback == name
    else node == ReadSlot(name)
  }

  ghost predicate WritesGlobal(env: Env, name: string, node: Node) {
    if env.prefix != [] && '.' !in name
    then node.WriteSlotFallback? && Spells(node.name, env.prefix + [name]) && node.fallback == name && node.requireExisting
    else node.WriteSlot? && node.name == name && node.requireExisting
  }

  function Bind(env: Env, name: string, index: nat): Env { env.(inner := env.inner + [(name, index)]) }

  function NamesOf(inner: seq<(string, nat)>): seq<string> {
    seq(|inner|, i requires 0 <= i < |inner| => inner[i].0)
  }

  /** Inside a function nothing bound outside is visible. */
  function FnEnv(env: Env, params: seq<string>): Env {
    Env(seq(|params|, i requires 0 <= i < |params| => (params[i], i)), env.outer + NamesOf(env.inner), true, env.prefix)
  }

  function IndexEnv(env: Env, index: Option<string>, n: nat): Env {
    if index.Some? then Bind(env, index.value, n) else env
  }

  function Hidden(index: Option<string>): nat { if index.Some? then 1 else 0 }

  function IndexLocal(index: Option<string>, n: nat): Option<nat> { if index.Some? then Some(n) else None }

  // ----- local numbers used up -----

  /** How many locals of the enclosing function the translation of `e` declares. */
  function Used(e: Expr): nat {
    match e
    case Choice(c, yes, otherwise) => Used(c) + UsedItems(yes) + UsedElse(otherwise)
    case Loop(c, body) => Used(c) + UsedItems(body)
    case Unless(c, body) => Used(c) + UsedItems(body)
    case Cond(clauses, otherwise) => UsedClauses(clauses) + UsedElse(otherwise)
    case Case(scrutinee, clauses, otherwise) => Used(scrutinee) + UsedClauses(clauses) + UsedElse(otherwise) + 1
    case Repeat(count, index, body) => Used(count) + Hidden(index) + UsedItems(body) + 2
    case Apply(callee, args, _) => Used(callee) + UsedArgs(args)
    case Element(b, i) => Used(b) + Used(i)
    case Member(b, _) => Used(b)
    case Unary(_, a) => Used(a)
    case Binary(_, a, b) => Used(a) + Used(b)
    case And(a, b) => Used(a) + Used(b)
    case Or(a, b) => Used(a) + Used(b)
    case _ => 0
  }

  function UsedItem(item: Item): nat {
    match item
    case Here(_, value) => Used(value) + 1
    case Set(place, value) => Used(place) + Used(value)
    case Do(e) => Used(e)
  }

  function UsedItems(items: Items): nat {
    match items
    case NoItems => 0
    case MoreItems(head, tail) => UsedItem(head) + UsedItems(tail)
  }

  function UsedArgs(args: Exprs): nat {
    match args
    case NoExprs => 0
    case MoreExprs(head, tail) => Used(head) + UsedArgs(tail)
  }

  function UsedClauses(clauses: Clauses): nat {
    match clauses
    case NoClauses => 0
    case MoreClauses(test, body, tail) => Used(test) + UsedItems(body) + UsedClauses(tail)
  }

  function UsedElse(otherwise: Else): nat { if otherwise.NoElse? then 0 else UsedItems(otherwise.items) }

  // ----- sizes -----

  // A weight is more than the nodes, literals, links, names, scopes and frames that a piece
  // of syntax needs, taken together.

  function Weight(e: Expr): (w: nat)
    ensures w >= 32
  {
    match e
    case Lambda(params, body) => 32 + |params| + ItemsWeight(body)
    case Choice(c, yes, otherwise) => 32 + Weight(c) + ItemsWeight(yes) + ElseWeight(otherwise)
    case Loop(c, body) => 32 + Weight(c) + ItemsWeight(body)
    case Unless(c, body) => 32 + Weight(c) + ItemsWeight(body)
    case Cond(clauses, otherwise) => 32 + ClausesWeight(clauses) + ElseWeight(otherwise)
    case Case(scrutinee, clauses, otherwise) => 32 + Weight(scrutinee) + ClausesWeight(clauses) + ElseWeight(otherwise)
    case Repeat(count, _, body) => 32 + Weight(count) + ItemsWeight(body)
    case Apply(callee, args, _) => 32 + Weight(callee) + ArgsWeight(args)
    case Element(b, i) => 32 + Weight(b) + Weight(i)
    case Member(b, _) => 32 + Weight(b)
    case Unary(_, a) => 32 + Weight(a)
    case Binary(_, a, b) => 32 + Weight(a) + Weight(b)
    case And(a, b) => 32 + Weight(a) + Weight(b)
    case Or(a, b) => 32 + Weight(a) + Weight(b)
    case _ => 32
  }

  function ItemWeight(item: Item): (w: nat)
    ensures w >= 32
  {
    match item
    case Here(_, value) => 32 + Weight(value)
    case Set(place, value) => 32 + Weight(place) + Weight(value)
    case Do(e) => 32 + Weight(e)
  }

  function ItemsWeight(items: Items): (w: nat)
    ensures w >= 32 + Count(items)
  {
    if items.NoItems? then 32 else 32 + ItemWeight(items.head) + ItemsWeight(items.tail)
  }

  function ArgsWeight(args: Exprs): (w: nat)
    ensures w >= 32 + ArgCount(args)
  {
    if args.NoExprs? then 32 else 32 + Weight(args.head) + ArgsWeight(args.tail)
  }

  /** What the chain of comparisons needs for its own nodes and links. */
  function ClauseSpare(clauses: Clauses): nat { if clauses.NoClauses? then 0 else 5 + ClauseSpare(clauses.tail) }

  function ClausesWeight(clauses: Clauses): (w: nat)
    ensures w >= 32 + ClauseSpare(clauses)
  {
    if clauses.NoClauses? then 32
    else 32 + Weight(clauses.test) + ItemsWeight(clauses.body) + ClausesWeight(clauses.tail)
  }

  function ElseWeight(otherwise: Else): (w: nat)
    ensures w >= 32
  {
    if otherwise.NoElse? then 32 else 32 + ItemsWeight(otherwise.items)
  }

  /** The sizes of an expression, from those of its parts. */
  lemma Parts(e: Expr)
    ensures match e
      case Lambda(params, body) => Weight(e) == 32 + |params| + ItemsWeight(body) && Used(e) == 0
      case Choice(c, yes, otherwise) =>
        Weight(e) == 32 + Weight(c) + ItemsWeight(yes) + ElseWeight(otherwise) && Used(e) == Used(c) + UsedItems(yes) + UsedElse(otherwise)
      case Unless(c, body) => Weight(e) == 32 + Weight(c) + ItemsWeight(body) && Used(e) == Used(c) + UsedItems(body)
      case Case(x, clauses, otherwise) =>
        && Weight(e) == 32 + Weight(x) + ClausesWeight(clauses) + ElseWeight(otherwise)
        && Used(e) == Used(x) + UsedClauses(clauses) + UsedElse(otherwise) + 1
      case Repeat(count, index, body) =>
        Weight(e) == 32 + Weight(count) + ItemsWeight(body) && Used(e) == Used(count) + Hidden(index) + UsedItems(body) + 2
      case Apply(callee, args, _) => Weight(e) == 32 + Weight(callee) + ArgsWeight(args) && Used(e) == Used(callee) + UsedArgs(args)
      case Element(b, i) => Weight(e) == 32 + Weight(b) + Weight(i) && Used(e) == Used(b) + Used(i)
      case Member(b, _) => Weight(e) == 32 + Weight(b) && Used(e) == Used(b)
      case And(a, b) => Weight(e) == 32 + Weight(a) + Weight(b) && Used(e) == Used(a) + Used(b)
      case Or(a, b) => Weight(e) == 32 + Weight(a) + Weight(b) && Used(e) == Used(a) + Used(b)
      case Loop(c, body) => Weight(e) == 32 + Weight(c) + ItemsWeight(body) && Used(e) == Used(c) + UsedItems(body)
      case Cond(clauses, otherwise) =>
        Weight(e) == 32 + ClausesWeight(clauses) + ElseWeight(otherwise) && Used(e) == UsedClauses(clauses) + UsedElse(otherwise)
      case Unary(_, a) => Weight(e) == 32 + Weight(a) && Used(e) == Used(a)
      case Binary(_, a, b) => Weight(e) == 32 + Weight(a) + Weight(b) && Used(e) == Used(a) + Used(b)
      case Name(_) => Used(e) == 0
      case At(_) => Used(e) == 0
      case _ => true
    ensures IsLiteral(e) ==> Used(e) == 0
  {
    hide UsedItems, UsedArgs, UsedClauses, UsedElse, ItemsWeight, ArgsWeight, ClausesWeight, ElseWeight, Hidden;
  }

  lemma ItemParts(item: Item)
    ensures match item
      case Here(_, value) => ItemWeight(item) == 32 + Weight(value) && UsedItem(item) == Used(value) + 1
      case Set(place, value) => ItemWeight(item) == 32 + Weight(place) + Weight(value) && UsedItem(item) == Used(place) + Used(value)
      case Do(e) => ItemWeight(item) == 32 + Weight(e) && UsedItem(item) == Used(e)
  {
  }

  lemma ArgsParts(args: Exprs)
    ensures args.NoExprs? ==> UsedArgs(args) == 0 && ArgsWeight(args) == 32 && ArgCount(args) == 0
    ensures args.MoreExprs? ==>
      && UsedArgs(args) == Used(args.head) + UsedArgs(args.tail) && ArgCount(args) == 1 + ArgCount(args.tail)
      && ArgsWeight(args) == 32 + Weight(args.head) + ArgsWeight(args.tail)
  {
    hide Used, Weight;
  }

  lemma ItemsParts(items: Items)
    ensures items.NoItems? ==> UsedItems(items) == 0 && ItemsWeight(items) == 32 && Count(items) == 0
    ensures items.MoreItems? ==>
      && UsedItems(items) == UsedItem(items.head) + UsedItems(items.tail) && Count(items) == 1 + Count(items.tail)
      && ItemsWeight(items) == 32 + ItemWeight(items.head) + ItemsWeight(items.tail)
  {
    hide UsedItem, ItemWeight;
  }

  lemma ClausesParts(clauses: Clauses)
    ensures clauses.NoClauses? ==> UsedClauses(clauses) == 0 && ClausesWeight(clauses) == 32 && ClauseSpare(clauses) == 0
    ensures clauses.MoreClauses? ==>
      && UsedClauses(clauses) == Used(clauses.test) + UsedItems(clauses.body) + UsedClauses(clauses.tail)
      && ClauseSpare(clauses) == 5 + ClauseSpare(clauses.tail)
      && ClausesWeight(clauses) == 32 + Weight(clauses.test) + ItemsWeight(clauses.body) + ClausesWeight(clauses.tail)
  {
    hide Used, UsedItems, Weight, ItemsWeight;
  }

  lemma ElseParts(otherwise: Else)
    ensures match otherwise
      case NoElse => UsedElse(otherwise) == 0
      case Else(items) => ElseWeight(otherwise) == 32 + ItemsWeight(items) && UsedElse(otherwise) == UsedItems(items)
  {
  }

  // ----- shapes of nodes -----

  ghost predicate LiteralAt(p: Program, id: nat, l: Literal) {
    id < |p.nodes| && p.nodes[id].Lit? && p.nodes[id].literal < |p.literals| && p.literals[p.nodes[id].literal] == l
  }

  ghost predicate NodeAt(p: Program, id: nat, node: Node) { id < |p.nodes| && p.nodes[id] == node }

  ghost predicate BuiltinAt(p: Program, id: nat, op: Builtin, count: nat) {
    id < |p.nodes| && p.nodes[id].Call? && p.nodes[id].builtin == op && op != NoBuiltin && p.nodes[id].argCount == count
    && p.nodes[id].firstArg + count <= |p.links|
  }

  ghost function Arg(p: Program, id: nat, k: nat): nat
    requires id < |p.nodes| && p.nodes[id].Call? && p.nodes[id].firstArg + k < |p.links|
  {
    p.links[p.nodes[id].firstArg + k]
  }

  ghost predicate SeqAt(p: Program, id: nat, count: nat) {
    id < |p.nodes| && p.nodes[id].Seq? && p.nodes[id].itemCount == count && p.nodes[id].firstItem + count <= |p.links|
  }

  ghost function Part(p: Program, id: nat, k: nat): nat
    requires id < |p.nodes| && p.nodes[id].Seq? && p.nodes[id].firstItem + k < |p.links|
  {
    p.links[p.nodes[id].firstItem + k]
  }

  ghost predicate IfAt(p: Program, id: nat, hasElse: bool) {
    id < |p.nodes| && p.nodes[id].If? && p.nodes[id].hasElse == hasElse
  }

  /** `id` turns the boolean `c` yields into a literal boolean. */
  ghost predicate BoolOf(p: Program, id: nat, c: nat) {
    IfAt(p, id, true) && p.nodes[id].condition == c
    && LiteralAt(p, p.nodes[id].thenBranch, BoolLiteral(true)) && LiteralAt(p, p.nodes[id].elseBranch, BoolLiteral(false))
  }

  ghost predicate AndAt(p: Program, id: nat, l: nat, r: nat) {
    IfAt(p, id, true) && p.nodes[id].condition == l
    && BoolOf(p, p.nodes[id].thenBranch, r) && LiteralAt(p, p.nodes[id].elseBranch, BoolLiteral(false))
  }

  ghost predicate OrAt(p: Program, id: nat, l: nat, r: nat) {
    IfAt(p, id, true) && p.nodes[id].condition == l
    && LiteralAt(p, p.nodes[id].thenBranch, BoolLiteral(true)) && BoolOf(p, p.nodes[id].elseBranch, r)
  }

  ghost predicate CounterBump(p: Program, id: nat, counter: nat) {
    id < |p.nodes| && p.nodes[id].WriteLocal? && p.nodes[id].local == counter
    && var sum := p.nodes[id].value;
       BuiltinAt(p, sum, Add, 2)
       && NodeAt(p, Arg(p, sum, 0), ReadLocal(counter)) && LiteralAt(p, Arg(p, sum, 1), IntLiteral(1))
  }

  ghost predicate IndexCopy(p: Program, id: nat, index: nat, counter: nat) {
    id < |p.nodes| && p.nodes[id].WriteLocal? && p.nodes[id].local == index
    && NodeAt(p, p.nodes[id].value, ReadLocal(counter))
  }

  /** The body of the loop that `repeat` becomes. */
  ghost predicate RoundAt(p: Program, id: nat, index: Option<nat>, body: nat, counter: nat) {
    if index.Some? then
      SeqAt(p, id, 3) && IndexCopy(p, Part(p, id, 0), index.value, counter)
      && Part(p, id, 1) == body && CounterBump(p, Part(p, id, 2), counter)
    else
      SeqAt(p, id, 2) && Part(p, id, 0) == body && CounterBump(p, Part(p, id, 1), counter)
  }

  ghost predicate RepeatLoopAt(p: Program, id: nat, index: Option<nat>, body: nat, limit: nat, counter: nat) {
    id < |p.nodes| && p.nodes[id].While?
    && var test := p.nodes[id].condition;
       BuiltinAt(p, test, Lt, 2)
       && NodeAt(p, Arg(p, test, 0), ReadLocal(counter)) && NodeAt(p, Arg(p, test, 1), ReadLocal(limit))
       && RoundAt(p, p.nodes[id].body, index, body, counter)
  }

  /** Everything that `repeat` becomes. */
  ghost predicate RepeatAt(p: Program, id: nat, count: nat, index: Option<nat>, body: nat, limit: nat, counter: nat) {
    SeqAt(p, id, 3)
    && NodeAt(p, Part(p, id, 0), WriteLocal(limit, count))
    && Part(p, id, 1) < |p.nodes| && p.nodes[Part(p, id, 1)].WriteLocal? && p.nodes[Part(p, id, 1)].local == counter
    && LiteralAt(p, p.nodes[Part(p, id, 1)].value, IntLiteral(0))
    && RepeatLoopAt(p, Part(p, id, 2), index, body, limit, counter)
  }

  // ----- translation -----

  function LiteralOf(e: Expr): Literal
    requires IsLiteral(e)
  {
    match e
    case Number(n) => IntLiteral(n)
    case Truth(b) => BoolLiteral(b)
    case Nothing => NilLiteral
    case Words(text) => TextLiteral(text)
  }

  /** Node `id` is a translation of `e` in `env`, with new locals numbered from `n` on. */
  ghost predicate Means(env: Env, e: Expr, p: Program, id: nat, n: nat)
    decreases e, 1
  {
    id < |p.nodes| &&
    var node := p.nodes[id];
    match e
    case Name(x) =>
      (match Resolve(env, x)
       case Local(i) => node == ReadLocal(i)
       case Global => ReadsGlobal(env, x, node)
       case Captured => false)
    case At(x) => node == SlotDesignator(x)
    case Lambda(params, body) =>
      node.Fn? && node.arity == |params| && node.localCount == |params| + UsedItems(body)
      && BlockMeans(FnEnv(env, params), body, p, node.body, |params|)
    case Choice(c, yes, otherwise) =>
      IfAt(p, id, otherwise.Else?) && Means(env, c, p, node.condition, n)
      && BlockMeans(env, yes, p, node.thenBranch, n + Used(c))
      && (otherwise.Else? ==> BlockMeans(env, otherwise.items, p, node.elseBranch, n + Used(c) + UsedItems(yes)))
    case Loop(c, body) =>
      node.While? && Means(env, c, p, node.condition, n) && BlockMeans(env, body, p, node.body, n + Used(c))
    case Unless(c, body) =>
      IfAt(p, id, false) && BuiltinAt(p, node.condition, Not, 1) && Means(env, c, p, Arg(p, node.condition, 0), n)
      && BlockMeans(env, body, p, node.thenBranch, n + Used(c))
    case Cond(clauses, otherwise) =>
      exists end: nat :: CondChainMeans(env, e, p, id, end, n)
    case Case(scrutinee, clauses, otherwise) =>
      exists end: nat :: CaseChainMeans(env, e, p, id, end, n)
    case Repeat(count, index, body) =>
      exists c: nat, b: nat :: RepeatMeans(env, e, p, id, c, b, n)
    case Apply(callee, args, _) =>
      node.Call? && node.builtin == NoBuiltin && node.argCount == ArgCount(args)
      && Means(env, callee, p, node.callee, n) && ArgsMean(env, args, p, node.firstArg, n + Used(callee))
    case Element(b, i) => node.ReadIndex? && Means(env, b, p, node.base, n) && Means(env, i, p, node.index, n + Used(b))
    case Member(b, f) => node.ReadField? && node.field == f && Means(env, b, p, node.base, n)
    case Unary(op, a) => BuiltinAt(p, id, op, 1) && Means(env, a, p, Arg(p, id, 0), n)
    case Binary(op, a, b) =>
      BuiltinAt(p, id, op, 2) && Means(env, a, p, Arg(p, id, 0), n) && Means(env, b, p, Arg(p, id, 1), n + Used(a))
    case And(a, b) => exists l: nat, r: nat :: AndAt(p, id, l, r) && Means(env, a, p, l, n) && Means(env, b, p, r, n + Used(a))
    case Or(a, b) => exists l: nat, r: nat :: OrAt(p, id, l, r) && Means(env, a, p, l, n) && Means(env, b, p, r, n + Used(a))
    case _ => LiteralAt(p, id, LiteralOf(e))
  }

  /** The index local, if there is one, is numbered behind the count's locals; the limit and
      the counter are behind the body's. */
  ghost predicate RepeatMeans(env: Env, e: Expr, p: Program, id: nat, c: nat, b: nat, n: nat)
    requires e.Repeat?
    decreases e, 0
  {
    var m := n + Used(e.count);
    var limit := m + Hidden(e.index) + UsedItems(e.body);
    RepeatAt(p, id, c, IndexLocal(e.index, m), b, limit, limit + 1)
    && Means(env, e.count, p, c, n)
    && BlockMeans(IndexEnv(env, e.index, m), e.body, p, b, m + Hidden(e.index))
  }

  /** A hidden local holds the scrutinee while the clauses are compared with it. */
  ghost predicate CaseChainMeans(env: Env, e: Expr, p: Program, id: nat, end: nat, n: nat)
    requires e.Case?
    decreases e, 0
  {
    var m := n + Used(e.scrutinee);
    var hidden := m + UsedClauses(e.clauses) + UsedElse(e.otherwise);
    SeqAt(p, id, 2)
    && Part(p, id, 0) < |p.nodes| && p.nodes[Part(p, id, 0)].WriteLocal? && p.nodes[Part(p, id, 0)].local == hidden
    && Means(env, e.scrutinee, p, p.nodes[Part(p, id, 0)].value, n)
    && CaseMeans(env, e.clauses, hidden, p, Part(p, id, 1), end, m)
    && ElseMeans(env, e.otherwise, p, end, m + UsedClauses(e.clauses))
  }

  ghost predicate CondChainMeans(env: Env, e: Expr, p: Program, id: nat, end: nat, n: nat)
    requires e.Cond?
    decreases e, 0
  {
    CondMeans(env, e.clauses, p, id, end, n) && ElseMeans(env, e.otherwise, p, end, n + UsedClauses(e.clauses))
  }

  ghost predicate ArgsMean(env: Env, args: Exprs, p: Program, first: nat, n: nat)
    decreases args
  {
    args.NoExprs? ||
    (first < |p.links| && Means(env, args.head, p, p.links[first], n)
     && ArgsMean(env, args.tail, p, first + 1, n + Used(args.head)))
  }

  /** The environment behind an item, whose locals are numbered from `n` on. */
  function After(env: Env, item: Item, n: nat): Env {
    if item.Here? then Bind(env, item.name, n + Used(item.value)) else env
  }

  ghost predicate ItemMeans(env: Env, item: Item, p: Program, id: nat, n: nat)
    decreases item
  {
    id < |p.nodes| &&
    var node := p.nodes[id];
    match item
    case Do(e) => Means(env, e, p, id, n)
    case Here(_, value) => node.WriteLocal? && node.local == n + Used(value) && Means(env, value, p, node.value, n)
    case Set(place, value) =>
      (match place
       case Name(x) =>
         (match Resolve(env, x)
          case Local(i) => node.WriteLocal? && node.local == i && Means(env, value, p, node.value, n)
          case Global =>
            (node.WriteSlot? || node.WriteSlotFallback?) && WritesGlobal(env, x, node)
            && Means(env, value, p, node.value, n)
          case Captured => false)
       case At(x) =>
         node.WriteSlotFallback? && node == WriteSlotFallback(x, x, node.value, true) && Means(env, value, p, node.value, n)
       case Element(b, i) =>
         node.WriteIndex? && Means(env, b, p, node.base, n) && Means(env, i, p, node.index, n + Used(b))
         && Means(env, value, p, node.value, n + Used(b) + Used(i))
       case Member(b, f) =>
         node.WriteField? && node.field == f && Means(env, b, p, node.base, n) && Means(env, value, p, node.value, n + Used(b))
       case _ => false)
  }

  ghost predicate ItemsMean(env: Env, items: Items, p: Program, first: nat, n: nat)
    decreases items, 0
  {
    items.NoItems? ||
    (first < |p.links| && ItemMeans(env, items.head, p, p.links[first], n)
     && ItemsMean(After(env, items.head, n), items.tail, p, first + 1, n + UsedItem(items.head)))
  }

  ghost predicate BlockMeans(env: Env, items: Items, p: Program, id: nat, n: nat)
    decreases items, 1
  {
    SeqAt(p, id, Count(items)) && ItemsMean(env, items, p, p.nodes[id].firstItem, n)
  }

  /** What a chain of clauses falls through to. */
  ghost predicate ElseMeans(env: Env, otherwise: Else, p: Program, id: nat, n: nat)
    decreases otherwise
  {
    if otherwise.NoElse? then LiteralAt(p, id, NilLiteral) else BlockMeans(env, otherwise.items, p, id, n)
  }

  /** The clauses of a `cond` as a chain of branches from `id` to `end`. */
  ghost predicate CondMeans(env: Env, clauses: Clauses, p: Program, id: nat, end: nat, n: nat)
    decreases clauses
  {
    if clauses.NoClauses? then id == end
    else
      IfAt(p, id, true) && Means(env, clauses.test, p, p.nodes[id].condition, n)
      && BlockMeans(env, clauses.body, p, p.nodes[id].thenBranch, n + Used(clauses.test))
      && CondMeans(env, clauses.tail, p, p.nodes[id].elseBranch, end, n + Used(clauses.test) + UsedItems(clauses.body))
  }

  /** The clauses of a `case` as a chain of comparisons of a hidden local from `id` to `end`. */
  ghost predicate CaseMeans(env: Env, clauses: Clauses, hidden: nat, p: Program, id: nat, end: nat, n: nat)
    decreases clauses
  {
    if clauses.NoClauses? then id == end
    else
      && IfAt(p, id, true) && IsLiteral(clauses.test)
      && BuiltinAt(p, p.nodes[id].condition, Eq, 2)
      && NodeAt(p, Arg(p, p.nodes[id].condition, 0), ReadLocal(hidden))
      && LiteralAt(p, Arg(p, p.nodes[id].condition, 1), LiteralOf(clauses.test))
      && BlockMeans(env, clauses.body, p, p.nodes[id].thenBranch, n + Used(clauses.test))
      && CaseMeans(env, clauses.tail, hidden, p, p.nodes[id].elseBranch, end,
                   n + Used(clauses.test) + UsedItems(clauses.body))
  }

  // ----- the same, for node numbers that are not in the link array yet -----

  function EnvAfter(env: Env, items: Items, n: nat): Env
    decreases items
  {
    match items
    case NoItems => env
    case MoreItems(head, tail) => EnvAfter(After(env, head, n), tail, n + UsedItem(head))
  }

  ghost predicate ItemIdsMean(env: Env, items: Items, p: Program, ids: seq<nat>, n: nat)
    decreases items
  {
    if items.NoItems? then ids == []
    else ids != [] && ItemMeans(env, items.head, p, ids[0], n)
         && ItemIdsMean(After(env, items.head, n), items.tail, p, ids[1..], n + UsedItem(items.head))
  }

  ghost predicate ArgIdsMean(env: Env, args: Exprs, p: Program, ids: seq<nat>, n: nat)
    decreases args
  {
    if args.NoExprs? then ids == []
    else ids != [] && Means(env, args.head, p, ids[0], n) && ArgIdsMean(env, args.tail, p, ids[1..], n + Used(args.head))
  }

  ghost predicate TestMeans(env: Env, test: Expr, matching: bool, p: Program, id: nat, n: nat) {
    if matching then IsLiteral(test) && LiteralAt(p, id, LiteralOf(test)) else Means(env, test, p, id, n)
  }

  ghost predicate ClauseIdsMean(env: Env, clauses: Clauses, matching: bool, p: Program, tests: seq<nat>, bodies: seq<nat>, n: nat)
    decreases clauses
  {
    if clauses.NoClauses? then tests == [] && bodies == []
    else
      && tests != [] && bodies != []
      && TestMeans(env, clauses.test, matching, p, tests[0], n)
      && BlockMeans(env, clauses.body, p, bodies[0], n + Used(clauses.test))
      && ClauseIdsMean(env, clauses.tail, matching, p, tests[1..], bodies[1..], n + Used(clauses.test) + UsedItems(clauses.body))
  }

  // ----- top-level forms -----

  datatype Form =
    | BindForm(name: Token, value: Expr)
    | CellsForm(name: Token, size: Values.Int30)
    | RecordForm(name: Token, fields: seq<Token>)
    | InForm(name: Token, forms: Forms)
    | SetForm(place: Expr, value: Expr)
    | ExprForm(e: Expr)

  datatype Forms = NoForms | MoreForms(head: Form, tail: Forms)

  function FormCount(forms: Forms): nat { if forms.NoForms? then 0 else 1 + FormCount(forms.tail) }

  function UsedForm(form: Form): nat {
    match form
    case BindForm(_, value) => Used(value)
    case SetForm(place, value) => Used(place) + Used(value)
    case ExprForm(e) => Used(e)
    case InForm(_, forms) => UsedForms(forms)
    case _ => 0
  }

  function UsedForms(forms: Forms): nat {
    if forms.NoForms? then 0 else UsedForm(forms.head) + UsedForms(forms.tail)
  }

  function Prefixed(env: Env, name: string): Env { env.(prefix := env.prefix + [name]) }

  /** The slot a definition writes; it need not exist. */
  ghost predicate DefinesAt(env: Env, name: string, p: Program, id: nat) {
    id < |p.nodes| && p.nodes[id].WriteSlot? && Spells(p.nodes[id].name, env.prefix + [name]) && !p.nodes[id].requireExisting
  }

  ghost predicate FormMeans(env: Env, form: Form, p: Program, id: nat, n: nat)
    decreases form
  {
    match form
    case BindForm(name, value) => DefinesAt(env, name, p, id) && Means(env, value, p, p.nodes[id].value, n)
    case CellsForm(name, size) =>
      DefinesAt(env, name, p, id) && size > 0
      && BuiltinAt(p, p.nodes[id].value, CellsOf, 1) && LiteralAt(p, Arg(p, p.nodes[id].value, 0), IntLiteral(size))
    case RecordForm(name, fields) =>
      DefinesAt(env, name, p, id) && RecordAt(p, p.nodes[id].value, p.nodes[id].name, fields)
    case InForm(name, forms) =>
      SeqAt(p, id, FormCount(forms)) && FormsMean(Prefixed(env, name), forms, p, p.nodes[id].firstItem, n)
    case SetForm(place, value) => ItemMeans(env, Set(place, value), p, id, n)
    case ExprForm(e) => Means(env, e, p, id, n)
  }

  ghost predicate FormsMean(env: Env, forms: Forms, p: Program, first: nat, n: nat)
    decreases forms
  {
    forms.NoForms? ||
    (first < |p.links| && FormMeans(env, forms.head, p, p.links[first], n)
     && FormsMean(env, forms.tail, p, first + 1, n + UsedForm(forms.head)))
  }

  /** A record definition: its links lead to the literals that spell its field names. */
  ghost predicate RecordAt(p: Program, id: nat, name: string, fields: seq<string>) {
    id < |p.nodes| && p.nodes[id].RecordDefNode? && p.nodes[id].name == name && p.nodes[id].fieldCount == |fields| > 0
    && p.nodes[id].firstField + |fields| <= |p.links|
    && (forall i, j | 0 <= i < j < |fields| :: fields[i] != fields[j])
    && forall i | 0 <= i < |fields| ::
         p.links[p.nodes[id].firstField + i] < |p.literals|
         && p.literals[p.links[p.nodes[id].firstField + i]] == TextLiteral(fields[i])
  }

  ghost predicate FormIdsMean(env: Env, forms: Forms, p: Program, ids: seq<nat>, n: nat)
    decreases forms
  {
    if forms.NoForms? then ids == []
    else ids != [] && FormMeans(env, forms.head, p, ids[0], n)
         && FormIdsMean(env, forms.tail, p, ids[1..], n + UsedForm(forms.head))
  }

  function FormWeight(form: Form): (w: nat)
    ensures w >= 32
  {
    match form
    case BindForm(_, value) => 32 + Weight(value)
    case CellsForm(_, _) => 32
    case RecordForm(_, fields) => 32 + |fields| + |fields|
    case InForm(_, forms) => 32 + FormsWeight(forms)
    case SetForm(place, value) => 32 + Weight(place) + Weight(value)
    case ExprForm(e) => 32 + Weight(e)
  }

  function FormsWeight(forms: Forms): (w: nat)
    ensures w >= 32 + FormCount(forms)
  {
    if forms.NoForms? then 32 else 32 + FormWeight(forms.head) + FormsWeight(forms.tail)
  }

  lemma FormsParts(forms: Forms)
    ensures forms.NoForms? ==> UsedForms(forms) == 0 && FormsWeight(forms) == 32 && FormCount(forms) == 0
    ensures forms.MoreForms? ==>
      && UsedForms(forms) == UsedForm(forms.head) + UsedForms(forms.tail) && FormCount(forms) == 1 + FormCount(forms.tail)
      && FormsWeight(forms) == 32 + FormWeight(forms.head) + FormsWeight(forms.tail)
  {
    hide UsedForm, FormWeight;
  }
}

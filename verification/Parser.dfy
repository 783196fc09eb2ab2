/**
 The parser: stacks of bindings, scopes and frames, and a program it appends to.

 Every method says that what it emitted is a translation (`Surface.Means`) of what it was
 given, in the environment the stacks stood for when it was called.
 */
module Parser {
  import opened Ir
  import opened Values
  import opened Interp
  import opened Surface
  import opened Translation
  import opened Locals
  import opened Scoping
  import opened Names
  import opened Acceptance
  import Image

  datatype Binding = Binding(name: string, index: nat, scope: nat)

  datatype FnFrame = FnFrame(scopeBase: nat, next: nat, rejects: bool)

  /** The bindings of the current function are the last ones. */
  function InnerStart(bindings: seq<Binding>, base: nat): (i: nat)
    ensures i <= |bindings|
    ensures forall k | i <= k < |bindings| :: bindings[k].scope >= base
    ensures i > 0 ==> bindings[i - 1].scope < base
  {
    if bindings == [] || bindings[|bindings| - 1].scope < base then |bindings|
    else InnerStart(bindings[..|bindings| - 1], base)
  }

  function Pairs(bindings: seq<Binding>): seq<(string, nat)> {
    seq(|bindings|, i requires 0 <= i < |bindings| => (bindings[i].name, bindings[i].index))
  }

  function BoundNames(bindings: seq<Binding>): seq<string> {
    seq(|bindings|, i requires 0 <= i < |bindings| => bindings[i].name)
  }

  function EnvOf(bindings: seq<Binding>, frame: FnFrame, prefix: seq<string>): Env {
    var start := InnerStart(bindings, frame.scopeBase);
    Env(Pairs(bindings[start..]), BoundNames(bindings[..start]), frame.rejects, prefix)
  }

  lemma InnerStartIs(bindings: seq<Binding>, base: nat, i: nat)
    requires i <= |bindings| && (forall k | i <= k < |bindings| :: bindings[k].scope >= base)
    requires i > 0 ==> bindings[i - 1].scope < base
    ensures InnerStart(bindings, base) == i
  {
    var j := InnerStart(bindings, base);
    assert forall k | 0 <= k < |bindings| :: (k + 1 == i || k + 1 == j ==> bindings[k].scope < base);
  }

  lemma Declared(bindings: seq<Binding>, frame: FnFrame, prefix: seq<string>, b: Binding)
    requires b.scope >= frame.scopeBase
    ensures EnvOf(bindings + [b], frame, prefix) == Bind(EnvOf(bindings, frame, prefix), b.name, b.index)
  {
    var start := InnerStart(bindings, frame.scopeBase);
    InnerStartIs(bindings + [b], frame.scopeBase, start);
    assert (bindings + [b])[start..] == bindings[start..] + [b];
    assert Pairs(bindings[start..] + [b]) == Pairs(bindings[start..]) + [(b.name, b.index)];
    assert (bindings + [b])[..start] == bindings[..start];
  }

  lemma SameFrameEnv(bindings: seq<Binding>, frame: FnFrame, prefix: seq<string>, next: nat)
    ensures EnvOf(bindings, frame.(next := next), prefix) == EnvOf(bindings, frame, prefix)
  {
  }

  lemma EnteredFunction(bindings: seq<Binding>, frame: FnFrame, prefix: seq<string>, inside: FnFrame)
    requires forall b | b in bindings :: b.scope < inside.scopeBase
    requires inside.rejects
    ensures EnvOf(bindings, inside, prefix) == FnEnv(EnvOf(bindings, frame, prefix), [])
  {
    hide InnerStart;
    InnerStartIs(bindings, inside.scopeBase, |bindings|);
    var start := InnerStart(bindings, frame.scopeBase);
    NamesSplit(bindings, start);
    assert bindings[..|bindings|] == bindings && Pairs(bindings[|bindings|..]) == [];
  }

  lemma NamesSplit(bindings: seq<Binding>, start: nat)
    requires start <= |bindings|
    ensures BoundNames(bindings) == BoundNames(bindings[..start]) + NamesOf(Pairs(bindings[start..]))
  {
  }

  // ----- well-formed programs -----

  ghost predicate Formed(p: Program, node: Node, bound: nat) {
    && RefersBelow(p, node, bound) && Image.Spelled(p, node)
    && (node.RecordDefNode? ==> FieldsFormed(p, node))
    && (node.Fn? ==> node.arity <= node.localCount && LocalsBelow(p, node.body, node.localCount))
  }

  lemma TokenIsSimple(s: Token)
    requires '.' !in s
    ensures SimpleName(s) && Image.Chars(s)
  {
    forall k | 1 <= k < |s| ensures Continues(s[k]) { assert s[k] != '.'; }
    SimpleIsSlotName(s);
  }

  lemma LiteralIsReady(e: Expr)
    requires IsLiteral(e)
    ensures Image.LiteralReady(LiteralOf(e))
  {
  }

  lemma LinkingGrows(p: Program, q: Program)
    requires Image.Linking(p) && Prefix(p, q)
    requires forall k :: |p.links| <= k < |q.links| ==> q.links[k] < |q.nodes|
    ensures Image.Linking(q)
  {
    if n :| n in p.nodes && n.RecordDefNode? { assert n in q.nodes; }
  }

  ghost predicate FieldsFormed(p: Program, node: Node)
    requires node.RecordDefNode?
  {
    node.fieldCount > 0 && node.firstField + node.fieldCount <= |p.links|
    && forall k | node.firstField <= k < node.firstField + node.fieldCount ::
         p.links[k] < |p.literals| && p.literals[p.links[k]].TextLiteral?
  }

  /** Children and link targets come before their parents, every span is in range, and every
      function body uses only locals that the function has. */
  ghost predicate WellFormed(p: Program) {
    forall i | 0 <= i < |p.nodes| :: Formed(p, p.nodes[i], i)
  }

  lemma WellFormedIsBackward(p: Program)
    requires WellFormed(p)
    ensures Backward(p)
  {
    hide LocalsBelow, RefersBelow;
    forall i | 0 <= i < |p.nodes| ensures RefersBelow(p, p.nodes[i], i) { assert Formed(p, p.nodes[i], i); }
  }

  lemma FormedStable(p: Program, q: Program, node: Node, bound: nat, more: nat)
    requires Formed(p, node, bound) && Prefix(p, q) && bound <= more
    ensures Formed(q, node, more)
  {
    hide LocalsBelow;
    if node.Fn? { LocalsStable(p, q, node.body, node.localCount); }
  }

  lemma WellFormedGrows(p: Program, q: Program)
    requires WellFormed(p) && Prefix(p, q)
    requires forall i | |p.nodes| <= i < |q.nodes| :: Formed(q, q.nodes[i], i)
    ensures WellFormed(q)
  {
    hide Formed;
    forall i | 0 <= i < |q.nodes| ensures Formed(q, q.nodes[i], i) {
      if i < |p.nodes| { FormedStable(p, q, p.nodes[i], i, i); }
    }
  }

  function Bumped(frames: seq<FnFrame>, k: nat): seq<FnFrame>
    requires frames != []
  {
    var n := |frames| - 1;
    frames[..n] + [frames[n].(next := frames[n].next + k)]
  }

  lemma BumpedTwice(frames: seq<FnFrame>, j: nat, k: nat)
    requires frames != []
    ensures Bumped(frames, j) != [] && Bumped(Bumped(frames, j), k) == Bumped(frames, j + k)
    ensures Bumped(frames, 0) == frames
  {
  }

  function Min(a: int, b: int): int { if a <= b then a else b }

  /** The names declared in the innermost of `depth` scopes. */
  function HereOf(bindings: seq<Binding>, depth: nat): set<string> {
    set k | 0 <= k < |bindings| && bindings[k].scope + 1 == depth :: bindings[k].name
  }

  lemma HereMore(bindings: seq<Binding>, depth: nat, b: Binding)
    requires b.scope + 1 == depth
    ensures HereOf(bindings + [b], depth) == HereOf(bindings, depth) + {b.name}
  {
    var more := bindings + [b];
    assert more[|bindings|] == b && forall k | 0 <= k < |bindings| :: more[k] == bindings[k];
  }

  function Join(prefix: Option<string>, name: string): string {
    if prefix.None? || prefix.value == "" then name else prefix.value + "." + name
  }

  /** The prefix is the parts joined with dots; there is none outside of all prefix blocks. */
  ghost predicate JoinedAs(prefix: Option<string>, parts: seq<string>) {
    if parts == [] then prefix.None? else prefix.Some? && prefix.value != "" && Spells(prefix.value, parts)
  }

  lemma JoinedNext(prefix: Option<string>, parts: seq<string>, name: string)
    requires JoinedAs(prefix, parts)
    ensures Spells(Join(prefix, name), parts + [name])
    ensures name != "" ==> JoinedAs(Some(Join(prefix, name)), parts + [name])
  {
    if parts != [] { SpellsNext(prefix.value, parts, name); }
  }

  lemma {:induction false} SpellsNext(s: string, parts: seq<string>, name: string)
    requires Spells(s, parts)
    ensures Spells(s + "." + name, parts + [name])
  {
    var t, more := s + "." + name, parts + [name];
    var k := |parts[0]|;
    assert more[0] == parts[0] && more[1..] == parts[1..] + [name];
    if |parts| == 1 {
      assert t[k + 1..] == name;
    } else {
      SpellsNext(s[k + 1..], parts[1..], name);
      assert t[..k] == s[..k] && t[k] == s[k] && t[k + 1..] == s[k + 1..] + "." + name;
    }
  }

  class Parser {
    const literalLimit: nat
    const nodeLimit: nat
    const linkLimit: nat
    const bindingLimit: nat
    const scopeLimit: nat
    const frameLimit: nat
    var literals: seq<Literal>
    var nodes: seq<Node>
    var links: seq<nat>
    var bindings: seq<Binding>
    var scopes: seq<nat>         // where each scope's bindings start
    var frames: seq<FnFrame>
    var prefix: Option<string>   // the joined names of the prefix blocks around
    ghost var parts: seq<string> // those names, one by one

    ghost function P(): Program reads this { Program(literals, nodes, links, 0, 0) }

    ghost predicate Valid() reads this { Settled() && Image.Linking(P()) }

    /** What holds also between a record's links and the node that refers to them. */
    ghost predicate Settled() reads this {
      && WellFormed(P()) && Image.LiteralsReady(P())
      && |literals| <= literalLimit && |nodes| <= nodeLimit && |links| <= linkLimit
      && frames != [] && frames[|frames| - 1].scopeBase <= |scopes| && JoinedAs(prefix, parts)
      && (forall b | b in bindings :: b.scope < |scopes|)
      && (forall i, j | 0 <= i < j < |bindings| :: bindings[i].scope <= bindings[j].scope)
    }

    /** How much more every array and every stack can take. */
    ghost function Free(): int reads this {
      Min(Min(Min(literalLimit - |literals|, nodeLimit - |nodes|), linkLimit - |links|),
          Min(Min(bindingLimit - |bindings|, scopeLimit - |scopes|), frameLimit - |frames|))
    }

    /** How a piece of parsing may end, if `free` was free when it began: what is acceptable
        fails only for want of `k` free places, and what is not acceptable always fails. */
    ghost predicate Answered(err: Error, accepted: bool, free: int, k: int) reads this {
      match err
      case Ok => accepted && Free() >= free - k
      case OutOfMemory => free < k
      case Signature => !accepted
      case Bounds => !accepted
      case _ => false
    }

    /** A part's failure is the whole's, if the whole needs the part and costs no less. */
    lemma Fails(err: Error, part: bool, free1: int, k1: int, whole: bool, free: int, k: int)
      requires err != Ok && Answered(err, part, free1, k1) && (whole ==> part) && free1 - k1 >= free - k
      ensures Answered(err, whole, free, k)
    {
    }

    lemma Passed(part: bool, free: int, k: int)
      requires Answered(Ok, part, free, k)
      ensures part && Free() >= free - k
    {
    }

    lemma Passes(whole: bool, free: int, k: int)
      requires whole && Free() >= free - k
      ensures Answered(Ok, whole, free, k)
    {
    }

    /** The names declared in the innermost scope. */
    ghost function Here(): set<string> reads this { HereOf(bindings, |scopes|) }

    ghost function Names(): Env
      requires frames != []
      reads this
    {
      EnvOf(bindings, frames[|frames| - 1], parts)
    }

    ghost function Next(): nat
      requires frames != []
      reads this
    {
      frames[|frames| - 1].next
    }

    constructor (literalLimit: nat, nodeLimit: nat, linkLimit: nat, bindingLimit: nat, scopeLimit: nat, frameLimit: nat)
      ensures Valid() && P() == Program([], [], [], 0, 0) && Next() == 0
      ensures this.literalLimit == literalLimit && this.nodeLimit == nodeLimit && this.linkLimit == linkLimit
      ensures this.bindingLimit == bindingLimit && this.scopeLimit == scopeLimit && this.frameLimit == frameLimit
      ensures bindings == [] && scopes == [] && |frames| == 1
      ensures Names() == Env([], [], false, [])
    {
      this.literalLimit, this.nodeLimit, this.linkLimit := literalLimit, nodeLimit, linkLimit;
      this.bindingLimit, this.scopeLimit, this.frameLimit := bindingLimit, scopeLimit, frameLimit;
      literals, nodes, links := [], [], [];
      bindings, scopes, frames, prefix, parts := [], [], [FnFrame(0, 0, false)], None, [];
    }

    // ----- appending to the program -----

    method AddLiteral(l: Literal) returns (err: Error, id: nat)
      requires Valid() && Image.LiteralReady(l)
      modifies this`literals
      ensures err == Ok ==> Valid() && literals == old(literals) + [l] && id == |old(literals)|
      ensures Answered(err, true, old(Free()), 1)
    {
      if |literals| >= literalLimit { return OutOfMemory, 0; }
      ghost var p := P();
      err, id := Ok, |literals|;
      literals := literals + [l];
      WellFormedGrows(p, P());
      LinkingGrows(p, P());
    }

    method AddNode(node: Node) returns (err: Error, id: nat)
      requires Valid() && Formed(P(), node, |nodes|)
      modifies this`nodes
      ensures err == Ok ==> Valid() && nodes == old(nodes) + [node] && id == |old(nodes)|
      ensures Answered(err, true, old(Free()), 1)
    {
      hide Formed, WellFormed, Image.LiteralReady, Image.Linking;
      err, id := AppendNode(node);
    }

    method AppendNode(node: Node) returns (err: Error, id: nat)
      requires Settled() && Formed(P(), node, |nodes|) && (node.RecordDefNode? || Image.Linking(P()))
      modifies this`nodes
      ensures err == Ok ==> Valid() && nodes == old(nodes) + [node] && id == |old(nodes)|
      ensures Answered(err, true, old(Free()), 1)
    {
      hide Formed, WellFormed, Image.LiteralReady;
      if |nodes| >= nodeLimit { return OutOfMemory, 0; }
      ghost var p := P();
      err, id := Ok, |nodes|;
      nodes := nodes + [node];
      FormedStable(p, P(), node, id, id);
      WellFormedGrows(p, P());
      if node.RecordDefNode? {
        assert node in P().nodes;
      } else {
        LinkingGrows(p, P());
      }
    }

    /** Appends a list of links. */
    method Flush(list: seq<nat>) returns (err: Error, first: nat)
      requires Valid()
      modifies this`links
      ensures err == Ok ==> Settled() && links == old(links) + list && first == |old(links)|
      ensures err == Ok && (forall k | k in list :: k < |nodes|) ==> Valid()
      ensures Answered(err, true, old(Free()), |list|)
    {
      hide Formed, WellFormed, Image.LiteralReady, Image.Linking;
      ghost var p := P();
      first := |links|;
      var i := 0;
      while i < |list|
        invariant i <= |list| && links == old(links) + list[..i] && |links| <= linkLimit
      {
        if |links| >= linkLimit { return OutOfMemory, first; }
        links := links + [list[i]];
        i := i + 1;
      }
      assert list[..i] == list;
      err := Ok;
      WellFormedGrows(p, P());
      if forall k | k in list :: k < |nodes| {
        forall k | |p.links| <= k < |links| ensures links[k] < |nodes| {
          assert links[k] == list[k - |p.links|] && list[k - |p.links|] in list;
        }
        LinkingGrows(p, P());
      }
    }

    method MakeLiteral(l: Literal) returns (err: Error, id: nat)
      requires Valid() && Image.LiteralReady(l)
      modifies this`literals, this`nodes
      ensures err == Ok ==> Valid() && Prefix(old(P()), P()) && id == |old(nodes)| && |nodes| == id + 1 && LiteralAt(P(), id, l)
      ensures Answered(err, true, old(Free()), 2)
    {
      hide Free;
      var k;
      err, k := AddLiteral(l);
      if err != Ok { return err, 0; }
      err, id := AddNode(Lit(k));
    }

    /** A call of a builtin on one or two arguments. */
    method MakeBuiltin(op: Builtin, args: seq<nat>) returns (err: Error, id: nat)
      requires Valid() && op != NoBuiltin && forall a | a in args :: a < |nodes|
      modifies this`nodes, this`links
      ensures err == Ok ==> Valid() && Prefix(old(P()), P()) && id == |old(nodes)| && |nodes| == id + 1
      ensures err == Ok ==> BuiltinAt(P(), id, op, |args|) && forall k | 0 <= k < |args| :: Arg(P(), id, k) == args[k]
      ensures Answered(err, true, old(Free()), |args| + 1)
    {
      hide Free, Valid, Formed, Prefix;
      ghost var p := P();
      var first;
      err, first := Flush(args);
      if err != Ok { return err, 0; }
      ghost var p1 := P();
      Linked(p, p1, args);
      BuiltinFormed(p1, op, first, args);
      err, id := AddNode(Call(op, NODE_INVALID, first, |args|));
      if err == Ok {
        OneMore(p1, P());
        PrefixChain(p, p1, P());
        forall k | 0 <= k < |args| ensures Arg(P(), id, k) == args[k] { assert links[first + k] == args[k]; }
      }
    }

    method MakeSeq(items: seq<nat>) returns (err: Error, id: nat)
      requires Valid() && forall a | a in items :: a < |nodes|
      modifies this`nodes, this`links
      ensures err == Ok ==> Valid() && Prefix(old(P()), P()) && id == |old(nodes)| && |nodes| == id + 1
      ensures err == Ok ==> SeqAt(P(), id, |items|) && forall k | 0 <= k < |items| :: Part(P(), id, k) == items[k]
      ensures Answered(err, true, old(Free()), |items| + 1)
    {
      hide Free;
      var first;
      err, first := Flush(items);
      if err != Ok { return err, 0; }
      assert forall k | first <= k < first + |items| :: links[k] == items[k - first] && items[k - first] in items;
      err, id := AddNode(Seq(first, |items|));
    }

    // ----- scopes -----

    method PushScope() returns (err: Error)
      requires Valid()
      modifies this`scopes
      ensures err == Ok ==> Valid() && scopes == old(scopes) + [|bindings|] && Names() == old(Names())
      ensures Answered(err, true, old(Free()), 1)
      ensures err == Ok ==> Here() == {}
    {
      hide WellFormed, EnvOf, Image.Linking, Image.LiteralsReady;
      if |scopes| >= scopeLimit { return OutOfMemory; }
      scopes := scopes + [|bindings|];
      err := Ok;
    }

    method PopScope()
      requires WellFormed(P()) && frames != [] && scopes != [] && scopes[|scopes| - 1] <= |bindings|
      modifies this`scopes, this`bindings
      ensures bindings == old(bindings)[..old(scopes)[|old(scopes)| - 1]] && scopes == old(scopes)[..|old(scopes)| - 1]
      ensures Free() >= old(Free())
    {
      bindings := bindings[..scopes[|scopes| - 1]];
      scopes := scopes[..|scopes| - 1];
    }

    /** Whether the innermost scope already binds the name. */
    method DeclaredHere(name: string) returns (found: bool)
      requires Valid() && scopes != []
      ensures found <==> name in Here()
    {
      hide WellFormed;
      var scope := |scopes| - 1;
      var i: nat := |bindings|;
      while i > 0 && bindings[i - 1].scope == scope
        invariant i <= |bindings|
        invariant forall k: nat | i <= k < |bindings| :: bindings[k].name != name
      {
        if bindings[i - 1].name == name { return true; }
        i := i - 1;
      }
      assert forall k: nat | k < i :: bindings[k].scope < scope;
      found := false;
    }

    /** A declaration may not repeat a name of its own scope. */
    method DeclareLocal(name: string) returns (err: Error, index: nat)
      requires Valid()
      modifies this`bindings, this`frames
      ensures scopes == [] ==> err == Signature
      ensures scopes != [] && name in old(Here()) ==> err == Signature
      ensures err == Ok ==> Valid() && index == old(Next()) && frames == Bumped(old(frames), 1) && Next() == old(Next()) + 1
      ensures err == Ok ==> bindings == old(bindings) + [Binding(name, index, |scopes| - 1)]
      ensures err == Ok && |scopes| > old(frames)[|old(frames)| - 1].scopeBase ==> Names() == Bind(old(Names()), name, index)
      ensures scopes != [] ==> Answered(err, name !in old(Here()), old(Free()), 1)
      ensures err == Ok ==> Here() == old(Here()) + {name}
    {
      hide WellFormed, EnvOf, Image.Linking, Image.LiteralsReady, HereOf;
      if scopes == [] { return Signature, 0; }
      var scope := |scopes| - 1;
      var found := DeclaredHere(name);
      if found { return Signature, 0; }
      if |bindings| >= bindingLimit { return OutOfMemory, 0; }
      var n := |frames| - 1;
      err, index := Ok, frames[n].next;
      if scope >= frames[n].scopeBase { Declared(bindings, frames[n], parts, Binding(name, index, scope)); }
      SameFrameEnv(bindings + [Binding(name, index, scope)], frames[n], parts, index + 1);
      HereMore(bindings, |scopes|, Binding(name, index, scope));
      bindings := bindings + [Binding(name, index, scope)];
      frames := frames[..n] + [frames[n].(next := index + 1)];
    }

    method ReserveHiddenLocal() returns (index: nat)
      requires Valid()
      modifies this`frames
      ensures Valid() && index == old(Next()) && frames == Bumped(old(frames), 1) && Names() == old(Names())
      ensures Next() == old(Next()) + 1
      ensures Free() == old(Free())
    {
      var n := |frames| - 1;
      index := frames[n].next;
      frames := frames[..n] + [frames[n].(next := index + 1)];
    }

    /** Innermost binding of this function first; then names of enclosing functions, which
        are refused; anything else is a slot. */
    method ResolveName(name: string) returns (where_: Where)
      requires Valid()
      ensures where_ == Surface.Resolve(Names(), name)
    {
      hide Find, InnerStart, Formed, WellFormed;
      var frame := frames[|frames| - 1];
      var start, found := FindInner(frame.scopeBase, name);
      if found.Some? { return Local(found.value); }
      if frame.rejects {
        var captured := IsOuter(start, name);
        if captured { return Captured; }
      }
      where_ := Global;
    }

    /** Searches the current function's bindings, and reports where they start if it fails. */
    method FindInner(base: nat, name: string) returns (start: nat, found: Option<nat>)
      ensures found == Find(Pairs(bindings[InnerStart(bindings, base)..]), name)
      ensures found.None? ==> start == InnerStart(bindings, base)
    {
      hide Find, InnerStart;
      ghost var first := InnerStart(bindings, base);
      var i: nat := |bindings|;
      assert bindings[first..i] == bindings[first..];
      while i > 0 && bindings[i - 1].scope >= base
        invariant first <= i <= |bindings|
        invariant Find(Pairs(bindings[first..]), name) == Find(Pairs(bindings[first..i]), name)
      {
        FindStep(bindings, first, i, name);
        if bindings[i - 1].name == name { return i, Some(bindings[i - 1].index); }
        i := i - 1;
      }
      FindNothing(bindings[first..i], name);
      return i, None;
    }

    method IsOuter(start: nat, name: string) returns (captured: bool)
      requires start <= |bindings|
      ensures captured <==> name in BoundNames(bindings[..start])
    {
      var i := start;
      while i > 0
        invariant i <= start && forall k: nat | i <= k < start :: bindings[k].name != name
      {
        if bindings[i - 1].name == name {
          assert BoundNames(bindings[..start])[i - 1] == name;
          return true;
        }
        i := i - 1;
      }
      captured := false;
    }

    // ----- expressions -----

    /** The stacks are as they were, but for `k` more locals; the program has only grown. */
    ghost predicate Kept(bindingsBefore: seq<Binding>, scopesBefore: seq<nat>, framesBefore: seq<FnFrame>, before: Program, k: nat)
      reads this
    {
      && Valid() && framesBefore != [] && Prefix(before, P())
      && bindings == bindingsBefore && scopes == scopesBefore && frames == Bumped(framesBefore, k)
      && Names() == EnvOf(bindingsBefore, framesBefore[|framesBefore| - 1], parts)
      && Next() == framesBefore[|framesBefore| - 1].next + k
    }

    lemma Framed()
      requires Valid()
      ensures frames != [] && Names().prefix == parts && JoinedAs(prefix, parts)
      ensures frames[|frames| - 1].scopeBase <= |scopes| && forall x | x in bindings :: x.scope < |scopes|
    {
    }

    lemma ProgramFormed()
      requires Valid()
      ensures WellFormed(P())
    {
    }

    /** What `Kept` says about the state it holds in. */
    lemma Unpack(b: seq<Binding>, s: seq<nat>, f: seq<FnFrame>, p: Program, k: nat)
      requires Kept(b, s, f, p, k)
      ensures Valid() && f != [] && Prefix(p, P()) && bindings == b && scopes == s && frames == Bumped(f, k) && |frames| == |f|
      ensures frames != [] && Names() == EnvOf(b, f[|f| - 1], parts) && Next() == f[|f| - 1].next + k
    {
    }

    /** Work done after `p1` only extended the program. */
    lemma Extended(b: seq<Binding>, s: seq<nat>, f: seq<FnFrame>, p: Program, k: nat, p1: Program)
      requires Valid() && f != [] && bindings == b && scopes == s && frames == Bumped(f, k)
      requires Prefix(p, p1) && Prefix(p1, P())
      ensures Kept(b, s, f, p, k)
    {
      SameFrameEnv(b, f[|f| - 1], parts, f[|f| - 1].next + k);
    }

    /** Two pieces of work, one after the other. */
    lemma Chained(b: seq<Binding>, s: seq<nat>, f: seq<FnFrame>, p: Program, j: nat, p1: Program, k: nat)
      requires f != [] && Prefix(p, p1) && Kept(b, s, Bumped(f, j), p1, k)
      ensures Kept(b, s, f, p, j + k)
    {
      BumpedTwice(f, j, k);
      Extended(b, s, f, p, j + k, p1);
    }

    /** As `Kept`, but the innermost scope may have gained bindings. */
    ghost predicate Grown(env: Env, b: seq<Binding>, s: seq<nat>, f: seq<FnFrame>, p: Program, k: nat) reads this {
      && Valid() && f != [] && Prefix(p, P())
      && b <= bindings && scopes == s && frames == Bumped(f, k) && Names() == env && Next() == f[|f| - 1].next + k
    }

    /** There is a scope of the current function to declare names in. */
    ghost predicate InScope() reads this { frames != [] && |scopes| > frames[|frames| - 1].scopeBase }

    lemma UnpackGrown(env: Env, b: seq<Binding>, s: seq<nat>, f: seq<FnFrame>, p: Program, k: nat)
      requires Grown(env, b, s, f, p, k)
      ensures Valid() && f != [] && Prefix(p, P()) && b <= bindings && scopes == s && frames == Bumped(f, k) && |frames| == |f|
      ensures frames != [] && Names() == env && Next() == f[|f| - 1].next + k
      ensures |s| > f[|f| - 1].scopeBase ==> InScope()
    {
    }

    lemma KeptGrown(b: seq<Binding>, s: seq<nat>, f: seq<FnFrame>, p: Program, k: nat)
      requires Kept(b, s, f, p, k)
      ensures Grown(EnvOf(b, f[|f| - 1], parts), b, s, f, p, k)
    {
    }

    lemma ChainedGrown(env: Env, b: seq<Binding>, b1: seq<Binding>, s: seq<nat>, f: seq<FnFrame>, p: Program, j: nat, p1: Program, k: nat)
      requires f != [] && Prefix(p, p1) && b <= b1 && Grown(env, b1, s, Bumped(f, j), p1, k)
      ensures Grown(env, b, s, f, p, j + k)
    {
      BumpedTwice(f, j, k);
    }

    /** Work done after `p1` only extended the program. */
    lemma ExtendedGrown(env: Env, b: seq<Binding>, s: seq<nat>, f: seq<FnFrame>, p: Program, k: nat, p1: Program)
      requires Valid() && f != [] && b <= bindings && scopes == s && frames == Bumped(f, k) && Names() == env
      requires Prefix(p, p1) && Prefix(p1, P())
      ensures Grown(env, b, s, f, p, k)
    {
    }


    method ParseExpr(e: Expr) returns (err: Error, id: nat)
      requires Valid()
      modifies this`literals, this`nodes, this`links, this`bindings, this`scopes, this`frames
      ensures err == Ok ==> Kept(old(bindings), old(scopes), old(frames), old(P()), Used(e))
      ensures err == Ok ==> Means(old(Names()), e, P(), id, old(Next()))
      ensures Answered(err, Accepts(old(Names()), e, old(Next())), old(Free()), Weight(e))
      decreases Weight(e), 3
    {
      hide Means, Valid, Kept, Accepts, Answered, Free, Weight;
      match e
      case Name(_) => err, id := ParseName(e);
      case At(_) => err, id := ParseAt(e);
      case Lambda(_, _) => err, id := ParseFn(e);
      case Choice(_, _, _) => err, id := ParseIf(e);
      case Loop(_, _) => err, id := ParseWhile(e);
      case Unless(_, _) => err, id := ParseUnless(e);
      case Cond(_, _) => err, id := ParseCond(e);
      case Case(_, _, _) => err, id := ParseCase(e);
      case Repeat(_, _, _) => err, id := ParseRepeat(e);
      case Apply(_, _, _) => err, id := ParseApply(e);
      case Element(_, _) => err, id := ParseElement(e);
      case Member(_, _) => err, id := ParseMember(e);
      case Unary(_, _) => err, id := ParsePrefix(e);
      case Binary(_, _, _) => err, id := ParseBinary(e);
      case And(_, _) => err, id := ParseLogic(e);
      case Or(_, _) => err, id := ParseLogic(e);
      case _ => err, id := ParseLiteral(e);
    }

    method ParseName(e: Expr) returns (err: Error, id: nat)
      requires Valid() && e.Name?
      modifies this`literals, this`nodes, this`links, this`bindings, this`scopes, this`frames
      ensures err == Ok ==> Kept(old(bindings), old(scopes), old(frames), old(P()), Used(e))
      ensures err == Ok ==> Means(old(Names()), e, P(), id, old(Next()))
      ensures Answered(err, Accepts(old(Names()), e, old(Next())), old(Free()), Weight(e))
      decreases Weight(e), 0
    {
      hide Free, EnvOf, WellFormed, Image.Linking, Image.LiteralsReady, Surface.Resolve, Join, JoinedAs, Spells;
      BumpedTwice(frames, 0, 0);
      Framed();
      var found := ResolveName(e.name);
      match found
      case Local(i) => err, id := AddNode(ReadLocal(i));
      case Captured => err, id := Signature, 0;
      case Global =>
        JoinedNext(prefix, parts, e.name);
        if prefix.Some? && '.' !in e.name {
          err, id := AddNode(ReadSlotFallback(Join(prefix, e.name), e.name));
        } else {
          err, id := AddNode(ReadSlot(e.name));
        }
    }

    method ParseAt(e: Expr) returns (err: Error, id: nat)
      requires Valid() && e.At?
      modifies this`literals, this`nodes, this`links, this`bindings, this`scopes, this`frames
      ensures err == Ok ==> Kept(old(bindings), old(scopes), old(frames), old(P()), Used(e))
      ensures err == Ok ==> Means(old(Names()), e, P(), id, old(Next()))
      ensures Answered(err, Accepts(old(Names()), e, old(Next())), old(Free()), Weight(e))
      decreases Weight(e), 0
    {
      hide Free, EnvOf, WellFormed, Image.Linking, Image.LiteralsReady;
      BumpedTwice(frames, 0, 0);
      err, id := AddNode(SlotDesignator(e.name));
    }

    method ParseLiteral(e: Expr) returns (err: Error, id: nat)
      requires Valid() && IsLiteral(e)
      modifies this`literals, this`nodes, this`links, this`bindings, this`scopes, this`frames
      ensures err == Ok ==> Kept(old(bindings), old(scopes), old(frames), old(P()), Used(e))
      ensures err == Ok ==> Means(old(Names()), e, P(), id, old(Next()))
      ensures Answered(err, Accepts(old(Names()), e, old(Next())), old(Free()), Weight(e))
      decreases Weight(e), 0
    {
      hide Free, EnvOf, WellFormed, Image.Linking, Image.LiteralsReady;
      BumpedTwice(frames, 0, 0);
      LiteralIsReady(e);
      err, id := MakeLiteral(LiteralOf(e));
    }

    /** Two expressions, left to right. */
    method ParsePair(l: Expr, r: Expr) returns (err: Error, x: nat, y: nat)
      requires Valid()
      modifies this`literals, this`nodes, this`links, this`bindings, this`scopes, this`frames
      ensures err == Ok ==> Kept(old(bindings), old(scopes), old(frames), old(P()), Used(l) + Used(r))
      ensures err == Ok ==> x < |nodes| && y < |nodes|
      ensures err == Ok ==> Means(old(Names()), l, P(), x, old(Next())) && Means(old(Names()), r, P(), y, old(Next()) + Used(l))
      ensures Answered(err, AcceptsPair(old(Names()), l, r, old(Next())), old(Free()), Weight(l) + Weight(r))
      decreases Weight(l) + Weight(r), 4
    {
      hide AcceptsPair, Valid, Kept, Free, Answered, HereOf, Accepts, AcceptsArgs, AcceptsItem, AcceptsItems, AcceptsClauses,
        AcceptsElse, AcceptsBlock, Means, BlockMeans, EnvOf, Bumped, Prefix, Grown, BuiltinAt, Arg, SeqAt, Part, Used,
        UsedItem, UsedItems, UsedArgs, UsedClauses, UsedElse, Weight, ItemWeight, ItemsWeight, ArgsWeight,
        ClausesWeight, ElseWeight, Surface.Count, ArgCount, ClauseSpare;
      Framed();
      ghost var b, s, f, p, env, n := bindings, scopes, frames, P(), Names(), Next();
      ghost var free, k := Free(), Weight(l) + Weight(r);
      ghost var left, right := Accepts(env, l, n), Accepts(env, r, n + Used(l));
      AcceptsPairIs(env, l, r, NoItems, n);
      x, y := 0, 0;
      err, x := ParseExpr(l);
      if err != Ok {
        Fails(err, left, free, Weight(l), AcceptsPair(env, l, r, n), free, k);
        return;
      }
      Passed(left, free, Weight(l));
      ghost var free1 := Free();
      Unpack(b, s, f, p, Used(l));
      ghost var p1 := P();
      MeansInside(env, l, p1, x, n);
      err, y := ParseExpr(r);
      if err != Ok {
        Fails(err, right, free1, Weight(r), AcceptsPair(env, l, r, n), free, k);
        return;
      }
      Passed(right, free1, Weight(r));
      Passes(AcceptsPair(env, l, r, n), free, k);
      Chained(b, s, f, p, Used(l), p1, Used(r));
      Unpack(b, s, Bumped(f, Used(l)), p1, Used(r));
      MeansStable(env, l, p1, P(), x, n);
      PrefixInside(p1, P(), x);
      MeansInside(env, r, P(), y, n + Used(l));
    }

    /** A condition and the block it guards. */
    method ParseGuarded(c: Expr, body: Items) returns (err: Error, x: nat, y: nat)
      requires Valid()
      modifies this`literals, this`nodes, this`links, this`bindings, this`scopes, this`frames
      ensures err == Ok ==> Kept(old(bindings), old(scopes), old(frames), old(P()), Used(c) + UsedItems(body))
      ensures err == Ok ==> x < |nodes| && y < |nodes|
      ensures err == Ok ==> Means(old(Names()), c, P(), x, old(Next()))
      ensures err == Ok ==> BlockMeans(old(Names()), body, P(), y, old(Next()) + Used(c))
      ensures Answered(err, AcceptsGuarded(old(Names()), c, body, old(Next())), old(Free()), Weight(c) + ItemsWeight(body))
      decreases Weight(c) + ItemsWeight(body), 4
    {
      hide AcceptsGuarded, Valid, Kept, Free, Answered, HereOf, Accepts, AcceptsArgs, AcceptsItem, AcceptsItems, AcceptsClauses,
        AcceptsElse, AcceptsBlock, Means, BlockMeans, EnvOf, Bumped, Prefix, Grown, BuiltinAt, Arg, SeqAt, Part, Used,
        UsedItem, UsedItems, UsedArgs, UsedClauses, UsedElse, Weight, ItemWeight, ItemsWeight, ArgsWeight,
        ClausesWeight, ElseWeight, Surface.Count, ArgCount, ClauseSpare;
      Framed();
      ghost var b, s, f, p, env, n := bindings, scopes, frames, P(), Names(), Next();
      ghost var free, k := Free(), Weight(c) + ItemsWeight(body);
      ghost var left, right := Accepts(env, c, n), AcceptsBlock(env, body, n + Used(c));
      AcceptsPairIs(env, c, c, body, n);
      x, y := 0, 0;
      err, x := ParseExpr(c);
      if err != Ok {
        Fails(err, left, free, Weight(c), AcceptsGuarded(env, c, body, n), free, k);
        return;
      }
      Passed(left, free, Weight(c));
      ghost var free1 := Free();
      Unpack(b, s, f, p, Used(c));
      ghost var p1 := P();
      MeansInside(env, c, p1, x, n);
      err, y := ParseBlock(body);
      if err != Ok {
        Fails(err, right, free1, ItemsWeight(body), AcceptsGuarded(env, c, body, n), free, k);
        return;
      }
      Passed(right, free1, ItemsWeight(body));
      Passes(AcceptsGuarded(env, c, body, n), free, k);
      Chained(b, s, f, p, Used(c), p1, UsedItems(body));
      Unpack(b, s, Bumped(f, Used(c)), p1, UsedItems(body));
      MeansStable(env, c, p1, P(), x, n);
      PrefixInside(p1, P(), x);
      BlockInside(env, body, P(), y, n + Used(c));
    }

    method ParsePrefix(e: Expr) returns (err: Error, id: nat)
      requires Valid() && e.Unary?
      modifies this`literals, this`nodes, this`links, this`bindings, this`scopes, this`frames
      ensures err == Ok ==> Kept(old(bindings), old(scopes), old(frames), old(P()), Used(e))
      ensures err == Ok ==> Means(old(Names()), e, P(), id, old(Next()))
      ensures Answered(err, Accepts(old(Names()), e, old(Next())), old(Free()), Weight(e))
      decreases Weight(e), 2
    {
      hide Valid, Kept, Free, HereOf, Accepts, AcceptsArgs, AcceptsItem, AcceptsItems, AcceptsClauses, AcceptsElse,
        AcceptsBlock, Means, BlockMeans, EnvOf, Bumped, Prefix, Grown, BuiltinAt, Arg, SeqAt, Part, Used, UsedItem,
        UsedItems, UsedArgs, UsedClauses, UsedElse, Weight, ItemWeight, ItemsWeight, ArgsWeight, ClausesWeight,
        ElseWeight, Surface.Count, ArgCount, ClauseSpare;
      Framed();
      Parts(e);
      ghost var b, s, f, p, env, n := bindings, scopes, frames, P(), Names(), Next();
      AcceptsIs(env, e, n);
      if e.op == NoBuiltin { return Signature, 0; }
      var x;
      err, x := ParseExpr(e.operand);
      if err != Ok { return err, 0; }
      Unpack(b, s, f, p, Used(e));
      ghost var p1 := P();
      MeansInside(env, e.operand, p1, x, n);
      err, id := MakeBuiltin(e.op, [x]);
      if err == Ok {
        Extended(b, s, f, p, Used(e), p1);
        MeansStable(env, e.operand, p1, P(), x, n);
        UnaryMeans(env, e, P(), id, x, n);
      }
    }

    method ParseBinary(e: Expr) returns (err: Error, id: nat)
      requires Valid() && e.Binary?
      modifies this`literals, this`nodes, this`links, this`bindings, this`scopes, this`frames
      ensures err == Ok ==> Kept(old(bindings), old(scopes), old(frames), old(P()), Used(e))
      ensures err == Ok ==> Means(old(Names()), e, P(), id, old(Next()))
      ensures Answered(err, Accepts(old(Names()), e, old(Next())), old(Free()), Weight(e))
      decreases Weight(e), 2
    {
      hide Valid, Kept, Free, HereOf, Accepts, AcceptsArgs, AcceptsItem, AcceptsItems, AcceptsClauses, AcceptsElse,
        AcceptsBlock, Means, BlockMeans, EnvOf, Bumped, Prefix, Grown, BuiltinAt, Arg, SeqAt, Part, Used, UsedItem,
        UsedItems, UsedArgs, UsedClauses, UsedElse, Weight, ItemWeight, ItemsWeight, ArgsWeight, ClausesWeight,
        ElseWeight, Surface.Count, ArgCount, ClauseSpare;
      Framed();
      Parts(e);
      ghost var b, s, f, p, env, n := bindings, scopes, frames, P(), Names(), Next();
      AcceptsIs(env, e, n);
      if e.op == NoBuiltin { return Signature, 0; }
      var x, y;
      err, x, y := ParsePair(e.left, e.right);
      if err != Ok { return err, 0; }
      Unpack(b, s, f, p, Used(e));
      ghost var p1 := P();
      err, id := MakeBuiltin(e.op, [x, y]);
      if err == Ok {
        Extended(b, s, f, p, Used(e), p1);
        MeansStable(env, e.left, p1, P(), x, n);
        MeansStable(env, e.right, p1, P(), y, n + Used(e.left));
        BinaryMeans(env, e, P(), id, x, y, n);
      }
    }

    method ParseLogic(e: Expr) returns (err: Error, id: nat)
      requires Valid() && (e.And? || e.Or?)
      modifies this`literals, this`nodes, this`links, this`bindings, this`scopes, this`frames
      ensures err == Ok ==> Kept(old(bindings), old(scopes), old(frames), old(P()), Used(e))
      ensures err == Ok ==> Means(old(Names()), e, P(), id, old(Next()))
      ensures Answered(err, Accepts(old(Names()), e, old(Next())), old(Free()), Weight(e))
      decreases Weight(e), 2
    {
      hide Valid, Kept, Free, HereOf, Accepts, AcceptsArgs, AcceptsItem, AcceptsItems, AcceptsClauses, AcceptsElse,
        AcceptsBlock, Means, BlockMeans, EnvOf, Bumped, Prefix, Grown, BuiltinAt, Arg, SeqAt, Part, Used, UsedItem,
        UsedItems, UsedArgs, UsedClauses, UsedElse, Weight, ItemWeight, ItemsWeight, ArgsWeight, ClausesWeight,
        ElseWeight, Surface.Count, ArgCount, ClauseSpare;
      Framed();
      Parts(e);
      ghost var b, s, f, p, env, n := bindings, scopes, frames, P(), Names(), Next();
      AcceptsIs(env, e, n);
      var l, r;
      err, l, r := ParsePair(e.left, e.right);
      if err != Ok { return err, 0; }
      Unpack(b, s, f, p, Used(e));
      ghost var p1 := P();
      err, id := MakeShortCircuit(e.Or?, l, r);
      if err == Ok {
        Extended(b, s, f, p, Used(e), p1);
        MeansStable(env, e.left, p1, P(), l, n);
        MeansStable(env, e.right, p1, P(), r, n + Used(e.left));
        LogicMeans(env, e, P(), id, l, r, n);
      }
    }

    method ParseElement(e: Expr) returns (err: Error, id: nat)
      requires Valid() && e.Element?
      modifies this`literals, this`nodes, this`links, this`bindings, this`scopes, this`frames
      ensures err == Ok ==> Kept(old(bindings), old(scopes), old(frames), old(P()), Used(e))
      ensures err == Ok ==> Means(old(Names()), e, P(), id, old(Next()))
      ensures Answered(err, Accepts(old(Names()), e, old(Next())), old(Free()), Weight(e))
      decreases Weight(e), 2
    {
      hide Valid, Kept, Free, HereOf, Accepts, AcceptsArgs, AcceptsItem, AcceptsItems, AcceptsClauses, AcceptsElse,
        AcceptsBlock, Means, BlockMeans, EnvOf, Bumped, Prefix, Grown, BuiltinAt, Arg, SeqAt, Part, Formed, Used,
        UsedItem, UsedItems, UsedArgs, UsedClauses, UsedElse, Weight, ItemWeight, ItemsWeight, ArgsWeight,
        ClausesWeight, ElseWeight, Surface.Count, ArgCount, ClauseSpare;
      Framed();
      Parts(e);
      ghost var b, s, f, p, env, n := bindings, scopes, frames, P(), Names(), Next();
      AcceptsIs(env, e, n);
      var x, y;
      err, x, y := ParsePair(e.base, e.position);
      if err != Ok { return err, 0; }
      Unpack(b, s, f, p, Used(e));
      ghost var p1 := P();
      DesignatorIsAt(env, e.base, p1, x, n);
      if nodes[x].SlotDesignator? { return Signature, 0; }
      IndexFormed(p1, x, y, 0);
      err, id := AddNode(ReadIndex(x, y));
      if err == Ok {
        OneMore(p1, P());
        Extended(b, s, f, p, Used(e), p1);
        MeansStable(env, e.base, p1, P(), x, n);
        MeansStable(env, e.position, p1, P(), y, n + Used(e.base));
        ElementMeans(env, e, P(), id, x, y, n);
      }
    }

    method ParseMember(e: Expr) returns (err: Error, id: nat)
      requires Valid() && e.Member?
      modifies this`literals, this`nodes, this`links, this`bindings, this`scopes, this`frames
      ensures err == Ok ==> Kept(old(bindings), old(scopes), old(frames), old(P()), Used(e))
      ensures err == Ok ==> Means(old(Names()), e, P(), id, old(Next()))
      ensures Answered(err, Accepts(old(Names()), e, old(Next())), old(Free()), Weight(e))
      decreases Weight(e), 2
    {
      hide Valid, Kept, Free, HereOf, Accepts, AcceptsArgs, AcceptsItem, AcceptsItems, AcceptsClauses, AcceptsElse,
        AcceptsBlock, Means, BlockMeans, EnvOf, Bumped, Prefix, Grown, BuiltinAt, Arg, SeqAt, Part, Formed, Used,
        UsedItem, UsedItems, UsedArgs, UsedClauses, UsedElse, Weight, ItemWeight, ItemsWeight, ArgsWeight,
        ClausesWeight, ElseWeight, Surface.Count, ArgCount, ClauseSpare;
      Framed();
      Parts(e);
      ghost var b, s, f, p, env, n := bindings, scopes, frames, P(), Names(), Next();
      AcceptsIs(env, e, n);
      var x;
      err, x := ParseExpr(e.base);
      if err != Ok { return err, 0; }
      if '.' in e.field { return Signature, 0; }
      TokenIsSimple(e.field);
      Unpack(b, s, f, p, Used(e));
      ghost var p1 := P();
      MeansInside(env, e.base, p1, x, n);
      FieldFormed(p1, x, e.field, x);
      err, id := AddNode(ReadField(x, e.field));
      if err == Ok {
        OneMore(p1, P());
        Extended(b, s, f, p, Used(e), p1);
        MeansStable(env, e.base, p1, P(), x, n);
        MemberMeans(env, e, P(), id, x, n);
      }
    }

    method ParseArgs(args: Exprs) returns (err: Error, ids: seq<nat>)
      requires Valid()
      modifies this`literals, this`nodes, this`links, this`bindings, this`scopes, this`frames
      ensures err == Ok ==> Kept(old(bindings), old(scopes), old(frames), old(P()), UsedArgs(args))
      ensures err == Ok ==> ArgIdsMean(old(Names()), args, P(), ids, old(Next())) && forall k | k in ids :: k < |nodes|
      ensures Answered(err, AcceptsArgs(old(Names()), args, old(Next())), old(Free()), ArgsWeight(args) - ArgCount(args) - 1)
      ensures err == Ok ==> |ids| == ArgCount(args)
      decreases ArgsWeight(args), 2
    {
      hide Valid, Kept, Free, HereOf, Accepts, AcceptsArgs, AcceptsItem, AcceptsItems, AcceptsClauses, AcceptsElse,
        AcceptsBlock, Means, BlockMeans, EnvOf, Bumped, Prefix, Grown, BuiltinAt, Arg, SeqAt, Part, Used, UsedItem,
        UsedItems, UsedArgs, UsedClauses, UsedElse, Weight, ItemWeight, ItemsWeight, ArgsWeight, ClausesWeight,
        ElseWeight, Surface.Count, ArgCount, ClauseSpare;
      Framed();
      ArgsParts(args);
      ghost var b, s, f, p, env, n := bindings, scopes, frames, P(), Names(), Next();
      AcceptsArgsIs(env, args, n);
      if args.NoExprs? {
        BumpedTwice(f, 0, 0);
        OneMore(p, p);
        Extended(b, s, f, p, 0, p);
        return Ok, [];
      }
      var x, rest;
      err, x := ParseExpr(args.head);
      if err != Ok { return err, []; }
      Unpack(b, s, f, p, Used(args.head));
      ghost var p1 := P();
      MeansInside(env, args.head, p1, x, n);
      err, rest := ParseArgs(args.tail);
      if err != Ok { return err, []; }
      Chained(b, s, f, p, Used(args.head), p1, UsedArgs(args.tail));
      Unpack(b, s, Bumped(f, Used(args.head)), p1, UsedArgs(args.tail));
      MeansStable(env, args.head, p1, P(), x, n);
      PrefixInside(p1, P(), x);
      ids := [x] + rest;
      assert ids[1..] == rest;
    }

    /** A call of what `callee` yields, with the links to its arguments flushed before it. */
    method MakeCall(callee: nat, ids: seq<nat>) returns (err: Error, id: nat)
      requires Valid() && callee < |nodes| && forall k | k in ids :: k < |nodes|
      modifies this`nodes, this`links
      ensures err == Ok ==> Valid() && Prefix(old(P()), P()) && NodeAt(P(), id, Call(NoBuiltin, callee, |old(links)|, |ids|))
      ensures err == Ok ==> |links| == |old(links)| + |ids| && links[|old(links)|..] == ids
      ensures Answered(err, true, old(Free()), |ids| + 1)
    {
      hide Free, Valid, Formed, Prefix;
      ghost var p := P();
      var first;
      err, first := Flush(ids);
      if err != Ok { return err, 0; }
      ghost var p1 := P();
      Linked(p, p1, ids);
      CallFormed(p1, callee, first, ids);
      err, id := AddNode(Call(NoBuiltin, callee, first, |ids|));
      if err == Ok {
        OneMore(p1, P());
        PrefixChain(p, p1, P());
      }
    }

    /** A slot designator is called by keyword only. */
    method ParseCallee(callee: Expr, keyword: bool) returns (err: Error, x: nat)
      requires Valid()
      modifies this`literals, this`nodes, this`links, this`bindings, this`scopes, this`frames
      ensures err == Ok ==> Kept(old(bindings), old(scopes), old(frames), old(P()), Used(callee))
      ensures err == Ok ==> Means(old(Names()), callee, P(), x, old(Next())) && x < |nodes|
      ensures Answered(err, AcceptsCallee(old(Names()), callee, keyword, old(Next())), old(Free()), Weight(callee))
      decreases Weight(callee), 4
    {
      hide Valid, Kept, Free, AcceptsGuarded, AcceptsParts, AcceptsRound, HereOf, Accepts, AcceptsArgs, AcceptsItem,
        AcceptsItems, AcceptsClauses, AcceptsElse, AcceptsBlock, Means, BlockMeans, EnvOf, Bumped, Prefix, Grown,
        BuiltinAt, Arg, SeqAt, Part, Formed, ArgIdsMean, Used, UsedItem, UsedItems, UsedArgs, UsedClauses, UsedElse,
        Weight, ItemWeight, ItemsWeight, ArgsWeight, ClausesWeight, ElseWeight, Surface.Count, ArgCount, ClauseSpare;
      Framed();
      ghost var b, s, f, p, env, n := bindings, scopes, frames, P(), Names(), Next();
      err, x := ParseExpr(callee);
      if err != Ok { return err, 0; }
      Unpack(b, s, f, p, Used(callee));
      MeansInside(env, callee, P(), x, n);
      DesignatorIsAt(env, callee, P(), x, n);
      if !keyword && nodes[x].SlotDesignator? { return Signature, 0; }
    }

    method ParseApply(e: Expr) returns (err: Error, id: nat)
      requires Valid() && e.Apply?
      modifies this`literals, this`nodes, this`links, this`bindings, this`scopes, this`frames
      ensures err == Ok ==> Kept(old(bindings), old(scopes), old(frames), old(P()), Used(e))
      ensures err == Ok ==> Means(old(Names()), e, P(), id, old(Next()))
      ensures Answered(err, Accepts(old(Names()), e, old(Next())), old(Free()), Weight(e))
      decreases Weight(e), 2
    {
      hide Valid, Kept, Free, AcceptsCallee, AcceptsGuarded, AcceptsParts, AcceptsRound, HereOf, Accepts, AcceptsArgs, AcceptsItem,
        AcceptsItems, AcceptsClauses, AcceptsElse, AcceptsBlock, Means, BlockMeans, EnvOf, Bumped, Prefix, Grown,
        BuiltinAt, Arg, SeqAt, Part, Formed, ArgIdsMean, Used, UsedItem, UsedItems, UsedArgs, UsedClauses, UsedElse,
        Weight, ItemWeight, ItemsWeight, ArgsWeight, ClausesWeight, ElseWeight, Surface.Count, ArgCount, ClauseSpare;
      Framed();
      Parts(e);
      ghost var b, s, f, p, env, n := bindings, scopes, frames, P(), Names(), Next();
      AcceptsApplyIs(env, e, n);
      var x, ids;
      err, x := ParseCallee(e.callee, e.keyword);
      if err != Ok { return err, 0; }
      Unpack(b, s, f, p, Used(e.callee));
      ghost var p1 := P();
      if e.keyword && e.args.NoExprs? { return Signature, 0; }
      err, ids := ParseArgs(e.args);
      if err != Ok { return err, 0; }
      Chained(b, s, f, p, Used(e.callee), p1, UsedArgs(e.args));
      Unpack(b, s, Bumped(f, Used(e.callee)), p1, UsedArgs(e.args));
      Unpack(b, s, f, p, Used(e));
      ghost var p2 := P();
      PrefixInside(p1, p2, x);
      err, id := MakeCall(x, ids);
      if err == Ok {
        ApplyIs(env, e, p1, p2, P(), id, x, ids, n);
        Extended(b, s, f, p, Used(e), p2);
      }
    }

    /** Turns a boolean into a literal boolean. */
    method MakeBoolCondition(condition: nat) returns (err: Error, id: nat)
      requires Valid() && condition < |nodes|
      modifies this`literals, this`nodes
      ensures err == Ok ==> Valid() && Prefix(old(P()), P()) && id < |nodes| && BoolOf(P(), id, condition)
      ensures Answered(err, true, old(Free()), 5)
    {
      hide Free, WellFormed, EnvOf, Image.Linking, Image.LiteralsReady;
      var t, f;
      err, t := MakeLiteral(BoolLiteral(true));
      if err != Ok { return err, 0; }
      err, f := MakeLiteral(BoolLiteral(false));
      if err != Ok { return err, 0; }
      err, id := AddNode(If(condition, t, f, true));
    }

    method MakeShortCircuit(isOr: bool, l: nat, r: nat) returns (err: Error, id: nat)
      requires Valid() && l < |nodes| && r < |nodes|
      modifies this`literals, this`nodes
      ensures err == Ok ==> Valid() && Prefix(old(P()), P()) && id < |nodes|
      ensures err == Ok ==> if isOr then OrAt(P(), id, l, r) else AndAt(P(), id, l, r)
      ensures Answered(err, true, old(Free()), 10)
    {
      hide Free, Valid, Formed, Prefix, LiteralAt, BoolOf;
      ghost var p := P();
      var t, f, right;
      err, t := MakeLiteral(BoolLiteral(true));
      if err != Ok { return err, 0; }
      ghost var p1 := P();
      LiteralInside(p1, t, BoolLiteral(true));
      err, f := MakeLiteral(BoolLiteral(false));
      if err != Ok { return err, 0; }
      ghost var p2 := P();
      LiteralInside(p2, f, BoolLiteral(false));
      LiteralStable(p1, p2, t, BoolLiteral(true));
      PrefixChain(p, p1, p2);
      PrefixInside(p, p2, r);
      err, right := MakeBoolCondition(r);
      if err != Ok { return err, 0; }
      ghost var p3 := P();
      PrefixChain(p, p2, p3);
      PrefixInside(p, p3, l);
      LiteralStable(p2, p3, t, BoolLiteral(true));
      LiteralStable(p2, p3, f, BoolLiteral(false));
      var yes, no := if isOr then t else right, if isOr then right else f;
      IfFormed(p3, l, yes, no, true);
      err, id := AddNode(If(l, yes, no, true));
      if err == Ok {
        OneMore(p3, P());
        PrefixChain(p, p3, P());
        LiteralStable(p3, P(), t, BoolLiteral(true));
        LiteralStable(p3, P(), f, BoolLiteral(false));
        BoolStable(p3, P(), right, r);
      }
    }

    // ----- branches and loops -----

    method ParseIf(e: Expr) returns (err: Error, id: nat)
      requires Valid() && e.Choice?
      modifies this`literals, this`nodes, this`links, this`bindings, this`scopes, this`frames
      ensures err == Ok ==> Kept(old(bindings), old(scopes), old(frames), old(P()), Used(e))
      ensures err == Ok ==> Means(old(Names()), e, P(), id, old(Next()))
      ensures Answered(err, Accepts(old(Names()), e, old(Next())), old(Free()), Weight(e))
      decreases Weight(e), 2
    {
      hide Valid, Kept, Free, AcceptsGuarded, AcceptsParts, AcceptsRound, HereOf, Accepts, AcceptsArgs, AcceptsItem,
        AcceptsItems, AcceptsClauses, AcceptsElse, AcceptsBlock, Means, BlockMeans, EnvOf, Bumped, Prefix, Grown,
        BuiltinAt, Arg, SeqAt, Part, Formed, Used, UsedItem, UsedItems, UsedArgs, UsedClauses, UsedElse, Weight,
        ItemWeight, ItemsWeight, ArgsWeight, ClausesWeight, ElseWeight, Surface.Count, ArgCount, ClauseSpare;
      Framed();
      Parts(e);
      ElseParts(e.otherwise);
      AcceptsElseIs(Names(), e.otherwise, e.yes, Next() + Used(e.condition) + UsedItems(e.yes));
      ghost var b, s, f, p, env, n := bindings, scopes, frames, P(), Names(), Next();
      AcceptsChoiceIs(env, e, n);
      var x, y, z;
      z := NODE_INVALID;
      err, x, y := ParseGuarded(e.condition, e.yes);
      if err != Ok { return err, 0; }
      ghost var j := Used(e.condition) + UsedItems(e.yes);
      Unpack(b, s, f, p, j);
      ghost var p1 := P();
      if e.otherwise.Else? {
        err, z := ParseBlock(e.otherwise.items);
        if err != Ok { return err, 0; }
        Chained(b, s, f, p, j, p1, UsedItems(e.otherwise.items));
        Unpack(b, s, Bumped(f, j), p1, UsedItems(e.otherwise.items));
        BlockInside(env, e.otherwise.items, P(), z, n + j);
      } else {
        OneMore(p1, p1);
      }
      Unpack(b, s, f, p, Used(e));
      ghost var p2 := P();
      PrefixInside(p1, p2, x);
      PrefixInside(p1, p2, y);
      IfFormed(p2, x, y, z, e.otherwise.Else?);
      err, id := AddNode(If(x, y, z, e.otherwise.Else?));
      if err == Ok {
        ChoiceIs(env, e, p1, p2, P(), id, x, y, z, n);
        Extended(b, s, f, p, Used(e), p2);
      }
    }

    method ParseWhile(e: Expr) returns (err: Error, id: nat)
      requires Valid() && e.Loop?
      modifies this`literals, this`nodes, this`links, this`bindings, this`scopes, this`frames
      ensures err == Ok ==> Kept(old(bindings), old(scopes), old(frames), old(P()), Used(e))
      ensures err == Ok ==> Means(old(Names()), e, P(), id, old(Next()))
      ensures Answered(err, Accepts(old(Names()), e, old(Next())), old(Free()), Weight(e))
      decreases Weight(e), 2
    {
      hide Valid, Kept, Free, HereOf, Accepts, AcceptsArgs, AcceptsItem, AcceptsItems, AcceptsClauses, AcceptsElse,
        AcceptsBlock, Means, BlockMeans, EnvOf, Bumped, Prefix, Grown, BuiltinAt, Arg, SeqAt, Part, Formed, Used,
        UsedItem, UsedItems, UsedArgs, UsedClauses, UsedElse, Weight, ItemWeight, ItemsWeight, ArgsWeight,
        ClausesWeight, ElseWeight, Surface.Count, ArgCount, ClauseSpare;
      Framed();
      Parts(e);
      ghost var b, s, f, p, env, n := bindings, scopes, frames, P(), Names(), Next();
      AcceptsIs(env, e, n);
      var x, y;
      err, x, y := ParseGuarded(e.condition, e.body);
      if err != Ok { return err, 0; }
      Unpack(b, s, f, p, Used(e));
      ghost var p1 := P();
      WhileFormed(p1, x, y);
      err, id := AddNode(While(x, y));
      if err == Ok {
        OneMore(p1, P());
        Extended(b, s, f, p, Used(e), p1);
        MeansStable(env, e.condition, p1, P(), x, n);
        BlockStable(env, e.body, p1, P(), y, n + Used(e.condition));
        LoopMeans(env, e, P(), id, x, y, n);
      }
    }

    /** A condition and its negation. */
    method ParseNegated(c: Expr) returns (err: Error, id: nat)
      requires Valid()
      modifies this`literals, this`nodes, this`links, this`bindings, this`scopes, this`frames
      ensures err == Ok ==> Kept(old(bindings), old(scopes), old(frames), old(P()), Used(c))
      ensures err == Ok ==> NotAt(old(Names()), c, P(), id, old(Next()))
      ensures Answered(err, Accepts(old(Names()), c, old(Next())), old(Free()), Weight(c) + 2)
      decreases Weight(c), 4
    {
      hide NotAt, Valid, Kept, Free, HereOf, Accepts, AcceptsArgs, AcceptsItem, AcceptsItems, AcceptsClauses, AcceptsElse,
        AcceptsBlock, Means, BlockMeans, EnvOf, Bumped, Prefix, Grown, BuiltinAt, Arg, SeqAt, Part, Formed, Used,
        UsedItem, UsedItems, UsedArgs, UsedClauses, UsedElse, Weight, ItemWeight, ItemsWeight, ArgsWeight,
        ClausesWeight, ElseWeight, Surface.Count, ArgCount, ClauseSpare;
      Framed();
      ghost var b, s, f, p, env, n := bindings, scopes, frames, P(), Names(), Next();
      var x;
      err, x := ParseExpr(c);
      if err != Ok { return err, 0; }
      Unpack(b, s, f, p, Used(c));
      ghost var p1 := P();
      MeansInside(env, c, p1, x, n);
      err, id := MakeBuiltin(Not, [x]);
      if err == Ok {
        Extended(b, s, f, p, Used(c), p1);
        MeansStable(env, c, p1, P(), x, n);
        NegationIs(env, c, P(), id, [x], n);
      }
    }

    method ParseUnless(e: Expr) returns (err: Error, id: nat)
      requires Valid() && e.Unless?
      modifies this`literals, this`nodes, this`links, this`bindings, this`scopes, this`frames
      ensures err == Ok ==> Kept(old(bindings), old(scopes), old(frames), old(P()), Used(e))
      ensures err == Ok ==> Means(old(Names()), e, P(), id, old(Next()))
      ensures Answered(err, Accepts(old(Names()), e, old(Next())), old(Free()), Weight(e))
      decreases Weight(e), 2
    {
      hide NotAt, Valid, Kept, Free, HereOf, Accepts, AcceptsArgs, AcceptsItem, AcceptsItems, AcceptsClauses, AcceptsElse,
        AcceptsBlock, Means, BlockMeans, EnvOf, Bumped, Prefix, Grown, BuiltinAt, Arg, SeqAt, Part, Formed, Used,
        UsedItem, UsedItems, UsedArgs, UsedClauses, UsedElse, Weight, ItemWeight, ItemsWeight, ArgsWeight,
        ClausesWeight, ElseWeight, Surface.Count, ArgCount, ClauseSpare;
      Framed();
      Parts(e);
      ghost var b, s, f, p, env, n := bindings, scopes, frames, P(), Names(), Next();
      AcceptsIs(env, e, n);
      var negated, y;
      err, negated := ParseNegated(e.condition);
      if err != Ok { return err, 0; }
      Unpack(b, s, f, p, Used(e.condition));
      ghost var p2 := P();
      err, y := ParseBlock(e.body);
      if err != Ok { return err, 0; }
      Chained(b, s, f, p, Used(e.condition), p2, UsedItems(e.body));
      Unpack(b, s, Bumped(f, Used(e.condition)), p2, UsedItems(e.body));
      Unpack(b, s, f, p, Used(e));
      ghost var p3 := P();
      BlockInside(env, e.body, p3, y, n + Used(e.condition));
      NotStable(env, e.condition, p2, p3, negated, n);
      PrefixInside(p2, p3, negated);
      IfFormed(p3, negated, y, NODE_INVALID, false);
      err, id := AddNode(If(negated, y, NODE_INVALID, false));
      if err == Ok {
        UnlessMeans(env, e, p2, p3, P(), id, negated, y, n);
        Extended(b, s, f, p, Used(e), p3);
      }
    }

    method ParseFn(e: Expr) returns (err: Error, id: nat)
      requires Valid() && e.Lambda?
      modifies this`literals, this`nodes, this`links, this`bindings, this`scopes, this`frames
      ensures err == Ok ==> Kept(old(bindings), old(scopes), old(frames), old(P()), Used(e))
      ensures err == Ok ==> Means(old(Names()), e, P(), id, old(Next()))
      ensures Answered(err, Accepts(old(Names()), e, old(Next())), old(Free()), Weight(e))
      decreases Weight(e), 2
    {
      hide Valid, Kept, Free, AcceptsGuarded, AcceptsParts, AcceptsRound, HereOf, Accepts, AcceptsArgs, AcceptsItem,
        AcceptsItems, AcceptsClauses, AcceptsElse, AcceptsBlock, Means, BlockMeans, EnvOf, Bumped, Prefix, Grown,
        BuiltinAt, Arg, SeqAt, Part, Formed, FnEnv, Used, UsedItem, UsedItems, UsedArgs, UsedClauses, UsedElse, Weight,
        ItemWeight, ItemsWeight, ArgsWeight, ClausesWeight, ElseWeight, Surface.Count, ArgCount, ClauseSpare;
      Framed();
      Parts(e);
      ghost var b, s, f, p, env, n := bindings, scopes, frames, P(), Names(), Next();
      AcceptsLambdaIs(env, e, n);
      var body;
      err := EnterFunction();
      if err != Ok { return err, 0; }
      ghost var g := f + [FnFrame(|s|, 0, true)];
      err := DeclareParams(e.params, env);
      if err != Ok { return err, 0; }
      UnpackGrown(FnEnv(env, e.params), b, s + [|b|], g, p, |e.params|);
      ghost var b1 := bindings;
      err, body := ParseBlock(e.body);
      if err != Ok { return err, 0; }
      Unpack(b1, s + [|b|], Bumped(g, |e.params|), p, UsedItems(e.body));
      var localCount := frames[|frames| - 1].next;
      ghost var p1 := P();
      BlockInside(FnEnv(env, e.params), e.body, p1, body, |e.params|);
      LeaveFunction(b, s, f, p, |e.params|, UsedItems(e.body));
      Unpack(b, s, f, p, 0);
      err, id := MakeFn(e, localCount, body, env, n);
      if err == Ok {
        Extended(b, s, f, p, Used(e), p1);
      }
    }

    /** The node of a function whose body has been parsed. */
    method MakeFn(e: Expr, localCount: nat, body: nat, ghost env: Env, ghost n: nat) returns (err: Error, id: nat)
      requires Valid() && e.Lambda? && localCount == |e.params| + UsedItems(e.body)
      requires BlockMeans(FnEnv(env, e.params), e.body, P(), body, |e.params|)
      modifies this`nodes
      ensures err == Ok ==> Valid() && Prefix(old(P()), P()) && id < |nodes| && Means(env, e, P(), id, n)
      ensures Answered(err, true, old(Free()), 1)
    {
      hide Valid, Free, Means, BlockMeans, EnvOf, Prefix, Formed, FnEnv, UsedItems;
      ghost var p1 := P();
      ProgramFormed();
      FnFormed(p1, env, e.params, e.body, body);
      err, id := AddNode(Fn(|e.params|, localCount, body));
      if err == Ok {
        OneMore(p1, P());
        BlockStable(FnEnv(env, e.params), e.body, p1, P(), body, |e.params|);
        LambdaMeans(env, e, P(), id, body, n);
      }
    }

    /** A new frame and its first scope; no name bound outside is visible. */
    method EnterFunction() returns (err: Error)
      requires Valid()
      modifies this`frames, this`scopes
      ensures err == Ok ==> Valid() && InScope() && scopes == old(scopes) + [|bindings|]
      ensures err == Ok ==> frames == old(frames) + [FnFrame(|old(scopes)|, 0, true)] && Names() == FnEnv(old(Names()), [])
      ensures Answered(err, true, old(Free()), 2)
      ensures err == Ok ==> Here() == {}
    {
      hide EnvOf, WellFormed, Image.Linking, Image.LiteralsReady, FnEnv;
      if |frames| >= frameLimit { return OutOfMemory; }
      EnteredFunction(bindings, frames[|frames| - 1], parts, FnFrame(|scopes|, 0, true));
      frames := frames + [FnFrame(|scopes|, 0, true)];
      err := PushScope();
    }

    method DeclareParams(params: seq<string>, ghost env: Env) returns (err: Error)
      requires Valid() && InScope() && Next() == 0 && Names() == FnEnv(env, []) && Here() == {}
      modifies this`bindings, this`frames
      ensures err == Ok ==> Grown(FnEnv(env, params), old(bindings), scopes, old(frames), P(), |params|)
      ensures Answered(err, Unique(params), old(Free()), |params|)
    {
      hide EnvOf, WellFormed, Image.Linking, Image.LiteralsReady, FnEnv, Prefix, HereOf, Free;
      var i := 0;
      BumpedTwice(frames, 0, 0);
      OneMore(P(), P());
      while i < |params|
        invariant i <= |params| && InScope() && scopes != []
        invariant Here() == NamesIn(params[..i]) && Unique(params[..i]) && Free() >= old(Free()) - i
        invariant Grown(FnEnv(env, params[..i]), old(bindings), scopes, old(frames), P(), i)
      {
        ghost var f1 := frames;
        var index;
        err, index := DeclareLocal(params[i]);
        UniqueMore(params, i);
        if err != Ok { return; }
        FnEnvMore(env, params, i);
        BumpedTwice(old(frames), i, 1);
        i := i + 1;
      }
      assert params[..i] == params;
      err := Ok;
    }

    /** Back in the enclosing function, whose locals are untouched. */
    method LeaveFunction(ghost b: seq<Binding>, ghost s: seq<nat>, ghost f: seq<FnFrame>, ghost p: Program, ghost j: nat, ghost k: nat)
      requires Valid() && f != [] && scopes == s + [|b|] && b <= bindings && Prefix(p, P())
      requires frames == Bumped(Bumped(f + [FnFrame(|s|, 0, true)], j), k)
      requires f[|f| - 1].scopeBase <= |s| && forall x | x in b :: x.scope < |s|
      modifies this`scopes, this`bindings, this`frames
      ensures Kept(b, s, f, p, 0)
      ensures Free() >= old(Free())
    {
      hide EnvOf;
      PopScope();
      assert bindings == b && scopes == s;
      frames := frames[..|frames| - 1];
      assert frames == f;
      BumpedTwice(f, 0, 0);
    }

    // ----- clauses -----

    method ParseClauses(clauses: Clauses, matching: bool) returns (err: Error, tests: seq<nat>, bodies: seq<nat>)
      requires Valid()
      modifies this`literals, this`nodes, this`links, this`bindings, this`scopes, this`frames
      ensures err == Ok ==> Kept(old(bindings), old(scopes), old(frames), old(P()), UsedClauses(clauses))
      ensures err == Ok ==> ClauseIdsMean(old(Names()), clauses, matching, P(), tests, bodies, old(Next()))
      ensures err == Ok ==> (forall k | k in tests :: k < |nodes|) && (forall k | k in bodies :: k < |nodes|)
      ensures Answered(err, AcceptsClauses(old(Names()), clauses, matching, old(Next())), old(Free()), ClausesWeight(clauses) - ClauseSpare(clauses))
      decreases ClausesWeight(clauses), 5
    {
      hide Valid, Kept, Free, HereOf, Accepts, AcceptsArgs, AcceptsItem, AcceptsItems, AcceptsClauses, AcceptsElse,
        AcceptsBlock, Means, BlockMeans, EnvOf, Bumped, Prefix, Grown, BuiltinAt, Arg, SeqAt, Part, TestMeans, Used,
        UsedItem, UsedItems, UsedArgs, UsedClauses, UsedElse, Weight, ItemWeight, ItemsWeight, ArgsWeight,
        ClausesWeight, ElseWeight, Surface.Count, ArgCount, ClauseSpare;
      Framed();
      ClausesParts(clauses);
      ghost var b, s, f, p, env, n := bindings, scopes, frames, P(), Names(), Next();
      AcceptsClausesIs(env, clauses, matching, n);
      if clauses.NoClauses? {
        BumpedTwice(f, 0, 0);
        OneMore(p, p);
        Extended(b, s, f, p, 0, p);
        return Ok, [], [];
      }
      var x, y;
      err, x, y := ParseClause(clauses.test, clauses.body, matching);
      if err != Ok { return err, [], []; }
      ghost var j := Used(clauses.test) + UsedItems(clauses.body);
      Unpack(b, s, f, p, j);
      ghost var p1 := P();
      err, tests, bodies := ParseClauses(clauses.tail, matching);
      if err != Ok { return err, [], []; }
      Chained(b, s, f, p, j, p1, UsedClauses(clauses.tail));
      Unpack(b, s, Bumped(f, j), p1, UsedClauses(clauses.tail));
      TestStable(env, clauses.test, matching, p1, P(), x, n);
      BlockStable(env, clauses.body, p1, P(), y, n + Used(clauses.test));
      PrefixInside(p1, P(), x);
      PrefixInside(p1, P(), y);
      tests, bodies := [x] + tests, [y] + bodies;
      assert tests[1..] == tests[1..] && bodies[1..] == bodies[1..];
    }

    /** One clause: a condition, or a literal to compare with, and a block. */
    method ParseClause(test: Expr, body: Items, matching: bool) returns (err: Error, x: nat, y: nat)
      requires Valid()
      modifies this`literals, this`nodes, this`links, this`bindings, this`scopes, this`frames
      ensures err == Ok ==> Kept(old(bindings), old(scopes), old(frames), old(P()), Used(test) + UsedItems(body))
      ensures err == Ok ==> x < |nodes| && y < |nodes|
      ensures err == Ok ==> TestMeans(old(Names()), test, matching, P(), x, old(Next()))
      ensures err == Ok ==> BlockMeans(old(Names()), body, P(), y, old(Next()) + Used(test))
      ensures Answered(err, AcceptsClause(old(Names()), test, body, matching, old(Next())),
        old(Free()), Weight(test) + ItemsWeight(body))
      decreases Weight(test) + ItemsWeight(body), 5
    {
      hide Valid, Kept, Free, HereOf, Accepts, AcceptsArgs, AcceptsItem, AcceptsItems, AcceptsClauses, AcceptsElse,
        AcceptsBlock, Means, BlockMeans, EnvOf, Bumped, Prefix, Grown, BuiltinAt, Arg, SeqAt, Part, Used, UsedItem,
        UsedItems, UsedArgs, UsedClauses, UsedElse, Weight, ItemWeight, ItemsWeight, ArgsWeight, ClausesWeight,
        ElseWeight, Surface.Count, ArgCount, ClauseSpare;
      Framed();
      ghost var b, s, f, p, env, n := bindings, scopes, frames, P(), Names(), Next();
      x, y := 0, 0;
      if !matching {
        err, x, y := ParseGuarded(test, body);
        if err == Ok { Unpack(b, s, f, p, Used(test) + UsedItems(body)); }
      } else {
        err, x, y := ParseMatch(test, body);
        if err == Ok { Unpack(b, s, f, p, Used(test) + UsedItems(body)); }
      }
    }

    /** A clause of a `case`. */
    method ParseMatch(test: Expr, body: Items) returns (err: Error, x: nat, y: nat)
      requires Valid()
      modifies this`literals, this`nodes, this`links, this`bindings, this`scopes, this`frames
      ensures err == Ok ==> Kept(old(bindings), old(scopes), old(frames), old(P()), Used(test) + UsedItems(body))
      ensures err == Ok ==> x < |nodes| && y < |nodes|
      ensures err == Ok ==> TestMeans(old(Names()), test, true, P(), x, old(Next()))
      ensures err == Ok ==> BlockMeans(old(Names()), body, P(), y, old(Next()) + Used(test))
      ensures Answered(err, AcceptsClause(old(Names()), test, body, true, old(Next())), old(Free()), Weight(test) + ItemsWeight(body))
      decreases Weight(test) + ItemsWeight(body), 4
    {
      hide Valid, Kept, Free, HereOf, Accepts, AcceptsArgs, AcceptsItem, AcceptsItems, AcceptsClauses, AcceptsElse,
        AcceptsBlock, Means, BlockMeans, EnvOf, Bumped, Prefix, Grown, BuiltinAt, Arg, SeqAt, Part, Used, UsedItem,
        UsedItems, UsedArgs, UsedClauses, UsedElse, Weight, ItemWeight, ItemsWeight, ArgsWeight, ClausesWeight,
        ElseWeight, Surface.Count, ArgCount, ClauseSpare;
      Framed();
      Parts(test);
      ghost var b, s, f, p, env, n := bindings, scopes, frames, P(), Names(), Next();
      x, y := 0, 0;
      if !IsLiteral(test) { return Signature, 0, 0; }
      LiteralIsReady(test);
      err, x := MakeLiteral(LiteralOf(test));
      if err != Ok { return; }
      ghost var p1 := P();
      err, y := ParseBlock(body);
      if err != Ok { return; }
      Unpack(b, s, f, p1, UsedItems(body));
      PrefixChain(p, p1, P());
      OneMore(P(), P());
      Extended(b, s, f, p, UsedItems(body), P());
      LiteralStable(p1, P(), x, LiteralOf(test));
      BlockInside(env, body, P(), y, n);
    }

    /** What a chain falls through to: the block behind `else`, or a nil. */
    method ParseElse(otherwise: Else) returns (err: Error, id: nat)
      requires Valid()
      modifies this`literals, this`nodes, this`links, this`bindings, this`scopes, this`frames
      ensures err == Ok ==> Kept(old(bindings), old(scopes), old(frames), old(P()), UsedElse(otherwise))
      ensures err == Ok ==> id < |nodes| && ElseMeans(old(Names()), otherwise, P(), id, old(Next()))
      ensures Answered(err, AcceptsElse(old(Names()), otherwise, old(Next())), old(Free()), ElseWeight(otherwise))
      decreases ElseWeight(otherwise), 5
    {
      hide Valid, Kept, Free, HereOf, Accepts, AcceptsArgs, AcceptsItem, AcceptsItems, AcceptsClauses, AcceptsElse,
        AcceptsBlock, Means, BlockMeans, EnvOf, Bumped, Prefix, Grown, BuiltinAt, Arg, SeqAt, Part, Used, UsedItem,
        UsedItems, UsedArgs, UsedClauses, UsedElse, Weight, ItemWeight, ItemsWeight, ArgsWeight, ClausesWeight,
        ElseWeight, Surface.Count, ArgCount, ClauseSpare;
      Framed();
      ElseParts(otherwise);
      ghost var b, s, f, p, env, n := bindings, scopes, frames, P(), Names(), Next();
      AcceptsElseIs(env, otherwise, NoItems, n);
      if otherwise.NoElse? {
        err, id := MakeLiteral(NilLiteral);
        if err == Ok {
          BumpedTwice(f, 0, 0);
          OneMore(p, p);
          Extended(b, s, f, p, 0, p);
        }
      } else {
        err, id := ParseBlock(otherwise.items);
        if err == Ok { Unpack(b, s, f, p, UsedItems(otherwise.items)); BlockInside(env, otherwise.items, P(), id, n); }
      }
    }

    /** Clauses and what follows them; an `else` needs a clause before it. */
    method ParseChainParts(clauses: Clauses, otherwise: Else, matching: bool)
      returns (err: Error, tests: seq<nat>, bodies: seq<nat>, end: nat)
      requires Valid()
      modifies this`literals, this`nodes, this`links, this`bindings, this`scopes, this`frames
      ensures err == Ok ==> Kept(old(bindings), old(scopes), old(frames), old(P()), UsedClauses(clauses) + UsedElse(otherwise))
      ensures err == Ok ==> ClauseIdsMean(old(Names()), clauses, matching, P(), tests, bodies, old(Next()))
      ensures err == Ok ==> (forall k | k in tests :: k < |nodes|) && (forall k | k in bodies :: k < |nodes|)
      ensures err == Ok ==> end < |nodes| && ElseMeans(old(Names()), otherwise, P(), end, old(Next()) + UsedClauses(clauses))
      ensures clauses.NoClauses? && otherwise.Else? ==> err != Ok
      ensures Answered(err, AcceptsParts(old(Names()), clauses, otherwise, matching, old(Next())), old(Free()), ClausesWeight(clauses) - ClauseSpare(clauses) + ElseWeight(otherwise))
      decreases ClausesWeight(clauses) + ElseWeight(otherwise), 6
    {
      hide Valid, Kept, Free, HereOf, Accepts, AcceptsArgs, AcceptsItem, AcceptsItems, AcceptsClauses, AcceptsElse,
        AcceptsBlock, Means, BlockMeans, EnvOf, Bumped, Prefix, Grown, BuiltinAt, Arg, SeqAt, Part, ClauseIdsMean,
        ElseMeans, Used, UsedItem, UsedItems, UsedArgs, UsedClauses, UsedElse, Weight, ItemWeight, ItemsWeight,
        ArgsWeight, ClausesWeight, ElseWeight, Surface.Count, ArgCount, ClauseSpare;
      Framed();
      ghost var b, s, f, p, env, n := bindings, scopes, frames, P(), Names(), Next();
      end := 0;
      if clauses.NoClauses? && otherwise.Else? { return Signature, [], [], 0; }
      err, tests, bodies := ParseClauses(clauses, matching);
      if err != Ok { return; }
      Unpack(b, s, f, p, UsedClauses(clauses));
      ghost var p1 := P();
      err, end := ParseElse(otherwise);
      if err != Ok { return; }
      Chained(b, s, f, p, UsedClauses(clauses), p1, UsedElse(otherwise));
      Unpack(b, s, Bumped(f, UsedClauses(clauses)), p1, UsedElse(otherwise));
      ClauseIdsStable(env, clauses, matching, p1, P(), tests, bodies, n);
      forall k | k in tests ensures k < |nodes| { PrefixInside(p1, P(), k); }
      forall k | k in bodies ensures k < |nodes| { PrefixInside(p1, P(), k); }
    }

    method ParseCond(e: Expr) returns (err: Error, id: nat)
      requires Valid() && e.Cond?
      modifies this`literals, this`nodes, this`links, this`bindings, this`scopes, this`frames
      ensures err == Ok ==> Kept(old(bindings), old(scopes), old(frames), old(P()), Used(e))
      ensures err == Ok ==> Means(old(Names()), e, P(), id, old(Next()))
      ensures Answered(err, Accepts(old(Names()), e, old(Next())), old(Free()), Weight(e))
      decreases Weight(e), 2
    {
      hide Valid, Kept, Free, HereOf, Accepts, AcceptsArgs, AcceptsItem, AcceptsItems, AcceptsClauses, AcceptsElse,
        AcceptsBlock, Means, BlockMeans, EnvOf, Bumped, Prefix, Grown, BuiltinAt, Arg, SeqAt, Part, ClauseIdsMean,
        ElseMeans, Used, UsedItem, UsedItems, UsedArgs, UsedClauses, UsedElse, Weight, ItemWeight, ItemsWeight,
        ArgsWeight, ClausesWeight, ElseWeight, Surface.Count, ArgCount, ClauseSpare;
      Framed();
      Parts(e);
      ghost var b, s, f, p, env, n := bindings, scopes, frames, P(), Names(), Next();
      AcceptsIs(env, e, n);
      var tests, bodies, end;
      err, tests, bodies, end := ParseChainParts(e.clauses, e.otherwise, false);
      if err != Ok { return err, 0; }
      Unpack(b, s, f, p, Used(e));
      ghost var p1 := P();
      err, id := MakeCondChain(env, e.clauses, tests, bodies, end, n);
      if err == Ok {
        Extended(b, s, f, p, Used(e), p1);
        ElseStable(env, e.otherwise, p1, P(), end, n + UsedClauses(e.clauses));
        ChainMeans(env, e, P(), id, end, n);
      }
    }

    /** Builds the branches from the last clause to the first. */
    method MakeCondChain(ghost env: Env, ghost clauses: Clauses, tests: seq<nat>, bodies: seq<nat>, end: nat, ghost n: nat)
      returns (err: Error, id: nat)
      requires Valid() && end < |nodes| && ClauseIdsMean(env, clauses, false, P(), tests, bodies, n)
      requires (forall k | k in tests :: k < |nodes|) && (forall k | k in bodies :: k < |nodes|)
      modifies this`nodes
      ensures err == Ok ==> Valid() && Prefix(old(P()), P()) && id < |nodes| && CondMeans(env, clauses, P(), id, end, n)
      ensures Answered(err, true, old(Free()), ClauseSpare(clauses))
      decreases |tests|
    {
      hide Free, Valid, Means, BlockMeans, EnvOf, Prefix, Formed;
      ghost var p := P();
      if tests == [] {
        OneMore(p, p);
        return Ok, end;
      }
      var chain;
      ghost var m := n + Used(clauses.test) + UsedItems(clauses.body);
      assert tests[0] in tests && bodies[0] in bodies;
      assert (forall k | k in tests[1..] :: k in tests) && (forall k | k in bodies[1..] :: k in bodies);
      err, chain := MakeCondChain(env, clauses.tail, tests[1..], bodies[1..], end, m);
      if err != Ok { return err, 0; }
      ghost var p1 := P();
      PrefixInside(p, p1, tests[0]);
      PrefixInside(p, p1, bodies[0]);
      IfFormed(p1, tests[0], bodies[0], chain, true);
      err, id := AddNode(If(tests[0], bodies[0], chain, true));
      if err == Ok {
        OneMore(p1, P());
        PrefixChain(p, p1, P());
        ClausesStable(env, clauses.tail, p1, P(), chain, end, m);
        MeansStable(env, clauses.test, p, P(), tests[0], n);
        BlockStable(env, clauses.body, p, P(), bodies[0], n + Used(clauses.test));
      }
    }

    /** The scrutinee, the clauses and what follows them. */
    method ParseCaseParts(e: Expr) returns (err: Error, x: nat, tests: seq<nat>, bodies: seq<nat>, end: nat)
      requires Valid() && e.Case?
      modifies this`literals, this`nodes, this`links, this`bindings, this`scopes, this`frames
      ensures err == Ok ==>
        Kept(old(bindings), old(scopes), old(frames), old(P()), Used(e.scrutinee) + (UsedClauses(e.clauses) + UsedElse(e.otherwise)))
      ensures err == Ok ==> x < |nodes| && Means(old(Names()), e.scrutinee, P(), x, old(Next()))
      ensures err == Ok ==> ClauseIdsMean(old(Names()), e.clauses, true, P(), tests, bodies, old(Next()) + Used(e.scrutinee))
      ensures err == Ok ==> (forall k | k in tests :: k < |nodes|) && (forall k | k in bodies :: k < |nodes|)
      ensures err == Ok ==>
        end < |nodes| && ElseMeans(old(Names()), e.otherwise, P(), end, old(Next()) + Used(e.scrutinee) + UsedClauses(e.clauses))
      ensures Answered(err, Accepts(old(Names()), e, old(Next())), old(Free()),
        Weight(e.scrutinee) + (ClausesWeight(e.clauses) - ClauseSpare(e.clauses) + ElseWeight(e.otherwise)))
      decreases Weight(e), 1
    {
      hide Valid, Kept, Free, AcceptsGuarded, AcceptsParts, AcceptsRound, HereOf, Accepts, AcceptsArgs, AcceptsItem,
        AcceptsItems, AcceptsClauses, AcceptsElse, AcceptsBlock, Means, BlockMeans, EnvOf, Bumped, Prefix, Grown,
        BuiltinAt, Arg, SeqAt, Part, ClauseIdsMean, ElseMeans, Used, UsedItem, UsedItems, UsedArgs, UsedClauses,
        UsedElse, Weight, ItemWeight, ItemsWeight, ArgsWeight, ClausesWeight, ElseWeight, Surface.Count, ArgCount,
        ClauseSpare;
      Framed();
      Parts(e);
      ghost var b, s, f, p, env, n := bindings, scopes, frames, P(), Names(), Next();
      AcceptsCaseIs(env, e, n);
      x, tests, bodies, end := 0, [], [], 0;
      err, x := ParseExpr(e.scrutinee);
      if err != Ok { return; }
      ghost var j := Used(e.scrutinee);
      Unpack(b, s, f, p, j);
      ghost var p1 := P();
      MeansInside(env, e.scrutinee, p1, x, n);
      err, tests, bodies, end := ParseChainParts(e.clauses, e.otherwise, true);
      if err != Ok { return; }
      ghost var k := UsedClauses(e.clauses) + UsedElse(e.otherwise);
      Chained(b, s, f, p, j, p1, k);
      Unpack(b, s, Bumped(f, j), p1, k);
      MeansStable(env, e.scrutinee, p1, P(), x, n);
      PrefixInside(p1, P(), x);
    }

    method ParseCase(e: Expr) returns (err: Error, id: nat)
      requires Valid() && e.Case?
      modifies this`literals, this`nodes, this`links, this`bindings, this`scopes, this`frames
      ensures err == Ok ==> Kept(old(bindings), old(scopes), old(frames), old(P()), Used(e))
      ensures err == Ok ==> Means(old(Names()), e, P(), id, old(Next()))
      ensures Answered(err, Accepts(old(Names()), e, old(Next())), old(Free()), Weight(e))
      decreases Weight(e), 2
    {
      hide Valid, Kept, Free, AcceptsGuarded, AcceptsParts, AcceptsRound, HereOf, Accepts, AcceptsArgs, AcceptsItem,
        AcceptsItems, AcceptsClauses, AcceptsElse, AcceptsBlock, Means, BlockMeans, EnvOf, Bumped, Prefix, Grown,
        BuiltinAt, Arg, SeqAt, Part, ClauseIdsMean, ElseMeans, Used, UsedItem, UsedItems, UsedArgs, UsedClauses,
        UsedElse, Weight, ItemWeight, ItemsWeight, ArgsWeight, ClausesWeight, ElseWeight, Surface.Count, ArgCount,
        ClauseSpare;
      Framed();
      Parts(e);
      ghost var b, s, f, p, env, n := bindings, scopes, frames, P(), Names(), Next();
      var x, tests, bodies, end, init, chain;
      err, x, tests, bodies, end := ParseCaseParts(e);
      if err != Ok { return err, 0; }
      ghost var j, m := Used(e.scrutinee), Used(e.scrutinee) + (UsedClauses(e.clauses) + UsedElse(e.otherwise));
      Unpack(b, s, f, p, m);
      ghost var p2 := P();
      OneMore(p2, p2);
      var hidden := ReserveHiddenLocal();
      BumpedTwice(f, m, 1);
      err, init, chain, id := EmitCase(env, e.clauses, hidden, x, tests, bodies, end, n + j);
      if err != Ok { return err, 0; }
      Extended(b, s, f, p, Used(e), p2);
      CaseIs(env, e, p2, p2, P(), id, x, init, chain, end, hidden, n);
    }

    /** The hidden local, the chain of comparisons, and the sequence of the two. */
    method EmitCase(ghost env: Env, ghost clauses: Clauses, hidden: nat, x: nat, tests: seq<nat>, bodies: seq<nat>, end: nat, ghost n: nat)
      returns (err: Error, init: nat, chain: nat, id: nat)
      requires Valid() && x < |nodes| && end < |nodes| && ClauseIdsMean(env, clauses, true, P(), tests, bodies, n)
      requires (forall k | k in tests :: k < |nodes|) && (forall k | k in bodies :: k < |nodes|)
      modifies this`nodes, this`links
      ensures err == Ok ==> Valid() && Prefix(old(P()), P()) && SeqAt(P(), id, 2) && Part(P(), id, 0) == init && Part(P(), id, 1) == chain
      ensures err == Ok ==> NodeAt(P(), init, WriteLocal(hidden, x)) && CaseMeans(env, clauses, hidden, P(), chain, end, n)
      ensures Answered(err, true, old(Free()), ClauseSpare(clauses) + 4)
    {
      hide Free, Valid, ClauseIdsMean, CaseMeans, Formed, Prefix;
      ghost var p := P();
      init, chain, id := 0, 0, 0;
      WriteLocalFormed(p, hidden, x);
      err, init := AddNode(WriteLocal(hidden, x));
      if err != Ok { return; }
      ghost var p1 := P();
      OneMore(p, p1);
      ClauseIdsStable(env, clauses, true, p, p1, tests, bodies, n);
      err, chain := MakeCaseChain(env, clauses, hidden, tests, bodies, end, n);
      if err != Ok { return; }
      ghost var p2 := P();
      NodeStable(p1, p2, init);
      err, id := MakeSeq([init, chain]);
      if err != Ok { return; }
      NodeStable(p2, P(), init);
      PrefixChain(p1, p2, P());
      PrefixChain(p, p1, P());
      MatchesStable(env, clauses, hidden, p2, P(), chain, end, n);
    }

    /** Builds the comparisons from the last clause to the first. */
    method MakeCaseChain(ghost env: Env, ghost clauses: Clauses, hidden: nat, tests: seq<nat>, bodies: seq<nat>, end: nat, ghost n: nat)
      returns (err: Error, id: nat)
      requires Valid() && end < |nodes| && ClauseIdsMean(env, clauses, true, P(), tests, bodies, n)
      requires (forall k | k in tests :: k < |nodes|) && (forall k | k in bodies :: k < |nodes|)
      modifies this`nodes, this`links
      ensures err == Ok ==> Valid() && Prefix(old(P()), P()) && id < |nodes| && CaseMeans(env, clauses, hidden, P(), id, end, n)
      ensures Answered(err, true, old(Free()), ClauseSpare(clauses))
      decreases |tests|
    {
      hide Free, Valid, BlockMeans, EnvOf, Prefix, Formed, CaseMeans, MatchAt, LiteralAt, Used, UsedItems;
      ghost var p := P();
      if tests == [] {
        OneMore(p, p);
        NoMatches(env, clauses, hidden, p, end, n);
        return Ok, end;
      }
      var chain, condition;
      ghost var m := n + Used(clauses.test) + UsedItems(clauses.body);
      assert tests[0] in tests && bodies[0] in bodies;
      assert (forall k | k in tests[1..] :: k in tests) && (forall k | k in bodies[1..] :: k in bodies);
      err, chain := MakeCaseChain(env, clauses.tail, hidden, tests[1..], bodies[1..], end, m);
      if err != Ok { return err, 0; }
      ghost var p1 := P();
      err, condition := MakeMatch(hidden, tests[0], LiteralOf(clauses.test), p);
      if err != Ok { return err, 0; }
      ghost var p2 := P();
      PrefixChain(p, p1, p2);
      PrefixInside(p, p2, bodies[0]);
      PrefixInside(p1, p2, chain);
      IfFormed(p2, condition, bodies[0], chain, true);
      err, id := AddNode(If(condition, bodies[0], chain, true));
      if err == Ok {
        OneMore(p2, P());
        PrefixChain(p, p2, P());
        PrefixChain(p1, p2, P());
        MatchesStable(env, clauses.tail, hidden, p1, P(), chain, end, m);
        MatchStable(p2, P(), condition, hidden, LiteralOf(clauses.test));
        BlockStable(env, clauses.body, p, P(), bodies[0], n + Used(clauses.test));
        MatchStep(env, clauses, hidden, P(), id, condition, bodies[0], chain, end, n);
      }
    }

    /** Compares the hidden local with a literal. */
    method MakeMatch(hidden: nat, literal: nat, ghost l: Literal, ghost p: Program) returns (err: Error, id: nat)
      requires Valid() && Prefix(p, P()) && LiteralAt(p, literal, l)
      modifies this`nodes, this`links
      ensures err == Ok ==> Valid() && Prefix(old(P()), P()) && id < |nodes| && MatchAt(P(), id, hidden, l)
      ensures Answered(err, true, old(Free()), 4)
    {
      hide Free, WellFormed, EnvOf, Image.Linking, Image.LiteralsReady;
      var read;
      LiteralStable(p, P(), literal, l);
      err, read := AddNode(ReadLocal(hidden));
      if err != Ok { return err, 0; }
      err, id := MakeBuiltin(Eq, [read, literal]);
    }

    // ----- repeat -----

    /** The count and the body. */
    method ParseRepeatParts(e: Expr) returns (err: Error, x: nat, index: Option<nat>, body: nat)
      requires Valid() && e.Repeat?
      modifies this`literals, this`nodes, this`links, this`bindings, this`scopes, this`frames
      ensures err == Ok ==>
        Kept(old(bindings), old(scopes), old(frames), old(P()), Used(e.count) + (Hidden(e.index) + UsedItems(e.body)))
      ensures err == Ok ==> x < |nodes| && body < |nodes| && index == IndexLocal(e.index, old(Next()) + Used(e.count))
      ensures err == Ok ==> Means(old(Names()), e.count, P(), x, old(Next()))
      ensures err == Ok ==>
        BlockMeans(IndexEnv(old(Names()), e.index, old(Next()) + Used(e.count)), e.body, P(), body,
                   old(Next()) + Used(e.count) + Hidden(e.index))
      ensures Answered(err, Accepts(old(Names()), e, old(Next())), old(Free()), Weight(e.count) + ItemsWeight(e.body))
      decreases Weight(e), 1
    {
      hide Valid, Kept, Free, AcceptsGuarded, AcceptsParts, AcceptsRound, HereOf, Accepts, AcceptsArgs, AcceptsItem,
        AcceptsItems, AcceptsClauses, AcceptsElse, AcceptsBlock, Means, BlockMeans, EnvOf, Bumped, Prefix, Grown,
        BuiltinAt, Arg, SeqAt, Part, IndexEnv, RepeatAt, Used, UsedItem, UsedItems, UsedArgs, UsedClauses, UsedElse,
        Weight, ItemWeight, ItemsWeight, ArgsWeight, ClausesWeight, ElseWeight, Surface.Count, ArgCount, ClauseSpare;
      Framed();
      Parts(e);
      ghost var b, s, f, p, env, n := bindings, scopes, frames, P(), Names(), Next();
      AcceptsRepeatIs(env, e, n);
      x, index, body := 0, None, 0;
      err, x := ParseExpr(e.count);
      if err != Ok { return; }
      ghost var j, m := Used(e.count), n + Used(e.count);
      Unpack(b, s, f, p, j);
      ghost var p1 := P();
      MeansInside(env, e.count, p1, x, n);
      err, index, body := ParseRepeatBody(e.index, e.body);
      if err != Ok { return; }
      ghost var k := Hidden(e.index) + UsedItems(e.body);
      Chained(b, s, f, p, j, p1, k);
      Unpack(b, s, Bumped(f, j), p1, k);
      MeansStable(env, e.count, p1, P(), x, n);
      PrefixInside(p1, P(), x);
      BlockInside(IndexEnv(env, e.index, m), e.body, P(), body, m + Hidden(e.index));
    }

    method ParseRepeat(e: Expr) returns (err: Error, id: nat)
      requires Valid() && e.Repeat?
      modifies this`literals, this`nodes, this`links, this`bindings, this`scopes, this`frames
      ensures err == Ok ==> Kept(old(bindings), old(scopes), old(frames), old(P()), Used(e))
      ensures err == Ok ==> Means(old(Names()), e, P(), id, old(Next()))
      ensures Answered(err, Accepts(old(Names()), e, old(Next())), old(Free()), Weight(e))
      decreases Weight(e), 2
    {
      hide Valid, Kept, Free, AcceptsGuarded, AcceptsParts, AcceptsRound, HereOf, Accepts, AcceptsArgs, AcceptsItem,
        AcceptsItems, AcceptsClauses, AcceptsElse, AcceptsBlock, Means, BlockMeans, EnvOf, Bumped, Prefix, Grown,
        BuiltinAt, Arg, SeqAt, Part, IndexEnv, RepeatAt, Used, UsedItem, UsedItems, UsedArgs, UsedClauses, UsedElse,
        Weight, ItemWeight, ItemsWeight, ArgsWeight, ClausesWeight, ElseWeight, Surface.Count, ArgCount, ClauseSpare;
      Framed();
      Parts(e);
      ghost var b, s, f, p, env, n := bindings, scopes, frames, P(), Names(), Next();
      var x, index, body;
      err, x, index, body := ParseRepeatParts(e);
      if err != Ok { return err, 0; }
      ghost var m := Used(e.count) + (Hidden(e.index) + UsedItems(e.body));
      Unpack(b, s, f, p, m);
      ghost var p2 := P();
      OneMore(p2, p2);
      var limit := ReserveHiddenLocal();
      BumpedTwice(f, m, 1);
      var counter := ReserveHiddenLocal();
      BumpedTwice(f, m + 1, 1);
      err, id := EmitRepeat(x, index, body, limit, counter);
      if err != Ok { return err, 0; }
      Extended(b, s, f, p, Used(e), p2);
      RepeatIs(env, e, p2, p2, P(), id, x, body, n);
    }

    /** The body has a scope of its own, with the index name in it if there is one. */
    method ParseRepeatBody(indexName: Option<string>, items: Items) returns (err: Error, index: Option<nat>, body: nat)
      requires Valid()
      modifies this`literals, this`nodes, this`links, this`bindings, this`scopes, this`frames
      ensures err == Ok ==> Kept(old(bindings), old(scopes), old(frames), old(P()), Hidden(indexName) + UsedItems(items))
      ensures err == Ok ==> index == IndexLocal(indexName, old(Next()))
      ensures err == Ok ==>
        BlockMeans(IndexEnv(old(Names()), indexName, old(Next())), items, P(), body, old(Next()) + Hidden(indexName))
      ensures Answered(err, AcceptsRound(old(Names()), indexName, items, old(Next())), old(Free()), ItemsWeight(items))
      decreases ItemsWeight(items), 7
    {
      hide Valid, Kept, Free, HereOf, Accepts, AcceptsArgs, AcceptsItem, AcceptsItems, AcceptsClauses, AcceptsElse,
        AcceptsBlock, Means, BlockMeans, EnvOf, Bumped, Prefix, Grown, BuiltinAt, Arg, SeqAt, Part, Used, UsedItem,
        UsedItems, UsedArgs, UsedClauses, UsedElse, Weight, ItemWeight, ItemsWeight, ArgsWeight, ClausesWeight,
        ElseWeight, Surface.Count, ArgCount, ClauseSpare;
      Framed();
      ghost var b, s, f, p, env, n := bindings, scopes, frames, P(), Names(), Next();
      index, body := None, 0;
      err := PushScope();
      if err != Ok { return; }
      ScopeEntered();
      BumpedTwice(f, 0, 0);
      OneMore(p, p);
      ghost var inner := IndexEnv(env, indexName, n);
      if indexName.Some? {
        var i;
        err, i := DeclareLocal(indexName.value);
        if err != Ok { return; }
        index := Some(i);
        SameScopeBase(f, 1);
        assert {} + {indexName.value} == IndexNames(indexName);
      }
      ScopeEntered();
      ghost var b1 := bindings;
      err, body := ParseBlockContents(items);
      if err != Ok { return; }
      ghost var last := EnvAfter(inner, items, n + Hidden(indexName));
      UnpackGrown(last, b1, s + [|b|], Bumped(f, Hidden(indexName)), p, UsedItems(items));
      BumpedTwice(f, Hidden(indexName), UsedItems(items));
      CloseScope(b, s, f, p, Hidden(indexName) + UsedItems(items));
    }

    /** Everything that `repeat` becomes around its count and its body. */
    method EmitRepeat(count: nat, index: Option<nat>, body: nat, limit: nat, counter: nat) returns (err: Error, id: nat)
      requires Valid() && count < |nodes| && body < |nodes|
      modifies this`literals, this`nodes, this`links
      ensures err == Ok ==> Valid() && Prefix(old(P()), P()) && id < |nodes| && RepeatAt(P(), id, count, index, body, limit, counter)
      ensures Answered(err, true, old(Free()), 27)
    {
      hide Free, Valid, RepeatLoopAt, Formed, Prefix, SeqAt, Part, LiteralAt;
      ghost var p := P();
      var limitInit, zero, counterInit, loop;
      WriteLocalFormed(p, limit, count);
      err, limitInit := AddNode(WriteLocal(limit, count));
      if err != Ok { return err, 0; }
      ghost var p1 := P();
      OneMore(p, p1);
      err, zero := MakeLiteral(IntLiteral(0));
      if err != Ok { return err, 0; }
      ghost var p2 := P();
      NodeStable(p1, p2, limitInit);
      LiteralInside(p2, zero, IntLiteral(0));
      WriteLocalFormed(p2, counter, zero);
      err, counterInit := AddNode(WriteLocal(counter, zero));
      if err != Ok { return err, 0; }
      ghost var p3 := P();
      OneMore(p2, p3);
      PrefixChain(p1, p2, p3);
      PrefixChain(p, p1, p3);
      PrefixInside(p, p3, body);
      err, loop := EmitLoop(index, body, limit, counter);
      if err != Ok { return err, 0; }
      ghost var p4 := P();
      PrefixChain(p1, p3, p4);
      PrefixChain(p2, p3, p4);
      NodeStable(p1, p4, limitInit);
      NodeStable(p3, p4, counterInit);
      err, id := MakeSeq([limitInit, counterInit, loop]);
      if err != Ok { return err, 0; }
      NodeStable(p4, P(), limitInit);
      NodeStable(p4, P(), counterInit);
      PrefixChain(p2, p4, P());
      PrefixChain(p3, p4, P());
      PrefixChain(p, p3, P());
      LiteralStable(p2, P(), zero, IntLiteral(0));
      LoopStable(p4, P(), loop, index, body, limit, counter);
    }

    method EmitLoop(index: Option<nat>, body: nat, limit: nat, counter: nat) returns (err: Error, id: nat)
      requires Valid() && body < |nodes|
      modifies this`literals, this`nodes, this`links
      ensures err == Ok ==> Valid() && Prefix(old(P()), P()) && id < |nodes| && RepeatLoopAt(P(), id, index, body, limit, counter)
      ensures Answered(err, true, old(Free()), 19)
    {
      hide Free, Valid, RoundAt, Formed, Prefix;
      ghost var p := P();
      var test, round;
      err, test := EmitTest(limit, counter);
      if err != Ok { return err, 0; }
      ghost var p1 := P();
      PrefixInside(p, p1, body);
      err, round := EmitRound(index, body, counter);
      if err != Ok { return err, 0; }
      ghost var p2 := P();
      PrefixChain(p, p1, p2);
      PrefixInside(p1, p2, test);
      WhileFormed(p2, test, round);
      err, id := AddNode(While(test, round));
      if err == Ok {
        OneMore(p2, P());
        PrefixChain(p, p2, P());
        PrefixChain(p1, p2, P());
        CompareStable(p1, P(), test, limit, counter);
        RoundAtStable(p2, P(), round, index, body, counter);
      }
    }

    method EmitTest(limit: nat, counter: nat) returns (err: Error, id: nat)
      requires Valid()
      modifies this`nodes, this`links
      ensures err == Ok ==> Valid() && Prefix(old(P()), P()) && id < |nodes| && CompareAt(P(), id, limit, counter)
      ensures Answered(err, true, old(Free()), 5)
    {
      hide Free, WellFormed, EnvOf, Image.Linking, Image.LiteralsReady;
      var x, y;
      err, x := AddNode(ReadLocal(counter));
      if err != Ok { return err, 0; }
      err, y := AddNode(ReadLocal(limit));
      if err != Ok { return err, 0; }
      err, id := MakeBuiltin(Lt, [x, y]);
    }

    /** The loop's body: copy the counter to the index, run the body, bump the counter. */
    method EmitRound(index: Option<nat>, body: nat, counter: nat) returns (err: Error, id: nat)
      requires Valid() && body < |nodes|
      modifies this`literals, this`nodes, this`links
      ensures err == Ok ==> Valid() && Prefix(old(P()), P()) && id < |nodes| && RoundAt(P(), id, index, body, counter)
      ensures Answered(err, true, old(Free()), 13)
    {
      hide Free, Valid, CounterBump, IndexCopy, Prefix, SeqAt, Part;
      ghost var p := P();
      var copy, bump;
      copy := 0;
      if index.Some? {
        err, copy := EmitCopy(index.value, counter);
        if err != Ok { return err, 0; }
      } else {
        OneMore(p, p);
      }
      ghost var p1 := P();
      err, bump := EmitBump(counter);
      if err != Ok { return err, 0; }
      ghost var p2 := P();
      PrefixChain(p, p1, p2);
      PrefixInside(p, p2, body);
      if index.Some? {
        PrefixInside(p1, p2, copy);
        err, id := MakeSeq([copy, body, bump]);
        if err != Ok { return err, 0; }
        PrefixChain(p1, p2, P());
        CopyStable(p1, P(), copy, index.value, counter);
      } else {
        err, id := MakeSeq([body, bump]);
        if err != Ok { return err, 0; }
      }
      PrefixChain(p, p2, P());
      BumpStable(p2, P(), bump, counter);
    }

    method EmitCopy(index: nat, counter: nat) returns (err: Error, id: nat)
      requires Valid()
      modifies this`nodes
      ensures err == Ok ==> Valid() && Prefix(old(P()), P()) && id < |nodes| && IndexCopy(P(), id, index, counter)
      ensures Answered(err, true, old(Free()), 2)
    {
      hide Free, WellFormed, EnvOf, Image.Linking, Image.LiteralsReady;
      var x;
      err, x := AddNode(ReadLocal(counter));
      if err != Ok { return err, 0; }
      err, id := AddNode(WriteLocal(index, x));
    }

    method EmitBump(counter: nat) returns (err: Error, id: nat)
      requires Valid()
      modifies this`literals, this`nodes, this`links
      ensures err == Ok ==> Valid() && Prefix(old(P()), P()) && id < |nodes| && CounterBump(P(), id, counter)
      ensures Answered(err, true, old(Free()), 7)
    {
      hide Free, WellFormed, EnvOf, Image.Linking, Image.LiteralsReady;
      var one, x, sum;
      err, one := MakeLiteral(IntLiteral(1));
      if err != Ok { return err, 0; }
      err, x := AddNode(ReadLocal(counter));
      if err != Ok { return err, 0; }
      ghost var p1 := P();
      err, sum := MakeBuiltin(Add, [x, one]);
      if err != Ok { return err, 0; }
      ghost var p2 := P();
      assert Arg(p2, sum, 0) == [x, one][0] && Arg(p2, sum, 1) == [x, one][1];
      err, id := AddNode(WriteLocal(counter, sum));
      if err == Ok {
        LiteralStable(p1, P(), one, IntLiteral(1));
        NodeStable(p1, P(), x);
        NodeStable(p2, P(), sum);
        assert Arg(P(), sum, 0) == x && Arg(P(), sum, 1) == one;
      }
    }

    // ----- blocks -----

    /** Declares a local: its value is parsed first, and does not see it. */
    method ParseHere(item: Item) returns (err: Error, id: nat)
      requires Valid() && InScope() && item.Here?
      modifies this`literals, this`nodes, this`links, this`bindings, this`scopes, this`frames
      ensures err == Ok ==>
        Grown(Surface.After(old(Names()), item, old(Next())), old(bindings), old(scopes), old(frames), old(P()), UsedItem(item))
      ensures err == Ok ==> ItemMeans(old(Names()), item, P(), id, old(Next()))
      ensures Answered(err, AcceptsItem(old(Names()), item, old(Next()), old(Here())), old(Free()), ItemWeight(item))
      ensures err == Ok ==> Here() == Named(item, old(Here()))
      decreases ItemWeight(item), 2
    {
      hide Valid, Kept, Free, HereOf, Accepts, AcceptsArgs, AcceptsItem, AcceptsItems, AcceptsClauses, AcceptsElse,
        AcceptsBlock, Means, BlockMeans, EnvOf, Bumped, Prefix, Grown, BuiltinAt, Arg, SeqAt, Part, ItemMeans, Used,
        UsedItem, UsedItems, UsedArgs, UsedClauses, UsedElse, Weight, ItemWeight, ItemsWeight, ArgsWeight,
        ClausesWeight, ElseWeight, Surface.Count, ArgCount, ClauseSpare;
      Framed();
      ItemParts(item);
      ghost var b, s, f, p, env, n := bindings, scopes, frames, P(), Names(), Next();
      AcceptsItemIs(env, item, n, Here());
      var v, index;
      err, v := ParseExpr(item.value);
      if err != Ok { return err, 0; }
      Unpack(b, s, f, p, Used(item.value));
      ghost var p1 := P();
      MeansInside(env, item.value, p1, v, n);
      SameScopeBase(f, Used(item.value));
      err, index := DeclareLocal(item.name);
      if err != Ok { return err, 0; }
      BumpedTwice(f, Used(item.value), 1);
      WriteLocalFormed(p1, index, v);
      Framed();
      err, id := AddNode(WriteLocal(index, v));
      if err == Ok {
        OneMore(p1, P());
        ExtendedGrown(Surface.After(env, item, n), b, s, f, p, UsedItem(item), p1);
        MeansStable(env, item.value, p1, P(), v, n);
        HereMeans(env, item, P(), id, v, n);
      }
    }

    method ParseItem(item: Item) returns (err: Error, id: nat)
      requires Valid() && InScope()
      modifies this`literals, this`nodes, this`links, this`bindings, this`scopes, this`frames
      ensures err == Ok ==>
        Grown(Surface.After(old(Names()), item, old(Next())), old(bindings), old(scopes), old(frames), old(P()), UsedItem(item))
      ensures err == Ok ==> ItemMeans(old(Names()), item, P(), id, old(Next()))
      ensures Answered(err, AcceptsItem(old(Names()), item, old(Next()), old(Here())), old(Free()), ItemWeight(item))
      ensures err == Ok ==> Here() == Named(item, old(Here()))
      decreases ItemWeight(item), 3
    {
      hide Valid, Kept, Free, HereOf, Accepts, AcceptsArgs, AcceptsItem, AcceptsItems, AcceptsClauses, AcceptsElse,
        AcceptsBlock, Means, BlockMeans, EnvOf, Bumped, Prefix, Grown, BuiltinAt, Arg, SeqAt, Part, ItemMeans, Used,
        UsedItem, UsedItems, UsedArgs, UsedClauses, UsedElse, Weight, ItemWeight, ItemsWeight, ArgsWeight,
        ClausesWeight, ElseWeight, Surface.Count, ArgCount, ClauseSpare;
      Framed();
      ItemParts(item);
      ghost var b, s, f, p, env, n := bindings, scopes, frames, P(), Names(), Next();
      AcceptsItemIs(env, item, n, Here());
      match item
      case Do(e) =>
        err, id := ParseExpr(e);
        if err == Ok {
          Unpack(b, s, f, p, Used(e));
          KeptGrown(b, s, f, p, Used(e));
          DoMeans(env, item, P(), id, n);
        }
      case Here(_, _) => err, id := ParseHere(item);
      case Set(_, _) =>
        err, id := ParseSet(item);
        AcceptsItemIs(env, item, n, {});
        if err == Ok {
          Unpack(b, s, f, p, UsedItem(item));
          KeptGrown(b, s, f, p, UsedItem(item));
        }
    }

    /** The place is parsed as an expression first; its node says what kind of place it is. */
    method ParseSet(item: Item) returns (err: Error, id: nat)
      requires Valid() && item.Set?
      modifies this`literals, this`nodes, this`links, this`bindings, this`scopes, this`frames
      ensures err == Ok ==> Kept(old(bindings), old(scopes), old(frames), old(P()), UsedItem(item))
      ensures err == Ok ==> ItemMeans(old(Names()), item, P(), id, old(Next()))
      ensures Answered(err, AcceptsItem(old(Names()), item, old(Next()), {}), old(Free()), ItemWeight(item))
      decreases ItemWeight(item), 2
    {
      hide Valid, Kept, Free, HereOf, Accepts, AcceptsArgs, AcceptsItem, AcceptsItems, AcceptsClauses, AcceptsElse,
        AcceptsBlock, Means, BlockMeans, EnvOf, Bumped, Prefix, Grown, BuiltinAt, Arg, SeqAt, Part, ItemMeans, Formed,
        Used, UsedItem, UsedItems, UsedArgs, UsedClauses, UsedElse, Weight, ItemWeight, ItemsWeight, ArgsWeight,
        ClausesWeight, ElseWeight, Surface.Count, ArgCount, ClauseSpare;
      Framed();
      ItemParts(item);
      ghost var b, s, f, p, env, n := bindings, scopes, frames, P(), Names(), Next();
      AcceptsItemIs(env, item, n, {});
      var place := item.place;
      if !place.Name? && !place.At? && !place.Element? && !place.Member? { return Signature, 0; }
      var q, v;
      err, q, v := ParsePair(item.place, item.value);
      if err != Ok { return err, 0; }
      Unpack(b, s, f, p, UsedItem(item));
      ghost var p1 := P();
      PlaceMeans(env, item.place, p1, q, n);
      ProgramFormed();
      PlaceInside(env, item.place, p1, q, n);
      err, id := WriteTo(nodes[q], v);
      if err == Ok {
        OneMore(p1, P());
        Extended(b, s, f, p, UsedItem(item), p1);
        PlaceStable(env, item.place, p1, P(), q, n);
        MeansStable(env, item.value, p1, P(), v, n + Used(item.place));
        SetMeans(env, item, P(), id, p1.nodes[q], v, n);
      }
    }

    /** The write that goes with the read that a place was parsed as. */
    method WriteTo(place: Node, v: nat) returns (err: Error, id: nat)
      requires Valid() && v < |nodes|
      requires place.ReadLocal? || place.ReadSlot? || place.ReadSlotFallback? || place.SlotDesignator?
        || (place.ReadIndex? && place.base < |nodes| && place.index < |nodes|)
        || (place.ReadField? && place.base < |nodes| && SimpleName(place.field))
      modifies this`nodes
      ensures err == Ok ==> Valid() && nodes == old(nodes) + [WriteNode(place, v)] && id == |old(nodes)|
      ensures Answered(err, true, old(Free()), 1)
    {
      hide Valid, Formed;
      WriteFormed(P(), place, v);
      match place {
        case ReadLocal(i) => err, id := AddNode(WriteLocal(i, v));
        case ReadSlot(name) => err, id := AddNode(WriteSlot(name, v, true));
        case ReadSlotFallback(primary, fallback) => err, id := AddNode(WriteSlotFallback(primary, fallback, v, true));
        case SlotDesignator(name) => err, id := AddNode(WriteSlotFallback(name, name, v, true));
        case ReadIndex(base, index) => err, id := AddNode(WriteIndex(base, index, v));
        case ReadField(base, field) => err, id := AddNode(WriteField(base, field, v));
      }
    }

    method ParseItems(items: Items) returns (err: Error, ids: seq<nat>)
      requires Valid() && InScope()
      modifies this`literals, this`nodes, this`links, this`bindings, this`scopes, this`frames
      ensures err == Ok ==>
        Grown(EnvAfter(old(Names()), items, old(Next())), old(bindings), old(scopes), old(frames), old(P()), UsedItems(items))
      ensures err == Ok ==> ItemIdsMean(old(Names()), items, P(), ids, old(Next())) && forall k | k in ids :: k < |nodes|
      ensures Answered(err, AcceptsItems(old(Names()), items, old(Next()), old(Here())), old(Free()), ItemsWeight(items) - Surface.Count(items) - 3)
      ensures err == Ok ==> |ids| == Count(items)
      decreases ItemsWeight(items), 4
    {
      hide ItemMeans, Valid, Kept, Free, HereOf, Accepts, AcceptsArgs, AcceptsItem, AcceptsItems, AcceptsClauses,
        AcceptsElse, AcceptsBlock, Means, BlockMeans, EnvOf, Bumped, Prefix, Grown, BuiltinAt, Arg, SeqAt, Part, Used,
        UsedItem, UsedItems, UsedArgs, UsedClauses, UsedElse, Weight, ItemWeight, ItemsWeight, ArgsWeight,
        ClausesWeight, ElseWeight, Surface.Count, ArgCount, ClauseSpare;
      Framed();
      ItemsParts(items);
      ghost var b, s, f, p, env, n := bindings, scopes, frames, P(), Names(), Next();
      AcceptsItemsIs(env, items, n, Here());
      if items.NoItems? {
        BumpedTwice(f, 0, 0);
        OneMore(p, p);
        ExtendedGrown(env, b, s, f, p, 0, p);
        return Ok, [];
      }
      var id, rest;
      err, id := ParseItem(items.head);
      if err != Ok { return err, []; }
      var head := items.head;
      UnpackGrown(Surface.After(env, head, n), b, s, f, p, UsedItem(head));
      ghost var b1, p1 := bindings, P();
      ItemInside(env, head, p1, id, n);
      err, rest := ParseItems(items.tail);
      if err != Ok { return err, []; }
      ghost var last := EnvAfter(env, items, n);
      ChainedGrown(last, b, b1, s, f, p, UsedItem(head), p1, UsedItems(items.tail));
      UnpackGrown(last, b1, s, Bumped(f, UsedItem(head)), p1, UsedItems(items.tail));
      ItemStable(env, head, p1, P(), id, n);
      PrefixInside(p1, P(), id);
      ids := [id] + rest;
      assert ids[1..] == rest;
    }

    method ParseBlockContents(items: Items) returns (err: Error, id: nat)
      requires Valid() && InScope()
      modifies this`literals, this`nodes, this`links, this`bindings, this`scopes, this`frames
      ensures err == Ok ==>
        Grown(EnvAfter(old(Names()), items, old(Next())), old(bindings), old(scopes), old(frames), old(P()), UsedItems(items))
      ensures err == Ok ==> BlockMeans(old(Names()), items, P(), id, old(Next()))
      ensures Answered(err, AcceptsItems(old(Names()), items, old(Next()), old(Here())),
        old(Free()), ItemsWeight(items) - 2)
      decreases ItemsWeight(items), 5
    {
      hide ItemIdsMean, Valid, Kept, Free, HereOf, Accepts, AcceptsArgs, AcceptsItem, AcceptsItems, AcceptsClauses,
        AcceptsElse, AcceptsBlock, Means, BlockMeans, EnvOf, Bumped, Prefix, Grown, BuiltinAt, Arg, SeqAt, Part, Used,
        UsedItem, UsedItems, UsedArgs, UsedClauses, UsedElse, Weight, ItemWeight, ItemsWeight, ArgsWeight,
        ClausesWeight, ElseWeight, Surface.Count, ArgCount, ClauseSpare;
      Framed();
      ghost var b, s, f, p, env, n := bindings, scopes, frames, P(), Names(), Next();
      var ids;
      err, ids := ParseItems(items);
      if err != Ok { return err, 0; }
      ghost var last := EnvAfter(env, items, n);
      UnpackGrown(last, b, s, f, p, UsedItems(items));
      ghost var p1 := P();
      err, id := MakeSeq(ids);
      if err == Ok {
        ExtendedGrown(last, b, s, f, p, UsedItems(items), p1);
        ItemIdsStable(env, items, p1, P(), ids, n);
        BlockIs(env, items, P(), id, ids, n);
      }
    }

    method ParseBlock(items: Items) returns (err: Error, id: nat)
      requires Valid()
      modifies this`literals, this`nodes, this`links, this`bindings, this`scopes, this`frames
      ensures err == Ok ==> Kept(old(bindings), old(scopes), old(frames), old(P()), UsedItems(items))
      ensures err == Ok ==> BlockMeans(old(Names()), items, P(), id, old(Next()))
      ensures Answered(err, AcceptsBlock(old(Names()), items, old(Next())), old(Free()), ItemsWeight(items))
      decreases ItemsWeight(items), 6
    {
      hide Valid, Kept, Free, HereOf, Accepts, AcceptsArgs, AcceptsItem, AcceptsItems, AcceptsClauses, AcceptsElse,
        AcceptsBlock, Means, BlockMeans, EnvOf, Bumped, Prefix, Grown, BuiltinAt, Arg, SeqAt, Part, Used, UsedItem,
        UsedItems, UsedArgs, UsedClauses, UsedElse, Weight, ItemWeight, ItemsWeight, ArgsWeight, ClausesWeight,
        ElseWeight, Surface.Count, ArgCount, ClauseSpare;
      Framed();
      ghost var b, s, f, p, env, n := bindings, scopes, frames, P(), Names(), Next();
      AcceptsElseIs(env, NoElse, items, n);
      err := PushScope();
      if err != Ok { return err, 0; }
      ScopeEntered();
      err, id := ParseBlockContents(items);
      if err != Ok { return err, 0; }
      UnpackGrown(EnvAfter(env, items, n), b, s + [|b|], f, p, UsedItems(items));
      CloseScope(b, s, f, p, UsedItems(items));
    }

    lemma ScopeEntered()
      requires Valid() && scopes != [] && frames[|frames| - 1].scopeBase < |scopes|
      ensures InScope()
    {
    }

    /** Leaves the innermost scope: the bindings are those from before it was entered. */
    method CloseScope(ghost b: seq<Binding>, ghost s: seq<nat>, ghost f: seq<FnFrame>, ghost p: Program, ghost k: nat)
      requires Valid() && f != [] && scopes == s + [|b|] && b <= bindings && frames == Bumped(f, k) && Prefix(p, P())
      requires f[|f| - 1].scopeBase <= |s| && forall x | x in b :: x.scope < |s|
      modifies this`scopes, this`bindings
      ensures Kept(b, s, f, p, k)
      ensures Free() >= old(Free())
    {
      hide EnvOf;
      PopScope();
      assert bindings == b && scopes == s;
      SameFrameEnv(b, f[|f| - 1], parts, f[|f| - 1].next + k);
    }

    // ----- top-level forms -----

    /** Writes a slot under the active prefix; it need not exist. */
    method MakeDefinition(name: string, value: nat) returns (err: Error, id: nat)
      requires Valid() && value < |nodes|
      modifies this`nodes
      ensures err == Ok ==> Valid() && Prefix(old(P()), P()) && id < |nodes|
      ensures err == Ok ==> NodeAt(P(), id, WriteSlot(Join(prefix, name), value, false)) && Spells(Join(prefix, name), parts + [name])
      ensures Answered(err, true, old(Free()), 1)
    {
      hide Free, WellFormed, EnvOf, Image.Linking, Image.LiteralsReady, Join, JoinedAs, Spells;
      JoinedNext(prefix, parts, name);
      err, id := AddNode(WriteSlot(Join(prefix, name), value, false));
    }

    method ParseForm(form: Form) returns (err: Error, id: nat)
      requires Valid()
      modifies this`literals, this`nodes, this`links, this`bindings, this`scopes, this`frames, this`prefix, this`parts
      ensures err == Ok ==> Kept(old(bindings), old(scopes), old(frames), old(P()), UsedForm(form)) && prefix == old(prefix) && parts == old(parts)
      ensures err == Ok ==> id < |nodes| && FormMeans(old(Names()), form, P(), id, old(Next()))
      ensures Answered(err, AcceptsForm(old(Names()), form, old(Next())), old(Free()), FormWeight(form))
      decreases FormWeight(form), 2
    {
      hide Valid, Kept, Free, HereOf, Accepts, AcceptsArgs, AcceptsItem, AcceptsItems, AcceptsClauses, AcceptsElse,
        AcceptsBlock, Means, BlockMeans, EnvOf, Bumped, Prefix, Grown, BuiltinAt, Arg, SeqAt, Part, FormMeans,
        ItemMeans;
      Framed();
      ghost var b, s, f, p, env, n := bindings, scopes, frames, P(), Names(), Next();
      match form
      case BindForm(_, _) => err, id := ParseBind(form);
      case CellsForm(_, _) => err, id := ParseCells(form);
      case RecordForm(_, _) => err, id := ParseRecord(form);
      case InForm(_, _) => err, id := ParseIn(form);
      case SetForm(place, value) =>
        err, id := ParseSet(Set(place, value));
        if err == Ok {
          Unpack(b, s, f, p, UsedForm(form));
          ItemInside(env, Set(place, value), P(), id, n);
          SimpleForm(env, form, P(), id, n);
        }
      case ExprForm(e) =>
        err, id := ParseExpr(e);
        if err == Ok {
          Unpack(b, s, f, p, UsedForm(form));
          MeansInside(env, e, P(), id, n);
          SimpleForm(env, form, P(), id, n);
        }
    }

    method ParseBind(form: Form) returns (err: Error, id: nat)
      requires Valid() && form.BindForm?
      modifies this`literals, this`nodes, this`links, this`bindings, this`scopes, this`frames, this`prefix, this`parts
      ensures err == Ok ==> Kept(old(bindings), old(scopes), old(frames), old(P()), UsedForm(form)) && prefix == old(prefix) && parts == old(parts)
      ensures err == Ok ==> id < |nodes| && FormMeans(old(Names()), form, P(), id, old(Next()))
      ensures Answered(err, AcceptsForm(old(Names()), form, old(Next())), old(Free()), FormWeight(form))
      decreases FormWeight(form), 1
    {
      hide Valid, Kept, Free, HereOf, Accepts, AcceptsArgs, AcceptsItem, AcceptsItems, AcceptsClauses, AcceptsElse,
        AcceptsBlock, Means, BlockMeans, EnvOf, Bumped, Prefix, Grown, BuiltinAt, Arg, SeqAt, Part, FormMeans;
      Framed();
      ghost var b, s, f, p, env, n := bindings, scopes, frames, P(), Names(), Next();
      var v;
      err, v := ParseExpr(form.value);
      if err != Ok { return err, 0; }
      Unpack(b, s, f, p, Used(form.value));
      ghost var p1 := P();
      MeansInside(env, form.value, p1, v, n);
      err, id := MakeDefinition(form.name, v);
      if err == Ok {
        Extended(b, s, f, p, UsedForm(form), p1);
        MeansStable(env, form.value, p1, P(), v, n);
        BindMeans(env, form, P(), id, v, n);
      }
    }

    method ParseCells(form: Form) returns (err: Error, id: nat)
      requires Valid() && form.CellsForm?
      modifies this`literals, this`nodes, this`links, this`bindings, this`scopes, this`frames, this`prefix, this`parts
      ensures err == Ok ==> Kept(old(bindings), old(scopes), old(frames), old(P()), UsedForm(form)) && prefix == old(prefix) && parts == old(parts)
      ensures err == Ok ==> id < |nodes| && FormMeans(old(Names()), form, P(), id, old(Next()))
      ensures Answered(err, AcceptsForm(old(Names()), form, old(Next())), old(Free()), FormWeight(form))
      decreases FormWeight(form), 1
    {
      hide Valid, Kept, Free, HereOf, Accepts, AcceptsArgs, AcceptsItem, AcceptsItems, AcceptsClauses, AcceptsElse,
        AcceptsBlock, Means, BlockMeans, EnvOf, Bumped, Prefix, Grown, BuiltinAt, Arg, SeqAt, Part, FormMeans,
        LiteralAt;
      Framed();
      ghost var b, s, f, p, env, n := bindings, scopes, frames, P(), Names(), Next();
      if form.size <= 0 { return Bounds, 0; }
      var size, v;
      err, v, size := MakeCells(form.size);
      if err != Ok { return err, 0; }
      ghost var p2 := P();
      err, id := MakeDefinition(form.name, v);
      if err == Ok {
        BumpedTwice(f, 0, 0);
        Extended(b, s, f, p, 0, p2);
        LiteralStable(p2, P(), size, IntLiteral(form.size));
        BuiltinStable(p2, P(), v, CellsOf, size);
        CellsMeans(env, form, P(), id, v, size, n);
      }
    }

    /** The call that makes `size` cells. */
    method MakeCells(size: Values.Int30) returns (err: Error, v: nat, id: nat)
      requires Valid()
      modifies this`literals, this`nodes, this`links
      ensures err == Ok ==> Valid() && Prefix(old(P()), P()) && v < |nodes|
      ensures err == Ok ==> BuiltinAt(P(), v, CellsOf, 1) && Arg(P(), v, 0) == id && LiteralAt(P(), id, IntLiteral(size))
      ensures Answered(err, true, old(Free()), 4)
    {
      hide Valid, Free, Prefix, BuiltinAt, Arg, LiteralAt;
      ghost var p := P();
      v := 0;
      err, id := MakeLiteral(IntLiteral(size));
      if err != Ok { return; }
      ghost var p1 := P();
      err, v := MakeBuiltin(CellsOf, [id]);
      if err != Ok { return; }
      PrefixChain(p, p1, P());
      LiteralStable(p1, P(), id, IntLiteral(size));
      SizeArg(P(), v, [id]);
    }

    method ParseRecord(form: Form) returns (err: Error, id: nat)
      requires Valid() && form.RecordForm?
      modifies this`literals, this`nodes, this`links, this`bindings, this`scopes, this`frames, this`prefix, this`parts
      ensures err == Ok ==> Kept(old(bindings), old(scopes), old(frames), old(P()), UsedForm(form)) && prefix == old(prefix) && parts == old(parts)
      ensures err == Ok ==> id < |nodes| && FormMeans(old(Names()), form, P(), id, old(Next()))
      ensures Answered(err, AcceptsForm(old(Names()), form, old(Next())), old(Free()), FormWeight(form))
      decreases FormWeight(form), 1
    {
      hide Valid, Kept, Free, HereOf, Accepts, AcceptsArgs, AcceptsItem, AcceptsItems, AcceptsClauses, AcceptsElse,
        AcceptsBlock, Means, BlockMeans, EnvOf, Bumped, Prefix, Grown, BuiltinAt, Arg, SeqAt, Part, FormMeans, RecordAt,
        Formed;
      Framed();
      ghost var b, s, f, p, env, n := bindings, scopes, frames, P(), Names(), Next();
      var ids, v, first;
      if '.' in form.name { return Signature, 0; }
      if form.fields == [] { return Bounds, 0; }
      err, ids := MakeFieldNames(form.fields);
      if err != Ok { return err, 0; }
      ghost var p1 := P();
      err, first := Flush(ids);
      if err != Ok { return err, 0; }
      ghost var p2 := P();
      Linked(p1, p2, ids);
      var name := Join(prefix, form.name);
      FieldsLinked(p1, p2, form.fields, ids, first, name);
      err, v := AppendNode(RecordDefNode(name, first, |ids|));
      if err != Ok { return err, 0; }
      ghost var p3 := P();
      OneMore(p2, p3);
      err, id := MakeDefinition(form.name, v);
      if err == Ok {
        PrefixChain(p, p1, p2);
        PrefixChain(p2, p3, P());
        BumpedTwice(f, 0, 0);
        Extended(b, s, f, p, 0, p2);
        NodeStable(p3, P(), v);
        RecordIs(env, form, p1, p2, P(), id, v, ids, first, n);
      }
    }

    /** One text literal for each field name; a repeated name is refused. */
    method MakeFieldNames(fields: seq<Token>) returns (err: Error, ids: seq<nat>)
      requires Valid()
      modifies this`literals
      ensures err == Ok ==> Valid() && Prefix(old(P()), P()) && |ids| == |fields|
      ensures err == Ok ==> (forall i, j | 0 <= i < j < |fields| :: fields[i] != fields[j])
      ensures err == Ok ==> forall i | 0 <= i < |ids| :: ids[i] < |literals| && literals[ids[i]] == TextLiteral(fields[i])
      ensures Answered(err, Unique(fields) && (forall i :: 0 <= i < |fields| ==> '.' !in fields[i]), old(Free()), |fields|)
    {
      hide Free, Valid, SimpleName;
      ids := [];
      var i := 0;
      while i < |fields|
        invariant i <= |fields| && |ids| == i && Valid() && Prefix(old(P()), P())
        invariant Unique(fields[..i]) && Free() >= old(Free()) - i
        invariant forall j :: 0 <= j < i ==> '.' !in fields[j]
        invariant forall j | 0 <= j < i :: ids[j] < |literals| && literals[ids[j]] == TextLiteral(fields[j])
      {
        UniqueMore(fields, i);
        if fields[i] in fields[..i] || '.' in fields[i] { return Signature, ids; }
        TokenIsSimple(fields[i]);
        var id;
        err, id := AddLiteral(TextLiteral(fields[i]));
        if err != Ok { return; }
        ids := ids + [id];
        i := i + 1;
      }
      assert fields[..i] == fields;
      err := Ok;
    }

    method ParseIn(form: Form) returns (err: Error, id: nat)
      requires Valid() && form.InForm?
      modifies this`literals, this`nodes, this`links, this`bindings, this`scopes, this`frames, this`prefix, this`parts
      ensures err == Ok ==> Kept(old(bindings), old(scopes), old(frames), old(P()), UsedForm(form)) && prefix == old(prefix) && parts == old(parts)
      ensures err == Ok ==> id < |nodes| && FormMeans(old(Names()), form, P(), id, old(Next()))
      ensures Answered(err, AcceptsForm(old(Names()), form, old(Next())), old(Free()), FormWeight(form))
      decreases FormWeight(form), 1
    {
      hide Valid, Kept, Free, HereOf, Accepts, AcceptsArgs, AcceptsItem, AcceptsItems, AcceptsClauses, AcceptsElse,
        AcceptsBlock, Means, BlockMeans, EnvOf, Bumped, Prefix, Grown, BuiltinAt, Arg, SeqAt, Part, FormMeans,
        FormIdsMean, Join, JoinedAs, Spells;
      Framed();
      ghost var b, s, f, p, env, n := bindings, scopes, frames, P(), Names(), Next();
      var ids;
      var outer := prefix;
      ghost var around := parts;
      JoinedNext(outer, around, form.name);
      SetPrefix(Some(Join(outer, form.name)), around + [form.name]);
      PrefixedEnv(b, f[|f| - 1], around, form.name);
      err, ids := ParseForms(form.forms);
      if err != Ok { return err, 0; }
      Unpack(b, s, f, p, UsedForm(form));
      ghost var p1 := P();
      err, id := MakeSeq(ids);
      if err != Ok { return err, 0; }
      SetPrefix(outer, around);
      Extended(b, s, f, p, UsedForm(form), p1);
      FormIdsStable(Prefixed(env, form.name), form.forms, p1, P(), ids, n);
      InMeans(env, form, P(), id, ids, n);
    }

    method SetPrefix(p: Option<string>, ghost names: seq<string>)
      requires Valid() && JoinedAs(p, names)
      modifies this`prefix, this`parts
      ensures Valid() && prefix == p && parts == names
      ensures Free() == old(Free())
    {
      hide WellFormed;
      prefix, parts := p, names;
    }

    /** Inside a prefix block only definitions are allowed. */
    method ParseForms(forms: Forms) returns (err: Error, ids: seq<nat>)
      requires Valid()
      modifies this`literals, this`nodes, this`links, this`bindings, this`scopes, this`frames, this`prefix, this`parts
      ensures err == Ok ==> Kept(old(bindings), old(scopes), old(frames), old(P()), UsedForms(forms)) && prefix == old(prefix) && parts == old(parts)
      ensures err == Ok ==> FormIdsMean(old(Names()), forms, P(), ids, old(Next())) && forall k | k in ids :: k < |nodes|
      ensures Answered(err, AcceptsForms(old(Names()), forms, old(Next())), old(Free()), FormsWeight(forms) - FormCount(forms) - 1)
      ensures err == Ok ==> |ids| == FormCount(forms)
      decreases FormsWeight(forms), 0
    {
      hide Valid, Kept, Free, HereOf, Accepts, AcceptsArgs, AcceptsItem, AcceptsItems, AcceptsClauses, AcceptsElse,
        AcceptsBlock, Means, BlockMeans, EnvOf, Bumped, Prefix, Grown, BuiltinAt, Arg, SeqAt, Part, FormMeans, UsedForm,
        UsedForms, FormWeight, FormsWeight, FormCount;
      Framed();
      FormsParts(forms);
      ghost var b, s, f, p, env, n := bindings, scopes, frames, P(), Names(), Next();
      AcceptsFormsIs(env, forms, n);
      if forms.NoForms? {
        BumpedTwice(f, 0, 0);
        OneMore(p, p);
        Extended(b, s, f, p, 0, p);
        return Ok, [];
      }
      if forms.head.SetForm? || forms.head.ExprForm? { return Signature, []; }
      var x, rest;
      err, x := ParseForm(forms.head);
      if err != Ok { return err, []; }
      Unpack(b, s, f, p, UsedForm(forms.head));
      ghost var p1 := P();
      err, rest := ParseForms(forms.tail);
      if err != Ok { return err, []; }
      Chained(b, s, f, p, UsedForm(forms.head), p1, UsedForms(forms.tail));
      Unpack(b, s, Bumped(f, UsedForm(forms.head)), p1, UsedForms(forms.tail));
      FormStable(env, forms.head, p1, P(), x, n);
      PrefixInside(p1, P(), x);
      ids := [x] + rest;
      assert ids[1..] == rest;
    }
  }

  lemma FindNothing(bindings: seq<Binding>, name: string)
    ensures bindings == [] ==> Find(Pairs(bindings), name) == None
  {
  }

  lemma FindStep(bindings: seq<Binding>, start: nat, i: nat, name: string)
    requires start < i <= |bindings|
    ensures Find(Pairs(bindings[start..i]), name)
         == if bindings[i - 1].name == name then Some(bindings[i - 1].index) else Find(Pairs(bindings[start..i - 1]), name)
  {
    var all := Pairs(bindings[start..i]);
    assert all[..|all| - 1] == Pairs(bindings[start..i - 1]);
  }

  // ----- putting translations together -----

  lemma MeansInside(env: Env, e: Expr, p: Program, id: nat, n: nat)
    requires Means(env, e, p, id, n)
    ensures id < |p.nodes|
  {
  }

  lemma PrefixInside(p: Program, q: Program, id: nat)
    requires Prefix(p, q) && id < |p.nodes|
    ensures id < |q.nodes|
  {
  }

  lemma PrefixChain(p: Program, q: Program, r: Program)
    requires Prefix(p, q) && Prefix(q, r)
    ensures Prefix(p, r)
  {
  }

  lemma UnaryMeans(env: Env, e: Expr, p: Program, id: nat, a: nat, n: nat)
    requires e.Unary? && Means(env, e.operand, p, a, n) && BuiltinAt(p, id, e.op, 1) && Arg(p, id, 0) == a
    ensures Means(env, e, p, id, n)
  {
  }

  lemma BinaryMeans(env: Env, e: Expr, p: Program, id: nat, a: nat, c: nat, n: nat)
    requires e.Binary? && Means(env, e.left, p, a, n) && Means(env, e.right, p, c, n + Used(e.left))
    requires BuiltinAt(p, id, e.op, 2) && Arg(p, id, 0) == a && Arg(p, id, 1) == c
    ensures Means(env, e, p, id, n)
  {
  }

  lemma DoMeans(env: Env, item: Item, p: Program, id: nat, n: nat)
    requires item.Do? && Means(env, item.e, p, id, n)
    ensures ItemMeans(env, item, p, id, n) && Surface.After(env, item, n) == env && UsedItem(item) == Used(item.e)
  {
    MeansInside(env, item.e, p, id, n);
  }

  lemma HereMeans(env: Env, item: Item, p: Program, id: nat, v: nat, n: nat)
    requires item.Here? && Means(env, item.value, p, v, n)
    requires id < |p.nodes| && p.nodes[id] == WriteLocal(n + Used(item.value), v)
    ensures ItemMeans(env, item, p, id, n)
  {
  }

  lemma WriteLocalFormed(p: Program, index: nat, v: nat)
    requires v < |p.nodes|
    ensures Formed(p, WriteLocal(index, v), |p.nodes|)
  {
  }

  lemma OneMore(p: Program, q: Program)
    requires q == p || (exists x :: q == p.(nodes := p.nodes + [x]))
    ensures Prefix(p, q)
  {
  }

  lemma SameScopeBase(f: seq<FnFrame>, k: nat)
    requires f != []
    ensures var g := Bumped(f, k); g != [] && g[|g| - 1].scopeBase == f[|f| - 1].scopeBase
  {
  }

  lemma ItemInside(env: Env, item: Item, p: Program, id: nat, n: nat)
    requires ItemMeans(env, item, p, id, n)
    ensures id < |p.nodes|
  {
  }

  lemma BlockIs(env: Env, items: Items, p: Program, id: nat, ids: seq<nat>, n: nat)
    requires ItemIdsMean(env, items, p, ids, n) && SeqAt(p, id, |ids|)
    requires forall k | 0 <= k < |ids| :: Part(p, id, k) == ids[k]
    ensures BlockMeans(env, items, p, id, n)
  {
    hide ItemIdsMean, ItemsMean;
    var first := p.nodes[id].firstItem;
    assert p.links[first..first + |ids|] == ids;
    ItemsLinked(env, items, p, ids, first, n);
  }

  lemma BlockInside(env: Env, items: Items, p: Program, id: nat, n: nat)
    requires BlockMeans(env, items, p, id, n)
    ensures id < |p.nodes|
  {
  }

  lemma IndexFormed(p: Program, x: nat, y: nat, v: nat)
    requires x < |p.nodes| && y < |p.nodes|
    ensures Formed(p, ReadIndex(x, y), |p.nodes|)
    ensures v < |p.nodes| ==> Formed(p, WriteIndex(x, y, v), |p.nodes|)
  {
  }

  lemma FieldFormed(p: Program, x: nat, field: string, v: nat)
    requires x < |p.nodes| && v < |p.nodes| && SimpleName(field)
    ensures Formed(p, ReadField(x, field), |p.nodes|) && Formed(p, WriteField(x, field, v), |p.nodes|)
  {
  }

  lemma IfFormed(p: Program, x: nat, y: nat, z: nat, hasElse: bool)
    requires x < |p.nodes| && y < |p.nodes| && (if hasElse then z < |p.nodes| else z == NODE_INVALID)
    ensures Formed(p, If(x, y, z, hasElse), |p.nodes|)
  {
  }

  lemma WhileFormed(p: Program, x: nat, y: nat)
    requires x < |p.nodes| && y < |p.nodes|
    ensures Formed(p, While(x, y), |p.nodes|)
  {
  }

  lemma CallFormed(p: Program, x: nat, first: nat, ids: seq<nat>)
    requires x < |p.nodes| && first + |ids| == |p.links| && p.links[first..] == ids && forall k | k in ids :: k < |p.nodes|
    ensures Formed(p, Call(NoBuiltin, x, first, |ids|), |p.nodes|)
  {
    assert forall k | first <= k < first + |ids| :: p.links[k] == p.links[first..][k - first] && p.links[first..][k - first] in ids;
  }

  lemma BuiltinFormed(p: Program, op: Builtin, first: nat, args: seq<nat>)
    requires op != NoBuiltin && first + |args| == |p.links| && p.links[first..] == args && forall k | k in args :: k < |p.nodes|
    ensures Formed(p, Call(op, NODE_INVALID, first, |args|), |p.nodes|)
  {
    assert forall k | first <= k < first + |args| :: p.links[k] == p.links[first..][k - first] && p.links[first..][k - first] in args;
  }

  /** Links appended to a program. */
  lemma Linked(p: Program, q: Program, ids: seq<nat>)
    requires q == p.(links := p.links + ids)
    ensures Prefix(p, q) && |p.links| + |ids| == |q.links| && q.links[|p.links|..] == ids
  {
  }

  lemma BuiltinStable(p: Program, q: Program, id: nat, op: Builtin, x: nat)
    requires BuiltinAt(p, id, op, 1) && Arg(p, id, 0) == x && Prefix(p, q)
    ensures BuiltinAt(q, id, op, 1) && Arg(q, id, 0) == x
  {
  }

  lemma ElementMeans(env: Env, e: Expr, p: Program, id: nat, x: nat, y: nat, n: nat)
    requires e.Element? && Means(env, e.base, p, x, n) && Means(env, e.position, p, y, n + Used(e.base))
    requires NodeAt(p, id, ReadIndex(x, y))
    ensures Means(env, e, p, id, n)
  {
  }

  lemma MemberMeans(env: Env, e: Expr, p: Program, id: nat, x: nat, n: nat)
    requires e.Member? && Means(env, e.base, p, x, n) && NodeAt(p, id, ReadField(x, e.field))
    ensures Means(env, e, p, id, n)
  {
  }

  lemma ApplyMeans(env: Env, e: Expr, p: Program, id: nat, x: nat, first: nat, ids: seq<nat>, n: nat)
    requires e.Apply? && Means(env, e.callee, p, x, n) && ArgIdsMean(env, e.args, p, ids, n + Used(e.callee))
    requires NodeAt(p, id, Call(NoBuiltin, x, first, |ids|)) && first + |ids| == |p.links| && p.links[first..] == ids
    ensures Means(env, e, p, id, n)
  {
    hide ArgIdsMean, ArgsMean;
    assert p.links[first..first + |ids|] == ids;
    ArgsLinked(env, e.args, p, ids, first, n + Used(e.callee));
  }

  lemma ChoiceMeans(env: Env, e: Expr, p: Program, id: nat, x: nat, y: nat, z: nat, n: nat)
    requires e.Choice? && Means(env, e.condition, p, x, n) && BlockMeans(env, e.yes, p, y, n + Used(e.condition))
    requires e.otherwise.Else? ==> BlockMeans(env, e.otherwise.items, p, z, n + Used(e.condition) + UsedItems(e.yes))
    requires NodeAt(p, id, If(x, y, z, e.otherwise.Else?))
    ensures Means(env, e, p, id, n)
  {
    hide BlockMeans;
  }

  /** The condition and the first block were emitted by `p1`, the other block by `p2`. */
  lemma ChoiceIs(env: Env, e: Expr, p1: Program, p2: Program, p: Program, id: nat, x: nat, y: nat, z: nat, n: nat)
    requires e.Choice? && Prefix(p1, p2) && p == p2.(nodes := p2.nodes + [If(x, y, z, e.otherwise.Else?)]) && id == |p2.nodes|
    requires Means(env, e.condition, p1, x, n) && BlockMeans(env, e.yes, p1, y, n + Used(e.condition))
    requires e.otherwise.Else? ==> BlockMeans(env, e.otherwise.items, p2, z, n + Used(e.condition) + UsedItems(e.yes))
    ensures Means(env, e, p, id, n) && Prefix(p2, p)
  {
    hide Means, BlockMeans, Prefix;
    OneMore(p2, p);
    PrefixChain(p1, p2, p);
    MeansStable(env, e.condition, p1, p, x, n);
    BlockStable(env, e.yes, p1, p, y, n + Used(e.condition));
    if e.otherwise.Else? { BlockStable(env, e.otherwise.items, p2, p, z, n + Used(e.condition) + UsedItems(e.yes)); }
    ChoiceMeans(env, e, p, id, x, y, z, n);
  }

  /** The callee was emitted by `p1`, the arguments by `p2`. */
  lemma ApplyIs(env: Env, e: Expr, p1: Program, p2: Program, p: Program, id: nat, x: nat, ids: seq<nat>, n: nat)
    requires Prefix(p1, p2) && Prefix(p2, p) && NodeAt(p, id, Call(NoBuiltin, x, |p2.links|, |ids|))
    requires |p.links| == |p2.links| + |ids| && p.links[|p2.links|..] == ids
    requires e.Apply? && Means(env, e.callee, p1, x, n) && ArgIdsMean(env, e.args, p2, ids, n + Used(e.callee))
    ensures Means(env, e, p, id, n)
  {
    hide Means, ArgIdsMean, Prefix;
    PrefixChain(p1, p2, p);
    MeansStable(env, e.callee, p1, p, x, n);
    ArgIdsStable(env, e.args, p2, p, ids, n + Used(e.callee));
    ApplyMeans(env, e, p, id, x, |p2.links|, ids, n);
  }

  lemma LoopMeans(env: Env, e: Expr, p: Program, id: nat, x: nat, y: nat, n: nat)
    requires e.Loop? && Means(env, e.condition, p, x, n) && BlockMeans(env, e.body, p, y, n + Used(e.condition))
    requires NodeAt(p, id, While(x, y))
    ensures Means(env, e, p, id, n)
  {
    hide BlockMeans;
  }

  /** Node `id` negates what the condition yields. */
  ghost predicate NotAt(env: Env, c: Expr, p: Program, id: nat, n: nat) {
    BuiltinAt(p, id, Not, 1) && Means(env, c, p, Arg(p, id, 0), n)
  }

  lemma NegationIs(env: Env, c: Expr, p: Program, id: nat, args: seq<nat>, n: nat)
    requires |args| == 1 && BuiltinAt(p, id, Not, 1) && (forall k | 0 <= k < 1 :: Arg(p, id, k) == args[k]) && Means(env, c, p, args[0], n)
    ensures NotAt(env, c, p, id, n)
  {
    hide Means;
  }

  lemma NotStable(env: Env, c: Expr, p: Program, q: Program, id: nat, n: nat)
    requires NotAt(env, c, p, id, n) && Prefix(p, q)
    ensures NotAt(env, c, q, id, n) && id < |p.nodes|
  {
    hide Means;
    MeansStable(env, c, p, q, Arg(p, id, 0), n);
  }

  /** The negation was emitted by `p2` and the block by `p3`. */
  lemma UnlessMeans(env: Env, e: Expr, p2: Program, p3: Program, p: Program, id: nat, negated: nat, y: nat, n: nat)
    requires Prefix(p2, p3) && p == p3.(nodes := p3.nodes + [If(negated, y, NODE_INVALID, false)]) && id == |p3.nodes|
    requires e.Unless? && NotAt(env, e.condition, p2, negated, n) && BlockMeans(env, e.body, p3, y, n + Used(e.condition))
    ensures Means(env, e, p, id, n) && Prefix(p3, p)
  {
    hide BlockMeans, Prefix, BuiltinAt, Arg;
    OneMore(p3, p);
    PrefixChain(p2, p3, p);
    NotStable(env, e.condition, p2, p, negated, n);
    BlockStable(env, e.body, p3, p, y, n + Used(e.condition));
  }

  /** The write that goes with a read. */
  function WriteNode(place: Node, v: nat): Node {
    match place
    case ReadLocal(i) => WriteLocal(i, v)
    case ReadSlot(name) => WriteSlot(name, v, true)
    case ReadSlotFallback(primary, fallback) => WriteSlotFallback(primary, fallback, v, true)
    case SlotDesignator(name) => WriteSlotFallback(name, name, v, true)
    case ReadIndex(base, index) => WriteIndex(base, index, v)
    case ReadField(base, field) => WriteField(base, field, v)
    case _ => place
  }

  lemma WriteFormed(p: Program, place: Node, v: nat)
    requires v < |p.nodes|
    requires place.ReadLocal? || place.ReadSlot? || place.ReadSlotFallback? || place.SlotDesignator?
      || (place.ReadIndex? && place.base < |p.nodes| && place.index < |p.nodes|)
      || (place.ReadField? && place.base < |p.nodes| && SimpleName(place.field))
    ensures Formed(p, WriteNode(place, v), |p.nodes|)
  {
    hide SimpleName, Locals.LocalsBelow;
  }

  /** The node of an expression used as a place. */
  ghost predicate PlaceNode(env: Env, place: Expr, p: Program, node: Node, n: nat) {
    match place
    case Name(x) =>
      (match Surface.Resolve(env, x)
       case Local(i) => node == ReadLocal(i)
       case Global => ReadsGlobal(env, x, node)
       case Captured => false)
    case At(x) => node == SlotDesignator(x)
    case Element(b, i) => node.ReadIndex? && Means(env, b, p, node.base, n) && Means(env, i, p, node.index, n + Used(b))
    case Member(b, f) => node.ReadField? && node.field == f && Means(env, b, p, node.base, n)
    case _ => false
  }

  lemma PlaceMeans(env: Env, place: Expr, p: Program, id: nat, n: nat)
    requires IsPlace(place) && Means(env, place, p, id, n)
    ensures id < |p.nodes| && PlaceNode(env, place, p, p.nodes[id], n)
  {
  }

  lemma PlaceInside(env: Env, place: Expr, p: Program, id: nat, n: nat)
    requires id < |p.nodes| && PlaceNode(env, place, p, p.nodes[id], n) && WellFormed(p)
    ensures var x := p.nodes[id];
      x.ReadLocal? || x.ReadSlot? || x.ReadSlotFallback? || x.SlotDesignator?
      || (x.ReadIndex? && x.base < |p.nodes| && x.index < |p.nodes|)
      || (x.ReadField? && x.base < |p.nodes| && SimpleName(x.field))
  {
    hide Means, Surface.Resolve, SimpleName, Locals.LocalsBelow;
    assert Formed(p, p.nodes[id], id);
  }

  lemma PlaceStable(env: Env, place: Expr, p: Program, q: Program, id: nat, n: nat)
    requires Prefix(p, q) && id < |p.nodes| && PlaceNode(env, place, p, p.nodes[id], n)
    ensures PlaceNode(env, place, q, p.nodes[id], n)
  {
    hide Means, Surface.Resolve, Prefix;
    var x := p.nodes[id];
    match place
    case Element(b, i) =>
      MeansStable(env, b, p, q, x.base, n);
      MeansStable(env, i, p, q, x.index, n + Used(b));
    case Member(b, _) => MeansStable(env, b, p, q, x.base, n);
    case _ =>
  }

  lemma SetMeans(env: Env, item: Item, p: Program, id: nat, place: Node, v: nat, n: nat)
    requires item.Set? && PlaceNode(env, item.place, p, place, n) && Means(env, item.value, p, v, n + Used(item.place))
    requires NodeAt(p, id, WriteNode(place, v))
    ensures ItemMeans(env, item, p, id, n)
  {
    hide Means, Surface.Resolve;
  }

  function NamesIn(names: seq<string>): set<string> { set x | x in names }

  /** A list of distinct names stays one when a new name is added, and only then. */
  lemma UniqueMore(names: seq<string>, i: nat)
    requires i < |names| && Unique(names[..i])
    ensures NamesIn(names[..i + 1]) == NamesIn(names[..i]) + {names[i]}
    ensures names[i] in NamesIn(names[..i]) ==> !Unique(names)
    ensures names[i] !in NamesIn(names[..i]) ==> Unique(names[..i + 1])
  {
    assert names[..i + 1] == names[..i] + [names[i]];
    if names[i] in names[..i] {
      var k :| 0 <= k < i && names[..i][k] == names[i];
      assert names[k] == names[i];
    }
    forall j, k | 0 <= j < k < i + 1 && names[i] !in names[..i] ensures names[j] != names[k] {
      assert names[..i][j] == names[j];
      if k < i { assert names[..i][k] == names[k]; }
    }
  }

  lemma FnEnvMore(env: Env, params: seq<string>, i: nat)
    requires i < |params|
    ensures FnEnv(env, params[..i + 1]) == Bind(FnEnv(env, params[..i]), params[i], i)
  {
    assert FnEnv(env, params[..i + 1]).inner == FnEnv(env, params[..i]).inner + [(params[i], i)];
  }

  lemma FnFormed(p: Program, env: Env, params: seq<string>, items: Items, body: nat)
    requires WellFormed(p) && BlockMeans(FnEnv(env, params), items, p, body, |params|)
    ensures Formed(p, Fn(|params|, |params| + UsedItems(items), body), |p.nodes|)
  {
    hide BlockMeans, LocalsBelow, WellFormed;
    WellFormedIsBackward(p);
    BlockInside(FnEnv(env, params), items, p, body, |params|);
    BlockLocals(FnEnv(env, params), items, p, body, |params|, |params| + UsedItems(items));
  }

  lemma LambdaMeans(env: Env, e: Expr, p: Program, id: nat, body: nat, n: nat)
    requires e.Lambda? && BlockMeans(FnEnv(env, e.params), e.body, p, body, |e.params|)
    requires NodeAt(p, id, Fn(|e.params|, |e.params| + UsedItems(e.body), body))
    ensures Means(env, e, p, id, n)
  {
    hide BlockMeans;
  }

  lemma TestStable(env: Env, test: Expr, matching: bool, p: Program, q: Program, id: nat, n: nat)
    requires TestMeans(env, test, matching, p, id, n) && Prefix(p, q)
    ensures TestMeans(env, test, matching, q, id, n)
  {
    hide Means;
    if !matching { MeansStable(env, test, p, q, id, n); }
  }

  lemma LiteralStable(p: Program, q: Program, id: nat, l: Literal)
    requires LiteralAt(p, id, l) && Prefix(p, q)
    ensures LiteralAt(q, id, l) && id < |q.nodes|
  {
  }

  lemma BoolStable(p: Program, q: Program, id: nat, c: nat)
    requires BoolOf(p, id, c) && Prefix(p, q)
    ensures BoolOf(q, id, c)
  {
  }

  lemma ChainMeans(env: Env, e: Expr, p: Program, id: nat, end: nat, n: nat)
    requires e.Cond? && CondMeans(env, e.clauses, p, id, end, n) && id < |p.nodes|
    requires ElseMeans(env, e.otherwise, p, end, n + UsedClauses(e.clauses))
    ensures Means(env, e, p, id, n)
  {
    hide CondMeans, ElseMeans;
    assert CondChainMeans(env, e, p, id, end, n);
  }

  lemma NodeStable(p: Program, q: Program, id: nat)
    requires id < |p.nodes| && Prefix(p, q)
    ensures NodeAt(q, id, p.nodes[id])
  {
  }

  lemma LiteralInside(p: Program, id: nat, l: Literal)
    requires LiteralAt(p, id, l)
    ensures id < |p.nodes|
  {
  }

  /** A comparison of the hidden local with a literal. */
  ghost predicate MatchAt(p: Program, id: nat, hidden: nat, l: Literal) {
    BuiltinAt(p, id, Eq, 2) && NodeAt(p, Arg(p, id, 0), ReadLocal(hidden)) && LiteralAt(p, Arg(p, id, 1), l)
  }

  lemma MatchStable(p: Program, q: Program, id: nat, hidden: nat, l: Literal)
    requires MatchAt(p, id, hidden, l) && Prefix(p, q)
    ensures MatchAt(q, id, hidden, l)
  {
  }

  lemma NoMatches(env: Env, clauses: Clauses, hidden: nat, p: Program, end: nat, n: nat)
    ensures clauses.NoClauses? ==> CaseMeans(env, clauses, hidden, p, end, end, n)
  {
  }

  lemma MatchStep(env: Env, clauses: Clauses, hidden: nat, p: Program, id: nat, condition: nat, body: nat, chain: nat, end: nat, n: nat)
    requires clauses.MoreClauses? && IsLiteral(clauses.test) && NodeAt(p, id, If(condition, body, chain, true))
    requires MatchAt(p, condition, hidden, LiteralOf(clauses.test))
    requires BlockMeans(env, clauses.body, p, body, n + Used(clauses.test))
    requires CaseMeans(env, clauses.tail, hidden, p, chain, end, n + Used(clauses.test) + UsedItems(clauses.body))
    ensures CaseMeans(env, clauses, hidden, p, id, end, n)
  {
    hide BlockMeans;
  }

  /** The scrutinee was emitted by `p1`, the clauses by `p2`. */
  lemma CaseIs(env: Env, e: Expr, p1: Program, p2: Program, p: Program, id: nat, x: nat, init: nat, chain: nat, end: nat, hidden: nat, n: nat)
    requires e.Case? && hidden == n + Used(e.scrutinee) + UsedClauses(e.clauses) + UsedElse(e.otherwise)
    requires SeqAt(p, id, 2) && Part(p, id, 0) == init && Part(p, id, 1) == chain
    requires Prefix(p1, p2) && Prefix(p2, p)
    requires NodeAt(p, init, WriteLocal(hidden, x)) && Means(env, e.scrutinee, p1, x, n)
    requires CaseMeans(env, e.clauses, hidden, p, chain, end, n + Used(e.scrutinee))
    requires ElseMeans(env, e.otherwise, p2, end, n + Used(e.scrutinee) + UsedClauses(e.clauses))
    ensures Means(env, e, p, id, n)
  {
    hide CaseMeans, ElseMeans, Prefix;
    PrefixChain(p1, p2, p);
    MeansStable(env, e.scrutinee, p1, p, x, n);
    ElseStable(env, e.otherwise, p2, p, end, n + Used(e.scrutinee) + UsedClauses(e.clauses));
    assert CaseChainMeans(env, e, p, id, end, n);
  }

  lemma LoopStable(p: Program, q: Program, id: nat, index: Option<nat>, body: nat, limit: nat, counter: nat)
    requires RepeatLoopAt(p, id, index, body, limit, counter) && Prefix(p, q)
    ensures RepeatLoopAt(q, id, index, body, limit, counter)
  {
    hide RoundAt;
    RoundAtStable(p, q, p.nodes[id].body, index, body, counter);
  }

  /** The test of the loop that `repeat` becomes. */
  ghost predicate CompareAt(p: Program, id: nat, limit: nat, counter: nat) {
    BuiltinAt(p, id, Lt, 2) && NodeAt(p, Arg(p, id, 0), ReadLocal(counter)) && NodeAt(p, Arg(p, id, 1), ReadLocal(limit))
  }

  lemma CompareStable(p: Program, q: Program, id: nat, limit: nat, counter: nat)
    requires CompareAt(p, id, limit, counter) && Prefix(p, q)
    ensures CompareAt(q, id, limit, counter)
  {
  }

  lemma CopyStable(p: Program, q: Program, id: nat, index: nat, counter: nat)
    requires IndexCopy(p, id, index, counter) && Prefix(p, q)
    ensures IndexCopy(q, id, index, counter)
  {
  }

  lemma BumpStable(p: Program, q: Program, id: nat, counter: nat)
    requires CounterBump(p, id, counter) && Prefix(p, q)
    ensures CounterBump(q, id, counter)
  {
  }

  /** The count was emitted by `p1`, the body by `p2`. */
  lemma RepeatIs(env: Env, e: Expr, p1: Program, p2: Program, p: Program, id: nat, c: nat, body: nat, n: nat)
    requires e.Repeat? && id < |p.nodes| && Means(env, e.count, p1, c, n) && Prefix(p1, p2) && Prefix(p2, p)
    requires var m := n + Used(e.count);
      var limit := m + Hidden(e.index) + UsedItems(e.body);
      && RepeatAt(p, id, c, IndexLocal(e.index, m), body, limit, limit + 1)
      && BlockMeans(IndexEnv(env, e.index, m), e.body, p2, body, m + Hidden(e.index))
    ensures Means(env, e, p, id, n)
  {
    hide RepeatAt, BlockMeans, IndexEnv, Prefix;
    var m := n + Used(e.count);
    PrefixChain(p1, p2, p);
    MeansStable(env, e.count, p1, p, c, n);
    BlockStable(IndexEnv(env, e.index, m), e.body, p2, p, body, m + Hidden(e.index));
    assert RepeatMeans(env, e, p, id, c, body, n);
  }

  // ----- top-level forms -----

  lemma SimpleForm(env: Env, form: Form, p: Program, id: nat, n: nat)
    requires form.SetForm? || form.ExprForm?
    requires form.SetForm? ==> ItemMeans(env, Set(form.place, form.value), p, id, n)
    requires form.ExprForm? ==> Means(env, form.e, p, id, n)
    ensures FormMeans(env, form, p, id, n)
  {
    hide ItemMeans, Means;
  }

  lemma BindMeans(env: Env, form: Form, p: Program, id: nat, v: nat, n: nat)
    requires form.BindForm? && Means(env, form.value, p, v, n) && DefinesAt(env, form.name, p, id) && p.nodes[id].value == v
    ensures FormMeans(env, form, p, id, n)
  {
    hide Means;
  }

  lemma CellsMeans(env: Env, form: Form, p: Program, id: nat, v: nat, size: nat, n: nat)
    requires form.CellsForm? && form.size > 0 && DefinesAt(env, form.name, p, id) && p.nodes[id].value == v
    requires BuiltinAt(p, v, CellsOf, 1) && Arg(p, v, 0) == size && LiteralAt(p, size, IntLiteral(form.size))
    ensures FormMeans(env, form, p, id, n)
  {
  }

  lemma SizeArg(p: Program, v: nat, args: seq<nat>)
    requires |args| == 1 && BuiltinAt(p, v, CellsOf, 1) && forall k | 0 <= k < 1 :: Arg(p, v, k) == args[k]
    ensures Arg(p, v, 0) == args[0]
  {
  }

  lemma FieldsLinked(p: Program, q: Program, fields: seq<string>, ids: seq<nat>, first: nat, name: string)
    requires |ids| == |fields| > 0 && q == p.(links := p.links + ids) && first == |p.links|
    requires forall i | 0 <= i < |ids| :: ids[i] < |p.literals| && p.literals[ids[i]] == TextLiteral(fields[i])
    ensures Formed(q, RecordDefNode(name, first, |ids|), |q.nodes|)
    ensures forall i | 0 <= i < |fields| ::
      q.links[first + i] < |q.literals| && q.literals[q.links[first + i]] == TextLiteral(fields[i])
  {
    hide LocalsBelow;
    assert forall i | 0 <= i < |ids| :: q.links[first + i] == ids[i];
    forall k | first <= k < first + |ids| ensures q.links[k] < |q.literals| && q.literals[q.links[k]].TextLiteral? {
      assert q.links[first + (k - first)] == ids[k - first];
    }
  }

  lemma RecordIs(env: Env, form: Form, p1: Program, p2: Program, p: Program, id: nat, v: nat, ids: seq<nat>, first: nat, n: nat)
    requires form.RecordForm? && DefinesAt(env, form.name, p, id) && p.nodes[id].value == v && Prefix(p2, p)
    requires NodeAt(p, v, RecordDefNode(p.nodes[id].name, first, |form.fields|)) && form.fields != []
    requires forall i, j | 0 <= i < j < |form.fields| :: form.fields[i] != form.fields[j]
    requires first + |form.fields| <= |p2.links|
    requires forall i | 0 <= i < |form.fields| ::
      p2.links[first + i] < |p2.literals| && p2.literals[p2.links[first + i]] == TextLiteral(form.fields[i])
    ensures FormMeans(env, form, p, id, n)
  {
    assert forall k | first <= k < first + |form.fields| :: p.links[k] == p2.links[k];
    assert RecordAt(p, v, p.nodes[id].name, form.fields);
  }

  lemma PrefixedEnv(b: seq<Binding>, frame: FnFrame, parts: seq<string>, name: string)
    ensures EnvOf(b, frame, parts + [name]) == Prefixed(EnvOf(b, frame, parts), name)
  {
  }

  lemma InMeans(env: Env, form: Form, p: Program, id: nat, ids: seq<nat>, n: nat)
    requires form.InForm? && FormIdsMean(Prefixed(env, form.name), form.forms, p, ids, n) && SeqAt(p, id, |ids|)
    requires forall k | 0 <= k < |ids| :: Part(p, id, k) == ids[k]
    ensures FormMeans(env, form, p, id, n)
  {
    hide FormIdsMean, FormsMean;
    var first := p.nodes[id].firstItem;
    assert p.links[first..first + |ids|] == ids;
    FormsLinked(Prefixed(env, form.name), form.forms, p, ids, first, n);
  }

  // ----- whole programs -----

  /** Parses one top-level form.  Whatever program comes out is well-formed, its root uses only
      locals the program has, and it means what was written. */
  method ParseTopLevel(form: Form, literalLimit: nat, nodeLimit: nat, linkLimit: nat, bindingLimit: nat, scopeLimit: nat, frameLimit: nat)
    returns (err: Error, program: Program)
    ensures err == Ok ==>
      && WellFormed(program) && program.root < |program.nodes| && program.rootLocalCount == UsedForm(form)
      && Image.LiteralsReady(program) && Image.Linking(program)
      && |program.literals| <= literalLimit && |program.nodes| <= nodeLimit && |program.links| <= linkLimit
      && LocalsBelow(program, program.root, program.rootLocalCount)
      && FormMeans(Env([], [], false, []), form, program, program.root, 0)
    ensures err == Ok ==> AcceptsForm(Env([], [], false, []), form, 0)
    ensures err != Ok ==> err in {OutOfMemory, Signature, Bounds}
    ensures err in {Signature, Bounds} ==> !AcceptsForm(Env([], [], false, []), form, 0)
    ensures err == OutOfMemory ==>
      Min(Min(literalLimit, nodeLimit), Min(linkLimit, bindingLimit)) < FormWeight(form)
      || Min(scopeLimit, frameLimit - 1) < FormWeight(form)
  {
    hide FormMeans, WellFormed, LocalsBelow, Image.LiteralsReady, Image.Linking;
    var parser := new Parser(literalLimit, nodeLimit, linkLimit, bindingLimit, scopeLimit, frameLimit);
    ghost var f := parser.frames;
    var root;
    err, root := parser.ParseForm(form);
    program := Program(parser.literals, parser.nodes, parser.links, root, if parser.frames != [] then parser.frames[|parser.frames| - 1].next else 0);
    if err == Ok {
      SameArrays(parser.P(), program, form, root);
      WellFormedIsBackward(program);
      FormLocals(Env([], [], false, []), form, program, root, 0, UsedForm(form));
    }
  }

  /** Meaning and form depend on the arrays only. */
  lemma SameArrays(p: Program, q: Program, form: Form, id: nat)
    requires WellFormed(p) && Image.LiteralsReady(p) && Image.Linking(p) && FormMeans(Env([], [], false, []), form, p, id, 0)
    requires q.literals == p.literals && q.nodes == p.nodes && q.links == p.links
    ensures WellFormed(q) && Image.LiteralsReady(q) && Image.Linking(q) && FormMeans(Env([], [], false, []), form, q, id, 0)
  {
    hide FormMeans, Formed, Image.LiteralReady;
    FormStable(Env([], [], false, []), form, p, q, id, 0);
    WellFormedGrows(p, q);
  }
}

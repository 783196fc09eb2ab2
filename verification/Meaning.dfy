/**
 What programs compute, said without the functions that the interpreter and the evaluator
 share: integers are compared with the mathematical ones, texts character by character,
 and places, slots and arguments by what is read back from them.
 */
module Meaning {
  import opened Ir
  import opened Values
  import opened Interp
  import opened Runs
  import opened Surface

  // ----- evaluating several nodes -----

  /** The nodes, evaluated in order, yield the values `vs`. */
  ghost predicate Evaluates(p: Program, nodes: seq<nat>, ls: seq<Value>, w: World, vs: seq<Value>, ls2: seq<Value>, w2: World)
    decreases |nodes|
  {
    if nodes == [] then vs == [] && ls2 == ls && w2 == w
    else
      var r := Run(p, nodes[0], ls, w);
      && r.Some? && r.value.Yields? && vs != [] && vs[0] == r.value.value
      && Evaluates(p, nodes[1..], r.value.locals, r.value.world, vs[1..], ls2, w2)
  }

  /** The arguments land in the buffer in order, the first one first. */
  lemma {:induction false} ArgumentsDone(p: Program, first: nat, count: nat, callee: Callee, vc: Value, i: nat, args: seq<Value>,
      ls: seq<Value>, w: World, vs: seq<Value>, ls2: seq<Value>, w2: World)
    requires i <= count <= |args| && first + count <= |p.links|
    requires Evaluates(p, p.links[first + i..first + count], ls, w, vs, ls2, w2)
    ensures |vs| == count - i
    ensures CallRun(p, first, count, callee, vc, i, args, ls, w) == Made(callee, vc, args[..i] + vs + args[count..], ls2, w2)
    decreases count - i
  {
    hide Run, Made;
    var nodes := p.links[first + i..first + count];
    if i == count {
      assert args[..i] + vs + args[count..] == args;
    } else {
      assert nodes[0] == p.links[first + i] && nodes[1..] == p.links[first + (i + 1)..first + count];
      var r := Run(p, nodes[0], ls, w);
      var more := args[i := vs[0]];
      ArgumentsDone(p, first, count, callee, vc, i + 1, more, r.value.locals, r.value.world, vs[1..], ls2, w2);
      assert more[..i + 1] + vs[1..] + more[count..] == args[..i] + vs + args[count..];
    }
  }

  /** Node `n` calls the builtin on nodes that yield `vs`. */
  ghost predicate Operands(p: Program, n: nat, op: Builtin, ls: seq<Value>, w: World, vs: seq<Value>, ls2: seq<Value>, w2: World) {
    && n < |p.nodes| && p.nodes[n].Call? && p.nodes[n].builtin == op && op != NoBuiltin
    && p.nodes[n].firstArg + p.nodes[n].argCount <= |p.links|
    && Evaluates(p, p.links[p.nodes[n].firstArg..p.nodes[n].firstArg + p.nodes[n].argCount], ls, w, vs, ls2, w2)
  }

  lemma OperandsApplied(p: Program, n: nat, op: Builtin, ls: seq<Value>, w: World, vs: seq<Value>, ls2: seq<Value>, w2: World)
    requires Operands(p, n, op, ls, w, vs, ls2, w2)
    ensures Run(p, n, ls, w) == Some(Primitive(BuiltinIn(w2, op, vs), ls2))
  {
    hide Run, Evaluates, CallRun, BuiltinIn;
    var first, count := p.nodes[n].firstArg, p.nodes[n].argCount;
    RunBuiltin(p, n, ls, w);
    ArgumentsDone(p, first, count, BuiltinCallee(op), Nil, 0, Nils(count), ls, w, vs, ls2, w2);
    assert Nils(count)[..0] + vs + Nils(count)[count..] == vs;
  }

  // ----- integers -----

  /** The node yields the number of 30 bits, signed, that is congruent to `exact`. */
  ghost predicate YieldsWrapped(r: Option<Ending>, exact: int, ls: seq<Value>, w: World) {
    && r.Some? && r.value.Yields? && r.value.value.Int? && r.value.locals == ls && r.value.world == w
    && -0x2000_0000 <= r.value.value.n < 0x2000_0000 && (r.value.value.n - exact) % 0x4000_0000 == 0
  }

  lemma Wrapped(raw: int, r: Option<Ending>, ls: seq<Value>, w: World)
    requires r == Some(Yields(Int(WrapInt(raw)), ls, w))
    ensures YieldsWrapped(r, raw, ls, w)
    ensures -0x2000_0000 <= raw < 0x2000_0000 ==> r.value.value.n == raw
  {
    Opposite(raw - WrapInt(raw));
  }

  lemma Opposite(d: int)
    requires d % 0x4000_0000 == 0
    ensures (-d) % 0x4000_0000 == 0
  {
  }

  lemma SumMeaning(p: Program, n: nat, ls: seq<Value>, w: World, x: Int30, y: Int30, ls2: seq<Value>, w2: World)
    requires Operands(p, n, Add, ls, w, [Int(x), Int(y)], ls2, w2)
    ensures YieldsWrapped(Run(p, n, ls, w), x + y, ls2, w2)
  {
    hide Run, Operands, WrapInt, YieldsWrapped;
    OperandsApplied(p, n, Add, ls, w, [Int(x), Int(y)], ls2, w2);
    Wrapped(x + y, Run(p, n, ls, w), ls2, w2);
  }

  lemma DifferenceMeaning(p: Program, n: nat, ls: seq<Value>, w: World, x: Int30, y: Int30, ls2: seq<Value>, w2: World)
    requires Operands(p, n, Sub, ls, w, [Int(x), Int(y)], ls2, w2)
    ensures YieldsWrapped(Run(p, n, ls, w), x - y, ls2, w2)
  {
    hide Run, Operands, WrapInt, YieldsWrapped;
    OperandsApplied(p, n, Sub, ls, w, [Int(x), Int(y)], ls2, w2);
    Wrapped(x - y, Run(p, n, ls, w), ls2, w2);
  }

  lemma ProductMeaning(p: Program, n: nat, ls: seq<Value>, w: World, x: Int30, y: Int30, ls2: seq<Value>, w2: World)
    requires Operands(p, n, Mul, ls, w, [Int(x), Int(y)], ls2, w2)
    ensures YieldsWrapped(Run(p, n, ls, w), x * y, ls2, w2)
  {
    hide Run, Operands, WrapInt, YieldsWrapped;
    OperandsApplied(p, n, Mul, ls, w, [Int(x), Int(y)], ls2, w2);
    Wrapped(x * y, Run(p, n, ls, w), ls2, w2);
  }

  lemma OppositeMeaning(p: Program, n: nat, ls: seq<Value>, w: World, x: Int30, ls2: seq<Value>, w2: World)
    requires Operands(p, n, Negate, ls, w, [Int(x)], ls2, w2)
    ensures YieldsWrapped(Run(p, n, ls, w), 0 - x, ls2, w2)
  {
    hide Run, Operands, WrapInt, YieldsWrapped;
    OperandsApplied(p, n, Negate, ls, w, [Int(x)], ls2, w2);
    Wrapped(0 - x, Run(p, n, ls, w), ls2, w2);
  }

  /** `q` is `x` divided by `y`, rounded toward zero, and `r` is what remains: it is smaller
      than the divisor and has the sign of the dividend. */
  predicate Divides(x: int, y: int, q: int, r: int) {
    && x == q * y + r
    && (if y > 0 then -y < r < y else y < r < -y)
    && (r > 0 ==> x > 0) && (r < 0 ==> x < 0)
  }

  lemma Swapped(q: int, y: int)
    ensures y * q == q * y && y * (-q) == -(q * y) && (-q) * y == -(q * y)
  {
  }

  lemma Euclid(a: nat, y: int)
    requires y != 0
    ensures a == (a / y) * y + a % y && 0 <= a % y && (if y > 0 then a % y < y else a % y < -y)
  {
  }

  lemma RoundDown(x: int, y: int, d: int, m: int)
    requires 0 <= m && (if y > 0 then m < y else m < -y) && x == d * y + m && x >= 0
    ensures Divides(x, y, d, m)
  {
  }

  lemma RoundUp(x: int, y: int, d: int, m: int, e: int)
    requires 0 <= m && (if y > 0 then m < y else m < -y) && -x == d * y + m && x < 0
    requires e * y == -(d * y)
    ensures Divides(x, y, e, -m)
  {
  }

  lemma Truncated(x: int, y: int)
    requires y != 0
    ensures Divides(x, y, TruncDiv(x, y), TruncRem(x, y))
  {
    hide Divides;
    var a := if x >= 0 then x else -x;
    Euclid(a, y);
    Swapped(a / y, y);
    if x >= 0 {
      RoundDown(x, y, a / y, a % y);
    } else {
      RoundUp(x, y, a / y, a % y, -(a / y));
    }
  }

  /** There is only one way to divide. */
  lemma DividesOnce(x: int, y: int, q: int, r: int, q2: int, r2: int)
    requires Divides(x, y, q, r) && Divides(x, y, q2, r2)
    ensures q == q2 && r == r2
  {
    var d, e, m := q - q2, r2 - r, if y > 0 then y else -y;
    assert d * y == q * y - q2 * y;
    assert d * y == e;
    SmallMultiple(d, y, e, m);
  }

  lemma SmallMultiple(d: int, y: int, e: int, m: int)
    requires d * y == e && m == (if y > 0 then y else -y) && -m < e < m
    ensures d == 0
  {
    if d >= 1 {
    } else if d <= -1 {
    }
  }

  /** Division rounds toward zero; only the quotient can wrap. */
  lemma QuotientMeaning(p: Program, n: nat, ls: seq<Value>, w: World, x: Int30, y: Int30, ls2: seq<Value>, w2: World, q: int, r: int)
    requires Operands(p, n, Div, ls, w, [Int(x), Int(y)], ls2, w2)
    requires y != 0 ==> Divides(x, y, q, r)
    ensures if y == 0 then Run(p, n, ls, w) == Some(Fails(DivisionByZero, w2)) else YieldsWrapped(Run(p, n, ls, w), q, ls2, w2)
  {
    hide Run, Operands, WrapInt, YieldsWrapped, TruncDiv, Divides;
    OperandsApplied(p, n, Div, ls, w, [Int(x), Int(y)], ls2, w2);
    if y != 0 {
      Truncated(x, y);
      DividesOnce(x, y, q, r, TruncDiv(x, y), TruncRem(x, y));
      Wrapped(q, Run(p, n, ls, w), ls2, w2);
    }
  }

  lemma RemainderMeaning(p: Program, n: nat, ls: seq<Value>, w: World, x: Int30, y: Int30, ls2: seq<Value>, w2: World, q: int, r: int)
    requires Operands(p, n, Rem, ls, w, [Int(x), Int(y)], ls2, w2)
    requires y != 0 ==> Divides(x, y, q, r)
    ensures if y == 0 then Run(p, n, ls, w) == Some(Fails(DivisionByZero, w2))
      else FitsInt(r) && Run(p, n, ls, w) == Some(Yields(Int(r), ls2, w2))
  {
    hide Run, Operands, TruncRem;
    OperandsApplied(p, n, Rem, ls, w, [Int(x), Int(y)], ls2, w2);
    if y != 0 {
      RemainderSmall(x, y, q, r);
      Truncated(x, y);
      DividesOnce(x, y, q, r, TruncDiv(x, y), TruncRem(x, y));
    }
  }

  lemma RemainderSmall(x: Int30, y: Int30, q: int, r: int)
    requires y != 0 && Divides(x, y, q, r)
    ensures FitsInt(r)
  {
  }

  /** Every pair with a divisor other than zero can be divided. */
  lemma Divisible(x: Int30, y: Int30) returns (q: int, r: int)
    requires y != 0
    ensures Divides(x, y, q, r)
  {
    Truncated(x, y);
    q, r := TruncDiv(x, y), TruncRem(x, y);
  }

  lemma OrderMeaning(p: Program, n: nat, op: Builtin, ls: seq<Value>, w: World, x: Int30, y: Int30, ls2: seq<Value>, w2: World)
    requires op in {Lt, Le, Gt, Ge} && Operands(p, n, op, ls, w, [Int(x), Int(y)], ls2, w2)
    ensures op == Lt ==> Run(p, n, ls, w) == Some(Yields(Bool(x < y), ls2, w2))
    ensures op == Le ==> Run(p, n, ls, w) == Some(Yields(Bool(x <= y), ls2, w2))
    ensures op == Gt ==> Run(p, n, ls, w) == Some(Yields(Bool(y < x), ls2, w2))
    ensures op == Ge ==> Run(p, n, ls, w) == Some(Yields(Bool(y <= x), ls2, w2))
  {
    hide Run, Operands;
    OperandsApplied(p, n, op, ls, w, [Int(x), Int(y)], ls2, w2);
  }

  /** Two operands of these builtins must both be integers. */
  lemma NumbersOnly(p: Program, n: nat, op: Builtin, ls: seq<Value>, w: World, a: Value, b: Value, ls2: seq<Value>, w2: World)
    requires op in {Add, Sub, Mul, Div, Rem, Lt, Le, Gt, Ge} && Operands(p, n, op, ls, w, [a, b], ls2, w2)
    ensures !a.Int? || !b.Int? ==> Run(p, n, ls, w) == Some(Fails(TypeMismatch, w2))
  {
    hide Run, Operands;
    OperandsApplied(p, n, op, ls, w, [a, b], ls2, w2);
  }

  lemma NotMeaning(p: Program, n: nat, ls: seq<Value>, w: World, a: Value, ls2: seq<Value>, w2: World)
    requires Operands(p, n, Not, ls, w, [a], ls2, w2)
    ensures a == Bool(true) ==> Run(p, n, ls, w) == Some(Yields(Bool(false), ls2, w2))
    ensures a == Bool(false) ==> Run(p, n, ls, w) == Some(Yields(Bool(true), ls2, w2))
    ensures !a.Bool? ==> Run(p, n, ls, w) == Some(Fails(TypeMismatch, w2))
  {
    hide Run, Operands;
    OperandsApplied(p, n, Not, ls, w, [a], ls2, w2);
  }

  /** Literals that do not fit are refused; a text is a new object each time. */
  lemma LiteralMeaning(p: Program, n: nat, ls: seq<Value>, w: World, l: Literal)
    requires LiteralAt(p, n, l)
    ensures l == NilLiteral ==> Run(p, n, ls, w) == Some(Yields(Nil, ls, w))
    ensures l.BoolLiteral? ==> Run(p, n, ls, w) == Some(Yields(Bool(l.b), ls, w))
    ensures l.IntLiteral? && -0x2000_0000 <= l.n < 0x2000_0000 ==> Run(p, n, ls, w) == Some(Yields(Int(l.n), ls, w))
    ensures l.IntLiteral? && !(-0x2000_0000 <= l.n < 0x2000_0000) ==> Run(p, n, ls, w) == Some(Fails(ValueOverflow, w))
    ensures l.TextLiteral? ==> Run(p, n, ls, w) == Some(Yields(Obj(|w.heap|), ls, w.(heap := w.heap + [Text(l.text)])))
  {
    hide Run;
    RunLiteral(p, n, ls, w, l);
  }

  // ----- equality -----

  ghost predicate Known(w: World, v: Value) { v.Obj? ==> v.id < |w.heap| }

  ghost predicate IsText(w: World, v: Value) { v.Obj? && v.id < |w.heap| && w.heap[v.id].Text? }

  /** The same characters in the same places. */
  ghost predicate SameText(s: string, t: string) { |s| == |t| && forall k :: 0 <= k < |s| ==> s[k] == t[k] }

  /** Texts are equal by their characters, everything else only to itself. */
  ghost predicate Alike(w: World, a: Value, b: Value) {
    if IsText(w, a) && IsText(w, b) then SameText(w.heap[a.id].text, w.heap[b.id].text) else a == b
  }

  lemma EqualityMeaning(p: Program, n: nat, op: Builtin, ls: seq<Value>, w: World, a: Value, b: Value, ls2: seq<Value>, w2: World)
    requires op in {Eq, Neq} && Operands(p, n, op, ls, w, [a, b], ls2, w2) && Known(w2, a) && Known(w2, b)
    ensures op == Eq ==> Run(p, n, ls, w) == Some(Yields(Bool(Alike(w2, a, b)), ls2, w2))
    ensures op == Neq ==> Run(p, n, ls, w) == Some(Yields(Bool(!Alike(w2, a, b)), ls2, w2))
  {
    hide Run, Operands;
    OperandsApplied(p, n, op, ls, w, [a, b], ls2, w2);
    if IsText(w2, a) && IsText(w2, b) {
      assert SameText(w2.heap[a.id].text, w2.heap[b.id].text) <==> w2.heap[a.id].text == w2.heap[b.id].text;
    }
  }

  /** Fresh cells: as many as asked for, all nil, in an object that was not there. */
  lemma CellsMeaning(p: Program, n: nat, ls: seq<Value>, w: World, x: Int30, ls2: seq<Value>, w2: World)
    requires Operands(p, n, CellsOf, ls, w, [Int(x)], ls2, w2)
    ensures x <= 0 ==> Run(p, n, ls, w) == Some(Fails(Bounds, w2))
    ensures x > 0 ==> var r := Run(p, n, ls, w);
      && r.Some? && r.value.Yields? && r.value.value == Obj(|w2.heap|) && r.value.locals == ls2
      && |r.value.world.heap| == |w2.heap| + 1 && r.value.world.heap[..|w2.heap|] == w2.heap
      && r.value.world.slots == w2.slots
      && r.value.world.heap[|w2.heap|].Cells? && |r.value.world.heap[|w2.heap|].items| == x
      && forall k :: 0 <= k < x ==> r.value.world.heap[|w2.heap|].items[k] == Nil
  {
    hide Run, Operands;
    OperandsApplied(p, n, CellsOf, ls, w, [Int(x)], ls2, w2);
  }

  // ----- slots -----

  ghost predicate SlotNamed(w: World, name: string) { exists k :: 0 <= k < |w.slots| && w.slots[k].name == name }

  /** What a run yields, its world replaced. */
  ghost function Elsewhere(r: Option<Ending>, w: World): Option<Ending> {
    match r
    case Some(Yields(v, ls, _)) => Some(Yields(v, ls, w))
    case Some(Fails(e, _)) => Some(Fails(e, w))
    case other => other
  }

  lemma NamedFound(w: World, name: string)
    ensures SlotNamed(w, name) <==> FindSlot(w.slots, name) < |w.slots|
  {
    if FindSlot(w.slots, name) < |w.slots| {
      assert w.slots[FindSlot(w.slots, name)].name == name;
    }
  }

  lemma RunReadSlot(p: Program, n: nat, ls: seq<Value>, w: World, name: string)
    requires NodeAt(p, n, ReadSlot(name))
    ensures Run(p, n, ls, w) == Some(Primitive(ReadSlotIn(w, name), ls))
  {
    RunAtOnce(p, n, ls, w);
  }

  /** The value of a node that is evaluated before the step that ends its parent. */
  lemma RunWriteSlot(p: Program, n: nat, ls: seq<Value>, w: World, v: Value, ls1: seq<Value>, w1: World)
    requires n < |p.nodes| && (p.nodes[n].WriteSlot? || p.nodes[n].WriteSlotFallback?)
    requires Run(p, p.nodes[n].value, ls, w) == Some(Yields(v, ls1, w1))
    ensures p.nodes[n].WriteSlot? ==>
      Run(p, n, ls, w) == Some(Primitive(WriteSlotIn(w1, p.nodes[n].name, v, p.nodes[n].requireExisting), ls1))
    ensures p.nodes[n].WriteSlotFallback? ==>
      Run(p, n, ls, w) == Some(Primitive(WriteSlotFallbackIn(w1, p.nodes[n].name, p.nodes[n].fallback, v, p.nodes[n].requireExisting), ls1))
  {
    hide WriteSlotIn, WriteSlotFallbackIn, Run;
    var g := Enough(p, p.nodes[n].value, ls, w, 1);
    RunIs(p, n, ls, w, g + 1);
  }

  /** The slot a write goes to: the first name, unless it must exist and does not. */
  ghost function Target(node: Node, w: World): string
    requires node.WriteSlot? || node.WriteSlotFallback?
  {
    if node.WriteSlotFallback? && node.requireExisting && !SlotNamed(w, node.name) then node.fallback else node.name
  }

  lemma {:induction false} FindBound(slots: seq<SlotEntry>, name: string, v: Value, overlay: bool, arity: Option<nat>, other: string)
    ensures ReadSlotValue(BindSlot(slots, name, v, overlay, arity), other) == if other == name then Some(v) else ReadSlotValue(slots, other)
  {
    var i, after := FindSlot(slots, name), BindSlot(slots, name, v, overlay, arity);
    var j, k := FindSlot(slots, other), FindSlot(after, other);
    assert i < |after| && after[i].name == name;
    assert forall m :: 0 <= m < |slots| ==> after[m].name == slots[m].name;
    if other == name {
      assert k == i;
    } else if j < |slots| {
      assert after[j] == slots[j] && k == j;
    } else {
      assert k == |after|;
    }
  }

  /** A write is refused for slot references and for a name that must exist and does not;
      otherwise the slot reads as the value from then on, and every other slot as before. */
  lemma WriteThenRead(p: Program, n: nat, ls: seq<Value>, w: World, v: Value, ls1: seq<Value>, w1: World,
      q: Program, m: nat, ls2: seq<Value>, other: string)
    returns (w2: World)
    requires n < |p.nodes| && (p.nodes[n].WriteSlot? || p.nodes[n].WriteSlotFallback?)
    requires Run(p, p.nodes[n].value, ls, w) == Some(Yields(v, ls1, w1)) && NodeAt(q, m, ReadSlot(other))
    ensures var target := Target(p.nodes[n], w1);
      Run(p, n, ls, w) ==
        if v.Slot? then Some(Fails(TypeMismatch, w1))
        else if p.nodes[n].requireExisting && !SlotNamed(w1, target) then Some(Fails(UndefinedWord, w1))
        else Some(Yields(Nil, ls1, w2))
    ensures Run(q, m, ls2, w2) ==
      if other == Target(p.nodes[n], w1) then Some(Yields(v, ls2, w2)) else Elsewhere(Run(q, m, ls2, w1), w2)
    ensures w2.heap == w1.heap && w2.script == w1.script && w2.booted == w1.booted
  {
    hide Run, SlotNamed, BindSlot, FindSlot;
    var target := Target(p.nodes[n], w1);
    NamedFound(w1, p.nodes[n].name);
    NamedFound(w1, target);
    var arity := SlotArity(Look(w1.heap, v));
    w2 := w1.(slots := BindSlot(w1.slots, target, v, w1.booted, arity));
    RunWriteSlot(p, n, ls, w, v, ls1, w1);
    FindBound(w1.slots, target, v, w1.booted, arity, other);
    RunReadSlot(q, m, ls2, w1, other);
    RunReadSlot(q, m, ls2, w2, other);
  }

  /** A write marks the slot as part of the overlay once the base image is up, and keeps how many
      arguments its value takes: none it knows of if the value cannot be called. */
  lemma WriteMarks(p: Program, n: nat, ls: seq<Value>, w: World, v: Value, ls1: seq<Value>, w1: World, w2: World) returns (k: nat)
    requires n < |p.nodes| && (p.nodes[n].WriteSlot? || p.nodes[n].WriteSlotFallback?)
    requires Run(p, p.nodes[n].value, ls, w) == Some(Yields(v, ls1, w1)) && Run(p, n, ls, w) == Some(Yields(Nil, ls1, w2))
    ensures k < |w2.slots| && w2.slots[k].name == Target(p.nodes[n], w1) && w2.slots[k].overlay == w1.booted
    ensures w2.slots[k].arity ==
      if v.Obj? && v.id < |w1.heap| && w1.heap[v.id].Code? && w1.heap[v.id].arity < 255 then Some(w1.heap[v.id].arity)
      else if v.Obj? && v.id < |w1.heap| && w1.heap[v.id].Native? && w1.heap[v.id].arity < 255 then Some(w1.heap[v.id].arity)
      else if v.Obj? && v.id < |w1.heap| && w1.heap[v.id].RecordDef? && |w1.heap[v.id].fieldNames| < 255 then Some(|w1.heap[v.id].fieldNames|)
      else None
  {
    hide Run, SlotNamed, FindSlot;
    var target := Target(p.nodes[n], w1);
    NamedFound(w1, p.nodes[n].name);
    RunWriteSlot(p, n, ls, w, v, ls1, w1);
    k := FindSlot(w1.slots, target);
  }

  /** A read with two names reads the first slot if there is one, bound or not, and the second otherwise. */
  lemma FallbackRead(p: Program, n: nat, ls: seq<Value>, w: World, name: string, fallback: string, q: Program, m: nat)
    requires NodeAt(p, n, ReadSlotFallback(name, fallback))
    requires NodeAt(q, m, ReadSlot(if SlotNamed(w, name) then name else fallback))
    ensures Run(p, n, ls, w) == Run(q, m, ls, w)
  {
    hide SlotNamed, FindSlot;
    NamedFound(w, name);
    RunReadSlot(q, m, ls, w, if SlotNamed(w, name) then name else fallback);
    RunAtOnce(p, n, ls, w);
  }

  /** A designator is a reference to a slot that exists, bound or not. */
  lemma DesignatorMeaning(p: Program, n: nat, ls: seq<Value>, w: World, name: string)
    requires NodeAt(p, n, SlotDesignator(name))
    ensures Run(p, n, ls, w) == if SlotNamed(w, name) then Some(Yields(Slot(name), ls, w)) else Some(Fails(UndefinedWord, w))
  {
    hide SlotNamed, FindSlot;
    NamedFound(w, name);
    RunAtOnce(p, n, ls, w);
  }

  // ----- what is written -----

  /** A written literal means itself. */
  lemma WrittenLiteral(env: Env, e: Expr, p: Program, id: nat, n: nat, ls: seq<Value>, w: World)
    requires Means(env, e, p, id, n) && (e.Number? || e.Truth? || e.Nothing? || e.Words?)
    ensures e.Number? ==> Run(p, id, ls, w) == Some(Yields(Int(e.n), ls, w))
    ensures e.Truth? ==> Run(p, id, ls, w) == Some(Yields(Bool(e.b), ls, w))
    ensures e.Nothing? ==> Run(p, id, ls, w) == Some(Yields(Nil, ls, w))
    ensures e.Words? ==> Run(p, id, ls, w) == Some(Yields(Obj(|w.heap|), ls, w.(heap := w.heap + [Text(e.text)])))
  {
    hide Run;
    LiteralMeaning(p, id, ls, w, LiteralOf(e));
  }

  /** A record definition yields a new definition with the name and the fields that were written. */
  lemma DefinitionMeaning(p: Program, id: nat, name: string, fields: seq<string>, ls: seq<Value>, w: World)
    requires RecordAt(p, id, name, fields) && forall k :: 0 <= k < |fields| ==> fields[k] != ""
    ensures Run(p, id, ls, w) == Some(Yields(Obj(|w.heap|), ls, w.(heap := w.heap + [RecordDef(name, fields)])))
  {
    var first := p.nodes[id].firstField;
    forall k: nat | k < |fields| ensures LinkedName(p, first + k, fields[k]) {
      FieldLinked(p, id, name, fields, k);
    }
    NamesLinked(p, first, fields);
    RunAtOnce(p, id, ls, w);
  }

  lemma FieldLinked(p: Program, id: nat, name: string, fields: seq<string>, k: nat)
    requires RecordAt(p, id, name, fields) && k < |fields|
    ensures LinkedName(p, p.nodes[id].firstField + k, fields[k])
  {
    var first := p.nodes[id].firstField;
    var field := fields[k];
    assert p.literals[p.links[first + k]] == TextLiteral(field);
  }

  ghost predicate LinkedName(p: Program, link: nat, name: string) {
    link < |p.links| && p.links[link] < |p.literals| && p.literals[p.links[link]] == TextLiteral(name)
  }

  lemma {:induction false} NamesLinked(p: Program, first: nat, fields: seq<string>)
    requires forall k: nat :: k < |fields| ==> LinkedName(p, first + k, fields[k]) && fields[k] != ""
    ensures FieldNames(p, first, |fields|) == Interp.Names.Names(fields)
    decreases |fields|
  {
    if fields != [] {
      assert LinkedName(p, first + 0, fields[0]);
      forall k: nat | k < |fields| - 1 ensures LinkedName(p, first + 1 + k, fields[1..][k]) && fields[1..][k] != "" {
        assert LinkedName(p, first + (k + 1), fields[k + 1]);
      }
      NamesLinked(p, first + 1, fields[1..]);
      assert [fields[0]] + fields[1..] == fields;
    }
  }

  // ----- cells and fields -----

  lemma RunReadIndex(p: Program, n: nat, ls: seq<Value>, w: World, vb: Value, vi: Value, ls2: seq<Value>, w2: World)
    requires n < |p.nodes| && p.nodes[n].ReadIndex?
    requires Evaluates(p, [p.nodes[n].base, p.nodes[n].index], ls, w, [vb, vi], ls2, w2)
    ensures Run(p, n, ls, w) == Some(Primitive(ReadIndexIn(w2, vb, vi), ls2))
  {
    hide Run, ReadIndexIn;
    var r := Run(p, p.nodes[n].base, ls, w);
    TwoEvaluated(p, p.nodes[n].base, p.nodes[n].index, ls, w, vb, vi, ls2, w2);
    var h := Enough(p, p.nodes[n].index, r.value.locals, r.value.world, 1);
    var g := Enough(p, p.nodes[n].base, ls, w, h + 1);
    var o := Eval(p, p.nodes[n].base, ls, w, g);
    Bumped(p, p.nodes[n].index, o.locals, o.world, h, o.gas - 1);
    RunIs(p, n, ls, w, g + 1);
  }

  lemma TwoEvaluated(p: Program, a: nat, b: nat, ls: seq<Value>, w: World, va: Value, vb: Value, ls2: seq<Value>, w2: World)
    requires Evaluates(p, [a, b], ls, w, [va, vb], ls2, w2)
    ensures var r := Run(p, a, ls, w);
      && r.Some? && r.value.Yields? && r.value.value == va
      && Run(p, b, r.value.locals, r.value.world) == Some(Yields(vb, ls2, w2))
  {
    hide Run;
    assert [a, b][1..] == [b] && [b][1..] == [] && [va, vb][1..] == [vb] && [vb][1..] == [];
    var r := Run(p, a, ls, w);
    assert Evaluates(p, [b], r.value.locals, r.value.world, [vb], ls2, w2);
  }

  lemma ThreeEvaluated(p: Program, a: nat, b: nat, c: nat, ls: seq<Value>, w: World, va: Value, vb: Value, vc: Value, ls2: seq<Value>, w2: World)
    requires Evaluates(p, [a, b, c], ls, w, [va, vb, vc], ls2, w2)
    ensures var r := Run(p, a, ls, w);
      && r.Some? && r.value.Yields? && r.value.value == va
      && Evaluates(p, [b, c], r.value.locals, r.value.world, [vb, vc], ls2, w2)
  {
    hide Run;
    assert [a, b, c][1..] == [b, c] && [va, vb, vc][1..] == [vb, vc];
  }

  lemma RunWriteIndex(p: Program, n: nat, ls: seq<Value>, w: World, vb: Value, vi: Value, v: Value, ls2: seq<Value>, w2: World)
    requires n < |p.nodes| && p.nodes[n].WriteIndex?
    requires Evaluates(p, [p.nodes[n].base, p.nodes[n].index, p.nodes[n].value], ls, w, [vb, vi, v], ls2, w2)
    ensures Run(p, n, ls, w) == Some(Primitive(WriteIndexIn(w2, vb, vi, v), ls2))
  {
    hide Run, WriteIndexIn, Evaluates, WriteIndexLate;
    var base, index, value := p.nodes[n].base, p.nodes[n].index, p.nodes[n].value;
    ThreeEvaluated(p, base, index, value, ls, w, vb, vi, v, ls2, w2);
    var r := Run(p, base, ls, w).value;
    TwoEvaluated(p, index, value, r.locals, r.world, vi, v, ls2, w2);
    var r2 := Run(p, index, r.locals, r.world).value;
    var k := Enough(p, value, r2.locals, r2.world, 1);
    var h := Enough(p, index, r.locals, r.world, k + 1);
    var g := Enough(p, base, ls, w, h + 1);
    var o := Eval(p, base, ls, w, g);
    Bumped(p, index, o.locals, o.world, h, o.gas - 1);
    var o2 := Eval(p, index, o.locals, o.world, o.gas - 1);
    WriteIndexEnd(p, value, vb, vi, v, o2, k, ls2, w2);
    RunIs(p, n, ls, w, g + 1);
  }

  lemma WriteIndexEnd(p: Program, value: nat, vb: Value, vi: Value, v: Value, o2: Outcome, k: nat, ls2: seq<Value>, w2: World)
    requires o2.Done? && o2.gas > k && Run(p, value, o2.locals, o2.world) == Some(Yields(v, ls2, w2))
    requires var o3 := Eval(p, value, o2.locals, o2.world, k); o3.Done? && o3.gas >= 1
    ensures var o := WriteIndexLate(p, value, vb, vi, o2.locals, o2.world, o2.gas);
      o != OutOfGas && Strip(o) == Some(Primitive(WriteIndexIn(w2, vb, vi, v), ls2))
  {
    hide Run, Eval, WriteIndexIn;
    Bumped(p, value, o2.locals, o2.world, k, o2.gas - 1);
    EvalShows(p, value, o2.locals, o2.world, o2.gas - 1);
  }

  /** Cells keep scalars, texts and records, and nothing else. */
  ghost predicate Keepable(w: World, v: Value) {
    v.Int? || v.Bool? || v.Nil? || (v.Obj? && v.id < |w.heap| && (w.heap[v.id].Text? || w.heap[v.id].Record?))
  }

  lemma ReadCellMeaning(p: Program, n: nat, ls: seq<Value>, w: World, id: nat, i: Int30, ls2: seq<Value>, w2: World)
    requires n < |p.nodes| && p.nodes[n].ReadIndex?
    requires Evaluates(p, [p.nodes[n].base, p.nodes[n].index], ls, w, [Obj(id), Int(i)], ls2, w2)
    requires id < |w2.heap| && w2.heap[id].Cells?
    ensures Run(p, n, ls, w) ==
      if 0 <= i < |w2.heap[id].items| then Some(Yields(w2.heap[id].items[i], ls2, w2)) else Some(Fails(Bounds, w2))
  {
    hide Run, Evaluates;
    RunReadIndex(p, n, ls, w, Obj(id), Int(i), ls2, w2);
  }

  /** A store changes one element of one object, and nothing else in the world. */
  lemma WriteCellMeaning(p: Program, n: nat, ls: seq<Value>, w: World, id: nat, i: Int30, v: Value, ls2: seq<Value>, w2: World)
    requires n < |p.nodes| && p.nodes[n].WriteIndex?
    requires Evaluates(p, [p.nodes[n].base, p.nodes[n].index, p.nodes[n].value], ls, w, [Obj(id), Int(i), v], ls2, w2)
    requires id < |w2.heap| && w2.heap[id].Cells? && Known(w2, v)
    ensures !(0 <= i < |w2.heap[id].items|) ==> Run(p, n, ls, w) == Some(Fails(Bounds, w2))
    ensures 0 <= i < |w2.heap[id].items| && !Keepable(w2, v) ==> Run(p, n, ls, w) == Some(Fails(TypeMismatch, w2))
    ensures 0 <= i < |w2.heap[id].items| && Keepable(w2, v) ==>
      Run(p, n, ls, w) == Some(Yields(Nil, ls2, w2.(heap := w2.heap[id := Cells(w2.heap[id].items[i := v])])))
  {
    hide Run, Evaluates;
    RunWriteIndex(p, n, ls, w, Obj(id), Int(i), v, ls2, w2);
  }

  /** Only cells can be indexed, and only by integers. */
  lemma NoCellMeaning(p: Program, n: nat, ls: seq<Value>, w: World, vb: Value, vi: Value, ls2: seq<Value>, w2: World)
    requires n < |p.nodes| && p.nodes[n].ReadIndex?
    requires Evaluates(p, [p.nodes[n].base, p.nodes[n].index], ls, w, [vb, vi], ls2, w2) && Known(w2, vb)
    requires !vb.Obj? || !w2.heap[vb.id].Cells? || !vi.Int?
    ensures Run(p, n, ls, w) == Some(Fails(TypeMismatch, w2))
  {
    hide Run, Evaluates;
    RunReadIndex(p, n, ls, w, vb, vi, ls2, w2);
  }

  lemma RunReadField(p: Program, n: nat, ls: seq<Value>, w: World, vb: Value, ls2: seq<Value>, w2: World)
    requires n < |p.nodes| && p.nodes[n].ReadField?
    requires Run(p, p.nodes[n].base, ls, w) == Some(Yields(vb, ls2, w2))
    ensures Run(p, n, ls, w) == Some(Primitive(ReadFieldIn(w2, vb, p.nodes[n].field), ls2))
  {
    hide Run, ReadFieldIn;
    var g := Enough(p, p.nodes[n].base, ls, w, 1);
    RunIs(p, n, ls, w, g + 1);
  }

  lemma RunWriteField(p: Program, n: nat, ls: seq<Value>, w: World, vb: Value, v: Value, ls2: seq<Value>, w2: World)
    requires n < |p.nodes| && p.nodes[n].WriteField?
    requires Evaluates(p, [p.nodes[n].base, p.nodes[n].value], ls, w, [vb, v], ls2, w2)
    ensures Run(p, n, ls, w) == Some(Primitive(WriteFieldIn(w2, vb, p.nodes[n].field, v), ls2))
  {
    hide Run, WriteFieldIn;
    var r := Run(p, p.nodes[n].base, ls, w);
    TwoEvaluated(p, p.nodes[n].base, p.nodes[n].value, ls, w, vb, v, ls2, w2);
    var h := Enough(p, p.nodes[n].value, r.value.locals, r.value.world, 1);
    var g := Enough(p, p.nodes[n].base, ls, w, h + 1);
    var o := Eval(p, p.nodes[n].base, ls, w, g);
    Bumped(p, p.nodes[n].value, o.locals, o.world, h, o.gas - 1);
    RunIs(p, n, ls, w, g + 1);
  }

  /** Object `id` is a record with a field of that name, the first of the definition's at `k`. */
  ghost predicate FieldAt(w: World, id: nat, name: string, k: nat) {
    && id < |w.heap| && w.heap[id].Record? && w.heap[id].definition.Obj? && w.heap[id].definition.id < |w.heap|
    && w.heap[w.heap[id].definition.id].RecordDef?
    && var names := w.heap[w.heap[id].definition.id].fieldNames;
       k < |names| && k < |w.heap[id].fields| && names[k] == name && forall j :: 0 <= j < k ==> names[j] != name
  }

  lemma FieldPlaceIs(w: World, id: nat, name: string, k: nat)
    requires FieldAt(w, id, name, k)
    ensures FieldPlace(Look(w.heap, Obj(id)), Look(w.heap, Definition(Look(w.heap, Obj(id)))), name) == Place.At(k)
  {
    var names := w.heap[w.heap[id].definition.id].fieldNames;
    var i := FieldIndex(names, name);
  }

  lemma ReadFieldMeaning(p: Program, n: nat, ls: seq<Value>, w: World, id: nat, k: nat, ls2: seq<Value>, w2: World)
    requires n < |p.nodes| && p.nodes[n].ReadField?
    requires Run(p, p.nodes[n].base, ls, w) == Some(Yields(Obj(id), ls2, w2)) && FieldAt(w2, id, p.nodes[n].field, k)
    ensures Run(p, n, ls, w) == Some(Yields(w2.heap[id].fields[k], ls2, w2))
  {
    hide Run, FieldPlace;
    RunReadField(p, n, ls, w, Obj(id), ls2, w2);
    FieldPlaceIs(w2, id, p.nodes[n].field, k);
  }

  /** A name that is not among the definition's field names is out of bounds. */
  lemma NoFieldMeaning(p: Program, n: nat, ls: seq<Value>, w: World, id: nat, ls2: seq<Value>, w2: World)
    requires n < |p.nodes| && p.nodes[n].ReadField?
    requires Run(p, p.nodes[n].base, ls, w) == Some(Yields(Obj(id), ls2, w2)) && id < |w2.heap|
    ensures !w2.heap[id].Record? ==> Run(p, n, ls, w) == Some(Fails(TypeMismatch, w2))
    ensures w2.heap[id].Record? && w2.heap[id].definition.Obj? && w2.heap[id].definition.id < |w2.heap|
      && w2.heap[w2.heap[id].definition.id].RecordDef?
      && p.nodes[n].field !in w2.heap[w2.heap[id].definition.id].fieldNames
      ==> Run(p, n, ls, w) == Some(Fails(Bounds, w2))
  {
    hide Run;
    RunReadField(p, n, ls, w, Obj(id), ls2, w2);
  }

  lemma WriteFieldMeaning(p: Program, n: nat, ls: seq<Value>, w: World, id: nat, k: nat, v: Value, ls2: seq<Value>, w2: World)
    requires n < |p.nodes| && p.nodes[n].WriteField?
    requires Evaluates(p, [p.nodes[n].base, p.nodes[n].value], ls, w, [Obj(id), v], ls2, w2)
    requires FieldAt(w2, id, p.nodes[n].field, k) && Known(w2, v)
    ensures Run(p, n, ls, w) ==
      if Keepable(w2, v)
      then Some(Yields(Nil, ls2, w2.(heap := w2.heap[id := Record(w2.heap[id].definition, w2.heap[id].fields[k := v])])))
      else Some(Fails(TypeMismatch, w2))
  {
    hide Run, FieldPlace, Evaluates;
    RunWriteField(p, n, ls, w, Obj(id), v, ls2, w2);
    FieldPlaceIs(w2, id, p.nodes[n].field, k);
  }

  // ----- calls of values -----

  /** Node `n` calls the value of its callee node, which is object `id`. */
  ghost predicate CallsObject(p: Program, n: nat, ls: seq<Value>, w: World, id: nat, ls1: seq<Value>, w1: World) {
    && n < |p.nodes| && p.nodes[n].Call? && p.nodes[n].builtin == NoBuiltin
    && Run(p, p.nodes[n].callee, ls, w) == Some(Yields(Obj(id), ls1, w1)) && id < |w1.heap|
  }

  /** Its arguments, evaluated after the callee, are `vs`. */
  ghost predicate WithArguments(p: Program, n: nat, ls1: seq<Value>, w1: World, vs: seq<Value>, ls2: seq<Value>, w2: World)
    requires n < |p.nodes| && p.nodes[n].Call?
  {
    && p.nodes[n].firstArg + p.nodes[n].argCount <= |p.links|
    && Evaluates(p, p.links[p.nodes[n].firstArg..p.nodes[n].firstArg + p.nodes[n].argCount], ls1, w1, vs, ls2, w2)
  }

  lemma CalledWith(p: Program, n: nat, ls: seq<Value>, w: World, id: nat, ls1: seq<Value>, w1: World,
      callee: Callee, size: nat, vs: seq<Value>, ls2: seq<Value>, w2: World)
    requires CallsObject(p, n, ls, w, id, ls1, w1) && WithArguments(p, n, ls1, w1, vs, ls2, w2)
    requires Interp.Resolve(Some(w1.heap[id]), p.nodes[n].argCount) == Resolved(callee, size) && p.nodes[n].argCount <= size
    ensures |vs| == p.nodes[n].argCount
    ensures Run(p, n, ls, w) == Made(callee, Obj(id), vs + seq(size - |vs|, _ => Nil), ls2, w2)
  {
    hide Run, Evaluates, CallRun, Made, Interp.Resolve;
    RunCall(p, n, ls, w);
    var first, count := p.nodes[n].firstArg, p.nodes[n].argCount;
    ArgumentsDone(p, first, count, callee, Obj(id), 0, Nils(size), ls1, w1, vs, ls2, w2);
    assert Nils(size)[..0] + vs + Nils(size)[count..] == vs + seq(size - |vs|, _ => Nil);
  }

  lemma Refused(p: Program, n: nat, ls: seq<Value>, w: World, id: nat, ls1: seq<Value>, w1: World, e: Error)
    requires CallsObject(p, n, ls, w, id, ls1, w1)
    requires Interp.Resolve(Some(w1.heap[id]), p.nodes[n].argCount) == Unresolved(e)
    ensures Run(p, n, ls, w) == Some(Fails(e, w1))
  {
    hide Run, CallRun, Interp.Resolve;
    RunCall(p, n, ls, w);
  }

  /** A function's body runs on the arguments, first argument first, and fresh nil locals
      behind them; the caller keeps its own locals. */
  lemma FunctionMeaning(p: Program, n: nat, ls: seq<Value>, w: World, id: nat, ls1: seq<Value>, w1: World,
      vs: seq<Value>, ls2: seq<Value>, w2: World)
    requires CallsObject(p, n, ls, w, id, ls1, w1) && w1.heap[id].Code? && WithArguments(p, n, ls1, w1, vs, ls2, w2)
    ensures var f := w1.heap[id];
      if f.arity != p.nodes[n].argCount || f.localCount < f.arity then Run(p, n, ls, w) == Some(Fails(Signature, w1))
      else
        |vs| == f.arity &&
        var r := Run(f.program, f.body, vs + seq(f.localCount - f.arity, _ => Nil), w2);
        Run(p, n, ls, w) == if r.Some? && r.value.Yields? then Some(Yields(r.value.value, ls2, r.value.world)) else r
  {
    hide Run, Evaluates, CallsObject, WithArguments;
    CallNode(p, n, ls, w, id, ls1, w1);
    var f := w1.heap[id];
    if f.arity == p.nodes[n].argCount && f.localCount >= f.arity {
      CalledWith(p, n, ls, w, id, ls1, w1, CodeCallee(f.program, f.body), f.localCount, vs, ls2, w2);
    } else {
      Refused(p, n, ls, w, id, ls1, w1, Signature);
    }
  }

  lemma {:induction false} AllKeepable(w: World, vs: seq<Value>)
    requires forall k :: 0 <= k < |vs| ==> Known(w, vs[k])
    ensures FirstUnstorable(vs, LookAll(w.heap, vs)) == if forall k :: 0 <= k < |vs| ==> Keepable(w, vs[k]) then Ok else TypeMismatch
  {
    if vs != [] {
      assert LookAll(w.heap, vs)[1..] == LookAll(w.heap, vs[1..]);
      assert Known(w, vs[0]);
      forall k | 0 <= k < |vs| - 1 ensures Known(w, vs[1..][k]) { assert Known(w, vs[k + 1]); }
      AllKeepable(w, vs[1..]);
      assert forall k :: 0 <= k < |vs| - 1 ==> vs[1..][k] == vs[k + 1];
    }
  }

  /** Calling a record definition makes a record: its fields are the arguments in order. */
  lemma RecordMeaning(p: Program, n: nat, ls: seq<Value>, w: World, id: nat, ls1: seq<Value>, w1: World,
      vs: seq<Value>, ls2: seq<Value>, w2: World)
    requires CallsObject(p, n, ls, w, id, ls1, w1) && w1.heap[id].RecordDef? && WithArguments(p, n, ls1, w1, vs, ls2, w2)
    requires id < |w2.heap| && w2.heap[id] == w1.heap[id] && w1.heap[id].fieldNames != []
    requires forall k :: 0 <= k < |vs| ==> Known(w2, vs[k])
    ensures Run(p, n, ls, w) ==
      if |w1.heap[id].fieldNames| != p.nodes[n].argCount then Some(Fails(Signature, w1))
      else if forall k :: 0 <= k < |vs| ==> Keepable(w2, vs[k])
      then Some(Yields(Obj(|w2.heap|), ls2, w2.(heap := w2.heap + [Record(Obj(id), vs)])))
      else Some(Fails(TypeMismatch, w2))
  {
    hide Run, Evaluates, CallsObject, WithArguments, FirstUnstorable, Keepable, Known;
    CallNode(p, n, ls, w, id, ls1, w1);
    var count := p.nodes[n].argCount;
    if |w1.heap[id].fieldNames| == count {
      CalledWith(p, n, ls, w, id, ls1, w1, RecordCallee, count, vs, ls2, w2);
      assert vs + seq(count - |vs|, _ => Nil) == vs;
      AllKeepable(w2, vs);
    } else {
      Refused(p, n, ls, w, id, ls1, w1, Signature);
    }
  }

  /** What cannot be called, and a native given the wrong number of arguments, fail before
      any argument is evaluated. */
  lemma NotCallable(p: Program, n: nat, ls: seq<Value>, w: World, id: nat, ls1: seq<Value>, w1: World)
    requires CallsObject(p, n, ls, w, id, ls1, w1)
    ensures w1.heap[id].Text? || w1.heap[id].Cells? || w1.heap[id].Record? ==> Run(p, n, ls, w) == Some(Fails(TypeMismatch, w1))
    ensures w1.heap[id].Native? && w1.heap[id].arity != p.nodes[n].argCount ==> Run(p, n, ls, w) == Some(Fails(Signature, w1))
  {
    hide Run, CallsObject;
    CallNode(p, n, ls, w, id, ls1, w1);
    if w1.heap[id].Text? || w1.heap[id].Cells? || w1.heap[id].Record? {
      Refused(p, n, ls, w, id, ls1, w1, TypeMismatch);
    } else if w1.heap[id].Native? && w1.heap[id].arity != p.nodes[n].argCount {
      Refused(p, n, ls, w, id, ls1, w1, Signature);
    }
  }

  lemma CallNode(p: Program, n: nat, ls: seq<Value>, w: World, id: nat, ls1: seq<Value>, w1: World)
    requires CallsObject(p, n, ls, w, id, ls1, w1)
    ensures n < |p.nodes| && p.nodes[n].Call? && id < |w1.heap|
  {
    hide Run;
  }

  lemma ElementStored(w: World, base: Value, index: Value, v: Value)
    requires v.Int? || v.Bool? || v.Nil?
    ensures base.Obj? && base.id < |w.heap| && w.heap[base.id].Cells? && index.Int? && 0 <= index.n < |w.heap[base.id].items| ==>
      WriteIndexIn(w, base, index, v) == Result.Value(Nil, w.(heap := w.heap[base.id := Cells(w.heap[base.id].items[index.n := v])]))
  {
  }

  /** A native that returns its argument number `k` returns the one evaluated at that place. */
  lemma NativeMeaning(p: Program, n: nat, ls: seq<Value>, w: World, id: nat, ls1: seq<Value>, w1: World,
      vs: seq<Value>, ls2: seq<Value>, w2: World)
    requires CallsObject(p, n, ls, w, id, ls1, w1) && WithArguments(p, n, ls1, w1, vs, ls2, w2)
    requires w1.heap[id].Native? && w1.heap[id].arity == p.nodes[n].argCount && w2.script != []
    ensures var w3 := w2.(script := w2.script[1..]);
      match w2.script[0]
      case ReturnImmediate(v) => Run(p, n, ls, w) == Some(Yields(if v.Obj? then Nil else v, ls2, w3))
      case ReturnArgument(k) => Run(p, n, ls, w) == Some(Yields(if k < |vs| then vs[k] else Nil, ls2, w3))
      case FailWith(code) => Run(p, n, ls, w) == Some(Fails(Other(code), w3))
      case ResetRuntime(code, _, _) => Run(p, n, ls, w) == Some(Resets(if code == 0 then Reset else Other(code)))
      case ReturnText(text) => Run(p, n, ls, w) == Some(Yields(Obj(|w3.heap|), ls2, w3.(heap := w3.heap + [Text(text)])))
      case StoreElement(k, index, v) =>
        forall id: nat, i: Int30 {:trigger Obj(id), Int(i)} ::
          k < |vs| && vs[k] == Obj(id) && index == Int(i) && id < |w3.heap| && w3.heap[id].Cells? && 0 <= i < |w3.heap[id].items|
          && (v.Int? || v.Bool? || v.Nil?)
          ==> Run(p, n, ls, w) == Some(Yields(Nil, ls2, w3.(heap := w3.heap[id := Cells(w3.heap[id].items[i := v])])))
  {
    hide Run, Evaluates, CallsObject, WithArguments, WriteIndexIn;
    CallNode(p, n, ls, w, id, ls1, w1);
    var count := p.nodes[n].argCount;
    CalledWith(p, n, ls, w, id, ls1, w1, NativeCallee(w1.heap[id].tag), count, vs, ls2, w2);
    assert vs + seq(count - |vs|, _ => Nil) == vs;
    var effect, w3 := w2.script[0], w2.(script := w2.script[1..]);
    if effect.StoreElement? && (effect.v.Int? || effect.v.Bool? || effect.v.Nil?) { ElementStored(w3, ArgumentOf(vs, effect.i), effect.index, effect.v); }
  }
}

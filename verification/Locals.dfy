/**
 Which locals a node can touch.  A node whose subtree only names locals below `k` leaves
 all others as they were, whatever it calls: calls run on locals of their own.
 */
module Locals {
  import opened Ir
  import opened Values
  import opened Interp

  ghost predicate LocalsBelow(p: Program, id: nat, k: nat)
    decreases id
  {
    id < |p.nodes| &&
    match p.nodes[id]
    case ReadLocal(i) => i < k
    case WriteLocal(i, v) => i < k && v < id && LocalsBelow(p, v, k)
    case WriteSlot(_, v, _) => v < id && LocalsBelow(p, v, k)
    case WriteSlotFallback(_, _, v, _) => v < id && LocalsBelow(p, v, k)
    case ReadIndex(b, i) => b < id && i < id && LocalsBelow(p, b, k) && LocalsBelow(p, i, k)
    case WriteIndex(b, i, v) =>
      b < id && i < id && v < id && LocalsBelow(p, b, k) && LocalsBelow(p, i, k) && LocalsBelow(p, v, k)
    case ReadField(b, _) => b < id && LocalsBelow(p, b, k)
    case WriteField(b, _, v) => b < id && v < id && LocalsBelow(p, b, k) && LocalsBelow(p, v, k)
    case Call(op, callee, first, count) =>
      (op == NoBuiltin ==> callee < id && LocalsBelow(p, callee, k)) && LinkedBelow(p, first, count, id, k)
    case If(c, t, e, hasElse) =>
      c < id && t < id && LocalsBelow(p, c, k) && LocalsBelow(p, t, k) && (hasElse ==> e < id && LocalsBelow(p, e, k))
    case While(c, b) => c < id && b < id && LocalsBelow(p, c, k) && LocalsBelow(p, b, k)
    case Seq(first, count) => LinkedBelow(p, first, count, id, k)
    case _ => true
  }

  ghost predicate LinkedBelow(p: Program, first: nat, count: nat, id: nat, k: nat)
    decreases id, 0
  {
    first + count <= |p.links| && forall j | first <= j < first + count :: p.links[j] < id && LocalsBelow(p, p.links[j], k)
  }

  ghost predicate Keeps(o: Outcome, ls: seq<Value>, k: nat) {
    o.Done? ==> |o.locals| == |ls| && forall i | k <= i < |ls| :: o.locals[i] == ls[i]
  }

  lemma {:induction false} EvalKeeps(p: Program, n: nat, ls: seq<Value>, w: World, g: nat, k: nat)
    requires LocalsBelow(p, n, k)
    ensures Keeps(Eval(p, n, ls, w, g), ls, k)
    decreases g, 2
  {
    hide Eval, LocalsBelow;
    InsideNodes(p, n, k);
    match p.nodes[n]
    case ReadIndex(_, _) => AccessKeeps(p, n, ls, w, g, k);
    case WriteIndex(_, _, _) => AccessKeeps(p, n, ls, w, g, k);
    case WriteField(_, _, _) => AccessKeeps(p, n, ls, w, g, k);
    case Call(_, _, _, _) => CallKeeps(p, n, ls, w, g, k);
    case If(_, _, _, _) => ControlKeeps(p, n, ls, w, g, k);
    case While(_, _) => ControlKeeps(p, n, ls, w, g, k);
    case Seq(_, _) => ControlKeeps(p, n, ls, w, g, k);
    case _ => NodesKeep(p, n, ls, w, g, k);
  }

  lemma InsideNodes(p: Program, n: nat, k: nat)
    requires LocalsBelow(p, n, k)
    ensures n < |p.nodes|
  {
  }

  /** Nodes with at most one child that is evaluated first. */
  lemma {:induction false} NodesKeep(p: Program, n: nat, ls: seq<Value>, w: World, g: nat, k: nat)
    requires LocalsBelow(p, n, k)
    requires var x := p.nodes[n];
      !x.ReadIndex? && !x.WriteIndex? && !x.WriteField? && !x.Call? && !x.If? && !x.While? && !x.Seq?
    ensures Keeps(Eval(p, n, ls, w, g), ls, k)
    decreases g, 1
  {
    hide LiteralValue, ReadSlotIn, WriteSlotIn, WriteSlotFallbackIn, DesignateIn, RecordDefIn, ReadFieldIn, NewObjectIn,
      FallbackName;
    if g > 0 {
      match p.nodes[n]
      case WriteLocal(_, v) => EvalKeeps(p, v, ls, w, g - 1, k);
      case WriteSlot(_, v, _) => EvalKeeps(p, v, ls, w, g - 1, k);
      case WriteSlotFallback(_, _, v, _) => EvalKeeps(p, v, ls, w, g - 1, k);
      case ReadField(b, _) => EvalKeeps(p, b, ls, w, g - 1, k);
      case _ =>
    }
  }

  lemma {:induction false} AccessKeeps(p: Program, n: nat, ls: seq<Value>, w: World, g: nat, k: nat)
    requires LocalsBelow(p, n, k)
    requires var x := p.nodes[n]; x.ReadIndex? || x.WriteIndex? || x.WriteField?
    ensures Keeps(Eval(p, n, ls, w, g), ls, k)
    decreases g, 1
  {
    hide ReadIndexIn, WriteIndexMid, WriteFieldIn;
    if g == 0 { return; }
    var node := p.nodes[n];
    EvalKeeps(p, node.base, ls, w, g - 1, k);
    var o := Eval(p, node.base, ls, w, g - 1);
    if o.Done? {
      match node
      case WriteIndex(_, index, value) => StoreKeeps(p, index, value, o.value, o.locals, o.world, o.gas, k);
      case WriteField(_, _, value) => if o.gas > 0 { EvalKeeps(p, value, o.locals, o.world, o.gas - 1, k); }
      case ReadIndex(_, index) => if o.gas > 0 { EvalKeeps(p, index, o.locals, o.world, o.gas - 1, k); }
    }
  }

  lemma {:induction false} StoreKeeps(p: Program, index: nat, value: nat, vb: Value, ls: seq<Value>, w: World, g: nat, k: nat)
    requires LocalsBelow(p, index, k) && LocalsBelow(p, value, k)
    ensures Keeps(WriteIndexMid(p, index, value, vb, ls, w, g), ls, k)
    decreases g, 0
  {
    hide WriteIndexIn, LocalsBelow, Eval;
    if g > 0 {
      EvalKeeps(p, index, ls, w, g - 1, k);
      var o := Eval(p, index, ls, w, g - 1);
      if o.Done? && o.gas > 0 { EvalKeeps(p, value, o.locals, o.world, o.gas - 1, k); }
    }
  }

  lemma {:induction false} CallKeeps(p: Program, n: nat, ls: seq<Value>, w: World, g: nat, k: nat)
    requires LocalsBelow(p, n, k)
    requires p.nodes[n].Call?
    ensures Keeps(Eval(p, n, ls, w, g), ls, k)
    decreases g, 1
  {
    hide Arguments, Resolve;
    if g == 0 { return; }
    var node := p.nodes[n];
    if node.builtin != NoBuiltin {
      ArgumentsKeep(p, node.firstArg, node.argCount, BuiltinCallee(node.builtin), 0, Nil, Nils(node.argCount), ls, w, g - 1, n, k);
    } else {
      EvalKeeps(p, node.callee, ls, w, g - 1, k);
      var o := Eval(p, node.callee, ls, w, g - 1);
      if o.Done? && o.gas > 0 {
        var r := Resolve(Look(o.world.heap, o.value), node.argCount);
        if r.Resolved? {
          ArgumentsKeep(p, node.firstArg, node.argCount, r.callee, 0, o.value, Nils(r.slots), o.locals, o.world, o.gas - 1, n, k);
        }
      }
    }
  }

  lemma {:induction false} ArgumentsKeep(p: Program, first: nat, count: nat, callee: Callee, i: nat, vc: Value, args: seq<Value>,
                                         ls: seq<Value>, w: World, g: nat, n: nat, k: nat)
    requires LinkedBelow(p, first, count, n, k)
    ensures Keeps(Arguments(p, first, count, callee, i, vc, args, ls, w, g), ls, k)
    decreases g, 0
  {
    hide Eval, BuiltinIn, NewRecordIn, LocalsBelow;
    if g > 0 && i < count && first + i < |p.links| && i < |args| {
      EvalKeeps(p, p.links[first + i], ls, w, g - 1, k);
      var o := Eval(p, p.links[first + i], ls, w, g - 1);
      if o.Done? { ArgumentsKeep(p, first, count, callee, i + 1, vc, args[i := o.value], o.locals, o.world, o.gas, n, k); }
    }
  }

  lemma {:induction false} ControlKeeps(p: Program, n: nat, ls: seq<Value>, w: World, g: nat, k: nat)
    requires LocalsBelow(p, n, k)
    requires var x := p.nodes[n]; x.If? || x.While? || x.Seq?
    ensures Keeps(Eval(p, n, ls, w, g), ls, k)
    decreases g, 1
  {
    hide SeqFrom, WhileTest;
    if g == 0 { return; }
    var node := p.nodes[n];
    if node.Seq? {
      SeqKeeps(p, node.firstItem, node.itemCount, 0, ls, w, g, n, k);
      return;
    }
    EvalKeeps(p, node.condition, ls, w, g - 1, k);
    var o := Eval(p, node.condition, ls, w, g - 1);
    if o.Done? {
      if node.While? {
        RoundKeeps(p, n, o.value, o.locals, o.world, o.gas, k);
      } else if o.gas > 0 && o.value.Bool? && (o.value.b || node.hasElse) {
        EvalKeeps(p, if o.value.b then node.thenBranch else node.elseBranch, o.locals, o.world, o.gas - 1, k);
      }
    }
  }

  lemma {:induction false} RoundKeeps(p: Program, n: nat, c: Value, ls: seq<Value>, w: World, g: nat, k: nat)
    requires LocalsBelow(p, n, k) && p.nodes[n].While?
    ensures Keeps(WhileTest(p, n, p.nodes[n].body, c, ls, w, g), ls, k)
    decreases g, 0
  {
    hide Eval;
    if g > 0 && c.Bool? && c.b {
      var body := p.nodes[n].body;
      EvalKeeps(p, body, ls, w, g - 1, k);
      var o := Eval(p, body, ls, w, g - 1);
      if o.Done? && o.gas > 0 { EvalKeeps(p, n, o.locals, o.world, o.gas - 1, k); }
    }
  }

  lemma {:induction false} SeqKeeps(p: Program, first: nat, count: nat, i: nat, ls: seq<Value>, w: World, g: nat, n: nat, k: nat)
    requires LinkedBelow(p, first, count, n, k) && (count == 0 || i < count)
    ensures Keeps(SeqFrom(p, first, count, i, ls, w, g), ls, k)
    decreases g, 0
  {
    hide Eval, LocalsBelow;
    if g > 0 && count > 0 {
      EvalKeeps(p, p.links[first + i], ls, w, g - 1, k);
      var o := Eval(p, p.links[first + i], ls, w, g - 1);
      if o.Done? && o.gas > 0 && i + 1 < count { SeqKeeps(p, first, count, i + 1, o.locals, o.world, o.gas - 1, n, k); }
    }
  }
}

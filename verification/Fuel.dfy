/**
 The interpreter's answer does not depend on the fuel it is given: a run that ends with
 some fuel ends in the same way with more, and leaves that much more over.
 */
module Fuel {
  import opened Ir
  import opened Values
  import opened Interp

  /** `b` is `a` with `k` more units of gas left over, unless `a` was cut short. */
  predicate Agrees(a: Outcome, b: Outcome, k: nat) {
    a == OutOfGas || b == if a.Done? then a.(gas := a.gas + k) else a
  }

  lemma {:induction false} EvalMore(p: Program, n: nat, ls: seq<Value>, w: World, g: nat, k: nat)
    ensures Agrees(Eval(p, n, ls, w, g), Eval(p, n, ls, w, g + k), k)
    decreases g, 2
  {
    hide Eval;
    if g == 0 || n >= |p.nodes| {
      AtOnce(p, n, ls, w, g, k);
      return;
    }
    match p.nodes[n]
    case WriteLocal(_, _) => StoreMore(p, n, ls, w, g, k);
    case WriteSlot(_, _, _) => StoreMore(p, n, ls, w, g, k);
    case WriteSlotFallback(_, _, _, _) => StoreMore(p, n, ls, w, g, k);
    case ReadField(_, _) => StoreMore(p, n, ls, w, g, k);
    case ReadIndex(_, _) => AccessMore(p, n, ls, w, g, k);
    case WriteIndex(_, _, _) => AccessMore(p, n, ls, w, g, k);
    case WriteField(_, _, _) => AccessMore(p, n, ls, w, g, k);
    case Call(_, _, _, _) => CalleeMore(p, n, ls, w, g, k);
    case If(_, _, _, _) => ControlMore(p, n, ls, w, g, k);
    case While(_, _) => ControlMore(p, n, ls, w, g, k);
    case Seq(first, count) => ControlMore(p, n, ls, w, g, k);
    case _ => AtOnce(p, n, ls, w, g, k);
  }

  /** Nodes without children need one unit of gas. */
  lemma AtOnce(p: Program, n: nat, ls: seq<Value>, w: World, g: nat, k: nat)
    requires n < |p.nodes| && g > 0 ==>
      var x := p.nodes[n];
      x.Lit? || x.ReadLocal? || x.ReadSlot? || x.ReadSlotFallback? || x.SlotDesignator? || x.RecordDefNode? || x.Fn?
    ensures Agrees(Eval(p, n, ls, w, g), Eval(p, n, ls, w, g + k), k)
  {
    hide LiteralValue, ReadSlotIn, DesignateIn, RecordDefIn, NewObjectIn, FallbackName;
  }

  lemma {:induction false} StoreMore(p: Program, n: nat, ls: seq<Value>, w: World, g: nat, k: nat)
    requires n < |p.nodes| && g > 0
    requires var x := p.nodes[n]; x.WriteLocal? || x.WriteSlot? || x.WriteSlotFallback? || x.ReadField?
    ensures Agrees(Eval(p, n, ls, w, g), Eval(p, n, ls, w, g + k), k)
    decreases g, 1
  {
    hide WriteSlotIn, WriteSlotFallbackIn, ReadFieldIn;
    var child := if p.nodes[n].ReadField? then p.nodes[n].base else p.nodes[n].value;
    EvalMore(p, child, ls, w, g - 1, k);
  }

  lemma {:induction false} AccessMore(p: Program, n: nat, ls: seq<Value>, w: World, g: nat, k: nat)
    requires n < |p.nodes| && g > 0
    requires var x := p.nodes[n]; x.ReadIndex? || x.WriteIndex? || x.WriteField?
    ensures Agrees(Eval(p, n, ls, w, g), Eval(p, n, ls, w, g + k), k)
    decreases g, 1
  {
    hide ReadIndexMid, WriteIndexMid, WriteFieldMid;
    EvalMore(p, p.nodes[n].base, ls, w, g - 1, k);
    var o := Eval(p, p.nodes[n].base, ls, w, g - 1);
    if o.Done? {
      match p.nodes[n]
      case ReadIndex(_, index) => ReadIndexMore(p, index, o.value, o.locals, o.world, o.gas, k);
      case WriteIndex(_, index, value) => WriteIndexMore(p, index, value, o.value, o.locals, o.world, o.gas, k);
      case WriteField(_, name, value) => WriteFieldMore(p, name, value, o.value, o.locals, o.world, o.gas, k);
    }
  }

  lemma {:induction false} CalleeMore(p: Program, n: nat, ls: seq<Value>, w: World, g: nat, k: nat)
    requires n < |p.nodes| && g > 0 && p.nodes[n].Call?
    ensures Agrees(Eval(p, n, ls, w, g), Eval(p, n, ls, w, g + k), k)
    decreases g, 1
  {
    hide CallResolved, Arguments;
    var x := p.nodes[n];
    if x.builtin != NoBuiltin {
      ArgumentsMore(p, x.firstArg, x.argCount, BuiltinCallee(x.builtin), 0, Nil, Nils(x.argCount), ls, w, g - 1, k);
    } else {
      EvalMore(p, x.callee, ls, w, g - 1, k);
      var o := Eval(p, x.callee, ls, w, g - 1);
      if o.Done? { CallMore(p, x.firstArg, x.argCount, o.value, o.locals, o.world, o.gas, k); }
    }
  }

  lemma {:induction false} ControlMore(p: Program, n: nat, ls: seq<Value>, w: World, g: nat, k: nat)
    requires n < |p.nodes| && g > 0
    requires var x := p.nodes[n]; x.If? || x.While? || x.Seq?
    ensures Agrees(Eval(p, n, ls, w, g), Eval(p, n, ls, w, g + k), k)
    decreases g, 1
  {
    hide IfBranch, WhileTest, SeqFrom;
    if p.nodes[n].Seq? {
      SeqMore(p, p.nodes[n].firstItem, p.nodes[n].itemCount, 0, ls, w, g, k);
      return;
    }
    EvalMore(p, p.nodes[n].condition, ls, w, g - 1, k);
    var o := Eval(p, p.nodes[n].condition, ls, w, g - 1);
    if o.Done? {
      match p.nodes[n]
      case If(_, t, e, hasElse) => IfMore(p, t, e, hasElse, o.value, o.locals, o.world, o.gas, k);
      case While(_, body) => WhileMore(p, n, body, o.value, o.locals, o.world, o.gas, k);
    }
  }

  lemma {:induction false} ReadIndexMore(p: Program, index: nat, vb: Value, ls: seq<Value>, w: World, g: nat, k: nat)
    ensures Agrees(ReadIndexMid(p, index, vb, ls, w, g), ReadIndexMid(p, index, vb, ls, w, g + k), k)
    decreases g, 0
  {
    hide ReadIndexIn, Eval;
    if g > 0 { EvalMore(p, index, ls, w, g - 1, k); }
  }

  lemma {:induction false} WriteIndexMore(p: Program, index: nat, value: nat, vb: Value, ls: seq<Value>, w: World, g: nat, k: nat)
    ensures Agrees(WriteIndexMid(p, index, value, vb, ls, w, g), WriteIndexMid(p, index, value, vb, ls, w, g + k), k)
    decreases g, 0
  {
    hide WriteIndexIn, Eval;
    if g > 0 {
      EvalMore(p, index, ls, w, g - 1, k);
      var o := Eval(p, index, ls, w, g - 1);
      if o.Done? && o.gas > 0 { EvalMore(p, value, o.locals, o.world, o.gas - 1, k); }
    }
  }

  lemma {:induction false} WriteFieldMore(p: Program, name: string, value: nat, vb: Value, ls: seq<Value>, w: World, g: nat, k: nat)
    ensures Agrees(WriteFieldMid(p, name, value, vb, ls, w, g), WriteFieldMid(p, name, value, vb, ls, w, g + k), k)
    decreases g, 0
  {
    hide WriteFieldIn, Eval;
    if g > 0 { EvalMore(p, value, ls, w, g - 1, k); }
  }

  lemma {:induction false} CallMore(p: Program, first: nat, count: nat, vc: Value, ls: seq<Value>, w: World, g: nat, k: nat)
    ensures Agrees(CallResolved(p, first, count, vc, ls, w, g), CallResolved(p, first, count, vc, ls, w, g + k), k)
    decreases g, 0
  {
    hide Resolve, Arguments;
    if g > 0 {
      match Resolve(Look(w.heap, vc), count)
      case Unresolved(_) =>
      case Resolved(callee, size) => ArgumentsMore(p, first, count, callee, 0, vc, Nils(size), ls, w, g - 1, k);
    }
  }

  lemma {:induction false} ArgumentsMore(p: Program, first: nat, count: nat, callee: Callee, i: nat, vc: Value, args: seq<Value>,
                                         ls: seq<Value>, w: World, g: nat, k: nat)
    ensures Agrees(Arguments(p, first, count, callee, i, vc, args, ls, w, g),
                   Arguments(p, first, count, callee, i, vc, args, ls, w, g + k), k)
    decreases g, 0
  {
    hide Eval, BuiltinIn, NewRecordIn;
    if g == 0 { return; }
    if i < count {
      if first + i < |p.links| && i < |args| {
        EvalMore(p, p.links[first + i], ls, w, g - 1, k);
        var o := Eval(p, p.links[first + i], ls, w, g - 1);
        if o.Done? { ArgumentsMore(p, first, count, callee, i + 1, vc, args[i := o.value], o.locals, o.world, o.gas, k); }
      }
    } else if callee.CodeCallee? {
      EvalMore(callee.program, callee.body, args, w, g - 1, k);
    }
  }

  lemma {:induction false} IfMore(p: Program, t: nat, e: nat, hasElse: bool, c: Value, ls: seq<Value>, w: World, g: nat, k: nat)
    ensures Agrees(IfBranch(p, t, e, hasElse, c, ls, w, g), IfBranch(p, t, e, hasElse, c, ls, w, g + k), k)
    decreases g, 0
  {
    hide Eval;
    if g > 0 && c.Bool? { EvalMore(p, if c.b then t else e, ls, w, g - 1, k); }
  }

  lemma {:induction false} WhileMore(p: Program, n: nat, body: nat, c: Value, ls: seq<Value>, w: World, g: nat, k: nat)
    ensures Agrees(WhileTest(p, n, body, c, ls, w, g), WhileTest(p, n, body, c, ls, w, g + k), k)
    decreases g, 0
  {
    hide Eval;
    if g > 0 && c.Bool? {
      EvalMore(p, body, ls, w, g - 1, k);
      var o := Eval(p, body, ls, w, g - 1);
      if o.Done? && o.gas > 0 { EvalMore(p, n, o.locals, o.world, o.gas - 1, k); }
    }
  }

  lemma {:induction false} SeqMore(p: Program, first: nat, count: nat, i: nat, ls: seq<Value>, w: World, g: nat, k: nat)
    ensures Agrees(SeqFrom(p, first, count, i, ls, w, g), SeqFrom(p, first, count, i, ls, w, g + k), k)
    decreases g, 0
  {
    hide Eval;
    if g == 0 || first + i >= |p.links| { return; }
    EvalMore(p, p.links[first + i], ls, w, g - 1, k);
    var o := Eval(p, p.links[first + i], ls, w, g - 1);
    if o.Done? && o.gas > 0 && i + 1 < count { SeqMore(p, first, count, i + 1, o.locals, o.world, o.gas - 1, k); }
  }
}

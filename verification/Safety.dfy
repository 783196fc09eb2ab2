/**
 What every evaluation keeps: programs stay inside their arrays, cells are never empty, and
 a record always has a definition with as many fields as it has.

 So nothing read from a program is ever out of range, whatever is evaluated for how long,
 and whatever an evaluation leaves behind can be saved and restored.
 */
module Safety {
  import opened Ir
  import opened Values
  import opened Interp
  import opened Image
  import opened Snapshot
  import Heap
  import Sim
  import Ownership
  import Parser
  import Surface
  import Locals
  import Evaluator

  // ----- worlds -----

  ghost predicate ObjectFine(heap: seq<Object>, o: Object) {
    match o
    case Text(text) => Chars(text)
    case Cells(values) => 0 < |values| < WORD
    case Code(p, body, arity, locals) => arity <= locals && Small(locals) && body < |p.nodes| && ProgramSound(p)
    case Record(definition, fields) => 0 < |fields| && Defines(heap, definition, |fields|)
    case _ => true
  }

  /** `definition` refers to a record definition with `count` fields. */
  ghost predicate Defines(heap: seq<Object>, definition: Value, count: nat) {
    && definition.Obj? && definition.id < |heap| && heap[definition.id].RecordDef?
    && |heap[definition.id].fieldNames| == count
  }

  ghost predicate HeapFine(heap: seq<Object>) { forall i :: 0 <= i < |heap| ==> ObjectFine(heap, heap[i]) }

  /** Every text the environment hands in is made of bytes. */
  ghost predicate ScriptFine(script: seq<NativeEffect>) {
    forall i :: 0 <= i < |script| && script[i].ReturnText? ==> Chars(script[i].text)
  }

  ghost predicate WorldFine(w: World) { HeapFine(w.heap) && ScriptFine(w.script) }

  ghost predicate Safe(o: Outcome) {
    match o
    case Done(_, _, w, _) => WorldFine(w)
    case Stop(e, w) => e != Malformed && WorldFine(w)
    case Wiped(e) => e != Malformed
    case OutOfGas => true
  }

  ghost predicate SafeResult(r: Interp.Result) {
    match r
    case Value(_, w) => WorldFine(w)
    case Fail(e, w) => e != Malformed && WorldFine(w)
  }

  // ----- primitive operations -----

  lemma FineWithMore(heap: seq<Object>, o: Object)
    requires HeapFine(heap) && ObjectFine(heap, o)
    ensures HeapFine(heap + [o])
  {
    hide ProgramSound, Chars;
    forall i | 0 <= i < |heap + [o]| ensures ObjectFine(heap + [o], (heap + [o])[i]) {
      assert ObjectFine(heap, (heap + [o])[i]);
    }
  }

  /** An object may be replaced by one that is as fine, if neither is a definition. */
  lemma FineWithout(heap: seq<Object>, k: nat, o: Object)
    requires HeapFine(heap) && k < |heap| && ObjectFine(heap, o) && !heap[k].RecordDef? && !o.RecordDef?
    ensures HeapFine(heap[k := o])
  {
    hide ProgramSound, Chars;
    var after := heap[k := o];
    forall i | 0 <= i < |after| ensures ObjectFine(after, after[i]) {
      assert ObjectFine(heap, after[i]);
    }
  }

  lemma NewObjectSafe(w: World, o: Object)
    requires WorldFine(w) && ObjectFine(w.heap, o)
    ensures SafeResult(NewObjectIn(w, o))
  {
    FineWithMore(w.heap, o);
  }

  lemma StorableFine(v: Value, o: Option<Object>)
    ensures Storable(v, o) != Malformed
  {
  }

  lemma WriteIndexSafe(w: World, base: Value, index: Value, v: Value)
    requires WorldFine(w)
    ensures SafeResult(WriteIndexIn(w, base, index, v))
  {
    hide HeapFine, ScriptFine, Storable;
    StorableFine(v, Look(w.heap, v));
    var o := Look(w.heap, base);
    if CellPlace(o, index).At? {
      var i := CellPlace(o, index).index;
      FineAt(w.heap, base.id);
      FineWithout(w.heap, base.id, Cells(o.value.items[i := v]));
    }
  }

  lemma FineAt(heap: seq<Object>, k: nat)
    requires HeapFine(heap) && k < |heap|
    ensures ObjectFine(heap, heap[k])
  {
  }

  lemma WriteFieldSafe(w: World, base: Value, name: string, v: Value)
    requires WorldFine(w)
    ensures SafeResult(WriteFieldIn(w, base, name, v))
  {
    hide HeapFine, ScriptFine, Storable;
    StorableFine(v, Look(w.heap, v));
    var o := Look(w.heap, base);
    var place := FieldPlace(o, Look(w.heap, Definition(o)), name);
    if Storable(v, Look(w.heap, v)) == Ok && place.At? {
      FineAt(w.heap, base.id);
      FineWithout(w.heap, base.id, Record(o.value.definition, o.value.fields[place.index := v]));
    }
  }

  lemma {:induction false} UnstorableFine(vs: seq<Value>, objs: seq<Option<Object>>)
    requires |objs| == |vs|
    ensures FirstUnstorable(vs, objs) != Malformed
  {
    if vs != [] {
      StorableFine(vs[0], objs[0]);
      UnstorableFine(vs[1..], objs[1..]);
    }
  }

  lemma NewRecordSafe(w: World, definition: Value, fields: seq<Value>)
    requires WorldFine(w)
    ensures SafeResult(NewRecordIn(w, definition, fields))
  {
    hide HeapFine, ScriptFine, FirstUnstorable;
    UnstorableFine(fields, LookAll(w.heap, fields));
    if RecordCheck(Look(w.heap, definition), fields, LookAll(w.heap, fields)) == Ok {
      NewObjectSafe(w, Record(definition, fields));
    }
  }

  lemma BuiltinSafe(w: World, b: Builtin, args: seq<Value>)
    requires WorldFine(w)
    ensures SafeResult(BuiltinIn(w, b, args))
  {
    hide HeapFine, ScriptFine, EqualValues;
    var r := ApplyBuiltin(b, args, LookAll(w.heap, args));
    BuiltinErrors(b, args, LookAll(w.heap, args));
    if r.NewCells? && r.n > 0 {
      NewObjectSafe(w, Cells(Nils(r.n)));
    }
  }

  lemma BuiltinErrors(b: Builtin, args: seq<Value>, objs: seq<Option<Object>>)
    requires |objs| == |args|
    ensures var r := ApplyBuiltin(b, args, objs); (r.Error? ==> r.e != Malformed) && (r.NewCells? ==> r.n < WORD)
  {
    hide EqualValues, WrapInt;
  }

  lemma LiteralSafe(l: Literal, w: World)
    requires WorldFine(w) && LiteralReady(l)
    ensures SafeResult(LiteralValue(l, w))
  {
    hide HeapFine, ScriptFine;
    if l.TextLiteral? {
      NewObjectSafe(w, Text(l.text));
    }
  }

  lemma {:induction false} NamesErrors(p: Program, first: nat, count: nat)
    ensures var r := FieldNames(p, first, count); r.BadNames? ==> r.err != Malformed
    decreases count
  {
    if count > 0 { NamesErrors(p, first + 1, count - 1); }
  }

  lemma RecordDefSafe(p: Program, name: string, first: nat, count: nat, w: World)
    requires WorldFine(w)
    ensures SafeResult(RecordDefIn(p, name, first, count, w))
  {
    hide HeapFine, ScriptFine, FieldNames;
    NamesErrors(p, first, count);
    var r := RecordDefNames(p, first, count);
    if r.Names? { NewObjectSafe(w, RecordDef(name, r.names)); }
  }

  lemma SlotsSafe(w: World, name: string, fallback: string, v: Value, requireExisting: bool)
    requires WorldFine(w)
    ensures SafeResult(ReadSlotIn(w, name)) && SafeResult(DesignateIn(w, name))
    ensures SafeResult(WriteSlotIn(w, name, v, requireExisting))
    ensures SafeResult(WriteSlotFallbackIn(w, name, fallback, v, requireExisting))
  {
    hide HeapFine, ScriptFine, FindSlot, BindSlot;
  }

  lemma ReadSafe(w: World, base: Value, index: Value, name: string)
    requires WorldFine(w)
    ensures SafeResult(ReadIndexIn(w, base, index)) && SafeResult(ReadFieldIn(w, base, name))
  {
    hide HeapFine, ScriptFine, FieldIndex;
  }

  lemma NativeSafe(w: World, args: seq<Value>)
    requires WorldFine(w)
    ensures SafeResult(NativeResult(w, args))
  {
    hide HeapFine, WriteIndexIn;
    var effect, w1 := NextEffect(w.script), w.(script := Rest(w.script));
    assert forall i :: 0 <= i < |w1.script| ==> w1.script[i] == w.script[i + 1];
    match effect
    case ReturnText(text) => NewObjectSafe(w1, Text(text));
    case StoreElement(k, index, v) => WriteIndexSafe(w1, ArgumentOf(args, k), Immediate(index), Immediate(v));
    case _ =>
  }

  // ----- evaluation -----

  lemma NodeAt(p: Program, n: nat)
    requires ProgramSound(p) && n < |p.nodes|
    ensures RefersBelow(p, p.nodes[n], |p.nodes|)
    ensures p.nodes[n].Fn? ==> p.nodes[n].arity <= p.nodes[n].localCount && Small(p.nodes[n].localCount)
    ensures p.nodes[n].Lit? ==> LiteralReady(p.literals[p.nodes[n].literal])
  {
    hide RefersBelow, Spelled, LiteralReady, Linking;
    assert NodeSound(p, p.nodes[n]);
    assert p.nodes[n].Lit? ==> RefersBelow(p, p.nodes[n], |p.nodes|);
    LitBelow(p, p.nodes[n]);
  }

  lemma LitBelow(p: Program, n: Node)
    ensures n.Lit? && RefersBelow(p, n, |p.nodes|) ==> n.literal < |p.literals|
  {
  }

  /** Evaluating any node of a sound program, in any fine world, for any time. */
  lemma {:induction false} EvalSafe(p: Program, n: nat, ls: seq<Value>, w: World, g: nat)
    requires ProgramSound(p) && n < |p.nodes| && WorldFine(w)
    ensures Safe(Eval(p, n, ls, w, g))
    decreases g, 2
  {
    hide Eval, ProgramSound, HeapFine, ScriptFine, RefersBelow;
    if g == 0 {
      AtOnceSafe(p, n, ls, w, g);
      return;
    }
    match p.nodes[n]
    case WriteLocal(_, _) => StoreSafe(p, n, ls, w, g);
    case WriteSlot(_, _, _) => StoreSafe(p, n, ls, w, g);
    case WriteSlotFallback(_, _, _, _) => StoreSafe(p, n, ls, w, g);
    case ReadField(_, _) => StoreSafe(p, n, ls, w, g);
    case ReadIndex(_, _) => AccessSafe(p, n, ls, w, g);
    case WriteIndex(_, _, _) => AccessSafe(p, n, ls, w, g);
    case WriteField(_, _, _) => AccessSafe(p, n, ls, w, g);
    case Call(_, _, _, _) => CalleeSafe(p, n, ls, w, g);
    case If(_, _, _, _) => ControlSafe(p, n, ls, w, g);
    case While(_, _) => ControlSafe(p, n, ls, w, g);
    case Seq(_, _) => ControlSafe(p, n, ls, w, g);
    case _ => AtOnceSafe(p, n, ls, w, g);
  }

  lemma AtOnceSafe(p: Program, n: nat, ls: seq<Value>, w: World, g: nat)
    requires ProgramSound(p) && n < |p.nodes| && WorldFine(w)
    requires g > 0 ==>
      var x := p.nodes[n];
      x.Lit? || x.ReadLocal? || x.ReadSlot? || x.ReadSlotFallback? || x.SlotDesignator? || x.RecordDefNode? || x.Fn?
    ensures Safe(Eval(p, n, ls, w, g))
  {
    hide ProgramSound, LiteralValue, LiteralReady, ReadSlotIn, DesignateIn, RecordDefIn, FallbackName, HeapFine, ScriptFine;
    NodeAt(p, n);
    if g > 0 {
      match p.nodes[n]
      case Lit(l) => LiteralSafe(p.literals[l], w);
      case ReadSlot(name) => SlotsSafe(w, name, name, Nil, false);
      case ReadSlotFallback(name, fallback) => SlotsSafe(w, FallbackName(w.slots, name, fallback), name, Nil, false);
      case SlotDesignator(name) => SlotsSafe(w, name, name, Nil, false);
      case RecordDefNode(name, first, count) => RecordDefSafe(p, name, first, count, w);
      case Fn(arity, localCount, body) => NewObjectSafe(w, Code(p, body, arity, localCount));
      case _ =>
    }
  }

  lemma {:induction false} StoreSafe(p: Program, n: nat, ls: seq<Value>, w: World, g: nat)
    requires ProgramSound(p) && n < |p.nodes| && WorldFine(w) && g > 0
    requires var x := p.nodes[n]; x.WriteLocal? || x.WriteSlot? || x.WriteSlotFallback? || x.ReadField?
    ensures Safe(Eval(p, n, ls, w, g))
    decreases g, 1
  {
    hide ProgramSound, HeapFine, ScriptFine, WriteSlotIn, WriteSlotFallbackIn, ReadFieldIn;
    NodeAt(p, n);
    var node := p.nodes[n];
    var child := if node.ReadField? then node.base else node.value;
    EvalSafe(p, child, ls, w, g - 1);
    var o := Eval(p, child, ls, w, g - 1);
    if o.Done? {
      match node
      case WriteSlot(name, _, existing) => SlotsSafe(o.world, name, name, o.value, existing);
      case WriteSlotFallback(name, fallback, _, existing) => SlotsSafe(o.world, name, fallback, o.value, existing);
      case ReadField(_, name) => ReadSafe(o.world, o.value, Nil, name);
      case _ =>
    }
  }

  lemma {:induction false} AccessSafe(p: Program, n: nat, ls: seq<Value>, w: World, g: nat)
    requires ProgramSound(p) && n < |p.nodes| && WorldFine(w) && g > 0
    requires var x := p.nodes[n]; x.ReadIndex? || x.WriteIndex? || x.WriteField?
    ensures Safe(Eval(p, n, ls, w, g))
    decreases g, 1
  {
    hide ProgramSound, HeapFine, ScriptFine, ReadIndexMid, WriteIndexMid, WriteFieldMid;
    NodeAt(p, n);
    EvalSafe(p, p.nodes[n].base, ls, w, g - 1);
    var o := Eval(p, p.nodes[n].base, ls, w, g - 1);
    if o.Done? {
      match p.nodes[n]
      case ReadIndex(_, index) => ReadIndexSafe(p, index, o.value, o.locals, o.world, o.gas);
      case WriteIndex(_, index, value) => StoreIndexSafe(p, index, value, o.value, o.locals, o.world, o.gas);
      case WriteField(_, name, value) => StoreFieldSafe(p, name, value, o.value, o.locals, o.world, o.gas);
    }
  }

  lemma {:induction false} CalleeSafe(p: Program, n: nat, ls: seq<Value>, w: World, g: nat)
    requires ProgramSound(p) && n < |p.nodes| && WorldFine(w) && g > 0 && p.nodes[n].Call?
    ensures Safe(Eval(p, n, ls, w, g))
    decreases g, 1
  {
    hide ProgramSound, HeapFine, ScriptFine, CallResolved, Arguments;
    NodeAt(p, n);
    var x := p.nodes[n];
    if x.builtin != NoBuiltin {
      ArgumentsSafe(p, x.firstArg, x.argCount, BuiltinCallee(x.builtin), 0, Nil, Nils(x.argCount), ls, w, g - 1);
    } else {
      EvalSafe(p, x.callee, ls, w, g - 1);
      var o := Eval(p, x.callee, ls, w, g - 1);
      if o.Done? { CallSafe(p, x.firstArg, x.argCount, o.value, o.locals, o.world, o.gas); }
    }
  }

  lemma {:induction false} ControlSafe(p: Program, n: nat, ls: seq<Value>, w: World, g: nat)
    requires ProgramSound(p) && n < |p.nodes| && WorldFine(w) && g > 0
    requires var x := p.nodes[n]; x.If? || x.While? || x.Seq?
    ensures Safe(Eval(p, n, ls, w, g))
    decreases g, 1
  {
    hide ProgramSound, HeapFine, ScriptFine, IfBranch, WhileTest, SeqFrom;
    NodeAt(p, n);
    if p.nodes[n].Seq? {
      SeqSafe(p, p.nodes[n].firstItem, p.nodes[n].itemCount, 0, ls, w, g);
      return;
    }
    EvalSafe(p, p.nodes[n].condition, ls, w, g - 1);
    var o := Eval(p, p.nodes[n].condition, ls, w, g - 1);
    if o.Done? {
      match p.nodes[n]
      case If(_, t, e, hasElse) => IfSafe(p, t, e, hasElse, o.value, o.locals, o.world, o.gas);
      case While(_, body) => WhileSafe(p, n, body, o.value, o.locals, o.world, o.gas);
    }
  }

  lemma {:induction false} ReadIndexSafe(p: Program, index: nat, vb: Value, ls: seq<Value>, w: World, g: nat)
    requires ProgramSound(p) && index < |p.nodes| && WorldFine(w)
    ensures Safe(ReadIndexMid(p, index, vb, ls, w, g))
    decreases g, 0
  {
    hide ProgramSound, HeapFine, ScriptFine, ReadIndexIn, Eval;
    if g > 0 {
      EvalSafe(p, index, ls, w, g - 1);
      var o := Eval(p, index, ls, w, g - 1);
      if o.Done? { ReadSafe(o.world, vb, o.value, ""); }
    }
  }

  lemma {:induction false} StoreIndexSafe(p: Program, index: nat, value: nat, vb: Value, ls: seq<Value>, w: World, g: nat)
    requires ProgramSound(p) && index < |p.nodes| && value < |p.nodes| && WorldFine(w)
    ensures Safe(WriteIndexMid(p, index, value, vb, ls, w, g))
    decreases g, 0
  {
    hide ProgramSound, HeapFine, ScriptFine, WriteIndexIn, Eval;
    if g > 0 {
      EvalSafe(p, index, ls, w, g - 1);
      var o := Eval(p, index, ls, w, g - 1);
      if o.Done? && o.gas > 0 {
        EvalSafe(p, value, o.locals, o.world, o.gas - 1);
        var v := Eval(p, value, o.locals, o.world, o.gas - 1);
        if v.Done? { WriteIndexSafe(v.world, vb, o.value, v.value); }
      }
    }
  }

  lemma {:induction false} StoreFieldSafe(p: Program, name: string, value: nat, vb: Value, ls: seq<Value>, w: World, g: nat)
    requires ProgramSound(p) && value < |p.nodes| && WorldFine(w)
    ensures Safe(WriteFieldMid(p, name, value, vb, ls, w, g))
    decreases g, 0
  {
    hide ProgramSound, HeapFine, ScriptFine, WriteFieldIn, Eval;
    if g > 0 {
      EvalSafe(p, value, ls, w, g - 1);
      var o := Eval(p, value, ls, w, g - 1);
      if o.Done? { WriteFieldSafe(o.world, vb, name, o.value); }
    }
  }

  /** What a callee needs of its buffer, and of its program if it has one. */
  ghost predicate CalleeFine(callee: Callee, size: nat, count: nat) {
    count <= size && (callee.CodeCallee? ==> ProgramSound(callee.program) && callee.body < |callee.program.nodes|)
  }

  lemma ResolveSafe(heap: seq<Object>, vc: Value, count: nat)
    requires HeapFine(heap)
    ensures match Resolve(Look(heap, vc), count)
            case Unresolved(e) => e != Malformed
            case Resolved(callee, size) => CalleeFine(callee, size, count)
  {
    hide ProgramSound, HeapFine;
    if Look(heap, vc).Some? { FineAt(heap, vc.id); }
  }

  lemma {:induction false} CallSafe(p: Program, first: nat, count: nat, vc: Value, ls: seq<Value>, w: World, g: nat)
    requires ProgramSound(p) && LinksBelow(p, first, count, |p.nodes|) && WorldFine(w)
    ensures Safe(CallResolved(p, first, count, vc, ls, w, g))
    decreases g, 0
  {
    hide ProgramSound, HeapFine, ScriptFine, Resolve, Arguments, LinksBelow, CalleeFine;
    ResolveSafe(w.heap, vc, count);
    SizeFine(Resolve(Look(w.heap, vc), count), count);
    if g > 0 {
      match Resolve(Look(w.heap, vc), count)
      case Unresolved(_) =>
      case Resolved(callee, size) => ArgumentsSafe(p, first, count, callee, 0, vc, Nils(size), ls, w, g - 1);
    }
  }

  lemma SizeFine(r: Resolution, count: nat)
    ensures r.Resolved? ==> |Nils(r.slots)| == r.slots
  {
  }

  lemma {:induction false} ArgumentsSafe(p: Program, first: nat, count: nat, callee: Callee, i: nat, vc: Value, args: seq<Value>,
                                         ls: seq<Value>, w: World, g: nat)
    requires ProgramSound(p) && LinksBelow(p, first, count, |p.nodes|) && CalleeFine(callee, |args|, count) && WorldFine(w)
    ensures Safe(Arguments(p, first, count, callee, i, vc, args, ls, w, g))
    decreases g, 0
  {
    hide ProgramSound, HeapFine, ScriptFine, Eval, BuiltinIn, NewRecordIn, NativeResult;
    if g == 0 { return; }
    if i < count {
      var child := p.links[first + i];
      EvalSafe(p, child, ls, w, g - 1);
      var o := Eval(p, child, ls, w, g - 1);
      if o.Done? { ArgumentsSafe(p, first, count, callee, i + 1, vc, args[i := o.value], o.locals, o.world, o.gas); }
    } else {
      match callee
      case BuiltinCallee(b) => BuiltinSafe(w, b, args);
      case RecordCallee => NewRecordSafe(w, vc, args);
      case NativeCallee(_) => NativeSafe(w, args);
      case CodeCallee(program, body) => EvalSafe(program, body, args, w, g - 1);
      case NoCallee =>
    }
  }

  lemma {:induction false} IfSafe(p: Program, t: nat, e: nat, hasElse: bool, c: Value, ls: seq<Value>, w: World, g: nat)
    requires ProgramSound(p) && t < |p.nodes| && (hasElse ==> e < |p.nodes|) && WorldFine(w)
    ensures Safe(IfBranch(p, t, e, hasElse, c, ls, w, g))
    decreases g, 0
  {
    hide ProgramSound, HeapFine, ScriptFine, Eval;
    if g > 0 && c.Bool? && (c.b || hasElse) { EvalSafe(p, if c.b then t else e, ls, w, g - 1); }
  }

  lemma {:induction false} WhileSafe(p: Program, n: nat, body: nat, c: Value, ls: seq<Value>, w: World, g: nat)
    requires ProgramSound(p) && n < |p.nodes| && body < |p.nodes| && WorldFine(w)
    ensures Safe(WhileTest(p, n, body, c, ls, w, g))
    decreases g, 0
  {
    hide ProgramSound, HeapFine, ScriptFine, Eval;
    if g > 0 && c.Bool? && c.b {
      EvalSafe(p, body, ls, w, g - 1);
      var o := Eval(p, body, ls, w, g - 1);
      if o.Done? && o.gas > 0 { EvalSafe(p, n, o.locals, o.world, o.gas - 1); }
    }
  }

  lemma {:induction false} SeqSafe(p: Program, first: nat, count: nat, i: nat, ls: seq<Value>, w: World, g: nat)
    requires ProgramSound(p) && LinksBelow(p, first, count, |p.nodes|) && (count > 0 ==> i < count) && WorldFine(w)
    ensures Safe(SeqFrom(p, first, count, i, ls, w, g))
    decreases g, 0
  {
    hide ProgramSound, HeapFine, ScriptFine, Eval;
    if g > 0 && count > 0 {
      var child := p.links[first + i];
      EvalSafe(p, child, ls, w, g - 1);
      var o := Eval(p, child, ls, w, g - 1);
      if o.Done? && o.gas > 0 && i + 1 < count { SeqSafe(p, first, count, i + 1, o.locals, o.world, o.gas - 1); }
    }
  }

  // ----- where sound programs come from -----

  /** Local numbers and counts fit a word, as every number in a 32-bit machine does. */
  ghost predicate LocalsFit(p: Program) {
    Small(p.rootLocalCount) && forall i :: 0 <= i < |p.nodes| ==>
      match p.nodes[i]
      case ReadLocal(l) => Small(l)
      case WriteLocal(l, _) => Small(l)
      case Fn(_, locals, _) => Small(locals)
      case _ => true
  }

  /** What the parser says of its programs makes them sound. */
  lemma ParsedIsSound(p: Program)
    requires Parser.WellFormed(p) && LiteralsReady(p) && Linking(p) && p.root < |p.nodes| && LocalsFit(p)
    requires |p.literals| <= LITERAL_CAPACITY && |p.nodes| <= NODE_CAPACITY && |p.links| <= LINK_CAPACITY
    ensures ProgramSound(p)
  {
    hide LiteralReady, Linking, Spelled, Locals.LocalsBelow;
    forall i | 0 <= i < |p.nodes| ensures NodeSound(p, p.nodes[i]) {
      assert Parser.Formed(p, p.nodes[i], i);
      BelowMore(p, p.nodes[i], i);
    }
  }

  lemma BelowMore(p: Program, n: Node, i: nat)
    requires RefersBelow(p, n, i) && i <= |p.nodes|
    ensures RefersBelow(p, n, |p.nodes|)
  {
  }

  /** So does what the decoder says of its programs. */
  lemma DecodedIsSound(p: Program, symbols: seq<string>)
    requires ProgramReady(p, symbols)
    ensures ProgramSound(p)
  {
    hide LiteralReady;
    forall i | 0 <= i < |p.nodes| ensures NodeSound(p, p.nodes[i]) {
      assert NodeReady(p.nodes[i], p, symbols);
    }
  }

  // ----- the machine -----

  lemma FineObject(h: Heap.Heap, heap: seq<Object>, m: Sim.Ids, i: nat)
    requires Sim.Simulates(h, heap, m) && HeapFine(heap) && Heap.IsLive(h, i)
    ensures ObjectSound(h, h[i].obj)
  {
    hide ProgramSound, HeapFine, Chars;
    assert Sim.CellMatches(m, h[i], heap, m[i]);
    FineAt(heap, m[i]);
    var o := h[i].obj;
    if o.Record? {
      var d := o.definition;
      assert d in Children(o) && Sim.Known(m, d);
      assert Sim.CellMatches(m, h[d.id], heap, m[d.id]);
    }
  }

  /** A counted heap that stands for a fine one is sound. */
  lemma FineIsSound(h: Heap.Heap, heap: seq<Object>, m: Sim.Ids)
    requires Sim.Simulates(h, heap, m) && HeapFine(heap)
    ensures Sound(h)
  {
    hide HeapFine, ObjectSound, Sim.Simulates;
    forall i {:trigger h[i]} | 0 <= i < |h| && h[i].Live? ensures ObjectSound(h, h[i].obj) {
      FineObject(h, heap, m, i);
    }
  }

  lemma OwnedIsSound(m: Evaluator.Machine)
    requires m.Owned(multiset{}) && WorldFine(m.Now().world)
    ensures Sound(m.rt.heap)
  {
    hide HeapFine, ScriptFine, Sim.Simulates, Sound;
    FineIsSound(m.rt.heap, m.created, m.ids);
  }

  /**
   Runs a sound program on a machine in order. Nothing is read out of range; and if the run
   ends by itself, with a value or an error, it leaves a heap that can be saved.
   */
  method RunSafely(machine: Evaluator.Machine, program: Program, fuel: nat, cut: bool) returns (err: Error, running: bool)
    requires machine.met == {} && machine.Owned(multiset{}) && machine.result == Nil
    requires ProgramSound(program) && WorldFine(machine.Now().world)
    modifies machine`met, machine`frames, machine`scratch, machine`arena, machine`result, machine`ids, machine`created, machine`slots, machine`script,
      machine`polls, machine`booted, machine`outerFrames, machine`outerScratch, machine`outerHeld, machine`outerView, machine`epoch,
      machine.rt, machine.rt.payload, machine.rt.payload.spans, machine.rt.cellspace, machine.rt.cellspace.spans
    ensures !running ==> err != Malformed
    ensures machine.epoch == old(machine.epoch) && !running && !machine.Met(err) ==>
      machine.Owned(multiset{}) && WorldFine(machine.Now().world) && Sound(machine.rt.heap)
  {
    hide Eval, ProgramSound, HeapFine, ScriptFine, Sound, Evaluator.Machine.Owned, Evaluator.View;
    RootInside(program);
    EvalSafe(program, program.root, Nils(program.rootLocalCount), machine.Now().world, fuel);
    err, running := machine.EvalProgram(program, fuel, cut, false);
    if machine.epoch == old(machine.epoch) && !running && !machine.Met(err) {
      OwnedIsSound(machine);
    }
  }

  lemma RootInside(p: Program)
    requires ProgramSound(p)
    ensures p.root < |p.nodes|
  {
  }
}

/**
 The meaning of programs: a recursive interpreter.

 It has no frames, no argument arena and no reference counts.  Its heap only ever
 grows, and an object is named by the order of its creation, so nothing here can be
 freed too early, too late or twice.  Gas bounds the number of evaluation steps;
 one unit is spent for each turn of the evaluator's loop.
 */
module Interp {
  import opened Ir
  import opened Values

  datatype Option<+T> = None | Some(value: T)

  datatype SlotEntry = SlotEntry(name: string, impl: Option<Value>, overlay: bool, arity: Option<nat>)

  /** A base form, and how many turns its evaluation may take. */
  datatype BaseForm = BaseForm(program: Program, fuel: nat)

  /** What the environment makes the next native call do. */
  datatype NativeEffect =
    | ReturnImmediate(v: Value)
    | ReturnArgument(i: nat)
    | ReturnText(text: string)
    | StoreElement(i: nat, index: Value, v: Value)  // into the cells that argument `i` refers to
    | FailWith(code: nat)
    | ResetRuntime(code: nat, seeds: seq<(string, string)>, forms: seq<BaseForm>)

  datatype World = World(
    heap: seq<Object>, slots: seq<SlotEntry>, script: seq<NativeEffect>, booted: bool)

  datatype Outcome =
    | Done(value: Value, locals: seq<Value>, world: World, gas: nat)
    | Stop(err: Error, world: World)
    | Wiped(err: Error)     // a native reset the runtime
    | OutOfGas

  /** The result of one primitive operation. */
  datatype Result = Value(value: Value, world: World) | Fail(err: Error, world: World)

  // ----- looking at values -----

  datatype Class =
    IntClass | BoolClass | NilClass | TextClass | CellsClass | CodeClass | NativeClass | RecordDefClass | RecordClass

  function ObjectClass(o: Object): Class {
    match o
    case Text(_) => TextClass
    case Cells(_) => CellsClass
    case Code(_, _, _, _) => CodeClass
    case Native(_, _) => NativeClass
    case RecordDef(_, _) => RecordDefClass
    case Record(_, _) => RecordClass
  }

  /** `o` is the object `v` refers to, if any. */
  function ClassOf(v: Value, o: Option<Object>): Option<Class> {
    match v
    case Int(_) => Some(IntClass)
    case Bool(_) => Some(BoolClass)
    case Nil => Some(NilClass)
    case Slot(_) => None
    case Obj(_) => if o.Some? then Some(ObjectClass(o.value)) else None
  }

  /** Cells and record fields hold scalars, texts and records only. */
  function Storable(v: Value, o: Option<Object>): Error {
    match ClassOf(v, o)
    case Some(c) =>
      if c in {IntClass, BoolClass, NilClass, TextClass, RecordClass} then Ok else TypeMismatch
    case None => if v.Slot? then TypeMismatch else Bounds
  }

  function EqualValues(a: Value, b: Value, oa: Option<Object>, ob: Option<Object>): Option<bool> {
    if a == b then Some(true)
    else if a.Slot? || b.Slot? then Some(false)
    else if ClassOf(a, oa).None? || ClassOf(b, ob).None? then None
    else Some(oa.Some? && ob.Some? && a.Obj? && b.Obj? && oa.value.Text? && oa.value == ob.value)
  }

  datatype BuiltinResult = Result(v: Value) | NewCells(n: nat) | Error(e: Error)

  function IntResult(n: int): BuiltinResult { Result(Int(WrapInt(n))) }

  /** `objs` are the objects the arguments refer to. */
  function ApplyBuiltin(b: Builtin, args: seq<Value>, objs: seq<Option<Object>>): BuiltinResult
    requires |objs| == |args|
  {
    match b
    case CellsOf =>
      if |args| != 1 || !args[0].Int? || args[0].n <= 0 then Error(Bounds) else NewCells(args[0].n)
    case Not =>
      if |args| != 1 || !args[0].Bool? then Error(TypeMismatch) else Result(Bool(!args[0].b))
    case Negate =>
      if |args| != 1 || !args[0].Int? then Error(TypeMismatch) else IntResult(0 - args[0].n)
    case NoBuiltin => Error(Signature)
    case Eq =>
      if |args| != 2 then Error(Signature)
      else (match EqualValues(args[0], args[1], objs[0], objs[1])
            case Some(e) => Result(Bool(e))
            case None => Error(Bounds))
    case Neq =>
      if |args| != 2 then Error(Signature)
      else (match EqualValues(args[0], args[1], objs[0], objs[1])
            case Some(e) => Result(Bool(!e))
            case None => Error(Bounds))
    case _ =>
      if |args| != 2 || !args[0].Int? || !args[1].Int? then Error(TypeMismatch)
      else Arithmetic(b, args[0].n, args[1].n)
  }

  function Arithmetic(b: Builtin, x: int, y: int): BuiltinResult {
    match b
    case Add => IntResult(x + y)
    case Sub => IntResult(x - y)
    case Mul => IntResult(x * y)
    case Div => if y == 0 then Error(DivisionByZero) else IntResult(TruncDiv(x, y))
    case Rem => if y == 0 then Error(DivisionByZero) else IntResult(TruncRem(x, y))
    case Lt => Result(Bool(x < y))
    case Le => Result(Bool(x <= y))
    case Gt => Result(Bool(x > y))
    case _ => Result(Bool(x >= y))
  }

  function Nils(n: nat): seq<Value> { seq(n, _ => Nil) }

  // ----- slots -----

  function FindSlot(slots: seq<SlotEntry>, name: string): (i: nat)
    ensures i <= |slots|
    ensures i < |slots| ==> slots[i].name == name
    ensures forall j | 0 <= j < i :: slots[j].name != name
  {
    if slots == [] || slots[0].name == name then 0 else 1 + FindSlot(slots[1..], name)
  }

  function ReadSlotValue(slots: seq<SlotEntry>, name: string): Option<Value> {
    var i := FindSlot(slots, name);
    if i < |slots| then slots[i].impl else None
  }

  /** A primary slot that exists is used even when nothing is bound to it. */
  function FallbackName(slots: seq<SlotEntry>, name: string, fallback: string): string {
    if FindSlot(slots, name) < |slots| then name else fallback
  }

  const ARITY_UNKNOWN: nat := 255

  function KnownArity(n: nat): Option<nat> { if n < ARITY_UNKNOWN then Some(n) else None }

  function SlotArity(o: Option<Object>): Option<nat> {
    match o
    case Some(Code(_, _, arity, _)) => KnownArity(arity)
    case Some(Native(_, arity)) => KnownArity(arity)
    case Some(RecordDef(_, fields)) => KnownArity(|fields|)
    case _ => None
  }

  /** Whether a write to `name` goes ahead. */
  function SlotWriteCheck(slots: seq<SlotEntry>, name: string, v: Value, requireExisting: bool): Error {
    if v.Slot? then TypeMismatch
    else if FindSlot(slots, name) == |slots| && requireExisting then UndefinedWord
    else Ok
  }

  function BindSlot(slots: seq<SlotEntry>, name: string, v: Value, overlay: bool, arity: Option<nat>): seq<SlotEntry> {
    var i := FindSlot(slots, name);
    var entry := SlotEntry(name, Some(v), overlay, arity);
    if i < |slots| then slots[i := entry] else slots + [entry]
  }

  // ----- primitive operations on the world -----

  function Look(heap: seq<Object>, v: Value): Option<Object> {
    if v.Obj? && v.id < |heap| then Some(heap[v.id]) else None
  }

  function LookAll(heap: seq<Object>, vs: seq<Value>): seq<Option<Object>> {
    seq(|vs|, i requires 0 <= i < |vs| => Look(heap, vs[i]))
  }

  function NewObjectIn(w: World, o: Object): Result {
    Value(Obj(|w.heap|), w.(heap := w.heap + [o]))
  }

  function LiteralValue(l: Literal, w: World): Result {
    match l
    case IntLiteral(n) => if FitsInt(n) then Value(Int(n), w) else Fail(ValueOverflow, w)
    case BoolLiteral(b) => Value(Bool(b), w)
    case NilLiteral => Value(Nil, w)
    case TextLiteral(t) => NewObjectIn(w, Text(t))
  }

  function ReadSlotIn(w: World, name: string): Result {
    match ReadSlotValue(w.slots, name)
    case Some(v) => Value(v, w)
    case None => Fail(UndefinedWord, w)
  }

  function WriteSlotIn(w: World, name: string, v: Value, requireExisting: bool): Result {
    var err := SlotWriteCheck(w.slots, name, v, requireExisting);
    if err == Ok
    then Value(Nil, w.(slots := BindSlot(w.slots, name, v, w.booted, SlotArity(Look(w.heap, v)))))
    else Fail(err, w)
  }

  function WriteSlotFallbackIn(w: World, name: string, fallback: string, v: Value, requireExisting: bool): Result {
    var r := WriteSlotIn(w, name, v, requireExisting);
    if r.Fail? && r.err == UndefinedWord then WriteSlotIn(w, fallback, v, requireExisting) else r
  }

  function DesignateIn(w: World, name: string): Result {
    if FindSlot(w.slots, name) < |w.slots| then Value(Slot(name), w) else Fail(UndefinedWord, w)
  }

  datatype Names = Names(names: seq<string>) | BadNames(err: Error)

  /** The field names of a record definition, read through the links. */
  function FieldNames(p: Program, first: nat, count: nat): Names
    decreases count
  {
    if count == 0 then Names([])
    else if first >= |p.links| || p.links[first] >= |p.literals|
         || !p.literals[p.links[first]].TextLiteral? then BadNames(Signature)
    else if p.literals[p.links[first]].text == "" then BadNames(Bounds)
    else match FieldNames(p, first + 1, count - 1)
         case Names(rest) => Names([p.literals[p.links[first]].text] + rest)
         case BadNames(e) => BadNames(e)
  }

  function RecordDefNames(p: Program, first: nat, count: nat): Names {
    if count == 0 || first + count > |p.links| then BadNames(Signature) else FieldNames(p, first, count)
  }

  function RecordDefIn(p: Program, name: string, first: nat, count: nat, w: World): Result {
    match RecordDefNames(p, first, count)
    case Names(names) => NewObjectIn(w, RecordDef(name, names))
    case BadNames(e) => Fail(e, w)
  }

  function FieldIndex(names: seq<string>, name: string): (i: nat)
    ensures i <= |names|
    ensures i < |names| ==> names[i] == name
    ensures forall j | 0 <= j < i :: names[j] != name
  {
    if names == [] || names[0] == name then 0 else 1 + FieldIndex(names[1..], name)
  }

  /** Where an indexed access lands, or why it fails. */
  datatype Place = At(index: nat) | Nowhere(err: Error)

  function CellPlace(o: Option<Object>, index: Value): Place {
    if o.None? || !o.value.Cells? then Nowhere(TypeMismatch)
    else if !index.Int? then Nowhere(TypeMismatch)
    else if index.n < 0 || index.n >= |o.value.items| then Nowhere(Bounds)
    else At(index.n)
  }

  /** `def` is the object that the record's definition refers to. */
  function FieldPlace(o: Option<Object>, def: Option<Object>, name: string): Place {
    if o.None? || !o.value.Record? then Nowhere(TypeMismatch)
    else if def.None? || !def.value.RecordDef? then Nowhere(TypeMismatch)
    else
      var i := FieldIndex(def.value.fieldNames, name);
      if i < |def.value.fieldNames| && i < |o.value.fields| then At(i) else Nowhere(Bounds)
  }

  function Definition(o: Option<Object>): Value {
    if o.Some? && o.value.Record? then o.value.definition else Nil
  }

  function ReadIndexIn(w: World, base: Value, index: Value): Result {
    var o := Look(w.heap, base);
    match CellPlace(o, index)
    case At(i) => Value(o.value.items[i], w)
    case Nowhere(e) => Fail(e, w)
  }

  function WriteIndexIn(w: World, base: Value, index: Value, v: Value): Result {
    var o := Look(w.heap, base);
    match CellPlace(o, index)
    case Nowhere(e) => Fail(e, w)
    case At(i) =>
      var err := Storable(v, Look(w.heap, v));
      if err != Ok then Fail(err, w)
      else Value(Nil, w.(heap := w.heap[base.id := Cells(o.value.items[i := v])]))
  }

  function ReadFieldIn(w: World, base: Value, name: string): Result {
    var o := Look(w.heap, base);
    match FieldPlace(o, Look(w.heap, Definition(o)), name)
    case At(i) => Value(o.value.fields[i], w)
    case Nowhere(e) => Fail(e, w)
  }

  function WriteFieldIn(w: World, base: Value, name: string, v: Value): Result {
    var err := Storable(v, Look(w.heap, v));
    if err != Ok then Fail(err, w)
    else
      var o := Look(w.heap, base);
      match FieldPlace(o, Look(w.heap, Definition(o)), name)
      case Nowhere(e) => Fail(e, w)
      case At(i) =>
        Value(Nil, w.(heap := w.heap[base.id := Record(o.value.definition, o.value.fields[i := v])]))
  }

  function FirstUnstorable(vs: seq<Value>, objs: seq<Option<Object>>): Error
    requires |objs| == |vs|
  {
    if vs == [] then Ok
    else if Storable(vs[0], objs[0]) != Ok then Storable(vs[0], objs[0])
    else FirstUnstorable(vs[1..], objs[1..])
  }

  function RecordCheck(def: Option<Object>, fields: seq<Value>, objs: seq<Option<Object>>): Error
    requires |objs| == |fields|
  {
    if |fields| == 0 then Bounds
    else if def.None? || !def.value.RecordDef? then TypeMismatch
    else if |def.value.fieldNames| != |fields| then Signature
    else FirstUnstorable(fields, objs)
  }

  function NewRecordIn(w: World, definition: Value, fields: seq<Value>): Result {
    var err := RecordCheck(Look(w.heap, definition), fields, LookAll(w.heap, fields));
    if err == Ok then NewObjectIn(w, Record(definition, fields)) else Fail(err, w)
  }

  function BuiltinIn(w: World, b: Builtin, args: seq<Value>): Result {
    match ApplyBuiltin(b, args, LookAll(w.heap, args))
    case Result(v) => Value(v, w)
    case NewCells(n) => if n == 0 then Fail(Bounds, w) else NewObjectIn(w, Cells(Nils(n)))
    case Error(e) => Fail(e, w)
  }

  // ----- calls -----

  /** What a call will run once its arguments are in place. */
  datatype Callee =
    | NoCallee
    | BuiltinCallee(builtin: Builtin)
    | NativeCallee(tag: nat)
    | RecordCallee
    | CodeCallee(program: Program, body: nat)

  /** A resolved callee and the size of its argument buffer, or why the call fails. */
  datatype Resolution = Resolved(callee: Callee, slots: nat) | Unresolved(err: Error)

  function Resolve(o: Option<Object>, argCount: nat): Resolution {
    match o
    case Some(Code(program, body, arity, localCount)) =>
      if arity != argCount || localCount < arity then Unresolved(Signature)
      else Resolved(CodeCallee(program, body), localCount)
    case Some(Native(tag, arity)) =>
      if arity != argCount then Unresolved(Signature) else Resolved(NativeCallee(tag), argCount)
    case Some(RecordDef(_, fields)) =>
      if |fields| != argCount then Unresolved(Signature) else Resolved(RecordCallee, argCount)
    case _ => Unresolved(TypeMismatch)
  }

  function NextEffect(script: seq<NativeEffect>): NativeEffect {
    if script == [] then ReturnImmediate(Nil) else script[0]
  }

  function Rest<T>(s: seq<T>): seq<T> { if s == [] then [] else s[1..] }

  function Immediate(v: Value): Value { if v.Obj? then Nil else v }

  /** The error of a call whose native has reset the runtime. */
  function ResetError(code: nat): Error { if code == 0 then Reset else Other(code) }

  /** What a native call yields that does not reset the runtime. */
  function NativeResult(w: World, args: seq<Value>): Result {
    EffectResult(NextEffect(w.script), w.(script := Rest(w.script)), args)
  }

  function EffectResult(effect: NativeEffect, w: World, args: seq<Value>): Result {
    match effect
    case ReturnImmediate(v) => Value(Immediate(v), w)
    case ReturnArgument(k) => Value(ArgumentOf(args, k), w)
    case ReturnText(text) => Value(Obj(|w.heap|), w.(heap := w.heap + [Text(text)]))
    case StoreElement(k, index, v) => WriteIndexIn(w, ArgumentOf(args, k), Immediate(index), Immediate(v))
    case FailWith(code) => Fail(Other(code), w)
    case ResetRuntime(code, _, _) => Fail(ResetError(code), w)
  }

  function ArgumentOf(args: seq<Value>, k: nat): Value { if k < |args| then args[k] else Nil }

  // ----- evaluation -----

  function Finish(r: Result, locals: seq<Value>, gas: nat): Outcome {
    match r
    case Value(v, w) => Done(v, locals, w, gas)
    case Fail(e, w) => Stop(e, w)
  }

  function Eval(p: Program, n: nat, ls: seq<Value>, w: World, g: nat): (o: Outcome)
    ensures o.Done? ==> o.gas < g && |o.locals| == |ls|
    decreases g, 1
  {
    if g == 0 then OutOfGas
    else if n >= |p.nodes| then Stop(Malformed, w)
    else match p.nodes[n]
    case Lit(l) => if l >= |p.literals| then Stop(Malformed, w) else Finish(LiteralValue(p.literals[l], w), ls, g - 1)
    case ReadLocal(i) => if i >= |ls| then Stop(Bounds, w) else Done(ls[i], ls, w, g - 1)
    case WriteLocal(i, value) =>
      if i >= |ls| then Stop(Bounds, w)
      else (match Eval(p, value, ls, w, g - 1)
            case Done(v, ls1, w1, g1) => WriteLocalEnd(i, v, ls1, w1, g1)
            case o => o)
    case ReadSlot(name) => Finish(ReadSlotIn(w, name), ls, g - 1)
    case ReadSlotFallback(name, fallback) =>
      Finish(ReadSlotIn(w, FallbackName(w.slots, name, fallback)), ls, g - 1)
    case WriteSlot(name, value, requireExisting) =>
      (match Eval(p, value, ls, w, g - 1)
       case Done(v, ls1, w1, g1) => End(WriteSlotIn(w1, name, v, requireExisting), ls1, w1, g1)
       case o => o)
    case WriteSlotFallback(name, fallback, value, requireExisting) =>
      (match Eval(p, value, ls, w, g - 1)
       case Done(v, ls1, w1, g1) => End(WriteSlotFallbackIn(w1, name, fallback, v, requireExisting), ls1, w1, g1)
       case o => o)
    case SlotDesignator(name) => Finish(DesignateIn(w, name), ls, g - 1)
    case RecordDefNode(name, first, count) => Finish(RecordDefIn(p, name, first, count, w), ls, g - 1)
    case ReadIndex(base, index) =>
      (match Eval(p, base, ls, w, g - 1)
       case Done(vb, ls1, w1, g1) => ReadIndexMid(p, index, vb, ls1, w1, g1)
       case o => o)
    case WriteIndex(base, index, value) =>
      (match Eval(p, base, ls, w, g - 1)
       case Done(vb, ls1, w1, g1) => WriteIndexMid(p, index, value, vb, ls1, w1, g1)
       case o => o)
    case ReadField(base, name) =>
      (match Eval(p, base, ls, w, g - 1)
       case Done(vb, ls1, w1, g1) => End(ReadFieldIn(w1, vb, name), ls1, w1, g1)
       case o => o)
    case WriteField(base, name, value) =>
      (match Eval(p, base, ls, w, g - 1)
       case Done(vb, ls1, w1, g1) => WriteFieldMid(p, name, value, vb, ls1, w1, g1)
       case o => o)
    case Fn(arity, localCount, body) => Finish(NewObjectIn(w, Code(p, body, arity, localCount)), ls, g - 1)
    case Call(builtin, callee, first, count) =>
      if builtin != NoBuiltin
      then Arguments(p, first, count, BuiltinCallee(builtin), 0, Nil, Nils(count), ls, w, g - 1)
      else (match Eval(p, callee, ls, w, g - 1)
            case Done(vc, ls1, w1, g1) => CallResolved(p, first, count, vc, ls1, w1, g1)
            case o => o)
    case If(condition, thenBranch, elseBranch, hasElse) =>
      (match Eval(p, condition, ls, w, g - 1)
       case Done(c, ls1, w1, g1) => IfBranch(p, thenBranch, elseBranch, hasElse, c, ls1, w1, g1)
       case o => o)
    case While(condition, body) =>
      (match Eval(p, condition, ls, w, g - 1)
       case Done(c, ls1, w1, g1) => WhileTest(p, n, body, c, ls1, w1, g1)
       case o => o)
    case Seq(first, count) => SeqFrom(p, first, count, 0, ls, w, g)
  }

  /** The last step of a node: one more unit of gas, then the primitive's result. */
  function End(r: Result, ls: seq<Value>, w: World, g: nat): (o: Outcome)
    ensures o.Done? ==> o.gas < g && |o.locals| == |ls|
  {
    if g == 0 then OutOfGas else Finish(r, ls, g - 1)
  }

  function Return(v: Value, ls: seq<Value>, w: World, g: nat): (o: Outcome)
    ensures o.Done? ==> o.gas < g && |o.locals| == |ls|
  {
    End(Value(v, w), ls, w, g)
  }

  function WriteLocalEnd(i: nat, v: Value, ls: seq<Value>, w: World, g: nat): (o: Outcome)
    ensures o.Done? ==> o.gas < g && |o.locals| == |ls|
  {
    if g == 0 then OutOfGas
    else if i >= |ls| then Stop(Bounds, w)
    else Done(Nil, ls[i := v], w, g - 1)
  }

  function ReadIndexMid(p: Program, index: nat, vb: Value, ls: seq<Value>, w: World, g: nat): (o: Outcome)
    ensures o.Done? ==> o.gas < g && |o.locals| == |ls|
    decreases g, 0
  {
    if g == 0 then OutOfGas
    else match Eval(p, index, ls, w, g - 1)
         case Done(vi, ls1, w1, g1) => End(ReadIndexIn(w1, vb, vi), ls1, w1, g1)
         case o => o
  }

  function WriteIndexMid(p: Program, index: nat, value: nat, vb: Value, ls: seq<Value>, w: World, g: nat): (o: Outcome)
    ensures o.Done? ==> o.gas < g && |o.locals| == |ls|
    decreases g, 0
  {
    if g == 0 then OutOfGas
    else match Eval(p, index, ls, w, g - 1)
         case Done(vi, ls1, w1, g1) => WriteIndexLate(p, value, vb, vi, ls1, w1, g1)
         case o => o
  }

  function WriteIndexLate(p: Program, value: nat, vb: Value, vi: Value, ls: seq<Value>, w: World, g: nat): (o: Outcome)
    ensures o.Done? ==> o.gas < g && |o.locals| == |ls|
    decreases g, 0
  {
    if g == 0 then OutOfGas
    else match Eval(p, value, ls, w, g - 1)
         case Done(v, ls1, w1, g1) => End(WriteIndexIn(w1, vb, vi, v), ls1, w1, g1)
         case o => o
  }

  function WriteFieldMid(p: Program, name: string, value: nat, vb: Value, ls: seq<Value>, w: World, g: nat): (o: Outcome)
    ensures o.Done? ==> o.gas < g && |o.locals| == |ls|
    decreases g, 0
  {
    if g == 0 then OutOfGas
    else match Eval(p, value, ls, w, g - 1)
         case Done(v, ls1, w1, g1) => End(WriteFieldIn(w1, vb, name, v), ls1, w1, g1)
         case o => o
  }

  function CallResolved(p: Program, first: nat, count: nat, vc: Value, ls: seq<Value>, w: World, g: nat): (o: Outcome)
    ensures o.Done? ==> o.gas < g && |o.locals| == |ls|
    decreases g, 0
  {
    if g == 0 then OutOfGas
    else match Resolve(Look(w.heap, vc), count)
         case Unresolved(e) => Stop(e, w)
         case Resolved(callee, size) => Arguments(p, first, count, callee, 0, vc, Nils(size), ls, w, g - 1)
  }

  /** Evaluates the arguments from number `i` on into `args`, then makes the call. */
  function Arguments(p: Program, first: nat, count: nat, callee: Callee, i: nat, vc: Value, args: seq<Value>,
                     ls: seq<Value>, w: World, g: nat): (o: Outcome)
    ensures o.Done? ==> o.gas < g && |o.locals| == |ls|
    decreases g, 0
  {
    if g == 0 then OutOfGas
    else if i < count then
      if first + i >= |p.links| || i >= |args| then Stop(Malformed, w)
      else match Eval(p, p.links[first + i], ls, w, g - 1)
           case Done(v, ls1, w1, g1) => Arguments(p, first, count, callee, i + 1, vc, args[i := v], ls1, w1, g1)
           case o => o
    else match callee
    case BuiltinCallee(b) => Finish(BuiltinIn(w, b, args), ls, g - 1)
    case RecordCallee => Finish(NewRecordIn(w, vc, args), ls, g - 1)
    case NativeCallee(_) =>
      if NextEffect(w.script).ResetRuntime? then Wiped(ResetError(NextEffect(w.script).code))
      else Finish(NativeResult(w, args), ls, g - 1)
    case CodeCallee(program, body) =>
      (match Eval(program, body, args, w, g - 1)
       case Done(v, _, w1, g1) => Return(v, ls, w1, g1)
       case o => o)
    case NoCallee => Stop(Signature, w)
  }

  function IfBranch(p: Program, thenBranch: nat, elseBranch: nat, hasElse: bool, c: Value,
                    ls: seq<Value>, w: World, g: nat): (o: Outcome)
    ensures o.Done? ==> o.gas < g && |o.locals| == |ls|
    decreases g, 0
  {
    if g == 0 then OutOfGas
    else if !c.Bool? then Stop(TypeMismatch, w)
    else if !c.b && !hasElse then Done(Nil, ls, w, g - 1)
    else match Eval(p, if c.b then thenBranch else elseBranch, ls, w, g - 1)
         case Done(v, ls1, w1, g1) => Return(v, ls1, w1, g1)
         case o => o
  }

  function WhileTest(p: Program, n: nat, body: nat, c: Value, ls: seq<Value>, w: World, g: nat): (o: Outcome)
    ensures o.Done? ==> o.gas < g && |o.locals| == |ls|
    decreases g, 0
  {
    if g == 0 then OutOfGas
    else if !c.Bool? then Stop(TypeMismatch, w)
    else if !c.b then Done(Nil, ls, w, g - 1)
    else match Eval(p, body, ls, w, g - 1)
         case Done(_, ls1, w1, g1) => WhileNext(p, n, ls1, w1, g1)
         case o => o
  }

  function WhileNext(p: Program, n: nat, ls: seq<Value>, w: World, g: nat): (o: Outcome)
    ensures o.Done? ==> o.gas < g && |o.locals| == |ls|
    decreases g, 0
  {
    if g == 0 then OutOfGas else Eval(p, n, ls, w, g - 1)
  }

  /** Evaluates the items of a sequence from number `i` on; the last one is the result. */
  function SeqFrom(p: Program, first: nat, count: nat, i: nat, ls: seq<Value>, w: World, g: nat): (o: Outcome)
    ensures o.Done? ==> o.gas < g && |o.locals| == |ls|
    decreases g, 0
  {
    if g == 0 then OutOfGas
    else if count == 0 then Done(Nil, ls, w, g - 1)
    else if first + i >= |p.links| then Stop(Malformed, w)
    else match Eval(p, p.links[first + i], ls, w, g - 1)
         case Done(v, ls1, w1, g1) =>
           if i + 1 < count then SeqNext(p, first, count, i + 1, ls1, w1, g1) else Return(v, ls1, w1, g1)
         case o => o
  }

  function SeqNext(p: Program, first: nat, count: nat, i: nat, ls: seq<Value>, w: World, g: nat): (o: Outcome)
    ensures o.Done? ==> o.gas < g && |o.locals| == |ls|
    decreases g, 0
  {
    if g == 0 then OutOfGas else SeqFrom(p, first, count, i, ls, w, g - 1)
  }
}

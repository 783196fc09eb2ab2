/**
 Runtime values, heap objects, and the tagged-integer arithmetic.
 */
module Values {
  import opened Ir

  datatype Error =
    | Ok
    | TypeMismatch | UndefinedWord | DivisionByZero | OutOfMemory | ValueOverflow | Bounds
    | Interrupted | SlotTableFull | CallDepth | Reset | CellspaceFull | Signature
    | Malformed    // the source would read outside its arrays
    | Other(code: nat)

  const INT_MIN: int := -0x2000_0000
  const INT_MAX: int := 0x1FFF_FFFF

  /** What fits in a value's tagged word: 30 bits, signed. */
  type Int30 = n: int | INT_MIN <= n <= INT_MAX

  /** A value refers to a heap object by its index. */
  datatype Value = Int(n: Int30) | Bool(b: bool) | Nil | Slot(name: string) | Obj(id: nat)

  datatype Object =
    | Text(text: string)
    | Cells(items: seq<Value>)
    | Code(program: Program, body: nat, arity: nat, localCount: nat)
    | Native(tag: nat, arity: nat)
    | RecordDef(name: string, fieldNames: seq<string>)
    | Record(definition: Value, fields: seq<Value>)

  /** The owned references of an object, in the order in which they are released. */
  function Children(o: Object): seq<Value> {
    match o
    case Cells(items) => items
    case Record(definition, fields) => fields + [definition]
    case _ => []
  }

  // ----- 30-bit arithmetic -----

  predicate FitsInt(n: int) { INT_MIN <= n <= INT_MAX }

  /** Keeps the low 30 bits and sign-extends them. */
  function WrapInt(raw: int): (n: int)
    ensures FitsInt(n) && (raw - n) % 0x4000_0000 == 0
    ensures FitsInt(raw) ==> n == raw
  {
    var bits := raw % 0x4000_0000;
    if bits >= 0x2000_0000 then bits - 0x4000_0000 else bits
  }

  /** C division truncates toward zero; Dafny's does not. */
  function TruncDiv(a: int, b: int): int
    requires b != 0
  {
    if a >= 0 then a / b else -((-a) / b)
  }

  function TruncRem(a: int, b: int): int
    requires b != 0
  {
    a - b * TruncDiv(a, b)
  }

  // ----- reference multisets -----

  ghost function Ref(v: Value): multiset<nat> {
    if v.Obj? then multiset{v.id} else multiset{}
  }

  ghost function Refs(vs: seq<Value>): multiset<nat> {
    if vs == [] then multiset{} else Ref(vs[0]) + Refs(vs[1..])
  }

  lemma {:induction false} RefsConcat(a: seq<Value>, b: seq<Value>)
    ensures Refs(a + b) == Refs(a) + Refs(b)
  {
    if a == [] {
      assert a + b == b;
    } else {
      assert (a + b)[0] == a[0] && (a + b)[1..] == a[1..] + b;
      RefsConcat(a[1..], b);
    }
  }

  lemma RefsUpdate(vs: seq<Value>, i: nat, v: Value)
    requires i < |vs|
    ensures Refs(vs[i := v]) + Ref(vs[i]) == Refs(vs) + Ref(v)
  {
    var a, b := vs[..i], vs[i + 1..];
    assert vs == a + ([vs[i]] + b) && vs[i := v] == a + ([v] + b);
    RefsConcat(a, [vs[i]] + b);
    RefsConcat(a, [v] + b);
    assert ([vs[i]] + b)[1..] == b && ([v] + b)[1..] == b;
  }

  lemma {:induction false} RefsOf(vs: seq<Value>, k: nat)
    ensures k in Refs(vs) <==> Obj(k) in vs
  {
    if vs != [] { RefsOf(vs[1..], k); }
  }
}

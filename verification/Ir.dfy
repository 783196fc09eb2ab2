/**
 The intermediate representation: literals, nodes and links in flat arrays,
 addressed by index.
 */
module Ir {

  /** Stands for "no node" in memory and on the wire. */
  const NODE_INVALID: nat := 0xFFFF_FFFF

  datatype Literal = IntLiteral(n: int) | BoolLiteral(b: bool) | NilLiteral | TextLiteral(text: string)

  datatype Builtin =
    | NoBuiltin | CellsOf | Not | Negate
    | Add | Sub | Mul | Div | Rem
    | Lt | Le | Gt | Ge | Eq | Neq

  datatype Node =
    | Lit(literal: nat)
    | ReadLocal(local: nat)
    | WriteLocal(local: nat, value: nat)
    | ReadSlot(name: string)
    | WriteSlot(name: string, value: nat, requireExisting: bool)
    | ReadSlotFallback(name: string, fallback: string)
    | WriteSlotFallback(name: string, fallback: string, value: nat, requireExisting: bool)
    | SlotDesignator(name: string)
    | RecordDefNode(name: string, firstField: nat, fieldCount: nat)
    | ReadIndex(base: nat, index: nat)
    | WriteIndex(base: nat, index: nat, value: nat)
    | ReadField(base: nat, field: string)
    | WriteField(base: nat, field: string, value: nat)
    | Fn(arity: nat, localCount: nat, body: nat)
    | Call(builtin: Builtin, callee: nat, firstArg: nat, argCount: nat)
    | If(condition: nat, thenBranch: nat, elseBranch: nat, hasElse: bool)
    | While(condition: nat, body: nat)
    | Seq(firstItem: nat, itemCount: nat)

  datatype Program = Program(
    literals: seq<Literal>, nodes: seq<Node>, links: seq<nat>, root: nat, rootLocalCount: nat)

  /** The node ids and array spans a node refers to, each below `bound`. */
  ghost predicate RefersBelow(p: Program, node: Node, bound: nat) {
    match node
    case Lit(l) => l < |p.literals|
    case ReadLocal(_) => true
    case WriteLocal(_, v) => v < bound
    case ReadSlot(_) => true
    case WriteSlot(_, v, _) => v < bound
    case ReadSlotFallback(_, _) => true
    case WriteSlotFallback(_, _, v, _) => v < bound
    case SlotDesignator(_) => true
    case RecordDefNode(_, _, _) => true
    case ReadIndex(b, i) => b < bound && i < bound
    case WriteIndex(b, i, v) => b < bound && i < bound && v < bound
    case ReadField(b, _) => b < bound
    case WriteField(b, _, v) => b < bound && v < bound
    case Fn(_, _, body) => body < bound
    case Call(builtin, callee, first, count) =>
      (builtin == NoBuiltin ==> callee < bound) && LinksBelow(p, first, count, bound)
    case If(c, t, e, hasElse) => c < bound && t < bound && (hasElse ==> e < bound)
    case While(c, b) => c < bound && b < bound
    case Seq(first, count) => LinksBelow(p, first, count, bound)
  }

  ghost predicate LinksBelow(p: Program, first: nat, count: nat, bound: nat) {
    first + count <= |p.links| && forall k | first <= k < first + count :: p.links[k] < bound
  }

  /** Every reference stays inside the program's arrays. */
  ghost predicate InRange(p: Program) {
    forall i | 0 <= i < |p.nodes| :: RefersBelow(p, p.nodes[i], |p.nodes|)
  }

  /** Children and link targets come before their parents. */
  ghost predicate Backward(p: Program) {
    forall i | 0 <= i < |p.nodes| :: RefersBelow(p, p.nodes[i], i)
  }
}

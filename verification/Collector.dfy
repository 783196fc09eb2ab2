/**
 Which objects and symbols a snapshot needs: a depth-first walk from the overlay that
 numbers an object only after everything it refers to.
 */
module Collector {
  import opened Ir
  import opened Values
  import opened Heap
  import opened Interp
  import opened Names
  import opened Image
  import opened Encoder

  datatype Tables = Tables(symbols: seq<string>, items: seq<nat>)

  datatype Collected = Found(tables: Tables) | Refused(err: Error)

  // ----- symbols -----

  function AddSymbol(t: Tables, name: string): Collected {
    if name in t.symbols then Found(t)
    else if |name| >= 0x1_0000 || !SlotName(name) then Refused(SNAPSHOT_BAD_NAME)
    else if |t.symbols| + 1 > SYMBOL_CAPACITY then Refused(OutOfMemory)
    else Found(t.(symbols := t.symbols + [name]))
  }

  function AddSymbols(t: Tables, names: seq<string>): Collected
    decreases |names|
  {
    if names == [] then Found(t)
    else
      match AddSymbol(t, names[0])
      case Found(more) => AddSymbols(more, names[1..])
      case refused => refused
  }

  /** The slots a node names, in the order in which they are met. */
  function NodeSymbols(n: Node): seq<string> {
    match n
    case ReadSlot(name) => [name]
    case ReadSlotFallback(name, other) => [name, other]
    case WriteSlot(name, _, _) => [name]
    case WriteSlotFallback(name, other, _, _) => [name, other]
    case SlotDesignator(name) => [name]
    case _ => []
  }

  function NodesSymbols(ns: seq<Node>): seq<string> {
    if ns == [] then [] else NodeSymbols(ns[0]) + NodesSymbols(ns[1..])
  }

  // ----- objects -----

  function AddItem(t: Tables, id: nat, capacity: nat): Collected {
    if |t.items| + 1 > capacity then Refused(OutOfMemory) else Found(t.(items := t.items + [id]))
  }

  /** The records a walk is inside of: distinct places of the heap. */
  predicate Path(stack: seq<nat>, size: nat) {
    && (forall k :: 0 <= k < |stack| ==> stack[k] < size)
    && (forall j, k :: 0 <= j < k < |stack| ==> stack[j] != stack[k])
  }

  /** Distinct places are no more than there are places. */
  lemma {:induction false} PathFits(stack: seq<nat>, size: nat)
    requires Path(stack, size)
    ensures |stack| <= size
    decreases size
  {
    if stack != [] {
      var top := size - 1;
      if top in stack {
        var i :| 0 <= i < |stack| && stack[i] == top;
        var rest := stack[..i] + stack[i + 1..];
        forall j, k | 0 <= j < k < |rest| ensures rest[j] != rest[k] {
          assert rest[j] == stack[if j < i then j else j + 1] && rest[k] == stack[if k < i then k else k + 1];
        }
        forall k | 0 <= k < |rest| ensures rest[k] < top {
          assert rest[k] == stack[if k < i then k else k + 1];
        }
        PathFits(rest, top);
      } else {
        PathFits(stack, top);
      }
    }
  }

  lemma PathPush(stack: seq<nat>, size: nat, id: nat)
    requires Path(stack, size) && id < size && id !in stack
    ensures Path(stack + [id], size) && |stack| < size
  {
    var more := stack + [id];
    forall j, k | 0 <= j < k < |more| ensures more[j] != more[k] {
      if k == |stack| {
        assert more[j] in stack;
      }
    }
    PathFits(more, size);
  }

  function IsCells(h: Heap, v: Value): nat {
    if v.Obj? && IsLive(h, v.id) && h[v.id].obj.Cells? then 2 else 0
  }

  function Visit(h: Heap, v: Value, t: Tables, stack: seq<nat>, capacity: nat): Collected
    requires Path(stack, |h|)
    decreases |h| - |stack|, IsCells(h, v), 1
  {
    PathFits(stack, |h|);
    if !v.Obj? then Found(t)
    else if !IsLive(h, v.id) then Refused(Bounds)
    else if h[v.id].obj.Record? && v.id in stack then Refused(NOT_PERSISTABLE)
    else if v.id in t.items then Found(t)
    else
      match h[v.id].obj
      case Text(_) => AddItem(t, v.id, capacity)
      case RecordDef(_, _) => AddItem(t, v.id, capacity)
      case Native(_, _) => Refused(NOT_PERSISTABLE)
      case Code(program, _, _, _) => Then(AddSymbols(t, NodesSymbols(program.nodes)), v.id, capacity)
      case Cells(values) => Then(VisitAll(h, values, t, stack, capacity), v.id, capacity)
      case Record(definition, fields) => VisitRecord(h, v.id, t, stack, capacity)
  }

  function VisitRecord(h: Heap, id: nat, t: Tables, stack: seq<nat>, capacity: nat): Collected
    requires Path(stack, |h|) && IsLive(h, id) && h[id].obj.Record? && id !in stack
    decreases |h| - |stack|, 0, 0
  {
    PathFits(stack, |h|);
    PathPush(stack, |h|, id);
    match Visit(h, h[id].obj.definition, t, stack + [id], capacity)
    case Refused(err) => Refused(err)
    case Found(more) => Then(VisitAll(h, h[id].obj.fields, more, stack + [id], capacity), id, capacity)
  }

  /** Numbers an object after what it refers to. */
  function Then(before: Collected, id: nat, capacity: nat): Collected {
    match before
    case Refused(err) => Refused(err)
    case Found(t) => AddItem(t, id, capacity)
  }

  /** The contents of an object, in order. */
  function VisitAll(h: Heap, vs: seq<Value>, t: Tables, stack: seq<nat>, capacity: nat): Collected
    requires Path(stack, |h|)
    decreases |h| - |stack|, 1, |vs|
  {
    PathFits(stack, |h|);
    if vs == [] then Found(t)
    else
      var v := vs[0];
      if v.Int? || v.Bool? || v.Nil? then VisitAll(h, vs[1..], t, stack, capacity)
      else if v.Slot? then Refused(TypeMismatch)
      else if !IsLive(h, v.id) then Refused(Bounds)
      else if h[v.id].obj.Text? || h[v.id].obj.Record? then
        match Visit(h, v, t, stack, capacity)
        case Refused(err) => Refused(err)
        case Found(more) => VisitAll(h, vs[1..], more, stack, capacity)
      else Refused(NOT_PERSISTABLE)
  }

  /** The walk over the overlay slots; a slot gives its name even if nothing is bound to it. */
  function CollectFrom(h: Heap, slots: seq<SlotEntry>, t: Tables, capacity: nat): Collected
    decreases |slots|
  {
    if slots == [] then Found(t)
    else
      match CollectSlot(h, slots[0], t, capacity)
      case Refused(err) => Refused(err)
      case Found(more) => CollectFrom(h, slots[1..], more, capacity)
  }

  function CollectSlot(h: Heap, s: SlotEntry, t: Tables, capacity: nat): Collected {
    if !s.overlay then Found(t)
    else
      match AddSymbol(t, s.name)
      case Refused(err) => Refused(err)
      case Found(named) => if s.impl.None? then Found(named) else Visit(h, s.impl.value, named, [], capacity)
  }

  function Collect(h: Heap, slots: seq<SlotEntry>, capacity: nat): Collected {
    if |h| > capacity then Refused(OutOfMemory) else CollectFrom(h, slots, Tables([], []), capacity)
  }

  // ----- the order of the numbers -----

  /** Record definitions are what records refer to; the runtime makes no other records. */
  predicate Defined(h: Heap) {
    forall i {:trigger h[i]} :: 0 <= i < |h| && h[i].Live? && h[i].obj.Record? ==>
      var d := h[i].obj.definition;
      d.Obj? && IsLive(h, d.id) && h[d.id].obj.RecordDef?
  }

  /** What an object refers to is among `items`. */
  predicate Closed(h: Heap, o: Object, symbols: seq<string>, items: seq<nat>) {
    match o
    case Cells(values) => AllInner(h, values, items)
    case Code(program, _, _, _) => forall k :: 0 <= k < |program.nodes| ==> forall s | s in NodeSymbols(program.nodes[k]) :: s in symbols
    case Record(definition, fields) => definition.Obj? && definition.id in items && AllInner(h, fields, items)
    case Native(_, _) => false
    case _ => true
  }

  ghost predicate ItemOk(h: Heap, t: Tables, k: nat)
    requires k < |t.items|
  {
    IsLive(h, t.items[k]) && Closed(h, h[t.items[k]].obj, t.symbols, t.items[..k])
  }

  /** Objects are numbered once each, and strictly after everything they refer to. */
  ghost predicate Ordered(h: Heap, t: Tables) {
    && (forall k :: 0 <= k < |t.items| ==> ItemOk(h, t, k))
    && (forall j, k :: 0 <= j < k < |t.items| ==> t.items[j] != t.items[k])
    && SymbolsReady(t.symbols)
  }

  /** `after` continues `before`. */
  predicate Longer(before: Tables, after: Tables) {
    before.symbols <= after.symbols && before.items <= after.items
  }

  lemma InnerMore(h: Heap, vs: seq<Value>, items: seq<nat>, more: seq<nat>)
    requires AllInner(h, vs, items) && (forall i | i in items :: i in more)
    ensures AllInner(h, vs, more)
  {
    forall k | 0 <= k < |vs| ensures Inner(h, vs[k], more) {
      assert Inner(h, vs[k], items);
    }
  }

  lemma ClosedMore(h: Heap, o: Object, symbols: seq<string>, more: seq<string>, items: seq<nat>, longer: seq<nat>)
    requires Closed(h, o, symbols, items) && symbols <= more && (forall i | i in items :: i in longer)
    ensures Closed(h, o, more, longer)
  {
    hide NodeSymbols, Inner;
    match o {
      case Cells(values) => InnerMore(h, values, items, longer);
      case Record(_, fields) => InnerMore(h, fields, items, longer);
      case _ =>
    }
  }

  lemma OrderedSymbols(h: Heap, t: Tables, symbols: seq<string>)
    requires Ordered(h, t) && t.symbols <= symbols && SymbolsReady(symbols)
    ensures Ordered(h, t.(symbols := symbols))
  {
    hide Closed, SymbolsReady;
    var more := t.(symbols := symbols);
    forall k | 0 <= k < |more.items| ensures ItemOk(h, more, k) {
      assert ItemOk(h, t, k);
      ClosedMore(h, h[t.items[k]].obj, t.symbols, symbols, t.items[..k], t.items[..k]);
    }
  }

  lemma OrderedItem(h: Heap, t: Tables, id: nat)
    requires Ordered(h, t) && id !in t.items && IsLive(h, id) && Closed(h, h[id].obj, t.symbols, t.items)
    ensures Ordered(h, t.(items := t.items + [id]))
  {
    hide Closed, SymbolsReady;
    var more := t.(items := t.items + [id]);
    forall k | 0 <= k < |more.items| ensures ItemOk(h, more, k) {
      if k < |t.items| {
        assert ItemOk(h, t, k);
        assert more.items[..k] == t.items[..k];
      } else {
        assert more.items[..k] == t.items;
      }
    }
    forall j, k | 0 <= j < k < |more.items| ensures more.items[j] != more.items[k] {
      if k == |t.items| {
        assert more.items[j] in t.items;
      }
    }
  }

  lemma AddSymbolOk(h: Heap, t: Tables, name: string)
    requires Ordered(h, t) && AddSymbol(t, name).Found?
    ensures var r := AddSymbol(t, name).tables;
      Ordered(h, r) && Longer(t, r) && r.items == t.items && name in r.symbols
  {
    hide Closed, SlotName;
    var r := AddSymbol(t, name).tables;
    if name !in t.symbols {
      forall i, j | 0 <= i < j < |r.symbols| ensures r.symbols[i] != r.symbols[j] {
        if j == |t.symbols| {
          assert r.symbols[i] in t.symbols;
        }
      }
      OrderedSymbols(h, t, r.symbols);
    }
  }

  lemma {:induction false} AddSymbolsOk(h: Heap, t: Tables, names: seq<string>)
    requires Ordered(h, t) && AddSymbols(t, names).Found?
    ensures var r := AddSymbols(t, names).tables;
      Ordered(h, r) && Longer(t, r) && r.items == t.items && forall s | s in names :: s in r.symbols
    decreases |names|
  {
    hide Ordered, AddSymbol;
    if names != [] {
      AddSymbolOk(h, t, names[0]);
      var more := AddSymbol(t, names[0]).tables;
      AddSymbolsOk(h, more, names[1..]);
      assert forall s | s in names :: s == names[0] || s in names[1..];
    }
  }

  lemma {:induction false} NodesSymbolsAll(ns: seq<Node>, k: nat)
    requires k < |ns|
    ensures forall s | s in NodeSymbols(ns[k]) :: s in NodesSymbols(ns)
  {
    hide NodeSymbols;
    if k > 0 {
      NodesSymbolsAll(ns[1..], k - 1);
    }
  }

  /** New items are texts, records and definitions, and none that the walk is inside of. */
  ghost predicate PlainNew(h: Heap, before: seq<nat>, after: seq<nat>) {
    forall k :: |before| <= k < |after| ==>
      IsLive(h, after[k]) && (h[after[k]].obj.Text? || h[after[k]].obj.Record? || h[after[k]].obj.RecordDef?)
  }

  predicate Apart(stack: seq<nat>, items: seq<nat>) { forall k :: 0 <= k < |stack| ==> stack[k] !in items }

  predicate OnPath(h: Heap, stack: seq<nat>) { forall k :: 0 <= k < |stack| ==> IsLive(h, stack[k]) && h[stack[k]].obj.Record? }

  /** What a successful visit leaves behind. */
  ghost predicate Visited(h: Heap, before: Tables, after: Tables, stack: seq<nat>) {
    Ordered(h, after) && Longer(before, after) && Apart(stack, after.items)
  }

  lemma VisitedThen(h: Heap, before: Tables, mid: Tables, after: Tables, stack: seq<nat>, deeper: seq<nat>)
    requires Visited(h, before, mid, deeper) && Visited(h, mid, after, deeper) && stack <= deeper
    ensures Visited(h, before, after, stack)
  {
    hide Ordered;
    forall k | 0 <= k < |stack| ensures stack[k] !in after.items {
      assert stack[k] == deeper[k];
    }
  }

  /** The walk keeps the order, and reaches what it is sent to. */
  lemma VisitOk(h: Heap, v: Value, t: Tables, stack: seq<nat>, capacity: nat)
    requires Path(stack, |h|) && Ordered(h, t) && Defined(h) && Apart(stack, t.items) && OnPath(h, stack)
    requires Visit(h, v, t, stack, capacity).Found?
    ensures var r := Visit(h, v, t, stack, capacity).tables;
      && Visited(h, t, r, stack) && (v.Obj? ==> v.id in r.items)
      && (IsCells(h, v) == 0 && !(v.Obj? && IsLive(h, v.id) && h[v.id].obj.Code?) ==> PlainNew(h, t.items, r.items))
    decreases |h| - |stack|, IsCells(h, v), 1
  {
    hide Ordered, Closed, AddSymbols, NodesSymbols, NodeSymbols, Defined;
    PathFits(stack, |h|);
    if v.Obj? && v.id !in t.items {
      var r := Visit(h, v, t, stack, capacity).tables;
      match h[v.id].obj {
        case Text(_) =>
          LeafClosed(h, v.id, t);
          OrderedItem(h, t, v.id);
        case RecordDef(_, _) =>
          LeafClosed(h, v.id, t);
          OrderedItem(h, t, v.id);
        case Code(program, _, _, _) =>
          AddSymbolsOk(h, t, NodesSymbols(program.nodes));
          var mid := AddSymbols(t, NodesSymbols(program.nodes)).tables;
          CodeClosed(h, v.id, mid);
          OrderedItem(h, mid, v.id);
        case Cells(values) =>
          VisitAllOk(h, values, t, stack, capacity);
          var mid := VisitAll(h, values, t, stack, capacity).tables;
          CellsNotNew(h, v.id, t.items, mid.items);
          CellsClosed(h, v.id, mid);
          OrderedItem(h, mid, v.id);
        case Record(_, _) =>
          VisitRecordOk(h, v.id, t, stack, capacity);
        case Native(_, _) =>
      }
    }
  }

  lemma LeafClosed(h: Heap, id: nat, t: Tables)
    requires IsLive(h, id) && (h[id].obj.Text? || h[id].obj.RecordDef?)
    ensures Closed(h, h[id].obj, t.symbols, t.items)
  {
  }

  lemma CodeClosed(h: Heap, id: nat, t: Tables)
    requires IsLive(h, id) && h[id].obj.Code?
    requires forall s | s in NodesSymbols(h[id].obj.program.nodes) :: s in t.symbols
    ensures Closed(h, h[id].obj, t.symbols, t.items)
  {
    hide NodeSymbols, NodesSymbols;
    var ns := h[id].obj.program.nodes;
    forall k | 0 <= k < |ns| ensures forall s | s in NodeSymbols(ns[k]) :: s in t.symbols {
      NodesSymbolsAll(ns, k);
    }
  }

  lemma CellsClosed(h: Heap, id: nat, t: Tables)
    requires IsLive(h, id) && h[id].obj.Cells? && AllInner(h, h[id].obj.items, t.items)
    ensures Closed(h, h[id].obj, t.symbols, t.items)
  {
  }

  lemma CellsNotNew(h: Heap, id: nat, before: seq<nat>, after: seq<nat>)
    requires before <= after && id !in before && IsLive(h, id) && h[id].obj.Cells? && PlainNew(h, before, after)
    ensures id !in after
  {
    forall k | 0 <= k < |after| ensures after[k] != id {
      if k < |before| {
        assert before[k] == after[k];
      }
    }
  }

  lemma VisitRecordOk(h: Heap, id: nat, t: Tables, stack: seq<nat>, capacity: nat)
    requires Path(stack, |h|) && Ordered(h, t) && Defined(h) && Apart(stack, t.items) && OnPath(h, stack)
    requires IsLive(h, id) && h[id].obj.Record? && id !in stack && id !in t.items
    requires VisitRecord(h, id, t, stack, capacity).Found?
    ensures var r := VisitRecord(h, id, t, stack, capacity).tables;
      Visited(h, t, r, stack) && id in r.items && PlainNew(h, t.items, r.items)
    decreases |h| - |stack|, 0, 0
  {
    hide Ordered, Closed, Visit, VisitAll;
    PathFits(stack, |h|);
    PathPush(stack, |h|, id);
    var deeper := stack + [id];
    var o := h[id].obj;
    VisitRecordIs(h, id, t, stack, capacity);
    DefinitionPlain(h, id);
    VisitOk(h, o.definition, t, deeper, capacity);
    var mid := Visit(h, o.definition, t, deeper, capacity).tables;
    VisitAllOk(h, o.fields, mid, deeper, capacity);
    var end := VisitAll(h, o.fields, mid, deeper, capacity).tables;
    VisitedThen(h, t, mid, end, stack, deeper);
    assert deeper[|stack|] == id;
    RecordClosed(h, id, mid.items, end);
    OrderedItem(h, end, id);
    PlainThen(h, t.items, mid.items, end.items, id);
  }

  lemma VisitRecordIs(h: Heap, id: nat, t: Tables, stack: seq<nat>, capacity: nat)
    requires Path(stack, |h|) && IsLive(h, id) && h[id].obj.Record? && id !in stack && Path(stack + [id], |h|)
    ensures VisitRecord(h, id, t, stack, capacity) ==
      var first := Visit(h, h[id].obj.definition, t, stack + [id], capacity);
      if first.Refused? then first else Then(VisitAll(h, h[id].obj.fields, first.tables, stack + [id], capacity), id, capacity)
  {
    hide Visit, VisitAll;
  }

  lemma DefinitionPlain(h: Heap, id: nat)
    requires Defined(h) && IsLive(h, id) && h[id].obj.Record?
    ensures var d := h[id].obj.definition;
      d.Obj? && IsLive(h, d.id) && h[d.id].obj.RecordDef? && IsCells(h, d) == 0
  {
    assert h[id].Live?;
  }

  lemma RecordClosed(h: Heap, id: nat, mid: seq<nat>, end: Tables)
    requires IsLive(h, id) && h[id].obj.Record? && mid <= end.items
    requires h[id].obj.definition.Obj? && h[id].obj.definition.id in mid && AllInner(h, h[id].obj.fields, end.items)
    ensures Closed(h, h[id].obj, end.symbols, end.items)
  {
    var k :| 0 <= k < |mid| && mid[k] == h[id].obj.definition.id;
    assert end.items[k] == mid[k];
  }

  lemma PlainThen(h: Heap, before: seq<nat>, mid: seq<nat>, after: seq<nat>, id: nat)
    requires before <= mid <= after && PlainNew(h, before, mid) && PlainNew(h, mid, after)
    requires IsLive(h, id) && (h[id].obj.Text? || h[id].obj.Record? || h[id].obj.RecordDef?)
    ensures PlainNew(h, before, after) && PlainNew(h, before, after + [id])
  {
    forall k | |before| <= k < |after|
      ensures IsLive(h, after[k]) && (h[after[k]].obj.Text? || h[after[k]].obj.Record? || h[after[k]].obj.RecordDef?)
    {
      if k < |mid| {
        assert after[k] == mid[k];
      }
    }
  }

  lemma VisitAllOk(h: Heap, vs: seq<Value>, t: Tables, stack: seq<nat>, capacity: nat)
    requires Path(stack, |h|) && Ordered(h, t) && Defined(h) && Apart(stack, t.items) && OnPath(h, stack)
    requires VisitAll(h, vs, t, stack, capacity).Found?
    ensures var r := VisitAll(h, vs, t, stack, capacity).tables;
      Visited(h, t, r, stack) && AllInner(h, vs, r.items) && PlainNew(h, t.items, r.items)
    decreases |h| - |stack|, 1, |vs|
  {
    hide Ordered, Visit, Defined;
    PathFits(stack, |h|);
    if vs != [] {
      var v, rest := vs[0], vs[1..];
      var r := VisitAll(h, vs, t, stack, capacity).tables;
      if v.Obj? {
        VisitOk(h, v, t, stack, capacity);
        var mid := Visit(h, v, t, stack, capacity).tables;
        VisitAllOk(h, rest, mid, stack, capacity);
        VisitedThen(h, t, mid, r, stack, stack);
        PlainThen(h, t.items, mid.items, r.items, v.id);
        ItemKept(v.id, mid.items, r.items);
      } else {
        VisitAllOk(h, rest, t, stack, capacity);
      }
      InnerCons(h, vs, r.items);
    }
  }

  lemma ItemKept(id: nat, items: seq<nat>, more: seq<nat>)
    requires id in items && items <= more
    ensures id in more
  {
    var k :| 0 <= k < |items| && items[k] == id;
    assert more[k] == id;
  }

  lemma InnerCons(h: Heap, vs: seq<Value>, items: seq<nat>)
    requires vs != [] && Inner(h, vs[0], items) && AllInner(h, vs[1..], items)
    ensures AllInner(h, vs, items)
  {
    forall k | 0 <= k < |vs| ensures Inner(h, vs[k], items) {
      if k > 0 {
        assert vs[k] == vs[1..][k - 1];
      }
    }
  }

  lemma CollectSlotOk(h: Heap, s: SlotEntry, t: Tables, capacity: nat)
    requires Ordered(h, t) && Defined(h) && CollectSlot(h, s, t, capacity).Found?
    ensures var r := CollectSlot(h, s, t, capacity).tables;
      && Ordered(h, r) && Longer(t, r)
      && (s.overlay ==> s.name in r.symbols)
      && (Bound(s) && s.impl.value.Obj? ==> s.impl.value.id in r.items)
  {
    hide Ordered, AddSymbol, Visit, Defined;
    if s.overlay {
      AddSymbolOk(h, t, s.name);
      var named := AddSymbol(t, s.name).tables;
      if s.impl.Some? {
        VisitOk(h, s.impl.value, named, [], capacity);
        var r := Visit(h, s.impl.value, named, [], capacity).tables;
        SymbolKept(s.name, named.symbols, r.symbols);
      }
    }
  }

  lemma SymbolKept(s: string, symbols: seq<string>, more: seq<string>)
    requires s in symbols && symbols <= more
    ensures s in more
  {
    var k :| 0 <= k < |symbols| && symbols[k] == s;
    assert more[k] == s;
  }

  /** The walk names every overlay slot and reaches everything bound there. */
  lemma {:induction false} CollectFromOk(h: Heap, slots: seq<SlotEntry>, t: Tables, capacity: nat)
    requires Ordered(h, t) && Defined(h) && CollectFrom(h, slots, t, capacity).Found?
    ensures var r := CollectFrom(h, slots, t, capacity).tables;
      && Ordered(h, r) && Longer(t, r)
      && (forall i :: 0 <= i < |slots| && slots[i].overlay ==> slots[i].name in r.symbols)
      && (forall i :: 0 <= i < |slots| && Bound(slots[i]) && slots[i].impl.value.Obj? ==> slots[i].impl.value.id in r.items)
    decreases |slots|
  {
    hide Ordered, CollectSlot, Defined, Bound;
    if slots != [] {
      CollectSlotOk(h, slots[0], t, capacity);
      var more := CollectSlot(h, slots[0], t, capacity).tables;
      CollectFromOk(h, slots[1..], more, capacity);
      var r := CollectFrom(h, slots, t, capacity).tables;
      FirstKept(slots[0], more, r);
    }
  }

  lemma FirstKept(s: SlotEntry, more: Tables, r: Tables)
    requires Longer(more, r)
    ensures s.name in more.symbols ==> s.name in r.symbols
    ensures Bound(s) && s.impl.value.Obj? && s.impl.value.id in more.items ==> s.impl.value.id in r.items
  {
    if s.name in more.symbols {
      SymbolKept(s.name, more.symbols, r.symbols);
    }
    if Bound(s) && s.impl.value.Obj? && s.impl.value.id in more.items {
      ItemKept(s.impl.value.id, more.items, r.items);
    }
  }

  /**
   A collection that succeeds numbers each object once, after everything it refers to;
   names every overlay slot; and leaves nothing out.
   */
  lemma CollectOk(h: Heap, slots: seq<SlotEntry>, capacity: nat)
    requires Defined(h) && Collect(h, slots, capacity).Found?
    ensures var r := Collect(h, slots, capacity).tables;
      && Ordered(h, r)
      && (forall i :: 0 <= i < |slots| && slots[i].overlay ==> slots[i].name in r.symbols)
      && (forall i :: 0 <= i < |slots| && Bound(slots[i]) && slots[i].impl.value.Obj? ==> slots[i].impl.value.id in r.items)
  {
    hide CollectFrom, Defined;
    EmptyOrdered(h);
    CollectFromOk(h, slots, Tables([], []), capacity);
  }

  lemma EmptyOrdered(h: Heap)
    ensures Ordered(h, Tables([], []))
  {
  }

  // ----- refusals -----

  ghost predicate RefersTo(h: Heap, i: nat, j: nat) {
    IsLive(h, i) && Obj(j) in Children(h[i].obj)
  }

  /** The values bound in the overlay. */
  function BoundValues(slots: seq<SlotEntry>): seq<Value> {
    if slots == [] then []
    else (if Bound(slots[0]) then [slots[0].impl.value] else []) + BoundValues(slots[1..])
  }

  /** A way from a bound overlay slot along references. */
  ghost predicate Trail(h: Heap, slots: seq<SlotEntry>, p: seq<nat>) {
    && p != [] && Obj(p[0]) in BoundValues(slots)
    && forall k {:trigger p[k]} :: 0 <= k < |p| - 1 ==> RefersTo(h, p[k], p[k + 1])
  }

  /** The values an object holds that the codec restricts to scalars, texts and records. */
  function Contents(o: Object): seq<Value> {
    match o
    case Cells(values) => values
    case Record(_, fields) => fields
    case _ => []
  }

  /** The way has come back to where it was. */
  ghost predicate Circles(p: seq<nat>) { p != [] && p[|p| - 1] in p[..|p| - 1] }

  /** The way ends at a native. */
  ghost predicate EndsAtNative(h: Heap, p: seq<nat>) {
    p != [] && IsLive(h, p[|p| - 1]) && h[p[|p| - 1]].obj.Native?
  }

  /** The way ends at something that may not be stored where it is. */
  ghost predicate EndsAtMisfit(h: Heap, p: seq<nat>) {
    && |p| > 1 && IsLive(h, p[|p| - 2]) && Obj(p[|p| - 1]) in Contents(h[p[|p| - 2]].obj)
    && IsLive(h, p[|p| - 1]) && !h[p[|p| - 1]].obj.Text? && !h[p[|p| - 1]].obj.Record?
  }

  /** Something the overlay reaches cannot be saved: a cycle, a native, or a misplaced object. */
  ghost predicate Blocked(h: Heap, slots: seq<SlotEntry>, p: seq<nat>) {
    Trail(h, slots, p) && (Circles(p) || EndsAtNative(h, p) || EndsAtMisfit(h, p))
  }

  ghost predicate Unpersistable(h: Heap, slots: seq<SlotEntry>) { exists p :: Blocked(h, slots, p) }

  /** The walk's records are the last part of a way from a slot, and `v` comes next. */
  ghost predicate Follows(h: Heap, slots: seq<SlotEntry>, trail: seq<nat>, stack: seq<nat>, v: Value) {
    && |stack| <= |trail| && trail[|trail| - |stack|..] == stack
    && (v.Obj? ==> Trail(h, slots, trail + [v.id]))
  }

  ghost predicate AllFollow(h: Heap, slots: seq<SlotEntry>, trail: seq<nat>, stack: seq<nat>, vs: seq<Value>) {
    forall k :: 0 <= k < |vs| ==> Follows(h, slots, trail, stack, vs[k])
  }

  lemma TrailOn(h: Heap, slots: seq<SlotEntry>, trail: seq<nat>, i: nat, j: nat)
    requires Trail(h, slots, trail + [i]) && RefersTo(h, i, j)
    ensures Trail(h, slots, trail + [i] + [j])
  {
    hide RefersTo;
    var p, q := trail + [i], trail + [i] + [j];
    forall k | 0 <= k < |q| - 1 ensures RefersTo(h, q[k], q[k + 1]) {
      assert q[k] == p[k];
      if k < |p| - 1 {
        assert q[k + 1] == p[k + 1];
      }
    }
  }

  /** Into an object: what it holds follows it, and it is on the stack if it is a record. */
  lemma FollowsInto(h: Heap, slots: seq<SlotEntry>, trail: seq<nat>, stack: seq<nat>, id: nat, deeper: seq<nat>, v: Value)
    requires Follows(h, slots, trail, stack, Obj(id)) && IsLive(h, id) && v in Children(h[id].obj)
    requires deeper == stack + [id] || deeper == []
    ensures Follows(h, slots, trail + [id], deeper, v)
  {
    hide Trail;
    if v.Obj? {
      assert v == Obj(v.id);
      TrailOn(h, slots, trail, id, v.id);
    }
  }

  lemma AddSymbolsRefusal(t: Tables, names: seq<string>)
    ensures AddSymbols(t, names).Refused? ==> AddSymbols(t, names).err != NOT_PERSISTABLE
    decreases |names|
  {
    hide SlotName;
    if names != [] && AddSymbol(t, names[0]).Found? {
      AddSymbolsRefusal(AddSymbol(t, names[0]).tables, names[1..]);
    }
  }

  /** A visit is refused as not persistable only when there is a reason on its way. */
  lemma VisitRefusal(h: Heap, slots: seq<SlotEntry>, v: Value, t: Tables, trail: seq<nat>, stack: seq<nat>, capacity: nat)
    requires Path(stack, |h|) && Follows(h, slots, trail, stack, v) && Defined(h) && (IsCells(h, v) != 0 ==> stack == [])
    requires Visit(h, v, t, stack, capacity) == Refused(NOT_PERSISTABLE)
    ensures Unpersistable(h, slots)
    decreases |h| - |stack|, IsCells(h, v), 1
  {
    hide AddSymbols, Trail, RefersTo, Defined, Unpersistable;
    PathFits(stack, |h|);
    var p := trail + [v.id];
    if h[v.id].obj.Record? && v.id in stack {
      assert v.id in trail;
      assert p[..|p| - 1] == trail;
      BlockedIs(h, slots, p);
    } else {
      match h[v.id].obj {
        case Cells(values) =>
          CellsFollow(h, slots, trail, v.id);
          VisitAllRefusal(h, slots, v.id, values, t, p, stack, capacity);
        case Record(_, _) =>
          VisitRecordRefusal(h, slots, v.id, t, trail, stack, capacity);
        case Code(program, _, _, _) =>
          AddSymbolsRefusal(t, NodesSymbols(program.nodes));
        case Native(_, _) =>
          BlockedIs(h, slots, p);
        case _ =>
      }
    }
  }

  lemma BlockedIs(h: Heap, slots: seq<SlotEntry>, p: seq<nat>)
    requires Blocked(h, slots, p)
    ensures Unpersistable(h, slots)
  {
  }

  lemma CellsFollow(h: Heap, slots: seq<SlotEntry>, trail: seq<nat>, id: nat)
    requires Follows(h, slots, trail, [], Obj(id)) && IsLive(h, id) && h[id].obj.Cells?
    ensures AllFollow(h, slots, trail + [id], [], h[id].obj.items)
  {
    hide Follows;
    forall k | 0 <= k < |h[id].obj.items| ensures Follows(h, slots, trail + [id], [], h[id].obj.items[k]) {
      FollowsInto(h, slots, trail, [], id, [], h[id].obj.items[k]);
    }
  }

  lemma RecordFollows(h: Heap, slots: seq<SlotEntry>, trail: seq<nat>, stack: seq<nat>, id: nat)
    requires Follows(h, slots, trail, stack, Obj(id)) && IsLive(h, id) && h[id].obj.Record?
    ensures Follows(h, slots, trail + [id], stack + [id], h[id].obj.definition)
    ensures AllFollow(h, slots, trail + [id], stack + [id], h[id].obj.fields)
  {
    hide Follows;
    var o := h[id].obj;
    assert o.definition in Children(o);
    FollowsInto(h, slots, trail, stack, id, stack + [id], o.definition);
    forall k | 0 <= k < |o.fields| ensures Follows(h, slots, trail + [id], stack + [id], o.fields[k]) {
      assert o.fields[k] in Children(o);
      FollowsInto(h, slots, trail, stack, id, stack + [id], o.fields[k]);
    }
  }

  lemma VisitRecordRefusal(h: Heap, slots: seq<SlotEntry>, id: nat, t: Tables, trail: seq<nat>, stack: seq<nat>, capacity: nat)
    requires Path(stack, |h|) && Follows(h, slots, trail, stack, Obj(id)) && Defined(h)
    requires IsLive(h, id) && h[id].obj.Record? && id !in stack
    requires VisitRecord(h, id, t, stack, capacity) == Refused(NOT_PERSISTABLE)
    ensures Unpersistable(h, slots)
    decreases |h| - |stack|, 0, 0
  {
    hide Visit, VisitAll, Unpersistable, Follows, AllFollow, Defined;
    PathFits(stack, |h|);
    PathPush(stack, |h|, id);
    var deeper := stack + [id];
    VisitRecordIs(h, id, t, stack, capacity);
    RecordFollows(h, slots, trail, stack, id);
    DefinitionPlain(h, id);
    var first := Visit(h, h[id].obj.definition, t, deeper, capacity);
    if first.Refused? {
      VisitRefusal(h, slots, h[id].obj.definition, t, trail + [id], deeper, capacity);
    } else {
      VisitAllRefusal(h, slots, id, h[id].obj.fields, first.tables, trail + [id], deeper, capacity);
    }
  }

  lemma VisitAllRefusal(h: Heap, slots: seq<SlotEntry>, owner: nat, vs: seq<Value>, t: Tables, trail: seq<nat>, stack: seq<nat>, capacity: nat)
    requires Path(stack, |h|) && AllFollow(h, slots, trail, stack, vs) && Defined(h)
    requires IsLive(h, owner) && trail != [] && trail[|trail| - 1] == owner && forall v | v in vs :: v in Contents(h[owner].obj)
    requires VisitAll(h, vs, t, stack, capacity) == Refused(NOT_PERSISTABLE)
    ensures Unpersistable(h, slots)
    decreases |h| - |stack|, 1, |vs|
  {
    hide Visit, Trail, Contents, Defined, Unpersistable;
    PathFits(stack, |h|);
    var v, rest := vs[0], vs[1..];
    assert Follows(h, slots, trail, stack, v) && v in Contents(h[owner].obj);
    assert AllFollow(h, slots, trail, stack, rest) by {
      forall k | 0 <= k < |rest| ensures Follows(h, slots, trail, stack, rest[k]) {
        assert rest[k] == vs[k + 1];
      }
    }
    if v.Obj? {
      if h[v.id].obj.Text? || h[v.id].obj.Record? {
        if Visit(h, v, t, stack, capacity).Refused? {
          VisitRefusal(h, slots, v, t, trail, stack, capacity);
        } else {
          VisitAllRefusal(h, slots, owner, rest, Visit(h, v, t, stack, capacity).tables, trail, stack, capacity);
        }
      } else {
        var p := trail + [v.id];
        assert p[|p| - 2] == owner && Obj(p[|p| - 1]) == v;
        BlockedIs(h, slots, p);
      }
    } else {
      VisitAllRefusal(h, slots, owner, rest, t, trail, stack, capacity);
    }
  }

  lemma {:induction false} CollectFromRefusal(h: Heap, all: seq<SlotEntry>, slots: seq<SlotEntry>, t: Tables, capacity: nat)
    requires CollectFrom(h, slots, t, capacity) == Refused(NOT_PERSISTABLE) && Defined(h)
    requires forall v | v in BoundValues(slots) :: v in BoundValues(all)
    ensures Unpersistable(h, all)
    decreases |slots|
  {
    hide Visit, Unpersistable, SlotName, Defined;
    var s := slots[0];
    if CollectSlot(h, s, t, capacity).Refused? {
      var v := s.impl.value;
      assert v in BoundValues(slots);
      VisitRefusal(h, all, v, AddSymbol(t, s.name).tables, [], [], capacity);
    } else {
      CollectFromRefusal(h, all, slots[1..], CollectSlot(h, s, t, capacity).tables, capacity);
    }
  }

  /** A collection is refused as not persistable only for something that the overlay reaches. */
  lemma RefusedForCause(h: Heap, slots: seq<SlotEntry>, capacity: nat)
    requires Defined(h) && Collect(h, slots, capacity) == Refused(NOT_PERSISTABLE)
    ensures Unpersistable(h, slots)
  {
    hide CollectFrom, Unpersistable, Defined;
    CollectFromRefusal(h, slots, slots, Tables([], []), capacity);
  }

  // ----- what is not refused -----

  lemma {:induction false} BoundIn(slots: seq<SlotEntry>, v: Value)
    requires v in BoundValues(slots)
    ensures exists k :: 0 <= k < |slots| && Bound(slots[k]) && slots[k].impl.value == v
  {
    var s := slots[0];
    if Bound(s) && s.impl.value == v {
      assert Bound(slots[0]);
    } else {
      BoundIn(slots[1..], v);
      var k :| 0 <= k < |slots[1..]| && Bound(slots[1..][k]) && slots[1..][k].impl.value == v;
      assert slots[k + 1] == slots[1..][k];
    }
  }

  /** On a way through a collected overlay everything is numbered, each time with a smaller number. */
  lemma TrailDescends(h: Heap, slots: seq<SlotEntry>, t: Tables, p: seq<nat>, i: nat, j: nat)
    requires Ordered(h, t) && Trail(h, slots, p) && p[0] in t.items && i <= j < |p|
    ensures p[i] in t.items && p[j] in t.items && (i < j ==> ItemIndex(t.items, p[j]) < ItemIndex(t.items, p[i]))
  {
    hide Ordered, RefersTo;
    if i > 0 { Descends(h, t, p, i); }
    if i < j {
      var q := p[i..];
      forall k {:trigger q[k]} | 0 <= k < |q| - 1 ensures RefersTo(h, q[k], q[k + 1]) {
        assert q[k] == p[i + k] && q[k + 1] == p[i + k + 1];
      }
      Descends(h, t, q, j - i);
    }
  }

  /** Whatever blocks a save is refused: a cycle the overlay reaches, above all. */
  lemma BlockedIsRefused(h: Heap, slots: seq<SlotEntry>, capacity: nat, p: seq<nat>)
    requires Defined(h) && Blocked(h, slots, p)
    ensures Collect(h, slots, capacity).Refused?
  {
    hide Ordered, Collect, Trail, Defined, CollectFrom;
    if Collect(h, slots, capacity).Found? {
      var t := Collect(h, slots, capacity).tables;
      CollectOk(h, slots, capacity);
      TrailStart(h, slots, p, t);
      var last := |p| - 1;
      TrailDescends(h, slots, t, p, 0, last);
      if Circles(p) {
        var i :| 0 <= i < last && p[..last][i] == p[last];
        TrailDescends(h, slots, t, p, i, last);
      } else if EndsAtNative(h, p) {
        NumberedClosed(h, t, p[last]);
      } else {
        TrailDescends(h, slots, t, p, last - 1, last);
        NumberedClosed(h, t, p[last - 1]);
        MisfitOpen(h, p[last - 1], p[last], t.symbols, t.items);
      }
    }
  }

  lemma TrailStart(h: Heap, slots: seq<SlotEntry>, p: seq<nat>, t: Tables)
    requires Trail(h, slots, p) && forall i :: 0 <= i < |slots| && Bound(slots[i]) && slots[i].impl.value.Obj? ==> slots[i].impl.value.id in t.items
    ensures p != [] && p[0] in t.items
  {
    BoundIn(slots, Obj(p[0]));
  }

  lemma NumberedClosed(h: Heap, t: Tables, id: nat)
    requires Ordered(h, t) && id in t.items
    ensures IsLive(h, id) && Closed(h, h[id].obj, t.symbols, t.items)
  {
    hide SymbolsReady, Closed;
    var k :| 0 <= k < |t.items| && t.items[k] == id;
    assert ItemOk(h, t, k);
    ClosedMore(h, h[id].obj, t.symbols, t.symbols, t.items[..k], t.items);
  }

  lemma MisfitOpen(h: Heap, owner: nat, id: nat, symbols: seq<string>, items: seq<nat>)
    requires IsLive(h, owner) && Closed(h, h[owner].obj, symbols, items) && Obj(id) in Contents(h[owner].obj)
    ensures IsLive(h, id) && (h[id].obj.Text? || h[id].obj.Record?)
  {
    var vs := Contents(h[owner].obj);
    var k :| 0 <= k < |vs| && vs[k] == Obj(id);
    assert Inner(h, vs[k], items);
  }

  // ----- when nothing else is wrong -----

  /** Every name the overlay or any code could ask a symbol for. */
  ghost function AllNames(h: Heap, slots: seq<SlotEntry>): set<string> {
    (set k | 0 <= k < |slots| && slots[k].overlay :: slots[k].name)
    + set i, s | 0 <= i < |h| && h[i].Live? && h[i].obj.Code? && s in NodesSymbols(h[i].obj.program.nodes) :: s
  }

  /** No other cause for a refusal: no dangling reference, no slot designator inside an
      object, only names that can be saved, and room for all of it. */
  ghost predicate Clean(h: Heap, slots: seq<SlotEntry>, capacity: nat) {
    && |h| <= capacity && Defined(h)
    && (forall i {:trigger h[i]} :: 0 <= i < |h| && h[i].Live? ==> forall v | v in Children(h[i].obj) :: !v.Slot? && (v.Obj? ==> IsLive(h, v.id)))
    && (forall v | v in BoundValues(slots) :: v.Obj? ==> IsLive(h, v.id))
    && (forall name | name in AllNames(h, slots) :: |name| < 0x1_0000 && SlotName(name))
    && |AllNames(h, slots)| <= SYMBOL_CAPACITY
  }

  ghost predicate NamesKnown(t: Tables, names: set<string>) { forall s | s in t.symbols :: s in names }

  lemma {:induction false} DistinctFit(symbols: seq<string>, names: set<string>)
    requires (forall i, j :: 0 <= i < j < |symbols| ==> symbols[i] != symbols[j]) && forall s | s in symbols :: s in names
    ensures |symbols| <= |names|
  {
    if symbols != [] {
      var last := |symbols| - 1;
      forall s | s in symbols[..last] ensures s in names - {symbols[last]} {
        var k :| 0 <= k < last && symbols[k] == s;
      }
      DistinctFit(symbols[..last], names - {symbols[last]});
    }
  }

  lemma AddSymbolClean(h: Heap, t: Tables, name: string, names: set<string>)
    requires Ordered(h, t) && NamesKnown(t, names) && name in names && |names| <= SYMBOL_CAPACITY && |name| < 0x1_0000 && SlotName(name)
    ensures AddSymbol(t, name).Found? && NamesKnown(AddSymbol(t, name).tables, names)
  {
    hide SlotName;
    if name !in t.symbols {
      var more := t.symbols + [name];
      forall i, j | 0 <= i < j < |more| ensures more[i] != more[j] {
        if j == |t.symbols| {
          assert more[i] in t.symbols;
        }
      }
      DistinctFit(more, names);
    }
  }

  lemma {:induction false} AddSymbolsClean(h: Heap, t: Tables, asked: seq<string>, names: set<string>)
    requires Ordered(h, t) && NamesKnown(t, names) && |names| <= SYMBOL_CAPACITY
    requires forall s | s in asked :: s in names && |s| < 0x1_0000 && SlotName(s)
    ensures AddSymbols(t, asked).Found? && NamesKnown(AddSymbols(t, asked).tables, names)
    decreases |asked|
  {
    hide Ordered, AddSymbol, NamesKnown, SlotName;
    if asked != [] {
      AddSymbolClean(h, t, asked[0], names);
      AddSymbolOk(h, t, asked[0]);
      AddSymbolsClean(h, AddSymbol(t, asked[0]).tables, asked[1..], names);
    }
  }

  lemma AddItemClean(h: Heap, t: Tables, id: nat, capacity: nat)
    requires Ordered(h, t) && id !in t.items && id < |h| <= capacity
    ensures AddItem(t, id, capacity).Found?
  {
    hide Closed, SymbolsReady;
    forall k | 0 <= k < |t.items| ensures t.items[k] < |h| {
      assert ItemOk(h, t, k);
    }
    PathPush(t.items, |h|, id);
  }

  /** A visit that is refused was not persistable; one that is not asks for known names only. */
  ghost predicate Fair(r: Collected, names: set<string>) {
    match r
    case Found(t) => NamesKnown(t, names)
    case Refused(err) => err == NOT_PERSISTABLE
  }

  lemma CodeNames(h: Heap, slots: seq<SlotEntry>, capacity: nat, id: nat)
    requires Clean(h, slots, capacity) && IsLive(h, id) && h[id].obj.Code?
    ensures |AllNames(h, slots)| <= SYMBOL_CAPACITY
    ensures forall s | s in NodesSymbols(h[id].obj.program.nodes) :: s in AllNames(h, slots) && |s| < 0x1_0000 && SlotName(s)
  {
    hide SlotName, NodesSymbols;
  }

  lemma VisitClean(h: Heap, slots: seq<SlotEntry>, v: Value, t: Tables, stack: seq<nat>, capacity: nat)
    requires Path(stack, |h|) && Ordered(h, t) && Clean(h, slots, capacity) && Defined(h) && Apart(stack, t.items) && OnPath(h, stack)
    requires NamesKnown(t, AllNames(h, slots)) && (v.Obj? ==> IsLive(h, v.id))
    ensures Fair(Visit(h, v, t, stack, capacity), AllNames(h, slots))
    decreases |h| - |stack|, IsCells(h, v), 1
  {
    hide Ordered, Closed, AddSymbols, NodesSymbols, Defined, Clean, AllNames, NamesKnown, VisitAll, VisitRecord, AddItem;
    PathFits(stack, |h|);
    CleanRoom(h, slots, capacity);
    if v.Obj? && v.id !in t.items {
      match h[v.id].obj {
        case Text(_) => AddedClean(h, t, v.id, capacity, AllNames(h, slots));
        case RecordDef(_, _) => AddedClean(h, t, v.id, capacity, AllNames(h, slots));
        case Code(program, _, _, _) =>
          CodeNames(h, slots, capacity, v.id);
          AddSymbolsClean(h, t, NodesSymbols(program.nodes), AllNames(h, slots));
          AddSymbolsOk(h, t, NodesSymbols(program.nodes));
          AddedClean(h, AddSymbols(t, NodesSymbols(program.nodes)).tables, v.id, capacity, AllNames(h, slots));
        case Cells(values) =>
          ContentsClean(h, slots, capacity, v.id);
          VisitAllClean(h, slots, values, t, stack, capacity);
          if VisitAll(h, values, t, stack, capacity).Found? {
            VisitAllOk(h, values, t, stack, capacity);
            var mid := VisitAll(h, values, t, stack, capacity).tables;
            CellsNotNew(h, v.id, t.items, mid.items);
            AddedClean(h, mid, v.id, capacity, AllNames(h, slots));
          }
        case Record(_, _) =>
          if v.id !in stack { VisitRecordClean(h, slots, v.id, t, stack, capacity); }
        case Native(_, _) =>
      }
    }
  }

  lemma CleanRoom(h: Heap, slots: seq<SlotEntry>, capacity: nat)
    requires Clean(h, slots, capacity)
    ensures |h| <= capacity
  {
  }

  lemma AddedClean(h: Heap, t: Tables, id: nat, capacity: nat, names: set<string>)
    requires Ordered(h, t) && NamesKnown(t, names) && id !in t.items && id < |h| <= capacity
    ensures AddItem(t, id, capacity).Found? && NamesKnown(AddItem(t, id, capacity).tables, names)
  {
    hide Ordered;
    AddItemClean(h, t, id, capacity);
  }

  /** What a clean heap's objects hold can be walked. */
  ghost predicate Walkable(h: Heap, vs: seq<Value>) { forall v | v in vs :: !v.Slot? && (v.Obj? ==> IsLive(h, v.id)) }

  lemma ContentsClean(h: Heap, slots: seq<SlotEntry>, capacity: nat, id: nat)
    requires Clean(h, slots, capacity) && IsLive(h, id)
    ensures Walkable(h, Contents(h[id].obj))
  {
    hide AllNames, SlotName, Defined;
    forall v | v in Contents(h[id].obj) ensures !v.Slot? && (v.Obj? ==> IsLive(h, v.id)) {
      assert v in Children(h[id].obj);
    }
  }

  lemma VisitRecordClean(h: Heap, slots: seq<SlotEntry>, id: nat, t: Tables, stack: seq<nat>, capacity: nat)
    requires Path(stack, |h|) && Ordered(h, t) && Clean(h, slots, capacity) && Defined(h) && Apart(stack, t.items) && OnPath(h, stack)
    requires IsLive(h, id) && h[id].obj.Record? && id !in stack && id !in t.items && NamesKnown(t, AllNames(h, slots))
    ensures Fair(VisitRecord(h, id, t, stack, capacity), AllNames(h, slots))
    decreases |h| - |stack|, 0, 0
  {
    hide Ordered, Visit, VisitAll, Clean, AllNames, NamesKnown, Defined, AddItem;
    PathFits(stack, |h|);
    PathPush(stack, |h|, id);
    CleanRoom(h, slots, capacity);
    var deeper := stack + [id];
    var o := h[id].obj;
    VisitRecordIs(h, id, t, stack, capacity);
    DefinitionPlain(h, id);
    VisitClean(h, slots, o.definition, t, deeper, capacity);
    var first := Visit(h, o.definition, t, deeper, capacity);
    if first.Found? {
      VisitOk(h, o.definition, t, deeper, capacity);
      ContentsClean(h, slots, capacity, id);
      VisitAllClean(h, slots, o.fields, first.tables, deeper, capacity);
      if VisitAll(h, o.fields, first.tables, deeper, capacity).Found? {
        VisitAllOk(h, o.fields, first.tables, deeper, capacity);
        var end := VisitAll(h, o.fields, first.tables, deeper, capacity).tables;
        assert deeper[|stack|] == id;
        AddedClean(h, end, id, capacity, AllNames(h, slots));
      }
    }
  }

  lemma VisitAllClean(h: Heap, slots: seq<SlotEntry>, vs: seq<Value>, t: Tables, stack: seq<nat>, capacity: nat)
    requires Path(stack, |h|) && Ordered(h, t) && Clean(h, slots, capacity) && Defined(h) && Apart(stack, t.items) && OnPath(h, stack)
    requires NamesKnown(t, AllNames(h, slots)) && Walkable(h, vs)
    ensures Fair(VisitAll(h, vs, t, stack, capacity), AllNames(h, slots))
    decreases |h| - |stack|, 1, |vs|
  {
    hide Ordered, Visit, Clean, AllNames, NamesKnown, Defined;
    PathFits(stack, |h|);
    if vs != [] {
      var v, rest := vs[0], vs[1..];
      assert v in vs;
      if v.Obj? && (h[v.id].obj.Text? || h[v.id].obj.Record?) {
        VisitClean(h, slots, v, t, stack, capacity);
        if Visit(h, v, t, stack, capacity).Found? {
          VisitOk(h, v, t, stack, capacity);
          VisitAllClean(h, slots, rest, Visit(h, v, t, stack, capacity).tables, stack, capacity);
        }
      } else if !v.Obj? {
        VisitAllClean(h, slots, rest, t, stack, capacity);
      }
    }
  }

  lemma {:induction false} CollectFromClean(h: Heap, all: seq<SlotEntry>, i: nat, t: Tables, capacity: nat)
    requires Ordered(h, t) && Clean(h, all, capacity) && Defined(h) && i <= |all| && NamesKnown(t, AllNames(h, all))
    ensures Fair(CollectFrom(h, all[i..], t, capacity), AllNames(h, all))
    decreases |all| - i
  {
    hide Ordered, Visit, Clean, AllNames, NamesKnown, Defined, AddSymbol, CollectSlot;
    if i < |all| {
      assert all[i..][1..] == all[i + 1..];
      CollectSlotClean(h, all, i, t, capacity);
      var r := CollectSlot(h, all[i], t, capacity);
      if r.Found? {
        CollectSlotOk(h, all[i], t, capacity);
        CollectFromClean(h, all, i + 1, r.tables, capacity);
      }
    }
  }

  lemma CollectSlotClean(h: Heap, all: seq<SlotEntry>, i: nat, t: Tables, capacity: nat)
    requires Ordered(h, t) && Clean(h, all, capacity) && Defined(h) && i < |all| && NamesKnown(t, AllNames(h, all))
    ensures Fair(CollectSlot(h, all[i], t, capacity), AllNames(h, all))
  {
    hide Ordered, Visit, Clean, AllNames, NamesKnown, Defined, AddSymbol, BoundValues;
    var s := all[i];
    if s.overlay {
      SlotClean(h, all, capacity, i);
      AddSymbolClean(h, t, s.name, AllNames(h, all));
      AddSymbolOk(h, t, s.name);
      if s.impl.Some? {
        VisitClean(h, all, s.impl.value, AddSymbol(t, s.name).tables, [], capacity);
      }
    }
  }

  lemma SlotClean(h: Heap, slots: seq<SlotEntry>, capacity: nat, i: nat)
    requires Clean(h, slots, capacity) && i < |slots| && slots[i].overlay
    ensures var name := slots[i].name; name in AllNames(h, slots) && |name| < 0x1_0000 && SlotName(name) && |AllNames(h, slots)| <= SYMBOL_CAPACITY
    ensures slots[i].impl.Some? && slots[i].impl.value.Obj? ==> IsLive(h, slots[i].impl.value.id)
  {
    hide SlotName, NodesSymbols, BoundValues, Defined;
    BoundAt(slots, i);
  }

  lemma {:induction false} BoundAt(slots: seq<SlotEntry>, i: nat)
    requires i < |slots|
    ensures Bound(slots[i]) ==> slots[i].impl.value in BoundValues(slots)
  {
    if i > 0 {
      BoundAt(slots[1..], i - 1);
    }
  }

  /**
   When nothing else is wrong with the overlay, saving it is refused exactly when something
   that a bound slot reaches cannot be saved, and then always for that reason.
   */
  lemma RefusedExactly(h: Heap, slots: seq<SlotEntry>, capacity: nat)
    requires Clean(h, slots, capacity)
    ensures Collect(h, slots, capacity) == Refused(NOT_PERSISTABLE) <==> Unpersistable(h, slots)
    ensures Collect(h, slots, capacity).Refused? ==> Collect(h, slots, capacity).err == NOT_PERSISTABLE
  {
    hide CollectFrom, Blocked, AllNames;
    EmptyOrdered(h);
    assert slots[0..] == slots;
    CollectFromClean(h, slots, 0, Tables([], []), capacity);
    if Collect(h, slots, capacity).Refused? {
      RefusedForCause(h, slots, capacity);
    } else if Unpersistable(h, slots) {
      var p :| Blocked(h, slots, p);
      BlockedIsRefused(h, slots, capacity, p);
    }
  }

  lemma {:induction false} Descends(h: Heap, t: Tables, p: seq<nat>, upTo: nat)
    requires Ordered(h, t) && 0 < upTo < |p| && p[0] in t.items
    requires forall k {:trigger p[k]} :: 0 <= k < |p| - 1 ==> RefersTo(h, p[k], p[k + 1])
    ensures p[upTo] in t.items && ItemIndex(t.items, p[upTo]) < ItemIndex(t.items, p[0])
    decreases upTo
  {
    hide Ordered, RefersTo;
    if upTo > 1 {
      Descends(h, t, p, upTo - 1);
    }
    assert RefersTo(h, p[upTo - 1], p[upTo]);
    EarlierNumber(h, t, p[upTo - 1], p[upTo]);
  }

  lemma EarlierNumber(h: Heap, t: Tables, i: nat, j: nat)
    requires Ordered(h, t) && i in t.items && RefersTo(h, i, j)
    ensures j in t.items && ItemIndex(t.items, j) < ItemIndex(t.items, i)
  {
    hide SymbolsReady;
    var k := ItemIndex(t.items, i);
    assert ItemOk(h, t, k);
    var o := h[i].obj;
    assert j in t.items[..k] by {
      if o.Cells? {
        var n :| 0 <= n < |o.items| && o.items[n] == Obj(j);
        assert Inner(h, o.items[n], t.items[..k]);
      } else {
        var all := Children(o);
        var n :| 0 <= n < |all| && all[n] == Obj(j);
        if n < |o.fields| {
          assert Inner(h, o.fields[n], t.items[..k]);
        }
      }
    }
    var n :| 0 <= n < k && t.items[..k][n] == j;
    IndexOfItem(t.items, n);
  }

  lemma {:induction false} IndexOfItem(items: seq<nat>, n: nat)
    requires n < |items|
    ensures ItemIndex(items, items[n]) <= n
  {
    if n > 0 && items[0] != items[n] {
      IndexOfItem(items[1..], n - 1);
    }
  }

  // ----- nothing is numbered without need -----

  /** Some object with a larger number refers to number `k`. */
  ghost predicate Needed(h: Heap, items: seq<nat>, k: nat)
    requires k < |items|
  {
    exists j :: k < j < |items| && RefersTo(h, items[j], items[k])
  }

  lemma NeededMore(h: Heap, items: seq<nat>, more: seq<nat>, k: nat)
    requires k < |items| && Needed(h, items, k) && items <= more
    ensures Needed(h, more, k)
  {
    hide RefersTo;
    var j :| k < j < |items| && RefersTo(h, items[j], items[k]);
    assert more[j] == items[j] && more[k] == items[k];
  }

  /** Everything numbered between the two tables is needed, or is one of `vs`. */
  ghost predicate NewNeeded(h: Heap, before: seq<nat>, after: seq<nat>, vs: seq<Value>) {
    forall k :: |before| <= k < |after| ==> Needed(h, after, k) || Obj(after[k]) in vs
  }

  lemma NewNeededThen(h: Heap, before: seq<nat>, mid: seq<nat>, after: seq<nat>, vs: seq<Value>, ws: seq<Value>)
    requires before <= mid <= after && NewNeeded(h, before, mid, vs) && NewNeeded(h, mid, after, ws)
    ensures NewNeeded(h, before, after, vs + ws)
  {
    hide Needed;
    forall k | |before| <= k < |after| ensures Needed(h, after, k) || Obj(after[k]) in vs + ws {
      if k < |mid| {
        assert after[k] == mid[k];
        if Needed(h, mid, k) {
          NeededMore(h, mid, after, k);
        }
      }
    }
  }

  lemma NewNeededBy(h: Heap, before: seq<nat>, after: seq<nat>, vs: seq<Value>, id: nat)
    requires NewNeeded(h, before, after, vs) && IsLive(h, id) && (forall v | v in vs :: v in Children(h[id].obj))
    ensures NewNeeded(h, before, after + [id], [Obj(id)])
  {
    hide Needed;
    var more := after + [id];
    forall k | |before| <= k < |more| ensures Needed(h, more, k) || Obj(more[k]) in [Obj(id)] {
      if k < |after| {
        if Needed(h, after, k) {
          NeededMore(h, after, more, k);
        } else {
          LastNeeds(h, more, k);
        }
      }
    }
  }

  lemma LastNeeds(h: Heap, items: seq<nat>, k: nat)
    requires k < |items| - 1 && RefersTo(h, items[|items| - 1], items[k])
    ensures Needed(h, items, k)
  {
  }

  lemma VisitNeeds(h: Heap, v: Value, t: Tables, stack: seq<nat>, capacity: nat)
    requires Path(stack, |h|) && Visit(h, v, t, stack, capacity).Found?
    ensures var r := Visit(h, v, t, stack, capacity).tables;
      t.items <= r.items && NewNeeded(h, t.items, r.items, [v])
    decreases |h| - |stack|, IsCells(h, v), 1
  {
    hide AddSymbols, RefersTo, Needed;
    PathFits(stack, |h|);
    if v.Obj? && v.id !in t.items {
      match h[v.id].obj {
        case Cells(values) =>
          VisitAllNeeds(h, values, t, stack, capacity);
          NewNeededBy(h, t.items, VisitAll(h, values, t, stack, capacity).tables.items, values, v.id);
        case Record(_, _) =>
          VisitRecordNeeds(h, v.id, t, stack, capacity);
        case Code(program, _, _, _) =>
          AddSymbolsItems(t, NodesSymbols(program.nodes));
        case _ =>
      }
    }
  }

  lemma AddSymbolsItems(t: Tables, names: seq<string>)
    ensures AddSymbols(t, names).Found? ==> AddSymbols(t, names).tables.items == t.items
    decreases |names|
  {
    hide SlotName;
    if names != [] && AddSymbol(t, names[0]).Found? {
      AddSymbolsItems(AddSymbol(t, names[0]).tables, names[1..]);
    }
  }

  lemma VisitRecordNeeds(h: Heap, id: nat, t: Tables, stack: seq<nat>, capacity: nat)
    requires Path(stack, |h|) && IsLive(h, id) && h[id].obj.Record? && id !in stack
    requires VisitRecord(h, id, t, stack, capacity).Found?
    ensures var r := VisitRecord(h, id, t, stack, capacity).tables;
      t.items <= r.items && NewNeeded(h, t.items, r.items, [Obj(id)])
    decreases |h| - |stack|, 0, 0
  {
    hide Visit, VisitAll, NewNeeded;
    PathFits(stack, |h|);
    PathPush(stack, |h|, id);
    VisitRecordIs(h, id, t, stack, capacity);
    var o, deeper := h[id].obj, stack + [id];
    VisitNeeds(h, o.definition, t, deeper, capacity);
    var mid := Visit(h, o.definition, t, deeper, capacity).tables;
    VisitAllNeeds(h, o.fields, mid, deeper, capacity);
    var end := VisitAll(h, o.fields, mid, deeper, capacity).tables;
    NewNeededThen(h, t.items, mid.items, end.items, [o.definition], o.fields);
    NewNeededBy(h, t.items, end.items, [o.definition] + o.fields, id);
  }

  lemma VisitAllNeeds(h: Heap, vs: seq<Value>, t: Tables, stack: seq<nat>, capacity: nat)
    requires Path(stack, |h|) && VisitAll(h, vs, t, stack, capacity).Found?
    ensures var r := VisitAll(h, vs, t, stack, capacity).tables;
      t.items <= r.items && NewNeeded(h, t.items, r.items, vs)
    decreases |h| - |stack|, 1, |vs|
  {
    hide Visit, Needed;
    PathFits(stack, |h|);
    if vs != [] {
      var v, rest := vs[0], vs[1..];
      assert vs == [v] + rest;
      if v.Obj? {
        VisitNeeds(h, v, t, stack, capacity);
        var mid := Visit(h, v, t, stack, capacity).tables;
        VisitAllNeeds(h, rest, mid, stack, capacity);
        NewNeededThen(h, t.items, mid.items, VisitAll(h, vs, t, stack, capacity).tables.items, [v], rest);
      } else {
        VisitAllNeeds(h, rest, t, stack, capacity);
      }
    }
  }

  lemma {:induction false} CollectFromNeeds(h: Heap, slots: seq<SlotEntry>, t: Tables, capacity: nat)
    requires CollectFrom(h, slots, t, capacity).Found?
    ensures var r := CollectFrom(h, slots, t, capacity).tables;
      t.items <= r.items && NewNeeded(h, t.items, r.items, BoundValues(slots))
    decreases |slots|
  {
    hide Visit, Needed, SlotName;
    if slots != [] {
      var s := slots[0];
      var mid := CollectSlot(h, s, t, capacity).tables;
      if Bound(s) {
        VisitNeeds(h, s.impl.value, AddSymbol(t, s.name).tables, [], capacity);
      }
      CollectFromNeeds(h, slots[1..], mid, capacity);
      var own := if Bound(s) then [s.impl.value] else [];
      NewNeededThen(h, t.items, mid.items, CollectFrom(h, slots, t, capacity).tables.items, own, BoundValues(slots[1..]));
    }
  }

  // ----- the code -----

  class Walker {
    const capacity: nat
    const indexById: array<int>
    const recordStack: array<nat>
    var symbols: seq<string>
    var items: seq<nat>

    ghost predicate Valid(h: Heap)
      reads this, indexById
    {
      && |h| <= capacity && indexById.Length == capacity && recordStack.Length == capacity
      && (forall k :: 0 <= k < |items| ==> items[k] < |h|)
      && (forall id :: 0 <= id < |h| ==> indexById[id] == if id in items then ItemIndex(items, id) else -1)
    }

    ghost function Held(): Tables
      reads this
    {
      Tables(symbols, items)
    }

    constructor (capacity: nat)
      ensures this.capacity == capacity && indexById.Length == capacity && recordStack.Length == capacity
      ensures fresh(indexById) && fresh(recordStack) && symbols == [] && items == []
      ensures forall id :: 0 <= id < capacity ==> indexById[id] == -1
    {
      this.capacity := capacity;
      indexById := new int[capacity](_ => -1);
      recordStack := new nat[capacity];
      symbols, items := [], [];
    }

    method FindOrAdd(name: string) returns (err: Error)
      modifies this`symbols
      ensures AddSymbol(old(Held()), name) == if err == Ok then Found(Held()) else Refused(err)
    {
      var i: nat := 0;
      while i < |symbols|
        invariant i <= |symbols| && forall k :: 0 <= k < i ==> symbols[k] != name
      {
        if symbols[i] == name {
          return Ok;
        }
        i := i + 1;
      }
      if |name| >= 0x1_0000 {
        return SNAPSHOT_BAD_NAME;
      }
      var ok := CheckSlotName(name);
      if !ok {
        return SNAPSHOT_BAD_NAME;
      }
      if |symbols| + 1 > SYMBOL_CAPACITY {
        return OutOfMemory;
      }
      symbols := symbols + [name];
      err := Ok;
    }

    method Add(h: Heap, id: nat) returns (err: Error)
      requires Valid(h) && id < |h| && id !in items
      modifies this`items, indexById
      ensures Valid(h)
      ensures AddItem(old(Held()), id, capacity) == if err == Ok then Found(Held()) else Refused(err)
    {
      hide ItemIndex;
      if |items| + 1 > capacity {
        return OutOfMemory;
      }
      indexById[id] := |items|;
      ghost var before := items;
      items := items + [id];
      forall k | 0 <= k < |h| ensures indexById[k] == if k in items then ItemIndex(items, k) else -1 {
        IndexAppend(before, id, k);
      }
      err := Ok;
    }

    method CollectProgram(p: Program) returns (err: Error)
      modifies this`symbols
      ensures AddSymbols(old(Held()), NodesSymbols(p.nodes)) == if err == Ok then Found(Held()) else Refused(err)
    {
      hide AddSymbol;
      var i: nat := 0;
      assert p.nodes[0..] == p.nodes;
      ghost var all := AddSymbols(Held(), NodesSymbols(p.nodes));
      while i < |p.nodes|
        invariant i <= |p.nodes|
        invariant all == AddSymbols(Held(), NodesSymbols(p.nodes[i..]))
      {
        NodesSymbolsStep(p.nodes, i);
        var names := NodeSymbols(p.nodes[i]);
        ghost var rest := NodesSymbols(p.nodes[i + 1..]);
        if |names| >= 1 {
          AddSymbolsFirst(Held(), names, rest);
          err := FindOrAdd(names[0]);
          if err != Ok { return; }
          if |names| >= 2 {
            AddSymbolsFirst(Held(), names[1..], rest);
            err := FindOrAdd(names[1]);
            if err != Ok { return; }
          }
        }
        NamesFew(p.nodes[i], rest);
        i := i + 1;
      }
      assert p.nodes[i..] == [];
      err := Ok;
    }

    /** Visits a value from `depth` records down. */
    method CollectVisit(h: Heap, v: Value, depth: nat) returns (err: Error)
      requires Valid(h) && depth <= recordStack.Length && Walking(h, Held(), recordStack[..depth])
      modifies this`symbols, this`items, indexById, recordStack
      ensures Valid(h) && recordStack[..depth] == old(recordStack[..depth])
      ensures var r := Visit(h, v, old(Held()), old(recordStack[..depth]), capacity);
        if r.Found? then err == Ok && Held() == r.tables else err == r.err && err != Ok
      decreases |h| - depth, IsCells(h, v), 1
    {
      hide VisitAll, VisitRecord, AddSymbols, NodesSymbols, ItemIndex, Ordered, Defined, OnPath, Apart;
      ghost var stack, before := recordStack[..depth], Held();
      PathFits(stack, |h|);
      if !v.Obj? {
        return Ok;
      }
      if !IsLive(h, v.id) {
        return Bounds;
      }
      var o := h[v.id].obj;
      if o.Record? {
        var onStack := StackContains(depth, v.id);
        if onStack {
          return NOT_PERSISTABLE;
        }
      }
      if indexById[v.id] != -1 {
        return Ok;
      }
      match o {
        case Text(_) =>
          err := Add(h, v.id);
        case RecordDef(_, _) =>
          err := Add(h, v.id);
        case Native(_, _) =>
          err := NOT_PERSISTABLE;
        case Code(program, _, _, _) =>
          err := CollectProgram(program);
          if err != Ok { return; }
          err := Add(h, v.id);
        case Cells(values) =>
          err := CollectAll(h, values, depth);
          if err != Ok { return; }
          VisitAllOk(h, values, before, stack, capacity);
          CellsNotNew(h, v.id, before.items, items);
          err := Add(h, v.id);
        case Record(_, _) =>
          err := CollectRecord(h, v.id, depth);
      }
    }

    method StackContains(depth: nat, id: nat) returns (found: bool)
      requires depth <= recordStack.Length
      ensures found == (id in recordStack[..depth])
    {
      var i: nat := 0;
      while i < depth
        invariant i <= depth && id !in recordStack[..i]
      {
        if recordStack[i] == id {
          assert recordStack[..depth][i] == id;
          return true;
        }
        i := i + 1;
      }
      found := false;
    }

    /** Enters a record: the path has room, since its records are distinct. */
    method CollectRecord(h: Heap, id: nat, depth: nat) returns (err: Error)
      requires Valid(h) && depth <= recordStack.Length && Walking(h, Held(), recordStack[..depth])
      requires IsLive(h, id) && h[id].obj.Record? && id !in recordStack[..depth] && id !in items
      modifies this`symbols, this`items, indexById, recordStack
      ensures Valid(h) && recordStack[..depth] == old(recordStack[..depth])
      ensures var r := VisitRecord(h, id, old(Held()), old(recordStack[..depth]), capacity);
        if r.Found? then err == Ok && Held() == r.tables else err == r.err && err != Ok
      decreases |h| - depth, 0, 0
    {
      hide VisitAll, Visit, VisitRecord, ItemIndex, Ordered, Defined, Apart, OnPath, Path, PlainNew;
      ghost var stack, before := recordStack[..depth], Held();
      PathFits(stack, |h|);
      PathPush(stack, |h|, id);
      VisitRecordIs(h, id, before, stack, capacity);
      WalkingPush(h, before, stack, id);
      DefinitionPlain(h, id);
      recordStack[depth] := id;
      ghost var deeper := stack + [id];
      assert recordStack[..depth + 1] == deeper;
      err := CollectVisit(h, h[id].obj.definition, depth + 1);
      assert recordStack[..depth] == recordStack[..depth + 1][..depth] == stack;
      if err != Ok { return; }
      ghost var mid := Held();
      VisitOk(h, h[id].obj.definition, before, deeper, capacity);
      err := CollectAll(h, h[id].obj.fields, depth + 1);
      assert recordStack[..depth] == recordStack[..depth + 1][..depth] == stack;
      if err != Ok { return; }
      VisitAllOk(h, h[id].obj.fields, mid, deeper, capacity);
      LastApart(stack, id, items);
      err := Add(h, id);
    }

    method CollectAll(h: Heap, vs: seq<Value>, depth: nat) returns (err: Error)
      requires Valid(h) && depth <= recordStack.Length && Walking(h, Held(), recordStack[..depth])
      modifies this`symbols, this`items, indexById, recordStack
      ensures Valid(h) && recordStack[..depth] == old(recordStack[..depth])
      ensures var r := VisitAll(h, vs, old(Held()), old(recordStack[..depth]), capacity);
        if r.Found? then err == Ok && Held() == r.tables else err == r.err && err != Ok
      decreases |h| - depth, 1, |vs|
    {
      hide Visit, VisitAll, ItemIndex, Ordered, Defined, Apart, OnPath, PlainNew;
      ghost var stack := recordStack[..depth];
      ghost var all := VisitAll(h, vs, Held(), stack, capacity);
      PathFits(stack, |h|);
      var i: nat := 0;
      assert vs[0..] == vs;
      while i < |vs|
        invariant i <= |vs| && Valid(h) && recordStack[..depth] == stack && Walking(h, Held(), stack)
        invariant all == VisitAll(h, vs[i..], Held(), stack, capacity)
        decreases |vs| - i
      {
        VisitAllStep(h, vs, i, Held(), stack, capacity);
        var v := vs[i];
        if v.Slot? {
          return TypeMismatch;
        }
        if v.Obj? {
          if !IsLive(h, v.id) {
            return Bounds;
          }
          if !h[v.id].obj.Text? && !h[v.id].obj.Record? {
            return NOT_PERSISTABLE;
          }
          ghost var before := Held();
          err := CollectVisit(h, v, depth);
          if err != Ok { return; }
          VisitOk(h, v, before, stack, capacity);
        }
        i := i + 1;
      }
      VisitAllEnd(h, Held(), stack, capacity);
      assert vs[i..] == [];
      err := Ok;
    }

    /** Collects everything the overlay needs. */
    method CollectOverlay(h: Heap, slots: seq<SlotEntry>) returns (err: Error)
      requires Valid(h) && Defined(h) && symbols == [] && items == []
      modifies this`symbols, this`items, indexById, recordStack
      ensures Valid(h)
      ensures var r := Collect(h, slots, capacity);
        if r.Found? then err == Ok && Held() == r.tables else err == r.err && err != Ok
    {
      hide Visit, ItemIndex, Ordered, Defined, Apart, OnPath, AddSymbol, PlainNew;
      ghost var all := CollectFrom(h, slots, Held(), capacity);
      EmptyOrdered(h);
      var i: nat := 0;
      assert slots[0..] == slots;
      while i < |slots|
        invariant i <= |slots| && Valid(h) && Ordered(h, Held())
        invariant all == CollectFrom(h, slots[i..], Held(), capacity)
      {
        CollectFromStep(h, slots, i, Held(), capacity);
        ghost var start := Held();
        if slots[i].overlay {
          err := FindOrAdd(slots[i].name);
          if err != Ok { return; }
          AddSymbolOk(h, start, slots[i].name);
          if slots[i].impl.Some? {
            ghost var named := Held();
            WalkingEmpty(h, named);
            assert recordStack[..0] == [];
            err := CollectVisit(h, slots[i].impl.value, 0);
            if err != Ok { return; }
            VisitOk(h, slots[i].impl.value, named, [], capacity);
          }
        }
        i := i + 1;
      }
      CollectFromEnd(h, Held(), capacity);
      assert slots[i..] == [];
      err := Ok;
    }
  }

  /** A state of the walk: what is numbered is in order, and the path is not numbered yet. */
  ghost predicate Walking(h: Heap, t: Tables, stack: seq<nat>) {
    Path(stack, |h|) && Ordered(h, t) && Defined(h) && Apart(stack, t.items) && OnPath(h, stack)
  }

  lemma WalkingEmpty(h: Heap, t: Tables)
    requires Ordered(h, t) && Defined(h)
    ensures Walking(h, t, [])
  {
    hide Ordered, Defined;
  }

  lemma WalkingPush(h: Heap, t: Tables, stack: seq<nat>, id: nat)
    requires Walking(h, t, stack) && IsLive(h, id) && h[id].obj.Record? && id !in stack && id !in t.items
    ensures Walking(h, t, stack + [id])
  {
    hide Ordered, Defined;
    PathPush(stack, |h|, id);
  }

  lemma LastApart(stack: seq<nat>, id: nat, items: seq<nat>)
    requires Apart(stack + [id], items)
    ensures id !in items
  {
    assert (stack + [id])[|stack|] == id;
  }

  lemma {:induction false} IndexAppend(items: seq<nat>, id: nat, k: nat)
    requires id !in items
    ensures ItemIndex(items + [id], k) == if k in items then ItemIndex(items, k) else if k == id then |items| else |items| + 1
  {
    if items == [] {
      assert items + [id] == [id];
    } else {
      assert (items + [id])[1..] == items[1..] + [id];
      IndexAppend(items[1..], id, k);
    }
  }

  lemma NodesSymbolsStep(ns: seq<Node>, i: nat)
    requires i < |ns|
    ensures NodesSymbols(ns[i..]) == NodeSymbols(ns[i]) + NodesSymbols(ns[i + 1..])
  {
    hide NodeSymbols;
    assert ns[i..][1..] == ns[i + 1..];
  }

  lemma AddSymbolsFirst(t: Tables, names: seq<string>, rest: seq<string>)
    requires names != []
    ensures AddSymbols(t, names + rest) ==
      if AddSymbol(t, names[0]).Found? then AddSymbols(AddSymbol(t, names[0]).tables, names[1..] + rest) else AddSymbol(t, names[0])
  {
    hide AddSymbol;
    assert (names + rest)[1..] == names[1..] + rest;
  }

  lemma NamesFew(n: Node, rest: seq<string>)
    ensures |NodeSymbols(n)| <= 2
    ensures |NodeSymbols(n)| == 0 ==> NodeSymbols(n) + rest == rest
    ensures |NodeSymbols(n)| == 1 ==> NodeSymbols(n)[1..] + rest == rest
    ensures |NodeSymbols(n)| == 2 ==> NodeSymbols(n)[1..][1..] + rest == rest
  {
  }

  lemma VisitAllStep(h: Heap, vs: seq<Value>, i: nat, t: Tables, stack: seq<nat>, capacity: nat)
    requires Path(stack, |h|) && i < |vs|
    ensures var v := vs[i];
      VisitAll(h, vs[i..], t, stack, capacity) ==
        if v.Int? || v.Bool? || v.Nil? then VisitAll(h, vs[i + 1..], t, stack, capacity)
        else if v.Slot? then Refused(TypeMismatch)
        else if !IsLive(h, v.id) then Refused(Bounds)
        else if h[v.id].obj.Text? || h[v.id].obj.Record? then
          var r := Visit(h, v, t, stack, capacity);
          if r.Refused? then r else VisitAll(h, vs[i + 1..], r.tables, stack, capacity)
        else Refused(NOT_PERSISTABLE)
  {
    hide Visit;
    assert vs[i..][1..] == vs[i + 1..];
  }

  lemma VisitAllEnd(h: Heap, t: Tables, stack: seq<nat>, capacity: nat)
    requires Path(stack, |h|)
    ensures VisitAll(h, [], t, stack, capacity) == Found(t)
  {
  }

  lemma CollectFromStep(h: Heap, slots: seq<SlotEntry>, i: nat, t: Tables, capacity: nat)
    requires i < |slots|
    ensures var r := CollectSlot(h, slots[i], t, capacity);
      CollectFrom(h, slots[i..], t, capacity) == if r.Refused? then r else CollectFrom(h, slots[i + 1..], r.tables, capacity)
  {
    hide CollectSlot;
    assert slots[i..][1..] == slots[i + 1..];
  }

  lemma CollectFromEnd(h: Heap, t: Tables, capacity: nat)
    ensures CollectFrom(h, [], t, capacity) == Found(t)
  {
  }
}

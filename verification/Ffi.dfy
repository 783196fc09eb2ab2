/**
 Installing a table of native functions: all of it, or none of it.
 */
module Ffi {
  import opened Values
  import opened Spans
  import opened Heap
  import Packed
  import opened Storage
  import opened Runtime
  import opened Names

  const ARITY_UNKNOWN: nat := 255
  const SIGNATURE: Error := Signature

  datatype Maybe<T> = None | Some(value: T)

  datatype Slot = Slot(name: string, impl: Maybe<Values.Value>, prim: Maybe<nat>, overlay: bool, inArity: nat, outArity: nat)

  /** What a slot was bound to when it was captured; a binding to code hides one to a primitive. */
  datatype Binding = Impl(v: Values.Value) | Prim(prim: nat) | Empty

  datatype State = State(binding: Binding, overlay: bool, inArity: nat, outArity: nat)

  function Captured(s: Slot): State {
    State(if s.impl.Some? then Impl(s.impl.value) else if s.prim.Some? then Prim(s.prim.value) else Empty,
      s.overlay, s.inArity, s.outArity)
  }

  function Cleared(s: Slot): Slot { Slot.Slot(s.name, None, None, s.overlay, ARITY_UNKNOWN, ARITY_UNKNOWN) }

  function WithArity(s: Slot, inArity: nat, outArity: nat): Slot {
    if inArity == ARITY_UNKNOWN || outArity == ARITY_UNKNOWN then s.(inArity := ARITY_UNKNOWN, outArity := ARITY_UNKNOWN)
    else s.(inArity := inArity, outArity := outArity)
  }

  function Restored(s: Slot, st: State): Slot {
    var c := Cleared(s);
    var b := match st.binding
      case Impl(v) => c.(impl := Some(v))
      case Prim(p) => c.(prim := Some(p))
      case Empty => c;
    WithArity(b, st.inArity, st.outArity).(overlay := st.overlay)
  }

  /** A slot bound at most one way, its two arities known together. */
  predicate Plain(s: Slot) {
    !(s.impl.Some? && s.prim.Some?) && (s.inArity == ARITY_UNKNOWN <==> s.outArity == ARITY_UNKNOWN)
  }

  /** Restoring a captured state brings the slot back exactly when the slot was plain. */
  lemma RestoreExact(s: Slot, now: Slot)
    requires now.name == s.name
    ensures Restored(now, Captured(s)) == s <==> Plain(s)
  {
  }

  // ----- ownership -----

  function ImplValue(s: Slot): Values.Value { if s.impl.Some? then s.impl.value else Nil }

  function Impls(slots: seq<Slot>): (vs: seq<Values.Value>)
    ensures |vs| == |slots|
  {
    seq(|slots|, i requires 0 <= i < |slots| => ImplValue(slots[i]))
  }

  function SavedImpl(st: State): Values.Value { if st.binding.Impl? then st.binding.v else Nil }

  lemma ImplsUpdate(slots: seq<Slot>, i: nat, s: Slot)
    requires i < |slots|
    ensures Refs(Impls(slots[i := s])) + Ref(ImplValue(slots[i])) == Refs(Impls(slots)) + Ref(ImplValue(s))
  {
    hide Refs;
    assert Impls(slots[i := s]) == Impls(slots)[i := ImplValue(s)];
    RefsUpdate(Impls(slots), i, ImplValue(s));
  }

  lemma ImplsAppend(slots: seq<Slot>, s: Slot)
    requires s.impl.None?
    ensures Refs(Impls(slots + [s])) == Refs(Impls(slots))
  {
    hide Refs;
    assert Impls(slots + [s]) == Impls(slots) + [Nil];
    RefsConcat(Impls(slots), [Nil]);
    OneNil();
  }

  lemma OneNil()
    ensures Refs([Nil]) == multiset{} && Ref(Nil) == multiset{}
  {
    assert [Nil][1..] == [];
  }

  // ----- tables -----

  datatype Entry = Entry(name: string, arity: nat, shapely: bool, tag: nat)

  datatype Pending = Pending(slot: nat, saved: State, value: Values.Value, inArity: nat, outArity: nat)

  function FindSlot(slots: seq<Slot>, name: string): (i: nat)
    ensures i <= |slots|
    ensures i < |slots| ==> slots[i].name == name
    ensures forall j :: 0 <= j < i ==> slots[j].name != name
  {
    if slots == [] || slots[0].name == name then 0 else 1 + FindSlot(slots[1..], name)
  }

  lemma FindIs(slots: seq<Slot>, name: string, i: nat)
    requires i < |slots| && slots[i].name == name && forall j :: 0 <= j < i ==> slots[j].name != name
    ensures FindSlot(slots, name) == i
  {
    var k := FindSlot(slots, name);
  }

  lemma FindExtended(slots: seq<Slot>, more: seq<Slot>, name: string)
    requires slots <= more && FindSlot(slots, name) < |slots|
    ensures FindSlot(more, name) == FindSlot(slots, name)
  {
    var i := FindSlot(slots, name);
    FindIs(more, name, i);
  }

  function NewSlot(name: string): Slot { Slot.Slot(name, None, None, false, ARITY_UNKNOWN, ARITY_UNKNOWN) }

  predicate DistinctNames(table: seq<Entry>) { forall i, j :: 0 <= i < j < |table| ==> table[i].name != table[j].name }

  predicate ValidTable(table: seq<Entry>) { (forall i :: 0 <= i < |table| ==> table[i].shapely) && DistinctNames(table) }

  method ValidateTable(table: seq<Entry>) returns (ok: bool)
    ensures ok == ValidTable(table)
  {
    var i: nat := 0;
    while i < |table|
      invariant i <= |table|
      invariant forall k :: 0 <= k < i ==> table[k].shapely
      invariant forall k, l :: 0 <= k < l < i ==> table[k].name != table[l].name
    {
      if !table[i].shapely {
        return false;
      }
      var j: nat := 0;
      while j < i
        invariant j <= i && forall k :: 0 <= k < j ==> table[k].name != table[i].name
      {
        if table[j].name == table[i].name {
          return false;
        }
        j := j + 1;
      }
      i := i + 1;
    }
    ok := true;
  }

  // ----- the room a table takes -----

  predicate Has(slots: seq<Slot>, name: string) { FindSlot(slots, name) < |slots| }

  /** How many entries name a slot that is not there yet. */
  function Missing(slots: seq<Slot>, table: seq<Entry>): nat {
    if table == [] then 0
    else Missing(slots, table[..|table| - 1]) + if Has(slots, table[|table| - 1].name) then 0 else 1
  }

  lemma {:induction false} MissingMore(slots: seq<Slot>, table: seq<Entry>, n: nat)
    requires n <= |table|
    ensures Missing(slots, table[..n]) <= Missing(slots, table)
    decreases |table| - n
  {
    if n < |table| {
      MissingNext(slots, table, n);
      MissingMore(slots, table, n + 1);
    } else {
      assert table[..n] == table;
    }
  }

  lemma MissingNext(slots: seq<Slot>, table: seq<Entry>, n: nat)
    requires n < |table|
    ensures Missing(slots, table[..n + 1]) == Missing(slots, table[..n]) + if Has(slots, table[n].name) then 0 else 1
  {
    assert table[..n + 1][..n] == table[..n];
  }

  /** The slots `now` are those `before` and one more for each missing name among the first `n` entries. */
  ghost predicate Gained(before: seq<Slot>, now: seq<Slot>, table: seq<Entry>, n: nat) {
    && n <= |table| && |now| == |before| + Missing(before, table[..n])
    && (forall name: string :: Has(now, name) <==> Has(before, name) || exists k :: 0 <= k < n && table[k].name == name)
  }

  lemma GainedNone(before: seq<Slot>, table: seq<Entry>)
    ensures Gained(before, before, table, 0)
  {
    hide Has;
    assert table[..0] == [];
  }

  lemma GainedNext(before: seq<Slot>, now: seq<Slot>, next: seq<Slot>, table: seq<Entry>, n: nat)
    requires Gained(before, now, table, n) && n < |table| && DistinctNames(table)
    requires next == if Has(now, table[n].name) then now else now + [NewSlot(table[n].name)]
    ensures Gained(before, next, table, n + 1)
    ensures Has(now, table[n].name) <==> Has(before, table[n].name)
  {
    hide FindSlot, Missing;
    MissingNext(before, table, n);
    forall name: string
      ensures Has(next, name) <==> Has(before, name) || exists k :: 0 <= k < n + 1 && table[k].name == name
    {
      HasAppended(now, table[n].name, name);
    }
  }

  lemma HasAppended(slots: seq<Slot>, new_: string, name: string)
    ensures Has(slots + [NewSlot(new_)], name) <==> Has(slots, name) || name == new_
  {
    hide FindSlot;
    var more := slots + [NewSlot(new_)];
    var i, j := FindSlot(slots, name), FindSlot(more, name);
    assert more[|slots|].name == new_;
    assert forall k :: 0 <= k < |slots| ==> more[k] == slots[k];
  }

  lemma GainedMost(before: seq<Slot>, now: seq<Slot>, table: seq<Entry>, n: nat, slotLimit: nat)
    requires Gained(before, now, table, n) && n < |table| && DistinctNames(table)
    ensures !Has(now, table[n].name) && |now| >= slotLimit ==> slotLimit < |before| + Missing(before, table)
  {
    hide Has, Missing;
    MissingNext(before, table, n);
    MissingMore(before, table, n + 1);
  }

  /** Enough free object numbers for the natives and enough entries for the new slots. */
  predicate TableFits(slots: seq<Slot>, slotLimit: nat, numbers: int, table: seq<Entry>) {
    |slots| + Missing(slots, table) <= slotLimit && |table| <= numbers
  }

  lemma NothingReserved(rt: Runtime)
    requires rt.Valid()
    ensures rt.Available().payload >= Packed.AlignUp(0, rt.alignment) == 0
  {
  }

  // ----- what staging leaves -----

  /** The slots `now` are `before` with unbound slots added at the end. */
  predicate Extended(before: seq<Slot>, now: seq<Slot>) {
    before <= now && forall k :: |before| <= k < |now| ==> now[k] == NewSlot(now[k].name)
  }

  function PendingValues(pending: seq<Pending>): (vs: seq<Values.Value>)
    ensures |vs| == |pending|
  {
    seq(|pending|, i requires 0 <= i < |pending| => pending[i].value)
  }

  function SavedValues(pending: seq<Pending>): (vs: seq<Values.Value>)
    ensures |vs| == |pending|
  {
    seq(|pending|, i requires 0 <= i < |pending| => SavedImpl(pending[i].saved))
  }

  /** Entry `k` is staged for its own slot, whose state is saved, with a native object of its own. */
  ghost predicate StagedAt(h: Heap, slots: seq<Slot>, p: Pending, e: Entry) {
    && p.slot < |slots| && p.slot == FindSlot(slots, e.name) && p.saved == Captured(slots[p.slot])
    && p.inArity == e.arity && p.outArity == 1
    && p.value.Obj? && LastLeaf(h, p.value.id) && h[p.value.id].obj == Native(e.tag, e.arity)
  }

  /** Whatever was live is as it was, and only the pending objects are new. */
  ghost predicate OnlyNew(start: Heap, h: Heap, values: seq<Values.Value>) {
    && |start| <= |h|
    && (forall i :: 0 <= i < |start| && start[i].Live? ==> h[i] == start[i])
    && (forall i :: 0 <= i < |h| && h[i].Live? && !IsLive(start, i) ==> Obj(i) in values)
    && (forall v | v in values && v.Obj? :: !IsLive(start, v.id))
  }

  ghost predicate Staged(start: Heap, h: Heap, slots: seq<Slot>, pending: seq<Pending>, table: seq<Entry>) {
    && |pending| <= |table|
    && (forall k :: 0 <= k < |pending| ==> StagedAt(h, slots, pending[k], table[k]))
    && (forall j, k :: 0 <= j < k < |pending| ==> pending[j].value != pending[k].value)
    && OnlyNew(start, h, PendingValues(pending))
  }

  /** Nothing new is left. */
  ghost predicate Undone(start: Heap, h: Heap) {
    && |start| <= |h|
    && (forall i :: 0 <= i < |start| && start[i].Live? ==> h[i] == start[i])
    && (forall i :: 0 <= i < |h| && h[i].Live? ==> IsLive(start, i))
  }

  lemma {:induction false} StagedNext(start: Heap, h: Heap, g: Heap, slots: seq<Slot>, pending: seq<Pending>, table: seq<Entry>, p: Pending, span: Span)
    requires Staged(start, h, slots, pending, table) && |pending| < |table|
    requires p.value.Obj? && p.value.id <= |h| && !IsLive(h, p.value.id)
    requires g == Installed(h, p.value.id, Native(table[|pending|].tag, table[|pending|].arity), span)
    requires p.slot < |slots| && p.slot == FindSlot(slots, table[|pending|].name) && p.saved == Captured(slots[p.slot])
    requires p.inArity == table[|pending|].arity && p.outArity == 1
    ensures Staged(start, g, slots, pending + [p], table)
  {
    hide Captured, FindSlot, OnlyNew;
    var longer := pending + [p];
    forall k | 0 <= k < |longer| ensures StagedAt(g, slots, longer[k], table[k]) {
      if k < |pending| {
        assert StagedAt(h, slots, pending[k], table[k]);
      }
    }
    forall j, k | 0 <= j < k < |longer| ensures longer[j].value != longer[k].value {
      assert StagedAt(h, slots, pending[j], table[j]);
    }
    assert PendingValues(longer) == PendingValues(pending) + [p.value];
    OnlyNewNext(start, h, g, PendingValues(pending), p.value.id);
  }

  lemma OnlyNewNext(start: Heap, h: Heap, g: Heap, values: seq<Values.Value>, id: nat)
    requires OnlyNew(start, h, values) && id <= |h| && !IsLive(h, id)
    requires |g| == |h| || (|g| == |h| + 1 && id == |h|)
    requires forall i :: 0 <= i < |h| && i != id ==> g[i] == h[i]
    ensures OnlyNew(start, g, values + [Obj(id)])
  {
    forall i | 0 <= i < |g| && g[i].Live? && !IsLive(start, i) ensures Obj(i) in values + [Obj(id)] {
      if i != id {
        assert h[i].Live?;
      }
    }
    forall i | 0 <= i < |start| && start[i].Live? ensures g[i] == start[i] {
      assert h[i] == start[i];
    }
  }

  /** The pending objects that are still there: each on its own, with one reference. */
  ghost predicate LeftOver(start: Heap, h: Heap, values: seq<Values.Value>) {
    && OnlyNew(start, h, values)
    && (forall k :: 0 <= k < |values| ==> values[k].Obj? && LastLeaf(h, values[k].id))
    && (forall j, k :: 0 <= j < k < |values| ==> values[j] != values[k])
  }

  lemma StagedLeft(start: Heap, h: Heap, slots: seq<Slot>, pending: seq<Pending>, table: seq<Entry>)
    requires Staged(start, h, slots, pending, table)
    ensures LeftOver(start, h, PendingValues(pending))
  {
    hide Captured;
    forall k | 0 <= k < |pending| ensures pending[k].value.Obj? && LastLeaf(h, pending[k].value.id) {
      assert StagedAt(h, slots, pending[k], table[k]);
    }
  }

  /** Releasing one of them leaves the others. */
  lemma LeftOverNext(start: Heap, h: Heap, values: seq<Values.Value>, j: nat)
    requires LeftOver(start, h, values) && j < |values|
    ensures LeftOver(start, h[values[j].id := Free], values[..j] + values[j + 1..])
  {
    var g := h[values[j].id := Free];
    var rest := values[..j] + values[j + 1..];
    forall k | 0 <= k < |rest| ensures rest[k].Obj? && LastLeaf(g, rest[k].id) {
      assert rest[k] == values[if k < j then k else k + 1];
    }
    forall i, k | 0 <= i < k < |rest| ensures rest[i] != rest[k] {
      assert rest[i] == values[if i < j then i else i + 1] && rest[k] == values[if k < j then k else k + 1];
    }
    assert values[j] in values;
    forall i | 0 <= i < |g| && g[i].Live? && !IsLive(start, i) ensures Obj(i) in rest {
      var k :| 0 <= k < |values| && values[k] == Obj(i);
      assert rest[if k < j then k else k - 1] == values[k];
    }
    forall i | 0 <= i < |start| && start[i].Live? ensures g[i] == start[i] {
      assert h[i] == start[i];
    }
    forall v | v in rest && v.Obj? ensures !IsLive(start, v.id) {
      assert v in values;
    }
  }

  lemma LeftOverNone(start: Heap, h: Heap)
    requires LeftOver(start, h, [])
    ensures Undone(start, h)
  {
  }

  lemma StagedNone(start: Heap, slots: seq<Slot>, table: seq<Entry>)
    ensures Staged(start, start, slots, [], table)
  {
  }

  // ----- what replacing does to the slots -----

  function Put(s: Slot, p: Pending): Slot {
    WithArity(Cleared(s).(impl := Some(p.value)), p.inArity, p.outArity).(overlay := false)
  }

  /** The slots after the first `n` pending replacements. */
  function Replaced(slots: seq<Slot>, pending: seq<Pending>, n: nat): (r: seq<Slot>)
    requires n <= |pending|
    ensures |r| == |slots|
  {
    if n == 0 then slots
    else
      var r := Replaced(slots, pending, n - 1);
      var i := pending[n - 1].slot;
      if i < |r| then r[i := Put(r[i], pending[n - 1])] else r
  }

  predicate DistinctPlaces(pending: seq<Pending>) { forall j, k :: 0 <= j < k < |pending| ==> pending[j].slot != pending[k].slot }

  lemma {:induction false} ReplacedOther(slots: seq<Slot>, pending: seq<Pending>, n: nat, i: nat)
    requires n <= |pending| && i < |slots| && forall k :: 0 <= k < n ==> pending[k].slot != i
    ensures Replaced(slots, pending, n)[i] == slots[i]
  {
    hide Put;
    if n > 0 {
      ReplacedOther(slots, pending, n - 1, i);
    }
  }

  lemma {:induction false} ReplacedUpdate(slots: seq<Slot>, pending: seq<Pending>, n: nat, i: nat, s: Slot)
    requires n <= |pending| && i < |slots| && forall k :: 0 <= k < n ==> pending[k].slot != i
    ensures Replaced(slots[i := s], pending, n) == Replaced(slots, pending, n)[i := s]
  {
    hide Put;
    if n > 0 {
      ReplacedUpdate(slots, pending, n - 1, i, s);
      var j := pending[n - 1].slot;
      if j < |slots| {
        var r := Replaced(slots, pending, n - 1);
        assert r[i := s][j] == r[j];
      }
    }
  }

  lemma PlacesDistinct(h: Heap, slots: seq<Slot>, pending: seq<Pending>, table: seq<Entry>)
    requires |pending| <= |table| && DistinctNames(table)
    requires forall k :: 0 <= k < |pending| ==> StagedAt(h, slots, pending[k], table[k])
    ensures DistinctPlaces(pending)
  {
    forall j, k | 0 <= j < k < |pending| ensures pending[j].slot != pending[k].slot {
      assert StagedAt(h, slots, pending[j], table[j]) && StagedAt(h, slots, pending[k], table[k]);
    }
  }

  /** Each slot is as it was, or what capturing and restoring makes of it. */
  predicate Rolled(before: seq<Slot>, now: seq<Slot>) {
    |now| == |before| && forall i :: 0 <= i < |now| ==> now[i] == before[i] || now[i] == Restored(before[i], Captured(before[i]))
  }

  predicate AllPlain(slots: seq<Slot>) { forall i :: 0 <= i < |slots| ==> Plain(slots[i]) }

  lemma ExtendedPlain(before: seq<Slot>, now: seq<Slot>)
    requires Extended(before, now) && AllPlain(before)
    ensures AllPlain(now)
  {
    forall i | 0 <= i < |now| ensures Plain(now[i]) {
      if i < |before| {
        assert before[i] == now[i];
      }
    }
  }

  /** A native in its slot leaves the slot plain. */
  lemma {:induction false} ReplacedPlain(slots: seq<Slot>, pending: seq<Pending>, n: nat)
    requires n <= |pending| && AllPlain(slots)
    ensures AllPlain(Replaced(slots, pending, n))
  {
    if n > 0 {
      ReplacedPlain(slots, pending, n - 1);
      assert forall s, p {:trigger Put(s, p)} :: Plain(Put(s, p));
    }
  }

  /** If every slot was plain, nothing has changed. */
  lemma RolledPlain(before: seq<Slot>, now: seq<Slot>)
    requires Rolled(before, now) && AllPlain(before)
    ensures now == before
  {
    hide Restored, Captured, Plain;
    forall i | 0 <= i < |now| ensures now[i] == before[i] {
      RestoreExact(before[i], before[i]);
    }
  }

  lemma RestoredAgain(s: Slot, p: Pending, st: State)
    ensures Restored(Put(s, p), st) == Restored(s, st)
    ensures ImplValue(Restored(s, st)) == SavedImpl(st)
    ensures ImplValue(Put(s, p)) == p.value
    ensures ImplValue(s) == SavedImpl(Captured(s))
    ensures Restored(s, st).name == s.name && Put(s, p).name == s.name
  {
  }

  /** Where a replacement goes wrong, if it does. */
  datatype Fault = NoFault | AtStart(err: Error) | AfterClear(err: Error)

  predicate NoFaults(faults: seq<Fault>) { forall k :: 0 <= k < |faults| ==> faults[k].NoFault? }

  predicate Real(f: Fault) { !f.NoFault? ==> f.err != Ok }

  class Installer {
    const rt: Runtime
    const slotLimit: nat
    var slots: seq<Slot>

    ghost predicate Owned(loose: multiset<nat>)
      reads this, rt, rt.payload, rt.payload.spans, rt.cellspace, rt.cellspace.spans
    {
      rt.Valid() && Accurate(rt.heap, Refs(Impls(slots)) + loose)
    }

    constructor (rt: Runtime, slots: seq<Slot>, slotLimit: nat)
      requires rt.Valid() && Accurate(rt.heap, Refs(Impls(slots)))
      ensures this.rt == rt && this.slots == slots && this.slotLimit == slotLimit && Owned(multiset{})
    {
      this.rt, this.slots, this.slotLimit := rt, slots, slotLimit;
      new;
      assert Refs(Impls(slots)) + multiset{} == Refs(Impls(slots));
    }

    method FindOrCreate(name: string, ghost loose: multiset<nat>) returns (err: Error, index: nat)
      requires Owned(loose)
      modifies this`slots
      ensures Owned(loose) && Extended(old(slots), slots)
      ensures err == Ok ==> index < |slots| && index == FindSlot(slots, name)
      ensures err == if !Has(old(slots), name) && |old(slots)| >= slotLimit then SlotTableFull else Ok
      ensures err == Ok ==> slots == if Has(old(slots), name) then old(slots) else old(slots) + [NewSlot(name)]
    {
      hide Runtime.Valid, Accurate, Refs, Impls;
      err := Ok;
      index := FindSlot(slots, name);
      if index == |slots| {
        if |slots| >= slotLimit {
          return SlotTableFull, 0;
        }
        ImplsAppend(slots, NewSlot(name));
        slots := slots + [NewSlot(name)];
        FindIs(slots, name, index);
      }
    }

    /** Puts a native into a slot; if that goes wrong the slot's captured state is restored. */
    method ReplaceSlot(p: Pending, fault: Fault) returns (err: Error)
      requires p.slot < |slots| && Real(fault)
      modifies this`slots
      ensures err == if fault.NoFault? then Ok else fault.err
      ensures slots == old(slots)[p.slot :=
        match fault
        case NoFault => Put(old(slots)[p.slot], p)
        case AtStart(_) => old(slots)[p.slot]
        case AfterClear(_) => Restored(old(slots)[p.slot], Captured(old(slots)[p.slot]))]
    {
      hide Restored, Captured;
      var saved := Captured(slots[p.slot]);
      if fault.AtStart? {
        return fault.err;
      }
      ghost var was := slots[p.slot];
      slots := slots[p.slot := Cleared(slots[p.slot])];
      if fault.AfterClear? {
        RestoredCleared(was, saved);
        slots := slots[p.slot := Restored(slots[p.slot], saved)];
        return fault.err;
      }
      slots := slots[p.slot := slots[p.slot].(impl := Some(p.value))];
      slots := slots[p.slot := WithArity(slots[p.slot], p.inArity, p.outArity)];
      slots := slots[p.slot := slots[p.slot].(overlay := false)];
      err := Ok;
    }

    /** Finds a slot and makes a native object for each entry; no binding changes yet. */
    method Stage(table: seq<Entry>) returns (err: Error, pending: seq<Pending>)
      requires Owned(multiset{}) && this !in rt.Repr() && ValidTable(table)
      modifies this`slots, rt, rt.payload, rt.payload.spans
      ensures Owned(Refs(PendingValues(pending))) && Extended(old(slots), slots)
      ensures Staged(old(rt.heap), rt.heap, slots, pending, table)
      ensures err == Ok ==> |pending| == |table|
      ensures err in {Ok, SlotTableFull, OutOfMemory}
      ensures err != Ok ==> !TableFits(old(slots), slotLimit, old(rt.Available()).numbers, table)
    {
      hide Runtime.Valid, Accurate, Refs, Impls, Staged, Captured, NewObject, PendingValues, Installed, Gained, Missing,
        DistinctNames, Has, FindSlot;
      ghost var first, numbers := slots, rt.Available().numbers;
      GainedNone(slots, table);
      pending := [];
      NoPending();
      StagedNone(rt.heap, slots, table);
      ghost var start := rt.heap;
      while |pending| < |table|
        invariant |pending| <= |table| && Extended(old(slots), slots)
        invariant Owned(Refs(PendingValues(pending))) && Staged(start, rt.heap, slots, pending, table)
        invariant Gained(first, slots, table, |pending|) && rt.Available().numbers >= numbers - |pending|
      {
        NothingReserved(rt);
        GainedMost(first, slots, table, |pending|, slotLimit);
        ghost var loose := Refs(PendingValues(pending));
        ghost var slotsBefore := slots;
        var e := table[|pending|];
        var index;
        err, index := FindOrCreate(e.name, loose);
        StagedExtended(start, rt.heap, slotsBefore, slots, pending, table);
        if err != Ok { return; }
        GainedNext(first, slotsBefore, slots, table, |pending|);
        ghost var before := rt.heap;
        var v;
        err, v := rt.AllocLeaf(Native(e.tag, e.arity), 0, Refs(Impls(slots)) + loose);
        if err != Ok { return; }
        var p := Pending(index, Captured(slots[index]), v, e.arity, 1);
        FreshId(before, rt.heap, v.id, Native(e.tag, e.arity));
        StagedNext(start, before, rt.heap, slots, pending, table, p, SpanOf(rt.heap[v.id]));
        OneMorePending(pending, p, Refs(Impls(slots)));
        pending := pending + [p];
      }
      err := Ok;
    }

    /** Releases the objects of some pending entries, in order. */
    method ReleasePending(values: seq<Values.Value>, ghost start: Heap)
      requires Owned(Refs(values)) && LeftOver(start, rt.heap, values) && this !in rt.Repr()
      modifies rt, rt.payload, rt.payload.spans, rt.cellspace, rt.cellspace.spans
      ensures Owned(multiset{}) && Undone(start, rt.heap)
    {
      hide Runtime.Valid, Accurate, Refs, Impls, LeftOver, Shrunk;
      var i: nat := 0;
      assert values[0..] == values;
      while i < |values|
        invariant i <= |values| && Owned(Refs(values[i..])) && LeftOver(start, rt.heap, values[i..])
      {
        ghost var left := values[i..];
        ghost var owed := Refs(Impls(slots));
        assert left[0] == values[i] && left[1..] == values[i + 1..];
        TakeFirst(left, owed);
        LeftOverHead(start, rt.heap, left);
        rt.Release(values[i], owed + Refs(values[i + 1..]));
        i := i + 1;
      }
      assert values[i..] == [];
      NoRefs();
      LeftOverNone(start, rt.heap);
    }

    /** Replaces the staged slots one by one; stops at the first that goes wrong. */
    method ReplaceAll(pending: seq<Pending>, table: seq<Entry>, faults: seq<Fault>, ghost start: Heap) returns (err: Error, done: nat, ghost base: seq<Slot>)
      requires Owned(Refs(PendingValues(pending))) && Staged(start, rt.heap, slots, pending, table) && DistinctNames(table)
      requires |faults| == |pending| && forall k :: 0 <= k < |faults| ==> Real(faults[k])
      modifies this`slots
      ensures done <= |pending| && Rolled(old(slots), base) && slots == Replaced(base, pending, done)
      ensures Owned(Refs(PendingValues(pending)[done..]) + Refs(SavedValues(pending)[..done]))
      ensures err == Ok <==> forall k :: 0 <= k < |faults| ==> faults[k].NoFault?
      ensures err == Ok ==> done == |pending| && base == old(slots)
      ensures Kept(old(slots), base, pending, done)
    {
      hide Runtime.Valid, Accurate, Refs, Impls, Captured, Restored, PendingValues, SavedValues, Put, Staged, Rolled,
        Kept, DistinctPlaces;
      StagedFacts(start, rt.heap, slots, pending, table);
      done := 0;
      base := slots;
      NothingSaved(pending);
      NoneReplaced(slots, pending);
      RolledSelf(slots);
      while done < |pending|
        invariant done <= |pending| && slots == Replaced(base, pending, done) && base == old(slots)
        invariant Owned(Refs(PendingValues(pending)[done..]) + Refs(SavedValues(pending)[..done]))
        invariant forall k :: 0 <= k < done ==> faults[k].NoFault?
      {
        var p := pending[done];
        ghost var was := if p.slot < |slots| then base[p.slot] else NewSlot("");
        KeptLess(base, pending, done, Restored(was, Captured(was)));
        ReplacedOther(base, pending, done, p.slot);
        RestoredAgain(was, p, Captured(was));
        err := ReplaceSlot(p, faults[done]);
        ImplsUpdate(Replaced(base, pending, done), p.slot, slots[p.slot]);
        if err != Ok {
          if faults[done].AfterClear? {
            SameRefs(Refs(Impls(Replaced(base, pending, done))), Refs(Impls(slots)), Ref(ImplValue(was)));
            ReplacedUpdate(base, pending, done, p.slot, Restored(was, Captured(was)));
            RolledNext(base, base, p.slot);
            base := base[p.slot := Restored(was, Captured(was))];
          }
          return;
        }
        MovedOne(pending, done, Refs(Impls(Replaced(base, pending, done))), Refs(Impls(slots)));
        done := done + 1;
      }
      err := Ok;
    }

    /** Puts back the state one replacement saved, leaving the replacements before it. */
    method RestoreSlot(pending: seq<Pending>, count: nat, ghost tail: seq<Values.Value>, ghost before: seq<Slot>, ghost base: seq<Slot>) returns (ghost next: seq<Slot>)
      requires count < |pending| && Rolled(before, base) && slots == Replaced(base, pending, count + 1) && DistinctPlaces(pending)
      requires Kept(before, base, pending, count + 1)
      requires Owned(Refs(tail) + Refs(SavedValues(pending)[..count + 1]))
      modifies this`slots
      ensures Rolled(before, next) && slots == Replaced(next, pending, count) && Kept(before, next, pending, count)
      ensures Owned((Refs(tail) + Refs(SavedValues(pending)[..count])) + Ref(pending[count].value))
    {
      hide Runtime.Valid, Accurate, Refs, Impls, Captured, Restored, Put, SavedValues, DistinctPlaces, Rolled, Kept;
      var p := pending[count];
      KeptLast(before, base, pending, count);
      ghost var was := base[p.slot];
      ReplacedOther(base, pending, count, p.slot);
      RestoredAgain(was, p, p.saved);
      slots := slots[p.slot := Restored(slots[p.slot], p.saved)];
      ReplacedUpdate(base, pending, count, p.slot, Restored(was, p.saved));
      RestoreOver(Replaced(base, pending, count), p.slot, Put(was, p), Restored(was, p.saved));
      next := base[p.slot := Restored(was, p.saved)];
      RolledNext(before, base, p.slot);
      KeptNext(before, base, pending, count, Restored(was, p.saved));
      ImplsUpdate(old(slots), p.slot, slots[p.slot]);
      BackOne(pending, count, tail, Refs(Impls(old(slots))), Refs(Impls(slots)));
      GroupRight(Refs(Impls(slots)), Refs(tail) + Refs(SavedValues(pending)[..count]), Ref(p.value));
    }

    /** Undoes the first `done` replacements, last first, and releases their objects. */
    method Rollback(pending: seq<Pending>, table: seq<Entry>, done: nat, ghost before: seq<Slot>, ghost base0: seq<Slot>, ghost start: Heap)
      requires done <= |pending| && Rolled(before, base0) && slots == Replaced(base0, pending, done) && DistinctPlaces(pending)
      requires Kept(before, base0, pending, done)
      requires Owned(Refs(PendingValues(pending)[done..]) + Refs(SavedValues(pending)[..done]))
      requires LeftOver(start, rt.heap, PendingValues(pending)) && this !in rt.Repr()
      modifies this`slots, rt, rt.payload, rt.payload.spans, rt.cellspace, rt.cellspace.spans
      ensures Owned(multiset{}) && Undone(start, rt.heap) && Rolled(before, slots)
    {
      hide Runtime.Valid, Accurate, Refs, Impls, LeftOver, Shrunk, Captured, Restored, Put, PendingValues, SavedValues,
        DistinctPlaces, Rolled, Kept, Replaced;
      var count: nat := done;
      ghost var base := base0;
      var tail := PendingValues(pending)[done..];
      LeftOverWhole(start, rt.heap, pending, done);
      while count > 0
        invariant count <= done && Rolled(before, base) && slots == Replaced(base, pending, count)
        invariant Kept(before, base, pending, count)
        invariant Owned(Refs(tail) + Refs(SavedValues(pending)[..count]))
        invariant LeftOver(start, rt.heap, PendingValues(pending)[..count] + tail)
      {
        count := count - 1;
        base := RestoreSlot(pending, count, tail, before, base);
        ghost var owed := Refs(tail) + Refs(SavedValues(pending)[..count]);
        GroupRight(Refs(Impls(slots)), owed, Ref(pending[count].value));
        LeftOverLast(start, rt.heap, pending, count, tail);
        rt.Release(pending[count].value, Refs(Impls(slots)) + owed);
      }
      NoneReplaced(base, pending);
      NothingLeft(pending, tail);
      ReleasePending(tail, start);
    }

    /** Gives up the references to what the natives replaced. */
    method ReleaseReplaced(pending: seq<Pending>)
      requires Owned(Refs(SavedValues(pending))) && this !in rt.Repr()
      modifies rt, rt.payload, rt.payload.spans, rt.cellspace, rt.cellspace.spans
      ensures Owned(multiset{}) && Shrunk(old(rt.heap), rt.heap)
    {
      hide Runtime.Valid, Accurate, Refs, Impls, Shrunk, LastLeaf;
      var i: nat := 0;
      ghost var values := SavedValues(pending);
      assert values[0..] == values;
      ShrunkReflexive(rt.heap);
      while i < |pending|
        invariant i <= |pending| && Owned(Refs(values[i..])) && Shrunk(old(rt.heap), rt.heap)
      {
        ghost var left := values[i..];
        ghost var owed := Refs(Impls(slots));
        assert left[0] == values[i] && left[1..] == values[i + 1..];
        TakeFirst(left, owed);
        var v := SavedImpl(pending[i].saved);
        ghost var before := rt.heap;
        rt.Release(v, owed + Refs(values[i + 1..]));
        ShrunkTransitive(old(rt.heap), before, rt.heap);
        i := i + 1;
      }
      assert values[i..] == [];
      NoRefs();
    }

    /**
     Installs a table: a valid one always, when there is room and no replacement goes wrong. On success every entry's slot holds its native, other slots are
     untouched, and of the objects that were there none has changed but by losing the
     reference a replaced slot held. On a failure, at whatever entry, no native is left, and
     every slot that existed and was plain is as it was.
     */
    method InstallTable(table: seq<Entry>, faults: seq<Fault>) returns (err: Error)
      requires Owned(multiset{}) && this !in rt.Repr()
      requires |faults| == |table| && forall k :: 0 <= k < |faults| ==> Real(faults[k])
      modifies this`slots, rt, rt.payload, rt.payload.spans, rt.cellspace, rt.cellspace.spans
      ensures Owned(multiset{})
      ensures !ValidTable(table) ==> err == SIGNATURE && slots == old(slots) && rt.heap == old(rt.heap)
      ensures err == Ok ==> ValidTable(table) && NoFaults(faults)
      ensures ValidTable(table) && NoFaults(faults) && TableFits(old(slots), slotLimit, old(rt.Available()).numbers, table)
              ==> err == Ok
      ensures err != Ok ==> Undone(old(rt.heap), rt.heap)
      ensures err != Ok ==> exists staged :: Extended(old(slots), staged) && Rolled(staged, slots)
      ensures err == Ok ==> forall k :: 0 <= k < |table| ==> HoldsNative(slots, rt.heap, table[k])
      ensures err == Ok ==> OthersKept(old(slots), slots, table) && Outlived(old(rt.heap), rt.heap)
      ensures AllPlain(old(slots)) ==> AllPlain(slots)
      ensures err != Ok && AllPlain(old(slots)) ==> Extended(old(slots), slots)
    {
      hide Runtime.Valid, Accurate, Refs, Impls, LeftOver, Shrunk, Captured, Restored, Put, PendingValues, SavedValues,
        Staged, Extended, Rolled, Undone, HoldsNative, OthersKept, Replaced, AllPlain, Outlived;
      ghost var start, first := rt.heap, slots;
      UndoneSelf(start);
      ExtendedSelf(slots);
      RolledSelf(slots);
      var ok := ValidateTable(table);
      if !ok {
        return SIGNATURE;
      }
      var pending;
      err, pending := Stage(table);
      ghost var staged := slots;
      ghost var stagedHeap := rt.heap;
      if AllPlain(first) { ExtendedPlain(first, staged); }
      StagedLeft(start, rt.heap, slots, pending, table);
      RolledSelf(slots);
      if err != Ok {
        ReleasePending(PendingValues(pending), start);
        return;
      }
      if AllPlain(first) { ReplacedPlain(staged, pending, |pending|); }
      var done;
      ghost var base;
      err, done, base := ReplaceAll(pending, table, faults, start);
      if err != Ok {
        StagedFacts(start, rt.heap, staged, pending, table);
        Rollback(pending, table, done, staged, base, start);
        if AllPlain(first) { RolledPlain(staged, slots); }
        return;
      }
      AllSaved(pending);
      ReleaseReplaced(pending);
      OutlivedAll(start, stagedHeap, rt.heap, staged, pending, table);
      InstalledAll(start, stagedHeap, rt.heap, first, staged, slots, pending, table);
    }
  }

  /** The entry's slot holds a native object of its own, bound as base code. */
  ghost predicate HoldsNative(slots: seq<Slot>, h: Heap, e: Entry) {
    var i := FindSlot(slots, e.name);
    && i < |slots| && slots[i].impl.Some? && slots[i].prim.None? && !slots[i].overlay
    && (if e.arity == ARITY_UNKNOWN then slots[i].inArity == ARITY_UNKNOWN && slots[i].outArity == ARITY_UNKNOWN
        else slots[i].inArity == e.arity && slots[i].outArity == 1)
    && slots[i].impl.value.Obj? && IsLive(h, slots[i].impl.value.id) && h[slots[i].impl.value.id].obj == Native(e.tag, e.arity)
  }

  predicate Listed(table: seq<Entry>, name: string) { exists k :: 0 <= k < |table| && table[k].name == name }

  /** Slots that the table does not name are as they were. */
  ghost predicate OthersKept(before: seq<Slot>, now: seq<Slot>, table: seq<Entry>) {
    |before| <= |now| && forall i :: 0 <= i < |before| && !Listed(table, before[i].name) ==> now[i] == before[i]
  }

  /** The first `n` slots to be replaced are still as they were captured. */
  predicate Kept(before: seq<Slot>, base: seq<Slot>, pending: seq<Pending>, n: nat)
    requires n <= |pending|
  {
    |base| == |before| && forall k :: 0 <= k < n ==>
      pending[k].slot < |base| && base[pending[k].slot] == before[pending[k].slot] && pending[k].saved == Captured(before[pending[k].slot])
  }

  lemma KeptLast(before: seq<Slot>, base: seq<Slot>, pending: seq<Pending>, count: nat)
    requires count < |pending| && Kept(before, base, pending, count + 1) && DistinctPlaces(pending)
    ensures pending[count].slot < |base| == |before| && base[pending[count].slot] == before[pending[count].slot]
    ensures pending[count].saved == Captured(before[pending[count].slot])
    ensures forall k :: 0 <= k < count ==> pending[k].slot != pending[count].slot
  {
    hide Captured;
  }

  lemma KeptNext(before: seq<Slot>, base: seq<Slot>, pending: seq<Pending>, count: nat, s: Slot)
    requires count < |pending| && Kept(before, base, pending, count + 1) && DistinctPlaces(pending) && pending[count].slot < |base|
    ensures Kept(before, base[pending[count].slot := s], pending, count)
  {
    hide Captured;
  }

  lemma KeptLess(before: seq<Slot>, pending: seq<Pending>, n: nat, s: Slot)
    requires n < |pending| && Kept(before, before, pending, |pending|) && DistinctPlaces(pending)
    ensures pending[n].slot < |before| && (forall k :: 0 <= k < n ==> pending[k].slot != pending[n].slot)
    ensures pending[n].saved == Captured(before[pending[n].slot])
    ensures Kept(before, before, pending, n) && Kept(before, before[pending[n].slot := s], pending, n)
  {
    hide Captured;
  }

  lemma RolledNext(before: seq<Slot>, base: seq<Slot>, i: nat)
    requires Rolled(before, base) && i < |base| && base[i] == before[i]
    ensures Rolled(before, base[i := Restored(before[i], Captured(before[i]))])
  {
    hide Restored, Captured;
  }

  lemma NoneReplaced(slots: seq<Slot>, pending: seq<Pending>)
    ensures Replaced(slots, pending, 0) == slots
  {
  }

  lemma GroupRight(a: multiset<nat>, b: multiset<nat>, c: multiset<nat>)
    ensures (a + b) + c == a + (b + c)
  {
  }

  /** What was live and still is has kept its contents. */
  ghost predicate Outlived(start: Heap, h: Heap) {
    |start| <= |h| && forall i :: 0 <= i < |start| && start[i].Live? ==> CellShrunk(start[i], h[i])
  }

  lemma OutlivedAll(start: Heap, stagedHeap: Heap, h: Heap, slots: seq<Slot>, pending: seq<Pending>, table: seq<Entry>)
    requires Staged(start, stagedHeap, slots, pending, table) && Shrunk(stagedHeap, h)
    ensures Outlived(start, h)
  {
    hide Captured, FindSlot, CellShrunk, StagedAt;
    forall i | 0 <= i < |start| && start[i].Live? ensures CellShrunk(start[i], h[i]) {
      assert stagedHeap[i] == start[i];
    }
  }

  lemma RestoredCleared(s: Slot, st: State)
    ensures Restored(Cleared(s), st) == Restored(s, st)
  {
  }

  lemma NoPending()
    ensures Refs(PendingValues([])) == multiset{}
  {
  }

  lemma StagedExtended(start: Heap, h: Heap, slots: seq<Slot>, more: seq<Slot>, pending: seq<Pending>, table: seq<Entry>)
    requires Staged(start, h, slots, pending, table) && Extended(slots, more)
    ensures Staged(start, h, more, pending, table)
  {
    hide Captured;
    forall k | 0 <= k < |pending| ensures StagedAt(h, more, pending[k], table[k]) {
      assert StagedAt(h, slots, pending[k], table[k]);
      FindExtended(slots, more, table[k].name);
    }
  }

  lemma FreshId(h: Heap, g: Heap, id: nat, o: Object)
    requires NewObject(h, g, id, o)
    ensures id <= |h| && !IsLive(h, id)
  {
  }

  lemma OneMorePending(pending: seq<Pending>, p: Pending, owed: multiset<nat>)
    ensures (owed + Refs(PendingValues(pending))) + Ref(p.value) == owed + Refs(PendingValues(pending + [p]))
  {
    hide Refs;
    assert PendingValues(pending + [p]) == PendingValues(pending) + [p.value];
    RefsConcat(PendingValues(pending), [p.value]);
    SingleRef(p.value);
    assert (owed + Refs(PendingValues(pending))) + Ref(p.value) == owed + (Refs(PendingValues(pending)) + Ref(p.value));
  }

  lemma SingleRef(v: Values.Value)
    ensures Refs([v]) == Ref(v)
  {
    assert [v][1..] == [];
  }

  lemma NoRefs()
    ensures Refs([]) == multiset{}
  {
  }

  lemma TakeFirst(values: seq<Values.Value>, owed: multiset<nat>)
    requires values != []
    ensures owed + Refs(values) == (owed + Refs(values[1..])) + Ref(values[0])
  {
  }

  lemma LeftOverHead(start: Heap, h: Heap, values: seq<Values.Value>)
    requires LeftOver(start, h, values) && values != []
    ensures values[0].Obj? && LastLeaf(h, values[0].id)
    ensures LeftOver(start, h[values[0].id := Free], values[1..])
  {
    hide OnlyNew;
    LeftOverNext(start, h, values, 0);
    assert values[..0] + values[1..] == values[1..];
  }

  lemma NothingSaved(pending: seq<Pending>)
    ensures PendingValues(pending)[0..] == PendingValues(pending) && Refs(SavedValues(pending)[..0]) == multiset{}
    ensures Refs(PendingValues(pending)) + multiset{} == Refs(PendingValues(pending))
  {
    assert SavedValues(pending)[..0] == [];
  }

  lemma SameRefs(a: multiset<nat>, b: multiset<nat>, x: multiset<nat>)
    requires b + x == a + x
    ensures a == b
  {
    assert a == (a + x) - x && b == (b + x) - x;
  }

  lemma MovedOne(pending: seq<Pending>, i: nat, before: multiset<nat>, after: multiset<nat>)
    requires i < |pending|
    requires after + Ref(SavedImpl(pending[i].saved)) == before + Ref(pending[i].value)
    ensures before + (Refs(PendingValues(pending)[i..]) + Refs(SavedValues(pending)[..i]))
         == after + (Refs(PendingValues(pending)[i + 1..]) + Refs(SavedValues(pending)[..i + 1]))
  {
    hide Refs;
    var v, s := PendingValues(pending), SavedValues(pending);
    assert v[i..] == [v[i]] + v[i + 1..] && s[..i + 1] == s[..i] + [s[i]];
    RefsConcat([v[i]], v[i + 1..]);
    RefsConcat(s[..i], [s[i]]);
    SingleRef(v[i]);
    SingleRef(s[i]);
    Swap(before, after, Ref(v[i]), Ref(s[i]), Refs(v[i + 1..]), Refs(s[..i]));
  }

  lemma Swap(before: multiset<nat>, after: multiset<nat>, v: multiset<nat>, s: multiset<nat>, vs: multiset<nat>, ss: multiset<nat>)
    requires after + s == before + v
    ensures before + ((v + vs) + ss) == after + (vs + (ss + s))
  {
    assert before + ((v + vs) + ss) == (before + v) + (vs + ss);
    assert after + (vs + (ss + s)) == (after + s) + (vs + ss);
  }

  lemma BackOne(pending: seq<Pending>, count: nat, tail: seq<Values.Value>, before: multiset<nat>, after: multiset<nat>)
    requires count < |pending|
    requires after + Ref(pending[count].value) == before + Ref(SavedImpl(pending[count].saved))
    ensures before + (Refs(tail) + Refs(SavedValues(pending)[..count + 1]))
         == (after + (Refs(tail) + Refs(SavedValues(pending)[..count]))) + Ref(pending[count].value)
  {
    hide Refs;
    var s := SavedValues(pending);
    assert s[..count + 1] == s[..count] + [s[count]];
    RefsConcat(s[..count], [s[count]]);
    SingleRef(s[count]);
    var x, y, t, u := Ref(pending[count].value), Ref(s[count]), Refs(tail), Refs(s[..count]);
    assert before + (t + (u + y)) == (before + y) + (t + u);
    assert (after + (t + u)) + x == (after + x) + (t + u);
  }

  lemma RestoreOver(slots: seq<Slot>, i: nat, put: Slot, s: Slot)
    requires i < |slots|
    ensures slots[i := put][i := s] == slots[i := s]
  {
  }

  lemma LeftOverWhole(start: Heap, h: Heap, pending: seq<Pending>, done: nat)
    requires done <= |pending| && LeftOver(start, h, PendingValues(pending))
    ensures LeftOver(start, h, PendingValues(pending)[..done] + PendingValues(pending)[done..])
  {
    hide LeftOver;
    var v := PendingValues(pending);
    assert v[..done] + v[done..] == v;
  }

  lemma LeftOverLast(start: Heap, h: Heap, pending: seq<Pending>, count: nat, tail: seq<Values.Value>)
    requires count < |pending| && LeftOver(start, h, PendingValues(pending)[..count + 1] + tail)
    ensures pending[count].value.Obj? && LastLeaf(h, pending[count].value.id)
    ensures LeftOver(start, h[pending[count].value.id := Free], PendingValues(pending)[..count] + tail)
  {
    hide OnlyNew;
    var v := PendingValues(pending)[..count + 1] + tail;
    assert v[count] == pending[count].value;
    LeftOverNext(start, h, v, count);
    assert v[..count] + v[count + 1..] == PendingValues(pending)[..count] + tail;
  }

  lemma NothingLeft(pending: seq<Pending>, tail: seq<Values.Value>)
    ensures Refs(tail) + Refs(SavedValues(pending)[..0]) == Refs(tail)
    ensures PendingValues(pending)[..0] + tail == tail
  {
    assert SavedValues(pending)[..0] == [];
  }

  lemma AllSaved(pending: seq<Pending>)
    ensures Refs(PendingValues(pending)[|pending|..]) + Refs(SavedValues(pending)[..|pending|]) == Refs(SavedValues(pending))
  {
    assert PendingValues(pending)[|pending|..] == [];
    assert SavedValues(pending)[..|pending|] == SavedValues(pending);
  }

  lemma UndoneSelf(h: Heap)
    ensures Undone(h, h)
  {
  }

  lemma ExtendedSelf(slots: seq<Slot>)
    ensures Extended(slots, slots)
  {
  }

  lemma RolledSelf(slots: seq<Slot>)
    ensures Rolled(slots, slots)
  {
  }

  lemma StagedFacts(start: Heap, h: Heap, slots: seq<Slot>, pending: seq<Pending>, table: seq<Entry>)
    requires Staged(start, h, slots, pending, table) && DistinctNames(table)
    ensures DistinctPlaces(pending)
    ensures Kept(slots, slots, pending, |pending|)
    ensures forall k :: 0 <= k < |pending| ==> pending[k].slot < |slots|
  {
    hide Captured, OnlyNew;
    forall k | 0 <= k < |pending|
      ensures pending[k].slot < |slots| && pending[k].saved == Captured(slots[pending[k].slot])
    {
      assert StagedAt(h, slots, pending[k], table[k]);
    }
    PlacesDistinct(h, slots, pending, table);
  }

  lemma {:induction false} ReplacedAt(slots: seq<Slot>, pending: seq<Pending>, n: nat, k: nat)
    requires k < n <= |pending| && DistinctPlaces(pending) && pending[k].slot < |slots|
    ensures Replaced(slots, pending, n)[pending[k].slot] == Put(slots[pending[k].slot], pending[k])
  {
    hide Put;
    if k == n - 1 {
      ReplacedOther(slots, pending, n - 1, pending[k].slot);
    } else {
      ReplacedAt(slots, pending, n - 1, k);
    }
  }

  lemma {:induction false} ReplacedNames(slots: seq<Slot>, pending: seq<Pending>, n: nat, i: nat)
    requires n <= |pending| && i < |slots|
    ensures Replaced(slots, pending, n)[i].name == slots[i].name
  {
    if n > 0 {
      ReplacedNames(slots, pending, n - 1, i);
    }
  }

  /** A name's first slot is the one it was staged for. */
  lemma FirstSlot(slots: seq<Slot>, more: seq<Slot>, name: string, i: nat)
    requires |more| == |slots| && (forall k :: 0 <= k < |slots| ==> more[k].name == slots[k].name)
    requires i == FindSlot(slots, name)
    ensures FindSlot(more, name) == i
  {
    var j := FindSlot(more, name);
  }

  lemma InstalledAll(start: Heap, stagedHeap: Heap, h: Heap, first: seq<Slot>, staged: seq<Slot>, slots: seq<Slot>, pending: seq<Pending>, table: seq<Entry>)
    requires Staged(start, stagedHeap, staged, pending, table) && DistinctNames(table) && |pending| == |table|
    requires Extended(first, staged) && slots == Replaced(staged, pending, |pending|)
    requires Shrunk(stagedHeap, h) && Accurate(h, Refs(Impls(slots)) + multiset{})
    ensures forall k :: 0 <= k < |table| ==> HoldsNative(slots, h, table[k])
    ensures OthersKept(first, slots, table)
  {
    hide Accurate, Shrunk, Put, Captured, OnlyNew, Refs, Impls, StagedAt, HoldsNative, DistinctNames, DistinctPlaces;
    StagedFacts(start, stagedHeap, staged, pending, table);
    SlotsKeepNames(staged, pending);
    forall k | 0 <= k < |table| ensures HoldsNative(slots, h, table[k]) {
      assert StagedAt(stagedHeap, staged, pending[k], table[k]);
      NativeHeld(stagedHeap, h, staged, slots, pending, table, k);
    }
    forall i | 0 <= i < |first| && !Listed(table, first[i].name) ensures slots[i] == first[i] {
      forall k | 0 <= k < |pending| ensures pending[k].slot != i {
        assert StagedAt(stagedHeap, staged, pending[k], table[k]);
        NotListed(stagedHeap, staged, pending[k], table, k, i);
      }
      ReplacedOther(staged, pending, |pending|, i);
    }
  }

  lemma NotListed(h: Heap, slots: seq<Slot>, p: Pending, table: seq<Entry>, k: nat, i: nat)
    requires k < |table| && StagedAt(h, slots, p, table[k]) && i < |slots| && !Listed(table, slots[i].name)
    ensures p.slot != i
  {
  }

  lemma SlotsKeepNames(slots: seq<Slot>, pending: seq<Pending>)
    ensures forall i :: 0 <= i < |slots| ==> Replaced(slots, pending, |pending|)[i].name == slots[i].name
  {
    hide Replaced;
    forall i | 0 <= i < |slots| ensures Replaced(slots, pending, |pending|)[i].name == slots[i].name {
      ReplacedNames(slots, pending, |pending|, i);
    }
  }

  lemma NativeHeld(stagedHeap: Heap, h: Heap, staged: seq<Slot>, slots: seq<Slot>, pending: seq<Pending>, table: seq<Entry>, k: nat)
    requires k < |table| == |pending| && StagedAt(stagedHeap, staged, pending[k], table[k]) && DistinctPlaces(pending)
    requires slots == Replaced(staged, pending, |pending|)
    requires forall i :: 0 <= i < |slots| ==> slots[i].name == staged[i].name
    requires Shrunk(stagedHeap, h) && Accurate(h, Refs(Impls(slots)) + multiset{})
    ensures HoldsNative(slots, h, table[k])
  {
    hide Accurate, Shrunk, Captured, Refs, DistinctPlaces, Replaced;
    var p := pending[k];
    ReplacedAt(staged, pending, |pending|, k);
    FirstSlot(staged, slots, table[k].name, p.slot);
    ImplOwned(slots, p.slot);
    HeldIsLive(h, Refs(Impls(slots)) + multiset{}, p.value);
    StillNative(stagedHeap, h, p.value.id);
  }

  lemma ImplOwned(slots: seq<Slot>, i: nat)
    requires i < |slots| && ImplValue(slots[i]).Obj?
    ensures ImplValue(slots[i]).id in Refs(Impls(slots)) + multiset{}
  {
    var vs := Impls(slots);
    assert vs[i] == ImplValue(slots[i]) && vs[i] == Obj(vs[i].id);
    RefsOf(vs, vs[i].id);
  }

  lemma StillNative(g: Heap, h: Heap, id: nat)
    requires Shrunk(g, h) && LastLeaf(g, id) && IsLive(h, id)
    ensures h[id].obj == g[id].obj
  {
    assert CellShrunk(g[id], h[id]);
  }
}

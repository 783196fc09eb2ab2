/**
 The snapshot store: two slots, a checked header in front of each payload, and
 generations that tell which slot is current.
 */
module Store {
  import opened Bytes
  import opened Crc
  import opened Damage

  const HEADER_SIZE: nat := 50
  const VERSION: nat := 5
  const CELL_BITS: Byte := 32

  datatype StoreError = Format | BadCrc | Incompatible | NoSnapshot | TooLarge | Io

  datatype Info = Info(length: nat, generation: nat, flags: nat)

  datatype Parsed = Valid(info: Info) | Invalid(err: StoreError)

  function Magic(): (s: seq<Byte>)
    ensures |s| == 8
  {
    [0x46, 0x52, 0x54, 0x48, 0x53, 0x4e, 0x41, 0x50]
  }

  function AbiHash(): bv32 { Crc32([CELL_BITS, 0, 5, 0]) }

  function Zeros(n: nat): (s: seq<Byte>)
    ensures |s| == n
  {
    seq(n, i => 0)
  }

  /** The header before its own check is written into it. */
  function Unchecked(length: nat, payloadCrc: bv32, generation: nat): (s: seq<Byte>)
    ensures |s| == HEADER_SIZE
  {
    Front(length, payloadCrc, generation) + Zeros(4) + Zeros(16)
  }

  function Front(length: nat, payloadCrc: bv32, generation: nat): (s: seq<Byte>)
    ensures |s| == 30
  {
    Magic() + Little(VERSION, 2) + Little(0, 2) + [CELL_BITS, 0] + WordBytes(AbiHash())
    + Little(generation, 4) + Little(length, 4) + WordBytes(payloadCrc)
  }

  function BuiltHeader(payload: seq<Byte>, generation: nat): (s: seq<Byte>)
    ensures |s| == HEADER_SIZE
  {
    var front := Front(|payload|, Crc32(payload), generation);
    front + WordBytes(Crc32(Unchecked(|payload|, Crc32(payload), generation))) + Zeros(16)
  }

  /** The header with its check taken out. */
  function Blanked(header: seq<Byte>): (s: seq<Byte>)
    requires |header| == HEADER_SIZE
    ensures |s| == HEADER_SIZE
  {
    header[..30] + Zeros(4) + header[34..]
  }

  function InfoOf(header: seq<Byte>): Info
    requires |header| == HEADER_SIZE
  {
    Info(Value(header[22..26]), Value(header[18..22]), Value(header[10..12]))
  }

  function ParseHeader(header: seq<Byte>): Parsed
    requires |header| == HEADER_SIZE
  {
    if header[..8] != Magic() then Invalid(Format)
    else if Crc32(Blanked(header)) != ReadWord(header[30..34]) then Invalid(BadCrc)
    else if Value(header[8..10]) != VERSION then Invalid(Format)
    else if ReadWord(header[14..18]) != AbiHash() then Invalid(Incompatible)
    else Valid(InfoOf(header))
  }

  function PayloadCrcOf(header: seq<Byte>): bv32
    requires |header| == HEADER_SIZE
  {
    ReadWord(header[26..30])
  }

  // ----- headers -----

  lemma FrontParts(length: nat, payloadCrc: bv32, generation: nat)
    ensures var f := Front(length, payloadCrc, generation);
      && f[..8] == Magic() && f[8..10] == Little(VERSION, 2) && f[10..12] == Little(0, 2)
      && f[14..18] == WordBytes(AbiHash()) && f[18..22] == Little(generation, 4)
      && f[22..26] == Little(length, 4) && f[26..30] == WordBytes(payloadCrc)
  {
    hide Little, WordBytes, AbiHash, Magic;
    Pieces(Magic(), Little(VERSION, 2), Little(0, 2), [CELL_BITS, 0], WordBytes(AbiHash()), Little(generation, 4),
      Little(length, 4), WordBytes(payloadCrc));
  }

  lemma Pieces(a: seq<Byte>, b: seq<Byte>, c: seq<Byte>, d: seq<Byte>, e: seq<Byte>, f: seq<Byte>, g: seq<Byte>, h: seq<Byte>)
    requires |a| == 8 && |b| == 2 && |c| == 2 && |d| == 2 && |e| == 4 && |f| == 4 && |g| == 4 && |h| == 4
    ensures var s := a + b + c + d + e + f + g + h;
      && s[..8] == a && s[8..10] == b && s[10..12] == c && s[14..18] == e && s[18..22] == f && s[22..26] == g && s[26..30] == h
  {
  }

  lemma HeaderParts(payload: seq<Byte>, generation: nat)
    ensures var f := BuiltHeader(payload, generation);
      var front := Front(|payload|, Crc32(payload), generation);
      && f[..30] == front && f[34..] == Zeros(16)
      && f[30..34] == WordBytes(Crc32(Unchecked(|payload|, Crc32(payload), generation)))
      && f[..8] == front[..8] && f[8..10] == front[8..10] && f[10..12] == front[10..12] && f[14..18] == front[14..18]
      && f[18..22] == front[18..22] && f[22..26] == front[22..26] && f[26..30] == front[26..30]
      && Blanked(f) == Unchecked(|payload|, Crc32(payload), generation)
  {
    hide Front, WordBytes, Crc32, Zeros;
    var f := BuiltHeader(payload, generation);
    assert f[..30] == Front(|payload|, Crc32(payload), generation);
    assert f[..8] == f[..30][..8] && f[8..10] == f[..30][8..10] && f[10..12] == f[..30][10..12];
    assert f[14..18] == f[..30][14..18] && f[18..22] == f[..30][18..22];
    assert f[22..26] == f[..30][22..26] && f[26..30] == f[..30][26..30];
  }

  ghost predicate Small(payload: seq<Byte>, generation: nat) { |payload| < Range(4) && generation < Range(4) }

  /** A header that was built is read back. */
  lemma ParseBuiltHeader(payload: seq<Byte>, generation: nat)
    requires Small(payload, generation)
    ensures ParseHeader(BuiltHeader(payload, generation)) == Valid(Info(|payload|, generation, 0))
    ensures PayloadCrcOf(BuiltHeader(payload, generation)) == Crc32(payload)
  {
    hide Front, WordBytes, ReadWord, Little, Value, Range, BuiltHeader, Blanked, Unchecked, AbiHash, Crc32, Magic;
    var front := Front(|payload|, Crc32(payload), generation);
    HeaderParts(payload, generation);
    FrontParts(|payload|, Crc32(payload), generation);
    SmallVersion();
    ReadBackExact(generation, 4);
    ReadBackExact(|payload|, 4);
    WordOfBytes(Crc32(payload));
    WordOfBytes(AbiHash());
    WordOfBytes(Crc32(Unchecked(|payload|, Crc32(payload), generation)));
  }

  lemma SmallVersion()
    ensures Value(Little(VERSION, 2)) == VERSION && Value(Little(0, 2)) == 0
  {
    Ranges();
    ReadBackExact(VERSION, 2);
    ReadBackExact(0, 2);
  }

  /** Changing any single byte of a built header makes it invalid. */
  lemma HeaderDamageRejected(payload: seq<Byte>, generation: nat, header: seq<Byte>, at: nat)
    requires OneChange(BuiltHeader(payload, generation), header, at)
    ensures |header| == HEADER_SIZE && ParseHeader(header).Invalid?
  {
    hide Front, WordBytes, ReadWord, BuiltHeader, Blanked, Unchecked, Crc32, Magic, OneChange;
    var f := BuiltHeader(payload, generation);
    OneChangeSize(f, header, at);
    HeaderParts(payload, generation);
    FrontParts(|payload|, Crc32(payload), generation);
    WordOfBytes(Crc32(Unchecked(|payload|, Crc32(payload), generation)));
    SliceChanged(f, header, at, 0, 8);
    SliceKept(f, header, at, 30, 34);
    SliceChanged(f, header, at, 30, 34);
    assert f[0..8] == f[..8] && header[0..8] == header[..8];
    if 30 <= at < 34 {
      BlankedSame(f, header, at);
      if ReadWord(header[30..34]) == ReadWord(f[30..34]) {
        ReadWordInjective(header[30..34], f[30..34]);
      }
    } else {
      BlankedChange(f, header, at);
      Crc32ChangeDetected(Blanked(f), Blanked(header), at);
    }
  }

  lemma OneChangeSize(f: seq<Byte>, k: seq<Byte>, at: nat)
    requires OneChange(f, k, at)
    ensures |f| == |k|
  {
  }

  lemma BlankedSame(f: seq<Byte>, k: seq<Byte>, at: nat)
    requires OneChange(f, k, at) && |f| == HEADER_SIZE && 30 <= at < 34
    ensures Blanked(f) == Blanked(k)
  {
    SliceKept(f, k, at, 0, 30);
    SliceKept(f, k, at, 34, 50);
    assert f[0..30] == f[..30] && k[0..30] == k[..30] && f[34..50] == f[34..] && k[34..50] == k[34..];
  }

  lemma BlankedChange(f: seq<Byte>, k: seq<Byte>, at: nat)
    requires OneChange(f, k, at) && |f| == HEADER_SIZE && !(30 <= at < 34)
    ensures OneChange(Blanked(f), Blanked(k), at)
  {
    var x, y := Blanked(f), Blanked(k);
    forall i | 0 <= i < |x| && i != at
      ensures x[i] == y[i]
    {
      Elsewhere(f, k, at, i);
    }
  }

  // ----- slots -----

  /** What a slot holds; an erased slot holds nothing at all. */
  datatype Slot = Erased | Stored(bytes: seq<Byte>)

  /** Writing at an offset leaves the other bytes, and fills a gap with zeros. */
  function Patched(slot: Slot, offset: nat, bytes: seq<Byte>): (r: Slot)
    ensures r.Stored?
  {
    var was := if slot.Stored? then slot.bytes else [];
    var base := if |was| < offset then was + Zeros(offset - |was|) else was;
    Stored(base[..offset] + bytes + if offset + |bytes| < |base| then base[offset + |bytes|..] else [])
  }

  function HeaderInfo(slot: Slot): Parsed {
    if slot.Erased? || |slot.bytes| < HEADER_SIZE then Invalid(Io) else ParseHeader(slot.bytes[..HEADER_SIZE])
  }

  datatype Pair = Pair(a: Slot, b: Slot)

  function At(p: Pair, slot: nat): Slot { if slot == 0 then p.a else p.b }

  function With(p: Pair, slot: nat, s: Slot): Pair { if slot == 0 then p.(a := s) else p.(b := s) }

  datatype Choice = Chosen(slot: nat, generation: nat) | NoChoice(err: StoreError)

  function Active(p: Pair): Choice {
    var a, b := HeaderInfo(p.a), HeaderInfo(p.b);
    if a.Invalid? && b.Invalid? then NoChoice(NoSnapshot)
    else if a.Valid? && (b.Invalid? || a.info.generation >= b.info.generation) then Chosen(0, a.info.generation)
    else Chosen(1, b.info.generation)
  }

  /** Generations are 32 bits wide. */
  function Next(generation: nat): nat { (generation + 1) % 0x1_0000_0000 }

  function Inactive(p: Pair): (c: Choice)
    ensures c.Chosen? && c.slot < 2
  {
    var a, b := HeaderInfo(p.a), HeaderInfo(p.b);
    if a.Invalid? && b.Invalid? then Chosen(0, 1)
    else if a.Valid? && b.Invalid? then Chosen(1, Next(a.info.generation))
    else if a.Invalid? && b.Valid? then Chosen(0, Next(b.info.generation))
    else if a.info.generation <= b.info.generation then Chosen(0, Next(b.info.generation))
    else Chosen(1, Next(a.info.generation))
  }

  /** How far a save gets. A write that stops leaves some bytes of its own in place. */
  datatype Progress = Complete | PayloadStopped(written: seq<Byte>) | HeaderStopped(written: seq<Byte>)

  function Saved(p: Pair, payload: seq<Byte>, progress: Progress): Pair {
    var c := Inactive(p);
    var slot := At(p, c.slot);
    match progress
    case PayloadStopped(written) => With(p, c.slot, Patched(slot, HEADER_SIZE, written))
    case HeaderStopped(written) => With(p, c.slot, Patched(Patched(slot, HEADER_SIZE, payload), 0, written))
    case Complete =>
      With(p, c.slot, Patched(Patched(slot, HEADER_SIZE, payload), 0, BuiltHeader(payload, c.generation)))
  }

  datatype Restored = Payload(bytes: seq<Byte>) | Failed(err: StoreError)

  /** The payload a restore hands to the codec. */
  function Restore(p: Pair, limit: nat): Restored {
    var c := Active(p);
    if c.NoChoice? then Failed(c.err)
    else
      var slot := At(p, c.slot);
      var info := HeaderInfo(slot);
      if info.Invalid? then Failed(info.err)
      else if info.info.length > limit then Failed(TooLarge)
      else if |slot.bytes| < HEADER_SIZE + info.info.length then Failed(Io)
      else
        var bytes := slot.bytes[HEADER_SIZE..HEADER_SIZE + info.info.length];
        if Crc32(bytes) != PayloadCrcOf(slot.bytes[..HEADER_SIZE]) then Failed(BadCrc) else Payload(bytes)
  }

  // ----- every run keeps the last completed save -----

  datatype Operation = Save(payload: seq<Byte>, progress: Progress) | Wipe

  function Applied(p: Pair, op: Operation): Pair {
    match op
    case Save(payload, progress) => Saved(p, payload, progress)
    case Wipe => Pair(Erased, Erased)
  }

  datatype Current = None | Some(payload: seq<Byte>, generation: nat)

  /** What the store stands for after an operation. */
  function Tracked(current: Current, op: Operation): Current {
    match op
    case Wipe => None
    case Save(payload, progress) =>
      if !progress.Complete? then current
      else Some(payload, if current.None? then 1 else current.generation + 1)
  }

  ghost predicate Holds(slot: Slot, payload: seq<Byte>, generation: nat) {
    slot.Stored? && BuiltHeader(payload, generation) + payload <= slot.bytes
  }

  ghost predicate Older(slot: Slot, generation: nat) {
    HeaderInfo(slot).Valid? ==> HeaderInfo(slot).info.generation < generation
  }

  /** A slot that was ever written reaches past the header, since payloads are written first. */
  predicate Sized(slot: Slot) { slot.Stored? ==> |slot.bytes| >= HEADER_SIZE }

  /** One slot holds the current payload, and the other is invalid or older. */
  ghost predicate Represents(p: Pair, current: Current) {
    Sized(p.a) && Sized(p.b) &&
    match current
    case None => HeaderInfo(p.a).Invalid? && HeaderInfo(p.b).Invalid?
    case Some(payload, generation) =>
      && Small(payload, generation)
      && ((Holds(p.a, payload, generation) && Older(p.b, generation)) || (Holds(p.b, payload, generation) && Older(p.a, generation)))
  }

  /**
   A save that stops in its header write leaves a header that does not parse, or the
   header that was there. Torn headers that pass the check are outside the model.
   */
  ghost predicate Plausible(p: Pair, op: Operation) {
    op.Save? ==>
      && |op.payload| < Range(4)
      && (op.progress.HeaderStopped? ==>
           && |op.progress.written| <= HEADER_SIZE
           && var slot := At(p, Inactive(p).slot);
              var torn := HeaderInfo(At(Saved(p, op.payload, op.progress), Inactive(p).slot));
              torn.Invalid? || torn == HeaderInfo(slot))
  }

  lemma HoldsInfo(slot: Slot, payload: seq<Byte>, generation: nat)
    requires Holds(slot, payload, generation) && Small(payload, generation)
    ensures HeaderInfo(slot) == Valid(Info(|payload|, generation, 0))
    ensures |slot.bytes| >= HEADER_SIZE + |payload|
    ensures slot.bytes[HEADER_SIZE..HEADER_SIZE + |payload|] == payload
    ensures slot.bytes[..HEADER_SIZE] == BuiltHeader(payload, generation)
  {
    hide BuiltHeader, ParseHeader, Range;
    ParseBuiltHeader(payload, generation);
    var whole := BuiltHeader(payload, generation) + payload;
    assert slot.bytes[..|whole|] == whole;
    assert slot.bytes[..HEADER_SIZE] == whole[..HEADER_SIZE] == BuiltHeader(payload, generation);
    assert slot.bytes[HEADER_SIZE..|whole|] == whole[HEADER_SIZE..] == payload;
  }

  /** The current slot is the one picked, and the other is the one written next, with a larger generation. */
  lemma Picks(p: Pair, current: Current)
    requires Represents(p, current)
    ensures current.None? ==> Active(p) == NoChoice(NoSnapshot) && Inactive(p) == Chosen(0, 1)
    ensures current.Some? ==>
      && Active(p).Chosen? && Active(p).generation == current.generation
      && Active(p).slot < 2 && Inactive(p).slot == 1 - Active(p).slot
      && Holds(At(p, Active(p).slot), current.payload, current.generation)
      && Older(At(p, Inactive(p).slot), current.generation)
      && Inactive(p).generation == Next(current.generation)
  {
    hide Holds, HeaderInfo, Range, Small, Next, Sized;
    if current.Some? {
      if Holds(p.a, current.payload, current.generation) && Older(p.b, current.generation) {
        HoldsGeneration(p.a, current.payload, current.generation);
      } else {
        HoldsGeneration(p.b, current.payload, current.generation);
      }
    }
  }

  lemma HoldsGeneration(slot: Slot, payload: seq<Byte>, generation: nat)
    requires Holds(slot, payload, generation) && Small(payload, generation)
    ensures HeaderInfo(slot).Valid? && HeaderInfo(slot).info.generation == generation
  {
    hide Holds, HeaderInfo;
    HoldsInfo(slot, payload, generation);
  }

  /** Restoring gives back the payload of the last completed save. */
  lemma RestoreCurrent(p: Pair, current: Current, limit: nat)
    requires Represents(p, current) && (current.Some? ==> |current.payload| <= limit)
    ensures Restore(p, limit) == if current.None? then Failed(NoSnapshot) else Payload(current.payload)
  {
    hide Holds, HeaderInfo, Range, Active, Inactive, BuiltHeader, PayloadCrcOf, Crc32, Older;
    Picks(p, current);
    if current.Some? {
      HoldsInfo(At(p, Active(p).slot), current.payload, current.generation);
      ParseBuiltHeader(current.payload, current.generation);
    }
  }

  /** `bytes` are those of the current slot, but for the byte at `at`. */
  ghost predicate DamagedAt(p: Pair, bytes: seq<Byte>, at: nat) {
    Active(p).Chosen? && At(p, Active(p).slot).Stored? && OneChange(At(p, Active(p).slot).bytes, bytes, at)
  }

  /** One changed byte anywhere in the current payload is noticed: nothing is restored. */
  lemma PayloadDamageRejected(p: Pair, current: Current, limit: nat, bytes: seq<Byte>, at: nat)
    requires Represents(p, current) && current.Some? && |current.payload| <= limit
    requires DamagedAt(p, bytes, at) && HEADER_SIZE <= at < HEADER_SIZE + |current.payload|
    ensures Restore(With(p, Active(p).slot, Stored(bytes)), limit) == Failed(BadCrc)
  {
    hide Holds, Range, Active, Inactive, BuiltHeader, PayloadCrcOf, Crc32, Older, ParseHeader, OneChange;
    Picks(p, current);
    var c, end := Active(p), HEADER_SIZE + |current.payload|;
    var slot := At(p, c.slot);
    HoldsInfo(slot, current.payload, current.generation);
    ParseBuiltHeader(current.payload, current.generation);
    OneChangeSize(slot.bytes, bytes, at);
    SliceKept(slot.bytes, bytes, at, 0, HEADER_SIZE);
    assert slot.bytes[0..HEADER_SIZE] == slot.bytes[..HEADER_SIZE] && bytes[0..HEADER_SIZE] == bytes[..HEADER_SIZE];
    var q := With(p, c.slot, Stored(bytes));
    assert HeaderInfo(Stored(bytes)) == HeaderInfo(slot);
    SameActive(p, q, c.slot);
    SliceOneChange(slot.bytes, bytes, at, HEADER_SIZE, end);
    Crc32ChangeDetected(current.payload, bytes[HEADER_SIZE..end], at - HEADER_SIZE);
  }

  /** Which slot is picked depends on the headers alone. */
  lemma SameActive(p: Pair, q: Pair, slot: nat)
    requires slot < 2 && q == With(p, slot, At(q, slot)) && HeaderInfo(At(q, slot)) == HeaderInfo(At(p, slot))
    ensures Active(q) == Active(p)
  {
    hide HeaderInfo;
  }

  lemma PatchedPayload(slot: Slot, bytes: seq<Byte>)
    requires Sized(slot)
    ensures HeaderInfo(slot).Invalid? ==> HeaderInfo(Patched(slot, HEADER_SIZE, bytes)).Invalid?
    ensures HeaderInfo(slot).Valid? ==> HeaderInfo(Patched(slot, HEADER_SIZE, bytes)) == HeaderInfo(slot)
  {
    hide ParseHeader, Zeros;
    var now := Patched(slot, HEADER_SIZE, bytes);
    if slot.Stored? {
      assert now.bytes[..HEADER_SIZE] == slot.bytes[..HEADER_SIZE];
    } else {
      ZerosInvalid(bytes);
    }
  }

  /** A new slot begins with zeros, which are no header. */
  lemma ZerosInvalid(bytes: seq<Byte>)
    ensures HeaderInfo(Patched(Erased, HEADER_SIZE, bytes)).Invalid?
  {
    hide Crc32, Value, ReadWord, Blanked, AbiHash, InfoOf;
    var header := Patched(Erased, HEADER_SIZE, bytes).bytes[..HEADER_SIZE];
    assert header[..8][0] == 0;
  }

  lemma PatchedSizes(slot: Slot, payload: seq<Byte>, progress: Progress, generation: nat)
    requires Sized(slot)
    ensures progress.PayloadStopped? ==> Sized(Patched(slot, HEADER_SIZE, progress.written))
    ensures progress.HeaderStopped? ==> Sized(Patched(Patched(slot, HEADER_SIZE, payload), 0, progress.written))
    ensures Sized(Patched(Patched(slot, HEADER_SIZE, payload), 0, BuiltHeader(payload, generation)))
  {
    hide BuiltHeader, Zeros;
  }

  lemma PatchedWhole(slot: Slot, payload: seq<Byte>, generation: nat)
    ensures Holds(Patched(Patched(slot, HEADER_SIZE, payload), 0, BuiltHeader(payload, generation)), payload, generation)
  {
    hide BuiltHeader, Zeros;
    var first := Patched(slot, HEADER_SIZE, payload);
    var now := Patched(first, 0, BuiltHeader(payload, generation));
    assert first.bytes[HEADER_SIZE..HEADER_SIZE + |payload|] == payload;
    assert now.bytes[..HEADER_SIZE] == BuiltHeader(payload, generation);
    assert now.bytes[HEADER_SIZE..] == first.bytes[HEADER_SIZE..];
    assert now.bytes[HEADER_SIZE..HEADER_SIZE + |payload|] == payload;
    assert now.bytes[..HEADER_SIZE + |payload|] == BuiltHeader(payload, generation) + payload;
  }

  /** One operation keeps the store in step with what it stands for. */
  lemma StepKeeps(p: Pair, current: Current, op: Operation)
    requires Represents(p, current) && Plausible(p, op)
    requires Tracked(current, op).Some? ==> Tracked(current, op).generation < 0x1_0000_0000
    ensures Represents(Applied(p, op), Tracked(current, op))
  {
    hide Holds, HeaderInfo, Range, Active, Inactive, BuiltHeader, Patched;
    if op.Save? {
      Picks(p, current);
      Ranges();
      var target := Inactive(p).slot;
      var slot := At(p, target);
      PatchedSizes(slot, op.payload, op.progress, Inactive(p).generation);
      match op.progress {
        case PayloadStopped(written) =>
          PatchedPayload(slot, written);
        case HeaderStopped(written) =>
        case Complete =>
          PatchedWhole(slot, op.payload, Inactive(p).generation);
          if current.Some? {
            HoldsInfo(At(p, 1 - target), current.payload, current.generation);
          }
      }
    } else {
      ErasedInvalid();
    }
  }

  /** The bound on generations is exact: at the last one a completed save does not become current. */
  lemma LastGenerationStays(p: Pair, current: Current, payload: seq<Byte>)
    requires Represents(p, current) && current.Some? && current.generation == 0xffff_ffff && |payload| < Range(4)
    ensures Represents(Saved(p, payload, Complete), current)
  {
    hide Holds, HeaderInfo, Range, Active, BuiltHeader, Patched;
    Picks(p, current);
    Ranges();
    var target := Inactive(p).slot;
    HoldsInfo(At(p, 1 - target), current.payload, current.generation);
    PatchedWhole(At(p, target), payload, 0);
    PatchedSizes(At(p, target), payload, Complete, 0);
    HoldsInfo(At(Saved(p, payload, Complete), target), payload, 0);
  }

  lemma ErasedInvalid()
    ensures HeaderInfo(Erased).Invalid?
  {
  }

  function RunOf(p: Pair, ops: seq<Operation>): Pair
    decreases |ops|
  {
    if ops == [] then p else RunOf(Applied(p, ops[0]), ops[1..])
  }

  function TrackedOf(current: Current, ops: seq<Operation>): Current
    decreases |ops|
  {
    if ops == [] then current else TrackedOf(Tracked(current, ops[0]), ops[1..])
  }

  ghost predicate PlausibleRun(p: Pair, current: Current, ops: seq<Operation>)
    decreases |ops|
  {
    ops == [] ||
    (&& Plausible(p, ops[0])
     && (Tracked(current, ops[0]).Some? ==> Tracked(current, ops[0]).generation < 0x1_0000_0000)
     && PlausibleRun(Applied(p, ops[0]), Tracked(current, ops[0]), ops[1..]))
  }

  lemma {:induction false} RunKeeps(p: Pair, current: Current, ops: seq<Operation>)
    requires Represents(p, current) && PlausibleRun(p, current, ops)
    ensures Represents(RunOf(p, ops), TrackedOf(current, ops))
    decreases |ops|
  {
    hide Represents, Applied, Tracked, Plausible;
    if ops != [] {
      StepKeeps(p, current, ops[0]);
      RunKeeps(Applied(p, ops[0]), Tracked(current, ops[0]), ops[1..]);
    }
  }

  /**
   After any run of saves, stopped saves and wipes that begins with an empty store, the
   payload of the last completed save since the last wipe is restored, and nothing when
   there is none.
   */
  lemma RunRestores(ops: seq<Operation>, limit: nat)
    requires PlausibleRun(Pair(Erased, Erased), None, ops)
    requires TrackedOf(None, ops).Some? ==> |TrackedOf(None, ops).payload| <= limit
    ensures Restore(RunOf(Pair(Erased, Erased), ops), limit)
         == if TrackedOf(None, ops).None? then Failed(NoSnapshot) else Payload(TrackedOf(None, ops).payload)
  {
    hide Restore, RunOf, TrackedOf, PlausibleRun, HeaderInfo;
    ErasedInvalid();
    RunKeeps(Pair(Erased, Erased), None, ops);
    RestoreCurrent(RunOf(Pair(Erased, Erased), ops), TrackedOf(None, ops), limit);
  }

  // ----- the code -----

  class Flash {
    var slots: Pair

    constructor ()
      ensures slots == Pair(Erased, Erased)
    {
      slots := Pair(Erased, Erased);
    }

    method WriteSlot(slot: nat, offset: nat, bytes: seq<Byte>)
      requires slot < 2
      modifies this
      ensures slots == With(old(slots), slot, Patched(At(old(slots), slot), offset, bytes))
    {
      slots := With(slots, slot, Patched(At(slots, slot), offset, bytes));
    }

    method ReadSlotHeader(slot: nat) returns (r: Parsed)
      requires slot < 2
      ensures r == HeaderInfo(At(slots, slot))
    {
      hide ParseHeader;
      var s := At(slots, slot);
      if s.Erased? || |s.bytes| < HEADER_SIZE {
        return Invalid(Io);
      }
      r := CheckHeader(s.bytes[..HEADER_SIZE]);
    }

    method PickActive() returns (c: Choice)
      ensures c == Active(slots)
    {
      hide HeaderInfo;
      var a := ReadSlotHeader(0);
      var b := ReadSlotHeader(1);
      if a.Invalid? && b.Invalid? {
        return NoChoice(NoSnapshot);
      }
      if a.Valid? && (b.Invalid? || a.info.generation >= b.info.generation) {
        c := Chosen(0, a.info.generation);
      } else {
        c := Chosen(1, b.info.generation);
      }
    }

    method PickInactive() returns (c: Choice)
      ensures c == Inactive(slots)
    {
      hide HeaderInfo;
      var a := ReadSlotHeader(0);
      var b := ReadSlotHeader(1);
      if a.Invalid? && b.Invalid? {
        c := Chosen(0, 1);
      } else if a.Valid? && b.Invalid? {
        c := Chosen(1, Next(a.info.generation));
      } else if a.Invalid? && b.Valid? {
        c := Chosen(0, Next(b.info.generation));
      } else if a.info.generation <= b.info.generation {
        c := Chosen(0, Next(b.info.generation));
      } else {
        c := Chosen(1, Next(a.info.generation));
      }
    }

    /** Writes the payload, and only then the header that makes it current. */
    method Save(payload: seq<Byte>, progress: Progress) returns (ok: bool)
      modifies this
      ensures slots == Saved(old(slots), payload, progress)
      ensures ok == progress.Complete?
    {
      hide HeaderInfo, Patched, BuiltHeader, Inactive;
      var c := PickInactive();
      if progress.PayloadStopped? {
        WriteSlot(c.slot, HEADER_SIZE, progress.written);
        return false;
      }
      WriteSlot(c.slot, HEADER_SIZE, payload);
      var header := BuildHeader(payload, c.generation);
      if progress.HeaderStopped? {
        WriteSlot(c.slot, 0, progress.written);
        return false;
      }
      WriteSlot(c.slot, 0, header);
      ok := true;
    }

    method Load(limit: nat) returns (r: Restored)
      ensures r == Restore(slots, limit)
    {
      hide ParseHeader, Active, Crc32, PayloadCrcOf;
      var c := PickActive();
      if c.NoChoice? {
        return Failed(c.err);
      }
      var info := ReadSlotHeader(if c.slot == 0 then 0 else 1);
      if info.Invalid? {
        return Failed(info.err);
      }
      if info.info.length > limit {
        return Failed(TooLarge);
      }
      var slot := At(slots, c.slot);
      if |slot.bytes| < HEADER_SIZE + info.info.length {
        return Failed(Io);
      }
      var bytes := slot.bytes[HEADER_SIZE..HEADER_SIZE + info.info.length];
      var crc := ComputeCrc32(bytes);
      if crc != PayloadCrcOf(slot.bytes[..HEADER_SIZE]) {
        return Failed(BadCrc);
      }
      r := Payload(bytes);
    }

    method WipeAll()
      modifies this
      ensures slots == Applied(old(slots), Wipe)
    {
      slots := slots.(a := Erased);
      slots := slots.(b := Erased);
    }
  }

  method BuildHeader(payload: seq<Byte>, generation: nat) returns (header: seq<Byte>)
    ensures header == BuiltHeader(payload, generation)
  {
    hide Front, Crc32, WordBytes, Zeros;
    var payloadCrc := ComputeCrc32(payload);
    var front := Front(|payload|, payloadCrc, generation);
    var crc := ComputeCrc32(front + Zeros(4) + Zeros(16));
    header := front + WordBytes(crc) + Zeros(16);
  }

  method CheckHeader(header: seq<Byte>) returns (r: Parsed)
    requires |header| == HEADER_SIZE
    ensures r == ParseHeader(header)
  {
    hide Crc32, ReadWord, Value, Blanked, AbiHash, InfoOf, Magic;
    if header[..8] != Magic() {
      return Invalid(Format);
    }
    var crc := ComputeCrc32(Blanked(header));
    if crc != ReadWord(header[30..34]) {
      return Invalid(BadCrc);
    }
    if Value(header[8..10]) != VERSION {
      return Invalid(Format);
    }
    var hash := ComputeCrc32([CELL_BITS, 0, 5, 0]);
    AbiHashIs();
    if ReadWord(header[14..18]) != hash {
      return Invalid(Incompatible);
    }
    r := Valid(InfoOf(header));
  }

  lemma AbiHashIs()
    ensures AbiHash() == Crc32([CELL_BITS, 0, 5, 0])
  {
    hide Crc32;
  }
}

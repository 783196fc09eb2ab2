/**
 The session protocol of the control link, as functions: what each request is answered
 with, and what that adds up to over a whole session.
 */
module Session {
  import opened Bytes
  import opened Cobs
  import opened Frame

  const OUTPUT_CAP: nat := 128
  const NEWLINE: Byte := 0x0a

  const HELLO_REQ: Byte := 0x01
  const HELLO_EVT: Byte := 0x02
  const EVAL_REQ: Byte := 0x03
  const WORDS_REQ: Byte := 0x04
  const SEE_REQ: Byte := 0x05
  const DETACH_REQ: Byte := 0x06
  const RESET_REQ: Byte := 0x07
  const SAVE_REQ: Byte := 0x08
  const RESTORE_REQ: Byte := 0x09
  const WIPE_REQ: Byte := 0x0a
  const CORE_REQ: Byte := 0x0b
  const SLOT_INFO_REQ: Byte := 0x0c
  const OUTPUT_EVT: Byte := 0x10
  const VALUE_EVT: Byte := 0x11
  const ERROR_EVT: Byte := 0x12
  const INTERRUPTED_EVT: Byte := 0x13
  const IDLE_EVT: Byte := 0x14

  /** An error code; the runtime never uses zero for a failure. */
  type Fault = n: int | 0 < n witness 1

  const SIGNATURE: Fault := 108
  const LINK_OVERFLOW: Fault := 250
  const COBS_DECODE: Fault := 251
  const LINK_TOO_LARGE: Fault := 255
  const UNKNOWN_TYPE: Fault := 256

  datatype Status = Fine | Failing(fault: Fault)

  datatype Phase = InControl | InParse | InEval | InInspect

  function PhaseCode(p: Phase): Byte {
    match p
    case InControl => 1
    case InParse => 2
    case InEval => 3
    case InInspect => 4
  }

  datatype Detail =
    | BadHello | UnexpectedSequence | BadEval | ParseFailed | EvaluationFailed | BadWords | WordsFailed
    | BadSee | SeeFailed | BadReset | ResetFailed | BadSave | SaveFailed | BadRestore | RestoreFailed
    | BadWipe | WipeFailed | BadCore | CoreFailed | BadSlotInfo | SlotInfoFailed | BadDetach | UnknownRequest

  function DetailText(d: Detail): (s: string)
    ensures |s| < 32
  {
    match d
    case BadHello => "bad HELLO payload"
    case UnexpectedSequence => "unexpected sequence"
    case BadEval => "bad EVAL payload"
    case ParseFailed => "parse failed"
    case EvaluationFailed => "evaluation failed"
    case BadWords => "bad WORDS payload"
    case WordsFailed => "words failed"
    case BadSee => "bad SEE payload"
    case SeeFailed => "see failed"
    case BadReset => "bad RESET payload"
    case ResetFailed => "reset failed"
    case BadSave => "bad SAVE payload"
    case SaveFailed => "save failed"
    case BadRestore => "bad RESTORE payload"
    case RestoreFailed => "restore failed"
    case BadWipe => "bad WIPE payload"
    case WipeFailed => "dangerous.wipe failed"
    case BadCore => "bad CORE payload"
    case CoreFailed => "core failed"
    case BadSlotInfo => "bad SLOT_INFO payload"
    case SlotInfoFailed => "slot info failed"
    case BadDetach => "bad DETACH payload"
    case UnknownRequest => "unknown request"
  }

  /** A string in a payload: its length in two bytes, and its characters. */
  function Str(text: seq<Byte>): (r: seq<Byte>)
    ensures |r| == 2 + |text|
  {
    Little(|text|, 2) + text
  }

  datatype Message = Message(header: Header, payload: seq<Byte>)

  function Event(kind: Byte, id: nat, seqNo: nat, payload: seq<Byte>): Message {
    Message(Header(kind, id, seqNo), payload)
  }

  function IdleEvent(id: nat, seqNo: nat): Message { Event(IDLE_EVT, id, seqNo, []) }

  function ErrorPayload(phase: Phase, fault: Fault, detail: Detail): (r: seq<Byte>)
    ensures |r| < 64
  {
    [PhaseCode(phase)] + Little(fault, 2) + Str(Ascii(DetailText(detail)))
  }

  function ErrorEvent(id: nat, seqNo: nat, phase: Phase, fault: Fault, detail: Detail): Message {
    Event(ERROR_EVT, id, seqNo, ErrorPayload(phase, fault, detail))
  }

  // ----- strings in requests -----

  datatype Argument = Argument(text: seq<Byte>) | BadArgument(fault: Fault)

  /** The only string of a payload, cut at its first zero as the C string it becomes. */
  function StringPayload(payload: seq<Byte>): Argument {
    if |payload| < 2 then BadArgument(COBS_DECODE)
    else
      var length := Value(payload[..2]);
      if 2 + length > |payload| then BadArgument(COBS_DECODE)
      else if 2 + length != |payload| then BadArgument(SIGNATURE)
      else Argument(payload[2..2 + Run(payload[2..])])
  }

  // ----- captured output -----

  /** The pieces in which `output` leaves a buffer that holds `held`. */
  function Chunks(held: seq<Byte>, output: seq<Byte>): seq<seq<Byte>>
    decreases |output|
  {
    if output == [] then if held == [] then [] else [held]
    else
      var now := held + [output[0]];
      if output[0] == NEWLINE || |now| >= OUTPUT_CAP then [now] + Chunks([], output[1..])
      else Chunks(now, output[1..])
  }

  function Concat(parts: seq<seq<Byte>>): seq<Byte> {
    if parts == [] then [] else parts[0] + Concat(parts[1..])
  }

  ghost predicate Pieces(parts: seq<seq<Byte>>) {
    forall k :: 0 <= k < |parts| ==> 0 < |parts[k]| <= OUTPUT_CAP
  }

  /** No byte of the output is lost, added or moved, and every piece fits the buffer. */
  lemma {:induction false} ChunksWhole(held: seq<Byte>, output: seq<Byte>)
    requires |held| < OUTPUT_CAP
    ensures Concat(Chunks(held, output)) == held + output
    ensures Pieces(Chunks(held, output))
    decreases |output|
  {
    hide Chunks, Concat, Pieces;
    if output == [] {
      LastChunk(held);
      assert held + output == held;
    } else {
      var now := held + [output[0]];
      NextChunk(held, output);
      assert now + output[1..] == held + output;
      if output[0] == NEWLINE || |now| >= OUTPUT_CAP {
        ChunksWhole([], output[1..]);
        assert [] + output[1..] == output[1..];
        OneMorePiece(now, Chunks([], output[1..]));
      } else {
        ChunksWhole(now, output[1..]);
      }
    }
  }

  /** A piece that is not the last one ends with a newline or fills the buffer, and a newline ends its
      piece. There is only one way to cut the output like that. */
  ghost predicate Cut(parts: seq<seq<Byte>>) {
    && (forall k :: 0 <= k < |parts| - 1 ==> parts[k] != [] && (parts[k][|parts[k]| - 1] == NEWLINE || |parts[k]| == OUTPUT_CAP))
    && (forall k, i :: 0 <= k < |parts| && 0 <= i < |parts[k]| - 1 ==> parts[k][i] != NEWLINE)
  }

  lemma {:induction false} ChunksCut(held: seq<Byte>, output: seq<Byte>)
    requires |held| < OUTPUT_CAP && NEWLINE !in held
    ensures Cut(Chunks(held, output))
    decreases |output|
  {
    hide Cut;
    if output == [] {
      OneCut(held);
    } else {
      var now := held + [output[0]];
      if output[0] == NEWLINE || |now| >= OUTPUT_CAP {
        ChunksCut([], output[1..]);
        MoreCut(now, Chunks([], output[1..]));
      } else {
        ChunksCut(now, output[1..]);
      }
    }
  }

  lemma OneCut(held: seq<Byte>)
    requires NEWLINE !in held
    ensures Cut([]) && Cut([held])
  {
  }

  lemma MoreCut(part: seq<Byte>, parts: seq<seq<Byte>>)
    requires part != [] && (part[|part| - 1] == NEWLINE || |part| == OUTPUT_CAP) && Cut(parts)
    requires NEWLINE !in part[..|part| - 1]
    ensures Cut([part] + parts)
  {
    var all := [part] + parts;
    forall k | 0 <= k < |all| - 1 ensures all[k] != [] && (all[k][|all[k]| - 1] == NEWLINE || |all[k]| == OUTPUT_CAP) {
      assert k > 0 ==> all[k] == parts[k - 1];
    }
    forall k, i | 0 <= k < |all| && 0 <= i < |all[k]| - 1 ensures all[k][i] != NEWLINE {
      if k > 0 { assert all[k] == parts[k - 1]; } else { assert part[..|part| - 1][i] == part[i]; }
    }
  }

  lemma LastChunk(held: seq<Byte>)
    requires |held| < OUTPUT_CAP
    ensures Concat(Chunks(held, [])) == held && Pieces(Chunks(held, []))
  {
    assert Concat([held]) == held + Concat([]);
  }

  lemma {:induction false} NextChunk(held: seq<Byte>, output: seq<Byte>)
    requires output != []
    ensures var now := held + [output[0]];
      Chunks(held, output)
        == if output[0] == NEWLINE || |now| >= OUTPUT_CAP then [now] + Chunks([], output[1..]) else Chunks(now, output[1..])
  {
  }

  lemma OneMorePiece(part: seq<Byte>, parts: seq<seq<Byte>>)
    requires 0 < |part| <= OUTPUT_CAP && Pieces(parts)
    ensures Concat([part] + parts) == part + Concat(parts) && Pieces([part] + parts)
  {
    assert ([part] + parts)[1..] == parts;
  }

  function OutputEvents(id: nat, seqNo: nat, parts: seq<seq<Byte>>): (r: seq<Message>)
    ensures |r| == |parts|
  {
    if parts == [] then []
    else [Event(OUTPUT_EVT, id, seqNo, Str(parts[0]))] + OutputEvents(id, seqNo, parts[1..])
  }

  lemma {:induction false} OutputEventsConcat(id: nat, seqNo: nat, a: seq<seq<Byte>>, b: seq<seq<Byte>>)
    ensures OutputEvents(id, seqNo, a + b) == OutputEvents(id, seqNo, a) + OutputEvents(id, seqNo, b)
  {
    if a == [] {
      assert a + b == b;
    } else {
      assert (a + b)[1..] == a[1..] + b;
      OutputEventsConcat(id, seqNo, a[1..], b);
    }
  }

  // ----- lists of words -----

  const WORDS_ROOM: nat := 1022

  predicate Fits(name: seq<Byte>) { 2 + |name| <= WORDS_ROOM }

  function StrSize(names: seq<seq<Byte>>): nat {
    if names == [] then 0 else 2 + |names[0]| + StrSize(names[1..])
  }

  function Strs(names: seq<seq<Byte>>): (r: seq<Byte>)
    ensures |r| == StrSize(names)
  {
    if names == [] then [] else Str(names[0]) + Strs(names[1..])
  }

  /** How many names, from the front, fit in `room` bytes. */
  function Taken(names: seq<seq<Byte>>, room: nat): (n: nat)
    ensures n <= |names|
  {
    if names == [] || 2 + |names[0]| > room then 0 else 1 + Taken(names[1..], room - 2 - |names[0]|)
  }

  function WordsChunk(names: seq<seq<Byte>>): seq<Byte> { Little(|names|, 2) + Strs(names) }

  /** The payloads that list the names; an empty list still takes one. */
  function WordsChunks(names: seq<seq<Byte>>): seq<seq<Byte>>
    requires forall k :: 0 <= k < |names| ==> Fits(names[k])
    decreases |names|
  {
    var n := Taken(names, WORDS_ROOM);
    if n == |names| then [WordsChunk(names)] else [WordsChunk(names[..n])] + WordsChunks(names[n..])
  }

  datatype Listing = Names(names: seq<seq<Byte>>) | NoNames(fault: Fault)

  /** Reads `count` strings from the front of a payload. */
  function ReadStrs(s: seq<Byte>, count: nat): seq<seq<Byte>>
    decreases count
  {
    if count == 0 || |s| < 2 then []
    else
      var length := Value(s[..2]);
      if 2 + length > |s| then [] else [s[2..2 + length]] + ReadStrs(s[2 + length..], count - 1)
  }

  function ReadWordsChunk(payload: seq<Byte>): seq<seq<Byte>> {
    if |payload| < 2 then [] else ReadStrs(payload[2..], Value(payload[..2]))
  }

  function ReadWordsChunks(payloads: seq<seq<Byte>>): seq<seq<Byte>> {
    if payloads == [] then [] else ReadWordsChunk(payloads[0]) + ReadWordsChunks(payloads[1..])
  }

  lemma {:induction false} ReadStrsBack(names: seq<seq<Byte>>)
    requires forall k :: 0 <= k < |names| ==> Fits(names[k])
    ensures ReadStrs(Strs(names), |names|) == names
  {
    hide Little, Value, Range, Str;
    if names != [] {
      var first := names[0];
      assert Fits(first);
      StrParts(first, Strs(names[1..]));
      ReadStrsBack(names[1..]);
      assert names == [first] + names[1..];
    }
  }

  lemma StrParts(text: seq<Byte>, rest: seq<Byte>)
    requires Fits(text)
    ensures var s := Str(text) + rest;
      Value(s[..2]) == |text| && s[2..2 + |text|] == text && s[2 + |text|..] == rest
  {
    hide Little, Value, Range;
    Ranges();
    ReadBackExact(|text|, 2);
    assert (Str(text) + rest)[..2] == Little(|text|, 2);
  }

  lemma {:induction false} TakenFits(names: seq<seq<Byte>>, room: nat)
    ensures StrSize(names[..Taken(names, room)]) <= room
    ensures StrSize(names[..Taken(names, room)]) >= 2 * Taken(names, room)
    ensures names != [] && 2 + |names[0]| <= room ==> Taken(names, room) > 0
  {
    var n := Taken(names, room);
    if n > 0 {
      TakenFits(names[1..], room - 2 - |names[0]|);
      assert names[..n][1..] == names[1..][..n - 1];
    }
  }

  lemma WordsChunkBack(names: seq<seq<Byte>>)
    requires forall k :: 0 <= k < |names| ==> Fits(names[k])
    requires |names| < Range(2)
    ensures ReadWordsChunk(WordsChunk(names)) == names
  {
    hide Little, Value, Range, Strs, ReadStrs;
    ReadBackExact(|names|, 2);
    var s := WordsChunk(names);
    assert s[..2] == Little(|names|, 2) && s[2..] == Strs(names);
    ReadStrsBack(names);
  }

  /** Each payload fits a frame, and read one after the other they give the whole list. */
  lemma {:induction false} WordsChunksWhole(names: seq<seq<Byte>>)
    requires forall k :: 0 <= k < |names| ==> Fits(names[k])
    ensures ReadWordsChunks(WordsChunks(names)) == names
    ensures forall k :: 0 <= k < |WordsChunks(names)| ==> |WordsChunks(names)[k]| <= MAX_PAYLOAD
    ensures WordsChunks(names) != []
    decreases |names|
  {
    hide Strs, Little, ReadWordsChunk, Range, Taken;
    var n := Taken(names, WORDS_ROOM);
    TakenFits(names, WORDS_ROOM);
    Ranges();
    WordsChunkBack(names[..n]);
    if n == |names| {
      assert names[..n] == names;
      OneWordsChunk(WordsChunk(names));
    } else {
      assert Fits(names[0]);
      WordsChunksWhole(names[n..]);
      MoreWordsChunks(WordsChunk(names[..n]), WordsChunks(names[n..]));
      assert names == names[..n] + names[n..];
    }
  }

  /** The first name behind the ones taken does not fit any more. */
  lemma {:induction false} TakenAll(names: seq<seq<Byte>>, room: nat)
    ensures var n := Taken(names, room);
      n < |names| ==> StrSize(names[..n]) + 2 + |names[n]| > room
  {
    var n := Taken(names, room);
    if 0 < n < |names| {
      TakenAll(names[1..], room - 2 - |names[0]|);
      assert names[..n][1..] == names[1..][..n - 1];
    }
  }

  /** The name at the front of each payload would not have fitted into the one before. */
  ghost predicate Filled(payloads: seq<seq<Byte>>) {
    forall k :: 1 <= k < |payloads| ==>
      var names := ReadWordsChunk(payloads[k]);
      names != [] && |payloads[k - 1]| + 2 + |names[0]| > MAX_PAYLOAD
  }

  lemma {:induction false} WordsChunksFilled(names: seq<seq<Byte>>)
    requires forall k :: 0 <= k < |names| ==> Fits(names[k])
    ensures Filled(WordsChunks(names))
    ensures names != [] ==> ReadWordsChunk(WordsChunks(names)[0]) != [] && ReadWordsChunk(WordsChunks(names)[0])[0] == names[0]
    decreases |names|
  {
    hide Strs, Little, ReadWordsChunk, Range, Taken;
    var n := Taken(names, WORDS_ROOM);
    TakenFits(names, WORDS_ROOM);
    TakenAll(names, WORDS_ROOM);
    Ranges();
    WordsChunkBack(names[..n]);
    if names != [] { assert Fits(names[0]); }
    if n == |names| {
      assert names[..n] == names;
    } else {
      var rest := WordsChunks(names[n..]);
      WordsChunksFilled(names[n..]);
      var all := [WordsChunk(names[..n])] + rest;
      forall k | 1 <= k < |all|
        ensures ReadWordsChunk(all[k]) != [] && |all[k - 1]| + 2 + |ReadWordsChunk(all[k])[0]| > MAX_PAYLOAD
      {
        assert all[k] == rest[k - 1];
        if k > 1 { assert all[k - 1] == rest[k - 2]; }
      }
    }
  }

  lemma OneWordsChunk(payload: seq<Byte>)
    ensures ReadWordsChunks([payload]) == ReadWordsChunk(payload)
  {
    hide ReadWordsChunk;
    assert ReadWordsChunks([payload]) == ReadWordsChunk(payload) + ReadWordsChunks([]);
  }

  lemma MoreWordsChunks(payload: seq<Byte>, rest: seq<seq<Byte>>)
    ensures ReadWordsChunks([payload] + rest) == ReadWordsChunk(payload) + ReadWordsChunks(rest)
  {
    hide ReadWordsChunk;
    assert ([payload] + rest)[1..] == rest;
  }

  // ----- the text of a word -----

  datatype View = View(overlay: bool, kind: Byte, text: seq<Byte>) | NoView(fault: Fault)

  function SeeHeaderSize(name: seq<Byte>): nat { |name| + 6 }

  function SeeChunks(text: seq<Byte>, available: nat): seq<seq<Byte>>
    requires available > 0 || text == []
    decreases |text|
  {
    if |text| <= available then [text] else [text[..available]] + SeeChunks(text[available..], available)
  }

  lemma {:induction false} SeeChunksWhole(text: seq<Byte>, available: nat)
    requires available > 0 || text == []
    ensures Concat(SeeChunks(text, available)) == text
    ensures forall k :: 0 <= k < |SeeChunks(text, available)| ==> |SeeChunks(text, available)[k]| <= available
    ensures SeeChunks(text, available) != []
    ensures forall k :: 0 <= k < |SeeChunks(text, available)| - 1 ==> |SeeChunks(text, available)[k]| == available
    decreases |text|
  {
    if |text| <= available {
      assert Concat([text]) == text + Concat([]);
    } else {
      SeeChunksWhole(text[available..], available);
      assert text == text[..available] + text[available..];
    }
  }

  function SeePayload(name: seq<Byte>, view: View, chunk: seq<Byte>): (r: seq<Byte>)
    requires view.View?
    ensures |r| == SeeHeaderSize(name) + |chunk|
  {
    Str(name) + [if view.overlay then 1 else 0, view.kind] + Str(chunk)
  }

  function SeePayloads(name: seq<Byte>, view: View, chunks: seq<seq<Byte>>): (r: seq<seq<Byte>>)
    requires view.View?
    ensures |r| == |chunks|
  {
    if chunks == [] then [] else [SeePayload(name, view, chunks[0])] + SeePayloads(name, view, chunks[1..])
  }

  function ValueEvents(id: nat, seqNo: nat, payloads: seq<seq<Byte>>): (r: seq<Message>)
    ensures |r| == |payloads|
    ensures forall k :: 0 <= k < |payloads| ==> r[k] == Event(VALUE_EVT, id, seqNo, payloads[k])
  {
    if payloads == [] then []
    else [Event(VALUE_EVT, id, seqNo, payloads[0])] + ValueEvents(id, seqNo, payloads[1..])
  }

  // ----- requests -----

  /** How running a request's program or builtin ends. */
  datatype Answer =
    | Rendered(text: seq<Byte>)
    | Unrendered(fault: Fault)
    | Faulted(fault: Fault, parsing: bool)
    | Stopped

  /** What the rest of the runtime contributes to the answer. */
  datatype Environment = Environment(
    output: seq<Byte>, answer: Answer, argument: Status, words: Listing, view: View,
    resetValue: seq<Byte>, helloValue: seq<Byte>)

  datatype State = State(bound: bool, id: nat, next: nat)

  datatype Reply = Reply(messages: seq<Message>, status: Status)

  datatype Reaction = Reaction(state: State, messages: seq<Message>, status: Status, detach: bool)

  function Refusal(id: nat, seqNo: nat, phase: Phase, fault: Fault, detail: Detail): Reply {
    Reply([ErrorEvent(id, seqNo, phase, fault, detail), IdleEvent(id, seqNo)], Fine)
  }

  /** The status of sending a string as a value. */
  function StringFits(text: seq<Byte>): Status {
    if |text| >= 0x1_0000 then Failing(LINK_TOO_LARGE)
    else if 2 + |text| > MAX_PAYLOAD then Failing(LINK_OVERFLOW)
    else Fine
  }

  function RunReply(id: nat, seqNo: nat, env: Environment, phase: Phase, detail: Detail): Reply {
    var output := OutputEvents(id, seqNo, Chunks([], env.output));
    match env.answer
    case Stopped => Reply(output + [Event(INTERRUPTED_EVT, id, seqNo, []), IdleEvent(id, seqNo)], Fine)
    case Faulted(fault, _) => Reply(output + Refusal(id, seqNo, phase, fault, detail).messages, Fine)
    case Unrendered(fault) => Reply(output, Failing(fault))
    case Rendered(text) =>
      if StringFits(text).Fine? then
        Reply(output + [Event(VALUE_EVT, id, seqNo, Str(text)), IdleEvent(id, seqNo)], Fine)
      else Reply(output, StringFits(text))
  }

  function BuiltinReply(id: nat, seqNo: nat, payload: seq<Byte>, env: Environment, bad: Detail, failed: Detail): Reply {
    if payload != [] then Refusal(id, seqNo, InControl, SIGNATURE, bad)
    else RunReply(id, seqNo, env, InEval, failed)
  }

  function ArgumentReply(id: nat, seqNo: nat, payload: seq<Byte>, env: Environment, bad: Detail, failed: Detail): Reply {
    match StringPayload(payload)
    case BadArgument(fault) => Refusal(id, seqNo, InControl, fault, bad)
    case Argument(_) =>
      if env.argument.Failing? then Refusal(id, seqNo, InInspect, env.argument.fault, failed)
      else RunReply(id, seqNo, env, InInspect, failed)
  }

  function EvalReply(id: nat, seqNo: nat, payload: seq<Byte>, env: Environment): Reply {
    match StringPayload(payload)
    case BadArgument(fault) => Refusal(id, seqNo, InControl, fault, BadEval)
    case Argument(_) =>
      if env.answer.Faulted? && env.answer.parsing then RunReply(id, seqNo, env, InParse, ParseFailed)
      else RunReply(id, seqNo, env, InEval, EvaluationFailed)
  }

  function WordsReply(id: nat, seqNo: nat, payload: seq<Byte>, listing: Listing): Reply {
    if payload != [] then Refusal(id, seqNo, InControl, SIGNATURE, BadWords)
    else
      match listing
      case NoNames(fault) => Refusal(id, seqNo, InInspect, fault, WordsFailed)
      case Names(names) =>
        if forall k :: 0 <= k < |names| ==> Fits(names[k]) then
          Reply(ValueEvents(id, seqNo, WordsChunks(names)) + [IdleEvent(id, seqNo)], Fine)
        else Refusal(id, seqNo, InInspect, LINK_OVERFLOW, WordsFailed)
  }

  function SeeReply(id: nat, seqNo: nat, payload: seq<Byte>, view: View): Reply {
    match StringPayload(payload)
    case BadArgument(fault) => Refusal(id, seqNo, InControl, fault, BadSee)
    case Argument(name) =>
      if view.NoView? then Refusal(id, seqNo, InInspect, view.fault, SeeFailed)
      else if SeeHeaderSize(name) > MAX_PAYLOAD || (view.text != [] && SeeHeaderSize(name) == MAX_PAYLOAD) then
        Refusal(id, seqNo, InInspect, LINK_OVERFLOW, SeeFailed)
      else
        var chunks := SeeChunks(view.text, MAX_PAYLOAD - SeeHeaderSize(name));
        Reply(ValueEvents(id, seqNo, SeePayloads(name, view, chunks)) + [IdleEvent(id, seqNo)], Fine)
  }

  function ResetReply(id: nat, seqNo: nat, payload: seq<Byte>, value: seq<Byte>): Reply {
    if payload != [] then Refusal(id, seqNo, InControl, SIGNATURE, BadReset)
    else if |value| > MAX_PAYLOAD then Refusal(id, seqNo, InControl, LINK_OVERFLOW, ResetFailed)
    else Reply([Event(VALUE_EVT, id, seqNo, value), IdleEvent(id, seqNo)], Fine)
  }

  function DetachReply(id: nat, seqNo: nat, payload: seq<Byte>): Reply {
    if payload != [] then Refusal(id, seqNo, InControl, SIGNATURE, BadDetach)
    else Reply([IdleEvent(id, seqNo)], Fine)
  }

  /** What a request in sequence is answered with. */
  function RequestReply(id: nat, kind: Byte, seqNo: nat, payload: seq<Byte>, env: Environment): Reply {
    if kind == EVAL_REQ then EvalReply(id, seqNo, payload, env)
    else if kind == WORDS_REQ then WordsReply(id, seqNo, payload, env.words)
    else if kind == SEE_REQ then SeeReply(id, seqNo, payload, env.view)
    else if kind == RESET_REQ then ResetReply(id, seqNo, payload, env.resetValue)
    else if kind == SAVE_REQ then BuiltinReply(id, seqNo, payload, env, BadSave, SaveFailed)
    else if kind == RESTORE_REQ then BuiltinReply(id, seqNo, payload, env, BadRestore, RestoreFailed)
    else if kind == WIPE_REQ then BuiltinReply(id, seqNo, payload, env, BadWipe, WipeFailed)
    else if kind == CORE_REQ then ArgumentReply(id, seqNo, payload, env, BadCore, CoreFailed)
    else if kind == SLOT_INFO_REQ then ArgumentReply(id, seqNo, payload, env, BadSlotInfo, SlotInfoFailed)
    else if kind == DETACH_REQ then DetachReply(id, seqNo, payload)
    else Refusal(id, seqNo, InControl, UNKNOWN_TYPE, UnknownRequest)
  }

  function Successor(n: nat): nat { if n == 0xffff then 1 else n + 1 }

  predicate Greets(h: Header) { h.kind == HELLO_REQ && h.session != 0 && h.seqNo == 0 }

  function Hello(s: State, h: Header, payload: seq<Byte>, env: Environment): Reaction {
    if !Greets(h) then Reaction(s, [], Fine, false)
    else if payload != [] then
      Reaction(s, Refusal(h.session, h.seqNo, InControl, SIGNATURE, BadHello).messages, Fine, false)
    else
      var now := State(true, h.session, 1);
      if |env.helloValue| > MAX_PAYLOAD then Reaction(now, [], Failing(LINK_OVERFLOW), false)
      else
        Reaction(now, [Event(HELLO_EVT, h.session, h.seqNo, env.helloValue), IdleEvent(h.session, h.seqNo)], Fine, false)
  }

  function React(s: State, h: Header, payload: seq<Byte>, env: Environment): Reaction {
    if !s.bound then Hello(s, h, payload, env)
    else if h.session != s.id then Reaction(s, [], Fine, false)
    else if h.seqNo != s.next then
      Reaction(s, Refusal(s.id, h.seqNo, InControl, SIGNATURE, UnexpectedSequence).messages, Fine, false)
    else
      var reply := RequestReply(s.id, h.kind, h.seqNo, payload, env);
      var detach := h.kind == DETACH_REQ && payload == [];
      var now := if reply.status.Fine? && !detach then s.(next := Successor(s.next)) else s;
      Reaction(now, reply.messages, reply.status, detach)
  }

  // ----- what a reply amounts to -----

  /** All of one request, with one IDLE at the very end. */
  ghost predicate Closing(id: nat, seqNo: nat, messages: seq<Message>) {
    && messages != []
    && messages[|messages| - 1] == IdleEvent(id, seqNo)
    && (forall k :: 0 <= k < |messages| ==> messages[k].header.session == id && messages[k].header.seqNo == seqNo)
    && (forall k :: 0 <= k < |messages| - 1 ==> messages[k].header.kind != IDLE_EVT)
    && (forall k :: 0 <= k < |messages| ==> |messages[k].payload| <= MAX_PAYLOAD)
  }

  /** The outcomes that end the session: a value that cannot be sent in one frame. */
  predicate Unsendable(answer: Answer) {
    answer.Unrendered? || (answer.Rendered? && 2 + |answer.text| > MAX_PAYLOAD)
  }

  predicate Runs(kind: Byte, payload: seq<Byte>, env: Environment) {
    if kind == EVAL_REQ then StringPayload(payload).Argument?
    else if kind == SAVE_REQ || kind == RESTORE_REQ || kind == WIPE_REQ then payload == []
    else (kind == CORE_REQ || kind == SLOT_INFO_REQ) && StringPayload(payload).Argument? && env.argument.Fine?
  }

  function OutputOf(messages: seq<Message>): seq<Byte> {
    if messages == [] then []
    else (if messages[0].header.kind == OUTPUT_EVT && |messages[0].payload| >= 2 then messages[0].payload[2..] else [])
         + OutputOf(messages[1..])
  }

  lemma {:induction false} OutputOfConcat(a: seq<Message>, b: seq<Message>)
    ensures OutputOf(a + b) == OutputOf(a) + OutputOf(b)
  {
    if a == [] {
      assert a + b == b;
    } else {
      assert (a + b)[1..] == a[1..] + b;
      OutputOfConcat(a[1..], b);
    }
  }

  lemma {:induction false} OutputOfEvents(id: nat, seqNo: nat, parts: seq<seq<Byte>>)
    ensures OutputOf(OutputEvents(id, seqNo, parts)) == Concat(parts)
  {
    hide Little;
    if parts != [] {
      OutputOfEvents(id, seqNo, parts[1..]);
      assert Str(parts[0])[2..] == parts[0];
    }
  }

  lemma {:induction false} NoOutputOf(messages: seq<Message>)
    requires forall k :: 0 <= k < |messages| ==> messages[k].header.kind != OUTPUT_EVT
    ensures OutputOf(messages) == []
  {
    if messages != [] {
      NoOutputOf(messages[1..]);
    }
  }

  lemma {:induction false} OutputEventsAt(id: nat, seqNo: nat, parts: seq<seq<Byte>>)
    ensures var r := OutputEvents(id, seqNo, parts);
      forall k :: 0 <= k < |r| ==> r[k] == Event(OUTPUT_EVT, id, seqNo, Str(parts[k]))
  {
    if parts != [] {
      OutputEventsAt(id, seqNo, parts[1..]);
    }
  }

  lemma RefusalCloses(id: nat, seqNo: nat, phase: Phase, fault: Fault, detail: Detail)
    ensures var r := Refusal(id, seqNo, phase, fault, detail);
      Closing(id, seqNo, r.messages) && OutputOf(r.messages) == [] && r.status.Fine?
  {
    hide ErrorPayload, OutputOf;
    NoOutputOf(Refusal(id, seqNo, phase, fault, detail).messages);
  }

  /** Output first and then the closing messages close a request. */
  lemma OutputCloses(id: nat, seqNo: nat, output: seq<Byte>, rest: seq<Message>)
    requires Closing(id, seqNo, rest) && OutputOf(rest) == []
    ensures var all := OutputEvents(id, seqNo, Chunks([], output)) + rest;
      Closing(id, seqNo, all) && OutputOf(all) == output
  {
    hide OutputEvents, Chunks, OutputOf, Str;
    var parts := Chunks([], output);
    ChunksWhole([], output);
    assert [] + output == output;
    OutputEventsAt(id, seqNo, parts);
    OutputOfEvents(id, seqNo, parts);
    OutputOfConcat(OutputEvents(id, seqNo, parts), rest);
  }

  lemma TwoClose(id: nat, seqNo: nat, first: Message)
    requires first.header == Header(first.header.kind, id, seqNo) && |first.payload| <= MAX_PAYLOAD
    requires first.header.kind != IDLE_EVT && first.header.kind != OUTPUT_EVT
    ensures var r := [first, IdleEvent(id, seqNo)];
      Closing(id, seqNo, r) && OutputOf(r) == []
  {
    hide OutputOf;
    NoOutputOf([first, IdleEvent(id, seqNo)]);
  }

  /** A run request ends with IDLE exactly when its value can be sent. */
  lemma RunReplyCloses(id: nat, seqNo: nat, env: Environment, phase: Phase, detail: Detail)
    ensures var r := RunReply(id, seqNo, env, phase, detail);
      && (r.status.Fine? <==> !Unsendable(env.answer))
      && (r.status.Fine? ==> Closing(id, seqNo, r.messages))
      && OutputOf(r.messages) == env.output
  {
    hide Refusal, OutputEvents, Chunks, Closing, OutputOf, Str;
    var output := OutputEvents(id, seqNo, Chunks([], env.output));
    ChunksWhole([], env.output);
    OutputOfEvents(id, seqNo, Chunks([], env.output));
    assert [] + env.output == env.output;
    match env.answer {
      case Stopped =>
        var last := Event(INTERRUPTED_EVT, id, seqNo, []);
        TwoClose(id, seqNo, last);
        OutputCloses(id, seqNo, env.output, [last, IdleEvent(id, seqNo)]);
      case Faulted(fault, _) =>
        RefusalCloses(id, seqNo, phase, fault, detail);
        OutputCloses(id, seqNo, env.output, Refusal(id, seqNo, phase, fault, detail).messages);
      case Unrendered(_) =>
      case Rendered(text) =>
        if StringFits(text).Fine? {
          var last := Event(VALUE_EVT, id, seqNo, Str(text));
          TwoClose(id, seqNo, last);
          OutputCloses(id, seqNo, env.output, [last, IdleEvent(id, seqNo)]);
        }
    }
  }

  lemma ValuesClose(id: nat, seqNo: nat, payloads: seq<seq<Byte>>)
    requires forall k :: 0 <= k < |payloads| ==> |payloads[k]| <= MAX_PAYLOAD
    ensures var r := ValueEvents(id, seqNo, payloads) + [IdleEvent(id, seqNo)];
      Closing(id, seqNo, r) && OutputOf(r) == []
  {
    hide OutputOf;
    NoOutputOf(ValueEvents(id, seqNo, payloads) + [IdleEvent(id, seqNo)]);
  }

  lemma {:induction false} SeePayloadsAt(name: seq<Byte>, view: View, chunks: seq<seq<Byte>>)
    requires view.View?
    ensures forall k :: 0 <= k < |chunks| ==> SeePayloads(name, view, chunks)[k] == SeePayload(name, view, chunks[k])
  {
    hide SeePayload;
    if chunks != [] {
      SeePayloadsAt(name, view, chunks[1..]);
    }
  }

  lemma WordsReplyCloses(id: nat, seqNo: nat, payload: seq<Byte>, listing: Listing)
    ensures var r := WordsReply(id, seqNo, payload, listing);
      r.status.Fine? && Closing(id, seqNo, r.messages) && OutputOf(r.messages) == []
  {
    hide Closing, OutputOf, WordsChunks, Refusal;
    RefusalCloses(id, seqNo, InControl, SIGNATURE, BadWords);
    RefusalCloses(id, seqNo, InInspect, LINK_OVERFLOW, WordsFailed);
    if listing.NoNames? {
      RefusalCloses(id, seqNo, InInspect, listing.fault, WordsFailed);
    } else if forall k :: 0 <= k < |listing.names| ==> Fits(listing.names[k]) {
      WordsChunksWhole(listing.names);
      ValuesClose(id, seqNo, WordsChunks(listing.names));
    }
  }

  lemma SeeReplyCloses(id: nat, seqNo: nat, payload: seq<Byte>, view: View)
    ensures var r := SeeReply(id, seqNo, payload, view);
      r.status.Fine? && Closing(id, seqNo, r.messages) && OutputOf(r.messages) == []
  {
    hide Closing, OutputOf, SeeChunks, Refusal, StringPayload, SeePayloads;
    var argument := StringPayload(payload);
    RefusalCloses(id, seqNo, InInspect, LINK_OVERFLOW, SeeFailed);
    if argument.BadArgument? {
      RefusalCloses(id, seqNo, InControl, argument.fault, BadSee);
    } else if view.NoView? {
      RefusalCloses(id, seqNo, InInspect, view.fault, SeeFailed);
    } else if SeeHeaderSize(argument.text) > MAX_PAYLOAD || (view.text != [] && SeeHeaderSize(argument.text) == MAX_PAYLOAD) {
    } else {
      var room: nat := MAX_PAYLOAD - SeeHeaderSize(argument.text);
      var chunks := SeeChunks(view.text, room);
      SeeChunksWhole(view.text, room);
      SeePayloadsAt(argument.text, view, chunks);
      ValuesClose(id, seqNo, SeePayloads(argument.text, view, chunks));
    }
  }

  /**
   Every request in sequence is answered with exactly one IDLE, last and with its own
   sequence number, unless its value cannot be sent; and what the program wrote is
   what the OUTPUT events carry.
   */
  lemma RequestReplyCloses(id: nat, kind: Byte, seqNo: nat, payload: seq<Byte>, env: Environment)
    ensures var r := RequestReply(id, kind, seqNo, payload, env);
      && (r.status.Fine? <==> !(Runs(kind, payload, env) && Unsendable(env.answer)))
      && (r.status.Fine? ==> Closing(id, seqNo, r.messages))
      && OutputOf(r.messages) == if Runs(kind, payload, env) then env.output else []
  {
    hide Closing, OutputOf, WordsReply, SeeReply, RunReply, Refusal, StringPayload, Unsendable;
    if kind == WORDS_REQ {
      WordsReplyCloses(id, seqNo, payload, env.words);
    } else if kind == SEE_REQ {
      SeeReplyCloses(id, seqNo, payload, env.view);
    } else if kind == EVAL_REQ {
      EvalReplyCloses(id, seqNo, payload, env);
    } else if kind == RESET_REQ {
      ResetReplyCloses(id, seqNo, payload, env.resetValue);
    } else if kind == SAVE_REQ {
      BuiltinReplyCloses(id, seqNo, payload, env, BadSave, SaveFailed);
    } else if kind == RESTORE_REQ {
      BuiltinReplyCloses(id, seqNo, payload, env, BadRestore, RestoreFailed);
    } else if kind == WIPE_REQ {
      BuiltinReplyCloses(id, seqNo, payload, env, BadWipe, WipeFailed);
    } else if kind == CORE_REQ {
      ArgumentReplyCloses(id, seqNo, payload, env, BadCore, CoreFailed);
    } else if kind == SLOT_INFO_REQ {
      ArgumentReplyCloses(id, seqNo, payload, env, BadSlotInfo, SlotInfoFailed);
    } else if kind == DETACH_REQ {
      DetachReplyCloses(id, seqNo, payload);
    } else {
      RefusalCloses(id, seqNo, InControl, UNKNOWN_TYPE, UnknownRequest);
    }
  }

  lemma DetachReplyCloses(id: nat, seqNo: nat, payload: seq<Byte>)
    ensures var r := DetachReply(id, seqNo, payload);
      r.status.Fine? && Closing(id, seqNo, r.messages) && OutputOf(r.messages) == []
  {
    hide OutputOf, Refusal;
    RefusalCloses(id, seqNo, InControl, SIGNATURE, BadDetach);
    NoOutputOf([IdleEvent(id, seqNo)]);
  }

  lemma ResetReplyCloses(id: nat, seqNo: nat, payload: seq<Byte>, value: seq<Byte>)
    ensures var r := ResetReply(id, seqNo, payload, value);
      r.status.Fine? && Closing(id, seqNo, r.messages) && OutputOf(r.messages) == []
  {
    hide OutputOf, Closing, Refusal;
    RefusalCloses(id, seqNo, InControl, SIGNATURE, BadReset);
    RefusalCloses(id, seqNo, InControl, LINK_OVERFLOW, ResetFailed);
    if |value| <= MAX_PAYLOAD {
      TwoClose(id, seqNo, Event(VALUE_EVT, id, seqNo, value));
    }
  }

  lemma BuiltinReplyCloses(id: nat, seqNo: nat, payload: seq<Byte>, env: Environment, bad: Detail, failed: Detail)
    ensures var r := BuiltinReply(id, seqNo, payload, env, bad, failed);
      && (r.status.Fine? <==> !(payload == [] && Unsendable(env.answer)))
      && (r.status.Fine? ==> Closing(id, seqNo, r.messages))
      && OutputOf(r.messages) == if payload == [] then env.output else []
  {
    hide OutputOf, Closing, Refusal, RunReply, Unsendable;
    RefusalCloses(id, seqNo, InControl, SIGNATURE, bad);
    RunReplyCloses(id, seqNo, env, InEval, failed);
  }

  lemma ArgumentReplyCloses(id: nat, seqNo: nat, payload: seq<Byte>, env: Environment, bad: Detail, failed: Detail)
    ensures var r := ArgumentReply(id, seqNo, payload, env, bad, failed);
      var runs := StringPayload(payload).Argument? && env.argument.Fine?;
      && (r.status.Fine? <==> !(runs && Unsendable(env.answer)))
      && (r.status.Fine? ==> Closing(id, seqNo, r.messages))
      && OutputOf(r.messages) == if runs then env.output else []
  {
    hide OutputOf, Closing, Refusal, RunReply, Unsendable, StringPayload;
    if StringPayload(payload).BadArgument? {
      RefusalCloses(id, seqNo, InControl, StringPayload(payload).fault, bad);
    } else if env.argument.Failing? {
      RefusalCloses(id, seqNo, InInspect, env.argument.fault, failed);
    } else {
      RunReplyCloses(id, seqNo, env, InInspect, failed);
    }
  }

  lemma EvalReplyCloses(id: nat, seqNo: nat, payload: seq<Byte>, env: Environment)
    ensures var r := EvalReply(id, seqNo, payload, env);
      var runs := StringPayload(payload).Argument?;
      && (r.status.Fine? <==> !(runs && Unsendable(env.answer)))
      && (r.status.Fine? ==> Closing(id, seqNo, r.messages))
      && OutputOf(r.messages) == if runs then env.output else []
  {
    hide OutputOf, Closing, Refusal, RunReply, Unsendable, StringPayload;
    if StringPayload(payload).BadArgument? {
      RefusalCloses(id, seqNo, InControl, StringPayload(payload).fault, BadEval);
    } else {
      RunReplyCloses(id, seqNo, env, InParse, ParseFailed);
      RunReplyCloses(id, seqNo, env, InEval, EvaluationFailed);
    }
  }

  // ----- whole sessions -----

  datatype Request = Request(header: Header, payload: seq<Byte>, env: Environment)

  predicate InSequence(s: State) { s.bound ==> 1 <= s.next <= 0xffff }

  /** Requests the session answers: its own, or the greeting that opens it. */
  predicate Addressed(s: State, h: Header) {
    if s.bound then h.session == s.id else Greets(h)
  }

  /** What happens to an evaluation that comes to a text one byte too long for its frame:
      the session fails, and nothing at all is sent for the request. */
  lemma LongTextUnanswered(id: nat, seqNo: nat, env: Environment)
    requires env.output == [] && env.answer == Rendered(seq(MAX_PAYLOAD - 1, _ => 0x61))
    ensures RequestReply(id, EVAL_REQ, seqNo, Str([0x74]), env) == Reply([], Failing(LINK_OVERFLOW))
  {
    hide Value, Little, Range, Run;
    Ranges();
    ReadBackExact(1, 2);
    assert Str([0x74])[..2] == Little(1, 2) && Str([0x74])[2..] == [0x74];
  }

  lemma ReactCloses(s: State, h: Header, payload: seq<Byte>, env: Environment)
    requires InSequence(s)
    ensures var r := React(s, h, payload, env);
      && InSequence(r.state)
      && (!Addressed(s, h) ==> r == Reaction(s, [], Fine, false))
      && (Addressed(s, h) && r.status.Fine? ==> Closing(h.session, h.seqNo, r.messages))
      && (r.status.Failing? <==>
           if s.bound then h.session == s.id && h.seqNo == s.next && Runs(h.kind, payload, env) && Unsendable(env.answer)
           else Greets(h) && payload == [] && |env.helloValue| > MAX_PAYLOAD)
  {
    hide Closing, RequestReply, Refusal, Runs, Unsendable;
    if s.bound && h.session == s.id && h.seqNo == s.next {
      RequestReplyCloses(s.id, h.kind, h.seqNo, payload, env);
    }
    RefusalCloses(h.session, h.seqNo, InControl, SIGNATURE, BadHello);
    RefusalCloses(h.session, h.seqNo, InControl, SIGNATURE, UnexpectedSequence);
    if |env.helloValue| <= MAX_PAYLOAD {
      TwoClose(h.session, h.seqNo, Event(HELLO_EVT, h.session, h.seqNo, env.helloValue));
    }
  }

  /** The session's messages for a list of requests, until one fails or detaches. */
  function Serve(s: State, requests: seq<Request>): seq<Message>
    decreases |requests|
  {
    if requests == [] then []
    else
      var r := React(s, requests[0].header, requests[0].payload, requests[0].env);
      if r.status.Failing? || r.detach then r.messages
      else r.messages + Serve(r.state, requests[1..])
  }

  /** The sequence numbers of the requests the session answers in full. */
  function Answered(s: State, requests: seq<Request>): seq<nat>
    decreases |requests|
  {
    if requests == [] then []
    else
      var h := requests[0].header;
      var r := React(s, h, requests[0].payload, requests[0].env);
      if r.status.Failing? then []
      else
        var own := if Addressed(s, h) then [h.seqNo] else [];
        if r.detach then own else own + Answered(r.state, requests[1..])
  }

  function Idles(messages: seq<Message>): seq<nat> {
    if messages == [] then []
    else (if messages[0].header.kind == IDLE_EVT then [messages[0].header.seqNo] else []) + Idles(messages[1..])
  }

  lemma {:induction false} IdlesStep(first: Message, rest: seq<Message>)
    ensures Idles([first] + rest) == (if first.header.kind == IDLE_EVT then [first.header.seqNo] else []) + Idles(rest)
  {
    assert ([first] + rest)[1..] == rest;
  }

  lemma {:induction false} IdlesConcat(a: seq<Message>, b: seq<Message>)
    ensures Idles(a + b) == Idles(a) + Idles(b)
  {
    if a == [] {
      assert a + b == b;
    } else {
      hide Idles;
      assert a == [a[0]] + a[1..] && a + b == [a[0]] + (a[1..] + b);
      IdlesStep(a[0], a[1..]);
      IdlesStep(a[0], a[1..] + b);
      IdlesConcat(a[1..], b);
    }
  }

  lemma {:induction false} ClosingIdles(id: nat, seqNo: nat, messages: seq<Message>)
    requires Closing(id, seqNo, messages)
    ensures Idles(messages) == [seqNo]
  {
    if |messages| == 1 {
      assert Idles(messages[1..]) == [];
    } else {
      ClosingIdles(id, seqNo, messages[1..]);
    }
  }

  lemma {:induction false} NoIdles(messages: seq<Message>)
    requires forall k :: 0 <= k < |messages| ==> messages[k].header.kind != IDLE_EVT
    ensures Idles(messages) == []
  {
    if messages != [] {
      NoIdles(messages[1..]);
    }
  }

  lemma FailingSilent(s: State, h: Header, payload: seq<Byte>, env: Environment)
    requires InSequence(s) && React(s, h, payload, env).status.Failing?
    ensures Idles(React(s, h, payload, env).messages) == []
  {
    hide RunReply, StringPayload, Idles;
    if s.bound && h.session == s.id && h.seqNo == s.next {
      RequestReplyFails(s.id, h.kind, h.seqNo, payload, env);
    } else {
      NoIdles([]);
    }
  }

  lemma RequestReplyFails(id: nat, kind: Byte, seqNo: nat, payload: seq<Byte>, env: Environment)
    requires RequestReply(id, kind, seqNo, payload, env).status.Failing?
    ensures Idles(RequestReply(id, kind, seqNo, payload, env).messages) == []
  {
    hide Idles, OutputEvents, Chunks, StringPayload, Refusal, ValueEvents, WordsChunks;
    RequestReplyCloses(id, kind, seqNo, payload, env);
    assert Refusal(id, seqNo, InControl, UNKNOWN_TYPE, UnknownRequest).status.Fine? by {
      RefusalCloses(id, seqNo, InControl, UNKNOWN_TYPE, UnknownRequest);
    }
    var parts := Chunks([], env.output);
    OutputEventsAt(id, seqNo, parts);
    NoIdles(OutputEvents(id, seqNo, parts));
  }

  /**
   Over a whole session the IDLE events are, in order, the answers to the requests
   addressed to it: one each and no other.
   */
  lemma {:induction false} OneIdleEach(s: State, requests: seq<Request>)
    requires InSequence(s)
    ensures Idles(Serve(s, requests)) == Answered(s, requests)
    decreases |requests|
  {
    hide React, Idles, Closing, Addressed;
    if requests == [] {
      NoIdles([]);
    } else {
      var h, payload, env := requests[0].header, requests[0].payload, requests[0].env;
      var r := React(s, h, payload, env);
      ReactCloses(s, h, payload, env);
      if r.status.Failing? {
        FailingSilent(s, h, payload, env);
      } else {
        if Addressed(s, h) {
          ClosingIdles(h.session, h.seqNo, r.messages);
        } else {
          NoIdles([]);
        }
        if !r.detach {
          OneIdleEach(r.state, requests[1..]);
          IdlesConcat(r.messages, Serve(r.state, requests[1..]));
        }
      }
    }
  }
}

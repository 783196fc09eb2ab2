/**
 What a client reads out of the answers to its requests, byte by byte.
 */
module Replies {
  import opened Bytes
  import Cobs
  import opened Frame
  import opened Session

  // ----- reading payloads -----

  /** A number in two bytes, the low one first. */
  function Two(s: seq<Byte>): nat
    requires |s| >= 2
  {
    Num(s[0]) + 256 * Num(s[1])
  }

  /** The payload is the text's length in two bytes, and the text. */
  predicate Carries(payload: seq<Byte>, text: seq<Byte>) {
    |payload| >= 2 && Two(payload) == |text| && payload[2..] == text
  }

  /** One byte for the phase, two for the error code, and the detail as a string. */
  predicate CarriesError(payload: seq<Byte>, phase: nat, fault: int, detail: string) {
    && |payload| >= 3 && Num(payload[0]) == phase && Two(payload[1..]) == fault % 0x1_0000
    && Carries(payload[3..], Ascii(detail))
  }

  /** The name as a string, the two marks, and a piece of the text as a string. */
  predicate CarriesView(payload: seq<Byte>, name: seq<Byte>, overlay: bool, kind: Byte, piece: seq<Byte>) {
    && |payload| >= 2 + |name| + 2
    && Carries(payload[..2 + |name|], name)
    && payload[2 + |name|] == (if overlay then 1 else 0) && payload[3 + |name|] == kind
    && Carries(payload[4 + |name|..], piece)
  }

  /** The payloads of the events of one kind, in order. */
  function PayloadsOf(messages: seq<Message>, kind: Byte): seq<seq<Byte>> {
    if messages == [] then []
    else (if messages[0].header.kind == kind then [messages[0].payload] else []) + PayloadsOf(messages[1..], kind)
  }

  lemma {:induction false} PayloadsConcat(a: seq<Message>, b: seq<Message>, kind: Byte)
    ensures PayloadsOf(a + b, kind) == PayloadsOf(a, kind) + PayloadsOf(b, kind)
  {
    if a == [] {
      assert a + b == b;
    } else {
      assert (a + b)[1..] == a[1..] + b;
      PayloadsConcat(a[1..], b, kind);
    }
  }

  lemma {:induction false} NoPayloads(messages: seq<Message>, kind: Byte)
    requires forall k :: 0 <= k < |messages| ==> messages[k].header.kind != kind
    ensures PayloadsOf(messages, kind) == []
  {
    if messages != [] { NoPayloads(messages[1..], kind); }
  }

  lemma {:induction false} AllPayloads(messages: seq<Message>, kind: Byte, payloads: seq<seq<Byte>>)
    requires |messages| == |payloads|
    requires forall k :: 0 <= k < |messages| ==> messages[k].header.kind == kind && messages[k].payload == payloads[k]
    ensures PayloadsOf(messages, kind) == payloads
  {
    if messages != [] { AllPayloads(messages[1..], kind, payloads[1..]); }
  }

  lemma OnePayload(first: Message, last: Message, kind: Byte)
    ensures PayloadsOf([first, last], kind)
         == (if first.header.kind == kind then [first.payload] else []) + (if last.header.kind == kind then [last.payload] else [])
  {
    assert [first, last][1..] == [last] && [last][1..] == [];
    assert PayloadsOf([], kind) == [];
    assert PayloadsOf([last], kind) == (if last.header.kind == kind then [last.payload] else []) + PayloadsOf([], kind);
  }

  /** A request's argument is its string up to the first zero byte, or all of it. */
  lemma ArgumentRead(payload: seq<Byte>, sent: seq<Byte>, text: seq<Byte>)
    requires Carries(payload, sent) && text <= sent && (forall k :: 0 <= k < |text| ==> text[k] != 0)
    requires |text| < |sent| ==> sent[|text|] == 0
    ensures StringPayload(payload) == Argument(text)
  {
    hide Two, Cobs.Run;
    ValueTwo(payload);
    assert forall k :: 0 <= k < |text| ==> sent[k] == text[k];
  }

  /** A payload is no string if it is too short for its length, or for what the length says, or too long for it. */
  lemma ArgumentRefused(payload: seq<Byte>)
    ensures |payload| < 2 || |payload| < 2 + Two(payload) ==> StringPayload(payload) == BadArgument(251)
    ensures |payload| >= 2 && |payload| > 2 + Two(payload) ==> StringPayload(payload) == BadArgument(108)
  {
    hide Two;
    if |payload| >= 2 { ValueTwo(payload); }
  }

  // ----- what was written -----

  lemma LittleTwo(n: nat, rest: seq<Byte>)
    ensures Two(Little(n, 2) + rest) == n % 0x1_0000
  {
    hide Num, Octet;
    assert Little(n, 2) == [Octet(n % 256)] + Little(n / 256, 1);
    assert Little(n / 256, 1) == [Octet(n / 256 % 256)] + Little(n / 256 / 256, 0);
    NumOctet(n % 256);
    NumOctet(n / 256 % 256);
    LowHigh(n);
  }

  lemma LowHigh(n: nat)
    ensures n % 256 + 256 * (n / 256 % 256) == n % 0x1_0000
  {
    ModSplit(n, 256);
  }

  lemma StrCarries(text: seq<Byte>)
    requires |text| < 0x1_0000
    ensures Carries(Str(text), text)
  {
    hide Little, Two;
    LittleTwo(|text|, text);
  }

  lemma ErrorCarries(phase: Phase, fault: Fault, detail: Detail)
    ensures CarriesError(ErrorPayload(phase, fault, detail), PhaseNumber(phase), fault, DetailText(detail))
  {
    hide Little, Two, DetailText, Ascii, Carries;
    var text := Ascii(DetailText(detail));
    var payload := ErrorPayload(phase, fault, detail);
    assert payload[1..] == Little(fault, 2) + Str(text);
    assert payload[3..] == Str(text);
    LittleTwo(fault, Str(text));
    StrCarries(text);
    PhaseBack(phase);
  }

  function PhaseNumber(phase: Phase): nat {
    match phase
    case InControl => 1
    case InParse => 2
    case InEval => 3
    case InInspect => 4
  }

  lemma PhaseBack(phase: Phase)
    ensures Num(PhaseCode(phase)) == PhaseNumber(phase)
  {
  }

  // ----- the answer to a request that is run -----

  /** Exactly these payloads are sent as values, errors and interruptions. */
  ghost predicate Told(messages: seq<Message>, values: seq<seq<Byte>>, errors: seq<seq<Byte>>, interruptions: seq<seq<Byte>>) {
    && PayloadsOf(messages, VALUE_EVT) == values && PayloadsOf(messages, ERROR_EVT) == errors
    && PayloadsOf(messages, INTERRUPTED_EVT) == interruptions
  }

  /** Where and how a failing run is reported, by the request. */
  function FailurePhase(kind: Byte, parsing: bool): nat {
    if kind == EVAL_REQ then if parsing then 2 else 3
    else if kind == CORE_REQ || kind == SLOT_INFO_REQ then 4 else 3
  }

  function FailureText(kind: Byte, parsing: bool): string {
    if kind == EVAL_REQ then if parsing then "parse failed" else "evaluation failed"
    else if kind == SAVE_REQ then "save failed"
    else if kind == RESTORE_REQ then "restore failed"
    else if kind == WIPE_REQ then "dangerous.wipe failed"
    else if kind == CORE_REQ then "core failed"
    else "slot info failed"
  }

  lemma RunTells(id: nat, seqNo: nat, env: Environment, phase: Phase, detail: Detail)
    ensures var ms := RunReply(id, seqNo, env, phase, detail).messages;
      match env.answer
      case Rendered(text) => Told(ms, if 2 + |text| <= MAX_PAYLOAD then [Str(text)] else [], [], [])
      case Unrendered(_) => Told(ms, [], [], [])
      case Faulted(fault, _) => Told(ms, [], [ErrorPayload(phase, fault, detail)], [])
      case Stopped => Told(ms, [], [], [[]])
  {
    hide OutputEvents, Chunks, ErrorPayload, Str, PayloadsOf;
    var parts := Chunks([], env.output);
    var output := OutputEvents(id, seqNo, parts);
    OutputEventsAt(id, seqNo, parts);
    NoPayloads(output, VALUE_EVT);
    NoPayloads(output, ERROR_EVT);
    NoPayloads(output, INTERRUPTED_EVT);
    match env.answer {
      case Stopped => ToldLast(output, Event(INTERRUPTED_EVT, id, seqNo, []), IdleEvent(id, seqNo));
      case Faulted(fault, _) => ToldLast(output, ErrorEvent(id, seqNo, phase, fault, detail), IdleEvent(id, seqNo));
      case Rendered(text) => ToldLast(output, Event(VALUE_EVT, id, seqNo, Str(text)), IdleEvent(id, seqNo));
      case Unrendered(_) =>
    }
  }

  /** One more message and the closing one behind the output. */
  lemma ToldLast(output: seq<Message>, first: Message, last: Message)
    requires Told(output, [], [], []) && last.header.kind == IDLE_EVT
    ensures Told(output + [first, last],
      if first.header.kind == VALUE_EVT then [first.payload] else [],
      if first.header.kind == ERROR_EVT then [first.payload] else [],
      if first.header.kind == INTERRUPTED_EVT then [first.payload] else [])
  {
    hide PayloadsOf;
    Added(output, first, last, VALUE_EVT);
    Added(output, first, last, ERROR_EVT);
    Added(output, first, last, INTERRUPTED_EVT);
  }

  lemma Added(output: seq<Message>, first: Message, last: Message, kind: Byte)
    requires PayloadsOf(output, kind) == []
    ensures PayloadsOf(output + [first, last], kind)
         == (if first.header.kind == kind then [first.payload] else []) + (if last.header.kind == kind then [last.payload] else [])
  {
    hide PayloadsOf;
    PayloadsConcat(output, [first, last], kind);
    OnePayload(first, last, kind);
  }

  /**
   A request that is run tells how the run ended, once and in no other way: by a value event
   with the text, by an error event with the phase, the code and the words that belong to the
   request, or by an interruption. A text that is too long for a frame is not told at all.
   */
  lemma RunAnswered(id: nat, kind: Byte, seqNo: nat, payload: seq<Byte>, env: Environment)
    requires Runs(kind, payload, env)
    ensures var ms := RequestReply(id, kind, seqNo, payload, env).messages;
      var values, errors := PayloadsOf(ms, VALUE_EVT), PayloadsOf(ms, ERROR_EVT);
      && (env.answer.Rendered? && 2 + |env.answer.text| <= MAX_PAYLOAD ==> |values| == 1 && Carries(values[0], env.answer.text))
      && (!(env.answer.Rendered? && 2 + |env.answer.text| <= MAX_PAYLOAD) ==> values == [])
      && (env.answer.Faulted? ==>
            |errors| == 1
            && CarriesError(errors[0], FailurePhase(kind, env.answer.parsing), env.answer.fault, FailureText(kind, env.answer.parsing)))
      && (!env.answer.Faulted? ==> errors == [])
      && PayloadsOf(ms, INTERRUPTED_EVT) == if env.answer.Stopped? then [[]] else []
  {
    hide RunReply, StringPayload, PayloadsOf, ErrorPayload, Str, DetailText, CarriesError, Carries;
    var parsing := env.answer.Faulted? && env.answer.parsing;
    var phase, detail := RunPhase(kind, parsing), RunDetail(kind, parsing);
    RunIsReply(id, kind, seqNo, payload, env, phase, detail);
    RunTells(id, seqNo, env, phase, detail);
    if env.answer.Rendered? && 2 + |env.answer.text| <= MAX_PAYLOAD {
      StrCarries(env.answer.text);
    }
    if env.answer.Faulted? {
      ErrorCarries(phase, env.answer.fault, detail);
      FailureTold(kind, parsing, payload, env);
    }
  }

  function RunPhase(kind: Byte, parsing: bool): Phase {
    if kind == EVAL_REQ && parsing then InParse
    else if kind == CORE_REQ || kind == SLOT_INFO_REQ then InInspect else InEval
  }

  function RunDetail(kind: Byte, parsing: bool): Detail {
    if kind == EVAL_REQ then if parsing then ParseFailed else EvaluationFailed
    else if kind == SAVE_REQ then SaveFailed
    else if kind == RESTORE_REQ then RestoreFailed
    else if kind == WIPE_REQ then WipeFailed
    else if kind == CORE_REQ then CoreFailed
    else SlotInfoFailed
  }

  lemma FailureTold(kind: Byte, parsing: bool, payload: seq<Byte>, env: Environment)
    requires Runs(kind, payload, env)
    ensures DetailText(RunDetail(kind, parsing)) == FailureText(kind, parsing)
    ensures PhaseNumber(RunPhase(kind, parsing)) == FailurePhase(kind, parsing)
  {
    hide StringPayload;
  }

  lemma RunIsReply(id: nat, kind: Byte, seqNo: nat, payload: seq<Byte>, env: Environment, phase: Phase, detail: Detail)
    requires Runs(kind, payload, env)
    requires phase == RunPhase(kind, env.answer.Faulted? && env.answer.parsing)
    requires detail == RunDetail(kind, env.answer.Faulted? && env.answer.parsing)
    ensures RequestReply(id, kind, seqNo, payload, env) == RunReply(id, seqNo, env, phase, detail)
  {
    hide RunReply, StringPayload;
  }

  /** What the program wrote reaches the client in pieces that each carry their own length. */
  lemma OutputAnswered(id: nat, kind: Byte, seqNo: nat, payload: seq<Byte>, env: Environment) returns (parts: seq<seq<Byte>>)
    requires Runs(kind, payload, env)
    ensures var sent := PayloadsOf(RequestReply(id, kind, seqNo, payload, env).messages, OUTPUT_EVT);
      && |sent| == |parts| && (forall k :: 0 <= k < |sent| ==> Carries(sent[k], parts[k]))
      && Concat(parts) == env.output && Pieces(parts)
  {
    hide RunReply, StringPayload, PayloadsOf, Str, Carries, Concat, Chunks;
    var parsing := env.answer.Faulted? && env.answer.parsing;
    var phase, detail := RunPhase(kind, parsing), RunDetail(kind, parsing);
    RunIsReply(id, kind, seqNo, payload, env, phase, detail);
    parts := Chunks([], env.output);
    ChunksWhole([], env.output);
    assert [] + env.output == env.output;
    OutputTold(id, seqNo, env, phase, detail);
    forall k | 0 <= k < |parts| ensures Carries(Str(parts[k]), parts[k]) {
      StrCarries(parts[k]);
    }
  }

  lemma OutputTold(id: nat, seqNo: nat, env: Environment, phase: Phase, detail: Detail)
    ensures var sent := PayloadsOf(RunReply(id, seqNo, env, phase, detail).messages, OUTPUT_EVT);
      var parts := Chunks([], env.output);
      |sent| == |parts| && forall k :: 0 <= k < |sent| ==> sent[k] == Str(parts[k])
  {
    hide OutputEvents, Chunks, ErrorPayload, Str, PayloadsOf;
    var parts := Chunks([], env.output);
    var output := OutputEvents(id, seqNo, parts);
    OutputEventsAt(id, seqNo, parts);
    var payloads := seq(|parts|, k requires 0 <= k < |parts| => Str(parts[k]));
    AllPayloads(output, OUTPUT_EVT, payloads);
    var rest := AfterOutput(id, seqNo, env, phase, detail);
    PayloadsConcat(output, rest, OUTPUT_EVT);
    NoPayloads(rest, OUTPUT_EVT);
  }

  lemma AfterOutput(id: nat, seqNo: nat, env: Environment, phase: Phase, detail: Detail) returns (rest: seq<Message>)
    ensures RunReply(id, seqNo, env, phase, detail).messages == OutputEvents(id, seqNo, Chunks([], env.output)) + rest
    ensures forall k :: 0 <= k < |rest| ==> rest[k].header.kind != OUTPUT_EVT
  {
    hide OutputEvents, Chunks, ErrorPayload, Str;
    rest :=
      match env.answer
      case Stopped => [Event(INTERRUPTED_EVT, id, seqNo, []), IdleEvent(id, seqNo)]
      case Faulted(fault, _) => [ErrorEvent(id, seqNo, phase, fault, detail), IdleEvent(id, seqNo)]
      case Rendered(text) => if StringFits(text).Fine? then [Event(VALUE_EVT, id, seqNo, Str(text)), IdleEvent(id, seqNo)] else []
      case Unrendered(_) => [];
  }

  // ----- the other requests -----

  lemma ValuesTold(id: nat, seqNo: nat, payloads: seq<seq<Byte>>)
    ensures Told(ValueEvents(id, seqNo, payloads) + [IdleEvent(id, seqNo)], payloads, [], [])
  {
    hide PayloadsOf;
    var values := ValueEvents(id, seqNo, payloads);
    var last := [IdleEvent(id, seqNo)];
    AllPayloads(values, VALUE_EVT, payloads);
    NoPayloads(values, ERROR_EVT);
    NoPayloads(values, INTERRUPTED_EVT);
    NoPayloads(last, VALUE_EVT);
    NoPayloads(last, ERROR_EVT);
    NoPayloads(last, INTERRUPTED_EVT);
    PayloadsConcat(values, last, VALUE_EVT);
    PayloadsConcat(values, last, ERROR_EVT);
    PayloadsConcat(values, last, INTERRUPTED_EVT);
  }

  /** Reads `count` strings from the front of a payload; each has its length in front. */
  function Strings(s: seq<Byte>, count: nat): seq<seq<Byte>>
    decreases count
  {
    if count == 0 || |s| < 2 || |s| < 2 + Two(s) then []
    else [s[2..2 + Two(s)]] + Strings(s[2 + Two(s)..], count - 1)
  }

  /** The names in a payload: their number, and then the names. */
  function ListedIn(payload: seq<Byte>): seq<seq<Byte>> {
    if |payload| < 2 then [] else Strings(payload[2..], Two(payload))
  }

  function ListedInAll(payloads: seq<seq<Byte>>): seq<seq<Byte>> {
    if payloads == [] then [] else ListedIn(payloads[0]) + ListedInAll(payloads[1..])
  }

  lemma ValueTwo(s: seq<Byte>)
    requires |s| >= 2
    ensures Value(s[..2]) == Two(s)
  {
    hide Num;
    var t := s[..2];
    assert t[1..][0] == s[1] && t[1..][1..] == [];
    assert Value([]) == 0;
  }

  lemma {:induction false} SameStrings(s: seq<Byte>, count: nat)
    ensures ReadStrs(s, count) == Strings(s, count)
    decreases count
  {
    hide Two, Value;
    if count > 0 && |s| >= 2 {
      ValueTwo(s);
      if 2 + Two(s) <= |s| { SameStrings(s[2 + Two(s)..], count - 1); }
    }
  }

  lemma {:induction false} SameListing(payloads: seq<seq<Byte>>)
    ensures ReadWordsChunks(payloads) == ListedInAll(payloads)
  {
    hide Two, Value, ReadStrs, Strings;
    if payloads != [] {
      SameListing(payloads[1..]);
      if |payloads[0]| >= 2 {
        ValueTwo(payloads[0]);
        SameStrings(payloads[0][2..], Two(payloads[0]));
      }
    }
  }

  /** The names a client reads out of the answer are the listing. */
  lemma WordsAnswered(id: nat, seqNo: nat, env: Environment)
    requires env.words.Names? && forall k :: 0 <= k < |env.words.names| ==> 2 + |env.words.names[k]| <= 1022
    ensures var ms := RequestReply(id, WORDS_REQ, seqNo, [], env).messages;
      && ListedInAll(PayloadsOf(ms, VALUE_EVT)) == env.words.names
      && PayloadsOf(ms, VALUE_EVT) != []
      && PayloadsOf(ms, ERROR_EVT) == [] && PayloadsOf(ms, INTERRUPTED_EVT) == []
  {
    hide PayloadsOf, ListedInAll, WordsChunks, ReadWordsChunks;
    var names := env.words.names;
    assert forall k :: 0 <= k < |names| ==> Fits(names[k]);
    WordsChunksWhole(names);
    SameListing(WordsChunks(names));
    ValuesTold(id, seqNo, WordsChunks(names));
  }

  lemma SeeCarries(name: seq<Byte>, view: View, piece: seq<Byte>)
    requires view.View? && |name| < 0x1_0000 && |piece| < 0x1_0000
    ensures CarriesView(SeePayload(name, view, piece), name, view.overlay, view.kind, piece)
  {
    hide Str, Carries;
    var payload := SeePayload(name, view, piece);
    assert payload[..2 + |name|] == Str(name);
    assert payload[4 + |name|..] == Str(piece);
    StrCarries(name);
    StrCarries(piece);
  }

  /** Every value event carries the name, its marks and a piece of the text, and the pieces
      together are the whole text. */
  lemma SeeAnswered(id: nat, seqNo: nat, payload: seq<Byte>, env: Environment, name: seq<Byte>) returns (pieces: seq<seq<Byte>>)
    requires StringPayload(payload) == Argument(name) && env.view.View?
    requires |name| + 6 < MAX_PAYLOAD || (|name| + 6 == MAX_PAYLOAD && env.view.text == [])
    ensures var ms := RequestReply(id, SEE_REQ, seqNo, payload, env).messages;
      var values := PayloadsOf(ms, VALUE_EVT);
      && |values| == |pieces| > 0 && Concat(pieces) == env.view.text
      && (forall k :: 0 <= k < |values| ==> CarriesView(values[k], name, env.view.overlay, env.view.kind, pieces[k]))
      && PayloadsOf(ms, ERROR_EVT) == [] && PayloadsOf(ms, INTERRUPTED_EVT) == []
  {
    hide PayloadsOf, StringPayload, SeeChunks, SeePayload, CarriesView, Concat;
    var room: nat := MAX_PAYLOAD - SeeHeaderSize(name);
    pieces := SeeChunks(env.view.text, room);
    SeeChunksWhole(env.view.text, room);
    SeePayloadsAt(name, env.view, pieces);
    ValuesTold(id, seqNo, SeePayloads(name, env.view, pieces));
    forall k | 0 <= k < |pieces| ensures CarriesView(SeePayload(name, env.view, pieces[k]), name, env.view.overlay, env.view.kind, pieces[k]) {
      SeeCarries(name, env.view, pieces[k]);
    }
  }

  // ----- requests that are refused -----

  datatype Complaint = NoComplaint | Complaint(phase: nat, fault: int, text: string)

  /** What is wrong with a request that is not answered otherwise: a payload it should not have,
      a string it should have, or a name or a list that cannot be shown. */
  function ComplaintAbout(kind: Byte, payload: seq<Byte>, env: Environment): Complaint {
    var argument := StringPayload(payload);
    if kind == EVAL_REQ then
      if argument.BadArgument? then Complaint(1, argument.fault, "bad EVAL payload") else NoComplaint
    else if kind == WORDS_REQ then
      if payload != [] then Complaint(1, 108, "bad WORDS payload")
      else if env.words.NoNames? then Complaint(4, env.words.fault, "words failed")
      else if exists k :: 0 <= k < |env.words.names| && |env.words.names[k]| > 1020 then Complaint(4, 250, "words failed")
      else NoComplaint
    else if kind == SEE_REQ then
      if argument.BadArgument? then Complaint(1, argument.fault, "bad SEE payload")
      else if env.view.NoView? then Complaint(4, env.view.fault, "see failed")
      else if |argument.text| > 1018 || (|argument.text| == 1018 && env.view.text != []) then Complaint(4, 250, "see failed")
      else NoComplaint
    else if kind == RESET_REQ then
      if payload != [] then Complaint(1, 108, "bad RESET payload")
      else if |env.resetValue| > 1024 then Complaint(1, 250, "reset failed") else NoComplaint
    else if kind == SAVE_REQ then if payload != [] then Complaint(1, 108, "bad SAVE payload") else NoComplaint
    else if kind == RESTORE_REQ then if payload != [] then Complaint(1, 108, "bad RESTORE payload") else NoComplaint
    else if kind == WIPE_REQ then if payload != [] then Complaint(1, 108, "bad WIPE payload") else NoComplaint
    else if kind == CORE_REQ then
      if argument.BadArgument? then Complaint(1, argument.fault, "bad CORE payload")
      else if env.argument.Failing? then Complaint(4, env.argument.fault, "core failed") else NoComplaint
    else if kind == SLOT_INFO_REQ then
      if argument.BadArgument? then Complaint(1, argument.fault, "bad SLOT_INFO payload")
      else if env.argument.Failing? then Complaint(4, env.argument.fault, "slot info failed") else NoComplaint
    else if kind == DETACH_REQ then if payload != [] then Complaint(1, 108, "bad DETACH payload") else NoComplaint
    else Complaint(1, 256, "unknown request")
  }

  lemma RefusalTold(id: nat, seqNo: nat, phase: Phase, fault: Fault, detail: Detail, c: Complaint)
    requires c == Complaint(PhaseNumber(phase), fault, DetailText(detail))
    ensures Complains(Refusal(id, seqNo, phase, fault, detail).messages, c)
  {
    hide CarriesError, ErrorPayload;
    var first, last := ErrorEvent(id, seqNo, phase, fault, detail), IdleEvent(id, seqNo);
    OnePayload(first, last, VALUE_EVT);
    OnePayload(first, last, ERROR_EVT);
    OnePayload(first, last, INTERRUPTED_EVT);
    ErrorCarries(phase, fault, detail);
  }

  /** One error event that carries the complaint, and no value. */
  ghost predicate Complains(messages: seq<Message>, c: Complaint)
    requires c.Complaint?
  {
    var errors := PayloadsOf(messages, ERROR_EVT);
    && |errors| == 1 && CarriesError(errors[0], c.phase, c.fault, c.text)
    && PayloadsOf(messages, VALUE_EVT) == [] && PayloadsOf(messages, INTERRUPTED_EVT) == []
  }

  /** A request with something wrong is told so, and in no other way; it is not run. */
  lemma RefusedAnswered(id: nat, kind: Byte, seqNo: nat, payload: seq<Byte>, env: Environment)
    requires ComplaintAbout(kind, payload, env).Complaint?
    ensures Complains(RequestReply(id, kind, seqNo, payload, env).messages, ComplaintAbout(kind, payload, env))
    ensures !Runs(kind, payload, env)
  {
    hide StringPayload, Complains, RunReply, WordsChunks, SeeChunks, Refusal;
    forall phase: Phase, fault: Fault, detail: Detail
      ensures Complains(Refusal(id, seqNo, phase, fault, detail).messages, Complaint(PhaseNumber(phase), fault, DetailText(detail)))
    {
      RefusalTold(id, seqNo, phase, fault, detail, Complaint(PhaseNumber(phase), fault, DetailText(detail)));
    }
  }

  /** A request in sequence that is answered makes the next number the one expected, after 65535
      the number 1; a detach and an answer that fails leave the session as it was. */
  lemma Advances(s: State, h: Header, payload: seq<Byte>, env: Environment)
    requires s.bound && h.session == s.id && h.seqNo == s.next
    ensures var r := React(s, h, payload, env);
      && (r.detach <==> h.kind == DETACH_REQ && payload == [])
      && r.state.bound && r.state.id == s.id
      && r.state.next == if r.detach || r.status.Failing? then s.next else if s.next == 65535 then 1 else s.next + 1
  {
    hide RequestReply;
  }

  /** A request out of sequence is refused and changes nothing. */
  lemma OutOfSequence(s: State, h: Header, payload: seq<Byte>, env: Environment)
    requires s.bound && h.session == s.id && h.seqNo != s.next
    ensures var r := React(s, h, payload, env);
      Complains(r.messages, Complaint(1, 108, "unexpected sequence")) && r.state == s && r.status.Fine? && !r.detach
  {
    hide Complains, Refusal;
    RefusalTold(s.id, h.seqNo, InControl, SIGNATURE, UnexpectedSequence, Complaint(1, 108, "unexpected sequence"));
    RefusalFine(s.id, h.seqNo, InControl, SIGNATURE, UnexpectedSequence);
  }

  lemma RefusalFine(id: nat, seqNo: nat, phase: Phase, fault: Fault, detail: Detail)
    ensures Refusal(id, seqNo, phase, fault, detail).status.Fine?
  {
  }

  /** A reset answers with its value, once. */
  lemma ResetAnswered(id: nat, seqNo: nat, env: Environment)
    requires |env.resetValue| <= MAX_PAYLOAD
    ensures Told(RequestReply(id, RESET_REQ, seqNo, [], env).messages, [env.resetValue], [], [])
  {
    OnePayload(Event(VALUE_EVT, id, seqNo, env.resetValue), IdleEvent(id, seqNo), VALUE_EVT);
    OnePayload(Event(VALUE_EVT, id, seqNo, env.resetValue), IdleEvent(id, seqNo), ERROR_EVT);
    OnePayload(Event(VALUE_EVT, id, seqNo, env.resetValue), IdleEvent(id, seqNo), INTERRUPTED_EVT);
  }

  /** The greeting that opens a session is answered with its value, once, and binds the session
      to the number it names; the first request is then expected. */
  lemma HelloAnswered(s: State, h: Header, env: Environment)
    requires !s.bound && h.kind == HELLO_REQ && h.session != 0 && h.seqNo == 0 && |env.helloValue| <= MAX_PAYLOAD
    ensures var r := React(s, h, [], env);
      && PayloadsOf(r.messages, HELLO_EVT) == [env.helloValue] && Told(r.messages, [], [], [])
      && r.state == State(true, h.session, 1) && r.status.Fine? && !r.detach
  {
    var first, last := Event(HELLO_EVT, h.session, h.seqNo, env.helloValue), IdleEvent(h.session, h.seqNo);
    OnePayload(first, last, HELLO_EVT);
    OnePayload(first, last, VALUE_EVT);
    OnePayload(first, last, ERROR_EVT);
    OnePayload(first, last, INTERRUPTED_EVT);
  }
}

/**
 The control session as the device runs it: an object that answers each request by
 sending frames through its port, held to the protocol of `Session`.
 */
module Control {
  import opened Bytes
  import opened Cobs
  import opened Frame
  import opened Link
  import opened Session

  function WireOf(messages: seq<Message>): seq<Byte> {
    if messages == [] then []
    else
      var last := messages[|messages| - 1];
      WireOf(messages[..|messages| - 1]) + Sent(last.header, last.payload)
  }

  lemma WireOfAppend(messages: seq<Message>, m: Message)
    ensures WireOf(messages + [m]) == WireOf(messages) + Sent(m.header, m.payload)
  {
    assert (messages + [m])[..|messages|] == messages;
  }

  ghost predicate Addressable(id: nat, seqNo: nat) { id < Range(8) && seqNo < Range(2) }

  /** The requests in a stream, each with what the runtime contributes to its answer. */
  function Requests(events: seq<Arrival>, envs: nat -> Environment, count: nat): seq<Request>
    decreases |events|
  {
    var (got, rest) := Read(events, false, []);
    if got.Received? then [Request(got.header, got.payload, envs(count))] + Requests(rest, envs, count + 1) else []
  }

  const UNBOUND: State := State(false, 0, 0)

  class Controller {
    const port: Port
    const outputBuf: array<Byte>
    var bound: bool
    var sessionId: nat
    var nextSeq: nat
    var activeSeq: nat
    var outputLen: nat
    ghost var sent: seq<Message>

    ghost predicate Valid()
      reads this, port
    {
      && port.Valid()
      && outputBuf.Length == OUTPUT_CAP && outputLen <= OUTPUT_CAP
      && outputBuf != port.rawFrame && outputBuf != port.cobsFrame && outputBuf != port.rxFrame
      && port.wire == WireOf(sent)
      && sessionId < Range(8) && activeSeq < Range(2)
      && (bound ==> 1 <= nextSeq <= 0xffff)
    }

    ghost function Held(): seq<Byte>
      reads this, outputBuf
      requires outputLen <= outputBuf.Length
    {
      outputBuf[..outputLen]
    }

    ghost function Protocol(): State
      reads this
    {
      State(bound, sessionId, nextSeq)
    }

    constructor ()
      ensures Valid() && sent == [] && !bound && fresh(port) && fresh(outputBuf)
      ensures fresh(port.rawFrame) && fresh(port.cobsFrame) && fresh(port.rxFrame)
    {
      port := new Port();
      outputBuf := new Byte[OUTPUT_CAP];
      bound, sessionId, nextSeq, activeSeq, outputLen := false, 0, 0, 0, 0;
      sent := [];
      new;
      Ranges();
    }

    method Send(kind: Byte, id: nat, seqNo: nat, payload: seq<Byte>) returns (status: Status)
      requires Valid() && Addressable(id, seqNo) && HEADER_SIZE + |payload| < 0x1_0000
      modifies this`sent, port, port.rawFrame, port.cobsFrame
      ensures Valid() && outputBuf[..] == old(outputBuf[..])
      ensures status == if |payload| <= MAX_PAYLOAD then Fine else Failing(LINK_OVERFLOW)
      ensures sent == old(sent) + if |payload| <= MAX_PAYLOAD then [Event(kind, id, seqNo, payload)] else []
    {
      hide WireOf, Sent, Range;
      Ranges();
      var err := port.SendFrame(Header(kind, id, seqNo), payload);
      if err != NoError {
        return Failing(LINK_OVERFLOW);
      }
      WireOfAppend(sent, Event(kind, id, seqNo, payload));
      sent := sent + [Event(kind, id, seqNo, payload)];
      status := Fine;
    }

    method SendIdle(id: nat, seqNo: nat)
      requires Valid() && Addressable(id, seqNo)
      modifies this`sent, port, port.rawFrame, port.cobsFrame
      ensures Valid() && outputBuf[..] == old(outputBuf[..])
      ensures sent == old(sent) + [IdleEvent(id, seqNo)]
    {
      hide WireOf, Range;
      var _ := Send(IDLE_EVT, id, seqNo, []);
    }

    method SendError(id: nat, seqNo: nat, phase: Phase, fault: Fault, detail: Detail)
      requires Valid() && Addressable(id, seqNo)
      modifies this`sent, port, port.rawFrame, port.cobsFrame
      ensures Valid() && outputBuf[..] == old(outputBuf[..])
      ensures sent == old(sent) + [ErrorEvent(id, seqNo, phase, fault, detail)]
    {
      hide WireOf, Range;
      var _ := Send(ERROR_EVT, id, seqNo, ErrorPayload(phase, fault, detail));
    }

    /** An error and the IDLE that closes the request. */
    method Refuse(id: nat, seqNo: nat, phase: Phase, fault: Fault, detail: Detail)
      requires Valid() && Addressable(id, seqNo)
      modifies this`sent, port, port.rawFrame, port.cobsFrame
      ensures Valid() && outputBuf[..] == old(outputBuf[..])
      ensures sent == old(sent) + Refusal(id, seqNo, phase, fault, detail).messages
    {
      hide WireOf, Range, ErrorPayload;
      SendError(id, seqNo, phase, fault, detail);
      SendIdle(id, seqNo);
    }

    // ----- output -----

    /** Sends the captured bytes; outside a request, or with none, it does nothing. */
    method SendOutput() returns (status: Status)
      requires Valid()
      modifies this`sent, this`outputLen, port, port.rawFrame, port.cobsFrame
      ensures Valid() && status == Fine && outputBuf[..] == old(outputBuf[..])
      ensures sent == old(sent) + if old(outputLen) == 0 || activeSeq == 0 then []
                                  else [Event(OUTPUT_EVT, sessionId, activeSeq, Str(old(Held())))]
      ensures outputLen == if activeSeq == 0 then old(outputLen) else 0
    {
      hide WireOf, Range, Little;
      if outputLen == 0 || activeSeq == 0 {
        return Fine;
      }
      Ranges();
      var payload := Str(outputBuf[..outputLen]);
      outputLen := 0;
      status := Send(OUTPUT_EVT, sessionId, activeSeq, payload);
    }

    /** The hook the platform calls with each byte a program writes. */
    method CaptureOutput(b: Byte) returns (status: Status)
      requires Valid() && activeSeq != 0
      modifies this`sent, this`outputLen, port, port.rawFrame, port.cobsFrame, outputBuf
      ensures Valid() && status == Fine && outputLen < OUTPUT_CAP
      ensures old(outputLen) < OUTPUT_CAP ==>
        var now := old(Held()) + [b];
        var full := b == NEWLINE || |now| >= OUTPUT_CAP;
        && sent == old(sent) + OutputEvents(sessionId, activeSeq, if full then [now] else [])
        && Held() == if full then [] else now
    {
      hide WireOf, Range, Str;
      if outputLen >= OUTPUT_CAP {
        status := SendOutput();
      }
      ghost var held := Held();
      outputBuf[outputLen] := b;
      outputLen := outputLen + 1;
      assert Held() == held + [b];
      OneOutputEvent(sessionId, activeSeq, held + [b]);
      status := Fine;
      if b == NEWLINE || outputLen >= OUTPUT_CAP {
        status := SendOutput();
      }
    }

    method StartCapture(seqNo: nat)
      requires Valid() && seqNo < Range(2)
      modifies this`activeSeq, this`outputLen
      ensures Valid() && activeSeq == seqNo && outputLen == 0
    {
      activeSeq := seqNo;
      outputLen := 0;
    }

    method StopCapture() returns (status: Status)
      requires Valid()
      modifies this`sent, this`outputLen, this`activeSeq, port, port.rawFrame, port.cobsFrame
      ensures Valid() && status == Fine && activeSeq == 0 && outputLen == 0
      ensures sent == old(sent) + if old(outputLen) == 0 || old(activeSeq) == 0 then []
                                  else [Event(OUTPUT_EVT, sessionId, old(activeSeq), Str(old(Held())))]
    {
      hide WireOf, Range, Str;
      status := SendOutput();
      ZeroInRange();
      activeSeq := 0;
      outputLen := 0;
    }

    /** What the running program writes leaves in pieces, and nothing stays behind. */
    method RunCaptured(seqNo: nat, output: seq<Byte>)
      requires Valid() && 0 < seqNo < Range(2)
      modifies this`sent, this`outputLen, this`activeSeq, port, port.rawFrame, port.cobsFrame, outputBuf
      ensures Valid() && activeSeq == 0
      ensures sent == old(sent) + OutputEvents(sessionId, seqNo, Chunks([], output))
    {
      hide WireOf, Range, Chunks, OutputEvents, Str;
      StartCapture(seqNo);
      var i: nat := 0;
      ghost var parts: seq<seq<Byte>> := [];
      assert output[0..] == output;
      assert Held() == [];
      NoParts(sessionId, seqNo, Chunks([], output));
      while i < |output|
        invariant i <= |output| && Valid() && activeSeq == seqNo && outputLen < OUTPUT_CAP
        invariant sent == old(sent) + OutputEvents(sessionId, seqNo, parts)
        invariant Chunks([], output) == parts + Chunks(Held(), output[i..])
      {
        ghost var held := Held();
        assert output[i..] == [output[i]] + output[i + 1..];
        ChunksStep(held, output[i], output[i + 1..]);
        ghost var full := output[i] == NEWLINE || |held| + 1 >= OUTPUT_CAP;
        ghost var more := if full then [held + [output[i]]] else [];
        OutputEventsConcat(sessionId, seqNo, parts, more);
        var _ := CaptureOutput(output[i]);
        parts := parts + more;
        i := i + 1;
      }
      assert output[i..] == [];
      ghost var held := Held();
      ChunksEnd(held);
      OneOutputEvent(sessionId, seqNo, held);
      OutputEventsConcat(sessionId, seqNo, parts, Chunks(held, []));
      var _ := StopCapture();
    }

    // ----- handlers -----

    /** The answer to a request that ran; a value too long for a frame fails the session. */
    method Conclude(seqNo: nat, env: Environment, phase: Phase, detail: Detail) returns (status: Status)
      requires Valid() && 0 < seqNo < Range(2)
      modifies this`sent, this`outputLen, this`activeSeq, port, port.rawFrame, port.cobsFrame, outputBuf
      ensures Valid()
      ensures var r := RunReply(sessionId, seqNo, env, phase, detail);
        sent == old(sent) + r.messages && status == r.status
    {
      hide WireOf, Range, Chunks, OutputEvents, Refusal, Str;
      RunCaptured(seqNo, env.output);
      ghost var output := OutputEvents(sessionId, seqNo, Chunks([], env.output));
      Ranges();
      match env.answer {
        case Stopped =>
          var _ := Send(INTERRUPTED_EVT, sessionId, seqNo, []);
          SendIdle(sessionId, seqNo);
          return Fine;
        case Faulted(fault, _) =>
          Refuse(sessionId, seqNo, phase, fault, detail);
          return Fine;
        case Unrendered(fault) =>
          return Failing(fault);
        case Rendered(text) =>
          if |text| >= 0x1_0000 {
            return Failing(LINK_TOO_LARGE);
          }
          if 2 + |text| > MAX_PAYLOAD {
            return Failing(LINK_OVERFLOW);
          }
          status := Send(VALUE_EVT, sessionId, seqNo, Str(text));
          SendIdle(sessionId, seqNo);
      }
    }

    method HandleBuiltin(seqNo: nat, payload: seq<Byte>, env: Environment, bad: Detail, failed: Detail)
      returns (status: Status)
      requires Valid() && 0 < seqNo < Range(2)
      modifies this`sent, this`outputLen, this`activeSeq, port, port.rawFrame, port.cobsFrame, outputBuf
      ensures Valid()
      ensures var r := BuiltinReply(sessionId, seqNo, payload, env, bad, failed);
        sent == old(sent) + r.messages && status == r.status
    {
      hide WireOf, Range, RunReply;
      if payload != [] {
        Refuse(sessionId, seqNo, InControl, SIGNATURE, bad);
        return Fine;
      }
      status := Conclude(seqNo, env, InEval, failed);
    }

    method HandleArgument(seqNo: nat, payload: seq<Byte>, env: Environment, bad: Detail, failed: Detail)
      returns (status: Status)
      requires Valid() && 0 < seqNo < Range(2)
      modifies this`sent, this`outputLen, this`activeSeq, port, port.rawFrame, port.cobsFrame, outputBuf
      ensures Valid()
      ensures var r := ArgumentReply(sessionId, seqNo, payload, env, bad, failed);
        sent == old(sent) + r.messages && status == r.status
    {
      hide WireOf, Range, RunReply, StringPayload;
      match StringPayload(payload) {
        case BadArgument(fault) =>
          Refuse(sessionId, seqNo, InControl, fault, bad);
          return Fine;
        case Argument(_) =>
          if env.argument.Failing? {
            Refuse(sessionId, seqNo, InInspect, env.argument.fault, failed);
            return Fine;
          }
          status := Conclude(seqNo, env, InInspect, failed);
      }
    }

    method HandleEval(seqNo: nat, payload: seq<Byte>, env: Environment) returns (status: Status)
      requires Valid() && 0 < seqNo < Range(2)
      modifies this`sent, this`outputLen, this`activeSeq, port, port.rawFrame, port.cobsFrame, outputBuf
      ensures Valid()
      ensures var r := EvalReply(sessionId, seqNo, payload, env);
        sent == old(sent) + r.messages && status == r.status
    {
      hide WireOf, Range, RunReply, StringPayload;
      match StringPayload(payload) {
        case BadArgument(fault) =>
          Refuse(sessionId, seqNo, InControl, fault, BadEval);
          return Fine;
        case Argument(_) =>
          var phase, detail := InEval, EvaluationFailed;
          if env.answer.Faulted? && env.answer.parsing {
            phase, detail := InParse, ParseFailed;
          }
          status := Conclude(seqNo, env, phase, detail);
      }
    }

    /** Packs as many names as fit into each payload, until all are sent. */
    /** The names from number `i` on that one chunk has room for, each behind its length. */
    method GatherWords(names: seq<seq<Byte>>, i: nat) returns (count: nat, strings: seq<Byte>)
      requires i <= |names| && AllFit(names[i..])
      ensures i + count <= |names| && count == Taken(names[i..], WORDS_ROOM)
      ensures strings == Strs(names[i..][..count]) && |strings| <= WORDS_ROOM
    {
      hide Strs, Taken, Fits;
      ghost var rest := names[i..];
      strings, count := [], 0;
      TakenNone(rest);
      while i + count < |names| && 2 + |strings| + 2 + |names[i + count]| <= MAX_PAYLOAD
        invariant count <= |rest| && strings == Strs(rest[..count]) && |strings| <= WORDS_ROOM
        invariant Taken(rest, WORDS_ROOM) == count + Taken(rest[count..], WORDS_ROOM - |strings|)
      {
        assert names[i + count] == rest[count];
        TakenOne(rest, count, WORDS_ROOM - |strings|);
        strings := strings + Str(names[i + count]);
        count := count + 1;
      }
      if i + count < |names| {
        assert names[i + count] == rest[count] == rest[count..][0];
      }
      TakenStops(rest[count..], WORDS_ROOM - |strings|);
    }

    method SendWords(seqNo: nat, names: seq<seq<Byte>>) returns (status: Status)
      requires Valid() && 0 < seqNo < Range(2)
      modifies this`sent, port, port.rawFrame, port.cobsFrame
      ensures Valid()
      ensures var fit := forall k :: 0 <= k < |names| ==> Fits(names[k]);
        && status == (if fit then Fine else Failing(LINK_OVERFLOW))
        && sent == old(sent) + if fit then ValueEvents(sessionId, seqNo, WordsChunks(names)) else []
    {
      hide WireOf, Range, WordsChunks, ValueEvents, Little, Strs, Taken, WordsChunk, Fits;
      var i: nat := 0;
      while i < |names|
        invariant i <= |names|
        invariant forall k :: 0 <= k < i ==> Fits(names[k])
        modifies {}
      {
        if 2 + |names[i]| > MAX_PAYLOAD - 2 {
          TooLong(names, i);
          return Failing(LINK_OVERFLOW);
        }
        OneFits(names[i]);
        i := i + 1;
      }
      i := 0;
      ghost var chunks: seq<seq<Byte>> := [];
      assert names[0..] == names;
      NoValues(sessionId, seqNo, WordsChunks(names));
      Ranges();
      while true
        invariant i <= |names| && Valid() && AllFit(names[i..])
        invariant sent == old(sent) + ValueEvents(sessionId, seqNo, chunks)
        invariant WordsChunks(names) == chunks + WordsChunks(names[i..])
        decreases |names| - i
      {
        ghost var rest := names[i..];
        var count, strings := GatherWords(names, i);
        WordsChunkIs(rest[..count], strings);
        WordsChunksUnfold(rest);
        OneMoreValue(sessionId, seqNo, chunks, WordsChunk(rest[..count]));
        status := Send(VALUE_EVT, sessionId, seqNo, Little(count, 2) + strings);
        chunks := chunks + [WordsChunk(rest[..count])];
        i := i + count;
        if i == |names| {
          return Fine;
        }
        assert rest[count..] == names[i..];
        SomeTaken(rest);
      }
    }

    method HandleWords(seqNo: nat, payload: seq<Byte>, listing: Listing) returns (status: Status)
      requires Valid() && 0 < seqNo < Range(2)
      modifies this`sent, port, port.rawFrame, port.cobsFrame
      ensures Valid()
      ensures var r := WordsReply(sessionId, seqNo, payload, listing);
        sent == old(sent) + r.messages && status == r.status
    {
      hide WireOf, Range, WordsChunks, ValueEvents, Fits;
      if payload != [] {
        Refuse(sessionId, seqNo, InControl, SIGNATURE, BadWords);
        return Fine;
      }
      match listing {
        case NoNames(fault) =>
          Refuse(sessionId, seqNo, InInspect, fault, WordsFailed);
        case Names(names) =>
          status := SendWords(seqNo, names);
          if status.Failing? {
            Refuse(sessionId, seqNo, InInspect, status.fault, WordsFailed);
            return Fine;
          }
          SendIdle(sessionId, seqNo);
      }
      status := Fine;
    }

    /** Sends the text of a word in pieces, each behind the name it belongs to. */
    method SendSee(seqNo: nat, name: seq<Byte>, view: View) returns (status: Status)
      requires Valid() && 0 < seqNo < Range(2) && view.View?
      modifies this`sent, port, port.rawFrame, port.cobsFrame
      ensures Valid()
      ensures var size := SeeHeaderSize(name);
        var fit := size <= MAX_PAYLOAD && (view.text == [] || size < MAX_PAYLOAD);
        && status == (if fit then Fine else Failing(LINK_OVERFLOW))
        && sent == old(sent) +
             if fit then ValueEvents(sessionId, seqNo, SeePayloads(name, view, SeeChunks(view.text, MAX_PAYLOAD - size))) else []
    {
      hide WireOf, Range, SeeChunks, ValueEvents, SeePayloads, Str;
      if SeeHeaderSize(name) > MAX_PAYLOAD {
        return Failing(LINK_OVERFLOW);
      }
      var available: nat := MAX_PAYLOAD - SeeHeaderSize(name);
      if |view.text| > 0 && available == 0 {
        return Failing(LINK_OVERFLOW);
      }
      var offset: nat := 0;
      var text := view.text;
      ghost var all := SeePayloads(name, view, SeeChunks(text, available));
      ghost var done: seq<seq<Byte>> := [];
      assert text[0..] == text;
      NoValues(sessionId, seqNo, all);
      Ranges();
      while true
        invariant offset <= |text| && Valid() && (available > 0 || text == [])
        invariant sent == old(sent) + ValueEvents(sessionId, seqNo, done)
        invariant all == done + SeePayloads(name, view, SeeChunks(text[offset..], available))
        decreases |text| - offset
      {
        ghost var rest := text[offset..];
        SeeChunksUnfold(name, view, rest, available);
        var length: nat := |text| - offset;
        if length > available {
          length := available;
        }
        var chunk := text[offset..offset + length];
        assert chunk == rest[..length] && rest[length..] == text[offset + length..];
        OneMoreValue(sessionId, seqNo, done, SeePayload(name, view, chunk));
        status := Send(VALUE_EVT, sessionId, seqNo, SeePayload(name, view, chunk));
        done := done + [SeePayload(name, view, chunk)];
        offset := offset + length;
        if offset == |text| {
          assert chunk == rest;
          return Fine;
        }
      }
    }

    method HandleSee(seqNo: nat, payload: seq<Byte>, view: View) returns (status: Status)
      requires Valid() && 0 < seqNo < Range(2)
      modifies this`sent, port, port.rawFrame, port.cobsFrame
      ensures Valid()
      ensures var r := SeeReply(sessionId, seqNo, payload, view);
        sent == old(sent) + r.messages && status == r.status
    {
      hide WireOf, Range, SeeChunks, ValueEvents, SeePayloads, StringPayload;
      match StringPayload(payload) {
        case BadArgument(fault) =>
          Refuse(sessionId, seqNo, InControl, fault, BadSee);
        case Argument(name) =>
          if view.NoView? {
            Refuse(sessionId, seqNo, InInspect, view.fault, SeeFailed);
            return Fine;
          }
          status := SendSee(seqNo, name, view);
          if status.Failing? {
            Refuse(sessionId, seqNo, InInspect, status.fault, SeeFailed);
            return Fine;
          }
          SendIdle(sessionId, seqNo);
      }
      status := Fine;
    }

    method HandleReset(seqNo: nat, payload: seq<Byte>, value: seq<Byte>) returns (status: Status)
      requires Valid() && 0 < seqNo < Range(2) && HEADER_SIZE + |value| < 0x1_0000
      modifies this`sent, port, port.rawFrame, port.cobsFrame
      ensures Valid()
      ensures var r := ResetReply(sessionId, seqNo, payload, value);
        sent == old(sent) + r.messages && status == r.status
    {
      hide WireOf, Range;
      if payload != [] {
        Refuse(sessionId, seqNo, InControl, SIGNATURE, BadReset);
        return Fine;
      }
      status := Send(VALUE_EVT, sessionId, seqNo, value);
      if status.Failing? {
        Refuse(sessionId, seqNo, InControl, status.fault, ResetFailed);
        return Fine;
      }
      SendIdle(sessionId, seqNo);
    }

    method HandleDetach(seqNo: nat, payload: seq<Byte>) returns (detach: bool)
      requires Valid() && 0 < seqNo < Range(2)
      modifies this`sent, port, port.rawFrame, port.cobsFrame
      ensures Valid() && detach == (payload == [])
      ensures sent == old(sent) + DetachReply(sessionId, seqNo, payload).messages
    {
      hide WireOf, Range;
      if payload != [] {
        Refuse(sessionId, seqNo, InControl, SIGNATURE, BadDetach);
        return false;
      }
      SendIdle(sessionId, seqNo);
      detach := true;
    }

    /** The request that is next in sequence. */
    method HandleRequest(h: Header, payload: seq<Byte>, env: Environment) returns (status: Status, detach: bool)
      requires Valid() && bound && h.session == sessionId && h.seqNo == nextSeq
      requires HEADER_SIZE + |env.resetValue| < 0x1_0000
      modifies this`sent, this`outputLen, this`activeSeq, port, port.rawFrame, port.cobsFrame, outputBuf
      ensures Valid()
      ensures var r := RequestReply(sessionId, h.kind, h.seqNo, payload, env);
        sent == old(sent) + r.messages && status == r.status
      ensures detach == (h.kind == DETACH_REQ && payload == [])
    {
      hide WireOf, Range, EvalReply, WordsReply, SeeReply, ResetReply, BuiltinReply, ArgumentReply;
      Ranges();
      detach := false;
      if h.kind == EVAL_REQ {
        status := HandleEval(h.seqNo, payload, env);
      } else if h.kind == WORDS_REQ {
        status := HandleWords(h.seqNo, payload, env.words);
      } else if h.kind == SEE_REQ {
        status := HandleSee(h.seqNo, payload, env.view);
      } else if h.kind == RESET_REQ {
        status := HandleReset(h.seqNo, payload, env.resetValue);
      } else if h.kind == SAVE_REQ {
        status := HandleBuiltin(h.seqNo, payload, env, BadSave, SaveFailed);
      } else if h.kind == RESTORE_REQ {
        status := HandleBuiltin(h.seqNo, payload, env, BadRestore, RestoreFailed);
      } else if h.kind == WIPE_REQ {
        status := HandleBuiltin(h.seqNo, payload, env, BadWipe, WipeFailed);
      } else if h.kind == CORE_REQ {
        status := HandleArgument(h.seqNo, payload, env, BadCore, CoreFailed);
      } else if h.kind == SLOT_INFO_REQ {
        status := HandleArgument(h.seqNo, payload, env, BadSlotInfo, SlotInfoFailed);
      } else if h.kind == DETACH_REQ {
        detach := HandleDetach(h.seqNo, payload);
        status := Fine;
      } else {
        Refuse(sessionId, h.seqNo, InControl, UNKNOWN_TYPE, UnknownRequest);
        status := Fine;
      }
    }

    /** One received frame, whatever it asks for. */
    method Dispatch(h: Header, payload: seq<Byte>, env: Environment) returns (status: Status, detach: bool)
      requires Valid() && Addressable(h.session, h.seqNo)
      requires HEADER_SIZE + |env.resetValue| < 0x1_0000 && HEADER_SIZE + |env.helloValue| < 0x1_0000
      modifies this, port, port.rawFrame, port.cobsFrame, outputBuf
      ensures Valid() && old(sent) <= sent
      ensures React(old(Protocol()), h, payload, env)
           == Reaction(Protocol(), sent[|old(sent)|..], status, detach)
    {
      hide WireOf, Range, RequestReply, Refusal;
      status, detach := Fine, false;
      ghost var before := sent;
      assert sent[|before|..] == [];
      if !bound {
        if h.kind != HELLO_REQ || h.session == 0 || h.seqNo != 0 {
          return;
        }
        if payload != [] {
          Refuse(h.session, h.seqNo, InControl, SIGNATURE, BadHello);
          return;
        }
        bound, sessionId, nextSeq := true, h.session, 1;
        status := Send(HELLO_EVT, sessionId, h.seqNo, env.helloValue);
        if status.Failing? {
          return;
        }
        SendIdle(sessionId, h.seqNo);
        return;
      }
      if h.session != sessionId {
        return;
      }
      if h.seqNo != nextSeq {
        Refuse(sessionId, h.seqNo, InControl, SIGNATURE, UnexpectedSequence);
        return;
      }
      status, detach := HandleRequest(h, payload, env);
      if status.Failing? {
        return;
      }
      if !detach {
        nextSeq := if nextSeq == 0xffff then 1 else nextSeq + 1;
      }
    }

    /**
     The session loop, from the first key to the end of the input, an interrupt, a
     detach or a failure: what it sends is the service of the requests in the stream.
     */
    method Run(events: seq<Arrival>, envs: nat -> Environment) returns (status: Status)
      requires Valid() && Protocol() == UNBOUND && sent == []
      requires forall i :: HEADER_SIZE + |envs(i).resetValue| < 0x1_0000 && HEADER_SIZE + |envs(i).helloValue| < 0x1_0000
      modifies this, port, port.rawFrame, port.cobsFrame, port.rxFrame, outputBuf
      ensures Valid()
      ensures sent == Serve(UNBOUND, Requests(events, envs, 0))
    {
      hide WireOf, Range, React, Serve, Requests, Read;
      var at: nat := 0;
      var count: nat := 0;
      status := Fine;
      assert events[0..] == events;
      while true
        invariant Valid() && at <= |events|
        invariant Serve(UNBOUND, Requests(events, envs, 0)) == sent + Serve(Protocol(), Requests(events[at..], envs, count))
        decreases |events| - at
      {
        ghost var before := sent;
        ghost var now := Protocol();
        ghost var left := events[at..];
        var got, used := port.ReadFrame(events[at..]);
        RequestsStep(left, envs, count, got, left[used..]);
        if !got.Received? {
          ServeNothing(now);
          return;
        }
        ReadBuilt(left, false, []);
        ReadShrinks(left, got, left[used..]);
        assert left[used..] == events[at + used..];
        ServeStep(now, Request(got.header, got.payload, envs(count)), Requests(left[used..], envs, count + 1));
        var detach;
        status, detach := Dispatch(got.header, got.payload, envs(count));
        assert sent == before + sent[|before|..];
        if status.Failing? || detach {
          return;
        }
        at := at + used;
        count := count + 1;
      }
    }
  }

  lemma ServeNothing(s: State)
    ensures Serve(s, []) == []
  {
  }

  lemma ReadShrinks(events: seq<Arrival>, got: Got, rest: seq<Arrival>)
    requires Read(events, false, []) == (got, rest) && got.Received?
    ensures |rest| < |events|
  {
    hide Read;
  }

  lemma RequestsStep(events: seq<Arrival>, envs: nat -> Environment, count: nat, got: Got, rest: seq<Arrival>)
    requires Read(events, false, []) == (got, rest)
    ensures got.Received? ==>
      Requests(events, envs, count) == [Request(got.header, got.payload, envs(count))] + Requests(rest, envs, count + 1)
    ensures !got.Received? ==> Requests(events, envs, count) == []
  {
    hide Read;
  }

  lemma ServeStep(s: State, request: Request, rest: seq<Request>)
    ensures var r := React(s, request.header, request.payload, request.env);
      Serve(s, [request] + rest) ==
        if r.status.Failing? || r.detach then r.messages else r.messages + Serve(r.state, rest)
  {
    hide React;
    assert ([request] + rest)[1..] == rest;
  }

  // ----- small facts -----

  lemma ZeroInRange()
    ensures 0 < Range(2)
  {
  }

  lemma OneOutputEvent(id: nat, seqNo: nat, part: seq<Byte>)
    ensures OutputEvents(id, seqNo, [part]) == [Event(OUTPUT_EVT, id, seqNo, Str(part))]
    ensures OutputEvents(id, seqNo, []) == []
  {
    hide Str;
    assert OutputEvents(id, seqNo, [part][1..]) == [];
  }

  lemma NoParts(id: nat, seqNo: nat, parts: seq<seq<Byte>>)
    ensures OutputEvents(id, seqNo, []) == [] && [] + parts == parts
  {
  }

  lemma ChunksStep(held: seq<Byte>, b: Byte, rest: seq<Byte>)
    ensures var now := held + [b];
      Chunks(held, [b] + rest) ==
        if b == NEWLINE || |now| >= OUTPUT_CAP then [now] + Chunks([], rest) else Chunks(now, rest)
  {
    assert ([b] + rest)[1..] == rest;
  }

  lemma ChunksEnd(held: seq<Byte>)
    ensures Chunks(held, []) == if held == [] then [] else [held]
  {
  }

  lemma NoValues(id: nat, seqNo: nat, payloads: seq<seq<Byte>>)
    ensures ValueEvents(id, seqNo, []) == [] && [] + payloads == payloads
  {
  }

  lemma {:induction false} OneMoreValue(id: nat, seqNo: nat, payloads: seq<seq<Byte>>, last: seq<Byte>)
    ensures ValueEvents(id, seqNo, payloads + [last]) == ValueEvents(id, seqNo, payloads) + [Event(VALUE_EVT, id, seqNo, last)]
  {
    if payloads == [] {
      assert payloads + [last] == [last] && [last][1..] == [];
    } else {
      assert (payloads + [last])[1..] == payloads[1..] + [last];
      OneMoreValue(id, seqNo, payloads[1..], last);
    }
  }

  predicate AllFit(names: seq<seq<Byte>>) { forall k :: 0 <= k < |names| ==> Fits(names[k]) }

  lemma TooLong(names: seq<seq<Byte>>, i: nat)
    requires i < |names| && 2 + |names[i]| > MAX_PAYLOAD - 2
    ensures !Fits(names[i])
  {
  }

  lemma OneFits(name: seq<Byte>)
    requires 2 + |name| <= MAX_PAYLOAD - 2
    ensures Fits(name)
  {
  }

  /** Every chunk takes at least one of the names that are left. */
  lemma SomeTaken(names: seq<seq<Byte>>)
    requires AllFit(names) && names != []
    ensures Taken(names, WORDS_ROOM) > 0 && AllFit(names[Taken(names, WORDS_ROOM)..])
  {
    assert Fits(names[0]);
  }

  lemma TakenNone(names: seq<seq<Byte>>)
    ensures Strs(names[..0]) == [] && names[0..] == names
  {
  }

  lemma TakenOne(names: seq<seq<Byte>>, count: nat, room: nat)
    requires count < |names| && 2 + |names[count]| <= room
    ensures Taken(names[count..], room) == 1 + Taken(names[count + 1..], room - 2 - |names[count]|)
    ensures Strs(names[..count + 1]) == Strs(names[..count]) + Str(names[count])
  {
    hide Str;
    assert names[count..][1..] == names[count + 1..];
    assert names[..count + 1] == names[..count] + [names[count]];
    StrsAppend(names[..count], names[count]);
  }

  lemma {:induction false} StrsAppend(names: seq<seq<Byte>>, last: seq<Byte>)
    ensures Strs(names + [last]) == Strs(names) + Str(last)
  {
    hide Str;
    if names == [] {
      assert names + [last] == [last] && [last][1..] == [];
    } else {
      assert (names + [last])[1..] == names[1..] + [last];
      StrsAppend(names[1..], last);
    }
  }

  lemma TakenStops(names: seq<seq<Byte>>, room: nat)
    requires names == [] || 2 + |names[0]| > room
    ensures Taken(names, room) == 0
  {
  }

  lemma WordsChunkIs(names: seq<seq<Byte>>, strings: seq<Byte>)
    requires strings == Strs(names)
    ensures WordsChunk(names) == Little(|names|, 2) + strings
  {
  }

  lemma WordsChunksUnfold(names: seq<seq<Byte>>)
    requires forall k :: 0 <= k < |names| ==> Fits(names[k])
    ensures var n := Taken(names, WORDS_ROOM);
      WordsChunks(names) == if n == |names| then [WordsChunk(names[..n])] else [WordsChunk(names[..n])] + WordsChunks(names[n..])
  {
    hide WordsChunk, Taken;
    var n := Taken(names, WORDS_ROOM);
    if n == |names| {
      assert names[..n] == names;
    }
  }

  lemma SeeChunksUnfold(name: seq<Byte>, view: View, text: seq<Byte>, available: nat)
    requires view.View? && (available > 0 || text == [])
    ensures SeePayloads(name, view, SeeChunks(text, available)) ==
      if |text| <= available then [SeePayload(name, view, text)]
      else [SeePayload(name, view, text[..available])] + SeePayloads(name, view, SeeChunks(text[available..], available))
  {
    hide SeePayload;
    if |text| <= available {
      assert [text][1..] == [];
    } else {
      var rest := SeeChunks(text[available..], available);
      assert ([text[..available]] + rest)[1..] == rest;
    }
  }
}

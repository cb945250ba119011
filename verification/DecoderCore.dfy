/**
 The incremental decoder (js/corereplay/src/decoder_core.ts) and the two ways to
 run it (js/corereplay/src/decode.ts, js/corereplay/src/stream.ts).
 */
module DecoderCore {
  import opened Common
  import opened Wire
  import opened ReplayFormat
  import opened ReplayParser
  import opened ReplayRoundTrip
  import opened ReplayStream
  import opened ByteReading

  // ---- What a caller puts together ----

  datatype ReplayData = ReplayData(header: Header, headerSize: u16, ticks: seq<Tick>, end: EndMarker)

  /** What a consumer of the events has put together so far. */
  datatype Gathered = Gathered(header: Option<(Header, u16)>, ticks: seq<Tick>, end: Option<EndMarker>) {
    function Plus(e: Event): Gathered {
      match e
      case HeaderEvent(h, size) => this.(header := Some((h, size)))
      case TickEvent(t) => this.(ticks := ticks + [t])
      case EndEvent(m) => this.(end := Some(m))
    }
  }

  function Gather(events: seq<Event>): Gathered {
    if events == [] then Gathered(None, [], None) else Gather(events[..|events| - 1]).Plus(events[|events| - 1])
  }

  lemma GatherOneMore(events: seq<Event>, e: Event)
    ensures Gather(events + [e]) == Gather(events).Plus(e)
  {
    assert (events + [e])[..|events|] == events;
  }

  /** A decoder that throws returns nothing else. */
  ghost predicate Answers(r: Result<ReplayData, ErrorCode>, a: Answer) {
    !Misanswers(r, a)
  }

  ghost predicate Misanswers(r: Result<ReplayData, ErrorCode>, a: Answer) {
    match a.error
    case Some(code) => r != Failure(code)
    case None =>
      var g := Gather(a.events);
      g.header.None? || g.end.None? || r != Success(ReplayData(g.header.value.0, g.header.value.1, g.ticks, g.end.value))
  }

  // ---- The decoder ----

  datatype ParsePhase = HeaderPhase | TickPhase | EndPhase

  datatype ReadResult = NeedMoreData | Got(event: Event)

  function Waiting(p: ParsePhase): Phase {
    if p == HeaderPhase then AwaitHeader else AwaitRecord
  }

  /** A read returned what the step says and left what it leaves; an error moves nothing. */
  ghost predicate Took(step: Step, r: Result<ReadResult, ErrorCode>, before: seq<u8>, unread: seq<u8>) {
    !Mistook(step, r, before, unread)
  }

  ghost predicate Mistook(step: Step, r: Result<ReadResult, ErrorCode>, before: seq<u8>, unread: seq<u8>) {
    match step
    case NeedMore => r != Success(NeedMoreData) || unread != before
    case Fail(code) => r != Failure(code) || unread != before
    case Yield(e, rest) => r != Success(Got(e)) || unread != rest
  }

  function PhaseAfter(step: Step, p: ParsePhase): ParsePhase {
    if !step.Yield? then p else if step.event.EndEvent? then EndPhase else TickPhase
  }

  lemma Window(b: seq<u8>, start: nat, from: nat, to: nat)
    requires from <= to && start + to <= |b|
    ensures b[start..][from..to] == b[start + from..start + to]
    ensures b[start..][to..] == b[start + to..]
  {
  }

  lemma TickWaits(d: Dialect, b: seq<u8>, start: nat)
    requires start + 9 <= |b| < start + 9 + GetU32(b[start + 5..])
    ensures NextTick(d, b[start..]) == NeedMore
  {
    assert b[start..][5..] == b[start + 5..];
  }

  lemma TickTaken(d: Dialect, b: seq<u8>, start: nat, tickId: u32, size: nat, payload: seq<u8>,
                  tick: Result<Tick, ErrorCode>)
    requires start + 9 + size <= |b| && tickId == GetU32(b[start + 1..]) && size == GetU32(b[start + 5..])
    requires payload == b[start + 9..start + 9 + size] && tick == ParsePayload(d, tickId, payload)
    ensures NextTick(d, b[start..]) == match tick
                                       case Failure(e) => Fail(e)
                                       case Success(t) => Yield(TickEvent(t), b[start + 9 + size..])
  {
    hide ParsePayload;
    Window(b, start, 9, 9 + size);
    assert b[start..][5..] == b[start + 5..] && b[start..][1..] == b[start + 1..];
  }

  class ReplayDecoderCore {
    const limits: Limits
    const strict: bool
    var phase: ParsePhase
    var buffer: seq<u8>
    var cursor: nat
    var bufferStart: nat
    var header: Option<(Header, u16)>
    var endMarker: Option<EndMarker>

    constructor (strict: bool, limits: Limits)
      ensures Valid() && phase == HeaderPhase && Unread() == []
      ensures this.strict == strict && this.limits == limits
    {
      this.strict := strict;
      this.limits := limits;
      phase := HeaderPhase;
      buffer := [];
      cursor := 0;
      bufferStart := 0;
      header := None;
      endMarker := None;
    }

    ghost predicate Valid()
      reads this
    {
      cursor <= |buffer| && (header.Some? <==> phase != HeaderPhase) && (endMarker.Some? <==> phase == EndPhase)
    }

    ghost function Unread(): seq<u8>
      requires Valid()
      reads this
    {
      buffer[cursor..]
    }

    /** Appends to the unread bytes; the bytes already read are dropped. */
    method Push(chunk: seq<u8>)
      requires Valid()
      modifies this`buffer, this`cursor
      ensures Valid() && Unread() == old(Unread()) + chunk
    {
      if |chunk| == 0 {
        assert Unread() + [] == Unread();
        return;
      }
      var unread := buffer[cursor..];
      buffer := unread + chunk;
      cursor := 0;
    }

    method Compact()
      requires Valid()
      modifies this`buffer, this`cursor, this`bufferStart
      ensures Valid() && Unread() == old(Unread()) && bufferStart + cursor == old(bufferStart + cursor)
      ensures cursor == 0 || cursor * 2 < |buffer|
    {
      if cursor == 0 {
        return;
      }
      if cursor * 2 >= |buffer| {
        bufferStart := bufferStart + cursor;
        buffer := buffer[cursor..];
        cursor := 0;
      }
    }

    method ReadHeader() returns (r: Result<ReadResult, ErrorCode>)
      requires Valid() && phase == HeaderPhase
      modifies this
      ensures Valid() && Took(NextHeader(Script(limits), old(Unread())), r, old(Unread()), Unread())
      ensures phase == PhaseAfter(NextHeader(Script(limits), old(Unread())), old(phase))
    {
      if |buffer| - cursor < 8 {
        return Success(NeedMoreData);
      }
      var size: int := GetU16(buffer[cursor + 6..]);
      assert buffer[cursor + 6..] == Unread()[6..];
      if |buffer| - cursor < 8 + size {
        return Success(NeedMoreData);
      }
      var parsed :- ParseHeaderAt(buffer[cursor..], limits);
      header := Some(parsed);
      cursor := cursor + (8 + size);
      phase := TickPhase;
      Compact();
      r := Success(Got(HeaderEvent(parsed.0, parsed.1)));
    }

    method ReadEnd() returns (r: Result<ReadResult, ErrorCode>)
      requires Valid() && phase == TickPhase && |Unread()| >= 1
      modifies this
      ensures Valid() && Took(NextEnd(Script(limits), old(Unread())), r, old(Unread()), Unread())
      ensures phase == PhaseAfter(NextEnd(Script(limits), old(Unread())), old(phase))
      ensures phase == EndPhase ==> endMarker == Some(NextEnd(Script(limits), old(Unread())).event.end)
    {
      if |buffer| - cursor < 3 {
        return Success(NeedMoreData);
      }
      assert Unread()[1] == buffer[cursor + 1..][0] && Unread()[2] == buffer[cursor + 1..][1];
      var parsed :- ParseEndMarkerAt(buffer[cursor + 1..]);
      endMarker := Some(parsed);
      cursor := cursor + (1 + 2);
      phase := EndPhase;
      Compact();
      r := Success(Got(EndEvent(parsed)));
    }

    method ReadTick() returns (r: Result<ReadResult, ErrorCode>)
      requires Valid() && phase == TickPhase && |Unread()| >= 1
      modifies this`buffer, this`cursor, this`bufferStart
      ensures Valid() && Took(NextTick(Script(limits), old(Unread())), r, old(Unread()), Unread())
    {
      hide ParsePayload;
      if |buffer| - cursor < 9 {
        return Success(NeedMoreData);
      }
      var tickId := GetU32(buffer[cursor + 1..]);
      var payloadSize: int := GetU32(buffer[cursor + 5..]);
      var recordSize := 9 + payloadSize;
      if |buffer| - cursor < recordSize {
        TickWaits(Script(limits), buffer, cursor);
        return Success(NeedMoreData);
      }
      var payloadBegin := cursor + 9;
      var payloadEnd := payloadBegin + payloadSize;
      var payload := buffer[payloadBegin..payloadEnd];
      var tick := ParseTickPayload(payload, tickId, limits);
      TickTaken(Script(limits), buffer, cursor, tickId, payloadSize, payload, tick);
      if tick.Failure? {
        return Failure(tick.error);
      }
      cursor := payloadEnd;
      Compact();
      r := Success(Got(TickEvent(tick.value)));
    }

    /** One read is one step on the unread bytes. The end marker is kept, so asking again after it is harmless. */
    method Read() returns (r: Result<ReadResult, ErrorCode>)
      requires Valid()
      modifies this
      ensures Valid()
      ensures old(phase) == EndPhase ==>
                r == Success(Got(EndEvent(old(endMarker).value))) && phase == EndPhase && endMarker == old(endMarker)
      ensures old(phase) != EndPhase ==>
                var step := Next(Script(limits), Waiting(old(phase)), old(Unread()));
                && Took(step, r, old(Unread()), Unread()) && phase == PhaseAfter(step, old(phase))
                && (phase == EndPhase ==> endMarker == Some(step.event.end))
    {
      if phase == EndPhase {
        return Success(Got(EndEvent(endMarker.value)));
      }
      if phase == HeaderPhase {
        r := ReadHeader();
        return;
      }
      if |buffer| - cursor < 1 {
        return Success(NeedMoreData);
      }
      var recordType := buffer[cursor];
      if recordType == END_RECORD {
        r := ReadEnd();
        return;
      }
      if recordType != TICK_RECORD {
        return Failure(UnknownRecordType);
      }
      r := ReadTick();
    }

    /** After the last byte. */
    method Finalize() returns (r: Result<EndMarker, ErrorCode>)
      requires Valid()
      modifies this`phase, this`endMarker
      ensures Valid()
      ensures match old(phase)
              case HeaderPhase => r == Failure(MissingHeader)
              case EndPhase => r == Success(old(endMarker).value) && endMarker == old(endMarker)
              case TickPhase =>
                if strict then r == Failure(MissingEndMarker) else r == Success(ABORTED) && endMarker == Some(ABORTED)
    {
      if phase == HeaderPhase {
        return Failure(MissingHeader);
      }
      if phase == EndPhase {
        return Success(endMarker.value);
      }
      if strict {
        return Failure(MissingEndMarker);
      }
      phase := EndPhase;
      endMarker := Some(ABORTED);
      r := Success(ABORTED);
    }
  }

  // ---- One shot ----

  lemma AnswersEnd(strict: bool, whole: Run, header: (Header, u16), ticks: seq<Tick>, end: EndMarker)
    requires whole.outcome.Ended? && Gather(whole.events) == Gathered(Some(header), ticks, Some(end))
    ensures Answers(Success(ReplayData(header.0, header.1, ticks, end)), Finished(strict, whole))
  {
  }

  lemma AnswersAborted(whole: Run, header: (Header, u16), ticks: seq<Tick>)
    requires whole.outcome.Starved? && whole.outcome.phase == AwaitRecord
    requires Gather(whole.events) == Gathered(Some(header), ticks, None)
    ensures Answers(Success(ReplayData(header.0, header.1, ticks, ABORTED)), Finished(false, whole))
  {
    GatherOneMore(whole.events, EndEvent(ABORTED));
  }

  method DecodeReplay(input: seq<u8>, strict: bool, limits: Limits) returns (r: Result<ReplayData, ErrorCode>)
    ensures Answers(r, Finished(strict, Drive(Script(limits), AwaitHeader, input)))
  {
    hide ParsePayload, ParseHeader;
    var decoder := new ReplayDecoderCore(strict, limits);
    decoder.Push(input);
    var header: Option<(Header, u16)> := None;
    var ticks: seq<Tick> := [];
    ghost var d := Script(limits);
    ghost var whole := Drive(d, AwaitHeader, input);
    ghost var events: seq<Event> := [];
    assert decoder.Unread() == input;
    NothingBefore(whole);
    while true
      invariant decoder.Valid() && decoder.phase != EndPhase && decoder.strict == strict && decoder.limits == limits
      invariant fresh(decoder)
      invariant whole == Drive(d, Waiting(decoder.phase), decoder.Unread()).After(events)
      invariant Gather(events) == Gathered(header, ticks, None)
      invariant decoder.phase != HeaderPhase ==> header.Some?
      decreases |decoder.Unread()|
    {
      DriveOneMore(d, whole, events, Waiting(decoder.phase), decoder.Unread());
      var result :- decoder.Read();
      if result.NeedMoreData? {
        break;
      }
      GatherOneMore(events, result.event);
      events := events + [result.event];
      match result.event {
        case HeaderEvent(h, size) => header := Some((h, size));
        case TickEvent(t) => ticks := ticks + [t];
        case EndEvent(_) => break;
      }
    }
    if decoder.phase == EndPhase {
      AnswersEnd(strict, whole, header.value, ticks, decoder.endMarker.value);
    } else if decoder.phase == TickPhase {
      AnswersAborted(whole, header.value, ticks);
    }
    var endMarker :- decoder.Finalize();
    r := Success(ReplayData(header.value.0, header.value.1, ticks, endMarker));
  }

  // ---- Streams ----

  lemma SameFinish(strict: bool, r: Run, s: Run)
    requires SameAnswer(r, s)
    ensures Finished(strict, r) == Finished(strict, s)
  {
  }

  /** What the generator yields and throws depends on the bytes, not on how they are cut. */
  method DecodeReplayStream(chunks: seq<seq<u8>>, strict: bool, limits: Limits) returns (a: Answer)
    ensures a == Finished(strict, Drive(Script(limits), AwaitHeader, Joined(chunks)))
  {
    hide ParsePayload, ParseHeader;
    var decoder := new ReplayDecoderCore(strict, limits);
    var events: seq<Event> := [];
    ghost var d := Script(limits);
    ghost var whole := Feed(d, AwaitHeader, [], chunks);
    ChunksDoNotMatter(d, AwaitHeader, [], chunks);
    assert [] + Joined(chunks) == Joined(chunks);
    SameFinish(strict, whole, Drive(d, AwaitHeader, Joined(chunks)));
    NothingBefore(whole);
    for i := 0 to |chunks|
      invariant decoder.Valid() && decoder.phase != EndPhase && decoder.strict == strict && decoder.limits == limits
      invariant fresh(decoder)
      invariant whole == Feed(d, Waiting(decoder.phase), decoder.Unread(), chunks[i..]).After(events)
    {
      decoder.Push(chunks[i]);
      ghost var others := chunks[i + 1..];
      assert chunks[i..][0] == chunks[i] && chunks[i..][1..] == others;
      ghost var r := Drive(d, Waiting(decoder.phase), decoder.Unread()).After(events);
      FeedMoreAfter(d, Drive(d, Waiting(decoder.phase), decoder.Unread()), events, others);
      assert whole == FeedMore(d, r, others);
      while true
        invariant decoder.Valid() && decoder.phase != EndPhase && decoder.strict == strict && decoder.limits == limits
        invariant fresh(decoder)
        invariant r == Drive(d, Waiting(decoder.phase), decoder.Unread()).After(events)
        decreases |decoder.Unread()|
      {
        DriveOneMore(d, r, events, Waiting(decoder.phase), decoder.Unread());
        var read := decoder.Read();
        if read.Failure? {
          return Answer(events, Some(read.error));
        }
        var result := read.value;
        if result.NeedMoreData? {
          break;
        }
        events := events + [result.event];
        if result.event.EndEvent? {
          return Answer(events, None);
        }
      }
    }
    assert events + [] == events;
    var end := decoder.Finalize();
    if end.Failure? {
      return Answer(events, Some(end.error));
    }
    a := Answer(events + [EndEvent(decoder.endMarker.value)], None);
  }

  lemma FeedMoreAfter(d: Dialect, r: Run, events: seq<Event>, chunks: seq<seq<u8>>)
    ensures FeedMore(d, r.After(events), chunks) == FeedMore(d, r, chunks).After(events)
  {
    if r.outcome.Starved? {
      AfterAfter(Feed(d, r.outcome.phase, r.outcome.unread, chunks), events, r.events);
    }
  }

  lemma {:induction false} HeaderStaysGathered(events: seq<Event>)
    requires events != [] && events[0].HeaderEvent?
    ensures Gather(events).header.Some?
  {
    if |events| > 1 {
      HeaderStaysGathered(events[..|events| - 1]);
    }
  }

  lemma {:induction false} EndedWithEnd(d: Dialect, phase: Phase, b: seq<u8>)
    requires Drive(d, phase, b).outcome.Ended?
    ensures var events := Drive(d, phase, b).events; events != [] && events[|events| - 1].EndEvent?
    decreases |b|
  {
    var step := Next(d, phase, b);
    if !step.event.EndEvent? {
      EndedWithEnd(d, AwaitRecord, step.rest);
    }
  }

  /** A decoder that throws nothing has a header and an end marker to return. */
  lemma CompleteAnswers(strict: bool, d: Dialect, b: seq<u8>)
    requires Finished(strict, Drive(d, AwaitHeader, b)).error == None
    ensures var g := Gather(Finished(strict, Drive(d, AwaitHeader, b)).events); g.header.Some? && g.end.Some?
  {
    var r := Drive(d, AwaitHeader, b);
    if r.outcome.Ended? {
      EndedWithEnd(d, AwaitHeader, b);
    } else {
      GatherOneMore(r.events, EndEvent(ABORTED));
    }
    HeaderStaysGathered(r.events);
  }

  // ---- Whole replays ----

  lemma {:induction false} GatherTicks(h: Header, size: u16, ticks: seq<Tick>)
    ensures Gather([HeaderEvent(h, size)] + TickEvents(ticks)) == Gathered(Some((h, size)), ticks, None)
  {
    var events := [HeaderEvent(h, size)] + TickEvents(ticks);
    if ticks == [] {
      assert events == [] + [HeaderEvent(h, size)];
      GatherOneMore([], HeaderEvent(h, size));
    } else {
      var n := |ticks| - 1;
      assert events == [HeaderEvent(h, size)] + TickEvents(ticks[..n]) + [TickEvent(ticks[n])];
      GatherTicks(h, size, ticks[..n]);
      GatherOneMore([HeaderEvent(h, size)] + TickEvents(ticks[..n]), TickEvent(ticks[n]));
      assert ticks == ticks[..n] + [ticks[n]];
    }
  }

  lemma GatherReplay(h: Header, size: u16, ticks: seq<Tick>, e: EndMarker)
    ensures Gather([HeaderEvent(h, size)] + (TickEvents(ticks) + [EndEvent(e)])) == Gathered(Some((h, size)), ticks, Some(e))
  {
    var first := [HeaderEvent(h, size)] + TickEvents(ticks);
    GatherTicks(h, size, ticks);
    GatherOneMore(first, EndEvent(e));
    assert [HeaderEvent(h, size)] + (TickEvents(ticks) + [EndEvent(e)]) == first + [EndEvent(e)];
  }

  /** Encoding a replay and decoding it gives the replay back. */
  lemma EncodedReplayDecodes(strict: bool, limits: Limits, h: Header, ticks: seq<Tick>, e: EndMarker)
    requires HeaderFits(Script(limits), h) && TicksFit(Script(limits), ticks) && EndFits(e)
    ensures Answers(Success(ReplayData(h, HeaderSize(h), ticks, e)),
                    Finished(strict, Drive(Script(limits), AwaitHeader, ReplayBytes(h, ticks, e))))
  {
    hide ParsePayload, ParseHeader;
    var d := Script(limits);
    ReplayDecodes(d, h, ticks, e, []);
    NothingAfter(ReplayBytes(h, ticks, e));
    GatherReplay(h, HeaderSize(h), ticks, e);
    AnswersEnd(strict, Drive(d, AwaitHeader, ReplayBytes(h, ticks, e)), (h, HeaderSize(h)), ticks, e);
  }

  /** Cut off inside a record, it gives the ticks before the cut and an aborted end,
      or, decoded strictly, an error. */
  lemma CutReplayDecodes(strict: bool, limits: Limits, h: Header, ticks: seq<Tick>, part: seq<u8>, lost: seq<u8>)
    requires HeaderFits(Script(limits), h) && TicksFit(Script(limits), ticks) && PartOfRecord(Script(limits), part, lost)
    ensures Answers(if strict then Failure(MissingEndMarker) else Success(ReplayData(h, HeaderSize(h), ticks, ABORTED)),
                    Finished(strict, Drive(Script(limits), AwaitHeader,
                                           HeaderBytes(h) + (TicksBytes(ticks) + part))))
  {
    hide ParsePayload, ParseHeader;
    CutInRecord(Script(limits), h, ticks, part, lost);
    GatherTicks(h, HeaderSize(h), ticks);
    var whole := Drive(Script(limits), AwaitHeader, HeaderBytes(h) + (TicksBytes(ticks) + part));
    if !strict {
      AnswersAborted(whole, (h, HeaderSize(h)), ticks);
    }
  }

  /** Putting the events of a stream together gives what the one-shot decoder gives. */
  method DecodeReplayFromStream(chunks: seq<seq<u8>>, strict: bool, limits: Limits)
    returns (r: Result<ReplayData, ErrorCode>)
    ensures Answers(r, Finished(strict, Drive(Script(limits), AwaitHeader, Joined(chunks))))
  {
    hide ParsePayload, ParseHeader;
    var a := DecodeReplayStream(chunks, strict, limits);
    var header: Option<(Header, u16)> := None;
    var endMarker: Option<EndMarker> := None;
    var ticks: seq<Tick> := [];
    for i := 0 to |a.events|
      invariant Gather(a.events[..i]) == Gathered(header, ticks, endMarker)
    {
      TakeOneMore(a.events, i);
      GatherOneMore(a.events[..i], a.events[i]);
      match a.events[i] {
        case HeaderEvent(h, size) => header := Some((h, size));
        case TickEvent(t) => ticks := ticks + [t];
        case EndEvent(m) => endMarker := Some(m);
      }
    }
    assert a.events[..|a.events|] == a.events;
    if a.error.Some? {
      return Failure(a.error.value);
    }
    CompleteAnswers(strict, Script(limits), Joined(chunks));
    r := Success(ReplayData(header.value.0, header.value.1, ticks, endMarker.value));
  }
}

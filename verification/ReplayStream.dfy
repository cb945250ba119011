/**
 Decoding a replay as it arrives: what one read takes from the unread bytes, what
 a run of reads yields, and why the cutting into chunks does not matter
 (js/corereplay/src/decoder_core.ts:43-132, js/corereplay/src/stream.ts,
 src/replay.cpp:813-946).
 */
module ReplayStream {
  import opened Common
  import opened Wire
  import opened ReplayFormat
  import opened ReplayParser
  import opened ReplayRoundTrip

  datatype Phase = AwaitHeader | AwaitRecord

  datatype Event = HeaderEvent(header: Header, headerSize: u16) | TickEvent(tick: Tick) | EndEvent(end: EndMarker)

  datatype Step = NeedMore | Yield(event: Event, rest: seq<u8>) | Fail(code: ErrorCode)

  function NextHeader(d: Dialect, b: seq<u8>): (s: Step)
    ensures s.Yield? ==> |s.rest| < |b| && s.event.HeaderEvent?
  {
    if |b| < 8 || |b| < 8 + GetU16(b[6..]) then NeedMore
    else match ParseHeader(d, b)
      case Failure(e) => Fail(e)
      case Success(h) => Yield(HeaderEvent(h, GetU16(b[6..])), b[8 + GetU16(b[6..])..])
  }

  function NextEnd(d: Dialect, b: seq<u8>): (s: Step)
    requires |b| >= 1
    ensures s.Yield? ==> |s.rest| < |b| && s.event.EndEvent?
  {
    if |b| < d.endAt then NeedMore
    else if |b| < 3 then Fail(TruncatedEndMarker)
    else match ParseEnd(b[1], b[2])
      case Failure(e) => Fail(e)
      case Success(e) => Yield(EndEvent(e), b[3..])
  }

  function NextTick(d: Dialect, b: seq<u8>): (s: Step)
    requires |b| >= 1
    ensures s.Yield? ==> |s.rest| < |b| && s.event.TickEvent?
  {
    if |b| < 9 || |b| < 9 + GetU32(b[5..]) then NeedMore
    else match ParsePayload(d, GetU32(b[1..]), b[9..9 + GetU32(b[5..])])
      case Failure(e) => Fail(e)
      case Success(t) => Yield(TickEvent(t), b[9 + GetU32(b[5..])..])
  }

  function Next(d: Dialect, phase: Phase, b: seq<u8>): (s: Step)
    ensures s.Yield? ==> |s.rest| < |b| && (s.event.HeaderEvent? <==> phase == AwaitHeader)
  {
    if phase == AwaitHeader then NextHeader(d, b)
    else if |b| < 1 then NeedMore
    else if b[0] == END_RECORD then NextEnd(d, b)
    else if b[0] == TICK_RECORD then NextTick(d, b)
    else if d.unknownFails then Fail(UnknownRecordType)
    else NeedMore
  }

  /** More bytes never change what a read that got through returns. */
  lemma NextIgnoresWhatFollows(d: Dialect, phase: Phase, b: seq<u8>, c: seq<u8>)
    requires d.endAt == 3 && !Next(d, phase, b).NeedMore?
    ensures Next(d, phase, b + c) == match Next(d, phase, b) case Yield(e, rest) => Yield(e, rest + c) case s => s
  {
    hide ParsePayload, ParseHeader;
    if phase == AwaitHeader {
      HeaderIgnoresWhatFollows(d, b, c);
    } else if b[0] == END_RECORD {
      assert (b + c)[3..] == b[3..] + c;
    } else if b[0] == TICK_RECORD {
      TickIgnoresWhatFollows(d, b, c);
    }
  }

  lemma HeaderIgnoresWhatFollows(d: Dialect, b: seq<u8>, c: seq<u8>)
    requires !NextHeader(d, b).NeedMore?
    ensures NextHeader(d, b + c) == match NextHeader(d, b) case Yield(e, rest) => Yield(e, rest + c) case s => s
  {
    var n := 8 + GetU16(b[6..]);
    assert GetU16((b + c)[6..]) == GetU16(b[6..]);
    assert GetU16((b + c)[4..]) == GetU16(b[4..]);
    assert (b + c)[..4] == b[..4];
    assert (b + c)[8..n] == b[8..n];
    assert (b + c)[n..] == b[n..] + c;
  }

  lemma TickIgnoresWhatFollows(d: Dialect, b: seq<u8>, c: seq<u8>)
    requires |b| >= 1 && !NextTick(d, b).NeedMore?
    ensures NextTick(d, b + c) == match NextTick(d, b) case Yield(e, rest) => Yield(e, rest + c) case s => s
  {
    var n := 9 + GetU32(b[5..]);
    assert GetU32((b + c)[5..]) == GetU32(b[5..]);
    assert GetU32((b + c)[1..]) == GetU32(b[1..]);
    assert (b + c)[9..n] == b[9..n];
    assert (b + c)[n..] == b[n..] + c;
  }

  // ---- Runs of reads ----

  datatype Outcome = Starved(phase: Phase, unread: seq<u8>) | Ended(unread: seq<u8>) | Failed(code: ErrorCode)

  datatype Run = Run(events: seq<Event>, outcome: Outcome) {
    function After(earlier: seq<Event>): Run {
      Run(earlier + events, outcome)
    }
  }

  /** Reading until more bytes are needed, the end marker is read or an error occurs. */
  function Drive(d: Dialect, phase: Phase, b: seq<u8>): Run
    decreases |b|
  {
    match Next(d, phase, b)
    case NeedMore => Run([], Starved(phase, b))
    case Fail(e) => Run([], Failed(e))
    case Yield(event, rest) =>
      if event.EndEvent? then Run([event], Ended(rest)) else Drive(d, AwaitRecord, rest).After([event])
  }

  /** A run over b continues with c: from where it starved, or not at all. */
  ghost predicate Continues(d: Dialect, before: Run, c: seq<u8>, whole: Run) {
    match before.outcome
    case Starved(phase, unread) => whole == Drive(d, phase, unread + c).After(before.events)
    case Ended(unread) => whole == Run(before.events, Ended(unread + c))
    case Failed(_) => whole == before
  }

  lemma {:induction false} DriveMore(d: Dialect, phase: Phase, b: seq<u8>, c: seq<u8>)
    requires d.endAt == 3
    ensures Continues(d, Drive(d, phase, b), c, Drive(d, phase, b + c))
    decreases |b|
  {
    hide ParsePayload, ParseHeader;
    var step := Next(d, phase, b);
    if step.NeedMore? {
      NothingBefore(Drive(d, phase, b + c));
    } else {
      NextIgnoresWhatFollows(d, phase, b, c);
      if step.Yield? && !step.event.EndEvent? {
        DriveMore(d, AwaitRecord, step.rest, c);
        var before := Drive(d, AwaitRecord, step.rest);
        if before.outcome.Starved? {
          AfterAfter(Drive(d, before.outcome.phase, before.outcome.unread + c), [step.event], before.events);
        }
      }
    }
  }

  lemma NothingBefore(r: Run)
    ensures r.After([]) == r
  {
    assert [] + r.events == r.events;
  }

  lemma AfterAfter(r: Run, first: seq<Event>, second: seq<Event>)
    ensures r.After(second).After(first) == r.After(first + second)
  {
    assert first + (second + r.events) == first + second + r.events;
  }

  /** What is left of a run after the events so far and one more step. */
  ghost predicate GoesOn(d: Dialect, whole: Run, events: seq<Event>, phase: Phase, b: seq<u8>, step: Step) {
    match step
    case NeedMore => whole == Run(events, Starved(phase, b))
    case Fail(code) => whole == Run(events, Failed(code))
    case Yield(e, rest) =>
      if e.EndEvent? then whole == Run(events + [e], Ended(rest)) else whole == Drive(d, AwaitRecord, rest).After(events + [e])
  }

  lemma DriveOneMore(d: Dialect, whole: Run, events: seq<Event>, phase: Phase, b: seq<u8>)
    requires whole == Drive(d, phase, b).After(events)
    ensures GoesOn(d, whole, events, phase, b, Next(d, phase, b))
  {
    assert events + [] == events;
    var step := Next(d, phase, b);
    if step.Yield? && !step.event.EndEvent? {
      AfterAfter(Drive(d, AwaitRecord, step.rest), events, [step.event]);
    }
  }

  // ---- What a caller is told ----

  /** The events yielded, then the error thrown, if any. */
  datatype Answer = Answer(events: seq<Event>, error: Option<ErrorCode>)

  const ABORTED: EndMarker := EndMarker(Aborted, 0)

  /** The end of the input: complete, an error, or an end marker made up if truncation is tolerated. */
  function Finished(strict: bool, r: Run): Answer {
    match r.outcome
    case Ended(_) => Answer(r.events, None)
    case Failed(code) => Answer(r.events, Some(code))
    case Starved(AwaitHeader, _) => Answer(r.events, Some(MissingHeader))
    case Starved(AwaitRecord, _) =>
      if strict then Answer(r.events, Some(MissingEndMarker)) else Answer(r.events + [EndEvent(ABORTED)], None)
  }

  // ---- Chunks ----

  function Joined(chunks: seq<seq<u8>>): seq<u8> {
    if chunks == [] then [] else chunks[0] + Joined(chunks[1..])
  }

  /** Each chunk is appended to the unread bytes and read as far as possible. */
  function Feed(d: Dialect, phase: Phase, unread: seq<u8>, chunks: seq<seq<u8>>): Run
    decreases |chunks|, 0
  {
    if chunks == [] then Run([], Starved(phase, unread))
    else FeedMore(d, Drive(d, phase, unread + chunks[0]), chunks[1..])
  }

  /** A run that starves goes on with the next chunks. */
  function FeedMore(d: Dialect, r: Run, chunks: seq<seq<u8>>): Run
    decreases |chunks|, 1
  {
    match r.outcome
    case Starved(phase, unread) => Feed(d, phase, unread, chunks).After(r.events)
    case _ => r
  }

  /** What a run says to its caller: everything but the bytes it left. */
  ghost predicate SameAnswer(r: Run, s: Run) {
    && r.events == s.events
    && match r.outcome
       case Starved(phase, unread) => s.outcome == Starved(phase, unread)
       case Ended(_) => s.outcome.Ended?
       case Failed(code) => s.outcome == Failed(code)
  }

  /** However the bytes are cut, the events and the outcome are those of one piece. */
  lemma {:induction false} ChunksDoNotMatter(d: Dialect, phase: Phase, unread: seq<u8>, chunks: seq<seq<u8>>)
    requires d.endAt == 3 && Next(d, phase, unread).NeedMore?
    ensures SameAnswer(Feed(d, phase, unread, chunks), Drive(d, phase, unread + Joined(chunks)))
    decreases |chunks|
  {
    hide ParsePayload, ParseHeader;
    if chunks == [] {
      assert unread + [] == unread;
    } else {
      var r := Drive(d, phase, unread + chunks[0]);
      var others := Joined(chunks[1..]);
      assert unread + Joined(chunks) == unread + chunks[0] + others;
      DriveMore(d, phase, unread + chunks[0], others);
      if r.outcome.Starved? {
        StarvedNeedsMore(d, phase, unread + chunks[0]);
        ChunksDoNotMatter(d, r.outcome.phase, r.outcome.unread, chunks[1..]);
      }
    }
  }

  lemma {:induction false} StarvedNeedsMore(d: Dialect, phase: Phase, b: seq<u8>)
    requires Drive(d, phase, b).outcome.Starved?
    ensures var o := Drive(d, phase, b).outcome; Next(d, o.phase, o.unread).NeedMore?
    decreases |b|
  {
    var step := Next(d, phase, b);
    if step.Yield? {
      StarvedNeedsMore(d, AwaitRecord, step.rest);
    }
  }

  // ---- Whole replays ----

  predicate TicksFit(d: Dialect, ticks: seq<Tick>) {
    forall i :: 0 <= i < |ticks| ==> TickFits(d, ticks[i])
  }

  /** Ticks the encoder does not abort on. */
  predicate Writable(ticks: seq<Tick>) {
    forall i :: 0 <= i < |ticks| ==> RecordWritable(ticks[i])
  }

  function TicksBytes(ticks: seq<Tick>): seq<u8>
    requires Writable(ticks)
  {
    if ticks == [] then [] else TickBytes(ticks[0]) + TicksBytes(ticks[1..])
  }

  function TickEvents(ticks: seq<Tick>): seq<Event> {
    seq(|ticks|, i requires 0 <= i < |ticks| => TickEvent(ticks[i]))
  }

  predicate RecordWritable(t: Tick) {
    Encodable(t) && |PayloadBytes(t)| < 0x1_0000_0000
  }

  /** What a written tick record in front of anything is read as; its patched size
      field is the number of payload bytes taken. */
  ghost predicate ReadsAs(b: seq<u8>, size: nat, step: Step, parsed: Result<Tick, ErrorCode>, rest: seq<u8>) {
    && |b| >= 9 && size == 9 + GetU32(b[5..])
    && step == match parsed
               case Failure(e) => Fail(e)
               case Success(t) => Yield(TickEvent(t), rest)
  }

  lemma WrittenRecordIsParsed(d: Dialect, t: Tick, rest: seq<u8>)
    requires RecordWritable(t)
    ensures var b := TickBytes(t) + rest;
            ReadsAs(b, |TickBytes(t)|, Next(d, AwaitRecord, b), ParsePayload(d, t.tick, PayloadBytes(t)), rest)
  {
    hide ParsePayload, PayloadBytes;
    var payload := PayloadBytes(t);
    var b := TickBytes(t) + rest;
    assert b[1..] == U32(t.tick) + (U32(|payload|) + payload + rest);
    GetPutU32(t.tick, U32(|payload|) + payload + rest);
    assert b[5..] == U32(|payload|) + (payload + rest);
    GetPutU32(|payload|, payload + rest);
    assert b[9..9 + |payload|] == payload;
    assert b[9 + |payload|..] == rest;
  }

  /** A tick record in front of anything is read back, and its patched size field
      is the number of payload bytes taken. */
  lemma TickRecordRoundTrip(d: Dialect, t: Tick, rest: seq<u8>)
    requires TickFits(d, t)
    ensures var b := TickBytes(t) + rest;
            && |TickBytes(t)| == 9 + GetU32(b[5..])
            && Next(d, AwaitRecord, b) == Yield(TickEvent(t), rest)
  {
    hide ParsePayload, PayloadBytes, Next, GetU32;
    WrittenRecordIsParsed(d, t, rest);
    PayloadRoundTrip(d, t);
  }

  lemma EndRecordRoundTrip(d: Dialect, e: EndMarker, rest: seq<u8>)
    requires EndFits(e) && d.endAt <= 3
    ensures Next(d, AwaitRecord, EndBytes(e) + rest) == Yield(EndEvent(e), rest)
  {
    EndRoundTrip(e);
    assert (EndBytes(e) + rest)[3..] == rest;
  }

  lemma DriveStep(d: Dialect, phase: Phase, b: seq<u8>, event: Event, rest: seq<u8>)
    requires Next(d, phase, b) == Yield(event, rest) && !event.EndEvent?
    ensures Drive(d, phase, b) == Drive(d, AwaitRecord, rest).After([event])
  {
  }

  lemma FirstTick(d: Dialect, ticks: seq<Tick>, tail: seq<u8>)
    requires TicksFit(d, ticks) && ticks != []
    ensures TicksFit(d, ticks[1..])
    ensures Drive(d, AwaitRecord, TicksBytes(ticks) + tail)
         == Drive(d, AwaitRecord, TicksBytes(ticks[1..]) + tail).After([TickEvent(ticks[0])])
  {
    hide ParsePayload, ParseHeader;
    var more := TicksBytes(ticks[1..]) + tail;
    assert TicksBytes(ticks) + tail == TickBytes(ticks[0]) + more;
    TickRecordRoundTrip(d, ticks[0], more);
    DriveStep(d, AwaitRecord, TickBytes(ticks[0]) + more, TickEvent(ticks[0]), more);
  }

  lemma FirstEvent(ticks: seq<Tick>)
    requires ticks != []
    ensures TickEvents(ticks) == [TickEvent(ticks[0])] + TickEvents(ticks[1..])
  {
  }

  /** Tick records are read back one by one, and then whatever follows them. */
  lemma {:induction false} TicksThen(d: Dialect, ticks: seq<Tick>, tail: seq<u8>)
    requires TicksFit(d, ticks)
    ensures Drive(d, AwaitRecord, TicksBytes(ticks) + tail) == Drive(d, AwaitRecord, tail).After(TickEvents(ticks))
  {
    hide ParsePayload, ParseHeader;
    if ticks == [] {
      assert TicksBytes(ticks) + tail == tail;
      NothingBefore(Drive(d, AwaitRecord, tail));
    } else {
      FirstTick(d, ticks, tail);
      TicksThen(d, ticks[1..], tail);
      AfterAfter(Drive(d, AwaitRecord, tail), [TickEvent(ticks[0])], TickEvents(ticks[1..]));
      FirstEvent(ticks);
    }
  }

  lemma HeaderThen(d: Dialect, h: Header, tail: seq<u8>)
    requires HeaderFits(d, h)
    ensures Next(d, AwaitHeader, HeaderBytes(h) + tail) == Yield(HeaderEvent(h, HeaderSize(h)), tail)
    ensures Drive(d, AwaitHeader, HeaderBytes(h) + tail) == Drive(d, AwaitRecord, tail).After([HeaderEvent(h, HeaderSize(h))])
  {
    hide ParsePayload, ParseHeader;
    HeaderRoundTrip(d, h, tail);
    assert (HeaderBytes(h) + tail)[6..8] == U16(HeaderSize(h));
    assert (HeaderBytes(h) + tail)[8 + HeaderSize(h)..] == tail;
  }

  function ReplayBytes(h: Header, ticks: seq<Tick>, e: EndMarker): seq<u8>
    requires HeaderSize(h) < 0x1_0000 && Writable(ticks)
  {
    HeaderBytes(h) + (TicksBytes(ticks) + EndBytes(e))
  }

  /** The concatenated encodings of a whole replay decode to exactly its values, in
      either decoder, whatever follows the end marker. */
  lemma ReplayDecodes(d: Dialect, h: Header, ticks: seq<Tick>, e: EndMarker, rest: seq<u8>)
    requires HeaderFits(d, h) && TicksFit(d, ticks) && EndFits(e) && d.endAt <= 3
    ensures Drive(d, AwaitHeader, ReplayBytes(h, ticks, e) + rest)
         == Run([HeaderEvent(h, HeaderSize(h))] + (TickEvents(ticks) + [EndEvent(e)]), Ended(rest))
  {
    hide ParsePayload, ParseHeader;
    var tail := EndBytes(e) + rest;
    assert ReplayBytes(h, ticks, e) + rest == HeaderBytes(h) + (TicksBytes(ticks) + tail);
    HeaderThen(d, h, TicksBytes(ticks) + tail);
    TicksThen(d, ticks, tail);
    EndRecordRoundTrip(d, e, rest);
  }

  lemma {:induction false} ParsedLogsFit(d: Dialect, b: seq<u8>, n: nat)
    requires ParseLogList(d, b, n).Ok?
    ensures var logs := ParseLogList(d, b, n).value; |logs| == n && forall i :: 0 <= i < |logs| ==> LogFits(d, logs[i])
    decreases n
  {
    if n > 0 {
      ParsedLogsFit(d, ParseLog(d, b).rest, n - 1);
    }
  }

  /** A decoder gives no tick beyond its limits. */
  lemma ParsedTickFits(d: Dialect, tick: u32, b: seq<u8>)
    requires ParsePayload(d, tick, b).Success?
    ensures var t := ParsePayload(d, tick, b).value;
            RecordWritable(t) ==> TickFits(d, t)
  {
    hide ParseLog, ParseLogList, GetUnits, GetBullets, PayloadBytes, LogFits;
    var t := ParsePayload(d, tick, b).value;
    var logs := ParseBullets(d, ParseUnits(d, b[8..]).rest).rest;
    ParsedLogsFit(d, logs[2..], GetU16(logs));
  }

  /** A record of which the decoder gives the tick itself holds a tick within limits. */
  lemma GivenBackMeansFits(d: Dialect, t: Tick, rest: seq<u8>)
    requires RecordWritable(t)
    requires var run := Drive(d, AwaitRecord, TickBytes(t) + rest); run.events != [] && run.events[0] == TickEvent(t)
    ensures TickFits(d, t)
  {
    hide ParsePayload, PayloadBytes, Next, GetU32;
    WrittenRecordIsParsed(d, t, rest);
    ParsedTickFits(d, t.tick, PayloadBytes(t));
  }

  lemma {:induction false} AllGivenBackMeansFit(d: Dialect, ticks: seq<Tick>, tail: seq<u8>)
    requires Writable(ticks) && TickEvents(ticks) <= Drive(d, AwaitRecord, TicksBytes(ticks) + tail).events
    ensures TicksFit(d, ticks)
  {
    hide ParsePayload, ParseHeader, PayloadBytes, Drive;
    if ticks != [] {
      var more := TicksBytes(ticks[1..]) + tail;
      assert TicksBytes(ticks) + tail == TickBytes(ticks[0]) + more;
      assert TickEvents(ticks)[0] == TickEvent(ticks[0]);
      GivenBackMeansFits(d, ticks[0], more);
      TickRecordRoundTrip(d, ticks[0], more);
      DriveStep(d, AwaitRecord, TickBytes(ticks[0]) + more, TickEvent(ticks[0]), more);
      FirstEvent(ticks);
      assert Drive(d, AwaitRecord, TicksBytes(ticks) + tail).events[1..] == Drive(d, AwaitRecord, more).events;
      assert TickEvents(ticks)[1..] == TickEvents(ticks[1..]);
      AllGivenBackMeansFit(d, ticks[1..], tail);
    }
  }

  /** Whatever ticks are written, decoding gives the replay back exactly if each of
      them is within the decoder's limits. */
  lemma DecodesExactlyIfFits(d: Dialect, h: Header, ticks: seq<Tick>, e: EndMarker)
    requires HeaderFits(d, h) && Writable(ticks) && EndFits(e) && d.endAt <= 3
    ensures TicksFit(d, ticks) <==>
            Drive(d, AwaitHeader, ReplayBytes(h, ticks, e))
            == Run([HeaderEvent(h, HeaderSize(h))] + (TickEvents(ticks) + [EndEvent(e)]), Ended([]))
  {
    hide ParsePayload, ParseHeader, PayloadBytes, Drive;
    var bytes := ReplayBytes(h, ticks, e);
    if TicksFit(d, ticks) {
      ReplayDecodes(d, h, ticks, e, []);
      NothingAfter(bytes);
    }
    HeaderThen(d, h, TicksBytes(ticks) + EndBytes(e));
    var head := [HeaderEvent(h, HeaderSize(h))];
    var body := TickEvents(ticks) + [EndEvent(e)];
    var rest := Drive(d, AwaitRecord, TicksBytes(ticks) + EndBytes(e));
    if Drive(d, AwaitHeader, bytes).events == head + body {
      assert (head + body)[1..] == body && (head + rest.events)[1..] == rest.events;
      AllGivenBackMeansFit(d, ticks, EndBytes(e));
    }
  }

  /** Part of a header or record is never an error: the decoder waits for the rest. */
  lemma PartWaits(d: Dialect, phase: Phase, part: seq<u8>, lost: seq<u8>)
    requires d.endAt == 3 && lost != []
    requires Next(d, phase, part + lost).Yield? && Next(d, phase, part + lost).rest == []
    ensures Next(d, phase, part).NeedMore?
  {
    hide ParsePayload, ParseHeader;
    if !Next(d, phase, part).NeedMore? {
      NextIgnoresWhatFollows(d, phase, part, lost);
    }
  }

  /** A replay cut off inside its header yields nothing and is not an error. */
  lemma CutInHeader(d: Dialect, h: Header, part: seq<u8>, lost: seq<u8>)
    requires HeaderFits(d, h) && d.endAt == 3 && part + lost == HeaderBytes(h) && lost != []
    ensures Drive(d, AwaitHeader, part) == Run([], Starved(AwaitHeader, part))
  {
    hide ParsePayload, ParseHeader;
    HeaderThen(d, h, []);
    assert HeaderBytes(h) + [] == part + lost;
    PartWaits(d, AwaitHeader, part, lost);
  }

  /** The first bytes of a record, without the others. */
  ghost predicate PartOfRecord(d: Dialect, part: seq<u8>, lost: seq<u8>) {
    && lost != []
    && ((exists t :: TickFits(d, t) && part + lost == TickBytes(t)) || (exists e :: EndFits(e) && part + lost == EndBytes(e)))
  }

  /** Cut off later, it yields the header and exactly the ticks before the cut. */
  lemma CutInRecord(d: Dialect, h: Header, ticks: seq<Tick>, part: seq<u8>, lost: seq<u8>)
    requires HeaderFits(d, h) && TicksFit(d, ticks) && d.endAt == 3 && PartOfRecord(d, part, lost)
    ensures Drive(d, AwaitHeader, HeaderBytes(h) + (TicksBytes(ticks) + part))
         == Run([HeaderEvent(h, HeaderSize(h))] + TickEvents(ticks), Starved(AwaitRecord, part))
  {
    hide ParsePayload, ParseHeader;
    assert part + lost + [] == part + lost;
    if t :| TickFits(d, t) && part + lost == TickBytes(t) {
      TickRecordRoundTrip(d, t, []);
    } else {
      var e :| EndFits(e) && part + lost == EndBytes(e);
      EndRecordRoundTrip(d, e, []);
    }
    PartWaits(d, AwaitRecord, part, lost);
    HeaderThen(d, h, TicksBytes(ticks) + part);
    TicksThen(d, ticks, part);
    NothingAfter(TickEvents(ticks));
  }

  lemma NothingAfter<T>(s: seq<T>)
    ensures s + [] == s
  {
  }
}

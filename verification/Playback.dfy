/**
 The C++ decoder over a stream that arrives in pieces (src/replay.cpp:353-427,
 801-946) and the playback loop (src/cli/main.cpp:76-153). Playing a file gives the
 run of reads over it, with one exception: in front of a record of unknown type the
 loop waits, and if the end of the file has not been met by then, it waits forever.
 */
module Playback {
  import opened Common
  import opened GameRules
  import opened TileCodec
  import opened Wire
  import opened ReplayFormat
  import opened ReplayParser
  import opened ReplayRoundTrip
  import opened ReplayStream
  import opened StreamAdapter
  import opened CppDecoder

  /** ReadBuffer over the buffering form. */
  class StreamReader {
    const input: IstreamAdapter

    constructor (input: IstreamAdapter)
      ensures this.input == input
    {
      this.input := input;
    }

    ghost predicate Valid()
      reads this, input, input.stream
    {
      input.Valid() && input.absolutePosition <= |input.contents| && input.absolutePosition <= input.needed
    }

    ghost function Unread(): seq<u8>
      requires Valid()
      reads this, input, input.stream
    {
      input.contents[input.absolutePosition..]
    }

    /** So many bytes were read, and no call asked further. */
    twostate predicate Advanced(size: nat)
      requires old(Valid())
      reads this, input, input.stream
    {
      && Valid() && size <= |old(Unread())| && Unread() == old(Unread())[size..]
      && input.absolutePosition == old(input.absolutePosition) + size
      && input.needed == Most(old(input.needed), input.absolutePosition)
    }

    /** The end of a file has been met exactly if the blocks reached into go beyond it. */
    lemma EndOfFile()
      requires Valid() && input.stream.blocks && input.needed == input.absolutePosition + 1
      ensures |Unread()| <= |input.contents|
      ensures input.stream.eof <==> WholeBlocks(|input.contents| - |Unread()| + 1) > |input.contents|
    {
    }

    method Has(size: nat) returns (r: bool)
      requires Valid()
      modifies input`buffer, input`streamEnded, input`needed, input.stream
      ensures Valid() && Unread() == old(Unread()) && (r <==> size <= |Unread()|)
      ensures input.needed == Most(old(input.needed), input.absolutePosition + size)
      ensures !r ==> input.stream.eof
    {
      r := input.Has(size);
    }

    method Peek(size: nat) returns (r: seq<u8>)
      requires Valid() && size <= |Unread()|
      modifies input`buffer, input`streamEnded, input`needed, input.stream
      ensures Valid() && Unread() == old(Unread()) && r == Unread()[..size]
      ensures input.needed == Most(old(input.needed), input.absolutePosition + size)
    {
      r := input.Peek(size);
    }

    method Skip(size: nat)
      requires Valid() && size <= |Unread()|
      modifies input, input.stream
      ensures Advanced(size)
    {
      input.Skip(size);
    }

    method ReadBytes(size: nat) returns (r: seq<u8>)
      requires Valid() && size <= |Unread()|
      modifies input, input.stream
      ensures Advanced(size) && r == old(Unread())[..size]
    {
      r := Peek(size);
      Skip(size);
    }

    method ReadU8() returns (v: u8)
      requires Valid() && 1 <= |Unread()|
      modifies input, input.stream
      ensures Advanced(1) && v == old(Unread())[0]
    {
      var bytes := ReadBytes(1);
      v := bytes[0];
    }

    method ReadU16() returns (v: u16)
      requires Valid() && 2 <= |Unread()|
      modifies input, input.stream
      ensures Advanced(2) && v == GetU16(old(Unread()))
    {
      var bytes := ReadBytes(2);
      v := bytes[0] as int + 0x100 * (bytes[1] as int);
    }

    method ReadU32() returns (v: u32)
      requires Valid() && 4 <= |Unread()|
      modifies input, input.stream
      ensures Advanced(4) && v == GetU32(old(Unread()))
    {
      var bytes := ReadBytes(4);
      v := bytes[0] as int + 0x100 * (bytes[1] as int) + 0x1_0000 * (bytes[2] as int) + 0x100_0000 * (bytes[3] as int);
    }
  }

  // ---- Header and end marker ----

  /** The header at the front of b: what ParseHeader says if it is there in full. */
  function HeaderOutcome(b: seq<u8>): Result<Header, ErrorCode> {
    if |b| < 8 then Failure(TruncatedInput)
    else if |b| >= 8 + GetU16(b[6..]) then ParseHeader(CPP, b)
    else if b[..4] != MAGIC then Failure(BadMagic)
    else if GetU16(b[4..]) != VERSION then Failure(UnsupportedVersion)
    else Failure(TruncatedHeaderPayload)
  }

  method DecodeReplayHeader(reader: StreamReader) returns (r: Result<Header, ErrorCode>)
    requires reader.Valid()
    modifies reader.input, reader.input.stream
    ensures reader.Valid() && r == HeaderOutcome(old(reader.Unread()))
    ensures r.Success? ==> reader.Advanced(8 + GetU16(old(reader.Unread())[6..]))
  {
    hide IstreamAdapter.Valid, ParseHeaderPayload, GetU16;
    ghost var b := reader.Unread();
    var available := reader.Has(8);
    if !available {
      return Failure(TruncatedInput);
    }
    var magic := ReadMagic(reader);
    if !magic {
      return Failure(BadMagic);
    }
    var version := reader.ReadU16();
    var headerSize := reader.ReadU16();
    if version != VERSION {
      return Failure(UnsupportedVersion);
    }
    available := reader.Has(headerSize);
    if !available {
      return Failure(TruncatedHeaderPayload);
    }
    var payload := reader.ReadBytes(headerSize);
    assert payload == b[8..8 + headerSize as int];
    r := DecodeHeaderPayload(payload, version);
  }

  method ReadMagic(reader: StreamReader) returns (r: bool)
    requires reader.Valid() && |reader.Unread()| >= 4
    modifies reader.input, reader.input.stream
    ensures reader.Valid() && (r <==> old(reader.Unread())[..4] == MAGIC)
    ensures r ==> reader.Advanced(4)
  {
    hide IstreamAdapter.Valid;
    ghost var b := reader.Unread();
    for i := 0 to 4
      invariant reader.Valid() && reader.Unread() == b[i..] && b[..i] == MAGIC[..i]
      invariant reader.input.absolutePosition == old(reader.input.absolutePosition) + i
      invariant reader.input.needed == Most(old(reader.input.needed), reader.input.absolutePosition)
    {
      TakeOneMore(b, i);
      TakeOneMore(MAGIC, i);
      var magic := reader.ReadU8();
      if magic != MAGIC[i] {
        assert b[..4][i] != MAGIC[i];
        return false;
      }
    }
    return true;
  }

  method DecodeReplayEndMarker(reader: StreamReader) returns (r: Result<EndMarker, ErrorCode>)
    requires reader.Valid()
    modifies reader.input, reader.input.stream
    ensures reader.Valid()
    ensures var b := old(reader.Unread());
            if |b| < 2 then r == Failure(TruncatedEndMarker)
            else r == ParseEnd(b[0], b[1]) && (r.Success? ==> reader.Advanced(2))
  {
    hide IstreamAdapter.Valid;
    var available := reader.Has(2);
    if !available {
      return Failure(TruncatedEndMarker);
    }
    var raw := reader.ReadU8();
    if raw > 2 {
      return Failure(InvalidReplayTermination);
    }
    var winner := reader.ReadU8();
    var termination := if raw == 0 then Completed else if raw == 1 then Aborted else RuleDraw;
    match termination {
      case Completed =>
        if winner == 0 || winner > 2 {
          return Failure(InvalidEndMarkerPayload);
        }
      case Aborted =>
        if winner != 0 {
          return Failure(InvalidEndMarkerPayload);
        }
      case RuleDraw =>
        if winner != 0 {
          return Failure(InvalidEndMarkerPayload);
        }
    }
    r := Success(EndMarker(termination, winner));
  }

  // ---- ReplayStreamDecoder ----

  datatype DecoderPhase = BeforeHeader | InTicks | AtEnd

  datatype ReadOutcome = ReadTick(tick: Tick) | ReadEnd | ReadError(code: ErrorCode)

  /** What nextTick makes of the record at the front of b. */
  function RecordOutcome(b: seq<u8>): Result<Event, ErrorCode>
    requires |b| >= 1 && (b[0] == TICK_RECORD ==> |b| >= 9)
  {
    if b[0] == END_RECORD then
      if |b| < 3 then Failure(TruncatedEndMarker)
      else match ParseEnd(b[1], b[2])
        case Failure(e) => Failure(e)
        case Success(m) => Success(EndEvent(m))
    else if b[0] != TICK_RECORD then Failure(UnknownRecordType)
    else if |b| < 9 + GetU32(b[5..]) then Failure(TickPayloadTooSmall)
    else match ParsePayload(CPP, GetU32(b[1..]), b[9..9 + GetU32(b[5..])])
      case Failure(e) => Failure(e)
      case Success(t) => Success(TickEvent(t))
  }

  /** When the next record is said to be readable, reading it is one step of the run. */
  lemma ReadableRecordIsNext(b: seq<u8>)
    requires !Next(CPP, AwaitRecord, b).NeedMore?
    ensures match RecordOutcome(b)
            case Failure(e) => Next(CPP, AwaitRecord, b) == Fail(e)
            case Success(e) => Next(CPP, AwaitRecord, b).Yield? && Next(CPP, AwaitRecord, b).event == e
  {
  }

  /** An end record is said to be readable one byte too early, and only then does
      reading a readable record run out of bytes. */
  lemma EndRecordIsTriedEarly(b: seq<u8>)
    requires !Next(CPP, AwaitRecord, b).NeedMore?
    ensures Next(CPP, AwaitRecord, b) == Fail(TruncatedEndMarker) <==> |b| == 2 && b[0] == END_RECORD
  {
    if b[0] == TICK_RECORD {
      PayloadHasNoEnd(GetU32(b[1..]), b[9..9 + GetU32(b[5..])]);
    }
  }

  lemma PayloadHasNoEnd(tick: u32, b: seq<u8>)
    ensures ParsePayload(CPP, tick, b) != Failure(TruncatedEndMarker)
  {
    hide ParseLogList, ParseLog, GetUnits, GetBullets;
    forall c: seq<u8>, n: nat
      ensures ParseLogList(CPP, c, n) != Err(TruncatedEndMarker)
    {
      LogsHaveNoEnd(c, n);
    }
  }

  lemma {:induction false} LogsHaveNoEnd(b: seq<u8>, n: nat)
    ensures ParseLogList(CPP, b, n) != Err(TruncatedEndMarker)
    decreases n
  {
    if n > 0 && ParseLog(CPP, b).Ok? {
      LogsHaveNoEnd(ParseLog(CPP, b).rest, n - 1);
    }
  }

  /** A record of neither type is in front. */
  predicate Foreign(b: seq<u8>) {
    b != [] && b[0] != TICK_RECORD && b[0] != END_RECORD
  }

  class ReplayStreamDecoder {
    const reader: StreamReader
    var phase: DecoderPhase
    var header: Option<Header>
    var endMarker: Option<EndMarker>

    constructor (reader: StreamReader)
      requires reader.Valid()
      ensures this.reader == reader && Valid() && phase == BeforeHeader
    {
      this.reader := reader;
      phase, header, endMarker := BeforeHeader, None, None;
    }

    ghost predicate Valid()
      reads this, reader, reader.input, reader.input.stream
    {
      && reader.Valid()
      && (header.Some? <==> phase != BeforeHeader) && (endMarker.Some? <==> phase == AtEnd)
    }

    ghost function Unread(): seq<u8>
      requires Valid()
      reads this, reader, reader.input, reader.input.stream
    {
      reader.Unread()
    }

    /** Where an n-th byte from here would end. */
    ghost function Upto(n: nat): nat
      reads this, reader, reader.input
    {
      reader.input.absolutePosition + n
    }

    ghost function Needed(): nat
      reads this, reader, reader.input
    {
      reader.input.needed
    }

    method CanReadHeader() returns (r: bool)
      requires Valid()
      modifies reader.input`buffer, reader.input`streamEnded, reader.input`needed, reader.input.stream
      ensures Valid() && Unread() == old(Unread())
      ensures phase == BeforeHeader ==> (r <==> !NextHeader(CPP, Unread()).NeedMore?)
      ensures phase == BeforeHeader && r ==>
                |Unread()| >= 8 && Needed() <= Most(old(Needed()), Upto(8 + GetU16(Unread()[6..])))
      ensures phase != BeforeHeader ==> r
    {
      hide IstreamAdapter.Valid, ParseHeader;
      if phase != BeforeHeader {
        return true;
      }
      var available := reader.Has(8);
      if !available {
        return false;
      }
      var prefix := reader.Peek(8);
      assert prefix[6..] == Unread()[6..8];
      var headerSize := prefix[6] as int + 0x100 * (prefix[7] as int);
      r := reader.Has(8 + headerSize);
    }

    method CanReadNextRecord() returns (r: bool)
      requires Valid()
      modifies reader.input`buffer, reader.input`streamEnded, reader.input`needed, reader.input.stream
      ensures Valid() && Unread() == old(Unread())
      ensures phase == InTicks ==> (r <==> !Next(CPP, AwaitRecord, Unread()).NeedMore?)
      ensures phase != InTicks ==> !r
      ensures phase == InTicks && !r ==> reader.input.stream.eof || Foreign(Unread())
      ensures Foreign(Unread()) ==> Needed() == Most(old(Needed()), Upto(1))
      ensures Next(CPP, AwaitRecord, Unread()).Yield? ==>
                Needed() <= Most(old(Needed()), Upto(|Unread()| - |Next(CPP, AwaitRecord, Unread()).rest|))
    {
      hide IstreamAdapter.Valid, ParsePayload, GetU32;
      var available := reader.Has(1);
      if phase != InTicks || !available {
        return false;
      }
      var recordType := reader.Peek(1);
      assert recordType[0] == Unread()[0];
      if recordType[0] == END_RECORD {
        r := reader.Has(2);
        return;
      }
      if recordType[0] != TICK_RECORD {
        return false;
      }
      r := CanReadTick();
    }

    /** The tick record in front is there in full. */
    method CanReadTick() returns (r: bool)
      requires Valid()
      modifies reader.input`buffer, reader.input`streamEnded, reader.input`needed, reader.input.stream
      ensures Valid() && Unread() == old(Unread())
      ensures r <==> |Unread()| >= 9 && |Unread()| >= 9 + GetU32(Unread()[5..])
      ensures if r then Needed() == Most(old(Needed()), Upto(9 + GetU32(Unread()[5..]))) else reader.input.stream.eof
    {
      hide IstreamAdapter.Valid;
      var available := reader.Has(9);
      if !available {
        return false;
      }
      var prefix := reader.Peek(9);
      assert prefix[5] == Unread()[5..][0] && prefix[6] == Unread()[5..][1];
      assert prefix[7] == Unread()[5..][2] && prefix[8] == Unread()[5..][3];
      var size := prefix[5] as int + 0x100 * (prefix[6] as int) + 0x1_0000 * (prefix[7] as int) + 0x100_0000 * (prefix[8] as int);
      r := reader.Has(9 + size);
    }

    method ReadHeader() returns (r: Result<(), ErrorCode>)
      requires Valid() && phase == BeforeHeader && !NextHeader(CPP, Unread()).NeedMore?
      modifies this, reader.input, reader.input.stream
      ensures Valid()
      ensures match NextHeader(CPP, old(Unread()))
              case Fail(code) => r == Failure(code) && phase == BeforeHeader
              case Yield(e, rest) =>
                && r.Success? && phase == InTicks && Unread() == rest && header == Some(e.header)
                && Needed() == Most(old(Needed()), Upto(0)) && Upto(0) == old(Upto(8 + GetU16(Unread()[6..])))
    {
      hide IstreamAdapter.Valid, ParseHeader;
      var decoded := DecodeReplayHeader(reader);
      if decoded.Failure? {
        return Failure(decoded.error);
      }
      header := Some(decoded.value);
      phase := InTicks;
      r := Success(());
    }

    /** Reads one record, which must be there as far as its size field. */
    method NextTick() returns (r: ReadOutcome)
      requires Valid() && phase == InTicks && |Unread()| >= 1 && (Unread()[0] == TICK_RECORD ==> |Unread()| >= 9)
      modifies this, reader.input, reader.input.stream
      ensures Valid() && header == old(header)
      ensures match RecordOutcome(old(Unread()))
              case Failure(code) => r == ReadError(code) && phase == InTicks
              case Success(TickEvent(t)) => r == ReadTick(t) && phase == InTicks
              case Success(EndEvent(m)) => r == ReadEnd && phase == AtEnd && endMarker == Some(m)
              case Success(HeaderEvent(_, _)) => false
      ensures Next(CPP, AwaitRecord, old(Unread())).Yield? ==>
                && Unread() == Next(CPP, AwaitRecord, old(Unread())).rest
                && Needed() == Most(old(Needed()), Upto(0))
    {
      hide IstreamAdapter.Valid, ParsePayload, GetU32;
      ghost var b := Unread();
      var recordType := reader.ReadU8();
      if recordType == END_RECORD {
        var decoded := DecodeReplayEndMarker(reader);
        if decoded.Failure? {
          return ReadError(decoded.error);
        }
        endMarker := Some(decoded.value);
        phase := AtEnd;
        return ReadEnd;
      }
      if recordType != TICK_RECORD {
        return ReadError(UnknownRecordType);
      }
      r := ReadTickRecord(b);
    }

    /** The rest of a tick record b, whose type has been read. */
    method ReadTickRecord(ghost b: seq<u8>) returns (r: ReadOutcome)
      requires Valid() && |b| >= 9 && b[0] == TICK_RECORD && Unread() == b[1..]
      modifies reader.input, reader.input.stream
      ensures Valid()
      ensures match RecordOutcome(b)
              case Failure(code) => r == ReadError(code)
              case Success(e) => e.TickEvent? && r == ReadTick(e.tick)
      ensures r.ReadTick? ==> Unread() == b[9 + GetU32(b[5..])..] && Needed() == Most(old(Needed()), Upto(0))
    {
      hide IstreamAdapter.Valid, ParsePayload, GetU32;
      var tickId := reader.ReadU32();
      assert Unread() == b[5..];
      var size: nat := reader.ReadU32();
      assert Unread() == b[9..];
      var available := reader.Has(size);
      if !available {
        return ReadError(TickPayloadTooSmall);
      }
      var payload := reader.Peek(size);
      assert payload == b[9..9 + size];
      var tick := DecodeReplayTickPayload(payload, tickId);
      if tick.Failure? {
        return ReadError(tick.error);
      }
      reader.Skip(size);
      r := ReadTick(tick.value);
    }
  }

  // ---- Playback ----

  lemma HeaderStep(b: seq<u8>)
    requires NextHeader(CPP, b).Yield?
    ensures |b| >= 8 && NextHeader(CPP, b).event == HeaderEvent(NextHeader(CPP, b).event.header, GetU16(b[6..]))
  {
  }

  lemma ReadableRecordIsThere(b: seq<u8>)
    requires !Next(CPP, AwaitRecord, b).NeedMore?
    ensures |b| >= 1 && (b[0] == TICK_RECORD ==> |b| >= 9)
  {
  }

  /** The run starves in front of a record of unknown type. */
  predicate Sticks(r: Run) {
    match r.outcome
    case Starved(AwaitRecord, unread) => Foreign(unread)
    case _ => false
  }

  /** How a run begins, by what reading the header gives. */
  ghost predicate Begins(b: seq<u8>, step: Step) {
    var run := Drive(CPP, AwaitHeader, b);
    match step
    case NeedMore => !Sticks(run) && Finished(true, run) == Answer([], Some(MissingHeader))
    case Fail(code) => !Sticks(run) && Finished(true, run) == Answer([], Some(code))
    case Yield(e, rest) => run == Drive(CPP, AwaitRecord, rest).After([e])
  }

  lemma Beginning(b: seq<u8>)
    ensures Begins(b, NextHeader(CPP, b))
  {
    hide ParseHeader;
  }

  /** What the user has seen when the playback is over: all of an answer, or what was
      published when the user stopped a playback that had nothing more to show. */
  datatype Outcome = Over(answer: Answer) | Stopped(events: seq<Event>)

  /** The loop of the playback, after the header. The user stops it after so many
      rounds in which nothing could be read. */
  method PlayRecords(decoder: ReplayStreamDecoder, first: seq<Event>, patience: nat) returns (a: Outcome)
    requires decoder.Valid() && decoder.phase == InTicks && decoder.Needed() <= decoder.Upto(0)
    modifies decoder, decoder.reader.input, decoder.reader.input.stream
    ensures decoder.reader.Valid()
    ensures var run := Drive(CPP, AwaitRecord, old(decoder.Unread())).After(first);
            && a == (if Sticks(run) && !decoder.reader.input.stream.eof then Stopped(run.events) else Over(Finished(true, run)))
            && (Sticks(run) ==> decoder.reader.Unread() == run.outcome.unread && decoder.Needed() == decoder.Upto(1))
  {
    hide IstreamAdapter.Valid, NextHeader, NextTick, NextEnd, RecordOutcome, Drive;
    ghost var whole := Drive(CPP, AwaitRecord, decoder.Unread()).After(first);
    var events, rounds: nat := first, patience;
    while true
      invariant decoder.Valid() && decoder.phase == InTicks && rounds <= patience
      invariant whole == Drive(CPP, AwaitRecord, decoder.Unread()).After(events)
      invariant decoder.Needed() <= decoder.Upto(if Foreign(decoder.Unread()) then 1 else 0)
      decreases |decoder.Unread()|, rounds
    {
      ghost var b := decoder.Unread();
      DriveOneMore(CPP, whole, events, AwaitRecord, b);
      var ready := decoder.CanReadNextRecord();
      if ready {
        ReadableRecordIsThere(b);
        ReadableRecordIsNext(b);
        var result := decoder.NextTick();
        match result {
          case ReadError(code) => return Over(Answer(events, Some(code)));
          case ReadTick(t) => events := events + [TickEvent(t)];
          case ReadEnd => return Over(Answer(events + [EndEvent(decoder.endMarker.value)], None));
        }
      } else if decoder.reader.input.stream.eof {
        return Over(Answer(events, Some(MissingEndMarker)));
      } else if rounds == 0 {
        return Stopped(events);
      } else {
        rounds := rounds - 1;
      }
    }
  }

  /** What playing a file of these bytes comes to: it waits forever exactly if the run
      sticks at a byte whose block of 4096 is complete. */
  function Played(bytes: seq<u8>): Outcome {
    var run := Drive(CPP, AwaitHeader, bytes);
    if Sticks(run) && |run.outcome.unread| <= |bytes| && WholeBlocks(|bytes| - |run.outcome.unread| + 1) <= |bytes|
      then Stopped(run.events)
    else Over(Finished(true, run))
  }

  /** The whole playback, over the bytes a fresh decoder is to read. */
  method PlayAll(decoder: ReplayStreamDecoder, patience: nat) returns (a: Outcome)
    requires decoder.Valid() && decoder.phase == BeforeHeader && decoder.Needed() <= decoder.Upto(0)
    modifies decoder, decoder.reader.input, decoder.reader.input.stream
    ensures decoder.reader.Valid()
    ensures var run := Drive(CPP, AwaitHeader, old(decoder.Unread()));
            && a == (if Sticks(run) && !decoder.reader.input.stream.eof then Stopped(run.events) else Over(Finished(true, run)))
            && (Sticks(run) ==> decoder.reader.Unread() == run.outcome.unread && decoder.Needed() == decoder.Upto(1))
  {
    hide NextHeader, Drive, Finished, IstreamAdapter.Valid, Sticks;
    ghost var bytes := decoder.Unread();
    Beginning(bytes);
    var ready := decoder.CanReadHeader();
    if !ready {
      return Over(Answer([], Some(MissingHeader)));
    }
    var prefix := decoder.reader.Peek(8);
    assert prefix[6..] == bytes[6..8];
    var read := decoder.ReadHeader();
    if read.Failure? {
      return Over(Answer([], Some(read.error)));
    }
    HeaderStep(bytes);
    a := PlayRecords(decoder, [HeaderEvent(decoder.header.value, GetU16(prefix[6..]))], patience);
  }

  /** Playing: what is published is the run of reads over the file, whose end is
      treated as strictly as in the script decoder; but while the end has not been met,
      a record of unknown type is waited for until the user stops, however late. */
  method Play(source: Source, patience: nat) returns (a: Outcome)
    requires !source.eof
    modifies source
    ensures var run := Drive(CPP, AwaitHeader, old(source.rest));
            a == if Sticks(run) && !source.eof then Stopped(run.events) else Over(Finished(true, run))
    ensures source.blocks ==> a == Played(old(source.rest))
  {
    hide Drive, Finished, WholeBlocks, IstreamAdapter.Valid, Sticks, Next;
    var input := new IstreamAdapter(source);
    var reader := new StreamReader(input);
    var decoder := new ReplayStreamDecoder(reader);
    assert decoder.Unread() == old(source.rest);
    a := PlayAll(decoder, patience);
    if source.blocks && Sticks(Drive(CPP, AwaitHeader, old(source.rest))) {
      reader.EndOfFile();
    }
  }

  lemma NothingBeforeForeign(tail: seq<u8>)
    requires Foreign(tail)
    ensures Drive(CPP, AwaitRecord, tail) == Run([], Starved(AwaitRecord, tail))
  {
    hide ParsePayload, ParseHeader;
  }

  lemma UnknownRecordStarves(h: Header, ticks: seq<Tick>, tail: seq<u8>)
    requires HeaderFits(CPP, h) && TicksFit(CPP, ticks) && Foreign(tail)
    ensures Drive(CPP, AwaitHeader, HeaderBytes(h) + TicksBytes(ticks) + tail)
         == Run([HeaderEvent(h, HeaderSize(h))] + TickEvents(ticks), Starved(AwaitRecord, tail))
  {
    hide ParsePayload, ParseHeader, PayloadBytes, Drive, HeaderBytes, Foreign;
    assert HeaderBytes(h) + TicksBytes(ticks) + tail == HeaderBytes(h) + (TicksBytes(ticks) + tail);
    HeaderThen(CPP, h, TicksBytes(ticks) + tail);
    TicksThen(CPP, ticks, tail);
    NothingAfter(TickEvents(ticks));
    NothingBeforeForeign(tail);
  }

  /** A file that goes on with a record of unknown type plays as far as the records
      before it. Then it waits forever if the 4096 bytes with that type in them are all
      there, and is reported as truncated otherwise. */
  lemma UnknownRecordPlays(h: Header, ticks: seq<Tick>, kind: u8, more: seq<u8>)
    requires HeaderFits(CPP, h) && TicksFit(CPP, ticks) && kind != TICK_RECORD && kind != END_RECORD
    ensures var front, events := HeaderBytes(h) + TicksBytes(ticks), [HeaderEvent(h, HeaderSize(h))] + TickEvents(ticks);
            Played(front + ([kind] + more))
            == if WholeBlocks(|front| + 1) <= |front| + 1 + |more| then Stopped(events)
               else Over(Answer(events, Some(MissingEndMarker)))
  {
    hide Drive, WholeBlocks, HeaderBytes, TicksBytes, TickEvents, TicksFit, HeaderFits;
    UnknownRecordStarves(h, ticks, [kind] + more);
  }

  /** A playback that never ends: a header of 54 bytes, the byte 2, and 5000 more.
      With 4000 more it ends. */
  lemma PlaybackCanWait(rules: Rules)
    ensures var h := Header(VERSION, ReplayTilemap(4, 4, 2, seq(16, _ => TileFlags(0, 0, false, false))), rules);
            && |HeaderBytes(h)| == 54
            && Played(HeaderBytes(h) + ([2] + seq(5000, _ => 0))) == Stopped([HeaderEvent(h, 46)])
            && Played(HeaderBytes(h) + ([2] + seq(4000, _ => 0))) == Over(Answer([HeaderEvent(h, 46)], Some(MissingEndMarker)))
  {
    hide Played, WholeBlocks, TicksFit;
    var h := Header(VERSION, ReplayTilemap(4, 4, 2, seq(16, _ => TileFlags(0, 0, false, false))), rules);
    NoTicks();
    assert HeaderBytes(h) + [] == HeaderBytes(h);
    NothingAfter([HeaderEvent(h, 46)]);
    UnknownRecordPlays(h, [], 2, seq(5000, _ => 0));
    UnknownRecordPlays(h, [], 2, seq(4000, _ => 0));
    OneBlock(55);
  }

  lemma NoTicks()
    ensures TicksFit(CPP, []) && TicksBytes([]) == [] && TickEvents([]) == []
  {
  }

  lemma OneBlock(n: nat)
    requires 1 <= n <= BLOCK
    ensures WholeBlocks(n) == BLOCK
  {
  }
}

/**
 The TypeScript parsers (js/corereplay/src/internal): reads through a cursor that
 throw TRUNCATED_REPLAY at the end of the bytes, and the parsers built on them,
 proved to decode what ReplayParser says.
 */
module ByteReading {
  import opened Common
  import opened GameRules
  import opened TileCodec
  import opened Wire
  import opened ReplayFormat
  import opened ReplayParser

  class ByteReader {
    const bytes: seq<u8>
    var cursor: nat

    constructor (bytes: seq<u8>)
      ensures this.bytes == bytes && cursor == 0
    {
      this.bytes := bytes;
      cursor := 0;
    }

    ghost predicate Valid()
      reads this
    {
      cursor <= |bytes|
    }

    ghost function Unread(): seq<u8>
      requires Valid()
      reads this
    {
      bytes[cursor..]
    }

    method ReadU8() returns (r: Result<u8, ErrorCode>)
      requires Valid()
      modifies this
      ensures Valid()
      ensures if old(cursor) + 1 <= |bytes| then r == Success(bytes[old(cursor)]) && cursor == old(cursor) + 1
              else r == Failure(TruncatedReplay) && cursor == old(cursor)
    {
      if cursor + 1 > |bytes| {
        return Failure(TruncatedReplay);
      }
      r := Success(bytes[cursor]);
      cursor := cursor + 1;
    }

    method ReadU16() returns (r: Result<u16, ErrorCode>)
      requires Valid()
      modifies this
      ensures Valid()
      ensures if old(cursor) + 2 <= |bytes| then r == Success(GetU16(bytes[old(cursor)..])) && cursor == old(cursor) + 2
              else r == Failure(TruncatedReplay) && cursor == old(cursor)
    {
      if cursor + 2 > |bytes| {
        return Failure(TruncatedReplay);
      }
      r := Success(GetU16(bytes[cursor..]));
      cursor := cursor + 2;
    }

    method ReadU32() returns (r: Result<u32, ErrorCode>)
      requires Valid()
      modifies this
      ensures Valid()
      ensures if old(cursor) + 4 <= |bytes| then r == Success(GetU32(bytes[old(cursor)..])) && cursor == old(cursor) + 4
              else r == Failure(TruncatedReplay) && cursor == old(cursor)
    {
      if cursor + 4 > |bytes| {
        return Failure(TruncatedReplay);
      }
      r := Success(GetU32(bytes[cursor..]));
      cursor := cursor + 4;
    }

    method ReadBytes(size: nat) returns (r: Result<seq<u8>, ErrorCode>)
      requires Valid()
      modifies this
      ensures Valid()
      ensures if old(cursor) + size <= |bytes|
              then r == Success(bytes[old(cursor)..old(cursor) + size]) && cursor == old(cursor) + size
              else r == Failure(TruncatedReplay) && cursor == old(cursor)
    {
      if cursor + size > |bytes| {
        return Failure(TruncatedReplay);
      }
      r := Success(bytes[cursor..cursor + size]);
      cursor := cursor + size;
    }
  }

  // ---- parse_header.ts ----

  lemma TilesOneMore(b: seq<u8>, i: nat)
    requires i < |b|
    ensures GetTiles(b, i + 1) == GetTiles(b, i) + [Unpack(b[i])]
  {
  }

  method ParseTilemapAt(reader: ByteReader, limits: Limits) returns (r: Result<ReplayTilemap, ErrorCode>)
    requires reader.Valid()
    modifies reader
    ensures reader.Valid() && Delivers(r, reader.Unread(), ParseTilemap(Script(limits), old(reader.Unread())))
  {
    var width :- reader.ReadU16();
    var height :- reader.ReadU16();
    var baseSize :- reader.ReadU16();
    var _ :- reader.ReadBytes(2);
    if width > 256 || height > 256 {
      return Failure(TilemapDimensionsExceedMaximum);
    }
    // 256 * 256 tiles are the most there can be: the check of the tile count never fires.
    var tileCount := (width as int) * (height as int);
    var tiles: seq<TileFlags> := [];
    ghost var body := reader.Unread();
    for i := 0 to tileCount
      invariant reader.Valid() && i <= |body| && reader.Unread() == body[i..]
      invariant tiles == GetTiles(body, i)
    {
      var packed :- reader.ReadU8();
      TilesOneMore(body, i);
      tiles := tiles + [Unpack(packed)];
    }
    r := Success(ReplayTilemap(width, height, baseSize, tiles));
  }

  method ParseGameRules(reader: ByteReader) returns (r: Result<Rules, ErrorCode>)
    requires reader.Valid()
    modifies reader
    ensures reader.Valid()
    ensures if |old(reader.Unread())| < RULES_SIZE then r == Failure(TruncatedReplay)
            else r == Success(GetRules(old(reader.Unread())))
  {
    var width :- reader.ReadU8();
    var height :- reader.ReadU8();
    var baseSize :- reader.ReadU8();
    var unitHealth :- reader.ReadU8();
    var naturalEnergyRate :- reader.ReadU8();
    var resourceZoneEnergyRate :- reader.ReadU8();
    var attackCooldown :- reader.ReadU8();
    var captureTurnThreshold :- reader.ReadU8();
    var visionLv1 :- reader.ReadU8();
    var visionLv2 :- reader.ReadU8();
    var capacityLv1 :- reader.ReadU16();
    var capacityLv2 :- reader.ReadU16();
    var capacityUpgradeCost :- reader.ReadU16();
    var visionUpgradeCost :- reader.ReadU16();
    var damageUpgradeCost :- reader.ReadU16();
    var manufactCost :- reader.ReadU16();
    r := Success(Rules(width, height, baseSize, unitHealth, naturalEnergyRate, resourceZoneEnergyRate, attackCooldown,
                       captureTurnThreshold, visionLv1, visionLv2, capacityLv1, capacityLv2, capacityUpgradeCost,
                       visionUpgradeCost, damageUpgradeCost, manufactCost));
  }

  method ReadHeaderPayload(payload: seq<u8>, version: u16, limits: Limits) returns (r: Result<Header, ErrorCode>)
    ensures r == ParseHeaderPayload(Script(limits), version, payload)
  {
    var reader := new ByteReader(payload);
    var tilemap :- ParseTilemapAt(reader, limits);
    var rules :- ParseGameRules(reader);
    r := Success(Header(version, tilemap, rules));
  }

  /** The decoder only asks for a header that has arrived in full. */
  method ParseHeaderAt(bytes: seq<u8>, limits: Limits) returns (r: Result<(Header, u16), ErrorCode>)
    ensures |bytes| < 8 ==> r.Failure?
    ensures |bytes| >= 8 && |bytes| >= 8 + GetU16(bytes[6..]) ==>
            match ParseHeader(Script(limits), bytes)
            case Failure(e) => r == Failure(e)
            case Success(h) => r == Success((h, GetU16(bytes[6..])))
  {
    var reader := new ByteReader(bytes);
    for i := 0 to 4
      invariant reader.Valid() && reader.bytes == bytes && reader.cursor == i
      invariant bytes[..i] == MAGIC[..i]
    {
      var actual :- reader.ReadU8();
      TakeOneMore(bytes, i);
      TakeOneMore(MAGIC, i);
      if actual != MAGIC[i] {
        assert |bytes| >= 8 ==> bytes[..4][i] != MAGIC[i];
        return Failure(BadMagic);
      }
    }
    var version :- reader.ReadU16();
    var headerSize :- reader.ReadU16();
    if version != VERSION {
      return Failure(UnsupportedVersion);
    }
    var payload :- reader.ReadBytes(headerSize);
    var header :- ReadHeaderPayload(payload, version, limits);
    r := Success((header, headerSize));
  }

  // ---- parse_tick.ts ----

  method ReadPlayer(reader: ByteReader) returns (r: Result<ReplayPlayer, ErrorCode>)
    requires reader.Valid()
    modifies reader
    ensures reader.Valid()
    ensures if old(reader.cursor) + 4 <= |reader.bytes|
            then r == Success(GetPlayer(reader.bytes[old(reader.cursor)..])) && reader.cursor == old(reader.cursor) + 4
            else r == Failure(TruncatedReplay)
  {
    var id :- reader.ReadU8();
    var energy :- reader.ReadU16();
    var counter :- reader.ReadU8();
    r := Success(ReplayPlayer(id, energy, counter));
  }

  method ReadUnit(reader: ByteReader) returns (r: Result<ReplayUnit, ErrorCode>)
    requires reader.Valid()
    modifies reader
    ensures reader.Valid()
    ensures if old(reader.cursor) + 9 <= |reader.bytes|
            then r == Success(GetUnit(reader.bytes[old(reader.cursor)..])) && reader.cursor == old(reader.cursor) + 9
            else r == Failure(TruncatedReplay)
  {
    var id :- reader.ReadU8();
    var playerId :- reader.ReadU8();
    var x :- reader.ReadU8();
    var y :- reader.ReadU8();
    var health :- reader.ReadU8();
    var attackCooldown :- reader.ReadU8();
    var upgrades :- reader.ReadU8();
    var energy :- reader.ReadU16();
    r := Success(ReplayUnit(id, playerId, x, y, health, attackCooldown, upgrades, energy));
  }

  method ReadBullet(reader: ByteReader) returns (r: Result<ReplayBullet, ErrorCode>)
    requires reader.Valid()
    modifies reader
    ensures reader.Valid()
    ensures if old(reader.cursor) + 5 <= |reader.bytes|
            then r == Success(GetBullet(reader.bytes[old(reader.cursor)..])) && reader.cursor == old(reader.cursor) + 5
            else r == Failure(TruncatedReplay)
  {
    var x :- reader.ReadU8();
    var y :- reader.ReadU8();
    var direction :- reader.ReadU8();
    var playerId :- reader.ReadU8();
    var damage :- reader.ReadU8();
    r := Success(ReplayBullet(x, y, direction, playerId, damage));
  }

  lemma {:induction false} UnitsOneMore(b: seq<u8>, n: nat)
    requires |b| >= 9 * n + 9
    ensures GetUnits(b, n + 1) == GetUnits(b, n) + [GetUnit(b[9 * n..])]
  {
    if n > 0 {
      UnitsOneMore(b[9..], n - 1);
      assert b[9..][9 * (n - 1)..] == b[9 * n..];
    }
  }

  lemma {:induction false} BulletsOneMore(b: seq<u8>, n: nat)
    requires |b| >= 5 * n + 5
    ensures GetBullets(b, n + 1) == GetBullets(b, n) + [GetBullet(b[5 * n..])]
  {
    if n > 0 {
      BulletsOneMore(b[5..], n - 1);
      assert b[5..][5 * (n - 1)..] == b[5 * n..];
    }
  }

  method ReadUnits(reader: ByteReader, limits: Limits) returns (r: Result<seq<ReplayUnit>, ErrorCode>)
    requires reader.Valid()
    modifies reader
    ensures reader.Valid() && Delivers(r, reader.Unread(), ParseUnits(Script(limits), old(reader.Unread())))
  {
    var count :- reader.ReadU16();
    if count > limits.maxUnits {
      return Failure(UnitCountExceedsMaximum);
    }
    var units: seq<ReplayUnit> := [];
    ghost var body := reader.Unread();
    for i := 0 to count
      invariant reader.Valid() && 9 * i <= |body| && reader.Unread() == body[9 * i..]
      invariant units == GetUnits(body, i)
    {
      var unit :- ReadUnit(reader);
      UnitsOneMore(body, i);
      units := units + [unit];
    }
    r := Success(units);
  }

  method ReadBullets(reader: ByteReader, limits: Limits) returns (r: Result<seq<ReplayBullet>, ErrorCode>)
    requires reader.Valid()
    modifies reader
    ensures reader.Valid() && Delivers(r, reader.Unread(), ParseBullets(Script(limits), old(reader.Unread())))
  {
    var count :- reader.ReadU16();
    if count > limits.maxBullets {
      return Failure(BulletCountExceedsMaximum);
    }
    var bullets: seq<ReplayBullet> := [];
    ghost var body := reader.Unread();
    for i := 0 to count
      invariant reader.Valid() && 5 * i <= |body| && reader.Unread() == body[5 * i..]
      invariant bullets == GetBullets(body, i)
    {
      var bullet :- ReadBullet(reader);
      BulletsOneMore(body, i);
      bullets := bullets + [bullet];
    }
    r := Success(bullets);
  }

  method ParseLogEntry(reader: ByteReader, limits: Limits) returns (r: Result<LogEntry, ErrorCode>)
    requires reader.Valid()
    modifies reader
    ensures reader.Valid() && Delivers(r, reader.Unread(), ParseLog(Script(limits), old(reader.Unread())))
  {
    ghost var b := reader.Unread();
    var tick :- reader.ReadU32();
    var playerId :- reader.ReadU8();
    var unitId :- reader.ReadU8();
    var source :- reader.ReadU8();
    if source > 1 {
      return Failure(InvalidLogSourceValue);
    }
    var kind :- reader.ReadU8();
    if kind > 4 {
      return Failure(InvalidLogTypeValue);
    }
    var size :- reader.ReadU16();
    if size > limits.maxLogPayload {
      return Failure(LogPayloadSizeExceedsMaximum);
    }
    assert GetU16(b[8..]) == size;
    var payload :- reader.ReadBytes(size);
    assert b[10..10 + size] == payload && b[10 + size..] == reader.Unread();
    r := Success(LogEntry(tick, playerId, unitId, source, kind, payload));
  }

  /** A list whose first i entries are read continues with the others. */
  ghost predicate ListContinues(whole: Parsed<seq<LogEntry>>, logs: seq<LogEntry>, others: Parsed<seq<LogEntry>>) {
    whole == match others
             case Err(code) => Err(code)
             case Ok(more, rest) => Ok(logs + more, rest)
  }

  lemma ListStarts(whole: Parsed<seq<LogEntry>>)
    ensures ListContinues(whole, [], whole)
  {
    if whole.Ok? {
      assert [] + whole.value == whole.value;
    }
  }

  lemma ListEnds(d: Dialect, whole: Parsed<seq<LogEntry>>, logs: seq<LogEntry>, rest: seq<u8>)
    requires ListContinues(whole, logs, ParseLogList(d, rest, 0))
    ensures whole == Ok(logs, rest)
  {
    assert logs + [] == logs;
  }

  lemma ListContinuesOneMore(d: Dialect, whole: Parsed<seq<LogEntry>>, logs: seq<LogEntry>, b: seq<u8>, n: nat)
    requires n > 0 && ListContinues(whole, logs, ParseLogList(d, b, n))
    ensures match ParseLog(d, b)
            case Err(code) => whole == Err(code)
            case Ok(log, rest) => ListContinues(whole, logs + [log], ParseLogList(d, rest, n - 1))
  {
    if ParseLog(d, b).Ok? && ParseLogList(d, ParseLog(d, b).rest, n - 1).Ok? {
      var more := ParseLogList(d, ParseLog(d, b).rest, n - 1).value;
      assert logs + ([ParseLog(d, b).value] + more) == logs + [ParseLog(d, b).value] + more;
    }
  }

  method ReadLogs(reader: ByteReader, limits: Limits) returns (r: Result<seq<LogEntry>, ErrorCode>)
    requires reader.Valid()
    modifies reader
    ensures reader.Valid() && Delivers(r, reader.Unread(), ParseLogs(Script(limits), old(reader.Unread())))
  {
    var count :- reader.ReadU16();
    if count > limits.maxLogs {
      return Failure(LogCountExceedsMaximum);
    }
    var logs: seq<LogEntry> := [];
    ghost var whole := ParseLogList(Script(limits), reader.Unread(), count);
    ListStarts(whole);
    for i := 0 to count
      invariant reader.Valid()
      invariant ListContinues(whole, logs, ParseLogList(Script(limits), reader.Unread(), count - i))
    {
      ListContinuesOneMore(Script(limits), whole, logs, reader.Unread(), count - i);
      var log :- ParseLogEntry(reader, limits);
      logs := logs + [log];
    }
    ListEnds(Script(limits), whole, logs, reader.Unread());
    r := Success(logs);
  }

  method ParseTickPayload(bytes: seq<u8>, tickId: u32, limits: Limits) returns (r: Result<Tick, ErrorCode>)
    ensures r == ParsePayload(Script(limits), tickId, bytes)
  {
    var reader := new ByteReader(bytes);
    var one :- ReadPlayer(reader);
    var two :- ReadPlayer(reader);
    var units :- ReadUnits(reader, limits);
    var bullets :- ReadBullets(reader, limits);
    var logs :- ReadLogs(reader, limits);
    r := Success(Tick(tickId, one, two, units, bullets, logs));
  }

  // ---- parse_end.ts ----

  method ParseEndMarkerAt(bytes: seq<u8>) returns (r: Result<EndMarker, ErrorCode>)
    ensures |bytes| >= 2 ==> r == ParseEnd(bytes[0], bytes[1])
    ensures |bytes| < 2 ==> r.Failure?
  {
    var reader := new ByteReader(bytes);
    var raw :- reader.ReadU8();
    if raw > 2 {
      return Failure(InvalidReplayTermination);
    }
    var winner :- reader.ReadU8();
    var termination;
    if raw == 0 {
      termination := Completed;
      if winner == 0 || winner > 2 {
        return Failure(InvalidEndMarkerPayload);
      }
    } else if raw == 1 {
      termination := Aborted;
      if winner != 0 {
        return Failure(InvalidEndMarkerPayload);
      }
    } else {
      termination := RuleDraw;
      if winner != 0 {
        return Failure(InvalidEndMarkerPayload);
      }
    }
    r := Success(EndMarker(termination, winner));
  }
}

/**
 The parts of the C++ decoder that work on a payload in memory (src/replay.cpp:59-179,
 236-328): checks for bytes before reading them. Proved to decode what ReplayParser
 says.
 */
module CppDecoder {
  import opened Common
  import opened GameRules
  import opened TileCodec
  import opened Wire
  import opened ReplayFormat
  import opened ReplayParser
  import opened StreamAdapter
  import B = ByteReading

  class ReadBuffer {
    const stream: MemoryStreamAdapter

    constructor (stream: MemoryStreamAdapter)
      ensures this.stream == stream
    {
      this.stream := stream;
    }

    ghost predicate Valid()
      reads this, stream
    {
      stream.cursor <= |stream.bytes|
    }

    ghost function Unread(): seq<u8>
      requires Valid()
      reads this, stream
    {
      stream.bytes[stream.cursor..]
    }

    method Has(size: nat) returns (r: bool)
      requires Valid()
      ensures r <==> size <= |Unread()|
    {
      r := stream.Has(size);
    }

    method ReadU8() returns (v: u8)
      requires Valid() && stream.cursor + 1 <= |stream.bytes|
      modifies stream
      ensures Valid() && stream.cursor == old(stream.cursor) + 1 && v == stream.bytes[old(stream.cursor)]
    {
      var bytes := stream.Peek(1);
      v := bytes[0];
      stream.Skip(1);
    }

    method ReadU16() returns (v: u16)
      requires Valid() && stream.cursor + 2 <= |stream.bytes|
      modifies stream
      ensures Valid() && stream.cursor == old(stream.cursor) + 2 && v == GetU16(stream.bytes[old(stream.cursor)..])
    {
      var bytes := stream.Peek(2);
      v := bytes[0] as int + 0x100 * (bytes[1] as int);
      stream.Skip(2);
    }

    method ReadU32() returns (v: u32)
      requires Valid() && stream.cursor + 4 <= |stream.bytes|
      modifies stream
      ensures Valid() && stream.cursor == old(stream.cursor) + 4 && v == GetU32(stream.bytes[old(stream.cursor)..])
    {
      var bytes := stream.Peek(4);
      v := bytes[0] as int + 0x100 * (bytes[1] as int) + 0x1_0000 * (bytes[2] as int) + 0x100_0000 * (bytes[3] as int);
      stream.Skip(4);
    }

    method ReadBytes(size: nat) returns (r: seq<u8>)
      requires Valid() && stream.cursor + size <= |stream.bytes|
      modifies stream
      ensures Valid() && stream.cursor == old(stream.cursor) + size
      ensures r == stream.bytes[old(stream.cursor)..stream.cursor]
    {
      r := stream.Peek(size);
      stream.Skip(size);
    }

    method Skip(size: nat)
      requires Valid() && stream.cursor + size <= |stream.bytes|
      modifies stream
      ensures Valid() && stream.cursor == old(stream.cursor) + size
    {
      stream.Skip(size);
    }
  }

  // ---- Header ----

  method DecodeTilemap(reader: ReadBuffer) returns (r: Result<ReplayTilemap, ErrorCode>)
    requires reader.Valid()
    modifies reader.stream
    ensures reader.Valid() && Delivers(r, reader.Unread(), ParseTilemap(CPP, old(reader.Unread())))
  {
    var available := reader.Has(8);
    if !available {
      return Failure(TruncatedTilemapHeader);
    }
    var width := reader.ReadU16();
    var height := reader.ReadU16();
    var baseSize := reader.ReadU16();
    reader.Skip(2);
    if width > 512 || height > 512 {
      return Failure(TilemapDimensionsExceedMaximum);
    }
    var count := (width as int) * (height as int);
    ghost var body := reader.Unread();
    available := reader.Has(count);
    if !available {
      return Failure(TilemapDataTruncated);
    }
    var tiles: seq<TileFlags> := [];
    for i := 0 to count
      invariant reader.Valid() && i <= |body| && reader.Unread() == body[i..]
      invariant tiles == GetTiles(body, i)
    {
      var packed := reader.ReadU8();
      B.TilesOneMore(body, i);
      tiles := tiles + [Unpack(packed)];
    }
    r := Success(ReplayTilemap(width, height, baseSize, tiles));
  }

  method DecodeGameRules(reader: ReadBuffer) returns (r: Result<Rules, ErrorCode>)
    requires reader.Valid()
    modifies reader.stream
    ensures reader.Valid()
    ensures if |old(reader.Unread())| < RULES_SIZE then r == Failure(TruncatedHeaderPayload)
            else r == Success(GetRules(old(reader.Unread())))
  {
    var available := reader.Has(RULES_SIZE);
    if !available {
      return Failure(TruncatedHeaderPayload);
    }
    var width := reader.ReadU8();
    var height := reader.ReadU8();
    var baseSize := reader.ReadU8();
    var unitHealth := reader.ReadU8();
    var naturalEnergyRate := reader.ReadU8();
    var resourceZoneEnergyRate := reader.ReadU8();
    var attackCooldown := reader.ReadU8();
    var captureTurnThreshold := reader.ReadU8();
    var visionLv1 := reader.ReadU8();
    var visionLv2 := reader.ReadU8();
    var capacityLv1 := reader.ReadU16();
    var capacityLv2 := reader.ReadU16();
    var capacityUpgradeCost := reader.ReadU16();
    var visionUpgradeCost := reader.ReadU16();
    var damageUpgradeCost := reader.ReadU16();
    var manufactCost := reader.ReadU16();
    r := Success(Rules(width, height, baseSize, unitHealth, naturalEnergyRate, resourceZoneEnergyRate, attackCooldown,
                       captureTurnThreshold, visionLv1, visionLv2, capacityLv1, capacityLv2, capacityUpgradeCost,
                       visionUpgradeCost, damageUpgradeCost, manufactCost));
  }

  method DecodeHeaderPayload(payload: seq<u8>, version: u16) returns (r: Result<Header, ErrorCode>)
    ensures r == ParseHeaderPayload(CPP, version, payload)
  {
    var stream := new MemoryStreamAdapter(payload);
    var reader := new ReadBuffer(stream);
    var tilemap := DecodeTilemap(reader);
    if tilemap.Failure? {
      return Failure(tilemap.error);
    }
    var rules := DecodeGameRules(reader);
    if rules.Failure? {
      return Failure(rules.error);
    }
    r := Success(Header(version, tilemap.value, rules.value));
  }

  // ---- Tick ----

  method DecodePlayer(reader: ReadBuffer) returns (p: ReplayPlayer)
    requires reader.Valid() && reader.stream.cursor + 4 <= |reader.stream.bytes|
    modifies reader.stream
    ensures reader.Valid() && reader.stream.cursor == old(reader.stream.cursor) + 4
    ensures p == GetPlayer(reader.stream.bytes[old(reader.stream.cursor)..])
  {
    var id := reader.ReadU8();
    var energy := reader.ReadU16();
    var counter := reader.ReadU8();
    p := ReplayPlayer(id, energy, counter);
  }

  method DecodeUnit(reader: ReadBuffer) returns (u: ReplayUnit)
    requires reader.Valid() && reader.stream.cursor + 9 <= |reader.stream.bytes|
    modifies reader.stream
    ensures reader.Valid() && reader.stream.cursor == old(reader.stream.cursor) + 9
    ensures u == GetUnit(reader.stream.bytes[old(reader.stream.cursor)..])
  {
    var id := reader.ReadU8();
    var playerId := reader.ReadU8();
    var x := reader.ReadU8();
    var y := reader.ReadU8();
    var health := reader.ReadU8();
    var attackCooldown := reader.ReadU8();
    var upgrades := reader.ReadU8();
    var energy := reader.ReadU16();
    u := ReplayUnit(id, playerId, x, y, health, attackCooldown, upgrades, energy);
  }

  method DecodeBullet(reader: ReadBuffer) returns (b: ReplayBullet)
    requires reader.Valid() && reader.stream.cursor + 5 <= |reader.stream.bytes|
    modifies reader.stream
    ensures reader.Valid() && reader.stream.cursor == old(reader.stream.cursor) + 5
    ensures b == GetBullet(reader.stream.bytes[old(reader.stream.cursor)..])
  {
    var x := reader.ReadU8();
    var y := reader.ReadU8();
    var direction := reader.ReadU8();
    var playerId := reader.ReadU8();
    var damage := reader.ReadU8();
    b := ReplayBullet(x, y, direction, playerId, damage);
  }

  method DecodeUnits(reader: ReadBuffer) returns (r: Result<seq<ReplayUnit>, ErrorCode>)
    requires reader.Valid()
    modifies reader.stream
    ensures reader.Valid() && Delivers(r, reader.Unread(), ParseUnits(CPP, old(reader.Unread())))
  {
    var available := reader.Has(2);
    if !available {
      return Failure(TickPayloadTooSmall);
    }
    var count: nat := reader.ReadU16();
    if count > 30 {
      return Failure(UnitCountExceedsMaximum);
    }
    ghost var body := reader.Unread();
    available := reader.Has(9 * count);
    if !available {
      return Failure(TickPayloadTooSmall);
    }
    var units: seq<ReplayUnit> := [];
    for i := 0 to count
      invariant reader.Valid() && 9 * count <= |body| && reader.Unread() == body[9 * i..]
      invariant units == GetUnits(body, i)
    {
      var unit := DecodeUnit(reader);
      B.UnitsOneMore(body, i);
      units := units + [unit];
    }
    r := Success(units);
  }

  method DecodeBullets(reader: ReadBuffer) returns (r: Result<seq<ReplayBullet>, ErrorCode>)
    requires reader.Valid()
    modifies reader.stream
    ensures reader.Valid() && Delivers(r, reader.Unread(), ParseBullets(CPP, old(reader.Unread())))
  {
    var available := reader.Has(2);
    if !available {
      return Failure(TickPayloadTooSmall);
    }
    var count: nat := reader.ReadU16();
    if count > 4096 {
      return Failure(BulletCountExceedsMaximum);
    }
    ghost var body := reader.Unread();
    available := reader.Has(5 * count);
    if !available {
      return Failure(TickPayloadTooSmall);
    }
    var bullets: seq<ReplayBullet> := [];
    for i := 0 to count
      invariant reader.Valid() && 5 * count <= |body| && reader.Unread() == body[5 * i..]
      invariant bullets == GetBullets(body, i)
    {
      var bullet := DecodeBullet(reader);
      B.BulletsOneMore(body, i);
      bullets := bullets + [bullet];
    }
    r := Success(bullets);
  }

  method DecodeLogEntry(reader: ReadBuffer) returns (r: Result<LogEntry, ErrorCode>)
    requires reader.Valid()
    modifies reader.stream
    ensures reader.Valid() && Delivers(r, reader.Unread(), ParseLog(CPP, old(reader.Unread())))
  {
    ghost var b := reader.Unread();
    var available := reader.Has(10);
    if !available {
      return Failure(TruncatedLogEntry);
    }
    var tick := reader.ReadU32();
    var playerId := reader.ReadU8();
    var unitId := reader.ReadU8();
    var source := reader.ReadU8();
    if source > 1 {
      return Failure(InvalidLogSourceValue);
    }
    var kind := reader.ReadU8();
    if kind > 4 {
      return Failure(InvalidLogTypeValue);
    }
    var size: nat := reader.ReadU16();
    assert GetU16(b[8..]) == size;
    if size > 512 {
      return Failure(LogPayloadSizeExceedsMaximum);
    }
    var payload: seq<u8> := [];
    if size > 0 {
      available := reader.Has(size);
      if !available {
        return Failure(LogPayloadTruncated);
      }
      payload := reader.ReadBytes(size);
    }
    assert b[10..10 + size] == payload && b[10 + size..] == reader.Unread();
    r := Success(LogEntry(tick, playerId, unitId, source, kind, payload));
  }

  method DecodeLogs(reader: ReadBuffer) returns (r: Result<seq<LogEntry>, ErrorCode>)
    requires reader.Valid()
    modifies reader.stream
    ensures reader.Valid() && Delivers(r, reader.Unread(), ParseLogs(CPP, old(reader.Unread())))
  {
    hide ParseLog;
    var available := reader.Has(2);
    if !available {
      return Failure(TickPayloadTooSmall);
    }
    var count: nat := reader.ReadU16();
    if count > 64 {
      return Failure(LogCountExceedsMaximum);
    }
    var logs: seq<LogEntry> := [];
    ghost var whole := ParseLogList(CPP, reader.Unread(), count);
    B.ListStarts(whole);
    for i := 0 to count
      invariant reader.Valid()
      invariant B.ListContinues(whole, logs, ParseLogList(CPP, reader.Unread(), count - i))
    {
      B.ListContinuesOneMore(CPP, whole, logs, reader.Unread(), count - i);
      var log := DecodeLogEntry(reader);
      if log.Failure? {
        return Failure(log.error);
      }
      logs := logs + [log.value];
    }
    B.ListEnds(CPP, whole, logs, reader.Unread());
    r := Success(logs);
  }

  method DecodeReplayTickPayload(payload: seq<u8>, tickId: u32) returns (r: Result<Tick, ErrorCode>)
    ensures r == ParsePayload(CPP, tickId, payload)
  {
    hide ParseUnits, ParseBullets, ParseLogs;
    var stream := new MemoryStreamAdapter(payload);
    var reader := new ReadBuffer(stream);
    var available := reader.Has(8);
    if !available {
      return Failure(TickPayloadTooSmall);
    }
    var one := DecodePlayer(reader);
    var two := DecodePlayer(reader);
    var units := DecodeUnits(reader);
    if units.Failure? {
      return Failure(units.error);
    }
    var bullets := DecodeBullets(reader);
    if bullets.Failure? {
      return Failure(bullets.error);
    }
    var logs := DecodeLogs(reader);
    if logs.Failure? {
      return Failure(logs.error);
    }
    r := Success(Tick(tickId, one, two, units.value, bullets.value, logs.value));
  }
}

/** Whatever fits the format and a decoder's limits decodes to itself. */
module ReplayRoundTrip {
  import opened Common
  import opened GameRules
  import opened TileCodec
  import opened Wire
  import opened ReplayFormat
  import opened ReplayParser

  // ---- Limits ----

  predicate HeaderFits(d: Dialect, h: Header) {
    && h.version == VERSION
    && h.tilemap.width <= d.maxDimension && h.tilemap.height <= d.maxDimension
    && HeaderSize(h) < 0x1_0000
    && |h.tilemap.tiles| == h.tilemap.width * h.tilemap.height
    && forall i :: 0 <= i < |h.tilemap.tiles| ==> h.tilemap.tiles[i].terrain < 4 && h.tilemap.tiles[i].side < 4
  }

  predicate LogFits(d: Dialect, l: LogEntry) {
    l.source <= 1 && l.kind <= 4 && |l.payload| <= d.limits.maxLogPayload && |l.payload| < 0x1_0000
  }

  predicate TickFits(d: Dialect, t: Tick) {
    !Oversized(d, t)
  }

  predicate Oversized(d: Dialect, t: Tick) {
    !(Encodable(t) && |PayloadBytes(t)| < 0x1_0000_0000
    && |t.units| <= d.limits.maxUnits && |t.bullets| <= d.limits.maxBullets && |t.logs| <= d.limits.maxLogs
    && forall i :: 0 <= i < |t.logs| ==> LogFits(d, t.logs[i]))
  }

  predicate EndFits(e: EndMarker) {
    if e.termination == Completed then e.winner == 1 || e.winner == 2 else e.winner == 0
  }

  // ---- Header ----

  lemma TilesRoundTrip(tiles: seq<TileFlags>, rest: seq<u8>)
    requires forall i :: 0 <= i < |tiles| ==> tiles[i].terrain < 4 && tiles[i].side < 4
    ensures GetTiles(Tiles(tiles) + rest, |tiles|) == tiles
  {
    forall i | 0 <= i < |tiles|
      ensures Unpack(Pack(tiles[i])) == tiles[i]
    {
      UnpackPack(tiles[i]);
    }
  }

  lemma WordAt(b: seq<u8>, k: nat, v: u16)
    requires k + 2 <= |b| && b[k..k + 2] == U16(v)
    ensures GetU16(b[k..]) == v
  {
    assert b[k] == b[k..k + 2][0] && b[k + 1] == b[k..k + 2][1];
  }

  lemma RulesRoundTrip(r: Rules)
    ensures GetRules(RulesBytes(r)) == r
  {
    hide U16;
    var b := RulesBytes(r);
    assert b[10..12] == U16(r.capacityLv1) && b[12..14] == U16(r.capacityLv2) && b[14..16] == U16(r.capacityUpgradeCost);
    assert b[16..18] == U16(r.visionUpgradeCost) && b[18..20] == U16(r.damageUpgradeCost) && b[20..22] == U16(r.manufactCost);
    WordAt(b, 10, r.capacityLv1);
    WordAt(b, 12, r.capacityLv2);
    WordAt(b, 14, r.capacityUpgradeCost);
    WordAt(b, 16, r.visionUpgradeCost);
    WordAt(b, 18, r.damageUpgradeCost);
    WordAt(b, 20, r.manufactCost);
  }

  lemma TilemapRoundTrip(d: Dialect, m: ReplayTilemap, rest: seq<u8>)
    requires m.width <= d.maxDimension && m.height <= d.maxDimension && |m.tiles| == m.width * m.height
    requires forall i :: 0 <= i < |m.tiles| ==> m.tiles[i].terrain < 4 && m.tiles[i].side < 4
    ensures ParseTilemap(d, TilemapBytes(m) + rest) == Ok(m, rest)
  {
    var b := TilemapBytes(m) + rest;
    assert b[..2] == U16(m.width) && b[2..4] == U16(m.height) && b[4..6] == U16(m.baseSize);
    assert b[8..] == Tiles(m.tiles) + rest;
    assert b[8 + |m.tiles|..] == rest;
    TilesRoundTrip(m.tiles, rest);
  }

  /** A header in front of anything decodes to itself, and its size field is the
      number of bytes that follow it. */
  lemma HeaderRoundTrip(d: Dialect, h: Header, rest: seq<u8>)
    requires HeaderFits(d, h)
    ensures var b := HeaderBytes(h) + rest;
            && |b| >= 8 && |HeaderBytes(h)| == 8 + GetU16(b[6..]) && ParseHeader(d, b) == Success(h)
  {
    var b := HeaderBytes(h) + rest;
    var payload := TilemapBytes(h.tilemap) + RulesBytes(h.rules);
    assert b == MAGIC + U16(h.version) + U16(HeaderSize(h)) + payload + rest;
    assert b[..4] == MAGIC && b[4..6] == U16(h.version) && b[6..8] == U16(HeaderSize(h));
    assert b[8..8 + HeaderSize(h)] == payload;
    TilemapRoundTrip(d, h.tilemap, RulesBytes(h.rules));
    RulesRoundTrip(h.rules);
  }

  // ---- Tick ----

  lemma {:induction false} UnitsRoundTrip(units: seq<ReplayUnit>, rest: seq<u8>)
    ensures GetUnits(UnitsBytes(units) + rest, |units|) == units
  {
    if units != [] {
      var tail := UnitsBytes(units[1..]) + rest;
      assert UnitsBytes(units) + rest == UnitBytes(units[0]) + tail;
      assert (UnitBytes(units[0]) + tail)[9..] == tail;
      assert (UnitBytes(units[0]) + tail)[7..9] == U16(units[0].energy);
      UnitsRoundTrip(units[1..], rest);
    }
  }

  lemma {:induction false} BulletsRoundTrip(bullets: seq<ReplayBullet>, rest: seq<u8>)
    ensures GetBullets(BulletsBytes(bullets) + rest, |bullets|) == bullets
  {
    if bullets != [] {
      var tail := BulletsBytes(bullets[1..]) + rest;
      assert BulletsBytes(bullets) + rest == BulletBytes(bullets[0]) + tail;
      assert (BulletBytes(bullets[0]) + tail)[5..] == tail;
      BulletsRoundTrip(bullets[1..], rest);
    }
  }

  lemma LogRoundTrip(d: Dialect, l: LogEntry, rest: seq<u8>)
    requires LogFits(d, l)
    ensures ParseLog(d, LogBytes(l) + rest) == Ok(l, rest)
  {
    var b := LogBytes(l) + rest;
    assert b == U32(l.tick) + ([l.playerId, l.unitId, l.source, l.kind] + U16(|l.payload|) + l.payload + rest);
    GetPutU32(l.tick, [l.playerId, l.unitId, l.source, l.kind] + U16(|l.payload|) + l.payload + rest);
    assert b[8..10] == U16(|l.payload|);
    assert b[10..10 + |l.payload|] == l.payload && b[10 + |l.payload|..] == rest;
  }

  /** The first log of a list, then the others. */
  lemma LogListStep(d: Dialect, b: seq<u8>, n: nat, log: LogEntry, more: seq<u8>, logs: seq<LogEntry>, rest: seq<u8>)
    requires n > 0 && ParseLog(d, b) == Ok(log, more) && ParseLogList(d, more, n - 1) == Ok(logs, rest)
    ensures ParseLogList(d, b, n) == Ok([log] + logs, rest)
  {
  }

  lemma {:induction false} LogsRoundTrip(d: Dialect, logs: seq<LogEntry>, rest: seq<u8>)
    requires LogsFit(logs) && forall i :: 0 <= i < |logs| ==> LogFits(d, logs[i])
    ensures ParseLogList(d, LogsBytes(logs) + rest, |logs|) == Ok(logs, rest)
  {
    if logs == [] {
      assert LogsBytes(logs) + rest == rest;
    } else {
      var more := LogsBytes(logs[1..]) + rest;
      assert LogsBytes(logs) + rest == LogBytes(logs[0]) + more;
      LogRoundTrip(d, logs[0], more);
      LogsRoundTrip(d, logs[1..], rest);
      LogListStep(d, LogBytes(logs[0]) + more, |logs|, logs[0], more, logs[1..], rest);
      assert [logs[0]] + logs[1..] == logs;
    }
  }

  /** The payload of a tick decodes to the tick. */
  lemma PayloadRoundTrip(d: Dialect, t: Tick)
    requires TickFits(d, t)
    ensures ParsePayload(d, t.tick, PayloadBytes(t)) == Success(t)
  {
    hide ParseUnits, ParseBullets, ParseLogs, LogsBytes, UnitsBytes, BulletsBytes, LogFits;
    var logs := U16(|t.logs|) + LogsBytes(t.logs);
    var bullets := U16(|t.bullets|) + BulletsBytes(t.bullets) + logs;
    var units := U16(|t.units|) + UnitsBytes(t.units) + bullets;
    var b := PayloadBytes(t);
    PlayersRoundTrip(t.one, t.two, units);
    assert b == PlayerBytes(t.one) + PlayerBytes(t.two) + units;
    UnitSectionRoundTrip(d, t.units, bullets);
    BulletSectionRoundTrip(d, t.bullets, logs);
    LogSectionRoundTrip(d, t.logs);
  }

  /** A tick with more logs than the decoder takes is rejected. */
  lemma TooManyLogsAreRejected(d: Dialect, t: Tick)
    requires Encodable(t) && |t.units| <= d.limits.maxUnits && |t.bullets| <= d.limits.maxBullets
    requires |t.logs| > d.limits.maxLogs
    ensures ParsePayload(d, t.tick, PayloadBytes(t)) == Failure(LogCountExceedsMaximum)
  {
    hide ParseUnits, ParseBullets, LogsBytes, UnitsBytes, BulletsBytes;
    var logs := U16(|t.logs|) + LogsBytes(t.logs);
    var bullets := U16(|t.bullets|) + BulletsBytes(t.bullets) + logs;
    var units := U16(|t.units|) + UnitsBytes(t.units) + bullets;
    PlayersRoundTrip(t.one, t.two, units);
    assert PayloadBytes(t) == PlayerBytes(t.one) + PlayerBytes(t.two) + units;
    UnitSectionRoundTrip(d, t.units, bullets);
    BulletSectionRoundTrip(d, t.bullets, logs);
    GetPutU16(|t.logs|, LogsBytes(t.logs));
  }

  lemma PlayersRoundTrip(p: ReplayPlayer, q: ReplayPlayer, rest: seq<u8>)
    ensures var b := PlayerBytes(p) + PlayerBytes(q) + rest;
            GetPlayer(b) == p && GetPlayer(b[4..]) == q && b[8..] == rest
  {
    var b := PlayerBytes(p) + PlayerBytes(q) + rest;
    assert b[1..3] == U16(p.baseEnergy) && b[5..7] == U16(q.baseEnergy);
    assert b[4..][1..3] == U16(q.baseEnergy);
  }

  lemma UnitSectionRoundTrip(d: Dialect, units: seq<ReplayUnit>, rest: seq<u8>)
    requires |units| < 0x1_0000 && |units| <= d.limits.maxUnits
    ensures ParseUnits(d, U16(|units|) + UnitsBytes(units) + rest) == Ok(units, rest)
  {
    var body := UnitsBytes(units) + rest;
    assert U16(|units|) + UnitsBytes(units) + rest == U16(|units|) + body;
    GetPutU16(|units|, body);
    assert body[9 * |units|..] == rest;
    UnitsRoundTrip(units, rest);
  }

  lemma BulletSectionRoundTrip(d: Dialect, bullets: seq<ReplayBullet>, rest: seq<u8>)
    requires |bullets| < 0x1_0000 && |bullets| <= d.limits.maxBullets
    ensures ParseBullets(d, U16(|bullets|) + BulletsBytes(bullets) + rest) == Ok(bullets, rest)
  {
    var body := BulletsBytes(bullets) + rest;
    assert U16(|bullets|) + BulletsBytes(bullets) + rest == U16(|bullets|) + body;
    GetPutU16(|bullets|, body);
    assert body[5 * |bullets|..] == rest;
    BulletsRoundTrip(bullets, rest);
  }

  lemma LogSectionRoundTrip(d: Dialect, logs: seq<LogEntry>)
    requires |logs| < 0x1_0000 && |logs| <= d.limits.maxLogs && LogsFit(logs)
    requires forall i :: 0 <= i < |logs| ==> LogFits(d, logs[i])
    ensures ParseLogs(d, U16(|logs|) + LogsBytes(logs)) == Ok(logs, [])
  {
    GetPutU16(|logs|, LogsBytes(logs));
    assert LogsBytes(logs) == LogsBytes(logs) + [];
    LogsRoundTrip(d, logs, []);
  }

  /** An end marker decodes to itself exactly when its winner goes with its reason. */
  lemma EndRoundTrip(e: EndMarker)
    ensures ParseEnd(TerminationCode(e.termination), e.winner) == Success(e) <==> EndFits(e)
  {
  }
}

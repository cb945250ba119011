/**
 The formats byte by byte and character by character: where each value of a replay
 (src/replay.cpp:39-57, 85-95, 124-139, 181-234, 330-351) and of a binary map
 (src/tilemap.cpp:380-423) is written, what the tiles of a text map are
 (src/tilemap.cpp:252-277), and what the decoders say to input beyond their limits
 (src/replay.cpp:59-83, 236-328).
 */
module Layout {
  import opened Common
  import opened GameRules
  import opened TileCodec
  import opened TileMap
  import opened Wire
  import opened ReplayFormat
  import opened ReplayParser
  import Bin = TilemapBinary
  import Txt = TilemapText

  // ---- Numbers ----

  /** The little-endian number of two bytes at an offset. */
  ghost predicate Word(b: seq<u8>, at: nat, v: int) {
    at + 2 <= |b| && b[at] as int + 256 * b[at + 1] as int == v
  }

  ghost predicate Long(b: seq<u8>, at: nat, v: int) {
    && at + 4 <= |b|
    && b[at] as int + 256 * b[at + 1] as int + 65536 * b[at + 2] as int + 16777216 * b[at + 3] as int == v
  }

  lemma WordOf(v: u16)
    ensures Word(U16(v), 0, v)
  {
  }

  lemma LongOf(v: u32)
    ensures Long(U32(v), 0, v)
  {
    GetPutU32(v, []);
    assert U32(v) + [] == U32(v);
  }

  // ---- Tiles ----

  /** Two bits of terrain, two of the side, one for resources, one for bases. */
  lemma TileByte(terrain: u8, side: u8, resource: bool, base: bool)
    requires terrain < 4 && side < 4
    ensures Pack(TileFlags(terrain, side, resource, base))
         == terrain + 4 * side + (if resource then 16 else 0) + (if base then 32 else 0)
    ensures EMPTY == 0 && WATER == 1 && OBSTACLE == 3
  {
  }

  /** The characters of a text map, with terrain 0 for plain, 1 for water, 3 for obstacle. */
  lemma TileCharacters(c: char)
    ensures Txt.TileFor(c) == (
              if c == '.' then Some(TileFlags(0, 0, false, false))
              else if c == '~' then Some(TileFlags(1, 0, false, false))
              else if c == '#' then Some(TileFlags(3, 0, false, false))
              else if c == '$' then Some(TileFlags(0, 0, true, false))
              else if c == 'B' then Some(TileFlags(0, 0, false, true)) else None)
  {
  }

  // ---- The header of a replay ----

  lemma {:induction false} TileAt(tiles: seq<TileFlags>, i: nat)
    requires i < |tiles|
    ensures |Tiles(tiles)| == |tiles| && Tiles(tiles)[i] == Pack(tiles[i])
  {
  }

  /** Magic, version, size of the rest; sizes of the map, two unused bytes, its tiles. */
  lemma HeaderLayout(h: Header, i: nat)
    requires HeaderSize(h) < 0x1_0000 && |h.tilemap.tiles| == h.tilemap.width * h.tilemap.height && i < |h.tilemap.tiles|
    ensures var b, m := HeaderBytes(h), h.tilemap;
            && b[..4] == [67, 82, 80, 76] && Word(b, 4, h.version) && Word(b, 6, |b| - 8)
            && Word(b, 8, m.width) && Word(b, 10, m.height) && Word(b, 12, m.baseSize) && Word(b, 14, 0)
            && |b| == 16 + |m.tiles| + 22 && b[16 + i] == Pack(m.tiles[i])
            && b[16 + |m.tiles|..] == RulesBytes(h.rules)
  {
    hide Pack, RulesBytes;
    var b, m := HeaderBytes(h), h.tilemap;
    assert b[8..] == TilemapBytes(m) + RulesBytes(h.rules);
    assert b[16..16 + |m.tiles|] == Tiles(m.tiles);
    TileAt(m.tiles, i);
    assert b[16 + i] == Tiles(m.tiles)[i];
    assert b[16 + |m.tiles|..] == RulesBytes(h.rules);
  }

  lemma RulesLayout(r: Rules)
    ensures var b := RulesBytes(r);
            && b[0] == r.width && b[1] == r.height && b[2] == r.baseSize && b[3] == r.unitHealth
            && b[4] == r.naturalEnergyRate && b[5] == r.resourceZoneEnergyRate && b[6] == r.attackCooldown
            && b[7] == r.captureTurnThreshold && b[8] == r.visionLv1 && b[9] == r.visionLv2
            && Word(b, 10, r.capacityLv1) && Word(b, 12, r.capacityLv2) && Word(b, 14, r.capacityUpgradeCost)
            && Word(b, 16, r.visionUpgradeCost) && Word(b, 18, r.damageUpgradeCost) && Word(b, 20, r.manufactCost)
  {
  }

  // ---- The record of a tick ----

  lemma {:induction false} UnitAt(units: seq<ReplayUnit>, i: nat)
    requires i < |units|
    ensures UnitsBytes(units)[9 * i..9 * i + 9] == UnitBytes(units[i])
  {
    hide UnitBytes;
    var first, rest := UnitBytes(units[0]), UnitsBytes(units[1..]);
    assert UnitsBytes(units) == first + rest;
    if i > 0 {
      UnitAt(units[1..], i - 1);
      assert (first + rest)[9 * i..9 * i + 9] == rest[9 * (i - 1)..9 * (i - 1) + 9];
    }
  }

  lemma {:induction false} BulletAt(bullets: seq<ReplayBullet>, i: nat)
    requires i < |bullets|
    ensures BulletsBytes(bullets)[5 * i..5 * i + 5] == BulletBytes(bullets[i])
  {
    hide BulletBytes;
    var first, rest := BulletBytes(bullets[0]), BulletsBytes(bullets[1..]);
    assert BulletsBytes(bullets) == first + rest;
    if i > 0 {
      BulletAt(bullets[1..], i - 1);
      assert (first + rest)[5 * i..5 * i + 5] == rest[5 * (i - 1)..5 * (i - 1) + 5];
    }
  }

  /** Type 1, tick, size of the rest; both players; each list with its length before it. */
  lemma TickLayout(t: Tick)
    requires Encodable(t) && |PayloadBytes(t)| < 0x1_0000_0000
    ensures var b, n, m := TickBytes(t), |t.units|, |t.bullets|;
            && |b| >= 23 + 9 * n + 5 * m
            && b[0] == 1 && Long(b, 1, t.tick) && Long(b, 5, |b| - 9)
            && b[9] == t.one.id && Word(b, 10, t.one.baseEnergy) && b[12] == t.one.baseCaptureCounter
            && b[13] == t.two.id && Word(b, 14, t.two.baseEnergy) && b[16] == t.two.baseCaptureCounter
            && Word(b, 17, n) && b[19..19 + 9 * n] == UnitsBytes(t.units)
            && Word(b, 19 + 9 * n, m) && b[21 + 9 * n..21 + 9 * n + 5 * m] == BulletsBytes(t.bullets)
            && Word(b, 21 + 9 * n + 5 * m, |t.logs|) && b[23 + 9 * n + 5 * m..] == LogsBytes(t.logs)
  {
    hide LogsBytes, UnitsBytes, BulletsBytes;
    var b, n, m := TickBytes(t), |t.units|, |t.bullets|;
    LongOf(t.tick);
    LongOf(|PayloadBytes(t)|);
    assert b[1..5] == U32(t.tick);
    assert b[5..9] == U32(|PayloadBytes(t)|) && b[9..] == PayloadBytes(t);
    assert b[9..13] == PlayerBytes(t.one) && b[13..17] == PlayerBytes(t.two);
    assert b[17..19] == U16(n);
    assert b[19..19 + 9 * n] == UnitsBytes(t.units);
    assert b[19 + 9 * n..21 + 9 * n] == U16(m);
    assert b[21 + 9 * n..21 + 9 * n + 5 * m] == BulletsBytes(t.bullets);
    var k := 21 + 9 * n + 5 * m;
    assert b[k..k + 2] == U16(|t.logs|) && b[k + 2..] == LogsBytes(t.logs);
  }

  lemma EntryLayouts(u: ReplayUnit, s: ReplayBullet, l: LogEntry)
    requires |l.payload| < 0x1_0000
    ensures var b := UnitBytes(u);
            && b[0] == u.id && b[1] == u.playerId && b[2] == u.x && b[3] == u.y && b[4] == u.health
            && b[5] == u.attackCooldown && b[6] == u.upgrades && Word(b, 7, u.energy)
    ensures BulletBytes(s) == [s.x, s.y, s.direction, s.playerId, s.damage]
    ensures var b := LogBytes(l);
            && Long(b, 0, l.tick) && b[4] == l.playerId && b[5] == l.unitId && b[6] == l.source && b[7] == l.kind
            && Word(b, 8, |l.payload|) && b[10..] == l.payload
  {
    LongOf(l.tick);
    assert LogBytes(l)[..4] == U32(l.tick);
  }

  lemma EndLayout(winner: u8)
    ensures EndBytes(EndMarker(Completed, winner)) == [255, 0, winner]
    ensures EndBytes(EndMarker(Aborted, winner)) == [255, 1, winner]
    ensures EndBytes(EndMarker(Termination.RuleDraw, winner)) == [255, 2, winner]
  {
  }

  // ---- Limits ----

  /** Both decoders take up to 30 units, 4096 bullets, 64 logs and 512 bytes of a log. */
  lemma CountLimits(d: Dialect, b: seq<u8>)
    requires EitherDecoder(d) && |b| >= 2
    ensures var n := b[0] as int + 256 * b[1] as int;
            && (ParseUnits(d, b) == Err(UnitCountExceedsMaximum) <==> n > 30)
            && (ParseBullets(d, b) == Err(BulletCountExceedsMaximum) <==> n > 4096)
            && (n > 64 ==> ParseLogs(d, b) == Err(LogCountExceedsMaximum))
  {
  }

  lemma LogPayloadLimit(d: Dialect, b: seq<u8>)
    requires EitherDecoder(d) && |b| >= 10 && b[6] <= 1 && b[7] <= 4
    ensures ParseLog(d, b) == Err(LogPayloadSizeExceedsMaximum) <==> b[8] as int + 256 * b[9] as int > 512
  {
  }

  /** The first fields of a header: "CRPL", then version 5. */
  lemma HeaderCodes(d: Dialect, b: seq<u8>)
    requires EitherDecoder(d) && |b| >= 8 && |b| >= 8 + GetU16(b[6..])
    ensures var magic := b[0] == 67 && b[1] == 82 && b[2] == 80 && b[3] == 76;
            && (ParseHeader(d, b) == Failure(BadMagic) <==> !magic)
            && (ParseHeader(d, b) == Failure(UnsupportedVersion) <==> magic && b[4] as int + 256 * b[5] as int != 5)
  {
    assert b[4..][0] == b[4] && b[4..][1] == b[5];
    assert b[..4] == [b[0], b[1], b[2], b[3]];
  }

  /** A log has source 0 or 1 and kind 0 to 4. */
  lemma LogCodes(d: Dialect, b: seq<u8>)
    requires EitherDecoder(d) && |b| >= 10
    ensures ParseLog(d, b) == Err(InvalidLogSourceValue) <==> b[6] > 1
    ensures ParseLog(d, b) == Err(InvalidLogTypeValue) <==> b[6] <= 1 && b[7] > 4
  {
  }

  /** An end has reason 0, with winner 1 or 2, or reason 1 or 2, without a winner. */
  lemma EndCodes(reason: u8, winner: u8)
    ensures var r := ParseEnd(reason, winner);
            && (r == Failure(InvalidReplayTermination) <==> reason > 2)
            && (r == Failure(InvalidEndMarkerPayload) <==>
                  (reason == 0 && winner != 1 && winner != 2) || (1 <= reason <= 2 && winner != 0))
            && (r.Success? ==> EndBytes(r.value) == [255, reason, winner])
  {
  }

  /** The C++ decoder takes maps of up to 512 tiles a side, the script decoder of 256. */
  lemma MapLimits(b: seq<u8>)
    requires |b| >= 8
    ensures var w, h := b[0] as int + 256 * b[1] as int, b[2] as int + 256 * b[3] as int;
            && (ParseTilemap(CPP, b) == Err(TilemapDimensionsExceedMaximum) <==> w > 512 || h > 512)
            && (ParseTilemap(Script(DEFAULT_LIMITS), b) == Err(TilemapDimensionsExceedMaximum) <==> w > 256 || h > 256)
  {
    assert b[2..][0] == b[2] && b[2..][1] == b[3];
  }

  /** What the C++ decoder says to input that ends too early; the script decoder has one
      word for all of it. */
  lemma ShortInputs(b: seq<u8>, tick: u32)
    ensures |b| < 8 ==> ParseTilemap(CPP, b) == Err(TruncatedTilemapHeader) && ParsePayload(CPP, tick, b) == Failure(TickPayloadTooSmall)
    ensures |b| < 2 ==> ParseUnits(CPP, b) == Err(TickPayloadTooSmall) && ParseBullets(CPP, b) == Err(TickPayloadTooSmall)
    ensures |b| < 2 ==> ParseLogs(CPP, b) == Err(TickPayloadTooSmall)
    ensures |b| < 10 ==> ParseLog(CPP, b) == Err(TruncatedLogEntry)
    ensures |b| < 7 ==> ParseTilemap(SCRIPT, b) == Err(TruncatedReplay) && ParsePayload(SCRIPT, tick, b) == Failure(TruncatedReplay)
    ensures |b| < 2 ==> ParseUnits(SCRIPT, b) == Err(TruncatedReplay) && ParseBullets(SCRIPT, b) == Err(TruncatedReplay)
    ensures |b| < 7 ==> ParseLog(SCRIPT, b) == Err(TruncatedReplay)
  {
  }

  /** Lists, tiles and log texts that are announced but not there. */
  lemma MissingBodies(b: seq<u8>)
    requires |b| >= 10
    ensures var n := b[0] as int + 256 * b[1] as int;
            && (n <= 30 && |b| < 2 + 9 * n ==>
                  ParseUnits(CPP, b) == Err(TickPayloadTooSmall) && ParseUnits(SCRIPT, b) == Err(TruncatedReplay))
            && (n <= 4096 && |b| < 2 + 5 * n ==>
                  ParseBullets(CPP, b) == Err(TickPayloadTooSmall) && ParseBullets(SCRIPT, b) == Err(TruncatedReplay))
    ensures var n := b[8] as int + 256 * b[9] as int;
            b[6] <= 1 && b[7] <= 4 && n <= 512 && |b| < 10 + n ==>
              ParseLog(CPP, b) == Err(LogPayloadTruncated) && ParseLog(SCRIPT, b) == Err(TruncatedReplay)
    ensures var w, h := b[0] as int + 256 * b[1] as int, b[2] as int + 256 * b[3] as int;
            w <= 256 && h <= 256 && |b| < 8 + w * h ==>
              ParseTilemap(CPP, b) == Err(TilemapDataTruncated) && ParseTilemap(SCRIPT, b) == Err(TruncatedReplay)
  {
    assert b[2..][0] == b[2] && b[2..][1] == b[3];
  }

  // ---- Binary maps ----

  /** A tile of terrain 0, 1 or 3, with side 1 or 2 if it belongs to a base and 0 if not. */
  predicate Ordinary(t: TileFlags) {
    t.terrain in {0, 1, 3} && t.side in (if t.isBase then {1, 2} else {0})
  }

  /** The base tiles of a side are none, or those of one square of the given size. */
  ghost predicate OneSquare(m: TileMap, side: u8)
    requires m.WellFormed()
  {
    || (forall c :: m.InBounds(c) && m.At(c).isBase ==> m.At(c).side != side)
    || exists corner: Cell :: IsSquareAt(m, side, corner)
  }

  ghost predicate IsSquareAt(m: TileMap, side: u8, corner: Cell)
    requires m.WellFormed()
  {
    && 0 <= corner.x && corner.x + m.baseSize <= m.width && 0 <= corner.y && corner.y + m.baseSize <= m.height
    && forall c :: m.InBounds(c) ==>
         (m.At(c).isBase && m.At(c).side == side
          <==> corner.x <= c.x < corner.x + m.baseSize && corner.y <= c.y < corner.y + m.baseSize)
  }

  /** A map with a base size of at least 1 is valid exactly if it has 1 to 512 ordinary
      tiles a side and the bases of both sides are squares of that size. */
  lemma ValidMapMeans(m: TileMap)
    requires m.WellFormed() && m.baseSize >= 1
    ensures Bin.ValidMap(m) <==>
              && 1 <= m.width <= 512 && 1 <= m.height <= 512 && (forall i :: 0 <= i < |m.tiles| ==> Ordinary(m.tiles[i]))
              && OneSquare(m, 1) && OneSquare(m, 2)
  {
    forall i | 0 <= i < |m.tiles|
      ensures Ordinary(m.tiles[i]) <==> Bin.GoodTile(m.tiles[i])
    {
    }
    BaseMeans(m, 1);
    BaseMeans(m, 2);
  }

  lemma BaseMeans(m: TileMap, side: u8)
    requires m.WellFormed() && m.baseSize >= 1
    ensures Bin.BaseOk(m, side) <==> OneSquare(m, side)
  {
    assert Bin.NoBase(m, side) <==> forall c :: m.InBounds(c) && m.At(c).isBase ==> m.At(c).side != side by {
      if forall c :: m.InBounds(c) && m.At(c).isBase ==> m.At(c).side != side {
        assert forall c :: !Bin.IsBaseOf(m, side, c);
      }
      if Bin.NoBase(m, side) {
        assert forall c :: m.InBounds(c) && m.At(c).isBase && m.At(c).side == side ==> Bin.IsBaseOf(m, side, c);
      }
    }
    forall corner: Cell
      ensures SquareBase(m, side, corner) <==> IsSquareAt(m, side, corner)
    {
    }
  }

  lemma PlainMapsAreValid(w: nat, h: nat)
    requires 1 <= w <= 512 && 1 <= h <= 512
    ensures Bin.ValidMap(TileMap(w, h, 0, seq(w * h, _ => TileFlags(0, 0, false, false))))
  {
    var m := TileMap(w, h, 0, seq(w * h, _ => TileFlags(0, 0, false, false)));
    assert forall c :: m.InBounds(c) ==> !m.At(c).isBase;
  }

  /** "CRTMAP", version 2, the sizes, two unused bytes, and a byte for each tile, row by row. */
  lemma MapLayout(m: TileMap, x: int, y: int)
    requires m.WellFormed() && 0 <= x < m.width < 0x8000 && 0 <= y < m.height < 0x8000 && 0 <= m.baseSize < 0x8000
    ensures var b := Bin.SavedBytes(m);
            && b[..7] == [67, 82, 84, 77, 65, 80, 2]
            && Word(b, 7, m.width) && Word(b, 9, m.height) && Word(b, 11, m.baseSize) && Word(b, 13, 0)
            && |b| == 15 + |m.tiles| && 0 <= y * m.width + x < |m.tiles|
            && b[15 + (y * m.width + x)] == Pack(m.At(Cell(x, y)))
  {
    hide Pack;
    IndexFits(x, y, m.width, m.height);
    var b := Bin.SavedBytes(m);
    assert b[15..] == Bin.PackedTiles(m.tiles);
    assert b[7..9] == U16(m.width) && b[9..11] == U16(m.height) && b[11..13] == U16(m.baseSize) && b[13..15] == U16(0);
  }
}

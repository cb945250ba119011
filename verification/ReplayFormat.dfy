/**
 The values a replay holds and their encoding (include/corertt/replay.h,
 src/replay.cpp:39-57, 85-95, 124-139, 181-234, 330-351).
 */
module ReplayFormat {
  import opened Common
  import opened GameRules
  import opened TileCodec
  import opened Wire

  datatype ReplayTilemap = ReplayTilemap(width: u16, height: u16, baseSize: u16, tiles: seq<TileFlags>)

  datatype Header = Header(version: u16, tilemap: ReplayTilemap, rules: Rules)

  datatype ReplayPlayer = ReplayPlayer(id: u8, baseEnergy: u16, baseCaptureCounter: u8)

  datatype ReplayUnit = ReplayUnit(id: u8, playerId: u8, x: u8, y: u8, health: u8, attackCooldown: u8, upgrades: u8,
                                   energy: u16)

  datatype ReplayBullet = ReplayBullet(x: u8, y: u8, direction: u8, playerId: u8, damage: u8)

  datatype LogEntry = LogEntry(tick: u32, playerId: u8, unitId: u8, source: u8, kind: u8, payload: seq<u8>)

  datatype Tick = Tick(tick: u32, one: ReplayPlayer, two: ReplayPlayer, units: seq<ReplayUnit>,
                       bullets: seq<ReplayBullet>, logs: seq<LogEntry>)

  datatype Termination = Completed | Aborted | RuleDraw

  datatype EndMarker = EndMarker(termination: Termination, winner: u8)

  const VERSION: u16 := 5
  const RULES_SIZE := 22
  const TICK_RECORD: u8 := 1
  const END_RECORD: u8 := 255

  // ---- Encoding ----

  function Tiles(tiles: seq<TileFlags>): seq<u8> {
    seq(|tiles|, i requires 0 <= i < |tiles| => Pack(tiles[i]))
  }

  function TilemapBytes(m: ReplayTilemap): seq<u8> {
    U16(m.width) + U16(m.height) + U16(m.baseSize) + U16(0) + Tiles(m.tiles)
  }

  function RulesBytes(r: Rules): (b: seq<u8>)
    ensures |b| == RULES_SIZE
  {
    [r.width, r.height, r.baseSize, r.unitHealth, r.naturalEnergyRate, r.resourceZoneEnergyRate, r.attackCooldown,
     r.captureTurnThreshold, r.visionLv1, r.visionLv2]
    + U16(r.capacityLv1) + U16(r.capacityLv2) + U16(r.capacityUpgradeCost) + U16(r.visionUpgradeCost)
    + U16(r.damageUpgradeCost) + U16(r.manufactCost)
  }

  /** Size of everything after the header size field. */
  function HeaderSize(h: Header): nat {
    8 + h.tilemap.width * h.tilemap.height + RULES_SIZE
  }

  const MAGIC: seq<u8> := [0x43, 0x52, 0x50, 0x4c]

  function HeaderBytes(h: Header): seq<u8>
    requires HeaderSize(h) < 0x1_0000
  {
    MAGIC + U16(h.version) + U16(HeaderSize(h)) + (TilemapBytes(h.tilemap) + RulesBytes(h.rules))
  }

  function PlayerBytes(p: ReplayPlayer): (b: seq<u8>)
    ensures |b| == 4
  {
    [p.id] + U16(p.baseEnergy) + [p.baseCaptureCounter]
  }

  function UnitBytes(u: ReplayUnit): (b: seq<u8>)
    ensures |b| == 9
  {
    [u.id, u.playerId, u.x, u.y, u.health, u.attackCooldown, u.upgrades] + U16(u.energy)
  }

  function BulletBytes(b: ReplayBullet): (r: seq<u8>)
    ensures |r| == 5
  {
    [b.x, b.y, b.direction, b.playerId, b.damage]
  }

  function LogBytes(l: LogEntry): (b: seq<u8>)
    requires |l.payload| < 0x1_0000
    ensures |b| == 10 + |l.payload|
  {
    U32(l.tick) + [l.playerId, l.unitId, l.source, l.kind] + U16(|l.payload|) + l.payload
  }

  function UnitsBytes(units: seq<ReplayUnit>): (b: seq<u8>)
    ensures |b| == 9 * |units|
  {
    if units == [] then [] else UnitBytes(units[0]) + UnitsBytes(units[1..])
  }

  function BulletsBytes(bullets: seq<ReplayBullet>): (b: seq<u8>)
    ensures |b| == 5 * |bullets|
  {
    if bullets == [] then [] else BulletBytes(bullets[0]) + BulletsBytes(bullets[1..])
  }

  predicate LogsFit(logs: seq<LogEntry>) {
    forall i :: 0 <= i < |logs| ==> |logs[i].payload| < 0x1_0000
  }

  function LogsBytes(logs: seq<LogEntry>): seq<u8>
    requires LogsFit(logs)
  {
    if logs == [] then [] else LogBytes(logs[0]) + LogsBytes(logs[1..])
  }

  /** Counts and log payloads fit their 16-bit length fields, as the encoder asserts. */
  predicate Encodable(t: Tick) {
    |t.units| < 0x1_0000 && |t.bullets| < 0x1_0000 && |t.logs| < 0x1_0000 && LogsFit(t.logs)
  }

  function PayloadBytes(t: Tick): seq<u8>
    requires Encodable(t)
  {
    PlayerBytes(t.one) + PlayerBytes(t.two)
    + (U16(|t.units|) + UnitsBytes(t.units))
    + (U16(|t.bullets|) + BulletsBytes(t.bullets))
    + (U16(|t.logs|) + LogsBytes(t.logs))
  }

  function TickBytes(t: Tick): seq<u8>
    requires Encodable(t) && |PayloadBytes(t)| < 0x1_0000_0000
  {
    [TICK_RECORD] + U32(t.tick) + U32(|PayloadBytes(t)|) + PayloadBytes(t)
  }

  function TerminationCode(t: Termination): u8 {
    match t
    case Completed => 0
    case Aborted => 1
    case RuleDraw => 2
  }

  function EndBytes(e: EndMarker): seq<u8> {
    [END_RECORD, TerminationCode(e.termination), e.winner]
  }
}

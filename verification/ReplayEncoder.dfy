/** The encoders of src/replay.cpp, writing to a buffer. */
module ReplayEncoder {
  import opened Common
  import opened GameRules
  import opened TileCodec
  import opened Wire
  import opened ReplayFormat

  method EncodeTilemap(w: WriteBuffer, m: ReplayTilemap)
    requires |m.tiles| == m.width * m.height
    modifies w
    ensures w.bytes == old(w.bytes) + TilemapBytes(m)
  {
    w.WriteU16(m.width);
    w.WriteU16(m.height);
    w.WriteU16(m.baseSize);
    w.WriteU16(0);
    for i := 0 to |m.tiles|
      invariant w.bytes == old(w.bytes) + (U16(m.width) + U16(m.height) + U16(m.baseSize) + U16(0) + Tiles(m.tiles)[..i])
    {
      TakeOneMore(Tiles(m.tiles), i);
      w.WriteU8(Pack(m.tiles[i]));
    }
  }

  method EncodeGameRules(w: WriteBuffer, r: Rules)
    modifies w
    ensures w.bytes == old(w.bytes) + RulesBytes(r)
  {
    w.WriteBytes([r.width, r.height, r.baseSize, r.unitHealth, r.naturalEnergyRate, r.resourceZoneEnergyRate,
                  r.attackCooldown, r.captureTurnThreshold, r.visionLv1, r.visionLv2]);
    w.WriteU16(r.capacityLv1);
    w.WriteU16(r.capacityLv2);
    w.WriteU16(r.capacityUpgradeCost);
    w.WriteU16(r.visionUpgradeCost);
    w.WriteU16(r.damageUpgradeCost);
    w.WriteU16(r.manufactCost);
  }

  method EncodeHeader(w: WriteBuffer, h: Header)
    requires HeaderSize(h) < 0x1_0000 && |h.tilemap.tiles| == h.tilemap.width * h.tilemap.height
    modifies w
    ensures w.bytes == old(w.bytes) + HeaderBytes(h)
  {
    w.WriteBytes(MAGIC);
    w.WriteU16(h.version);
    w.WriteU16(HeaderSize(h));
    EncodeTilemap(w, h.tilemap);
    EncodeGameRules(w, h.rules);
  }

  method EncodeLogEntry(w: WriteBuffer, l: LogEntry)
    requires |l.payload| < 0x1_0000
    modifies w
    ensures w.bytes == old(w.bytes) + LogBytes(l)
  {
    w.WriteU32(l.tick);
    w.WriteU8(l.playerId);
    w.WriteU8(l.unitId);
    w.WriteU8(l.source);
    w.WriteU8(l.kind);
    w.WriteU16(|l.payload|);
    if |l.payload| > 0 {
      w.WriteBytes(l.payload);
    }
  }

  method EncodePlayer(w: WriteBuffer, p: ReplayPlayer)
    modifies w
    ensures w.bytes == old(w.bytes) + PlayerBytes(p)
  {
    w.WriteU8(p.id);
    w.WriteU16(p.baseEnergy);
    w.WriteU8(p.baseCaptureCounter);
  }

  method EncodeUnits(w: WriteBuffer, units: seq<ReplayUnit>)
    requires |units| < 0x1_0000
    modifies w
    ensures w.bytes == old(w.bytes) + (U16(|units|) + UnitsBytes(units))
  {
    w.WriteU16(|units|);
    for i := 0 to |units|
      invariant w.bytes + UnitsBytes(units[i..]) == old(w.bytes) + (U16(|units|) + UnitsBytes(units))
    {
      var u := units[i];
      assert units[i..][1..] == units[i + 1..];
      w.WriteBytes([u.id, u.playerId, u.x, u.y, u.health, u.attackCooldown, u.upgrades]);
      w.WriteU16(u.energy);
    }
  }

  method EncodeBullets(w: WriteBuffer, bullets: seq<ReplayBullet>)
    requires |bullets| < 0x1_0000
    modifies w
    ensures w.bytes == old(w.bytes) + (U16(|bullets|) + BulletsBytes(bullets))
  {
    w.WriteU16(|bullets|);
    for i := 0 to |bullets|
      invariant w.bytes + BulletsBytes(bullets[i..]) == old(w.bytes) + (U16(|bullets|) + BulletsBytes(bullets))
    {
      var b := bullets[i];
      assert bullets[i..][1..] == bullets[i + 1..];
      w.WriteBytes([b.x, b.y, b.direction, b.playerId, b.damage]);
    }
  }

  method EncodeLogs(w: WriteBuffer, logs: seq<LogEntry>)
    requires |logs| < 0x1_0000 && LogsFit(logs)
    modifies w
    ensures w.bytes == old(w.bytes) + (U16(|logs|) + LogsBytes(logs))
  {
    w.WriteU16(|logs|);
    for i := 0 to |logs|
      invariant w.bytes + LogsBytes(logs[i..]) == old(w.bytes) + (U16(|logs|) + LogsBytes(logs))
    {
      assert logs[i..][1..] == logs[i + 1..];
      EncodeLogEntry(w, logs[i]);
    }
  }

  lemma Chain(s: seq<u8>, a: seq<u8>, b: seq<u8>, c: seq<u8>, d: seq<u8>, e: seq<u8>)
    ensures s + a + b + c + d + e == s + (a + b + c + d + e)
  {
  }

  method EncodePayload(w: WriteBuffer, t: Tick)
    requires Encodable(t)
    modifies w
    ensures w.bytes == old(w.bytes) + PayloadBytes(t)
  {
    Chain(w.bytes, PlayerBytes(t.one), PlayerBytes(t.two), U16(|t.units|) + UnitsBytes(t.units),
          U16(|t.bullets|) + BulletsBytes(t.bullets), U16(|t.logs|) + LogsBytes(t.logs));
    EncodePlayer(w, t.one);
    EncodePlayer(w, t.two);
    EncodeUnits(w, t.units);
    EncodeBullets(w, t.bullets);
    EncodeLogs(w, t.logs);
  }

  /** Replacing four bytes after `before`. */
  lemma Patched(before: seq<u8>, was: seq<u8>, now: seq<u8>, after: seq<u8>)
    requires |was| == |now| == 4
    ensures (before + was + after)[..|before|] + now + (before + was + after)[|before| + 4..] == before + now + after
  {
  }

  /** The size field is written as 0 and patched once the payload is known. */
  method EncodeTick(w: WriteBuffer, t: Tick)
    requires Encodable(t) && |PayloadBytes(t)| < 0x1_0000_0000
    modifies w
    ensures w.bytes == old(w.bytes) + TickBytes(t)
  {
    w.WriteU8(TICK_RECORD);
    w.WriteU32(t.tick);
    var sizeOffset := |w.bytes|;
    ghost var before := w.bytes;
    w.WriteU32(0);
    var payloadBegin := |w.bytes|;
    EncodePayload(w, t);
    var size := |w.bytes| - payloadBegin;
    Patched(before, U32(0), U32(size), PayloadBytes(t));
    w.PatchU32(sizeOffset, size);
  }

  method EncodeEndMarker(w: WriteBuffer, e: EndMarker)
    modifies w
    ensures w.bytes == old(w.bytes) + EndBytes(e)
  {
    w.WriteU8(END_RECORD);
    w.WriteU8(TerminationCode(e.termination));
    w.WriteU8(e.winner);
  }
}

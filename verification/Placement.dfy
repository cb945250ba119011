/**
 Units, bullets, rosters and the tile grid that caches them, with the agreement
 between the four that the engine relies on.

 A unit pointer is the unit's identity (player id, unit id), which no two listed
 units share; a bullet pointer is a serial number. A tile may keep naming a
 bullet that was spent against a wall and dropped (src/world.cpp:188-199): such
 a serial is no longer listed and counts as a bullet of damage 0.
 */
module Placement {
  import opened Common
  import opened GameRules
  import opened TileCodec
  import opened TileMap

  datatype Upgrades = Upgrades(capacity: bool, vision: bool, damage: bool)

  datatype Attack = Attack(damage: u8, direction: Direction)

  datatype UnitKey = UnitKey(playerId: u8, id: u8)

  datatype Unit = Unit(key: UnitKey, at: Cell, health: u8, energy: u16, attackCooldown: u8,
                       upgrades: Upgrades, pendingMove: Option<Direction>, pendingAttack: Attack)
  {
    function MaxCapacity(rules: Rules): u16 {
      if upgrades.capacity then rules.capacityLv2 else rules.capacityLv1
    }
  }

  datatype Bullet = Bullet(serial: nat, at: Cell, direction: Direction, playerId: u8, damage: u8)

  datatype Player = Player(base: Cell, baseEnergy: u16, roster: seq<Option<UnitKey>>, captureCounter: nat)

  datatype Occupant = ByUnit(key: UnitKey) | ByBullet(serial: nat)

  /** The occupied cells. A cell outside the domain is not occupied. */
  type Grid = map<Cell, Occupant>

  const MAX_UNITS := 15

  predicate Names(occ: Grid, c: Cell, o: Occupant) {
    c in occ && occ[c] == o
  }

  function UnitIndex(units: seq<Unit>, key: UnitKey): (i: nat)
    ensures i <= |units|
    ensures i < |units| ==> units[i].key == key
    ensures forall j :: 0 <= j < i ==> units[j].key != key
  {
    if units == [] || units[0].key == key then 0 else 1 + UnitIndex(units[1..], key)
  }

  function BulletIndex(bullets: seq<Bullet>, serial: nat): (i: nat)
    ensures i <= |bullets|
    ensures i < |bullets| ==> bullets[i].serial == serial
    ensures forall j :: 0 <= j < i ==> bullets[j].serial != serial
  {
    if bullets == [] || bullets[0].serial == serial then 0 else 1 + BulletIndex(bullets[1..], serial)
  }

  /** Bullets fly over cells on the board that are no obstacle. */
  predicate Clear(board: TileMap, c: Cell)
    requires board.WellFormed()
  {
    board.InBounds(c) && board.At(c).terrain != OBSTACLE
  }

  /** Every live unit stands on the tile that names it; a tile that names a unit
      names a listed one standing there. */
  ghost predicate UnitsPlaced(board: TileMap, units: seq<Unit>, occ: Grid) {
    && (forall i, j :: 0 <= i < j < |units| ==> units[i].key != units[j].key)
    && (forall i :: 0 <= i < |units| ==> board.InBounds(units[i].at))
    && (forall i :: 0 <= i < |units| && units[i].health > 0 ==> Names(occ, units[i].at, ByUnit(units[i].key)))
    && (forall c :: c in occ && occ[c].ByUnit? ==>
          UnitIndex(units, occ[c].key) < |units| && units[UnitIndex(units, occ[c].key)].at == c)
  }

  /** Every live bullet is over a clear cell on the tile that names it. The
      converse fails: a tile may name a spent bullet. */
  ghost predicate BulletsPlaced(board: TileMap, bullets: seq<Bullet>, occ: Grid, nextSerial: nat)
    requires board.WellFormed()
  {
    && (forall i, j :: 0 <= i < j < |bullets| ==> bullets[i].serial != bullets[j].serial)
    && (forall i :: 0 <= i < |bullets| ==> bullets[i].serial < nextSerial)
    && (forall i :: 0 <= i < |bullets| && bullets[i].damage > 0 ==>
          Clear(board, bullets[i].at) && Names(occ, bullets[i].at, ByBullet(bullets[i].serial)))
    && (forall c :: c in occ && occ[c].ByBullet? ==> occ[c].serial < nextSerial)
    && (forall c, i :: c in occ && 0 <= i < |bullets| && occ[c] == ByBullet(bullets[i].serial) && bullets[i].damage > 0 ==>
          bullets[i].at == c)
  }

  predicate ValidKey(key: UnitKey) {
    1 <= key.playerId <= 2 && 1 <= key.id <= MAX_UNITS
  }

  predicate RosterShape(players: seq<Player>) {
    |players| == 2 && |players[0].roster| == MAX_UNITS && |players[1].roster| == MAX_UNITS
  }

  /** Live units are in their roster slots, and a slot names no one else. */
  ghost predicate RosterOk(players: seq<Player>, units: seq<Unit>) {
    && RosterShape(players)
    && (forall i :: 0 <= i < |units| ==> ValidKey(units[i].key))
    && (forall i :: 0 <= i < |units| && units[i].health > 0 ==> Slot(players, units[i].key) == Some(units[i].key))
    && (forall key :: ValidKey(key) && Slot(players, key).Some? ==>
          Slot(players, key) == Some(key) && UnitIndex(units, key) < |units|)
  }

  function Slot(players: seq<Player>, key: UnitKey): Option<UnitKey>
    requires ValidKey(key) && RosterShape(players)
  {
    players[key.playerId - 1].roster[key.id - 1]
  }

  function SetSlot(players: seq<Player>, key: UnitKey, value: Option<UnitKey>): (r: seq<Player>)
    requires ValidKey(key) && RosterShape(players)
    ensures RosterShape(r)
    ensures Slot(r, key) == value
    ensures forall k :: ValidKey(k) && k != key ==> Slot(r, k) == Slot(players, k)
    ensures forall p :: 0 <= p < 2 ==> r[p] == players[p].(roster := r[p].roster)
  {
    var p := players[key.playerId - 1];
    players[key.playerId - 1 := p.(roster := p.roster[key.id - 1 := value])]
  }

  /** Units, bullets, grid and rosters together. */
  datatype Field = Field(units: seq<Unit>, bullets: seq<Bullet>, occ: Grid, players: seq<Player>, nextSerial: nat)

  /** The four agree. */
  ghost predicate FieldOk(board: TileMap, f: Field) {
    !Disagrees(board, f)
  }

  ghost predicate Disagrees(board: TileMap, f: Field) {
    || !board.WellFormed()
    || !UnitsPlaced(board, f.units, f.occ)
    || !BulletsPlaced(board, f.bullets, f.occ, f.nextSerial)
    || !RosterOk(f.players, f.units)
  }

  lemma FieldParts(board: TileMap, f: Field)
    requires FieldOk(board, f)
    ensures board.WellFormed() && UnitsPlaced(board, f.units, f.occ)
    ensures BulletsPlaced(board, f.bullets, f.occ, f.nextSerial) && RosterOk(f.players, f.units)
  {
  }
}

/**
 The calls of guest programs in plain numbers: when each succeeds, what it is answered
 otherwise, and what it changes (src/runtime.cpp:284-491, src/world.cpp:541-741); and
 what a request comes to when the next tick carries it out.
 */
module Calls {
  import opened Common
  import opened GameRules
  import opened TileCodec
  import opened TileMap
  import opened Placement
  import opened Flight
  import opened BulletPass
  import opened UnitMoves
  import opened Energy
  import opened BulletBound
  import opened GameState
  import opened Actions
  import Ground
  import SP = ShortestPath
  import C = Capture

  /** What direction 0, 1, 2 or 3 adds to a column and to a row. */
  const COLUMNS: seq<int> := [0, 1, 0, -1]
  const ROWS: seq<int> := [-1, 0, 1, 0]

  /** The searches of the guest library number the directions alike. */
  lemma StepIsOffset(c: Cell, dirId: int)
    requires 0 <= dirId <= 3
    ensures SP.Step(c, dirId) == Cell(c.x + COLUMNS[dirId], c.y + ROWS[dirId])
    ensures Toward(c, DirectionOf(dirId)) == Cell(c.x + COLUMNS[dirId], c.y + ROWS[dirId])
  {
  }

  // ---- Moving ----

  /** A request is refused once one was granted in this tick; a direction that does not
      exist takes an earlier one back; and nothing else of the game changes. */
  lemma MoveAnswers(s: Snap, i: nat, dirId: int)
    requires HasUnit(s.game, i)
    ensures var (t, r) := MoveAsked(s, i, dirId);
            var u, v := s.game.now.units[i], t.game.now.units[i];
            && (r == ON_COOLDOWN <==> s.flags.move) && (r == OUT_OF_RANGE <==> !s.flags.move && !(0 <= dirId <= 3))
            && (r == OK <==> !s.flags.move && 0 <= dirId <= 3)
            && t.flags == s.flags.(move := s.flags.move || r == OK)
            && v == u.(pendingMove := v.pendingMove)
            && t.game == s.game.(now := s.game.now.(units := s.game.now.units[i := v]))
            && (r == ON_COOLDOWN ==> v == u) && (r == OUT_OF_RANGE ==> v.pendingMove == None)
            && (r == OK ==> Ground.Asks(v, Cell(u.at.x + COLUMNS[dirId], u.at.y + ROWS[dirId])))
  {
    var (t, r) := MoveAsked(s, i, dirId);
    var u := s.game.now.units[i];
    assert s.game.now.units[i := u] == s.game.now.units;
  }

  /** What the bullets leave of a unit still stands where it stood and asks for the same. */
  lemma RequestsOutlastBullets(s: State, flown: Field, cleared: Field, i: nat, u: Unit)
    requires Valid(s) && FieldOk(s.board, s.now) && Pass(s.board, s.rules, s.now) == Some(flown)
    requires DeadRemoved(flown, cleared) && i < |s.now.units| && u in cleared.units && u.key == s.now.units[i].key
    ensures u.at == s.now.units[i].at && u.pendingMove == s.now.units[i].pendingMove
  {
    hide Disagrees, Thinned, Pass, UnitsPlaced, BulletsPlaced, RosterOk;
    PassKeepsBodies(s.board, s.rules, s.now);
    LiveKeeps(flown.units);
    var k :| 0 <= k < |flown.units| && flown.units[k] == u;
    assert SameBody(s.now.units[k], flown.units[k]);
    SameKeySameUnit(s, i, k);
  }

  /** In a tick a unit with a request stays, or steps to the neighbour it asked for. */
  lemma TickMovesAsAsked(s: State, flown: Field, cleared: Field, after: Field, i: nat, j: nat)
    requires Valid(s) && Moved(s, flown, cleared, after) && i < |s.now.units| && j < |after.units|
    requires after.units[j].key == s.now.units[i].key && after.units[j].at != s.now.units[i].at
    ensures Ground.Asks(s.now.units[i], after.units[j].at)
  {
    hide Invalid, Disagrees, Pass, Relocated, Relocate, Moving, DeadRemoved;
    Ground.RelocatedCount(s.board, cleared, after);
    Ground.RelocatedUnit(s.board, cleared, after, j);
    Ground.MovedMeansMoving(s.board, cleared, after, j);
    KeyStays(cleared.units[j], Moving(s.board, cleared));
    RequestsOutlastBullets(s, flown, cleared, i, cleared.units[j]);
  }

  lemma KeyStays(u: Unit, moving: set<Cell>)
    ensures Relocate(u, moving).key == u.key
  {
  }

  lemma SameKeySameUnit(s: State, i: nat, k: nat)
    requires Valid(s) && i < |s.now.units| && k < |s.now.units| && s.now.units[i].key == s.now.units[k].key
    ensures i == k
  {
    hide Disagrees, Thinned;
    Parts(s);
    FieldParts(s.board, s.now);
  }

  /** An accepted request for direction dirId, if its move succeeds, takes the unit to the
      cell the guest's own map calculations call the next one in that direction. */
  lemma AcceptedMoveGoesThere(s: Snap, i: nat, dirId: int, flown: Field, cleared: Field, after: Field, j: nat)
    requires HasUnit(s.game, i) && MoveAsked(s, i, dirId).1 == OK
    requires var t := MoveAsked(s, i, dirId).0.game;
             && Valid(t) && Moved(t, flown, cleared, after) && j < |after.units|
             && after.units[j].key == t.now.units[i].key && after.units[j].at != t.now.units[i].at
    ensures 0 <= dirId <= 3
    ensures var c := s.game.now.units[i].at;
            after.units[j].at == Cell(c.x + COLUMNS[dirId], c.y + ROWS[dirId]) == SP.Step(c, dirId)
  {
    hide Valid, Moved;
    MoveAnswers(s, i, dirId);
    var t := MoveAsked(s, i, dirId).0.game;
    TickMovesAsAsked(t, flown, cleared, after, i, j);
    StepIsOffset(s.game.now.units[i].at, dirId);
  }

  // ---- Shooting ----

  /** A shot needs a cooled down unit, a direction, and at least one and no more energy
      than the unit has; its damage, twice the energy with the upgrade, must fit 8 bits. */
  lemma FireAnswers(s: Snap, i: nat, dirId: int, power: int)
    requires HasUnit(s.game, i)
    ensures var u := s.game.now.units[i];
            var damage := if u.upgrades.damage then 2 * power else power;
            var (t, r) := Fired(s, i, dirId, power);
            && (r == OK <==> u.attackCooldown == 0 && 0 <= dirId <= 3 && 1 <= power <= u.energy && damage <= 255)
            && (r == ON_COOLDOWN <==> u.attackCooldown != 0)
            && (r == INSUFFICIENT_ENERGY <==> u.attackCooldown == 0 && 0 <= dirId <= 3 && power > u.energy)
            && (r in {OK, ON_COOLDOWN, INSUFFICIENT_ENERGY, OUT_OF_RANGE}) && (r != OK ==> t == s)
  {
    var u := s.game.now.units[i];
    if u.upgrades.damage {
      assert Damage(u, power) == 2 * power;
    }
  }

  /** An accepted shot is paid by its power and aims at the neighbour in its direction. */
  lemma AcceptedShot(s: Snap, i: nat, dirId: int, power: int)
    requires HasUnit(s.game, i) && Fired(s, i, dirId, power).1 == OK
    ensures var t := Fired(s, i, dirId, power).0;
            var u, v := s.game.now.units[i], t.game.now.units[i];
            && 0 <= dirId <= 3 && power >= 1
            && v.energy == u.energy - power && v.attackCooldown == s.game.rules.attackCooldown
            && v.pendingAttack.damage == (if u.upgrades.damage then 2 * power else power)
            && Aim(v) == Cell(u.at.x + COLUMNS[dirId], u.at.y + ROWS[dirId]) == SP.Step(u.at, dirId)
            && v == u.(energy := v.energy, attackCooldown := v.attackCooldown, pendingAttack := v.pendingAttack)
            && t == s.(game := s.game.(now := s.game.now.(units := s.game.now.units[i := v]), spent := s.game.spent + power))
  {
    StepIsOffset(s.game.now.units[i].at, dirId);
    var u := s.game.now.units[i];
    if u.upgrades.damage {
      assert Damage(u, power) == 2 * power;
    }
  }

  // ---- Deposit and withdrawal ----

  /** The unit stands in the square of its own base. */
  predicate AtHome(s: State, i: nat)
    requires HasUnit(s, i)
  {
    var u := s.now.units[i];
    var base := s.now.players[u.key.playerId - 1].base;
    base.x <= u.at.x < base.x + s.board.baseSize && base.y <= u.at.y < base.y + s.board.baseSize
  }

  /** One transfer a tick, of at least 1 and no more than there is, in the own base. */
  ghost predicate TransferAnswers(s: Snap, i: nat, amount: int, available: nat, r: ActionResult)
    requires HasUnit(s.game, i)
  {
    && (r == OK <==> !s.flags.depositWithdraw && 1 <= amount <= available && AtHome(s.game, i))
    && (r == ON_COOLDOWN <==> s.flags.depositWithdraw)
    && (r == OUT_OF_RANGE <==> !s.flags.depositWithdraw && amount < 1)
    && (r == INSUFFICIENT_ENERGY <==> !s.flags.depositWithdraw && amount >= 1 && amount > available)
    && (r == INVALID_UNIT <==> !s.flags.depositWithdraw && 1 <= amount <= available && !AtHome(s.game, i))
  }

  /** The unit holds energy now and its player's base purse; so much was lost. Nothing
      else changed but that the unit has made its transfer. */
  ghost predicate Exchanged(s: Snap, i: nat, t: Snap, energy: int, purse: int, loss: int)
    requires HasUnit(s.game, i)
  {
    var p := s.game.now.units[i].key.playerId - 1;
    && HasUnit(t.game, i) && t.game.now.units[i].energy == energy && t.game.now.players[p].baseEnergy == purse
    && t.game.lost == s.game.lost + loss && t.flags == s.flags.(depositWithdraw := true)
    && t.game.now.units == s.game.now.units[i := s.game.now.units[i].(energy := t.game.now.units[i].energy)]
    && t.game.now.players == s.game.now.players[p := s.game.now.players[p].(baseEnergy := t.game.now.players[p].baseEnergy)]
    && t.game == s.game.(now := s.game.now.(units := t.game.now.units, players := t.game.now.players), lost := t.game.lost)
  }

  lemma DepositAnswers(s: Snap, i: nat, amount: int)
    requires HasUnit(s.game, i)
    ensures var (t, r) := Deposited(s, i, amount);
            var u := s.game.now.units[i];
            var sum := s.game.now.players[u.key.playerId - 1].baseEnergy + amount;
            && TransferAnswers(s, i, amount, u.energy, r) && (r != OK ==> t == s)
            && (r == OK ==> if sum <= 65535 then Exchanged(s, i, t, u.energy - amount, sum, 0)
                            else Exchanged(s, i, t, u.energy - amount, 65535, sum - 65535))
  {
  }

  lemma WithdrawAnswers(s: Snap, i: nat, amount: int)
    requires HasUnit(s.game, i)
    ensures var (t, r) := Withdrawn(s, i, amount);
            var u := s.game.now.units[i];
            var purse := s.game.now.players[u.key.playerId - 1].baseEnergy;
            var cap := if u.upgrades.capacity then s.game.rules.capacityLv2 else s.game.rules.capacityLv1;
            && TransferAnswers(s, i, amount, purse, r) && (r != OK ==> t == s)
            && (r == OK ==> if u.energy + amount <= cap then Exchanged(s, i, t, u.energy + amount, purse - amount, 0)
                            else Exchanged(s, i, t, cap, purse - amount, u.energy + amount - cap))
  {
  }

  // ---- Bases ----

  /** The player has a unit with this number. */
  ghost predicate Owns(s: State, pid: u8, id: int) {
    exists i :: 0 <= i < |s.now.units| && s.now.units[i].key.playerId == pid && s.now.units[i].key.id == id
  }

  lemma OwnsIsListed(s: State, pid: u8, id: u8)
    ensures Owns(s, pid, id) <==> UnitIndex(s.now.units, UnitKey(pid, id)) < |s.now.units|
  {
    if UnitIndex(s.now.units, UnitKey(pid, id)) < |s.now.units| {
      assert s.now.units[UnitIndex(s.now.units, UnitKey(pid, id))].key == UnitKey(pid, id);
    }
    if Owns(s, pid, id) {
      var i :| 0 <= i < |s.now.units| && s.now.units[i].key.playerId == pid && s.now.units[i].key.id == id;
      assert s.now.units[i].key == UnitKey(pid, id);
    }
  }

  /** A new unit costs its price, needs an unused number from 1 to 15, and starts with full
      health, no energy, no upgrade and nothing to do, on an unoccupied tile of the base. */
  lemma ManufactAnswers(s: State, pid: u8, id: u8, t: State, r: ActionResult)
    requires 1 <= pid <= 2 && Manufactures(s, pid, id, t, r)
    ensures |s.now.players| == 2
    ensures var purse := s.now.players[pid - 1].baseEnergy;
            && (r == OK <==> purse >= s.rules.manufactCost && 1 <= id <= 15 && !Owns(s, pid, id))
            && (r == INSUFFICIENT_ENERGY <==> purse < s.rules.manufactCost)
            && (r != OK && r != INSUFFICIENT_ENERGY ==> r == INVALID_ID) && (r != OK ==> t == s)
    ensures r == OK ==>
              && |t.now.units| == |s.now.units| + 1 && t.now.units[..|s.now.units|] == s.now.units && |t.now.players| == 2
              && t.now.players[pid - 1].baseEnergy == s.now.players[pid - 1].baseEnergy - s.rules.manufactCost
              && t.spent == s.spent + s.rules.manufactCost
              && var u := t.now.units[|s.now.units|];
                 && u.key == UnitKey(pid, id) && u.health == s.rules.unitHealth && u.energy == 0 && u.attackCooldown == 0
                 && u.upgrades == Upgrades(false, false, false) && u.pendingMove == None && u.pendingAttack.damage == 0
                 && u.at !in s.now.occ
                 && var base := s.now.players[pid - 1].base;
                    base.x <= u.at.x < base.x + s.board.baseSize && base.y <= u.at.y < base.y + s.board.baseSize
  {
    OwnsIsListed(s, pid, id);
  }

  /** Repairs and upgrades are for a unit of the player that stands in the base. */
  ghost predicate AtBase(s: State, pid: u8, i: int)
    requires 1 <= pid <= 2 && |s.now.players| == 2
  {
    && 0 <= i < |s.now.units| && s.now.units[i].key.playerId == pid
    && var u, base := s.now.units[i], s.now.players[pid - 1].base;
       base.x <= u.at.x < base.x + s.board.baseSize && base.y <= u.at.y < base.y + s.board.baseSize
  }

  /** What is bought changes one unit, one purse and the account. */
  ghost predicate Purchase(s: State, pid: u8, i: nat, t: State, cost: nat)
    requires 1 <= pid <= 2 && |s.now.players| == 2 && i < |s.now.units|
  {
    && |t.now.units| == |s.now.units| && |t.now.players| == 2
    && t.now.players[pid - 1].baseEnergy == s.now.players[pid - 1].baseEnergy - cost
    && t.now.players == s.now.players[pid - 1 := s.now.players[pid - 1].(baseEnergy := t.now.players[pid - 1].baseEnergy)]
    && t.now.units == s.now.units[i := t.now.units[i]]
    && t == s.(now := s.now.(units := t.now.units, players := t.now.players), spent := s.spent + cost)
  }

  /** A repair restores all missing health for two energy a point. */
  lemma RepairAnswers(s: State, pid: u8, id: u8)
    requires Valid(s) && 1 <= pid <= 2
    ensures |s.now.players| == 2
    ensures var (t, r) := Repaired(s, pid, id);
            var i := UnitIndex(s.now.units, UnitKey(pid, id));
            && (r != OK ==> t == s)
            && (r == INVALID_ID <==> !(1 <= id <= 15) || !Owns(s, pid, id))
            && (r != INVALID_ID ==>
                  && i < |s.now.units| && s.now.units[i].key == UnitKey(pid, id)
                  && var missing := s.rules.unitHealth - s.now.units[i].health;
                     && (r == OK <==> AtBase(s, pid, i) && missing > 0 && s.now.players[pid - 1].baseEnergy >= 2 * missing)
                     && (r == INVALID_UNIT <==> !AtBase(s, pid, i) || missing == 0)
                     && (r == OK || r == INVALID_UNIT || r == INSUFFICIENT_ENERGY)
                     && (r == OK ==> Purchase(s, pid, i, t, 2 * missing)
                                     && t.now.units[i] == s.now.units[i].(health := s.rules.unitHealth)))
  {
    hide Disagrees, Thinned, UnitIndex;
    Parts(s);
    OwnsIsListed(s, pid, id);
  }

  function Price(rules: Rules, kind: u8): u16
    requires kind <= 2
  {
    [rules.capacityUpgradeCost, rules.visionUpgradeCost, rules.damageUpgradeCost][kind]
  }

  function UpgradeFlags(u: Upgrades): seq<bool> {
    [u.capacity, u.vision, u.damage]
  }

  /** Upgrades 0, 1 and 2 are capacity, vision and damage, each bought once at its price. */
  lemma UpgradeAnswers(s: State, pid: u8, id: u8, kind: u8)
    requires 1 <= pid <= 2 && |s.now.players| == 2
    ensures var (t, r) := Upgraded(s, pid, id, kind);
            var i := UnitIndex(s.now.units, UnitKey(pid, id));
            && (r != OK ==> t == s)
            && (r == INVALID_ID <==> !(1 <= id <= 15) || !Owns(s, pid, id))
            && (r != INVALID_ID ==>
                  && i < |s.now.units| && s.now.units[i].key == UnitKey(pid, id)
                  && (!AtBase(s, pid, i) ==> r == INVALID_UNIT)
                  && (AtBase(s, pid, i) && kind > 2 <==> r == OUT_OF_RANGE)
                  && (AtBase(s, pid, i) && kind <= 2 ==>
                        && (r == INVALID_UNIT <==> UpgradeFlags(s.now.units[i].upgrades)[kind])
                        && (r == OK <==> !UpgradeFlags(s.now.units[i].upgrades)[kind]
                                         && s.now.players[pid - 1].baseEnergy >= Price(s.rules, kind))
                        && (r == OK || r == INVALID_UNIT || r == INSUFFICIENT_ENERGY)
                        && (r == OK ==> Purchase(s, pid, i, t, Price(s.rules, kind))
                                        && UpgradeFlags(t.now.units[i].upgrades) == UpgradeFlags(s.now.units[i].upgrades)[kind := true]
                                        && t.now.units[i] == s.now.units[i].(upgrades := t.now.units[i].upgrades))))
  {
    hide UnitIndex;
    OwnsIsListed(s, pid, id);
  }

  /** Bases name units and upgrades by numbers that are narrowed to 8 bits, so 300 is unit 44. */
  lemma NarrowedNumbers(v: int)
    ensures 0 <= v <= 255 ==> ToU8(v) == v
    ensures ToU8(v + 256) == ToU8(v) && ToU8(300) == 44 && ToU8(-1) == 255
  {
  }

  /** What a call of a base comes to that succeeded at nothing of its kind in this tick. */
  lemma BaseCallsActOnIds(s: Snap, pid: u8, id: u8, kind: u8, t: Snap, r: ActionResult)
    requires 1 <= pid <= 2 && |s.game.now.players| == 2
    ensures !s.flags.manufact && BaseCalled(s, pid, Manufact(id), t, r) ==> Manufactures(s.game, pid, id, t.game, r)
    ensures !s.flags.repair && BaseCalled(s, pid, Repair(id), t, r) ==> (t.game, r) == Repaired(s.game, pid, id)
    ensures !s.flags.upgrade && BaseCalled(s, pid, Upgrade(id, kind), t, r) ==> (t.game, r) == Upgraded(s.game, pid, id, kind)
    ensures BaseCalled(s, pid, Manufact(id), t, r) && s.flags.manufact ==> r == ON_COOLDOWN && t == s
    ensures BaseCalled(s, pid, Repair(id), t, r) && s.flags.repair ==> r == ON_COOLDOWN && t == s
    ensures BaseCalled(s, pid, Upgrade(id, kind), t, r) && s.flags.upgrade ==> r == ON_COOLDOWN && t == s
  {
    hide Manufactures, Repaired, Upgraded;
    NarrowedNumbers(id);
    NarrowedNumbers(kind);
  }

  // ---- Collecting, cooling down, checking ----

  /** A unit gains 1 in every tick that the natural rate divides, and the zone's rate on a
      resource tile; it keeps what it can carry, of a sum narrowed to 16 bits. */
  lemma CollectingGains(s: State, tick: u32, i: nat)
    requires i < |s.now.units| && s.rules.naturalEnergyRate >= 1
    requires s.board.WellFormed() && s.board.InBounds(s.now.units[i].at)
    ensures var u := s.now.units[i];
            var natural := if tick % s.rules.naturalEnergyRate == 0 then 1 else 0;
            var zone := if s.board.At(u.at).isResource then s.rules.resourceZoneEnergyRate else 0;
            var cap := if u.upgrades.capacity then s.rules.capacityLv2 else s.rules.capacityLv1;
            var sum := u.energy + natural + zone;
            var after := Collected(s, NaturalTick(s.rules, tick)).now.units;
            && |after| == |s.now.units|
            && after[i] == u.(energy := after[i].energy)
            && (sum < 0x1_0000 ==> after[i].energy == if sum <= cap then sum else cap)
            && (sum >= 0x1_0000 ==> after[i].energy == if sum - 0x1_0000 <= cap then sum - 0x1_0000 else cap)
  {
    hide TotalGain, TotalLoss;
  }

  lemma CoolingDown(u: Unit)
    ensures u.attackCooldown > 0 ==> Cooled(u) == u.(attackCooldown := u.attackCooldown - 1)
    ensures u.attackCooldown == 0 ==> Cooled(u) == u
  {
  }

  /** Live units of the player, or else of the other one, in the square of the base. */
  ghost function Besiegers(board: TileMap, us: seq<Unit>, base: Cell, pid: u8, own: bool): set<int> {
    set i | 0 <= i < |us| && us[i].health > 0 && (us[i].key.playerId == pid) == own
      && base.x <= us[i].at.x < base.x + board.baseSize && base.y <= us[i].at.y < base.y + board.baseSize
  }

  lemma {:induction false} BesiegersAreCounted(board: TileMap, us: seq<Unit>, base: Cell, pid: u8, own: bool)
    ensures CountIn(board, us, base, pid, own) == |Besiegers(board, us, base, pid, own)|
  {
    if us != [] {
      var n := |us| - 1;
      var init := us[..n];
      BesiegersAreCounted(board, init, base, pid, own);
      var before, all := Besiegers(board, init, base, pid, own), Besiegers(board, us, base, pid, own);
      assert forall i :: 0 <= i < n ==> init[i] == us[i];
      if n in all {
        assert all == before + {n};
      } else {
        assert all == before;
      }
    }
  }

  /** A base is in capture condition if more enemies than own units are in it. */
  lemma CaptureConditionCounts(board: TileMap, us: seq<Unit>, base: Cell, pid: u8)
    ensures InCaptureCondition(board, us, base, pid)
       <==> |Besiegers(board, us, base, pid, false)| > |Besiegers(board, us, base, pid, true)|
  {
    BesiegersAreCounted(board, us, base, pid, false);
    BesiegersAreCounted(board, us, base, pid, true);
  }

  /** A tick of an open game appends one check of both bases, with the units where the
      moves have left them. A tick that decides the game stops there: nothing is
      collected or bought. */
  lemma TickChecksOnce(s: State, tick: u32, baseCalls: u8 -> seq<ECall>, unitCalls: UnitKey -> seq<ECall>, t: State)
    requires Valid(s) && Ticked(s, tick, baseCalls, unitCalls, t)
    ensures exists flown, cleared, after: Field ::
              && Moved(s, flown, cleared, after) && |after.players| == 2
              && var checked := AfterMoves(s, flown, after).(events := s.events + [C.Check(
                   |Besiegers(s.board, after.units, after.players[0].base, 1, false)|
                     > |Besiegers(s.board, after.units, after.players[0].base, 1, true)|,
                   |Besiegers(s.board, after.units, after.players[1].base, 2, false)|
                     > |Besiegers(s.board, after.units, after.players[1].base, 2, true)|)]);
                 Checked(AfterMoves(s, flown, after)).events == checked.events
                 && (Checked(AfterMoves(s, flown, after)).verdict != C.Ongoing ==>
                       t.gained == s.gained && t.spent == s.spent && t.now.units == after.units && t.events == checked.events)
  {
    hide Moved, ProgramsRan, InCaptureCondition, Besiegers, DeadEnergy;
    var flown, cleared, after: Field :|
      && Moved(s, flown, cleared, after) && |after.players| == 2 && s.rules.captureTurnThreshold >= 1
      && var checked := Checked(AfterMoves(s, flown, after));
         if checked.verdict != C.Ongoing then t == checked
         else ProgramsRan(Collected(checked, NaturalTick(s.rules, tick)), baseCalls, unitCalls, t);
    CaptureConditionCounts(s.board, after.units, after.players[0].base, 1);
    CaptureConditionCounts(s.board, after.units, after.players[1].base, 2);
  }
}

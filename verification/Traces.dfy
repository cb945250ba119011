/**
 Two things the bullet code does that its comments do not say, each with the exact
 condition and a field in which it happens: a bullet spent at a wall or the map edge
 leaves its tile marked (src/world.cpp:188-203), and an attack that is used up at once
 stays pending and is made again (src/world.cpp:770-793).
 */
module Traces {
  import opened Common
  import opened GameRules
  import opened TileCodec
  import opened TileMap
  import opened Placement
  import opened Flight
  import opened BulletPass
  import opened GameState

  // ---- Marks of spent bullets ----

  /** After its step a bullet's old tile still names it exactly if it could not fly on. */
  lemma MarkStaysAtWalls(board: TileMap, f: Field, k: nat)
    requires FieldOk(board, f) && k < |f.bullets| && f.bullets[k].damage > 0
    ensures var b, g := f.bullets[k], StepBullet(board, f, k);
            Names(g.occ, b.at, ByBullet(b.serial)) <==> !Clear(board, Toward(b.at, b.direction))
  {
    hide Disagrees, Collide;
    FieldParts(board, f);
    var b := f.bullets[k];
    var to := Toward(b.at, b.direction);
    if Clear(board, to) {
      LiftedCanCollide(board, f, k, to);
      CollisionOnlyWeakens(b.damage, to, Lifted(f, k));
    }
  }

  /** No live bullet has this serial. */
  ghost predicate IsSpent(f: Field, serial: nat) {
    forall i :: 0 <= i < |f.bullets| && f.bullets[i].serial == serial ==> f.bullets[i].damage == 0
  }

  const PLAIN := TileFlags(EMPTY, 0, false, false)

  lemma NobodyIsOk(players: seq<Player>)
    requires RosterShape(players) && players[0].roster == players[1].roster == NO_UNITS
    ensures RosterOk(players, [])
  {
    forall key | ValidKey(key)
      ensures Slot(players, key) == None
    {
    }
  }

  /** On a board of one cell, a bullet flies out at the top: everything agrees before
      and after, and the tile names a bullet that is spent. */
  lemma MarkedBySpentBullet(players: seq<Player>)
    requires RosterShape(players) && players[0].roster == players[1].roster == NO_UNITS
    ensures var board, c := TileMap(1, 1, 0, [PLAIN]), Cell(0, 0);
            var f := Field([], [Bullet(0, c, Up, 1, 5)], map[c := ByBullet(0)], players, 1);
            && FieldOk(board, f) && FieldOk(board, StepBullet(board, f, 0))
            && Names(StepBullet(board, f, 0).occ, c, ByBullet(0)) && IsSpent(StepBullet(board, f, 0), 0)
  {
    var board, c := TileMap(1, 1, 0, [PLAIN]), Cell(0, 0);
    var f := Field([], [Bullet(0, c, Up, 1, 5)], map[c := ByBullet(0)], players, 1);
    NobodyIsOk(players);
    assert UnitsPlaced(board, f.units, f.occ);
    assert BulletsPlaced(board, f.bullets, f.occ, f.nextSerial);
    assert FieldOk(board, f);
    StepKeepsField(board, f, 0);
    MarkStaysAtWalls(board, f, 0);
  }

  // ---- Attacks that stay pending ----

  /** What a tile names can take so much damage. */
  ghost function Strength(f: Field, c: Cell): nat {
    if c !in f.occ then 0
    else match f.occ[c]
      case ByUnit(key) => var i := UnitIndex(f.units, key); if i < |f.units| then f.units[i].health else 0
      case ByBullet(serial) => var i := BulletIndex(f.bullets, serial); if i < |f.bullets| then f.bullets[i].damage else 0
  }

  /** An attack on the board is over exactly if its bullet flies: the cell it aims at is
      clear and what stands or flies there is weaker. Otherwise it is made again in the
      next pass. */
  lemma AttackIsOverIfItFlies(board: TileMap, rules: Rules, f: Field, i: nat)
    requires FieldOk(board, f) && i < |f.units| && Shoots(f.units[i]) && board.InBounds(Aim(f.units[i]))
    ensures var u := f.units[i];
            && Shoot(board, rules, f, i).Some? && |Shoot(board, rules, f, i).value.units| == |f.units|
            && (Shoot(board, rules, f, i).value.units[i].pendingAttack.damage == 0
                <==> Clear(board, Aim(u)) && Strength(f, Aim(u)) < u.pendingAttack.damage)
  {
    hide Disagrees;
    FieldParts(board, f);
    var u := f.units[i];
    if Clear(board, Aim(u)) {
      CollisionKeepsField(board, u.pendingAttack.damage, Aim(u), f);
      CollisionOnlyWeakens(u.pendingAttack.damage, Aim(u), f);
    }
  }

  lemma {:induction false} NoBulletsNoSweeps(board: TileMap, f: Field, n: nat)
    requires FieldOk(board, f) && f.bullets == []
    ensures Sweep(board, f, 0) == f && Sweeps(board, f, n) == f
    decreases n
  {
    hide Disagrees;
    if n > 0 {
      SweepKeepsField(board, f, 0);
      NoBulletsNoSweeps(board, f, n - 1);
    }
  }

  lemma PassOfShotsAlone(board: TileMap, rules: Rules, f: Field, g: Field)
    requires FieldOk(board, f) && f.bullets == [] && Commit(board, rules, f, 0) == Some(g) && g.bullets == []
    ensures FieldOk(board, g) && Pass(board, rules, f) == Some(g)
  {
    hide Disagrees, Commit;
    NoBulletsNoSweeps(board, f, 0);
    CommitKeepsField(board, rules, f, 0);
    NoBulletsNoSweeps(board, g, 4);
  }

  const NO_UPGRADES := Upgrades(false, false, false)
  const SHOOTER := Unit(UnitKey(1, 1), Cell(0, 0), 10, 0, 0, NO_UPGRADES, None, Attack(1, Right))
  const STRIP := TileMap(2, 1, 0, [PLAIN, PLAIN])

  function Target(health: u8): Unit {
    Unit(UnitKey(2, 1), Cell(1, 0), health, 0, 0, NO_UPGRADES, None, Attack(0, Up))
  }

  /** Two units side by side; one has fired at the other. */
  ghost function Duel(health: u8, players: seq<Player>): Field {
    Field([SHOOTER, Target(health)], [], map[Cell(0, 0) := ByUnit(UnitKey(1, 1)), Cell(1, 0) := ByUnit(UnitKey(2, 1))],
          players, 0)
  }

  ghost predicate DuelRosters(players: seq<Player>) {
    && RosterShape(players)
    && players[0].roster == NO_UNITS[0 := Some(UnitKey(1, 1))]
    && players[1].roster == NO_UNITS[0 := Some(UnitKey(2, 1))]
  }

  lemma DuelIndex(health: u8)
    ensures UnitIndex([SHOOTER, Target(health)], UnitKey(1, 1)) == 0
    ensures UnitIndex([SHOOTER, Target(health)], UnitKey(2, 1)) == 1
  {
  }

  lemma DuelIsOk(health: u8, players: seq<Player>)
    requires DuelRosters(players) && health > 0
    ensures FieldOk(STRIP, Duel(health, players))
  {
    var f := Duel(health, players);
    DuelIndex(health);
    assert UnitsPlaced(STRIP, f.units, f.occ);
    assert BulletsPlaced(STRIP, f.bullets, f.occ, f.nextSerial);
    assert RosterOk(players, f.units) by {
      forall key | ValidKey(key) && Slot(players, key).Some?
        ensures Slot(players, key) == Some(key) && UnitIndex(f.units, key) < |f.units|
      {
        assert key == UnitKey(1, 1) || key == UnitKey(2, 1);
      }
    }
  }

  lemma DuelPass(rules: Rules, health: u8, players: seq<Player>)
    requires DuelRosters(players) && health > 1
    ensures FieldOk(STRIP, Duel(health, players))
    ensures Pass(STRIP, rules, Duel(health, players)) == Some(Duel(health - 1, players))
  {
    hide Disagrees, UnitIndex;
    var f, g := Duel(health, players), Duel(health - 1, players);
    DuelIsOk(health, players);
    DuelIsOk(health - 1, players);
    DuelIndex(health);
    assert Shoot(STRIP, rules, f, 0) == Some(g) by {
      assert Clear(STRIP, Cell(1, 0));
      CollisionKeepsField(STRIP, 1, Cell(1, 0), f);
      assert f.units[1 := f.units[1].(health := health - 1)] == g.units;
    }
    assert Shoot(STRIP, rules, g, 1) == Some(g);
    assert Commit(STRIP, rules, g, 2) == Some(g);
    assert Commit(STRIP, rules, g, 1) == Some(g);
    assert Commit(STRIP, rules, f, 0) == Some(g);
    PassOfShotsAlone(STRIP, rules, f, g);
  }

  /** One shot, paid once, does its damage in two passes, and in every later one. */
  lemma OneShotHitsTwice(rules: Rules, players: seq<Player>)
    requires DuelRosters(players)
    ensures FieldOk(STRIP, Duel(10, players)) && FieldOk(STRIP, Duel(9, players))
    ensures Pass(STRIP, rules, Duel(10, players)) == Some(Duel(9, players))
    ensures Pass(STRIP, rules, Duel(9, players)) == Some(Duel(8, players))
  {
    DuelPass(rules, 10, players);
    DuelPass(rules, 9, players);
  }
}

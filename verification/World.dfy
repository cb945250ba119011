/** The tick engine (src/world.cpp, src/entity.cpp, src/runtime.cpp). */
module World {
  import opened Common
  import opened GameRules
  import opened TileCodec
  import opened TileMap
  import opened MovementRule
  import opened MoveResolution
  import opened Placement
  import opened Flight
  import opened BulletPass
  import opened UnitMoves
  import opened Energy
  import opened GameState
  import opened Actions
  import C = Capture

  class World {
    const board: TileMap
    const rules: Rules
    var tick: u32
    var players: seq<Player>
    var units: seq<Unit>
    var bullets: seq<Bullet>
    var occ: Grid
    var nextSerial: nat
    var verdict: C.Verdict
    var flags: Flags

    /** Energy ever collected by units, ever paid for actions and ever lost, and the
        capture checks and referee draws so far. */
    ghost var gained: nat
    ghost var spent: nat
    ghost var lost: nat
    ghost var events: seq<C.Event>

    ghost function Game(): State
      reads this
    {
      State(board, rules, Now(), verdict, gained, spent, lost, events)
    }

    ghost function Here(): Snap
      reads this
    {
      Snap(Game(), flags)
    }

    ghost function Now(): Field
      reads this
    {
      Field(units, bullets, occ, players, nextSerial)
    }

    // ---- Bullets (src/world.cpp:157-258, 761-795) ----

    /** The reference parameter `bullet` becomes its damage: the caller holds the
        bullet in flight, off the list or with damage 0 on it, and stores what is left. */
    method HandleBulletCollision(damage: u8, at: Cell) returns (left: u8)
      requires CanCollide(Now(), at) && damage > 0
      modifies this`players, this`units, this`bullets, this`occ
      ensures Impact(left, Now()) == Collide(damage, at, old(Now()))
    {
      left := damage;
      if at !in occ {
        return;
      }
      match occ[at]
      case ByUnit(key) =>
        var i := UnitIndex(units, key);
        var health := units[i].health;
        if left > health {
          left := left - health;
          units := units[i := units[i].(health := 0)];
          occ := occ - {at};
          players := SetSlot(players, key, None);
        } else {
          units := units[i := units[i].(health := health - left)];
          left := 0;
        }
      case ByBullet(serial) =>
        var i := BulletIndex(bullets, serial);
        if i == |bullets| {
          occ := occ - {at};
        } else if left > bullets[i].damage {
          left := left - bullets[i].damage;
          bullets := bullets[i := bullets[i].(damage := 0)];
          occ := occ - {at};
        } else {
          bullets := bullets[i := bullets[i].(damage := bullets[i].damage - left)];
          left := 0;
          if bullets[i].damage == 0 {
            occ := occ - {at};
          }
        }
    }

    method MoveBulletOneStep(k: nat)
      requires FieldOk(board, Now()) && k < |bullets| && bullets[k].damage > 0
      modifies this`players, this`units, this`bullets, this`occ
      ensures Now() == StepBullet(board, old(Now()), k)
    {
      var bullet := bullets[k];
      var to := Toward(bullet.at, bullet.direction);
      bullets := bullets[k := bullet.(damage := 0)];
      if !board.InBounds(to) || board.At(to).terrain == OBSTACLE {
        return;
      }
      LiftKeepsField(board, old(Now()), k);
      CollisionKeepsField(board, bullet.damage, to, Lifted(old(Now()), k));
      CollisionOnlyWeakens(bullet.damage, to, Lifted(old(Now()), k));
      occ := occ - {bullet.at};
      var left := HandleBulletCollision(bullet.damage, to);
      if left == 0 {
        return;
      }
      bullets := bullets[k := bullet.(at := to, damage := left)];
      occ := occ[to := ByBullet(bullet.serial)];
    }

    method MoveBullets()
      requires FieldOk(board, Now())
      modifies this`players, this`units, this`bullets, this`occ
      ensures Now() == Sweep(board, old(Now()), 0)
    {
      hide Invalid, Disagrees;
      for k := 0 to |bullets|
        invariant |bullets| == |old(bullets)|
        invariant FieldOk(board, Now()) && Sweep(board, Now(), k) == Sweep(board, old(Now()), 0)
      {
        SweepUnfolds(board, Now(), k);
        MoveBulletIfFlying(k);
      }
    }

    method MoveBulletIfFlying(k: nat)
      requires FieldOk(board, Now()) && k < |bullets|
      modifies this`players, this`units, this`bullets, this`occ
      ensures Now() == StepOrStay(board, old(Now()), k)
    {
      if bullets[k].damage != 0 {
        MoveBulletOneStep(k);
      }
    }

    /** ok is false when an attack aims off the board: tileOf aborts the process. */
    method CommitPendingAttacks() returns (ok: bool)
      requires FieldOk(board, Now())
      modifies this`players, this`units, this`bullets, this`occ, this`nextSerial
      ensures ok <==> Commit(board, rules, old(Now()), 0).Some?
      ensures ok ==> Now() == Commit(board, rules, old(Now()), 0).value
    {
      for i := 0 to |units|
        invariant |units| == |old(units)|
        invariant FieldOk(board, Now()) && Commit(board, rules, Now(), i) == Commit(board, rules, old(Now()), 0)
      {
        ghost var before := Now();
        var fired := CommitAttackOf(i);
        if !fired {
          return false;
        }
        ShootKeepsField(board, rules, before, i);
        ShootEffect(board, rules, before, i);
      }
      return true;
    }

    method CommitAttackOf(i: nat) returns (ok: bool)
      requires FieldOk(board, Now()) && i < |units|
      modifies this`players, this`units, this`bullets, this`occ, this`nextSerial
      ensures ok <==> Shoot(board, rules, old(Now()), i).Some?
      ensures ok ==> Now() == Shoot(board, rules, old(Now()), i).value
    {
      hide Invalid, Disagrees, UnitsPlaced, BulletsPlaced, RosterOk;
      FieldParts(board, Now());
      var unit := units[i];
      if unit.health == 0 || unit.pendingAttack.damage == 0 {
        return true;
      }
      var to := Toward(unit.at, unit.pendingAttack.direction);
      if !board.InBounds(to) {
        return false;
      }
      if board.At(to).terrain == OBSTACLE {
        return true;
      }
      CollisionKeepsField(board, unit.pendingAttack.damage, to, Now());
      CollisionOnlyWeakens(unit.pendingAttack.damage, to, Now());
      var left := HandleBulletCollision(unit.pendingAttack.damage, to);
      if left == 0 {
        return true;
      }
      occ := occ[to := ByBullet(nextSerial)];
      bullets := bullets + [Bullet(nextSerial, to, unit.pendingAttack.direction, unit.key.playerId, left)];
      nextSerial := nextSerial + 1;
      units := units[i := units[i].(attackCooldown := rules.attackCooldown,
                                    pendingAttack := unit.pendingAttack.(damage := 0))];
      return true;
    }

    method ProcessBulletMovement() returns (ok: bool)
      requires FieldOk(board, Now())
      modifies this`players, this`units, this`bullets, this`occ, this`nextSerial
      ensures ok <==> Pass(board, rules, old(Now())).Some?
      ensures ok ==> Now() == Pass(board, rules, old(Now())).value
    {
      hide Invalid, Disagrees;
      SweepKeepsField(board, Now(), 0);
      ghost var first := Sweep(board, Now(), 0);
      for i := 0 to 5
        invariant i == 0 ==> Now() == old(Now())
        invariant i > 0 ==> Commit(board, rules, first, 0).Some?
        invariant i > 0 ==> FieldOk(board, Now())
        invariant i > 0 ==> FieldOk(board, Commit(board, rules, first, 0).value)
        invariant i > 0 ==> Sweeps(board, Commit(board, rules, first, 0).value, 4) == Sweeps(board, Now(), 5 - i)
      {
        ghost var before := Now();
        MoveBullets();
        if i == 0 {
          ok := CommitPendingAttacks();
          if !ok {
            return;
          }
          CommitKeepsField(board, rules, first, 0);
        } else {
          SweepKeepsField(board, before, 0);
        }
      }
      RemoveSpentBullets();
      ok := true;
    }

    /** The erase-remove of destroyed bullets. */
    method RemoveSpentBullets()
      modifies this`bullets
      ensures bullets == DropSpent(old(bullets))
    {
      var kept: seq<Bullet> := [];
      for i := 0 to |bullets|
        invariant bullets == old(bullets)
        invariant kept + DropSpent(bullets[i..]) == DropSpent(bullets)
      {
        assert bullets[i..][1..] == bullets[i + 1..];
        if bullets[i].damage != 0 {
          kept := kept + [bullets[i]];
        }
      }
      assert kept + DropSpent([]) == kept;
      bullets := kept;
    }

    // ---- Unit movement (src/world.cpp:260-484) ----

    /** Dead units lose their slot and their tile, then leave the list. */
    method RemoveDestroyedUnits()
      requires FieldOk(board, Now())
      modifies this`players, this`occ, this`units
      ensures FieldOk(board, Now()) && AllLive(units)
      ensures DeadRemoved(old(Now()), Now())
    {
      for i := 0 to |units|
        invariant units == old(units) && bullets == old(bullets) && nextSerial == old(nextSerial)
        invariant FieldOk(board, Now()) && DeadForgotten(Now(), i)
        invariant forall c :: c in occ ==> c in old(occ) && occ[c] == old(occ)[c]
        invariant forall c :: c in old(occ) && c !in occ ==>
                    exists k :: 0 <= k < i && units[k].health == 0 && old(occ)[c] == ByUnit(units[k].key)
        invariant |players| == 2 && forall p :: 0 <= p < 2 ==> players[p] == old(players)[p].(roster := players[p].roster)
      {
        ForgetForgets(board, Now(), i);
        if units[i].health == 0 {
          ForgetKeepsField(board, Now(), i);
          ForgetUnit(i);
        }
      }
      DroppingDeadKeepsField(board, Now());
      DeadAreUnlisted(units);
      EraseDeadUnits();
    }

    method ForgetUnit(i: nat)
      requires RosterShape(players) && i < |units| && ValidKey(units[i].key)
      modifies this`players, this`occ
      ensures Now() == Forget(old(Now()), i)
    {
      players := SetSlot(players, units[i].key, None);
      if Names(occ, units[i].at, ByUnit(units[i].key)) {
        occ := occ - {units[i].at};
      }
    }

    method EraseDeadUnits()
      modifies this`units
      ensures units == Live(old(units))
    {
      var kept: seq<Unit> := [];
      for i := 0 to |units|
        invariant units == old(units)
        invariant kept + Live(units[i..]) == Live(units)
      {
        assert units[i..][1..] == units[i + 1..];
        if units[i].health != 0 {
          kept := kept + [units[i]];
        }
      }
      assert kept + Live([]) == kept;
      units := kept;
    }

    /** The first scan: targets, and which moves pass the tests that look only at
        the board and at the occupant of the target. */
    method CollectIntents() returns (tgt: seq<Cell>, active: seq<bool>)
      requires FieldOk(board, Now()) && AllLive(units)
      ensures ScanDone(Wishes(board, Now()), MoversOf(units), FreeCells(board, occ), tgt, active)
    {
      hide Invalid, Disagrees, UnitsPlaced, BulletsPlaced, RosterOk;
      FieldParts(board, Now());
      tgt, active := [], [];
      ghost var who, movers := Wishes(board, Now()), MoversOf(units);
      ghost var verdicts := Verdicts(who, movers, FreeCells(board, occ));
      ghost var targets := Targets(movers, verdicts);
      for i := 0 to |units|
        invariant active == verdicts[..i] && tgt == targets[..i]
      {
        var ok := MayMove(i);
        assert movers[i] == Mover(units[i].at, units[i].pendingMove);
        assert verdicts[i] == ok;
        TakeOneMore(verdicts, i);
        TakeOneMore(targets, i);
        active := active + [ok];
        tgt := tgt + [if ok then Toward(units[i].at, units[i].pendingMove.value) else units[i].at];
      }
    }

    method MayMove(i: nat) returns (ok: bool)
      requires FieldOk(board, Now()) && AllLive(units) && i < |units|
      ensures ok <==> PassesScan(Wishes(board, Now()), FreeCells(board, occ), units[i].at)
      ensures ok ==> units[i].pendingMove.Some?
    {
      TileNamesWhoStandsThere(board, Now(), units[i].at, i);
      TileNamesOccupant(board, Now(), units[i].at);
      KeyFindsItsUnit(units, i);
      if units[i].pendingMove == None {
        return false;
      }
      var to := Toward(units[i].at, units[i].pendingMove.value);
      TileNamesOccupant(board, Now(), to);
      if !board.InBounds(to) {
        return false;
      }
      var terrain := board.At(to).terrain;
      if terrain == OBSTACLE || terrain == WATER {
        return false;
      }
      if to !in occ {
        return true;
      }
      match occ[to]
      case ByBullet(_) =>
        return false;
      case ByUnit(key) =>
        var other := units[UnitIndex(units, key)];
        if other.pendingMove == None {
          return false;
        }
        return Toward(other.at, other.pendingMove.value) != units[i].at;
    }

    /** The dependency lists. The occupant is always found, so the source's
        assertion there never fails. */
    method BuildDependencies(tgt: seq<Cell>, active: seq<bool>) returns (blockedBy: seq<seq<nat>>)
      requires FieldOk(board, Now()) && AllLive(units)
      requires |tgt| == |active| == |units|
      ensures InRange(blockedBy, |units|)
      ensures ListsDone(MoversOf(units), tgt, active, blockedBy)
    {
      blockedBy := seq(|units|, i => []);
      for i := 0 to |units|
        invariant InRange(blockedBy, |units|)
        invariant forall k, d :: 0 <= k < |units| ==>
                    (Waits(blockedBy, d, k) <==> 0 <= d < i && active[d] && tgt[d] == units[k].at)
      {
        if active[i] {
          if tgt[i] in occ && occ[tgt[i]].ByUnit? {
            var occupant := FindOccupant(tgt[i]);
            ghost var was := blockedBy;
            blockedBy := blockedBy[occupant := blockedBy[occupant] + [i]];
            assert forall k, d :: 0 <= k < |units| ==>
                     (Waits(blockedBy, d, k) <==> Waits(was, d, k) || (k == occupant && d == i));
          } else {
            NobodyThere(tgt[i]);
          }
        }
      }
    }

    /** The linear scan for the unit a tile names. */
    method FindOccupant(at: Cell) returns (occupant: nat)
      requires FieldOk(board, Now()) && AllLive(units) && at in occ && occ[at].ByUnit?
      ensures occupant < |units|
      ensures forall k :: 0 <= k < |units| ==> (units[k].at == at <==> k == occupant)
    {
      ghost var there := UnitIndex(units, occ[at].key);
      occupant := 0;
      while units[occupant].key != occ[at].key
        invariant occupant <= there
        decreases there - occupant
      {
        occupant := occupant + 1;
      }
      forall k | 0 <= k < |units|
        ensures units[k].at == at <==> k == occupant
      {
        TileNamesWhoStandsThere(board, Now(), at, k);
      }
    }

    lemma NobodyThere(at: Cell)
      requires FieldOk(board, Now()) && AllLive(units) && !(at in occ && occ[at].ByUnit?)
      ensures forall k :: 0 <= k < |units| ==> units[k].at != at
    {
      forall k | 0 <= k < |units|
        ensures units[k].at != at
      {
        TileNamesWhoStandsThere(board, Now(), at, k);
      }
    }

    method ResetPendingMoves()
      modifies this`units
      ensures |units| == |old(units)|
      ensures forall k :: 0 <= k < |units| ==> units[k] == old(units)[k].(pendingMove := None)
    {
      for i := 0 to |units|
        invariant |units| == |old(units)|
        invariant forall k :: 0 <= k < i ==> units[k] == old(units)[k].(pendingMove := None)
        invariant forall k :: i <= k < |units| ==> units[k] == old(units)[k]
      {
        units := units[i := units[i].(pendingMove := None)];
      }
    }

    /** First pass: every moving unit leaves its tile. */
    method LeaveTiles(active: seq<bool>, ghost moving: set<Cell>)
      requires |active| == |units|
      requires forall k :: 0 <= k < |units| ==> (active[k] <==> units[k].at in moving)
      requires forall c :: c in moving ==> exists k :: 0 <= k < |units| && units[k].at == c
      modifies this`occ
      ensures occ == old(occ) - moving
    {
      ghost var left: set<Cell> := {};
      for i := 0 to |units|
        invariant occ == old(occ) - left && left <= moving
        invariant forall k :: 0 <= k < i && active[k] ==> units[k].at in left
      {
        if active[i] {
          occ := occ - {units[i].at};
          left := left + {units[i].at};
        }
      }
      assert left == moving;
    }

    /** Second pass: every moving unit takes its new place and its new tile. */
    method EnterTiles(tgt: seq<Cell>, active: seq<bool>)
      requires |tgt| == |active| == |units|
      requires forall j, k :: 0 <= j < k < |units| && active[j] && active[k] ==> tgt[j] != tgt[k]
      modifies this`occ, this`units
      ensures Entered(old(units), old(occ), tgt, active, units, occ)
    {
      for i := 0 to |units|
        invariant |units| == |old(units)|
        invariant forall k :: 0 <= k < i ==> units[k] == old(units)[k].(at := if active[k] then tgt[k] else old(units)[k].at)
        invariant forall k :: i <= k < |units| ==> units[k] == old(units)[k]
        invariant forall k :: 0 <= k < i && active[k] ==> Names(occ, tgt[k], ByUnit(units[k].key))
        invariant forall c :: c in old(occ) ==> c in occ
        invariant forall c :: c in occ && (c in old(occ) ==> occ[c] != old(occ)[c]) ==>
                    exists k :: 0 <= k < i && active[k] && tgt[k] == c
      {
        if active[i] {
          units := units[i := units[i].(at := tgt[i])];
          occ := occ[tgt[i] := ByUnit(units[i].key)];
        }
      }
    }

    method ExecuteMoves(tgt: seq<Cell>, active: seq<bool>)
      requires FieldOk(board, Now()) && AllLive(units)
      requires |tgt| == |active| == |units|
      requires forall k :: 0 <= k < |units| ==> (active[k] <==> units[k].at in Moving(board, Now()))
      requires forall k :: 0 <= k < |units| && active[k] ==> tgt[k] == Relocate(units[k], Moving(board, Now())).at
      modifies this`occ, this`units
      ensures Relocated(board, old(Now()), Now())
    {
      hide Disagrees, Moving, Toward, Relocated, Entered, Enterable, MoversOf;
      ghost var moving, before := Moving(board, Now()), Now();
      MovingUnits(board, Now());
      ResetPendingMoves();
      ghost var reset := units;
      assert forall c :: c in moving ==> exists k :: 0 <= k < |units| && units[k].at == c by {
        forall c | c in moving
          ensures exists k :: 0 <= k < |units| && units[k].at == c
        {
          var k :| 0 <= k < |before.units| && before.units[k].at == c;
          assert units[k].at == c;
        }
      }
      LeaveTiles(active, moving);
      EnterTiles(tgt, active);
      CarriedOut(board, before, reset, Now(), tgt, active);
    }

    /** The movement step: the moves that succeed are those of the written rule,
        applied to what is left after the dead are removed. */
    method ProcessUnitMovement() returns (ghost cleared: Field)
      requires FieldOk(board, Now())
      modifies this`players, this`occ, this`units
      ensures DeadRemoved(old(Now()), cleared) && FieldOk(board, cleared) && AllLive(cleared.units)
      ensures Relocated(board, cleared, Now())
      ensures FieldOk(board, Now()) && AllLive(units)
    {
      hide Invalid, Disagrees;
      FieldParts(board, Now());
      RemoveDestroyedUnits();
      cleared := Now();
      LiveUnitsStandApart(board, Now());
      var tgt, scanned := CollectIntents();
      var blockedBy := BuildDependencies(tgt, scanned);
      var alone := CancelShared(tgt, scanned);
      var active := Propagate(alone, blockedBy);
      StepsComputeTheRule(MoversOf(units), FreeCells(board, occ), tgt, scanned, alone, blockedBy, active);
      MovingUnits(board, Now());
      ExecuteMoves(tgt, active);
      RelocationKeepsField(board, cleared, Now());
    }

    /** Bullets, then units. */
    method MoveEverything() returns (ok: bool, ghost flown: Field, ghost cleared: Field)
      requires Valid(Game())
      modifies this`players, this`units, this`bullets, this`occ, this`nextSerial, this`lost
      ensures FieldOk(board, old(Now())) && (ok <==> Pass(board, rules, old(Now())).Some?)
      ensures ok ==> Valid(Game()) && Moved(old(Game()), flown, cleared, Now())
      ensures ok ==> Game() == AfterMoves(old(Game()), flown, Now())
    {
      hide Invalid, Disagrees;
      Parts(Game());
      flown, cleared := Now(), Now();
      ok := ProcessBulletMovement();
      if ok {
        PassKeepsField(board, rules, old(Now()));
        flown := Now();
        cleared := ProcessUnitMovement();
        MovingKeepsValid(old(Game()), flown, cleared, Now());
        lost := lost + DeadEnergy(flown.units);
      }
    }

    // ---- Capture (src/world.cpp:486-539) ----

    method CheckCaptureCondition(pid: u8) returns (inCondition: bool)
      requires 1 <= pid <= 2 && |players| == 2
      ensures inCondition == InCaptureCondition(board, units, players[pid - 1].base, pid)
    {
      var base := players[pid - 1].base;
      var own, enemy := 0, 0;
      for i := 0 to |units|
        invariant own == CountIn(board, units[..i], base, pid, true)
        invariant enemy == CountIn(board, units[..i], base, pid, false)
      {
        assert units[..i + 1][..i] == units[..i];
        if units[i].health != 0 && InBase(board, units[i].at, base) {
          if units[i].key.playerId == pid {
            own := own + 1;
          } else {
            enemy := enemy + 1;
          }
        }
      }
      assert units[..|units|] == units;
      inCondition := enemy > own;
    }

    method CheckBaseCaptureCondition()
      requires Valid(Game())
      modifies this`players, this`verdict, this`events
      ensures Valid(Game())
      ensures old(verdict) != C.Ongoing ==> Game() == old(Game())
      ensures old(verdict) == C.Ongoing ==>
                && |old(players)| == 2 && rules.captureTurnThreshold >= 1
                && Game() == AfterEvent(old(Game()), C.Check(InCaptureCondition(board, units, old(players)[0].base, 1),
                                                             InCaptureCondition(board, units, old(players)[1].base, 2)))
    {
      hide Invalid, Disagrees;
      if verdict != C.Ongoing {
        return;
      }
      Parts(Game());
      var base1 := CheckCaptureCondition(1);
      var base2 := CheckCaptureCondition(2);
      EventKeepsValid(Game(), C.Check(base1, base2));
      var T := rules.captureTurnThreshold;
      var one, two := C.Count(players[0].captureCounter, base1), C.Count(players[1].captureCounter, base2);
      events := events + [C.Check(base1, base2)];
      if one == T && two == T {
        one, two := one - 1, two - 1;
      } else if one >= T {
        verdict := C.Victory(2);
      } else if two >= T {
        verdict := C.Victory(1);
      }
      players := [players[0].(captureCounter := one), players[1].(captureCounter := two)];
    }

    method MarkRuleDraw()
      requires Valid(Game())
      modifies this`verdict, this`events
      ensures Valid(Game())
      ensures |players| == 2 && rules.captureTurnThreshold >= 1 && Game() == AfterEvent(old(Game()), C.MarkDraw)
      ensures verdict == if old(verdict) == C.Ongoing then C.RuleDraw else old(verdict)
    {
      hide Invalid, Disagrees;
      Parts(Game());
      EventKeepsValid(Game(), C.MarkDraw);
      assert players == [players[0], players[1]];
      events := events + [C.MarkDraw];
      if verdict != C.Ongoing {
        return;
      }
      verdict := C.RuleDraw;
    }

    // ---- Energy (src/world.cpp:541-562) ----

    method CollectEnergy()
      requires Valid(Game())
      modifies this`units, this`gained, this`lost
      ensures Valid(Game()) && Game() == Collected(old(Game()), NaturalTick(rules, tick))
    {
      hide Invalid, Disagrees, Charged, ChargeFrom, NaturalTick;
      var natural := NaturalTick(rules, tick);
      for i := 0 to |units|
        invariant Valid(Game()) && |units| == |old(units)|
        invariant ChargeFrom(board, rules, natural, units, i) == ChargeFrom(board, rules, natural, old(units), 0)
        invariant gained == old(gained) + TotalGain(board, rules, natural, old(units)[..i])
        invariant lost == old(lost) + TotalLoss(board, rules, natural, old(units)[..i])
        invariant forall j :: i <= j < |units| ==> units[j] == old(units)[j]
      {
        ChargeOneMore(board, rules, natural, units, i);
        GainOneMore(board, rules, natural, old(units), i);
        LossOneMore(board, rules, natural, old(units), i);
        CollectFor(i, natural);
      }
      ChargeFromEnds(board, rules, natural, units, old(units));
      assert old(units)[..|units|] == old(units);
    }

    method CollectFor(i: nat, natural: bool)
      requires Valid(Game()) && i < |units|
      modifies this`units, this`gained, this`lost
      ensures Valid(Game())
      ensures units == old(units)[i := Charged(board, rules, natural, old(units)[i])]
      ensures gained == old(gained) + Gain(board, rules, natural, old(units)[i].at)
      ensures lost == old(lost) + ChargeLoss(board, rules, natural, old(units)[i])
    {
      hide Invalid, Disagrees;
      Parts(Game());
      FieldParts(board, Now());
      var charged := ChargeUnit(units[i], natural);
      ghost var gain := Gain(board, rules, natural, units[i].at);
      ChargeIsBounded(board, rules, natural, units[i]);
      ghost var loss := ChargeLoss(board, rules, natural, units[i]);
      RefitKeepsValid(Game(), i, charged, gain, 0, loss);
      gained := gained + gain;
      lost := lost + loss;
      units := units[i := charged];
    }

    method ChargeUnit(unit: Unit, natural: bool) returns (charged: Unit)
      requires board.WellFormed() && board.InBounds(unit.at)
      ensures charged == Charged(board, rules, natural, unit)
    {
      var gain := 0;
      if natural {
        gain := gain + 1;
      }
      if board.At(unit.at).isResource {
        gain := gain + rules.resourceZoneEnergyRate;
      }
      charged := unit.(energy := Min((unit.energy + gain) % 0x1_0000, unit.MaxCapacity(rules)));
    }

    // ---- What a base can do (src/world.cpp:564-741) ----

    /** The tile is a random empty one of the base; ok is false if there is none. */
    method SpawnUnitAtBase(key: UnitKey) returns (ok: bool, at: Cell)
      requires Valid(Game()) && ValidKey(key) && UnitIndex(units, key) == |units|
      modifies this`units, this`occ, this`players
      ensures |old(players)| == 2 && RosterShape(old(players))
      ensures ok ==> Valid(Game()) && InBase(board, at, old(players)[key.playerId - 1].base) && at !in old(occ)
      ensures ok ==> Now() == Spawned(old(Now()), NewUnit(rules, key, at))
      ensures !ok ==> forall c :: InBase(board, c, old(players)[key.playerId - 1].base) ==> c in old(occ)
    {
      hide Invalid, Disagrees;
      Parts(Game());
      var base := players[key.playerId - 1].base;
      var empty := EmptyBaseTiles(base);
      if empty == [] {
        return false, base;
      }
      var n :| 0 <= n < |empty|;
      at := empty[n];
      assert at in empty;
      SpawnUnit(key, at);
      ok := true;
    }

    method EmptyBaseTiles(base: Cell) returns (empty: seq<Cell>)
      requires board.baseSize >= 0
      ensures forall c :: c in empty <==> InBase(board, c, base) && c !in occ
    {
      empty := [];
      for dx := 0 to board.baseSize
        invariant forall c :: c in empty <==> InBase(board, c, base) && c.x < base.x + dx && c !in occ
      {
        for dy := 0 to board.baseSize
          invariant forall c :: c in empty <==>
                      && InBase(board, c, base) && c !in occ
                      && (c.x < base.x + dx || (c.x == base.x + dx && c.y < base.y + dy))
        {
          var c := Cell(base.x + dx, base.y + dy);
          if c !in occ {
            empty := empty + [c];
          }
        }
      }
    }

    method SpawnUnit(key: UnitKey, at: Cell)
      requires Valid(Game()) && ValidKey(key) && UnitIndex(units, key) == |units|
      requires board.InBounds(at) && at !in occ
      modifies this`units, this`occ, this`players
      ensures Valid(Game())
      ensures RosterShape(old(players)) && Now() == Spawned(old(Now()), NewUnit(rules, key, at))
    {
      hide Invalid, Disagrees;
      Parts(Game());
      SpawningKeepsValid(Game(), key, at);
      occ := occ[at := ByUnit(key)];
      players := SetSlot(players, key, Some(key));
      units := units + [NewUnit(rules, key, at)];
    }

    /** Paying from the base of player pid. */
    method Pay(pid: u8, cost: nat)
      requires Valid(Game()) && 1 <= pid <= 2 && |players| == 2 && cost <= players[pid - 1].baseEnergy
      modifies this`players, this`spent
      ensures Valid(Game()) && spent == old(spent) + cost
      ensures players == old(players)[pid - 1 := Paid(old(players)[pid - 1], cost)]
    {
      hide Invalid, Disagrees;
      PayingKeepsValid(Game(), pid - 1, cost);
      var p := players[pid - 1];
      players := players[pid - 1 := p.(baseEnergy := p.baseEnergy - cost)];
      spent := spent + cost;
    }

    /** ok is false when the base has no empty tile: the source aborts. */
    method ManufactureUnit(pid: u8, newId: u8) returns (r: ActionResult, ok: bool)
      requires Valid(Game()) && 1 <= pid <= 2
      modifies this`players, this`units, this`occ, this`spent
      ensures ok ==> Valid(Game()) && Manufactures(old(Game()), pid, newId, Game(), r)
      ensures |old(players)| == 2
      ensures !ok <==> ManufactResult(old(Game()), pid, newId) == OK && BaseIsFull(old(Game()), pid)
    {
      hide Invalid, Disagrees;
      Parts(Game());
      if players[pid - 1].baseEnergy < rules.manufactCost {
        return INSUFFICIENT_ENERGY, true;
      }
      if newId < 1 || newId > MAX_UNITS {
        return INVALID_ID, true;
      }
      var key := UnitKey(pid, newId);
      SlotMeansListed(board, Now(), key);
      if Slot(players, key).Some? && units[UnitIndex(units, key)].health > 0 {
        return INVALID_ID, true;
      }
      Pay(pid, rules.manufactCost);
      var at;
      ok, at := SpawnUnitAtBase(key);
      r := OK;
    }

    /** The checks that repair and upgrade share: the unit exists and is at its base. */
    method FindUnitAtBase(pid: u8, id: u8) returns (r: ActionResult, i: nat)
      requires Valid(Game()) && 1 <= pid <= 2
      ensures |players| == 2 && i == UnitIndex(units, UnitKey(pid, id)) && r == FindResult(Game(), pid, id)
    {
      hide Invalid, Disagrees;
      Parts(Game());
      var key := UnitKey(pid, id);
      i := UnitIndex(units, key);
      if id < 1 || id > MAX_UNITS {
        return INVALID_ID, i;
      }
      SlotMeansListed(board, Now(), key);
      if Slot(players, key) == None || units[i].health == 0 {
        return INVALID_ID, i;
      }
      r := if InBase(board, units[i].at, players[pid - 1].base) then OK else INVALID_UNIT;
    }

    /** Unit i of player pid becomes u, which has as much energy, for `cost` from the base. */
    method BuyForUnit(pid: u8, i: nat, u: Unit, cost: nat)
      requires Valid(Game()) && 1 <= pid <= 2 && |players| == 2 && cost <= players[pid - 1].baseEnergy
      requires i < |units| && u.key == units[i].key && u.at == units[i].at && u.health > 0
      requires u.energy == units[i].energy <= u.MaxCapacity(rules) && u.health <= rules.unitHealth
      modifies this`players, this`units, this`spent
      ensures Valid(Game())
      ensures Game() == old(Game()).(now := old(Now()).(units := old(units)[i := u],
                                                        players := old(players)[pid - 1 := Paid(old(players)[pid - 1], cost)]),
                                     spent := old(spent) + cost)
    {
      hide Invalid, Disagrees;
      Pay(pid, cost);
      RefitKeepsValid(Game(), i, u, 0, 0, 0);
      units := units[i := u];
    }

    method RepairUnit(pid: u8, id: u8) returns (r: ActionResult)
      requires Valid(Game()) && 1 <= pid <= 2
      modifies this`players, this`units, this`spent
      ensures Valid(Game()) && |old(players)| == 2 && (Game(), r) == Repaired(old(Game()), pid, id)
    {
      hide Invalid, Disagrees;
      var i;
      r, i := FindUnitAtBase(pid, id);
      if r != OK {
        return;
      }
      Parts(Game());
      var missing := rules.unitHealth - units[i].health;
      if missing == 0 {
        return INVALID_UNIT;
      }
      var cost := 2 * missing;
      if players[pid - 1].baseEnergy < cost {
        return INSUFFICIENT_ENERGY;
      }
      BuyForUnit(pid, i, units[i].(health := rules.unitHealth), cost);
    }

    method UpgradeUnit(pid: u8, id: u8, kind: u8) returns (r: ActionResult)
      requires Valid(Game()) && 1 <= pid <= 2
      modifies this`players, this`units, this`spent
      ensures Valid(Game()) && |old(players)| == 2 && (Game(), r) == Upgraded(old(Game()), pid, id, kind)
    {
      hide Invalid, Disagrees;
      var i;
      r, i := FindUnitAtBase(pid, id);
      if r != OK {
        return;
      }
      Parts(Game());
      if kind > 2 {
        return OUT_OF_RANGE;
      }
      if Has(units[i].upgrades, kind) {
        return INVALID_UNIT;
      }
      var cost := UpgradeCost(rules, kind);
      if players[pid - 1].baseEnergy < cost {
        return INSUFFICIENT_ENERGY;
      }
      BuyForUnit(pid, i, units[i].(upgrades := With(units[i].upgrades, kind)), cost);
    }

    // ---- What a unit can do (src/runtime.cpp:348-491) ----

    method EcallFire(i: nat, dirId: int, power: int) returns (r: ActionResult)
      requires Valid(Game()) && i < |units|
      modifies this`units, this`spent
      ensures Valid(Game()) && HasUnit(old(Game()), i) && (Here(), r) == Fired(old(Here()), i, dirId, power)
    {
      hide Invalid, Disagrees;
      ValidKeysAreGood(Game());
      Parts(Game());
      var unit := units[i];
      if unit.attackCooldown != 0 {
        return ON_COOLDOWN;
      }
      if dirId < 0 || dirId > 3 || power < 1 {
        return OUT_OF_RANGE;
      }
      if power > unit.energy {
        return INSUFFICIENT_ENERGY;
      }
      var damage := power * (if unit.upgrades.damage then 2 else 1);
      if damage > 255 {
        return OUT_OF_RANGE;
      }
      var after := unit.(energy := unit.energy - power, pendingAttack := Attack(damage, DirectionOf(dirId)),
                         attackCooldown := rules.attackCooldown);
      RefitKeepsValid(Game(), i, after, 0, power, 0);
      units := units[i := after];
      spent := spent + power;
      return OK;
    }

    method EcallMove(i: nat, dirId: int) returns (r: ActionResult)
      requires Valid(Game()) && i < |units|
      modifies this`units, this`flags
      ensures Valid(Game()) && HasUnit(old(Game()), i) && (Here(), r) == MoveAsked(old(Here()), i, dirId)
    {
      hide Invalid, Disagrees;
      ValidKeysAreGood(Game());
      if flags.move {
        return ON_COOLDOWN;
      }
      Parts(Game());
      r := if dirId < 0 || dirId > 3 then OUT_OF_RANGE else OK;
      var after := units[i].(pendingMove := if r == OK then Some(DirectionOf(dirId)) else None);
      RefitKeepsValid(Game(), i, after, 0, 0, 0);
      units := units[i := after];
      if r == OK {
        flags := flags.(move := true);
      }
    }

    /** The tests deposit and withdraw share. */
    method TestTransfer(i: nat, amount: int, available: nat) returns (r: ActionResult)
      requires HasUnit(Game(), i)
      ensures r == MayTransfer(Here(), i, amount, available)
    {
      if flags.depositWithdraw {
        return ON_COOLDOWN;
      }
      if amount < 1 {
        return OUT_OF_RANGE;
      }
      if amount > available {
        return INSUFFICIENT_ENERGY;
      }
      if !InBase(board, units[i].at, players[units[i].key.playerId - 1].base) {
        return INVALID_UNIT;
      }
      return OK;
    }

    method Transfer(i: nat, energy: u16, p: nat, purse: u16, ghost loss: nat)
      requires Valid(Game()) && i < |units| && p < 2 && |players| == 2
      requires energy <= units[i].MaxCapacity(rules) && energy + purse + loss == units[i].energy + players[p].baseEnergy
      modifies this`units, this`players, this`flags, this`lost
      ensures Valid(Game()) && flags == old(flags).(depositWithdraw := true) && lost == old(lost) + loss
      ensures units == old(units)[i := old(units)[i].(energy := energy)]
      ensures players == old(players)[p := old(players)[p].(baseEnergy := purse)]
    {
      hide Invalid, Disagrees;
      TransferKeepsValid(Game(), i, energy, p, purse, loss);
      units := units[i := units[i].(energy := energy)];
      players := players[p := players[p].(baseEnergy := purse)];
      lost := lost + loss;
      flags := flags.(depositWithdraw := true);
    }

    method EcallDeposit(i: nat, amount: int) returns (r: ActionResult)
      requires Valid(Game()) && i < |units|
      modifies this`units, this`players, this`flags, this`lost
      ensures Valid(Game()) && HasUnit(old(Game()), i) && (Here(), r) == Deposited(old(Here()), i, amount)
    {
      hide Invalid, Disagrees;
      Parts(Game());
      FieldParts(board, Now());
      r := TestTransfer(i, amount, units[i].energy);
      if r != OK {
        return;
      }
      var p := units[i].key.playerId - 1;
      var value := players[p].baseEnergy + amount;
      ghost var loss := 0;
      if value > 65535 {
        loss := value - 65535;
        value := 65535;
      }
      Transfer(i, units[i].energy - amount, p, value, loss);
    }

    method EcallWithdraw(i: nat, amount: int) returns (r: ActionResult)
      requires Valid(Game()) && i < |units|
      modifies this`units, this`players, this`flags, this`lost
      ensures Valid(Game()) && HasUnit(old(Game()), i) && (Here(), r) == Withdrawn(old(Here()), i, amount)
    {
      hide Invalid, Disagrees;
      Parts(Game());
      FieldParts(board, Now());
      var p := units[i].key.playerId - 1;
      r := TestTransfer(i, amount, players[p].baseEnergy);
      if r != OK {
        return;
      }
      var value := units[i].energy + amount;
      ghost var loss := 0;
      if value > units[i].MaxCapacity(rules) {
        loss := value - units[i].MaxCapacity(rules);
        value := units[i].MaxCapacity(rules);
      }
      Transfer(i, value, p, players[p].baseEnergy - amount, loss);
    }

    // ---- Guest programs ----

    /** One call of the program that runs unit i. */
    method UnitCall(i: nat, call: ECall) returns (r: ActionResult)
      requires Valid(Game()) && i < |units|
      modifies this`units, this`players, this`flags, this`spent, this`lost
      ensures Valid(Game()) && HasUnit(old(Game()), i) && (Here(), r) == UnitCalled(old(Here()), i, call)
    {
      hide Invalid, Disagrees;
      ValidKeysAreGood(Game());
      match call
      case Fire(dirId, power) => r := EcallFire(i, dirId, power);
      case Move(dirId) => r := EcallMove(i, dirId);
      case Deposit(amount) => r := EcallDeposit(i, amount);
      case Withdraw(amount) => r := EcallWithdraw(i, amount);
      case Manufact(_) => r := UNSUPPORTED_RUNTIME;
      case Repair(_) => r := UNSUPPORTED_RUNTIME;
      case Upgrade(_, _) => r := UNSUPPORTED_RUNTIME;
    }

    /** One call of the program that runs the base of player pid. */
    method BaseCall(pid: u8, call: ECall) returns (r: ActionResult, ok: bool)
      requires Valid(Game()) && 1 <= pid <= 2
      modifies this`units, this`players, this`occ, this`flags, this`spent
      ensures ok ==> Valid(Game()) && BaseCalled(old(Here()), pid, call, Here(), r)
      ensures !ok <==> BaseAborts(old(Here()), pid, call)
    {
      hide Invalid, Disagrees;
      ValidKeysAreGood(Game());
      ok := true;
      match call
      case Manufact(id) =>
        if flags.manufact {
          return ON_COOLDOWN, true;
        }
        r, ok := ManufactureUnit(pid, ToU8(id));
        if r == OK {
          flags := flags.(manufact := true);
        }
      case Repair(id) =>
        if flags.repair {
          return ON_COOLDOWN, true;
        }
        r := RepairUnit(pid, ToU8(id));
        if r == OK {
          flags := flags.(repair := true);
        }
      case Upgrade(id, kind) =>
        if flags.upgrade {
          return ON_COOLDOWN, true;
        }
        r := UpgradeUnit(pid, ToU8(id), ToU8(kind));
        if r == OK {
          flags := flags.(upgrade := true);
        }
      case _ => r := UNSUPPORTED_RUNTIME;
    }

    method CoolDown(i: nat)
      requires Valid(Game()) && i < |units|
      modifies this`units
      ensures Valid(Game())
      ensures units == old(units)[i := old(units)[i].(attackCooldown := if old(units)[i].attackCooldown > 0
                                                                       then old(units)[i].attackCooldown - 1 else 0)]
    {
      hide Invalid, Disagrees;
      Parts(Game());
      if units[i].attackCooldown > 0 {
        RefitKeepsValid(Game(), i, units[i].(attackCooldown := units[i].attackCooldown - 1), 0, 0, 0);
        units := units[i := units[i].(attackCooldown := units[i].attackCooldown - 1)];
      }
    }

    /** Unit::step with the calls its program makes in this tick. */
    method StepUnit(i: nat, calls: seq<ECall>)
      requires Valid(Game()) && i < |units|
      modifies this`units, this`players, this`flags, this`spent, this`lost
      ensures Valid(Game()) && HasUnit(old(Game()), i) && Game() == UnitTurn(old(Game()), i, calls)
    {
      hide Invalid, Disagrees;
      Parts(Game());
      FieldParts(board, Now());
      CoolDown(i);
      flags := NO_FLAGS;
      ghost var start := Here();
      for n := 0 to |calls|
        invariant Valid(Game()) && Here() == UnitProgram(start, i, calls[..n]).0
      {
        assert calls[..n + 1][..n] == calls[..n];
        var _ := UnitCall(i, calls[n]);
      }
      assert calls[..|calls|] == calls;
    }

    /** Player::step with the calls the base program makes in this tick. */
    method StepBase(pid: u8, calls: seq<ECall>) returns (ok: bool, ghost results: seq<ActionResult>)
      requires Valid(Game()) && 1 <= pid <= 2
      modifies this`units, this`players, this`occ, this`flags, this`spent
      ensures ok ==> Valid(Game()) && BaseProgram(Snap(old(Game()), NO_FLAGS), pid, calls, Here(), results)
      ensures !ok ==> BaseProgramAborts(Snap(old(Game()), NO_FLAGS), pid, calls)
    {
      hide Invalid, Disagrees, BaseProgram, BaseCalled, BaseAborts;
      flags := NO_FLAGS;
      results := [];
      NoCalls(Here(), pid);
      for n := 0 to |calls|
        invariant Valid(Game()) && |results| == n
        invariant BaseProgram(Snap(old(Game()), NO_FLAGS), pid, calls[..n], Here(), results)
      {
        ghost var m := Here();
        var r, fine := BaseCall(pid, calls[n]);
        if !fine {
          return false, results;
        }
        BaseProgramOneMore(Snap(old(Game()), NO_FLAGS), pid, calls[..n], m, results, calls[n], Here(), r);
        TakeOneMore(calls, n);
        results := results + [r];
      }
      assert calls[..|calls|] == calls;
      return true, results;
    }

    // ---- Ticks (src/world.cpp:129-155) ----

    predicate GameOver()
      reads this`verdict
    {
      verdict != C.Ongoing
    }

    /** One tick in which every device makes whatever calls the arguments say. ok is
        false if the process aborted. */
    method Step(baseCalls: u8 -> seq<ECall>, unitCalls: UnitKey -> seq<ECall>) returns (ok: bool)
      requires Valid(Game())
      modifies this
      ensures ok ==> Valid(Game())
      ensures old(GameOver()) ==> ok && Game() == old(Game()) && tick == old(tick)
      ensures ok && !old(GameOver()) ==>
                tick == (old(tick) + 1) % 0x1_0000_0000 && Ticked(old(Game()), tick, baseCalls, unitCalls, Game())
      ensures !ok ==> TickAborts(old(Game()), (old(tick) + 1) % 0x1_0000_0000, baseCalls)
    {
      hide Invalid, Disagrees, ProgramsRan, ProgramsAbort, Moved, Collected, Checked, Pass;
      if GameOver() {
        return true;
      }
      tick := (tick + 1) % 0x1_0000_0000;
      ghost var flown, cleared, after;
      ok, flown, cleared, after := MoveAndCheck();
      if !ok || GameOver() {
        return;
      }
      CollectEnergy();
      ok := StepPrograms(baseCalls, unitCalls);
    }

    method MoveAndCheck() returns (ok: bool, ghost flown: Field, ghost cleared: Field, ghost after: Field)
      requires Valid(Game()) && !GameOver()
      modifies this`players, this`units, this`bullets, this`occ, this`nextSerial, this`verdict, this`events, this`lost
      ensures FieldOk(board, old(Now())) && (ok <==> Pass(board, rules, old(Now())).Some?)
      ensures ok ==> Valid(Game()) && Moved(old(Game()), flown, cleared, after)
      ensures ok ==> |after.players| == 2 && rules.captureTurnThreshold >= 1 && Game() == Checked(AfterMoves(old(Game()), flown, after))
    {
      hide Invalid, Disagrees, Moved;
      ok, flown, cleared := MoveEverything();
      after := Now();
      if ok {
        Parts(Game());
        CheckBaseCaptureCondition();
      }
    }

    method StepPrograms(baseCalls: u8 -> seq<ECall>, unitCalls: UnitKey -> seq<ECall>) returns (ok: bool)
      requires Valid(Game())
      modifies this`units, this`players, this`occ, this`flags, this`spent, this`lost
      ensures ok ==> Valid(Game()) && ProgramsRan(old(Game()), baseCalls, unitCalls, Game())
      ensures !ok ==> ProgramsAbort(old(Game()), baseCalls)
    {
      hide Invalid, Disagrees, BaseProgram, BaseProgramAborts, UnitTurns;
      ghost var results1, results2;
      ok, results1 := StepBase(1, baseCalls(1));
      if !ok {
        return;
      }
      ghost var b1 := Here();
      ok, results2 := StepBase(2, baseCalls(2));
      if !ok {
        return;
      }
      ghost var b2 := Here();
      StepUnits(unitCalls);
      assert BaseProgram(Snap(b1.game, NO_FLAGS), 2, baseCalls(2), b2, results2);
      ok := true;
    }

    method StepUnits(unitCalls: UnitKey -> seq<ECall>)
      requires Valid(Game())
      modifies this`units, this`players, this`flags, this`spent, this`lost
      ensures Valid(Game()) && KeysAreGood(old(Game())) && Game() == UnitTurns(old(Game()), 0, unitCalls)
    {
      hide Invalid, Disagrees, UnitTurn;
      ValidKeysAreGood(Game());
      for i := 0 to |units|
        invariant Valid(Game()) && KeysAreGood(Game()) && |units| == |old(units)|
        invariant UnitTurns(Game(), i, unitCalls) == UnitTurns(old(Game()), 0, unitCalls)
      {
        StepUnit(i, unitCalls(units[i].key));
        ValidKeysAreGood(Game());
      }
    }

    /** A whole game: any number of ticks, any calls by every device in every tick,
        and a referee who may declare a draw after any of them. Whatever happens,
        every state on the way is valid, and a verdict once reached stays. */
    method Run(ticks: nat, script: Script)
      returns (ok: bool, ghost history: seq<Moment>)
      requires Valid(Game())
      modifies this
      ensures history != [] && history[0] == old(Moment(Game(), tick)) && SafeSoFar(history)
      ensures forall t :: 0 <= t < |history| - 1 ==>
                Follows(history[t], script.BasesAt(t), script.UnitsAt(t), script.draws(t), history[t + 1])
      ensures ok ==> |history| == ticks + 1 && history[ticks] == Moment(Game(), tick)
      ensures !ok ==> CutShort(history, ticks, script)
    {
      hide Valid, InOrder, Follows, SafeSoFar, Ticked, TickAborts, script.BasesAt, script.UnitsAt;
      history := [Moment(Game(), tick)];
      StartsSafe(history[0]);
      ok := true;
      for t := 0 to ticks
        invariant Valid(Game()) && |history| == t + 1 && history[t] == Moment(Game(), tick)
        invariant history[0] == old(Moment(Game(), tick)) && SafeSoFar(history)
        invariant forall s :: 0 <= s < t ==>
                    Follows(history[s], script.BasesAt(s), script.UnitsAt(s), script.draws(s), history[s + 1])
      {
        ok := Step(script.BasesAt(t), script.UnitsAt(t));
        if !ok {
          return;
        }
        ghost var s := Game();
        if script.draws(t) {
          MarkRuleDraw();
        }
        ghost var n := Moment(Game(), tick);
        OneMoreMoment(history[t], script.BasesAt(t), script.UnitsAt(t), script.draws(t), s, n);
        StaysSafe(history, n);
        history := history + [n];
      }
    }

    // ---- The start of a game (src/world.cpp:83-127) ----

    /** Column by column, the first tile of each base. */
    static method FindBases(m: TileMap, ghost corner1: Cell, ghost corner2: Cell) returns (base1: Cell, base2: Cell)
      requires TwoBases(m, corner1, corner2)
      ensures base1 == corner1 && base2 == corner2
    {
      base1, base2 := Cell(0, 0), Cell(0, 0);
      var found1, found2 := false, false;
      for x := 0 to m.width
        invariant (found1 <==> corner1.x < x) && (found1 ==> base1 == corner1)
        invariant (found2 <==> corner2.x < x) && (found2 ==> base2 == corner2)
      {
        for y := 0 to m.height
          invariant (found1 <==> corner1.x < x || (corner1.x == x && corner1.y < y)) && (found1 ==> base1 == corner1)
          invariant (found2 <==> corner2.x < x || (corner2.x == x && corner2.y < y)) && (found2 ==> base2 == corner2)
        {
          var tile := m.At(Cell(x, y));
          assert tile.isBase && tile.side == 1 <==> InSquare(Cell(x, y), corner1, m.baseSize);
          assert tile.isBase && tile.side == 2 <==> InSquare(Cell(x, y), corner2, m.baseSize);
          if tile.isBase {
            if tile.side == 1 {
              if !found1 {
                base1, found1 := Cell(x, y), true;
              }
            } else if !found2 {
              base2, found2 := Cell(x, y), true;
            }
          }
        }
      }
    }

    lemma StartsSafe(m: Moment)
      requires Valid(m.game)
      ensures SafeSoFar([m])
    {
      hide Valid, InOrder;
      ValidIsInOrder(m.game);
    }

    /** The constructor up to the placing of units. The corners stand for where the
        bases of the map are. */
    constructor Open(m: TileMap, r: Rules, ghost corner1: Cell, ghost corner2: Cell)
      requires TwoBases(m, corner1, corner2)
      requires m.width <= 255 && m.height <= 255 && m.baseSize <= 255
      requires r.(width := m.width, height := m.height, baseSize := m.baseSize).Validate()
      ensures Game() == Opening(m, r.(width := m.width, height := m.height, baseSize := m.baseSize), corner1, corner2)
      ensures Valid(Game()) && tick == 0
      ensures forall c, p :: 0 <= p < 2 && m.InBounds(c) ==>
                (InBase(m, c, players[p].base) <==> m.At(c).isBase && m.At(c).side == p + 1)
    {
      var base1, base2 := FindBases(m, corner1, corner2);
      board, rules := m, r.(width := m.width, height := m.height, baseSize := m.baseSize);
      players := [Player(base1, 0, NO_UNITS, 0), Player(base2, 0, NO_UNITS, 0)];
      units, bullets, occ, nextSerial := [], [], map[], 0;
      tick, verdict, flags := 0, C.Ongoing, NO_FLAGS;
      gained, spent, lost, events := 0, 0, 0, [];
      new;
      OpeningIsValid(board, rules, base1, base2);
    }

    /** The rest of it: three units each, on random empty tiles, which exist. */
    method PlaceFirstUnits(ghost corner1: Cell, ghost corner2: Cell)
      returns (ghost first: seq<Unit>, ghost second: seq<Unit>)
      requires Valid(Game()) && TwoBases(board, corner1, corner2) && Game() == Opening(board, rules, corner1, corner2)
      modifies this`units, this`occ, this`players
      ensures Valid(Game()) && SamePurses(old(Now()), Now())
      ensures units == first + second && |first| == |second| == 3
      ensures Garrison(board, rules, first, 1, corner1) && Garrison(board, rules, second, 2, corner2)
    {
      hide Invalid, Disagrees;
      first := PopulateBase(1);
      BasesAreDisjoint(board, corner1, corner2);
      second := PopulateBase(2);
    }

    /** Three new units on empty tiles of a base that nothing else occupies. */
    method PopulateBase(pid: u8) returns (ghost placed: seq<Unit>)
      requires Valid(Game()) && 1 <= pid <= 2 && |players| == 2
      requires forall n :: 0 <= n < |units| ==> units[n].key.playerId != pid
      requires forall c :: c in occ ==> !InBase(board, c, players[pid - 1].base)
      modifies this`units, this`occ, this`players
      ensures Valid(Game()) && units == old(units) + placed && |placed| == 3
      ensures Garrison(board, rules, placed, pid, old(players)[pid - 1].base)
      ensures forall c :: c in occ ==> c in old(occ) || InBase(board, c, old(players)[pid - 1].base)
      ensures SamePurses(old(Now()), Now())
    {
      hide Invalid, Disagrees;
      ghost var base, taken: set<Cell> := players[pid - 1].base, {};
      placed := [];
      for i := 0 to 3
        invariant Valid(Game()) && |placed| == i
        invariant Placing(board, rules, old(Now()), Now(), pid, base, placed, taken)
      {
        ghost var before := Now();
        ghost var u := PlaceUnit(pid, i + 1, taken);
        PlacingOneMore(board, rules, old(Now()), before, Now(), pid, base, placed, taken, u);
        placed := placed + [u];
        taken := taken + {u.at};
      }
    }

    method PlaceUnit(pid: u8, id: u8, ghost taken: set<Cell>) returns (ghost u: Unit)
      requires Valid(Game()) && 1 <= pid <= 2 && 1 <= id <= MAX_UNITS && |players| == 2 && |taken| <= 2
      requires forall n :: 0 <= n < |units| ==> units[n].key != UnitKey(pid, id)
      requires forall c :: c in occ && InBase(board, c, players[pid - 1].base) ==> c in taken
      modifies this`units, this`occ, this`players
      ensures Valid(Game()) && units == old(units) + [u]
      ensures FreshAtBase(board, rules, u, UnitKey(pid, id), old(players)[pid - 1].base)
      ensures forall c :: c in occ ==> c in old(occ) || c == u.at
      ensures SamePurses(old(Now()), Now())
    {
      hide Invalid, Disagrees;
      Parts(Game());
      BaseHasRoom(players[pid - 1].base, board.baseSize, taken);
      var ok, cell := SpawnUnitAtBase(UnitKey(pid, id));
      u := NewUnit(rules, UnitKey(pid, id), cell);
    }
  }
}

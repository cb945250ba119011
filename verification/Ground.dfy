/**
 What moves and bullets do, said of the tiles and their terrain: which cells units
 enter and when a move succeeds (src/world.cpp:312-447), what bullets fly over and
 what stops them (src/world.cpp:157-258, 761-795).
 */
module Ground {
  import opened Common
  import opened GameRules
  import opened TileCodec
  import opened TileMap
  import opened MovementRule
  import opened MoveResolution
  import opened Placement
  import opened Flight
  import opened BulletPass
  import opened UnitMoves

  // ---- Units ----

  /** c is the neighbour of the unit's cell that its request names. */
  predicate Asks(u: Unit, c: Cell) {
    match u.pendingMove
    case None => false
    case Some(Up) => c.x == u.at.x && c.y == u.at.y - 1
    case Some(Right) => c.x == u.at.x + 1 && c.y == u.at.y
    case Some(Down) => c.x == u.at.x && c.y == u.at.y + 1
    case Some(Left) => c.x == u.at.x - 1 && c.y == u.at.y
  }

  lemma AskingIsWanting(u: Unit, c: Cell)
    ensures Asks(u, c) <==> u.pendingMove.Some? && Toward(u.at, u.pendingMove.value) == c
  {
  }

  lemma WishOf(board: TileMap, f: Field, i: nat)
    requires FieldOk(board, f) && AllLive(f.units) && i < |f.units|
    ensures f.units[i].at in Wishes(board, f) && Wishes(board, f)[f.units[i].at] == f.units[i].pendingMove
  {
    hide Disagrees;
    LiveUnitsStandApart(board, f);
    assert MoversOf(f.units)[i] == Mover(f.units[i].at, f.units[i].pendingMove);
  }

  /** The rule, read off unit i and the units around it. */
  lemma RuleForUnit(board: TileMap, f: Field, i: nat)
    requires FieldOk(board, f) && AllLive(f.units) && i < |f.units| && board.WellFormed()
    ensures f.units[i].at in Moving(board, f)
       <==> MaySucceed(Wishes(board, f), FreeCells(board, f.occ), Moving(board, f), f.units[i].at)
  {
    hide Disagrees, MaySucceed, Winners, Wishes, FreeCells;
    WinnersIsGreatestFixedPoint(Wishes(board, f), FreeCells(board, f.occ));
  }

  lemma RelocatedCount(board: TileMap, f: Field, g: Field)
    requires FieldOk(board, f) && AllLive(f.units) && Relocated(board, f, g)
    ensures |g.units| == |f.units|
  {
    hide Disagrees, Moving, Relocate, Arrivals;
  }

  lemma RelocatedUnit(board: TileMap, f: Field, g: Field, i: nat)
    requires FieldOk(board, f) && AllLive(f.units) && Relocated(board, f, g) && i < |f.units|
    ensures |g.units| == |f.units| && g.units[i] == Relocate(f.units[i], Moving(board, f))
  {
    hide Disagrees, Moving, Relocate, Arrivals;
  }

  /** A unit that makes its move is one of those the rule lets succeed. */
  lemma MovedMeansMoving(board: TileMap, f: Field, g: Field, i: nat)
    requires FieldOk(board, f) && AllLive(f.units) && Relocated(board, f, g) && i < |f.units|
    ensures |g.units| == |f.units|
    ensures g.units[i].at != f.units[i].at <==> f.units[i].at in Moving(board, f)
    ensures g.units[i].at != f.units[i].at ==> Asks(f.units[i], g.units[i].at)
  {
    hide Disagrees, Moving, FreeCells, Wishes, Relocated;
    FieldParts(board, f);
    RelocatedUnit(board, f, g, i);
    WishOf(board, f, i);
    RuleForUnit(board, f, i);
  }

  /** Unit i of f asks for c, a tile of the board that is neither water nor obstacle and
      names no bullet; nobody else asks for it, and a unit that stands there is elsewhere
      in g and does not ask for this unit's cell. */
  ghost predicate WayIsOpen(board: TileMap, f: Field, g: Field, i: nat, c: Cell)
    requires board.WellFormed() && i < |f.units| == |g.units|
  {
    && Asks(f.units[i], c)
    && 0 <= c.x < board.width && 0 <= c.y < board.height
    && board.At(c).terrain != WATER && board.At(c).terrain != OBSTACLE
    && !(c in f.occ && f.occ[c].ByBullet?)
    && (forall j :: 0 <= j < |f.units| && j != i ==> !Asks(f.units[j], c))
    && (forall j :: 0 <= j < |f.units| && f.units[j].at == c ==> g.units[j].at != c && !Asks(f.units[j], f.units[i].at))
  }

  /** A unit changes its cell for c if and only if its way there is open. */
  lemma UnitMovesIfWayIsOpen(board: TileMap, f: Field, g: Field, i: nat, c: Cell)
    requires FieldOk(board, f) && AllLive(f.units) && Relocated(board, f, g) && board.WellFormed()
    requires i < |f.units| == |g.units|
    ensures g.units[i].at == c != f.units[i].at <==> WayIsOpen(board, f, g, i, c)
  {
    hide Disagrees, Moving, FreeCells, Wishes, Relocated;
    if g.units[i].at == c != f.units[i].at {
      MovedOntoOpenGround(board, f, g, i, c);
    }
    if WayIsOpen(board, f, g, i, c) {
      MoveSucceeds(board, f, g, i, c);
    }
  }

  lemma MovedOntoOpenGround(board: TileMap, f: Field, g: Field, i: nat, c: Cell)
    requires FieldOk(board, f) && AllLive(f.units) && Relocated(board, f, g) && board.WellFormed()
    requires i < |f.units| == |g.units| && g.units[i].at == c != f.units[i].at
    ensures WayIsOpen(board, f, g, i, c)
  {
    hide Disagrees, Moving, FreeCells, Wishes, Relocated;
    MovedMeansMoving(board, f, g, i);
    WishOf(board, f, i);
    RuleForUnit(board, f, i);
    AskingIsWanting(f.units[i], c);
    forall j | 0 <= j < |f.units| && j != i
      ensures !Asks(f.units[j], c)
      ensures f.units[j].at == c ==> g.units[j].at != c && !Asks(f.units[j], f.units[i].at)
    {
      MovedMeansMoving(board, f, g, j);
      WishOf(board, f, j);
      AskingIsWanting(f.units[j], c);
      AskingIsWanting(f.units[j], f.units[i].at);
      LiveUnitsStandApart(board, f);
      assert MoversOf(f.units)[i].at != MoversOf(f.units)[j].at;
    }
  }

  lemma MoveSucceeds(board: TileMap, f: Field, g: Field, i: nat, c: Cell)
    requires FieldOk(board, f) && AllLive(f.units) && Relocated(board, f, g) && board.WellFormed()
    requires i < |f.units| == |g.units| && WayIsOpen(board, f, g, i, c)
    ensures g.units[i].at == c != f.units[i].at
  {
    hide Disagrees, Moving, FreeCells, Wishes, Relocated;
    MovedMeansMoving(board, f, g, i);
    WishOf(board, f, i);
    RuleForUnit(board, f, i);
    var who, w := Wishes(board, f), Moving(board, f);
    AskingIsWanting(f.units[i], c);
    forall o | o in who && o != f.units[i].at && who[o].Some?
      ensures Toward(o, who[o].value) != c
    {
      var j := WhoStandsAt(board, f, o);
      AskingIsWanting(f.units[j], c);
    }
    if c in who {
      var j := WhoStandsAt(board, f, c);
      MovedMeansMoving(board, f, g, j);
      AskingIsWanting(f.units[j], f.units[i].at);
    }
    assert MaySucceed(who, FreeCells(board, f.occ), w, f.units[i].at);
  }

  lemma WhoStandsAt(board: TileMap, f: Field, c: Cell) returns (j: nat)
    requires FieldOk(board, f) && AllLive(f.units) && c in Wishes(board, f)
    ensures j < |f.units| && f.units[j].at == c && Wishes(board, f)[c] == f.units[j].pendingMove
  {
    hide Disagrees;
    LiveUnitsStandApart(board, f);
    var movers := MoversOf(f.units);
    j :| 0 <= j < |movers| && movers[j].at == c;
    assert movers[j] == Mover(f.units[j].at, f.units[j].pendingMove);
  }

  /** A unit alone in asking for an unoccupied tile of any other terrain ends there. */
  lemma LoneMoverGetsThere(board: TileMap, f: Field, g: Field, i: nat, c: Cell)
    requires FieldOk(board, f) && AllLive(f.units) && Relocated(board, f, g) && board.WellFormed()
    requires i < |f.units| == |g.units| && Asks(f.units[i], c)
    requires 0 <= c.x < board.width && 0 <= c.y < board.height && c !in f.occ
    requires board.At(c).terrain != WATER && board.At(c).terrain != OBSTACLE
    requires forall j :: 0 <= j < |f.units| && j != i ==> !Asks(f.units[j], c)
    ensures g.units[i].at == c
  {
    hide Disagrees, Relocated;
    FieldParts(board, f);
    forall j | 0 <= j < |f.units|
      ensures f.units[j].at != c
    {
      assert Names(f.occ, f.units[j].at, ByUnit(f.units[j].key));
    }
    UnitMovesIfWayIsOpen(board, f, g, i, c);
  }

  // ---- Hits ----

  /** A unit loses what hits it, down to 0, and that is taken off the hit. Only a hit
      that is stronger than the unit clears its tile and its roster slot. */
  lemma UnitIsHit(damage: nat, at: Cell, f: Field)
    requires CanCollide(f, at) && at in f.occ && f.occ[at].ByUnit?
    ensures var key, i, hit := f.occ[at].key, UnitIndex(f.units, f.occ[at].key), Collide(damage, at, f);
            && |hit.field.units| == |f.units| && hit.field.bullets == f.bullets && hit.field.nextSerial == f.nextSerial
            && hit.left == (if damage > f.units[i].health then damage - f.units[i].health else 0)
            && (forall j :: 0 <= j < |f.units| && j != i ==> hit.field.units[j] == f.units[j])
            && hit.field.units[i]
               == f.units[i].(health := if f.units[i].health > damage then f.units[i].health - damage else 0)
            && (if damage > f.units[i].health
                then hit.field.occ == f.occ - {at} && RosterShape(hit.field.players) && Slot(hit.field.players, key) == None
                else hit.field.occ == f.occ && hit.field.players == f.players)
  {
  }

  /** Two bullets take each other's strength off; a bullet left with none vacates the tile. */
  lemma BulletIsHit(damage: nat, at: Cell, f: Field)
    requires CanCollide(f, at) && at in f.occ && f.occ[at].ByBullet?
    requires BulletIndex(f.bullets, f.occ[at].serial) < |f.bullets|
    ensures var i, hit := BulletIndex(f.bullets, f.occ[at].serial), Collide(damage, at, f);
            && |hit.field.bullets| == |f.bullets| && hit.field.units == f.units && hit.field.players == f.players
            && hit.left == (if damage > f.bullets[i].damage then damage - f.bullets[i].damage else 0)
            && (forall j :: 0 <= j < |f.bullets| && j != i ==> hit.field.bullets[j] == f.bullets[j])
            && hit.field.bullets[i]
               == f.bullets[i].(damage := if f.bullets[i].damage > damage then f.bullets[i].damage - damage else 0)
            && hit.field.occ == if f.bullets[i].damage > damage then f.occ else f.occ - {at}
  {
  }

  // ---- Flight ----

  /** A bullet in front of an obstacle or the edge is spent and hurts nobody. */
  lemma WallSpendsBullet(board: TileMap, f: Field, k: nat)
    requires FieldOk(board, f) && k < |f.bullets| && f.bullets[k].damage > 0 && board.WellFormed()
    requires var to := Toward(f.bullets[k].at, f.bullets[k].direction);
             !(0 <= to.x < board.width && 0 <= to.y < board.height) || board.At(to).terrain == OBSTACLE
    ensures StepBullet(board, f, k) == f.(bullets := f.bullets[k := f.bullets[k].(damage := 0)])
  {
    hide Disagrees;
  }

  /** One over an unoccupied tile that is no obstacle flies on with what it has. */
  lemma BulletFliesOn(board: TileMap, f: Field, k: nat)
    requires FieldOk(board, f) && k < |f.bullets| && f.bullets[k].damage > 0 && board.WellFormed()
    requires var to := Toward(f.bullets[k].at, f.bullets[k].direction);
             0 <= to.x < board.width && 0 <= to.y < board.height && board.At(to).terrain != OBSTACLE && to !in f.occ
    ensures var b, to := f.bullets[k], Toward(f.bullets[k].at, f.bullets[k].direction);
            StepBullet(board, f, k) == f.(bullets := f.bullets[k := b.(at := to)],
                                          occ := (f.occ - {b.at})[to := ByBullet(b.serial)])
  {
    hide Disagrees;
    LiftKeepsField(board, f, k);
    var b := f.bullets[k];
    assert Lifted(f, k).bullets[k := b.(at := Toward(b.at, b.direction))] == f.bullets[k := b.(at := Toward(b.at, b.direction))];
  }

  /** The cells that a flight of n steps passes. */
  ghost predicate FreeFlight(board: TileMap, occ: Grid, b: Bullet, n: nat)
    requires board.WellFormed()
  {
    forall m :: 1 <= m <= n ==> FreeSky(board, occ, Along(b.at, b.direction, m))
  }

  ghost predicate FreeSky(board: TileMap, occ: Grid, c: Cell)
    requires board.WellFormed()
  {
    0 <= c.x < board.width && 0 <= c.y < board.height && board.At(c).terrain != OBSTACLE && c !in occ
  }

  lemma LoneSweep(board: TileMap, f: Field, b: Bullet)
    requires FieldOk(board, f) && f.bullets == [b] && b.damage > 0 && board.WellFormed() && FreeFlight(board, f.occ, b, 1)
    ensures var to := Toward(b.at, b.direction);
            Sweep(board, f, 0) == f.(bullets := [b.(at := to)], occ := (f.occ - {b.at})[to := ByBullet(b.serial)])
  {
    hide Disagrees;
    assert Along(b.at, b.direction, 1) == Toward(b.at, b.direction);
    assert FreeSky(board, f.occ, Along(b.at, b.direction, 1));
    BulletFliesOn(board, f, 0);
    SweepUnfolds(board, f, 0);
    assert f.bullets[0 := b.(at := Toward(b.at, b.direction))] == [b.(at := Toward(b.at, b.direction))];
  }

  /** What a lone bullet leaves behind does not stand in its way. */
  lemma FlightGoesOn(board: TileMap, f: Field, b: Bullet, n: nat)
    requires board.WellFormed() && n > 0 && FreeFlight(board, f.occ, b, n)
    ensures var to := Toward(b.at, b.direction);
            FreeFlight(board, (f.occ - {b.at})[to := ByBullet(b.serial)], b.(at := to), n - 1)
  {
    var to := Toward(b.at, b.direction);
    var occ := (f.occ - {b.at})[to := ByBullet(b.serial)];
    forall m | 1 <= m <= n - 1
      ensures FreeSky(board, occ, Along(to, b.direction, m))
    {
      assert Along(to, b.direction, m) == Along(b.at, b.direction, m + 1);
      assert FreeSky(board, f.occ, Along(b.at, b.direction, m + 1));
    }
  }

  lemma {:induction false} LoneSweeps(board: TileMap, f: Field, b: Bullet, n: nat)
    requires FieldOk(board, f) && f.bullets == [b] && b.damage > 0 && board.WellFormed() && FreeFlight(board, f.occ, b, n)
    ensures var g := Sweeps(board, f, n);
            && g.bullets == [b.(at := Along(b.at, b.direction, n))] && g.units == f.units && g.players == f.players
    decreases n
  {
    hide Disagrees, FreeSky;
    if n > 0 {
      LoneSweep(board, f, b);
      SweepKeepsField(board, f, 0);
      FlightGoesOn(board, f, b, n);
      var to := Toward(b.at, b.direction);
      LoneSweeps(board, Sweep(board, f, 0), b.(at := to), n - 1);
      assert Along(to, b.direction, n - 1) == Along(b.at, b.direction, n);
    }
  }

  /** Nobody alive has an attack to make. */
  predicate Quiet(units: seq<Unit>) {
    forall i :: 0 <= i < |units| ==> units[i].health == 0 || units[i].pendingAttack.damage == 0
  }

  lemma {:induction false} QuietCommit(board: TileMap, rules: Rules, f: Field, i: nat)
    requires FieldOk(board, f) && i <= |f.units| && Quiet(f.units)
    ensures Commit(board, rules, f, i) == Some(f)
    decreases |f.units| - i
  {
    hide Disagrees;
    if i < |f.units| {
      assert Shoot(board, rules, f, i) == Some(f);
      QuietCommit(board, rules, f, i + 1);
    }
  }

  lemma PassWithoutShots(board: TileMap, rules: Rules, f: Field, s: Field, h: Field)
    requires FieldOk(board, f) && Sweep(board, f, 0) == s && FieldOk(board, s) && Quiet(s.units) && Sweeps(board, s, 4) == h
    ensures Pass(board, rules, f) == Some(h.(bullets := DropSpent(h.bullets)))
  {
    hide Disagrees, Commit, Sweeps, Sweep, DropSpent;
    SweepKeepsField(board, f, 0);
    QuietCommit(board, rules, s, 0);
  }

  /** A bullet with nothing else about, whose next five cells are on the board, no
      obstacles and unoccupied, is five cells on after a pass, as strong as before. */
  lemma LoneBulletFliesFive(board: TileMap, rules: Rules, f: Field, b: Bullet)
    requires FieldOk(board, f) && f.bullets == [b] && b.damage > 0 && Quiet(f.units) && board.WellFormed()
    requires forall m :: 1 <= m <= 5 ==>
               var c := Along(b.at, b.direction, m);
               0 <= c.x < board.width && 0 <= c.y < board.height && board.At(c).terrain != OBSTACLE && c !in f.occ
    ensures Pass(board, rules, f).Some?
    ensures Pass(board, rules, f).value.bullets == [b.(at := Along(b.at, b.direction, 5))]
    ensures Pass(board, rules, f).value.units == f.units
  {
    hide Disagrees, Commit, Sweeps, Sweep, Pass;
    assert FreeFlight(board, f.occ, b, 5);
    assert FreeFlight(board, f.occ, b, 1);
    LoneSweep(board, f, b);
    SweepKeepsField(board, f, 0);
    var s, to := Sweep(board, f, 0), Toward(b.at, b.direction);
    FlightGoesOn(board, f, b, 5);
    LoneSweeps(board, s, b.(at := to), 4);
    assert Along(to, b.direction, 4) == Along(b.at, b.direction, 5);
    PassWithoutShots(board, rules, f, s, Sweeps(board, s, 4));
    DropOne(b.(at := Along(b.at, b.direction, 5)));
  }

  lemma DropOne(b: Bullet)
    ensures DropSpent([b]) == if b.damage > 0 then [b] else []
  {
    assert [b][1..] == [];
  }

  /** With an obstacle or the edge in front of it, it is gone, and nobody was hurt. */
  lemma LoneBulletIsSpent(board: TileMap, rules: Rules, f: Field, b: Bullet)
    requires FieldOk(board, f) && f.bullets == [b] && b.damage > 0 && Quiet(f.units) && board.WellFormed()
    requires var to := Toward(b.at, b.direction);
             !(0 <= to.x < board.width && 0 <= to.y < board.height) || board.At(to).terrain == OBSTACLE
    ensures Pass(board, rules, f).Some?
    ensures Pass(board, rules, f).value.bullets == [] && Pass(board, rules, f).value.units == f.units
  {
    hide Disagrees, Commit, Sweeps, Sweep, Pass;
    WallSpendsBullet(board, f, 0);
    OnlySweep(board, f);
    SweepKeepsField(board, f, 0);
    var s := Sweep(board, f, 0);
    assert s == f.(bullets := [b.(damage := 0)]);
    SpentStay(board, s, 4);
    PassWithoutShots(board, rules, f, s, s);
    DropOne(b.(damage := 0));
  }

  lemma OnlySweep(board: TileMap, f: Field)
    requires FieldOk(board, f) && |f.bullets| == 1
    ensures Sweep(board, f, 0) == StepOrStay(board, f, 0)
  {
    hide Disagrees, StepBullet;
    SweepUnfolds(board, f, 0);
  }

  lemma {:induction false} SpentStay(board: TileMap, f: Field, n: nat)
    requires FieldOk(board, f) && |f.bullets| == 1 && f.bullets[0].damage == 0
    ensures Sweeps(board, f, n) == f
    decreases n
  {
    hide Disagrees;
    if n > 0 {
      SweepUnfolds(board, f, 0);
      SweepKeepsField(board, f, 0);
      SpentStay(board, f, n - 1);
    }
  }

  /** Every bullet left after a pass has flown five cells in its direction, all of them
      on the board and none an obstacle, from where a bullet was or from its shooter. */
  lemma SurvivorsFlewOverOpenTiles(board: TileMap, rules: Rules, f: Field, b: Bullet)
    requires FieldOk(board, f) && Pass(board, rules, f).Some? && b in Pass(board, rules, f).value.bullets && board.WellFormed()
    ensures exists start: Cell ::
              && ((exists i :: 0 <= i < |f.bullets| && f.bullets[i].serial == b.serial && f.bullets[i].at == start)
                  || (exists m :: 0 <= m < |f.units| && f.units[m].key.playerId == b.playerId && f.units[m].at == start))
              && b.at == Along(start, b.direction, 5)
              && forall n :: 1 <= n <= 5 ==>
                   var c := Along(start, b.direction, n);
                   0 <= c.x < board.width && 0 <= c.y < board.height && board.At(c).terrain != OBSTACLE
  {
    hide Disagrees, Pass;
    SurvivorsTravelFive(board, rules, f);
    if i :| 0 <= i < |f.bullets| && SameBullet(f.bullets[i], b) && Came(board, f.bullets[i].at, b, 5) {
      OpenTiles(board, f.bullets[i].at, b);
      assert f.bullets[i].serial == b.serial;
    } else {
      var m :| 0 <= m < |f.units| && Shooter(f.units[m], b) && Came(board, f.units[m].at, b, 5);
      OpenTiles(board, f.units[m].at, b);
      assert f.units[m].key.playerId == b.playerId;
    }
  }

  lemma OpenTiles(board: TileMap, start: Cell, b: Bullet)
    requires board.WellFormed() && Came(board, start, b, 5)
    ensures b.at == Along(start, b.direction, 5)
    ensures forall n :: 1 <= n <= 5 ==>
              var c := Along(start, b.direction, n);
              0 <= c.x < board.width && 0 <= c.y < board.height && board.At(c).terrain != OBSTACLE
  {
  }

  // ---- The order of bullets and shots ----

  /** Two bullets of one direction, one right behind the other, with a free tile in front. */
  ghost predicate Convoy(board: TileMap, f: Field, front: Bullet, rear: Bullet)
    requires FieldOk(board, f) && board.WellFormed()
  {
    && front.damage > 0 && rear.damage > 0 && front.direction == rear.direction && Toward(rear.at, rear.direction) == front.at
    && FreeSky(board, f.occ, Toward(front.at, front.direction))
  }

  /** If the one in front is older, it makes room and both fly on. */
  lemma ConvoyFlies(board: TileMap, f: Field, front: Bullet, rear: Bullet)
    requires FieldOk(board, f) && board.WellFormed() && f.bullets == [front, rear] && Convoy(board, f, front, rear)
    ensures Sweep(board, f, 0).bullets == [front.(at := Toward(front.at, front.direction)), rear.(at := front.at)]
  {
    hide Disagrees, Collide;
    FieldParts(board, f);
    assert f.bullets[0] == front && f.bullets[1] == rear;
    assert Clear(board, front.at);
    BulletFliesOn(board, f, 0);
    StepKeepsField(board, f, 0);
    var g := StepBullet(board, f, 0);
    assert g.bullets[1] == rear;
    BulletFliesOn(board, g, 1);
    SweepUnfolds(board, f, 0);
    SweepUnfolds(board, g, 1);
  }

  /** If the one behind is older, it hits the other, and of their damage only the
      difference is left. */
  lemma ConvoyCollides(board: TileMap, f: Field, front: Bullet, rear: Bullet)
    requires FieldOk(board, f) && board.WellFormed() && f.bullets == [rear, front] && Convoy(board, f, front, rear)
    ensures var bs := Sweep(board, f, 0).bullets;
            && |bs| == 2
            && bs[0].damage == (if rear.damage > front.damage then rear.damage - front.damage else 0)
            && bs[1].damage == (if front.damage > rear.damage then front.damage - rear.damage else 0)
  {
    hide Disagrees;
    FieldParts(board, f);
    assert f.bullets[0] == rear && f.bullets[1] == front;
    assert Clear(board, front.at);
    RearHits(board, f, front, rear);
    StepKeepsField(board, f, 0);
    var g := StepBullet(board, f, 0);
    SweepUnfolds(board, f, 0);
    SweepUnfolds(board, g, 1);
    if front.damage > rear.damage {
      BulletFliesOn(board, g, 1);
    }
  }

  lemma RearHits(board: TileMap, f: Field, front: Bullet, rear: Bullet)
    requires FieldOk(board, f) && board.WellFormed() && f.bullets == [rear, front] && Convoy(board, f, front, rear)
    ensures var g := StepBullet(board, f, 0);
            && |g.bullets| == 2
            && g.bullets[0].damage == (if rear.damage > front.damage then rear.damage - front.damage else 0)
            && g.bullets[1] == front.(damage := if front.damage > rear.damage then front.damage - rear.damage else 0)
            && (front.damage > rear.damage ==> Toward(front.at, front.direction) !in g.occ)
  {
    hide Disagrees, Collide;
    FieldParts(board, f);
    assert f.bullets[0] == rear && f.bullets[1] == front;
    assert Clear(board, front.at) && Names(f.occ, front.at, ByBullet(front.serial)) && front.serial != rear.serial;
    LiftKeepsField(board, f, 0);
    var l := Lifted(f, 0);
    assert l.bullets == [rear.(damage := 0), front] && l.occ[front.at] == ByBullet(front.serial);
    assert BulletIndex(l.bullets, front.serial) == 1;
    LiftedCanCollide(board, f, 0, front.at);
    BulletIsHit(rear.damage, front.at, l);
  }

  // ---- Shots ----

  /** A shot at an unoccupied tile of the board that is no obstacle becomes a bullet of
      the shooter there, with the damage and direction of the attack, which is over. */
  lemma ShotBecomesBullet(board: TileMap, rules: Rules, f: Field, i: nat)
    requires FieldOk(board, f) && i < |f.units| && board.WellFormed()
    requires f.units[i].health > 0 && f.units[i].pendingAttack.damage > 0
    requires var to := Toward(f.units[i].at, f.units[i].pendingAttack.direction);
             0 <= to.x < board.width && 0 <= to.y < board.height && board.At(to).terrain != OBSTACLE && to !in f.occ
    ensures var u := f.units[i];
            var to := Toward(u.at, u.pendingAttack.direction);
            Shoot(board, rules, f, i)
            == Some(f.(units := f.units[i := u.(attackCooldown := rules.attackCooldown,
                                                pendingAttack := Attack(0, u.pendingAttack.direction))],
                       bullets := f.bullets + [Bullet(f.nextSerial, to, u.pendingAttack.direction, u.key.playerId,
                                                      u.pendingAttack.damage)],
                       occ := f.occ[to := ByBullet(f.nextSerial)],
                       nextSerial := f.nextSerial + 1))
  {
    hide Disagrees;
  }

  /** A shot at an obstacle does nothing, and one aimed off the board aborts. */
  lemma ShotAtWall(board: TileMap, rules: Rules, f: Field, i: nat)
    requires FieldOk(board, f) && i < |f.units| && board.WellFormed()
    requires f.units[i].health > 0 && f.units[i].pendingAttack.damage > 0
    ensures var to := Toward(f.units[i].at, f.units[i].pendingAttack.direction);
            && (!(0 <= to.x < board.width && 0 <= to.y < board.height) <==> Shoot(board, rules, f, i).None?)
            && (0 <= to.x < board.width && 0 <= to.y < board.height && board.At(to).terrain == OBSTACLE ==>
                  Shoot(board, rules, f, i) == Some(f))
  {
    hide Disagrees;
  }

  /** Of two units that shoot at one free tile, the shot of the one that is listed first is
      over, and that of the other exactly if it was stronger. */
  lemma EarlierShotIsOver(board: TileMap, rules: Rules, f: Field, u: Unit, v: Unit)
    requires FieldOk(board, f) && board.WellFormed() && f.units == [u, v] && Shoots(u) && Shoots(v)
    requires Aim(u) == Aim(v) && FreeSky(board, f.occ, Aim(u))
    ensures var g := Commit(board, rules, f, 0);
            && g.Some? && |g.value.units| == 2 && g.value.units[0].pendingAttack.damage == 0
            && (g.value.units[1].pendingAttack.damage == 0 <==> v.pendingAttack.damage > u.pendingAttack.damage)
  {
    hide Disagrees, Collide;
    FieldParts(board, f);
    assert f.units[0] == u && f.units[1] == v;
    ShotBecomesBullet(board, rules, f, 0);
    ShootKeepsField(board, rules, f, 0);
    ShootEffect(board, rules, f, 0);
    var g := Shoot(board, rules, f, 0).value;
    assert g.units[1] == v;
    SecondShot(board, rules, f, g, u.pendingAttack.damage);
    var h := Shoot(board, rules, g, 1);
    ShootKeepsField(board, rules, g, 1);
    ShootEffect(board, rules, g, 1);
    assert Commit(board, rules, h.value, 2) == h;
    assert Commit(board, rules, g, 1) == h;
  }

  lemma SecondShot(board: TileMap, rules: Rules, f: Field, g: Field, first: nat)
    requires FieldOk(board, f) && FieldOk(board, g) && board.WellFormed() && |g.units| == 2 && Shoots(g.units[1])
    requires g.units[0].pendingAttack.damage == 0 && FreeSky(board, f.occ, Aim(g.units[1]))
    requires |g.bullets| == |f.bullets| + 1 && g.bullets[|f.bullets|].serial == f.nextSerial
    requires g.bullets[|f.bullets|].damage == first
    requires g.occ == f.occ[Aim(g.units[1]) := ByBullet(f.nextSerial)]
    ensures var h := Shoot(board, rules, g, 1);
            && h.Some? && |h.value.units| == 2 && h.value.units[0].pendingAttack.damage == 0
            && (h.value.units[1].pendingAttack.damage == 0 <==> g.units[1].pendingAttack.damage > first)
  {
    hide Disagrees, Collide;
    FieldParts(board, g);
    var d, to := g.units[1].pendingAttack.damage, Aim(g.units[1]);
    CollisionKeepsField(board, d, to, g);
    CollisionOnlyWeakens(d, to, g);
    assert BulletIndex(g.bullets, f.nextSerial) == |f.bullets|;
    BulletIsHit(d, to, g);
  }
}

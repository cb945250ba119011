/**
 Unit movement on the field (src/world.cpp:260-484): dead units leave the list,
 the rule decides which moves succeed, and carrying them out in two passes keeps
 the grid in agreement.
 */
module UnitMoves {
  import opened Common
  import opened GameRules
  import opened TileCodec
  import opened TileMap
  import opened MovementRule
  import opened MoveResolution
  import opened Placement
  import opened Flight

  // ---- Dead units ----

  ghost predicate AllLive(units: seq<Unit>) {
    forall i :: 0 <= i < |units| ==> units[i].health > 0
  }

  function Live(units: seq<Unit>): seq<Unit> {
    if units == [] then []
    else (if units[0].health > 0 then [units[0]] else []) + Live(units[1..])
  }

  ghost predicate DistinctKeys(units: seq<Unit>) {
    forall i, j :: 0 <= i < j < |units| ==> units[i].key != units[j].key
  }

  lemma LiveKeeps(units: seq<Unit>)
    ensures AllLive(Live(units))
    ensures forall u :: u in Live(units) <==> u in units && u.health > 0
    ensures DistinctKeys(units) ==> DistinctKeys(Live(units))
  {
    LiveMembers(units);
    LiveStaysDistinct(units);
  }

  lemma {:induction false} LiveMembers(units: seq<Unit>)
    ensures AllLive(Live(units))
    ensures forall u :: u in Live(units) <==> u in units && u.health > 0
  {
    if units != [] {
      LiveMembers(units[1..]);
      assert forall u :: u in units <==> u == units[0] || u in units[1..];
    }
  }

  lemma {:induction false} LiveStaysDistinct(units: seq<Unit>)
    ensures DistinctKeys(units) ==> DistinctKeys(Live(units))
  {
    if units != [] && DistinctKeys(units) {
      var rest := Live(units[1..]);
      LiveStaysDistinct(units[1..]);
      LiveMembers(units[1..]);
      forall j | 0 <= j < |rest|
        ensures rest[j].key != units[0].key
      {
        assert rest[j] in units[1..];
      }
    }
  }

  /** The field with dead unit i taken off its roster slot and its tile. */
  ghost function Forget(f: Field, i: nat): Field
    requires RosterShape(f.players) && i < |f.units| && ValidKey(f.units[i].key)
  {
    f.(players := SetSlot(f.players, f.units[i].key, None),
       occ := if Names(f.occ, f.units[i].at, ByUnit(f.units[i].key)) then f.occ - {f.units[i].at} else f.occ)
  }

  /** g is f without its dead units: off the list, off their tiles, out of the rosters. */
  ghost predicate DeadRemoved(f: Field, g: Field) {
    && g.units == Live(f.units) && g.bullets == f.bullets && g.nextSerial == f.nextSerial
    && (forall c :: c in g.occ ==> c in f.occ && g.occ[c] == f.occ[c])
    && (forall c :: c in f.occ && c !in g.occ ==> f.occ[c].ByUnit? && UnitIndex(g.units, f.occ[c].key) == |g.units|)
    && |g.players| == |f.players| == 2
    && (forall p :: 0 <= p < 2 ==> g.players[p] == f.players[p].(roster := g.players[p].roster))
  }

  lemma ForgetKeepsField(board: TileMap, f: Field, i: nat)
    requires FieldOk(board, f) && i < |f.units| && f.units[i].health == 0
    ensures ValidKey(f.units[i].key) && RosterShape(f.players)
    ensures FieldOk(board, Forget(f, i))
    ensures forall c :: c in Forget(f, i).occ ==> f.occ[c] != ByUnit(f.units[i].key)
    ensures forall c :: c in f.occ && f.occ[c] != ByUnit(f.units[i].key) ==> c in Forget(f, i).occ
  {
    var u := f.units[i];
    KeyFindsItsUnit(f.units, i);
    ClearingKeepsRoster(f.players, f.units, u.key);
    var g := f.(players := SetSlot(f.players, u.key, None));
    assert FieldOk(board, g);
    if Names(f.occ, u.at, ByUnit(u.key)) {
      NamedUnitIsAlone(board, g, u.at);
      assert Deserted(g, u.at);
      UnmarkKeepsField(board, g, u.at);
    }
  }

  /** No tile and no roster slot names one of the first n units if it is dead. */
  ghost predicate DeadForgotten(f: Field, n: nat)
    requires n <= |f.units|
  {
    forall i :: 0 <= i < n && f.units[i].health == 0 ==>
      && (forall c :: c in f.occ ==> f.occ[c] != ByUnit(f.units[i].key))
      && ValidKey(f.units[i].key) && RosterShape(f.players) && Slot(f.players, f.units[i].key) == None
  }

  lemma ForgetForgets(board: TileMap, f: Field, i: nat)
    requires FieldOk(board, f) && i < |f.units| && DeadForgotten(f, i)
    ensures f.units[i].health > 0 ==> DeadForgotten(f, i + 1)
    ensures f.units[i].health == 0 ==>
              ValidKey(f.units[i].key) && RosterShape(f.players) && DeadForgotten(Forget(f, i), i + 1)
  {
    hide FieldOk, BulletsPlaced, UnitIndex;
    FieldParts(board, f);
    if f.units[i].health == 0 {
      ForgetKeepsField(board, f, i);
    }
  }

  lemma DeadAreUnlisted(units: seq<Unit>)
    requires DistinctKeys(units)
    ensures forall i :: 0 <= i < |units| && units[i].health == 0 ==> UnitIndex(Live(units), units[i].key) == |Live(units)|
  {
    LiveKeeps(units);
    forall i | 0 <= i < |units| && units[i].health == 0
      ensures UnitIndex(Live(units), units[i].key) == |Live(units)|
    {
      forall j | 0 <= j < |Live(units)|
        ensures Live(units)[j].key != units[i].key
      {
        assert Live(units)[j] in Live(units);
      }
    }
  }

  lemma DroppingDeadKeepsField(board: TileMap, f: Field)
    requires FieldOk(board, f) && DeadForgotten(f, |f.units|)
    ensures FieldOk(board, f.(units := Live(f.units)))
    ensures AllLive(Live(f.units))
  {
    DroppingDeadKeepsUnits(board, f);
    DroppingDeadKeepsRoster(f);
  }

  lemma DroppingDeadKeepsUnits(board: TileMap, f: Field)
    requires FieldOk(board, f) && DeadForgotten(f, |f.units|)
    ensures UnitsPlaced(board, Live(f.units), f.occ) && AllLive(Live(f.units))
  {
    var live := Live(f.units);
    LiveKeeps(f.units);
    assert DistinctKeys(f.units);
    forall i | 0 <= i < |live|
      ensures live[i] in f.units
    {
      assert live[i] in live;
    }
    forall c | c in f.occ && f.occ[c].ByUnit?
      ensures UnitIndex(live, f.occ[c].key) < |live| && live[UnitIndex(live, f.occ[c].key)].at == c
    {
      LiveIndex(f.units, f.occ[c].key);
    }
  }

  lemma DroppingDeadKeepsRoster(f: Field)
    requires RosterOk(f.players, f.units) && DistinctKeys(f.units) && DeadForgotten(f, |f.units|)
    ensures RosterOk(f.players, Live(f.units))
  {
    var live := Live(f.units);
    LiveKeeps(f.units);
    forall i | 0 <= i < |live|
      ensures live[i] in f.units && live[i].health > 0
    {
      assert live[i] in live;
    }
    forall key | ValidKey(key) && Slot(f.players, key).Some?
      ensures UnitIndex(live, key) < |live|
    {
      LiveIndex(f.units, key);
    }
  }

  lemma KeyFindsItsUnit(units: seq<Unit>, j: nat)
    requires DistinctKeys(units) && j < |units|
    ensures UnitIndex(units, units[j].key) == j
  {
    var i := UnitIndex(units, units[j].key);
    assert i <= j && units[i].key == units[j].key;
  }

  lemma LiveIndex(units: seq<Unit>, key: UnitKey)
    requires DistinctKeys(units)
    requires UnitIndex(units, key) < |units| && units[UnitIndex(units, key)].health > 0
    ensures UnitIndex(Live(units), key) < |Live(units)|
    ensures Live(units)[UnitIndex(Live(units), key)] == units[UnitIndex(units, key)]
  {
    LiveKeeps(units);
    var u := units[UnitIndex(units, key)];
    var j :| 0 <= j < |Live(units)| && Live(units)[j] == u;
    KeyFindsItsUnit(Live(units), j);
  }

  // ---- The rule applied to the field ----

  function MoversOf(units: seq<Unit>): seq<Mover> {
    seq(|units|, i requires 0 <= i < |units| => Mover(units[i].at, units[i].pendingMove))
  }

  /** On the board, neither water nor obstacle, no bullet mark (src/world.cpp:331-347). */
  predicate Enterable(board: TileMap, occ: Grid, c: Cell)
    requires board.WellFormed()
  {
    && board.InBounds(c)
    && board.At(c).terrain != OBSTACLE && board.At(c).terrain != WATER
    && !(c in occ && occ[c].ByBullet?)
  }

  ghost function FreeCells(board: TileMap, occ: Grid): (free: set<Cell>)
    requires board.WellFormed()
    ensures forall c :: c in free <==> Enterable(board, occ, c)
  {
    var free := set x, y | 0 <= x < board.width && 0 <= y < board.height && Enterable(board, occ, Cell(x, y)) :: Cell(x, y);
    assert forall c :: Enterable(board, occ, c) ==> c == Cell(c.x, c.y);
    free
  }

  lemma LiveUnitsStandApart(board: TileMap, f: Field)
    requires FieldOk(board, f) && AllLive(f.units)
    ensures Apart(MoversOf(f.units))
  {
    forall i, j | 0 <= i < j < |f.units|
      ensures f.units[i].at != f.units[j].at
    {
      assert Names(f.occ, f.units[i].at, ByUnit(f.units[i].key)) && Names(f.occ, f.units[j].at, ByUnit(f.units[j].key));
    }
  }

  /** Where each unit stands and what it wants. */
  ghost function Wishes(board: TileMap, f: Field): Intents
    requires FieldOk(board, f) && AllLive(f.units)
  {
    LiveUnitsStandApart(board, f);
    IntentsOf(MoversOf(f.units))
  }

  ghost function Moving(board: TileMap, f: Field): set<Cell>
    requires FieldOk(board, f) && AllLive(f.units)
  {
    Winners(Wishes(board, f), FreeCells(board, f.occ))
  }

  /** u after the movement step, if the moves from the cells in `moving` succeed. */
  ghost function Relocate(u: Unit, moving: set<Cell>): Unit {
    u.(at := if u.at in moving && u.pendingMove.Some? then Toward(u.at, u.pendingMove.value) else u.at,
       pendingMove := None)
  }

  /** The cells that successful moves enter. */
  ghost function Arrivals(units: seq<Unit>, moving: set<Cell>): set<Cell> {
    set i | 0 <= i < |units| && units[i].at in moving :: Relocate(units[i], moving).at
  }

  /** Movement carried out: units relocated by the rule, nothing else touched
      except the tiles they left and entered. */
  ghost predicate Relocated(board: TileMap, f: Field, g: Field)
    requires FieldOk(board, f) && AllLive(f.units)
  {
    && g.bullets == f.bullets && g.players == f.players && g.nextSerial == f.nextSerial
    && |g.units| == |f.units|
    && (forall i :: 0 <= i < |f.units| ==> g.units[i] == Relocate(f.units[i], Moving(board, f)))
    && (forall i :: 0 <= i < |g.units| && f.units[i].at in Moving(board, f) ==>
          Names(g.occ, g.units[i].at, ByUnit(g.units[i].key)))
    && (forall c :: c !in Arrivals(f.units, Moving(board, f)) ==>
          (c in g.occ <==> c in f.occ && c !in Moving(board, f)) && (c in g.occ ==> g.occ[c] == f.occ[c]))
  }

  /** What the rule gives for each unit on the field. */
  lemma MovingUnits(board: TileMap, f: Field)
    requires FieldOk(board, f) && AllLive(f.units)
    ensures var w := Moving(board, f);
            && (forall i :: 0 <= i < |f.units| && f.units[i].at in w ==>
                  f.units[i].pendingMove.Some? && Enterable(board, f.occ, Relocate(f.units[i], w).at))
            && (forall i, j :: 0 <= i < |f.units| && 0 <= j < |f.units| && f.units[i].at in w ==>
                  Relocate(f.units[i], w).at == f.units[j].at ==> f.units[j].at in w)
            && (forall i, j :: 0 <= i < j < |f.units| ==> Relocate(f.units[i], w).at != Relocate(f.units[j], w).at)
            && (forall c :: c in w ==> exists i :: 0 <= i < |f.units| && f.units[i].at == c)
  {
    hide Disagrees, Toward;
    FieldParts(board, f);
    var who, free := Wishes(board, f), FreeCells(board, f.occ);
    LiveUnitsStandApart(board, f);
    DestinationsAreDistinct(who, free);
    var movers := MoversOf(f.units);
    forall i | 0 <= i < |f.units|
      ensures f.units[i].at in who && who[f.units[i].at] == f.units[i].pendingMove
      ensures Relocate(f.units[i], Moving(board, f)).at == Destination(who, free, f.units[i].at)
    {
      assert movers[i].at in who && who[movers[i].at] == movers[i].move;
    }
    forall c | c in Moving(board, f)
      ensures exists i :: 0 <= i < |f.units| && f.units[i].at == c
    {
      var i :| 0 <= i < |movers| && movers[i].at == c;
      assert f.units[i].at == c;
    }
    forall i, j | 0 <= i < j < |f.units|
      ensures Relocate(f.units[i], Moving(board, f)).at != Relocate(f.units[j], Moving(board, f)).at
    {
      assert movers[i].at != movers[j].at;
    }
  }

  /** The second pass: each active unit at its target, on a tile that names it;
      tiles that nobody enters as they were. */
  ghost predicate Entered(us: seq<Unit>, occ: Grid, tgt: seq<Cell>, active: seq<bool>, after: seq<Unit>, occAfter: Grid)
    requires |tgt| == |active| == |us|
  {
    && |after| == |us|
    && (forall k :: 0 <= k < |us| ==> after[k] == us[k].(at := if active[k] then tgt[k] else us[k].at))
    && (forall k :: 0 <= k < |us| && active[k] ==> Names(occAfter, tgt[k], ByUnit(us[k].key)))
    && (forall c :: (c in occAfter && (c in occ ==> occAfter[c] != occ[c])) || (c in occ && c !in occAfter) ==>
          exists k :: 0 <= k < |us| && active[k] && tgt[k] == c)
  }

  /** Intents reset, tiles left, tiles entered: that is the relocation. */
  lemma CarriedOut(board: TileMap, f: Field, reset: seq<Unit>, g: Field, tgt: seq<Cell>, active: seq<bool>)
    requires FieldOk(board, f) && AllLive(f.units)
    requires |tgt| == |active| == |reset| == |f.units|
    requires forall k :: 0 <= k < |f.units| ==> (active[k] <==> f.units[k].at in Moving(board, f))
    requires forall k :: 0 <= k < |f.units| && active[k] ==> tgt[k] == Relocate(f.units[k], Moving(board, f)).at
    requires forall k :: 0 <= k < |f.units| ==> reset[k] == f.units[k].(pendingMove := None)
    requires Entered(reset, f.occ - Moving(board, f), tgt, active, g.units, g.occ)
    requires g.bullets == f.bullets && g.players == f.players && g.nextSerial == f.nextSerial
    ensures Relocated(board, f, g)
  {
    hide Disagrees, Moving, Toward;
    var w := Moving(board, f);
    forall k | 0 <= k < |f.units| && active[k]
      ensures tgt[k] in Arrivals(f.units, w)
    {
      assert Relocate(f.units[k], w).at in Arrivals(f.units, w);
    }
  }

  lemma RelocatedStandWhereNamed(board: TileMap, f: Field, g: Field, i: nat)
    requires FieldOk(board, f) && AllLive(f.units) && Relocated(board, f, g) && i < |g.units|
    ensures board.InBounds(g.units[i].at) && Names(g.occ, g.units[i].at, ByUnit(g.units[i].key))
  {
    hide Disagrees, Moving, Toward;
    FieldParts(board, f);
    var w := Moving(board, f);
    MovingUnits(board, f);
    if f.units[i].at !in w {
      assert Names(f.occ, f.units[i].at, ByUnit(f.units[i].key));
      assert f.units[i].at !in Arrivals(f.units, w);
    }
  }

  lemma RelocatedAreFound(board: TileMap, f: Field, g: Field, c: Cell)
    requires FieldOk(board, f) && AllLive(f.units) && Relocated(board, f, g) && c in g.occ && g.occ[c].ByUnit?
    ensures UnitIndex(g.units, g.occ[c].key) < |g.units| && g.units[UnitIndex(g.units, g.occ[c].key)].at == c
  {
    hide Disagrees, Moving, Toward, UnitIndex, Enterable, MoversOf, BulletsPlaced, RosterOk;
    FieldParts(board, f);
    var w := Moving(board, f);
    MovingUnits(board, f);
    assert forall i :: 0 <= i < |f.units| ==> g.units[i].key == f.units[i].key;
    if c in Arrivals(f.units, w) {
      var i :| 0 <= i < |f.units| && f.units[i].at in w && Relocate(f.units[i], w).at == c;
      assert g.units[i] == Relocate(f.units[i], w);
      assert Names(g.occ, c, ByUnit(g.units[i].key));
      KeyFindsItsUnit(g.units, i);
    } else {
      var i := UnitIndex(f.units, f.occ[c].key);
      assert f.units[i].at == c && g.units[i] == Relocate(f.units[i], w);
      KeyFindsItsUnit(g.units, i);
    }
  }

  lemma RelocationKeepsUnits(board: TileMap, f: Field, g: Field)
    requires FieldOk(board, f) && AllLive(f.units) && Relocated(board, f, g)
    ensures UnitsPlaced(board, g.units, g.occ)
  {
    hide Disagrees, Moving, BulletsPlaced;
    FieldParts(board, f);
    assert forall i :: 0 <= i < |f.units| ==> g.units[i].key == f.units[i].key;
    forall i | 0 <= i < |g.units|
      ensures board.InBounds(g.units[i].at) && Names(g.occ, g.units[i].at, ByUnit(g.units[i].key))
    {
      RelocatedStandWhereNamed(board, f, g, i);
    }
    forall c | c in g.occ && g.occ[c].ByUnit?
      ensures UnitIndex(g.units, g.occ[c].key) < |g.units| && g.units[UnitIndex(g.units, g.occ[c].key)].at == c
    {
      RelocatedAreFound(board, f, g, c);
    }
  }

  /** Cells left and cells entered held no bullet mark, and hold none afterwards. */
  lemma MovesAvoidBullets(board: TileMap, f: Field, g: Field)
    requires FieldOk(board, f) && AllLive(f.units) && Relocated(board, f, g)
    ensures forall c :: c in Arrivals(f.units, Moving(board, f)) ==>
                          c in g.occ && g.occ[c].ByUnit? && !(c in f.occ && f.occ[c].ByBullet?)
    ensures forall c :: c in Moving(board, f) ==> c in f.occ && f.occ[c].ByUnit?
  {
    hide Disagrees, Moving, Toward, UnitIndex, MoversOf;
    FieldParts(board, f);
    var w := Moving(board, f);
    MovingUnits(board, f);
    forall c | c in Arrivals(f.units, w)
      ensures c in g.occ && g.occ[c].ByUnit? && !(c in f.occ && f.occ[c].ByBullet?)
    {
      var i :| 0 <= i < |f.units| && f.units[i].at in w && Relocate(f.units[i], w).at == c;
      assert Enterable(board, f.occ, c);
      assert g.units[i] == Relocate(f.units[i], w);
    }
    forall c | c in w
      ensures c in f.occ && f.occ[c].ByUnit?
    {
      var i :| 0 <= i < |f.units| && f.units[i].at == c;
      assert Names(f.occ, f.units[i].at, ByUnit(f.units[i].key));
    }
  }

  lemma RelocationKeepsBulletMarks(board: TileMap, f: Field, g: Field)
    requires FieldOk(board, f) && AllLive(f.units) && Relocated(board, f, g)
    ensures forall c :: (c in g.occ && g.occ[c].ByBullet?) <==> (c in f.occ && f.occ[c].ByBullet?)
    ensures forall c :: c in g.occ && g.occ[c].ByBullet? ==> g.occ[c] == f.occ[c]
  {
    MovesAvoidBullets(board, f, g);
  }

  /** Bullets only care about the bullet marks. */
  lemma SameMarksKeepBullets(board: TileMap, bullets: seq<Bullet>, occ: Grid, after: Grid, nextSerial: nat)
    requires board.WellFormed() && BulletsPlaced(board, bullets, occ, nextSerial)
    requires forall c :: (c in after && after[c].ByBullet?) <==> (c in occ && occ[c].ByBullet?)
    requires forall c :: c in after && after[c].ByBullet? ==> after[c] == occ[c]
    ensures BulletsPlaced(board, bullets, after, nextSerial)
  {
    forall i | 0 <= i < |bullets| && bullets[i].damage > 0
      ensures Names(after, bullets[i].at, ByBullet(bullets[i].serial))
    {
      assert Names(occ, bullets[i].at, ByBullet(bullets[i].serial));
    }
  }

  /** Rosters only care about identities and about who is alive. */
  lemma SameKeysKeepRoster(players: seq<Player>, units: seq<Unit>, after: seq<Unit>)
    requires RosterOk(players, units) && |after| == |units|
    requires forall i :: 0 <= i < |units| ==> after[i].key == units[i].key && after[i].health == units[i].health
    ensures RosterOk(players, after)
  {
    forall key: UnitKey | UnitIndex(units, key) < |units|
      ensures UnitIndex(after, key) < |after|
    {
      assert after[UnitIndex(units, key)].key == key;
    }
  }

  /** Carrying the moves out keeps the grid in agreement with the units. */
  lemma RelocationKeepsField(board: TileMap, f: Field, g: Field)
    requires FieldOk(board, f) && AllLive(f.units) && Relocated(board, f, g)
    ensures FieldOk(board, g) && AllLive(g.units)
  {
    RelocationKeepsUnits(board, f, g);
    RelocationKeepsBulletMarks(board, f, g);
    SameMarksKeepBullets(board, f.bullets, f.occ, g.occ, f.nextSerial);
    SameKeysKeepRoster(f.players, f.units, g.units);
  }

  /** Each unit stays, or makes exactly the step it asked for, onto a cell that is
      on the board, neither water nor obstacle, and shared with nobody. */
  lemma MoversStepAsRequested(board: TileMap, f: Field, g: Field)
    requires FieldOk(board, f) && AllLive(f.units) && Relocated(board, f, g)
    ensures board.WellFormed()
    ensures forall i :: 0 <= i < |f.units| ==>
                          || g.units[i].at == f.units[i].at
                          || (f.units[i].pendingMove.Some?
                              && g.units[i].at == Toward(f.units[i].at, f.units[i].pendingMove.value)
                              && board.InBounds(g.units[i].at)
                              && board.At(g.units[i].at).terrain != OBSTACLE && board.At(g.units[i].at).terrain != WATER
                              && !(g.units[i].at in f.occ && f.occ[g.units[i].at].ByBullet?))
    ensures forall i, j :: 0 <= i < j < |g.units| ==> g.units[i].at != g.units[j].at
    ensures forall i, j :: 0 <= i < |g.units| && 0 <= j < |g.bullets| && g.bullets[j].damage > 0 ==>
                             g.units[i].at != g.bullets[j].at
  {
    MovingUnits(board, f);
    RelocationKeepsField(board, f, g);
    forall i, j | 0 <= i < |g.units| && 0 <= j < |g.bullets| && g.bullets[j].damage > 0
      ensures g.units[i].at != g.bullets[j].at
    {
      assert Names(g.occ, g.units[i].at, ByUnit(g.units[i].key));
      assert Names(g.occ, g.bullets[j].at, ByBullet(g.bullets[j].serial));
    }
  }

  /** Listing the units in another order changes nobody's fate. */
  lemma OrderOfUnitsIsIrrelevant(board: TileMap, f: Field, g: Field)
    requires FieldOk(board, f) && AllLive(f.units) && FieldOk(board, g) && AllLive(g.units)
    requires (forall u :: u in f.units <==> u in g.units) && f.occ == g.occ
    ensures Moving(board, f) == Moving(board, g)
  {
    LiveUnitsStandApart(board, f);
    LiveUnitsStandApart(board, g);
    SameMembersSameIntents(f.units, g.units);
  }

  lemma SameMembersSameIntents(a: seq<Unit>, b: seq<Unit>)
    requires Apart(MoversOf(a)) && Apart(MoversOf(b))
    requires forall u :: u in a <==> u in b
    ensures IntentsOf(MoversOf(a)) == IntentsOf(MoversOf(b))
  {
    MoversInBoth(a, b);
    MoversInBoth(b, a);
    IntentsIgnoreOrder(MoversOf(a), MoversOf(b));
  }

  lemma MoversInBoth(a: seq<Unit>, b: seq<Unit>)
    requires forall u :: u in a ==> u in b
    ensures forall m :: m in MoversOf(a) ==> m in MoversOf(b)
  {
    forall m | m in MoversOf(a)
      ensures m in MoversOf(b)
    {
      var i :| 0 <= i < |a| && MoversOf(a)[i] == m;
      assert a[i] in b;
      var j :| 0 <= j < |b| && b[j] == a[i];
      assert MoversOf(b)[j] == m;
    }
  }

  // ---- Tiles stand in for the occupants ----

  /** With everyone alive, a cell is someone's position exactly when its tile names
      a unit, and that unit is the one standing there. */
  lemma TileNamesOccupant(board: TileMap, f: Field, t: Cell)
    requires FieldOk(board, f) && AllLive(f.units)
    ensures t in Wishes(board, f) <==> t in f.occ && f.occ[t].ByUnit?
    ensures t in f.occ && f.occ[t].ByUnit? ==>
              var i := UnitIndex(f.units, f.occ[t].key);
              i < |f.units| && f.units[i].at == t && Wishes(board, f)[t] == f.units[i].pendingMove
  {
    LiveUnitsStandApart(board, f);
    var movers := MoversOf(f.units);
    if t in Wishes(board, f) {
      var i :| 0 <= i < |movers| && movers[i].at == t;
      assert Names(f.occ, f.units[i].at, ByUnit(f.units[i].key));
    }
    if t in f.occ && f.occ[t].ByUnit? {
      var i := UnitIndex(f.units, f.occ[t].key);
      assert movers[i].at == t;
    }
  }

  /** Unit j stands on t exactly when the tile of t names it. */
  lemma TileNamesWhoStandsThere(board: TileMap, f: Field, t: Cell, j: nat)
    requires FieldOk(board, f) && AllLive(f.units) && j < |f.units|
    ensures Names(f.occ, t, ByUnit(f.units[j].key)) <==> f.units[j].at == t
  {
    assert Names(f.occ, f.units[j].at, ByUnit(f.units[j].key));
    KeyFindsItsUnit(f.units, j);
  }

  // ---- A new unit (src/world.cpp:620-636) ----

  function NewUnit(rules: Rules, key: UnitKey, at: Cell): Unit {
    Unit(key, at, rules.unitHealth, 0, 0, Upgrades(false, false, false), None, Attack(0, Up))
  }

  ghost function Spawned(f: Field, u: Unit): Field
    requires RosterShape(f.players) && ValidKey(u.key)
  {
    f.(units := f.units + [u], occ := f.occ[u.at := ByUnit(u.key)], players := SetSlot(f.players, u.key, Some(u.key)))
  }

  lemma UnitIndexAppend(units: seq<Unit>, u: Unit, key: UnitKey)
    requires UnitIndex(units, u.key) == |units|
    ensures UnitIndex(units + [u], key) == if key == u.key then |units| else
                                            if UnitIndex(units, key) < |units| then UnitIndex(units, key) else |units| + 1
  {
    var a, b := UnitIndex(units, key), UnitIndex(units + [u], key);
    assert forall j :: 0 <= j < |units| ==> (units + [u])[j] == units[j];
    assert (units + [u])[|units|] == u;
    assert b < |units| ==> units[b].key == key;
    assert a < |units| ==> (units + [u])[a].key == key;
  }

  /** A tile that names a unit still finds it after another one is appended. */
  lemma NamedUnitStaysFound(units: seq<Unit>, u: Unit, key: UnitKey, c: Cell)
    requires UnitIndex(units, u.key) == |units|
    requires (key == u.key && c == u.at) || (UnitIndex(units, key) < |units| && units[UnitIndex(units, key)].at == c)
    ensures UnitIndex(units + [u], key) < |units + [u]| && (units + [u])[UnitIndex(units + [u], key)].at == c
  {
    UnitIndexAppend(units, u, key);
  }

  lemma SpawnKeepsUnits(board: TileMap, units: seq<Unit>, occ: Grid, u: Unit)
    requires UnitsPlaced(board, units, occ) && UnitIndex(units, u.key) == |units|
    requires board.InBounds(u.at) && u.at !in occ
    ensures UnitsPlaced(board, units + [u], occ[u.at := ByUnit(u.key)])
  {
    hide UnitIndex;
    forall c | c in occ && occ[c].ByUnit?
      ensures UnitIndex(units + [u], occ[c].key) < |units + [u]| && (units + [u])[UnitIndex(units + [u], occ[c].key)].at == c
    {
      NamedUnitStaysFound(units, u, occ[c].key, c);
    }
    NamedUnitStaysFound(units, u, u.key, u.at);
  }

  lemma {:induction false} SpawnKeepsRoster(players: seq<Player>, units: seq<Unit>, u: Unit)
    requires RosterOk(players, units) && ValidKey(u.key) && UnitIndex(units, u.key) == |units|
    ensures RosterOk(SetSlot(players, u.key, Some(u.key)), units + [u])
  {
    forall key: UnitKey
      ensures UnitIndex(units, key) < |units| || key == u.key ==> UnitIndex(units + [u], key) < |units + [u]|
    {
      UnitIndexAppend(units, u, key);
    }
  }

  /** A unit with an unused identity can be put on an unoccupied tile. */
  lemma SpawnKeepsField(board: TileMap, f: Field, u: Unit)
    requires FieldOk(board, f) && ValidKey(u.key) && UnitIndex(f.units, u.key) == |f.units|
    requires board.InBounds(u.at) && u.at !in f.occ
    ensures RosterShape(f.players) && FieldOk(board, Spawned(f, u))
  {
    SpawnKeepsUnits(board, f.units, f.occ, u);
    SpawnKeepsRoster(f.players, f.units, u);
    SpawnKeepsBullets(board, f, u);
  }

  lemma SpawnKeepsBullets(board: TileMap, f: Field, u: Unit)
    requires board.WellFormed() && BulletsPlaced(board, f.bullets, f.occ, f.nextSerial) && u.at !in f.occ
    ensures BulletsPlaced(board, f.bullets, f.occ[u.at := ByUnit(u.key)], f.nextSerial)
  {
    SameMarksKeepBullets(board, f.bullets, f.occ, f.occ[u.at := ByUnit(u.key)], f.nextSerial);
  }

  /** With everyone alive, a roster slot is taken exactly when its unit is listed. */
  lemma SlotMeansListed(board: TileMap, f: Field, key: UnitKey)
    requires FieldOk(board, f) && AllLive(f.units) && ValidKey(key)
    ensures RosterShape(f.players)
    ensures Slot(f.players, key).Some? <==> UnitIndex(f.units, key) < |f.units|
    ensures Slot(f.players, key).Some? ==> Slot(f.players, key) == Some(key)
  {
  }

  /** Base energy and capture counters play no part in the agreement. */
  lemma PurseChangeKeepsField(board: TileMap, f: Field, g: Field)
    requires FieldOk(board, f) && g == f.(players := g.players) && |g.players| == 2
    requires forall p :: 0 <= p < 2 ==> g.players[p].roster == f.players[p].roster
    ensures FieldOk(board, g)
  {
    assert forall key :: ValidKey(key) ==> RosterShape(g.players) && Slot(g.players, key) == Slot(f.players, key);
  }

  /** A live unit can be refitted or healed where it stands. */
  lemma RefitKeepsField(board: TileMap, f: Field, i: nat, u: Unit)
    requires FieldOk(board, f) && AllLive(f.units) && i < |f.units|
    requires u.key == f.units[i].key && u.at == f.units[i].at && u.health > 0
    ensures FieldOk(board, f.(units := f.units[i := u])) && AllLive(f.units[i := u])
  {
    var after := f.units[i := u];
    forall key: UnitKey
      ensures UnitIndex(after, key) == UnitIndex(f.units, key)
    {
      SameKeysSameIndex(f.units, after, key);
    }
    hide UnitIndex;
    assert UnitsPlaced(board, after, f.occ);
    assert RosterOk(f.players, after);
  }

  lemma SameKeysSameIndex(a: seq<Unit>, b: seq<Unit>, key: UnitKey)
    requires |a| == |b| && forall i :: 0 <= i < |a| ==> a[i].key == b[i].key
    ensures UnitIndex(a, key) == UnitIndex(b, key)
  {
    var i, j := UnitIndex(a, key), UnitIndex(b, key);
    assert i < |a| ==> b[i].key == key;
    assert j < |a| ==> a[j].key == key;
  }
}

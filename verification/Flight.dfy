/**
 What one collision does, and why bullets, units, rosters and the grid still
 agree afterwards (src/world.cpp:183-258).
 */
module Flight {
  import opened Common
  import opened TileMap
  import opened Placement

  // ---- Small changes ----

  lemma UnitIndexIgnoresHealth(units: seq<Unit>, i: nat, h: u8, key: UnitKey)
    requires i < |units|
    ensures UnitIndex(units[i := units[i].(health := h)], key) == UnitIndex(units, key)
  {
    var after := units[i := units[i].(health := h)];
    assert forall j :: 0 <= j < |units| ==> after[j].key == units[j].key;
  }

  lemma HurtKeepsUnits(board: TileMap, units: seq<Unit>, occ: Grid, i: nat, h: u8)
    requires UnitsPlaced(board, units, occ) && i < |units| && h <= units[i].health
    ensures UnitsPlaced(board, units[i := units[i].(health := h)], occ)
  {
    var after := units[i := units[i].(health := h)];
    forall c | c in occ && occ[c].ByUnit?
      ensures UnitIndex(after, occ[c].key) < |after| && after[UnitIndex(after, occ[c].key)].at == c
    {
      UnitIndexIgnoresHealth(units, i, h, occ[c].key);
    }
  }

  lemma HurtKeepsRoster(players: seq<Player>, units: seq<Unit>, i: nat, h: u8)
    requires RosterOk(players, units) && i < |units| && h <= units[i].health
    ensures RosterOk(players, units[i := units[i].(health := h)])
  {
    var after := units[i := units[i].(health := h)];
    forall key | ValidKey(key) && Slot(players, key).Some?
      ensures UnitIndex(after, key) < |after|
    {
      UnitIndexIgnoresHealth(units, i, h, key);
    }
  }

  lemma ClearingKeepsRoster(players: seq<Player>, units: seq<Unit>, key: UnitKey)
    requires RosterOk(players, units) && ValidKey(key)
    requires forall i :: 0 <= i < |units| && units[i].key == key ==> units[i].health == 0
    ensures RosterOk(SetSlot(players, key, None), units)
  {
  }

  /** No live unit and no live bullet is at c. */
  ghost predicate Deserted(f: Field, c: Cell) {
    && (forall i :: 0 <= i < |f.units| && f.units[i].health > 0 ==> f.units[i].at != c)
    && (forall i :: 0 <= i < |f.bullets| && f.bullets[i].damage > 0 ==> f.bullets[i].at != c)
  }

  lemma UnmarkKeepsField(board: TileMap, f: Field, c: Cell)
    requires FieldOk(board, f) && Deserted(f, c)
    ensures FieldOk(board, f.(occ := f.occ - {c}))
  {
  }

  lemma WeakenKeepsBullets(board: TileMap, bullets: seq<Bullet>, occ: Grid, nextSerial: nat, i: nat, d: u8)
    requires board.WellFormed() && BulletsPlaced(board, bullets, occ, nextSerial)
    requires i < |bullets| && d <= bullets[i].damage
    ensures BulletsPlaced(board, bullets[i := bullets[i].(damage := d)], occ, nextSerial)
  {
  }

  /** A bullet can be put in flight on an unoccupied clear cell if no tile names it. */
  lemma LaunchKeepsField(board: TileMap, f: Field, k: nat, to: Cell, d: u8)
    requires FieldOk(board, f) && k < |f.bullets|
    requires Clear(board, to) && to !in f.occ
    requires forall c :: c in f.occ ==> f.occ[c] != ByBullet(f.bullets[k].serial)
    requires f.bullets[k].damage == 0
    ensures FieldOk(board,
                    f.(bullets := f.bullets[k := f.bullets[k].(at := to, damage := d)],
                       occ := f.occ[to := ByBullet(f.bullets[k].serial)]))
  {
  }

  /** Only one live thing is on a tile, and the tile names it. */
  lemma LiveThingsAreApart(board: TileMap, f: Field)
    requires FieldOk(board, f)
    ensures forall i, j :: 0 <= i < j < |f.units| && f.units[i].health > 0 && f.units[j].health > 0 ==>
                             f.units[i].at != f.units[j].at
    ensures forall i, j :: 0 <= i < j < |f.bullets| && f.bullets[i].damage > 0 && f.bullets[j].damage > 0 ==>
                             f.bullets[i].at != f.bullets[j].at
    ensures forall i, j :: 0 <= i < |f.units| && 0 <= j < |f.bullets| && f.units[i].health > 0 && f.bullets[j].damage > 0 ==>
                             f.units[i].at != f.bullets[j].at
  {
    var occ := f.occ;
    forall i, j | 0 <= i < j < |f.units| && f.units[i].health > 0 && f.units[j].health > 0
      ensures f.units[i].at != f.units[j].at
    {
      assert Names(occ, f.units[i].at, ByUnit(f.units[i].key)) && Names(occ, f.units[j].at, ByUnit(f.units[j].key));
    }
    forall i, j | 0 <= i < j < |f.bullets| && f.bullets[i].damage > 0 && f.bullets[j].damage > 0
      ensures f.bullets[i].at != f.bullets[j].at
    {
      assert Names(occ, f.bullets[i].at, ByBullet(f.bullets[i].serial));
      assert Names(occ, f.bullets[j].at, ByBullet(f.bullets[j].serial));
    }
  }

  // ---- One collision ----

  function Min(a: nat, b: nat): nat {
    if a < b then a else b
  }

  datatype Impact = Impact(left: nat, field: Field)

  /** The roster slot of a unit that the tile names can be cleared. */
  ghost predicate CanCollide(f: Field, at: Cell) {
    && RosterShape(f.players)
    && (at in f.occ && f.occ[at].ByUnit? ==> UnitIndex(f.units, f.occ[at].key) < |f.units| && ValidKey(f.occ[at].key))
  }

  /** A bullet of the given damage reaches `at`: what it has left, and what became
      of whatever the tile named. The smaller of two strengths is taken off both. */
  ghost function Collide(damage: nat, at: Cell, f: Field): Impact
    requires CanCollide(f, at)
  {
    if at !in f.occ then
      Impact(damage, f)
    else match f.occ[at]
      case ByUnit(key) =>
        var i := UnitIndex(f.units, key);
        var hit := Min(damage, f.units[i].health);
        var hurt := f.(units := f.units[i := f.units[i].(health := f.units[i].health - hit)]);
        Impact(damage - hit,
               if hit < damage then hurt.(occ := f.occ - {at}, players := SetSlot(f.players, key, None)) else hurt)
      case ByBullet(serial) =>
        var i := BulletIndex(f.bullets, serial);
        if i == |f.bullets| then
          Impact(damage, f.(occ := f.occ - {at}))
        else
          var hit := Min(damage, f.bullets[i].damage);
          var weak := f.(bullets := f.bullets[i := f.bullets[i].(damage := f.bullets[i].damage - hit)]);
          Impact(damage - hit, if weak.bullets[i].damage == 0 then weak.(occ := f.occ - {at}) else weak)
  }

  /** A tile that names a listed unit has nothing else alive on it. */
  lemma NamedUnitIsAlone(board: TileMap, f: Field, at: Cell)
    requires FieldOk(board, f) && at in f.occ && f.occ[at].ByUnit?
    ensures forall i :: 0 <= i < |f.units| && f.units[i].health > 0 && f.units[i].at == at ==>
                          f.units[i].key == f.occ[at].key
    ensures forall i :: 0 <= i < |f.bullets| && f.bullets[i].damage > 0 ==> f.bullets[i].at != at
  {
    assert forall i :: 0 <= i < |f.units| && f.units[i].health > 0 ==> Names(f.occ, f.units[i].at, ByUnit(f.units[i].key));
    assert forall i :: 0 <= i < |f.bullets| && f.bullets[i].damage > 0 ==>
                         Names(f.occ, f.bullets[i].at, ByBullet(f.bullets[i].serial));
  }

  lemma NamedBulletIsAlone(board: TileMap, f: Field, at: Cell)
    requires FieldOk(board, f) && at in f.occ && f.occ[at].ByBullet?
    ensures forall i :: 0 <= i < |f.bullets| && f.bullets[i].damage > 0 && f.bullets[i].at == at ==>
                          f.bullets[i].serial == f.occ[at].serial
    ensures forall i :: 0 <= i < |f.units| && f.units[i].health > 0 ==> f.units[i].at != at
  {
    assert forall i :: 0 <= i < |f.units| && f.units[i].health > 0 ==> Names(f.occ, f.units[i].at, ByUnit(f.units[i].key));
    assert forall i :: 0 <= i < |f.bullets| && f.bullets[i].damage > 0 ==>
                         Names(f.occ, f.bullets[i].at, ByBullet(f.bullets[i].serial));
  }

  lemma HurtKeepsField(board: TileMap, f: Field, i: nat, h: u8)
    requires FieldOk(board, f) && i < |f.units| && h <= f.units[i].health
    ensures FieldOk(board, f.(units := f.units[i := f.units[i].(health := h)]))
  {
    HurtKeepsUnits(board, f.units, f.occ, i, h);
    HurtKeepsRoster(f.players, f.units, i, h);
  }

  lemma WeakenKeepsField(board: TileMap, f: Field, i: nat, d: u8)
    requires FieldOk(board, f) && i < |f.bullets| && d <= f.bullets[i].damage
    ensures FieldOk(board, f.(bullets := f.bullets[i := f.bullets[i].(damage := d)]))
  {
    WeakenKeepsBullets(board, f.bullets, f.occ, f.nextSerial, i, d);
  }

  lemma UnitHitKeepsField(board: TileMap, damage: nat, at: Cell, f: Field)
    requires FieldOk(board, f) && CanCollide(f, at)
    requires at in f.occ && f.occ[at].ByUnit?
    ensures FieldOk(board, Collide(damage, at, f).field)
  {
    var g := Collide(damage, at, f);
    var key := f.occ[at].key;
    var i := UnitIndex(f.units, key);
    HurtKeepsField(board, f, i, g.field.units[i].health);
    if g.left > 0 {
      NamedUnitIsAlone(board, f, at);
      var hurt := f.(units := g.field.units);
      assert Deserted(hurt, at);
      UnmarkKeepsField(board, hurt, at);
      ClearingKeepsRoster(f.players, g.field.units, key);
    }
  }

  lemma BulletHitKeepsField(board: TileMap, damage: nat, at: Cell, f: Field)
    requires FieldOk(board, f) && CanCollide(f, at)
    requires at in f.occ && f.occ[at].ByBullet?
    ensures FieldOk(board, Collide(damage, at, f).field)
  {
    var g := Collide(damage, at, f).field;
    var i := BulletIndex(f.bullets, f.occ[at].serial);
    if i < |f.bullets| {
      WeakenKeepsField(board, f, i, g.bullets[i].damage);
    }
    if g.occ != f.occ {
      NamedBulletIsAlone(board, f, at);
      var weak := f.(bullets := g.bullets);
      assert Deserted(weak, at);
      UnmarkKeepsField(board, weak, at);
    }
  }

  /** A collision keeps the agreement, and a bullet that survives it finds the
      tile vacated. */
  lemma CollisionKeepsField(board: TileMap, damage: nat, at: Cell, f: Field)
    requires FieldOk(board, f)
    ensures CanCollide(f, at)
    ensures FieldOk(board, Collide(damage, at, f).field)
    ensures Collide(damage, at, f).left > 0 ==> at !in Collide(damage, at, f).field.occ
  {
    if at in f.occ {
      if f.occ[at].ByUnit? {
        UnitHitKeepsField(board, damage, at, f);
      } else {
        BulletHitKeepsField(board, damage, at, f);
      }
    }
  }

  /** The players, up to their rosters. */
  ghost predicate SamePurses(f: Field, g: Field) {
    && |g.players| == |f.players|
    && (forall p :: 0 <= p < |f.players| ==> g.players[p] == f.players[p].(roster := g.players[p].roster))
  }

  /** Same units and bullets in the same places, none of them stronger. */
  ghost predicate SameCast(f: Field, g: Field) {
    && SamePurses(f, g)
    && |g.units| == |f.units| && |g.bullets| == |f.bullets| && g.nextSerial == f.nextSerial
    && (forall i :: 0 <= i < |f.units| ==>
          g.units[i] == f.units[i].(health := g.units[i].health) && g.units[i].health <= f.units[i].health)
    && (forall i :: 0 <= i < |f.bullets| ==>
          g.bullets[i] == f.bullets[i].(damage := g.bullets[i].damage) && g.bullets[i].damage <= f.bullets[i].damage)
  }

  lemma CollisionOnlyWeakens(damage: nat, at: Cell, f: Field)
    requires CanCollide(f, at)
    ensures SameCast(f, Collide(damage, at, f).field)
    ensures forall c :: c in Collide(damage, at, f).field.occ ==> c in f.occ && Collide(damage, at, f).field.occ[c] == f.occ[c]
    ensures Collide(damage, at, f).left <= damage
  {
  }

  // ---- One step of one bullet ----

  /** The field with bullet k taken off its tile. */
  ghost function Lifted(f: Field, k: nat): Field
    requires k < |f.bullets|
  {
    f.(bullets := f.bullets[k := f.bullets[k].(damage := 0)], occ := f.occ - {f.bullets[k].at})
  }

  lemma LiftKeepsField(board: TileMap, f: Field, k: nat)
    requires FieldOk(board, f) && k < |f.bullets| && f.bullets[k].damage > 0
    ensures FieldOk(board, Lifted(f, k))
    ensures forall c :: c in Lifted(f, k).occ ==> f.occ[c] != ByBullet(f.bullets[k].serial)
  {
    var spent := f.(bullets := f.bullets[k := f.bullets[k].(damage := 0)]);
    WeakenKeepsField(board, f, k, 0);
    assert Names(f.occ, f.bullets[k].at, ByBullet(f.bullets[k].serial));
    NamedBulletIsAlone(board, f, f.bullets[k].at);
    assert Deserted(spent, f.bullets[k].at);
    UnmarkKeepsField(board, spent, f.bullets[k].at);
  }

  ghost function StepBullet(board: TileMap, f: Field, k: nat): Field
    requires FieldOk(board, f) && k < |f.bullets| && f.bullets[k].damage > 0
  {
    var b := f.bullets[k];
    var to := Toward(b.at, b.direction);
    if !Clear(board, to) then
      f.(bullets := f.bullets[k := b.(damage := 0)])
    else
      LiftKeepsField(board, f, k);
      CollisionKeepsField(board, b.damage, to, Lifted(f, k));
      var i := Collide(b.damage, to, Lifted(f, k));
      if i.left == 0 then
        i.field
      else
        i.field.(bullets := i.field.bullets[k := b.(at := to, damage := i.left)],
                 occ := i.field.occ[to := ByBullet(b.serial)])
  }

  lemma StepKeepsField(board: TileMap, f: Field, k: nat)
    requires FieldOk(board, f) && k < |f.bullets| && f.bullets[k].damage > 0
    ensures FieldOk(board, StepBullet(board, f, k))
  {
    var b := f.bullets[k];
    var to := Toward(b.at, b.direction);
    if !Clear(board, to) {
      WeakenKeepsField(board, f, k, 0);
    } else {
      LiftKeepsField(board, f, k);
      CollisionKeepsField(board, b.damage, to, Lifted(f, k));
      CollisionOnlyWeakens(b.damage, to, Lifted(f, k));
      var i := Collide(b.damage, to, Lifted(f, k));
      if i.left > 0 {
        LaunchKeepsField(board, i.field, k, to, i.left);
      }
    }
  }
}

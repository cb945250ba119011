/**
 The whole bullet pass (src/world.cpp:157-181, 761-795): one sweep over the
 bullets, the pending attacks, four more sweeps, then spent bullets are dropped.
 Proved of it: grid agreement, the damage account, and where survivors came from.
 */
module BulletPass {
  import opened Common
  import opened GameRules
  import opened TileCodec
  import opened TileMap
  import opened Sums
  import opened Placement
  import opened Flight

  // ---- Accounts ----

  /** What became of bullet damage: brought in by new bullets, dealt to units,
      cancelled between two bullets (counted once), lost at walls and edges. */
  datatype Account = Account(spawned: nat, dealt: nat, cancelled: nat, walls: nat) {
    function Plus(o: Account): Account {
      Account(spawned + o.spawned, dealt + o.dealt, cancelled + o.cancelled, walls + o.walls)
    }
  }

  const NOTHING := Account(0, 0, 0, 0)

  ghost function Damages(bullets: seq<Bullet>): seq<nat> {
    seq(|bullets|, i requires 0 <= i < |bullets| => bullets[i].damage)
  }

  ghost function Healths(units: seq<Unit>): seq<nat> {
    seq(|units|, i requires 0 <= i < |units| => units[i].health)
  }

  /** Damage in flight and health on the board. */
  ghost predicate Balanced(f: Field, a: Account, g: Field) {
    && Sum(Damages(g.bullets)) + a.dealt + 2 * a.cancelled + a.walls == Sum(Damages(f.bullets)) + a.spawned
    && Sum(Healths(g.units)) + a.dealt == Sum(Healths(f.units))
  }

  /** The account of a collision, read off the field before it. */
  ghost function HitAccount(damage: nat, at: Cell, f: Field): Account
    requires CanCollide(f, at)
  {
    if at !in f.occ then NOTHING
    else match f.occ[at]
      case ByUnit(key) => NOTHING.(dealt := Min(damage, f.units[UnitIndex(f.units, key)].health))
      case ByBullet(serial) =>
        var i := BulletIndex(f.bullets, serial);
        NOTHING.(cancelled := if i < |f.bullets| then Min(damage, f.bullets[i].damage) else 0)
  }

  lemma CollisionBalances(damage: nat, at: Cell, f: Field)
    requires CanCollide(f, at)
    ensures var a, g := HitAccount(damage, at, f), Collide(damage, at, f);
            && g.left == damage - a.dealt - a.cancelled
            && Sum(Damages(g.field.bullets)) + a.cancelled == Sum(Damages(f.bullets))
            && Sum(Healths(g.field.units)) + a.dealt == Sum(Healths(f.units))
  {
    var g := Collide(damage, at, f).field;
    if at in f.occ && f.occ[at].ByUnit? {
      SumOneChange(Healths(f.units), Healths(g.units), UnitIndex(f.units, f.occ[at].key));
    } else if at in f.occ && BulletIndex(f.bullets, f.occ[at].serial) < |f.bullets| {
      SumOneChange(Damages(f.bullets), Damages(g.bullets), BulletIndex(f.bullets, f.occ[at].serial));
    }
  }

  ghost function StepAccount(board: TileMap, f: Field, k: nat): Account
    requires FieldOk(board, f) && k < |f.bullets|
  {
    var b := f.bullets[k];
    var to := Toward(b.at, b.direction);
    if !Clear(board, to) then NOTHING.(walls := b.damage) else HitAccount(b.damage, to, f)
  }

  lemma DamageUpdate(bullets: seq<Bullet>, k: nat, b: Bullet)
    requires k < |bullets|
    ensures Sum(Damages(bullets[k := b])) + bullets[k].damage == Sum(Damages(bullets)) + b.damage
  {
    SumOneChange(Damages(bullets), Damages(bullets[k := b]), k);
  }

  lemma StepBalances(board: TileMap, f: Field, k: nat)
    requires FieldOk(board, f) && k < |f.bullets| && f.bullets[k].damage > 0
    ensures Balanced(f, StepAccount(board, f, k), StepBullet(board, f, k))
  {
    var b := f.bullets[k];
    var to := Toward(b.at, b.direction);
    DamageUpdate(f.bullets, k, b.(damage := 0));
    if Clear(board, to) {
      LiftedCanCollide(board, f, k, to);
      LiftKeepsAccount(board, f, k, to);
      CollisionBalances(b.damage, to, Lifted(f, k));
      LandingBalances(Lifted(f, k), k, b, to);
    }
  }

  lemma LiftedCanCollide(board: TileMap, f: Field, k: nat, to: Cell)
    requires FieldOk(board, f) && k < |f.bullets| && f.bullets[k].damage > 0
    ensures CanCollide(f, to) && CanCollide(Lifted(f, k), to)
  {
    CollisionKeepsField(board, 0, to, f);
  }

  /** Putting bullet k back in flight restores what the collision left of it. */
  lemma LandingBalances(lifted: Field, k: nat, b: Bullet, to: Cell)
    requires CanCollide(lifted, to) && k < |lifted.bullets| && lifted.bullets[k].damage == 0
    ensures var i := Collide(b.damage, to, lifted);
            && |i.field.bullets| == |lifted.bullets|
            && (i.left <= 255 ==> Sum(Damages(i.field.bullets[k := b.(at := to, damage := i.left)]))
                                  == Sum(Damages(i.field.bullets)) + i.left)
  {
    CollisionOnlyWeakens(b.damage, to, lifted);
    var i := Collide(b.damage, to, lifted);
    if i.left <= 255 {
      DamageUpdate(i.field.bullets, k, b.(at := to, damage := i.left));
    }
  }

  /** Lifting the bullet does not change what it is about to hit. */
  lemma LiftKeepsAccount(board: TileMap, f: Field, k: nat, to: Cell)
    requires FieldOk(board, f) && k < |f.bullets| && f.bullets[k].damage > 0 && to != f.bullets[k].at
    requires CanCollide(f, to) && CanCollide(Lifted(f, k), to)
    ensures HitAccount(f.bullets[k].damage, to, Lifted(f, k)) == HitAccount(f.bullets[k].damage, to, f)
  {
    if to in f.occ && f.occ[to].ByBullet? {
      var i, j := BulletIndex(f.bullets, f.occ[to].serial), BulletIndex(Lifted(f, k).bullets, f.occ[to].serial);
      assert forall m :: 0 <= m < |f.bullets| ==> Lifted(f, k).bullets[m].serial == f.bullets[m].serial;
      assert i == j;
      assert i != k;
    }
  }

  // ---- Where bullets go ----

  ghost predicate SameBullet(a: Bullet, b: Bullet) {
    b.serial == a.serial && b.direction == a.direction && b.playerId == a.playerId && b.damage <= a.damage
  }

  /** b is a later, still where it was. */
  ghost predicate Waited(a: Bullet, b: Bullet) {
    SameBullet(a, b) && b.at == a.at
  }

  /** b is a later, spent or one clear cell further on. */
  ghost predicate Stepped(board: TileMap, a: Bullet, b: Bullet)
    requires board.WellFormed()
  {
    SameBullet(a, b) && (b.damage > 0 ==> b.at == Toward(a.at, a.direction) && Clear(board, b.at))
  }

  /** The same players and units, none healthier. */
  ghost predicate SameUnits(f: Field, g: Field) {
    && SamePurses(f, g)
    && |g.units| == |f.units|
    && (forall i :: 0 <= i < |f.units| ==>
          g.units[i] == f.units[i].(health := g.units[i].health) && g.units[i].health <= f.units[i].health)
  }

  lemma StepFlies(board: TileMap, f: Field, k: nat)
    requires FieldOk(board, f) && k < |f.bullets| && f.bullets[k].damage > 0
    ensures var g := StepBullet(board, f, k);
            && SameUnits(f, g) && |g.bullets| == |f.bullets| && g.nextSerial == f.nextSerial
            && Stepped(board, f.bullets[k], g.bullets[k])
            && (forall i :: 0 <= i < |f.bullets| && i != k ==> Waited(f.bullets[i], g.bullets[i]))
  {
    var b := f.bullets[k];
    var to := Toward(b.at, b.direction);
    if Clear(board, to) {
      LiftedCanCollide(board, f, k, to);
      CollisionOnlyWeakens(b.damage, to, Lifted(f, k));
    }
  }

  // ---- One sweep over the bullets ----

  /** Bullet k's turn in a sweep. */
  ghost function StepOrStay(board: TileMap, f: Field, k: nat): Field
    requires FieldOk(board, f) && k < |f.bullets|
  {
    if f.bullets[k].damage == 0 then f else StepBullet(board, f, k)
  }

  ghost function TurnAccount(board: TileMap, f: Field, k: nat): Account
    requires FieldOk(board, f) && k < |f.bullets|
  {
    if f.bullets[k].damage == 0 then NOTHING else StepAccount(board, f, k)
  }

  lemma TurnFacts(board: TileMap, f: Field, k: nat)
    requires FieldOk(board, f) && k < |f.bullets|
    ensures var g := StepOrStay(board, f, k);
            && FieldOk(board, g)
            && SameUnits(f, g) && |g.bullets| == |f.bullets| && g.nextSerial == f.nextSerial
            && Stepped(board, f.bullets[k], g.bullets[k])
            && (forall i :: 0 <= i < |f.bullets| && i != k ==> Waited(f.bullets[i], g.bullets[i]))
    ensures Balanced(f, TurnAccount(board, f, k), StepOrStay(board, f, k))
  {
    if f.bullets[k].damage > 0 {
      StepKeepsField(board, f, k);
      StepFlies(board, f, k);
      StepBalances(board, f, k);
    }
  }

  ghost function Sweep(board: TileMap, f: Field, k: nat): Field
    requires FieldOk(board, f) && k <= |f.bullets|
    decreases |f.bullets| - k
  {
    if k == |f.bullets| then f
    else
      TurnFacts(board, f, k);
      Sweep(board, StepOrStay(board, f, k), k + 1)
  }

  ghost function SweepAccount(board: TileMap, f: Field, k: nat): Account
    requires FieldOk(board, f) && k <= |f.bullets|
    decreases |f.bullets| - k
  {
    if k == |f.bullets| then NOTHING
    else
      TurnFacts(board, f, k);
      TurnAccount(board, f, k).Plus(SweepAccount(board, StepOrStay(board, f, k), k + 1))
  }

  lemma SweepUnfolds(board: TileMap, f: Field, k: nat)
    requires FieldOk(board, f) && k < |f.bullets|
    ensures var g := StepOrStay(board, f, k);
            FieldOk(board, g) && |g.bullets| == |f.bullets| && Sweep(board, f, k) == Sweep(board, g, k + 1)
  {
    TurnFacts(board, f, k);
  }

  lemma {:induction false} SweepKeepsField(board: TileMap, f: Field, k: nat)
    requires FieldOk(board, f) && k <= |f.bullets|
    ensures FieldOk(board, Sweep(board, f, k))
    decreases |f.bullets| - k
  {
    if k < |f.bullets| {
      SweepUnfolds(board, f, k);
      SweepKeepsField(board, StepOrStay(board, f, k), k + 1);
    }
  }

  lemma {:induction false} SweepBalances(board: TileMap, f: Field, k: nat)
    requires FieldOk(board, f) && k <= |f.bullets|
    ensures Balanced(f, SweepAccount(board, f, k), Sweep(board, f, k))
    decreases |f.bullets| - k
  {
    if k < |f.bullets| {
      TurnFacts(board, f, k);
      SweepBalances(board, StepOrStay(board, f, k), k + 1);
    }
  }

  /** In a sweep every bullet from k on moves once, and the others wait. */
  lemma {:induction false} SweepFlies(board: TileMap, f: Field, k: nat)
    requires FieldOk(board, f) && k <= |f.bullets|
    ensures var g := Sweep(board, f, k);
            && SameUnits(f, g) && |g.bullets| == |f.bullets| && g.nextSerial == f.nextSerial
            && (forall i :: 0 <= i < k ==> Waited(f.bullets[i], g.bullets[i]))
            && (forall i :: k <= i < |f.bullets| ==> Stepped(board, f.bullets[i], g.bullets[i]))
    decreases |f.bullets| - k
  {
    if k < |f.bullets| {
      TurnFacts(board, f, k);
      SweepFlies(board, StepOrStay(board, f, k), k + 1);
    }
  }

  // ---- Pending attacks (src/world.cpp:761-795) ----

  ghost predicate Shoots(u: Unit) {
    u.health > 0 && u.pendingAttack.damage > 0
  }

  ghost function Aim(u: Unit): Cell {
    Toward(u.at, u.pendingAttack.direction)
  }

  /** Unit i's turn. None stands for the fail-fast abort when the attack aims off
      the board. An attack into an obstacle, or one whose bullet is spent at
      once, stays pending. */
  ghost function Shoot(board: TileMap, rules: Rules, f: Field, i: nat): Option<Field>
    requires FieldOk(board, f) && i < |f.units|
  {
    var u := f.units[i];
    var to := Aim(u);
    if !Shoots(u) then Some(f)
    else if !board.InBounds(to) then None
    else if !Clear(board, to) then Some(f)
    else
      CollisionKeepsField(board, u.pendingAttack.damage, to, f);
      CollisionOnlyWeakens(u.pendingAttack.damage, to, f);
      var hit := Collide(u.pendingAttack.damage, to, f);
      if hit.left == 0 then Some(hit.field)
      else
        Some(hit.field.(
               units := hit.field.units[i := hit.field.units[i].(attackCooldown := rules.attackCooldown,
                                                                 pendingAttack := u.pendingAttack.(damage := 0))],
               bullets := hit.field.bullets + [Bullet(f.nextSerial, to, u.pendingAttack.direction, u.key.playerId, hit.left)],
               occ := hit.field.occ[to := ByBullet(f.nextSerial)],
               nextSerial := f.nextSerial + 1))
  }

  ghost function ShootAccount(board: TileMap, f: Field, i: nat): Account
    requires FieldOk(board, f) && i < |f.units|
  {
    var u := f.units[i];
    if !Shoots(u) || !Clear(board, Aim(u)) then NOTHING
    else
      CollisionKeepsField(board, u.pendingAttack.damage, Aim(u), f);
      HitAccount(u.pendingAttack.damage, Aim(u), f).(spawned := u.pendingAttack.damage)
  }

  lemma TouchKeepsField(board: TileMap, f: Field, units: seq<Unit>)
    requires FieldOk(board, f) && |units| == |f.units|
    requires forall i :: 0 <= i < |units| ==>
                           units[i].key == f.units[i].key && units[i].at == f.units[i].at && units[i].health == f.units[i].health
    ensures FieldOk(board, f.(units := units))
  {
    forall key: UnitKey
      ensures UnitIndex(units, key) == UnitIndex(f.units, key)
    {
      var a, b := UnitIndex(f.units, key), UnitIndex(units, key);
      assert a < |units| ==> units[a].key == key;
      assert b < |units| ==> f.units[b].key == key;
    }
  }

  lemma AddBulletKeepsField(board: TileMap, f: Field, b: Bullet)
    requires FieldOk(board, f) && b.serial == f.nextSerial && Clear(board, b.at) && b.at !in f.occ
    ensures FieldOk(board, f.(bullets := f.bullets + [b], occ := f.occ[b.at := ByBullet(b.serial)],
                              nextSerial := f.nextSerial + 1))
  {
  }

  lemma ShootKeepsField(board: TileMap, rules: Rules, f: Field, i: nat)
    requires FieldOk(board, f) && i < |f.units| && Shoot(board, rules, f, i).Some?
    ensures FieldOk(board, Shoot(board, rules, f, i).value)
  {
    var u := f.units[i];
    var to := Aim(u);
    if Shoots(u) && Clear(board, to) {
      CollisionKeepsField(board, u.pendingAttack.damage, to, f);
      CollisionOnlyWeakens(u.pendingAttack.damage, to, f);
      var hit := Collide(u.pendingAttack.damage, to, f);
      if hit.left > 0 {
        var g := Shoot(board, rules, f, i).value;
        TouchKeepsField(board, hit.field, g.units);
        AddBulletKeepsField(board, hit.field.(units := g.units), g.bullets[|f.bullets|]);
      }
    }
  }

  lemma DamageAppend(bullets: seq<Bullet>, b: Bullet)
    ensures Sum(Damages(bullets + [b])) == Sum(Damages(bullets)) + b.damage
  {
    assert Damages(bullets + [b]) == Damages(bullets) + [b.damage];
    SumAppend(Damages(bullets), b.damage);
  }

  lemma HealthsAgree(units: seq<Unit>, i: nat, u: Unit)
    requires i < |units| && u.health == units[i].health
    ensures Healths(units[i := u]) == Healths(units)
  {
  }

  lemma ShootBalances(board: TileMap, rules: Rules, f: Field, i: nat)
    requires FieldOk(board, f) && i < |f.units| && Shoot(board, rules, f, i).Some?
    ensures Balanced(f, ShootAccount(board, f, i), Shoot(board, rules, f, i).value)
  {
    var u := f.units[i];
    var to := Aim(u);
    var g := Shoot(board, rules, f, i).value;
    if Shoots(u) && Clear(board, to) {
      CollisionKeepsField(board, u.pendingAttack.damage, to, f);
      CollisionOnlyWeakens(u.pendingAttack.damage, to, f);
      CollisionBalances(u.pendingAttack.damage, to, f);
      var hit := Collide(u.pendingAttack.damage, to, f);
      if hit.left > 0 {
        HealthsAgree(hit.field.units, i, g.units[i]);
        DamageAppend(hit.field.bullets, g.bullets[|f.bullets|]);
      }
    }
  }

  /** v is u after others have shot: perhaps hurt, otherwise the same. */
  ghost predicate SameAim(u: Unit, v: Unit) {
    v == u.(health := v.health) && v.health <= u.health
  }

  /** v is u after everyone has shot. */
  ghost predicate SameBody(u: Unit, v: Unit) {
    && v == u.(health := v.health, attackCooldown := v.attackCooldown, pendingAttack := v.pendingAttack)
    && v.health <= u.health
  }

  /** b was fired by u and, if it is flying, hangs on the clear cell u aimed at. */
  ghost predicate FiredBy(board: TileMap, u: Unit, b: Bullet)
    requires board.WellFormed()
  {
    && b.direction == u.pendingAttack.direction && b.playerId == u.key.playerId
    && b.damage <= u.pendingAttack.damage
    && (b.damage > 0 ==> b.at == Aim(u) && Clear(board, b.at))
  }

  ghost predicate FiredByOneOf(board: TileMap, units: seq<Unit>, from: nat, b: Bullet)
    requires board.WellFormed()
  {
    exists m :: from <= m < |units| && FiredBy(board, units[m], b)
  }

  ghost predicate ShotsFired(board: TileMap, f: Field, from: nat, g: Field)
    requires board.WellFormed()
  {
    && SamePurses(f, g)
    && |g.units| == |f.units| && |g.bullets| >= |f.bullets|
    && (forall m :: 0 <= m < |f.units| ==> SameBody(f.units[m], g.units[m]))
    && (forall j :: 0 <= j < |f.bullets| ==> Waited(f.bullets[j], g.bullets[j]))
    && (forall j :: |f.bullets| <= j < |g.bullets| ==>
          g.bullets[j].serial >= f.nextSerial && FiredByOneOf(board, f.units, from, g.bullets[j]))
  }

  lemma ShootEffect(board: TileMap, rules: Rules, f: Field, i: nat)
    requires FieldOk(board, f) && i < |f.units| && Shoot(board, rules, f, i).Some?
    ensures var g := Shoot(board, rules, f, i).value;
            && SamePurses(f, g)
            && |g.units| == |f.units| && |f.bullets| <= |g.bullets| <= |f.bullets| + 1 && f.nextSerial <= g.nextSerial
            && SameBody(f.units[i], g.units[i])
            && (forall m :: 0 <= m < |f.units| && m != i ==> SameAim(f.units[m], g.units[m]))
            && (forall j :: 0 <= j < |f.bullets| ==> Waited(f.bullets[j], g.bullets[j]))
            && (|g.bullets| > |f.bullets| ==>
                  g.bullets[|f.bullets|].serial == f.nextSerial && FiredBy(board, f.units[i], g.bullets[|f.bullets|]))
  {
    var u := f.units[i];
    if Shoots(u) && Clear(board, Aim(u)) {
      CollisionKeepsField(board, u.pendingAttack.damage, Aim(u), f);
      CollisionOnlyWeakens(u.pendingAttack.damage, Aim(u), f);
    }
  }

  ghost function Commit(board: TileMap, rules: Rules, f: Field, i: nat): Option<Field>
    requires FieldOk(board, f) && i <= |f.units|
    decreases |f.units| - i
  {
    if i == |f.units| then Some(f)
    else match Shoot(board, rules, f, i)
      case None => None
      case Some(g) =>
        ShootKeepsField(board, rules, f, i);
        ShootEffect(board, rules, f, i);
        Commit(board, rules, g, i + 1)
  }

  ghost function CommitAccount(board: TileMap, rules: Rules, f: Field, i: nat): Account
    requires FieldOk(board, f) && i <= |f.units|
    decreases |f.units| - i
  {
    if i == |f.units| then NOTHING
    else match Shoot(board, rules, f, i)
      case None => NOTHING
      case Some(g) =>
        ShootKeepsField(board, rules, f, i);
        ShootEffect(board, rules, f, i);
        ShootAccount(board, f, i).Plus(CommitAccount(board, rules, g, i + 1))
  }

  lemma {:induction false} CommitKeepsField(board: TileMap, rules: Rules, f: Field, i: nat)
    requires FieldOk(board, f) && i <= |f.units| && Commit(board, rules, f, i).Some?
    ensures FieldOk(board, Commit(board, rules, f, i).value)
    decreases |f.units| - i
  {
    if i < |f.units| {
      ShootKeepsField(board, rules, f, i);
      ShootEffect(board, rules, f, i);
      CommitKeepsField(board, rules, Shoot(board, rules, f, i).value, i + 1);
    }
  }

  lemma {:induction false} CommitBalances(board: TileMap, rules: Rules, f: Field, i: nat)
    requires FieldOk(board, f) && i <= |f.units| && Commit(board, rules, f, i).Some?
    ensures Balanced(f, CommitAccount(board, rules, f, i), Commit(board, rules, f, i).value)
    decreases |f.units| - i
  {
    if i < |f.units| {
      ShootKeepsField(board, rules, f, i);
      ShootEffect(board, rules, f, i);
      ShootBalances(board, rules, f, i);
      CommitBalances(board, rules, Shoot(board, rules, f, i).value, i + 1);
    }
  }

  lemma {:induction false} CommitFires(board: TileMap, rules: Rules, f: Field, i: nat)
    requires FieldOk(board, f) && i <= |f.units| && Commit(board, rules, f, i).Some?
    ensures ShotsFired(board, f, i, Commit(board, rules, f, i).value)
    decreases |f.units| - i
  {
    if i < |f.units| {
      var g := Shoot(board, rules, f, i).value;
      ShootKeepsField(board, rules, f, i);
      ShootEffect(board, rules, f, i);
      CommitFires(board, rules, g, i + 1);
      ShotsCompose(board, f, i, g, Commit(board, rules, f, i).value);
    }
  }

  lemma ShotsCompose(board: TileMap, f: Field, i: nat, g: Field, h: Field)
    requires board.WellFormed() && i < |f.units|
    requires SamePurses(f, g)
    requires |g.units| == |f.units| && |f.bullets| <= |g.bullets| <= |f.bullets| + 1 && f.nextSerial <= g.nextSerial
    requires SameBody(f.units[i], g.units[i])
    requires forall m :: 0 <= m < |f.units| && m != i ==> SameAim(f.units[m], g.units[m])
    requires forall j :: 0 <= j < |f.bullets| ==> Waited(f.bullets[j], g.bullets[j])
    requires |g.bullets| > |f.bullets| ==>
               g.bullets[|f.bullets|].serial == f.nextSerial && FiredBy(board, f.units[i], g.bullets[|f.bullets|])
    requires ShotsFired(board, g, i + 1, h)
    ensures ShotsFired(board, f, i, h)
  {
    forall j | |f.bullets| <= j < |h.bullets|
      ensures h.bullets[j].serial >= f.nextSerial && FiredByOneOf(board, f.units, i, h.bullets[j])
    {
      if j < |g.bullets| {
        assert Waited(g.bullets[j], h.bullets[j]);
        assert FiredBy(board, f.units[i], h.bullets[j]);
      } else {
        var m :| i + 1 <= m < |g.units| && FiredBy(board, g.units[m], h.bullets[j]);
        assert SameAim(f.units[m], g.units[m]);
        assert FiredBy(board, f.units[m], h.bullets[j]);
      }
    }
  }

  // ---- The pass ----

  ghost function Sweeps(board: TileMap, f: Field, n: nat): Field
    requires FieldOk(board, f)
    decreases n
  {
    if n == 0 then f
    else
      SweepKeepsField(board, f, 0);
      Sweeps(board, Sweep(board, f, 0), n - 1)
  }

  ghost function SweepsAccount(board: TileMap, f: Field, n: nat): Account
    requires FieldOk(board, f)
    decreases n
  {
    if n == 0 then NOTHING
    else
      SweepKeepsField(board, f, 0);
      SweepAccount(board, f, 0).Plus(SweepsAccount(board, Sweep(board, f, 0), n - 1))
  }

  function DropSpent(bullets: seq<Bullet>): seq<Bullet> {
    if bullets == [] then []
    else (if bullets[0].damage > 0 then [bullets[0]] else []) + DropSpent(bullets[1..])
  }

  ghost predicate DistinctSerials(bullets: seq<Bullet>) {
    forall i, j :: 0 <= i < j < |bullets| ==> bullets[i].serial != bullets[j].serial
  }

  /** Dropping keeps exactly the flying bullets, each once. */
  lemma {:induction false} DropSpentKeeps(bullets: seq<Bullet>)
    ensures forall b :: b in DropSpent(bullets) <==> b in bullets && b.damage > 0
    ensures DistinctSerials(bullets) ==> DistinctSerials(DropSpent(bullets))
  {
    if bullets != [] {
      var rest := DropSpent(bullets[1..]);
      DropSpentKeeps(bullets[1..]);
      assert forall b :: b in bullets <==> b == bullets[0] || b in bullets[1..];
      if bullets[0].damage > 0 {
        assert DropSpent(bullets) == [bullets[0]] + rest;
        if DistinctSerials(bullets) {
          forall j | 0 <= j < |rest|
            ensures rest[j].serial != bullets[0].serial
          {
            assert rest[j] in bullets[1..];
          }
        }
      } else {
        assert DropSpent(bullets) == rest;
      }
    }
  }

  lemma {:induction false} DroppingKeepsDamage(bullets: seq<Bullet>)
    ensures Sum(Damages(DropSpent(bullets))) == Sum(Damages(bullets))
  {
    if bullets != [] {
      DroppingKeepsDamage(bullets[1..]);
      assert Damages(bullets)[1..] == Damages(bullets[1..]);
      if bullets[0].damage > 0 {
        assert DropSpent(bullets) == [bullets[0]] + DropSpent(bullets[1..]);
        assert Damages(DropSpent(bullets))[1..] == Damages(DropSpent(bullets[1..]));
      } else {
        assert DropSpent(bullets) == DropSpent(bullets[1..]);
      }
    }
  }

  lemma DropKeepsField(board: TileMap, f: Field)
    requires FieldOk(board, f)
    ensures FieldOk(board, f.(bullets := DropSpent(f.bullets)))
  {
    DropSpentKeeps(f.bullets);
    assert DistinctSerials(f.bullets);
    var kept := DropSpent(f.bullets);
    forall i | 0 <= i < |kept|
      ensures exists j :: 0 <= j < |f.bullets| && f.bullets[j] == kept[i]
    {
      assert kept[i] in f.bullets;
    }
  }

  /** The field after the pass; None if an attack off the board aborts it. */
  ghost function Pass(board: TileMap, rules: Rules, f: Field): Option<Field>
    requires FieldOk(board, f)
  {
    SweepKeepsField(board, f, 0);
    match Commit(board, rules, Sweep(board, f, 0), 0)
    case None => None
    case Some(g) =>
      CommitKeepsField(board, rules, Sweep(board, f, 0), 0);
      var h := Sweeps(board, g, 4);
      Some(h.(bullets := DropSpent(h.bullets)))
  }

  ghost function PassAccount(board: TileMap, rules: Rules, f: Field): Account
    requires FieldOk(board, f)
  {
    SweepKeepsField(board, f, 0);
    match Commit(board, rules, Sweep(board, f, 0), 0)
    case None => NOTHING
    case Some(g) =>
      CommitKeepsField(board, rules, Sweep(board, f, 0), 0);
      SweepAccount(board, f, 0)
      .Plus(CommitAccount(board, rules, Sweep(board, f, 0), 0))
      .Plus(SweepsAccount(board, g, 4))
  }

  lemma {:induction false} SweepsKeepField(board: TileMap, f: Field, n: nat)
    requires FieldOk(board, f)
    ensures FieldOk(board, Sweeps(board, f, n))
    decreases n
  {
    if n > 0 {
      SweepKeepsField(board, f, 0);
      SweepsKeepField(board, Sweep(board, f, 0), n - 1);
    }
  }

  lemma {:induction false} SweepsBalance(board: TileMap, f: Field, n: nat)
    requires FieldOk(board, f)
    ensures Balanced(f, SweepsAccount(board, f, n), Sweeps(board, f, n))
    decreases n
  {
    if n > 0 {
      SweepKeepsField(board, f, 0);
      SweepBalances(board, f, 0);
      SweepsBalance(board, Sweep(board, f, 0), n - 1);
    }
  }

  /** The pass keeps the agreement of grid, units, bullets and rosters. */
  lemma PassKeepsField(board: TileMap, rules: Rules, f: Field)
    requires FieldOk(board, f) && Pass(board, rules, f).Some?
    ensures FieldOk(board, Pass(board, rules, f).value)
  {
    SweepKeepsField(board, f, 0);
    CommitKeepsField(board, rules, Sweep(board, f, 0), 0);
    var g := Commit(board, rules, Sweep(board, f, 0), 0).value;
    SweepsKeepField(board, g, 4);
    DropKeepsField(board, Sweeps(board, g, 4));
  }

  /** Conservation of damage: what flew plus what was fired is what still flies,
      plus what units lost, plus twice what bullets cancelled, plus what walls took. */
  lemma PassConservesDamage(board: TileMap, rules: Rules, f: Field)
    requires FieldOk(board, f) && Pass(board, rules, f).Some?
    ensures var g, a := Pass(board, rules, f).value, PassAccount(board, rules, f);
            && Sum(Damages(f.bullets)) + a.spawned == Sum(Damages(g.bullets)) + a.dealt + 2 * a.cancelled + a.walls
            && a.dealt == Sum(Healths(f.units)) - Sum(Healths(g.units))
  {
    SweepKeepsField(board, f, 0);
    SweepBalances(board, f, 0);
    CommitKeepsField(board, rules, Sweep(board, f, 0), 0);
    CommitBalances(board, rules, Sweep(board, f, 0), 0);
    var g := Commit(board, rules, Sweep(board, f, 0), 0).value;
    SweepsBalance(board, g, 4);
    DroppingKeepsDamage(Sweeps(board, g, 4).bullets);
  }

  /** The pass moves no unit, touches no energy and heals nobody. */
  lemma PassKeepsBodies(board: TileMap, rules: Rules, f: Field)
    requires FieldOk(board, f) && Pass(board, rules, f).Some?
    ensures var g := Pass(board, rules, f).value;
            && SamePurses(f, g) && |g.units| == |f.units|
            && (forall i :: 0 <= i < |f.units| ==> SameBody(f.units[i], g.units[i]))
  {
    hide FieldOk, Sweep, Commit, Sweeps;
    SweepKeepsField(board, f, 0);
    SweepFlies(board, f, 0);
    var s := Sweep(board, f, 0);
    CommitKeepsField(board, rules, s, 0);
    CommitFires(board, rules, s, 0);
    var c := Commit(board, rules, s, 0).value;
    SweepsKeepUnits(board, c, 4);
    var g := Pass(board, rules, f).value;
    forall i | 0 <= i < |f.units|
      ensures SameBody(f.units[i], g.units[i])
    {
      assert SameBody(s.units[i], c.units[i]);
    }
  }

  lemma {:induction false} SweepsKeepUnits(board: TileMap, f: Field, n: nat)
    requires FieldOk(board, f)
    ensures SameUnits(f, Sweeps(board, f, n))
    decreases n
  {
    if n > 0 {
      SweepKeepsField(board, f, 0);
      SweepFlies(board, f, 0);
      SweepsKeepUnits(board, Sweep(board, f, 0), n - 1);
    }
  }

  // ---- Travel ----

  /** b reached its cell from `start` in n steps over clear cells. */
  ghost predicate Came(board: TileMap, start: Cell, b: Bullet, n: nat)
    requires board.WellFormed()
  {
    && b.at == Along(start, b.direction, n)
    && forall k :: 1 <= k <= n ==> Clear(board, Along(start, b.direction, k))
  }

  lemma CameOneMore(board: TileMap, start: Cell, a: Bullet, b: Bullet, n: nat)
    requires board.WellFormed() && Came(board, start, a, n) && Stepped(board, a, b) && b.damage > 0
    ensures Came(board, start, b, n + 1)
  {
    assert b.at == Along(start, b.direction, n + 1);
  }

  /** b is one of the bullets of f, or was fired by one of its units, n steps ago. */
  ghost predicate Origin(board: TileMap, f: Field, b: Bullet, n: nat)
    requires board.WellFormed()
  {
    || (exists i :: 0 <= i < |f.bullets| && SameBullet(f.bullets[i], b) && Came(board, f.bullets[i].at, b, n))
    || (b.serial >= f.nextSerial
        && exists m :: 0 <= m < |f.units| && Shooter(f.units[m], b) && Came(board, f.units[m].at, b, n))
  }

  ghost predicate Shooter(u: Unit, b: Bullet) {
    b.direction == u.pendingAttack.direction && b.playerId == u.key.playerId && b.damage <= u.pendingAttack.damage
  }

  ghost predicate AllCame(board: TileMap, f: Field, g: Field, n: nat)
    requires board.WellFormed()
  {
    forall j :: 0 <= j < |g.bullets| && g.bullets[j].damage > 0 ==> Origin(board, f, g.bullets[j], n)
  }

  lemma OriginOneMore(board: TileMap, f: Field, a: Bullet, b: Bullet, n: nat)
    requires board.WellFormed() && Origin(board, f, a, n) && Stepped(board, a, b) && b.damage > 0
    ensures Origin(board, f, b, n + 1)
  {
    if i :| 0 <= i < |f.bullets| && SameBullet(f.bullets[i], a) && Came(board, f.bullets[i].at, a, n) {
      CameOneMore(board, f.bullets[i].at, a, b, n);
      assert SameBullet(f.bullets[i], b);
    } else {
      var m :| 0 <= m < |f.units| && Shooter(f.units[m], a) && Came(board, f.units[m].at, a, n);
      CameOneMore(board, f.units[m].at, a, b, n);
      assert Shooter(f.units[m], b);
    }
  }

  lemma SweepCame(board: TileMap, f: Field, g: Field, n: nat)
    requires FieldOk(board, g) && AllCame(board, f, g, n)
    ensures AllCame(board, f, Sweep(board, g, 0), n + 1)
  {
    SweepFlies(board, g, 0);
    var h := Sweep(board, g, 0);
    forall j | 0 <= j < |h.bullets| && h.bullets[j].damage > 0
      ensures Origin(board, f, h.bullets[j], n + 1)
    {
      OriginOneMore(board, f, g.bullets[j], h.bullets[j], n);
    }
  }

  lemma {:induction false} SweepsCame(board: TileMap, f: Field, g: Field, n: nat, m: nat)
    requires FieldOk(board, g) && AllCame(board, f, g, n)
    ensures AllCame(board, f, Sweeps(board, g, m), n + m)
    decreases m
  {
    if m == 0 {
      assert Sweeps(board, g, 0) == g;
    } else {
      SweepKeepsField(board, g, 0);
      SweepCame(board, f, g, n);
      SweepsCame(board, f, Sweep(board, g, 0), n + 1, m - 1);
      assert Sweeps(board, g, m) == Sweeps(board, Sweep(board, g, 0), m - 1);
    }
  }

  lemma CommitCame(board: TileMap, rules: Rules, f: Field, s: Field)
    requires FieldOk(board, s) && SameUnits(f, s) && s.nextSerial == f.nextSerial && AllCame(board, f, s, 1)
    requires Commit(board, rules, s, 0).Some?
    ensures AllCame(board, f, Commit(board, rules, s, 0).value, 1)
  {
    var g := Commit(board, rules, s, 0).value;
    CommitFires(board, rules, s, 0);
    forall j | 0 <= j < |g.bullets| && g.bullets[j].damage > 0
      ensures Origin(board, f, g.bullets[j], 1)
    {
      var b := g.bullets[j];
      if j < |s.bullets| {
        OriginWaits(board, f, s.bullets[j], b, 1);
      } else {
        var m :| 0 <= m < |s.units| && FiredBy(board, s.units[m], b);
        assert Came(board, f.units[m].at, b, 1) && Shooter(f.units[m], b);
      }
    }
  }

  lemma OriginWaits(board: TileMap, f: Field, a: Bullet, b: Bullet, n: nat)
    requires board.WellFormed() && Origin(board, f, a, n) && Waited(a, b)
    ensures Origin(board, f, b, n)
  {
    if i :| 0 <= i < |f.bullets| && SameBullet(f.bullets[i], a) && Came(board, f.bullets[i].at, a, n) {
      assert SameBullet(f.bullets[i], b) && Came(board, f.bullets[i].at, b, n);
    } else {
      var m :| 0 <= m < |f.units| && Shooter(f.units[m], a) && Came(board, f.units[m].at, a, n);
      assert Shooter(f.units[m], b) && Came(board, f.units[m].at, b, n);
    }
  }

  /** Every bullet left after the pass is flying and has come exactly five tiles,
      from where it was or from the unit that fired it, over clear cells only. */
  lemma SurvivorsTravelFive(board: TileMap, rules: Rules, f: Field)
    requires FieldOk(board, f) && Pass(board, rules, f).Some?
    ensures forall b :: b in Pass(board, rules, f).value.bullets ==> b.damage > 0 && Origin(board, f, b, 5)
  {
    assert AllCame(board, f, f, 0) by {
      forall j | 0 <= j < |f.bullets| && f.bullets[j].damage > 0
        ensures Origin(board, f, f.bullets[j], 0)
      {
        assert SameBullet(f.bullets[j], f.bullets[j]) && Came(board, f.bullets[j].at, f.bullets[j], 0);
      }
    }
    SweepKeepsField(board, f, 0);
    SweepFlies(board, f, 0);
    SweepCame(board, f, f, 0);
    var s := Sweep(board, f, 0);
    CommitCame(board, rules, f, s);
    CommitKeepsField(board, rules, s, 0);
    var g := Commit(board, rules, s, 0).value;
    SweepsCame(board, f, g, 1, 4);
    DropSpentKeeps(Sweeps(board, g, 4).bullets);
  }

  ghost predicate AllAimAtBoard(board: TileMap, f: Field) {
    forall m :: 0 <= m < |f.units| && Shoots(f.units[m]) ==> board.InBounds(Aim(f.units[m]))
  }

  lemma ShootKeepsAims(board: TileMap, rules: Rules, f: Field, i: nat)
    requires FieldOk(board, f) && i < |f.units| && AllAimAtBoard(board, f)
    ensures Shoot(board, rules, f, i).Some?
    ensures AllAimAtBoard(board, Shoot(board, rules, f, i).value)
  {
    ShootEffect(board, rules, f, i);
    var u := f.units[i];
    if Shoots(u) && Clear(board, Aim(u)) {
      CollisionKeepsField(board, u.pendingAttack.damage, Aim(u), f);
      CollisionOnlyWeakens(u.pendingAttack.damage, Aim(u), f);
    }
  }

  /** The pass cannot abort while every pending attack aims at the board. */
  lemma {:induction false} AimedAttacksNeverAbort(board: TileMap, rules: Rules, f: Field, i: nat)
    requires FieldOk(board, f) && i <= |f.units| && AllAimAtBoard(board, f)
    ensures Commit(board, rules, f, i).Some?
    decreases |f.units| - i
  {
    if i < |f.units| {
      ShootKeepsAims(board, rules, f, i);
      ShootKeepsField(board, rules, f, i);
      ShootEffect(board, rules, f, i);
      AimedAttacksNeverAbort(board, rules, Shoot(board, rules, f, i).value, i + 1);
    }
  }
}

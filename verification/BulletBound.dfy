/**
 How many bullets can fly at once. Every pass takes each flying bullet five cells
 on towards an edge of the board and adds at most one per unit, so those with a long
 way ahead are few, and all of them together no more than 1530.
 */
module BulletBound {
  import opened Common
  import opened GameRules
  import opened TileMap
  import opened Placement
  import opened Flight
  import opened BulletPass
  import opened Counting

  /** Cells between the bullet and the edge it flies to. */
  function Ahead(board: TileMap, b: Bullet): int {
    match b.direction
    case Up => b.at.y
    case Right => board.width - 1 - b.at.x
    case Down => board.height - 1 - b.at.y
    case Left => b.at.x
  }

  predicate Reaches(board: TileMap, b: Bullet, n: int) {
    b.damage > 0 && Ahead(board, b) >= n
  }

  /** The flying bullets with at least n cells ahead. */
  ghost function Reaching(board: TileMap, bullets: seq<Bullet>, n: int): nat {
    if bullets == [] then 0
    else (if Reaches(board, bullets[0], n) then 1 else 0) + Reaching(board, bullets[1..], n)
  }

  const LIMIT := 1530

  ghost predicate Sparse(board: TileMap, bullets: seq<Bullet>, k: nat) {
    k <= 51 ==> Reaching(board, bullets, 5 * k) <= 30 * (51 - k)
  }

  /** At most 30 * (51 - k) bullets have 5 * k cells or more ahead. */
  ghost predicate Thinned(board: TileMap, bullets: seq<Bullet>) {
    forall k: nat :: Sparse(board, bullets, k)
  }

  // ---- Counting ----

  lemma {:induction false} ReachingIsPart(board: TileMap, bullets: seq<Bullet>, n: int)
    ensures Reaching(board, bullets, n) <= |bullets|
  {
    if bullets != [] {
      ReachingIsPart(board, bullets[1..], n);
    }
  }

  /** If what reaches m in b reached n in a, then b has no more of them, but for the
      bullets b has in addition. */
  lemma {:induction false} ReachingOneByOne(board: TileMap, a: seq<Bullet>, n: int, b: seq<Bullet>, m: int)
    requires |a| <= |b|
    requires forall i :: 0 <= i < |a| && Reaches(board, b[i], m) ==> Reaches(board, a[i], n)
    ensures Reaching(board, b, m) <= Reaching(board, a, n) + |b| - |a|
  {
    if a == [] {
      ReachingIsPart(board, b, m);
    } else {
      ReachingOneByOne(board, a[1..], n, b[1..], m);
    }
  }

  lemma {:induction false} NothingReaches(board: TileMap, bullets: seq<Bullet>, n: int)
    requires forall i :: 0 <= i < |bullets| ==> !Reaches(board, bullets[i], n)
    ensures Reaching(board, bullets, n) == 0
  {
    if bullets != [] {
      NothingReaches(board, bullets[1..], n);
    }
  }

  lemma {:induction false} DroppingKeepsReaching(board: TileMap, bullets: seq<Bullet>, n: int)
    ensures Reaching(board, DropSpent(bullets), n) == Reaching(board, bullets, n)
  {
    if bullets != [] {
      DroppingKeepsReaching(board, bullets[1..], n);
      var rest := DropSpent(bullets[1..]);
      if bullets[0].damage > 0 {
        assert DropSpent(bullets) == [bullets[0]] + rest;
      } else {
        assert DropSpent(bullets) == rest;
      }
    }
  }

  lemma {:induction false} AllFlyingReach(board: TileMap, bullets: seq<Bullet>)
    requires forall i :: 0 <= i < |bullets| ==> Reaches(board, bullets[i], 0)
    ensures Reaching(board, bullets, 0) == |bullets|
  {
    if bullets != [] {
      AllFlyingReach(board, bullets[1..]);
    }
  }

  // ---- What a pass does to the numbers ----

  lemma SweepThins(board: TileMap, f: Field, n: int)
    requires FieldOk(board, f)
    ensures FieldOk(board, Sweep(board, f, 0))
    ensures Reaching(board, Sweep(board, f, 0).bullets, n) <= Reaching(board, f.bullets, n + 1)
  {
    SweepKeepsField(board, f, 0);
    SweepFlies(board, f, 0);
    ReachingOneByOne(board, f.bullets, n + 1, Sweep(board, f, 0).bullets, n);
  }

  lemma {:induction false} SweepsThin(board: TileMap, f: Field, times: nat, n: int)
    requires FieldOk(board, f)
    ensures Reaching(board, Sweeps(board, f, times).bullets, n) <= Reaching(board, f.bullets, n + times)
    decreases times
  {
    if times > 0 {
      SweepThins(board, f, n + times - 1);
      SweepsThin(board, Sweep(board, f, 0), times - 1, n);
    }
  }

  lemma {:induction false} CommitAddsFew(board: TileMap, rules: Rules, f: Field, i: nat)
    requires FieldOk(board, f) && i <= |f.units| && Commit(board, rules, f, i).Some?
    ensures |Commit(board, rules, f, i).value.bullets| <= |f.bullets| + |f.units| - i
    decreases |f.units| - i
  {
    if i < |f.units| {
      ShootKeepsField(board, rules, f, i);
      ShootEffect(board, rules, f, i);
      CommitAddsFew(board, rules, Shoot(board, rules, f, i).value, i + 1);
    }
  }

  /** Five cells on, and at most one more for each unit. */
  lemma PassThins(board: TileMap, rules: Rules, f: Field, n: int)
    requires FieldOk(board, f) && Pass(board, rules, f).Some?
    ensures Reaching(board, Pass(board, rules, f).value.bullets, n) <= Reaching(board, f.bullets, n + 5) + |f.units|
  {
    hide FieldOk, Sweep, Commit, Sweeps, Reaching, Reaches;
    SweepThins(board, f, n + 4);
    SweepFlies(board, f, 0);
    var s := Sweep(board, f, 0);
    CommitKeepsField(board, rules, s, 0);
    CommitFires(board, rules, s, 0);
    CommitAddsFew(board, rules, s, 0);
    var c := Commit(board, rules, s, 0).value;
    WaitingReaches(board, s.bullets, c.bullets, n + 4);
    SweepsThin(board, c, 4, n);
    DroppingKeepsReaching(board, Sweeps(board, c, 4).bullets, n);
  }

  lemma WaitingReaches(board: TileMap, a: seq<Bullet>, b: seq<Bullet>, n: int)
    requires |a| <= |b| && forall i :: 0 <= i < |a| ==> Waited(a[i], b[i])
    ensures Reaching(board, b, n) <= Reaching(board, a, n) + |b| - |a|
  {
    ReachingOneByOne(board, a, n, b, n);
  }

  /** No bullet has more than 254 cells ahead. */
  lemma NoneReachesFar(board: TileMap, f: Field)
    requires FieldOk(board, f) && board.width <= 255 && board.height <= 255
    ensures Reaching(board, f.bullets, 255) == 0
  {
    NothingReaches(board, f.bullets, 255);
  }

  /** A pass keeps the bullets thinned. */
  lemma PassKeepsThinned(board: TileMap, rules: Rules, f: Field)
    requires FieldOk(board, f) && Pass(board, rules, f).Some? && |f.units| <= 30
    requires board.width <= 255 && board.height <= 255 && Thinned(board, f.bullets)
    ensures Thinned(board, Pass(board, rules, f).value.bullets)
  {
    hide FieldOk, Pass, Reaching;
    var g := Pass(board, rules, f).value;
    PassKeepsField(board, rules, f);
    forall k: nat
      ensures Sparse(board, g.bullets, k)
    {
      if k == 51 {
        NoneReachesFar(board, g);
      } else if k < 51 {
        PassThins(board, rules, f, 5 * k);
        assert Sparse(board, f.bullets, k + 1);
        assert 5 * (k + 1) == 5 * k + 5;
      }
    }
  }

  /** Never more than 1530 bullets fly. */
  lemma FewFly(board: TileMap, f: Field)
    requires FieldOk(board, f) && Thinned(board, f.bullets)
    ensures |DropSpent(f.bullets)| <= LIMIT
  {
    hide Pass, Sweep;
    var kept := DropSpent(f.bullets);
    DropSpentKeeps(f.bullets);
    forall i | 0 <= i < |kept|
      ensures Reaches(board, kept[i], 0)
    {
      assert kept[i] in f.bullets;
    }
    AllFlyingReach(board, kept);
    DroppingKeepsReaching(board, f.bullets, 0);
    assert Sparse(board, f.bullets, 0);
  }
}

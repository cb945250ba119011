/**
 The written rule for simultaneous unit moves as a recursive condition on sets of
 moves, and its consequences.

 The rule is circular: a move into an occupied tile succeeds only if the
 occupant's own move succeeds. Its meaning is therefore a fixed point, and the
 one the engine computes is the greatest.
 */
module MovementRule {
  import opened Common

  /** The cells occupied by units, each with the unit's intended move. */
  type Intents = map<Cell, Option<Direction>>

  /** c's intended move satisfies every clause of the rule, given that the moves
      from the cells in `moving` are the ones that succeed. `free` holds the
      cells that are on the board, neither water nor obstacle, and not occupied
      by a bullet. */
  ghost predicate MaySucceed(who: Intents, free: set<Cell>, moving: set<Cell>, c: Cell) {
    && c in who && who[c].Some?
    && var t := Toward(c, who[c].value);
       && t in free
       && (forall o :: o in who && o != c && who[o].Some? ==> Toward(o, who[o].value) != t)
       && (t in who ==> who[t].Some? && Toward(t, who[t].value) != c && t in moving)
  }

  ghost predicate Stable(who: Intents, free: set<Cell>, moving: set<Cell>) {
    forall c :: c in moving ==> MaySucceed(who, free, moving, c)
  }

  /** The moves that succeed: those in some set that justifies itself. */
  ghost function Winners(who: Intents, free: set<Cell>): set<Cell> {
    set c | c in who.Keys && (exists moving :: Stable(who, free, moving) && c in moving)
  }

  /** Winners is the greatest self-justifying set, and a move succeeds exactly
      when the rule allows it given the other successful moves. */
  lemma WinnersIsGreatestFixedPoint(who: Intents, free: set<Cell>)
    ensures Stable(who, free, Winners(who, free))
    ensures forall moving :: Stable(who, free, moving) ==> moving <= Winners(who, free)
    ensures forall c :: c in Winners(who, free) <==> MaySucceed(who, free, Winners(who, free), c)
  {
    var w := Winners(who, free);
    forall c | c in w
      ensures MaySucceed(who, free, w, c)
    {
      var moving :| Stable(who, free, moving) && c in moving;
      assert MaySucceed(who, free, moving, c);
      assert moving <= w;
    }
    forall c | MaySucceed(who, free, w, c)
      ensures c in w
    {
      var more := w + {c};
      forall d | d in more
        ensures MaySucceed(who, free, more, d)
      {
        assert MaySucceed(who, free, w, d);
      }
      assert Stable(who, free, more) && c in more;
    }
  }

  /** Each ring[i] is occupied by a unit that wants to move onto the next cell of
      the ring, and nobody outside wants to enter. */
  ghost predicate Ring(who: Intents, free: set<Cell>, ring: seq<Cell>) {
    && |ring| >= 3 && Distinct(ring)
    && (forall i :: 0 <= i < |ring| ==> ring[i] in free && Wants(who, ring[i], ring[Next(i, |ring|)]))
    && (forall o, c :: o in who && c in ring && Wants(who, o, c) ==> o in ring)
  }

  ghost predicate Wants(who: Intents, from: Cell, to: Cell) {
    from in who && who[from].Some? && Toward(from, who[from].value) == to
  }

  function Next(i: nat, n: nat): nat {
    if i + 1 == n then 0 else i + 1
  }

  /** Only the predecessor in the ring wants a ring cell. */
  lemma RingTargetsAreUnique(who: Intents, free: set<Cell>, ring: seq<Cell>, i: nat, o: Cell)
    requires Ring(who, free, ring) && i < |ring| && Wants(who, o, ring[Next(i, |ring|)])
    ensures o == ring[i]
  {
    assert o in ring;
    var j :| 0 <= j < |ring| && ring[j] == o;
    assert Wants(who, o, ring[Next(j, |ring|)]);
    assert Next(j, |ring|) == Next(i, |ring|);
  }

  /** A ring of at least three units moves as a whole. */
  lemma RingMoves(who: Intents, free: set<Cell>, ring: seq<Cell>)
    requires Ring(who, free, ring)
    ensures forall i :: 0 <= i < |ring| ==> ring[i] in Winners(who, free)
  {
    var n := |ring|;
    var moving := set i | 0 <= i < n :: ring[i];
    forall c | c in moving
      ensures MaySucceed(who, free, moving, c)
    {
      var i :| 0 <= i < n && ring[i] == c;
      var t := ring[Next(i, n)];
      assert Wants(who, c, t);
      forall o | o in who && o != c && who[o].Some?
        ensures Toward(o, who[o].value) != t
      {
        if Wants(who, o, t) {
          RingTargetsAreUnique(who, free, ring, i, o);
        }
      }
      assert Wants(who, t, ring[Next(Next(i, n), n)]);
      assert Next(Next(i, n), n) != i;
    }
    assert Stable(who, free, moving);
    WinnersIsGreatestFixedPoint(who, free);
  }

  /** Two units that move into each other both stay. */
  lemma HeadOnStays(who: Intents, free: set<Cell>, a: Cell, b: Cell)
    requires a in who && who[a].Some? && Toward(a, who[a].value) == b
    requires b in who && who[b].Some? && Toward(b, who[b].value) == a
    ensures a !in Winners(who, free) && b !in Winners(who, free)
  {
    WinnersIsGreatestFixedPoint(who, free);
    assert !MaySucceed(who, free, Winners(who, free), a);
    assert !MaySucceed(who, free, Winners(who, free), b);
  }

  /** Where the unit standing on c ends up. */
  ghost function Destination(who: Intents, free: set<Cell>, c: Cell): Cell
    requires c in who
  {
    if c in Winners(who, free) && who[c].Some? then Toward(c, who[c].value) else c
  }

  /** Carrying out the winning moves is collision free: no two units end on one
      cell, movers end on free cells, and whoever stood there has left. */
  lemma DestinationsAreDistinct(who: Intents, free: set<Cell>)
    ensures forall a, b :: a in who && b in who && a != b ==>
                             Destination(who, free, a) != Destination(who, free, b)
    ensures forall a :: a in Winners(who, free) ==>
                          && a in who && who[a].Some? && Toward(a, who[a].value) in free
                          && (Toward(a, who[a].value) in who ==> Toward(a, who[a].value) in Winners(who, free))
  {
    var w := Winners(who, free);
    WinnersIsGreatestFixedPoint(who, free);
    forall a, b | a in who && b in who && a != b
      ensures Destination(who, free, a) != Destination(who, free, b)
    {
      assert a in w ==> MaySucceed(who, free, w, a);
      assert b in w ==> MaySucceed(who, free, w, b);
    }
    forall a | a in w
      ensures a in who && who[a].Some? && Toward(a, who[a].value) in free
      ensures Toward(a, who[a].value) in who ==> Toward(a, who[a].value) in w
    {
      assert MaySucceed(who, free, w, a);
    }
  }
}

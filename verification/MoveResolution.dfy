/**
 The vector part of World::_processUnitMovement (src/world.cpp:402-447): cancel
 moves that share a target, then propagate cancellations along the dependency
 lists with a work queue. Neither loop touches the world.
 */
module MoveResolution {
  import opened Common
  import opened MovementRule

  /** One unit as the resolution sees it. */
  datatype Mover = Mover(at: Cell, move: Option<Direction>)

  ghost predicate Apart(movers: seq<Mover>) {
    forall i, j :: 0 <= i < j < |movers| ==> movers[i].at != movers[j].at
  }

  ghost function IntentsOf(movers: seq<Mover>): (who: Intents)
    requires Apart(movers)
    ensures forall i :: 0 <= i < |movers| ==> movers[i].at in who && who[movers[i].at] == movers[i].move
    ensures forall c :: c in who ==> exists i :: 0 <= i < |movers| && movers[i].at == c
  {
    map i | 0 <= i < |movers| :: movers[i].at := movers[i].move
  }

  /** The listing order of the units plays no part in the intents. */
  lemma IntentsIgnoreOrder(a: seq<Mover>, b: seq<Mover>)
    requires Apart(a) && Apart(b) && forall m :: m in a <==> m in b
    ensures IntentsOf(a) == IntentsOf(b)
  {
    IntentsIncluded(a, b);
    IntentsIncluded(b, a);
  }

  lemma IntentsIncluded(a: seq<Mover>, b: seq<Mover>)
    requires Apart(a) && Apart(b) && forall m :: m in a ==> m in b
    ensures forall c :: c in IntentsOf(a) ==> c in IntentsOf(b) && IntentsOf(b)[c] == IntentsOf(a)[c]
  {
    forall c | c in IntentsOf(a)
      ensures c in IntentsOf(b) && IntentsOf(b)[c] == IntentsOf(a)[c]
    {
      var i :| 0 <= i < |a| && a[i].at == c;
      assert a[i] in b;
      var j :| 0 <= j < |b| && b[j] == a[i];
    }
  }

  /** What the first scan checks for one unit (src/world.cpp:317-369). */
  ghost predicate PassesScan(who: Intents, free: set<Cell>, c: Cell) {
    && c in who && who[c].Some?
    && var t := Toward(c, who[c].value);
       && t in free
       && (t in who ==> who[t].Some? && Toward(t, who[t].value) != c)
  }

  ghost function Verdicts(who: Intents, movers: seq<Mover>, free: set<Cell>): seq<bool> {
    seq(|movers|, i requires 0 <= i < |movers| => PassesScan(who, free, movers[i].at))
  }

  ghost function Targets(movers: seq<Mover>, verdicts: seq<bool>): seq<Cell>
    requires |verdicts| == |movers|
  {
    seq(|movers|, i requires 0 <= i < |movers| => if verdicts[i] then TargetOf(movers[i]) else movers[i].at)
  }

  // ---- Step 4: moves that share a target ----

  ghost predicate Shared(tgt: seq<Cell>, active: seq<bool>, i: int)
    requires |tgt| == |active|
  {
    exists j :: 0 <= j < |tgt| && j != i && active[j] && 0 <= i < |tgt| && tgt[j] == tgt[i]
  }

  method CancelShared(tgt: seq<Cell>, active: seq<bool>) returns (kept: seq<bool>)
    requires |tgt| == |active|
    ensures |kept| == |active|
    ensures forall i :: 0 <= i < |kept| ==> (kept[i] <==> active[i] && !Shared(tgt, active, i))
  {
    var targeted: set<Cell>, cancelled: set<Cell> := {}, {};
    for i := 0 to |active|
      invariant forall c :: c in targeted <==> exists j :: 0 <= j < i && active[j] && tgt[j] == c
      invariant forall c :: c in cancelled <==>
                              exists j, k :: 0 <= j < k < i && active[j] && active[k] && tgt[j] == c && tgt[k] == c
    {
      if active[i] {
        if tgt[i] in targeted {
          cancelled := cancelled + {tgt[i]};
        } else {
          targeted := targeted + {tgt[i]};
        }
      }
    }
    kept := active;
    for i := 0 to |active|
      invariant |kept| == |active|
      invariant forall k :: i <= k < |active| ==> kept[k] == active[k]
      invariant forall k :: 0 <= k < i ==> (kept[k] <==> active[k] && tgt[k] !in cancelled)
    {
      if active[i] && tgt[i] in cancelled {
        kept := kept[i := false];
      }
    }
    forall i | 0 <= i < |active| && active[i]
      ensures tgt[i] in cancelled <==> Shared(tgt, active, i)
    {
      if Shared(tgt, active, i) {
        var j :| 0 <= j < |tgt| && j != i && active[j] && tgt[j] == tgt[i];
        assert j < i || i < j;
      }
    }
  }

  // ---- Step 5: propagate cancellations ----

  /** The dependency lists: d is listed under k when d waits for k to leave. */
  type Lists = seq<seq<nat>>

  ghost predicate Waits(lists: Lists, d: int, k: int) {
    0 <= k < |lists| && d in lists[k]
  }

  ghost predicate InRange(lists: Lists, n: nat) {
    |lists| == n && forall k, m :: 0 <= k < n && 0 <= m < |lists[k]| ==> lists[k][m] < n
  }

  /** keep could survive: it starts active, and whoever one of its members waits
      for is a member too. */
  ghost predicate Survives(keep: set<int>, active: seq<bool>, lists: Lists) {
    && (forall i :: i in keep ==> 0 <= i < |active| && active[i])
    && (forall k, d :: Waits(lists, d, k) && d in keep ==> k in keep)
  }

  ghost function CountTrue(s: seq<bool>): nat {
    if s == [] then 0 else (if s[0] then 1 else 0) + CountTrue(s[1..])
  }

  lemma {:induction false} CountAfterClear(s: seq<bool>, i: nat)
    requires i < |s| && s[i]
    ensures CountTrue(s[i := false]) + 1 == CountTrue(s)
  {
    if i > 0 {
      assert s[i := false][1..] == s[1..][i - 1 := false];
      CountAfterClear(s[1..], i - 1);
    }
  }

  /** Nothing that could survive has been cancelled, and cancellation only takes
      moves away. */
  ghost predicate Sound(active: seq<bool>, lists: Lists, kept: seq<bool>) {
    && |kept| == |active|
    && (forall i :: 0 <= i < |kept| && kept[i] ==> active[i])
    && (forall keep, i :: Survives(keep, active, lists) && i in keep ==> kept[i])
  }

  ghost predicate AllCancelled(kept: seq<bool>, queue: seq<nat>) {
    forall m :: 0 <= m < |queue| ==> queue[m] < |kept| && !kept[queue[m]]
  }

  /** Every surviving move waits only for surviving or still queued moves. */
  ghost predicate PendingIn(lists: Lists, kept: seq<bool>, queue: seq<nat>) {
    forall k, d :: Waits(lists, d, k) && k < |kept| && 0 <= d < |kept| && kept[d] && !kept[k] ==> k in queue
  }

  /** The work queue loop. What is left is the greatest set that could survive. */
  method Propagate(active: seq<bool>, lists: Lists) returns (kept: seq<bool>)
    requires InRange(lists, |active|)
    ensures Sound(active, lists, kept)
    ensures PendingIn(lists, kept, [])
  {
    kept := active;
    var queue: seq<nat> := [];
    for i := 0 to |active|
      invariant AllCancelled(kept, queue)
      invariant forall q :: 0 <= q < i && !active[q] ==> q in queue
    {
      if !active[i] {
        queue := queue + [i];
      }
    }
    while queue != []
      invariant Sound(active, lists, kept)
      invariant AllCancelled(kept, queue)
      invariant PendingIn(lists, kept, queue)
      decreases CountTrue(kept) + |queue|
    {
      assert queue == [queue[0]] + queue[1..];
      kept, queue := CancelDependents(active, lists, kept, queue[0], queue[1..]);
    }
  }

  /** One turn of the work queue: cancel everyone who waits for `curr`. */
  method CancelDependents(active: seq<bool>, lists: Lists, was: seq<bool>, curr: nat, rest: seq<nat>)
    returns (kept: seq<bool>, queue: seq<nat>)
    requires InRange(lists, |active|) && Sound(active, lists, was)
    requires AllCancelled(was, [curr] + rest) && PendingIn(lists, was, [curr] + rest)
    ensures Sound(active, lists, kept)
    ensures AllCancelled(kept, queue) && PendingIn(lists, kept, queue)
    ensures CountTrue(kept) + |queue| == CountTrue(was) + |rest|
  {
    assert ([curr] + rest)[0] == curr;
    assert !was[curr];
    assert forall m :: 0 <= m < |rest| ==> ([curr] + rest)[m + 1] == rest[m];
    kept, queue := was, rest;
    for n := 0 to |lists[curr]|
      invariant Sound(active, lists, kept) && !kept[curr]
      invariant AllCancelled(kept, [curr] + queue)
      invariant forall m :: 0 <= m < n ==> !kept[lists[curr][m]]
      invariant PendingIn(lists, kept, [curr] + queue)
      invariant CountTrue(kept) + |queue| == CountTrue(was) + |rest|
    {
      var dep := lists[curr][n];
      if kept[dep] {
        DependentCannotSurvive(active, lists, kept, curr, dep);
        CountAfterClear(kept, dep);
        kept := kept[dep := false];
        assert [curr] + (queue + [dep]) == ([curr] + queue) + [dep];
        queue := queue + [dep];
      }
    }
    assert forall m :: 0 <= m < |queue| ==> ([curr] + queue)[m + 1] == queue[m];
  }

  lemma DependentCannotSurvive(active: seq<bool>, lists: Lists, kept: seq<bool>, k: nat, d: nat)
    requires Sound(active, lists, kept) && k < |kept| && !kept[k] && Waits(lists, d, k)
    ensures forall keep :: Survives(keep, active, lists) ==> d !in keep
  {
    forall keep | Survives(keep, active, lists)
      ensures d !in keep
    {
    }
  }

  // ---- The steps together compute the rule ----

  ghost function TargetOf(m: Mover): Cell {
    if m.move.Some? then Toward(m.at, m.move.value) else m.at
  }

  /** who lists exactly the movers. */
  ghost predicate Describes(who: Intents, movers: seq<Mover>) {
    && (forall i :: 0 <= i < |movers| ==> movers[i].at in who && who[movers[i].at] == movers[i].move)
    && (forall c :: c in who ==> exists i :: 0 <= i < |movers| && movers[i].at == c)
  }

  /** tgt and scanned are what the first scan leaves behind. */
  ghost predicate ScanDone(who: Intents, movers: seq<Mover>, free: set<Cell>, tgt: seq<Cell>, scanned: seq<bool>) {
    && |tgt| == |scanned| == |movers|
    && (forall i :: 0 <= i < |movers| ==> (scanned[i] <==> PassesScan(who, free, movers[i].at)))
    && (forall i :: 0 <= i < |movers| && scanned[i] ==> tgt[i] == TargetOf(movers[i]))
  }

  /** The dependency lists hold one entry per scanned move onto an occupied cell. */
  ghost predicate ListsDone(movers: seq<Mover>, tgt: seq<Cell>, scanned: seq<bool>, lists: Lists) {
    && |tgt| == |scanned| == |movers| == |lists|
    && (forall k, d :: 0 <= k < |movers| ==>
          (Waits(lists, d, k) <==> 0 <= d < |movers| && scanned[d] && tgt[d] == movers[k].at))
  }

  ghost predicate SharedDone(tgt: seq<Cell>, scanned: seq<bool>, alone: seq<bool>) {
    && |tgt| == |scanned| == |alone|
    && (forall i :: 0 <= i < |alone| ==> (alone[i] <==> scanned[i] && !Shared(tgt, scanned, i)))
  }

  /** The scan, the shared-target step and the propagation keep exactly the moves
      the written rule lets through. */
  lemma StepsComputeTheRule(movers: seq<Mover>, free: set<Cell>, tgt: seq<Cell>, scanned: seq<bool>,
                            alone: seq<bool>, lists: Lists, kept: seq<bool>)
    requires Apart(movers)
    requires ScanDone(IntentsOf(movers), movers, free, tgt, scanned)
    requires ListsDone(movers, tgt, scanned, lists)
    requires SharedDone(tgt, scanned, alone)
    requires Sound(alone, lists, kept) && PendingIn(lists, kept, [])
    ensures |kept| == |movers|
    ensures forall i :: 0 <= i < |movers| ==> (kept[i] <==> movers[i].at in Winners(IntentsOf(movers), free))
  {
    KeptAreWinners(IntentsOf(movers), movers, free, tgt, scanned, alone, lists, kept);
    WinnersAreKept(IntentsOf(movers), movers, free, tgt, scanned, alone, lists, kept);
  }

  /** A kept move waits only for a kept move. */
  lemma OccupantOfKept(movers: seq<Mover>, tgt: seq<Cell>, scanned: seq<bool>, lists: Lists, kept: seq<bool>,
                       i: nat, k: nat)
    requires ListsDone(movers, tgt, scanned, lists) && |kept| == |movers| && PendingIn(lists, kept, [])
    requires i < |movers| && k < |movers| && kept[i] && scanned[i] && tgt[i] == movers[k].at
    ensures kept[k]
  {
    assert Waits(lists, i, k);
  }

  /** Nobody else intends to enter the target of a kept move, although the code
      only compares moves that pass the scan. */
  lemma KeptTargetIsUnique(who: Intents, movers: seq<Mover>, free: set<Cell>, tgt: seq<Cell>, scanned: seq<bool>,
                           alone: seq<bool>, lists: Lists, kept: seq<bool>, i: nat, j: nat)
    requires Describes(who, movers) && ScanDone(who, movers, free, tgt, scanned)
    requires ListsDone(movers, tgt, scanned, lists) && SharedDone(tgt, scanned, alone)
    requires Sound(alone, lists, kept) && PendingIn(lists, kept, [])
    requires i < |movers| && j < |movers| && i != j && kept[i] && movers[j].move.Some?
    ensures TargetOf(movers[j]) != tgt[i]
  {
    assert alone[i] && scanned[i] && PassesScan(who, free, movers[i].at);
    if scanned[j] {
      assert !Shared(tgt, scanned, i);
    } else if TargetOf(movers[j]) == tgt[i] {
      // j fails the scan, so it must be head-on with the occupant of the target ...
      var t := tgt[i];
      assert !PassesScan(who, free, movers[j].at);
      assert t in who && Toward(t, who[t].value) == movers[j].at;
      var k :| 0 <= k < |movers| && movers[k].at == t;
      // ... but then that occupant is head-on with j, and yet it moves.
      OccupantOfKept(movers, tgt, scanned, lists, kept, i, k);
    }
  }

  lemma KeptAreWinners(who: Intents, movers: seq<Mover>, free: set<Cell>, tgt: seq<Cell>, scanned: seq<bool>,
                       alone: seq<bool>, lists: Lists, kept: seq<bool>)
    requires Describes(who, movers) && ScanDone(who, movers, free, tgt, scanned)
    requires ListsDone(movers, tgt, scanned, lists) && SharedDone(tgt, scanned, alone)
    requires Sound(alone, lists, kept) && PendingIn(lists, kept, [])
    ensures forall i :: 0 <= i < |kept| && kept[i] ==> movers[i].at in Winners(who, free)
  {
    var moving := set i | 0 <= i < |kept| && kept[i] :: movers[i].at;
    forall c | c in moving
      ensures MaySucceed(who, free, moving, c)
    {
      var i :| 0 <= i < |kept| && kept[i] && movers[i].at == c;
      assert alone[i] && scanned[i] && PassesScan(who, free, c);
      var t := tgt[i];
      if t in who {
        var k :| 0 <= k < |movers| && movers[k].at == t;
        OccupantOfKept(movers, tgt, scanned, lists, kept, i, k);
      }
      forall o | o in who && o != c && who[o].Some?
        ensures Toward(o, who[o].value) != t
      {
        var j :| 0 <= j < |movers| && movers[j].at == o;
        KeptTargetIsUnique(who, movers, free, tgt, scanned, alone, lists, kept, i, j);
      }
    }
    assert Stable(who, free, moving);
    WinnersIsGreatestFixedPoint(who, free);
  }

  lemma WinnersAreKept(who: Intents, movers: seq<Mover>, free: set<Cell>, tgt: seq<Cell>, scanned: seq<bool>,
                       alone: seq<bool>, lists: Lists, kept: seq<bool>)
    requires Apart(movers) && Describes(who, movers) && ScanDone(who, movers, free, tgt, scanned)
    requires ListsDone(movers, tgt, scanned, lists) && SharedDone(tgt, scanned, alone)
    requires Sound(alone, lists, kept)
    ensures forall i :: 0 <= i < |kept| && movers[i].at in Winners(who, free) ==> kept[i]
  {
    var w := Winners(who, free);
    WinnersIsGreatestFixedPoint(who, free);
    var keep := set i | 0 <= i < |movers| && movers[i].at in w;
    forall i | i in keep
      ensures alone[i]
    {
      WinnerPassesBothSteps(who, movers, free, tgt, scanned, w, i);
    }
    forall k, d | Waits(lists, d, k) && d in keep
      ensures k in keep
    {
      assert MaySucceed(who, free, w, movers[d].at);
      assert tgt[d] == movers[k].at;
    }
    assert Survives(keep, alone, lists);
  }

  lemma WinnerPassesBothSteps(who: Intents, movers: seq<Mover>, free: set<Cell>, tgt: seq<Cell>, scanned: seq<bool>,
                              w: set<Cell>, i: nat)
    requires Apart(movers) && Describes(who, movers) && ScanDone(who, movers, free, tgt, scanned)
    requires i < |movers| && MaySucceed(who, free, w, movers[i].at)
    ensures scanned[i] && !Shared(tgt, scanned, i)
  {
    assert PassesScan(who, free, movers[i].at);
    forall j | 0 <= j < |movers| && j != i && scanned[j]
      ensures tgt[j] != tgt[i]
    {
      assert PassesScan(who, free, movers[j].at);
      assert movers[j].at != movers[i].at;
    }
  }
}

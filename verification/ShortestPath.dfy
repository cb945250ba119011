/**
 Shortest walks on a board, and what a breadth-first search knows while it runs:
 the cells in its queue with their distances and first steps.
 */
module ShortestPath {
  import opened Common
  import opened Counting

  /** The directions in the order of their numbers (corelib/corelib.h). */
  const DIRECTIONS: seq<Direction> := [Up, Right, Down, Left]

  function Step(c: Cell, dir: int): Cell
    requires 0 <= dir < 4
  {
    Toward(c, DIRECTIONS[dir])
  }

  /** A start cell and the cells that can be entered. The start need not be one. */
  datatype Maze = Maze(width: nat, height: nat, open: set<Cell>, start: Cell) {

    predicate Inside(c: Cell) {
      0 <= c.x < width && 0 <= c.y < height
    }

    ghost predicate Valid() {
      Inside(start) && forall c :: c in open ==> Inside(c)
    }

    ghost predicate Enters(from: Cell, to: Cell) {
      to in open && exists dir :: 0 <= dir < 4 && to == Step(from, dir)
    }

    /** A walk from the start that only enters open cells. */
    ghost predicate Walk(p: seq<Cell>) {
      |p| > 0 && p[0] == start && forall i :: 0 <= i < |p| - 1 ==> Enters(p[i], p[i + 1])
    }

    /** The last cell of a walk of n steps; the first step is in direction first. */
    ghost predicate Leads(p: seq<Cell>, c: Cell, n: nat, first: int) {
      && Walk(p) && |p| == n + 1 && p[n] == c
      && if n == 0 then first == -1 else 0 <= first < 4 && p[1] == Step(start, first)
    }

    ghost predicate Reaches(c: Cell, n: nat, first: int) {
      exists p :: Leads(p, c, n, first)
    }

    lemma StartIsReached()
      ensures Reaches(start, 0, -1)
    {
      assert Leads([start], start, 0, -1);
    }

    lemma OneStepOn(c: Cell, n: nat, first: int, dir: int)
      requires 0 <= dir < 4 && Reaches(c, n, first) && Step(c, dir) in open
      ensures Reaches(Step(c, dir), n + 1, if n == 0 then dir else first)
    {
      var p :| Leads(p, c, n, first);
      var to := Step(c, dir);
      WalkOn(p, to, dir);
      assert (p + [to])[n + 1] == to;
      if n > 0 {
        assert (p + [to])[1] == p[1];
      }
      assert Leads(p + [to], to, n + 1, if n == 0 then dir else first);
    }

    lemma WalkOn(p: seq<Cell>, to: Cell, dir: int)
      requires Walk(p) && 0 <= dir < 4 && to == Step(p[|p| - 1], dir) && to in open
      ensures Walk(p + [to])
    {
      var q := p + [to];
      forall i | 0 <= i < |q| - 1
        ensures Enters(q[i], q[i + 1])
      {
        if i < |p| - 1 {
          assert Enters(p[i], p[i + 1]);
        }
      }
    }

    lemma WalkBack(p: seq<Cell>)
      requires Walk(p) && |p| > 1
      ensures Walk(p[..|p| - 1]) && Enters(p[|p| - 2], p[|p| - 1])
    {
      var q := p[..|p| - 1];
      forall i | 0 <= i < |q| - 1
        ensures Enters(q[i], q[i + 1])
      {
        assert Enters(p[i], p[i + 1]);
      }
      assert Enters(p[|p| - 2], p[|p| - 2 + 1]);
    }

    lemma NoStepsNoMove(c: Cell, first: int)
      requires Reaches(c, 0, first)
      ensures c == start && first == -1
    {
      var p :| Leads(p, c, 0, first);
    }
  }

  // ---- The search ----

  /** Queued cells in order, with the length of a walk to each and its first step. */
  datatype Trail = Trail(order: seq<Cell>, dist: seq<nat>, first: seq<int>) {

    predicate Shaped() {
      |order| == |dist| == |first|
    }

    function Plus(c: Cell, n: nat, dir: int): Trail {
      Trail(order + [c], dist + [n], first + [dir])
    }
  }

  ghost predicate TrailOk(m: Maze, t: Trail, head: nat) {
    && t.Shaped() && head <= |t.order| && |t.order| > 0
    && t.order[0] == m.start && t.dist[0] == 0
    && Distinct(t.order)
    && (forall j :: 0 <= j < |t.order| ==> m.Inside(t.order[j]) && m.Reaches(t.order[j], t.dist[j], t.first[j]))
    && (forall i, j :: 0 <= i < j < |t.order| ==> t.dist[i] <= t.dist[j])
    && (head < |t.order| ==> forall j :: 0 <= j < |t.order| ==> t.dist[j] <= t.dist[head] + 1)
  }

  /** The neighbour of queue entry k in direction dir is queued, at most one step farther. */
  ghost predicate Tried(m: Maze, t: Trail, k: nat, dir: int)
    requires t.Shaped() && k < |t.order| && 0 <= dir < 4
  {
    Step(t.order[k], dir) in m.open ==> exists j :: 0 <= j < |t.order| && t.order[j] == Step(t.order[k], dir) && t.dist[j] <= t.dist[k] + 1
  }

  ghost predicate Processed(m: Maze, t: Trail, head: nat)
    requires t.Shaped() && head <= |t.order|
  {
    forall k, dir :: 0 <= k < head && 0 <= dir < 4 ==> Tried(m, t, k, dir)
  }

  lemma StartTrail(m: Maze)
    requires m.Valid()
    ensures TrailOk(m, Trail([m.start], [0], [-1]), 0) && Processed(m, Trail([m.start], [0], [-1]), 0)
  {
    m.StartIsReached();
  }

  /** Queueing a new neighbour of the head. */
  lemma Queue(m: Maze, t: Trail, head: nat, dir: int)
    requires m.Valid() && TrailOk(m, t, head) && head < |t.order| && 0 <= dir < 4
    requires Step(t.order[head], dir) in m.open && Step(t.order[head], dir) !in t.order
    ensures var u := t.Plus(Step(t.order[head], dir), t.dist[head] + 1, if head == 0 then dir else t.first[head]);
            TrailOk(m, u, head) && Tried(m, u, head, dir)
  {
    var n := Step(t.order[head], dir);
    var way := if head == 0 then dir else t.first[head];
    LaterIsFarther(m, t, head);
    m.OneStepOn(t.order[head], t.dist[head], t.first[head], dir);
    var u := t.Plus(n, t.dist[head] + 1, way);
    assert u.order[|t.order|] == n;
  }

  /** Only the start is at distance 0. */
  lemma LaterIsFarther(m: Maze, t: Trail, k: nat)
    requires TrailOk(m, t, k) && k < |t.order|
    ensures t.dist[k] == 0 <==> k == 0
  {
    if t.dist[k] == 0 {
      m.NoStepsNoMove(t.order[k], t.first[k]);
    }
  }

  /** What was tried stays tried as the queue grows. */
  lemma StaysTried(m: Maze, t: Trail, c: Cell, n: nat, way: int, k: nat, dir: int)
    requires t.Shaped() && k < |t.order| && 0 <= dir < 4 && Tried(m, t, k, dir)
    ensures t.Plus(c, n, way).Shaped() && Tried(m, t.Plus(c, n, way), k, dir)
  {
    if Step(t.order[k], dir) in m.open {
      var j :| 0 <= j < |t.order| && t.order[j] == Step(t.order[k], dir) && t.dist[j] <= t.dist[k] + 1;
      assert t.Plus(c, n, way).order[j] == t.order[j] && t.Plus(c, n, way).dist[j] == t.dist[j];
    }
  }

  lemma SeenIsTried(m: Maze, t: Trail, head: nat, dir: int)
    requires TrailOk(m, t, head) && head < |t.order| && 0 <= dir < 4 && Step(t.order[head], dir) in t.order
    ensures Tried(m, t, head, dir)
  {
  }

  /** The head's neighbour in direction dir queued: nothing tried before is lost. */
  lemma QueuedIsTried(m: Maze, t: Trail, head: nat, dir: int, done: seq<int>)
    requires m.Valid() && TrailOk(m, t, head) && Processed(m, t, head) && head < |t.order| && 0 <= dir < 4
    requires Step(t.order[head], dir) in m.open && Step(t.order[head], dir) !in t.order
    requires forall d :: d in done ==> 0 <= d < 4 && Tried(m, t, head, d)
    ensures var u := t.Plus(Step(t.order[head], dir), t.dist[head] + 1, if head == 0 then dir else t.first[head]);
            && u.Shaped() && TrailOk(m, u, head) && Processed(m, u, head) && Tried(m, u, head, dir)
            && forall d :: d in done ==> Tried(m, u, head, d)
  {
    hide TrailOk, Toward;
    Shape(m, t, head);
    Queue(m, t, head, dir);
    var c, n, way := Step(t.order[head], dir), t.dist[head] + 1, if head == 0 then dir else t.first[head];
    forall k, d | 0 <= k < head && 0 <= d < 4
      ensures t.Plus(c, n, way).Shaped() && Tried(m, t.Plus(c, n, way), k, d)
    {
      StaysTried(m, t, c, n, way, k, d);
    }
    forall d | d in done
      ensures t.Plus(c, n, way).Shaped() && Tried(m, t.Plus(c, n, way), head, d)
    {
      StaysTried(m, t, c, n, way, head, d);
    }
  }

  lemma Shape(m: Maze, t: Trail, head: nat)
    requires TrailOk(m, t, head)
    ensures t.Shaped() && head <= |t.order|
  {
  }

  lemma HeadMovesOn(m: Maze, t: Trail, head: nat)
    requires TrailOk(m, t, head) && Processed(m, t, head) && head < |t.order|
    requires forall dir :: 0 <= dir < 4 ==> Tried(m, t, head, dir)
    ensures TrailOk(m, t, head + 1) && Processed(m, t, head + 1)
  {
    hide m.Reaches, Toward;
  }

  /** The queue never holds more cells than the board. */
  lemma QueueFits(m: Maze, t: Trail, head: nat)
    requires TrailOk(m, t, head)
    ensures |t.order| <= m.width * m.height
  {
    hide m.Reaches;
    DistinctCellsFit(t.order, m.width, m.height);
  }

  // ---- Shortest ----

  /** A walk that is no longer than the head's distance, or any walk once the queue is
      used up, ends in a queued cell no farther than it is long. */
  lemma {:induction false} WalkIsQueued(m: Maze, t: Trail, head: nat, p: seq<Cell>) returns (k: nat)
    requires TrailOk(m, t, head) && Processed(m, t, head) && m.Walk(p)
    requires head < |t.order| ==> |p| - 1 <= t.dist[head]
    ensures k < |t.order| && t.order[k] == p[|p| - 1] && t.dist[k] <= |p| - 1
    decreases |p|
  {
    hide m.Reaches, Toward;
    if |p| == 1 {
      k := 0;
    } else {
      var q, to := p[..|p| - 1], p[|p| - 1];
      m.WalkBack(p);
      var i := WalkIsQueued(m, t, head, q);
      assert i < head;
      var dir :| 0 <= dir < 4 && to == Step(q[|q| - 1], dir);
      assert Tried(m, t, i, dir);
      k :| 0 <= k < |t.order| && t.order[k] == Step(t.order[i], dir) && t.dist[k] <= t.dist[i] + 1;
    }
  }

  /** c is reached by n steps starting with first, and no target by fewer. */
  ghost predicate Nearest(m: Maze, targets: set<Cell>, c: Cell, n: nat, first: int) {
    c in targets && m.Reaches(c, n, first) && forall p :: m.Walk(p) && p[|p| - 1] in targets ==> |p| - 1 >= n
  }

  /** The first target taken from the queue is a nearest one. */
  lemma HeadIsNearest(m: Maze, targets: set<Cell>, t: Trail, head: nat)
    requires TrailOk(m, t, head) && Processed(m, t, head) && head < |t.order| && t.order[head] in targets
    requires forall k :: 0 <= k < head ==> t.order[k] !in targets
    ensures Nearest(m, targets, t.order[head], t.dist[head], t.first[head])
  {
    forall p | m.Walk(p) && p[|p| - 1] in targets
      ensures |p| - 1 >= t.dist[head]
    {
      if |p| - 1 < t.dist[head] {
        var k := WalkIsQueued(m, t, head, p);
      }
    }
  }

  /** A queue used up without a target: no walk leads to one. */
  lemma NoTargetReached(m: Maze, targets: set<Cell>, t: Trail)
    requires TrailOk(m, t, |t.order|) && Processed(m, t, |t.order|)
    requires forall k :: 0 <= k < |t.order| ==> t.order[k] !in targets
    ensures forall p :: m.Walk(p) ==> p[|p| - 1] !in targets
  {
    forall p | m.Walk(p)
      ensures p[|p| - 1] !in targets
    {
      var k := WalkIsQueued(m, t, |t.order|, p);
    }
  }
}

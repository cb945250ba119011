/**
 How a harvester finds its way (corelib/example/harvester.c:82-344): breadth-first
 search over the part of the map it knows, with the neighbours tried in a random
 order.
 */
module Harvester {
  import opened Common
  import opened TileMap
  import opened ShortestPath

  const TERRAIN_WATER := 1
  const TERRAIN_OBSTACLE := 3

  datatype Mode = Explore | ToResource | ToBase | Scout

  /** What is remembered of a cell. */
  datatype Spot = Spot(known: bool, terrain: u8, resource: bool, base: bool)

  /** What is sensed of a cell nearby. */
  datatype Sensed = Sensed(visible: bool, hasUnit: bool)

  /** The remembered map row by row, and the square of side 2 * radius + 1 around the
      unit that it senses. */
  datatype Knowledge = Knowledge(width: nat, height: nat, spots: seq<Spot>, at: Cell, radius: nat, sensed: seq<Sensed>) {

    predicate Valid() {
      && 1 <= width <= 64 && 1 <= height <= 64 && |spots| == width * height
      && |sensed| == (2 * radius + 1) * (2 * radius + 1)
    }

    predicate InBounds(c: Cell) {
      0 <= c.x < width && 0 <= c.y < height
    }

    function Index(c: Cell): (i: nat)
      requires InBounds(c)
      ensures i < width * height
    {
      IndexFits(c.x, c.y, width, height);
      c.y * width + c.x
    }

    function SpotAt(c: Cell): Spot
      requires Valid() && InBounds(c)
    {
      spots[Index(c)]
    }

    predicate IsWalkableKnown(c: Cell)
      requires Valid()
    {
      InBounds(c) && SpotAt(c).known && SpotAt(c).terrain != TERRAIN_WATER && SpotAt(c).terrain != TERRAIN_OBSTACLE
    }

    predicate IsVisibleOtherUnit(c: Cell)
      requires Valid()
    {
      var side := 2 * radius + 1;
      var sx, sy := c.x - at.x + radius, c.y - at.y + radius;
      if sx < 0 || sx >= side || sy < 0 || sy >= side then false
      else
        IndexFits(sx, sy, side, side);
        var s := sensed[sy * side + sx];
        s.visible && s.hasUnit && c != at
    }

    predicate IsPathWalkable(c: Cell)
      requires Valid()
    {
      IsWalkableKnown(c) && !IsVisibleOtherUnit(c)
    }

    /** A cell on the edge of what is known. */
    ghost predicate Frontier(c: Cell)
      requires Valid()
    {
      exists dir :: 0 <= dir < 4 && Unknown(Step(c, dir))
    }

    predicate Unknown(c: Cell)
      requires Valid()
    {
      InBounds(c) && !SpotAt(c).known
    }

    ghost predicate KnowsBase()
      requires Valid()
    {
      exists c :: InBounds(c) && SpotAt(c).base
    }

    /** Where a unit in the given mode wants to be. */
    ghost predicate Target(c: Cell, mode: Mode, goal: Cell)
      requires Valid() && InBounds(c)
    {
      match mode
      case ToResource => SpotAt(c).resource
      case ToBase => if KnowsBase() then SpotAt(c).base else c == goal
      case Explore => Frontier(c)
      case Scout => Frontier(c)
    }

    ghost function Cells(): (cells: set<Cell>)
      ensures forall c :: c in cells <==> InBounds(c)
    {
      var cells := set x, y | 0 <= x < width && 0 <= y < height :: Cell(x, y);
      assert forall c :: InBounds(c) ==> c == Cell(c.x, c.y);
      cells
    }

    ghost function Targets(mode: Mode, goal: Cell): set<Cell>
      requires Valid()
    {
      set c | c in Cells() && Target(c, mode, goal)
    }

    /** The walks open to the unit, from the given cell. */
    ghost function MazeFrom(start: Cell): (m: Maze)
      requires Valid() && InBounds(start)
      ensures m.Valid() && m.width == width && m.height == height && m.start == start
      ensures forall c :: c in m.open <==> IsPathWalkable(c)
    {
      Maze(width, height, (set c | c in Cells() && IsPathWalkable(c)), start)
    }
  }

  /** The map is remembered row by row. */
  lemma SpotsAreInRows(k: Knowledge, x: int, y: int)
    requires k.Valid() && 0 <= x < k.width && 0 <= y < k.height
    ensures 0 <= y * k.width + x < |k.spots| && k.SpotAt(Cell(x, y)) == k.spots[y * k.width + x]
  {
    IndexFits(x, y, k.width, k.height);
  }

  /** Another unit was sensed on c: it lies within the radius, and its place in the sensed
      square, row by row from the top left corner, says so. */
  ghost predicate SensedUnit(k: Knowledge, c: Cell) {
    exists n :: 0 <= n < |k.sensed| && k.sensed[n].visible && k.sensed[n].hasUnit && c != k.at
                && 0 <= c.x - k.at.x + k.radius <= 2 * k.radius && 0 <= c.y - k.at.y + k.radius <= 2 * k.radius
                && n == (c.y - k.at.y + k.radius) * (2 * k.radius + 1) + (c.x - k.at.x + k.radius)
  }

  /** A cell can be entered exactly if it is remembered as neither water nor obstacle and
      no other unit was sensed there. */
  lemma EnterableMeans(k: Knowledge, start: Cell, c: Cell)
    requires k.Valid() && k.InBounds(start)
    ensures c in k.MazeFrom(start).open <==>
              && 0 <= c.x < k.width && 0 <= c.y < k.height
              && k.SpotAt(c).known && k.SpotAt(c).terrain != 1 && k.SpotAt(c).terrain != 3
              && !SensedUnit(k, c)
  {
    var side := 2 * k.radius + 1;
    var sx, sy := c.x - k.at.x + k.radius, c.y - k.at.y + k.radius;
    if 0 <= sx < side && 0 <= sy < side {
      IndexFits(sx, sy, side, side);
      assert k.IsVisibleOtherUnit(c) <==> SensedUnit(k, c);
    }
  }

  /** So no walk enters a cell that is unknown, water, an obstacle or taken, and each of
      its steps is to a neighbour. */
  lemma WalksStayOnKnownGround(k: Knowledge, start: Cell, p: seq<Cell>, n: nat)
    requires k.Valid() && k.InBounds(start) && k.MazeFrom(start).Walk(p) && 1 <= n < |p|
    ensures var a, c := p[n - 1], p[n];
            && (c == Cell(a.x, a.y - 1) || c == Cell(a.x + 1, a.y) || c == Cell(a.x, a.y + 1) || c == Cell(a.x - 1, a.y))
            && 0 <= c.x < k.width && 0 <= c.y < k.height
            && k.SpotAt(c).known && k.SpotAt(c).terrain != 1 && k.SpotAt(c).terrain != 3
            && !SensedUnit(k, c)
  {
    EnterableMeans(k, start, p[n]);
    assert k.MazeFrom(start).Enters(p[n - 1], p[n - 1 + 1]);
  }

  /** Resources, bases if any is known and else the given cell, or cells next to unknown ones. */
  lemma TargetsMean(k: Knowledge, mode: Mode, goal: Cell, c: Cell)
    requires k.Valid() && k.InBounds(c)
    ensures c in k.Targets(mode, goal) <==>
              match mode
              case ToResource => k.SpotAt(c).resource
              case ToBase => if exists b :: k.InBounds(b) && k.SpotAt(b).base then k.SpotAt(c).base else c == goal
              case Explore => NextToUnknown(k, c)
              case Scout => NextToUnknown(k, c)
  {
    assert forall dir :: 0 <= dir < 4 ==>
        Step(c, dir) == [Cell(c.x, c.y - 1), Cell(c.x + 1, c.y), Cell(c.x, c.y + 1), Cell(c.x - 1, c.y)][dir];
    assert k.Unknown(Step(c, 0)) || k.Unknown(Step(c, 1)) || k.Unknown(Step(c, 2)) || k.Unknown(Step(c, 3)) <==> k.Frontier(c);
  }

  predicate NextToUnknown(k: Knowledge, c: Cell)
    requires k.Valid()
  {
    || (c.y - 1 >= 0 && c.y - 1 < k.height && 0 <= c.x < k.width && !k.SpotAt(Cell(c.x, c.y - 1)).known)
    || (c.x + 1 < k.width && c.x + 1 >= 0 && 0 <= c.y < k.height && !k.SpotAt(Cell(c.x + 1, c.y)).known)
    || (c.y + 1 < k.height && c.y + 1 >= 0 && 0 <= c.x < k.width && !k.SpotAt(Cell(c.x, c.y + 1)).known)
    || (c.x - 1 >= 0 && c.x - 1 < k.width && 0 <= c.y < k.height && !k.SpotAt(Cell(c.x - 1, c.y)).known)
  }

  method HasUnknownNeighbor(k: Knowledge, c: Cell) returns (r: bool)
    requires k.Valid()
    ensures r <==> k.Frontier(c)
  {
    for dir := 0 to 4
      invariant forall d :: 0 <= d < dir ==> !k.Unknown(Step(c, d))
    {
      var n := Step(c, dir);
      if !k.InBounds(n) {
        continue;
      }
      if !k.SpotAt(n).known {
        return true;
      }
    }
    return false;
  }

  method HasKnownBase(k: Knowledge) returns (r: bool)
    requires k.Valid()
    ensures r <==> k.KnowsBase()
  {
    for y := 0 to k.height
      invariant forall c :: k.InBounds(c) && c.y < y ==> !k.SpotAt(c).base
    {
      for x := 0 to k.width
        invariant forall c :: k.InBounds(c) && (c.y < y || (c.y == y && c.x < x)) ==> !k.SpotAt(c).base
      {
        if k.SpotAt(Cell(x, y)).base {
          return true;
        }
      }
    }
    return false;
  }

  method IsTargetCell(k: Knowledge, c: Cell, mode: Mode, goal: Cell) returns (r: bool)
    requires k.Valid() && k.InBounds(c)
    ensures r <==> c in k.Targets(mode, goal)
  {
    match mode
    case ToResource => return k.SpotAt(c).resource;
    case ToBase =>
      var base := HasKnownBase(k);
      if base {
        return k.SpotAt(c).base;
      }
      return c == goal;
    case Explore => r := HasUnknownNeighbor(k, c);
    case Scout => r := HasUnknownNeighbor(k, c);
  }

  // ---- The answer ----

  const NOWHERE := Cell(-1, -1)

  /** The direction of the first step of a shortest walk to a nearest target, or -1
      for a start that is one, with the target reached; or -1 if none can be reached. */
  ghost predicate Found(m: Maze, targets: set<Cell>, dir: int, target: Cell) {
    || (exists n :: Nearest(m, targets, target, n, dir))
    || (dir == -1 && target == NOWHERE && forall p :: m.Walk(p) ==> p[|p| - 1] !in targets)
  }

  /** -1 says that the start is itself a target, and then the nearest, or that no
      target can be reached, and nothing else. */
  lemma FoundMeans(m: Maze, targets: set<Cell>, dir: int, target: Cell)
    requires Found(m, targets, dir, target)
    ensures dir == -1 <==> m.start in targets || forall p :: m.Walk(p) ==> p[|p| - 1] !in targets
    ensures dir != -1 ==> 0 <= dir < 4 && target in targets && Step(m.start, dir) in m.open
    ensures dir != -1 ==> exists p :: m.Walk(p) && |p| > 1 && p[1] == Step(m.start, dir) && p[|p| - 1] == target
                                      && forall q :: m.Walk(q) && q[|q| - 1] in targets ==> |q| >= |p|
  {
    assert m.Walk([m.start]);
    if n :| Nearest(m, targets, target, n, dir) {
      var p :| m.Leads(p, target, n, dir);
      if dir != -1 {
        assert m.Enters(p[0], p[0 + 1]);
        assert forall q :: m.Walk(q) && q[|q| - 1] in targets ==> |q| >= |p|;
      } else {
        m.NoStepsNoMove(target, dir);
      }
    }
  }

  lemma FoundAtHead(m: Maze, targets: set<Cell>, t: Trail, head: nat)
    requires t.Shaped() && head < |t.order| && Nearest(m, targets, t.order[head], t.dist[head], t.first[head])
    ensures Found(m, targets, t.first[head], t.order[head])
  {
  }

  lemma NothingFound(m: Maze, targets: set<Cell>)
    requires forall p :: m.Walk(p) ==> p[|p| - 1] !in targets
    ensures Found(m, targets, -1, NOWHERE)
  {
  }

  // ---- The search ----

  /** The arrays hold the trail: its cells in the queue, marked as visited, with their
      first steps. */
  ghost predicate Shows(k: Knowledge, queue: seq<int>, visited: seq<bool>, firstDir: seq<int>, t: Trail) {
    && t.Shaped() && |queue| >= |t.order|
    && |visited| >= k.width * k.height && |firstDir| >= k.width * k.height
    && (forall j :: 0 <= j < |t.order| ==> k.InBounds(t.order[j]) && queue[j] == k.Index(t.order[j]))
    && (forall j :: 0 <= j < |t.order| ==> k.InBounds(t.order[j]) && firstDir[k.Index(t.order[j])] == t.first[j])
    && (forall c :: k.InBounds(c) ==> (visited[k.Index(c)] <==> c in t.order))
  }

  lemma IndexIsUnique(k: Knowledge, a: Cell, b: Cell)
    requires k.InBounds(a) && k.InBounds(b) && k.Index(a) == k.Index(b)
    ensures a == b
  {
    QuotientIsUnique(a.y, a.x, b.y, b.x, k.width);
  }

  lemma ShowsOneMore(k: Knowledge, queue: seq<int>, visited: seq<bool>, firstDir: seq<int>, t: Trail, c: Cell, n: nat, way: int)
    requires Shows(k, queue, visited, firstDir, t) && k.InBounds(c) && c !in t.order && |t.order| < |queue|
    ensures Shows(k, queue[|t.order| := k.Index(c)], visited[k.Index(c) := true], firstDir[k.Index(c) := way],
                  t.Plus(c, n, way))
  {
    forall d | k.InBounds(d)
      ensures visited[k.Index(c) := true][k.Index(d)] <==> d in t.order + [c]
    {
      if k.Index(d) == k.Index(c) {
        IndexIsUnique(k, c, d);
      }
    }
    forall j | 0 <= j < |t.order|
      ensures firstDir[k.Index(c) := way][k.Index(t.order[j])] == t.first[j]
    {
      IndicesDiffer(k, c, t.order[j]);
    }
  }

  lemma IndicesDiffer(k: Knowledge, a: Cell, b: Cell)
    requires k.InBounds(a) && k.InBounds(b) && a != b
    ensures k.Index(a) != k.Index(b)
  {
    if k.Index(a) == k.Index(b) {
      IndexIsUnique(k, a, b);
    }
  }

  /** Cell numbers, the other way. */
  function CellOf(k: Knowledge, index: nat): Cell
    requires k.width >= 1
  {
    Cell(index % k.width, index / k.width)
  }

  lemma CellOfIndex(k: Knowledge, c: Cell)
    requires k.width >= 1 && k.InBounds(c)
    ensures CellOf(k, k.Index(c)) == c
  {
    IndexSplits(c.x, c.y, k.width);
  }

  const MAX_CELLS := 4096

  class Search {
    const queue: array<int>
    const visited: array<bool>
    const firstDir: array<int>
    const randomDirOrder: array<int>
    var pendingTarget: Cell

    constructor ()
      ensures Valid() && fresh(queue) && fresh(visited) && fresh(firstDir) && fresh(randomDirOrder)
    {
      queue := new int[MAX_CELLS];
      visited := new bool[MAX_CELLS];
      firstDir := new int[MAX_CELLS];
      randomDirOrder := new int[4];
      pendingTarget := NOWHERE;
    }

    ghost predicate Valid()
      reads this
    {
      && queue.Length == visited.Length == firstDir.Length == MAX_CELLS && randomDirOrder.Length == 4
      && queue != firstDir && queue != randomDirOrder && firstDir != randomDirOrder
    }

    /** Fisher-Yates, with whatever the random numbers are. */
    method FillRandomDirOrder()
      requires Valid()
      modifies randomDirOrder
      ensures multiset(randomDirOrder[..]) == multiset{0, 1, 2, 3}
      ensures forall dir :: 0 <= dir < 4 ==> dir in randomDirOrder[..]
    {
      for i := 0 to 4
        invariant forall j :: 0 <= j < i ==> randomDirOrder[j] == j
      {
        randomDirOrder[i] := i;
      }
      assert randomDirOrder[..] == [0, 1, 2, 3];
      for i := 3 downto 0
        invariant multiset(randomDirOrder[..]) == multiset{0, 1, 2, 3}
      {
        var j :| 0 <= j <= i;
        ghost var before := randomDirOrder[..];
        randomDirOrder[i], randomDirOrder[j] := randomDirOrder[j], randomDirOrder[i];
        assert randomDirOrder[..] == before[i := before[j]][j := before[i]];
        SwapKeeps(before, i, j);
      }
      EveryDirection(randomDirOrder[..]);
    }

    lemma SwapKeeps(s: seq<int>, i: nat, j: nat)
      requires i < |s| && j < |s|
      ensures multiset(s[i := s[j]][j := s[i]]) == multiset(s)
    {
    }

    lemma EveryDirection(order: seq<int>)
      requires multiset(order) == multiset{0, 1, 2, 3}
      ensures forall dir :: 0 <= dir < 4 ==> dir in order
    {
      forall dir | 0 <= dir < 4
        ensures dir in order
      {
        assert dir in multiset(order);
      }
    }

    ghost predicate Holds(k: Knowledge, t: Trail)
      requires Valid()
      reads this, queue, visited, firstDir
    {
      Shows(k, queue[..], visited[..], firstDir[..], t)
    }

    method StartAt(k: Knowledge, start: Cell) returns (ghost t: Trail)
      requires Valid() && k.Valid() && k.InBounds(start)
      modifies queue, visited, firstDir
      ensures t == Trail([start], [0], [-1]) && Holds(k, t)
    {
      AtMostMaxCells(k);
      var total := k.width * k.height;
      for i := 0 to total
        invariant forall j :: 0 <= j < i ==> !visited[j] && firstDir[j] == -1
      {
        visited[i] := false;
        firstDir[i] := -1;
      }
      t := Trail([start], [0], [-1]);
      visited[k.Index(start)] := true;
      queue[0] := k.Index(start);
      forall c | k.InBounds(c)
        ensures visited[k.Index(c)] <==> c in t.order
      {
        if k.Index(c) == k.Index(start) {
          IndexIsUnique(k, c, start);
        }
      }
    }

    lemma AtMostMaxCells(k: Knowledge)
      requires k.Valid()
      ensures k.width * k.height <= MAX_CELLS
    {
      MultiplyMonotone(k.height, 65, k.width);
      MultiplyMonotone(k.width, 65, 64);
    }

    method QueueOne(k: Knowledge, startIdx: nat, idx: nat, head: nat, tail: nat, n: Cell, dir: int, ghost m: Maze, ghost t: Trail)
      requires Valid() && k.Valid() && Holds(k, t) && TrailOk(m, t, head) && m.Valid() && m.width == k.width && m.height == k.height
      requires head < |t.order| && tail == |t.order| && idx == k.Index(t.order[head]) && 0 <= dir < 4
      requires k.InBounds(m.start) && startIdx == k.Index(m.start)
      requires n == Step(t.order[head], dir) && n in m.open && n !in t.order
      modifies queue, visited, firstDir
      ensures Holds(k, t.Plus(n, t.dist[head] + 1, if head == 0 then dir else t.first[head]))
    {
      hide m.Reaches, Toward, Shows;
      AtMostMaxCells(k);
      Queue(m, t, head, dir);
      ghost var way := if head == 0 then dir else t.first[head];
      QueueFits(m, t.Plus(n, t.dist[head] + 1, way), head);
      ghost var q, v, f := queue[..], visited[..], firstDir[..];
      AtStart(k, m, t, head, q, v, f);
      var nidx := k.Index(n);
      ShowsOneMore(k, q, v, f, t, n, t.dist[head] + 1, way);
      visited[nidx] := true;
      firstDir[nidx] := if idx == startIdx then dir else firstDir[idx];
      queue[tail] := nidx;
      assert visited[..] == v[nidx := true] && firstDir[..] == f[nidx := way] && queue[..] == q[tail := nidx];
    }

    lemma AtStart(k: Knowledge, m: Maze, t: Trail, head: nat, q: seq<int>, v: seq<bool>, f: seq<int>)
      requires Shows(k, q, v, f, t) && TrailOk(m, t, head) && head < |t.order|
      ensures k.InBounds(m.start) && k.InBounds(t.order[head])
      ensures k.Index(t.order[head]) < |f| && f[k.Index(t.order[head])] == t.first[head]
      ensures k.Index(t.order[head]) == k.Index(m.start) <==> head == 0
      ensures head < |q| && q[head] == k.Index(t.order[head])
    {
      if head > 0 {
        IndicesDiffer(k, t.order[head], m.start);
      }
    }

    /** Queues the neighbour of the cell numbered idx, at `head` of the queue, in
        direction dir, if it can be entered and has not been visited. */
    method TryDirection(k: Knowledge, startIdx: nat, idx: nat, head: nat, tail: nat, dir: int,
                        ghost m: Maze, ghost t: Trail, ghost done: seq<int>)
      returns (last: nat, ghost u: Trail)
      requires Valid() && k.Valid() && k.InBounds(m.start) && m == k.MazeFrom(m.start) && startIdx == k.Index(m.start)
      requires TrailOk(m, t, head) && Processed(m, t, head) && Holds(k, t)
      requires head < |t.order| && tail == |t.order| && 0 <= dir < 4
      requires k.InBounds(t.order[head]) && idx == k.Index(t.order[head])
      requires forall d :: d in done ==> 0 <= d < 4 && Tried(m, t, head, d)
      modifies queue, visited, firstDir
      ensures u.Shaped() && TrailOk(m, u, head) && Processed(m, u, head) && last == |u.order| && Holds(k, u)
      ensures t.order <= u.order && forall d :: d in done || d == dir ==> 0 <= d < 4 && Tried(m, u, head, d)
    {
      hide m.Reaches, m.Walk, TrailOk, Processed, Toward, k.IsPathWalkable;
      u, last := t, tail;
      var x, y := idx % k.width, idx / k.width;
      CellOfIndex(k, t.order[head]);
      var n := Step(Cell(x, y), dir);
      if !k.IsPathWalkable(n) {
        return;
      }
      if visited[k.Index(n)] {
        SeenIsTried(m, u, head, dir);
        return;
      }
      QueueOne(k, startIdx, idx, head, last, n, dir, m, u);
      QueuedIsTried(m, u, head, dir, done);
      u := u.Plus(n, u.dist[head] + 1, if head == 0 then dir else u.first[head]);
      last := last + 1;
    }

    /** Tries the four directions. tail is the number of queued cells, and never
        exceeds the map. */
    method Expand(k: Knowledge, startIdx: nat, head: nat, tail: nat, ghost m: Maze, ghost t: Trail)
      returns (last: nat, ghost u: Trail)
      requires Valid() && k.Valid() && k.InBounds(m.start) && m == k.MazeFrom(m.start) && startIdx == k.Index(m.start)
      requires forall dir :: 0 <= dir < 4 ==> dir in randomDirOrder[..]
      requires multiset(randomDirOrder[..]) == multiset{0, 1, 2, 3}
      requires TrailOk(m, t, head) && Processed(m, t, head) && head < |t.order| && tail == |t.order| && Holds(k, t)
      modifies queue, visited, firstDir
      ensures TrailOk(m, u, head + 1) && u.Shaped() && last == |u.order| && t.order <= u.order
      ensures Processed(m, u, head + 1) && Holds(k, u)
      ensures last <= k.width * k.height
    {
      hide m.Reaches, m.Walk, TrailOk, Processed, Toward, Tried, Shows;
      Shape(m, t, head);
      AtStart(k, m, t, head, queue[..], visited[..], firstDir[..]);
      u, last := t, tail;
      var idx := queue[head];
      for i := 0 to 4
        invariant u.Shaped() && head < |u.order| && TrailOk(m, u, head) && Processed(m, u, head)
        invariant last == |u.order| && Holds(k, u)
        invariant |t.order| <= |u.order| && t.order <= u.order && randomDirOrder[..] == old(randomDirOrder[..])
        invariant forall d :: d in randomDirOrder[..i] ==> 0 <= d < 4 && Tried(m, u, head, d)
      {
        var dir := randomDirOrder[i];
        assert dir in multiset(randomDirOrder[..]);
        TakeOneMore(randomDirOrder[..], i);
        last, u := TryDirection(k, startIdx, idx, head, last, dir, m, u, randomDirOrder[..i]);
      }
      assert randomDirOrder[..4] == randomDirOrder[..];
      HeadMovesOn(m, u, head);
      Shape(m, u, head + 1);
      QueueFits(m, u, head + 1);
    }

    /** bfsDirToMode. */
    method BfsDirToMode(k: Knowledge, start: Cell, mode: Mode, goal: Cell) returns (dir: int)
      requires Valid() && k.Valid() && k.InBounds(start)
      modifies this`pendingTarget, queue, visited, firstDir, randomDirOrder
      ensures Found(k.MazeFrom(start), k.Targets(mode, goal), dir, pendingTarget)
    {
      hide TrailOk, Processed, Found, Toward, Shows, k.IsPathWalkable;
      var startIdx := k.Index(start);
      FillRandomDirOrder();
      ghost var m, targets := k.MazeFrom(start), k.Targets(mode, goal);
      ghost var t := StartAt(k, start);
      StartTrail(m);
      var head, tail := 0, 1;
      while head < tail
        invariant t.Shaped() && tail == |t.order| && head <= tail && TrailOk(m, t, head) && Processed(m, t, head) && Holds(k, t)
        invariant forall j :: 0 <= j < head ==> t.order[j] !in targets
        invariant multiset(randomDirOrder[..]) == multiset{0, 1, 2, 3}
        invariant forall dir :: 0 <= dir < 4 ==> dir in randomDirOrder[..]
        invariant tail <= k.width * k.height
        decreases k.width * k.height - head
      {
        AtStart(k, m, t, head, queue[..], visited[..], firstDir[..]);
        var idx := queue[head];
        var cell := CellOf(k, idx);
        CellOfIndex(k, t.order[head]);
        var there := IsTargetCell(k, cell, mode, goal);
        if there {
          pendingTarget := cell;
          HeadIsNearest(m, targets, t, head);
          FoundAtHead(m, targets, t, head);
          return firstDir[idx];
        }
        tail, t := Expand(k, startIdx, head, tail, m, t);
        head := head + 1;
      }
      NoTargetReached(m, targets, t);
      NothingFound(m, targets);
      pendingTarget := NOWHERE;
      return -1;
    }

    /** pointDir: the same search for one cell; -1 as well if that cell is off the map
        or cannot be entered, unless the unit stands on it. */
    method PointDir(k: Knowledge, start: Cell, goal: Cell) returns (dir: int)
      requires Valid() && k.Valid() && k.InBounds(start)
      modifies queue, visited, firstDir, randomDirOrder
      ensures if k.InBounds(goal) && (k.IsPathWalkable(goal) || goal == k.at)
              then exists target :: Found(k.MazeFrom(start), {goal}, dir, target)
              else dir == -1
    {
      hide TrailOk, Processed, Found, Toward, Shows;
      if !k.InBounds(goal) {
        return -1;
      }
      if !k.IsPathWalkable(goal) && goal != k.at {
        return -1;
      }
      var startIdx, goalIdx := k.Index(start), k.Index(goal);
      FillRandomDirOrder();
      ghost var m, targets := k.MazeFrom(start), {goal};
      ghost var t := StartAt(k, start);
      StartTrail(m);
      var head, tail := 0, 1;
      while head < tail
        invariant t.Shaped() && tail == |t.order| && head <= tail && TrailOk(m, t, head) && Processed(m, t, head) && Holds(k, t)
        invariant forall j :: 0 <= j < head ==> t.order[j] !in targets
        invariant multiset(randomDirOrder[..]) == multiset{0, 1, 2, 3}
        invariant forall dir :: 0 <= dir < 4 ==> dir in randomDirOrder[..]
        invariant tail <= k.width * k.height
        decreases k.width * k.height - head
      {
        AtStart(k, m, t, head, queue[..], visited[..], firstDir[..]);
        var idx := queue[head];
        if idx == goalIdx {
          IndexIsUnique(k, goal, t.order[head]);
          HeadIsNearest(m, targets, t, head);
          FoundAtHead(m, targets, t, head);
          return firstDir[idx];
        }
        tail, t := Expand(k, startIdx, head, tail, m, t);
        head := head + 1;
      }
      NoTargetReached(m, targets, t);
      NothingFound(m, targets);
      return -1;
    }
  }
}

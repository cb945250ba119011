/**
 What a unit sees (src/entity.cpp:64-112): a breadth-first search over a square
 window around the unit, with a queue that may hold a cell several times.
 */
module Vision {
  import opened Common
  import opened TileCodec
  import opened TileMap

  // ---- The window ----

  /** The square of side `range` around the unit; cells of the window are counted
      from its top-left corner. */
  datatype Window = Window(board: TileMap, at: Cell, range: int) {

    predicate Valid() {
      board.WellFormed() && range >= 1
    }

    predicate Inside(c: Cell) {
      0 <= c.x < range && 0 <= c.y < range
    }

    function Centre(): Cell {
      Cell(range / 2, range / 2)
    }

    function Tile(c: Cell): Cell {
      Cell(at.x - range / 2 + c.x, at.y - range / 2 + c.y)
    }

    predicate OnBoard(c: Cell) {
      board.InBounds(Tile(c))
    }

    /** The search goes on from here. */
    predicate Open(c: Cell)
      requires Valid()
    {
      OnBoard(c) && board.At(Tile(c)).terrain != OBSTACLE
    }

    function Index(c: Cell): (i: nat)
      requires Inside(c)
      ensures i < range * range
    {
      IndexFits(c.x, c.y, range, range);
      c.y * range + c.x
    }

    lemma IndexIsUnique(a: Cell, b: Cell)
      requires Inside(a) && Inside(b) && Index(a) == Index(b)
      ensures a == b
    {
      QuotientIsUnique(a.y, a.x, b.y, b.x, range);
    }

    // ---- Reachability ----

    /** A 4-connected walk inside the window from its centre to c; every cell before
        the last is on the board and no obstacle. */
    ghost predicate Walk(p: seq<Cell>, c: Cell)
      requires Valid()
    {
      && |p| > 0 && p[0] == Centre() && p[|p| - 1] == c
      && (forall i :: 0 <= i < |p| ==> Inside(p[i]))
      && (forall i :: 0 <= i < |p| - 1 ==> Open(p[i]) && Adjacent(p[i], p[i + 1]))
    }

    ghost predicate Reached(c: Cell)
      requires Valid()
    {
      exists p :: Walk(p, c)
    }

    /** The unit sees the cells of the board that a walk reaches. */
    ghost predicate Sees(c: Cell)
      requires Valid()
    {
      OnBoard(c) && Reached(c)
    }

    lemma CentreIsReached()
      requires Valid()
      ensures Inside(Centre()) && Reached(Centre())
    {
      assert Walk([Centre()], Centre());
    }

    lemma WalkOn(c: Cell, d: Cell)
      requires Valid() && Reached(c) && Open(c) && Inside(d) && Adjacent(c, d)
      ensures Reached(d)
    {
      var p :| Walk(p, c);
      var q := p + [d];
      assert forall i :: 0 <= i < |q| - 1 ==> Open(q[i]) && Adjacent(q[i], q[i + 1]);
      assert Walk(q, d);
    }

    /** A set of cells that holds the centre and is closed under stepping on from open
        cells holds everything reached. */
    lemma {:induction false} ClosedHoldsWalk(seen: set<Cell>, p: seq<Cell>, c: Cell)
      requires Valid() && Centre() in seen && Walk(p, c)
      requires forall a, b :: a in seen && Open(a) && Inside(b) && Adjacent(a, b) ==> b in seen
      ensures c in seen
      decreases |p|
    {
      if |p| > 1 {
        ClosedHoldsWalk(seen, p[..|p| - 1], p[|p| - 2]);
        assert Open(p[|p| - 2]) && Adjacent(p[|p| - 2], p[|p| - 2 + 1]);
      }
    }
  }

  predicate Adjacent(a: Cell, b: Cell) {
    exists d: Direction :: b == Toward(a, d)
  }

  // ---- The board ----

  /** The cell of the board behind cell (x, y) of the window. */
  function Behind(w: Window, x: int, y: int): Cell {
    Cell(w.at.x - w.range / 2 + x, w.at.y - w.range / 2 + y)
  }

  /** The window lies around the unit, its cells in rows, and steps in it are steps on
      the board. */
  lemma WindowIsCentred(w: Window, c: Cell, d: Direction)
    requires w.Valid()
    ensures w.Tile(w.Centre()) == w.at && w.Tile(Toward(c, d)) == Toward(w.Tile(c), d)
    ensures w.Tile(c) == Behind(w, c.x, c.y)
    ensures w.Inside(c) ==> w.Index(c) == c.y * w.range + c.x
  {
  }

  /** Next to each other in a row or a column. */
  predicate Beside(a: Cell, b: Cell) {
    (a.x == b.x && (a.y == b.y + 1 || b.y == a.y + 1)) || (a.y == b.y && (a.x == b.x + 1 || b.x == a.x + 1))
  }

  /** A walk over the board from the unit's own cell to t, within the window, whose
      cells before t are on the board and no obstacles. */
  ghost predicate BoardWalk(w: Window, p: seq<Cell>, t: Cell)
    requires w.Valid()
  {
    && |p| > 0 && p[0] == w.at && p[|p| - 1] == t
    && (forall i :: 0 <= i < |p| ==>
          && w.at.x - w.range / 2 <= p[i].x < w.at.x - w.range / 2 + w.range
          && w.at.y - w.range / 2 <= p[i].y < w.at.y - w.range / 2 + w.range)
    && (forall i :: 0 <= i < |p| - 1 ==>
          && 0 <= p[i].x < w.board.width && 0 <= p[i].y < w.board.height
          && w.board.At(p[i]).terrain != OBSTACLE && Beside(p[i], p[i + 1]))
  }

  /** What the unit should see of the board: its cells that such a walk leads to. */
  ghost predicate InSight(w: Window, t: Cell)
    requires w.Valid()
  {
    0 <= t.x < w.board.width && 0 <= t.y < w.board.height && exists p :: BoardWalk(w, p, t)
  }

  lemma AdjacentIsBeside(a: Cell, b: Cell)
    ensures Adjacent(a, b) <==> Beside(a, b)
  {
    assert Toward(a, Up) == Cell(a.x, a.y - 1) && Toward(a, Down) == Cell(a.x, a.y + 1);
    assert Toward(a, Left) == Cell(a.x - 1, a.y) && Toward(a, Right) == Cell(a.x + 1, a.y);
  }

  lemma WalkOverBoard(w: Window, p: seq<Cell>, c: Cell)
    requires w.Valid() && w.Walk(p, c)
    ensures exists q :: BoardWalk(w, q, w.Tile(c))
  {
    hide Adjacent;
    var q := seq(|p|, i requires 0 <= i < |p| => w.Tile(p[i]));
    forall i | 0 <= i < |q| - 1
      ensures Beside(q[i], q[i + 1])
    {
      AdjacentIsBeside(p[i], p[i + 1]);
    }
    assert BoardWalk(w, q, w.Tile(c));
  }

  /** The cell of the window in front of a cell of the board. */
  function InFront(w: Window, t: Cell): (c: Cell)
    ensures w.Tile(c) == t
  {
    Cell(t.x - w.at.x + w.range / 2, t.y - w.at.y + w.range / 2)
  }

  lemma WalkInWindow(w: Window, q: seq<Cell>, c: Cell)
    requires w.Valid() && BoardWalk(w, q, w.Tile(c))
    ensures w.Reached(c)
  {
    hide Adjacent;
    var p := seq(|q|, i requires 0 <= i < |q| => InFront(w, q[i]));
    forall i | 0 <= i < |p|
      ensures w.Inside(p[i])
      ensures i < |p| - 1 ==> w.Open(p[i])
    {
    }
    forall i | 0 <= i < |p| - 1
      ensures Adjacent(p[i], p[i + 1])
    {
      AdjacentIsBeside(p[i], p[i + 1]);
    }
    assert p[0] == w.Centre() && p[|p| - 1] == c;
    assert w.Walk(p, c);
  }

  /** A cell of the window is seen exactly if the cell of the board behind it is in sight. */
  lemma SeenIsInSight(w: Window, c: Cell)
    requires w.Valid() && w.Inside(c)
    ensures w.Sees(c) <==> InSight(w, Behind(w, c.x, c.y))
  {
    hide w.Walk, BoardWalk;
    assert w.Tile(c) == Behind(w, c.x, c.y);
    if w.Reached(c) {
      var p :| w.Walk(p, c);
      WalkOverBoard(w, p, c);
    }
    if q :| BoardWalk(w, q, w.Tile(c)) {
      WalkInWindow(w, q, c);
    }
  }

  /** A unit on the board always sees its own tile. */
  lemma SeesItself(w: Window)
    requires w.Valid() && w.board.InBounds(w.at)
    ensures w.Inside(w.Centre()) && Behind(w, w.Centre().x, w.Centre().y) == w.at && w.Sees(w.Centre())
  {
    w.CentreIsReached();
  }

  // ---- The search ----

  ghost function AllInside(w: Window): (cells: set<Cell>)
    ensures forall c :: c in cells <==> w.Inside(c)
  {
    var cells := set x, y | 0 <= x < w.range && 0 <= y < w.range :: Cell(x, y);
    assert forall c :: w.Inside(c) ==> c == Cell(c.x, c.y);
    cells
  }

  /** The flags of an array over the window are the membership in a set. */
  ghost predicate Flags(w: Window, flags: seq<bool>, cells: set<Cell>) {
    && |flags| == w.range * w.range
    && (forall c :: c in cells ==> w.Inside(c))
    && (forall c :: w.Inside(c) ==> (flags[w.Index(c)] <==> c in cells))
  }

  lemma FlagAt(w: Window, flags: seq<bool>, cells: set<Cell>, c: Cell)
    requires Flags(w, flags, cells) && w.Inside(c)
    ensures w.Index(c) < |flags| && (flags[w.Index(c)] <==> c in cells)
  {
  }

  lemma NoFlags(w: Window, flags: seq<bool>)
    requires |flags| == w.range * w.range && forall i :: 0 <= i < |flags| ==> !flags[i]
    ensures Flags(w, flags, {})
  {
  }

  lemma RaiseFlag(w: Window, flags: seq<bool>, cells: set<Cell>, c: Cell)
    requires Flags(w, flags, cells) && w.Inside(c)
    ensures Flags(w, flags[w.Index(c) := true], cells + {c})
  {
    forall d | w.Inside(d)
      ensures flags[w.Index(c) := true][w.Index(d)] <==> d in cells + {c}
    {
      if w.Index(d) == w.Index(c) {
        w.IndexIsUnique(c, d);
      }
    }
  }

  /** Every step on from an open seen cell leads to a seen or queued one. */
  ghost predicate Frontier(w: Window, seen: set<Cell>, queue: seq<Cell>)
    requires w.Valid()
  {
    forall a, b :: a in seen && w.Open(a) && w.Inside(b) && Adjacent(a, b) ==> b in seen || b in queue
  }

  /** What is known while cells wait in the queue. */
  ghost predicate Searching(w: Window, seen: set<Cell>, queue: seq<Cell>)
    requires w.Valid()
  {
    && (forall c :: c in seen || c in queue ==> w.Inside(c) && w.Reached(c))
    && (w.Centre() in seen || w.Centre() in queue)
    && Frontier(w, seen, queue)
  }

  lemma SkipSeen(w: Window, seen: set<Cell>, queue: seq<Cell>)
    requires w.Valid() && Searching(w, seen, queue) && queue != [] && queue[0] in seen
    ensures Searching(w, seen, queue[1..])
  {
    assert forall d :: d in queue <==> d == queue[0] || d in queue[1..];
  }

  lemma SeeBlocked(w: Window, seen: set<Cell>, queue: seq<Cell>)
    requires w.Valid() && Searching(w, seen, queue) && queue != [] && !w.Open(queue[0])
    ensures Searching(w, seen + {queue[0]}, queue[1..])
  {
    assert forall d :: d in queue <==> d == queue[0] || d in queue[1..];
  }

  lemma SeeOpen(w: Window, seen: set<Cell>, queue: seq<Cell>, longer: seq<Cell>)
    requires w.Valid() && Searching(w, seen, queue) && queue != [] && w.Open(queue[0])
    requires forall d :: d in longer <==>
               d in queue[1..] || (w.Inside(d) && Adjacent(queue[0], d) && d !in seen + {queue[0]})
    ensures Searching(w, seen + {queue[0]}, longer)
  {
    assert forall d :: d in queue <==> d == queue[0] || d in queue[1..];
    forall d | d in longer
      ensures w.Inside(d) && w.Reached(d)
    {
      if d !in queue[1..] {
        w.WalkOn(queue[0], d);
      }
    }
  }

  /** With an empty queue, exactly what is reached has been seen. */
  lemma NothingMore(w: Window, seen: set<Cell>)
    requires w.Valid() && Searching(w, seen, [])
    ensures forall c :: c in seen <==> w.Inside(c) && w.Reached(c)
  {
    forall c | w.Inside(c) && w.Reached(c)
      ensures c in seen
    {
      var p :| w.Walk(p, c);
      w.ClosedHoldsWalk(seen, p, c);
    }
  }

  lemma OneLess(w: Window, seen: set<Cell>, c: Cell)
    requires w.Inside(c) && c !in seen
    ensures |AllInside(w) - (seen + {c})| == |AllInside(w) - seen| - 1
  {
    assert AllInside(w) - (seen + {c}) == (AllInside(w) - seen) - {c};
  }

  /** The loop's invariant: what the arrays and the queue say. */
  ghost predicate Looking(w: Window, visited: seq<bool>, visible: seq<bool>, queue: seq<Cell>, seen: set<Cell>, shown: set<Cell>)
    requires w.Valid()
  {
    && Flags(w, visited, seen) && Flags(w, visible, shown)
    && (forall c :: c in shown <==> c in seen && w.OnBoard(c))
    && Searching(w, seen, queue)
  }

  /** The loop's measure. */
  ghost function Remaining(w: Window, queue: seq<Cell>, seen: set<Cell>): nat {
    5 * |AllInside(w) - seen| + |queue|
  }

  /** The visible_tiles of a unit. */
  method VisibleTiles(w: Window) returns (visible: array<bool>)
    requires w.Valid()
    ensures fresh(visible) && visible.Length == w.range * w.range
    ensures forall c :: w.Inside(c) ==> (visible[w.Index(c)] <==> w.Sees(c))
    ensures forall c :: w.Inside(c) ==> (visible[w.Index(c)] <==> InSight(w, Behind(w, c.x, c.y)))
  {
    hide InSight, Searching, Frontier, Toward, AllInside, Adjacent, Flags, w.Reached, w.Index;
    MultiplyMonotone(0, w.range, w.range);
    visible := new bool[w.range * w.range](_ => false);
    var visited := new bool[w.range * w.range](_ => false);
    var queue := [w.Centre()];
    ghost var seen: set<Cell>, shown: set<Cell> := {}, {};
    StartSearch(w);
    NoFlags(w, visited[..]);
    NoFlags(w, visible[..]);
    while queue != []
      invariant visited.Length == visible.Length == w.range * w.range
      invariant Looking(w, visited[..], visible[..], queue, seen, shown)
      decreases Remaining(w, queue, seen)
    {
      queue, seen, shown := LookOn(w, queue, visited, visible, seen, shown);
    }
    NothingMore(w, seen);
    forall c | w.Inside(c)
      ensures visible[w.Index(c)] <==> w.Sees(c)
      ensures visible[w.Index(c)] <==> InSight(w, Behind(w, c.x, c.y))
    {
      FlagAt(w, visible[..], shown, c);
      SeenIsInSight(w, c);
    }
  }

  /** One round of the loop, for the cell at the front. */
  method LookOn(w: Window, queue: seq<Cell>, visited: array<bool>, visible: array<bool>, ghost was: set<Cell>, ghost shown: set<Cell>)
    returns (rest: seq<Cell>, ghost seen: set<Cell>, ghost lit: set<Cell>)
    requires w.Valid() && queue != [] && visible != visited && visited.Length == visible.Length == w.range * w.range
    requires Looking(w, visited[..], visible[..], queue, was, shown)
    modifies visited, visible
    ensures Looking(w, visited[..], visible[..], rest, seen, lit)
    ensures Remaining(w, rest, seen) < Remaining(w, queue, was)
  {
    hide Searching, Frontier, Toward, AllInside, Adjacent, Flags, w.Reached, w.Index;
    QueuedIsInside(w, was, queue);
    var c := queue[0];
    rest, seen, lit := queue[1..], was, shown;
    FlagAt(w, visited[..], was, c);
    if visited[w.Index(c)] {
      SkipSeen(w, was, queue);
      return;
    }
    RaiseFlag(w, visited[..], was, c);
    OneLess(w, was, c);
    ghost var flags, lights := visited[..], visible[..];
    visited[w.Index(c)] := true;
    assert visited[..] == flags[w.Index(c) := true] && visible[..] == lights;
    seen := was + {c};
    if !w.OnBoard(c) {
      SeeBlocked(w, was, queue);
      return;
    }
    RaiseFlag(w, visible[..], shown, c);
    visible[w.Index(c)] := true;
    assert visible[..] == lights[w.Index(c) := true] && visited[..] == flags[w.Index(c) := true];
    lit := shown + {c};
    if w.board.At(w.Tile(c)).terrain == OBSTACLE {
      SeeBlocked(w, was, queue);
      return;
    }
    rest := Neighbours(w, c, visited, rest, seen);
    SeeOpen(w, was, queue, rest);
  }

  lemma StartSearch(w: Window)
    requires w.Valid()
    ensures Searching(w, {}, [w.Centre()])
  {
    w.CentreIsReached();
  }

  lemma QueuedIsInside(w: Window, seen: set<Cell>, queue: seq<Cell>)
    requires w.Valid() && Searching(w, seen, queue) && queue != []
    ensures w.Inside(queue[0])
  {
  }

  const STEPS: seq<Direction> := [Up, Down, Left, Right]

  /** Appends the neighbours of c in the window that are not visited, at most four. */
  method Neighbours(w: Window, c: Cell, visited: array<bool>, queue: seq<Cell>, ghost seen: set<Cell>)
    returns (longer: seq<Cell>)
    requires w.Valid() && w.Inside(c) && Flags(w, visited[..], seen)
    ensures |longer| <= |queue| + 4
    ensures forall d :: d in longer <==> d in queue || (w.Inside(d) && Adjacent(c, d) && d !in seen)
  {
    longer := queue;
    for k := 0 to 4
      invariant |longer| <= |queue| + k
      invariant forall d :: d in longer <==>
                  d in queue || (w.Inside(d) && d !in seen && exists j :: 0 <= j < k && d == Toward(c, STEPS[j]))
    {
      var n := Toward(c, STEPS[k]);
      if w.Inside(n) && !visited[w.Index(n)] {
        longer := longer + [n];
      }
    }
    EveryStep(c);
  }

  lemma EveryStep(c: Cell)
    ensures forall d :: Adjacent(c, d) <==> exists j :: 0 <= j < 4 && d == Toward(c, STEPS[j])
  {
    assert STEPS[0] == Up && STEPS[1] == Down && STEPS[2] == Left && STEPS[3] == Right;
  }
}

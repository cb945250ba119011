/**
 How the text loader finds the bases and gives them to the players
 (src/tilemap.cpp:283-343): it succeeds exactly when the base tiles are at most two
 squares of one size, told apart by the runs their top rows make.
 */
module BaseMarking {
  import opened Common
  import opened TileCodec
  import opened TileMap

  predicate Base(m: TileMap, c: Cell)
    requires m.WellFormed()
  {
    m.InBounds(c) && m.At(c).isBase
  }

  /** Row by row, c comes before d. */
  predicate Before(c: Cell, d: Cell) {
    c.y < d.y || (c.y == d.y && c.x < d.x)
  }

  ghost predicate Covered(cs: seq<Cell>, k: int, c: Cell) {
    exists i :: 0 <= i < |cs| && InSquare(c, cs[i], k)
  }

  predicate OnBoard(m: TileMap, corner: Cell, k: int) {
    0 <= corner.x && corner.x + k <= m.width && 0 <= corner.y && corner.y + k <= m.height
  }

  /** Squares of size k on base tiles, apart, in scan order; right of each one's top row is no base tile. */
  ghost predicate SquaresOnBases(m: TileMap, k: int, cs: seq<Cell>)
    requires m.WellFormed()
  {
    && (cs != [] ==> k >= 1)
    && (forall i :: 0 <= i < |cs| ==> OnBoard(m, cs[i], k) && !Base(m, Cell(cs[i].x + k, cs[i].y)))
    && (forall c :: Covered(cs, k, c) ==> Base(m, c))
    && (forall i, j, c :: 0 <= i < j < |cs| && InSquare(c, cs[i], k) ==> !InSquare(c, cs[j], k))
    && (forall i, j :: 0 <= i < j < |cs| ==> Before(cs[i], cs[j]))
  }

  /** The base tiles are exactly these squares. */
  ghost predicate Squares(m: TileMap, k: int, cs: seq<Cell>)
    requires m.WellFormed()
  {
    SquaresOnBases(m, k, cs) && forall c :: Base(m, c) ==> Covered(cs, k, c)
  }

  /** The state of the scan in front of cell d: the squares found cover the base tiles
      before d, and any way to see all base tiles as squares begins with them. */
  ghost predicate Found(m: TileMap, k: int, cs: seq<Cell>, d: Cell)
    requires m.WellFormed()
  {
    && SquaresOnBases(m, k, cs)
    && (forall i :: 0 <= i < |cs| ==> Before(cs[i], d))
    && (forall c :: Base(m, c) && Before(c, d) ==> Covered(cs, k, c))
    && BeginsAll(m, k, cs)
  }

  ghost predicate BeginsAll(m: TileMap, k: int, cs: seq<Cell>)
    requires m.WellFormed()
  {
    forall n, ds :: Squares(m, n, ds) ==> cs <= ds && (cs != [] ==> n == k)
  }

  /** The next base tile outside the squares found is the next corner. */
  lemma NextCorner(m: TileMap, k: int, cs: seq<Cell>, d: Cell, n: int, ds: seq<Cell>)
    requires m.WellFormed() && Found(m, k, cs, d) && Base(m, d) && !Covered(cs, k, d) && Squares(m, n, ds)
    ensures |ds| > |cs| && ds[|cs|] == d
  {
    forall i | 0 <= i < |cs|
      ensures ds[i] == cs[i] && n == k && !InSquare(d, ds[i], n)
    {
    }
    var j :| 0 <= j < |ds| && InSquare(d, ds[j], n);
    var next := ds[|cs|];
    assert InSquare(next, next, n) && Covered(ds, n, next);
    assert !Covered(cs, k, next);
    assert forall i :: |cs| < i < |ds| ==> Before(next, ds[i]);
  }

  /** The base tiles from d to the right. */
  ghost predicate Run(m: TileMap, d: Cell, size: int)
    requires m.WellFormed()
  {
    size >= 1 && (forall x :: d.x <= x < d.x + size ==> Base(m, Cell(x, d.y))) && !Base(m, Cell(d.x + size, d.y))
  }

  lemma RunIsSide(m: TileMap, n: int, ds: seq<Cell>, i: nat, size: int)
    requires m.WellFormed() && Squares(m, n, ds) && i < |ds| && Run(m, ds[i], size)
    ensures n == size
  {
    forall x | ds[i].x <= x < ds[i].x + n
      ensures Base(m, Cell(x, ds[i].y))
    {
      assert InSquare(Cell(x, ds[i].y), ds[i], n);
      assert Covered(ds, n, Cell(x, ds[i].y));
    }
    assert !Base(m, Cell(ds[i].x + n, ds[i].y));
    assert !Base(m, Cell(ds[i].x + size, ds[i].y));
  }

  /** A square whose top row is the run from d cannot meet one found earlier. */
  lemma SquareIsApart(m: TileMap, k: int, cs: seq<Cell>, d: Cell, i: nat, c: Cell)
    requires m.WellFormed() && Found(m, k, cs, d) && Run(m, d, k) && !Covered(cs, k, d)
    requires i < |cs| && InSquare(c, cs[i], k)
    ensures !InSquare(c, d, k)
  {
    var end := Cell(d.x + k, d.y);
    assert !Base(m, end);
    assert !Covered(cs, k, end) && !InSquare(end, cs[i], k);
    assert !InSquare(d, cs[i], k);
  }

  lemma CoveredOneMore(cs: seq<Cell>, k: int, d: Cell, c: Cell)
    ensures Covered(cs + [d], k, c) <==> Covered(cs, k, c) || InSquare(c, d, k)
  {
    var ds := cs + [d];
    if Covered(ds, k, c) {
      var i :| 0 <= i < |ds| && InSquare(c, ds[i], k);
      assert i < |cs| ==> cs[i] == ds[i];
    }
    if Covered(cs, k, c) {
      var i :| 0 <= i < |cs| && InSquare(c, cs[i], k);
      assert ds[i] == cs[i];
    }
    if InSquare(c, d, k) {
      assert ds[|cs|] == d;
    }
  }

  /** A run whose square is all base tiles is one more square. */
  lemma OneMoreSquare(m: TileMap, k: int, cs: seq<Cell>, d: Cell)
    requires m.WellFormed() && Found(m, k, cs, d) && Base(m, d) && !Covered(cs, k, d) && Run(m, d, k)
    requires OnBoard(m, d, k) && forall c :: InSquare(c, d, k) ==> Base(m, c)
    ensures SquaresOnBases(m, k, cs + [d])
  {
    hide BeginsAll, Base, InSquare, Covered;
    var ds := cs + [d];
    forall c
      ensures Covered(ds, k, c) <==> Covered(cs, k, c) || InSquare(c, d, k)
    {
      CoveredOneMore(cs, k, d, c);
    }
    forall i, j, c | 0 <= i < j < |ds| && InSquare(c, ds[i], k)
      ensures !InSquare(c, ds[j], k)
    {
      if j == |cs| {
        SquareIsApart(m, k, cs, d, i, c);
      }
    }
  }

  lemma FoundOneMore(m: TileMap, k: int, cs: seq<Cell>, d: Cell)
    requires m.WellFormed() && Found(m, k, cs, d) && Base(m, d) && !Covered(cs, k, d) && Run(m, d, k)
    requires OnBoard(m, d, k) && forall c :: InSquare(c, d, k) ==> Base(m, c)
    ensures Found(m, k, cs + [d], Cell(d.x + 1, d.y))
  {
    OneMoreSquare(m, k, cs, d);
    forall c | Base(m, c) && Before(c, Cell(d.x + 1, d.y))
      ensures Covered(cs + [d], k, c)
    {
      CoveredOneMore(cs, k, d, c);
      if c == d {
        assert InSquare(d, d, k);
      }
    }
    forall n, ds | Squares(m, n, ds)
      ensures cs + [d] <= ds && n == k
    {
      NextCorner(m, k, cs, d, n, ds);
      RunIsSide(m, n, ds, |cs|, k);
    }
  }

  lemma NothingHere(m: TileMap, k: int, cs: seq<Cell>, d: Cell)
    requires m.WellFormed() && Found(m, k, cs, d) && (Base(m, d) ==> Covered(cs, k, d))
    ensures Found(m, k, cs, Cell(d.x + 1, d.y))
  {
    hide SquaresOnBases, BeginsAll;
    assert forall c :: Before(c, Cell(d.x + 1, d.y)) <==> Before(c, d) || c == d;
  }

  lemma NextRow(m: TileMap, k: int, cs: seq<Cell>, y: int)
    requires m.WellFormed() && Found(m, k, cs, Cell(m.width, y))
    ensures Found(m, k, cs, Cell(0, y + 1))
  {
    hide SquaresOnBases, BeginsAll;
  }

  lemma FoundAll(m: TileMap, k: int, cs: seq<Cell>)
    requires m.WellFormed() && Found(m, k, cs, Cell(0, m.height))
    ensures Squares(m, k, cs)
  {
    hide SquaresOnBases, BeginsAll;
  }

  /** The size of the squares does not matter while none is found. */
  lemma AnySize(m: TileMap, k: int, n: int, d: Cell)
    requires m.WellFormed() && Found(m, k, [], d)
    ensures Found(m, n, [], d)
  {
  }

  lemma Start(m: TileMap)
    requires m.WellFormed()
    ensures Found(m, 0, [], Cell(0, 0))
  {
  }

  // ---- Marking ----

  /** The flags of the squares: 1 for the first, 2 for the second. */
  ghost predicate Marked(m: TileMap, side: seq<u8>, k: int, cs: seq<Cell>)
    requires m.WellFormed()
  {
    && |side| == |m.tiles|
    && (forall c :: m.InBounds(c) ==> (side[m.Index(c)] == 0 <==> !Covered(cs, k, c)))
    && (forall i, c :: 0 <= i < |cs| && m.InBounds(c) && InSquare(c, cs[i], k) ==> side[m.Index(c)] == i + 1)
  }

  lemma IndexIsUnique(m: TileMap, a: Cell, b: Cell)
    requires m.InBounds(a) && m.InBounds(b) && m.Index(a) == m.Index(b)
    ensures a == b
  {
    QuotientIsUnique(a.y, a.x, b.y, b.x, m.width);
  }

  lemma IndicesDiffer(m: TileMap, a: Cell, b: Cell)
    requires m.InBounds(a) && m.InBounds(b) && a != b
    ensures m.Index(a) != m.Index(b)
  {
    if m.Index(a) == m.Index(b) {
      IndexIsUnique(m, a, b);
    }
  }

  /** Marks a square column by column; false where it leaves the map or meets a tile
      that is no base. */
  method MarkSquare(m: TileMap, side: array<u8>, d: Cell, k: int, n: u8) returns (ok: bool)
    requires m.WellFormed() && side.Length == |m.tiles| && 0 <= d.x && d.x + k <= m.width && 0 <= d.y
    modifies side
    ensures ok <==> forall c :: InSquare(c, d, k) ==> Base(m, c)
    ensures ok ==> forall c :: m.InBounds(c) ==>
                     side[m.Index(c)] == if InSquare(c, d, k) then n else old(side[m.Index(c)])
  {
    if k < 1 {
      return true;
    }
    for tx := d.x to d.x + k
      invariant forall c :: InSquare(c, d, k) && c.x < tx ==> Base(m, c)
      invariant forall c :: m.InBounds(c) ==>
                  side[m.Index(c)] == if InSquare(c, d, k) && c.x < tx then n else old(side[m.Index(c)])
    {
      for ty := d.y to d.y + k
        invariant forall c :: InSquare(c, d, k) && (c.x < tx || (c.x == tx && c.y < ty)) ==> Base(m, c)
        invariant forall c :: m.InBounds(c) ==>
                    side[m.Index(c)] == if InSquare(c, d, k) && (c.x < tx || (c.x == tx && c.y < ty)) then n
                                        else old(side[m.Index(c)])
      {
        var here := Cell(tx, ty);
        assert InSquare(here, d, k);
        if ty >= m.height {
          assert !Base(m, here);
          return false;
        }
        if !m.At(here).isBase {
          return false;
        }
        forall c | m.InBounds(c) && c != here
          ensures m.Index(c) != m.Index(here)
        {
          IndicesDiffer(m, c, here);
        }
        side[m.Index(here)] := n;
      }
    }
    return true;
  }

  method FindRun(m: TileMap, d: Cell) returns (size: int)
    requires m.WellFormed() && Base(m, d)
    ensures Run(m, d, size) && d.x + size <= m.width
  {
    size := 1;
    while d.x + size < m.width && m.At(Cell(d.x + size, d.y)).isBase
      invariant 1 <= size && d.x + size <= m.width
      invariant forall x :: d.x <= x < d.x + size ==> Base(m, Cell(x, d.y))
      decreases m.width - size
    {
      size := size + 1;
    }
  }

  lemma MarkedOneMore(m: TileMap, was: seq<u8>, now: seq<u8>, k: int, cs: seq<Cell>, d: Cell)
    requires m.WellFormed() && Marked(m, was, k, cs) && |now| == |was| && SquaresOnBases(m, k, cs + [d])
    requires forall c :: m.InBounds(c) ==> now[m.Index(c)] == if InSquare(c, d, k) then |cs| + 1 else was[m.Index(c)]
    ensures Marked(m, now, k, cs + [d])
  {
    var ds := cs + [d];
    forall c
      ensures Covered(ds, k, c) <==> Covered(cs, k, c) || InSquare(c, d, k)
    {
      CoveredOneMore(cs, k, d, c);
    }
    forall i, c | 0 <= i < |ds| && m.InBounds(c) && InSquare(c, ds[i], k)
      ensures now[m.Index(c)] == i + 1
    {
      if i < |cs| {
        assert ds[i] == cs[i] && ds[|cs|] == d;
        assert !InSquare(c, ds[|cs|], k);
      }
    }
  }

  /** Nothing is marked yet. */
  lemma Unmarked(m: TileMap, side: seq<u8>, k: int)
    requires m.WellFormed() && |side| == |m.tiles| && forall i :: 0 <= i < |side| ==> side[i] == 0
    ensures Marked(m, side, k, [])
  {
  }

  lemma MarkedAnySize(m: TileMap, side: seq<u8>, k: int, n: int)
    requires m.WellFormed() && Marked(m, side, k, [])
    ensures Marked(m, side, n, [])
  {
  }

  /** The base tiles can be told apart as at most two squares. */
  ghost predicate TwoSquares(m: TileMap)
    requires m.WellFormed()
  {
    exists k, cs :: |cs| <= 2 && Squares(m, k, cs)
  }

  lemma NotTwoSquares(m: TileMap, k: int, cs: seq<Cell>, d: Cell, size: int)
    requires m.WellFormed() && Found(m, k, cs, d) && Base(m, d) && !Covered(cs, k, d) && Run(m, d, size)
    requires |cs| == 2 || (cs != [] && size != k) || exists c :: InSquare(c, d, size) && !Base(m, c)
    ensures !TwoSquares(m)
  {
    forall n, ds | |ds| <= 2 && Squares(m, n, ds)
      ensures false
    {
      NextCorner(m, k, cs, d, n, ds);
      RunIsSide(m, n, ds, |cs|, size);
      var c :| InSquare(c, d, size) && !Base(m, c);
      assert Covered(ds, n, c);
    }
  }

  /** Succeeds exactly on at most two squares, and then numbers them in scan order. */
  method AssignSides(m: TileMap, side: array<u8>) returns (ok: bool, k: int, ghost cs: seq<Cell>)
    requires m.WellFormed() && side.Length == |m.tiles| && forall i :: 0 <= i < side.Length ==> side[i] == 0
    modifies side
    ensures ok <==> TwoSquares(m)
    ensures ok ==> |cs| <= 2 && Squares(m, k, cs) && Marked(m, side[..], k, cs) && (cs == [] ==> k == 0)
  {
    hide Found, Marked, Run, TwoSquares, Covered;
    k, cs := 0, [];
    var found := 0;
    Start(m);
    Unmarked(m, side[..], 0);
    for y := 0 to m.height
      invariant found == |cs| <= 2 && (k == 0 <==> cs == [])
      invariant Found(m, k, cs, Cell(0, y)) && Marked(m, side[..], k, cs)
    {
      for x := 0 to m.width
        invariant found == |cs| <= 2 && (k == 0 <==> cs == [])
        invariant Found(m, k, cs, Cell(x, y)) && Marked(m, side[..], k, cs)
      {
        ghost var d := Cell(x, y);
        MarkOf(m, side[..], k, cs, d);
        if !m.At(Cell(x, y)).isBase || side[m.Index(Cell(x, y))] != 0 {
          NothingHere(m, k, cs, d);
          continue;
        }
        ok, k, cs := TakeBase(m, side, Cell(x, y), found, k, cs);
        if !ok {
          return;
        }
        found := found + 1;
      }
      NextRow(m, k, cs, y);
    }
    FoundAll(m, k, cs);
    IsTwoSquares(m, k, cs);
    ok := true;
  }

  lemma MarkOf(m: TileMap, side: seq<u8>, k: int, cs: seq<Cell>, c: Cell)
    requires m.WellFormed() && Marked(m, side, k, cs) && m.InBounds(c)
    ensures |side| == |m.tiles| && (side[m.Index(c)] == 0 <==> !Covered(cs, k, c))
  {
  }

  lemma IsTwoSquares(m: TileMap, k: int, cs: seq<Cell>)
    requires m.WellFormed() && |cs| <= 2 && Squares(m, k, cs)
    ensures TwoSquares(m)
  {
  }

  /** One more base, found by its first tile. */
  method TakeBase(m: TileMap, side: array<u8>, d: Cell, found: nat, common: int, ghost cs: seq<Cell>)
    returns (ok: bool, k: int, ghost ds: seq<Cell>)
    requires m.WellFormed() && side.Length == |m.tiles| && found == |cs| <= 2 && (common == 0 <==> cs == [])
    requires Found(m, common, cs, d) && Marked(m, side[..], common, cs) && Base(m, d) && !Covered(cs, common, d)
    modifies side
    ensures !ok ==> !TwoSquares(m)
    ensures ok ==> ds == cs + [d] && |ds| <= 2 && k >= 1
    ensures ok ==> Found(m, k, ds, Cell(d.x + 1, d.y)) && Marked(m, side[..], k, ds)
  {
    hide Found, Marked, Run, TwoSquares, Covered;
    ds, k := cs, common;
    var n := found + 1;
    var size := FindRun(m, d);
    if n > 2 {
      NotTwoSquares(m, common, cs, d, size);
      return false, k, ds;
    }
    if common != 0 && size != common {
      NotTwoSquares(m, common, cs, d, size);
      return false, k, ds;
    }
    k := size;
    if common == 0 {
      AnySize(m, common, k, d);
      MarkedAnySize(m, side[..], common, k);
      NothingCovers(k, d);
    }
    RunFits(m, d, k);
    ghost var was := side[..];
    ok := MarkSquare(m, side, d, k, n);
    if !ok {
      NotTwoSquares(m, k, cs, d, k);
      return;
    }
    SquareFits(m, d, k);
    OneMoreSquare(m, k, cs, d);
    FoundOneMore(m, k, cs, d);
    MarkedOneMore(m, was, side[..], k, cs, d);
    ds := cs + [d];
  }

  lemma NothingCovers(k: int, d: Cell)
    ensures !Covered([], k, d)
  {
  }

  lemma RunFits(m: TileMap, d: Cell, k: int)
    requires m.WellFormed() && Run(m, d, k)
    ensures k >= 1 && 0 <= d.x && d.x + k <= m.width && 0 <= d.y
  {
    assert Base(m, Cell(d.x, d.y)) && Base(m, Cell(d.x + k - 1, d.y));
  }

  lemma SquareFits(m: TileMap, d: Cell, k: int)
    requires m.WellFormed() && k >= 1 && forall c :: InSquare(c, d, k) ==> Base(m, c)
    ensures OnBoard(m, d, k)
  {
    var last := Cell(d.x + k - 1, d.y + k - 1);
    assert InSquare(d, d, k) && InSquare(last, d, k);
  }

  // ---- The squares are determined by the map ----

  /** The corner of the next square comes before every base tile outside the earlier ones. */
  lemma CornerIsFirst(m: TileMap, k: int, cs: seq<Cell>, i: nat, c: Cell)
    requires m.WellFormed() && Squares(m, k, cs) && i < |cs| && Base(m, c) && !Covered(cs[..i], k, c)
    ensures !Before(c, cs[i])
  {
    var j :| 0 <= j < |cs| && InSquare(c, cs[j], k);
    forall h | 0 <= h < i
      ensures !InSquare(c, cs[h], k)
    {
      assert cs[..i][h] == cs[h];
    }
    assert forall h :: i < h < |cs| ==> Before(cs[i], cs[h]);
  }

  lemma CornerIsOutside(m: TileMap, k: int, cs: seq<Cell>, i: nat)
    requires m.WellFormed() && Squares(m, k, cs) && i < |cs|
    ensures Base(m, cs[i]) && !Covered(cs[..i], k, cs[i]) && Run(m, cs[i], k)
  {
    assert InSquare(cs[i], cs[i], k) && Covered(cs, k, cs[i]);
    forall h | 0 <= h < i
      ensures !InSquare(cs[i], cs[..i][h], k)
    {
      assert cs[..i][h] == cs[h];
    }
    forall x | cs[i].x <= x < cs[i].x + k
      ensures Base(m, Cell(x, cs[i].y))
    {
      assert InSquare(Cell(x, cs[i].y), cs[i], k) && Covered(cs, k, Cell(x, cs[i].y));
    }
  }

  lemma SameCorner(m: TileMap, k: int, cs: seq<Cell>, n: int, ds: seq<Cell>, j: nat)
    requires m.WellFormed() && Squares(m, k, cs) && Squares(m, n, ds) && j < |cs| && j <= |ds|
    requires cs[..j] == ds[..j] && (j > 0 ==> k == n)
    ensures j < |ds| && cs[j] == ds[j] && k == n
  {
    hide Squares, Covered, Base;
    CornerIsOutside(m, k, cs, j);
    if j == 0 {
      NothingCovers(n, cs[j]);
    }
    MoreSquares(m, n, ds, j, cs[j]);
    CornerIsOutside(m, n, ds, j);
    if j == 0 {
      NothingCovers(k, ds[j]);
    }
    CornerIsFirst(m, k, cs, j, ds[j]);
    CornerIsFirst(m, n, ds, j, cs[j]);
    RunIsSide(m, n, ds, j, k);
  }

  /** Two ways to see the base tiles as squares begin alike. */
  lemma {:induction false} SquaresBeginAlike(m: TileMap, k: int, cs: seq<Cell>, n: int, ds: seq<Cell>, i: nat)
    requires m.WellFormed() && Squares(m, k, cs) && Squares(m, n, ds) && i <= |cs|
    ensures i <= |ds| && cs[..i] == ds[..i] && (i > 0 ==> k == n)
    decreases i
  {
    hide Squares;
    if i > 0 {
      var j := i - 1;
      SquaresBeginAlike(m, k, cs, n, ds, j);
      SameCorner(m, k, cs, n, ds, j);
      assert cs[..i] == cs[..j] + [cs[j]] && ds[..i] == ds[..j] + [ds[j]];
    }
  }

  lemma MoreSquares(m: TileMap, n: int, ds: seq<Cell>, j: nat, c: Cell)
    requires m.WellFormed() && Squares(m, n, ds) && j <= |ds| && Base(m, c) && !Covered(ds[..j], n, c)
    ensures j < |ds|
  {
    assert ds[..|ds|] == ds;
  }

  lemma SquaresAreUnique(m: TileMap, k: int, cs: seq<Cell>, n: int, ds: seq<Cell>)
    requires m.WellFormed() && Squares(m, k, cs) && Squares(m, n, ds)
    ensures cs == ds && (cs != [] ==> k == n)
  {
    SquaresBeginAlike(m, k, cs, n, ds, |cs|);
    SquaresBeginAlike(m, n, ds, k, cs, |ds|);
    assert cs[..|cs|] == cs && ds[..|ds|] == ds;
  }
}

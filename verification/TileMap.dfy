/** The static part of a map: include/corertt/tilemap.h without the occupant
    fields. Tiles are stored row by row. */
module TileMap {
  import opened Common
  import opened TileCodec

  lemma IndexFits(x: int, y: int, width: int, height: int)
    requires 0 <= x < width && 0 <= y < height
    ensures 0 <= y * width + x < width * height
  {
    MultiplyMonotone(y, height, width);
  }

  lemma {:induction false} MultiplyMonotone(a: int, b: int, w: nat)
    requires a < b
    ensures a * w + w <= b * w
    decreases b - a
  {
    if a + 1 < b {
      MultiplyMonotone(a + 1, b, w);
    }
    assert (a + 1) * w == a * w + w;
  }

  lemma QuotientIsUnique(q: int, r: int, p: int, s: int, w: int)
    requires 0 <= r < w && 0 <= s < w && q * w + r == p * w + s
    ensures q == p && r == s
  {
    if q < p {
      MultiplyMonotone(q, p, w);
    } else if p < q {
      MultiplyMonotone(p, q, w);
    }
  }

  /** Row-major indices determine their cell. */
  lemma IndexSplits(x: int, y: int, width: int)
    requires 0 <= x < width && 0 <= y
    ensures (y * width + x) / width == y && (y * width + x) % width == x
  {
    var i := y * width + x;
    assert i == (i / width) * width + i % width;
    QuotientIsUnique(i / width, i % width, y, x, width);
  }

  datatype TileMap = TileMap(width: int, height: int, baseSize: int, tiles: seq<TileFlags>) {

    predicate WellFormed() {
      0 <= width && 0 <= height && |tiles| == width * height
    }

    predicate InBounds(c: Cell) {
      0 <= c.x < width && 0 <= c.y < height
    }

    function Index(c: Cell): (i: nat)
      requires InBounds(c)
      ensures i < width * height
    {
      IndexFits(c.x, c.y, width, height);
      c.y * width + c.x
    }

    function At(c: Cell): TileFlags
      requires WellFormed() && InBounds(c)
    {
      tiles[Index(c)]
    }
  }

  /** Tiles are numbered row by row. */
  lemma TilesAreInRows(m: TileMap, x: int, y: int)
    requires m.WellFormed() && 0 <= x < m.width && 0 <= y < m.height
    ensures 0 <= y * m.width + x < |m.tiles| && m.At(Cell(x, y)) == m.tiles[y * m.width + x]
  {
    IndexFits(x, y, m.width, m.height);
  }

  /** c lies in the square of the given size whose top-left cell is corner. */
  predicate InSquare(c: Cell, corner: Cell, size: int) {
    corner.x <= c.x < corner.x + size && corner.y <= c.y < corner.y + size
  }

  /** The base tiles of the given side are exactly one baseSize square on the board. */
  ghost predicate SquareBase(m: TileMap, side: u8, corner: Cell)
    requires m.WellFormed()
  {
    && 0 <= corner.x && corner.x + m.baseSize <= m.width && 0 <= corner.y && corner.y + m.baseSize <= m.height
    && (forall c :: m.InBounds(c) ==> (m.At(c).isBase && m.At(c).side == side <==> InSquare(c, corner, m.baseSize)))
  }

  /** A map the engine can start a game on: every base tile belongs to player 1 or
      2, and each player's base is one square. */
  ghost predicate TwoBases(m: TileMap, corner1: Cell, corner2: Cell) {
    && m.WellFormed() && m.baseSize >= 1
    && SquareBase(m, 1, corner1) && SquareBase(m, 2, corner2)
    && (forall c :: m.InBounds(c) && m.At(c).isBase ==> m.At(c).side == 1 || m.At(c).side == 2)
  }

  lemma BasesAreDisjoint(m: TileMap, corner1: Cell, corner2: Cell)
    requires TwoBases(m, corner1, corner2)
    ensures forall c :: InSquare(c, corner1, m.baseSize) ==> !InSquare(c, corner2, m.baseSize)
  {
    forall c | InSquare(c, corner1, m.baseSize)
      ensures !InSquare(c, corner2, m.baseSize)
    {
      assert m.InBounds(c) && m.At(c).side == 1;
    }
  }
}

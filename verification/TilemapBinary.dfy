/**
 Maps as bytes (src/tilemap.cpp:59-214, 380-423): what the loader accepts, which is
 exactly the maps whose bases are squares of the declared size, and what saving and
 loading again gives.
 */
module TilemapBinary {
  import opened Common
  import opened TileCodec
  import opened TileMap
  import opened Wire
  import opened StreamAdapter
  import opened CppDecoder
  import opened ReplayParser

  const MAGIC: seq<u8> := [0x43, 0x52, 0x54, 0x4d, 0x41, 0x50]
  const VERSION: u8 := 2
  const PREFIX := 15
  const MAX_DIMENSION := 512

  datatype LoadError = TooShort | BadMagic | BadVersion | BadSize | MissingTiles | BadTerrain | BadSide | SideWithoutBase
                     | BaseWithoutSide | TileOutsideBase | BaseExceedsMap | BaseNotSquare | TrailingBytes

  /** Conversion of an unsigned 16-bit number to the signed position type. */
  function ToPos(v: u16): int {
    if v < 0x8000 then v else v - 0x1_0000
  }

  // ---- What is accepted ----

  /** The source reads out of bounds on a base tile of side 0; here it is rejected. */
  predicate GoodTile(t: TileFlags) {
    t.terrain != 2 && t.terrain < 4 && t.side <= 2 && (t.isBase <==> t.side != 0)
  }

  predicate GoodTiles(m: TileMap) {
    forall i :: 0 <= i < |m.tiles| ==> GoodTile(m.tiles[i])
  }

  predicate IsBaseOf(m: TileMap, side: u8, c: Cell)
    requires m.WellFormed()
  {
    m.InBounds(c) && m.At(c).isBase && m.At(c).side == side
  }

  /** The base of a side is absent, or exactly one square of the declared size. With a
      declared size below 1, it is at most one tile instead. */
  ghost predicate BaseOk(m: TileMap, side: u8)
    requires m.WellFormed()
  {
    if m.baseSize >= 1 then NoBase(m, side) || exists corner :: SquareBase(m, side, corner)
    else forall c, d :: IsBaseOf(m, side, c) && IsBaseOf(m, side, d) ==> c == d
  }

  ghost predicate NoBase(m: TileMap, side: u8)
    requires m.WellFormed()
  {
    forall c :: !IsBaseOf(m, side, c)
  }

  ghost predicate ValidMap(m: TileMap) {
    && m.WellFormed() && 1 <= m.width <= MAX_DIMENSION && 1 <= m.height <= MAX_DIMENSION
    && GoodTiles(m) && BaseOk(m, 1) && BaseOk(m, 2)
  }

  /** The map that bytes declare. */
  function Declared(b: seq<u8>): TileMap
    requires |b| >= PREFIX
    requires var w, h := ToPos(GetU16(b[7..])), ToPos(GetU16(b[9..])); 0 <= w && 0 <= h && |b| >= PREFIX + w * h
  {
    var w, h := ToPos(GetU16(b[7..])), ToPos(GetU16(b[9..]));
    TileMap(w, h, ToPos(GetU16(b[11..])), GetTiles(b[PREFIX..], w * h))
  }

  predicate Readable(b: seq<u8>) {
    && |b| >= PREFIX && b[..6] == MAGIC && b[6] == VERSION
    && var w, h := ToPos(GetU16(b[7..])), ToPos(GetU16(b[9..]));
       1 <= w <= MAX_DIMENSION && 1 <= h <= MAX_DIMENSION && |b| >= PREFIX + w * h
  }

  /** The bytes of a valid map, and nothing after them. */
  ghost predicate Accepts(b: seq<u8>) {
    Readable(b) && |b| == PREFIX + |Declared(b).tiles| && ValidMap(Declared(b))
  }

  // ---- Geometry ----

  /** c comes before (x, y) row by row. */
  predicate Before(c: Cell, x: int, y: int) {
    c.y < y || (c.y == y && c.x < x)
  }

  /** The first tile of a square base, row by row, is its corner. */
  lemma FirstIsCorner(m: TileMap, side: u8, first: Cell)
    requires m.WellFormed() && m.baseSize >= 1 && BaseOk(m, side) && IsBaseOf(m, side, first)
    requires forall c :: IsBaseOf(m, side, c) ==> !Before(c, first.x, first.y)
    ensures SquareBase(m, side, first)
  {
    var corner :| SquareBase(m, side, corner);
    assert InSquare(corner, corner, m.baseSize) && m.InBounds(corner);
    assert IsBaseOf(m, side, corner);
    assert InSquare(first, corner, m.baseSize);
    assert first == corner;
  }

  /** What is known of one side while tiles before (x, y) have been looked at. */
  ghost predicate SideSeen(m: TileMap, side: u8, found: bool, first: Cell, x: int, y: int)
    requires m.WellFormed()
  {
    if !found then forall c :: IsBaseOf(m, side, c) ==> !Before(c, x, y)
    else
      && IsBaseOf(m, side, first) && Before(first, x, y)
      && (forall c :: IsBaseOf(m, side, c) ==> !Before(c, first.x, first.y))
      && first.x + m.baseSize <= m.width && first.y + m.baseSize <= m.height
      && (forall c :: InSquare(c, first, m.baseSize) ==> IsBaseOf(m, side, c))
      && (forall c :: IsBaseOf(m, side, c) && Before(c, x, y) ==> c == first || InSquare(c, first, m.baseSize))
  }

  lemma IsSquareBase(m: TileMap, side: u8, first: Cell)
    requires m.WellFormed() && m.InBounds(first)
    requires first.x + m.baseSize <= m.width && first.y + m.baseSize <= m.height
    requires forall c :: m.InBounds(c) ==> (IsBaseOf(m, side, c) <==> InSquare(c, first, m.baseSize))
    ensures SquareBase(m, side, first)
  {
    forall c | m.InBounds(c)
      ensures m.At(c).isBase && m.At(c).side == side <==> InSquare(c, first, m.baseSize)
    {
      assert IsBaseOf(m, side, c) <==> InSquare(c, first, m.baseSize);
    }
  }

  lemma SeenAll(m: TileMap, side: u8, found: bool, first: Cell)
    requires m.WellFormed() && SideSeen(m, side, found, first, 0, m.height)
    ensures BaseOk(m, side)
  {
    if !found {
      forall c
        ensures !IsBaseOf(m, side, c)
      {
      }
    } else if m.baseSize >= 1 {
      assert InSquare(first, first, m.baseSize);
      forall c | m.InBounds(c)
        ensures IsBaseOf(m, side, c) <==> InSquare(c, first, m.baseSize)
      {
        assert Before(c, 0, m.height);
      }
      IsSquareBase(m, side, first);
    } else {
      forall c | IsBaseOf(m, side, c)
        ensures c == first
      {
      }
    }
  }

  /** Looking at a tile that is not of this side. */
  lemma NotThisSide(m: TileMap, side: u8, found: bool, first: Cell, x: int, y: int)
    requires m.WellFormed() && SideSeen(m, side, found, first, x, y) && !IsBaseOf(m, side, Cell(x, y))
    ensures SideSeen(m, side, found, first, x + 1, y)
  {
    assert forall c :: Before(c, x + 1, y) <==> Before(c, x, y) || c == Cell(x, y);
  }

  lemma NextRow(m: TileMap, side: u8, found: bool, first: Cell, y: int)
    requires m.WellFormed() && SideSeen(m, side, found, first, m.width, y)
    ensures SideSeen(m, side, found, first, 0, y + 1)
  {
    assert forall c :: m.InBounds(c) ==> (Before(c, 0, y + 1) <==> Before(c, m.width, y));
  }

  /** One base tile of a side, the first or a later one; None means it is in order. */
  method CheckBaseTile(m: TileMap, side: u8, found: bool, first: Cell, x: int, y: int) returns (error: Option<LoadError>)
    requires m.WellFormed() && IsBaseOf(m, side, Cell(x, y)) && SideSeen(m, side, found, first, x, y)
    ensures error.None? ==> SideSeen(m, side, true, if found then first else Cell(x, y), x + 1, y)
    ensures error.Some? ==> !BaseOk(m, side)
  {
    assert forall c :: Before(c, x + 1, y) <==> Before(c, x, y) || c == Cell(x, y);
    if found {
      if x < first.x || x >= first.x + m.baseSize || y < first.y || y >= first.y + m.baseSize {
        TileOutside(m, side, first, Cell(x, y));
        return Some(TileOutsideBase);
      }
      return None;
    }
    if x + m.baseSize > m.width || y + m.baseSize > m.height {
      if BaseOk(m, side) && m.baseSize >= 1 {
        FirstIsCorner(m, side, Cell(x, y));
      }
      return Some(BaseExceedsMap);
    }
    for dy := 0 to if m.baseSize < 0 then 0 else m.baseSize
      invariant forall c :: InSquare(c, Cell(x, y), m.baseSize) && c.y < y + dy ==> IsBaseOf(m, side, c)
    {
      for dx := 0 to m.baseSize
        invariant forall c :: InSquare(c, Cell(x, y), m.baseSize) && (c.y < y + dy || (c.y == y + dy && c.x < x + dx)) ==>
                    IsBaseOf(m, side, c)
      {
        var tile := m.At(Cell(x + dx, y + dy));
        if !tile.isBase || tile.side != side {
          NotSquare(m, side, Cell(x, y), Cell(x + dx, y + dy));
          return Some(BaseNotSquare);
        }
      }
    }
    return None;
  }

  lemma TileOutside(m: TileMap, side: u8, first: Cell, c: Cell)
    requires m.WellFormed() && IsBaseOf(m, side, first) && IsBaseOf(m, side, c) && c != first
    requires forall d :: IsBaseOf(m, side, d) ==> !Before(d, first.x, first.y)
    requires !InSquare(c, first, m.baseSize)
    ensures !BaseOk(m, side)
  {
    if BaseOk(m, side) && m.baseSize >= 1 {
      FirstIsCorner(m, side, first);
    }
  }

  lemma NotSquare(m: TileMap, side: u8, first: Cell, c: Cell)
    requires m.WellFormed() && m.baseSize >= 1 && IsBaseOf(m, side, first) && m.InBounds(c)
    requires forall d :: IsBaseOf(m, side, d) ==> !Before(d, first.x, first.y)
    requires InSquare(c, first, m.baseSize) && !IsBaseOf(m, side, c)
    ensures !BaseOk(m, side)
  {
    if BaseOk(m, side) {
      FirstIsCorner(m, side, first);
    }
  }

  method CheckBases(m: TileMap) returns (error: Option<LoadError>)
    requires m.WellFormed() && GoodTiles(m) && m.width >= 1 && m.height >= 1
    ensures error.None? <==> BaseOk(m, 1) && BaseOk(m, 2)
  {
    hide SideSeen, BaseOk;
    var found1, found2 := false, false;
    var first1, first2 := Cell(0, 0), Cell(0, 0);
    NothingSeen(m, 1, first1);
    NothingSeen(m, 2, first2);
    for y := 0 to m.height
      invariant SideSeen(m, 1, found1, first1, 0, y) && SideSeen(m, 2, found2, first2, 0, y)
    {
      for x := 0 to m.width
        invariant SideSeen(m, 1, found1, first1, x, y) && SideSeen(m, 2, found2, first2, x, y)
      {
        var tile := m.At(Cell(x, y));
        assert GoodTile(tile);
        if !tile.isBase {
          NotThisSide(m, 1, found1, first1, x, y);
          NotThisSide(m, 2, found2, first2, x, y);
        } else if tile.side == 1 {
          error := CheckBaseTile(m, 1, found1, first1, x, y);
          if error.Some? {
            return;
          }
          found1, first1 := true, if found1 then first1 else Cell(x, y);
          NotThisSide(m, 2, found2, first2, x, y);
        } else {
          error := CheckBaseTile(m, 2, found2, first2, x, y);
          if error.Some? {
            return;
          }
          found2, first2 := true, if found2 then first2 else Cell(x, y);
          NotThisSide(m, 1, found1, first1, x, y);
        }
      }
      NextRow(m, 1, found1, first1, y);
      NextRow(m, 2, found2, first2, y);
    }
    SeenAll(m, 1, found1, first1);
    SeenAll(m, 2, found2, first2);
    return None;
  }

  lemma NothingSeen(m: TileMap, side: u8, first: Cell)
    requires m.WellFormed()
    ensures SideSeen(m, side, false, first, 0, 0)
  {
  }

  // ---- Loading ----

  method ReadTile(reader: ReadBuffer) returns (r: Result<TileFlags, LoadError>)
    requires reader.Valid() && |reader.Unread()| >= 1
    modifies reader.stream
    ensures reader.Valid() && reader.Unread() == old(reader.Unread())[1..]
    ensures var t := Unpack(old(reader.Unread())[0]); if Usable(t) then r == Success(t) else r.Failure?
  {
    var packed := reader.ReadU8();
    var flags := Unpack(packed);
    if flags.terrain != EMPTY && flags.terrain != WATER && flags.terrain != OBSTACLE {
      return Failure(BadTerrain);
    }
    if flags.side > 2 {
      return Failure(BadSide);
    }
    if !flags.isBase && flags.side != 0 {
      return Failure(SideWithoutBase);
    }
    r := Success(flags);
  }

  lemma DeclaredLength(b: seq<u8>, n: nat)
    requires n <= |b|
    ensures |GetTiles(b, n)| == n
  {
  }

  lemma DeclaredTile(b: seq<u8>, n: nat, i: nat)
    requires i < n <= |b|
    ensures |GetTiles(b, n)| == n && GetTiles(b, n)[i] == Unpack(b[i])
  {
  }

  lemma NoTilesAreUsable()
    ensures AllUsable([])
  {
  }

  lemma UsableOneMore(tiles: seq<TileFlags>, t: TileFlags)
    requires AllUsable(tiles)
    ensures AllUsable(tiles + [t]) <==> Usable(t)
  {
    assert (tiles + [t])[|tiles|] == t;
  }

  lemma UnusableTile(tiles: seq<TileFlags>, i: nat)
    requires i < |tiles| && !Usable(tiles[i])
    ensures !AllUsable(tiles)
  {
  }

  method ReadTiles(reader: ReadBuffer, width: nat, height: nat) returns (r: Result<seq<TileFlags>, LoadError>)
    requires reader.Valid() && |reader.Unread()| >= width * height
    modifies reader.stream
    ensures reader.Valid()
    ensures var declared := GetTiles(old(reader.Unread()), width * height);
            if AllUsable(declared) then r == Success(declared) && reader.Unread() == old(reader.Unread())[width * height..]
            else r.Failure?
  {
    hide Unpack, Usable, GetTiles, AllUsable;
    ghost var b := reader.Unread();
    ghost var declared := GetTiles(b, width * height);
    DeclaredLength(b, width * height);
    NoTilesAreUsable();
    var tiles: seq<TileFlags> := [];
    ghost var i := 0;
    for y := 0 to height
      invariant reader.Valid() && i == y * width <= width * height && reader.Unread() == b[i..]
      invariant tiles == declared[..i] && AllUsable(tiles)
    {
      MultiplyMonotone(y, height, width);
      ghost var row := i;
      assert row + width <= width * height;
      for x := 0 to width
        invariant reader.Valid() && i == row + x && reader.Unread() == b[i..]
        invariant tiles == declared[..i] && AllUsable(tiles)
      {
        DeclaredTile(b, width * height, i);
        TakeOneMore(declared, i);
        var tile := ReadTile(reader);
        if tile.Failure? {
          UnusableTile(declared, i);
          return Failure(tile.error);
        }
        UsableOneMore(tiles, tile.value);
        tiles := tiles + [tile.value];
        i := i + 1;
      }
      assert (y + 1) * width == y * width + width;
    }
    assert i == width * height;
    assert declared[..i] == declared;
    r := Success(tiles);
  }

  /** What the scan of the tiles checks: all but that base tiles have a side. */
  predicate Usable(t: TileFlags) {
    t.terrain != 2 && t.side <= 2 && (!t.isBase ==> t.side == 0)
  }

  predicate AllUsable(tiles: seq<TileFlags>) {
    forall i :: 0 <= i < |tiles| ==> Usable(tiles[i])
  }

  /** Loading succeeds on exactly the accepted bytes and gives the map they declare. */
  method LoadBinary(b: seq<u8>) returns (r: Result<TileMap, LoadError>)
    ensures r.Success? <==> Accepts(b)
    ensures r.Success? ==> r.value == Declared(b)
  {
    hide ValidMap, GetTiles, AllUsable;
    var stream := new MemoryStreamAdapter(b);
    var reader := new ReadBuffer(stream);
    var available := reader.Has(PREFIX);
    if !available {
      return Failure(TooShort);
    }
    var magic := ReadMagic(reader);
    if !magic {
      return Failure(LoadError.BadMagic);
    }
    var version := reader.ReadU8();
    if version != VERSION {
      return Failure(BadVersion);
    }
    var w := reader.ReadU16();
    var h := reader.ReadU16();
    var s := reader.ReadU16();
    reader.Skip(2);
    var width, height, baseSize := ToPos(w), ToPos(h), ToPos(s);
    if width <= 0 || height <= 0 || width > MAX_DIMENSION || height > MAX_DIMENSION {
      return Failure(BadSize);
    }
    MultiplyMonotone(0, height, width);
    available := reader.Has(width * height);
    if !available {
      return Failure(MissingTiles);
    }
    assert reader.Unread() == b[PREFIX..];
    var tiles := ReadTiles(reader, width, height);
    DeclaredIsUsable(b);
    if tiles.Failure? {
      return Failure(tiles.error);
    }
    var m := TileMap(width, height, baseSize, tiles.value);
    assert m == Declared(b);
    var error := CheckMap(m);
    if error.Some? {
      return Failure(error.value);
    }
    var atEnd := stream.End();
    if !atEnd {
      return Failure(TrailingBytes);
    }
    r := Success(m);
  }

  method CheckMap(m: TileMap) returns (error: Option<LoadError>)
    requires m.WellFormed() && 1 <= m.width <= MAX_DIMENSION && 1 <= m.height <= MAX_DIMENSION
    requires AllUsable(m.tiles) && forall i :: 0 <= i < |m.tiles| ==> m.tiles[i].terrain < 4
    ensures error.None? <==> ValidMap(m)
  {
    hide BaseOk;
    UsableAndSided(m);
    var sided := EveryBaseHasASide(m.tiles);
    if !sided {
      return Some(BaseWithoutSide);
    }
    error := CheckBases(m);
  }

  lemma DeclaredIsUsable(b: seq<u8>)
    requires Readable(b)
    ensures ValidMap(Declared(b)) ==> AllUsable(Declared(b).tiles)
    ensures forall i :: 0 <= i < |Declared(b).tiles| ==> Declared(b).tiles[i].terrain < 4
    ensures |Declared(b).tiles| == Declared(b).width * Declared(b).height
  {
    UsableAndSided(Declared(b));
  }

  lemma UsableAndSided(m: TileMap)
    ensures GoodTiles(m) ==> AllUsable(m.tiles)
    ensures AllUsable(m.tiles) && Sided(m.tiles) && (forall i :: 0 <= i < |m.tiles| ==> m.tiles[i].terrain < 4) ==> GoodTiles(m)
    ensures GoodTiles(m) ==> Sided(m.tiles)
  {
  }

  predicate Sided(tiles: seq<TileFlags>) {
    forall i :: 0 <= i < |tiles| ==> tiles[i].isBase ==> tiles[i].side != 0
  }

  /** Stands for the array access with index -1 that a base tile of side 0 leads to. */
  method EveryBaseHasASide(tiles: seq<TileFlags>) returns (r: bool)
    ensures r <==> Sided(tiles)
  {
    for i := 0 to |tiles|
      invariant Sided(tiles[..i])
    {
      if tiles[i].isBase && tiles[i].side == 0 {
        return false;
      }
    }
    assert tiles[..|tiles|] == tiles;
    return true;
  }

  method ReadMagic(reader: ReadBuffer) returns (r: bool)
    requires reader.Valid() && |reader.Unread()| >= 6
    modifies reader.stream
    ensures reader.Valid() && (r <==> old(reader.Unread())[..6] == MAGIC)
    ensures r ==> reader.stream.cursor == old(reader.stream.cursor) + 6
  {
    ghost var b := reader.Unread();
    for i := 0 to 6
      invariant reader.Valid() && reader.stream.cursor == old(reader.stream.cursor) + i && b[..i] == MAGIC[..i]
    {
      TakeOneMore(b, i);
      TakeOneMore(MAGIC, i);
      var v := reader.ReadU8();
      if v != MAGIC[i] {
        assert b[..6][i] != MAGIC[i];
        return false;
      }
    }
    return true;
  }

  // ---- Saving ----

  function PackedTiles(tiles: seq<TileFlags>): seq<u8> {
    seq(|tiles|, i requires 0 <= i < |tiles| => Pack(tiles[i]))
  }

  function SavedBytes(m: TileMap): seq<u8>
    requires 0 <= m.width < 0x8000 && 0 <= m.height < 0x8000 && 0 <= m.baseSize < 0x8000
  {
    MAGIC + [VERSION] + U16(m.width) + U16(m.height) + U16(m.baseSize) + U16(0) + PackedTiles(m.tiles)
  }

  /** None stands for the exceptions thrown on sizes that are not positive. */
  method SaveAsBinary(m: TileMap) returns (r: Option<seq<u8>>)
    requires m.WellFormed() && -0x8000 <= m.width < 0x8000 && -0x8000 <= m.height < 0x8000 && -0x8000 <= m.baseSize < 0x8000
    ensures r == if m.width > 0 && m.height > 0 && m.baseSize >= 0 then Some(SavedBytes(m)) else None
  {
    if m.width <= 0 || m.height <= 0 {
      return None;
    }
    if m.baseSize < 0 {
      return None;
    }
    var payload := new WriteBuffer();
    payload.WriteU16(m.width);
    payload.WriteU16(m.height);
    payload.WriteU16(m.baseSize);
    payload.WriteU16(0);
    ghost var head := payload.bytes;
    for y := 0 to m.height
      invariant y * m.width <= |m.tiles| && payload.bytes == head + PackedTiles(m.tiles)[..y * m.width]
      invariant fresh(payload)
    {
      MultiplyMonotone(y, m.height, m.width);
      for x := 0 to m.width
        invariant fresh(payload) && payload.bytes == head + PackedTiles(m.tiles)[..y * m.width + x]
      {
        TakeOneMore(PackedTiles(m.tiles), y * m.width + x);
        payload.WriteU8(Pack(m.At(Cell(x, y))));
      }
      assert (y + 1) * m.width == y * m.width + m.width;
    }
    assert PackedTiles(m.tiles)[..m.height * m.width] == PackedTiles(m.tiles);
    assert MAGIC + [VERSION] + payload.bytes == SavedBytes(m);
    r := Some(MAGIC + [VERSION] + payload.bytes);
  }

  lemma SavedBytesDeclare(m: TileMap)
    requires m.WellFormed() && 1 <= m.width < 0x8000 && 1 <= m.height < 0x8000 && 0 <= m.baseSize < 0x8000
    requires GoodTiles(m)
    ensures |SavedBytes(m)| == PREFIX + m.width * m.height && SavedBytes(m)[..6] == MAGIC && SavedBytes(m)[6] == VERSION
    ensures ToPos(GetU16(SavedBytes(m)[7..])) == m.width && ToPos(GetU16(SavedBytes(m)[9..])) == m.height
    ensures Declared(SavedBytes(m)) == m
  {
    var b := SavedBytes(m);
    assert b[7..9] == U16(m.width) && b[9..11] == U16(m.height) && b[11..13] == U16(m.baseSize);
    assert b[PREFIX..] == PackedTiles(m.tiles);
    forall i | 0 <= i < |m.tiles|
      ensures Unpack(Pack(m.tiles[i])) == m.tiles[i]
    {
      UnpackPack(m.tiles[i]);
    }
  }

  /** A map that saves is accepted again exactly when it is valid, and comes back unchanged. */
  lemma SavedMapLoads(m: TileMap)
    requires m.WellFormed() && 1 <= m.width < 0x8000 && 1 <= m.height < 0x8000 && 0 <= m.baseSize < 0x8000
    requires GoodTiles(m)
    ensures Accepts(SavedBytes(m)) <==> ValidMap(m)
    ensures Accepts(SavedBytes(m)) ==> Declared(SavedBytes(m)) == m
  {
    hide BaseOk;
    SavedBytesDeclare(m);
  }

  /** A game can start on an accepted map exactly if it declares a base size of at least
      1 and has tiles of both sides. */
  lemma AcceptedMapStartsGame(b: seq<u8>)
    requires Accepts(b)
    ensures (exists corner1, corner2 :: TwoBases(Declared(b), corner1, corner2))
        <==> Declared(b).baseSize >= 1 && !NoBase(Declared(b), 1) && !NoBase(Declared(b), 2)
  {
    hide Declared;
    var m := Declared(b);
    if corner1, corner2 :| TwoBases(m, corner1, corner2) {
      assert InSquare(corner1, corner1, m.baseSize) && InSquare(corner2, corner2, m.baseSize);
      assert IsBaseOf(m, 1, corner1) && IsBaseOf(m, 2, corner2);
    }
    if m.baseSize >= 1 && !NoBase(m, 1) && !NoBase(m, 2) {
      var corner1 :| SquareBase(m, 1, corner1);
      var corner2 :| SquareBase(m, 2, corner2);
      forall c | m.InBounds(c) && m.At(c).isBase
        ensures m.At(c).side == 1 || m.At(c).side == 2
      {
        assert GoodTile(m.tiles[m.Index(c)]);
      }
      assert TwoBases(m, corner1, corner2);
    }
  }

  /** A declared size below 1 does not describe the bases: an accepted map may have a
      base tile although its base size is 0. */
  lemma BaseSizeZeroIsAccepted()
    ensures Accepts(SavedBytes(TileMap(1, 1, 0, [TileFlags(0, 1, false, true)])))
  {
    var m := TileMap(1, 1, 0, [TileFlags(0, 1, false, true)]);
    SavedMapLoads(m);
    assert forall c :: m.InBounds(c) ==> c == Cell(0, 0);
  }
}

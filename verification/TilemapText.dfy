/**
 Maps as text (src/tilemap.cpp:216-378): the stream operations the loader uses, with
 their behaviour at the end of the text, the maps it accepts, and what saving and
 loading again gives.
 */
module TilemapText {
  import opened Common
  import opened TileCodec
  import opened TileMap
  import opened Numerals
  import opened BaseMarking

  // ---- An input string stream ----

  predicate IsSpace(c: char) {
    c == ' ' || 9 <= c as int <= 13
  }

  /** What is left to read, and whether neither the end nor a failure has been met. */
  datatype Input = Input(rest: string, good: bool)

  function SkipSpaces(s: string): string {
    if s != [] && IsSpace(s[0]) then SkipSpaces(s[1..]) else s
  }

  /** The number of digits s begins with. */
  function DigitRun(s: string): (n: nat)
    ensures n <= |s| && AllDigits(s[..n], 10) && (n < |s| ==> !IsDigit(s[n], 10))
  {
    if s != [] && IsDigit(s[0], 10) then
      assert s[..1 + DigitRun(s[1..])] == [s[0]] + s[1..][..DigitRun(s[1..])];
      1 + DigitRun(s[1..])
    else 0
  }

  const MAX_INT := 0x7fff_ffff
  const MIN_INT := -0x8000_0000

  /** Extraction of an int. Without a character to read, the variable is not assigned;
      without digits, it becomes 0; out of range, the nearest int. */
  datatype Number = Unassigned | Assigned(value: int, after: Input)

  function GetNumber(input: Input): Number {
    var s := SkipSpaces(input.rest);
    if !input.good || s == [] then Unassigned
    else
      var t := if s[0] == '-' || s[0] == '+' then s[1..] else s;
      var n := DigitRun(t);
      if n == 0 then Assigned(0, Input(t, false))
      else
        var v := (if s[0] == '-' then -1 else 1) * Value(t[..n], 10);
        if v > MAX_INT then Assigned(MAX_INT, Input(t[n..], false))
        else if v < MIN_INT then Assigned(MIN_INT, Input(t[n..], false))
        else Assigned(v, Input(t[n..], n < |t|))
  }

  /** The place of the first newline, or the end. */
  function NewlineAt(s: string): (n: nat)
    ensures n <= |s|
  {
    if s == [] || s[0] == '\n' then 0 else 1 + NewlineAt(s[1..])
  }

  function IgnoreLine(input: Input): Input {
    var n := NewlineAt(input.rest);
    if !input.good then input
    else if n < |input.rest| then Input(input.rest[n + 1..], true)
    else Input([], false)
  }

  /** A stream that is not good leaves the line as it was. */
  function GetLine(input: Input, line: string): (Input, string) {
    var n := NewlineAt(input.rest);
    if !input.good then (input, line)
    else if n < |input.rest| then (Input(input.rest[n + 1..], true), input.rest[..n])
    else (Input([], false), input.rest)
  }

  function Filtered(s: string): string {
    if s == [] then [] else (if IsSpace(s[0]) then [] else [s[0]]) + Filtered(s[1..])
  }

  // ---- Tiles ----

  function TileFor(c: char): Option<TileFlags> {
    match c
    case '#' => Some(TileFlags(OBSTACLE, 0, false, false))
    case '.' => Some(TileFlags(EMPTY, 0, false, false))
    case '~' => Some(TileFlags(WATER, 0, false, false))
    case '$' => Some(TileFlags(EMPTY, 0, true, false))
    case 'B' => Some(TileFlags(EMPTY, 0, false, true))
    case _ => None
  }

  predicate IsRow(line: string, width: int) {
    |line| == width && forall x :: 0 <= x < |line| ==> TileFor(line[x]).Some?
  }

  function RowTiles(line: string): (tiles: seq<TileFlags>)
    requires IsRow(line, |line|)
    ensures |tiles| == |line|
  {
    seq(|line|, x requires 0 <= x < |line| => TileFor(line[x]).value)
  }

  /** The next n rows, if they are rows. */
  function Rows(input: Input, line: string, width: int, n: nat): (rows: Option<seq<string>>)
    ensures rows.Some? ==> |rows.value| == n && forall y :: 0 <= y < n ==> IsRow(rows.value[y], width)
    decreases n
  {
    if n == 0 then Some([])
    else
      var (after, text) := GetLine(input, line);
      var row := Filtered(text);
      if !IsRow(row, width) then None
      else
        match Rows(after, row, width, n - 1)
        case None => None
        case Some(others) => Some([row] + others)
  }

  function GridTiles(rows: seq<string>, width: nat): (tiles: seq<TileFlags>)
    requires forall y :: 0 <= y < |rows| ==> IsRow(rows[y], width)
    ensures |tiles| == |rows| * width
  {
    OneRowLess(|rows|, width);
    if rows == [] then []
    else
      assert IsRow(rows[0], width);
      RowTiles(rows[0]) + GridTiles(rows[1..], width)
  }

  lemma OneRowLess(n: int, width: int)
    ensures n * width == width + (n - 1) * width
  {
  }

  lemma {:induction false} GridTilesAt(rows: seq<string>, width: nat, x: nat, y: nat)
    requires forall y :: 0 <= y < |rows| ==> IsRow(rows[y], width)
    requires x < width && y < |rows|
    ensures 0 <= y * width + x < |rows| * width
    ensures GridTiles(rows, width)[y * width + x] == TileFor(rows[y][x]).value
    decreases y
  {
    IndexFits(x, y, width, |rows|);
    if y > 0 {
      GridTilesAt(rows[1..], width, x, y - 1);
      OneRowLess(y, width);
      RowBelow(rows, width, (y - 1) * width + x);
    }
  }

  lemma RowBelow(rows: seq<string>, width: nat, i: nat)
    requires forall y :: 0 <= y < |rows| ==> IsRow(rows[y], width)
    requires rows != [] && i < |GridTiles(rows[1..], width)|
    ensures width + i < |GridTiles(rows, width)| && GridTiles(rows, width)[width + i] == GridTiles(rows[1..], width)[i]
  {
  }

  // ---- What is accepted ----

  /** Width, height, and the input after them. None where the source goes on with a
      height it has not assigned. */
  function Header(text: string): Option<(int, int, Input)> {
    match GetNumber(Input(text, true))
    case Unassigned => None
    case Assigned(width, after) =>
      match GetNumber(after)
      case Unassigned => None
      case Assigned(height, rest) => Some((width, height, IgnoreLine(rest)))
  }

  /** Conversion to the 16-bit position type. */
  function ToPos(v: int): int {
    (v + 0x8000) % 0x1_0000 - 0x8000
  }

  const BLANK := TileFlags(EMPTY, 0, false, false)

  /** Tile by tile, the first map is the second with the sides of the bases marked. */
  ghost predicate SidesAdded(m: TileMap, plain: TileMap, cs: seq<Cell>)
    requires plain.WellFormed()
  {
    && m.width == plain.width && m.height == plain.height && |m.tiles| == |plain.tiles|
    && (cs == [] ==> m.baseSize == 0)
    && (forall c :: plain.InBounds(c) ==>
          && m.At(c) == plain.At(c).(side := m.At(c).side)
          && (m.At(c).side == 0 <==> !Covered(cs, m.baseSize, c)))
    && (forall i, c :: 0 <= i < |cs| && plain.InBounds(c) && InSquare(c, cs[i], m.baseSize) ==> m.At(c).side == i + 1)
  }

  /** m is a map with the tiles of the rows, its bases at most two squares, numbered in scan order. */
  ghost predicate IsMapOf(m: TileMap, width: int, height: int, rows: seq<string>)
    requires |rows| == height && forall y :: 0 <= y < |rows| ==> IsRow(rows[y], width)
    requires width >= 1 && height >= 1
  {
    var plain := TileMap(width, height, 0, GridTiles(rows, width));
    exists cs :: |cs| <= 2 && Squares(plain, m.baseSize, cs) && SidesAdded(m, plain, cs)
  }

  /** What the loader makes of a width, a height and the lines after them, if anything.
      Sizes that leave no tiles give maps without tiles or of negative size. */
  ghost predicate GivesGrid(width: int, height: int, input: Input, m: TileMap) {
    var rows := Rows(input, "", width, if height < 0 then 0 else height);
    && rows.Some? && ToPos(width) * ToPos(height) >= 0
    && if width <= 0 || height <= 0 then m == Tileless(width, height)
       else ToPos(width) == width && ToPos(height) == height && IsMapOf(m, width, height, rows.value)
  }

  function Tileless(width: int, height: int): TileMap
    requires ToPos(width) * ToPos(height) >= 0
  {
    TileMap(ToPos(width), ToPos(height), 0, seq(ToPos(width) * ToPos(height), _ => BLANK))
  }

  /** What the loader makes of a text. */
  ghost predicate Gives(text: string, m: TileMap) {
    Header(text).Some? && GivesGrid(Header(text).value.0, Header(text).value.1, Header(text).value.2, m)
  }

  // ---- Loading ----

  datatype TextError = EmptyData | BadHeader | BadSize | BadWidth | OutOfRange | BadCharacter | BadBases

  /** The rows read so far, in front of those still to read, are the rows of the text. */
  ghost predicate RowsGoOn(whole: Option<seq<string>>, sofar: seq<string>, others: Option<seq<string>>) {
    whole == match others case None => None case Some(more) => Some(sofar + more)
  }

  lemma RowsStart(whole: Option<seq<string>>)
    ensures RowsGoOn(whole, [], whole)
  {
    if whole.Some? {
      assert [] + whole.value == whole.value;
    }
  }

  lemma RowsEnd(whole: Option<seq<string>>, sofar: seq<string>)
    requires RowsGoOn(whole, sofar, Some([]))
    ensures whole == Some(sofar)
  {
    assert sofar + [] == sofar;
  }

  lemma RowsOneMore(whole: Option<seq<string>>, sofar: seq<string>, input: Input, line: string, width: int, n: nat)
    requires n > 0 && RowsGoOn(whole, sofar, Rows(input, line, width, n))
    ensures var (after, text) := GetLine(input, line);
            if IsRow(Filtered(text), width) then
              RowsGoOn(whole, sofar + [Filtered(text)], Rows(after, Filtered(text), width, n - 1))
            else whole == None
  {
    var (after, text) := GetLine(input, line);
    var row := Filtered(text);
    if IsRow(row, width) && Rows(after, row, width, n - 1).Some? {
      var more := Rows(after, row, width, n - 1).value;
      assert sofar + ([row] + more) == sofar + [row] + more;
    }
  }

  /** One line of tiles. */
  method ReadRow(line: string, width: int, height: int, posWidth: int, posHeight: int, y: nat) returns (r: Result<seq<TileFlags>, TextError>)
    requires |line| == width && y < height && posWidth == ToPos(width) && posHeight == ToPos(height)
    ensures r.Success? ==> IsRow(line, width) && r.value == RowTiles(line)
    ensures r.Success? && width > 0 ==> width <= posWidth && y < posHeight
    ensures r.Failure? ==> width > 0
    ensures r.Failure? ==> !IsRow(line, width) || posWidth != width || posHeight != height
  {
    var tiles: seq<TileFlags> := [];
    for x := 0 to width
      invariant |tiles| == x && forall j :: 0 <= j < x ==> TileFor(line[j]) == Some(tiles[j])
      invariant x > 0 ==> x <= posWidth && y < posHeight
    {
      if !(x < posWidth && y < posHeight) {
        return Failure(OutOfRange);
      }
      var tile := TileFor(line[x]);
      if tile.None? {
        return Failure(BadCharacter);
      }
      tiles := tiles + [tile.value];
    }
    assert IsRow(line, width);
    assert tiles == RowTiles(line);
    r := Success(tiles);
  }

  lemma GridOneMore(rows: seq<string>, width: nat, line: string)
    requires (forall y :: 0 <= y < |rows| ==> IsRow(rows[y], width)) && IsRow(line, width)
    ensures forall y :: 0 <= y < |rows + [line]| ==> IsRow((rows + [line])[y], width)
    ensures GridTiles(rows + [line], width) == GridTiles(rows, width) + RowTiles(line)
    decreases rows
  {
    var more := rows + [line];
    if rows == [] {
      assert more[0] == line && more[1..] == [];
    } else {
      GridOneMore(rows[1..], width, line);
      assert more[1..] == rows[1..] + [line] && more[0] == rows[0];
    }
  }

  lemma NoRows(width: int)
    ensures width >= 0 ==> GridTiles([], width) == []
  {
  }

  lemma RowsRead(input: Input, line: string, width: int)
    ensures Rows(input, line, width, 0) == Some([])
  {
  }

  lemma SizeFits(v: int)
    ensures 0 < v <= ToPos(v) ==> ToPos(v) == v
  {
  }

  method ReadRows(input: Input, width: int, height: int) returns (r: Result<seq<TileFlags>, TextError>, ghost rows: seq<string>)
    ensures var n := if height < 0 then 0 else height;
            && (r.Success? ==> Rows(input, "", width, n) == Some(rows))
            && (r.Success? && width >= 0 ==> (forall y :: 0 <= y < |rows| ==> IsRow(rows[y], width))
                                             && r.value == GridTiles(rows, width))
            && (r.Success? && width > 0 && height > 0 ==> ToPos(width) == width && ToPos(height) == height)
            && (r.Failure? ==> height > 0 && (Rows(input, "", width, n) == None || (width > 0 && !(ToPos(width) == width && ToPos(height) == height))))
  {
    hide Rows, Filtered, ToPos, GridTiles, RowTiles, RowsGoOn;
    var posWidth, posHeight := ToPos(width), ToPos(height);
    NoRows(width);
    var n := if height < 0 then 0 else height;
    var at, line := input, "";
    var tiles: seq<TileFlags> := [];
    ghost var whole := Rows(input, "", width, n);
    RowsStart(whole);
    rows := [];
    for y := 0 to n
      invariant |rows| == y && RowsGoOn(whole, rows, Rows(at, line, width, n - y))
      invariant y > 0 ==> width >= 0 && (width > 0 ==> width <= posWidth && y <= posHeight)
      invariant width >= 0 ==> (forall j :: 0 <= j < y ==> IsRow(rows[j], width)) && tiles == GridTiles(rows, width)
    {
      RowsOneMore(whole, rows, at, line, width, n - y);
      var (after, text) := GetLine(at, line);
      at, line := after, Filtered(text);
      if |line| != width {
        return Failure(BadWidth), rows;
      }
      var row := ReadRow(line, width, height, posWidth, posHeight, y);
      if row.Failure? {
        return Failure(row.error), rows;
      }
      GridOneMore(rows, width, line);
      tiles := tiles + row.value;
      rows := rows + [line];
    }
    RowsRead(at, line, width);
    RowsEnd(whole, rows);
    SizeFits(width);
    SizeFits(height);
    r := Success(tiles);
  }

  /** A text is accepted exactly if it gives a map, and that map is the result. */
  method LoadText(text: string) returns (r: Result<TileMap, TextError>)
    ensures match r
            case Success(m) => Gives(text, m)
            case Failure(_) => forall m :: !Gives(text, m)
  {
    hide GivesGrid;
    if text == "" {
      return Failure(EmptyData);
    }
    var first := GetNumber(Input(text, true));
    if first.Unassigned? {
      return Failure(BadHeader);
    }
    var second := GetNumber(first.after);
    if second.Unassigned? {
      return Failure(BadHeader);
    }
    var input := IgnoreLine(second.after);
    assert Header(text) == Some((first.value, second.value, input));
    r := LoadGrid(first.value, second.value, input);
  }

  method LoadGrid(width: int, height: int, input: Input) returns (r: Result<TileMap, TextError>)
    ensures match r
            case Success(m) => GivesGrid(width, height, input, m)
            case Failure(_) => forall m :: !GivesGrid(width, height, input, m)
  {
    hide IsMapOf, Squares, TwoSquares, Marked, ToPos;
    if ToPos(width) * ToPos(height) < 0 {
      return Failure(BadSize);
    }
    var tiles, rows := ReadRows(input, width, height);
    if tiles.Failure? {
      return Failure(tiles.error);
    }
    if width <= 0 || height <= 0 {
      // No tile to look at.
      return Success(Tileless(width, height));
    }
    var plain := TileMap(width, height, 0, tiles.value);
    var side := new u8[|tiles.value|](_ => 0);
    var ok, k, cs := AssignSides(plain, side);
    if !ok {
      NoMap(width, height, rows);
      return Failure(BadBases);
    }
    var m := WithSides(plain, k, side[..]);
    SidesAreAdded(plain, k, cs, side[..]);
    IsMap(m, width, height, rows, cs);
    r := Success(m);
  }

  lemma IsMap(m: TileMap, width: int, height: int, rows: seq<string>, cs: seq<Cell>)
    requires |rows| == height && forall y :: 0 <= y < |rows| ==> IsRow(rows[y], width)
    requires width >= 1 && height >= 1 && |cs| <= 2
    requires Squares(TileMap(width, height, 0, GridTiles(rows, width)), m.baseSize, cs)
    requires SidesAdded(m, TileMap(width, height, 0, GridTiles(rows, width)), cs)
    ensures IsMapOf(m, width, height, rows)
  {
  }

  function WithSides(plain: TileMap, k: int, side: seq<u8>): (m: TileMap)
    requires plain.WellFormed() && |side| == |plain.tiles|
  {
    TileMap(plain.width, plain.height, k,
            seq(|side|, i requires 0 <= i < |side| => plain.tiles[i].(side := side[i])))
  }

  lemma SidesAreAdded(plain: TileMap, k: int, cs: seq<Cell>, side: seq<u8>)
    requires plain.WellFormed() && Marked(plain, side, k, cs) && (cs == [] ==> k == 0)
    ensures SidesAdded(WithSides(plain, k, side), plain, cs)
  {
    hide Covered;
    var m := WithSides(plain, k, side);
    forall c | plain.InBounds(c)
      ensures m.At(c) == plain.At(c).(side := side[plain.Index(c)])
    {
      assert m.Index(c) == plain.Index(c);
    }
  }

  lemma MapHasSquares(m: TileMap, width: int, height: int, rows: seq<string>)
    requires |rows| == height && forall y :: 0 <= y < |rows| ==> IsRow(rows[y], width)
    requires width >= 1 && height >= 1 && IsMapOf(m, width, height, rows)
    ensures TwoSquares(TileMap(width, height, 0, GridTiles(rows, width)))
  {
    var plain := TileMap(width, height, 0, GridTiles(rows, width));
    var cs :| |cs| <= 2 && Squares(plain, m.baseSize, cs) && SidesAdded(m, plain, cs);
    IsTwoSquares(plain, m.baseSize, cs);
  }

  lemma NoMap(width: int, height: int, rows: seq<string>)
    requires |rows| == height && forall y :: 0 <= y < |rows| ==> IsRow(rows[y], width)
    requires width >= 1 && height >= 1 && !TwoSquares(TileMap(width, height, 0, GridTiles(rows, width)))
    ensures forall m :: !IsMapOf(m, width, height, rows)
  {
    forall m
      ensures !IsMapOf(m, width, height, rows)
    {
      if IsMapOf(m, width, height, rows) {
        MapHasSquares(m, width, height, rows);
      }
    }
  }

  // ---- What an accepted map looks like ----

  /** The character that stands for a tile; None where saving throws. */
  function CharFor(t: TileFlags): Option<char> {
    if t.isBase then Some('B')
    else if t.isResource then Some('$')
    else if t.terrain == EMPTY then Some('.')
    else if t.terrain == WATER then Some('~')
    else if t.terrain == OBSTACLE then Some('#')
    else None
  }

  /** A tile that its character says all about, but for its side. */
  predicate Told(t: TileFlags) {
    CharFor(t).Some? && TileFor(CharFor(t).value) == Some(t.(side := 0))
  }

  function Plain(m: TileMap): (p: TileMap)
    ensures m.WellFormed() ==> p.WellFormed()
  {
    TileMap(m.width, m.height, 0, seq(|m.tiles|, i requires 0 <= i < |m.tiles| => m.tiles[i].(side := 0)))
  }

  /** Told by its text: at most two square bases of its base size, in scan order. */
  ghost predicate Proper(m: TileMap) {
    && m.WellFormed() && 1 <= m.width <= 0x7fff && 1 <= m.height <= 0x7fff
    && (forall i :: 0 <= i < |m.tiles| ==> Told(m.tiles[i]))
    && exists cs :: |cs| <= 2 && Squares(Plain(m), m.baseSize, cs) && SidesAdded(m, Plain(m), cs)
  }

  lemma CellOf(m: TileMap, i: nat) returns (c: Cell)
    requires m.WellFormed() && i < |m.tiles|
    ensures m.InBounds(c) && m.Index(c) == i
  {
    c := Cell(i % m.width, i / m.width);
    assert i == (i / m.width) * m.width + i % m.width;
    if c.y >= m.height {
      MultiplyMonotone(m.height - 1, c.y, m.width);
    }
  }

  lemma SameByCells(a: TileMap, b: TileMap)
    requires a.WellFormed() && b.WellFormed() && a.width == b.width && a.height == b.height
    requires forall c :: a.InBounds(c) ==> a.At(c) == b.At(c)
    ensures a.tiles == b.tiles
  {
    forall i | 0 <= i < |a.tiles|
      ensures a.tiles[i] == b.tiles[i]
    {
      var c := CellOf(a, i);
      assert a.At(c) == b.At(c);
    }
  }

  lemma {:induction false} GridIsTold(rows: seq<string>, width: nat)
    requires forall y :: 0 <= y < |rows| ==> IsRow(rows[y], width)
    ensures forall i :: 0 <= i < |GridTiles(rows, width)| ==>
              Told(GridTiles(rows, width)[i]) && GridTiles(rows, width)[i].side == 0
  {
    if rows != [] {
      GridIsTold(rows[1..], width);
    }
  }

  lemma PlainAgain(m: TileMap, plain: TileMap, cs: seq<Cell>)
    requires plain.WellFormed() && plain.width >= 1 && plain.height >= 1 && plain.baseSize == 0 && SidesAdded(m, plain, cs)
    requires forall i :: 0 <= i < |plain.tiles| ==> Told(plain.tiles[i]) && plain.tiles[i].side == 0
    ensures m.WellFormed() && Plain(m) == plain && forall i :: 0 <= i < |m.tiles| ==> Told(m.tiles[i])
  {
    hide Covered, InSquare, Told;
    forall c | plain.InBounds(c)
      ensures Plain(m).At(c) == plain.At(c)
    {
      assert m.Index(c) == plain.Index(c);
      assert plain.At(c).side == 0;
      assert m.At(c) == plain.At(c).(side := m.At(c).side);
    }
    SameByCells(Plain(m), plain);
    forall i | 0 <= i < |m.tiles|
      ensures Told(m.tiles[i])
    {
      assert Told(Plain(m).tiles[i]);
      ToldAlike(m.tiles[i]);
    }
  }

  lemma ToldAlike(t: TileFlags)
    ensures Told(t) <==> Told(t.(side := 0))
  {
  }

  lemma MapIsProper(m: TileMap, width: int, height: int, rows: seq<string>)
    requires |rows| == height && forall y :: 0 <= y < |rows| ==> IsRow(rows[y], width)
    requires 1 <= width <= 0x7fff && 1 <= height <= 0x7fff && IsMapOf(m, width, height, rows)
    ensures Proper(m) && Plain(m) == TileMap(width, height, 0, GridTiles(rows, width))
  {
    hide Told, Squares, Covered, InSquare;
    var plain := TileMap(width, height, 0, GridTiles(rows, width));
    var cs :| |cs| <= 2 && Squares(plain, m.baseSize, cs) && SidesAdded(m, plain, cs);
    GridIsTold(rows, width);
    PlainAgain(m, plain, cs);
  }

  lemma BlankIsProper(m: TileMap)
    requires m.WellFormed() && 1 <= m.width <= 0x7fff && 1 <= m.height <= 0x7fff && m.baseSize == 0
    requires forall i :: 0 <= i < |m.tiles| ==> m.tiles[i] == BLANK
    ensures Proper(m)
  {
    assert Told(BLANK);
    assert SquaresOnBases(Plain(m), 0, []);
    assert Squares(Plain(m), m.baseSize, []);
    assert SidesAdded(m, Plain(m), []);
  }

  lemma PosIsSmall(v: int)
    ensures -0x8000 <= ToPos(v) <= 0x7fff
  {
  }

  /** Every map the loader makes, if it has tiles at all. */
  lemma AcceptedMapIsProper(text: string, m: TileMap)
    requires Gives(text, m) && m.width >= 1 && m.height >= 1
    ensures Proper(m)
  {
    var (width, height, input) := Header(text).value;
    hide IsMapOf, Proper;
    PosIsSmall(width);
    PosIsSmall(height);
    if width <= 0 || height <= 0 {
      BlankIsProper(m);
    } else {
      var rows := Rows(input, "", width, height).value;
      MapSizes(m, width, height, rows);
      MapIsProper(m, width, height, rows);
    }
  }

  lemma MapSizes(m: TileMap, width: int, height: int, rows: seq<string>)
    requires |rows| == height && forall y :: 0 <= y < |rows| ==> IsRow(rows[y], width)
    requires width >= 1 && height >= 1 && IsMapOf(m, width, height, rows)
    ensures m.width == width && m.height == height
  {
  }

  /** The base tiles of such a map are at most two squares of its base size that do not
      meet; the first in scan order belongs to player 1, the second to player 2, and no
      other tile belongs to anyone. */
  lemma ProperMapHasSquareBases(m: TileMap) returns (cs: seq<Cell>)
    requires Proper(m)
    ensures |cs| <= 2 && (cs != [] ==> m.baseSize >= 1)
    ensures forall i :: 0 <= i < |cs| ==> SquareBase(m, i + 1, cs[i])
    ensures forall i, j, c :: 0 <= i < j < |cs| && InSquare(c, cs[i], m.baseSize) ==> !InSquare(c, cs[j], m.baseSize)
    ensures forall i, j :: 0 <= i < j < |cs| ==> Before(cs[i], cs[j])
    ensures forall c :: m.InBounds(c) ==>
              (m.At(c).isBase ==> 1 <= m.At(c).side <= |cs|) && (!m.At(c).isBase ==> m.At(c).side == 0)
  {
    var plain := Plain(m);
    cs :| |cs| <= 2 && Squares(plain, m.baseSize, cs) && SidesAdded(m, plain, cs);
    forall c | m.InBounds(c)
      ensures m.At(c).isBase <==> Covered(cs, m.baseSize, c)
    {
      assert m.At(c) == plain.At(c).(side := m.At(c).side);
      assert Base(plain, c) <==> plain.At(c).isBase;
    }
    forall i | 0 <= i < |cs|
      ensures SquareBase(m, i + 1, cs[i])
    {
      SideIsSquare(m, cs, i);
    }
    forall c | m.InBounds(c)
      ensures (m.At(c).isBase ==> 1 <= m.At(c).side <= |cs|) && (!m.At(c).isBase ==> m.At(c).side == 0)
    {
      if m.At(c).isBase {
        var i :| 0 <= i < |cs| && InSquare(c, cs[i], m.baseSize);
      }
    }
  }

  lemma SideIsSquare(m: TileMap, cs: seq<Cell>, i: nat)
    requires m.WellFormed() && i < |cs| <= 2 && Squares(Plain(m), m.baseSize, cs) && SidesAdded(m, Plain(m), cs)
    requires forall c :: m.InBounds(c) ==> (m.At(c).isBase <==> Covered(cs, m.baseSize, c))
    ensures SquareBase(m, i + 1, cs[i])
  {
    forall c | m.InBounds(c)
      ensures m.At(c).isBase && m.At(c).side == i + 1 <==> InSquare(c, cs[i], m.baseSize)
    {
      if InSquare(c, cs[i], m.baseSize) {
        assert Covered(cs, m.baseSize, c);
      } else if m.At(c).isBase {
        var j :| 0 <= j < |cs| && InSquare(c, cs[j], m.baseSize);
      }
    }
  }

  ghost predicate HasSide(m: TileMap, side: u8)
    requires m.WellFormed()
  {
    exists c :: m.InBounds(c) && m.At(c).side == side
  }

  /** A game can start on it exactly if both bases are there. */
  lemma ProperMapStartsGame(m: TileMap)
    requires Proper(m)
    ensures (exists corner1, corner2 :: TwoBases(m, corner1, corner2)) <==> HasSide(m, 1) && HasSide(m, 2)
  {
    if corner1, corner2 :| TwoBases(m, corner1, corner2) {
      assert InSquare(corner1, corner1, m.baseSize) && InSquare(corner2, corner2, m.baseSize);
      assert m.At(corner1).side == 1 && m.At(corner2).side == 2;
    }
    if HasSide(m, 1) && HasSide(m, 2) {
      var cs := ProperMapHasSquareBases(m);
      var c :| m.InBounds(c) && m.At(c).side == 2;
      assert |cs| == 2;
      assert TwoBases(m, cs[0], cs[1]);
    }
  }

  // ---- Missing lines ----

  lemma {:induction false} NothingFiltered(line: string)
    requires forall i :: 0 <= i < |line| ==> !IsSpace(line[i])
    ensures Filtered(line) == line
  {
    if line != [] {
      NothingFiltered(line[1..]);
    }
  }

  /** When the text ends within a row, that row stands for all the missing ones. */
  lemma {:induction false} LastRowRepeats(line: string, width: int, n: nat)
    requires IsRow(line, width) && forall i :: 0 <= i < |line| ==> !IsSpace(line[i])
    ensures Rows(Input("", false), line, width, n) == Some(seq(n, _ => line))
  {
    if n > 0 {
      NothingFiltered(line);
      LastRowRepeats(line, width, n - 1);
      assert [line] + seq(n - 1, _ => line) == seq(n, _ => line);
    } else {
      assert seq(0, _ => line) == [];
    }
  }

  // ---- Saving ----

  /** A row: its characters, a space after each but a newline after the last. */
  function RowText(line: string): string {
    if line == [] then [] else [line[0], if |line| == 1 then '\n' else ' '] + RowText(line[1..])
  }

  function BodyText(lines: seq<string>): string {
    if lines == [] then [] else RowText(lines[0]) + BodyText(lines[1..])
  }

  predicate Savable(m: TileMap) {
    m.WellFormed() && forall i :: 0 <= i < |m.tiles| ==> CharFor(m.tiles[i]).Some?
  }

  function LineOf(m: TileMap, y: int): (line: string)
    requires Savable(m) && 0 <= y < m.height
    ensures |line| == m.width
  {
    seq(m.width, x requires 0 <= x < m.width => CharFor(m.At(Cell(x, y))).value)
  }

  function Lines(m: TileMap): (lines: seq<string>)
    requires Savable(m)
    ensures |lines| == m.height
  {
    seq(m.height, y requires 0 <= y < m.height => LineOf(m, y))
  }

  function SavedText(m: TileMap): string
    requires Savable(m)
  {
    Numeral(m.width, 10) + " " + Numeral(m.height, 10) + "\n" + BodyText(Lines(m))
  }

  /** None where the source throws. */
  method SaveRow(m: TileMap, y: int, before: string) returns (r: Option<string>)
    requires m.WellFormed() && 0 <= y < m.height
    ensures r.Some? ==> forall x :: 0 <= x < m.width ==> CharFor(m.At(Cell(x, y))).Some?
    ensures r.Some? && Savable(m) ==> r.value == before + RowText(LineOf(m, y))
    ensures r.None? ==> !Savable(m)
  {
    var os := before;
    for x := 0 to m.width
      invariant forall j :: 0 <= j < x ==> CharFor(m.At(Cell(j, y))).Some?
      invariant Savable(m) ==> os + RowText(LineOf(m, y)[x..]) == before + RowText(LineOf(m, y))
    {
      var c := CharFor(m.At(Cell(x, y)));
      if c.None? {
        return None;
      }
      ghost var was := os;
      os := os + [c.value, if x == m.width - 1 then '\n' else ' '];
      if Savable(m) {
        OneMoreCharacter(LineOf(m, y), x);
        assert was + ([c.value, if x == m.width - 1 then '\n' else ' '] + RowText(LineOf(m, y)[x + 1..])) == os + RowText(LineOf(m, y)[x + 1..]);
      }
    }
    if Savable(m) {
      assert LineOf(m, y)[m.width..] == [];
      assert os + [] == os;
    }
    r := Some(os);
  }

  lemma OneMoreCharacter(line: string, x: nat)
    requires x < |line|
    ensures RowText(line[x..]) == [line[x], if x == |line| - 1 then '\n' else ' '] + RowText(line[x + 1..])
  {
    assert line[x..][1..] == line[x + 1..];
  }

  method SaveAsText(m: TileMap) returns (r: Option<string>)
    requires m.WellFormed()
    ensures r == if Savable(m) then Some(SavedText(m)) else None
  {
    hide RowText, LineOf, Numeral, CharFor;
    var os := Numeral(m.width, 10) + " " + Numeral(m.height, 10) + "\n";
    ghost var head := os;
    for y := 0 to m.height
      invariant forall x, j :: 0 <= x < m.width && 0 <= j < y ==> CharFor(m.At(Cell(x, j))).Some?
      invariant Savable(m) ==> os + BodyText(Lines(m)[y..]) == head + BodyText(Lines(m))
    {
      var more := SaveRow(m, y, os);
      if more.None? {
        return None;
      }
      if Savable(m) {
        OneMoreLine(Lines(m), y);
        assert os + (RowText(LineOf(m, y)) + BodyText(Lines(m)[y + 1..])) == more.value + BodyText(Lines(m)[y + 1..]);
      }
      os := more.value;
    }
    AllCharacters(m);
    assert Lines(m)[m.height..] == [];
    assert os + [] == os;
    r := Some(os);
  }

  lemma OneMoreLine(lines: seq<string>, y: nat)
    requires y < |lines|
    ensures BodyText(lines[y..]) == RowText(lines[y]) + BodyText(lines[y + 1..])
  {
    assert lines[y..][1..] == lines[y + 1..];
  }

  lemma AllCharacters(m: TileMap)
    requires m.WellFormed() && forall x, y :: 0 <= x < m.width && 0 <= y < m.height ==> CharFor(m.At(Cell(x, y))).Some?
    ensures Savable(m)
  {
    forall i | 0 <= i < |m.tiles|
      ensures CharFor(m.tiles[i]).Some?
    {
      var c := CellOf(m, i);
      assert CharFor(m.At(Cell(c.x, c.y))).Some?;
    }
  }

  // ---- Loading what was saved ----

  predicate NoSpaces(line: string) {
    forall i :: 0 <= i < |line| ==> !IsSpace(line[i])
  }

  lemma {:induction false} RowEnds(line: string, more: string)
    requires line != [] && NoSpaces(line)
    ensures |RowText(line)| == 2 * |line| && NewlineAt(RowText(line) + more) == 2 * |line| - 1
  {
    var s := RowText(line) + more;
    if |line| == 1 {
      assert s[1..][0] == '\n';
      assert RowText(line[1..]) == [];
    } else {
      RowEnds(line[1..], more);
      assert s[1..][1..] == RowText(line[1..]) + more;
    }
  }

  lemma {:induction false} RowIsOneLine(line: string, more: string)
    requires line != [] && NoSpaces(line)
    ensures |RowText(line)| == 2 * |line| && NewlineAt(RowText(line) + more) == 2 * |line| - 1
    ensures Filtered(RowText(line)[..2 * |line| - 1]) == line
  {
    hide NewlineAt;
    RowEnds(line, more);
    if |line| == 1 {
      assert RowText(line)[..1] == line;
      assert line[1..] == [] && Filtered(line[1..]) == [];
    } else {
      RowIsOneLine(line[1..], more);
      var rest := RowText(line[1..]);
      var n := 2 * |line| - 1;
      assert RowText(line)[..n] == [line[0], ' '] + rest[..n - 2];
      assert ([line[0], ' '] + rest[..n - 2])[1..][1..] == rest[..n - 2];
      assert [line[0]] + line[1..] == line;
    }
  }

  lemma {:induction false} BodyReads(lines: seq<string>, width: nat, line: string)
    requires width >= 1 && forall y :: 0 <= y < |lines| ==> IsRow(lines[y], width) && NoSpaces(lines[y])
    ensures Rows(Input(BodyText(lines), true), line, width, |lines|) == Some(lines)
  {
    if lines != [] {
      var rest := BodyText(lines[1..]);
      RowIsOneLine(lines[0], rest);
      assert BodyText(lines)[..2 * width - 1] == RowText(lines[0])[..2 * width - 1];
      assert BodyText(lines)[2 * width..] == rest;
      BodyReads(lines[1..], width, lines[0]);
      assert [lines[0]] + lines[1..] == lines;
    }
  }

  lemma {:induction false} DigitsEnd(s: string, tail: string)
    requires AllDigits(s, 10) && (tail == [] || !IsDigit(tail[0], 10))
    ensures DigitRun(s + tail) == |s|
  {
    if s != [] {
      assert (s + tail)[1..] == s[1..] + tail;
      DigitsEnd(s[1..], tail);
    } else {
      assert s + tail == tail;
    }
  }

  lemma DigitsRead(before: string, s: string, tail: string)
    requires s != [] && AllDigits(s, 10) && Value(s, 10) <= MAX_INT && tail != [] && !IsDigit(tail[0], 10)
    requires SkipSpaces(before) == s + tail
    ensures GetNumber(Input(before, true)) == Assigned(Value(s, 10), Input(tail, true))
  {
    hide SkipSpaces, DigitRun, Value;
    DigitsEnd(s, tail);
    assert IsDigit(s[0], 10);
    assert (s + tail)[..|s|] == s && (s + tail)[|s|..] == tail;
  }

  lemma NothingToSkip(s: string, tail: string)
    requires s != [] && AllDigits(s, 10)
    ensures SkipSpaces(s + tail) == s + tail && SkipSpaces(" " + s + tail) == s + tail
  {
    assert IsDigit(s[0], 10);
    assert (" " + s + tail)[1..] == s + tail;
  }

  /** A number that was written is read back, with or without a space before it. */
  lemma NumberReads(n: nat, tail: string)
    requires n <= 0x7fff && tail != [] && !IsDigit(tail[0], 10)
    ensures GetNumber(Input(Numeral(n, 10) + tail, true)) == Assigned(n, Input(tail, true))
    ensures GetNumber(Input(" " + Numeral(n, 10) + tail, true)) == Assigned(n, Input(tail, true))
  {
    hide GetNumber, Numeral, SkipSpaces, DigitRun, Value;
    var s := Numeral(n, 10);
    NumeralDenotes(n, 10);
    NothingToSkip(s, tail);
    DigitsRead(s + tail, s, tail);
    DigitsRead(" " + s + tail, s, tail);
  }

  lemma SavedHeader(width: nat, height: nat, body: string)
    requires width <= 0x7fff && height <= 0x7fff
    ensures Header(Numeral(width, 10) + " " + Numeral(height, 10) + "\n" + body) == Some((width, height, Input(body, true)))
  {
    hide GetNumber, Numeral;
    var second := " " + Numeral(height, 10) + ("\n" + body);
    assert Numeral(width, 10) + " " + Numeral(height, 10) + "\n" + body == Numeral(width, 10) + second;
    NumberReads(width, second);
    NumberReads(height, "\n" + body);
    assert ("\n" + body)[1..] == body;
  }

  lemma ProperLines(m: TileMap)
    requires Proper(m)
    ensures Savable(m) && forall y :: 0 <= y < |Lines(m)| ==> IsRow(Lines(m)[y], m.width) && NoSpaces(Lines(m)[y])
    ensures Plain(m).tiles == GridTiles(Lines(m), m.width)
  {
    hide Squares, Covered;
    assert forall t: TileFlags :: CharFor(t).Some? ==> !IsSpace(CharFor(t).value);
    forall x, y | 0 <= x < m.width && 0 <= y < m.height
      ensures Told(m.At(Cell(x, y)))
    {
      assert m.Index(Cell(x, y)) < |m.tiles|;
    }
    forall y | 0 <= y < |Lines(m)|
      ensures IsRow(Lines(m)[y], m.width) && NoSpaces(Lines(m)[y])
    {
    }
    LinesAgain(m);
  }

  lemma LinesAgain(m: TileMap)
    requires Savable(m) && m.width >= 1 && forall y :: 0 <= y < |Lines(m)| ==> IsRow(Lines(m)[y], m.width)
    requires forall x, y :: 0 <= x < m.width && 0 <= y < m.height ==> Told(m.At(Cell(x, y)))
    ensures Plain(m).tiles == GridTiles(Lines(m), m.width)
  {
    var grid := TileMap(m.width, m.height, 0, GridTiles(Lines(m), m.width));
    forall c | grid.InBounds(c)
      ensures Plain(m).At(c) == grid.At(c)
    {
      GridTilesAt(Lines(m), m.width, c.x, c.y);
      assert c == Cell(c.x, c.y);
      assert Told(m.At(Cell(c.x, c.y)));
      assert Plain(m).At(c) == m.At(c).(side := 0);
    }
    SameByCells(Plain(m), grid);
  }

  lemma OneMapEach(width: int, height: int, rows: seq<string>, a: TileMap, b: TileMap)
    requires |rows| == height && forall y :: 0 <= y < |rows| ==> IsRow(rows[y], width)
    requires width >= 1 && height >= 1 && IsMapOf(a, width, height, rows) && IsMapOf(b, width, height, rows)
    ensures a == b
  {
    hide Squares, Covered;
    var plain := TileMap(width, height, 0, GridTiles(rows, width));
    var cs :| |cs| <= 2 && Squares(plain, a.baseSize, cs) && SidesAdded(a, plain, cs);
    var ds :| |ds| <= 2 && Squares(plain, b.baseSize, ds) && SidesAdded(b, plain, ds);
    SquaresAreUnique(plain, a.baseSize, cs, b.baseSize, ds);
    SameSides(a, b, plain, cs);
    SameByCells(a, b);
  }

  lemma SameSides(a: TileMap, b: TileMap, plain: TileMap, cs: seq<Cell>)
    requires plain.WellFormed() && SidesAdded(a, plain, cs) && SidesAdded(b, plain, cs)
    requires cs != [] ==> a.baseSize == b.baseSize
    ensures a.baseSize == b.baseSize
    ensures forall c :: plain.InBounds(c) ==> a.At(c) == b.At(c)
  {
    forall c | plain.InBounds(c)
      ensures a.At(c).side == b.At(c).side
    {
      if i :| 0 <= i < |cs| && InSquare(c, cs[i], a.baseSize) {
        assert a.At(c).side == i + 1 && b.At(c).side == i + 1;
      } else {
        assert !Covered(cs, a.baseSize, c);
      }
    }
  }

  /** A text gives at most one map. */
  lemma GivesOneMap(text: string, a: TileMap, b: TileMap)
    requires Gives(text, a) && Gives(text, b)
    ensures a == b
  {
    hide IsMapOf;
    var (width, height, input) := Header(text).value;
    if width > 0 && height > 0 {
      OneMapEach(width, height, Rows(input, "", width, height).value, a, b);
    }
  }

  /** Saving a map and loading the text gives the same map. */
  lemma SavedMapLoads(m: TileMap)
    requires Proper(m)
    ensures Savable(m) && Gives(SavedText(m), m)
  {
    ProperLines(m);
    var lines := Lines(m);
    SavedHeader(m.width, m.height, BodyText(lines));
    BodyReads(lines, m.width, "");
    var plain := TileMap(m.width, m.height, 0, GridTiles(lines, m.width));
    assert Plain(m) == plain;
    var cs :| |cs| <= 2 && Squares(plain, m.baseSize, cs) && SidesAdded(m, plain, cs);
    IsMap(m, m.width, m.height, lines, cs);
    SmallSizes(m.width);
    SmallSizes(m.height);
    ProductIsPositive(m.width, m.height);
  }

  lemma SmallSizes(v: int)
    requires 0 <= v <= 0x7fff
    ensures ToPos(v) == v
  {
  }

  lemma ProductIsPositive(a: nat, b: nat)
    ensures a * b >= 0
  {
    MultiplyMonotone(-1, b, a);
  }

  /** So an accepted map with tiles is given again by its own text, and by that alone. */
  lemma TextRoundTrip(text: string, m: TileMap)
    requires Gives(text, m) && m.width >= 1 && m.height >= 1
    ensures Savable(m) && forall n :: Gives(SavedText(m), n) <==> n == m
  {
    hide Gives, Proper;
    AcceptedMapIsProper(text, m);
    SavedMapLoads(m);
    forall n | Gives(SavedText(m), n)
      ensures n == m
    {
      GivesOneMap(SavedText(m), n, m);
    }
  }

  lemma OneBlankTileIsProper()
    ensures Proper(TileMap(1, 1, 0, [BLANK]))
  {
    var m, none: seq<Cell> := TileMap(1, 1, 0, [BLANK]), [];
    assert Squares(Plain(m), 0, none) && SidesAdded(m, Plain(m), none);
  }

  /** A text without any base is accepted, although no game can start on its map. */
  lemma TextWithoutBases()
    ensures var m := TileMap(1, 1, 0, [BLANK]);
            && Gives("1 1\n.\n", m) && !(exists corner1, corner2 :: TwoBases(m, corner1, corner2))
  {
    hide Gives, Proper;
    var m := TileMap(1, 1, 0, [BLANK]);
    OneBlankTileIsProper();
    SavedMapLoads(m);
    assert LineOf(m, 0) == "." && Lines(m) == ["."];
    assert RowText(".") == ".\n" + RowText("."[1..]);
    assert BodyText(["."]) == RowText(".") + BodyText(["."][1..]);
    assert Numeral(1, 10) == "1";
    assert SavedText(m) == "1" + " " + "1" + "\n" + ".\n";
    assert "1" + " " + "1" + "\n" + ".\n" == "1 1\n.\n";
  }
}

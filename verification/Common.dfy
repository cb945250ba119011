/**
 Shared vocabulary: option type, fixed-width unsigned integers, directions and
 board cells (include/corertt/entity.h, include/corertt/game_rules.h).
 */
module Common {

  datatype Option<+T> = None | Some(value: T)

  /** Also stands for a thrown exception: `:-` passes a failure on. */
  datatype Result<+T, +E> = Success(value: T) | Failure(error: E) {
    predicate IsFailure() {
      Failure?
    }

    function PropagateFailure<U>(): Result<U, E>
      requires IsFailure()
    {
      Failure(error)
    }

    function Extract(): T
      requires !IsFailure()
    {
      value
    }
  }

  type u8 = x: int | 0 <= x < 0x100
  type u16 = x: int | 0 <= x < 0x1_0000
  type u32 = x: int | 0 <= x < 0x1_0000_0000

  datatype Direction = Up | Right | Down | Left

  /** A board position. Positions stay within one step of a board that is at
      most 255 wide, so the source's 16-bit coordinates never wrap. */
  datatype Cell = Cell(x: int, y: int)

  function Toward(c: Cell, d: Direction): Cell {
    match d
    case Up => Cell(c.x, c.y - 1)
    case Right => Cell(c.x + 1, c.y)
    case Down => Cell(c.x, c.y + 1)
    case Left => Cell(c.x - 1, c.y)
  }

  /** The cell n steps from c in direction d. */
  function Along(c: Cell, d: Direction, n: int): Cell {
    match d
    case Up => Cell(c.x, c.y - n)
    case Right => Cell(c.x + n, c.y)
    case Down => Cell(c.x, c.y + n)
    case Left => Cell(c.x - n, c.y)
  }

  /** On a board, y grows downwards. */
  lemma CompassPoints(c: Cell, n: int)
    ensures Toward(c, Up) == Cell(c.x, c.y - 1) && Toward(c, Right) == Cell(c.x + 1, c.y)
    ensures Toward(c, Down) == Cell(c.x, c.y + 1) && Toward(c, Left) == Cell(c.x - 1, c.y)
    ensures Along(c, Up, n) == Cell(c.x, c.y - n) && Along(c, Right, n) == Cell(c.x + n, c.y)
    ensures Along(c, Down, n) == Cell(c.x, c.y + n) && Along(c, Left, n) == Cell(c.x - n, c.y)
  {
  }

  ghost predicate Distinct<T>(s: seq<T>) {
    forall i, j :: 0 <= i < j < |s| ==> s[i] != s[j]
  }

  lemma TakeOneMore<T>(s: seq<T>, i: nat)
    requires i < |s|
    ensures s[..i + 1] == s[..i] + [s[i]]
  {
  }
}

/** Pigeonhole facts. */
module Counting {
  import opened Common
  import opened TileMap

  lemma {:induction false} SubsetIsSmaller<T>(a: set<T>, b: set<T>)
    requires a <= b
    ensures |a| <= |b|
  {
    if a != {} {
      var x :| x in a;
      SubsetIsSmaller(a - {x}, b - {x});
    }
  }

  ghost function UpTo(n: nat): set<int> {
    if n == 0 then {} else UpTo(n - 1) + {n}
  }

  lemma {:induction false} UpToSize(n: nat)
    ensures |UpTo(n)| == n
    ensures forall i :: i in UpTo(n) <==> 1 <= i <= n
  {
    if n > 0 {
      UpToSize(n - 1);
    }
  }

  /** Different numbers from 1 to n: no more than n of them. */
  lemma DistinctUpTo(s: seq<int>, n: nat)
    requires Distinct(s) && forall i :: 0 <= i < |s| ==> 1 <= s[i] <= n
    ensures |s| <= n
  {
    var members := set i | 0 <= i < |s| :: s[i];
    DistinctHasAsManyMembers(s);
    UpToSize(n);
    SubsetIsSmaller(members, UpTo(n));
  }

  lemma {:induction false} DistinctHasAsManyMembers(s: seq<int>)
    requires Distinct(s)
    ensures |set i | 0 <= i < |s| :: s[i]| == |s|
  {
    if s != [] {
      var n := |s| - 1;
      DistinctHasAsManyMembers(s[..n]);
      assert (set i | 0 <= i < |s| :: s[i]) == (set i | 0 <= i < |s[..n]| :: s[..n][i]) + {s[n]};
    }
  }

  function CellNumber(c: Cell, width: int): int {
    c.y * width + c.x + 1
  }

  /** Different cells of a board are no more than its tiles. */
  lemma DistinctCellsFit(cells: seq<Cell>, width: nat, height: nat)
    requires Distinct(cells)
    requires forall i :: 0 <= i < |cells| ==> 0 <= cells[i].x < width && 0 <= cells[i].y < height
    ensures |cells| <= width * height
  {
    var numbers := seq(|cells|, i requires 0 <= i < |cells| => CellNumber(cells[i], width));
    forall i | 0 <= i < |cells|
      ensures 1 <= numbers[i] <= width * height
    {
      IndexFits(cells[i].x, cells[i].y, width, height);
    }
    forall i, j | 0 <= i < j < |cells|
      ensures numbers[i] != numbers[j]
    {
      if numbers[i] == numbers[j] {
        QuotientIsUnique(cells[i].y, cells[i].x, cells[j].y, cells[j].x, width);
      }
    }
    MultiplyMonotone(-1, height, width);
    DistinctUpTo(numbers, width * height);
  }
}

/**
 * Value-level view of a Sudoku board: nine rows of nine cells, each holding
 * 0 (empty) or a digit 1..9. Everything the solver promises is stated over
 * these values; the mutable board in module Game is tied to them.
 */
module Grids {

  type Grid = seq<seq<int>>

  /** The value that marks an empty cell. */
  const EmptyCellValue := 0

  /** Nine rows of nine cells, every cell in [0, 9]. */
  predicate WellFormed(g: Grid) {
    |g| == 9 &&
    forall i :: 0 <= i < 9 ==> |g[i]| == 9 && forall j :: 0 <= j < 9 ==> 0 <= g[i][j] <= 9
  }

  /** The board with cell (r, c) replaced by n. */
  function Update(g: Grid, r: int, c: int, n: int): (h: Grid)
    requires WellFormed(g) && 0 <= r < 9 && 0 <= c < 9 && 0 <= n <= 9
    ensures WellFormed(h) && h[r][c] == n
    ensures forall i, j :: 0 <= i < 9 && 0 <= j < 9 && (i != r || j != c) ==> h[i][j] == g[i][j]
  {
    g[r := g[r][c := n]]
  }

  /** Filling an empty cell and emptying it again gives back the same board. */
  lemma UpdateRestores(g: Grid, r: int, c: int, n: int)
    requires WellFormed(g) && 0 <= r < 9 && 0 <= c < 9 && 0 <= n <= 9
    requires g[r][c] == EmptyCellValue
    ensures Update(Update(g, r, c, n), r, c, EmptyCellValue) == g
  {
    assert g[r][c := n][c := EmptyCellValue] == g[r];
  }

  /** n occurs somewhere in row r. */
  predicate InRow(g: Grid, r: int, n: int)
    requires WellFormed(g) && 0 <= r < 9
  {
    n in g[r]
  }

  /** n occurs somewhere in column c. */
  predicate InCol(g: Grid, c: int, n: int)
    requires WellFormed(g) && 0 <= c < 9
  {
    exists i :: 0 <= i < 9 && g[i][c] == n
  }

  /** Cells (i, j) and (r, c) lie in the same 3x3 box. */
  predicate SameBox(i: int, j: int, r: int, c: int) {
    i / 3 == r / 3 && j / 3 == c / 3
  }

  /** n occurs somewhere in the 3x3 box holding (r, c). */
  predicate InBox(g: Grid, r: int, c: int, n: int)
    requires WellFormed(g)
  {
    exists i, j :: 0 <= i < 9 && 0 <= j < 9 && SameBox(i, j, r, c) && g[i][j] == n
  }

  /** n may go into (r, c): it is in neither the row, the column nor the box. */
  predicate CanPlace(g: Grid, r: int, c: int, n: int)
    requires WellFormed(g) && 0 <= r < 9 && 0 <= c < 9
  {
    !InRow(g, r, n) && !InCol(g, c, n) && !InBox(g, r, c, n)
  }

  /** Two distinct cells that share a row, a column or a box. */
  predicate Peers(i: int, j: int, k: int, l: int) {
    (i != k || j != l) && (i == k || j == l || SameBox(i, j, k, l))
  }

  /** No digit occurs twice in any row, column or box. */
  predicate Consistent(g: Grid)
    requires WellFormed(g)
  {
    forall i, j, k, l ::
      0 <= i < 9 && 0 <= j < 9 && 0 <= k < 9 && 0 <= l < 9 && Peers(i, j, k, l) && g[i][j] != EmptyCellValue
      ==> g[i][j] != g[k][l]
  }

  /** No cell is empty. */
  predicate NoEmpty(g: Grid)
    requires WellFormed(g)
  {
    forall i, j :: 0 <= i < 9 && 0 <= j < 9 ==> g[i][j] != EmptyCellValue
  }

  /** (r, c) is empty and every cell before it in row-major order is filled. */
  predicate FirstEmpty(g: Grid, r: int, c: int)
    requires WellFormed(g)
  {
    0 <= r < 9 && 0 <= c < 9 && g[r][c] == EmptyCellValue &&
    forall i, j :: 0 <= i < 9 && 0 <= j < 9 && (i < r || (i == r && j < c)) ==> g[i][j] != EmptyCellValue
  }

  /** s keeps every filled cell of g. */
  predicate Extends(s: Grid, g: Grid)
    requires WellFormed(s) && WellFormed(g)
  {
    forall i, j :: 0 <= i < 9 && 0 <= j < 9 && g[i][j] != EmptyCellValue ==> s[i][j] == g[i][j]
  }

  /** A finished, rule-abiding board. */
  predicate IsSolution(s: Grid) {
    WellFormed(s) && NoEmpty(s) && Consistent(s)
  }

  /** Some solution keeps every filled cell of g. */
  ghost predicate HasCompletion(g: Grid)
    requires WellFormed(g)
  {
    exists s :: IsSolution(s) && Extends(s, g)
  }

  /** Number of empty cells in one row. */
  function ZerosIn(row: seq<int>): nat {
    if row == [] then 0 else (if row[0] == EmptyCellValue then 1 else 0) + ZerosIn(row[1..])
  }

  /** Number of empty cells on the board. */
  function EmptyCount(g: Grid): nat {
    if g == [] then 0 else ZerosIn(g[0]) + EmptyCount(g[1..])
  }

  lemma {:induction false} ZerosInUpdate(row: seq<int>, c: int, n: int)
    requires 0 <= c < |row| && row[c] == EmptyCellValue && n != EmptyCellValue
    ensures ZerosIn(row[c := n]) + 1 == ZerosIn(row)
  {
    if c > 0 {
      assert row[c := n][1..] == row[1..][c - 1 := n];
      ZerosInUpdate(row[1..], c - 1, n);
    } else {
      assert row[c := n][1..] == row[1..];
    }
  }

  lemma {:induction false} EmptyCountRows(g: Grid, r: int, row: seq<int>)
    requires 0 <= r < |g| && ZerosIn(row) + 1 == ZerosIn(g[r])
    ensures EmptyCount(g[r := row]) + 1 == EmptyCount(g)
  {
    if r > 0 {
      assert g[r := row][1..] == g[1..][r - 1 := row];
      EmptyCountRows(g[1..], r - 1, row);
    } else {
      assert g[r := row][1..] == g[1..];
    }
  }

  /** Filling an empty cell lowers the number of empty cells by exactly one. */
  lemma EmptyCountUpdate(g: Grid, r: int, c: int, n: int)
    requires WellFormed(g) && 0 <= r < 9 && 0 <= c < 9 && 1 <= n <= 9
    requires g[r][c] == EmptyCellValue
    ensures EmptyCount(Update(g, r, c, n)) + 1 == EmptyCount(g)
  {
    ZerosInUpdate(g[r], c, n);
    EmptyCountRows(g, r, g[r][c := n]);
  }

  lemma {:induction false} ZerosInNone(row: seq<int>)
    ensures ZerosIn(row) == 0 <==> forall k :: 0 <= k < |row| ==> row[k] != EmptyCellValue
  {
    if row != [] {
      ZerosInNone(row[1..]);
      assert forall k :: 1 <= k < |row| ==> row[k] == row[1..][k - 1];
    }
  }

  lemma {:induction false} EmptyCountNone(g: Grid)
    ensures EmptyCount(g) == 0 <==>
      forall i, j :: 0 <= i < |g| && 0 <= j < |g[i]| ==> g[i][j] != EmptyCellValue
  {
    if g != [] {
      ZerosInNone(g[0]);
      EmptyCountNone(g[1..]);
      assert forall i :: 1 <= i < |g| ==> g[i] == g[1..][i - 1];
    }
  }

  /** The board has no empty cell exactly when the empty-cell count is zero. */
  lemma EmptyCountZero(g: Grid)
    requires WellFormed(g)
    ensures EmptyCount(g) == 0 <==> NoEmpty(g)
  {
    EmptyCountNone(g);
  }

  /**
   * Placing a digit that is in neither the row, the column nor the box of an
   * empty cell keeps the board free of repeated digits.
   */
  lemma PlacementKeepsConsistent(g: Grid, r: int, c: int, n: int)
    requires WellFormed(g) && 0 <= r < 9 && 0 <= c < 9 && 1 <= n <= 9
    requires g[r][c] == EmptyCellValue && Consistent(g) && CanPlace(g, r, c, n)
    ensures Consistent(Update(g, r, c, n))
  {
    var h := Update(g, r, c, n);
    forall i, j, k, l |
      0 <= i < 9 && 0 <= j < 9 && 0 <= k < 9 && 0 <= l < 9 && Peers(i, j, k, l) && h[i][j] != EmptyCellValue
      ensures h[i][j] != h[k][l]
    {
      if i == r && j == c {
        if k == r {
          assert g[k][l] in g[r];
        } else if l == c {
          assert g[k][l] != n;
        } else {
          assert SameBox(k, l, r, c);
        }
      } else if k == r && l == c {
        if i == r {
          assert g[i][j] in g[r];
        } else if j == c {
          assert g[i][j] != n;
        } else {
          assert SameBox(i, j, r, c);
        }
      }
    }
  }

  /**
   * A solution that keeps the board's digits puts into an empty cell only a
   * digit that clashes with nothing in that cell's row, column or box.
   */
  lemma CompletionOnlyWithoutClash(g: Grid, r: int, c: int, n: int)
    requires WellFormed(g) && 0 <= r < 9 && 0 <= c < 9 && 1 <= n <= 9
    requires g[r][c] == EmptyCellValue
    ensures HasCompletion(Update(g, r, c, n)) ==> CanPlace(g, r, c, n)
  {
    var h := Update(g, r, c, n);
    if HasCompletion(h) {
      var s :| IsSolution(s) && Extends(s, h);
      assert s[r][c] == n;
      forall k, l | 0 <= k < 9 && 0 <= l < 9 && Peers(r, c, k, l) ensures g[k][l] != n {
        if g[k][l] != EmptyCellValue {
          assert s[k][l] == g[k][l];
        }
      }
      forall l | 0 <= l < 9 ensures g[r][l] != n {
        assert l == c || Peers(r, c, r, l);
      }
      forall k | 0 <= k < 9 ensures g[k][c] != n {
        assert k == r || Peers(r, c, k, c);
      }
      forall k, l | 0 <= k < 9 && 0 <= l < 9 && SameBox(k, l, r, c) ensures g[k][l] != n {
        assert (k == r && l == c) || Peers(r, c, k, l);
      }
    }
  }

  /**
   * A solution puts some digit into every empty cell: if the board has a
   * solution, then so does the board with that cell set to some digit 1..9.
   */
  lemma CompletionFillsCell(g: Grid, r: int, c: int)
    requires WellFormed(g) && 0 <= r < 9 && 0 <= c < 9 && g[r][c] == EmptyCellValue
    ensures HasCompletion(g) ==> exists n :: 1 <= n <= 9 && HasCompletion(Update(g, r, c, n))
  {
    if HasCompletion(g) {
      var s :| IsSolution(s) && Extends(s, g);
      var n := s[r][c];
      assert Extends(s, Update(g, r, c, n));
    }
  }

  /** No digit below `upTo` put into (r, c) leaves a board that some solution extends. */
  ghost predicate DeadEndsBelow(g: Grid, r: int, c: int, upTo: int)
    requires WellFormed(g) && 0 <= r < 9 && 0 <= c < 9
  {
    forall n :: 1 <= n < upTo && n <= 9 ==> !HasCompletion(Update(g, r, c, n))
  }

  /** One more digit ruled out extends the dead ends by one. */
  lemma DeadEndsGrow(g: Grid, r: int, c: int, n: int)
    requires WellFormed(g) && 0 <= r < 9 && 0 <= c < 9 && 1 <= n <= 9
    requires DeadEndsBelow(g, r, c, n) && !HasCompletion(Update(g, r, c, n))
    ensures DeadEndsBelow(g, r, c, n + 1)
  {
  }

  /** A board that some solution extends has no repeated digit already. */
  lemma CompletionIsConsistent(g: Grid)
    requires WellFormed(g)
    ensures HasCompletion(g) ==> Consistent(g)
  {
    if HasCompletion(g) {
      var s :| IsSolution(s) && Extends(s, g);
    }
  }

  /** Any solution that keeps a board's digits witnesses that the board can be completed. */
  lemma SolutionCompletes(g: Grid, s: Grid)
    requires WellFormed(g) && IsSolution(s) && Extends(s, g)
    ensures HasCompletion(g)
  {
  }

  /** Nine distinct values drawn from s: s has at least nine members. */
  lemma {:induction false} DistinctFitsIn(u: seq<int>, s: set<int>)
    requires forall k :: 0 <= k < |u| ==> u[k] in s
    requires forall k, m :: 0 <= k < m < |u| ==> u[k] != u[m]
    ensures |u| <= |s|
  {
    if u != [] {
      DistinctFitsIn(u[1..], s - {u[0]});
    }
  }

  /** Nine distinct digits 1..9 include every digit. */
  lemma DistinctDigitsCoverAll(u: seq<int>, d: int)
    requires |u| == 9 && 1 <= d <= 9
    requires forall k :: 0 <= k < 9 ==> 1 <= u[k] <= 9
    requires forall k, m :: 0 <= k < m < 9 ==> u[k] != u[m]
    ensures d in u
  {
    if d !in u {
      var digits := {1, 2, 3, 4, 5, 6, 7, 8, 9} - {d};
      assert |{1, 2, 3, 4, 5, 6, 7, 8, 9}| == 9;
      assert |digits| == 8;
      DistinctFitsIn(u, digits);
    }
  }

  /** Every row of a solution holds every digit 1..9. */
  lemma SolutionRowHasEveryDigit(s: Grid, r: int, d: int)
    requires IsSolution(s) && 0 <= r < 9 && 1 <= d <= 9
    ensures InRow(s, r, d)
  {
    var row := s[r];
    forall k, m | 0 <= k < m < 9 ensures row[k] != row[m] {
      assert Peers(r, k, r, m);
    }
    DistinctDigitsCoverAll(row, d);
  }

  /** Every column of a solution holds every digit 1..9. */
  lemma SolutionColHasEveryDigit(s: Grid, c: int, d: int)
    requires IsSolution(s) && 0 <= c < 9 && 1 <= d <= 9
    ensures InCol(s, c, d)
  {
    var col := seq(9, i requires 0 <= i < 9 => s[i][c]);
    forall k, m | 0 <= k < m < 9 ensures col[k] != col[m] {
      assert Peers(k, c, m, c);
    }
    DistinctDigitsCoverAll(col, d);
    var i :| 0 <= i < 9 && col[i] == d;
    assert s[i][c] == d;
  }

  /** A box corner: the top row (or left column) of one of the three bands. */
  predicate IsCorner(b: int) {
    b == 0 || b == 3 || b == 6
  }

  /** The nine cells of the box with corner (br, bc), read row by row. */
  function BoxCells(s: Grid, br: int, bc: int): (box: seq<int>)
    requires WellFormed(s) && IsCorner(br) && IsCorner(bc)
    ensures |box| == 9
    ensures forall k :: 0 <= k < 9 ==> box[k] == s[br + k / 3][bc + k % 3]
  {
    seq(9, k requires 0 <= k < 9 => s[br + k / 3][bc + k % 3])
  }

  /** Offset k of a box lies k / 3 rows and k % 3 columns from its corner, inside the box. */
  lemma BoxOffset(b: int, k: int)
    requires IsCorner(b) && 0 <= k < 9
    ensures 0 <= k / 3 < 3 && 0 <= k % 3 < 3 && k == 3 * (k / 3) + k % 3
    ensures (b + k / 3) / 3 == b / 3 && (b + k % 3) / 3 == b / 3
  {
  }

  /** Distinct offsets in a box name distinct cells of the same box. */
  lemma BoxOffsetsArePeers(br: int, bc: int, k: int, m: int)
    requires IsCorner(br) && IsCorner(bc) && 0 <= k < m < 9
    ensures Peers(br + k / 3, bc + k % 3, br + m / 3, bc + m % 3)
  {
    BoxOffset(br, k);
    BoxOffset(br, m);
    BoxOffset(bc, k);
    BoxOffset(bc, m);
  }

  /** No digit repeats inside a box of a solution. */
  lemma SolutionBoxDistinct(s: Grid, br: int, bc: int)
    requires IsSolution(s) && IsCorner(br) && IsCorner(bc)
    ensures var box := BoxCells(s, br, bc); forall k, m :: 0 <= k < m < 9 ==> box[k] != box[m]
  {
    var box := BoxCells(s, br, bc);
    forall k, m | 0 <= k < m < 9 ensures box[k] != box[m] {
      BoxOffsetsArePeers(br, bc, k, m);
      BoxOffset(br, k);
      BoxOffset(bc, k);
      BoxOffset(br, m);
      BoxOffset(bc, m);
      assert s[br + k / 3][bc + k % 3] != EmptyCellValue;
    }
  }

  /** Every box of a solution holds every digit 1..9. */
  lemma SolutionBoxHasEveryDigit(s: Grid, r: int, c: int, d: int)
    requires IsSolution(s) && 0 <= r < 9 && 0 <= c < 9 && 1 <= d <= 9
    ensures InBox(s, r, c, d)
  {
    var br, bc := r - r % 3, c - c % 3;
    var box := BoxCells(s, br, bc);
    SolutionBoxDistinct(s, br, bc);
    DistinctDigitsCoverAll(box, d);
    var k :| 0 <= k < 9 && box[k] == d;
    assert SameBox(br + k / 3, bc + k % 3, r, c);
  }
}

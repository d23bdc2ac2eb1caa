/**
 * The solver: placement validation that records what it checks, and the
 * recursive backtracking search over the game's live board.
 */
module Solver {
  import opened Grids
  import opened Game
  import opened Stats

  class SudokuSolver {
    const game: SudokuGame
    const stats: SolverStats

    ghost predicate Valid()
      reads this, game, game.board, game.startingBoard
    {
      game.Valid()
    }

    /**
     * Takes the game, starts fresh statistics and runs the whole search. The
     * board ends solved, or exactly as it was when no digit assignment works.
     */
    constructor (game: SudokuGame)
      requires game.Valid()
      modifies game`cells, game.board
      ensures this.game == game && fresh(stats) && Valid()
      ensures NoEmpty(game.cells) || game.cells == old(game.cells)
      ensures Extends(game.cells, old(game.cells))
      ensures Consistent(old(game.cells)) ==> (NoEmpty(game.cells) <==> HasCompletion(old(game.cells)))
      ensures Consistent(old(game.cells)) && NoEmpty(game.cells) ==> IsSolution(game.cells)
      ensures HasCompletion(old(game.cells)) ==> IsSolution(game.cells)
      ensures Balanced(Zero(), stats.Snapshot(), if NoEmpty(game.cells) then EmptyCount(old(game.cells)) else 0)
      ensures Bookkeeping(stats.Snapshot())
      ensures NoEmpty(old(game.cells)) ==> stats.Snapshot() == Zero()
      ensures unchanged(game.startingBoard)
    {
      var freshStats := new SolverStats();
      this.game := game;
      stats := freshStats;
      new;
      ghost var given := game.cells;
      var solved := Solve(this);
      CompletionIsConsistent(given);
      if solved && Consistent(given) {
        SolutionCompletes(given, game.cells);
      }
      BookkeptFromZero(stats.Snapshot(), if solved then EmptyCount(given) else 0);
    }

    /** Whether num is absent from the row; records one row validation. */
    method IsRowValid(row: int, num: int) returns (valid: bool)
      requires Valid() && 0 <= row < 9
      modifies stats
      ensures valid <==> !InRow(game.cells, row, num)
      ensures stats.Snapshot() == Record(old(stats.Snapshot()), RowValidationPerformed(valid))
    {
      var hasValue := game.IsInRow(row, num);
      stats.RowValidationPerformed(!hasValue);
      return !hasValue;
    }

    /** Whether num is absent from the column; records one column validation. */
    method IsColValid(col: int, num: int) returns (valid: bool)
      requires Valid() && 0 <= col < 9
      modifies stats
      ensures valid <==> !InCol(game.cells, col, num)
      ensures stats.Snapshot() == Record(old(stats.Snapshot()), ColumnValidationPerformed(valid))
    {
      var hasValue := game.IsInColumn(col, num);
      stats.ColumnValidationPerformed(!hasValue);
      return !hasValue;
    }

    /** Whether num is absent from the box of (row, col); records one box validation. */
    method IsBoxValid(row: int, col: int, num: int) returns (valid: bool)
      requires Valid() && 0 <= row < 9 && 0 <= col < 9
      modifies stats
      ensures valid <==> !InBox(game.cells, row, col, num)
      ensures stats.Snapshot() == Record(old(stats.Snapshot()), BoxValidationPerformed(valid))
    {
      var hasValue := game.IsInBox(row, col, num);
      stats.BoxValidationPerformed(!hasValue);
      return !hasValue;
    }

    /**
     * Whether num may go into (row, col). The row, column and box checks run
     * in that order and stop at the first failure; the combined outcome is
     * recorded once.
     */
    method IsValid(row: int, col: int, num: int) returns (result: bool)
      requires Valid() && 0 <= row < 9 && 0 <= col < 9
      modifies stats
      ensures result <==> CanPlace(game.cells, row, col, num)
      ensures stats.Snapshot() == RecordValidation(old(stats.Snapshot()),
        !InRow(game.cells, row, num), !InCol(game.cells, col, num), !InBox(game.cells, row, col, num))
    {
      result := IsRowValid(row, num);
      if result {
        result := IsColValid(col, num);
        if result {
          result := IsBoxValid(row, col, num);
        }
      }
      stats.PlacementValidationPerformed(result);
    }

    method SetCell(row: int, col: int, num: int)
      requires Valid() && 0 <= row < 9 && 0 <= col < 9 && 0 <= num <= 9
      modifies game`cells, game.board
      ensures Valid() && game.cells == Update(old(game.cells), row, col, num)
    {
      game.SetCell(row, col, num);
    }

    method ClearCell(row: int, col: int)
      requires Valid() && 0 <= row < 9 && 0 <= col < 9
      modifies game`cells, game.board
      ensures Valid() && game.cells == Update(old(game.cells), row, col, EmptyCellValue)
    {
      game.ClearCell(row, col);
    }

    method FindEmptyCell() returns (cell: Location)
      requires Valid()
      ensures game.IsDefaultInvalidLocation(cell) <==> NoEmpty(game.cells)
      ensures !game.IsDefaultInvalidLocation(cell) ==> FirstEmpty(game.cells, cell.row, cell.col)
    {
      cell := game.FindEmptyCell();
    }

    function IsDefaultInvalidLocation(cell: Location): (invalid: bool)
      reads this
      ensures invalid <==> game.IsDefaultInvalidLocation(cell)
      ensures invalid <==> cell == Location(InvalidCellIndex, InvalidCellIndex)
      ensures invalid ==> !(0 <= cell.row < 9 && 0 <= cell.col < 9)
    {
      game.IsDefaultInvalidLocation(cell)
    }
  }

  /**
   * Backtracking search: fill the row-major first empty cell with the first
   * digit 1..9 that passes validation and recurse; when the recursion fails,
   * record a rejection, empty the cell again and try the next digit.
   *
   * On success the board is full; on failure it is exactly as it was on
   * entry, and no solution keeps its digits. Filled cells are never changed.
   * Every successful validation is followed by one attempt, and every
   * attempt that does not end in the solution is rejected.
   */
  method Solve(solver: SudokuSolver) returns (solved: bool)
    requires solver.Valid()
    modifies solver.game`cells, solver.game.board, solver.stats
    decreases EmptyCount(solver.game.cells), 2
    ensures solver.Valid()
    ensures solved <==> NoEmpty(solver.game.cells)
    ensures !solved ==> solver.game.cells == old(solver.game.cells)
    ensures !solved ==> !HasCompletion(old(solver.game.cells))
    ensures Extends(solver.game.cells, old(solver.game.cells))
    ensures Consistent(old(solver.game.cells)) ==> Consistent(solver.game.cells)
    ensures unchanged(solver.game.startingBoard)
    ensures Balanced(old(solver.stats.Snapshot()), solver.stats.Snapshot(),
                     if solved then EmptyCount(old(solver.game.cells)) else 0)
    ensures NoEmpty(old(solver.game.cells)) ==> solver.stats.Snapshot() == old(solver.stats.Snapshot())
  {
    var emptyCell := solver.FindEmptyCell();
    if solver.IsDefaultInvalidLocation(emptyCell) {
      EmptyCountZero(solver.game.cells);
      return true;
    }

    var row, col := emptyCell.row, emptyCell.col;
    ghost var start := solver.game.cells;
    ghost var before := solver.stats.Snapshot();

    BalancedRefl(before);
    var num := 1;
    while num <= 9
      invariant 1 <= num <= 10
      invariant solver.Valid() && solver.game.cells == start
      invariant Balanced(before, solver.stats.Snapshot(), 0)
      invariant DeadEndsBelow(start, row, col, num)
    {
      ghost var beforeTry := solver.stats.Snapshot();
      var ok := TryDigit(solver, row, col, num);
      BalancedTrans(before, beforeTry, solver.stats.Snapshot(), 0, if ok then EmptyCount(start) else 0);
      if ok {
        return true;
      }
      DeadEndsGrow(start, row, col, num);
      num := num + 1;
    }
    CompletionFillsCell(start, row, col);
    return false;
  }

  /**
   * One pass of the search loop for digit num at the empty cell (row, col):
   * validate, and if the digit fits, place it and search on.
   *
   * Success leaves a full board that keeps every filled cell. Failure leaves
   * the board as it was, and then no solution has num at (row, col).
   */
  method TryDigit(solver: SudokuSolver, row: int, col: int, num: int) returns (solved: bool)
    requires solver.Valid() && 0 <= row < 9 && 0 <= col < 9 && 1 <= num <= 9
    requires solver.game.cells[row][col] == EmptyCellValue
    modifies solver.game`cells, solver.game.board, solver.stats
    decreases EmptyCount(solver.game.cells), 1
    ensures solver.Valid()
    ensures solved ==> NoEmpty(solver.game.cells)
    ensures !solved ==> solver.game.cells == old(solver.game.cells)
    ensures !solved ==> !HasCompletion(Update(old(solver.game.cells), row, col, num))
    ensures Extends(solver.game.cells, old(solver.game.cells))
    ensures Consistent(old(solver.game.cells)) ==> Consistent(solver.game.cells)
    ensures unchanged(solver.game.startingBoard)
    ensures Balanced(old(solver.stats.Snapshot()), solver.stats.Snapshot(),
                     if solved then EmptyCount(old(solver.game.cells)) else 0)
  {
    ghost var start := solver.game.cells;
    ghost var before := solver.stats.Snapshot();
    var valid := solver.IsValid(row, col, num);
    if !valid {
      FailedValidationBalanced(before, !InRow(start, row, num), !InCol(start, col, num), !InBox(start, row, col, num));
      CompletionOnlyWithoutClash(start, row, col, num);
      return false;
    }
    solved := PlaceAndSearch(solver, row, col, num, before);
  }

  /**
   * The digit num has passed validation at the empty cell (row, col): record
   * the attempt, place the digit and search on; when that search fails,
   * record the rejection and empty the cell again. The statistics are
   * balanced from `validated`, the counters just before the validation.
   */
  method PlaceAndSearch(solver: SudokuSolver, row: int, col: int, num: int, ghost validated: Counters)
    returns (solved: bool)
    requires solver.Valid() && 0 <= row < 9 && 0 <= col < 9 && 1 <= num <= 9
    requires solver.game.cells[row][col] == EmptyCellValue && CanPlace(solver.game.cells, row, col, num)
    requires solver.stats.Snapshot() == RecordValidation(validated, true, true, true)
    modifies solver.game`cells, solver.game.board, solver.stats
    decreases EmptyCount(solver.game.cells), 0
    ensures solver.Valid()
    ensures solved ==> NoEmpty(solver.game.cells)
    ensures !solved ==> solver.game.cells == old(solver.game.cells)
    ensures !solved ==> !HasCompletion(Update(old(solver.game.cells), row, col, num))
    ensures Extends(solver.game.cells, old(solver.game.cells))
    ensures Consistent(old(solver.game.cells)) ==> Consistent(solver.game.cells)
    ensures unchanged(solver.game.startingBoard)
    ensures Balanced(validated, solver.stats.Snapshot(),
                     if solved then EmptyCount(old(solver.game.cells)) else 0)
  {
    ghost var start := solver.game.cells;
    solver.stats.PlacementAttempted();
    AttemptBalanced(validated);
    ghost var placed := solver.stats.Snapshot();
    solver.SetCell(row, col, num);
    EmptyCountUpdate(start, row, col, num);
    if Consistent(start) {
      PlacementKeepsConsistent(start, row, col, num);
    }
    solved := Solve(solver);
    BalancedTrans(validated, placed, solver.stats.Snapshot(), 1,
                  if solved then EmptyCount(Update(start, row, col, num)) else 0);
    if solved {
      return;
    }
    ghost var rejecting := solver.stats.Snapshot();
    solver.stats.PlacementRejected();
    RejectionBalanced(rejecting);
    BalancedTrans(validated, rejecting, solver.stats.Snapshot(), 1, -1);
    ghost var rejected := solver.stats.Snapshot();
    solver.ClearCell(row, col);
    UpdateRestores(start, row, col, num);
    assert solver.stats.Snapshot() == rejected;
  }
}

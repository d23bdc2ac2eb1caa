# Sudoku solver model

A Dafny model of the backtracking Sudoku solver in `sudoku-solver.js`, with
proofs of its properties.

The solver works on a game object. That object holds a live 9x9 board, which
the solver writes in place, and a separate copy of the board as it was given.
Empty cells hold 0. The search does the following:

- It finds the first empty cell in row-major order.
- It tries the digits 1..9 in ascending order.
- It validates each digit against the cell's row, then its column, then its
  3x3 box, and stops at the first clash.
- When a digit passes, it records an attempt, places the digit and recurses.
- When the recursion fails, it records a rejection, empties the cell again
  and moves on to the next digit.

The statistics object has ten integer counters, plus a floating-point
`solveTicks` timing value. Each recording operation raises exactly one of
the ten counters.

The model has four modules:

- `Grids` (`grid.dfy`): the board as a value (`seq<seq<int>>`) and the
  Sudoku rules over it: row, column and box membership, consistency,
  solutions and the number of empty cells. It also holds the lemmas the
  search relies on.
- `Game` (`game.dfy`): `copyBoard`, `createEmptyBoard` and the class
  `SudokuGame`.
  - Both boards are `array2<int>` fields.
  - Cell writes update the live array in place.
  - A ghost field `cells` mirrors the live board as a value, and `Valid()`
    ties the two together.
  - Queries are functions over the array or, where the source uses nested
    loops with an early return (`isInBox`, `findEmptyCell`), methods with
    loops.
- `Stats` (`stats.dfy`): the statistics class `SolverStats`, whose ten fields
  the recording methods increment. `Counters` is a snapshot of all ten, with
  the success and failure counts of each kind of validation paired in a
  `Tally`. `Record` is the table of which counter each event raises.
- `Solver` (`solver.dfy`): the class `SudokuSolver` (validation methods and
  pass-throughs) and the recursive search `Solve`.
  - The body of `solve`'s digit loop is written as two helper methods.
    `TryDigit` validates one digit. `PlaceAndSearch` attempts the digit,
    places it, recurses and backtracks.
  - The three methods are mutually recursive. Together they run the same
    steps in the same order as the source's single function.

`Solve` returns `true` where the source returns the solver object, and
`false` where the source returns `false`.

## Model

| member | source | states |
|---|---|---|
| Game.CopyBoard | sudoku-solver.js:78-84 | The result is a fresh array (so it shares nothing with the input), with the same dimensions and every cell equal to the input's. |
| Game.CreateEmptyBoard | sudoku-solver.js:92-98 | The result is a fresh 9x9 array in which every cell is the empty value 0. |
| Game.BoxCorner | sudoku-solver.js:224-225 | The start row or column is a multiple of 3 within 2 of the index, and an index k shares the index's band of three exactly when it lies in [corner, corner + 3). So the `> 0` guard does not change the answer for index 0. |
| Game.SudokuGame.constructor | sudoku-solver.js:135-139 | Both boards are fresh arrays, distinct from the template and from each other. The live board's contents equal the template, and so does every cell of the starting board. |
| Game.SudokuGame.GetCell | sudoku-solver.js:149-151 | Returns the live board's value at (row, col), a value in 0..9. |
| Game.SudokuGame.SetCell | sudoku-solver.js:161-163 | Cell (row, col) becomes num. Every other cell of the live board keeps its value, and the starting board is unchanged. The board stays 9x9 with cells in 0..9. |
| Game.SudokuGame.ClearCell | sudoku-solver.js:172-174 | Cell (row, col) becomes 0. Every other cell and the starting board are unchanged. |
| Game.SudokuGame.IsCellEmpty | sudoku-solver.js:184-186 | True exactly when the cell holds 0. |
| Game.SudokuGame.IsInRow | sudoku-solver.js:196-198 | True exactly when num occurs in row `row`. |
| Game.SudokuGame.IsInColumn | sudoku-solver.js:208-212 | True exactly when some row has num in column `col`. |
| Game.SudokuGame.IsInBox | sudoku-solver.js:223-235 | True exactly when num occurs in the 3x3 box holding (row, col). |
| Game.SudokuGame.FindEmptyCell | sudoku-solver.js:244-253 | Returns the "no cell" location exactly when the board has no 0. Otherwise it returns a cell holding 0 before which, in row-major order, every cell is filled. |
| Game.IsInvalidCellIndex | sudoku-solver.js:70 | True exactly for -1, which is never a row or column index of the board. |
| Game.SudokuGame.DefaultInvalidLocation | sudoku-solver.js:261-266 | The "no cell" location has both coordinates negative (-1, -1). |
| Game.SudokuGame.IsDefaultInvalidLocation | sudoku-solver.js:275-280 | True exactly for (-1, -1), so never for a cell of the board. |
| Stats.Record | sudoku-solver.js:306-373 | A recording event raises its target counter by exactly 1 and leaves the other nine unchanged. The flag picks success or failure, so no counter ever decreases. |
| Stats.SolverStats.constructor | sudoku-solver.js:287-297 | All ten counters start at 0. |
| Stats.SolverStats.PlacementAttempted | sudoku-solver.js:306-308 | The counters after the call are `Record` of those before it for this event: attempts + 1, the rest unchanged. |
| Stats.SolverStats.PlacementRejected | sudoku-solver.js:315-317 | Rejections + 1, the rest unchanged. |
| Stats.SolverStats.PlacementValidationPerformed | sudoku-solver.js:325-331 | Placement-validation successes + 1 when the flag is true, failures + 1 otherwise, the rest unchanged. |
| Stats.SolverStats.RowValidationPerformed | sudoku-solver.js:339-345 | Row-validation successes or failures + 1, as the flag says, the rest unchanged. |
| Stats.SolverStats.ColumnValidationPerformed | sudoku-solver.js:353-359 | Column-validation successes or failures + 1, as the flag says, the rest unchanged. |
| Stats.SolverStats.BoxValidationPerformed | sudoku-solver.js:367-373 | Box-validation successes or failures + 1, as the flag says, the rest unchanged. |
| Stats.RecordValidation | sudoku-solver.js:462-469 | Gives what one placement validation records. There is one placement success exactly when all three checks pass, otherwise one failure. The row check always runs. The column check runs exactly when the row check passed, and the box check exactly when both passed. A failing row check changes only the row-failure and placement-failure counters. Attempts and rejections do not move, and the validation balance is kept. |
| Stats.FailuresAccounted | sudoku-solver.js:462-469 | Under the validation balance, placement-validation failures equal row failures + column failures + box failures. |
| Stats.BookkeptFromZero | sudoku-solver.js:287-297 | Counters that start from zero and move as the search moves them keep the validation balance. |
| Stats.FailedValidationBalanced | sudoku-solver.js:398 | A validation that fails attempts nothing and leaves the search balance intact. |
| Stats.AttemptBalanced | sudoku-solver.js:398-399 | A passed validation followed by its attempt adds one placed digit: attempts and successful validations rise together. |
| Stats.RejectionBalanced | sudoku-solver.js:404 | A rejection takes one placed digit back. |
| Solver.SudokuSolver.constructor | sudoku-solver.js:421-442 | Runs the search with fresh statistics. The board ends full or exactly as given, and keeps every given digit. For a board without repeated digits: the board ends full exactly when a solution exists, and a full board is a solution. For any board that has a solution, the board ends as a solution. The counters are balanced from zero: attempts = successful validations, and attempts - rejections = digits the solution filled in (0 on failure). A board given already full leaves every counter at 0. |
| Solver.SudokuSolver.IsRowValid | sudoku-solver.js:444-448 | True exactly when num is not in the row. Records one row validation with that outcome. |
| Solver.SudokuSolver.IsColValid | sudoku-solver.js:450-454 | True exactly when num is not in the column. Records one column validation with that outcome. |
| Solver.SudokuSolver.IsBoxValid | sudoku-solver.js:456-460 | True exactly when num is not in the box. Records one box validation with that outcome. |
| Solver.SudokuSolver.IsValid | sudoku-solver.js:462-469 | True exactly when num is in neither the row, the column nor the box. The counters move as `RecordValidation` says for the three checks' outcomes, so the checks stop at the first failure. |
| Solver.SudokuSolver.SetCell | sudoku-solver.js:473-475 | The game's board becomes the old board with (row, col) set to num. |
| Solver.SudokuSolver.ClearCell | sudoku-solver.js:477-479 | The game's board becomes the old board with (row, col) emptied. |
| Solver.SudokuSolver.FindEmptyCell | sudoku-solver.js:481-483 | Same result as the game's: "no cell" exactly when the board is full, otherwise the row-major first empty cell. |
| Solver.SudokuSolver.IsDefaultInvalidLocation | sudoku-solver.js:485-488 | Answers as the game's check does: true exactly for the location (-1, -1), so never for a cell of the board. |
| Solver.Solve | sudoku-solver.js:386-409 | Succeeds exactly when the board ends with no 0. On failure the board is exactly as on entry, and no solution keeps the board's digits. Filled cells are never changed, a board without repeats stays without repeats, and the starting board is untouched. The counters never fall and keep the validation balance. Attempts rise exactly as much as successful validations. Rejections rise as much as attempts, except for the digits a success placed. A board that is already full leaves the counters unchanged. |
| Solver.TryDigit | sudoku-solver.js:398-406 | One pass of the digit loop. On failure the board is unchanged and no solution puts num at (row, col). On success the board is full and keeps its digits. The counters are balanced as in `Solve`. |
| Solver.PlaceAndSearch | sudoku-solver.js:399-405 | After a passed validation: attempt, place, recurse, and on failure reject and clear. On failure the board is restored exactly and one attempt is matched by one rejection. On success the board is full and keeps its digits. |
| Grids.Update | sudoku-solver.js:161-163 | The written board has n at (r, c) and every other cell unchanged, and stays 9x9 with cells in 0..9. |
| Grids.UpdateRestores | sudoku-solver.js:400-405 | Setting an empty cell and then clearing it gives back exactly the board before. |
| Grids.EmptyCountUpdate | sudoku-solver.js:400 | Placing a digit in an empty cell lowers the number of empty cells by exactly one. This is why the recursion terminates. |
| Grids.EmptyCountZero | sudoku-solver.js:387-390 | The number of empty cells is 0 exactly when no cell holds 0. |
| Grids.PlacementKeepsConsistent | sudoku-solver.js:398-400 | Placing a digit that passes validation in a board without repeated digits leaves it without repeated digits. |
| Grids.CompletionOnlyWithoutClash | sudoku-solver.js:398 | A digit that fails validation in a cell is one that no solution keeping the board's digits puts there. |
| Grids.CompletionFillsCell | sudoku-solver.js:395-408 | If some solution keeps the board's digits, then some digit 1..9 in the empty cell still leaves the board with such a solution. So after all nine fail, there is none. |
| Grids.DeadEndsGrow | sudoku-solver.js:395 | The set of ruled-out digits grows by the digit just tried. |
| Grids.CompletionIsConsistent | sudoku-solver.js:421-442 | A board that some solution extends has no repeated digit already, so the search's outcome for consistent boards covers every solvable board. |
| Grids.SolutionCompletes | sudoku-solver.js:386-390 | A full board without repeats that keeps a board's digits shows that board has a solution. |
| Grids.SolutionRowHasEveryDigit | sudoku-solver.js:386-409 | What a solution is: a full board in which no row repeats a digit contains every digit 1..9 in every row, so each digit exactly once. |
| Grids.SolutionColHasEveryDigit | sudoku-solver.js:386-409 | What a solution is: every column of a solution contains every digit 1..9 exactly once. |
| Grids.SolutionBoxHasEveryDigit | sudoku-solver.js:386-409 | What a solution is: every 3x3 box of a solution contains every digit 1..9 exactly once. |

## Left out

- Timing: the performance observer, the marks and measures and the
  floating-point `solveTicks` value set in the solver constructor
  (sudoku-solver.js:427-441 and 298). These are a runtime API and floating
  point.
- The printing helpers (sudoku-solver.js:494-558). They are console output
  and floating-point percentages.
- The interface classes whose methods only throw "Not implemented"
  (sudoku-solver.js:102-124). They carry no behaviour.
- The top-level lines that pick a puzzle, solve it and print it
  (sudoku-solver.js:562-567), and the puzzle library (sudoku-solver.js:5-51),
  which is data.
- Game.SudokuGame.constructor: boards are rectangular `array2<int>` values,
  and the template must be 9x9 with cells in 0..9. The source copies
  arbitrary nested arrays without checking them. Ragged rows, rows shared
  between arrays and values outside 0..9 are therefore not modelled.
  `CopyBoard` itself accepts any dimensions.
- Game.SudokuGame.IsDefaultInvalidLocation: a location is always a pair of
  integers. The source's checks that the argument is an array of length 2
  have no counterpart.
- Cell operations require `0 <= row, col < 9` and a value in 0..9. The
  source does no bounds checking, and these error paths are not modelled:
  - A row of 9 or more throws a `TypeError` on every read
    (sudoku-solver.js:150, 185, 197, 229) and write (162, 173).
  - A negative row throws the same way everywhere except `isInBox`. Its
    guard (sudoku-solver.js:224-225) maps a negative row or column to 0, so
    it scans the first band of three instead.
  - On reads, a column of 9 or more gives `undefined`, and the call returns
    normally: `getCell` (sudoku-solver.js:150) returns `undefined`, and
    `isCellEmpty` (185), `isInColumn` (210) and `isInBox` (229) return
    false. A negative column does the same in `getCell`, `isCellEmpty` and
    `isInColumn`.
  - On writes (sudoku-solver.js:162, 173), a column of 9 or more lengthens
    the row, and a negative column adds a property that is not an array
    element.
- Solver.Solve: returns a boolean instead of the solver object or `false`.
  It is not proved that the solution found is the first one in the order
  the digits are tried.
- Solver.PlaceAndSearch: requires that the digit passed validation, which
  is the only way the source reaches these steps.

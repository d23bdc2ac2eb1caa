/**
 * The game state: a live 9x9 board that the solver writes in place, a
 * separate copy of the starting board, and the queries the solver uses to
 * test a placement against the row, column and box rules.
 */
module Game {
  import opened Grids

  /** A cell position [row, col]; (-1, -1) stands for "no cell". */
  datatype Location = Location(row: int, col: int)

  const InvalidCellIndex := -1

  /** The index -1 that marks "no cell"; it is never an index of the board. */
  predicate IsInvalidCellIndex(index: int): (invalid: bool)
    ensures invalid <==> index == -1
    ensures invalid ==> !(0 <= index < 9)
  {
    index == InvalidCellIndex
  }

  /** The board held in a 9x9 array, as a value. */
  ghost function Contents(a: array2<int>): (g: Grid)
    reads a
    requires a.Length0 == 9 && a.Length1 == 9
    ensures |g| == 9 && forall i :: 0 <= i < 9 ==> |g[i]| == 9 && forall j :: 0 <= j < 9 ==> g[i][j] == a[i, j]
  {
    seq(9, i requires 0 <= i < 9 reads a => seq(9, j requires 0 <= j < 9 reads a => a[i, j]))
  }

  /** A fresh array with the same dimensions and cells as the given board. */
  method CopyBoard(board: array2<int>) returns (newBoard: array2<int>)
    ensures fresh(newBoard)
    ensures newBoard.Length0 == board.Length0 && newBoard.Length1 == board.Length1
    ensures forall i, j :: 0 <= i < board.Length0 && 0 <= j < board.Length1 ==> newBoard[i, j] == board[i, j]
  {
    newBoard := new int[board.Length0, board.Length1];
    for i := 0 to board.Length0
      invariant forall i', j :: 0 <= i' < i && 0 <= j < board.Length1 ==> newBoard[i', j] == board[i', j]
    {
      for j := 0 to board.Length1
        invariant forall i', j' :: 0 <= i' < i && 0 <= j' < board.Length1 ==> newBoard[i', j'] == board[i', j']
        invariant forall j' :: 0 <= j' < j ==> newBoard[i, j'] == board[i, j']
      {
        newBoard[i, j] := board[i, j];
      }
    }
  }

  /** A fresh 9x9 board with every cell empty. */
  method CreateEmptyBoard() returns (board: array2<int>)
    ensures fresh(board) && board.Length0 == 9 && board.Length1 == 9
    ensures forall i, j :: 0 <= i < 9 && 0 <= j < 9 ==> board[i, j] == EmptyCellValue
  {
    board := new int[9, 9];
    for i := 0 to 9
      invariant forall i', j :: 0 <= i' < i && 0 <= j < 9 ==> board[i', j] == EmptyCellValue
    {
      for j := 0 to 9
        invariant forall i', j' :: 0 <= i' < i && 0 <= j' < 9 ==> board[i', j'] == EmptyCellValue
        invariant forall j' :: 0 <= j' < j ==> board[i, j'] == EmptyCellValue
      {
        board[i, j] := EmptyCellValue;
      }
    }
  }

  /**
   * Top-left row (or column) of the 3x3 box holding the given index. The
   * guard on 0 gives the same answer as the arithmetic would.
   */
  function BoxCorner(index: int): (corner: int)
    requires 0 <= index < 9
    ensures corner % 3 == 0 && corner <= index < corner + 3
    ensures forall k :: 0 <= k < 9 ==> (k / 3 == index / 3 <==> corner <= k < corner + 3)
  {
    if index > 0 then index - index % 3 else 0
  }

  class SudokuGame {
    /** The live board, written by the solver. */
    const board: array2<int>
    /** The board as it was given; never written after construction. */
    const startingBoard: array2<int>
    /** The live board as a value. */
    ghost var cells: Grid

    ghost predicate Valid()
      reads this, board, startingBoard
    {
      && board.Length0 == 9 && board.Length1 == 9
      && startingBoard.Length0 == 9 && startingBoard.Length1 == 9
      && board != startingBoard
      && WellFormed(cells)
      && (forall i, j :: 0 <= i < 9 && 0 <= j < 9 ==> board[i, j] == cells[i][j])
      && (forall i, j :: 0 <= i < 9 && 0 <= j < 9 ==> 0 <= startingBoard[i, j] <= 9)
    }

    /**
     * Both boards are independent copies of the template: neither is the
     * template nor each other, so writing one leaves the others alone.
     */
    constructor (boardTemplate: array2<int>)
      requires boardTemplate.Length0 == 9 && boardTemplate.Length1 == 9
      requires forall i, j :: 0 <= i < 9 && 0 <= j < 9 ==> 0 <= boardTemplate[i, j] <= 9
      ensures Valid() && fresh(board) && fresh(startingBoard)
      ensures cells == Contents(boardTemplate)
      ensures forall i, j :: 0 <= i < 9 && 0 <= j < 9 ==> startingBoard[i, j] == boardTemplate[i, j]
    {
      var live := CopyBoard(boardTemplate);
      var starting := CopyBoard(boardTemplate);
      board := live;
      startingBoard := starting;
      cells := Contents(boardTemplate);
    }

    function GetCell(row: int, col: int): (value: int)
      reads this, board, startingBoard
      requires Valid() && 0 <= row < 9 && 0 <= col < 9
      ensures value == cells[row][col] && 0 <= value <= 9
    {
      board[row, col]
    }

    /** Writes num into (row, col); every other cell and the starting board stay. */
    method SetCell(row: int, col: int, num: int)
      requires Valid() && 0 <= row < 9 && 0 <= col < 9 && 0 <= num <= 9
      modifies this`cells, board
      ensures Valid()
      ensures cells == Update(old(cells), row, col, num)
      ensures board[row, col] == num
      ensures forall i, j :: 0 <= i < 9 && 0 <= j < 9 && (i != row || j != col) ==> board[i, j] == old(board[i, j])
      ensures unchanged(startingBoard)
    {
      board[row, col] := num;
      cells := Update(cells, row, col, num);
    }

    /** Empties (row, col); every other cell and the starting board stay. */
    method ClearCell(row: int, col: int)
      requires Valid() && 0 <= row < 9 && 0 <= col < 9
      modifies this`cells, board
      ensures Valid()
      ensures cells == Update(old(cells), row, col, EmptyCellValue)
      ensures board[row, col] == EmptyCellValue
      ensures forall i, j :: 0 <= i < 9 && 0 <= j < 9 && (i != row || j != col) ==> board[i, j] == old(board[i, j])
      ensures unchanged(startingBoard)
    {
      board[row, col] := EmptyCellValue;
      cells := Update(cells, row, col, EmptyCellValue);
    }

    function IsCellEmpty(row: int, col: int): (empty: bool)
      reads this, board, startingBoard
      requires Valid() && 0 <= row < 9 && 0 <= col < 9
      ensures empty <==> cells[row][col] == EmptyCellValue
    {
      board[row, col] == EmptyCellValue
    }

    function IsInRow(row: int, num: int): (found: bool)
      reads this, board, startingBoard
      requires Valid() && 0 <= row < 9
      ensures found <==> InRow(cells, row, num)
    {
      exists j | 0 <= j < 9 :: board[row, j] == num
    }

    function IsInColumn(col: int, num: int): (found: bool)
      reads this, board, startingBoard
      requires Valid() && 0 <= col < 9
      ensures found <==> InCol(cells, col, num)
    {
      exists i | 0 <= i < 9 :: board[i, col] == num
    }

    /** Scans the 3x3 box of (row, col), stopping at the first cell holding num. */
    method IsInBox(row: int, col: int, num: int) returns (found: bool)
      requires Valid() && 0 <= row < 9 && 0 <= col < 9
      ensures found <==> InBox(cells, row, col, num)
    {
      var startRow := BoxCorner(row);
      var startCol := BoxCorner(col);
      for i := startRow to startRow + 3
        invariant forall i', j :: startRow <= i' < i && startCol <= j < startCol + 3 ==> cells[i'][j] != num
      {
        for j := startCol to startCol + 3
          invariant forall j' :: startCol <= j' < j ==> cells[i][j'] != num
        {
          if board[i, j] == num {
            assert SameBox(i, j, row, col);
            return true;
          }
        }
      }
      return false;
    }

    /**
     * The row-major first empty cell, or the "no cell" location exactly when
     * the board is full.
     */
    method FindEmptyCell() returns (cell: Location)
      requires Valid()
      ensures IsDefaultInvalidLocation(cell) <==> NoEmpty(cells)
      ensures !IsDefaultInvalidLocation(cell) ==> FirstEmpty(cells, cell.row, cell.col)
    {
      for row := 0 to 9
        invariant forall i, j :: 0 <= i < row && 0 <= j < 9 ==> cells[i][j] != EmptyCellValue
      {
        for col := 0 to 9
          invariant forall j :: 0 <= j < col ==> cells[row][j] != EmptyCellValue
        {
          if IsCellEmpty(row, col) {
            return Location(row, col);
          }
        }
      }
      return DefaultInvalidLocation();
    }

    /** The "no cell" location: outside the board in both coordinates. */
    function DefaultInvalidLocation(): (cell: Location)
      ensures cell.row < 0 && cell.col < 0
    {
      Location(InvalidCellIndex, InvalidCellIndex)
    }

    /** True only for the "no cell" location, so never for a cell of the board. */
    function IsDefaultInvalidLocation(cell: Location): (invalid: bool)
      ensures invalid <==> cell == DefaultInvalidLocation()
      ensures invalid ==> !(0 <= cell.row < 9 && 0 <= cell.col < 9)
    {
      IsInvalidCellIndex(cell.row) && IsInvalidCellIndex(cell.col)
    }
  }
}

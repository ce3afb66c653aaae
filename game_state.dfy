/**
 * The `GameState` class: a holder of one 3x3 board that `play` and `restart`
 * replace by a fresh board, and the queries that read it.
 */
module Game {
  import opened Rules

  /** The board value held in a 3x3 array. */
  function Contents(a: array2<Cell>): Grid
    requires a.Length0 == 3 && a.Length1 == 3
    reads a
  {
    [[a[0, 0], a[0, 1], a[0, 2]],
     [a[1, 0], a[1, 1], a[1, 2]],
     [a[2, 0], a[2, 1], a[2, 2]]]
  }

  lemma ContentsAt(a: array2<Cell>, i: Idx, j: Idx)
    requires a.Length0 == 3 && a.Length1 == 3
    ensures Contents(a)[i][j] == a[i, j]
  {
    assert i == 0 || i == 1 || i == 2;
    assert j == 0 || j == 1 || j == 2;
  }

  class GameState {
    var board: array2<Cell>

    predicate Valid()
      reads this
    {
      board.Length0 == 3 && board.Length1 == 3
    }

    /** The current board. */
    function Value(): Grid
      requires Valid()
      reads this, board
    {
      Contents(board)
    }

    /** A new game holds a copy of the empty `initBoard`. */
    constructor ()
      ensures Valid() && fresh(board)
      ensures Value() == EmptyGrid()
    {
      board := new Cell[3, 3]((i, j) => Empty);
    }

    /**
     * `play(loc)`: writes the current turn's mark at `loc` into a copy of the
     * board and installs the copy. Nothing is checked: an occupied cell is
     * overwritten, and a finished game goes on. The previous board object
     * keeps its contents.
     */
    method Play(loc: Coord) returns (self: GameState)
      requires Valid()
      modifies this
      ensures Valid() && fresh(board) && self == this
      ensures Value() == Place(old(Value()), loc, TurnOf(old(Value())))
      ensures Contents(old(board)) == old(Value())
    {
      var nextBoard := CloneBoard(board);
      var mark := Turn();
      nextBoard[loc.y, loc.x] := mark;
      ghost var g := Contents(board);
      forall p: Coord
        ensures At(Contents(nextBoard), p) == At(Place(g, loc, mark), p)
      {
        ContentsAt(nextBoard, p.y, p.x);
        ContentsAt(board, p.y, p.x);
      }
      GridExt(Contents(nextBoard), Place(g, loc, mark));
      board := nextBoard;
      self := this;
    }

    /** `restart()`: installs a fresh copy of the empty `initBoard`. */
    method Restart() returns (self: GameState)
      requires Valid()
      modifies this
      ensures Valid() && fresh(board) && self == this
      ensures Value() == EmptyGrid()
      ensures Contents(old(board)) == old(Value())
    {
      board := new Cell[3, 3]((i, j) => Empty);
      self := this;
    }

    /** `cloneBoard(b)`: a new array with the same cells as `b`. */
    static method CloneBoard(b: array2<Cell>) returns (nb: array2<Cell>)
      requires b.Length0 == 3 && b.Length1 == 3
      ensures fresh(nb) && nb.Length0 == 3 && nb.Length1 == 3
      ensures Contents(nb) == Contents(b)
    {
      nb := new Cell[3, 3]((i, j) requires 0 <= i < 3 && 0 <= j < 3 reads b => b[i, j]);
    }

    /** `winMark()`: the player who is not to move, that is the one who moved last. */
    method WinMark() returns (m: Mark)
      requires Valid()
      ensures m != TurnOf(Value())
    {
      var t := Turn();
      m := if t == O then X else O;
    }

    /** `findWinRow()`: the first row, top to bottom, full of one mark. */
    method FindWinRow() returns (r: Option<WinState>)
      requires Valid()
      ensures r == FirstWin(Value(), Rows())
    {
      ghost var g := Value();
      for i := 0 to 3
        invariant forall k | 0 <= k < i :: !Complete(g, Rows()[k])
      {
        var row := [board[i, 0], board[i, 1], board[i, 2]];
        assert row == CellsOf(g, RowLine(i)) by {
          ContentsAt(board, i, 0);
          ContentsAt(board, i, 1);
          ContentsAt(board, i, 2);
        }
        RowsAt(i);
        if HasWinLine(row) {
          var m := WinMark();
          return Some(Win(m, RowLine(i)));
        }
      }
      return None;
    }

    /** `findWinColumn()`: the first column, left to right, full of one mark. */
    method FindWinColumn() returns (r: Option<WinState>)
      requires Valid()
      ensures r == FirstWin(Value(), Columns())
    {
      ghost var g := Value();
      for i := 0 to 3
        invariant forall k | 0 <= k < i :: !Complete(g, Columns()[k])
      {
        var column := i;
        var cells := [board[0, column], board[1, column], board[2, column]];
        assert cells == CellsOf(g, ColumnLine(column)) by {
          ContentsAt(board, 0, column);
          ContentsAt(board, 1, column);
          ContentsAt(board, 2, column);
        }
        RowsAt(column);
        if HasWinLine(cells) {
          var m := WinMark();
          return Some(Win(m, ColumnLine(column)));
        }
      }
      return None;
    }

    /** `findWinForwardSlash()`: the main diagonal, if it is full of one mark. */
    function FindWinForwardSlash(): (r: Option<WinState>)
      requires Valid()
      reads this, board
      ensures r == FirstWin(Value(), [ForwardSlashLine()])
    {
      ContentsAt(board, 0, 0);
      ContentsAt(board, 1, 1);
      ContentsAt(board, 2, 2);
      FirstWinSingle(Value(), ForwardSlashLine());
      assert [board[0, 0], board[1, 1], board[2, 2]] == CellsOf(Value(), ForwardSlashLine());
      if HasWinLine([board[0, 0], board[1, 1], board[2, 2]])
      then Some(Win(WinMarkOf(Value()), ForwardSlashLine()))
      else None
    }

    /** `findWinBackSlash()`: the anti-diagonal, if it is full of one mark. */
    function FindWinBackSlash(): (r: Option<WinState>)
      requires Valid()
      reads this, board
      ensures r == FirstWin(Value(), [BackSlashLine()])
    {
      ContentsAt(board, 0, 2);
      ContentsAt(board, 1, 1);
      ContentsAt(board, 2, 0);
      FirstWinSingle(Value(), BackSlashLine());
      assert [board[0, 2], board[1, 1], board[2, 0]] == CellsOf(Value(), BackSlashLine());
      if HasWinLine([board[0, 2], board[1, 1], board[2, 0]])
      then Some(Win(WinMarkOf(Value()), BackSlashLine()))
      else None
    }

    /** `turn()`: counts the marks; O moves when X has more marks, X otherwise. */
    method Turn() returns (m: Mark)
      requires Valid()
      ensures m == TurnOf(Value())
      ensures m == O <==> Count(Value(), X) > Count(Value(), O)
    {
      ghost var g := Value();
      var xCount, oCount := 0, 0;
      for i := 0 to 3
        invariant xCount == TallyRows(g[..i], X)
        invariant oCount == TallyRows(g[..i], O)
      {
        for j := 0 to 3
          invariant xCount == TallyRows(g[..i], X) + Tally(g[i][..j], X)
          invariant oCount == TallyRows(g[..i], O) + Tally(g[i][..j], O)
        {
          var el := board[i, j];
          ContentsAt(board, i, j);
          assert g[i][..j + 1] == g[i][..j] + [el];
          if el == O {
            oCount := oCount + 1;
          }
          if el == X {
            xCount := xCount + 1;
          }
        }
        assert g[..i + 1][..i] == g[..i];
        assert g[i][..3] == g[i];
      }
      assert g[..3] == g;
      m := if xCount > oCount then O else X;
    }

    /** `winState()`: rows, then columns, then the two diagonals, then the draw test. */
    method WinState() returns (r: WinState)
      requires Valid()
      ensures r == WinStateOf(Value())
    {
      ghost var g := Value();
      FirstWinAppend(g, Rows(), Columns());
      FirstWinAppend(g, Rows() + Columns(), [ForwardSlashLine()]);
      FirstWinAppend(g, Rows() + Columns() + [ForwardSlashLine()], [BackSlashLine()]);
      assert SearchOrder() == Rows() + Columns() + [ForwardSlashLine()] + [BackSlashLine()];
      var rowWin := FindWinRow();
      if rowWin.Some? {
        return rowWin.value;
      }
      var columnWin := FindWinColumn();
      if columnWin.Some? {
        return columnWin.value;
      }
      var fSlashWin := FindWinForwardSlash();
      if fSlashWin.Some? {
        return fSlashWin.value;
      }
      var bSlashWin := FindWinBackSlash();
      if bSlashWin.Some? {
        return bSlashWin.value;
      }
      if HasMarkedAll(Contents(board)) {
        return Draw;
      }
      return InProgress;
    }

    /** `boardState()`: the board object itself, not a copy. */
    function BoardState(): (b: array2<Cell>)
      requires Valid()
      reads this
      ensures b == board && b.Length0 == 3 && b.Length1 == 3
    {
      board
    }

    /** `playCount()`: counts the occupied cells. */
    method PlayCount() returns (n: nat)
      requires Valid()
      ensures n == Occupied(Value())
      ensures n <= 9
    {
      ghost var g := Value();
      n := 0;
      for i := 0 to 3
        invariant n == TallyRows(g[..i], X) + TallyRows(g[..i], O)
      {
        for j := 0 to 3
          invariant n == TallyRows(g[..i], X) + Tally(g[i][..j], X)
                       + TallyRows(g[..i], O) + Tally(g[i][..j], O)
        {
          var box := BoardState()[i, j];
          ContentsAt(board, i, j);
          assert g[i][..j + 1] == g[i][..j] + [box];
          if box != Empty {
            n := n + 1;
          }
        }
        assert g[..i + 1][..i] == g[..i];
        assert g[i][..3] == g[i];
      }
      assert g[..3] == g;
      OccupiedBound(g);
    }
  }
}

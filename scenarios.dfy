/**
 * Whole games, played through the view and directly through `play`.
 */
module Scenarios {
  import opened Rules
  import opened View

  /** Calls of `play` one after another, with no guard in between. */
  function Plays(g: Grid, locs: seq<Coord>): Grid
    decreases |locs|
  {
    if locs == [] then g else Plays(Place(g, locs[0], TurnOf(g)), locs[1..])
  }

  // ------------------------------------------------ evaluating a concrete board

  /** Three cells holding the same mark. */
  function Wins3(a: Cell, b: Cell, c: Cell): bool
  {
    a != Empty && a == b && b == c
  }

  /** 1 for true, 0 for false. */
  function Ind(b: bool): nat
  {
    if b then 1 else 0
  }

  /** A three-cell row, counted cell by cell. */
  lemma Tally3(s: seq<Cell>, m: Cell)
    requires |s| == 3
    ensures Tally(s, m) == Ind(s[0] == m) + Ind(s[1] == m) + Ind(s[2] == m)
  {
    var s1, s2 := s[..1], s[..2];
    assert s1[..0] == [] && s1[0] == s[0];
    assert Tally(s1, m) == Ind(s[0] == m);
    assert s2[..1] == s1 && s2[1] == s[1];
    assert Tally(s2, m) == Ind(s[0] == m) + Ind(s[1] == m);
    assert s[..2] == s2;
  }

  /** The number of cells holding `m`, cell by cell. */
  function Marks(g: Grid, m: Cell): nat
  {
    Ind(g[0][0] == m) + Ind(g[0][1] == m) + Ind(g[0][2] == m)
    + Ind(g[1][0] == m) + Ind(g[1][1] == m) + Ind(g[1][2] == m)
    + Ind(g[2][0] == m) + Ind(g[2][1] == m) + Ind(g[2][2] == m)
  }

  /** `Count` agrees with the cell-by-cell sum. */
  lemma CountByCells(g: Grid, m: Cell)
    ensures Count(g, m) == Marks(g, m)
  {
    CountByRows(g, m);
    Tally3(g[0], m);
    Tally3(g[1], m);
    Tally3(g[2], m);
  }

  /** A line of three positions is complete when its three cells hold one mark. */
  lemma CompleteThree(g: Grid, l: Line)
    requires |l| == 3
    ensures Complete(g, l) <==> Wins3(At(g, l[0]), At(g, l[1]), At(g, l[2]))
  {
    CompleteIffFilled(g, l);
  }

  /** No line of the board holds three equal marks, cell by cell. */
  predicate NoLineByCells(g: Grid)
  {
    !LineWinsByCells(g, 0) && !LineWinsByCells(g, 1) && !LineWinsByCells(g, 2) &&
    !LineWinsByCells(g, 3) && !LineWinsByCells(g, 4) && !LineWinsByCells(g, 5) &&
    !LineWinsByCells(g, 6) && !LineWinsByCells(g, 7)
  }

  lemma NoLineComplete(g: Grid)
    requires NoLineByCells(g)
    ensures !SomeLineComplete(g)
  {
    SearchOrderLines();
    forall k | 0 <= k < 8
      ensures !Complete(g, SearchOrder()[k])
    {
      LineCells(g, k);
    }
  }

  /** A click on an empty cell of a board without a line reaches `play`. */
  lemma ClickOnOpen(g: Grid, x: Idx, y: Idx)
    requires At(g, Coord(y, x)) == Empty && NoLineByCells(g)
    ensures Click(g, x, y) == Place(g, Coord(y, x), TurnOf(g))
  {
    NoLineComplete(g);
  }

  /** A run that passes through the boards `gs`, one event at a time, ends at the last of them. */
  lemma {:induction false} RunThrough(gs: seq<Grid>, events: seq<Event>)
    requires |gs| == |events| + 1
    requires forall i | 0 <= i < |events| :: Step(gs[i], events[i]) == gs[i + 1]
    ensures Run(gs[0], events) == gs[|events|]
    decreases |events|
  {
    if events != [] {
      RunThrough(gs[1..], events[1..]);
    }
  }

  /** The mover of a board, cell by cell. */
  lemma TurnByCells(g: Grid)
    ensures TurnOf(g) == if Marks(g, X) > Marks(g, O) then O else X
  {
    CountByCells(g, X);
    CountByCells(g, O);
  }

  /** One enabled click, evaluated: the mover `m` writes at `x, y`. */
  lemma ClickTo(g: Grid, x: Idx, y: Idx, m: Mark, r: Grid)
    requires At(g, Coord(y, x)) == Empty && NoLineByCells(g)
    requires Marks(g, X) > Marks(g, O) <==> m == O
    requires r == g[y := g[y][x := m]]
    ensures Click(g, x, y) == r
  {
    TurnByCells(g);
    ClickOnOpen(g, x, y);
  }

  /** Calls of `play` that pass through the boards `gs` end at the last of them. */
  lemma {:induction false} PlaysThrough(gs: seq<Grid>, locs: seq<Coord>)
    requires |gs| == |locs| + 1
    requires forall i | 0 <= i < |locs| :: Place(gs[i], locs[i], TurnOf(gs[i])) == gs[i + 1]
    ensures Plays(gs[0], locs) == gs[|locs|]
    decreases |locs|
  {
    if locs != [] {
      PlaysThrough(gs[1..], locs[1..]);
    }
  }

  /** One call of `play`, evaluated: the mover `m` writes at `c`. */
  lemma PlayTo(g: Grid, c: Coord, m: Mark, r: Grid)
    requires Marks(g, X) > Marks(g, O) <==> m == O
    requires r == g[c.y := g[c.y][c.x := m]]
    ensures Place(g, c, TurnOf(g)) == r
  {
    TurnByCells(g);
  }

  /** Whether the line at position `k` of the search order is full of one mark, cell by cell. */
  function LineWinsByCells(g: Grid, k: nat): bool
    requires k < 8
  {
    if k == 0 then Wins3(g[0][0], g[0][1], g[0][2])
    else if k == 1 then Wins3(g[1][0], g[1][1], g[1][2])
    else if k == 2 then Wins3(g[2][0], g[2][1], g[2][2])
    else if k == 3 then Wins3(g[0][0], g[1][0], g[2][0])
    else if k == 4 then Wins3(g[0][1], g[1][1], g[2][1])
    else if k == 5 then Wins3(g[0][2], g[1][2], g[2][2])
    else if k == 6 then Wins3(g[0][0], g[1][1], g[2][2])
    else Wins3(g[0][2], g[1][1], g[2][0])
  }

  /** The eight lines of the search order, by position. */
  lemma SearchOrderLines()
    ensures |SearchOrder()| == 8
    ensures SearchOrder()[0] == RowLine(0) && SearchOrder()[1] == RowLine(1) && SearchOrder()[2] == RowLine(2)
    ensures SearchOrder()[3] == ColumnLine(0) && SearchOrder()[4] == ColumnLine(1) && SearchOrder()[5] == ColumnLine(2)
    ensures SearchOrder()[6] == ForwardSlashLine() && SearchOrder()[7] == BackSlashLine()
  {
  }

  /** The line at position `k` is complete exactly when its cells hold one mark. */
  lemma LineCells(g: Grid, k: nat)
    requires k < 8
    ensures Complete(g, SearchOrder()[k]) <==> LineWinsByCells(g, k)
  {
    SearchOrderLines();
    CompleteThree(g, SearchOrder()[k]);
  }

  /**
   * The outcome of a board whose first complete line, cell by cell, is the
   * one at position `k`: a win on that line for the player with more marks.
   */
  lemma OutcomeAt(g: Grid, k: nat)
    requires k < 8 && LineWinsByCells(g, k)
    requires forall j | 0 <= j < k :: !LineWinsByCells(g, j)
    ensures WinStateOf(g) == Win(if Marks(g, X) > Marks(g, O) then X else O, SearchOrder()[k])
  {
    SearchOrderLines();
    forall j | 0 <= j < 8
      ensures Complete(g, SearchOrder()[j]) <==> LineWinsByCells(g, j)
    {
      LineCells(g, j);
    }
    var f := FirstComplete(g, SearchOrder());
    assert f == k;
    TurnByCells(g);
  }

  /** A full board without a line, cell by cell, is a draw with nine marks. */
  lemma DrawByCells(g: Grid)
    requires NoLineByCells(g) && Marks(g, Empty) == 0
    ensures WinStateOf(g) == Draw && Occupied(g) == 9
  {
    NoLineComplete(g);
    forall p: Coord
      ensures At(g, p) != Empty
    {
      assert p.y == 0 || p.y == 1 || p.y == 2;
      assert p.x == 0 || p.x == 1 || p.x == 2;
    }
  }

  /** A run over `a + b` is a run over `a` followed by one over `b`. */
  lemma {:induction false} RunAppend(g: Grid, a: seq<Event>, b: seq<Event>)
    ensures Run(g, a + b) == Run(Run(g, a), b)
    decreases |a|
  {
    if a == [] {
      assert a + b == b;
    } else {
      assert (a + b)[1..] == a[1..] + b;
      RunAppend(Step(g, a[0]), a[1..], b);
    }
  }

  /** Calls of `play` over `a + b` are those over `a` followed by those over `b`. */
  lemma {:induction false} PlaysAppend(g: Grid, a: seq<Coord>, b: seq<Coord>)
    ensures Plays(g, a + b) == Plays(Plays(g, a), b)
    decreases |a|
  {
    if a == [] {
      assert a + b == b;
    } else {
      assert (a + b)[1..] == a[1..] + b;
      PlaysAppend(Place(g, a[0], TurnOf(g)), a[1..], b);
    }
  }

  // ------------------------------------------------------------ games

  /** The first three moves of `TopRowWin`. */
  lemma TopRowWinOpening()
    ensures Run(EmptyGrid(), [Press(0, 0), Press(1, 1), Press(1, 0)])
         == [[X, X, Empty], [Empty, O, Empty], [Empty, Empty, Empty]]
  {
    var events := [Press(0, 0), Press(1, 1), Press(1, 0)];
    var boards: seq<Grid> := [
      [[Empty, Empty, Empty], [Empty, Empty, Empty], [Empty, Empty, Empty]],
      [[X, Empty, Empty], [Empty, Empty, Empty], [Empty, Empty, Empty]],
      [[X, Empty, Empty], [Empty, O, Empty], [Empty, Empty, Empty]],
      [[X, X, Empty], [Empty, O, Empty], [Empty, Empty, Empty]]
    ];
    forall i | 0 <= i < |events|
      ensures Step(boards[i], events[i]) == boards[i + 1]
    {
      if i == 0 {
        assert boards[0][0][0 := X] == boards[1][0];
        ClickTo(boards[0], 0, 0, X, boards[1]);
      } else if i == 1 {
        assert boards[1][1][1 := O] == boards[2][1];
        ClickTo(boards[1], 1, 1, O, boards[2]);
      } else {
        assert boards[2][0][1 := X] == boards[3][0];
        ClickTo(boards[2], 1, 0, X, boards[3]);
      }
    }
    RunThrough(boards, events);
  }

  /** The last two moves of `TopRowWin`. */
  lemma TopRowWinEnd()
    ensures Run([[X, X, Empty], [Empty, O, Empty], [Empty, Empty, Empty]], [Press(2, 2), Press(2, 0)])
         == [[X, X, X], [Empty, O, Empty], [Empty, Empty, O]]
  {
    var events := [Press(2, 2), Press(2, 0)];
    var boards: seq<Grid> := [
      [[X, X, Empty], [Empty, O, Empty], [Empty, Empty, Empty]],
      [[X, X, Empty], [Empty, O, Empty], [Empty, Empty, O]],
      [[X, X, X], [Empty, O, Empty], [Empty, Empty, O]]
    ];
    forall i | 0 <= i < |events|
      ensures Step(boards[i], events[i]) == boards[i + 1]
    {
      if i == 0 {
        assert boards[0][2][2 := O] == boards[1][2];
        ClickTo(boards[0], 2, 2, O, boards[1]);
      } else {
        assert boards[1][0][2 := X] == boards[2][0];
        ClickTo(boards[1], 2, 0, X, boards[2]);
      }
    }
    RunThrough(boards, events);
  }

  /** The outcome of the final board of `TopRowWin`. */
  lemma TopRowWinBoard()
    ensures WinStateOf([[X, X, X], [Empty, O, Empty], [Empty, Empty, O]]) == Win(X, RowLine(0))
    ensures Header([[X, X, X], [Empty, O, Empty], [Empty, Empty, O]]) == WinnerHeading(X)
  {
    var b: Grid := [[X, X, X], [Empty, O, Empty], [Empty, Empty, O]];
    SearchOrderLines();
    OutcomeAt(b, 0);
  }

  /**
   * X takes the top row through the view: X at [0,0], O at [1,1], X at [0,1],
   * O at [2,2], X at [0,2]. The header names X the winner.
   */
  lemma TopRowWin()
    ensures Reached([Press(0, 0), Press(1, 1), Press(1, 0)] + [Press(2, 2), Press(2, 0)])
         == [[X, X, X], [Empty, O, Empty], [Empty, Empty, O]]
    ensures WinStateOf(Reached([Press(0, 0), Press(1, 1), Press(1, 0)] + [Press(2, 2), Press(2, 0)])) == Win(X, RowLine(0))
    ensures Header(Reached([Press(0, 0), Press(1, 1), Press(1, 0)] + [Press(2, 2), Press(2, 0)])) == WinnerHeading(X)
  {
    TopRowWinOpening();
    TopRowWinEnd();
    TopRowWinBoard();
    RunAppend(EmptyGrid(), [Press(0, 0), Press(1, 1), Press(1, 0)], [Press(2, 2), Press(2, 0)]);
  }

  /** The first three moves of `MainDiagonalWin`. */
  lemma MainDiagonalWinOpening()
    ensures Run(EmptyGrid(), [Press(0, 0), Press(1, 0), Press(1, 1)])
         == [[X, O, Empty], [Empty, X, Empty], [Empty, Empty, Empty]]
  {
    var events := [Press(0, 0), Press(1, 0), Press(1, 1)];
    var boards: seq<Grid> := [
      [[Empty, Empty, Empty], [Empty, Empty, Empty], [Empty, Empty, Empty]],
      [[X, Empty, Empty], [Empty, Empty, Empty], [Empty, Empty, Empty]],
      [[X, O, Empty], [Empty, Empty, Empty], [Empty, Empty, Empty]],
      [[X, O, Empty], [Empty, X, Empty], [Empty, Empty, Empty]]
    ];
    forall i | 0 <= i < |events|
      ensures Step(boards[i], events[i]) == boards[i + 1]
    {
      if i == 0 {
        assert boards[0][0][0 := X] == boards[1][0];
        ClickTo(boards[0], 0, 0, X, boards[1]);
      } else if i == 1 {
        assert boards[1][0][1 := O] == boards[2][0];
        ClickTo(boards[1], 1, 0, O, boards[2]);
      } else {
        assert boards[2][1][1 := X] == boards[3][1];
        ClickTo(boards[2], 1, 1, X, boards[3]);
      }
    }
    RunThrough(boards, events);
  }

  /** The last two moves of `MainDiagonalWin`. */
  lemma MainDiagonalWinEnd()
    ensures Run([[X, O, Empty], [Empty, X, Empty], [Empty, Empty, Empty]], [Press(0, 1), Press(2, 2)])
         == [[X, O, Empty], [O, X, Empty], [Empty, Empty, X]]
  {
    var events := [Press(0, 1), Press(2, 2)];
    var boards: seq<Grid> := [
      [[X, O, Empty], [Empty, X, Empty], [Empty, Empty, Empty]],
      [[X, O, Empty], [O, X, Empty], [Empty, Empty, Empty]],
      [[X, O, Empty], [O, X, Empty], [Empty, Empty, X]]
    ];
    forall i | 0 <= i < |events|
      ensures Step(boards[i], events[i]) == boards[i + 1]
    {
      if i == 0 {
        assert boards[0][1][0 := O] == boards[1][1];
        ClickTo(boards[0], 0, 1, O, boards[1]);
      } else {
        assert boards[1][2][2 := X] == boards[2][2];
        ClickTo(boards[1], 2, 2, X, boards[2]);
      }
    }
    RunThrough(boards, events);
  }

  /** The outcome of the final board of `MainDiagonalWin`. */
  lemma MainDiagonalWinBoard()
    ensures WinStateOf([[X, O, Empty], [O, X, Empty], [Empty, Empty, X]]) == Win(X, ForwardSlashLine())
    ensures Header([[X, O, Empty], [O, X, Empty], [Empty, Empty, X]]) == WinnerHeading(X)
  {
    var b: Grid := [[X, O, Empty], [O, X, Empty], [Empty, Empty, X]];
    SearchOrderLines();
    OutcomeAt(b, 6);
  }

  /**
   * X takes the main diagonal through the view: X at [0,0], O at [0,1], X at [1,1],
   * O at [1,0], X at [2,2]. No row or column is complete, so the search reaches
   * the diagonal and the header names X the winner.
   */
  lemma MainDiagonalWin()
    ensures Reached([Press(0, 0), Press(1, 0), Press(1, 1)] + [Press(0, 1), Press(2, 2)])
         == [[X, O, Empty], [O, X, Empty], [Empty, Empty, X]]
    ensures WinStateOf(Reached([Press(0, 0), Press(1, 0), Press(1, 1)] + [Press(0, 1), Press(2, 2)])) == Win(X, ForwardSlashLine())
    ensures Header(Reached([Press(0, 0), Press(1, 0), Press(1, 1)] + [Press(0, 1), Press(2, 2)])) == WinnerHeading(X)
  {
    MainDiagonalWinOpening();
    MainDiagonalWinEnd();
    MainDiagonalWinBoard();
    RunAppend(EmptyGrid(), [Press(0, 0), Press(1, 0), Press(1, 1)], [Press(0, 1), Press(2, 2)]);
  }
  /** X at [0,0], O at [0,1], X at [0,2]: the opening of `FullBoardDraw` and `TwoLinesAtOnce`. */
  lemma TopEdgeOpening()
    ensures Run(EmptyGrid(), [Press(0, 0), Press(1, 0), Press(2, 0)])
         == [[X, O, X], [Empty, Empty, Empty], [Empty, Empty, Empty]]
  {
    var events := [Press(0, 0), Press(1, 0), Press(2, 0)];
    var boards: seq<Grid> := [
      [[Empty, Empty, Empty], [Empty, Empty, Empty], [Empty, Empty, Empty]],
      [[X, Empty, Empty], [Empty, Empty, Empty], [Empty, Empty, Empty]],
      [[X, O, Empty], [Empty, Empty, Empty], [Empty, Empty, Empty]],
      [[X, O, X], [Empty, Empty, Empty], [Empty, Empty, Empty]]
    ];
    forall i | 0 <= i < |events|
      ensures Step(boards[i], events[i]) == boards[i + 1]
    {
      if i == 0 {
        assert boards[0][0][0 := X] == boards[1][0];
        ClickTo(boards[0], 0, 0, X, boards[1]);
      } else if i == 1 {
        assert boards[1][0][1 := O] == boards[2][0];
        ClickTo(boards[1], 1, 0, O, boards[2]);
      } else {
        assert boards[2][0][2 := X] == boards[3][0];
        ClickTo(boards[2], 2, 0, X, boards[3]);
      }
    }
    RunThrough(boards, events);
  }

  /** Moves four to six of `FullBoardDraw`. */
  lemma FullBoardDrawMiddle()
    ensures Run([[X, O, X], [Empty, Empty, Empty], [Empty, Empty, Empty]], [Press(1, 1), Press(0, 1), Press(2, 1)])
         == [[X, O, X], [X, O, O], [Empty, Empty, Empty]]
  {
    var events := [Press(1, 1), Press(0, 1), Press(2, 1)];
    var boards: seq<Grid> := [
      [[X, O, X], [Empty, Empty, Empty], [Empty, Empty, Empty]],
      [[X, O, X], [Empty, O, Empty], [Empty, Empty, Empty]],
      [[X, O, X], [X, O, Empty], [Empty, Empty, Empty]],
      [[X, O, X], [X, O, O], [Empty, Empty, Empty]]
    ];
    forall i | 0 <= i < |events|
      ensures Step(boards[i], events[i]) == boards[i + 1]
    {
      if i == 0 {
        assert boards[0][1][1 := O] == boards[1][1];
        ClickTo(boards[0], 1, 1, O, boards[1]);
      } else if i == 1 {
        assert boards[1][1][0 := X] == boards[2][1];
        ClickTo(boards[1], 0, 1, X, boards[2]);
      } else {
        assert boards[2][1][2 := O] == boards[3][1];
        ClickTo(boards[2], 2, 1, O, boards[3]);
      }
    }
    RunThrough(boards, events);
  }

  /** The last three moves of `FullBoardDraw`. */
  lemma FullBoardDrawEnd()
    ensures Run([[X, O, X], [X, O, O], [Empty, Empty, Empty]], [Press(1, 2), Press(0, 2), Press(2, 2)])
         == [[X, O, X], [X, O, O], [O, X, X]]
  {
    var events := [Press(1, 2), Press(0, 2), Press(2, 2)];
    var boards: seq<Grid> := [
      [[X, O, X], [X, O, O], [Empty, Empty, Empty]],
      [[X, O, X], [X, O, O], [Empty, X, Empty]],
      [[X, O, X], [X, O, O], [O, X, Empty]],
      [[X, O, X], [X, O, O], [O, X, X]]
    ];
    forall i | 0 <= i < |events|
      ensures Step(boards[i], events[i]) == boards[i + 1]
    {
      if i == 0 {
        assert boards[0][2][1 := X] == boards[1][2];
        ClickTo(boards[0], 1, 2, X, boards[1]);
      } else if i == 1 {
        assert boards[1][2][0 := O] == boards[2][2];
        ClickTo(boards[1], 0, 2, O, boards[2]);
      } else {
        assert boards[2][2][2 := X] == boards[3][2];
        ClickTo(boards[2], 2, 2, X, boards[3]);
      }
    }
    RunThrough(boards, events);
  }

  /** The outcome of the final board of `FullBoardDraw`. */
  lemma FullBoardDrawBoard()
    ensures WinStateOf([[X, O, X], [X, O, O], [O, X, X]]) == Draw && Header([[X, O, X], [X, O, O], [O, X, X]]) == DrawHeading
    ensures Occupied([[X, O, X], [X, O, O], [O, X, X]]) == 9
  {
    var b: Grid := [[X, O, X], [X, O, O], [O, X, X]];
    DrawByCells(b);
  }

  /**
   * Nine moves through the view fill the board X O X / X O O / O X X without
   * a line: the game is a draw, the header says so, and `playCount()` is 9.
   */
  lemma FullBoardDraw()
    ensures Reached([Press(0, 0), Press(1, 0), Press(2, 0)] + [Press(1, 1), Press(0, 1), Press(2, 1)] + [Press(1, 2), Press(0, 2), Press(2, 2)])
         == [[X, O, X], [X, O, O], [O, X, X]]
    ensures WinStateOf(Reached([Press(0, 0), Press(1, 0), Press(2, 0)] + [Press(1, 1), Press(0, 1), Press(2, 1)] + [Press(1, 2), Press(0, 2), Press(2, 2)])) == Draw && Header(Reached([Press(0, 0), Press(1, 0), Press(2, 0)] + [Press(1, 1), Press(0, 1), Press(2, 1)] + [Press(1, 2), Press(0, 2), Press(2, 2)])) == DrawHeading
    ensures Occupied(Reached([Press(0, 0), Press(1, 0), Press(2, 0)] + [Press(1, 1), Press(0, 1), Press(2, 1)] + [Press(1, 2), Press(0, 2), Press(2, 2)])) == 9
  {
    TopEdgeOpening();
    FullBoardDrawMiddle();
    FullBoardDrawEnd();
    FullBoardDrawBoard();
    RunAppend(EmptyGrid(), [Press(0, 0), Press(1, 0), Press(2, 0)] + [Press(1, 1), Press(0, 1), Press(2, 1)], [Press(1, 2), Press(0, 2), Press(2, 2)]);
    RunAppend(EmptyGrid(), [Press(0, 0), Press(1, 0), Press(2, 0)], [Press(1, 1), Press(0, 1), Press(2, 1)]);
  }

  /** Moves four to six of `TwoLinesAtOnce`. */
  lemma TwoLinesAtOnceMiddle()
    ensures Run([[X, O, X], [Empty, Empty, Empty], [Empty, Empty, Empty]], [Press(0, 1), Press(0, 2), Press(2, 1)])
         == [[X, O, X], [O, Empty, O], [X, Empty, Empty]]
  {
    var events := [Press(0, 1), Press(0, 2), Press(2, 1)];
    var boards: seq<Grid> := [
      [[X, O, X], [Empty, Empty, Empty], [Empty, Empty, Empty]],
      [[X, O, X], [O, Empty, Empty], [Empty, Empty, Empty]],
      [[X, O, X], [O, Empty, Empty], [X, Empty, Empty]],
      [[X, O, X], [O, Empty, O], [X, Empty, Empty]]
    ];
    forall i | 0 <= i < |events|
      ensures Step(boards[i], events[i]) == boards[i + 1]
    {
      if i == 0 {
        assert boards[0][1][0 := O] == boards[1][1];
        ClickTo(boards[0], 0, 1, O, boards[1]);
      } else if i == 1 {
        assert boards[1][2][0 := X] == boards[2][2];
        ClickTo(boards[1], 0, 2, X, boards[2]);
      } else {
        assert boards[2][1][2 := O] == boards[3][1];
        ClickTo(boards[2], 2, 1, O, boards[3]);
      }
    }
    RunThrough(boards, events);
  }

  /** The last three moves of `TwoLinesAtOnce`. */
  lemma TwoLinesAtOnceEnd()
    ensures Run([[X, O, X], [O, Empty, O], [X, Empty, Empty]], [Press(2, 2), Press(1, 2), Press(1, 1)])
         == [[X, O, X], [O, X, O], [X, O, X]]
  {
    var events := [Press(2, 2), Press(1, 2), Press(1, 1)];
    var boards: seq<Grid> := [
      [[X, O, X], [O, Empty, O], [X, Empty, Empty]],
      [[X, O, X], [O, Empty, O], [X, Empty, X]],
      [[X, O, X], [O, Empty, O], [X, O, X]],
      [[X, O, X], [O, X, O], [X, O, X]]
    ];
    forall i | 0 <= i < |events|
      ensures Step(boards[i], events[i]) == boards[i + 1]
    {
      if i == 0 {
        assert boards[0][2][2 := X] == boards[1][2];
        ClickTo(boards[0], 2, 2, X, boards[1]);
      } else if i == 1 {
        assert boards[1][2][1 := O] == boards[2][2];
        ClickTo(boards[1], 1, 2, O, boards[2]);
      } else {
        assert boards[2][1][1 := X] == boards[3][1];
        ClickTo(boards[2], 1, 1, X, boards[3]);
      }
    }
    RunThrough(boards, events);
  }

  /** The outcome of the final board of `TwoLinesAtOnce`. */
  lemma TwoLinesAtOnceBoard()
    ensures Complete([[X, O, X], [O, X, O], [X, O, X]], ForwardSlashLine()) && Complete([[X, O, X], [O, X, O], [X, O, X]], BackSlashLine())
    ensures WinStateOf([[X, O, X], [O, X, O], [X, O, X]]) == Win(X, ForwardSlashLine())
  {
    var b: Grid := [[X, O, X], [O, X, O], [X, O, X]];
    SearchOrderLines();
    CompleteThree(b, ForwardSlashLine());
    CompleteThree(b, BackSlashLine());
    OutcomeAt(b, 6);
  }

  /**
   * The ninth move (X's fifth) at [1,1], made through the view, completes
   * both diagonals at once. `winState` reports the main diagonal, which it searches first.
   */
  lemma TwoLinesAtOnce()
    ensures Reached([Press(0, 0), Press(1, 0), Press(2, 0)] + [Press(0, 1), Press(0, 2), Press(2, 1)] + [Press(2, 2), Press(1, 2), Press(1, 1)])
         == [[X, O, X], [O, X, O], [X, O, X]]
    ensures Complete(Reached([Press(0, 0), Press(1, 0), Press(2, 0)] + [Press(0, 1), Press(0, 2), Press(2, 1)] + [Press(2, 2), Press(1, 2), Press(1, 1)]), ForwardSlashLine()) && Complete(Reached([Press(0, 0), Press(1, 0), Press(2, 0)] + [Press(0, 1), Press(0, 2), Press(2, 1)] + [Press(2, 2), Press(1, 2), Press(1, 1)]), BackSlashLine())
    ensures WinStateOf(Reached([Press(0, 0), Press(1, 0), Press(2, 0)] + [Press(0, 1), Press(0, 2), Press(2, 1)] + [Press(2, 2), Press(1, 2), Press(1, 1)])) == Win(X, ForwardSlashLine())
  {
    TopEdgeOpening();
    TwoLinesAtOnceMiddle();
    TwoLinesAtOnceEnd();
    TwoLinesAtOnceBoard();
    RunAppend(EmptyGrid(), [Press(0, 0), Press(1, 0), Press(2, 0)] + [Press(0, 1), Press(0, 2), Press(2, 1)], [Press(2, 2), Press(1, 2), Press(1, 1)]);
    RunAppend(EmptyGrid(), [Press(0, 0), Press(1, 0), Press(2, 0)], [Press(0, 1), Press(0, 2), Press(2, 1)]);
  }

  /** The first four calls of `play` in `PlayAfterWinMisreports`. */
  lemma PlayAfterWinOpening()
    ensures Plays(EmptyGrid(), [Coord(1, 0), Coord(0, 0), Coord(1, 1), Coord(0, 1)])
         == [[O, O, Empty], [X, X, Empty], [Empty, Empty, Empty]]
  {
    var locs := [Coord(1, 0), Coord(0, 0), Coord(1, 1), Coord(0, 1)];
    var boards: seq<Grid> := [
      [[Empty, Empty, Empty], [Empty, Empty, Empty], [Empty, Empty, Empty]],
      [[Empty, Empty, Empty], [X, Empty, Empty], [Empty, Empty, Empty]],
      [[O, Empty, Empty], [X, Empty, Empty], [Empty, Empty, Empty]],
      [[O, Empty, Empty], [X, X, Empty], [Empty, Empty, Empty]],
      [[O, O, Empty], [X, X, Empty], [Empty, Empty, Empty]]
    ];
    forall i | 0 <= i < |locs|
      ensures Place(boards[i], locs[i], TurnOf(boards[i])) == boards[i + 1]
    {
      if i == 0 {
        assert boards[0][1][0 := X] == boards[1][1];
        PlayTo(boards[0], Coord(1, 0), X, boards[1]);
      } else if i == 1 {
        assert boards[1][0][0 := O] == boards[2][0];
        PlayTo(boards[1], Coord(0, 0), O, boards[2]);
      } else if i == 2 {
        assert boards[2][1][1 := X] == boards[3][1];
        PlayTo(boards[2], Coord(1, 1), X, boards[3]);
      } else {
        assert boards[3][0][1 := O] == boards[4][0];
        PlayTo(boards[3], Coord(0, 1), O, boards[4]);
      }
    }
    PlaysThrough(boards, locs);
  }

  /** The last three calls of `play` in `PlayAfterWinMisreports`. */
  lemma PlayAfterWinEnd()
    ensures Plays([[O, O, Empty], [X, X, Empty], [Empty, Empty, Empty]], [Coord(2, 0), Coord(0, 2), Coord(2, 1)])
         == [[O, O, O], [X, X, Empty], [X, X, Empty]]
  {
    var locs := [Coord(2, 0), Coord(0, 2), Coord(2, 1)];
    var boards: seq<Grid> := [
      [[O, O, Empty], [X, X, Empty], [Empty, Empty, Empty]],
      [[O, O, Empty], [X, X, Empty], [X, Empty, Empty]],
      [[O, O, O], [X, X, Empty], [X, Empty, Empty]],
      [[O, O, O], [X, X, Empty], [X, X, Empty]]
    ];
    forall i | 0 <= i < |locs|
      ensures Place(boards[i], locs[i], TurnOf(boards[i])) == boards[i + 1]
    {
      if i == 0 {
        assert boards[0][2][0 := X] == boards[1][2];
        PlayTo(boards[0], Coord(2, 0), X, boards[1]);
      } else if i == 1 {
        assert boards[1][0][2 := O] == boards[2][0];
        PlayTo(boards[1], Coord(0, 2), O, boards[2]);
      } else {
        assert boards[2][2][1 := X] == boards[3][2];
        PlayTo(boards[2], Coord(2, 1), X, boards[3]);
      }
    }
    PlaysThrough(boards, locs);
  }

  /** The outcome of the final board of `PlayAfterWinMisreports`. */
  lemma PlayAfterWinBoard()
    ensures Filled([[O, O, O], [X, X, Empty], [X, X, Empty]], RowLine(0), O)
    ensures WinStateOf([[O, O, O], [X, X, Empty], [X, X, Empty]]) == Win(X, RowLine(0))
  {
    var b: Grid := [[O, O, O], [X, X, Empty], [X, X, Empty]];
    SearchOrderLines();
    OutcomeAt(b, 0);
  }

  /**
   * O completes the top row with the sixth call of `play`; a seventh call, which
   * the view would not deliver, adds an X. `winState` still finds the top row
   * first but now reports X, the opposite of `turn()`, although the row holds O
   * marks.
   */
  lemma PlayAfterWinMisreports()
    ensures Plays(EmptyGrid(), [Coord(1, 0), Coord(0, 0), Coord(1, 1), Coord(0, 1)] + [Coord(2, 0), Coord(0, 2), Coord(2, 1)])
         == [[O, O, O], [X, X, Empty], [X, X, Empty]]
    ensures Filled(Plays(EmptyGrid(), [Coord(1, 0), Coord(0, 0), Coord(1, 1), Coord(0, 1)] + [Coord(2, 0), Coord(0, 2), Coord(2, 1)]), RowLine(0), O)
    ensures WinStateOf(Plays(EmptyGrid(), [Coord(1, 0), Coord(0, 0), Coord(1, 1), Coord(0, 1)] + [Coord(2, 0), Coord(0, 2), Coord(2, 1)])) == Win(X, RowLine(0))
  {
    PlayAfterWinOpening();
    PlayAfterWinEnd();
    PlayAfterWinBoard();
    PlaysAppend(EmptyGrid(), [Coord(1, 0), Coord(0, 0), Coord(1, 1), Coord(0, 1)], [Coord(2, 0), Coord(0, 2), Coord(2, 1)]);
  }

  /**
   * Two calls of `play` on the same cell: the second replaces X by O.
   */
  lemma PlayOverwrites()
    ensures Plays(EmptyGrid(), [Coord(0, 0), Coord(0, 0)])
         == [[O, Empty, Empty], [Empty, Empty, Empty], [Empty, Empty, Empty]]
  {
    var locs := [Coord(0, 0), Coord(0, 0)];
    var boards: seq<Grid> := [
      [[Empty, Empty, Empty], [Empty, Empty, Empty], [Empty, Empty, Empty]],
      [[X, Empty, Empty], [Empty, Empty, Empty], [Empty, Empty, Empty]],
      [[O, Empty, Empty], [Empty, Empty, Empty], [Empty, Empty, Empty]]
    ];
    forall i | 0 <= i < |locs|
      ensures Place(boards[i], locs[i], TurnOf(boards[i])) == boards[i + 1]
    {
      if i == 0 {
        assert boards[0][0][0 := X] == boards[1][0];
        PlayTo(boards[0], Coord(0, 0), X, boards[1]);
      } else {
        assert boards[1][0][0 := O] == boards[2][0];
        PlayTo(boards[1], Coord(0, 0), O, boards[2]);
      }
    }
    PlaysThrough(boards, locs);
  }

  /** Two clicks on the same cell: the second is not delivered, so X stays. */
  lemma ClickDoesNotOverwrite()
    ensures Reached([Press(0, 0), Press(0, 0)])
         == [[X, Empty, Empty], [Empty, Empty, Empty], [Empty, Empty, Empty]]
  {
    var events := [Press(0, 0), Press(0, 0)];
    var g1: Grid := [[X, Empty, Empty], [Empty, Empty, Empty], [Empty, Empty, Empty]];
    var boards: seq<Grid> := [EmptyGrid(), g1, g1];
    forall i | 0 <= i < |events|
      ensures Step(boards[i], events[i]) == boards[i + 1]
    {
      if i == 0 {
        assert EmptyGrid()[0][0 := X] == g1[0];
        ClickTo(EmptyGrid(), 0, 0, X, g1);
      }
    }
    RunThrough(boards, events);
  }
}

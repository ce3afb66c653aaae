/**
 * The rules of the 3x3 tic-tac-toe board, on board values.
 *
 * These are the pure parts of `GameState`: the board value, the counts that
 * `turn` and `playCount` take, `hasWinLine`, `hasMarkedAll`, `winMark`, the
 * order in which the eight lines are searched, and the outcome that
 * `winState` reports. The class in module Game is proved against them.
 */
module Rules {

  datatype Option<T> = None | Some(value: T)

  /** A cell of the board: `null`, `"X"` or `"O"`. */
  datatype Cell = Empty | X | O

  /** A player's mark, `"X" | "O"`. */
  type Mark = c: Cell | c != Empty witness X

  /** A row or column index of the 3x3 board. */
  type Idx = i: int | 0 <= i < 3

  /** A position `{y, x}`, written `[y, x]` (row, column) in a win line. */
  datatype Coord = Coord(y: Idx, x: Idx)

  type Line = seq<Coord>

  /**
   * The result of `winState()`: `null` (InProgress), `{mark, line}` (Win)
   * or `{mark: "DRAW", line: null}` (Draw).
   */
  datatype WinState = InProgress | Win(mark: Mark, line: Line) | Draw

  predicate IsGrid(g: seq<seq<Cell>>)
  {
    |g| == 3 && |g[0]| == 3 && |g[1]| == 3 && |g[2]| == 3
  }

  /** A board value: three rows of three cells. */
  type Grid = g: seq<seq<Cell>> | IsGrid(g)
    witness [[Empty, Empty, Empty], [Empty, Empty, Empty], [Empty, Empty, Empty]]

  /** `initBoard`: every cell null. */
  function EmptyGrid(): Grid
  {
    [[Empty, Empty, Empty], [Empty, Empty, Empty], [Empty, Empty, Empty]]
  }

  function At(g: Grid, c: Coord): Cell
  {
    assert |g[c.y]| == 3 by { assert c.y == 0 || c.y == 1 || c.y == 2; }
    g[c.y][c.x]
  }

  lemma AtEmptyGrid(p: Coord)
    ensures At(EmptyGrid(), p) == Empty
  {
    assert p.y == 0 || p.y == 1 || p.y == 2;
  }

  /** Two boards are equal when they agree on every position. */
  lemma GridExt(a: Grid, b: Grid)
    requires forall p: Coord :: At(a, p) == At(b, p)
    ensures a == b
  {
    forall i | 0 <= i < 3
      ensures a[i] == b[i]
    {
      forall j | 0 <= j < 3
        ensures a[i][j] == b[i][j]
      {
        assert At(a, Coord(i, j)) == At(b, Coord(i, j));
      }
    }
  }

  /**
   * The board with `v` written at `c`: the write `nextBoard[loc.y][loc.x] = v`
   * on a copy. Cell `c` holds `v` and every other cell is as before.
   */
  function Place(g: Grid, c: Coord, v: Cell): (r: Grid)
    ensures At(r, c) == v
    ensures forall p: Coord :: p != c ==> At(r, p) == At(g, p)
  {
    assert |g[c.y]| == 3 by { assert c.y == 0 || c.y == 1 || c.y == 2; }
    g[c.y := g[c.y][c.x := v]]
  }

  // ---------------------------------------------------------------- counts

  /** How many entries of `s` equal `c`. */
  function Tally(s: seq<Cell>, c: Cell): nat
  {
    if s == [] then 0 else Tally(s[..|s| - 1], c) + (if s[|s| - 1] == c then 1 else 0)
  }

  /** How many entries of the rows in `rows` equal `c`. */
  function TallyRows(rows: seq<seq<Cell>>, c: Cell): nat
  {
    if rows == [] then 0 else TallyRows(rows[..|rows| - 1], c) + Tally(rows[|rows| - 1], c)
  }

  /** How many cells of the board hold `c`. */
  function Count(g: Grid, c: Cell): nat
  {
    TallyRows(g, c)
  }

  /** `playCount()`: the number of occupied cells. */
  function Occupied(g: Grid): nat
  {
    Count(g, X) + Count(g, O)
  }

  /**
   * `turn()`: `"O"` when there are more X than O marks, otherwise `"X"`. On a
   * board where X has as many marks as O or one more, it is X's turn exactly
   * after an even number of moves.
   */
  function TurnOf(g: Grid): (r: Mark)
    ensures Balanced(g) ==> (r == X <==> Occupied(g) % 2 == 0)
  {
    if Count(g, X) > Count(g, O) then O else X
  }

  function Opponent(m: Mark): (r: Mark)
    ensures r != m
  {
    if m == X then O else X
  }

  /** `winMark()`: the opposite of the mark whose turn it is. */
  function WinMarkOf(g: Grid): (m: Mark)
    ensures m != TurnOf(g)
  {
    if TurnOf(g) == O then X else O
  }

  lemma {:induction false} TallySplit(s: seq<Cell>)
    ensures Tally(s, X) + Tally(s, O) + Tally(s, Empty) == |s|
  {
    if s != [] {
      TallySplit(s[..|s| - 1]);
    }
  }

  lemma {:induction false} TallyNoneOf(s: seq<Cell>, c: Cell)
    ensures Tally(s, c) == 0 <==> forall k | 0 <= k < |s| :: s[k] != c
  {
    if s != [] {
      var n := |s| - 1;
      TallyNoneOf(s[..n], c);
      assert forall k | 0 <= k < n :: s[..n][k] == s[k];
    }
  }

  lemma {:induction false} TallyUpdate(s: seq<Cell>, k: int, v: Cell, c: Cell)
    requires 0 <= k < |s|
    ensures Tally(s[k := v], c)
         == Tally(s, c) - (if s[k] == c then 1 else 0) + (if v == c then 1 else 0)
  {
    var n := |s| - 1;
    if k == n {
      assert s[k := v][..n] == s[..n];
    } else {
      assert s[k := v][..n] == s[..n][k := v];
      TallyUpdate(s[..n], k, v, c);
    }
  }

  /** The count of a board is the sum of the counts of its three rows. */
  lemma CountByRows(g: Grid, c: Cell)
    ensures Count(g, c) == Tally(g[0], c) + Tally(g[1], c) + Tally(g[2], c)
  {
    var g1, g2 := g[..1], g[..2];
    assert g1[..0] == [] && g1[0] == g[0];
    assert TallyRows(g1, c) == Tally(g[0], c);
    assert g2[..1] == g1 && g2[1] == g[1];
    assert TallyRows(g2, c) == Tally(g[0], c) + Tally(g[1], c);
    assert g[..2] == g2;
  }

  /** Writing `v` at `p` takes one `c` away if `p` held `c` and adds one if `v` is `c`. */
  lemma CountPlace(g: Grid, p: Coord, v: Cell, c: Cell)
    ensures Count(Place(g, p, v), c)
         == Count(g, c) - (if At(g, p) == c then 1 else 0) + (if v == c then 1 else 0)
  {
    var r := Place(g, p, v);
    CountByRows(g, c);
    CountByRows(r, c);
    TallyUpdate(g[p.y], p.x, v, c);
  }

  /** `playCount()` lies in 0..9. */
  lemma OccupiedBound(g: Grid)
    ensures Occupied(g) <= 9
  {
    CountByRows(g, X);
    CountByRows(g, O);
    CountByRows(g, Empty);
    TallySplit(g[0]);
    TallySplit(g[1]);
    TallySplit(g[2]);
  }

  /** A board has no marks exactly when it is the initial board. */
  lemma OccupiedZeroIffEmpty(g: Grid)
    ensures Occupied(g) == 0 <==> g == EmptyGrid()
  {
    CountByRows(g, X);
    CountByRows(g, O);
    if g == EmptyGrid() {
      TallyNoneOf(g[0], X);
      TallyNoneOf(g[1], X);
      TallyNoneOf(g[2], X);
      TallyNoneOf(g[0], O);
      TallyNoneOf(g[1], O);
      TallyNoneOf(g[2], O);
    }
    if Occupied(g) == 0 {
      forall p: Coord
        ensures At(g, p) == At(EmptyGrid(), p)
      {
        AtEmptyGrid(p);
        TallyNoneOf(g[p.y], X);
        TallyNoneOf(g[p.y], O);
        assert g[p.y][p.x] != X && g[p.y][p.x] != O;
      }
      GridExt(g, EmptyGrid());
    }
  }

  /** The initial board has no marks, and it is X's turn. */
  lemma EmptyGridCounts()
    ensures Count(EmptyGrid(), X) == 0 && Count(EmptyGrid(), O) == 0
    ensures Occupied(EmptyGrid()) == 0 && TurnOf(EmptyGrid()) == X
  {
    OccupiedZeroIffEmpty(EmptyGrid());
  }

  // ---------------------------------------------------------------- lines

  function RowLine(i: Idx): Line
  {
    [Coord(i, 0), Coord(i, 1), Coord(i, 2)]
  }

  function ColumnLine(j: Idx): Line
  {
    [Coord(0, j), Coord(1, j), Coord(2, j)]
  }

  /** The main diagonal, [0,0] [1,1] [2,2]. */
  function ForwardSlashLine(): Line
  {
    [Coord(0, 0), Coord(1, 1), Coord(2, 2)]
  }

  /** The anti-diagonal, [0,2] [1,1] [2,0]. */
  function BackSlashLine(): Line
  {
    [Coord(0, 2), Coord(1, 1), Coord(2, 0)]
  }

  function Rows(): seq<Line>
  {
    [RowLine(0), RowLine(1), RowLine(2)]
  }

  function Columns(): seq<Line>
  {
    [ColumnLine(0), ColumnLine(1), ColumnLine(2)]
  }

  /** The order in which `winState` looks for a full line. */
  function SearchOrder(): seq<Line>
  {
    Rows() + Columns() + [ForwardSlashLine(), BackSlashLine()]
  }

  /** The cells of the board along a line. */
  function CellsOf(g: Grid, l: Line): seq<Cell>
  {
    seq(|l|, k requires 0 <= k < |l| => At(g, l[k]))
  }

  /**
   * `hasWinLine(line)`: every entry is "X", or every entry is "O"; that is,
   * every entry is a mark and equal to the first.
   */
  function HasWinLine(line: seq<Cell>): (r: bool)
    ensures r <==> forall k | 0 <= k < |line| :: line[k] != Empty && line[k] == line[0]
  {
    (forall k | 0 <= k < |line| :: line[k] == X) || (forall k | 0 <= k < |line| :: line[k] == O)
  }

  /** Every position of `l` holds `m`. */
  predicate Filled(g: Grid, l: Line, m: Cell)
  {
    forall k | 0 <= k < |l| :: At(g, l[k]) == m
  }

  /** The line is full of one player's mark. */
  predicate Complete(g: Grid, l: Line)
  {
    HasWinLine(CellsOf(g, l))
  }

  lemma CompleteIffFilled(g: Grid, l: Line)
    ensures Complete(g, l) <==> Filled(g, l, X) || Filled(g, l, O)
  {
    var s := CellsOf(g, l);
    assert |s| == |l|;
    assert forall k | 0 <= k < |l| :: s[k] == At(g, l[k]);
  }

  /** The index of the first complete line of `ls`, or `|ls|` when there is none. */
  function FirstComplete(g: Grid, ls: seq<Line>): (k: nat)
    ensures k <= |ls|
    ensures k < |ls| ==> Complete(g, ls[k])
    ensures forall j | 0 <= j < k :: !Complete(g, ls[j])
  {
    if ls == [] then 0
    else if Complete(g, ls[0]) then 0
    else 1 + FirstComplete(g, ls[1..])
  }

  /**
   * What a `findWin...` search over `ls` returns: the first complete line with
   * `winMark()`, or nothing (`undefined`).
   */
  function FirstWin(g: Grid, ls: seq<Line>): (r: Option<WinState>)
    ensures r.Some? <==> exists k | 0 <= k < |ls| :: Complete(g, ls[k])
    ensures r.Some? ==>
              r.value.Win? && r.value.mark == WinMarkOf(g) &&
              exists k | 0 <= k < |ls| ::
                r.value.line == ls[k] && Complete(g, ls[k]) &&
                forall j | 0 <= j < k :: !Complete(g, ls[j])
  {
    var k := FirstComplete(g, ls);
    if k < |ls| then Some(Win(WinMarkOf(g), ls[k])) else None
  }

  /** Searching `a + b` is searching `a`, then `b` when `a` has no complete line. */
  lemma {:induction false} FirstCompleteAppend(g: Grid, a: seq<Line>, b: seq<Line>)
    ensures FirstComplete(g, a + b)
         == if FirstComplete(g, a) < |a| then FirstComplete(g, a) else |a| + FirstComplete(g, b)
  {
    if a == [] {
      assert a + b == b;
    } else {
      assert (a + b)[0] == a[0];
      if !Complete(g, a[0]) {
        assert (a + b)[1..] == a[1..] + b;
        FirstCompleteAppend(g, a[1..], b);
      }
    }
  }

  lemma FirstWinSingle(g: Grid, l: Line)
    ensures FirstWin(g, [l]) == if Complete(g, l) then Some(Win(WinMarkOf(g), l)) else None
  {
    assert [l][1..] == [];
  }

  lemma RowsAt(i: Idx)
    ensures Rows()[i] == RowLine(i) && Columns()[i] == ColumnLine(i)
  {
    assert i == 0 || i == 1 || i == 2;
  }

  lemma FirstWinAppend(g: Grid, a: seq<Line>, b: seq<Line>)
    ensures FirstWin(g, a + b) == if FirstWin(g, a).Some? then FirstWin(g, a) else FirstWin(g, b)
  {
    FirstCompleteAppend(g, a, b);
    var k := FirstComplete(g, a);
    if k >= |a| {
      var kb := FirstComplete(g, b);
      if kb < |b| {
        assert (a + b)[|a| + kb] == b[kb];
      }
    }
  }

  // ---------------------------------------------------------------- outcome

  /** A row is in the `filter` of `hasMarkedAll` when every cell is truthy. */
  predicate RowFull(r: seq<Cell>)
  {
    forall k | 0 <= k < |r| :: r[k] != Empty
  }

  /** `board.filter((r) => r.every(Boolean))`. */
  function FullRows(rows: seq<seq<Cell>>): seq<seq<Cell>>
  {
    if rows == [] then []
    else (if RowFull(rows[0]) then [rows[0]] else []) + FullRows(rows[1..])
  }

  /**
   * `hasMarkedAll()`: all three rows pass the filter, which happens exactly
   * when every cell is occupied, that is when `playCount()` is 9.
   */
  function HasMarkedAll(g: Grid): (r: bool)
    ensures r <==> AllMarked(g)
    ensures r <==> Occupied(g) == 9
  {
    FullRowsIffFull(g);
    |FullRows(g)| == 3
  }

  /** Every cell of the board is occupied. */
  ghost predicate AllMarked(g: Grid)
  {
    forall p: Coord :: At(g, p) != Empty
  }

  /** Some line of the search is complete. */
  predicate SomeLineComplete(g: Grid)
  {
    exists k | 0 <= k < |SearchOrder()| :: Complete(g, SearchOrder()[k])
  }

  /** The filter keeps all three rows exactly when all nine cells are occupied. */
  lemma FullRowsIffFull(g: Grid)
    ensures |FullRows(g)| == 3 <==> AllMarked(g)
    ensures |FullRows(g)| == 3 <==> Occupied(g) == 9
  {
    assert FullRows(g[2..]) == (if RowFull(g[2]) then [g[2]] else []) + FullRows([]) by {
      assert g[2..][0] == g[2] && g[2..][1..] == [];
    }
    assert FullRows(g[1..]) == (if RowFull(g[1]) then [g[1]] else []) + FullRows(g[2..]) by {
      assert g[1..][0] == g[1] && g[1..][1..] == g[2..];
    }
    assert |FullRows(g)| == 3 <==> RowFull(g[0]) && RowFull(g[1]) && RowFull(g[2]);
    if RowFull(g[0]) && RowFull(g[1]) && RowFull(g[2]) {
      forall p: Coord
        ensures At(g, p) != Empty
      {
        assert RowFull(g[p.y]);
      }
    }
    if AllMarked(g) {
      forall i | 0 <= i < 3
        ensures RowFull(g[i])
      {
        forall j | 0 <= j < 3
          ensures g[i][j] != Empty
        {
          assert At(g, Coord(i, j)) != Empty;
        }
      }
    }
    CountByRows(g, X);
    CountByRows(g, O);
    CountByRows(g, Empty);
    TallySplit(g[0]);
    TallySplit(g[1]);
    TallySplit(g[2]);
    TallyNoneOf(g[0], Empty);
    TallyNoneOf(g[1], Empty);
    TallyNoneOf(g[2], Empty);
  }

  /**
   * `winState()`, stated over the whole search order at once: the first
   * complete line with `winMark()`; failing that Draw on a board for which
   * `hasMarkedAll()` holds; otherwise InProgress. So it is a Win exactly when
   * some line is complete, naming the first complete line in search order and
   * `winMark()`; Draw exactly when no line is complete and every cell is
   * occupied; InProgress exactly when no line is complete and some cell is
   * empty.
   */
  function WinStateOf(g: Grid): (r: WinState)
    ensures r.Win? <==> SomeLineComplete(g)
    ensures r.Win? ==>
              r.mark == WinMarkOf(g) &&
              exists k | 0 <= k < |SearchOrder()| ::
                r.line == SearchOrder()[k] && Complete(g, SearchOrder()[k]) &&
                forall j | 0 <= j < k :: !Complete(g, SearchOrder()[j])
    ensures r == Draw <==> !SomeLineComplete(g) && AllMarked(g)
    ensures r == InProgress <==> !SomeLineComplete(g) && exists p: Coord :: At(g, p) == Empty
  {
    match FirstWin(g, SearchOrder())
    case Some(w) => w
    case None => if HasMarkedAll(g) then Draw else InProgress
  }

  /** A new or restarted game is in progress, with no marks and X to move. */
  lemma EmptyGridInProgress()
    ensures WinStateOf(EmptyGrid()) == InProgress
    ensures Occupied(EmptyGrid()) == 0 && TurnOf(EmptyGrid()) == X
  {
    EmptyGridCounts();
    forall k | 0 <= k < |SearchOrder()|
      ensures !Complete(EmptyGrid(), SearchOrder()[k])
    {
      CompleteIffFilled(EmptyGrid(), SearchOrder()[k]);
      AtEmptyGrid(SearchOrder()[k][0]);
    }
    AtEmptyGrid(Coord(0, 0));
  }

  // ---------------------------------------------------------------- play

  /** X has as many marks as O, or one more. */
  predicate Balanced(g: Grid)
  {
    Count(g, X) == Count(g, O) || Count(g, X) == Count(g, O) + 1
  }

  /**
   * `play` on an empty cell from a balanced board: the board stays balanced,
   * one more cell is occupied and the turn passes to the other player.
   */
  lemma PlayOnEmptyKeepsBalance(g: Grid, c: Coord)
    requires Balanced(g) && At(g, c) == Empty
    ensures Balanced(Place(g, c, TurnOf(g)))
    ensures Occupied(Place(g, c, TurnOf(g))) == Occupied(g) + 1
    ensures TurnOf(Place(g, c, TurnOf(g))) == Opponent(TurnOf(g))
  {
    CountPlace(g, c, TurnOf(g), X);
    CountPlace(g, c, TurnOf(g), O);
  }

  /**
   * The invariant of boards reached by alternating play that stops at the
   * end of the game: balanced, and no line is full of the mark whose turn it is.
   */
  predicate Alternating(g: Grid)
  {
    Balanced(g) &&
    forall k | 0 <= k < |SearchOrder()| :: !Filled(g, SearchOrder()[k], TurnOf(g))
  }

  lemma EmptyGridAlternating()
    ensures Alternating(EmptyGrid())
  {
    EmptyGridCounts();
    forall k | 0 <= k < |SearchOrder()|
      ensures !Filled(EmptyGrid(), SearchOrder()[k], X)
    {
      assert At(EmptyGrid(), SearchOrder()[k][0]) == Empty;
    }
  }

  /** A `play` on an empty cell of an unfinished game keeps the invariant. */
  lemma PlayKeepsAlternating(g: Grid, c: Coord)
    requires Alternating(g) && At(g, c) == Empty && !SomeLineComplete(g)
    ensures Alternating(Place(g, c, TurnOf(g)))
  {
    var t := TurnOf(g);
    var r := Place(g, c, t);
    PlayOnEmptyKeepsBalance(g, c);
    forall k | 0 <= k < |SearchOrder()|
      ensures !Filled(r, SearchOrder()[k], TurnOf(r))
    {
      var l := SearchOrder()[k];
      if Filled(r, l, Opponent(t)) {
        forall i | 0 <= i < |l|
          ensures At(g, l[i]) == Opponent(t)
        {
          assert At(r, l[i]) == Opponent(t);
        }
        CompleteIffFilled(g, l);
        assert false;
      }
    }
  }

  /**
   * On a board reached by alternating play, the winner `winState` reports
   * (computed as `winMark()`, not read from the board) owns the reported line.
   */
  lemma WinMarkOwnsLine(g: Grid)
    requires Alternating(g) && WinStateOf(g).Win?
    ensures Filled(g, WinStateOf(g).line, WinStateOf(g).mark)
  {
    var l := WinStateOf(g).line;
    var k :| 0 <= k < |SearchOrder()| && l == SearchOrder()[k] && Complete(g, l);
    CompleteIffFilled(g, l);
    assert !Filled(g, l, TurnOf(g));
  }
}

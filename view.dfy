/**
 * The decisions the view `App` takes from a `GameState`: which cells are
 * highlighted and disabled, whether restart is enabled, and which header is
 * shown. A disabled button delivers no click, so this is where illegal moves
 * are kept from reaching `play`.
 */
module View {
  import opened Rules
  import opened Game

  /**
   * `shouldHighlight(x, y, game)`: some coordinate `[thisY, thisX]` of the win
   * line has `thisY == y` and `thisX == x`; false when there is no line. So a
   * cell is highlighted exactly when `winState()` is a win and the cell is on
   * its line; nothing is highlighted during play or on a draw.
   */
  function ShouldHighlight(x: int, y: int, g: Grid): (r: bool)
    ensures r <==> WinStateOf(g).Win? && 0 <= x < 3 && 0 <= y < 3 && Coord(y, x) in WinStateOf(g).line
  {
    match WinStateOf(g)
    case Win(_, line) =>
      OnLine(line, x, y);
      exists k | 0 <= k < |line| :: line[k].y == y && line[k].x == x
    case _ => false
  }

  /** A coordinate of `line` matches `x` and `y` exactly when `Coord(y, x)` is on it. */
  lemma OnLine(line: Line, x: int, y: int)
    ensures (exists k | 0 <= k < |line| :: line[k].y == y && line[k].x == x) <==>
            0 <= x < 3 && 0 <= y < 3 && Coord(y, x) in line
  {
    if 0 <= x < 3 && 0 <= y < 3 && Coord(y, x) in line {
      var k :| 0 <= k < |line| && line[k] == Coord(y, x);
      assert line[k].y == y && line[k].x == x;
    }
  }

  /** The `finished` class: `!!game.winState()`. */
  predicate ShowsFinished(g: Grid)
  {
    WinStateOf(g) != InProgress
  }

  /** The `disabled` class (as opposed to `enabled`): the cell holds a mark. */
  predicate ShowsOccupied(x: Idx, y: Idx, g: Grid)
  {
    At(g, Coord(y, x)) != Empty
  }

  /**
   * The `disabled` attribute of the button at `x, y`:
   * `Boolean(content ?? game.winState())`. It is set exactly when the cell
   * is styled as occupied or the board as finished.
   */
  function CellDisabled(x: Idx, y: Idx, g: Grid): (r: bool)
    ensures r <==> ShowsOccupied(x, y, g) || ShowsFinished(g)
  {
    var content := At(g, Coord(y, x));
    if content != Empty then true else WinStateOf(g) != InProgress
  }

  /** The restart button is enabled (`disabled={!playCount}`) exactly when the board is not the initial one. */
  function RestartEnabled(g: Grid): (r: bool)
    ensures r <==> g != EmptyGrid()
  {
    OccupiedZeroIffEmpty(g);
    Occupied(g) != 0
  }

  /** The header: `Draw`, `Winner: <mark>` or `Turn: <turn()>`. */
  datatype Heading = DrawHeading | WinnerHeading(winner: Mark) | TurnHeading(next: Mark)

  /**
   * The header says Draw exactly on a full board with no complete line, names
   * a winner exactly when some line is complete (the mark `winState()`
   * reports, which is `winMark()`), and otherwise shows `turn()` on a board
   * with an empty cell.
   */
  function Header(g: Grid): (h: Heading)
    ensures h == DrawHeading <==> !SomeLineComplete(g) && AllMarked(g)
    ensures h.WinnerHeading? <==> SomeLineComplete(g)
    ensures h.WinnerHeading? ==> h.winner == WinStateOf(g).mark && h.winner == WinMarkOf(g)
    ensures h.TurnHeading? ==> h.next == TurnOf(g) && exists p: Coord :: At(g, p) == Empty
  {
    var winDetails := WinStateOf(g);
    if winDetails == Draw then DrawHeading
    else if winDetails != InProgress then WinnerHeading(winDetails.mark)
    else TurnHeading(TurnOf(g))
  }

  /**
   * A click on the button at `x, y`: it reaches `play({x, y})` only when the
   * button is enabled. On an occupied cell or a finished board nothing
   * changes; otherwise the mover's mark lands on that cell and on no other.
   */
  function Click(g: Grid, x: Idx, y: Idx): (r: Grid)
    ensures At(g, Coord(y, x)) != Empty || WinStateOf(g) != InProgress ==> r == g
    ensures At(g, Coord(y, x)) == Empty && WinStateOf(g) == InProgress ==>
              At(r, Coord(y, x)) == TurnOf(g) &&
              forall p: Coord | p != Coord(y, x) :: At(r, p) == At(g, p)
  {
    if CellDisabled(x, y, g) then g else Place(g, Coord(y, x), TurnOf(g))
  }

  /** What the user does: click the cell at `x, y`, or click restart. */
  datatype Event = Press(x: Idx, y: Idx) | PressRestart

  /**
   * One user event. Restart always leaves the empty board (when the button is
   * disabled the board already is empty); a cell press changes at most the
   * pressed cell.
   */
  function Step(g: Grid, e: Event): (r: Grid)
    ensures e.PressRestart? ==> r == EmptyGrid()
    ensures e.Press? ==> forall p: Coord | p != Coord(e.y, e.x) :: At(r, p) == At(g, p)
  {
    match e
    case Press(x, y) => Click(g, x, y)
    case PressRestart => if RestartEnabled(g) then EmptyGrid() else g
  }

  /**
   * The board after a sequence of user events. Whatever came before, a
   * sequence that ends with restart ends on the empty board.
   */
  function Run(g: Grid, events: seq<Event>): (r: Grid)
    ensures |events| > 0 && events[|events| - 1].PressRestart? ==> r == EmptyGrid()
    decreases |events|
  {
    if events == [] then g else Run(Step(g, events[0]), events[1..])
  }

  /** The board reached from a new game by a sequence of user events. */
  function Reached(events: seq<Event>): Grid
  {
    Run(EmptyGrid(), events)
  }

  /**
   * An enabled button: the cell is empty and the game is neither won nor
   * drawn. A click there writes the mover's mark on one more cell.
   */
  lemma EnabledCellIsLegalMove(g: Grid, x: Idx, y: Idx)
    requires !CellDisabled(x, y, g)
    ensures At(g, Coord(y, x)) == Empty && !SomeLineComplete(g) && !AllMarked(g)
    ensures Occupied(Click(g, x, y)) == Occupied(g) + 1
    ensures At(Click(g, x, y), Coord(y, x)) == TurnOf(g)
  {
    CountPlace(g, Coord(y, x), TurnOf(g), X);
    CountPlace(g, Coord(y, x), TurnOf(g), O);
  }

  /** A click never overwrites a mark. */
  lemma ClickNeverOverwrites(g: Grid, x: Idx, y: Idx, p: Coord)
    requires At(g, p) != Empty
    ensures At(Click(g, x, y), p) == At(g, p)
  {
  }

  /** Once `winState()` is non-null, clicks leave the board as it is. */
  lemma ClickFrozenWhenFinished(g: Grid, x: Idx, y: Idx)
    requires WinStateOf(g) != InProgress
    ensures Click(g, x, y) == g
  {
  }

  /** Clicks keep the invariant of alternating play. */
  lemma ClickKeepsAlternating(g: Grid, x: Idx, y: Idx)
    requires Alternating(g)
    ensures Alternating(Click(g, x, y))
  {
    if !CellDisabled(x, y, g) {
      PlayKeepsAlternating(g, Coord(y, x));
    }
  }

  /** Every board reachable through the view obeys the invariant of alternating play. */
  lemma {:induction false} RunKeepsAlternating(g: Grid, events: seq<Event>)
    requires Alternating(g)
    ensures Alternating(Run(g, events))
    decreases |events|
  {
    if events != [] {
      match events[0] {
        case Press(x, y) =>
          ClickKeepsAlternating(g, x, y);
        case PressRestart =>
          EmptyGridAlternating();
      }
      RunKeepsAlternating(Step(g, events[0]), events[1..]);
    }
  }

  /**
   * A finished board stays as it is until restart: cell clicks alone do not
   * change it.
   */
  lemma {:induction false} FrozenUntilRestart(g: Grid, events: seq<Event>)
    requires WinStateOf(g) != InProgress
    requires forall k | 0 <= k < |events| :: events[k].Press?
    ensures Run(g, events) == g
    decreases |events|
  {
    if events != [] {
      FrozenUntilRestart(g, events[1..]);
    }
  }

  /**
   * In a game played through the view, X has as many marks as O or one more,
   * it is X's turn exactly after an even number of moves, and a reported
   * winner owns the reported line.
   */
  lemma ReachedInvariants(events: seq<Event>)
    ensures Balanced(Reached(events))
    ensures TurnOf(Reached(events)) == X <==> Occupied(Reached(events)) % 2 == 0
    ensures WinStateOf(Reached(events)).Win? ==>
              Filled(Reached(events), WinStateOf(Reached(events)).line, WinStateOf(Reached(events)).mark)
  {
    EmptyGridAlternating();
    RunKeepsAlternating(EmptyGrid(), events);
    var g := Reached(events);
    if WinStateOf(g).Win? {
      WinMarkOwnsLine(g);
    }
  }

  /** On a board that alternating play reached, every highlighted cell holds the reported winner's mark. */
  lemma HighlightHoldsWinner(g: Grid, p: Coord)
    ensures Alternating(g) && ShouldHighlight(p.x, p.y, g) ==> At(g, p) == WinStateOf(g).mark
  {
    var ws := WinStateOf(g);
    if Alternating(g) && ShouldHighlight(p.x, p.y, g) {
      WinMarkOwnsLine(g);
      var k :| 0 <= k < |ws.line| && ws.line[k] == p;
    }
  }

  /** On a board that alternating play reached, a named winner fills some line of the search. */
  lemma WinnerHeadingOwnsLine(g: Grid)
    ensures Header(g).WinnerHeading? && Alternating(g) ==>
              exists k | 0 <= k < |SearchOrder()| :: Filled(g, SearchOrder()[k], Header(g).winner)
  {
    if Header(g).WinnerHeading? && Alternating(g) {
      WinMarkOwnsLine(g);
      var k :| 0 <= k < |SearchOrder()| && WinStateOf(g).line == SearchOrder()[k];
      assert Filled(g, SearchOrder()[k], Header(g).winner);
    }
  }

  /**
   * The browser's part and `onClick` together: the click reaches
   * `game.play({x, y})` only when the button is enabled.
   */
  method ClickCell(game: GameState, x: Idx, y: Idx)
    requires game.Valid()
    modifies game
    ensures game.Valid()
    ensures game.Value() == Click(old(game.Value()), x, y)
  {
    var content := game.BoardState()[y, x];
    ContentsAt(game.board, y, x);
    var winState := game.WinState();
    var disabled := content != Empty || winState != InProgress;
    if !disabled {
      var _ := game.Play(Coord(y, x));
    }
  }

  /** The restart button: its click reaches `game.restart()` only when `playCount()` is not 0. */
  method ClickRestart(game: GameState)
    requires game.Valid()
    modifies game
    ensures game.Valid()
    ensures game.Value() == Step(old(game.Value()), PressRestart)
  {
    var playCount := game.PlayCount();
    if playCount != 0 {
      var _ := game.Restart();
    }
  }
}

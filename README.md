# Tic-tac-toe rules engine, modelled in Dafny

This project models the game logic of a browser tic-tac-toe game. The model
has two parts:

- The `GameState` class. It holds one 3x3 board of marks `X`, `O` or empty.
  - `play` writes the current player's mark into a copy of the board, and
    `restart` installs a fresh copy of the empty board.
  - The queries `turn`, `winState`, `boardState` and `playCount` read the board.
  - `winState` and its private helpers search rows, then columns, then the
    main diagonal, then the anti-diagonal, then test for a draw.
- The decisions the view `App` takes from a `GameState`:
  - which cell buttons are highlighted and which are disabled;
  - whether the restart button is enabled;
  - which header is shown.

A disabled button delivers no click, so the view is where illegal moves are
kept away from `play`. `play` itself checks nothing.

The project has four modules:

- `Rules` (`rules.dfy`): the board as a value (`Grid`, a 3x3 `seq<seq<Cell>>`).
  It defines the functions that specify every query: `TurnOf`, `Count`,
  `Occupied`, `WinMarkOf`, `FirstWin` over a list of lines, `HasMarkedAll`
  and `WinStateOf`. It also proves their properties, including the invariant
  kept by alternating play (`Alternating`).
- `Game` (`game_state.dfy`): the class `GameState`, whose field `board` is an
  `array2<Cell>`.
  - `Play` and `Restart` replace the array with a fresh one and leave the
    old array alone.
  - `Turn`, `PlayCount`, `FindWinRow` and `FindWinColumn` carry the
    original's loops. These and `WinState` are proved against the matching
    `Rules` function of `Contents(board)`.
  - The diagonal checks `FindWinForwardSlash` and `FindWinBackSlash` and
    `BoardState` have no loop in the original and are functions.
- `View` (`view.dfy`): the predicates of `App.tsx`. It also defines `Click`
  and `Step`, which are what a button press does to the board, and `Run`,
  which replays a list of user events. The methods `ClickCell` and
  `ClickRestart` drive a `GameState` object and are proved equal to `Click`
  and `Step`.
- `Scenarios` (`scenarios.dfy`): concrete games evaluated to their final board
  and outcome, both through the view and through raw calls of `play`.

Two expectations one might have of the game do not hold of the code, and the
model follows the code:

- One might expect an illegal `play` to be ignored. The code overwrites the
  cell, and it also plays on after the game has ended. `Rules.Place`,
  `Game.GameState.Play` and `Scenarios.PlayOverwrites` model this. The guard
  lives in the view (`View.Click`, `View.ClickNeverOverwrites`,
  `Scenarios.ClickDoesNotOverwrite`).
- One might expect at most one complete line in a reachable game. That is not
  so: the ninth move (X's fifth) can complete both diagonals at once
  (`Scenarios.TwoLinesAtOnce`). The search order then decides which line is
  reported, as `Rules.WinStateOf` states.

## Model

| member | source | states |
|---|---|---|
| Rules.Place | src/GameState.ts:29-31 | writing a mark at `loc` sets that cell and leaves every other cell as it was; an occupied cell is overwritten |
| Rules.CountPlace | src/GameState.ts:29-31 | writing `v` over a cell changes a mark's count by one for the mark removed and by one for the mark added |
| Rules.OccupiedBound | src/GameState.ts:155-163 | the number of occupied cells is at most 9 |
| Rules.OccupiedZeroIffEmpty | src/GameState.ts:155-163 | no cell is occupied exactly when the board is the initial empty board |
| Rules.EmptyGridCounts | src/GameState.ts:4-8 | the initial board has no X and no O, so `turn()` is X |
| Rules.EmptyGridInProgress | src/GameState.ts:36-39 | after `restart` (or on a new game) `winState()` is null, `playCount()` is 0 and `turn()` is X |
| Rules.WinMarkOf | src/GameState.ts:44-46 | `winMark()` is never the mark whose turn it is |
| Rules.Opponent | src/GameState.ts:45 | the other mark differs from the given one |
| Rules.CompleteIffFilled | src/GameState.ts:112-116 | `hasWinLine` holds for a line's cells exactly when all of them are X or all of them are O |
| Rules.FirstComplete | src/GameState.ts:47-62 | the index found is the first complete line of the list, and no earlier line is complete |
| Rules.FirstCompleteAppend | src/GameState.ts:128-144 | searching a concatenation of line lists finds the first list's line if it has one, and otherwise a line of the second list |
| Rules.FirstWinAppend | src/GameState.ts:128-144 | the chained `if (rowWin) return …` searches equal one search over rows followed by columns and diagonals |
| Rules.HasWinLine | src/GameState.ts:112-116 | a line passes `hasWinLine` exactly when every entry is a mark equal to the first entry |
| Rules.FirstWin | src/GameState.ts:47-104 | a search over a list of lines finds something exactly when some line of the list is complete; it then reports `winMark()` and the first complete line, no earlier line being complete |
| Rules.FullRowsIffFull | src/GameState.ts:107-109 | the filter of full rows keeps all three rows exactly when every cell is occupied, and exactly when 9 cells are occupied |
| Rules.HasMarkedAll | src/GameState.ts:105-111 | `hasMarkedAll()` holds exactly when every cell is occupied, and exactly when 9 cells are occupied |
| Rules.WinStateOf | src/GameState.ts:128-151 | `winState()` is a win exactly when some line is complete: it names the first complete line in the search order (rows, columns, main diagonal, anti-diagonal) and `winMark()`. It is a draw exactly when there is no line and every cell is occupied, and null exactly when there is no line and some cell is empty |
| Rules.TurnOf | src/GameState.ts:117-127 | on a board where X has as many marks as O or one more, it is X's turn exactly after an even number of moves |
| Rules.PlayOnEmptyKeepsBalance | src/GameState.ts:28-33 | a `play` on an empty cell keeps X − O in {0, 1}, adds one occupied cell and passes the turn to the other mark |
| Rules.EmptyGridAlternating | src/GameState.ts:4-8 | the initial board satisfies the invariant of alternating play |
| Rules.PlayKeepsAlternating | src/GameState.ts:28-33 | a `play` on an empty cell of an unfinished game keeps that invariant: counts balanced and no line full of the mover's mark |
| Rules.WinMarkOwnsLine | src/GameState.ts:44-62 | under alternating play the mark `winState()` reports (computed from `turn()`) is the mark filling the reported line |
| Game.GameState.constructor | src/GameState.ts:25 | a new game holds a fresh array equal to the empty board |
| Game.GameState.Play | src/GameState.ts:28-33 | the new board is the old one with the current turn's mark written at `loc`; the board array is fresh, the old array keeps its contents, and the same object is returned |
| Game.GameState.Restart | src/GameState.ts:36-39 | the new board is a fresh empty array; the old array keeps its contents |
| Game.GameState.CloneBoard | src/GameState.ts:41-43 | the clone is a fresh array with the same cells |
| Game.GameState.WinMark | src/GameState.ts:44-46 | the result is the mark whose turn it is not |
| Game.GameState.FindWinRow | src/GameState.ts:47-62 | the first complete row, top to bottom, with `winMark()`, or nothing |
| Game.GameState.FindWinColumn | src/GameState.ts:63-78 | the first complete column, left to right, with `winMark()`, or nothing |
| Game.GameState.FindWinForwardSlash | src/GameState.ts:79-91 | the main diagonal with `winMark()` when it is complete, otherwise nothing |
| Game.GameState.FindWinBackSlash | src/GameState.ts:92-104 | the anti-diagonal with `winMark()` when it is complete, otherwise nothing |
| Game.GameState.Turn | src/GameState.ts:117-127 | the counting loops return O exactly when the board has more X than O, and X otherwise |
| Game.GameState.WinState | src/GameState.ts:128-151 | the chain of searches and the draw test returns the outcome `WinStateOf` of the current board |
| Game.GameState.BoardState | src/GameState.ts:152-154 | the board array itself, not a copy |
| Game.GameState.PlayCount | src/GameState.ts:155-163 | the counting loops return the number of occupied cells, at most 9 |
| View.ShouldHighlight | src/App.tsx:5-11 | a cell is highlighted exactly when `winState()` is a win, the coordinates are in 0..2 and the cell is on the win line; never during play or on a draw |
| View.OnLine | src/App.tsx:7-9 | some entry `[thisY, thisX]` of a line matches `y` and `x` exactly when the coordinate (y, x) is in range and on the line |
| View.HighlightHoldsWinner | src/App.tsx:5-11 | on a board alternating play reached, every highlighted cell holds the reported winner's mark |
| View.CellDisabled | src/App.tsx:28 | a button is disabled exactly when its cell is styled `disabled` (occupied) or the board is styled `finished` |
| View.RestartEnabled | src/App.tsx:65-67 | restart is enabled exactly when the board is not the initial empty board |
| View.Header | src/App.tsx:39-45 | the header says Draw exactly on a full board with no complete line, names a winner exactly when some line is complete (that winner is the mark `winState()` reports, `winMark()`), and otherwise shows `turn()` on a board with an empty cell |
| View.WinnerHeadingOwnsLine | src/App.tsx:41-42 | on a board alternating play reached, the winner the header names fills some line |
| View.Click | src/App.tsx:27-28 | a click on an occupied cell or a finished board changes nothing; otherwise the mover's mark lands on the clicked cell and every other cell stays as it was |
| View.Step | src/App.tsx:65-67 | a restart event always leaves the empty board, since a disabled restart button means the board already is empty; a cell press changes no cell but the pressed one |
| View.Run | src/App.tsx:65-67 | whatever came before, a sequence of events that ends with restart ends on the empty board |
| View.EnabledCellIsLegalMove | src/App.tsx:27-28 | a click on an enabled button reaches `play` on an empty cell of an unfinished game and occupies one more cell with the mover's mark |
| View.ClickNeverOverwrites | src/App.tsx:28 | a click never changes an occupied cell |
| View.ClickFrozenWhenFinished | src/App.tsx:28 | once `winState()` is non-null a click leaves the board unchanged |
| View.FrozenUntilRestart | src/App.tsx:27-28 | from a finished board, any sequence of cell clicks leaves the board unchanged |
| View.ClickKeepsAlternating | src/App.tsx:27-28 | a click keeps the invariant of alternating play |
| View.RunKeepsAlternating | src/App.tsx:27-28 | any sequence of cell clicks and restarts keeps the invariant of alternating play |
| View.ReachedInvariants | src/App.tsx:27-28 | in every game played through the view, X − O is 0 or 1, X moves exactly after an even number of moves, and a reported winner fills the reported line |
| View.ClickCell | src/App.tsx:23-28 | the click handler, with the browser's disabled test, changes the game's board exactly as `Click` does |
| View.ClickRestart | src/App.tsx:65-67 | the restart button changes the game's board exactly as the restart event does |
| Scenarios.TopRowWin | src/GameState.ts:47-62 | five clicks end with X's top row, reported as X's win, with the header naming X |
| Scenarios.MainDiagonalWin | src/GameState.ts:79-91 | five clicks end with X on the main diagonal and no complete row or column; the search reports X's win on that diagonal and the header names X |
| Scenarios.FullBoardDraw | src/GameState.ts:145-149 | nine clicks fill the board without a line; the outcome and the header are Draw and `playCount()` is 9 |
| Scenarios.TwoLinesAtOnce | src/GameState.ts:137-144 | a game played through the view completes both diagonals with its ninth move (X's fifth); the main diagonal is reported because it is searched first |
| Scenarios.PlayAfterWinMisreports | src/GameState.ts:44-46 | a `play` after O's win, which the view would not deliver, makes `winState()` report X on a row of O marks |
| Scenarios.PlayOverwrites | src/GameState.ts:28-33 | two `play` calls on one cell leave the second player's mark there |
| Scenarios.ClickDoesNotOverwrite | src/App.tsx:28 | two clicks on one cell leave the first player's mark there |

## Left out

- The `rerender` decorator is not modelled. The same goes for the `use-vanilla-state` base class and the `useVanillaState` hook of `src/module.ts`: they redraw the page and hold no game logic.
- Class-name strings, CSS and the header texts are not modelled. They are reduced to the booleans and the `Heading` value they are built from.
- The order in which `App` lays out the nine buttons is not modelled. Its first visual row holds `makeBoxProps(0, y)` for y = 0..2. Only which coordinate each button passes to `play` matters, and that is the coordinate it tests.
- Coordinates outside 0..2 are not modelled. `Idx` rules them out, and the view passes only 0..2. In the original, an out-of-range row in `play` would throw, and an out-of-range column would write outside the row's three cells: an integer index of 3 or more lengthens the row, while a negative or fractional one adds a property that `forEach` and `every` skip, so the move is silently lost.
- The board of row arrays is modelled as one `array2<Cell>`. `cloneBoard` copies rows, and the model does not capture aliasing between rows of different boards: `play` and `restart` only ever install fresh copies, so no row is shared.
- `initBoard` is modelled as the value `EmptyGrid()`, not as an array shared by module state. The original never writes to it, since it is only cloned.
- `Game.GameState.Play`, `Game.GameState.Restart` and `Game.GameState.constructor` state the new board and its freshness. They do not state the `rerender` side effect.
- `disabled` is computed when `App` renders, and the handler of `onClick` checks nothing. `View.Click` and `View.ClickCell` read the board at the moment of the click, so the model assumes every click sees the render of the current board.
- `winState()` repeats its searches on every call, and `App` calls it several times per render. The model makes each call once where that gives the same value, because the board does not change between the calls.

# Renju win detection, modelled in Dafny

This project models the game logic of the React Renju component
(`src/components/RenjuGame.tsx`). The board has 19×19 cells. Each cell is empty,
black or white (0, 1 or 2 in the source).

The centre of the model is `checkWinner`. It scans the cells in row-major order
and skips empty ones. At each stone it tries four directions in a fixed order:
right, down, down-right and up-right. For each direction it counts the forward
run of the same stone. A count of exactly five is a candidate. The candidate is
accepted unless the cell before the origin, or the cell after the fifth stone,
holds the same stone. The first accepted candidate is returned as the winner
with its origin cell. Otherwise the result is "winner 0".

Around it sit `createEmptyBoard`, the click handler, the restart button and
`renderResult`. The click handler places the current player's stone and passes
the turn. `renderResult` prints the result as text.

Files:

- `board.dfy` (module `RenjuBoard`): stones, the board, `createEmptyBoard`, the
  one-cell write of a placement, and stone counts.
- `win_check.dfy` (module `WinCheck`): the declarative specification of a win
  and the imperative `checkWinner`, proved equal to it.
  - `ExactFiveAt`: five cells from the origin hold its stone, and neither
    neighbour of those five does.
  - `WinningOrigin`: some direction gives the cell an exactly-five run.
  - `IsFirstWin`: the row-major-first winning origin, or no winner.
- `examples.dfy` (module `WinExamples`): the seven test positions kept as
  comments in `src/App.tsx`, each with its proved result.
- `decimal.dfy` (module `Decimal`): decimal text of numbers, as a template
  literal prints them, and its inverse.
- `game.dfy` (module `RenjuGame`): the component state as a class with `board`
  and `currentPlayer` fields. Also holds `renderResult` and a reader for its
  output.

How the code is modelled:

- `checkWinner` becomes the method `CheckWinner`: nested `for` loops with an
  early `return`.
- The per-cell direction loop is the method `OriginWins`.
- The `while` counting loop is the method `CountRun`.
- `CheckWinner` is proved to return `Evaluate(board)`. `Evaluate` is a
  row-major scan over the declarative `WinningOrigin`. `IsFirstWin` characterises
  its result exactly, in both directions.
- The result holds only the origin and its stone, so the order of the
  directions does not show in it. `WinningOrigin` therefore quantifies over the
  directions.
- `checkWinner` takes the board as a value (`seq<seq<Stone>>`), so it cannot
  change the board. Being a function, `Evaluate` gives the same result on the
  same board every time.
- `isInBounds` (`RenjuGame.tsx:21`) is the predicate `InBounds` in
  `board.dfy`. `DIRECTIONS` (`RenjuGame.tsx:12-17`) is the constant
  `DIRECTIONS` in `win_check.dfy`, in the same order: right, down, down-right,
  up-right.

Two consequences of the code:

- At `count === 5` the probe after the fifth stone can never find the same
  stone, because the counting loop has already run to the end of the run
  (`CandidateCheck`). Overlines are rejected because the first stone counts
  more than five and every later stone has a same-coloured predecessor
  (`OverlineNeverWins`).
- A click has no error results. A click on an occupied cell, or after a win,
  does nothing. The size is fixed at 19.

## Model

| member | source | states |
|---|---|---|
| RenjuBoard.EmptyBoard | src/components/RenjuGame.tsx:58 | the new board has 19 rows of 19 cells, and every cell is empty |
| RenjuBoard.Put | src/components/RenjuGame.tsx:69-70 | the copy-then-write of a click: the chosen cell holds the new stone, and every other cell keeps its stone |
| RenjuBoard.CountStonesUpdate | src/components/RenjuGame.tsx:69-70 | writing one cell changes the number of stones of a colour by exactly the cell's old and new contribution |
| RenjuBoard.EmptyBoardCounts | src/components/RenjuGame.tsx:58 | the new board holds no black and no white stones |
| WinCheck.CountRun | src/components/RenjuGame.tsx:29-37 | the count is the exact forward run: the first `count` cells from the origin hold its stone, and the next cell is off the board or holds something else |
| WinCheck.CandidateCheck | src/components/RenjuGame.tsx:39-48 | given the exact run length, at count 5 the probe after the fifth stone is always false; a direction wins iff the count is 5 and the probe before the origin finds no same stone |
| WinCheck.OriginWins | src/components/RenjuGame.tsx:28-52 | the direction loop at a stone accepts iff some direction gives that cell an exactly-five run with neither neighbour of the five holding the same stone |
| WinCheck.CheckWinner | src/components/RenjuGame.tsx:19-56 | the nested scan returns exactly `Evaluate(board)`: no winner iff no cell is a winning origin, otherwise the stone and position of the row-major-first winning origin |
| WinCheck.ScanFromFindsFirst | src/components/RenjuGame.tsx:23-55 | the scan from a cell returns no winner only if no cell from there on is a winning origin; otherwise it returns the first winning origin from there on, with its stone |
| WinCheck.Evaluate | src/components/RenjuGame.tsx:19-56 | the result is the first win: winner 0 with no position iff no cell wins; otherwise an in-bounds origin, its non-empty stone as winner, and no earlier winning cell |
| WinCheck.EvaluateCharacterized | src/components/RenjuGame.tsx:23-55 | a result is the first win iff it equals `Evaluate(board)`, so the first-match rule picks exactly one result |
| WinCheck.WinnerHasExactFive | src/components/RenjuGame.tsx:29-49 | a non-zero winner comes with a position holding the winner's stone. Along some direction the five cells from it are on the board and hold that stone. The cells just before and just after the five are off the board or hold something else |
| WinCheck.OverlineNeverWins | src/components/RenjuGame.tsx:39-48 | in a line of six or more same stones, no stone of the line is the origin of a winning run along that line |
| WinCheck.InterruptedRunNeverWins | src/components/RenjuGame.tsx:33-37 | a run broken before its fifth cell does not win along that line |
| WinCheck.EmptyBoardHasNoWinner | src/components/RenjuGame.tsx:19-58 | the empty board gives winner 0 with no position |
| WinExamples.HorizontalBlackWins | src/App.tsx:8-14 | black at row 10, columns 2–6, with a white stone at (5,8), gives black at (10,2) |
| WinExamples.VerticalWhiteWins | src/App.tsx:16-22 | white at column 12, rows 5–9, with a black stone at (5,8), gives white at (5,12) |
| WinExamples.DiagonalBlackWins | src/App.tsx:24-30 | black on the diagonal (0,0)–(4,4) gives black at (0,0); the off-board cell before the corner is no overline |
| WinExamples.DiagonalWhiteWins | src/App.tsx:32-38 | white at (10,2),(9,3),(8,4),(7,5),(6,6) gives white at (10,2), not (6,6) |
| WinExamples.OverlineNoWinner | src/App.tsx:40-46 | black at row 4, columns 4–9 (six stones) gives winner 0 |
| WinExamples.InterruptedNoWinner | src/App.tsx:48-53 | black, black, white, black, black on row 8 gives winner 0 |
| WinExamples.EdgeBlackWins | src/App.tsx:55-60 | black at row 18, columns 14–18, touching the last column, gives black at (18,14) |
| RenjuGame.Opponent | src/components/RenjuGame.tsx:72 | the next player is a stone, and not the current player (so the turn flips 1↔2) |
| RenjuGame.PlacePreservesTurn | src/components/RenjuGame.tsx:64-72 | placing the mover's stone on an empty cell and flipping the turn keeps the invariant that Black moves first and the players alternate |
| RenjuGame.Game.constructor | src/components/RenjuGame.tsx:63-64 | the game starts with the empty board and Black to move |
| RenjuGame.Game.HandleClick | src/components/RenjuGame.tsx:67-73 | a click on an occupied cell or after a win changes nothing; otherwise only the clicked cell gets the current player's stone, the player flips, and the turn invariant holds |
| RenjuGame.Game.Restart | src/components/RenjuGame.tsx:152-155 | restart gives the empty board and Black to move |
| RenjuGame.EvaluateRenderable | src/components/RenjuGame.tsx:49 | every checkWinner result with a winner has the position that renderResult dereferences |
| RenjuGame.RenderResult | src/components/RenjuGame.tsx:75-79 | the text is "0" iff there is no winner |
| RenjuGame.ReadRenderResult | src/components/RenjuGame.tsx:75-79 | the text for a winner reads back as that winner and its 0-based position ("black"/"white", newline, 1-based row, space, 1-based column); the text for no winner reads back as no winner |
| RenjuGame.RenderResultInjective | src/components/RenjuGame.tsx:75-79 | two results with a winner that print the same text are the same result |
| Decimal.DecimalString | src/components/RenjuGame.tsx:78 | a number prints as a non-empty string of digits without a leading zero |
| Decimal.ParseDecimalString | src/components/RenjuGame.tsx:78 | reading the printed digits back gives the number |

## Left out

- JSX rendering is not modelled: the cell buttons, `clsx` class strings, the
  highlight ring, the row and column labels and the status line
  (`RenjuGame.tsx:81-168`). It is presentation only. The `disabled` flag
  (occupied cell, or a winner exists) repeats the guard that `HandleClick`
  models.
- React `useState` hooks and re-render timing are not modelled. The state is
  the fields of `Game`. The `result` that `handleClick` tests is recomputed with
  `CheckWinner` on the current board, which is the board the last render used.
- `src/components/BoardDisplay.tsx`, `src/components/PresetSelector.tsx` and the
  mounting code of `src/App.tsx` are not modelled: they are views without logic.
  `BoardDisplay.tsx` imports `constants` and types that are not part of this
  model.
- RenderResult: requires that a winner comes with a position whose row and
  column are not negative. `checkWinner` never yields anything else. Negative
  numbers, which a template literal would print with a minus sign, are not
  modelled.
- Game.HandleClick: requires in-bounds coordinates. The grid only offers clicks
  on its own cells. An out-of-range row makes `board[row][col]` throw in
  JavaScript. An out-of-range column reads `undefined`, and the click does
  nothing. Neither case is modelled.
- CheckWinner: requires a 19×19 board. `checkWinner` indexes 19×19 cells of
  whatever it is given, and ragged boards never reach it.
- JavaScript numbers are modelled as unbounded integers. All coordinates stay
  between -1 and 19, so no precision question arises.

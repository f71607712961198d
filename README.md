# Tic-tac-toe game rules and move history

This project models the game logic of the React tic-tac-toe tutorial app
(`src/App.js`) and proves properties of it. The model covers four parts:

- **Rules** (`rules.dfy`, module `Rules`). A square is `Empty`, `X` or `O`,
  and a board is nine squares. Winner detection scans the eight lines (three
  rows, three columns, two diagonals) in a fixed order. It reports the mark of
  the first line whose three squares hold the same mark. Otherwise it reports
  `Empty`, which stands for the source's `null`. The model has it twice: as
  the function `Winner` and as the loop method `CalculateWinner`, which is
  proved equal to it. The same module has the status line shown above the
  board.
- **Labels** (`labels.dfy`, module `Labels`). These are the texts of the
  history list: "Go to game start" for entry 0 and "Go to move #n" for later
  entries. The number is written in decimal, and the model proves that
  reading it back gives the number.
- **History** (`game.dfy`, module `History`). The class `Game` holds the two
  pieces of game state, `history` (the recorded boards) and `currentMove`
  (the entry being viewed). Three methods change them:
  - `HandleClick` models the board's click handler.
  - `HandlePlay` records a board.
  - `JumpTo` travels in time.
  
  Whose turn it is comes from `currentMove`; it is never stored.
  `IsPlayed` describes the histories that play can produce. Each entry comes
  from the one before by one move into an empty square. That move was made by
  the player whose turn it was, while the board had no winner. `HandleClick`
  and `JumpTo` keep this invariant. The lemmas then show that entry `k` holds
  `(k + 1) / 2` X marks and `k / 2` O marks, so a history never holds more than
  ten boards.

A click on a taken square, or on a board that already has a winner, is
silently ignored. Nothing detects a draw: a full board with no held line
simply has no winner (`FullBoardWithoutWinner`).

## Model

| member | source | states |
|---|---|---|
| Rules.WinnerFrom | src/App.js:103-109 | the scan from line k0 on yields Empty exactly when no line at or after k0 is held, and otherwise the mark of the first held line at or after k0 |
| Rules.Winner | src/App.js:92-110 | Empty exactly when none of the eight lines has three equal non-empty squares; otherwise the mark of the first such line in scan order; a full board with no held line gives Empty |
| Rules.WinnerSound | src/App.js:103-107 | a reported winner is backed by a line, the first held one, whose three squares all equal the reported mark |
| Rules.CalculateWinner | src/App.js:92-110 | the line-scanning loop with early return computes exactly `Winner`, and a non-empty answer is the mark of a first held line |
| Rules.FullBoardWithoutWinner | src/App.js:103-109 | the full board X O X / X O O / O X X holds no line and `Winner` reports Empty, so a full board is not a draw state; the general case is the first ensures of `Rules.Winner` |
| Rules.CountMark | src/App.js:38-45 | marking one empty square adds one to that mark's count and takes one from the empty count, leaving the other counts alone |
| Rules.Status | src/App.js:52-58 | with a winner the status line is exactly "Winner: " followed by the winner's letter; without one it is exactly "Next player: " followed by the letter of the player to move; it starts with "Winner: " only when there is a winner |
| Rules.StatusDetermines | src/App.js:52-58 | equal status lines imply the same winner and, when there is no winner, the same player to move |
| Labels.Decimal | src/App.js:145 | a move number is written as at least one character, every character a decimal digit, with no leading zero unless the number is 0 |
| Labels.DecimalRoundTrip | src/App.js:145 | the decimal text of a move number reads back as that number |
| Labels.MoveLabel | src/App.js:141-148 | the label is "Go to game start" exactly for entry 0; any other entry gets "Go to move #" followed by its number's decimal digits, with no leading zero |
| Labels.MoveLabelInjective | src/App.js:141-152 | two entries with the same label are the same entry |
| Labels.MoveLabels | src/App.js:141-148 | one label per history entry, in order, and no two alike |
| History.PlayedExtend | src/App.js:128-131 | a legal move from entry `at` of a played history gives a played history once the later entries are dropped and the new board is appended |
| History.PlayedCounts | src/App.js:122 | on a played history, entry k holds (k + 1) / 2 X marks, k / 2 O marks and 9 - k empty squares, so the marks alternate X, O, X, ... |
| History.PlayedLength | src/App.js:29-33 | a played history has at most ten boards, because occupied squares refuse clicks |
| History.Game.constructor | src/App.js:118-119 | a new game has one all-empty board and views entry 0 |
| History.Game.CurrentSquares | src/App.js:125 | the viewed board is the history entry at currentMove; on a played history it has 9 - currentMove empty squares |
| History.Game.XIsNext | src/App.js:122 | X moves exactly on even entries; on a played history, X is to move exactly when X and O have equally many marks on the viewed board |
| History.Game.HandlePlay | src/App.js:128-132 | the history becomes the old entries 0..currentMove followed by the new board, and currentMove becomes its last index, which is one past the old one |
| History.Game.JumpTo | src/App.js:135-137 | currentMove is set to the requested entry and the history is unchanged |
| History.Game.HandleClick | src/App.js:29-49 | a click on a taken square or on a won board changes nothing; otherwise it records, after the viewed entry, a copy of the viewed board with the square set to the mover's mark (X on even entries, O on odd ones), and it keeps `IsPlayed` |
| History.TopRowGame | src/App.js:116-132 | the clicks 0, 3, 1, 4, 2 give a played six-entry history whose last board has X holding the top row; after a further click on square 5 the history is still exactly that one and currentMove is still 5 |
| History.PlayTopRowWin | src/App.js:52-58 | after that game the status is "Winner: X"; after jumping back to entry 0 it is "Next player: X"; the labels run from "Go to game start" to "Go to move #5" |

## Left out

- The rendering is not modelled. That covers the `Square` component, the board rows, the history list markup and the DOM mounting in `src/index.js`. None of it has game logic.
- React's `useState` hooks and their batched asynchronous setters are not modelled. The two pieces of state are plain fields of `Game`, and its methods update them at once.
- Board copies are sequence values. The source copies the array with `slice()` and then assigns one index. The model builds the copy as a sequence update, so array aliasing is not modelled.
- Clicks outside 0..8 are not modelled. The parameter type `Index` admits only the nine squares the board wires up.
- Rules.Winner is not modelled for boards of any size other than nine squares.
- History.Game.JumpTo requires the target entry to exist. The source checks no range, and only existing entries can be clicked.
- Rules.Status is not modelled for a winner that is not a mark. In the source, a winner is always "X" or "O" when it is printed.
- History.PlayTopRowWin checks only the first and last of the six labels as literal text; the rest follow from `Labels.MoveLabels`.

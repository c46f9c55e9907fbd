# Tic-tac-toe game engine in Dafny

This project models the rule engine and round state machine of a browser
tic-tac-toe game (`index.js`). The game has a vs-CPU mode and a two-player
mode. The model covers the flat board of `size*size` cells, the winning lines
and win/tie detection, move application, turns, the CPU's move, the score
counters, and the round lifecycle. The lifecycle is who holds which mark, the
next round, reset and quit. Nothing of the page itself is modelled.

Modules, one per part of the source:

- `Board` (board.dfy) covers `utility` and the read-only part of `gameLogic`.
  It has the cells, the generated winning lines and their geometry,
  `checkWinner`, `checkTies`, `findEmptyCells` and the CPU's pick. It also has
  `RoundOutcome`, the outcome a move leaves in `winner`.
- `Scoring` (scores.dfy) covers `scoreManage`. The counters are a value that
  the game state replaces.
- `Players` (players.dfy) covers the seats and `playerManage.isHumanTurn`,
  `getPlayerWin`, `initLastPlayerWin` and the mark-swap rule of `nextRound`.
  Player 1 always holds the selected mark. The file also has lemmas over
  series of rounds.
- `Game` (game.dfy) holds `class GameState`. Its fields are those of
  `gameState`, and its methods update them in place: `initBoard`,
  `resetRound`, `quitGame`, `makeMove`, and the game-state side of the
  controller. `Valid()` is the invariant that the constructor establishes and
  every controller-level method keeps. `InitBoard` is the exception: it is an
  internal step of `resetRound` and `startGame`, and on an ended round it
  leaves a state those callers then complete. While a round is active, no
  line is complete. Once it has ended, `winner` is the board's outcome, with
  a win taking precedence over a tie.

Behaviour the model keeps exactly as `index.js` has it:

- A tie records no last winner, because `getPlayerWin` gives `undefined`. So
  the win that follows a tie always swaps the marks. A seat that holds X, ties
  and then wins again holds O in the next round (`Players.WinAfterTieSwaps`).
  From the start of a game, while every round is won, the winner moves first
  in the next round (`Players.WinnerLeadsWhileNoTie`). A tie suspends that
  rule, and the next win decides which rule holds until the following tie
  (`Players.RuleAfterTie`). A win with O after a tie restores "the winner
  moves first". A win with X after a tie inverts it: from then on the loser
  of each round moves first (`Players.LoserLeadsWhileNoTie`).
- `checkWinner` returns at the first complete line. It does not scan all of
  them.
- An illegal click is ignored silently. An index outside the board reads as
  `undefined`, which is "not null", so such a click is rejected like an
  occupied cell.
- Before the first game the board is the empty array `[]`, and `Valid()`
  allows that state.

## Model

| member | source | states |
|---|---|---|
| `Board.Other` | index.js:271 | the turn toggle gives the other mark |
| `Board.EmptyBoard` | index.js:14-17 | the fresh board has size*size cells, all null |
| `Board.GenerateWinningCombo` | index.js:147-179 | the loops build rows, then columns, then the two diagonals: 2*size+2 lines of size entries each |
| `Board.CombosGeometry` | index.js:147-179 | every entry is a board index in [0, size*size); line k < size is row k, the next size lines are the columns, then the main diagonal (row j, column j) and the anti-diagonal (row j, column size-1-j) |
| `Board.CombosDistinct` | index.js:147-179 | the size entries of every line are pairwise distinct |
| `Board.LineMark` | index.js:220-228 | the first-cell-then-every test yields mark m exactly when every cell of the line holds m |
| `Board.FirstWinnerSound` | index.js:215-231 | a reported winner m owns a line whose cells all hold m |
| `Board.FirstWinnerNone` | index.js:215-231 | no winner is reported if and only if no line is complete for any mark |
| `Board.CheckWinner` | index.js:215-231 | the scan with early return gives the first complete line's mark, sound and complete as above |
| `Board.NoMarkNoWinner` | index.js:14-17 | a board with no mark on it, the fresh board included, has no winner |
| `Board.MoveWinsOnlyForMover` | index.js:246-258 | on a board without a winner, a move can only make the mover win, and it does whenever it completes a line |
| `Board.FindEmptyCells` | index.js:186-190 | exactly the indices of the null cells, strictly ascending |
| `Board.CheckTies` | index.js:237-239 | true if and only if the empty-cell list is empty |
| `Board.RoundOutcome` | index.js:251-268 | a complete line gives a win, even on a full board; only otherwise a full board is a tie, and anything else continues the round |
| `Board.CpuCellIndex` | index.js:281-284 | the pick is an empty cell; there is one exactly when some cell is empty |
| `Board.OnlyEmptyCellIsPicked` | index.js:281-284 | with one empty cell left, every pick is that cell |
| `Scoring.UpdateScore` | index.js:350-362 | a win adds one to exactly one player's counter, p1 if and only if the winner is player 1's mark; ties untouched |
| `Scoring.IncreaseTies` | index.js:367-370 | a tie adds one to ties and nothing else |
| `Scoring.RecordOutcome` | index.js:252-268 | after a move no counter decreases; the total grows by one exactly when the round ends, and it goes to the ties or to the seat holding the winning mark |
| `Players.InitialLastPlayerWin` | index.js:28-31 | the initial last winner is the seat holding X, the first mover |
| `Players.IsHumanTurn` | index.js:334-337 | a click is the human's in multiplayer, and against the CPU only when the current mark is player 1's |
| `Players.GetPlayerWin` | index.js:291-299 | no seat for a tie, otherwise the seat holding the winning mark |
| `Players.NextSelectedMark` | index.js:710-716 | the marks swap exactly when the round was won by a seat other than the recorded last winner; a tie keeps them; when the last winner holds X, the new winner holds X next; when it holds O, the new winner holds O next; after a tie any win swaps |
| `Players.NextRoundHandover` | index.js:703-724 | a tie keeps the marks and clears the last winner; a win records the winning seat and keeps the rule in force, whether the winner leads (last winner holds X) or the loser leads (last winner holds O); the first win after a tie makes the winner lead exactly when it won with O |
| `Players.AfterRoundsAppend` | index.js:703-724 | handing over through two series of rounds in turn equals handing over through their concatenation |
| `Players.WinnerLeadsWhileNoTie` | index.js:703-724 | starting from the first mover as last winner, while every round is won the latest winner holds X and moves first |
| `Players.LoserLeadsWhileNoTie` | index.js:703-724 | once the last winner holds O, while every round is won the latest winner holds O, so the loser moves first |
| `Players.WinAfterTieSwaps` | index.js:703-724 | a win after a tie always swaps, so the winner moves first next only if it won with O; a tie followed by a win with X makes the last winner the seat holding O |
| `Players.RuleAfterTie` | index.js:703-724 | after a tie and a win with O, every later won round leaves its winner leading; after a tie and a win with X, every later won round leaves its loser leading |
| `Game.GameState.constructor` | index.js:6-57 | the initial game state: X selected, CPU mode, size 3, empty array, X to move, active, no winner, zero scores |
| `Game.GameState.InitBoard` | index.js:14-17 | the board becomes size*size null cells |
| `Game.GameState.InitLastPlayerWin` | index.js:28-31 | the last winner becomes the seat holding X; the state stays valid |
| `Game.GameState.ResetRound` | index.js:42-49 | all-null board of size*size, active, no winner, X to move; scores, marks and last winner unchanged |
| `Game.GameState.QuitGame` | index.js:51-56 | the reset round plus all counters zero and no last winner |
| `Game.GameState.MakeMove` | index.js:246-275 | only the chosen cell changes, to the current mark; win before tie; the round ends exactly on a win or tie; the turn toggles only when the round continues; the scores follow the outcome |
| `Game.GameState.ExecuteCpuMove` | index.js:680-691 | no change without an empty cell or an active round; otherwise the picked empty cell is played as a move |
| `Game.GameState.HandleCellClick` | index.js:635-675 | an inactive round, an occupied or out-of-range cell, or the CPU's turn leaves everything unchanged; otherwise the move is made and a CPU move follows exactly when the round goes on and it is the CPU's turn |
| `Game.GameState.HandleSelectMark` | index.js:602-605 | button 0 selects X, any other O; the state stays valid |
| `Game.GameState.StartGame` | index.js:611-629 | mode set, seat holding X recorded as last winner, empty board; the CPU moves first exactly when it holds X |
| `Game.GameState.NextRound` | index.js:703-730 | marks and last winner follow the handover rule, then a reset round with scores kept; the CPU moves first exactly when it holds X |
| `Game.GameState.ResetStart` | index.js:751-757 | the confirmed reset gives a fresh round with scores, marks and last winner unchanged |

## Left out

- The page: the `dom` references, `UI`, `endModal`, the labels and colours set
  by `updateLabel`, the icon and colour strings, and `scoreManage.updateDisplay`.
  These are presentation only. Player 1's label always shows the selected
  mark, so the model uses `selectedMark` wherever the source reads that label.
- The 500 ms `setTimeout` in `executeCpuMove`. `ExecuteCpuMove` runs the
  callback at once, so the empty-cell check and the active check see the same
  state. A callback that fires after a reset is not modelled.
- `Math.random` in `CpuCellIndex`. The caller supplies `pick` in place of
  the random position drawn below the length of the empty-cell list.
- Game.GameState.ExecuteCpuMove: requires `pick` to lie within the empty-cell
  list when that list is non-empty (0 otherwise). The case where the
  source's lookup gives `undefined` on an active round and a move is made
  at an `undefined` index is not modelled.
- Game.GameState.MakeMove: requires an index inside the board and an active
  round, because every caller checks both. A write past the end of the
  array is not modelled.
- Game.GameState.StartGame: requires an active round. The menu is reached
  only from the initial state or after `quitGame`.
- Event-listener wiring, `DOMContentLoaded`, `resetGame` and `cancelReset`:
  these only show or hide dialogs.
- `console.log`, the unused `generateCombo` and the unused `scores.cpu`
  counter.
- `null` and `undefined` for the last winner are both `None`. The only
  comparison that reads the last winner is the swap test of `nextRound`
  (index.js:711-713). On a tie that test compares `undefined` with the last
  winner, but its other conjunct, "winner is not ties", is false, so the
  outcome does not depend on the comparison. On a win the round's seat is 0
  or 1, which differs from both `null` and `undefined`.

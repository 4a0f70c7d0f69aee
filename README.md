# Tic-tac-toe game state, modelled in Dafny

This project models the game core of a browser tic-tac-toe game (`script/index.js`):

- the nine-cell **Gameboard**, which is reset in place;
- the **Player** records and the two **Players** presets ("one player" against the computer, "two players"), with a turn counter;
- **GameFlow**, with its table of eight winning lines, the win check that records the winning line, and the end-of-round and change-of-opponent resets;
- the DOM-free decisions of the **move pipeline** that runs when a cell is clicked: place the mark, check for a win before a full board, score a finished round, otherwise pass the turn, and in one-player mode let the computer answer.

Modules, one per component:

- `Board` (board.dfy): cells and marks, and `IndicesOf`, the value-level meaning of the board queries.
- `Players` (players.dfy): modes, score counters and the `Player` class, whose counters are bumped in place.
- `GameFlow` (gameflow.dfy): the winning-line table, the line search and the mode toggle.
- `Rounds` (rounds.dfy): the outcome of a placement (`Judge`), the scoreboard after a round (`Award`), and the session state after a placement is resolved (`Settle`, over a `Snapshot` of board, turn, scores and recorded line).
- `Session` (session.dfy): the class `GameSession`. It owns the board array, the turn counter, the current mode, the recorded winning line and the four players, and carries the imperative operations.
- `Wrappers` (wrappers.dfy): `Option`.

The session invariant `Valid()` counts the marks: the board holds `(turn + 1) / 2` x's and `turn / 2` o's. The parity of the turn picks the mover (`MarkOf`, `CurrentPlayer`): "x" on even turns, "o" on odd ones. `AtRest()` adds two facts that hold whenever the game waits for a click. First, no mark owns a line of the table (`NoLine`), because a win ends the round at the move that makes it. Second, in one-player mode it is the human's turn. With `NoLine` in `AtRest()`, a tie reported by `DisplayMark` means that no cell is empty and neither mark owns a line (`TieMeansNoLine`).

Which contract states which invariant:

- `AtRest()` is established by the constructor, `ChangeOpponent`, `DisplayMark` and `PlayAiTurn`.
- `Valid()` is established by `EndGame`, `GameOver`, `Resolve`, `Proceed` and `Move`.
- The single-step operations (`ResetBoard`, `AddMark`, `SwitchTurn`, `StartOver`, `CheckWin`, `HasPlayerWon`) are building blocks. Their contracts state the exact change they make and say nothing about the invariant.

The state-changing steps of a move state their whole new state as `State() == Settle(old(State()), placed, mode, result)`. `State()` is the session's board, turn, scores and recorded line.

Marks and modes are enums rather than the strings "x"/"o" and "one player"/"two players". An empty cell is `Empty`, which stands for `null`.

## Model

| member | source | states |
|---|---|---|
| `Board.IndicesOf` | script/index.js:11-20 | Returns exactly the indices whose cell equals the given value. This is what `getEmptyCells` (value `null`) and `getMarkPositions` (a mark) compute. |
| `Board.IndicesOrdered` | script/index.js:11-20 | The list of indices is strictly increasing, the order a left-to-right scan yields. |
| `Board.NoneIff` | script/index.js:141-143 | The empty-cell list has length 0 exactly when no cell is empty. |
| `Board.AllEmptyIndices` | script/index.js:5-20 | On an all-empty board, the empty-cell list is exactly 0..n-1 and the position list of every mark is empty. |
| `Board.Partition` | script/index.js:11-20 | Every index is in the empty, "x" or "o" list, and the three lists are pairwise disjoint. |
| `Board.PartitionCount` | script/index.js:11-20 | The lengths of the empty, "x" and "o" lists add up to the number of cells. |
| `Board.CountAfterPlace` | script/index.js:9-20 | Putting a mark on an empty cell adds one index to that mark's list and removes one from the empty list. Every other list keeps its length. |
| `Players.Player.constructor` | script/index.js:25-31 | A player has the given name, mark and AI flag, and all three counters start at 0. |
| `Players.Player.SetScore` | script/index.js:33 | Increments exactly the named counter (win, lose or tie), by one. |
| `GameFlow.FirstMatch` | script/index.js:81-89 | Returns the first line, in table order, that lies wholly inside the positions. `None` means that no line does. |
| `GameFlow.FirstMatchFindsWin` | script/index.js:81-89 | The search finds a line exactly when some line of the table is contained in the positions. |
| `GameFlow.FewerThanThreeNoWin` | script/index.js:67-89 | Positions with fewer than three distinct elements never win. |
| `GameFlow.Toggled` | script/index.js:100 | The new mode differs from the old one (with two modes, this determines it). |
| `GameFlow.ToggleTwice` | script/index.js:98-101 | Changing the opponent twice restores the original mode. |
| `GameFlow.ContainsIsOwns` | script/index.js:83 | Testing a line against a mark's position list is the same as checking that the mark holds every cell of the line. |
| `Rounds.Judge` | script/index.js:128-131 | A reported winning line is an index into the table of winning lines. What each outcome means is stated by `JudgeMeaning`. |
| `Rounds.JudgeMeaning` | script/index.js:128-143 | A win is reported exactly when the mover owns a whole line, and the reported line is the first in table order. A tie is reported exactly when the mover owns no line and no cell is empty. Otherwise play continues. |
| `Rounds.EmptyNoLine` | script/index.js:5-7 | An empty board (new, or reset at the end of a round) has no line of either mark. |
| `Rounds.PlaceKeepsNoLine` | script/index.js:128-131 | On a board where no mark owns a line, a placement that does not win leaves a board where no mark owns a line. The mover owns none, and the other mark's cells are unchanged. |
| `Rounds.TieMeansNoLine` | script/index.js:128-129 | On a board where no mark owned a line, a placement judged a tie leaves no empty cell and no line of either mark. |
| `Rounds.SettleKeepsNoLine` | script/index.js:128-131 | Resolving a placement on a board without lines gives a board without lines: the placed board on continue, an empty board once the round is over. |
| `Rounds.CreditTies` | script/index.js:159-161 | The loop over the current preset gives the first n players of the mode one more tie and leaves every other entry as it was. |
| `Rounds.Award` | script/index.js:152-162 | On a win, only the winner's win counter rises, by one. On a tie, both players of the current mode get one more tie. No lose counter changes, and the other mode's players are untouched. |
| `Rounds.Settle` | script/index.js:128-131 | The board keeps its size and the scoreboard keeps its four entries. Settling a placement keeps the placed board and advances the turn on continue. On a win it empties the board, resets the turn, `Award`s the mover's index (turn parity) and records the line. On a tie it empties the board, resets the turn and `Award`s a tie. |
| `Session.GameSession.constructor` | script/index.js:5-77 | A new session has an empty board, turn 0, one-player mode, no recorded line and all counters at 0. It waits for the first click (`AtRest()`). |
| `Session.GameSession.ResetBoard` | script/index.js:7 | Every cell is empty afterwards. |
| `Session.GameSession.AddMark` | script/index.js:9 | Sets the cell at `pos` to the mark. Every other cell is unchanged. |
| `Session.GameSession.EmptyCells` | script/index.js:11-12 | Returns exactly the indices of the empty cells. They are in increasing order by `IndicesOrdered`. |
| `Session.GameSession.MarkPositions` | script/index.js:14-20 | The loop returns exactly the indices holding the mark, in increasing order (the list `IndicesOf` specifies). |
| `Session.GameSession.PlayersOf` | script/index.js:52 | Each preset has two distinct players: "x" first, "o" second. Only the one-player preset's second player is an AI. |
| `Session.GameSession.CurrentPlayer` | script/index.js:53 | Always one of the mode's two players. It is the "x" player on even turns and the "o" player on odd ones. The computer moves only on odd turns of one-player mode. |
| `Session.GameSession.SwitchTurn` | script/index.js:54 | The turn goes up by one, so its parity, and with it the current player, changes. |
| `Session.GameSession.StartOver` | script/index.js:55 | The turn is 0 afterwards. |
| `Session.GameSession.CheckWin` | script/index.js:81-89 | Returns true exactly when some line is contained in the positions. On true, the first such line in table order is recorded. On false, the record is untouched. |
| `Session.GameSession.EndGame` | script/index.js:93-96 | The board is all empty, the turn is 0 and the invariant holds. |
| `Session.GameSession.ChangeOpponent` | script/index.js:98-101 | Same as `EndGame`, and the mode is switched to the other one. The game then waits for a click (`AtRest()`). |
| `Session.GameSession.HasPlayerWon` | script/index.js:136-139 | True exactly when the mark owns a whole line of the board. The first such line is recorded. |
| `Session.GameSession.IsBoardFull` | script/index.js:141-143 | True exactly when no cell is empty. |
| `Session.GameSession.GameOver` | script/index.js:152-166 | The scoreboard becomes `Award` of the old one (winner's win +1, or a tie for both players of the mode). No lose counter changes. The board is emptied, the turn reset and the recorded line kept, and the invariant holds. |
| `Session.GameSession.Resolve` | script/index.js:128-131 | The win check comes before the full-board check, and the outcome is `Judge` of the board. The new state is `Settle` of the old one: a finished round is scored and reset, otherwise only the turn changes, by one. No lose counter changes. |
| `Session.GameSession.Proceed` | script/index.js:129-131 | After a placement that won nothing, the result is a tie exactly when the empty-cell list is empty, and play continues otherwise. A tie is scored and reset. On continue the board still has an empty cell and the turn goes up by one. The new state is `Settle` of the old one, and no lose counter changes. |
| `Session.GameSession.Move` | script/index.js:117-131 | The current player's mark goes on the chosen empty cell, and the outcome is `Judge` of that board. The new state is `Settle` of the old one with that board. On continue, the board is the old board plus that one mark (with an empty cell left), the turn is one higher, and scores and recorded line are unchanged. On a win or tie, the board is empty, the turn is 0 and the scores are `Award`ed. No lose counter ever changes. |
| `Session.GameSession.DisplayMark` | script/index.js:117-134 | The computer answers exactly when the mode is one-player and the human's move left the round open. Its cell was empty before the click and differs from the human's cell, and its outcome is judged on the board with both marks. Without an answer, the new state is `Settle` of the human's placement. With one, it is `Settle` of the computer's placement applied to the state the human's continued move left. The game is waiting for a click again afterwards (`AtRest()`, so still no line of either mark on the board), and no lose counter has changed. |
| `Session.GameSession.PlayAiTurn` | script/index.js:145-150 | Called on the human's continued move, so the board is not full and holds no line. The computer's cell is an element of the empty-cell list, and the outcome is judged with its "o" on that cell. The new state is `Settle` of that placement: on a win the computer's win counter rises and the line is recorded, on a tie both one-player players get a tie, and otherwise the turn passes back to the human. No lose counter changes. |

## Left out

- Rendering (`renderCells`, `renderScore`, `endGameAnimation`, `restartGame`) and the `document.querySelector` bindings are left out. They are user-interface code, and the core state does not depend on them.
- The wait for the CSS animation (`animationEnded`) and the `hasAnimationEnded` latch are left out. A move is modelled as one atomic step taken while the latch is open. Clicks during an animation and a mode change in the middle of a move are therefore not modelled.
- The click and toggle event listeners are left out. `DisplayMark` and `ChangeOpponent` stand for the handlers they call.
- `Math.random` is replaced by a nondeterministic choice of an index into the empty-cell list. Its distribution is not modelled.
- `setPlayer` is never called in the game, so the players' names, marks and AI flags are constants.
- `getComb`, `getCurrentMode` and `getPlayers` only read state. They are the fields `winningCombination` and `currentMode` and the function `PlayersOf`.
- Session.GameSession.AddMark: JavaScript would grow the array for an index outside 0..8, which no caller passes. The model requires `pos < 9`.
- Session.GameSession.Move: the source does not check that the clicked cell is empty. Emptiness is a precondition of `Move` and `DisplayMark`, not behaviour the code enforces.
- Session.GameSession.PlayAiTurn: the source calls `displayMark` for the computer's cell, and the model calls `Move`. In that call the current player is the computer, so `displayMark`'s `!isAI` branch cannot fire and the two agree.
- Session.GameSession.GameOver: the winner is passed as its index in the current preset (the current turn's parity), not as the player object.
- The scoreboard keeps separate counters per mode, as the two presets do, and changing the opponent never clears them.

# Tic-tac-toe game engine

A Dafny model of the game engine of a browser tic-tac-toe game (`script.js`): the nine-cell
board, the win and draw tests over the eight fixed lines, the computer opponent's three
levels (a random empty cell; the first cell that wins at once, else random; full minimax
search), and the controller that holds the board, the player to move, whether the game is on,
the scoreboard, the mode and the difficulty.

Modules:

- `Optional`: the `Option` type, standing for the `null` / `undefined` that the move searches
  return when they find nothing.
- `Board`: cells, the board (a sequence of nine cells), the line table, `CheckWin`, the lines
  a player owns, fullness, and the list of empty cells.
- `Strategy`: the three levels as functions, and the game's own in-place searches
  (`Minimax`, `FindBestMove`) as methods over the board array. Each search marks a cell, looks
  deeper, and clears the cell again. Each method is proved to compute the matching function
  and to hand the array back unchanged.
- `Session`: the controller's variables as one value, and one function per event: click,
  computer move, end of game, new game, reset, mode and difficulty buttons. It also holds the
  invariant every session keeps, with its proofs.
- `Controller`: class `Game`, whose fields are the page's global variables and whose methods
  are its handlers. Each event handler is proved to change the fields exactly as the
  `Session` function for the same event does; `Place` is proved to write exactly one cell.

The random number the easy and medium levels draw is a `pick: nat` supplied by the caller.
The chosen cell is `EmptyCells(b)[pick % |EmptyCells(b)|]`, and every empty cell is the
choice for some `pick`. The 500 ms delay before the computer answers is left out: the computer
moves straight after the human's move, inside `HandleCellClick`, when the computer plays, it is
O's turn and the game is still on. The search's `-Infinity` and `Infinity` are the integers
-1000 and 1000. `Strategy.ScoreBounds` shows that every score is within [-10, 10] on every
position a game can reach, so these stand-ins never win a comparison there.

Where a description of the game and the code differ, the model follows the code:

- `checkWin` answers only yes or no. It does not return the first matching line. The highlighting marks every line the winner owns (`WinningLines`).
- A click is checked only for a game in progress and an empty cell. It is never checked for being the human's turn.
- After the computer's move the turn is set to X outright; it is not flipped.
- The medium level does not block the opponent's threats (`GreedyDoesNotBlock`).

## Model

| member | source | states |
|---|---|---|
| `Board.CheckWinIff` | script.js:101-108 | `CheckWin(b, p)` holds exactly when one of the rows 0-1-2, 3-4-5, 6-7-8, the columns 0-3-6, 1-4-7, 2-5-8 or the diagonals 0-4-8, 2-4-6 has all three cells marked `p` |
| `Board.WinningLines` | script.js:110-121 | the line numbers `p` owns, ascending, each listed exactly when all its cells hold `p`; the list is non-empty exactly when `CheckWin(b, p)` |
| `Board.WinningLinesFrom` | script.js:116-120 | the same for the lines from number `k` on; non-empty exactly when some line from `k` on is owned |
| `Board.EmptyCells` | script.js:59 | the indices of the empty cells, strictly ascending, each empty index present; empty exactly when the board is full |
| `Board.EmptyFrom` | script.js:78 | the empty indices from `i` on, strictly ascending, each one present |
| `Board.EmptyCount` | script.js:156 | the number of empty cells is at most 9 and is 0 exactly when every cell is marked |
| `Board.PlaceCounts` | script.js:49-50 | marking an empty cell removes one empty cell, adds one mark of the placing player and leaves the other player's count unchanged |
| `Board.PlaceKeepsOtherWin` | script.js:35-37 | placing one player's mark never completes a line for the other player |
| `Board.EmptyBoardFacts` | script.js:17 | the new board has nine empty cells, no marks and no line for either player |
| `Strategy.RandomMove` | script.js:77-80 | the random choice is `None` exactly on a full board, and otherwise an empty cell |
| `Strategy.RandomMoveCovers` | script.js:59-60 | every empty cell is the random choice for some draw |
| `Strategy.FirstWinFrom` | script.js:139-149 | the scan from `i` returns the first cell at or after `i` where `p` wins at once; `None` only when no cell from `i` on wins at once |
| `Strategy.GreedyMove` | script.js:139-149 | the medium choice is the smallest empty index where `p`'s mark completes a line, or `None` if there is none |
| `Strategy.GreedyDoesNotBlock` | script.js:61-62 | on X X _ / O O _ / _ _ _ the medium level takes its own win at 5 and leaves X's threat at 2 open |
| `Strategy.BestChildExtremum` | script.js:158-180 | the loop of one search layer ends with the maximum (O's layer) or minimum (X's layer) of its start value and the scores of the children it visits, and equals one of them |
| `Strategy.ScoreBounds` | script.js:153-156 | when `0 <= depth` and `depth` plus the empty cells is at most 20, the minimax score lies in [-10, 10] |
| `Strategy.BestChildBounds` | script.js:158-180 | the fold of a layer stays in [-10, 10] unless it saw no empty cell and kept its infinite start value |
| `Strategy.ScoreIsMinimax` | script.js:153-181 | on an unfinished board, the score is at least (O's layer) or at most (X's layer) the score of every child, and equals the score of one child |
| `Strategy.RootScannedStep` | script.js:131-134 | one step of the root loop keeps "best so far, first seen wins ties" |
| `Strategy.BestMoveFromSpec` | script.js:124-137 | the root loop from any consistent intermediate state ends with the lowest empty cell of greatest score, or `None` only if no cell is empty |
| `Strategy.HardMoveSpec` | script.js:124-137 | the hard choice is `None` exactly on a full board; otherwise it is an empty cell of greatest minimax score, and every empty cell below it scores strictly less |
| `Strategy.Minimax` | script.js:153-181 | the in-place search returns the minimax score of the board it was given and leaves the array exactly as it found it |
| `Strategy.FindBestMove` | script.js:123-151 | the in-place move search returns the hard or the medium choice for the board it was given and leaves the array exactly as it found it |
| `Session.NewGame` | script.js:16-19 | a new game has an empty board, X to move and the game on; the scores and settings are kept |
| `Session.Start` | script.js:219-223 | the page starts with zero scores, two-player mode, easy level and a new game |
| `Session.ResetScores` | script.js:185-189 | resetting sets all three counters to 0 and starts a new game with X to move; the settings are kept |
| `Session.ChooseMode` | script.js:197-210 | a mode button sets the mode and starts a new game; scores and difficulty are kept |
| `Session.ChooseDifficulty` | script.js:213-217 | a difficulty change sets the level and nothing else |
| `Session.EndGame` | script.js:82-98 | ending stops the game and raises exactly one counter by one: draws on a draw, otherwise the counter of the player to move |
| `Session.Settle` | script.js:35-46 | after a placement: a line for the mover is exactly `EndGame` as a win (the mover stays the current player); otherwise a full board is exactly `EndGame` as a draw; otherwise the turn passes and the scores stay |
| `Session.CpuChoice` | script.js:56-65 | the computer's cell is empty; on easy it is the random choice for `pick`; on medium it is the lowest cell that wins at once when some cell does, and otherwise the random choice; on hard it is the lowest empty cell of greatest minimax score |
| `Session.ComputerMove` | script.js:56-74 | O goes on exactly the cell `CpuChoice` picks and no other cell changes; a line for O ends the game, keeps O as the current player and adds one to O's wins; otherwise a full board ends it, keeps O as the current player and adds one draw; otherwise X is to move, the game goes on and the scores stay; the settings are kept |
| `Session.Click` | script.js:31-47 | a click on a finished game or an occupied cell changes nothing at all; otherwise the clicked cell gets the mover's mark and the outcome is settled; in two-player mode no other cell changes; the computer answers exactly when it plays, X has just moved and neither won nor filled the board, and then O goes on the `CpuChoice` cell of the new board |
| `Session.ClickScoring` | script.js:82-98 | a click moves the total score by one exactly when it ends a game, and by zero otherwise; no counter decreases |
| `Session.SettleConsistent` | script.js:34-46 | a legal placement by the player to move keeps the session invariant |
| `Session.ClickConsistent` | script.js:31-75 | a click, with the computer reply it may trigger, keeps the session invariant: no double win; while a game is on, no line, an empty cell, and X's mark count is O's plus one exactly when O is to move |
| `Session.ControlsConsistent` | script.js:184-217 | page load, new game, reset and the mode and difficulty buttons keep the invariant |
| `Session.NoDoubleWin` | script.js:31-47 | from any consistent session, a click never leaves both X and O with a line |
| `Controller.Game.constructor` | script.js:219-223 | the object starts in the `Session.Start` state |
| `Controller.Game.Init` | script.js:16-19 | a new empty board array, X to move, game on; other fields unchanged |
| `Controller.Game.Place` | script.js:49-50 | the cell now holds the mark; the other eight cells are unchanged |
| `Controller.Game.EndGame` | script.js:82-98 | the fields change as `Session.EndGame` says |
| `Controller.Game.CpuMove` | script.js:56-75 | the fields change as `Session.ComputerMove` says, the searches having run on the board array itself |
| `Controller.Game.HandleCellClick` | script.js:31-47 | the fields change as `Session.Click` says, including the computer's reply |
| `Controller.Game.ResetScores` | script.js:185-189 | the fields change as `Session.ResetScores` says |
| `Controller.Game.SelectPlayerVsPlayer` | script.js:197-203 | the fields change as `Session.ChooseMode(_, false)` says |
| `Controller.Game.SelectVsCpu` | script.js:204-210 | the fields change as `Session.ChooseMode(_, true)` says |
| `Controller.Game.SetDifficulty` | script.js:213-217 | the fields change as `Session.ChooseDifficulty` says |

## Left out

- Rendering is not modelled: cell contents and classes, status texts, score texts, the win highlighting on the page, and the building of the cell elements in `init`. `WinningLines` gives the lines the highlighting would mark.
- Event-listener wiring, the theme toggle, and the button styling of the mode selection. Only the assignments to the mode and the difficulty are kept.
- The 500 ms `setTimeout` before the computer moves. The computer moves at once inside `HandleCellClick`. So the model does not cover what the delay lets happen in between. A click during the delay is accepted, because `handleCellClick` only checks that the game is on and the cell is empty, and it then places O for the human. A new game during the delay is followed by the pending computer move on the fresh board.
- `Math.random`. A caller-supplied `pick` takes its place, reduced modulo the number of empty cells.
- The string-typed cell index from the page; the model takes a `nat` below 9.
- Controller.Game.CpuMove: requires O to move and a board with an empty cell, which its only caller guarantees. On a full board the source would fail inside `place` at an `undefined` index, and the model does not cover that.
- Strategy.Score: `-Infinity` and `Infinity` are -1000 and 1000. The model matches the source wherever `ScoreBounds` applies, which covers every position reachable in a game.
- Strategy.HardMoveSpec: the game-tree facts that need the whole tree to be evaluated are not proved: the hard level answering a corner opening with the centre, Hard against Hard ending in a draw, and the hard level never losing. Proving them would mean evaluating up to 9! positions inside the verifier.

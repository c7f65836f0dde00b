# Tic-tac-toe game logic in Dafny

A model of the game logic of a React tic-tac-toe app (`src/App.js`), without the rendering.
Two players take turns marking a 3×3 board. A move is refused once the board has a winner or
when the square is already taken. Every move appends a board snapshot to a history. The player
can jump back to any step, and a new move made there discards the steps after it. A "Toggle
Sort" button flips the order in which the history list is shown.

Modules, following the components of the source:

- `Marks` (`marks.dfy`): squares, players, nine-square boards and mark counts.
- `Winner` (`winner.dfy`): `calculateWinner`. `Detect`/`FirstWin` is the reference scan over
  the eight lines. `CalculateWinner` is the source's loop with its early return, proved equal
  to that scan. The winning line is returned as a value instead of being written into a React ref.
- `SquareStyle` (`square.dfy`): the `Square` highlight choice and the two flags the board gives
  each square.
- `BoardPanel` (`board.dfy`): `handleClick`, modelled as a method that copies the board into a
  fresh array and fills one square, plus the status-line precedence.
- `Play` (`play.dfy`): `WellPlayed`, the invariant of the state that `handleClick` and
  `handlePlay` build. It says the history starts at the empty board and each board is the one
  before it plus one legal move, recorded in `movesHistory`. The module also has the lemmas
  this invariant implies.
- `GameState` (`game.dfy`): the `Game` component as a class. Its fields are `history`,
  `movesHistory`, `currentMove` and `sortAscending`, and `handlePlay`, `jumpTo` and the sort
  toggle are its methods. `Click` wires `handleClick` to `handlePlay` the way `Game` renders
  `Board`. Also here: the derived values `xIsNext` and `lastMove`, and lemmas about what the
  player sees.
- `MoveList` (`movelist.dfy`): `movePosition`, the history-entry texts and the
  ascending/descending order.
- `Scenarios` (`scenarios.dfy`): three whole games stepped through the class, with the status
  text, the highlights and the history asserted along the way. One ends in a win and then branches
  after a jump back, one ends in a draw, and one ends in a double win on the ninth move.

Behaviour of the code worth knowing when reading the model:

- A move that completes two lines at once highlights only the first line in scan order
  (`Scenarios.DoubleWin`); the winning mark is the same either way (`Play.WinnersAgree`).
- The entry texts are "Go to game start", "Go to move #k (r,c)" and "You are at move #k (r,c)".
  At step 0 the marker reads "You are at move #0 " with a trailing space.
- The draw status depends only on `currentMove === 9`, and a winner takes precedence.
  `GameState.StatusShown` proves this equals "no winner and a full board" on every reachable
  state.

## Model

| member | source | states |
|---|---|---|
| `Winner.FirstWinSpec` | src/App.js:189-197 | the scan from line k reports a winner iff some line at or after k is filled with one mark; the line it reports is the first such line and the mark is the one on it; with no winner the line is empty |
| `Winner.DetectSpec` | src/App.js:178-198 | `calculateWinner` returns a mark iff one of the eight triples holds three equal non-empty squares; the reported line is the first such triple in list order and all three of its squares hold the returned mark; otherwise null and an empty line |
| `Winner.CalculateWinner` | src/App.js:178-198 | the loop with early return produces exactly the result of the reference scan `Detect` (winner and line) |
| `SquareStyle.SquareHighlight` | src/App.js:7-13 | the winning style is chosen iff the square is highlighted; the last-move style only when it is not highlighted but just moved |
| `SquareStyle.BoardHighlights` | src/App.js:49-58 | nine squares; a square is winning-styled iff it lies on the line `calculateWinner` reports; it is last-move-styled iff it is the last move and not on that line; a board with no winner has no winning-styled square |
| `BoardPanel.HandleClick` | src/App.js:24-34 | the click yields no board iff the square is taken or the board has a winner; otherwise the new board equals the old one except at `i`, which holds X when `xIsNext` and O otherwise; the old board is untouched (the change is made on a fresh copy) |
| `BoardPanel.StatusOf` | src/App.js:36-44 | status precedence: a winner gives the win status with that mark; otherwise `noMoreMoves` gives a draw; otherwise the next player is X iff `xIsNext` |
| `BoardPanel.StatusTextDistinct` | src/App.js:38-44 | two statuses with the same text are the same status: the three texts never collide and each names its mark |
| `Play.NextMovesHistory` | src/App.js:109-111 | the rebuilt move list keeps its length; slots below the current step are unchanged, the slot of the current step holds the square played, and every later slot is null, so the abandoned branch is discarded |
| `Play.MarkCounts` | src/App.js:24-32 | along legal plays, board k holds ceil(k/2) X's, floor(k/2) O's and 9-k empty squares |
| `Play.HistoryBound` | src/App.js:99-115 | a history built by legal plays never holds more than ten boards |
| `Play.FullIffNine` | src/App.js:161 | board k is full exactly at k = 9, so `currentMove === 9` means the board is full |
| `Play.NeverCleared` | src/App.js:26-32 | along a branch a filled square keeps its mark in every later board |
| `Play.WinThroughLastMove` | src/App.js:24-25 | every winning line on board k > 0 passes through the square played last and carries the mark of the player who played it |
| `Play.WinnersAgree` | src/App.js:189-197 | on any board of the history all winning lines carry the same mark, so the scan order changes only which line is reported, not the winner |
| `Play.Extend` | src/App.js:107-115 | a legal click on board `currentMove` comes before the ninth move, and the truncated history plus the new board, with the rewritten move slots, is again well played |
| `GameState.Game.constructor` | src/App.js:99-102 | one empty board, nine unset move slots, step 0, ascending order; the invariant holds |
| `GameState.Game.HandlePlay` | src/App.js:107-115 | the history becomes the first `currentMove+1` boards plus the new board (length `currentMove+2`); the move slots become `NextMovesHistory` of the old ones (slots below `currentMove` kept, slot `currentMove` holds the played square, later slots null, length unchanged); `currentMove` grows by one; the sort flag is unchanged |
| `GameState.Game.JumpTo` | src/App.js:117-119 | only `currentMove` changes, to the target step; history, move slots and sort flag are unchanged and the invariant still holds |
| `GameState.Game.ToggleSort` | src/App.js:168 | only `sortAscending` changes, to its negation |
| `GameState.Game.Click` | src/App.js:24-34 | a click is played iff the current square is empty and the current board has no winner; an ignored click changes nothing; a played click cuts the history after the current step, appends the current board with the square filled by the current step's mark, rewrites the move slots and advances the step, and the invariant is kept |
| `GameState.TurnParity` | src/App.js:103 | `xIsNext` (even step) holds iff the current board holds as many X's as O's, and the mark placed is the one of the current step |
| `GameState.LastMoveIsLastPlaced` | src/App.js:105 | `lastMove` is set iff `currentMove > 0`, and it names the square that was empty on the previous board and holds the previous mover's mark on the current one |
| `GameState.StatusShown` | src/App.js:36-44 | in a reachable state the status is a win iff the board has a winner, a draw iff there is no winner and the board is full, and otherwise names the player to move, X iff X and O counts are equal; the text shown is "Winner: " and the winning mark, "It's a draw!", or "Next player: " and that player |
| `GameState.WonBoardHighlights` | src/App.js:7-13 | on a won board the last-moved square lies on the reported line and is winning-styled, and no square is last-move-styled |
| `MoveList.Decimal` | src/App.js:131 | a step number is rendered as a non-empty string of decimal digits, one digit exactly for numbers below ten |
| `MoveList.DecimalRoundTrip` | src/App.js:131 | the decimal text of a number reads back as that number |
| `MoveList.PositionRoundTrip` | src/App.js:121-125 | `movePosition(m)` is "(row,col)" with row = m div 3 + 1 and col = m mod 3 + 1, both in 1..3, and it reads back as `m` |
| `MoveList.Moves` | src/App.js:127-149 | one entry per history step; an entry is the plain current-step marker iff it is the current step; every other entry jumps to its own step |
| `MoveList.FirstEntry` | src/App.js:127-149 | entry 0 is a jump button reading "Go to game start" unless step 0 is current, in which case it is the marker "You are at move #0 " |
| `MoveList.EntryNamesMove` | src/App.js:127-149 | in a reachable state the entry of every step k > 0 reads "Go to move #" (or "You are at move #" when k is current), then digits that parse back to k, a space, and the position of the square played to reach board k; that square was empty on board k-1 and holds the mover's mark on board k |
| `MoveList.ReverseSpec` | src/App.js:152 | reversing keeps the length and the elements and puts element k at position n-1-k |
| `MoveList.OrderedSpec` | src/App.js:152 | ascending order shows the entries in step order; descending shows them reversed; both show the same entries |

## Left out

- Rendering: JSX, DOM, CSS style objects, `<ol>/<li>/<button>` markup and React keys (src/App.js:46-62, 135-147, 154-175). Only the computed values are modelled: status, highlight choice, entry texts and list order.
- React hooks: `useState` updates are asynchronous and batched. The model assigns the fields atomically inside one method. The `winningSquares` ref (src/App.js:22) is replaced by the line that `Detect`/`CalculateWinner` return. The ref writes made as a side effect of the call in `handleClick` are dropped, because rendering recomputes them.
- The commented-out board layouts and sort (src/App.js:63-93, 151) are dead code.
- `moves.reverse()` reverses the freshly built list in place. `MoveList.Ordered` returns the reversed sequence instead.
- `GameState.Game.JumpTo`: requires that the target step exists. The source does not check this, but it renders jump buttons only for recorded steps.
- `GameState.Game.HandlePlay`: requires `currentMove` to be inside the history, which always holds between events. It does not check that the new board follows from the current one, and neither does the source. `Click` is the operation that keeps `WellPlayed`.
- `GameState.LastMove`, `MoveList.Description`, `MoveList.MarkerText` and `MoveList.Moves`: require the step to lie within the nine move slots. On reachable states this always holds (`Play.HistoryBound`). The source would read `undefined` otherwise.
- `MoveList.SlotNumber`: a `null` move slot is read as square 0, the way JavaScript arithmetic treats `null`. On reachable states every slot that a label reads is set (`MoveList.EntryNamesMove`).
- `GameState.LastMove` returns `None` both for the source's `-1` at step 0 and for an unset slot. The only use of the value is a comparison with a square index, and neither value matches one.
- Marks are a datatype, not the strings "X"/"O". The source's truthiness test on a square is the test for `Empty`.

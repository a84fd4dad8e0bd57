# Checkers rule engine

A Dafny model of the game rules of a two-player checkers game (`main.cpp`):
an 8x8 board of cells holding `'o'` (player 1), `'x'` (player 2) or `' '`
(empty); the opening layout; the two legality predicates for a normal move
and a capture; the capture and move executors; piece counting; the click
state machine that selects a piece and then moves it; and the win check with
its restart.

- `board.dfy`, module `Board`: the cell type, the board array and its
  row-major value view (`Cells`), the opening layout (`InitializeBoard`,
  `InitialGrid`) and counting (`CountPieces`, specified by `CountOf`).
- `rules.dfy`, module `Rules`: `IsValidMove`, `IsCaptureMove`, the
  capture executor `CapturePiece` (specified by `Captured`), the normal move
  (`Moved`), and what each does to the cells and to the piece counts.
- `game.dfy`, module `Game`: the click transition `Click` over a
  `GameState` (board, turn, selection), the win check `Winner`, and the class
  `Game`, which holds the board array, `player1Turn`, `selectedX` and
  `selectedY` and whose methods `HandleClick`, `Restart` and `CheckWinner` are
  proved to follow `Click` and `AfterWinCheck`.

The board is an `array2<Cell>` updated in place, as in the source. The two
legality predicates only read it, so they are functions of its value
`Cells(board)`, a sequence of 64 cells with cell (x, y) at position 8x + y.
Piece counts are specified by a left-to-right count `CountOf`, proved equal
to the multiplicity of the piece in the multiset of cells.

`isCaptureMove` never checks the column distance of a jump (the column delta
is computed and then unused). The model keeps this: `IsCaptureMove` accepts
any destination two rows forward whose integer midpoint holds an opponent
piece. `Rules.CaptureCanLeaveDarkSquares` shows a consequence: from (2, 3)
over an `'x'` on (3, 2) to (4, 2) is accepted, and it puts a piece on a light
square, which no normal move can do (`Rules.MoveKeepsDarkSquares`). Pieces
do leave their starting rows: nothing keeps rows 3 and 4 empty
(`Rules.OpeningMoveLeavesStartRows`).

## Model

| member | source | states |
|---|---|---|
| `Board.InitializeBoard` | main.cpp:17-50 | afterwards the board is the opening layout, whatever it held before, so a second call yields the same board |
| `Board.InitialGrid` | main.cpp:27-49 | cell (i, j) holds `'o'` iff i < 3 and i + j is odd, `'x'` iff i >= 5 and i + j is odd, and is empty otherwise |
| `Board.InitialCounts` | main.cpp:17-50 | the opening layout holds 12 `'o'`, 12 `'x'` and 40 empty cells |
| `Board.CountOf` | main.cpp:101-112 | the number of cells holding a type never exceeds the number of cells |
| `Board.CountIsMultiplicity` | main.cpp:101-112 | the count equals the multiplicity of the type among the cells |
| `Board.CountsPartition` | main.cpp:101-112 | the counts of empty, `'o'` and `'x'` cells add up to the number of cells |
| `Board.CountZeroIffAbsent` | main.cpp:101-112 | a count is zero exactly when no cell holds the type |
| `Board.CountPieces` | main.cpp:101-112 | the nested loops return the number of cells holding the type, which lies in [0, 64] |
| `Rules.IsValidMove` | main.cpp:53-66 | true iff the destination is on the board and empty, the row delta is +1 on player 1's turn and -1 on player 2's, and the column distance is 1 |
| `Rules.NoBackwardMoves` | main.cpp:58-63 | a step one row backwards is never a normal move, two rows backwards never a capture |
| `Rules.IsCaptureMove` | main.cpp:69-88 | true iff the destination is on the board and empty, the row delta is +2 for player 1 and -2 for player 2, and the cell one row forward in the midpoint column holds the opponent's piece; the column distance is unconstrained |
| `Rules.MovesExclusive` | main.cpp:53-88 | no destination is both a capture and a normal move |
| `Rules.CapturePiece` | main.cpp:91-98 | the array after the three writes is `Captured` of the array before |
| `Rules.CaptureEffect` | main.cpp:91-98 | after a two-row capture the midpoint and the source are empty, the destination holds the source's piece, every other cell is unchanged |
| `Rules.CaptureCounts` | main.cpp:69-98 | a capture accepted by isCaptureMove lowers the opponent's count by exactly one and leaves the mover's count unchanged |
| `Rules.MoveEffect` | main.cpp:139-140 | after a normal move the source is empty, the destination holds the source's piece, every other cell is unchanged |
| `Rules.MoveKeepsCounts` | main.cpp:137-141 | a normal move accepted by isValidMove changes no piece count |
| `Rules.OpeningMoveLeavesStartRows` | main.cpp:53-66 | from the opening layout player 1 may step from row 2 into row 3, so rows 3 and 4 do not stay empty |
| `Rules.InitialOnDarkSquares` | main.cpp:27-49 | every piece of the opening layout stands on a square with i + j odd |
| `Rules.MoveKeepsDarkSquares` | main.cpp:53-66 | a normal move keeps every piece on a square with i + j odd |
| `Rules.CaptureCanLeaveDarkSquares` | main.cpp:74-84 | a capture one column sideways is accepted and puts a piece on a square with i + j even |
| `Game.InitialState` | main.cpp:278-282 | the starting state (opening layout, player 1 to move, no selection) satisfies the selection invariant |
| `Game.Click` | main.cpp:121-158 | a click keeps the invariant: no selection, or a selected on-board cell holding a piece of the player to move |
| `Game.OffBoardClickIgnored` | main.cpp:121 | a click off the board changes nothing at all |
| `Game.ClickWithoutSelection` | main.cpp:153-157 | with no selection the board and turn stay as they were, and (x, y) becomes the selection exactly when it holds a piece of the player to move |
| `Game.ClickWithSelection` | main.cpp:126-152 | with a selection the selection is reset to (-1, -1), the turn flips iff a capture or normal move was applied, a capture is tried before a normal move, and a normal move puts the mover's piece on the destination and empties the source (the board is `Moved` of the old one) |
| `Game.TurnPassesIffBoardChanges` | main.cpp:128-148 | the turn flips exactly when the board changes, exactly when a capture or normal move was applied |
| `Game.ClickCounts` | main.cpp:130-142 | a click never changes the mover's count and lowers the opponent's count by one exactly when it applies a capture |
| `Game.Winner` | main.cpp:303-312 | player 2 wins iff no `'o'` remains (tested first); player 1 wins iff some `'o'` and no `'x'` remain; otherwise the game goes on |
| `Game.InitialInProgress` | main.cpp:278-282 | a fresh game is not won |
| `Game.AfterWinCheck` | main.cpp:303-321 | a won game is replaced by the starting state, which is not won; any other state is kept |
| `Game.Game.constructor` | main.cpp:278-282 | the game starts with the opening layout, player 1 to move and no selection |
| `Game.Game.HandleClick` | main.cpp:115-158 | the new board, turn and selection are `Click` of the old ones |
| `Game.Game.Restart` | main.cpp:307-310 | the board is re-initialised, player 1 is to move and the selection is (-1, -1) |
| `Game.Game.CheckWinner` | main.cpp:303-321 | returns `Winner` of the board and leaves the state `AfterWinCheck` of the old one |

## Left out

- `displayBoardSFML` (main.cpp:162-240): drawing squares, pieces and highlights; it only calls the two legality predicates already modelled.
- `displayWinMessage` (main.cpp:243-273): font loading and a blocking wait for a click; the model takes the win message as acknowledged, so a won game always restarts.
- The window, the event loop and `main` (main.cpp:276-333): input and output plumbing; the model exposes one click (`HandleClick`) and one win check (`CheckWinner`) per call.
- The conversion of the mouse position in pixels to a board cell (main.cpp:117-119): it reads the mouse and divides floats; `HandleClick` takes the row and column directly.
- The `isSelected` field of `Piece` (main.cpp:13): never read or written. A cell is modelled by its type alone, as the enumeration `Cell` of the three characters the program writes.
- Rules.IsCaptureMove: requires the source cell to be on the board; the C code would index outside the array for some off-board sources, and its callers always pass the selected cell.

# 2048 game engine — a Dafny model

This project models the game engine of the 2048 mini-app. The engine is the
top of `mini-app/components/2048-game.tsx`: the board helpers (`emptyBoard`,
`addRandomTile`, `cloneBoard`, `transpose`, `reverseRows`), the row rule
`slideAndMerge`, the four-direction `move`, and the state logic of the
`Game` component (its initial state, `updateScore`, `checkGameOver` and
`handleMove`).

A board is a `seq<seq<int>>` of SIZE (4) rows of SIZE cells; 0 is an empty
cell. The model follows the source's own form:

- `Grid` holds the board shape, sums and tile counts, the terminal test, and
  the orientation changes `Transpose`, `ReverseRows` and `CloneBoard`. These
  are pure functions, with lemmas proving that they are involutions and keep
  sums and tile counts.
- `Line` models `slideAndMerge`. The method `SlideAndMerge` keeps the
  source's `for` loop with its `skip` flag and its padding `while` loop. It
  is proved equal to the specification function `Slide`:
  compact (`Compact`), merge adjacent equal pairs once, left to right
  (`MergePairs`), then pad with zeros (`PadZeros`). Lemmas about `Slide`
  prove that the sum is kept, that the tile count drops by the number of
  merges, and when a row is left unchanged. `MergePairsBlocks` proves, for
  every row, that the merge scan cuts the tiles into consecutive blocks of
  one tile or two equal tiles, one block per output cell, so a merged tile
  is never merged again.
- `Moves` models `move` as orient, slide every row, then undo the
  orientation. It proves that a move keeps the board sum and never adds
  tiles. It also proves that a terminal board admits no move, and that a
  board holding a tile is terminal exactly when no direction changes it.
- `Spawning` models `emptyBoard` and `addRandomTile`. The method
  `AddRandomTile` keeps the source's nested loops that collect the empty
  cells. It is proved equal to the function `Spawn`, and lemmas prove that
  a spawn fills exactly one empty cell with a 2 or a 4.
- `GameState` models the `Game` component as a class `Game`. Its fields are
  `board`, `score`, `gameOver` and `won`. `UpdateScore` and `CheckGameOver`
  keep the source's loops. `HandleMove` is proved to keep the invariant
  `Valid()`: the board is 4×4, every cell is 0 or a power of two of at
  least 2, and `gameOver` says exactly whether the board is terminal.

The two random draws of `addRandomTile` are parameters of `Spawn`,
`AddRandomTile`, the constructor and `HandleMove`:

- `k` is the index into the list of empty cells.
- `two` is the outcome of the 90% test: true gives a 2, false a 4.

Three details of the code that the model keeps:

- The score starts at 0 (`useState(0)`, line 79), not at the sum of the two
  starting tiles. After the first accepted move it is the sum of all cells.
- `won` is set when some cell equals 2048 exactly (`flat().includes`,
  line 111), not when a tile reaches or exceeds it.
- `won` and `gameOver` are independent flags. Winning does not stop play.
  Once `gameOver` is set, every later move is ignored.

## Model

| member | source | states |
|---|---|---|
| Grid.CloneBoard | mini-app/components/2048-game.tsx:27-29 | the copy equals the board cell for cell, so `move` never changes its argument |
| Grid.Transpose | mini-app/components/2048-game.tsx:31-33 | the transpose of a rectangular board has one row per column, each as long as the board |
| Grid.Reverse | mini-app/components/2048-game.tsx:36 | a reversed row keeps its length |
| Grid.ReverseRows | mini-app/components/2048-game.tsx:35-37 | reversing the rows keeps the number of rows |
| Grid.TransposeTwice | mini-app/components/2048-game.tsx:31-33 | `transpose` of a non-empty rectangular board is rectangular, and transposing twice gives back the board |
| Grid.BoardSumTranspose | mini-app/components/2048-game.tsx:31-33 | transposing keeps the sum of all cells |
| Grid.TileCountTranspose | mini-app/components/2048-game.tsx:31-33 | transposing keeps the number of tiles |
| Grid.ReverseRowsTwice | mini-app/components/2048-game.tsx:35-37 | reversing every row twice gives back the board |
| Grid.BoardSumReverseRows | mini-app/components/2048-game.tsx:35-37 | reversing the rows keeps the sum of all cells |
| Grid.TileCountReverseRows | mini-app/components/2048-game.tsx:35-37 | reversing the rows keeps the number of tiles |
| Grid.BoardSum | mini-app/components/2048-game.tsx:84-89 | the sum of all cells, row by row |
| Grid.CellStuck | mini-app/components/2048-game.tsx:96-98 | the three tests of one cell: it is not empty and differs from its right and lower neighbours |
| Grid.IsTerminal | mini-app/components/2048-game.tsx:94-101 | every cell passes the three tests |
| Grid.NotTerminalWithRoom | mini-app/components/2048-game.tsx:96 | a board with fewer than 16 tiles has an empty cell and is not game over |
| Grid.DoubleIsTile | mini-app/components/2048-game.tsx:46 | doubling a tile gives a tile |
| Line.SlideAndMerge | mini-app/components/2048-game.tsx:39-54 | the loop with the skip flag, followed by the zero padding, computes `Slide(row)`: compact, merge each equal pair once from the left, pad to SIZE |
| Line.Compact | mini-app/components/2048-game.tsx:40 | the filtered row is no longer than the row and holds no zero |
| Line.CompactSum | mini-app/components/2048-game.tsx:40 | removing the zeros keeps the row sum |
| Line.CompactCount | mini-app/components/2048-game.tsx:40 | the filtered row has one entry per non-zero cell |
| Line.CompactConcat | mini-app/components/2048-game.tsx:40 | filtering distributes over concatenation |
| Line.MergePairs | mini-app/components/2048-game.tsx:43-51 | the skip-flag scan never lengthens the row |
| Line.Merges | mini-app/components/2048-game.tsx:45-47 | the number of pairs the skip-flag scan combines |
| Line.IsBlock | mini-app/components/2048-game.tsx:44-50 | one step of the scan: two equal tiles pushed as their double, or one tile, different from the next, pushed as it is |
| Line.BlockShift | mini-app/components/2048-game.tsx:43-44 | a block found after the scan has skipped `w` cells is a block of the whole row, `w` cells further on |
| Line.MergePairsBlocks | mini-app/components/2048-game.tsx:43-51 | for every row, the scan cuts the tiles into consecutive blocks of one tile or two equal tiles, one block per output cell in order, so no tile takes part in two merges |
| Line.MergePairsSum | mini-app/components/2048-game.tsx:43-51 | merging keeps the row sum |
| Line.MergePairsLength | mini-app/components/2048-game.tsx:43-51 | each merge shortens the row by one, and at most half the tiles merge |
| Line.MergePairsTiles | mini-app/components/2048-game.tsx:43-51 | merging produces no zero, and keeps every value a power of two |
| Line.MergePairsNoEqualNeighbours | mini-app/components/2048-game.tsx:45 | with no equal neighbours nothing merges and the row is kept |
| Line.MergesPositive | mini-app/components/2048-game.tsx:45-47 | two equal neighbours in the filtered row force a merge |
| Line.PadZeros | mini-app/components/2048-game.tsx:52 | padding brings a shorter row to exactly SIZE cells |
| Line.Slide | mini-app/components/2048-game.tsx:39-54 | a row of at most SIZE cells slides to exactly SIZE cells |
| Line.SlideSum | mini-app/components/2048-game.tsx:39-54 | sliding keeps the row sum |
| Line.SlideShape | mini-app/components/2048-game.tsx:39-54 | the tiles of the result are the merged filtered row, all at the front, and the zeros follow |
| Line.SlideCount | mini-app/components/2048-game.tsx:43-52 | the tile count drops by exactly the number of merges |
| Line.SlideNoMerge | mini-app/components/2048-game.tsx:40-52 | with no equal neighbours among the tiles, sliding only compacts the row |
| Line.SlideStuck | mini-app/components/2048-game.tsx:39-54 | a full row with no equal neighbours is left unchanged |
| Line.SlideMovesGap | mini-app/components/2048-game.tsx:40 | a row with a tile after an empty cell changes |
| Line.SlideMergesFull | mini-app/components/2048-game.tsx:45-47 | a full row with two equal neighbours changes |
| Line.SlideChangedHasRoom | mini-app/components/2048-game.tsx:39-54 | a row that changes ends with an empty cell |
| Line.SlideTiles | mini-app/components/2048-game.tsx:39-54 | sliding keeps every cell a legal tile value |
| Line.CompactTiles | mini-app/components/2048-game.tsx:40 | filtering keeps every cell a legal tile value |
| Line.MergeOnceExample | mini-app/components/2048-game.tsx:44-47 | [2,2,2,2] becomes [4,4,0,0], and a merged 4 does not merge again: [4,2,2,0] becomes [4,4,0,0] |
| Line.CompactionExample | mini-app/components/2048-game.tsx:40-52 | [0,2,0,4] becomes [2,4,0,0] |
| Moves.Direction | mini-app/components/2048-game.tsx:56 | the four values of `dir` |
| Moves.SlideRows | mini-app/components/2048-game.tsx:64 | sliding every row keeps the number of rows |
| Moves.Orient | mini-app/components/2048-game.tsx:58-63 | the transposed and/or reversed board is still 4×4 |
| Moves.Unorient | mini-app/components/2048-game.tsx:65-70 | reversing and/or transposing back gives a 4×4 board |
| Moves.Move | mini-app/components/2048-game.tsx:56-72 | a move of a 4×4 board gives a 4×4 board |
| Moves.UnorientOrient | mini-app/components/2048-game.tsx:58-70 | the closing reverse and transpose undo the opening ones |
| Moves.OrientUnorient | mini-app/components/2048-game.tsx:58-70 | the opening reverse and transpose undo the closing ones |
| Moves.OrientKeepsTotals | mini-app/components/2048-game.tsx:58-70 | reorienting keeps the sum and the tile count |
| Moves.OrientKeepsTiles | mini-app/components/2048-game.tsx:58-70 | reorienting keeps every cell a legal tile value |
| Moves.OrientRows | mini-app/components/2048-game.tsx:58-63 | the lines slid are the rows (left), reversed rows (right), columns (up) or reversed columns (down) |
| Moves.MoveSum | mini-app/components/2048-game.tsx:56-72 | a move keeps the sum of all cells |
| Moves.SlideRowsCount | mini-app/components/2048-game.tsx:64 | sliding every row removes one tile per merge |
| Moves.MoveCount | mini-app/components/2048-game.tsx:56-72 | a move removes one tile per merge and never adds a tile |
| Moves.MoveTiles | mini-app/components/2048-game.tsx:56-72 | a move keeps every cell a legal tile value |
| Moves.MoveLeft | mini-app/components/2048-game.tsx:64 | moving left slides every row |
| Moves.MoveRight | mini-app/components/2048-game.tsx:61-66 | moving right reverses each row, slides it and reverses it back |
| Moves.MoveVertical | mini-app/components/2048-game.tsx:58-70 | moving up or down is moving left or right on the transposed board, transposed back |
| Moves.LineChangesMove | mini-app/components/2048-game.tsx:56-72 | if any oriented line changes when slid, the board changes |
| Moves.MovedBoardHasRoom | mini-app/components/2048-game.tsx:106-108 | a board that a move changed has an empty cell for the new tile |
| Moves.StuckReverse | mini-app/components/2048-game.tsx:35-37 | reversing a full row with no equal neighbours keeps that property |
| Moves.TerminalLinesStuck | mini-app/components/2048-game.tsx:93-102 | on a game-over board every row and every column is full with no equal neighbours |
| Moves.TerminalNoOp | mini-app/components/2048-game.tsx:93-107 | on a game-over board every move leaves the board unchanged |
| Moves.GapLineChanges | mini-app/components/2048-game.tsx:56-72 | a line with an empty cell and a tile changes in one of its two directions |
| Moves.ChangingMove | mini-app/components/2048-game.tsx:93-107 | a board that holds a tile and is not game over has a direction that changes it |
| Moves.TerminalIffNoMove | mini-app/components/2048-game.tsx:93-107 | a board holding a tile is game over exactly when no direction changes it |
| Moves.NoOpExample | mini-app/components/2048-game.tsx:107 | moving a lone tile in the left column to the left changes nothing |
| Moves.TerminalExample | mini-app/components/2048-game.tsx:93-102 | a full checkerboard of 2s and 4s is game over |
| Spawning.EmptyBoard | mini-app/components/2048-game.tsx:9-12 | the empty board is 4×4 and every cell is 0 |
| Spawning.EmptyBoardCells | mini-app/components/2048-game.tsx:9-21 | the empty board holds no tile and lists all 16 cells as empty |
| Spawning.AddRandomTile | mini-app/components/2048-game.tsx:14-25 | the loops collect the empty cells in row-major order, then write 2 or 4 into the k-th cell, or return the full board as it is: the result is `Spawn(board, k, two)` |
| Spawning.Spawn | mini-app/components/2048-game.tsx:14-25 | the spawned board is still 4×4 |
| Spawning.EmptyInRow | mini-app/components/2048-game.tsx:17-19 | the empty cells among the first c cells of one row, left to right |
| Spawning.EmptyInRows | mini-app/components/2048-game.tsx:16-20 | the empty cells of the first n rows, in row-major order |
| Spawning.EmptyCells | mini-app/components/2048-game.tsx:15-20 | the list `empty` after both loops |
| Spawning.EmptyCellsMembers | mini-app/components/2048-game.tsx:15-20 | the collected list holds exactly the empty cells |
| Spawning.EmptyCellsInRange | mini-app/components/2048-game.tsx:22 | every listed cell is on the board and empty |
| Spawning.EmptyCellsCount | mini-app/components/2048-game.tsx:15-21 | the list has 16 minus the tile count entries |
| Spawning.SpawnFillsOneEmptyCell | mini-app/components/2048-game.tsx:14-25 | a full board is returned unchanged; otherwise exactly one empty cell becomes a 2 or a 4, every other cell is kept, and the tile count grows by one |
| Spawning.SpawnTiles | mini-app/components/2048-game.tsx:23 | spawning keeps every cell a legal tile value |
| Spawning.FirstSpawn | mini-app/components/2048-game.tsx:77 | the first spawn leaves one tile and 15 empty cells |
| Spawning.StartBoard | mini-app/components/2048-game.tsx:75-78 | the starting board is 4×4 |
| Spawning.InitialBoard | mini-app/components/2048-game.tsx:75-78 | the starting board holds exactly two tiles, each a 2 or a 4 |
| GameState.Flatten | mini-app/components/2048-game.tsx:111 | `board.flat()`: the rows concatenated in order |
| GameState.FlattenMembers | mini-app/components/2048-game.tsx:111 | a value is in `board.flat()` exactly when some cell holds it |
| GameState.AcceptedMove | mini-app/components/2048-game.tsx:104-113 | after a move that changes the board, a new tile always finds an empty cell, the tile count is the old count minus the merges plus one, and the sum grows by the 2 or 4 spawned |
| GameState.Game.constructor | mini-app/components/2048-game.tsx:75-81 | the game starts on the start board with score 0 and neither flag set, and the invariant holds |
| GameState.Game.UpdateScore | mini-app/components/2048-game.tsx:83-91 | the score becomes the sum of all cells of the given board |
| GameState.Game.CheckGameOver | mini-app/components/2048-game.tsx:93-102 | the scan answers true exactly when every cell is full and differs from its right and lower neighbours |
| GameState.Game.HandleMove | mini-app/components/2048-game.tsx:104-113 | the invariant is kept and `won` is never cleared; after game over, or a move that changes nothing, all state is kept; otherwise the board is the moved board plus a spawned tile, the score is its sum, `won` records a 2048 cell, and `gameOver` says whether the new board is terminal |

## Left out

- Rendering, JSX, the `Share` component, the metadata imports and the page
  that mounts the component. These are user interface, not engine logic.
- The keyboard listener (`useEffect`, lines 115-124). It only maps arrow keys to
  `handleMove` with a direction. `Direction` models the four directions.
- `Math.random`. The two draws of `addRandomTile` are the parameters `k` and
  `two`. The 90% / 10% odds and the uniform choice of cell are not modelled.
- Spawning.AddRandomTile: the source writes the chosen cell in place and
  returns the same array. The model returns the updated value instead.
  Every caller uses only the returned board, so the aliasing does not show.
- React's state setters. `handleMove` reads `board` and `gameOver` before
  it calls any setter, so its setters are modelled as plain field
  assignments in the same order.
- `JSON.stringify(a) === JSON.stringify(b)`. On arrays of numbers this is
  equality of the arrays, modelled as sequence equality.
- JavaScript numbers are doubles. The model uses unbounded integers. A 4×4
  board cannot hold a tile above 2^17, so no rounding can occur.
- Moves.Move: requires a 4×4 board. The game only ever builds 4×4 boards.
- Grid.Transpose: requires a non-empty rectangular board. The source reads
  `board[0]` and would fail on an empty board.
- Moves.TerminalIffNoMove: requires a board that holds a tile. No move
  changes the empty board, yet `checkGameOver` calls it not over. The empty
  board never occurs in play after the start.

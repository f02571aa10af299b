# 2048 engine and board heuristics in Dafny

This project models two parts of a small 2048 player:

- **The game engine, class `Game2048` (Game2048.py).** The board is a flat
  list of 16 exponents: 0 is an empty cell and `e > 0` is a tile worth `2^e`.
  A running score sits beside it.
  - `move` converts the board to tile values.
  - It then takes each row (Left/Right) or column (Up/Down) in turn:
    - it gathers the non-empty values;
    - for Right/Down it reverses them;
    - it merges equal neighbours in one left-to-right pass, with a `skip`
      flag;
    - it pads the line to four cells, reverses it back and writes it back.
  - Finally it converts the values back to exponents with `bit_length`. Only
    when a cell changed does it add the points to the score and spawn a
    tile.
  - Around `move` sit `addRandomTile`, `gameOver`, `clone`, `result`,
    `getTile` and `actions`.
- **The agent's integer heuristics (MyAgent.py).** These are `smoothness`,
  `monotonicity` and `evaluate`, over a 4-by-4 grid of tile values, plus the
  integer part of the spawn probe in `findMove`. That loop puts a 2 and then
  a 4 into each empty cell, evaluates the grid each time, and clears the
  cell again.

The project has five modules:

- `Tiles` (tiles.dfy): exponents and tile values, `2 ** x` and
  `bit_length`.
- `Lines` (lines.dfy): one line of a move as functions on values, and their
  lemmas.
- `Board` (board.dfy): the 16-cell board, which cells form which line, the
  afterstate of a move, and when a board is stuck.
- `Game` (game.dfy): the class `Game2048` with an `array<nat>` board. Its
  methods and loops are proved against the functions of `Board` and `Lines`.
- `Agent` (agent.dfy): the heuristics over `seq<seq<int>>`, and the probe
  loop over an `array2<int>`.

How the model is built:

- The specification of `move` follows the code. It works on tile values and
  converts back with `bit_length`.
- `Lines.ExponentMerge` is an independent merge defined directly on
  exponents. `Lines.MergeInExponents` proves the two agree.
- A move keeps the total tile value of the whole board exactly
  (`Board.SlideValuesSum`). The points scored are the values of the merged
  tiles, and they are not taken off that total.
- Randomness is a nondeterministic choice (`:|`) of the empty cell and of the
  exponent in {1, 2}.

## Model

| member | source | states |
|---|---|---|
| `Tiles.BitLength` | Game2048.py:68 | Python's `int.bit_length`: 0 exactly for 0, and otherwise the `r` with `2^(r-1) <= x < 2^r`. |
| `Tiles.ToValue` | Game2048.py:28 | `2 ** x if x > 0 else 0`: 0 exactly for the empty cell, at least 2 for a tile. |
| `Tiles.ToExponent` | Game2048.py:68 | `bit_length() - 1 if val > 0 else 0`: 0 for an empty cell, otherwise the `e` with `2^e <= v < 2^(e+1)`. |
| `Tiles.ExponentRoundTrip` | Game2048.py:28 | For every exponent `e`, `bit_length(2**e) - 1 == e`, and 0 maps to 0. |
| `Tiles.ToValueInjective` | Game2048.py:28 | Distinct exponents give distinct tile values. |
| `Tiles.MergedExponent` | Game2048.py:49 | Merging two tiles of exponent `e` gives the tile of exponent `e + 1`, in values and back in exponents. |
| `Tiles.DoubledExponent` | Game2048.py:68 | Twice the value of exponent `e` converts back to exponent `e + 1`. |
| `Lines.Compact` | Game2048.py:32-37 | The non-empty values of a line, in traversal order. The result is never longer than the line and holds no empty cell. |
| `Lines.Reverse` | Game2048.py:39-40 | `list.reverse()`. Its length is kept, and `Lines.ReverseAt` gives element `k` as element `n - 1 - k`. |
| `Lines.Merge` | Game2048.py:42-53 | The single left-to-right pass: equal neighbours become one tile of twice the value and the second is skipped. The result has between half and all of the input's length, and a line of tiles stays a line of tiles. |
| `Lines.MergeScore` | Game2048.py:50 | The points of that pass: twice the value of each merged pair. Its meaning is proved by `Lines.MergeScoreIsCreatedValue` and `Lines.MergeConservesValue`. |
| `Lines.Pad` | Game2048.py:55-56 | `merged.append(0)` until four cells. A shorter line gets exactly four cells, and a longer one is left alone. |
| `Lines.SlideLine` | Game2048.py:32-59 | One line of `move`: gather, orient, merge, pad, orient back. Always four cells. Its properties are the `Lines.SlideLine…` lemmas below. |
| `Lines.LineScore` | Game2048.py:50 | The points one line adds to `score`: the score of the merge pass on the gathered, oriented tiles. |
| `Lines.CompactSum` | Game2048.py:32-37 | Gathering the non-empty values keeps the line's total value. |
| `Lines.CompactReverse` | Game2048.py:39-40 | Gathering then reversing equals reversing then gathering. |
| `Lines.ReverseReverse` | Game2048.py:58-59 | Reversing twice restores the line, so the un-reverse undoes the reverse. |
| `Lines.MergeFromSuffix` | Game2048.py:44-53 | The index-walking pass with `skip` started at `k` equals the recursive merge of the suffix from `k`, in tiles and in points. |
| `Lines.MergeTiles` | Game2048.py:44-53 | The merged line is, as a multiset, the kept tiles plus the created tiles. Every input tile is used exactly once: kept once or merged once. |
| `Lines.MergeScoreIsCreatedValue` | Game2048.py:50 | The points of a line are the sum of the values of the tiles its merges create. |
| `Lines.MergeConservesValue` | Game2048.py:42-53 | The merge keeps the total value, and the input total is the kept tiles plus the points. |
| `Lines.MergeIdentity` | Game2048.py:48 | With no equal neighbours the pass changes nothing and scores 0. Otherwise it shortens the line and scores more than 0. |
| `Lines.PadSum` | Game2048.py:55-56 | Padding with zeros keeps the total value. |
| `Lines.PadCompact` | Game2048.py:55-56 | Padding only adds empty cells after the tiles. |
| `Lines.SlideLineConservesValue` | Game2048.py:32-59 | A whole line move keeps the total tile value. |
| `Lines.SlideLineTiles` | Game2048.py:32-59 | The tiles of the moved line are the merge of the gathered, oriented tiles, oriented back. The moved line never holds more tiles than before. |
| `Lines.SlideLinePacked` | Game2048.py:39-59 | After Left/Up the tiles are contiguous at the start of the line. After Right/Down they are contiguous at the end. |
| `Lines.SlideFullLine` | Game2048.py:42-59 | A full line without equal neighbours is unchanged. A full line with one has some cell that now holds twice its old value. |
| `Lines.MergeInExponents` | Game2048.py:28-68 | The merge on values followed by `bit_length` equals the exponent-level merge (`v, v` becomes `v + 1`, worth `2^(v+1)` points). |
| `Lines.FourEqualTilesLeft` | Game2048.py:43-51 | Exponents `[1, 1, 1, 1]` moved Left become `[2, 2, 0, 0]` and score 8, not a chain into one tile. |
| `Lines.MergedTileStays` | Game2048.py:43-51 | Exponents `[1, 1, 2, 0]` moved Left become `[2, 2, 0, 0]` and score 4. The merged tile does not merge again. |
| `Lines.NoMergeRight` | Game2048.py:32-59 | Values `[2, 0, 4, 0]` moved Right become `[0, 0, 2, 4]` and score 0: the tiles pack at the far end and nothing merges. |
| `Board.Cell` | Game2048.py:34 | `i * 4 + j` for Left/Right and `j * 4 + i` for Up/Down: always a cell of the board. Line 62 uses the same index. |
| `Board.SlideValues` | Game2048.py:31-63 | The value board after the line loop: each cell holds its position of its own line, slid. Always 16 cells. |
| `Board.Afterstate` | Game2048.py:27-72 | The board after a move and before the spawn: the slid value board converted back to exponents. Always 16 cells. |
| `Board.MoveScore` | Game2048.py:27-72 | The `score` that `move` returns: the sum of the four lines' points. |
| `Board.SpawnedFrom` | Game2048.py:82-87 | `addRandomTile`: a full board stays as it is, otherwise one empty cell becomes 1 or 2. Its properties are `Board.SpawnOnFull`, `Board.SpawnKeepsTiles` and `Board.SpawnKeepsChange`. |
| `Board.Stuck` | Game2048.py:89-96 | What `gameOver` decides: full, and no direction changes the board. `Board.StuckIffNoEqualNeighbours` characterises it. |
| `Board.Tile` | Game2048.py:80 | The cell in row `r`, column `c`, at index `r * 4 + c`. |
| `Board.CellCoordinates` | Game2048.py:34 | `idx = i*4+j` (Left/Right) or `j*4+i` (Up/Down) puts each line on four distinct cells, and the four lines cover all 16 cells. |
| `Board.LineValues` | Game2048.py:28-37 | Reading a line of the value board is converting that line of the exponent board. |
| `Board.SumByLines` | Game2048.py:31-63 | The total value of a board is the sum over its four lines, in either orientation, because the lines partition the cells. |
| `Board.SlideValuesLine` | Game2048.py:31-63 | Line `i` of the slid board is line `i` of the board, slid, and it keeps that line's total value. |
| `Board.SlideValuesSum` | Game2048.py:27-63 | For any board and any direction, the slid value board has exactly the total value of the board before. The points are not taken off. |
| `Board.AfterstateAt` | Game2048.py:58-68 | Cell `j` of line `i` after a move is the exponent of position `j` of the moved line. |
| `Board.FullLineKept` | Game2048.py:42-68 | On a full line without equal neighbours, every cell of that line keeps its exponent, whatever the rest of the board holds. |
| `Board.FullLineChanged` | Game2048.py:42-71 | On a full line with an equal pair, some cell changes and gets a non-empty tile, whatever the rest of the board holds. |
| `Board.MergedCell` | Game2048.py:49-68 | A merged cell gets exponent `e + 1`. |
| `Board.FullBoardMove` | Game2048.py:65-71 | On a full board a move changes nothing exactly when no line of its direction has an equal pair. |
| `Board.NoPairUnmoved` | Game2048.py:65-71 | On a full board without equal neighbours along the direction, the move changes no cell. |
| `Board.CellKept` | Game2048.py:58-68 | On such a board, each single cell keeps its exponent. |
| `Board.PairMoves` | Game2048.py:65-71 | On a full board with equal neighbours along the direction, some cell changes to a non-empty tile. |
| `Board.PairsLeftRight` | Game2048.py:34 | Left and Right see the same pairs, and so do Up and Down. |
| `Board.PairsInRows` | Game2048.py:34 | Left lines have a pair exactly when some row has equal neighbours. |
| `Board.PairsInColumns` | Game2048.py:34 | Up lines have a pair exactly when some column has equal neighbours. |
| `Board.StuckIffNoEqualNeighbours` | Game2048.py:89-96 | A board is over exactly when it is full and no two 4-adjacent cells are equal. |
| `Board.EmptyCellNotStuck` | Game2048.py:90-91 | A board with an empty cell is never over. |
| `Board.CheckerboardStuck` | Game2048.py:89-96 | The full checkerboard of exponents 1 and 2 is over. With one cell emptied it is not. |
| `Board.SpawnOnFull` | Game2048.py:84-85 | Spawning on a full board changes nothing. |
| `Board.SpawnKeepsTiles` | Game2048.py:86-87 | A spawn changes no non-empty cell. |
| `Board.SpawnKeepsChange` | Game2048.py:89-95 | On a full board, a move's child equals the board exactly when the move changes nothing, whatever the child spawned. |
| `Game.Actions` | Game2048.py:13-14 | `['U', 'D', 'L', 'R']`: four moves, in that order. |
| `Game.ActionsCoverDirections` | Game2048.py:13-14 | `actions` lists all four directions. |
| `Game.StuckByActions` | Game2048.py:92-96 | A full board that none of the moves of `actions` changes is over. |
| `Game.GatherLine` | Game2048.py:32-37 | The loop collects exactly the non-empty values of line `i`, in order. |
| `Game.MergePass` | Game2048.py:42-53 | The loop with `skip` computes the merged line and its points, as `Lines.Merge` and `Lines.MergeScore` state them. |
| `Game.PadLine` | Game2048.py:55-56 | The loop pads the merged line with zeros to four cells. |
| `Game.WriteBack` | Game2048.py:61-63 | Line `i` of the array receives the moved line, and no other cell changes. |
| `Game.ProcessLine` | Game2048.py:31-63 | One pass of the line loop moves line `i` of the value board and returns its points. |
| `Game.SlideBoard` | Game2048.py:31-63 | All four lines are moved. The array holds the slid board and `score` the sum of the line points. |
| `Game.SlideExponents` | Game2048.py:28-63 | The value board after the line loop converts to the afterstate, and the points are the move score. |
| `Game.Game2048.constructor` | Game2048.py:4-7 | An empty board and score 0, then two spawns. |
| `Game.Game2048.Randomize` | Game2048.py:9-11 | Two spawns in a row. |
| `Game.Game2048.Empties` | Game2048.py:83 | Exactly the indices of the empty cells, in increasing order. |
| `Game.Game2048.AddRandomTile` | Game2048.py:82-87 | A full board is unchanged. Otherwise one empty cell becomes 1 or 2 and nothing else changes. |
| `Game.Game2048.StoreExponents` | Game2048.py:65-71 | The board becomes the exponents of the values, and `changed` holds exactly when some cell differs from before. |
| `Game.Game2048.Move` | Game2048.py:27-77 | It returns the move score. A move that changes nothing leaves board and score untouched and spawns nothing. Otherwise the score grows by exactly the returned points and one tile spawns on the afterstate. |
| `Game.Game2048.Clone` | Game2048.py:21-25 | A fresh game with an equal board and score. |
| `Game.Game2048.Result` | Game2048.py:16-19 | The child has moved and this game is untouched. |
| `Game.Game2048.ChildDiffers` | Game2048.py:92-95 | On a full board, the child differs exactly when the move changes the board. |
| `Game.Game2048.GameOver` | Game2048.py:89-96 | The result is true exactly when the board is full and no move changes it. |
| `Game.Game2048.GetTile` | Game2048.py:79-80 | It returns cell `(r, c)` for on-board coordinates, and follows Python's negative list indexing. It is `None` exactly when Python would raise an IndexError. |
| `Agent.AcrossTotalZero` | MyAgent.py:41-44 | A sum over the horizontal pairs is zero exactly when each pair contributes zero. |
| `Agent.DownTotalZero` | MyAgent.py:45-48 | The same for the vertical pairs, visited row by row. |
| `Agent.ColumnTotalZero` | MyAgent.py:59-64 | The same for the vertical pairs, visited column by column. |
| `Agent.Roughness` | MyAgent.py:39-49 | The penalty `smoothness` subtracts: the distances between non-empty neighbours, horizontal pairs first, then vertical pairs. `Agent.SmoothnessZero` characterises when it is 0. |
| `Agent.Smoothness` | MyAgent.py:39-49 | The loops return minus the sum of the gaps between non-empty neighbours, which is at most 0. |
| `Agent.SmoothnessZero` | MyAgent.py:43-48 | `smoothness` is 0 exactly when all non-empty neighbours are equal. |
| `Agent.SmoothnessOfSparse` | MyAgent.py:43-48 | A grid with no two non-empty neighbours has `smoothness` 0. |
| `Agent.SmoothnessOfConstant` | MyAgent.py:43-48 | A constant grid has `smoothness` 0. |
| `Agent.RowPass` | MyAgent.py:53-58 | `totals[0]` and `totals[1]` become the total fall and the total rise (ties included) along the rows, and the other totals are untouched. |
| `Agent.ColumnPass` | MyAgent.py:59-64 | `totals[2]` and `totals[3]` become the same totals down the columns, and the other totals are untouched. |
| `Agent.MonotonicityScore` | MyAgent.py:51-65 | Minus the smaller of the row fall and rise totals, minus the smaller of the column totals. `Agent.MonotonicityZero` characterises when it is 0. |
| `Agent.Monotonicity` | MyAgent.py:51-65 | The result is minus the smaller row total minus the smaller column total, which is at most 0. |
| `Agent.MonotonicityZero` | MyAgent.py:51-65 | `monotonicity` is 0 exactly when all rows run one way and all columns run one way (non-increasing or non-decreasing). |
| `Agent.RowTotals` | MyAgent.py:53-58 | Rows are non-decreasing exactly when no row pair adds to `totals[0]`, and non-increasing exactly when none adds to `totals[1]`. |
| `Agent.ColumnTotals` | MyAgent.py:59-64 | The same for columns and `totals[2]`, `totals[3]`. |
| `Agent.EmptyCells` | MyAgent.py:15 | The empty cells of the grid, row by row. The two membership and order lemmas below characterise it. |
| `Agent.EmptyFromMembers` | MyAgent.py:15 | From cell `(r, c)` on, a cell is listed exactly when it is empty and not earlier in row-major order. |
| `Agent.EmptyFromOrdered` | MyAgent.py:15 | That list runs in row-major order. |
| `Agent.EmptyCellsMembers` | MyAgent.py:15 | The list of empty cells holds every empty cell and nothing else. |
| `Agent.EmptyCellsOrdered` | MyAgent.py:33 | The list is in row-major order without repeats, so `evaluate` counts between 0 and 16 empty cells. |
| `Agent.MaxOfIsMax` | MyAgent.py:36 | `max` of a row is one of its elements, and no element exceeds it. |
| `Agent.MaxTile` | MyAgent.py:36 | `max(max(row) for row in board)`. `Agent.MaxTileIsMax` characterises it. |
| `Agent.MaxTileIsMax` | MyAgent.py:36 | The largest tile is a cell of the grid, and no cell exceeds it. |
| `Agent.Evaluation` | MyAgent.py:31-37 | `300 * empty + smoothness + monotonicity + 2 * maxTile`, built from the functions above. |
| `Agent.Evaluate` | MyAgent.py:31-37 | The result is `300 * empty + smoothness + monotonicity + 2 * maxTile`, with its parts as above. |
| `Agent.EvaluationBound` | MyAgent.py:31-37 | `evaluate` is at most `300 * empty + 2 * maxTile`, with equality exactly when both penalties are 0. |
| `Agent.SetCell` | MyAgent.py:17 | Writing one cell changes that cell of the grid and nothing else. |
| `Agent.PutPut` | MyAgent.py:17-19 | Writing a cell twice keeps only the second value. |
| `Agent.PutSame` | MyAgent.py:21 | Writing back a cell's old value restores the grid. |
| `Agent.Probe` | MyAgent.py:16-21 | The two evaluations for one empty cell: with a 2 in it and with a 4 in it. |
| `Agent.ProbeCell` | MyAgent.py:17-21 | For one empty cell, it evaluates the grid with a 2 and with a 4 there, and the grid ends as it began. |
| `Agent.EmptyCellsOnGrid` | MyAgent.py:15 | Every listed cell is on the grid and empty. |
| `Agent.Probes` | MyAgent.py:16-21 | The probes of a list of cells, in list order. `Agent.ProbesAt` characterises it. |
| `Agent.ProbesAt` | MyAgent.py:16-21 | Probe `k` is the pair of evaluations for empty cell `k`, and there is one probe per empty cell. |
| `Agent.ProbeSpawns` | MyAgent.py:15-21 | The loop probes every empty cell in row-major order and returns the evaluations in that order. The grid is identical afterwards. |

## Left out

- Play.py is not part of this model. It is the command-line driver and its
  I/O loop, and it calls `getScore`, which `Game2048` does not define.
- The spawn probabilities and the choice of tile (`random.random() < 0.9`,
  Game2048.py:87) are modelled as a free choice of 1 or 2. The choice of cell
  (`random.choice`) is a free choice among the empty cells.
- The floating-point part of `findMove` is not modelled. That covers the 0.9
  and 0.1 weights, the averaging over empty cells, `float('-inf')`, the
  comparison of scores and the choice of the best move
  (MyAgent.py:7-14, 18, 20, 22-29). Only the integer evaluations it consumes
  are modelled.
- `timeLimit` (MyAgent.py:4-5) is stored and never used.
- `__str__` (Game2048.py:98-106) only renders the board.
- The heuristics work on an abstract 4-by-4 grid of integers indexed
  `board[r][c]`. The agent indexes the state's board in two dimensions and
  writes tile values 2 and 4, while `Game2048` keeps a flat list of
  exponents.
- `Move` and `Result` take a `Direction` datatype. Direction strings other
  than `U`, `D`, `L` or `R` are not modelled. The code tests them with
  substring tests (`direction in 'LR'`, `direction in 'RD'`, lines 34, 39,
  58 and 62). So `''` acts as Right, `'LR'` as Left and `'RD'` as Down, any
  other string as an unreversed column move, and a non-string raises a
  TypeError.
- `Game.Game2048.Clone`: the constructor's two random tiles are written and
  then overwritten by the copy. The model states only the final board and
  score.
- `Agent.ProbeSpawns` probes an explicit 4-by-4 array. The code probes
  `nextState._board`, the board of the child state.

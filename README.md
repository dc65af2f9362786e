# Gomoku engine: a verified model

This project models the move-choosing core of a Gomoku program on a 19 x 19
board, where five stones in a row win. It covers two players and the game
object they play against.

- **The game** (`Game`) holds the board, the side to move and the winner.
  It places stones and checks for five in a row through the last move, along
  the column, the row, the diagonal and the anti-diagonal.
- **The alpha-beta engine** (`MiniMax.AlphaBetaAlgorithm`) works in these
  steps:
  - It builds a 16383-entry score table from 28 hard-coded stone patterns.
    Each pattern is read forwards and backwards, two bits per cell.
  - Scanners slide a 7-cell window along a line and keep the best-scoring
    pattern. One scanner covers rows, columns and diagonals.
  - It keeps per-side score caches with one slot per row, column, diagonal
    and anti-diagonal. These are filled by a full-board scan and updated cell
    by cell.
  - It combines the four directions into a point value with a bonus for
    double threats.
  - Candidate moves are the empty cells within two cells of a stone. They are
    collected sorted by point value.
  - A fail-soft alpha-beta search runs to depth 3 over those candidates. Its
    leaf value is one side's cache-based score minus the other's.
  - At the root it picks the best candidate, with a random tie-break.
- **The greedy player** (`SimpleAutoPlayer`) scores every empty cell by
  counting own and opposing stones in the twenty 5-cell windows through it.
  It plays the best cell.

## How the model is organized

Each module takes the form of the code it models.

- **Imperative code becomes imperative Dafny.**
  - The board is an `array2<Stone>`, and the caches and tables are `array`
    fields of classes.
  - Every loop is a `while`/`for` loop with invariants.
  - Each method is proved equal to a specification function of the board's
    value, `Snapshot(board)`. The properties the source promises are then
    proved about those functions as lemmas.
- **Pure word-level computations become functions on unbounded integers**
  (`Bits`, `ScoreTable`). These are the address packing, bit masks and
  pattern lookups.
- **C++ `int` wrap-around is written out as `% 2^32`** where a scanner shifts
  its address. A lookup index is `addr & 0x3fff`.
- **Cell codes follow the code: own stone = 1, opponent = 2.** A comment in
  the source says 11 for the opponent, but the code ORs in 2.
- **The search** is specified by `Search.AlphaBeta`, a function over an
  environment `Env`. `Env` supplies the candidate list, the leaf evaluation and
  the game-over test. `MiniMax.AlphaBetaAlgorithm.MinMax` is proved equal to
  it. It is proved equal to plain minimax over the full window
  (`FullWindowIsMinimax`), and bracketed by minimax for any window
  (`AlphaBetaBracket`).
- **The engine keeps two class invariants.** `Valid()` says the arrays have
  their sizes and are distinct. `Bounded()` says every table score and every
  cache slot lies in 0..1000000. The constructor establishes both and
  `AlphaBetaGo` keeps both. `Bounded()` is what makes every leaf value fit in
  32 bits (`CurrentEnvBounded`), which the minimax results need.
- **Randomness is a parameter.** The `rand() % 100 < 30` tie-break becomes an
  oracle `tie: (int, int) -> bool`, which is asked about a cell the one time
  that cell ties.

Several things are modelled exactly as written, not as the comments intend:

- **The full-board scan** (`ScoreChessToCache`) writes the anti-diagonal
  passes into the *diagonal* slots. So the diagonal slots end up holding
  anti-diagonals, and the anti-diagonal slots keep their old contents.
- **The upper anti-diagonal pass** starts at column 18 and steps (+1, +1), so
  it leaves the board after one cell. `Evaluator.FullScanView` states this,
  and `Evaluator.FullScanDiagonalSlots` proves what each slot then holds.
- **`AlphaBetaGo` can return 0 when moves exist.** This happens when every
  candidate's value is `INT_MIN` and the tie-break declines each of them.
  `Search.RootChoiceSpec` states that case.
- **In the greedy player, a window of five opposing stones reads table slot 9
  (score 0), and five own stones read slot 5 (score 15).** Neither can happen
  for an empty cell, which is the only kind the player evaluates
  (`SimpleAutoPlayer.EmptyCellWindowIndex`).

## Model

| member | source | states |
|---|---|---|
| `Board.PlaceUndo` | src/MiniMax.cc:168-174 | placing a stone on an empty cell and then emptying it again gives back the original board, which is what the search's place-and-undo relies on |
| `Board.GridExt` | src/MiniMax.cc:254-255 | two boards that agree on every cell are equal, the sense in which the board copy is an exact copy |
| `Patterns.PatternsWellSpelled` | include/mylibrary/MiniMax.h:273-300 | the pattern table has 28 entries, each 1 to 7 characters over '0', '1' and '2' |
| `Patterns.ScoresNonIncreasing` | include/mylibrary/MiniMax.h:273-300 | pattern scores never increase down the table and stay within 0 and the five-in-a-row score |
| `Patterns.BlockedPatternsScoreZero` | include/mylibrary/MiniMax.h:298-300 | exactly the last three patterns score 0, and they are the closed four, three and two |
| `ScoreTable.MaskBounds` | src/MiniMax.cc:16-40 | a pattern's forward and backward masks both fit in two bits per character |
| `ScoreTable.MaskTest` | src/MiniMax.cc:59-64 | masking the address at bit offset s and comparing with the shifted mask succeeds exactly when the m address bits at s equal the mask |
| `ScoreTable.ContainsTooLong` | src/MiniMax.cc:55-67 | a mask longer than the address is never contained in it |
| `ScoreTable.FirstScoringMatchWins` | src/MiniMax.cc:14-52 | after the table is built, an address takes the score and type of the first pattern that matches it with a non-zero score |
| `ScoreTable.NoScoringMatch` | src/MiniMax.cc:14-52 | an address that no scoring pattern matches has score 0, and either type NONE or the type of a matching zero-score pattern |
| `ScoreTable.UnmatchedEntry` | src/MiniMax.cc:14-52 | with no scoring match an entry has score 0 and type NONE or one of the closed types |
| `ScoreTable.HighestScoreWins` | src/MiniMax.cc:14-52 | every entry's score is at least the score of every pattern it matches, and equals one of them unless it is 0 |
| `ScoreTable.EntryBounded` | src/MiniMax.cc:14-52 | every table score lies between 0 and the five-in-a-row score |
| `MiniMax.BuiltTablesBounded` | src/MiniMax.cc:10-53 | the built table's scores all lie between 0 and the five-in-a-row score |
| `Bits.ShiftOrStep` | src/MiniMax.cc:426-429 | shifting the 32-bit address left by two and OR-ing in a cell code gives the packed codes of the cells seen so far, modulo 2^32 |
| `Bits.WindowIndex` | src/MiniMax.cc:432-433 | the address masked with 0x3fff is the packed code of the last seven cells and is at most 10922, so the lookup stays in the table |
| `Bits.PackSplit` | src/MiniMax.cc:426-429 | packing a concatenation is packing the prefix shifted past the suffix plus packing the suffix |
| `Bits.AndLowMask` | src/MiniMax.cc:432-433 | AND with 2^m - 1 keeps the low m bits, that is the value modulo 2^m |
| `Bits.AndShift` | src/MiniMax.cc:59-64 | AND with a mask shifted left by t is the shifted AND of the address shifted right by t |
| `LineScan.CellCode` | src/MiniMax.cc:426-429 | a cell's code is 1 for one's own stone, 2 for the opponent's and 0 otherwise |
| `LineScan.WalkCells` | src/MiniMax.cc:489-491 | the scanner reads exactly the on-board cells along its direction in order, and stops only at the board edge |
| `LineScan.WalkStops` | src/MiniMax.cc:489-491 | once the walk leaves the board, further steps add no cells |
| `LineScan.FirstMaxUpper` | src/MiniMax.cc:432-438 | the best window kept along a line scores at least every window and at least 0 |
| `LineScan.FirstMaxAttained` | src/MiniMax.cc:432-438 | a positive best is the first window with that score, and a best of 0 is (0, NONE) |
| `LineScan.ScanStep` | src/MiniMax.cc:426-438 | one scanner step with the wrapped address updates the best entry exactly as appending the cell to the line does, once seven cells are read |
| `LineScan.ShortLine` | src/MiniMax.cc:432 | a line shorter than seven cells yields (0, NONE) |
| `LineScan.WindowInTable` | src/MiniMax.cc:432-433 | every 7-cell window packs to a valid table index and reads that table entry |
| `LineScan.LineBestBounded` | src/MiniMax.cc:432-438 | over bounded tables a line's best score lies between 0 and the five-in-a-row score |
| `Evaluator.TallyFour` | src/MiniMax.cc:723-801 | the count of a type over the four directions is the number of directions with that type |
| `Evaluator.CombineBounds` | src/MiniMax.cc:719-810 | the combined value is at least the best directional score, at most that or 10000, and if it differs it is one of the bonus values |
| `Evaluator.CombineNeedsOpen` | src/MiniMax.cc:802-810 | with no open type in any direction the combined value is the best directional score |
| `Evaluator.CombineDoubleThreat` | src/MiniMax.cc:802-804 | an open four together with a second open four or an open three scores at least 10000 |
| `Evaluator.CombineMonotone` | src/MiniMax.cc:719-810 | raising directional scores with the same types never lowers the combined value |
| `Evaluator.CombineBounded` | src/MiniMax.cc:719-810 | bounded directional scores give a bounded combined value |
| `Evaluator.DirRay` | src/MiniMax.cc:821-928 | each direction's start cell and length give a ray that lies on the board, ends at the edge and passes through the point |
| `Evaluator.DirLineCells` | src/MiniMax.cc:821-928 | the line scanned for a direction is exactly the cells of that ray |
| `Evaluator.ScorePointBounded` | src/MiniMax.cc:705-812 | a point's value lies between 0 and the five-in-a-row score and is at least each directional best |
| `Evaluator.ScoreChessBounded` | src/MiniMax.cc:579-703 | a board score from a bounded cache lies between 0 and the five-in-a-row score and is at least every slot's score |
| `Evaluator.SlotIndices` | src/MiniMax.cc:480-487 | diagonal and anti-diagonal slot numbers lie in 0..36, and two cells share one exactly when they share the diagonal or anti-diagonal |
| `Evaluator.SameLineSameBest` | src/MiniMax.cc:410-552 | two cells on the same row, column, diagonal or anti-diagonal get the same directional best for that line |
| `Evaluator.PointUpdatesCommute` | src/MiniMax.cc:562-568 | point updates of the cache at two cells of one board can be applied in either order |
| `Evaluator.PointUpdateIdempotent` | src/MiniMax.cc:562-568 | a point update applied twice at one cell is the same as once |
| `Evaluator.PointUpdateBounded` | src/MiniMax.cc:410-552 | a point update keeps every cache slot between 0 and the five-in-a-row score |
| `Evaluator.CellInBounds` | src/MiniMax.cc:266-267 | scan position k of the row-major double loop is an on-board cell with that scan position |
| `Evaluator.KeyInjective` | src/MiniMax.cc:266-267 | distinct cells have distinct scan positions |
| `Evaluator.UpdatedFromUnchanged` | src/MiniMax.cc:562-568 | when the board equals its backup no cell is rescanned and the cache copy is unchanged |
| `Evaluator.UpdatedFromBounded` | src/MiniMax.cc:562-568 | rescanning the changed cells keeps a bounded cache bounded |
| `Evaluator.EvaluationAntisymmetric` | src/MiniMax.cc:569-576 | black's evaluation is minus white's, and any side other than black is evaluated as white |
| `Evaluator.EvaluationBounded` | src/MiniMax.cc:554-577 | every evaluation lies within the five-in-a-row score of 0 |
| `Evaluator.EvaluationOfBackup` | src/MiniMax.cc:554-577 | on the backed-up board itself the evaluation is black's cached score minus white's |
| `Evaluator.FullScanRowsAgree` | src/MiniMax.cc:940-1002 | after a full scan a row and a column slot hold what a point update through any of its cells would store |
| `Evaluator.FullScanDiagonalSlots` | src/MiniMax.cc:1072-1141 | after a full scan the lower diagonal slots hold anti-diagonals, the upper ones hold (0, NONE), and the anti-diagonal slots are unchanged |
| `Evaluator.FullScanViewBounded` | src/MiniMax.cc:935-1141 | over bounded tables a full scan keeps a bounded cache bounded: every slot it writes is a line's best, and the slots it skips keep their old bounded values |
| `Candidates.InsertOrdered` | src/MiniMax.cc:106-142 | inserting a later-scanned candidate into a sorted list keeps it sorted by value, later scan first among equals |
| `Candidates.InsertListed` | src/MiniMax.cc:106-142 | after insertion a cell is listed exactly when it was listed before or is the new one |
| `Candidates.Insert` | src/MiniMax.cc:106-142 | insertion adds exactly the new candidate, as a multiset, and nothing else |
| `Candidates.InsertIndex` | src/MiniMax.cc:111-123 | the new candidate goes after every strictly greater value and before the first value not greater |
| `Candidates.CandidatesUpToComplete` | src/MiniMax.cc:92-96 | after the first k cells, a scanned cell is listed exactly when it is empty and has a stone within two cells |
| `Candidates.CandidateListSpec` | src/MiniMax.cc:88-149 | the candidate list holds each empty cell near a stone exactly once with its point value, sorted by non-increasing value and later scan first among equals |
| `Search.WinnerSpec` | src/MiniMax.cc:1143-1153 | the winner is not EMPTY exactly when some stone has five in a row through it, and then it is such a stone |
| `Search.EmptyBoardNoWinner` | src/MiniMax.cc:1143-1153 | an empty board has no winner |
| `Search.WinnerStays` | src/MiniMax.cc:1145-1150 | once the scan finds a winner, later cells do not change it |
| `Search.EngineEnv` | src/MiniMax.cc:155-160 | the engine's search consults the candidate list, the cache-based evaluation and the game-has-a-winner test |
| `Search.EngineEnvBounded` | src/MiniMax.cc:554-577 | with bounded tables and caches every leaf value fits in a 32-bit int |
| `Search.SeqMaxIsMax` | src/MiniMax.cc:176-178 | the running maximum is at least the start and every value, and is the start or one of the values |
| `Search.SeqMinIsMin` | src/MiniMax.cc:213-215 | the running minimum is at most the start and every value, and is the start or one of the values |
| `Search.MaxLoopAtLeast` | src/MiniMax.cc:163-186 | the maximising loop never returns less than its starting best |
| `Search.MinLoopAtMost` | src/MiniMax.cc:200-223 | the minimising loop never returns more than its starting best |
| `Search.MaxLoopBracket` | src/MiniMax.cc:158-190 | the maximising loop's value brackets the maximum of the children's minimax values with respect to the window |
| `Search.MinLoopBracket` | src/MiniMax.cc:192-227 | the minimising loop's value brackets the minimum of the children's minimax values with respect to the window |
| `Search.AlphaBetaBracket` | src/MiniMax.cc:151-233 | fail-soft alpha-beta returns the minimax value when that lies inside the window, and otherwise a value on the same side of the window, bounded by it |
| `Search.MinimaxRange` | src/MiniMax.cc:151-233 | with 32-bit leaf values the minimax value fits in a 32-bit int |
| `Search.FullWindowIsMinimax` | src/MiniMax.cc:151-233 | alpha-beta over the full window (INT_MIN, INT_MAX) equals plain minimax over the same candidates |
| `Search.ChoiceUpToSpec` | src/MiniMax.cc:264-290 | after k cells the root loop holds a candidate cell of maximal value seen so far, or no cell, in which case every candidate so far had value INT_MIN and the tie-break declined it |
| `Search.RootChoiceMinimax` | src/MiniMax.cc:261-298 | with 32-bit leaves, the chosen cell is a candidate whose depth-3 minimax value is at least every candidate's; with no cell chosen, every candidate's minimax value is INT_MIN and the tie-break declined each |
| `Search.RootChoiceSpec` | src/MiniMax.cc:261-298 | the chosen cell is a candidate with the best root value; with no cell chosen, every candidate's value is INT_MIN and the tie-break declined each |
| `MiniMax.ScoreCache.constructor` | include/mylibrary/MiniMax.h:56-65 | a new cache has all eight arrays of their sizes, separate, and zeroed |
| `MiniMax.ScoreCache.Copy` | src/MiniMax.cc:559-561 | a copied cache has fresh arrays with the same contents as the original |
| `MiniMax.ScoreCache.SetHorizontal` | src/MiniMax.cc:442-443 | writing a row slot changes that slot's score and type and nothing else |
| `MiniMax.ScoreCache.SetVertical` | src/MiniMax.cc:471-472 | writing a column slot changes that slot's score and type and nothing else |
| `MiniMax.ScoreCache.SetDiagonal` | src/MiniMax.cc:510-511 | writing a diagonal slot changes that slot's score and type and nothing else |
| `MiniMax.ScoreCache.SetAntiDiagonal` | src/MiniMax.cc:549-550 | writing an anti-diagonal slot changes that slot's score and type and nothing else |
| `MiniMax.AlphaBetaAlgorithm.constructor` | src/MiniMax.cc:8 | a new engine has the built score table, separate zeroed caches and a board backup, with every table score and cache slot in 0..1000000 |
| `MiniMax.AlphaBetaAlgorithm.CurrentEnvBounded` | src/MiniMax.cc:554-577 | in a bounded engine every leaf value the search reads fits in a 32-bit int |
| `MiniMax.AlphaBetaAlgorithm.InitScoreTable` | src/MiniMax.cc:10-53 | the two table arrays end up holding, for every address, the score and type the pattern list assigns it |
| `MiniMax.AlphaBetaAlgorithm.ApplyNth` | src/MiniMax.cc:15-52 | one pattern's pass over all addresses turns the table for the first n patterns into the table for n + 1 |
| `MiniMax.AlphaBetaAlgorithm.PatternMasks` | src/MiniMax.cc:16-40 | the two masks built from a pattern's text are its forward and backward packed codes |
| `MiniMax.AlphaBetaAlgorithm.ClaimAddress` | src/MiniMax.cc:44-50 | an address that still scores 0 takes the pattern's score and type when the pattern occurs in it forwards or backwards (a zero-score pattern sets only the type); every other address is unchanged |
| `MiniMax.AlphaBetaAlgorithm.IsAddrContainsMask` | src/MiniMax.cc:55-67 | returns true exactly when the mask occurs in the address at an even bit offset that fits within the address length |
| `MiniMax.AlphaBetaAlgorithm.IsValidPosition` | src/MiniMax.cc:69-86 | returns true exactly when some on-board cell within two rows and two columns holds a stone |
| `MiniMax.AlphaBetaAlgorithm.ScanLine` | src/MiniMax.cc:474-512 | one line scan returns the best window entry of the line's cells as read from the table |
| `MiniMax.AlphaBetaAlgorithm.ScanCell` | src/MiniMax.cc:489-507 | one scanner step extends the packed address and the best entry by one cell |
| `MiniMax.AlphaBetaAlgorithm.CombineScores` | src/MiniMax.cc:719-810 | returns the best of the four directional scores, raised to 10000, 5000, 1000, 100 or 10 by the first combination of open fours, threes and twos that is present |
| `MiniMax.AlphaBetaAlgorithm.ScorePointDir` | src/MiniMax.cc:814-933 | returns the best window entry of the chosen direction's line through the point |
| `MiniMax.AlphaBetaAlgorithm.ScorePoint` | src/MiniMax.cc:705-812 | returns the combined value of the four lines through the point |
| `MiniMax.AlphaBetaAlgorithm.ScoreChess` | src/MiniMax.cc:579-703 | returns the combined value of the four best slot entries, each the first slot of highest positive score |
| `MiniMax.AlphaBetaAlgorithm.ScoreChessPointToCache` | src/MiniMax.cc:410-552 | rewrites the four slots of the lines through the point with those lines' best entries and leaves every other slot unchanged |
| `MiniMax.AlphaBetaAlgorithm.ScoreChessToCache` | src/MiniMax.cc:935-1141 | leaves the cache in the state the full scan as written produces: rows and columns rescanned, anti-diagonal passes in the diagonal slots, anti-diagonal slots untouched |
| `MiniMax.AlphaBetaAlgorithm.FillRows` | src/MiniMax.cc:940-971 | every row slot holds the best entry of its row and no other slot changes |
| `MiniMax.AlphaBetaAlgorithm.FillColumns` | src/MiniMax.cc:972-1002 | every column slot holds the best entry of its column and no other slot changes |
| `MiniMax.AlphaBetaAlgorithm.FillLowerDiagonals` | src/MiniMax.cc:1005-1037 | slots 0..18 hold the lower diagonal or anti-diagonal lines and no other slot changes |
| `MiniMax.AlphaBetaAlgorithm.FillUpperDiagonals` | src/MiniMax.cc:1038-1070 | slots 19..36 hold the upper lines as the pass walks them and no other slot changes |
| `MiniMax.AlphaBetaAlgorithm.EvaluateMinMax` | src/MiniMax.cc:554-577 | returns the maximising side's rescanned cache score minus the other side's, rescanning only cells that differ from the backup, and leaves the engine's caches unchanged |
| `MiniMax.AlphaBetaAlgorithm.RescanChanged` | src/MiniMax.cc:562-568 | the copied cache ends up with a point update at every cell where the board differs from the backup, in scan order |
| `MiniMax.AlphaBetaAlgorithm.GetWinner` | src/MiniMax.cc:1143-1153 | returns the first stone in scan order with five in a row through it, or EMPTY |
| `MiniMax.AlphaBetaAlgorithm.InsertCandidate` | src/MiniMax.cc:106-142 | the list after insertion is the sorted insertion of the new candidate |
| `MiniMax.AlphaBetaAlgorithm.SearchCandidatePosition` | src/MiniMax.cc:88-149 | returns the sorted candidate list for the side and leaves the board as it found it |
| `MiniMax.AlphaBetaAlgorithm.TryValue` | src/MiniMax.cc:97-102 | placing the stone, scoring the point and undoing gives the cell's candidate value and restores the board |
| `MiniMax.AlphaBetaAlgorithm.MinMax` | src/MiniMax.cc:151-233 | returns the fail-soft alpha-beta value of the board for the given depth, sides and window, and restores the board |
| `MiniMax.AlphaBetaAlgorithm.MaxChildren` | src/MiniMax.cc:158-190 | the maximising loop over the candidates stops at the first cut-off and returns the loop's value, with the board restored |
| `MiniMax.AlphaBetaAlgorithm.MinChildren` | src/MiniMax.cc:192-227 | the minimising loop over the candidates stops at the first cut-off and returns the loop's value, with the board restored |
| `MiniMax.AlphaBetaAlgorithm.IsFirst` | src/MiniMax.cc:238-247 | returns true exactly when the board is empty |
| `MiniMax.AlphaBetaAlgorithm.BackUp` | src/MiniMax.cc:254-255 | the backup becomes an exact copy of the board and the board is unchanged |
| `MiniMax.AlphaBetaAlgorithm.FillCaches` | src/MiniMax.cc:257-259 | both caches take the full-scan state of the board for their side and stay within 0..1000000, and the board, backup and tables are unchanged |
| `MiniMax.AlphaBetaAlgorithm.SearchRoot` | src/MiniMax.cc:261-290 | the root loop ends holding the root choice over all cells, with the board restored |
| `MiniMax.AlphaBetaAlgorithm.RootCell` | src/MiniMax.cc:268-289 | one root step takes the cell when it is a candidate whose value beats the best, or ties it and the tie-break accepts |
| `MiniMax.AlphaBetaAlgorithm.AlphaBetaGo` | src/MiniMax.cc:235-299 | an empty board gives 1 and the centre cell; otherwise the backup and caches are refreshed, and the result is 1 with the root's best candidate, or 0 with the coordinates untouched when no cell was taken. A cell returned with 1 is a candidate whose depth-3 minimax value is at least every candidate's; with 0, every candidate's minimax value is INT_MIN and the tie-break declined each. The board is unchanged and the engine stays bounded |
| `Game.CountExact` | src/Game.cc:57 | a run count is the number of equal stones in a row from the start cell, stopping at the first other cell or the edge |
| `Game.LineWinIffFive` | src/Game.cc:53-63 | counting equal stones both ways along an axis reaches four exactly when five equal stones in a row on that axis pass through the cell |
| `Game.WinAtIffFiveInARow` | src/Game.cc:49-52 | the win test holds exactly when five equal stones in a row pass through the cell along some axis |
| `Game.Game.constructor` | src/Game.cc:7 | a new game has an empty board, black to move and no winner |
| `Game.Game.Reset` | src/Game.cc:8-16 | every cell becomes empty, black is to move and there is no winner |
| `Game.Game.GetRole` | src/Game.cc:17 | returns the side to move |
| `Game.Game.Play` | src/Game.cc:18-40 | an off-board or occupied cell gives -1 and changes nothing; otherwise exactly that cell gets the mover's stone, a five in a row makes the mover the winner with no side to move, else the turn passes, and the winner's code is returned |
| `Game.Game.GetStatus` | src/Game.cc:41-48 | returns the cell's code, or -1 off the board |
| `Game.Game.IsWin` | src/Game.cc:49-52 | returns true exactly when the column, row, diagonal or anti-diagonal test succeeds |
| `Game.Game.IsColumnWin` | src/Game.cc:53-63 | returns the column test: equal stones above and below the cell number at least four |
| `Game.Game.IsRowWin` | src/Game.cc:64-74 | returns the row test: equal stones on both sides along the row number at least four |
| `Game.Game.IsDiagonalWin` | src/Game.cc:75-92 | returns the diagonal test: equal stones both ways along the (1, 1) diagonal number at least four |
| `Game.Game.IsAntiDiagonalWin` | src/Game.cc:93-112 | returns the anti-diagonal test: equal stones both ways along the (1, -1) diagonal number at least four |
| `SimpleAutoPlayer.TableBounds` | src/SimpleAutoPlayer.cc:29 | every entry of the player's score table lies between 0 and 800000 |
| `SimpleAutoPlayer.TableIndexInRange` | src/SimpleAutoPlayer.cc:72-79 | for at most five stones the table index is in 0..9, and a window holding both sides' stones reads slot 9 |
| `SimpleAutoPlayer.WindowScore` | src/SimpleAutoPlayer.cc:32-80 | a window's contribution lies between 0 and 800000; a window leaving the board scores the empty-window value 7 |
| `SimpleAutoPlayer.WindowsUpTo` | src/SimpleAutoPlayer.cc:32-80 | the sum over the first n windows lies between 0 and n times 800000 |
| `SimpleAutoPlayer.PointValueBounds` | src/SimpleAutoPlayer.cc:8-21 | a cell's value is at least 0 and at most 20 times 800000, so the sum fits in a 32-bit int |
| `SimpleAutoPlayer.CountsSkipEmpty` | src/SimpleAutoPlayer.cc:64-71 | a window cell that is empty or off the board adds to neither count |
| `SimpleAutoPlayer.EmptyCellWindowIndex` | src/SimpleAutoPlayer.cc:57-79 | for an empty cell each of its windows holds at most four stones; own stones alone read slots 1..4, opposing stones alone 5..8, and slot 9 exactly when both are present |
| `SimpleAutoPlayer.CountsUpToNext` | src/SimpleAutoPlayer.cc:36-71 | reading one more on-board window cell adds that cell to the own or opposing count |
| `SimpleAutoPlayer.EvaluateDirection` | src/SimpleAutoPlayer.cc:23-82 | returns the sum of the five window scores at offsets -4..0 along the direction |
| `SimpleAutoPlayer.ScanWindow` | src/SimpleAutoPlayer.cc:33-79 | a window on the board gives its own and opposing counts; a window leaving the board gives (0, 0); either way the counts total at most five and select the table slot holding that window's score |
| `SimpleAutoPlayer.Evaluate` | src/SimpleAutoPlayer.cc:8-21 | returns the sum of the four directions' scores at the cell |
| `SimpleAutoPlayer.IsFirstStone` | src/SimpleAutoPlayer.cc:89-98 | returns true exactly when the board is empty |
| `SimpleAutoPlayer.GreedyChoiceCell` | src/SimpleAutoPlayer.cc:106-126 | the greedy value is at least 0, and when it is positive the reported cell is empty on the board and its value is the reported value |
| `SimpleAutoPlayer.GreedyChoiceMax` | src/SimpleAutoPlayer.cc:106-119 | no empty cell's value exceeds the greedy value |
| `SimpleAutoPlayer.GreedyCell` | src/SimpleAutoPlayer.cc:108-117 | one step takes an empty cell whose value beats the best, or ties it and the tie-break accepts |
| `SimpleAutoPlayer.SimpleStrategy` | src/SimpleAutoPlayer.cc:83-127 | an empty board gives 1 and the centre cell; otherwise the result is the greedy value, with the greedy cell reported when it is positive and the coordinates untouched when it is not; the board is never written |

## Left out

- `AlphaBetaGoMT` and `MinMaxThread` (src/MiniMax.cc:301-408, 1155-1166) are left out. They run the root search on Windows threads, and threads are not modelled.
- The application and UI layer (apps/) is not part of this model.
- The `rand() % 100 < 30` tie-breaks at the root of both players become a caller-supplied oracle `tie`. Nothing is claimed about the 30% rate.
- The candidate list's heap-allocated doubly linked list is modelled as a sequence. The model therefore does not capture pointer aliasing or the `delete` of the nodes.
- `memcpy` of the board and caches is modelled as a cell-by-cell copy into separate arrays.
- The caches start zeroed in the model. In the source a member `ScoreCache` starts with indeterminate contents until the first full scan. The full scan never writes the anti-diagonal slots, so the bound on those slots, and with it the 32-bit bound on leaf values, rests on this zero start.
- `ScoreChessPointToCache`'s incremental updates, applied cell by cell through `RescanChanged`, are not proved to agree with `ScoreChessToCache`'s full scan. The full scan itself does not agree with a point update on the diagonal slots, and both are modelled as written.
- 32-bit arithmetic is modelled where it can matter: the scanner address wraps modulo 2^32. Point values are proved to lie in 0..1000000 for the built tables. Leaf values are proved to lie within ±1000000 for every engine, because the tables and caches stay bounded from construction on (`Bounded`). Elsewhere integers are unbounded, and these bounds keep the search values in range.
- `MiniMax.AlphaBetaAlgorithm.MinMax`: the depth is a natural number. The source takes an `int` and is only ever called with depth 3 and below.

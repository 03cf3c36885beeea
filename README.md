# Board-game rule engines in Dafny

This project models the rule engines of five browser games: reversi, minesweeper,
gomoku, tic-tac-toe, and the numbered and picture variants of the sliding tile puzzle.
It then proves what those rules promise.

Each game is one module:

- **Reversi** (`reversi.dfy`):
  - an 8×8 board of `0` (empty), `1` (black) and `2` (white);
  - the eight-direction flanking scan (`canFlip`) and the legal-move list;
  - placing a stone and flipping every flanked run;
  - the pass / game-over decision (`checkAndPass`), the stone count and the winner.
- **Minesweeper** (`minesweeper.dfy`):
  - a rows × cols field of cells with mine, revealed and flagged flags and a neighbour count;
  - the three difficulties;
  - mine planting that keeps the first-clicked cell and its neighbours safe;
  - numbering, the flood-fill reveal, flag toggling and the win test.
- **Gomoku** (`gomoku.dfy`):
  - a 15×15 board;
  - placing a stone, the five-in-a-row test along four axes, the draw test and turn passing.
- **TicTacToe** (`tictactoe.dfy`):
  - a 3×3 board;
  - moves, the eight winning lines, the draw test and the running score.
- **ClassicPuzzle** (`classic_puzzle.dfy`) and **ImagePuzzle** (`image_puzzle.dfy`):
  - an n×n sliding puzzle kept in an array;
  - the Fisher–Yates shuffle, the inversion-parity solvability test, sliding a tile into the gap and the completion test.
  - The numbered puzzle uses `1 .. n*n-1` and a blank, written `0` here for JavaScript's `null`.
  - The picture puzzle uses pieces `0 .. n*n-1`, and the piece `n*n-1` is the gap.

Two shared modules support the games:

- `grid.dfy` (module `Grid`) defines boards as sequences of rows, with the eight directions, functional cell update and cell counting.
- `tiles.dfy` (module `Tiles`) holds what the two puzzles share: swapping, `indexOf`, the shuffle and the inversion count. It also proves how the inversion count's parity changes when the gap slides.

Each game object whose fields the code updates in place is a `class`. Its handlers are `method`s with `modifies` clauses, proved against specification functions on board values. A handler's loops are methods with their own invariants. Randomness arrives as parameters:

- the reversi colour toss as `p1Black`;
- the minesweeper mine picks as a sequence of coordinates;
- the puzzle shuffles as sequences of Fisher–Yates picks, one per round.

## Model

| member | source | states |
|---|---|---|
| Reversi.Initial | reversi/script.js:79-101 | the opening position: an 8×8 board of 0/1/2 values, empty except white at (3,3) and (4,4) and black at (3,4) and (4,3) |
| Reversi.Game.constructor | reversi/script.js:67-76 | a new game starts from the opening position with black to move; player 1 is black exactly when the coin toss says so |
| Reversi.Game.StartNewGame | reversi/script.js:79-106 | resets to the opening position with black to move and colours taken from the toss; the game invariant holds |
| Reversi.InitialBlackCanMove | reversi/script.js:105 | in the opening position black has a legal move, so the `checkAndPass` at the end of `startNewGame` never passes |
| Reversi.ScanRay | reversi/script.js:168-185 | the walk along one direction returns the run of opponent stones it passed, and it reports closed exactly when a player stone ends that run; the captured count is the run's length when closed and 0 otherwise |
| Reversi.FlankMeans | reversi/script.js:173-184 | the scan reports a run of t stones exactly when t opponent stones on the board lie next to each other along the ray and a player stone follows them |
| Reversi.FlankOnBoard | reversi/script.js:173 | the scan reads only cells on the board, and the cells it passes are opponent stones |
| Reversi.CanFlipMeans | reversi/script.js:167-187 | `canFlip` is true exactly when some direction has at least one opponent stone followed by a player stone |
| Reversi.Game.CanFlipAt | reversi/script.js:167-187 | the imperative scan over the eight directions returns the flanking predicate |
| Reversi.Game.ValidMovesInRow | reversi/script.js:156-162 | the inner loop lists the empty cells of one row where the player can flip, in column order |
| Reversi.Game.GetValidMoves | reversi/script.js:151-165 | returns the list of legal moves, row by row |
| Reversi.MovesInRowMembers | reversi/script.js:156-162 | a cell is in one row's list exactly when it lies in that row before the scan position, is empty and flanks |
| Reversi.MovesUpToMembers | reversi/script.js:155-163 | a cell is in the list built so far exactly when it lies in an earlier row, is empty and flanks |
| Reversi.ValidMovesMembers | reversi/script.js:151-165 | a move is listed exactly when it is on the board, its cell is empty and it flanks in some direction |
| Reversi.NoMovesMeans | reversi/script.js:228-234 | an empty move list means the player has no legal move, and the converse |
| Reversi.FlipStones | reversi/script.js:205-207 | turning the collected run flips exactly those ray cells to the player's colour |
| Reversi.FlipDirection | reversi/script.js:195-215 | one direction of `makeMove` flips the captured run and leaves everything else alone |
| Reversi.PlaceAndFlip | reversi/script.js:191-216 | placing and flipping all eight directions gives the specified after-move board, which is again a 0/1/2 board |
| Reversi.Game.MakeMove | reversi/script.js:189-224 | the board becomes the after-move board, the turn passes to the opponent and the colours are unchanged; a cell other than the played one changes exactly when it lies on a run of opponent stones that a player stone closes off in some direction |
| Reversi.MoveOnlyFlipsOpponent | reversi/script.js:189-216 | after a move the played cell holds the mover's stone, and every other cell is unchanged or was an opponent stone that is now the mover's |
| Reversi.MoveFlipsCell | reversi/script.js:189-216 | a cell other than the played one changes exactly when it lies on a run of opponent stones, read on the board before the move, that some direction closes off with a mover stone; such a cell becomes the mover's and every other cell keeps its value |
| Reversi.MoveFlipsExactly | reversi/script.js:189-216 | the same for every cell of the board at once: the cells a move turns over are exactly the flanked ones, and all of them end up the mover's |
| Reversi.FlipRayEffect | reversi/script.js:205-207 | turning over the first k steps of a ray sets exactly those cells to the player and leaves every other cell as it was |
| Reversi.FlankSameRay | reversi/script.js:199-212 | the scan in one direction reads only the cells of that ray, so two boards that agree on the ray give the same capture |
| Reversi.FlipRayKeepsOtherRay | reversi/script.js:194-216 | flipping in one direction leaves the ray of every other direction as it was, so later directions scan the cells they would have scanned on the board before any flip |
| Reversi.FlipDirsEffect | reversi/script.js:194-216 | the loop over the remaining directions turns over exactly the cells lying on a run one of them captures, read on the board those rays held at the start |
| Reversi.CapturedMeansFlanked | reversi/script.js:191-212 | a cell lies on a run some direction captures after the stone is placed exactly when it lies on a run of opponent stones closed off by a mover stone on the board before the move |
| Reversi.MoveAccounting | reversi/script.js:191-216 | a move on an empty cell that flips k stones adds 1+k to the mover's count, takes k from the opponent and adds exactly one stone to the board |
| Reversi.FlipRayCounts | reversi/script.js:199-209 | flipping a run of k opponent stones moves k stones between the counts, keeps the number of stones and leaves the rest of the ray alone |
| Reversi.FlipDirsCounts | reversi/script.js:194-216 | flipping over all directions moves exactly the flipped number of stones from opponent to mover |
| Reversi.ValidMoveFlips | reversi/script.js:189-216 | a move that `canFlip` approves flips at least one stone |
| Reversi.RayAvoidsOrigin | reversi/script.js:191-196 | writing the played cell before scanning does not change any direction's capture |
| Reversi.Game.CheckAndPass | reversi/script.js:226-245 | play continues exactly when the player to move has a move. The turn passes exactly when only the opponent has one. The game is over exactly when neither has one, and the outcome is then decided by the scores. The board never changes |
| Reversi.Game.GetScores | reversi/script.js:272-289 | returns each player's stone count for their colour |
| Reversi.ScoresTotal | reversi/script.js:272-289 | the two scores add up to the number of stones on the board |
| Reversi.Game.EndGame | reversi/script.js:253-267 | player 1 wins exactly when their score is higher, player 2 exactly when theirs is, and the game is a draw exactly when the scores are equal |
| Minesweeper.Game.constructor | minesweeper/script.js:20-35 | a new game starts on the easy board (9×9, 10 mines): the board is all fresh cells, no flags are placed, the first click is pending, the game is not over and it is consistent |
| Minesweeper.Game.StartGame | minesweeper/script.js:66-87 | the difficulty fixes the size and mine count (9×9/10, 16×16/40, 16×30/99); the board is all fresh cells, no flags are placed and the first click is pending |
| Minesweeper.FreshConsistent | minesweeper/script.js:66-87 | a fresh board satisfies the game invariant: no mines, nothing revealed, no flags, correct numbers |
| Minesweeper.Game.CreateBoard | minesweeper/script.js:89-103 | builds a rows × cols board of fresh cells |
| Minesweeper.NewBoard | minesweeper/script.js:89-103 | the nested loops build exactly the fresh board |
| Minesweeper.MinesAroundAllSafe | minesweeper/script.js:93-99 | the zero counts of fresh cells are correct on a board with no mines |
| Minesweeper.Game.PlaceMines | minesweeper/script.js:105-118 | the board becomes the planted board, numbered; nothing else changes |
| Minesweeper.Plant | minesweeper/script.js:106-116 | the retry loop over the supplied picks produces the planted board |
| Minesweeper.PlantedFacts | minesweeper/script.js:105-116 | planting only adds mines, at most the requested number, and never on the clicked cell or its neighbours. When it falls short of the request, every pick away from the safe area is already a mine |
| Minesweeper.PlantKeepsConsistent | minesweeper/script.js:211-213 | planting and numbering at the first click, when the drawing reaches totalMines mines as the source's loop does before it ends, keeps the game invariant (now with exactly totalMines mines), keeps the clicked cell and its neighbours mine-free and keeps the flags and face-up cells |
| Minesweeper.Game.CalculateNumbers | minesweeper/script.js:120-142 | the board becomes the numbered board |
| Minesweeper.NumberAll | minesweeper/script.js:127-141 | the row loop produces the numbered board |
| Minesweeper.NumberRow | minesweeper/script.js:128-140 | the column loop produces one row of the numbered board |
| Minesweeper.CountNeighbourMines | minesweeper/script.js:131-139 | the eight-neighbour loop counts exactly the on-board neighbours that are mines |
| Minesweeper.MinesAroundFacts | minesweeper/script.js:131-139 | a neighbour count lies between 0 and 8, and it is 0 exactly when no on-board neighbour is a mine |
| Minesweeper.NumberedCorrect | minesweeper/script.js:120-142 | after numbering every safe cell carries its neighbour-mine count, the count is between 0 and 8, and no other field of any cell changes |
| Minesweeper.Game.RevealCell | minesweeper/script.js:247-272 | the board becomes the specified flood-fill reveal of the cell |
| Minesweeper.Game.RevealNeighbours | minesweeper/script.js:264-270 | the `forEach` over the eight directions reveals each on-board neighbour in turn, giving the specified reveal of the cell's surroundings |
| Minesweeper.Reveal | minesweeper/script.js:247-272 | the reveal never turns a cell face down (the face-down count does not grow), which is why the flood fill stops; what it turns up is stated by `RevealSpreads` and `RevealOnlyFromZero` |
| Minesweeper.RevealSafe | minesweeper/script.js:247-272 | revealing a safe cell keeps the mines, flags and numbers and only turns cells face up. It never shows a mine, and it turns the cell face up unless the cell is flagged |
| Minesweeper.RevealAroundSafe | minesweeper/script.js:259-270 | spreading from a cell with no neighbouring mines only reveals and never shows a mine |
| Minesweeper.SpreadTrans | minesweeper/script.js:247-272 | the spreading property composes along two growth steps: a fill made of two fills still leaves every zero cell it turned up surrounded by face-up or flagged cells |
| Minesweeper.RevealSpreads | minesweeper/script.js:247-272 | revealing a safe cell spreads: every cell the fill turns face up whose count is zero ends with all its on-board neighbours face up or flagged. So the fill reaches every connected zero cell and the numbered cells bordering them, and stops at flags and at cells already face up |
| Minesweeper.RevealAroundSpreads | minesweeper/script.js:264-270 | the loop over the eight directions of a zero cell spreads, and afterwards each of the remaining on-board neighbours is face up or flagged |
| Minesweeper.RevealOnlyFromZero | minesweeper/script.js:254-270 | the converse of `RevealSpreads`: the fill recurses only from cells with no neighbouring mines, so every cell other than the clicked one that it turns face up borders a cell it opened whose count is zero |
| Minesweeper.RevealAroundOnlyFromZero | minesweeper/script.js:264-270 | every cell the loop over a zero cell's eight directions turns face up is a neighbour of that cell or borders a zero cell the loop opened |
| Minesweeper.RevealNeighbourOnlyFromZero | minesweeper/script.js:265-269 | one turn of that loop, revealing an on-board neighbour, keeps the same property |
| Minesweeper.GrowsKeepsNumbers | minesweeper/script.js:251 | only turning cells face up keeps every number correct and every mine in place |
| Minesweeper.RevealKeepsConsistent | minesweeper/script.js:218-224 | revealing a safe unflagged cell turns it face up, spreads through the zero cells, turns up nothing that does not border an opened zero cell, and keeps the game invariant; on the result the win count test holds exactly when every safe cell is face up |
| Minesweeper.Game.HandleLeftClick | minesweeper/script.js:207-226 | a click on a flagged or face-up cell, or after the game is over, changes nothing. The first click plants away from the cell first. A mine sets gameOver. Otherwise the cell is revealed and the fill spreads from it as `Spread` states and opens only neighbours of opened zero cells as `OnlyFromZero` states, and gameOver is set exactly when the face-up count reaches the cell count minus the mine count, which is exactly when every safe cell is face up. The invariant is kept; after the first click it includes exactly totalMines mines on the board |
| Minesweeper.Game.HandleRightClick | minesweeper/script.js:228-245 | on a face-down cell of a running game the flag toggles and the counter moves by one the matching way; otherwise nothing changes; the invariant is kept |
| Minesweeper.FlagKeepsConsistent | minesweeper/script.js:228-243 | toggling a flag keeps the flag counter equal to the number of flags and keeps the invariant |
| Minesweeper.FlagKeepsMines | minesweeper/script.js:232-240 | toggling a flag changes no mine and no number |
| Minesweeper.Game.CheckWin | minesweeper/script.js:297-311 | reports a win exactly when the face-up count equals the cell count minus the mine count, and sets gameOver when it does |
| Minesweeper.CountRevealed | minesweeper/script.js:298-303 | the loop counts the face-up cells |
| Minesweeper.WinMeansAllSafeRevealed | minesweeper/script.js:297-311 | when no mine is face up, the count test holds exactly when every safe cell is face up |
| Minesweeper.CountSafe | minesweeper/script.js:305 | safe cells and mines together make up the whole board |
| Gomoku.Game.constructor | gomoku/script.js:19-30 | a new game has an empty 15×15 board and an empty move history, is active, lets black move first and is valid |
| Gomoku.Game.ResetGame | gomoku/script.js:79-83 | the board becomes empty, black moves, the game is active and the move history is empty |
| Gomoku.Game.HandleCellClick | gomoku/script.js:95-107 | a click on a taken cell or in a finished game changes nothing. Otherwise the stone is placed and recorded. The game stays active exactly when the move neither wins nor fills the board, and the turn passes only then |
| Gomoku.Game.PlaceStone | gomoku/script.js:109-133 | places the current stone, appends the move. A win ends the game with that player as winner. A full board ends it in a draw. Otherwise the turn passes |
| Gomoku.Game.TogglePlayer | gomoku/script.js:140-143 | only the player to move changes, to the other colour |
| Gomoku.Game.EndGame | gomoku/script.js:216-217 | the game becomes inactive and nothing else changes |
| Gomoku.Scan | gomoku/script.js:181-189 | the counting loop returns the number of same-colour stones following the point along the direction, up to four |
| Gomoku.RunFacts | gomoku/script.js:181-189 | the run counts only matching on-board stones and stops at the first cell that is off the board or does not match |
| Gomoku.Backwards | gomoku/script.js:192-200 | the backward loop is the forward loop along the opposite direction |
| Gomoku.RunsMeanFive | gomoku/script.js:178-202 | 1 + forward run + backward run ≥ 5 exactly when five matching stones in a row pass through the point on that axis |
| Gomoku.RunsGiveFive | gomoku/script.js:178-202 | runs that add up to five give a window of five matching stones through the point |
| Gomoku.FiveGivesRuns | gomoku/script.js:178-202 | a window of five matching stones through the point makes the runs add up to five |
| Gomoku.Game.CheckWin | gomoku/script.js:168-206 | reports a win exactly when some axis holds five stones in a row through the point, all of the point's colour |
| Gomoku.WinnerOwnsPoint | gomoku/script.js:168-206 | a winning line through a point always contains that point's own stone |
| Gomoku.Game.CheckDraw | gomoku/script.js:208-210 | comparing the move-history length with 225 reports a draw exactly when every cell of the board is taken, because each recorded move took its own cell |
| TicTacToe.Game.constructor | tictactoe/script.js:25-33 | no board yet, X to move, game inactive, both scores zero |
| TicTacToe.Game.StartNewGame | tictactoe/script.js:65-68 | an empty 3×3 board, X to move and an active game; the scores carry over |
| TicTacToe.Game.MakeMove | tictactoe/script.js:97-111 | a move on a taken cell or in an inactive game changes nothing. Otherwise the mark is placed. A line ends the game and scores for the mover. A full board without a line ends it without a score. Otherwise the turn passes |
| TicTacToe.LinesMeanWin | tictactoe/script.js:113-130 | `checkWin` is true exactly when the player owns all three cells of one of the eight lines |
| TicTacToe.LineGivesWin | tictactoe/script.js:113-130 | owning a line makes `checkWin` true |
| TicTacToe.WinGivesLine | tictactoe/script.js:113-130 | `checkWin` true means the player owns a line |
| TicTacToe.CheckDraw | tictactoe/script.js:132-134 | the board counts as full exactly when all nine cells hold a mark |
| TicTacToe.Game.EndGame | tictactoe/script.js:136-159 | the game becomes inactive; on a win the player to move scores one point, and on a draw nobody does |
| Tiles.Shuffle | classic_tilepuzzle/script.js:65-70 | the in-place Fisher–Yates loop produces the specified shuffle of the array |
| Tiles.ShuffledFromPermutes | classic_tilepuzzle/script.js:65-70 | a shuffle is a permutation of the tiles |
| Tiles.SwapPermutes | classic_tilepuzzle/script.js:68 | a destructuring swap is a permutation |
| Tiles.IndexOf | classic_tilepuzzle/script.js:81 | `indexOf` gives the first position holding the value, or −1 exactly when it is absent |
| Tiles.CountInversions | classic_tilepuzzle/script.js:73-80 | the double loop counts exactly the out-of-order pairs, leaving out the value the truthiness test skips |
| Tiles.SlideParity | classic_tilepuzzle/script.js:72-105 | moving the gap d places changes the inversion count's parity by d − 1 |
| Tiles.SortedNoInversions | classic_tilepuzzle/script.js:73-80 | an increasing arrangement has no inversions |
| Tiles.AdjacentCases | classic_tilepuzzle/script.js:128-133 | a Manhattan-adjacent pair is either side by side in a row or one row apart at distance n |
| ClassicPuzzle.Puzzle.constructor | classic_tilepuzzle/script.js:48-54 | the puzzle starts solved: 1 .. n*n−1 and then the blank, with no moves |
| ClassicPuzzle.Puzzle.InitPuzzle | classic_tilepuzzle/script.js:48-54 | a fresh array holding the solved arrangement |
| ClassicPuzzle.NewTiles | classic_tilepuzzle/script.js:49-53 | the push loop builds the solved arrangement |
| ClassicPuzzle.SolvedFacts | classic_tilepuzzle/script.js:48-54 | the solved arrangement has distinct tiles, no inversions and the blank last |
| ClassicPuzzle.Puzzle.StartNewGame | classic_tilepuzzle/script.js:39-46 | resets the move count and deals the tiles |
| ClassicPuzzle.Puzzle.ShufflePuzzle | classic_tilepuzzle/script.js:57-63 | the do-while loop re-shuffles until the tiles are solvable and not complete; the array holds the specified deal |
| ClassicPuzzle.DealResult | classic_tilepuzzle/script.js:57-63 | a deal is again an arrangement of the same tiles, and when the loop stops it is solvable and not already complete |
| ClassicPuzzle.Puzzle.IsSolvable | classic_tilepuzzle/script.js:72-105 | computes the inversion-and-blank-row parity test |
| ClassicPuzzle.SolvedIsSolvable | classic_tilepuzzle/script.js:91-103 | the solved arrangement passes the test |
| ClassicPuzzle.LastTwoSwappedUnsolvable | classic_tilepuzzle/script.js:91-103 | the solved arrangement with its last two tiles exchanged fails the test |
| ClassicPuzzle.StepPreservesSolvable | classic_tilepuzzle/script.js:72-105 | sliding a tile never changes the test's answer |
| ClassicPuzzle.PlayPreservesSolvable | classic_tilepuzzle/script.js:72-105 | no sequence of clicks changes the test's answer |
| ClassicPuzzle.UnsolvableNeverCompletes | classic_tilepuzzle/script.js:147-154 | from an arrangement that fails the test, no sequence of clicks reaches completion |
| ClassicPuzzle.Puzzle.MoveTile | classic_tilepuzzle/script.js:125-145 | the tiles change exactly when the clicked tile is Manhattan-adjacent to the blank, and then the two swap and the move count rises by one. The test's answer is preserved. Completion is reported only after a move that completes |
| ClassicPuzzle.StepMoves | classic_tilepuzzle/script.js:133-136 | a click changes the tiles exactly when it is adjacent to the blank |
| ClassicPuzzle.StepArrangement | classic_tilepuzzle/script.js:136 | a slide keeps an arrangement of the same tiles with one blank |
| ClassicPuzzle.PlayArrangement | classic_tilepuzzle/script.js:125-145 | any sequence of clicks keeps an arrangement |
| ClassicPuzzle.ArrangementFacts | classic_tilepuzzle/script.js:48-54 | an arrangement has n*n distinct tiles and contains the blank |
| ClassicPuzzle.Puzzle.CheckCompletion | classic_tilepuzzle/script.js:147-154 | the completion test |
| ClassicPuzzle.CompleteIsSolved | classic_tilepuzzle/script.js:147-154 | the completion test holds exactly for the solved arrangement |
| ImagePuzzle.Puzzle.constructor | image_tilepuzzle/script.js:81-87 | the puzzle starts solved: 0 .. n*n−1 in order, with no moves |
| ImagePuzzle.Puzzle.InitPuzzle | image_tilepuzzle/script.js:81-87 | a fresh array holding 0 .. n*n−1 in order |
| ImagePuzzle.NewTiles | image_tilepuzzle/script.js:82-85 | the push loop builds the solved arrangement |
| ImagePuzzle.SolvedFacts | image_tilepuzzle/script.js:81-87 | the solved arrangement has distinct pieces, no inversions and the gap last |
| ImagePuzzle.Puzzle.StartGame | image_tilepuzzle/script.js:72-79 | resets the move count and deals the pieces |
| ImagePuzzle.Puzzle.ShufflePuzzle | image_tilepuzzle/script.js:89-94 | re-shuffles until the pieces pass the (corrected) test and are not complete |
| ImagePuzzle.DealResult | image_tilepuzzle/script.js:89-94 | a deal is again an arrangement, and when the loop stops it passes the corrected test (is solvable) and is not complete |
| ImagePuzzle.Puzzle.IsSolvable | image_tilepuzzle/script.js:103-118 | computes the corrected parity test (see Findings) |
| ImagePuzzle.SolvedIsSolvable | image_tilepuzzle/script.js:112-117 | the solved arrangement passes both the corrected test and the test as written |
| ImagePuzzle.StepPreservesSolvable | image_tilepuzzle/script.js:103-118 | with the corrected test, sliding a piece orthogonally never changes the answer |
| ImagePuzzle.PlayFacts | image_tilepuzzle/script.js:142-155 | any sequence of clicks played with orthogonal moves keeps an arrangement and the corrected test's answer |
| ImagePuzzle.UnsolvableNeverCompletes | image_tilepuzzle/script.js:157-164 | from an arrangement that fails the corrected test, no sequence of orthogonal moves completes the picture |
| ImagePuzzle.Puzzle.MoveTile | image_tilepuzzle/script.js:142-155 | the pieces change exactly when the click is orthogonally adjacent to the gap. The two then swap and the move count rises by one. The test's answer is preserved, and completion is reported only after a completing move. This is the corrected rule; see Findings |
| ImagePuzzle.StepAsWrittenMoves | image_tilepuzzle/script.js:143-146 | as written, a click changes the pieces exactly when it is one of the four neighbouring indices of the gap |
| ImagePuzzle.StepMoves | image_tilepuzzle/script.js:143-146 | with the corrected rule, a click changes the pieces exactly when it is orthogonally adjacent to the gap |
| ImagePuzzle.StepArrangement | image_tilepuzzle/script.js:146 | a slide, as written or corrected, keeps an arrangement of the same pieces |
| ImagePuzzle.ArrangementFacts | image_tilepuzzle/script.js:81-87 | an arrangement has n*n distinct pieces and contains the gap |
| ImagePuzzle.Puzzle.CheckCompletion | image_tilepuzzle/script.js:157-164 | the completion test |
| ImagePuzzle.CompleteIsSolved | image_tilepuzzle/script.js:157-164 | the completion test holds exactly for the solved arrangement |
| ImagePuzzle.AsWrittenRejectsReachable | image_tilepuzzle/script.js:105-116 | one slide from the solved 2×2 picture gives [0,1,3,2]; the test as written rejects it, although it is solvable |
| ImagePuzzle.AsWrittenAcceptsUnsolvable | image_tilepuzzle/script.js:105-116 | the test as written accepts the 3×3 board [1,0,2,3,4,5,6,7,8], which the corrected test rejects, and no sequence of clicks handled as written (wrap-around moves included) completes it |
| ImagePuzzle.StepAsWrittenPreservesSolvableOdd | image_tilepuzzle/script.js:142-146 | on a board of odd side every move the written neighbour test admits, wrap-around ones included, keeps the corrected test's answer |
| ImagePuzzle.PlayAsWrittenFactsOdd | image_tilepuzzle/script.js:142-146 | on a board of odd side any sequence of clicks handled as written keeps an arrangement and the corrected test's answer |
| ImagePuzzle.UnsolvableNeverCompletesAsWrittenOdd | image_tilepuzzle/script.js:142-164 | on a board of odd side, clicks handled as written never complete an arrangement that fails the corrected test |
| ImagePuzzle.WrapMoveAccepted | image_tilepuzzle/script.js:144-145 | on a 3×3 board the index list counts index 2 as next to gap index 3, although they sit at opposite ends of two rows |
| ImagePuzzle.WrapMoveBreaksInvariant | image_tilepuzzle/script.js:144-146 | a wrap-around move turns [0,1,3,2], which the corrected test accepts, into [0,3,1,2], which it rejects |

## Left out

- The DOM, rendering, CSS classes, modals, alerts, names, vibration, timers (`setTimeout`, `setInterval`, elapsed time), `localStorage` and the image `FileReader` are not modelled. Only the rule state is.
- The breaking-blocks game is not part of this model.
- Randomness arrives as parameters:
  - the reversi colour toss is the `p1Black` argument;
  - minesweeper's random coordinates are a supplied sequence of picks;
  - each puzzle shuffle round is a supplied sequence of Fisher–Yates picks.
- Minesweeper.Plant: the source retries random cells until enough mines are placed. The model instead walks a finite pick sequence, so it may place fewer mines when the picks run out. Minesweeper.PlantedFacts states that it falls short only when every usable pick is already a mine.
- Minesweeper.Game.HandleLeftClick: the first click is only modelled with picks that let the drawing reach totalMines mines, because the source's loop never ends otherwise (it would hang the page on a board with too few cells away from the click). A game whose mine count cannot be reached is not modelled.
- ClassicPuzzle.Puzzle.ShufflePuzzle: the source's `do … while` may loop without bound. The model stops when the supplied rounds are used up, and reports whether it reached a solvable, incomplete deal.
- ImagePuzzle.Puzzle.ShufflePuzzle: differs from the source in two ways. It stops when the supplied rounds are used up, where the source's `do … while` may loop without bound. And it loops until the pieces pass the corrected parity test, where the source stops on any incomplete deal that its test as written accepts, such as the unsolvable `CornerSwapped3` board [1,0,2,3,4,5,6,7,8] (see Findings).
- Reversi.Game.MakeMove: the delayed `checkAndPass` (a 300 ms timer) is the separate method Reversi.Game.CheckAndPass, and the caller runs it after the move. The alert on a pass is left out.
- Reversi.Game.EndGame returns the outcome instead of writing the winner's name and colour into the page.
- Gomoku.Game.EndGame drops the source's `winner` parameter, which `endGame` only writes into the page; the model only clears `gameActive`, and the outcome is what `Gomoku.Game.PlaceStone` returns.
- Gomoku.Game.PlaceStone returns the outcome that the source passes to `endGame`. Win highlighting and the last-move marker are left out; the move history is kept.
- Minesweeper.Game.HandleLeftClick: when a mine is hit, the source's `explode` also shows every mine on the page. That display does not change any cell's fields, so the model only sets `gameOver`.
- Minesweeper.NumberRow reads every count from the board as it was before numbering. The source writes counts into the same array as it goes. Counts depend only on the mine flags, so the results agree.
- ImagePuzzle.Puzzle.IsSolvable and ImagePuzzle.Puzzle.MoveTile follow the corrected rules, not the code as written. The behaviour as written is modelled by `SolvableAsWritten` and `StepAsWritten` (see Findings).
- Cells and tiles are values in sequences, not shared JavaScript objects. Nothing in the rule code aliases them.
- Integers are unbounded. Every count involved is at most a few hundred, far from JavaScript's safe-integer limit.

## Findings

| source | as written | input that shows it | evidently intended | confidence | as-written member | corrected member |
|---|---|---|---|---|---|---|
| image_tilepuzzle/script.js:107 | the truthiness test `array[i] && array[j]` skips piece 0 (a real picture piece) and counts the gap `n*n-1` as a piece | the 2×2 board [0,1,3,2], one slide from the finished picture, is rejected | leave out the gap, not piece 0, when counting inversions | not executed | ImagePuzzle.AsWrittenRejectsReachable | ImagePuzzle.StepPreservesSolvable |
| image_tilepuzzle/script.js:107 | the same count accepts boards that cannot be completed | the 3×3 board [1,0,2,3,4,5,6,7,8] passes the test, and no sequence of clicks completes it, even with the game's own wrap-around moves | only deal boards that can be completed | not executed | ImagePuzzle.AsWrittenAcceptsUnsolvable | ImagePuzzle.UnsolvableNeverCompletes |
| image_tilepuzzle/script.js:144-145 | `emptyIndex - 1` and `emptyIndex + 1` count as neighbours even across the end of a row | 3×3 board with the gap at index 3: a click on index 2 (end of the first row) is accepted. On 2×2 [0,1,3,2] a click on index 1 gives [0,3,1,2], which the corrected test rejects, so the test's answer is no longer kept by play | only orthogonally adjacent pieces move, as in the numbered puzzle's Manhattan test | not executed | ImagePuzzle.WrapMoveBreaksInvariant | ImagePuzzle.Puzzle.MoveTile |

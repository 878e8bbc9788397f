# Othello engine model

This project models the game engine of OthelloJ, a Java Othello (Reversi) program, and proves its rules correct. It covers three files:

- `Stone` is the cell value: Empty, Black or White, with `opposite` and a display character.
- `Board` is an 8x8 grid with a current player. It supports move legality, the list of stones a move turns, making a move, passing, the row-major list of legal moves, stone counts, game over and the winner.
- `AIPlayer` is the computer opponent. It takes the first legal corner. Otherwise it avoids the cells next to the corners when it can. Among what remains it takes the move with the largest capture count plus a random bonus of 0 to 2.

The Dafny modules follow that structure:

- `Stones` models `Stone.java`.
- `Rules` holds the game rules as functions on grid values (`seq<seq<Stone>>`) and the lemmas about them:
  - a move's flips are exactly the opponent runs it brackets, with no duplicates;
  - a move is legal iff it brackets some run;
  - the legal-move list is complete, sound and in row-major order;
  - stones are conserved, and a move changes the counts by exactly its capture;
  - the winner and the next player are characterised.
- `BoardEngine` models `Board.java`:
  - a class over an `array2<Stone>` and a `currentPlayer` field;
  - every loop of the Java code is a method with loop invariants, proved against the `Rules` functions.
- `AIPlayers` models `AIPlayer.java`: a class whose `ChooseMove` method is proved to follow the three strategies.
- `Opening` states facts about the starting position:
  - two stones of each colour;
  - the four opening moves of each colour;
  - the stone turned by one opening move;
  - the game is not over at the start.

Who moves first follows the code. `Board.initializeBoard` (Board.java:59-60) sets `currentPlayer` to White, and the model's constructor ensures `currentPlayer == White`. `BoardTest.java` assumes Black moves first:

- it expects `getCurrentPlayer()` to be Black after construction (BoardTest.java:49-50);
- it plays Black's opening moves through the current-player overloads (for example the copy test at BoardTest.java:191-202).

With White to move those calls are rejected: `Opening.OpeningLegal` shows that (3, 2) is not among White's opening cells. Facts about Black's first move are therefore stated through the explicit-player operations (`Rules.IsLegal`, `Rules.Flips`, `Rules.ValidMoves` with `p == Black`).

The random bonus of `AIPlayer.chooseMove` (AIPlayer.java:76) is a parameter. `noise[k]` is the value `random.nextInt(3)` would return for the k-th considered move, and the caller supplies it.

## Model

| member | source | states |
|---|---|---|
| Stones.Opposite | ExerciseResults/OthelloJ/Stone.java:13-19 | the result is Empty exactly when the argument is, and a colour's opposite is the other colour |
| Stones.OppositeInvolution | ExerciseResults/OthelloJ/Stone.java:13-19 | opposite applied twice gives the stone back |
| Stones.ToChar | ExerciseResults/OthelloJ/Stone.java:25-31 | the display character is a filled circle for Black, a hollow circle for White and '.' for Empty |
| Stones.ToCharInjective | ExerciseResults/OthelloJ/Stone.java:25-31 | different stones print as different characters |
| Rules.Direction | ExerciseResults/OthelloJ/Board.java:14-18 | each entry of the direction table is a unit king step |
| Rules.DirectionTable | ExerciseResults/OthelloJ/Board.java:14-18 | looking up a table entry's step gives back its index, so the eight steps are distinct |
| Rules.RunCells | ExerciseResults/OthelloJ/Board.java:144-148 | the cells the scan loop collects are the consecutive cells along the direction, all on the board and all holding the opponent's colour |
| Rules.RunEndCell | ExerciseResults/OthelloJ/Board.java:144-148 | the scan loop stops at the first cell past the run, which is off the board or not the opponent's colour |
| Rules.RunStop | ExerciseResults/OthelloJ/Board.java:144 | the loop collects nothing when its first cell fails the test |
| Rules.RunFromNeighbour | ExerciseResults/OthelloJ/Board.java:140-148 | the run starting next to the placed stone is the cells at distance 1..n, and the scan ends at distance n+1 |
| Rules.RayFlipsCells | ExerciseResults/OthelloJ/Board.java:139-153 | a direction contributes a non-empty list only when the cell after the run holds the mover's colour, and every contributed cell holds the opponent's colour |
| Rules.RayFlipsBracket | ExerciseResults/OthelloJ/Board.java:151-153 | a non-empty contribution is a bracket: n opponent stones followed by one of the mover's |
| Rules.FlipsUpToCells | ExerciseResults/OthelloJ/Board.java:133-157 | every collected cell is on the board and holds the opponent's colour, and the mover is not Empty |
| Rules.FlipsUpToDirections | ExerciseResults/OthelloJ/Board.java:138-154 | every cell collected from the first k directions lies along one of those k directions from the origin |
| Rules.RayDirection | ExerciseResults/OthelloJ/Board.java:138-154 | a cell added by the k-th direction lies along exactly that direction |
| Rules.RayCellDirection | ExerciseResults/OthelloJ/Board.java:139-153 | a cell collected along direction d lies in direction d from the origin |
| Rules.MovesInRowSpec | ExerciseResults/OthelloJ/Board.java:226-232 | scanning part of one row lists exactly the legal cells of that part, in row-major order |
| Rules.MovesInRowsSpec | ExerciseResults/OthelloJ/Board.java:224-234 | scanning the first n rows lists exactly the legal cells of those rows, in row-major order |
| Rules.MovesInRowStep | ExerciseResults/OthelloJ/Board.java:227-231 | the inner loop's step: one more column appends that cell iff it is legal |
| Rules.MovesInRowsStep | ExerciseResults/OthelloJ/Board.java:226-232 | the outer loop's step: one more row appends that row's legal cells |
| Rules.SetCell | ExerciseResults/OthelloJ/Board.java:171 | placing a stone changes exactly the target cell |
| Rules.Paint | ExerciseResults/OthelloJ/Board.java:175-177 | turning stones gives the listed cells the new colour and leaves every other cell alone |
| Rules.Winner | ExerciseResults/OthelloJ/Board.java:265-280 | no winner before the game is over; a winner has strictly more stones than the other colour; an over game without a winner is a tie |
| Rules.NextPlayer | ExerciseResults/OthelloJ/Board.java:188-201 | the turn passes to the opponent unless the opponent cannot move and the mover can; the result is never Empty; a game that is not over continues with a player who can move |
| Rules.InitialGrid | ExerciseResults/OthelloJ/Board.java:45-57 | every cell is empty except the centre: White at (3,3) and (4,4), Black at (3,4) and (4,3) |
| Rules.RunStops | ExerciseResults/OthelloJ/Board.java:144-148 | when n opponent stones are followed by a non-opponent cell, the loop collects exactly n cells |
| Rules.BracketedRayFlips | ExerciseResults/OthelloJ/Board.java:139-153 | a bracket of n stones contributes exactly those n cells, in order of distance |
| Rules.ScanIsRayFlips | ExerciseResults/OthelloJ/Board.java:139-153 | the direction loop's collected list and stop cell decide the direction's contribution as the keep-or-drop test does |
| Rules.RayInFlipsUpTo | ExerciseResults/OthelloJ/Board.java:138-154 | a cell contributed by a scanned direction is in the accumulated list |
| Rules.FlipsUpToRay | ExerciseResults/OthelloJ/Board.java:138-154 | every accumulated cell came from one of the scanned directions |
| Rules.FlipsMembers | ExerciseResults/OthelloJ/Board.java:133-157 | a cell is in the flip list iff some direction contributes it |
| Rules.FlipsBracketed | ExerciseResults/OthelloJ/Board.java:133-157 | for a coloured mover, a cell is in the flip list iff it lies 1..n steps along some direction in which n opponent stones are bracketed by one of the mover's |
| Rules.AlongInjective | ExerciseResults/OthelloJ/Board.java:140-147 | walking along a direction never revisits a cell, and each visited cell lies in that direction |
| Rules.RayFlipsFresh | ExerciseResults/OthelloJ/Board.java:138-154 | a direction contributes no duplicates and nothing that an earlier direction contributed |
| Rules.FlipsUpToDistinct | ExerciseResults/OthelloJ/Board.java:138-154 | the list accumulated over the first k directions has no duplicates |
| Rules.FlipsDistinct | ExerciseResults/OthelloJ/Board.java:133-157 | the flip list has no duplicates |
| Rules.FlipsSound | ExerciseResults/OthelloJ/Board.java:133-157 | every listed cell is on the board, holds the opponent's colour and differs from the origin, and the mover is not Empty |
| Rules.QuietRay | ExerciseResults/OthelloJ/Board.java:140-153 | a direction whose first cell is not the opponent's contributes nothing |
| Rules.SingleRayUpTo | ExerciseResults/OthelloJ/Board.java:138-154 | when only one direction contributes, the accumulated list is that direction's contribution once it is scanned and empty before |
| Rules.SingleRay | ExerciseResults/OthelloJ/Board.java:133-157 | when only one direction contributes, the flip list is exactly that contribution |
| Rules.NoFlipsForEmpty | ExerciseResults/OthelloJ/Board.java:135-153 | asking for the stones Empty would turn gives the empty list |
| Rules.LegalMoveIff | ExerciseResults/OthelloJ/Board.java:111-124 | a move is legal iff it is on the board, the cell is empty and some direction brackets a run |
| Rules.RunIgnoresBehind | ExerciseResults/OthelloJ/Board.java:171-174 | a run does not depend on the cell behind its start |
| Rules.RayFlipsIgnoreOrigin | ExerciseResults/OthelloJ/Board.java:171-174 | placing the stone does not change any direction's contribution |
| Rules.FlipsUpToIgnoreOrigin | ExerciseResults/OthelloJ/Board.java:171-174 | placing the stone does not change the accumulated list |
| Rules.FlipsAfterPlacement | ExerciseResults/OthelloJ/Board.java:171-174 | the flips recomputed after placing the stone equal the flips computed before |
| Rules.ApplyMoveCells | ExerciseResults/OthelloJ/Board.java:170-177 | after a move the origin holds the mover, the flipped cells hold the mover, and every other cell is unchanged |
| Rules.CountRowUpdate | ExerciseResults/OthelloJ/Board.java:241-251 | changing one cell of a row changes the row's count by the old and new values only |
| Rules.CountRowsUpdate | ExerciseResults/OthelloJ/Board.java:241-251 | replacing one row changes the count by that row's difference |
| Rules.SetCellCount | ExerciseResults/OthelloJ/Board.java:241-251 | setting one cell moves exactly one stone between two counts |
| Rules.PaintCount | ExerciseResults/OthelloJ/Board.java:241-251 | painting n distinct cells of one colour with another moves n stones between the two counts |
| Rules.MoveCounts | ExerciseResults/OthelloJ/Board.java:165-183 | a legal move adds 1 + f stones to the mover, removes f from the opponent and one empty cell, where f is the number of flips |
| Rules.RowConservation | ExerciseResults/OthelloJ/Board.java:241-251 | a row's Black, White and Empty counts add up to its length |
| Rules.RowsConservation | ExerciseResults/OthelloJ/Board.java:241-251 | the counts over full rows add up to 8 per row |
| Rules.Conservation | ExerciseResults/OthelloJ/Board.java:241-251 | Black + White + Empty stones always number 64 |
| Rules.RowMajorUnique | ExerciseResults/OthelloJ/Board.java:224-234 | two row-major lists with the same members are equal, so the move list is determined by its members |
| Rules.ValidMovesSpec | ExerciseResults/OthelloJ/Board.java:208-234 | the move list holds exactly the legal cells, in row-major order, without duplicates, and is non-empty iff the player can move |
| Rules.ValidMovesMembers | ExerciseResults/OthelloJ/Board.java:224-234 | the move list holds exactly the legal cells, in row-major order |
| Rules.RowMajorDistinct | ExerciseResults/OthelloJ/Board.java:224-234 | a row-major list has no duplicates |
| BoardEngine.Board.Cells | ExerciseResults/OthelloJ/Board.java:10 | the grid value is well formed and agrees with the array cell by cell |
| BoardEngine.Board.constructor | ExerciseResults/OthelloJ/Board.java:23-26 | a new board holds the starting position with White to move, in a fresh array |
| BoardEngine.Board.Copy | ExerciseResults/OthelloJ/Board.java:32-40 | the copy has the same cells and player in a fresh array, so later moves on either board leave the other alone |
| BoardEngine.Board.InitializeBoard | ExerciseResults/OthelloJ/Board.java:45-61 | the array holds the starting position and White is to move |
| BoardEngine.Board.GetStone | ExerciseResults/OthelloJ/Board.java:69-74 | off-board positions give the invalid-position error with the offending coordinates; on-board ones give the cell's stone |
| BoardEngine.Board.GetCurrentPlayer | ExerciseResults/OthelloJ/Board.java:80-82 | the current player is Black or White |
| BoardEngine.Board.GetStonesToFlip | ExerciseResults/OthelloJ/Board.java:133-157 | the loop returns exactly the flip list of the rules |
| BoardEngine.Board.ScanDirection | ExerciseResults/OthelloJ/Board.java:139-153 | the direction loop returns exactly that direction's contribution |
| BoardEngine.Board.IsValidMove | ExerciseResults/OthelloJ/Board.java:111-124 | the answer is the legality predicate for the given player |
| BoardEngine.Board.IsValidMoveForCurrentPlayer | ExerciseResults/OthelloJ/Board.java:100-102 | the answer is the legality predicate for the current player |
| BoardEngine.Board.MakeMove | ExerciseResults/OthelloJ/Board.java:165-183 | success iff the move is legal; a rejected move changes nothing; an accepted one applies the move and passes the turn as switchPlayer does |
| BoardEngine.Board.TurnStones | ExerciseResults/OthelloJ/Board.java:175-177 | the listed cells take the current player's colour and no other cell changes |
| BoardEngine.Board.SwitchPlayer | ExerciseResults/OthelloJ/Board.java:188-201 | the cells are unchanged and the new player is the next player of the rules |
| BoardEngine.Board.HasValidMoves | ExerciseResults/OthelloJ/Board.java:208-217 | the double loop answers whether the player has a legal move |
| BoardEngine.Board.GetValidMoves | ExerciseResults/OthelloJ/Board.java:224-234 | the double loop returns the row-major list of legal moves |
| BoardEngine.Board.CountStones | ExerciseResults/OthelloJ/Board.java:241-251 | the double loop returns the number of cells holding the given stone |
| BoardEngine.Board.IsGameOver | ExerciseResults/OthelloJ/Board.java:257-259 | the game is over iff neither colour can move |
| BoardEngine.Board.GetWinner | ExerciseResults/OthelloJ/Board.java:265-280 | the answer is the winner of the rules: Empty before the end or on a tie, otherwise the colour with more stones |
| BoardEngine.MoveAfterCopy | ExerciseResults/OthelloJ/Board.java:32-40 | after copying and then moving on the original, the copy still holds the original's earlier cells and player |
| AIPlayers.CornerCells | ExerciseResults/OthelloJ/AIPlayer.java:93-100 | a cell is a corner iff its row and its column are each 0 or 7 |
| AIPlayers.DangerZoneCells | ExerciseResults/OthelloJ/AIPlayer.java:108-115 | a cell is in a danger zone iff it is on the board, in a 2x2 corner block and not the corner itself |
| AIPlayers.SafeMoves | ExerciseResults/OthelloJ/AIPlayer.java:61-63 | the safe list holds exactly the moves outside the danger zones |
| AIPlayers.SafeMovesInOrder | ExerciseResults/OthelloJ/AIPlayer.java:61-63 | the filter keeps the list order: a row-major list stays row-major |
| AIPlayers.Considered | ExerciseResults/OthelloJ/AIPlayer.java:61-65 | when some move is outside the danger zones, exactly those moves are ranked; when every move is in a danger zone, all moves are ranked; the ranked list is empty only when there are no moves and keeps row-major order |
| AIPlayers.ConsideredOfScan | ExerciseResults/OthelloJ/AIPlayer.java:61-65 | for a row-major board scan, the ranked list is the scan of the cells outside the danger zones when one is listed, and the whole scan otherwise |
| AIPlayers.ConsideredScan | ExerciseResults/OthelloJ/AIPlayer.java:61-65 | the ranked list equals the row-major scan of the legal cells outside the danger zones when one exists, and the full list of legal moves otherwise |
| AIPlayers.AIPlayer.constructor | ExerciseResults/OthelloJ/AIPlayer.java:28-31 | the player keeps its colour |
| AIPlayers.AIPlayer.ChooseMove | ExerciseResults/OthelloJ/AIPlayer.java:46-85 | no move iff no legal move; otherwise a legal move: the first corner if any, a move outside the danger zones if one exists, and the first move of largest capture-plus-bonus score |
| AIPlayers.AIPlayer.FirstCorner | ExerciseResults/OthelloJ/AIPlayer.java:54-58 | the first corner in the list, and none iff the list has no corner |
| AIPlayers.AIPlayer.PickBest | ExerciseResults/OthelloJ/AIPlayer.java:69-84 | none iff the list is empty; otherwise the first move whose score is the largest |
| Opening.InitialCounts | ExerciseResults/OthelloJ/Board.java:45-57 | a new board holds two Black stones, two White stones and 60 empty cells |
| Opening.Openings | ExerciseResults/OthelloJ/Board.java:224-234 | each colour's opening list has four cells, in row-major order |
| Opening.StartCentre | ExerciseResults/OthelloJ/Board.java:53-56 | a starting position holds the four centre stones |
| Opening.OpeningBracket | ExerciseResults/OthelloJ/Board.java:111-124 | any bracket in the starting position starts at one of the mover's opening cells |
| Opening.ShortBracket | ExerciseResults/OthelloJ/Board.java:111-124 | one opponent stone backed by one of the mover's makes a bracket |
| Opening.BlackOpeningBracketed | ExerciseResults/OthelloJ/Board.java:111-124 | each of Black's opening cells brackets a White centre stone |
| Opening.WhiteOpeningBracketed | ExerciseResults/OthelloJ/Board.java:111-124 | each of White's opening cells brackets a Black centre stone |
| Opening.OpeningLegal | ExerciseResults/OthelloJ/Board.java:111-124 | in the starting position a colour's move is legal iff it is one of its four opening cells |
| Opening.OpeningMoves | ExerciseResults/OthelloJ/Board.java:224-234 | at the start the move list of Black is (2,3), (3,2), (4,5), (5,4) and that of White is (2,4), (3,5), (4,2), (5,3) |
| Opening.OpeningCapture | ExerciseResults/OthelloJ/BoardTest.java:130-136 | Black playing (3,2) at the start turns exactly the White stone at (3,3) |
| Opening.OpeningNotOver | ExerciseResults/OthelloJ/Board.java:257-280 | at the start both colours can move, so the game is not over and there is no winner |
| Opening.InitialIsStart | ExerciseResults/OthelloJ/Board.java:45-61 | a new board's grid is the starting position |

## Left out

- `Board.toString` (Board.java:286-298) is not modelled. It only formats text for display, using `Stone.toChar`, which is modelled.
- `AIPlayer.getColor` (AIPlayer.java:37-39) is not a separate member. It is the `color` field of `AIPlayers.AIPlayer`.
- `Board.isValidPosition` (Board.java:90-92) is the predicate `Rules.InBounds`. It has no contract of its own, and the operations that use it state its effect.
- The user interface (`BoardPanel.java`, `OthelloFrame.java`, `Main.java`) is not part of this model. Nor are the JUnit tests in `BoardTest.java`, apart from the discrepancy described above.
- `AIPlayers.AIPlayer.ChooseMove`: `java.util.Random` is replaced by the `noise` parameter, one value per considered move in {0, 1, 2}. The method requires at least as many values as moves are considered, whereas a `Random` never runs out. The distribution of the bonus is not modelled.
- `AIPlayers.AIPlayer.ChooseMove`: the Java method returns the very `int[]` object held in the move list. The model returns the position as a value, so aliasing of the returned array is not captured. The board is not changed, because the method has no `modifies` clause.
- `BoardEngine.Board.GetStone`: the `IllegalArgumentException` of `getStone` is the `InvalidPosition` case of the `Lookup` result.
- `BoardEngine.Board`: the Java `Stone[][]` is an `array2<Stone>`, so ragged or shared row arrays are not represented. The Java code never creates either.
- `BoardEngine.Board.GetValidMoves` returns a `seq<Pos>` in place of a fresh `ArrayList<int[]>`.
- Counts and coordinates are unbounded integers. Counts stay at most 64. From an on-board origin a direction scan goes at most one step past the edge, so no coordinate overflows. `getStonesToFlip` and `Rules.Flips` also accept any origin. For an origin near the `int` limits, `row + direction[0]` at Board.java:140 wraps around in Java. The wrapped value is still off the board, so the tests at Board.java:144 and 151 reject it just as the model's bounds test does, and the result is the same.
- Some loops of `getStonesToFlip`, `makeMove` and `chooseMove` are separate methods so that each carries its own invariants:
  - the per-direction loop is `ScanDirection`;
  - the painting loop is `TurnStones`;
  - the corner loop is `FirstCorner`;
  - the greedy loop is `PickBest`.

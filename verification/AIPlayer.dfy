/**
 * The computer opponent (AIPlayer.java): take a corner when one is legal,
 * otherwise stay out of the cells next to the corners when possible, and
 * among the remaining moves pick the one whose capture count plus a small
 * random bonus is largest. The random bonus is supplied by the caller as a
 * sequence of values in {0, 1, 2}, one per move considered, in list order.
 */
module AIPlayers {
  import opened Stones
  import opened Rules
  import opened BoardEngine

  datatype Option<T> = None | Some(value: T)

  /** The four corner cells, in table order. */
  const Corners: seq<Pos> := [(0, 0), (0, 7), (7, 0), (7, 7)]

  /** The three neighbours of each corner, corner by corner. */
  const DangerZones: seq<Pos> :=
    [(0, 1), (1, 0), (1, 1),
     (0, 6), (1, 6), (1, 7),
     (6, 0), (6, 1), (7, 1),
     (6, 6), (6, 7), (7, 6)]

  /** AIPlayer.isCorner: a lookup in the corner table. */
  function IsCorner(row: int, col: int): bool {
    (row, col) in Corners
  }

  /** AIPlayer.isDangerZone: a lookup in the danger table. */
  function IsDangerZone(row: int, col: int): bool {
    (row, col) in DangerZones
  }

  /** The corner table holds exactly the cells in an outer row and an outer column. */
  lemma CornerCells(row: int, col: int)
    ensures IsCorner(row, col) <==> (row == 0 || row == 7) && (col == 0 || col == 7)
  {
  }

  /**
   * The danger table holds exactly the cells that share a 2x2 block with a
   * corner without being that corner; in particular no corner is in it.
   */
  lemma DangerZoneCells(row: int, col: int)
    ensures IsDangerZone(row, col) <==>
      InBounds((row, col)) && (row <= 1 || row >= 6) && (col <= 1 || col >= 6) && !IsCorner(row, col)
  {
  }

  /** The moves outside the danger zones, in their original order. */
  function SafeMoves(moves: seq<Pos>): (safe: seq<Pos>)
    ensures forall q :: q in safe <==> q in moves && !IsDangerZone(q.0, q.1)
    ensures |safe| <= |moves|
  {
    if moves == [] then []
    else
      var rest := SafeMoves(moves[..|moves| - 1]);
      var last := moves[|moves| - 1];
      assert moves == moves[..|moves| - 1] + [last];
      rest + (if !IsDangerZone(last.0, last.1) then [last] else [])
  }

  /** Filtering keeps the list order, so a row-major list stays row-major. */
  lemma {:induction false} SafeMovesInOrder(moves: seq<Pos>)
    ensures RowMajor(moves) ==> RowMajor(SafeMoves(moves))
  {
    if moves != [] && RowMajor(moves) {
      var prefix := moves[..|moves| - 1];
      var last := moves[|moves| - 1];
      assert RowMajor(prefix) by {
        forall i, j | 0 <= i < j < |prefix|
          ensures Before(prefix[i], prefix[j])
        {
          assert prefix[i] == moves[i] && prefix[j] == moves[j];
        }
      }
      SafeMovesInOrder(prefix);
      var tail: seq<Pos> := if !IsDangerZone(last.0, last.1) then [last] else [];
      forall x, y | x in SafeMoves(prefix) && y in tail
        ensures Before(x, y)
      {
        var i :| 0 <= i < |prefix| && prefix[i] == x;
        assert moves[i] == x && y == moves[|moves| - 1];
      }
      RowMajorAppend(SafeMoves(prefix), tail);
    }
  }

  /** The moves the greedy step ranks: the safe ones, or all of them when none is safe. */
  function Considered(moves: seq<Pos>): (c: seq<Pos>)
    ensures forall q :: q in c ==> q in moves
    ensures c == [] <==> moves == []
    ensures (exists q :: q in moves && !IsDangerZone(q.0, q.1)) ==>
      forall q :: q in c <==> q in moves && !IsDangerZone(q.0, q.1)
    ensures (forall q :: q in moves ==> IsDangerZone(q.0, q.1)) ==> c == moves
    ensures RowMajor(moves) ==> RowMajor(c)
  {
    var safe := SafeMoves(moves);
    SafeMovesInOrder(moves);
    assert safe != [] ==> safe[0] in safe;
    if moves != [] && safe == [] then moves else safe
  }

  /** When a move outside the danger zones exists, exactly those moves are considered. */
  lemma ConsideredSafe(moves: seq<Pos>, q0: Pos)
    requires q0 in moves && !IsDangerZone(q0.0, q0.1)
    ensures forall x :: x in Considered(moves) <==> x in moves && !IsDangerZone(x.0, x.1)
  {
  }

  /** The cells that pass `legal` and lie outside the danger zones. */
  function SafeOf(legal: Pos -> bool): Pos -> bool {
    q => legal(q) && !IsDangerZone(q.0, q.1)
  }

  /**
   * For a row-major board scan, the considered list is the scan of the cells
   * outside the danger zones when one is listed, and the whole scan otherwise.
   */
  lemma ConsideredOfScan(legal: Pos -> bool)
    ensures var moves := MovesInRows(legal, Size);
      Considered(moves) ==
        if exists q :: q in moves && !IsDangerZone(q.0, q.1)
        then MovesInRows(SafeOf(legal), Size)
        else moves
  {
    var moves := MovesInRows(legal, Size);
    MovesInRowsSpec(legal, Size);
    if exists q :: q in moves && !IsDangerZone(q.0, q.1) {
      var c := Considered(moves);
      var q0 :| q0 in moves && !IsDangerZone(q0.0, q0.1);
      ConsideredSafe(moves, q0);
      var scan := MovesInRows(SafeOf(legal), Size);
      MovesInRowsSpec(SafeOf(legal), Size);
      forall q
        ensures q in c <==> q in scan
      {
        assert SafeOf(legal)(q) == (legal(q) && !IsDangerZone(q.0, q.1));
      }
      RowMajorUnique(c, scan);
    }
  }

  /**
   * The list the greedy step ranks, read off the board directly: the
   * row-major scan of the legal cells outside the danger zones when there is
   * one, and otherwise the whole list of legal moves.
   */
  lemma ConsideredScan(g: Grid, p: Stone)
    requires WellFormed(g)
    ensures Considered(ValidMoves(g, p)) ==
      if exists q :: IsLegal(g, q, p) && !IsDangerZone(q.0, q.1)
      then MovesInRows(SafeOf(LegalFor(g, p)), Size)
      else ValidMoves(g, p)
  {
    ValidMovesMembers(g, p);
    ConsideredOfScan(LegalFor(g, p));
  }

  /** The greedy score of a move: the stones it turns plus its random bonus. */
  ghost function Score(g: Grid, q: Pos, player: Stone, bonus: int): int
    requires WellFormed(g)
  {
    |Flips(g, q, player)| + bonus
  }

  /** No move in the list is a corner. */
  predicate NoCorner(moves: seq<Pos>) {
    forall q :: q in moves ==> !IsCorner(q.0, q.1)
  }

  /** moves[i] is the first corner in the list. */
  predicate FirstCornerAt(moves: seq<Pos>, i: int) {
    0 <= i < |moves| && IsCorner(moves[i].0, moves[i].1) &&
    forall j :: 0 <= j < i ==> !IsCorner(moves[j].0, moves[j].1)
  }

  /**
   * ranked[k] has the largest score among the ranked moves (move j drawing
   * bonus noise[j]) and every earlier move scores strictly less.
   */
  ghost predicate GreedyBest(g: Grid, ranked: seq<Pos>, player: Stone, noise: seq<int>, k: int)
    requires WellFormed(g)
  {
    && 0 <= k < |ranked| <= |noise|
    && (forall j :: 0 <= j < |ranked| ==>
         Score(g, ranked[j], player, noise[j]) <= Score(g, ranked[k], player, noise[k]))
    && (forall j :: 0 <= j < k ==>
         Score(g, ranked[j], player, noise[j]) < Score(g, ranked[k], player, noise[k]))
  }

  class AIPlayer {
    const color: Stone

    constructor (color: Stone)
      ensures this.color == color
    {
      this.color := color;
    }

    /**
     * AIPlayer.chooseMove. noise[k] is the bonus drawn for the k-th move
     * considered. The result is None exactly when there is no legal move; it
     * is the first legal corner when there is one; it avoids the danger
     * zones when some legal move does; and otherwise it is the first move
     * with the largest score.
     */
    method ChooseMove(board: Board, noise: seq<int>) returns (move: Option<Pos>)
      requires board.Valid()
      requires |noise| >= |Considered(ValidMoves(board.Cells(), color))|
      requires forall k :: 0 <= k < |noise| ==> 0 <= noise[k] <= 2
      ensures var moves := ValidMoves(board.Cells(), color);
        && (move.None? <==> moves == [])
        && (move.Some? ==> move.value in moves)
      ensures var moves := ValidMoves(board.Cells(), color);
        (exists q :: q in moves && IsCorner(q.0, q.1)) ==>
          exists i :: FirstCornerAt(moves, i) && move == Some(moves[i])
      ensures var moves := ValidMoves(board.Cells(), color);
        NoCorner(moves) && (exists q :: q in moves && !IsDangerZone(q.0, q.1)) ==>
          move.Some? && !IsDangerZone(move.value.0, move.value.1)
      ensures var moves := ValidMoves(board.Cells(), color);
        var ranked := Considered(moves);
        moves != [] && NoCorner(moves) ==>
          exists k :: GreedyBest(board.Cells(), ranked, color, noise, k) && move == Some(ranked[k])
    {
      var validMoves := board.GetValidMoves(color);
      if |validMoves| == 0 {
        return None;
      }

      // Strategy 1: the first legal corner.
      var corner := FirstCorner(validMoves);
      if corner.Some? {
        return corner;
      }

      // Strategy 2: drop the danger zones unless nothing else is left.
      var safeMoves := SafeMoves(validMoves);
      var movesToConsider := if |safeMoves| == 0 then validMoves else safeMoves;

      // Strategy 3: the first move with the largest score.
      assert movesToConsider == Considered(validMoves);
      move := PickBest(board, movesToConsider, noise);
    }

    /** The corner loop of AIPlayer.chooseMove: the first corner in the list, if any. */
    method FirstCorner(moves: seq<Pos>) returns (corner: Option<Pos>)
      ensures corner.None? <==> NoCorner(moves)
      ensures corner.Some? ==> exists i :: FirstCornerAt(moves, i) && corner.value == moves[i]
    {
      for i := 0 to |moves|
        invariant forall j :: 0 <= j < i ==> !IsCorner(moves[j].0, moves[j].1)
      {
        if IsCorner(moves[i].0, moves[i].1) {
          assert FirstCornerAt(moves, i);
          return Some(moves[i]);
        }
      }
      return None;
    }

    /**
     * The greedy loop of AIPlayer.chooseMove: the first of the ranked moves
     * whose capture count plus its bonus is largest. The running best starts
     * at -1 and only a strictly larger score replaces it.
     */
    method PickBest(board: Board, ranked: seq<Pos>, noise: seq<int>) returns (move: Option<Pos>)
      requires board.Valid() && |noise| >= |ranked|
      requires forall k :: 0 <= k < |noise| ==> 0 <= noise[k]
      ensures move.None? <==> ranked == []
      ensures ranked != [] ==>
        exists k :: GreedyBest(board.Cells(), ranked, color, noise, k) && move == Some(ranked[k])
    {
      ghost var g := board.Cells();
      ghost var scores := seq(|ranked|, j requires 0 <= j < |ranked| => Score(g, ranked[j], color, noise[j]));
      var bestMove: Option<Pos> := None;
      var bestScore := -1;
      ghost var best := 0;
      for k := 0 to |ranked|
        invariant 0 <= best <= k && (bestMove.None? <==> k == 0)
        invariant k == 0 ==> bestScore == -1
        invariant k > 0 ==> best < k && bestMove == Some(ranked[best]) && bestScore == scores[best]
        invariant forall j :: 0 <= j < k ==> scores[j] <= bestScore
        invariant forall j :: 0 <= j < best ==> scores[j] < bestScore
      {
        var flips := board.GetStonesToFlip(ranked[k].0, ranked[k].1, color);
        var adjustedScore := |flips| + noise[k];
        assert adjustedScore == scores[k];
        if adjustedScore > bestScore {
          bestScore := adjustedScore;
          bestMove := Some(ranked[k]);
          best := k;
        }
      }
      move := bestMove;
      assert forall j :: 0 <= j < |ranked| ==> scores[j] == Score(g, ranked[j], color, noise[j]);
      assert ranked != [] ==> move == Some(ranked[best]) && GreedyBest(g, ranked, color, noise, best);
    }
  }
}

/**
 * Facts about the starting position (Board.initializeBoard): the stone
 * counts, the capture list of one opening move, and the complete lists of
 * opening moves for each colour. Board.java gives White the first move, so
 * the Black facts are stated for an explicit player.
 */
module Opening {
  import opened Stones
  import opened Rules

  /** Black's opening moves, in row-major order. */
  const BlackOpenings: seq<Pos> := [(2, 3), (3, 2), (4, 5), (5, 4)]

  /** White's opening moves, in row-major order. */
  const WhiteOpenings: seq<Pos> := [(2, 4), (3, 5), (4, 2), (5, 3)]

  /** The board after initializeBoard's first loop: every cell empty. */
  const EmptyBoard: Grid :=
    var row := [Empty, Empty, Empty, Empty, Empty, Empty, Empty, Empty];
    [row, row, row, row, row, row, row, row]

  lemma {:induction false} RowWithout(row: seq<Stone>, s: Stone)
    requires forall c :: 0 <= c < |row| ==> row[c] != s
    ensures CountRow(row, s) == 0
  {
    if row != [] {
      RowWithout(row[..|row| - 1], s);
    }
  }

  lemma {:induction false} RowsWithout(rows: seq<seq<Stone>>, s: Stone)
    requires forall r, c :: 0 <= r < |rows| && 0 <= c < |rows[r]| ==> rows[r][c] != s
    ensures CountRows(rows, s) == 0
  {
    if rows != [] {
      RowsWithout(rows[..|rows| - 1], s);
      RowWithout(rows[|rows| - 1], s);
    }
  }

  /**
   * The new board holds two stones of each colour and 60 empty cells: the
   * empty board followed by the four centre placements of initializeBoard.
   */
  lemma InitialCounts()
    ensures Count(InitialGrid(), Black) == 2
    ensures Count(InitialGrid(), White) == 2
    ensures Count(InitialGrid(), Empty) == 60
  {
    var e := EmptyBoard;
    RowsWithout(e, Black);
    RowsWithout(e, White);
    Conservation(e);
    var g1 := SetCell(e, (3, 3), White);
    var g2 := SetCell(g1, (3, 4), Black);
    var g3 := SetCell(g2, (4, 3), Black);
    var g4 := SetCell(g3, (4, 4), White);
    forall s | s == Black || s == White || s == Empty
      ensures Count(g4, s) == Count(e, s) + (if s == Empty then -4 else 2)
    {
      SetCellCount(e, (3, 3), White, s);
      SetCellCount(g1, (3, 4), Black, s);
      SetCellCount(g2, (4, 3), Black, s);
      SetCellCount(g3, (4, 4), White, s);
    }
    SameCells(g4, InitialGrid());
  }

  /** The opening moves of a colour. */
  function Openings(p: Stone): (moves: seq<Pos>)
    ensures RowMajor(moves) && |moves| == 4
  {
    if p == Black then BlackOpenings else WhiteOpenings
  }

  /** A board value holding the starting position. */
  ghost predicate IsStart(g: Grid)
    requires WellFormed(g)
  {
    forall q :: InBounds(q) ==> At(g, q) == InitialStone(q.0, q.1)
  }

  /** The four centre stones of the starting position. */
  predicate CentreStones(g: Grid)
    requires WellFormed(g)
  {
    && At(g, (3, 3)) == White && At(g, (4, 4)) == White
    && At(g, (3, 4)) == Black && At(g, (4, 3)) == Black
  }

  /** A starting position holds the four centre stones. */
  lemma StartCentre(g: Grid)
    requires WellFormed(g) && IsStart(g)
    ensures CentreStones(g)
  {
    assert InBounds((3, 3)) && InBounds((3, 4)) && InBounds((4, 3)) && InBounds((4, 4));
  }

  /**
   * A bracket in the starting position starts next to one of the opponent's
   * two stones and ends on one of p's stones right behind it.
   */
  lemma OpeningBracket(g: Grid, q: Pos, d: Pos, n: int, p: Stone)
    requires WellFormed(g) && IsStart(g)
    requires IsUnit(d) && p != Empty && Brackets(g, q, d, n, p)
    ensures q in Openings(p)
  {
    var k2 := if n >= 2 then 2 else 1;
    var k3 := if n >= 3 then 3 else 1;
    assert InBounds(Along(q, d, 1)) && At(g, Along(q, d, 1)) == Opposite(p);
    assert InBounds(Along(q, d, k2)) && At(g, Along(q, d, k2)) == Opposite(p);
    assert InBounds(Along(q, d, k3)) && At(g, Along(q, d, k3)) == Opposite(p);
  }

  /** A single opponent stone next to o, backed by one of p's stones, is a bracket. */
  lemma ShortBracket(g: Grid, o: Pos, i: int, p: Stone)
    requires WellFormed(g) && 0 <= i < |Directions|
    requires var d := Direction(i);
      && InBounds((o.0 + d.0, o.1 + d.1)) && At(g, (o.0 + d.0, o.1 + d.1)) == Opposite(p)
      && InBounds((o.0 + 2 * d.0, o.1 + 2 * d.1)) && At(g, (o.0 + 2 * d.0, o.1 + 2 * d.1)) == p
    ensures exists j, n :: 0 <= j < |Directions| && Brackets(g, o, Direction(j), n, p)
  {
    var d := Direction(i);
    assert Along(o, d, 1) == (o.0 + d.0, o.1 + d.1);
    assert Along(o, d, 2) == (o.0 + 2 * d.0, o.1 + 2 * d.1);
    assert Brackets(g, o, d, 1, p);
  }

  /** Each of Black's opening cells brackets the adjacent White stone. */
  lemma BlackOpeningBracketed(g: Grid, q: Pos)
    requires WellFormed(g) && CentreStones(g) && q in BlackOpenings
    ensures exists i, n :: 0 <= i < |Directions| && Brackets(g, q, Direction(i), n, Black)
  {
    // Each opening cell brackets one opponent stone; the branch names its direction.
    if q == (2, 3) {
      ShortBracket(g, q, 6, Black);
    } else if q == (3, 2) {
      ShortBracket(g, q, 4, Black);
    } else if q == (4, 5) {
      ShortBracket(g, q, 3, Black);
    } else {
      ShortBracket(g, q, 1, Black);
    }
  }

  /** Each of White's opening cells brackets the adjacent Black stone. */
  lemma WhiteOpeningBracketed(g: Grid, q: Pos)
    requires WellFormed(g) && CentreStones(g) && q in WhiteOpenings
    ensures exists i, n :: 0 <= i < |Directions| && Brackets(g, q, Direction(i), n, White)
  {
    if q == (2, 4) {
      ShortBracket(g, q, 6, White);
    } else if q == (4, 2) {
      ShortBracket(g, q, 4, White);
    } else if q == (3, 5) {
      ShortBracket(g, q, 3, White);
    } else {
      ShortBracket(g, q, 1, White);
    }
  }

  /** In the starting position a colour may move exactly at its four opening cells. */
  lemma OpeningLegal(g: Grid, q: Pos, p: Stone)
    requires WellFormed(g) && IsStart(g) && p != Empty
    ensures IsLegal(g, q, p) <==> q in Openings(p)
  {
    LegalMoveIff(g, q, p);
    if IsLegal(g, q, p) {
      var i, n :| 0 <= i < |Directions| && Brackets(g, q, Direction(i), n, p);
      OpeningBracket(g, q, Direction(i), n, p);
    }
    if q in Openings(p) {
      StartCentre(g);
      if p == Black {
        BlackOpeningBracketed(g, q);
      } else {
        WhiteOpeningBracketed(g, q);
      }
    }
  }

  /**
   * At the start each colour can move at exactly its four opening cells, and
   * Board.getValidMoves lists them in row-major order.
   */
  lemma OpeningMoves(p: Stone)
    requires p != Empty
    ensures ValidMoves(InitialGrid(), p) == Openings(p)
  {
    var g := InitialGrid();
    var moves := ValidMoves(g, p);
    ValidMovesSpec(g, p);
    forall q
      ensures q in moves <==> q in Openings(p)
    {
      OpeningLegal(g, q, p);
    }
    RowMajorUnique(moves, Openings(p));
  }

  /** Black playing (3, 2) at the start turns exactly the White stone at (3, 3). */
  lemma OpeningCapture(g: Grid)
    requires WellFormed(g) && IsStart(g)
    ensures Flips(g, (3, 2), Black) == [(3, 3)]
  {
    var o := (3, 2);
    forall j | 0 <= j < |Directions| && j != 4
      ensures RayFlips(g, o, Direction(j), Black) == []
    {
      QuietRay(g, o, Direction(j), Black);
    }
    assert Brackets(g, o, Direction(4), 1, Black);
    BracketedRayFlips(g, o, Direction(4), 1, Black);
    SingleRay(g, o, Black, 4);
  }

  /**
   * The game is under way at the start: both colours can move, so there is
   * no winner yet.
   */
  lemma OpeningNotOver(g: Grid)
    requires WellFormed(g) && IsStart(g)
    ensures HasValidMove(g, Black) && HasValidMove(g, White)
    ensures !GameOver(g) && Winner(g) == Empty
  {
    OpeningLegal(g, (2, 3), Black);
    OpeningLegal(g, (2, 4), White);
  }

  /** A new board's grid is a starting position. */
  lemma InitialIsStart()
    ensures IsStart(InitialGrid())
  {
  }
}

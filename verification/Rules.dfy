/**
 * The rules of Othello as functions over board values: capture detection
 * along the eight rays, move legality, applying a move, the valid-move list,
 * stone counts, turn advancement and the end of the game.
 * The Board class (BoardEngine) is proved against these definitions.
 */
module Rules {
  import opened Stones

  const Size: int := 8

  /** A (row, column) pair; row 0 is the top row. */
  type Pos = (int, int)

  /** A board value: rows of cells, row-major. */
  type Grid = seq<seq<Stone>>

  predicate WellFormed(g: Grid) {
    |g| == Size && forall r :: 0 <= r < Size ==> |g[r]| == Size
  }

  /** Board.isValidPosition. */
  predicate InBounds(q: Pos) {
    0 <= q.0 < Size && 0 <= q.1 < Size
  }

  function At(g: Grid, q: Pos): Stone
    requires WellFormed(g) && InBounds(q)
  {
    g[q.0][q.1]
  }

  /** Two boards that agree on every cell are the same board. */
  lemma SameCells(g: Grid, h: Grid)
    requires WellFormed(g) && WellFormed(h)
    requires forall q :: InBounds(q) ==> At(g, q) == At(h, q)
    ensures g == h
  {
    forall r | 0 <= r < Size
      ensures g[r] == h[r]
    {
      forall c | 0 <= c < Size
        ensures g[r][c] == h[r][c]
      {
        assert At(g, (r, c)) == At(h, (r, c));
      }
    }
  }

  predicate Distinct<T(==)>(s: seq<T>) {
    forall i, j :: 0 <= i < j < |s| ==> s[i] != s[j]
  }

  // ---------------------------------------------------------------------
  // Geometry of the eight rays
  // ---------------------------------------------------------------------

  /** The eight direction vectors, in the order the board scans them. */
  const Directions: seq<Pos> :=
    [(-1, -1), (-1, 0), (-1, 1),
     (0, -1),           (0, 1),
     (1, -1),  (1, 0),  (1, 1)]

  /** A king step: each component in {-1, 0, 1}, not both zero. */
  predicate IsUnit(d: Pos) {
    -1 <= d.0 <= 1 && -1 <= d.1 <= 1 && d != (0, 0)
  }

  /** The i-th direction vector, known to be a king step. */
  function Direction(i: int): (d: Pos)
    requires 0 <= i < |Directions|
    ensures IsUnit(d)
  {
    Directions[i]
  }

  /** The position of a king step in the direction table. */
  function DirIndex(d: Pos): int {
    var k := 3 * (d.0 + 1) + (d.1 + 1);
    if k > 4 then k - 1 else k
  }

  /** The table holds each of the eight king steps exactly once. */
  lemma DirectionTable(i: int)
    requires 0 <= i < |Directions|
    ensures DirIndex(Direction(i)) == i
  {
  }

  /** k times a component in {-1, 0, 1}, written without multiplication. */
  function Scale(k: int, x: int): int
    requires -1 <= x <= 1
  {
    if x == 1 then k else if x == -1 then -k else 0
  }

  /** The cell k steps from o in direction d. */
  function Along(o: Pos, d: Pos, k: int): Pos
    requires IsUnit(d)
  {
    (o.0 + Scale(k, d.0), o.1 + Scale(k, d.1))
  }

  function Sign(x: int): int {
    if x > 0 then 1 else if x < 0 then -1 else 0
  }

  /** The direction in which q lies as seen from o. */
  function DirOf(o: Pos, q: Pos): Pos {
    (Sign(q.0 - o.0), Sign(q.1 - o.1))
  }

  /** How many cells a walk from q in direction d can still visit on the board. */
  function Remaining(q: Pos, d: Pos): int
    requires IsUnit(d)
  {
    if d.0 == 1 then Size - q.0
    else if d.0 == -1 then q.0 + 1
    else if d.1 == 1 then Size - q.1
    else q.1 + 1
  }

  // ---------------------------------------------------------------------
  // Capture detection (Board.getStonesToFlip)
  // ---------------------------------------------------------------------

  /** The maximal run of cells holding `opp`, from q onwards in direction d. */
  function Run(g: Grid, q: Pos, d: Pos, opp: Stone): seq<Pos>
    requires WellFormed(g) && IsUnit(d)
    decreases Remaining(q, d)
  {
    if InBounds(q) && At(g, q) == opp then [q] + Run(g, Along(q, d, 1), d, opp) else []
  }

  /** The first cell after that run. */
  function RunEnd(g: Grid, q: Pos, d: Pos, opp: Stone): Pos
    requires WellFormed(g) && IsUnit(d)
    decreases Remaining(q, d)
  {
    if InBounds(q) && At(g, q) == opp then RunEnd(g, Along(q, d, 1), d, opp) else q
  }

  /** The i-th cell of a run lies i steps from its start and holds `opp`. */
  lemma RunCells(g: Grid, q: Pos, d: Pos, opp: Stone)
    requires WellFormed(g) && IsUnit(d)
    ensures var run := Run(g, q, d, opp);
      forall i :: 0 <= i < |run| ==> run[i] == Along(q, d, i) && InBounds(run[i]) && At(g, run[i]) == opp
    decreases Remaining(q, d)
  {
    if InBounds(q) && At(g, q) == opp {
      RunCells(g, Along(q, d, 1), d, opp);
      RunShift(g, q, d, opp, Run(g, Along(q, d, 1), d, opp));
    }
  }

  /** A run ends right after its last cell, on a cell off the board or not holding `opp`. */
  lemma RunEndCell(g: Grid, q: Pos, d: Pos, opp: Stone)
    requires WellFormed(g) && IsUnit(d)
    ensures var e := RunEnd(g, q, d, opp);
      e == Along(q, d, |Run(g, q, d, opp)|) && !(InBounds(e) && At(g, e) == opp)
    decreases Remaining(q, d)
  {
    if InBounds(q) && At(g, q) == opp {
      RunEndCell(g, Along(q, d, 1), d, opp);
      AlongAdd(q, d, 1, |Run(g, Along(q, d, 1), d, opp)|);
    } else {
      assert Along(q, d, 0) == q;
    }
  }

  /** Prefixing q to a run that starts one step further on gives a run from q. */
  lemma RunShift(g: Grid, q: Pos, d: Pos, opp: Stone, rest: seq<Pos>)
    requires WellFormed(g) && IsUnit(d) && InBounds(q) && At(g, q) == opp
    requires forall i :: 0 <= i < |rest| ==>
      rest[i] == Along(Along(q, d, 1), d, i) && InBounds(rest[i]) && At(g, rest[i]) == opp
    ensures forall i :: 0 <= i < |[q] + rest| ==>
      ([q] + rest)[i] == Along(q, d, i) && InBounds(([q] + rest)[i]) && At(g, ([q] + rest)[i]) == opp
  {
    var run := [q] + rest;
    forall i | 0 <= i < |run|
      ensures run[i] == Along(q, d, i) && InBounds(run[i]) && At(g, run[i]) == opp
    {
      if i == 0 {
        assert Along(q, d, 0) == q;
      } else {
        assert run[i] == rest[i - 1];
        AlongAdd(q, d, 1, i - 1);
      }
    }
  }

  /** A step of length one moves by the direction vector itself. */
  lemma AlongOne(o: Pos, d: Pos)
    requires IsUnit(d)
    ensures Along(o, d, 1) == (o.0 + d.0, o.1 + d.1)
  {
  }

  /** The scan stops on a cell off the board or not holding `opp`. */
  lemma RunStop(g: Grid, q: Pos, d: Pos, opp: Stone)
    requires WellFormed(g) && IsUnit(d) && !(InBounds(q) && At(g, q) == opp)
    ensures Run(g, q, d, opp) == [] && RunEnd(g, q, d, opp) == q
  {
  }

  /**
   * The independent reading of a capture: the n cells after o in direction d
   * hold the opponent's stones and the cell after them holds p.
   */
  ghost predicate Brackets(g: Grid, o: Pos, d: Pos, n: int, p: Stone)
    requires WellFormed(g) && IsUnit(d)
  {
    && n >= 1
    && (forall k :: 1 <= k <= n ==> InBounds(Along(o, d, k)) && At(g, Along(o, d, k)) == Opposite(p))
    && InBounds(Along(o, d, n + 1)) && At(g, Along(o, d, n + 1)) == p
  }

  /** The stones p captures in one direction when playing at o. */
  function RayFlips(g: Grid, o: Pos, d: Pos, p: Stone): seq<Pos>
    requires WellFormed(g) && IsUnit(d)
  {
    var start := Along(o, d, 1);
    var run := Run(g, start, d, Opposite(p));
    var end := RunEnd(g, start, d, Opposite(p));
    if |run| > 0 && InBounds(end) && At(g, end) == p then run else []
  }

  /**
   * What one ray captures: the opponent's stones on the cells 1, 2, ... steps
   * from o, followed by one of p's stones; so p is a colour.
   */
  lemma RayFlipsCells(g: Grid, o: Pos, d: Pos, p: Stone)
    requires WellFormed(g) && IsUnit(d)
    ensures var f := RayFlips(g, o, d, p);
      && (forall i :: 0 <= i < |f| ==>
           f[i] == Along(o, d, i + 1) && InBounds(f[i]) && At(g, f[i]) == Opposite(p))
      && (f != [] ==> p != Empty && InBounds(Along(o, d, |f| + 1)) && At(g, Along(o, d, |f| + 1)) == p)
  {
    RunFromNeighbour(g, o, d, Opposite(p));
    RunCells(g, Along(o, d, 1), d, Opposite(p));
    RunEndCell(g, Along(o, d, 1), d, Opposite(p));
  }

  /** Along composes: a steps then b steps is a + b steps. */
  lemma AlongAdd(o: Pos, d: Pos, a: int, b: int)
    requires IsUnit(d)
    ensures Along(Along(o, d, a), d, b) == Along(o, d, a + b)
  {
  }

  /** The run that starts next to o, with its cells numbered from o. */
  lemma RunFromNeighbour(g: Grid, o: Pos, d: Pos, opp: Stone)
    requires WellFormed(g) && IsUnit(d)
    ensures var run := Run(g, Along(o, d, 1), d, opp);
      && (forall i :: 0 <= i < |run| ==> run[i] == Along(o, d, i + 1))
      && RunEnd(g, Along(o, d, 1), d, opp) == Along(o, d, |run| + 1)
  {
    var run := Run(g, Along(o, d, 1), d, opp);
    RunCells(g, Along(o, d, 1), d, opp);
    RunEndCell(g, Along(o, d, 1), d, opp);
    forall i | 0 <= i < |run|
      ensures run[i] == Along(o, d, i + 1)
    {
      AlongAdd(o, d, 1, i);
    }
    AlongAdd(o, d, 1, |run|);
  }

  /** A non-empty capture in direction d is exactly a bracketed run. */
  lemma RayFlipsBracket(g: Grid, o: Pos, d: Pos, p: Stone)
    requires WellFormed(g) && IsUnit(d)
    ensures var f := RayFlips(g, o, d, p); f != [] ==> Brackets(g, o, d, |f|, p)
  {
    var f := RayFlips(g, o, d, p);
    RayFlipsCells(g, o, d, p);
    forall k | 1 <= k <= |f|
      ensures InBounds(Along(o, d, k)) && At(g, Along(o, d, k)) == Opposite(p)
    {
      assert f[k - 1] == Along(o, d, k);
    }
  }

  /** The captures of the first k directions, concatenated direction by direction. */
  function FlipsUpTo(g: Grid, o: Pos, p: Stone, k: nat): seq<Pos>
    requires WellFormed(g) && k <= |Directions|
  {
    if k == 0 then [] else FlipsUpTo(g, o, p, k - 1) + RayFlips(g, o, Direction(k - 1), p)
  }

  /** Every cell the first k rays capture is on the board and holds the opponent's stone. */
  lemma {:induction false} FlipsUpToCells(g: Grid, o: Pos, p: Stone, k: nat)
    requires WellFormed(g) && k <= |Directions|
    ensures forall q :: q in FlipsUpTo(g, o, p, k) ==> InBounds(q) && At(g, q) == Opposite(p) && p != Empty
  {
    if k > 0 {
      FlipsUpToCells(g, o, p, k - 1);
      var ray := RayFlips(g, o, Direction(k - 1), p);
      RayFlipsCells(g, o, Direction(k - 1), p);
      assert FlipsUpTo(g, o, p, k) == FlipsUpTo(g, o, p, k - 1) + ray;
      forall q | q in ray
        ensures InBounds(q) && At(g, q) == Opposite(p) && p != Empty
      {
        var i :| 0 <= i < |ray| && ray[i] == q;
      }
    }
  }

  /** Each captured cell lies in one of the first k directions from o, never on o. */
  lemma {:induction false} FlipsUpToDirections(g: Grid, o: Pos, p: Stone, k: nat, q: Pos)
    requires WellFormed(g) && k <= |Directions| && q in FlipsUpTo(g, o, p, k)
    ensures IsUnit(DirOf(o, q)) && DirIndex(DirOf(o, q)) < k
  {
    assert k > 0;
    var f := FlipsUpTo(g, o, p, k - 1);
    if q in f {
      FlipsUpToDirections(g, o, p, k - 1, q);
    } else {
      RayDirection(g, o, k, p, q);
    }
  }

  /** A cell first captured along the k-th ray lies in direction k - 1 from o. */
  lemma RayDirection(g: Grid, o: Pos, k: nat, p: Stone, q: Pos)
    requires WellFormed(g) && 0 < k <= |Directions|
    requires q in FlipsUpTo(g, o, p, k) && q !in FlipsUpTo(g, o, p, k - 1)
    ensures IsUnit(DirOf(o, q)) && DirIndex(DirOf(o, q)) == k - 1
  {
    assert FlipsUpTo(g, o, p, k) == FlipsUpTo(g, o, p, k - 1) + RayFlips(g, o, Direction(k - 1), p);
    RayCellDirection(g, o, Direction(k - 1), p, q);
    DirectionTable(k - 1);
  }

  /** Every cell a ray captures lies in that ray's direction from o. */
  lemma RayCellDirection(g: Grid, o: Pos, d: Pos, p: Stone, q: Pos)
    requires WellFormed(g) && IsUnit(d) && q in RayFlips(g, o, d, p)
    ensures DirOf(o, q) == d
  {
    var ray := RayFlips(g, o, d, p);
    RayFlipsCells(g, o, d, p);
    var n :| 0 <= n < |ray| && ray[n] == q;
    AlongInjective(o, d, n + 1, n + 1);
  }

  /** Board.getStonesToFlip: every stone p captures by playing at o. */
  function Flips(g: Grid, o: Pos, p: Stone): seq<Pos>
    requires WellFormed(g)
  {
    FlipsUpTo(g, o, p, |Directions|)
  }

  // ---------------------------------------------------------------------
  // Legality, the valid-move list and the move itself
  // ---------------------------------------------------------------------

  /** Board.isValidMove(row, col, player). */
  predicate IsLegal(g: Grid, q: Pos, p: Stone)
    requires WellFormed(g)
  {
    InBounds(q) && At(g, q) == Empty && Flips(g, q, p) != []
  }

  /** a comes strictly before b in row-major order. */
  predicate Before(a: Pos, b: Pos) {
    a.0 < b.0 || (a.0 == b.0 && a.1 < b.1)
  }

  predicate RowMajor(m: seq<Pos>) {
    forall i, j :: 0 <= i < j < |m| ==> Before(m[i], m[j])
  }

  /** The legality test of one colour on one board, as a predicate on cells. */
  function LegalFor(g: Grid, p: Stone): Pos -> bool
    requires WellFormed(g)
  {
    q => IsLegal(g, q, p)
  }

  /** The cells of row r among its first n columns that pass `legal`, left to right. */
  function MovesInRow(legal: Pos -> bool, r: int, n: nat): seq<Pos> {
    if n == 0 then []
    else MovesInRow(legal, r, n - 1) + (if legal((r, n - 1)) then [(r, n - 1)] else [])
  }

  /** The cells of the first n rows that pass `legal`, in row-major order. */
  function MovesInRows(legal: Pos -> bool, n: nat): seq<Pos>
    requires n <= Size
  {
    if n == 0 then [] else MovesInRows(legal, n - 1) + MovesInRow(legal, n - 1, Size)
  }

  /** Joining two row-major lists, the first wholly before the second, keeps row-major order. */
  lemma RowMajorAppend(a: seq<Pos>, b: seq<Pos>)
    requires RowMajor(a) && RowMajor(b)
    requires forall x, y :: x in a && y in b ==> Before(x, y)
    ensures RowMajor(a + b)
  {
    var ab := a + b;
    forall i, j | 0 <= i < j < |ab|
      ensures Before(ab[i], ab[j])
    {
      if j < |a| {
        assert ab[i] == a[i] && ab[j] == a[j];
      } else if |a| <= i {
        assert ab[i] == b[i - |a|] && ab[j] == b[j - |a|];
      } else {
        assert ab[i] == a[i] && ab[j] == b[j - |a|];
        assert a[i] in a && b[j - |a|] in b;
      }
    }
  }

  /** A row scan lists exactly the passing cells of its columns, left to right. */
  lemma {:induction false} MovesInRowSpec(legal: Pos -> bool, r: int, n: nat)
    ensures forall q :: q in MovesInRow(legal, r, n) <==> q.0 == r && 0 <= q.1 < n && legal(q)
    ensures RowMajor(MovesInRow(legal, r, n))
  {
    if n > 0 {
      MovesInRowSpec(legal, r, n - 1);
      var last: seq<Pos> := if legal((r, n - 1)) then [(r, n - 1)] else [];
      RowMajorAppend(MovesInRow(legal, r, n - 1), last);
    }
  }

  /** A scan of the first n rows lists exactly their passing cells, in row-major order. */
  lemma {:induction false} MovesInRowsSpec(legal: Pos -> bool, n: nat)
    requires n <= Size
    ensures forall q :: q in MovesInRows(legal, n) <==> 0 <= q.0 < n && 0 <= q.1 < Size && legal(q)
    ensures RowMajor(MovesInRows(legal, n))
  {
    if n > 0 {
      MovesInRowsSpec(legal, n - 1);
      MovesInRowSpec(legal, n - 1, Size);
      RowMajorAppend(MovesInRows(legal, n - 1), MovesInRow(legal, n - 1, Size));
    }
  }

  /** One more column of a row scan appends that cell when it passes. */
  lemma MovesInRowStep(legal: Pos -> bool, prefix: seq<Pos>, r: int, n: nat)
    ensures prefix + MovesInRow(legal, r, n + 1) ==
      (prefix + MovesInRow(legal, r, n)) + (if legal((r, n)) then [(r, n)] else [])
  {
  }

  /** One more row of the board scan appends that row's passing cells. */
  lemma MovesInRowsStep(legal: Pos -> bool, n: nat)
    requires n < Size
    ensures MovesInRows(legal, n + 1) == MovesInRows(legal, n) + MovesInRow(legal, n, Size)
  {
  }

  /** Board.getValidMoves. */
  function ValidMoves(g: Grid, p: Stone): seq<Pos>
    requires WellFormed(g)
  {
    MovesInRows(LegalFor(g, p), Size)
  }

  /** Board.hasValidMoves, read as "some cell is a legal move". */
  ghost predicate HasValidMove(g: Grid, p: Stone)
    requires WellFormed(g)
  {
    exists q :: IsLegal(g, q, p)
  }

  /** Writing v into one cell. */
  function SetCell(g: Grid, q: Pos, v: Stone): (h: Grid)
    requires WellFormed(g) && InBounds(q)
    ensures WellFormed(h)
    ensures forall x :: InBounds(x) ==> At(h, x) == if x == q then v else At(g, x)
  {
    g[q.0 := g[q.0][q.1 := v]]
  }

  /** Writing v into each listed cell, in list order. */
  function Paint(g: Grid, cells: seq<Pos>, v: Stone): (h: Grid)
    requires WellFormed(g) && forall q :: q in cells ==> InBounds(q)
    ensures WellFormed(h)
    ensures forall x :: InBounds(x) ==> At(h, x) == if x in cells then v else At(g, x)
    decreases |cells|
  {
    if cells == [] then g
    else
      var h := Paint(SetCell(g, cells[0], v), cells[1..], v);
      assert forall x :: x in cells <==> x == cells[0] || x in cells[1..];
      h
  }

  /**
   * The board after p plays at o, in the order Board.makeMove works: place the
   * stone, compute the captures on that board, then turn each captured stone.
   */
  function ApplyMove(g: Grid, o: Pos, p: Stone): Grid
    requires WellFormed(g) && InBounds(o)
  {
    var placed := SetCell(g, o, p);
    FlipsUpToCells(placed, o, p, |Directions|);
    Paint(placed, Flips(placed, o, p), p)
  }

  // ---------------------------------------------------------------------
  // Counting (Board.countStones)
  // ---------------------------------------------------------------------

  function CountRow(row: seq<Stone>, s: Stone): nat {
    if row == [] then 0
    else CountRow(row[..|row| - 1], s) + (if row[|row| - 1] == s then 1 else 0)
  }

  function CountRows(rows: seq<seq<Stone>>, s: Stone): nat {
    if rows == [] then 0
    else CountRows(rows[..|rows| - 1], s) + CountRow(rows[|rows| - 1], s)
  }

  /** The number of cells holding s; s may be Empty. */
  function Count(g: Grid, s: Stone): nat {
    CountRows(g, s)
  }

  // ---------------------------------------------------------------------
  // Turns and the end of the game
  // ---------------------------------------------------------------------

  /** Board.isGameOver: neither colour has a legal move. */
  ghost predicate GameOver(g: Grid)
    requires WellFormed(g)
  {
    !HasValidMove(g, Black) && !HasValidMove(g, White)
  }

  /** Board.getWinner. */
  ghost function Winner(g: Grid): (w: Stone)
    requires WellFormed(g)
    ensures !GameOver(g) ==> w == Empty
    ensures w != Empty ==> GameOver(g) && Count(g, w) > Count(g, Opposite(w))
    ensures w == Empty && GameOver(g) ==> Count(g, Black) == Count(g, White)
  {
    if !GameOver(g) then Empty
    else if Count(g, Black) > Count(g, White) then Black
    else if Count(g, White) > Count(g, Black) then White
    else Empty
  }

  /** Board.switchPlayer: who is to move after `mover` has moved. */
  ghost function NextPlayer(g: Grid, mover: Stone): (next: Stone)
    requires WellFormed(g) && mover != Empty
    ensures next != Empty
    ensures next == mover || next == Opposite(mover)
    ensures next == mover <==> !HasValidMove(g, Opposite(mover)) && HasValidMove(g, mover)
    ensures !GameOver(g) ==> HasValidMove(g, next)
  {
    var other := Opposite(mover);
    if HasValidMove(g, other) then other
    else if HasValidMove(g, mover) then mover
    else other
  }

  // ---------------------------------------------------------------------
  // The starting position (Board.initializeBoard)
  // ---------------------------------------------------------------------

  function InitialStone(r: int, c: int): Stone {
    if (r == 3 && c == 3) || (r == 4 && c == 4) then White
    else if (r == 3 && c == 4) || (r == 4 && c == 3) then Black
    else Empty
  }

  function InitialGrid(): (g: Grid)
    ensures WellFormed(g)
    ensures forall q :: InBounds(q) ==> At(g, q) == InitialStone(q.0, q.1)
  {
    seq(Size, r => seq(Size, c => InitialStone(r, c)))
  }

  // ---------------------------------------------------------------------
  // Capture detection: completeness, distinctness, independence of the target
  // ---------------------------------------------------------------------

  /** A run stops exactly at the first cell that is off the board or not `opp`. */
  lemma {:induction false} RunStops(g: Grid, q: Pos, d: Pos, opp: Stone, n: nat)
    requires WellFormed(g) && IsUnit(d)
    requires forall k :: 0 <= k < n ==> InBounds(Along(q, d, k)) && At(g, Along(q, d, k)) == opp
    requires !(InBounds(Along(q, d, n)) && At(g, Along(q, d, n)) == opp)
    ensures |Run(g, q, d, opp)| == n
    decreases n
  {
    assert Along(q, d, 0) == q;
    if n > 0 {
      var next := Along(q, d, 1);
      forall k | 0 <= k <= n - 1
        ensures Along(next, d, k) == Along(q, d, k + 1)
      {
        AlongAdd(q, d, 1, k);
      }
      RunStops(g, next, d, opp, n - 1);
    }
  }

  /**
   * Completeness of one ray: a coloured stone that brackets n opponent stones
   * captures exactly those n stones.
   */
  lemma BracketedRayFlips(g: Grid, o: Pos, d: Pos, n: int, p: Stone)
    requires WellFormed(g) && IsUnit(d) && p != Empty && Brackets(g, o, d, n, p)
    ensures |RayFlips(g, o, d, p)| == n
    ensures forall i :: 0 <= i < n ==> RayFlips(g, o, d, p)[i] == Along(o, d, i + 1)
  {
    var start := Along(o, d, 1);
    var opp := Opposite(p);
    forall k | 0 <= k <= n
      ensures Along(start, d, k) == Along(o, d, k + 1)
    {
      AlongAdd(o, d, 1, k);
    }
    RunStops(g, start, d, opp, n);
    RunFromNeighbour(g, o, d, opp);
  }

  /**
   * What an explicit scan from o collects is the capture: cells holding the
   * opponent's stones, one step apart, ended by a cell that is off the board
   * or not the opponent's, and kept only when that cell holds p.
   */
  lemma ScanIsRayFlips(g: Grid, o: Pos, d: Pos, p: Stone, collected: seq<Pos>)
    requires WellFormed(g) && IsUnit(d)
    requires forall i :: 0 <= i < |collected| ==>
      collected[i] == Along(o, d, i + 1) && InBounds(collected[i]) && At(g, collected[i]) == Opposite(p)
    requires var e := Along(o, d, |collected| + 1); !(InBounds(e) && At(g, e) == Opposite(p))
    ensures var e := Along(o, d, |collected| + 1);
      RayFlips(g, o, d, p) == if |collected| > 0 && InBounds(e) && At(g, e) == p then collected else []
  {
    var start := Along(o, d, 1);
    forall k | 0 <= k < |collected|
      ensures InBounds(Along(start, d, k)) && At(g, Along(start, d, k)) == Opposite(p)
    {
      AlongAdd(o, d, 1, k);
      assert collected[k] == Along(o, d, k + 1);
    }
    AlongAdd(o, d, 1, |collected|);
    RunStops(g, start, d, Opposite(p), |collected|);
    RunFromNeighbour(g, o, d, Opposite(p));
  }

  /** A cell captured along one of the first k rays is in the capture list of those rays. */
  lemma {:induction false} RayInFlipsUpTo(g: Grid, o: Pos, p: Stone, k: nat, i: int, q: Pos)
    requires WellFormed(g) && 0 <= i < k <= |Directions|
    requires q in RayFlips(g, o, Direction(i), p)
    ensures q in FlipsUpTo(g, o, p, k)
  {
    assert FlipsUpTo(g, o, p, k) == FlipsUpTo(g, o, p, k - 1) + RayFlips(g, o, Direction(k - 1), p);
    if i < k - 1 {
      RayInFlipsUpTo(g, o, p, k - 1, i, q);
    }
  }

  /** Each cell of the capture list of the first k rays comes from one of them. */
  lemma {:induction false} FlipsUpToRay(g: Grid, o: Pos, p: Stone, k: nat, q: Pos)
    requires WellFormed(g) && k <= |Directions| && q in FlipsUpTo(g, o, p, k)
    ensures exists i :: 0 <= i < k && q in RayFlips(g, o, Direction(i), p)
  {
    assert k > 0;
    var ray := RayFlips(g, o, Direction(k - 1), p);
    assert FlipsUpTo(g, o, p, k) == FlipsUpTo(g, o, p, k - 1) + ray;
    if q in ray {
      assert 0 <= k - 1 < k && q in RayFlips(g, o, Direction(k - 1), p);
    } else {
      FlipsUpToRay(g, o, p, k - 1, q);
      var i :| 0 <= i < k - 1 && q in RayFlips(g, o, Direction(i), p);
      assert 0 <= i < k && q in RayFlips(g, o, Direction(i), p);
    }
  }

  /** The capture list is the union of the eight ray captures. */
  lemma FlipsMembers(g: Grid, o: Pos, p: Stone, q: Pos)
    requires WellFormed(g)
    ensures q in Flips(g, o, p) <==>
      exists i :: 0 <= i < |Directions| && q in RayFlips(g, o, Direction(i), p)
  {
    if q in Flips(g, o, p) {
      FlipsUpToRay(g, o, p, |Directions|, q);
    }
    if exists i :: 0 <= i < |Directions| && q in RayFlips(g, o, Direction(i), p) {
      var i :| 0 <= i < |Directions| && q in RayFlips(g, o, Direction(i), p);
      RayInFlipsUpTo(g, o, p, |Directions|, i, q);
    }
  }

  /**
   * The capture rule in one statement: a coloured stone played at o turns
   * exactly the cells 1..n steps along a direction in which n opponent
   * stones are bracketed by one of its own.
   */
  lemma FlipsBracketed(g: Grid, o: Pos, p: Stone, q: Pos)
    requires WellFormed(g) && p != Empty
    ensures q in Flips(g, o, p) <==>
      exists i, n, k :: 0 <= i < |Directions| && Brackets(g, o, Direction(i), n, p) &&
        1 <= k <= n && q == Along(o, Direction(i), k)
  {
    FlipsMembers(g, o, p, q);
    if q in Flips(g, o, p) {
      var i :| 0 <= i < |Directions| && q in RayFlips(g, o, Direction(i), p);
      var d := Direction(i);
      var f := RayFlips(g, o, d, p);
      RayFlipsCells(g, o, d, p);
      RayFlipsBracket(g, o, d, p);
      var j :| 0 <= j < |f| && f[j] == q;
      assert Brackets(g, o, d, |f|, p) && 1 <= j + 1 <= |f| && q == Along(o, d, j + 1);
    }
    if exists i, n, k :: 0 <= i < |Directions| && Brackets(g, o, Direction(i), n, p) &&
        1 <= k <= n && q == Along(o, Direction(i), k) {
      var i, n, k :| 0 <= i < |Directions| && Brackets(g, o, Direction(i), n, p) &&
        1 <= k <= n && q == Along(o, Direction(i), k);
      var d := Direction(i);
      BracketedRayFlips(g, o, d, n, p);
      assert RayFlips(g, o, d, p)[k - 1] == q;
    }
  }

  /** The cells k steps from o along d are pairwise different and never o itself. */
  lemma AlongInjective(o: Pos, d: Pos, a: int, b: int)
    requires IsUnit(d)
    ensures Along(o, d, a) == Along(o, d, b) <==> a == b
    ensures a >= 1 ==> DirOf(o, Along(o, d, a)) == d
  {
  }

  lemma DistinctConcat<T>(a: seq<T>, b: seq<T>)
    requires Distinct(a) && Distinct(b)
    requires forall j :: 0 <= j < |b| ==> b[j] !in a
    ensures Distinct(a + b)
  {
    var all := a + b;
    forall i, j | 0 <= i < j < |all|
      ensures all[i] != all[j]
    {
      if i < |a| <= j {
        assert all[j] == b[j - |a|];
        assert all[i] in a;
      }
    }
  }

  /** One ray lists each of its cells once, and none of them in an earlier direction. */
  lemma RayFlipsFresh(g: Grid, o: Pos, p: Stone, k: nat)
    requires WellFormed(g) && 1 <= k <= |Directions|
    ensures var ray := RayFlips(g, o, Direction(k - 1), p);
      && Distinct(ray)
      && forall j :: 0 <= j < |ray| ==> ray[j] !in FlipsUpTo(g, o, p, k - 1)
  {
    var d := Direction(k - 1);
    var ray := RayFlips(g, o, d, p);
    RayFlipsCells(g, o, d, p);
    forall i, j | 0 <= i < j < |ray|
      ensures ray[i] != ray[j]
    {
      AlongInjective(o, d, i + 1, j + 1);
    }
    DirectionTable(k - 1);
    forall j | 0 <= j < |ray|
      ensures ray[j] !in FlipsUpTo(g, o, p, k - 1)
    {
      AlongInjective(o, d, j + 1, j + 1);
      if ray[j] in FlipsUpTo(g, o, p, k - 1) {
        FlipsUpToDirections(g, o, p, k - 1, ray[j]);
      }
    }
  }

  lemma {:induction false} FlipsUpToDistinct(g: Grid, o: Pos, p: Stone, k: nat)
    requires WellFormed(g) && k <= |Directions|
    ensures Distinct(FlipsUpTo(g, o, p, k))
  {
    if k > 0 {
      FlipsUpToDistinct(g, o, p, k - 1);
      RayFlipsFresh(g, o, p, k);
      DistinctConcat(FlipsUpTo(g, o, p, k - 1), RayFlips(g, o, Direction(k - 1), p));
    }
  }

  /** Board.getStonesToFlip never lists a stone twice. */
  lemma FlipsDistinct(g: Grid, o: Pos, p: Stone)
    requires WellFormed(g)
    ensures Distinct(Flips(g, o, p))
  {
    FlipsUpToDistinct(g, o, p, |Directions|);
  }

  /**
   * Soundness of the capture list: each listed cell is on the board, holds the
   * opponent's stone, differs from the target, and some colour stone p moves.
   */
  lemma FlipsSound(g: Grid, o: Pos, p: Stone, q: Pos)
    requires WellFormed(g) && q in Flips(g, o, p)
    ensures InBounds(q) && At(g, q) == Opposite(p) && Opposite(p) != Empty
    ensures p != Empty && q != o
  {
    FlipsUpToCells(g, o, p, |Directions|);
    FlipsUpToDirections(g, o, p, |Directions|, q);
  }

  /** A ray whose first cell does not hold the opponent's stone captures nothing. */
  lemma QuietRay(g: Grid, o: Pos, d: Pos, p: Stone)
    requires WellFormed(g) && IsUnit(d)
    requires !(InBounds(Along(o, d, 1)) && At(g, Along(o, d, 1)) == Opposite(p))
    ensures RayFlips(g, o, d, p) == []
  {
    RunStop(g, Along(o, d, 1), d, Opposite(p));
  }

  /** When only the i-th ray captures, the first k rays contribute it exactly when k > i. */
  lemma {:induction false} SingleRayUpTo(g: Grid, o: Pos, p: Stone, i: nat, k: nat)
    requires WellFormed(g) && i < |Directions| && k <= |Directions|
    requires forall j :: 0 <= j < |Directions| && j != i ==> RayFlips(g, o, Direction(j), p) == []
    ensures FlipsUpTo(g, o, p, k) == if k > i then RayFlips(g, o, Direction(i), p) else []
  {
    if k > 0 {
      SingleRayUpTo(g, o, p, i, k - 1);
      assert FlipsUpTo(g, o, p, k) == FlipsUpTo(g, o, p, k - 1) + RayFlips(g, o, Direction(k - 1), p);
    }
  }

  /** When only one ray captures, the capture list is that ray's. */
  lemma SingleRay(g: Grid, o: Pos, p: Stone, i: nat)
    requires WellFormed(g) && i < |Directions|
    requires forall j :: 0 <= j < |Directions| && j != i ==> RayFlips(g, o, Direction(j), p) == []
    ensures Flips(g, o, p) == RayFlips(g, o, Direction(i), p)
  {
    SingleRayUpTo(g, o, p, i, |Directions|);
  }

  /** Playing Empty captures nothing: the scan over empty cells ends on a stone. */
  lemma {:induction false} NoFlipsForEmpty(g: Grid, o: Pos, k: nat)
    requires WellFormed(g) && k <= |Directions|
    ensures FlipsUpTo(g, o, Empty, k) == []
  {
    if k > 0 {
      NoFlipsForEmpty(g, o, k - 1);
      RayFlipsCells(g, o, Direction(k - 1), Empty);
    }
  }

  /**
   * Board.isValidMove, read independently: the cell is empty and on the board,
   * p is a colour, and in some direction p brackets a run of opponent stones.
   */
  lemma LegalMoveIff(g: Grid, q: Pos, p: Stone)
    requires WellFormed(g)
    ensures IsLegal(g, q, p) <==>
      && InBounds(q) && At(g, q) == Empty && p != Empty
      && exists i, n :: 0 <= i < |Directions| && Brackets(g, q, Direction(i), n, p)
  {
    var f := Flips(g, q, p);
    if IsLegal(g, q, p) {
      FlipsSound(g, q, p, f[0]);
      FlipsMembers(g, q, p, f[0]);
      var i :| 0 <= i < |Directions| && f[0] in RayFlips(g, q, Direction(i), p);
      RayFlipsBracket(g, q, Direction(i), p);
      assert Brackets(g, q, Direction(i), |RayFlips(g, q, Direction(i), p)|, p);
    }
    if && InBounds(q) && At(g, q) == Empty && p != Empty
       && exists i, n :: 0 <= i < |Directions| && Brackets(g, q, Direction(i), n, p)
    {
      var i, n :| 0 <= i < |Directions| && Brackets(g, q, Direction(i), n, p);
      BracketedRayFlips(g, q, Direction(i), n, p);
      var ray := RayFlips(g, q, Direction(i), p);
      FlipsMembers(g, q, p, ray[0]);
    }
  }

  /** A run is unaffected by a change to a cell behind its start. */
  lemma {:induction false} RunIgnoresBehind(g: Grid, h: Grid, q: Pos, d: Pos, opp: Stone, o: Pos, k: int)
    requires WellFormed(g) && WellFormed(h) && IsUnit(d) && k >= 1
    requires o == Along(q, d, -k)
    requires forall x :: InBounds(x) && x != o ==> At(h, x) == At(g, x)
    ensures Run(h, q, d, opp) == Run(g, q, d, opp)
    ensures RunEnd(h, q, d, opp) == RunEnd(g, q, d, opp)
    decreases Remaining(q, d)
  {
    AlongInjective(q, d, 0, -k);
    assert Along(q, d, 0) == q;
    if InBounds(q) && At(g, q) == opp {
      AlongAdd(q, d, 1, -(k + 1));
      RunIgnoresBehind(g, h, Along(q, d, 1), d, opp, o, k + 1);
    }
  }

  /** A ray's captures do not depend on what stands on its own origin. */
  lemma RayFlipsIgnoreOrigin(g: Grid, o: Pos, v: Stone, d: Pos, p: Stone)
    requires WellFormed(g) && InBounds(o) && IsUnit(d)
    ensures RayFlips(SetCell(g, o, v), o, d, p) == RayFlips(g, o, d, p)
  {
    var h := SetCell(g, o, v);
    var start := Along(o, d, 1);
    AlongAdd(o, d, 1, -1);
    assert Along(o, d, 0) == o;
    RunIgnoresBehind(g, h, start, d, Opposite(p), o, 1);
    RunFromNeighbour(g, o, d, Opposite(p));
    var run := Run(g, start, d, Opposite(p));
    AlongInjective(o, d, |run| + 1, 0);
  }

  lemma {:induction false} FlipsUpToIgnoreOrigin(g: Grid, o: Pos, v: Stone, p: Stone, k: nat)
    requires WellFormed(g) && InBounds(o) && k <= |Directions|
    ensures FlipsUpTo(SetCell(g, o, v), o, p, k) == FlipsUpTo(g, o, p, k)
  {
    if k > 0 {
      FlipsUpToIgnoreOrigin(g, o, v, p, k - 1);
      RayFlipsIgnoreOrigin(g, o, v, Direction(k - 1), p);
    }
  }

  /**
   * The capture list that Board.makeMove computes after placing its stone is the
   * one computed before placing it.
   */
  lemma FlipsAfterPlacement(g: Grid, o: Pos, v: Stone, p: Stone)
    requires WellFormed(g) && InBounds(o)
    ensures Flips(SetCell(g, o, v), o, p) == Flips(g, o, p)
  {
    FlipsUpToIgnoreOrigin(g, o, v, p, |Directions|);
  }

  /**
   * Board.makeMove's effect on the grid: the target and every captured cell take
   * the mover's colour and no other cell changes.
   */
  lemma ApplyMoveCells(g: Grid, o: Pos, p: Stone)
    requires WellFormed(g) && InBounds(o)
    ensures WellFormed(ApplyMove(g, o, p))
    ensures forall x :: InBounds(x) ==>
      At(ApplyMove(g, o, p), x) == if x == o || x in Flips(g, o, p) then p else At(g, x)
  {
    FlipsAfterPlacement(g, o, p, p);
  }

  // ---------------------------------------------------------------------
  // Counting
  // ---------------------------------------------------------------------

  lemma {:induction false} CountRowUpdate(row: seq<Stone>, c: int, v: Stone, s: Stone)
    requires 0 <= c < |row|
    ensures CountRow(row[c := v], s) ==
      CountRow(row, s) - (if row[c] == s then 1 else 0) + (if v == s then 1 else 0)
    decreases |row|
  {
    var n := |row| - 1;
    if c < n {
      assert row[c := v][..n] == row[..n][c := v];
      CountRowUpdate(row[..n], c, v, s);
    } else {
      assert row[c := v][..n] == row[..n];
    }
  }

  lemma {:induction false} CountRowsUpdate(rows: seq<seq<Stone>>, r: int, row: seq<Stone>, s: Stone)
    requires 0 <= r < |rows|
    ensures CountRows(rows[r := row], s) == CountRows(rows, s) - CountRow(rows[r], s) + CountRow(row, s)
    decreases |rows|
  {
    var n := |rows| - 1;
    if r < n {
      assert rows[r := row][..n] == rows[..n][r := row];
      CountRowsUpdate(rows[..n], r, row, s);
    } else {
      assert rows[r := row][..n] == rows[..n];
    }
  }

  /** Writing one cell moves at most one unit between two counts. */
  lemma SetCellCount(g: Grid, q: Pos, v: Stone, s: Stone)
    requires WellFormed(g) && InBounds(q)
    ensures Count(SetCell(g, q, v), s) ==
      Count(g, s) - (if At(g, q) == s then 1 else 0) + (if v == s then 1 else 0)
  {
    CountRowUpdate(g[q.0], q.1, v, s);
    CountRowsUpdate(g, q.0, g[q.0][q.1 := v], s);
  }

  /** Painting n distinct cells of colour `from` with v moves n units from `from` to v. */
  lemma {:induction false} PaintCount(g: Grid, cells: seq<Pos>, v: Stone, from: Stone, s: Stone)
    requires WellFormed(g) && forall q :: q in cells ==> InBounds(q)
    requires Distinct(cells) && forall q :: q in cells ==> At(g, q) == from
    requires from != v
    ensures Count(Paint(g, cells, v), s) ==
      Count(g, s) + (if s == v then |cells| else if s == from then -|cells| else 0)
    decreases |cells|
  {
    if cells != [] {
      var h := SetCell(g, cells[0], v);
      SetCellCount(g, cells[0], v, s);
      forall q | q in cells[1..]
        ensures At(h, q) == from
      {
        var j :| 0 <= j < |cells[1..]| && cells[1..][j] == q;
        assert cells[0] != cells[j + 1];
      }
      assert forall q :: q in cells[1..] ==> q in cells;
      PaintCount(h, cells[1..], v, from, s);
    }
  }

  /**
   * Scorekeeping of a legal move: the mover gains the placed stone and every
   * captured one, the opponent loses exactly the captured ones, and one empty
   * cell is filled.
   */
  lemma MoveCounts(g: Grid, o: Pos, p: Stone)
    requires WellFormed(g) && IsLegal(g, o, p)
    ensures var h := ApplyMove(g, o, p);
      var n := |Flips(g, o, p)|;
      && Count(h, p) == Count(g, p) + 1 + n
      && Count(h, Opposite(p)) == Count(g, Opposite(p)) - n
      && Count(h, Empty) == Count(g, Empty) - 1
  {
    var f := Flips(g, o, p);
    var placed := SetCell(g, o, p);
    FlipsSound(g, o, p, f[0]);
    FlipsAfterPlacement(g, o, p, p);
    FlipsDistinct(g, o, p);
    FlipsUpToCells(g, o, p, |Directions|);
    forall q | q in f
      ensures At(placed, q) == Opposite(p)
    {
      FlipsSound(g, o, p, q);
    }
    SetCellCount(g, o, p, p);
    SetCellCount(g, o, p, Opposite(p));
    SetCellCount(g, o, p, Empty);
    PaintCount(placed, f, p, Opposite(p), p);
    PaintCount(placed, f, p, Opposite(p), Opposite(p));
    PaintCount(placed, f, p, Opposite(p), Empty);
  }

  lemma {:induction false} RowConservation(row: seq<Stone>)
    ensures CountRow(row, Black) + CountRow(row, White) + CountRow(row, Empty) == |row|
  {
    if row != [] {
      RowConservation(row[..|row| - 1]);
    }
  }

  lemma {:induction false} RowsConservation(rows: seq<seq<Stone>>)
    requires forall r :: 0 <= r < |rows| ==> |rows[r]| == Size
    ensures CountRows(rows, Black) + CountRows(rows, White) + CountRows(rows, Empty) == Size * |rows|
  {
    if rows != [] {
      RowsConservation(rows[..|rows| - 1]);
      RowConservation(rows[|rows| - 1]);
    }
  }

  /** Conservation: every one of the 64 cells is black, white or empty. */
  lemma Conservation(g: Grid)
    requires WellFormed(g)
    ensures Count(g, Black) + Count(g, White) + Count(g, Empty) == Size * Size
  {
    RowsConservation(g);
  }

  // ---------------------------------------------------------------------
  // The valid-move list
  // ---------------------------------------------------------------------

  /** A row-major list is determined by the cells it holds. */
  lemma {:induction false} RowMajorUnique(a: seq<Pos>, b: seq<Pos>)
    requires RowMajor(a) && RowMajor(b)
    requires forall q :: q in a <==> q in b
    ensures a == b
    decreases |a|
  {
    if |a| > 0 {
      assert a[0] in b;
    }
    if |b| > 0 {
      assert b[0] in a;
    }
    if |a| > 0 && |b| > 0 {
      var x, y := a[0], b[0];
      var i :| 0 <= i < |a| && a[i] == y;
      var j :| 0 <= j < |b| && b[j] == x;
      assert x == y by {
        assert i == 0 || Before(x, y);
        assert j == 0 || Before(y, x);
      }
      forall q
        ensures q in a[1..] <==> q in b[1..]
      {
        if q in a[1..] {
          var k :| 1 <= k < |a| && a[k] == q;
          assert Before(a[0], q) && q in a && q in b;
          var m :| 0 <= m < |b| && b[m] == q;
          assert m != 0 && b[1..][m - 1] == q;
        }
        if q in b[1..] {
          var k :| 1 <= k < |b| && b[k] == q;
          assert Before(b[0], q) && q in b && q in a;
          var m :| 0 <= m < |a| && a[m] == q;
          assert m != 0 && a[1..][m - 1] == q;
        }
      }
      RowMajorUnique(a[1..], b[1..]);
      assert a == [a[0]] + a[1..] && b == [b[0]] + b[1..];
    }
  }

  /**
   * Board.getValidMoves lists exactly the legal moves, each once, in row-major
   * order, and Board.hasValidMoves holds exactly when that list is non-empty.
   */
  lemma ValidMovesSpec(g: Grid, p: Stone)
    requires WellFormed(g)
    ensures forall q :: q in ValidMoves(g, p) <==> IsLegal(g, q, p)
    ensures RowMajor(ValidMoves(g, p)) && Distinct(ValidMoves(g, p))
    ensures HasValidMove(g, p) <==> ValidMoves(g, p) != []
  {
    ValidMovesMembers(g, p);
    RowMajorDistinct(ValidMoves(g, p));
    var m := ValidMoves(g, p);
    if m != [] {
      assert m[0] in m;
    }
    if HasValidMove(g, p) {
      var q :| IsLegal(g, q, p);
      assert q in m;
    }
  }

  /** The scan of the whole board with the legality test lists exactly the legal moves, in order. */
  lemma ValidMovesMembers(g: Grid, p: Stone)
    requires WellFormed(g)
    ensures forall q :: q in ValidMoves(g, p) <==> IsLegal(g, q, p)
    ensures RowMajor(ValidMoves(g, p))
  {
    var legal := LegalFor(g, p);
    MovesInRowsSpec(legal, Size);
    forall q
      ensures legal(q) == IsLegal(g, q, p)
    {
    }
  }

  /** A row-major list has no repeated cell. */
  lemma RowMajorDistinct(m: seq<Pos>)
    requires RowMajor(m)
    ensures Distinct(m)
  {
    forall i, j | 0 <= i < j < |m|
      ensures m[i] != m[j]
    {
      assert Before(m[i], m[j]);
    }
  }
}

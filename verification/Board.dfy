/**
 * The Othello board (Board.java): an 8x8 grid updated in place and the colour
 * to move. Every query is a loop over the grid proved against the matching
 * definition in Rules; makeMove writes the grid cell by cell.
 */
module BoardEngine {
  import opened Stones
  import opened Rules

  /** getStone's answer: the cell's content, or the rejected position. */
  datatype Lookup = Found(stone: Stone) | InvalidPosition(row: int, col: int)

  class Board {
    const grid: array2<Stone>
    var currentPlayer: Stone

    /** The grid is 8x8 and some colour is to move. */
    ghost predicate Valid()
      reads this
    {
      grid.Length0 == Size && grid.Length1 == Size && currentPlayer != Empty
    }

    /** The grid as a board value. */
    ghost function Cells(): (g: Grid)
      reads grid
      requires grid.Length0 == Size && grid.Length1 == Size
      ensures WellFormed(g)
      ensures forall r, c :: 0 <= r < Size && 0 <= c < Size ==> g[r][c] == grid[r, c]
    {
      seq(Size, r requires 0 <= r < Size reads grid =>
        seq(Size, c requires 0 <= c < Size reads grid => grid[r, c]))
    }

    /** A new board in the starting position, White to move. */
    constructor ()
      ensures Valid() && fresh(grid)
      ensures Cells() == InitialGrid() && currentPlayer == White
    {
      grid := new Stone[Size, Size];
      new;
      InitializeBoard();
    }

    /** A deep copy: same cells and player, in a grid of its own. */
    constructor Copy(other: Board)
      requires other.Valid()
      ensures Valid() && fresh(grid)
      ensures Cells() == other.Cells() && currentPlayer == other.currentPlayer
    {
      grid := new Stone[Size, Size];
      new;
      for row := 0 to Size
        invariant forall r, c :: 0 <= r < row && 0 <= c < Size ==> grid[r, c] == other.grid[r, c]
      {
        for col := 0 to Size
          invariant forall r, c :: 0 <= r < row && 0 <= c < Size ==> grid[r, c] == other.grid[r, c]
          invariant forall c :: 0 <= c < col ==> grid[row, c] == other.grid[row, c]
        {
          grid[row, col] := other.grid[row, col];
        }
      }
      currentPlayer := other.currentPlayer;
      SameCells(Cells(), other.Cells());
    }

    /** Empties every cell, sets the four centre stones and gives White the move. */
    method InitializeBoard()
      requires grid.Length0 == Size && grid.Length1 == Size
      modifies this, grid
      ensures Valid() && Cells() == InitialGrid() && currentPlayer == White
    {
      for row := 0 to Size
        invariant forall r, c :: 0 <= r < row && 0 <= c < Size ==> grid[r, c] == Empty
      {
        for col := 0 to Size
          invariant forall r, c :: 0 <= r < row && 0 <= c < Size ==> grid[r, c] == Empty
          invariant forall c :: 0 <= c < col ==> grid[row, c] == Empty
        {
          grid[row, col] := Empty;
        }
      }
      grid[3, 3] := White;
      grid[3, 4] := Black;
      grid[4, 3] := Black;
      grid[4, 4] := White;
      currentPlayer := White;
      SameCells(Cells(), InitialGrid());
    }

    /** Board.getStone: the cell's content, or an error for a position off the board. */
    function GetStone(row: int, col: int): (s: Lookup)
      reads this, grid
      requires Valid()
      ensures s.Found? <==> InBounds((row, col))
      ensures s.Found? ==> s.stone == At(Cells(), (row, col))
      ensures s.InvalidPosition? ==> s == InvalidPosition(row, col)
    {
      if !InBounds((row, col)) then InvalidPosition(row, col) else Found(grid[row, col])
    }

    /** Board.getCurrentPlayer: always a colour. */
    function GetCurrentPlayer(): (s: Stone)
      reads this
      requires Valid()
      ensures s == Black || s == White
    {
      currentPlayer
    }

    /** Board.getStonesToFlip: scans the eight rays from (row, col). */
    method GetStonesToFlip(row: int, col: int, player: Stone) returns (allFlips: seq<Pos>)
      requires Valid()
      ensures allFlips == Flips(Cells(), (row, col), player)
    {
      allFlips := [];
      for i := 0 to |Directions|
        invariant allFlips == FlipsUpTo(Cells(), (row, col), player, i)
      {
        var flipsInDirection := ScanDirection(row, col, Direction(i), player);
        allFlips := allFlips + flipsInDirection;
      }
    }

    /**
     * One pass of getStonesToFlip's direction loop: walk from the neighbour of
     * (row, col) over the opponent's stones, and keep them only if the walk
     * stops on one of player's stones.
     */
    method ScanDirection(row: int, col: int, direction: Pos, player: Stone) returns (flips: seq<Pos>)
      requires Valid() && IsUnit(direction)
      ensures flips == RayFlips(Cells(), (row, col), direction, player)
    {
      ghost var g := Cells();
      var opponent := Opposite(player);
      var flipsInDirection: seq<Pos> := [];
      var r := row + direction.0;
      var c := col + direction.1;
      AlongOne((row, col), direction);
      while InBounds((r, c)) && grid[r, c] == opponent
        invariant (r, c) == Along((row, col), direction, |flipsInDirection| + 1)
        invariant forall i :: 0 <= i < |flipsInDirection| ==>
          flipsInDirection[i] == Along((row, col), direction, i + 1) &&
          InBounds(flipsInDirection[i]) && At(g, flipsInDirection[i]) == opponent
        decreases Remaining((r, c), direction)
      {
        AlongAdd((row, col), direction, |flipsInDirection| + 1, 1);
        flipsInDirection := flipsInDirection + [(r, c)];
        r := r + direction.0;
        c := c + direction.1;
      }
      ScanIsRayFlips(g, (row, col), direction, player, flipsInDirection);
      if |flipsInDirection| > 0 && InBounds((r, c)) && grid[r, c] == player {
        flips := flipsInDirection;
      } else {
        flips := [];
      }
    }

    /** Board.isValidMove(row, col, player). */
    method IsValidMove(row: int, col: int, player: Stone) returns (valid: bool)
      requires Valid()
      ensures valid == IsLegal(Cells(), (row, col), player)
    {
      if !InBounds((row, col)) {
        return false;
      }
      if grid[row, col] != Empty {
        return false;
      }
      var flips := GetStonesToFlip(row, col, player);
      return |flips| > 0;
    }

    /** Board.isValidMove(row, col): legality for the player to move. */
    method IsValidMoveForCurrentPlayer(row: int, col: int) returns (valid: bool)
      requires Valid()
      ensures valid == IsLegal(Cells(), (row, col), currentPlayer)
    {
      valid := IsValidMove(row, col, currentPlayer);
    }

    /**
     * Board.makeMove: a rejected move changes nothing; an accepted one places
     * the stone, turns the captured stones and passes the turn.
     */
    method MakeMove(row: int, col: int) returns (success: bool)
      requires Valid()
      modifies this, grid
      ensures Valid()
      ensures success == IsLegal(old(Cells()), (row, col), old(currentPlayer))
      ensures !success ==> Cells() == old(Cells()) && currentPlayer == old(currentPlayer)
      ensures success ==> Cells() == ApplyMove(old(Cells()), (row, col), old(currentPlayer))
      ensures success ==> currentPlayer == NextPlayer(Cells(), old(currentPlayer))
    {
      success := IsValidMoveForCurrentPlayer(row, col);
      if !success {
        return;
      }
      ghost var g := Cells();
      grid[row, col] := currentPlayer;
      ghost var placed := Cells();
      SameCells(placed, SetCell(g, (row, col), currentPlayer));
      var flips := GetStonesToFlip(row, col, currentPlayer);
      FlipsUpToCells(placed, (row, col), currentPlayer, |Directions|);
      TurnStones(flips);
      SwitchPlayer();
    }

    /** The painting loop of Board.makeMove: every listed cell takes the mover's colour. */
    method TurnStones(cells: seq<Pos>)
      requires Valid() && forall q :: q in cells ==> InBounds(q)
      modifies grid
      ensures Cells() == Paint(old(Cells()), cells, currentPlayer)
    {
      ghost var before := Cells();
      for i := 0 to |cells|
        invariant forall r, c :: 0 <= r < Size && 0 <= c < Size ==>
          grid[r, c] == if (r, c) in cells[..i] then currentPlayer else before[r][c]
      {
        assert cells[..i + 1] == cells[..i] + [cells[i]];
        assert cells[i] in cells;
        grid[cells[i].0, cells[i].1] := currentPlayer;
      }
      assert cells[..|cells|] == cells;
      SameCells(Cells(), Paint(before, cells, currentPlayer));
    }

    /** Board.switchPlayer: the opponent moves if it can, else the mover again if it can. */
    method SwitchPlayer()
      requires Valid()
      modifies this
      ensures Valid() && currentPlayer == NextPlayer(Cells(), old(currentPlayer))
    {
      var nextPlayer := Opposite(currentPlayer);
      var nextCanMove := HasValidMoves(nextPlayer);
      if nextCanMove {
        currentPlayer := nextPlayer;
      } else {
        var moverCanMove := HasValidMoves(currentPlayer);
        if !moverCanMove {
          currentPlayer := nextPlayer;
        }
      }
    }

    /** Board.hasValidMoves: stops at the first legal move in row-major order. */
    method HasValidMoves(player: Stone) returns (found: bool)
      requires Valid()
      ensures found == HasValidMove(Cells(), player)
    {
      for row := 0 to Size
        invariant forall q :: InBounds(q) && q.0 < row ==> !IsLegal(Cells(), q, player)
      {
        for col := 0 to Size
          invariant forall q :: InBounds(q) && (q.0 < row || (q.0 == row && q.1 < col)) ==>
            !IsLegal(Cells(), q, player)
        {
          var valid := IsValidMove(row, col, player);
          if valid {
            return true;
          }
        }
      }
      return false;
    }

    /** Board.getValidMoves: collects the legal moves row by row. */
    method GetValidMoves(player: Stone) returns (moves: seq<Pos>)
      requires Valid()
      ensures moves == ValidMoves(Cells(), player)
    {
      ghost var g := Cells();
      moves := [];
      for row := 0 to Size
        invariant moves == MovesInRows(LegalFor(g, player), row)
      {
        for col := 0 to Size
          invariant moves == MovesInRows(LegalFor(g, player), row) + MovesInRow(LegalFor(g, player), row, col)
        {
          var valid := IsValidMove(row, col, player);
          MovesInRowStep(LegalFor(g, player), MovesInRows(LegalFor(g, player), row), row, col);
          if valid {
            moves := moves + [(row, col)];
          }
        }
        MovesInRowsStep(LegalFor(g, player), row);
      }
    }

    /** Board.countStones: the number of cells holding `player` (Empty allowed). */
    method CountStones(player: Stone) returns (count: int)
      requires Valid()
      ensures count == Count(Cells(), player)
    {
      ghost var g := Cells();
      count := 0;
      for row := 0 to Size
        invariant count == CountRows(g[..row], player)
      {
        for col := 0 to Size
          invariant count == CountRows(g[..row], player) + CountRow(g[row][..col], player)
        {
          assert g[row][..col + 1][..col] == g[row][..col];
          if grid[row, col] == player {
            count := count + 1;
          }
        }
        assert g[..row + 1][..row] == g[..row];
        assert g[row][..Size] == g[row];
      }
      assert g[..Size] == g;
    }

    /** Board.isGameOver: neither colour can move. */
    method IsGameOver() returns (over: bool)
      requires Valid()
      ensures over == GameOver(Cells())
    {
      var blackCanMove := HasValidMoves(Black);
      if blackCanMove {
        return false;
      }
      var whiteCanMove := HasValidMoves(White);
      return !whiteCanMove;
    }

    /** Board.getWinner: Empty while the game runs or on a tie, else the larger count. */
    method GetWinner() returns (winner: Stone)
      requires Valid()
      ensures winner == Winner(Cells())
    {
      var over := IsGameOver();
      if !over {
        return Empty;
      }
      var blackCount := CountStones(Black);
      var whiteCount := CountStones(White);
      if blackCount > whiteCount {
        winner := Black;
      } else if whiteCount > blackCount {
        winner := White;
      } else {
        winner := Empty;
      }
    }
  }

  /**
   * Copying a board and then moving on the original: the copy owns its grid,
   * so it keeps the position and the player to move that the original had
   * before the move, while the original takes the move.
   */
  method MoveAfterCopy(original: Board, row: int, col: int) returns (copy: Board, success: bool)
    requires original.Valid()
    modifies original, original.grid
    ensures copy.Valid() && fresh(copy.grid)
    ensures copy.Cells() == old(original.Cells()) && copy.currentPlayer == old(original.currentPlayer)
    ensures success == IsLegal(old(original.Cells()), (row, col), old(original.currentPlayer))
    ensures success ==> original.Cells() == ApplyMove(old(original.Cells()), (row, col), old(original.currentPlayer))
  {
    copy := new Board.Copy(original);
    success := original.MakeMove(row, col);
  }
}

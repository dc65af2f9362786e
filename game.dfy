/** The two-player game: the board, whose turn it is, and the five-in-a-row win test. */
module Game {
  import opened Board

  /** A unit step along one of the eight compass directions. */
  predicate IsStep(dx: int, dy: int) {
    -1 <= dx <= 1 && -1 <= dy <= 1 && (dx != 0 || dy != 0)
  }

  /** How many more steps in direction `d` can start from coordinate `p` and stay on the board. */
  function Span(p: int, d: int): nat {
    if d == 1 && p <= BOARD_SIZE then BOARD_SIZE - p
    else if d == -1 && p >= -1 then p + 1
    else 0
  }

  /** Cell (px, py) is on the board and holds `c`. */
  predicate Same(g: Grid, px: int, py: int, c: Stone)
    requires WellFormed(g)
  {
    InBounds(px, py) && g[px][py] == c
  }

  /** The length of the run of stones `c` that starts at (px, py) and goes in direction (dx, dy). */
  function Count(g: Grid, px: int, py: int, dx: int, dy: int, c: Stone): nat
    requires WellFormed(g) && IsStep(dx, dy)
    decreases Span(px, dx) + Span(py, dy)
  {
    if Same(g, px, py, c) then 1 + Count(g, px + dx, py + dy, dx, dy, c) else 0
  }

  /**
   * The test each axis helper performs: the stones equal to the one at (x, y),
   * counted outward in both senses of the axis (dx, dy), number at least four.
   */
  predicate LineWin(g: Grid, x: int, y: int, dx: int, dy: int)
    requires WellFormed(g) && InBounds(x, y) && IsStep(dx, dy)
  {
    Count(g, x + dx, y + dy, dx, dy, g[x][y])
      + Count(g, x - dx, y - dy, -dx, -dy, g[x][y]) >= WINNING_THRESHOLD - 1
  }

  /** The game's win test at the most recent move: column, row, diagonal, anti-diagonal. */
  predicate WinAt(g: Grid, x: int, y: int)
    requires WellFormed(g) && InBounds(x, y)
  {
    LineWin(g, x, y, 0, 1) || LineWin(g, x, y, 1, 0)
      || LineWin(g, x, y, 1, 1) || LineWin(g, x, y, 1, -1)
  }

  /** Cell `t` steps from (px, py) along (dx, dy) is a `c` on the board. */
  predicate RaySame(g: Grid, px: int, py: int, dx: int, dy: int, c: Stone, t: int)
    requires WellFormed(g)
  {
    Same(g, Offset(px, t, dx), Offset(py, t, dy), c)
  }

  /** The five cells starting `s` steps from (x, y) along (dx, dy) are on the board and equal g[x][y]. */
  predicate WindowSame(g: Grid, x: int, y: int, dx: int, dy: int, s: int)
    requires WellFormed(g) && InBounds(x, y)
  {
    forall t :: s <= t < s + WINNING_THRESHOLD ==> RaySame(g, x, y, dx, dy, g[x][y], t)
  }

  /** Five equal stones in a line along (dx, dy) pass through (x, y). */
  predicate FiveThrough(g: Grid, x: int, y: int, dx: int, dy: int)
    requires WellFormed(g) && InBounds(x, y)
  {
    exists s :: -(WINNING_THRESHOLD - 1) <= s <= 0 && WindowSame(g, x, y, dx, dy, s)
  }

  /** Reference definition of a win: five in a row through (x, y) along one of the four axes. */
  predicate FiveInARow(g: Grid, x: int, y: int)
    requires WellFormed(g) && InBounds(x, y)
  {
    FiveThrough(g, x, y, 0, 1) || FiveThrough(g, x, y, 1, 0)
      || FiveThrough(g, x, y, 1, 1) || FiveThrough(g, x, y, 1, -1)
  }

  /** One step then t - 1 more is t steps. */
  lemma OffsetShift(p: int, d: int, t: int)
    requires -1 <= d <= 1
    ensures Offset(p + d, t - 1, d) == Offset(p, t, d)
  {
  }

  /** Stepping back once and then t + 1 steps the other way reaches the cell t steps ahead. */
  lemma OffsetBack(p: int, d: int, t: int)
    requires -1 <= d <= 1
    ensures Offset(p - d, -t - 1, -d) == Offset(p, t, d)
  {
  }

  /** Two rays that reach the same cell agree on it. */
  lemma RaySameMoved(g: Grid, px: int, py: int, dx: int, dy: int, qx: int, qy: int, ex: int, ey: int, c: Stone, t: int, u: int)
    requires WellFormed(g) && RaySame(g, qx, qy, ex, ey, c, u)
    requires Offset(qx, u, ex) == Offset(px, t, dx) && Offset(qy, u, ey) == Offset(py, t, dy)
    ensures RaySame(g, px, py, dx, dy, c, t)
  {
  }

  /** Every cell of a run is a `c` on the board, and the cell just past it is not. */
  lemma {:induction false} CountExact(g: Grid, px: int, py: int, dx: int, dy: int, c: Stone)
    requires WellFormed(g) && IsStep(dx, dy)
    ensures forall t :: 0 <= t < Count(g, px, py, dx, dy, c) ==> RaySame(g, px, py, dx, dy, c, t)
    ensures !RaySame(g, px, py, dx, dy, c, Count(g, px, py, dx, dy, c))
    decreases Span(px, dx) + Span(py, dy)
  {
    var n := Count(g, px, py, dx, dy, c);
    if Same(g, px, py, c) {
      var qx, qy := px + dx, py + dy;
      CountExact(g, qx, qy, dx, dy, c);
      assert n == 1 + Count(g, qx, qy, dx, dy, c);
      forall t | 0 <= t < n
        ensures RaySame(g, px, py, dx, dy, c, t)
      {
        if t > 0 {
          assert RaySame(g, qx, qy, dx, dy, c, t - 1);
          OffsetShift(px, dx, t);
          OffsetShift(py, dy, t);
        }
      }
      assert !RaySame(g, qx, qy, dx, dy, c, n - 1);
      OffsetShift(px, dx, n);
      OffsetShift(py, dy, n);
    } else {
      assert n == 0;
    }
  }

  /** A run is at least as long as any all-`c` prefix of the ray. */
  lemma {:induction false} CountAtLeast(g: Grid, px: int, py: int, dx: int, dy: int, c: Stone, k: nat)
    requires WellFormed(g) && IsStep(dx, dy)
    requires forall t :: 0 <= t < k ==> RaySame(g, px, py, dx, dy, c, t)
    ensures Count(g, px, py, dx, dy, c) >= k
    decreases k
  {
    if k > 0 {
      assert RaySame(g, px, py, dx, dy, c, 0);
      var qx, qy := px + dx, py + dy;
      forall t | 0 <= t < k - 1
        ensures RaySame(g, qx, qy, dx, dy, c, t)
      {
        assert RaySame(g, px, py, dx, dy, c, t + 1);
      }
      CountAtLeast(g, qx, qy, dx, dy, c, k - 1);
    }
  }

  /** Runs of lengths a and b on either side of (x, y) with a + b >= 4 hold five in a row. */
  lemma RunsGiveFive(g: Grid, x: int, y: int, dx: int, dy: int)
    requires WellFormed(g) && InBounds(x, y) && IsStep(dx, dy)
    requires LineWin(g, x, y, dx, dy)
    ensures FiveThrough(g, x, y, dx, dy)
  {
    var c := g[x][y];
    var ux, uy, vx, vy := x - dx, y - dy, x + dx, y + dy;
    var ex, ey := -dx, -dy;
    var a := Count(g, ux, uy, ex, ey, c);
    var b := Count(g, vx, vy, dx, dy, c);
    assert a + b >= WINNING_THRESHOLD - 1;
    CountExact(g, ux, uy, ex, ey, c);
    CountExact(g, vx, vy, dx, dy, c);
    var s: int := if a >= 4 then -4 else -(a as int);
    forall t | s <= t < s + WINNING_THRESHOLD
      ensures RaySame(g, x, y, dx, dy, c, t)
    {
      if t < 0 {
        assert -t - 1 < a;
        OffsetBack(x, dx, t);
        OffsetBack(y, dy, t);
        RaySameMoved(g, x, y, dx, dy, ux, uy, ex, ey, c, t, -t - 1);
      } else if t > 0 {
        assert t - 1 < b;
        OffsetShift(x, dx, t);
        OffsetShift(y, dy, t);
        RaySameMoved(g, x, y, dx, dy, vx, vy, dx, dy, c, t, t - 1);
      } else {
        assert Offset(x, t, dx) == x && Offset(y, t, dy) == y;
      }
    }
    assert WindowSame(g, x, y, dx, dy, s);
  }

  /** Five in a row through (x, y) make the two runs beside it total at least four. */
  lemma FiveGivesRuns(g: Grid, x: int, y: int, dx: int, dy: int)
    requires WellFormed(g) && InBounds(x, y) && IsStep(dx, dy)
    requires FiveThrough(g, x, y, dx, dy)
    ensures LineWin(g, x, y, dx, dy)
  {
    var c := g[x][y];
    var ux, uy, vx, vy := x - dx, y - dy, x + dx, y + dy;
    var ex, ey := -dx, -dy;
    var s :| -(WINNING_THRESHOLD - 1) <= s <= 0 && WindowSame(g, x, y, dx, dy, s);
    forall t | 0 <= t < -s
      ensures RaySame(g, ux, uy, ex, ey, c, t)
    {
      assert RaySame(g, x, y, dx, dy, c, -t - 1);
      OffsetBack(x, dx, -t - 1);
      OffsetBack(y, dy, -t - 1);
      RaySameMoved(g, ux, uy, ex, ey, x, y, dx, dy, c, t, -t - 1);
    }
    forall t | 0 <= t < s + WINNING_THRESHOLD - 1
      ensures RaySame(g, vx, vy, dx, dy, c, t)
    {
      assert RaySame(g, x, y, dx, dy, c, t + 1);
      OffsetShift(x, dx, t + 1);
      OffsetShift(y, dy, t + 1);
      RaySameMoved(g, vx, vy, dx, dy, x, y, dx, dy, c, t, t + 1);
    }
    CountAtLeast(g, ux, uy, ex, ey, c, -s);
    CountAtLeast(g, vx, vy, dx, dy, c, s + WINNING_THRESHOLD - 1);
  }

  /** The two-sided run test along one axis holds exactly when five in a row pass through (x, y). */
  lemma LineWinIffFive(g: Grid, x: int, y: int, dx: int, dy: int)
    requires WellFormed(g) && InBounds(x, y) && IsStep(dx, dy)
    ensures LineWin(g, x, y, dx, dy) <==> FiveThrough(g, x, y, dx, dy)
  {
    if LineWin(g, x, y, dx, dy) {
      RunsGiveFive(g, x, y, dx, dy);
    }
    if FiveThrough(g, x, y, dx, dy) {
      FiveGivesRuns(g, x, y, dx, dy);
    }
  }

  /** The game's win test is exactly "five in a row through the cell", so longer runs win and a blocked four does not. */
  lemma WinAtIffFiveInARow(g: Grid, x: int, y: int)
    requires WellFormed(g) && InBounds(x, y)
    ensures WinAt(g, x, y) <==> FiveInARow(g, x, y)
  {
    LineWinIffFive(g, x, y, 0, 1);
    LineWinIffFive(g, x, y, 1, 0);
    LineWinIffFive(g, x, y, 1, 1);
    LineWinIffFive(g, x, y, 1, -1);
  }

  /** Writing EMPTY on an empty cell, which Play does once the game is won, leaves the board as it was. */
  lemma PlaceEmptyOnEmpty(g: Grid, x: int, y: int)
    requires WellFormed(g) && InBounds(x, y) && g[x][y] == EMPTY
    ensures Place(g, x, y, EMPTY) == g
  {
    GridExt(Place(g, x, y, EMPTY), g);
  }

  /** The game: winner, side to move and the 19 x 19 board. */
  class Game {
    var mWinner: Stone
    var mCurrentRole: Stone
    const mChessStatus: array2<Stone>

    ghost predicate Valid()
      reads this
    {
      mChessStatus.Length0 == BOARD_SIZE && mChessStatus.Length1 == BOARD_SIZE
    }

    /** The board as a value. */
    function Status(): (g: Grid)
      requires Valid()
      reads this, mChessStatus
      ensures WellFormed(g)
    {
      Snapshot(mChessStatus)
    }

    /** A new game starts reset. */
    constructor ()
      ensures Valid() && fresh(mChessStatus)
      ensures IsEmptyBoard(Status())
      ensures mCurrentRole == BLACK && mWinner == EMPTY
    {
      mChessStatus := new Stone[BOARD_SIZE, BOARD_SIZE]((i, j) => EMPTY);
      mCurrentRole := BLACK;
      mWinner := EMPTY;
    }

    /** Empties every cell; black moves first and there is no winner. */
    method Reset()
      requires Valid()
      modifies this, mChessStatus
      ensures Valid()
      ensures IsEmptyBoard(Status())
      ensures mCurrentRole == BLACK && mWinner == EMPTY
    {
      forall i, j | 0 <= i < BOARD_SIZE && 0 <= j < BOARD_SIZE {
        mChessStatus[i, j] := EMPTY;
      }
      mCurrentRole := BLACK;
      mWinner := EMPTY;
    }

    method GetRole() returns (r: Stone)
      ensures r == mCurrentRole
    {
      r := mCurrentRole;
    }

    /**
     * Places the side to move at (x, y). An off-board or occupied cell gives -1 and
     * changes nothing. Otherwise the mover's stone lands on exactly that cell; a win
     * makes the mover the winner and leaves no side to move, else the turn passes
     * (from BLACK to WHITE, from anything else to BLACK). The result is the winner's code.
     */
    method Play(x: int, y: int) returns (r: int)
      requires Valid()
      modifies this, mChessStatus
      ensures Valid()
      ensures !InBounds(x, y) || old(Status())[x][y] != EMPTY ==>
        r == -1 && Status() == old(Status())
        && mWinner == old(mWinner) && mCurrentRole == old(mCurrentRole)
      ensures InBounds(x, y) && old(Status())[x][y] == EMPTY ==>
        Status() == Place(old(Status()), x, y, old(mCurrentRole))
        && (if FiveInARow(Status(), x, y)
            then mWinner == old(mCurrentRole) && mCurrentRole == EMPTY
            else mWinner == old(mWinner) && mCurrentRole == (if old(mCurrentRole) == BLACK then WHITE else BLACK))
        && r == Code(mWinner)
    {
      if !(0 <= x < BOARD_SIZE && 0 <= y < BOARD_SIZE) {
        return -1;
      } else if Code(mChessStatus[x, y]) != 0 {
        return -1;
      }
      ghost var g0 := Status();
      mChessStatus[x, y] := mCurrentRole;
      GridExt(Status(), Place(g0, x, y, mCurrentRole));
      var win := IsWin(mChessStatus, x, y);
      WinAtIffFiveInARow(Status(), x, y);
      if win {
        mWinner := mCurrentRole;
        mCurrentRole := EMPTY;
      } else if Code(mCurrentRole) == 1 {
        mCurrentRole := WHITE;
      } else {
        mCurrentRole := BLACK;
      }
      r := Code(mWinner);
    }

    /** The code of the stone at (x, y), or -1 off the board. */
    method GetStatus(x: int, y: int) returns (r: int)
      requires Valid()
      ensures InBounds(x, y) ==> r == Code(Status()[x][y])
      ensures !InBounds(x, y) ==> r == -1
    {
      if !(0 <= x < BOARD_SIZE && 0 <= y < BOARD_SIZE) {
        return -1;
      }
      r := Code(mChessStatus[x, y]);
    }

    /** The win test at (x, y), through the four axis helpers. */
    static method IsWin(board: array2<Stone>, x: int, y: int) returns (w: bool)
      requires board.Length0 == BOARD_SIZE && board.Length1 == BOARD_SIZE && InBounds(x, y)
      ensures w == WinAt(Snapshot(board), x, y)
    {
      w := IsColumnWin(board, x, y);
      if !w {
        w := IsRowWin(board, x, y);
      }
      if !w {
        w := IsDiagonalWin(board, x, y);
      }
      if !w {
        w := IsAntiDiagonalWin(board, x, y);
      }
    }

    /**
     * The walk each axis helper makes twice: step from (x, y) along (dx, dy)
     * while the cell is on the board and holds the same stone as (x, y).
     */
    static method CountRun(board: array2<Stone>, x: int, y: int, dx: int, dy: int) returns (count: nat)
      requires board.Length0 == BOARD_SIZE && board.Length1 == BOARD_SIZE && InBounds(x, y) && IsStep(dx, dy)
      ensures count == Count(Snapshot(board), x + dx, y + dy, dx, dy, board[x, y])
    {
      ghost var g := Snapshot(board);
      count := 0;
      var nx, ny := x + dx, y + dy;
      while InBounds(nx, ny) && board[nx, ny] == board[x, y]
        invariant count + Count(g, nx, ny, dx, dy, g[x][y]) == Count(g, x + dx, y + dy, dx, dy, g[x][y])
        decreases Span(nx, dx) + Span(ny, dy)
      {
        count := count + 1;
        nx, ny := nx + dx, ny + dy;
      }
    }

    /** Walks the column index down and then up from (x, y). */
    static method IsColumnWin(board: array2<Stone>, x: int, y: int) returns (w: bool)
      requires board.Length0 == BOARD_SIZE && board.Length1 == BOARD_SIZE && InBounds(x, y)
      ensures w == LineWin(Snapshot(board), x, y, 0, 1)
    {
      var down := CountRun(board, x, y, 0, -1);
      var up := CountRun(board, x, y, 0, 1);
      w := down + up >= WINNING_THRESHOLD - 1;
    }

    /** Walks the row index up and then down from (x, y). */
    static method IsRowWin(board: array2<Stone>, x: int, y: int) returns (w: bool)
      requires board.Length0 == BOARD_SIZE && board.Length1 == BOARD_SIZE && InBounds(x, y)
      ensures w == LineWin(Snapshot(board), x, y, 1, 0)
    {
      var right := CountRun(board, x, y, 1, 0);
      var left := CountRun(board, x, y, -1, 0);
      w := right + left >= WINNING_THRESHOLD - 1;
    }

    /** Walks down-left and then up-right from (x, y). */
    static method IsDiagonalWin(board: array2<Stone>, x: int, y: int) returns (w: bool)
      requires board.Length0 == BOARD_SIZE && board.Length1 == BOARD_SIZE && InBounds(x, y)
      ensures w == LineWin(Snapshot(board), x, y, 1, 1)
    {
      var down := CountRun(board, x, y, -1, -1);
      var up := CountRun(board, x, y, 1, 1);
      w := down + up >= WINNING_THRESHOLD - 1;
    }

    /** Walks toward larger row and smaller column, and then the other way, from (x, y). */
    static method IsAntiDiagonalWin(board: array2<Stone>, x: int, y: int) returns (w: bool)
      requires board.Length0 == BOARD_SIZE && board.Length1 == BOARD_SIZE && InBounds(x, y)
      ensures w == LineWin(Snapshot(board), x, y, 1, -1)
    {
      var down := CountRun(board, x, y, 1, -1);
      var up := CountRun(board, x, y, -1, 1);
      w := down + up >= WINNING_THRESHOLD - 1;
    }
  }
}

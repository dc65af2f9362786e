/** Stones, board dimensions and board values shared by the game and both engines. */
module Board {

  /** A cell of the board. `Code` gives the enum's numbering: EMPTY = 0, BLACK = 1, WHITE = 2. */
  datatype Stone = EMPTY | BLACK | WHITE

  /** Standard board size and the length of a winning run. */
  const BOARD_SIZE: int := 19
  const WINNING_THRESHOLD: int := 5

  /** The stone's value as the C++ enum; only EMPTY is zero, so a zero-filled board is empty. */
  function Code(s: Stone): (c: int)
    ensures 0 <= c <= 2
    ensures c == 0 <==> s == EMPTY
    ensures c == 1 <==> s == BLACK
  {
    match s
    case EMPTY => 0
    case BLACK => 1
    case WHITE => 2
  }

  /** The side that is not `s`, written in the source as `s == BLACK ? WHITE : BLACK`. */
  function Other(s: Stone): (o: Stone)
    ensures o != EMPTY && o != s
  {
    if s == BLACK then WHITE else BLACK
  }

  predicate InBounds(x: int, y: int) {
    0 <= x < BOARD_SIZE && 0 <= y < BOARD_SIZE
  }

  /** Coordinate `p` moved `t` steps in direction `d` (kept linear in `t`). */
  function Offset(p: int, t: int, d: int): int {
    if d == 1 then p + t else if d == -1 then p - t else p
  }

  /** A board value: `g[x][y]` is the stone at row index x, column index y. */
  type Grid = seq<seq<Stone>>

  predicate WellFormed(g: Grid) {
    |g| == BOARD_SIZE && forall i :: 0 <= i < |g| ==> |g[i]| == BOARD_SIZE
  }

  predicate IsEmptyBoard(g: Grid)
    requires WellFormed(g)
  {
    forall i, j | 0 <= i < BOARD_SIZE && 0 <= j < BOARD_SIZE :: g[i][j] == EMPTY
  }

  /** The board with stone `s` written at (x, y); a position off the board changes nothing. */
  function Place(g: Grid, x: int, y: int, s: Stone): (h: Grid)
    requires WellFormed(g)
    ensures WellFormed(h)
    ensures InBounds(x, y) ==> h[x][y] == s
    ensures forall i, j :: InBounds(i, j) && (i != x || j != y) ==> h[i][j] == g[i][j]
  {
    if InBounds(x, y) then g[x := g[x][y := s]] else g
  }

  /** The value of a 19 x 19 board array. */
  function Snapshot(b: array2<Stone>): (g: Grid)
    requires b.Length0 == BOARD_SIZE && b.Length1 == BOARD_SIZE
    reads b
    ensures WellFormed(g)
    ensures forall i, j :: InBounds(i, j) ==> g[i][j] == b[i, j]
  {
    seq(BOARD_SIZE, i requires 0 <= i < BOARD_SIZE reads b =>
      seq(BOARD_SIZE, j requires 0 <= j < BOARD_SIZE reads b => b[i, j]))
  }

  /** Two boards that agree on every cell are equal. */
  lemma GridExt(g: Grid, h: Grid)
    requires WellFormed(g) && WellFormed(h)
    requires forall i, j :: InBounds(i, j) ==> g[i][j] == h[i][j]
    ensures g == h
  {
    forall i | 0 <= i < BOARD_SIZE
      ensures g[i] == h[i]
    {
      assert forall j :: 0 <= j < BOARD_SIZE ==> g[i][j] == h[i][j] by {
        forall j | 0 <= j < BOARD_SIZE ensures g[i][j] == h[i][j] {
          assert InBounds(i, j);
        }
      }
    }
  }

  /** Placing a stone on an empty cell and then emptying it again restores the board. */
  lemma PlaceUndo(g: Grid, x: int, y: int, s: Stone)
    requires WellFormed(g) && InBounds(x, y) && g[x][y] == EMPTY
    ensures Place(Place(g, x, y, s), x, y, EMPTY) == g
  {
    GridExt(Place(Place(g, x, y, s), x, y, EMPTY), g);
  }
}

/**
 * Position evaluation: the four directional line values through a point, the
 * combination bonus, the score caches (one slot per row, column, diagonal and
 * anti-diagonal), their point and full-board updates, and the minimax leaf value.
 */
module Evaluator {
  import opened Board
  import opened Patterns
  import opened LineScan

  function Max(a: int, b: int): int {
    if a >= b then a else b
  }

  /** Number of the four direction labels equal to `k`. */
  function Tally(ks: seq<PatternType>, k: PatternType): (n: nat)
    ensures n <= |ks|
  {
    if |ks| == 0 then 0 else Tally(ks[..|ks| - 1], k) + (if ks[|ks| - 1] == k then 1 else 0)
  }

  /**
   * The combination rule shared by the board and point scores: the largest of the
   * four directional scores, raised to a floor chosen by the first rule that the
   * four directional labels satisfy.
   */
  function Combine(row: Entry, column: Entry, diagonal: Entry, antiDiagonal: Entry): int {
    var value := Max(row.score, Max(column.score, Max(diagonal.score, antiDiagonal.score)));
    var ks := [row.kind, column.kind, diagonal.kind, antiDiagonal.kind];
    var four, three, halfThree := Tally(ks, OPEN_FOUR), Tally(ks, OPEN_THREE), Tally(ks, HALF_OPEN_THREE);
    var two, halfTwo := Tally(ks, OPEN_TWO), Tally(ks, HALF_OPEN_TWO);
    if four >= 2 then Max(value, 10000)
    else if four >= 1 && three >= 1 then Max(value, 10000)
    else if three >= 2 then Max(value, 5000)
    else if three >= 1 && halfThree >= 1 then Max(value, 1000)
    else if two >= 2 then Max(value, 100)
    else if two >= 1 && halfTwo >= 1 then Max(value, 10)
    else value
  }

  /** A direction label is one of the three "open" labels some bonus rule needs. */
  predicate IsOpen(k: PatternType) {
    k == OPEN_FOUR || k == OPEN_THREE || k == OPEN_TWO
  }

  lemma {:induction false} TallyZero(ks: seq<PatternType>, k: PatternType)
    requires forall i :: 0 <= i < |ks| ==> ks[i] != k
    ensures Tally(ks, k) == 0
    decreases |ks|
  {
    if |ks| > 0 {
      TallyZero(ks[..|ks| - 1], k);
    }
  }

  lemma TallyFour(a: PatternType, b: PatternType, c: PatternType, d: PatternType, k: PatternType)
    ensures Tally([a, b, c, d], k) == (if a == k then 1 else 0) + (if b == k then 1 else 0)
      + (if c == k then 1 else 0) + (if d == k then 1 else 0)
  {
    assert [a, b, c, d] == [a, b, c] + [d];
    TallySnoc([a, b, c], d, k);
    assert [a, b, c] == [a, b] + [c];
    TallySnoc([a, b], c, k);
    assert [a, b] == [a] + [b];
    TallySnoc([a], b, k);
    assert [a] == [] + [a];
    TallySnoc([], a, k);
  }

  /** One more label adds one to its own count and nothing to the others. */
  lemma TallySnoc(ks: seq<PatternType>, x: PatternType, k: PatternType)
    ensures Tally(ks + [x], k) == Tally(ks, k) + (if x == k then 1 else 0)
  {
    assert (ks + [x])[..|ks|] == ks;
  }

  /**
   * The combined score is never below the best direction, never above
   * max(best, 10000), and when it is raised it is raised to one of the rule floors.
   */
  lemma CombineBounds(row: Entry, column: Entry, diagonal: Entry, antiDiagonal: Entry)
    ensures var v := Max(row.score, Max(column.score, Max(diagonal.score, antiDiagonal.score)));
      var r := Combine(row, column, diagonal, antiDiagonal);
      v <= r <= Max(v, 10000) && (r != v ==> r in {10000, 5000, 1000, 100, 10})
  {
  }

  /** Without an open four, open three or open two among the labels there is no bonus. */
  lemma CombineNeedsOpen(row: Entry, column: Entry, diagonal: Entry, antiDiagonal: Entry)
    requires !IsOpen(row.kind) && !IsOpen(column.kind) && !IsOpen(diagonal.kind) && !IsOpen(antiDiagonal.kind)
    ensures Combine(row, column, diagonal, antiDiagonal)
      == Max(row.score, Max(column.score, Max(diagonal.score, antiDiagonal.score)))
  {
    TallyFour(row.kind, column.kind, diagonal.kind, antiDiagonal.kind, OPEN_FOUR);
    TallyFour(row.kind, column.kind, diagonal.kind, antiDiagonal.kind, OPEN_THREE);
    TallyFour(row.kind, column.kind, diagonal.kind, antiDiagonal.kind, OPEN_TWO);
  }

  /** Two open fours, or an open four with an open three, in different directions score at least 10000. */
  lemma CombineDoubleThreat(row: Entry, column: Entry, diagonal: Entry, antiDiagonal: Entry)
    requires Tally([row.kind, column.kind, diagonal.kind, antiDiagonal.kind], OPEN_FOUR) >= 1
    requires Tally([row.kind, column.kind, diagonal.kind, antiDiagonal.kind], OPEN_FOUR)
      + Tally([row.kind, column.kind, diagonal.kind, antiDiagonal.kind], OPEN_THREE) >= 2
    ensures Combine(row, column, diagonal, antiDiagonal) >= 10000
  {
  }

  /** Raising directional scores while keeping the labels never lowers the combined score. */
  lemma CombineMonotone(row: Entry, column: Entry, diagonal: Entry, antiDiagonal: Entry,
                        row': Entry, column': Entry, diagonal': Entry, antiDiagonal': Entry)
    requires row.kind == row'.kind && column.kind == column'.kind
    requires diagonal.kind == diagonal'.kind && antiDiagonal.kind == antiDiagonal'.kind
    requires row.score <= row'.score && column.score <= column'.score
    requires diagonal.score <= diagonal'.score && antiDiagonal.score <= antiDiagonal'.score
    ensures Combine(row, column, diagonal, antiDiagonal) <= Combine(row', column', diagonal', antiDiagonal')
  {
  }

  /** Combining bounded entries gives a score between 0 and MAX_SCORE. */
  lemma CombineBounded(row: Entry, column: Entry, diagonal: Entry, antiDiagonal: Entry)
    requires 0 <= row.score <= MAX_SCORE && 0 <= column.score <= MAX_SCORE
    requires 0 <= diagonal.score <= MAX_SCORE && 0 <= antiDiagonal.score <= MAX_SCORE
    ensures 0 <= Combine(row, column, diagonal, antiDiagonal) <= MAX_SCORE
  {
    CombineBounds(row, column, diagonal, antiDiagonal);
  }

  // ---------------------------------------------------------------- point scores

  /** First cell and step of the line in direction `dir` (0 row, 1 column, 2 diagonal, 3 anti-diagonal) through (x, y). */
  function DirStart(dir: int, x: int, y: int): (int, int, int, int) {
    if dir == 0 then (0, y, 1, 0)
    else if dir == 1 then (x, 0, 0, 1)
    else if dir == 2 then (if x < y then (0, y - x, 1, 1) else (x - y, 0, 1, 1))
    else if BOARD_SIZE - 1 - x < y then (BOARD_SIZE - 1, y - (BOARD_SIZE - 1 - x), -1, 1)
    else (x + y, 0, -1, 1)
  }

  /** The codes of the line in direction `dir` through (x, y), from side `me`'s point of view. */
  function DirLine(g: Grid, me: Stone, dir: int, x: int, y: int): seq<int>
    requires WellFormed(g)
  {
    var (sx, sy, dx, dy) := DirStart(dir, x, y);
    Line(g, me, sx, sy, dx, dy)
  }

  /** The best entry of the line in direction `dir` through (x, y); a direction outside 0..3 scans nothing. */
  function DirBest(t: Tables, g: Grid, me: Stone, dir: int, x: int, y: int): Entry
    requires WellFormed(g)
  {
    if 0 <= dir <= 3 then LineBest(t, DirLine(g, me, dir, x, y)) else Entry(0, NONE)
  }

  /** Number of cells on the line in direction `dir` through (x, y). */
  function DirLength(dir: int, x: int, y: int): int {
    if dir == 0 || dir == 1 then BOARD_SIZE
    else if dir == 2 then (if x < y then BOARD_SIZE - (y - x) else BOARD_SIZE - (x - y))
    else if x + y <= BOARD_SIZE - 1 then x + y + 1 else 2 * BOARD_SIZE - 1 - (x + y)
  }

  /** Position of (x, y) on its line in direction `dir`. */
  function DirPos(dir: int, x: int, y: int): int {
    if dir == 0 then x
    else if dir == 1 then y
    else if dir == 2 then (if x < y then x else y)
    else if x + y <= BOARD_SIZE - 1 then y else BOARD_SIZE - 1 - x
  }

  /** All cells number t < n of a ray are on the board. */
  predicate RayOnBoard(sx: int, sy: int, dx: int, dy: int, n: int) {
    forall t :: 0 <= t < n ==> InBounds(Offset(sx, t, dx), Offset(sy, t, dy))
  }

  lemma DirRay(dir: int, x: int, y: int)
    requires InBounds(x, y) && 0 <= dir <= 3
    ensures var (sx, sy, dx, dy) := DirStart(dir, x, y);
      var n := DirLength(dir, x, y);
      0 < n <= BOARD_SIZE && RayOnBoard(sx, sy, dx, dy, n) && !InBounds(Offset(sx, n, dx), Offset(sy, n, dy))
      && 0 <= DirPos(dir, x, y) < n
      && Offset(sx, DirPos(dir, x, y), dx) == x && Offset(sy, DirPos(dir, x, y), dy) == y
  {
  }

  /**
   * The scanned line is the whole row, column or diagonal through (x, y): it has
   * DirLength cells, (x, y) is one of them, and each code is that cell's code.
   */
  lemma DirLineCells(g: Grid, me: Stone, dir: int, x: int, y: int)
    requires WellFormed(g) && InBounds(x, y) && 0 <= dir <= 3
    ensures var (sx, sy, dx, dy) := DirStart(dir, x, y);
      var w := DirLine(g, me, dir, x, y);
      |w| == DirLength(dir, x, y)
      && w[DirPos(dir, x, y)] == CellCode(me, g[x][y])
      && forall t :: 0 <= t < |w| ==>
           InBounds(Offset(sx, t, dx), Offset(sy, t, dy)) && w[t] == CellCode(me, g[Offset(sx, t, dx)][Offset(sy, t, dy)])
  {
    var (sx, sy, dx, dy) := DirStart(dir, x, y);
    var n := DirLength(dir, x, y);
    DirRay(dir, x, y);
    WalkCovers(g, me, sx, sy, dx, dy, n);
    WalkStops(g, me, sx, sy, dx, dy, n, BOARD_SIZE);
    WalkCells(g, me, sx, sy, dx, dy, BOARD_SIZE);
  }

  /** The value of playing at (x, y) for side `me`: the four directional bests, combined. */
  function ScorePointSpec(t: Tables, g: Grid, me: Stone, x: int, y: int): int
    requires WellFormed(g)
  {
    Combine(DirBest(t, g, me, 0, x, y), DirBest(t, g, me, 1, x, y), DirBest(t, g, me, 2, x, y), DirBest(t, g, me, 3, x, y))
  }

  /** With bounded tables a point's value lies between 0 and MAX_SCORE, and is at least each line's best. */
  lemma ScorePointBounded(t: Tables, g: Grid, me: Stone, x: int, y: int)
    requires WellFormed(g) && TablesBounded(t)
    ensures 0 <= ScorePointSpec(t, g, me, x, y) <= MAX_SCORE
    ensures forall dir :: 0 <= dir <= 3 ==> DirBest(t, g, me, dir, x, y).score <= ScorePointSpec(t, g, me, x, y)
  {
    forall dir | 0 <= dir <= 3
      ensures 0 <= DirBest(t, g, me, dir, x, y).score <= MAX_SCORE
    {
      LineBestBounded(t, DirLine(g, me, dir, x, y));
    }
    CombineBounded(DirBest(t, g, me, 0, x, y), DirBest(t, g, me, 1, x, y), DirBest(t, g, me, 2, x, y), DirBest(t, g, me, 3, x, y));
    CombineBounds(DirBest(t, g, me, 0, x, y), DirBest(t, g, me, 1, x, y), DirBest(t, g, me, 2, x, y), DirBest(t, g, me, 3, x, y));
  }

  // ---------------------------------------------------------------- score caches

  /** A score cache as values: the best entry of every row, column, diagonal and anti-diagonal. */
  datatype CacheView = CacheView(horizontal: seq<Entry>, vertical: seq<Entry>, diagonal: seq<Entry>, antiDiagonal: seq<Entry>)

  /** 19 row, 19 column, 37 diagonal and 37 anti-diagonal slots. */
  predicate Shaped(c: CacheView) {
    |c.horizontal| == BOARD_SIZE && |c.vertical| == BOARD_SIZE
    && |c.diagonal| == 2 * BOARD_SIZE - 1 && |c.antiDiagonal| == 2 * BOARD_SIZE - 1
  }

  predicate ViewBounded(c: CacheView) {
    EntriesBounded(c.horizontal) && EntriesBounded(c.vertical) && EntriesBounded(c.diagonal) && EntriesBounded(c.antiDiagonal)
  }

  /** A cache's board score: the first best slot of each kind of line, combined. */
  function ScoreChessSpec(c: CacheView): int {
    Combine(FirstMax(c.horizontal), FirstMax(c.vertical), FirstMax(c.diagonal), FirstMax(c.antiDiagonal))
  }

  /** A bounded cache scores between 0 and MAX_SCORE, and at least as much as any of its slots. */
  lemma ScoreChessBounded(c: CacheView)
    requires ViewBounded(c)
    ensures 0 <= ScoreChessSpec(c) <= MAX_SCORE
    ensures forall i :: 0 <= i < |c.horizontal| ==> c.horizontal[i].score <= ScoreChessSpec(c)
    ensures forall i :: 0 <= i < |c.vertical| ==> c.vertical[i].score <= ScoreChessSpec(c)
    ensures forall i :: 0 <= i < |c.diagonal| ==> c.diagonal[i].score <= ScoreChessSpec(c)
    ensures forall i :: 0 <= i < |c.antiDiagonal| ==> c.antiDiagonal[i].score <= ScoreChessSpec(c)
  {
    FirstMaxBounded(c.horizontal);
    FirstMaxBounded(c.vertical);
    FirstMaxBounded(c.diagonal);
    FirstMaxBounded(c.antiDiagonal);
    FirstMaxUpper(c.horizontal);
    FirstMaxUpper(c.vertical);
    FirstMaxUpper(c.diagonal);
    FirstMaxUpper(c.antiDiagonal);
    CombineBounded(FirstMax(c.horizontal), FirstMax(c.vertical), FirstMax(c.diagonal), FirstMax(c.antiDiagonal));
    CombineBounds(FirstMax(c.horizontal), FirstMax(c.vertical), FirstMax(c.diagonal), FirstMax(c.antiDiagonal));
  }

  /** Diagonal slot of (x, y): x - y below the main diagonal, 18 + (y - x) above it. */
  function DiagIndex(x: int, y: int): int {
    if x >= y then x - y else BOARD_SIZE - 1 + (y - x)
  }

  /** Anti-diagonal slot of (x, y): 18 - (x + y) up to the main anti-diagonal, x + y past it. */
  function AntiIndex(x: int, y: int): int {
    if x + y <= BOARD_SIZE - 1 then BOARD_SIZE - 1 - (x + y) else x + y
  }

  /** Both slot numbers lie in [0, 36], and they tell lines apart exactly. */
  lemma SlotIndices(x: int, y: int, x': int, y': int)
    requires InBounds(x, y) && InBounds(x', y')
    ensures 0 <= DiagIndex(x, y) < 2 * BOARD_SIZE - 1 && 0 <= AntiIndex(x, y) < 2 * BOARD_SIZE - 1
    ensures DiagIndex(x, y) == DiagIndex(x', y') <==> x - y == x' - y'
    ensures AntiIndex(x, y) == AntiIndex(x', y') <==> x + y == x' + y'
  {
  }

  /** Rescanning the four lines through (x, y) into their slots; nothing else changes. */
  function PointUpdate(c: CacheView, t: Tables, g: Grid, me: Stone, x: int, y: int): (r: CacheView)
    requires WellFormed(g) && Shaped(c) && InBounds(x, y)
    ensures Shaped(r)
  {
    SlotIndices(x, y, x, y);
    CacheView(
      c.horizontal[y := DirBest(t, g, me, 0, x, y)],
      c.vertical[x := DirBest(t, g, me, 1, x, y)],
      c.diagonal[DiagIndex(x, y) := DirBest(t, g, me, 2, x, y)],
      c.antiDiagonal[AntiIndex(x, y) := DirBest(t, g, me, 3, x, y)])
  }

  /** Cells on one line scan the same line, so they write the same value into its slot. */
  lemma SameLineSameBest(t: Tables, g: Grid, me: Stone, x: int, y: int, x': int, y': int)
    requires WellFormed(g) && InBounds(x, y) && InBounds(x', y')
    ensures y == y' ==> DirBest(t, g, me, 0, x, y) == DirBest(t, g, me, 0, x', y')
    ensures x == x' ==> DirBest(t, g, me, 1, x, y) == DirBest(t, g, me, 1, x', y')
    ensures x - y == x' - y' ==> DirBest(t, g, me, 2, x, y) == DirBest(t, g, me, 2, x', y')
    ensures x + y == x' + y' ==> DirBest(t, g, me, 3, x, y) == DirBest(t, g, me, 3, x', y')
  {
    assert y == y' ==> DirStart(0, x, y) == DirStart(0, x', y');
    assert x == x' ==> DirStart(1, x, y) == DirStart(1, x', y');
    assert x - y == x' - y' ==> DirStart(2, x, y) == DirStart(2, x', y');
    assert x + y == x' + y' ==> DirStart(3, x, y) == DirStart(3, x', y');
  }

  lemma UpdateCommutes(s: seq<Entry>, i: int, a: Entry, j: int, b: Entry)
    requires 0 <= i < |s| && 0 <= j < |s| && (i == j ==> a == b)
    ensures s[i := a][j := b] == s[j := b][i := a]
  {
  }

  /** Rescanning two cells of the same board gives the same cache in either order. */
  lemma PointUpdatesCommute(c: CacheView, t: Tables, g: Grid, me: Stone, x: int, y: int, x': int, y': int)
    requires WellFormed(g) && Shaped(c) && InBounds(x, y) && InBounds(x', y')
    ensures PointUpdate(PointUpdate(c, t, g, me, x, y), t, g, me, x', y')
      == PointUpdate(PointUpdate(c, t, g, me, x', y'), t, g, me, x, y)
  {
    SameLineSameBest(t, g, me, x, y, x', y');
    SlotIndices(x, y, x', y');
    UpdateCommutes(c.horizontal, y, DirBest(t, g, me, 0, x, y), y', DirBest(t, g, me, 0, x', y'));
    UpdateCommutes(c.vertical, x, DirBest(t, g, me, 1, x, y), x', DirBest(t, g, me, 1, x', y'));
    UpdateCommutes(c.diagonal, DiagIndex(x, y), DirBest(t, g, me, 2, x, y), DiagIndex(x', y'), DirBest(t, g, me, 2, x', y'));
    UpdateCommutes(c.antiDiagonal, AntiIndex(x, y), DirBest(t, g, me, 3, x, y), AntiIndex(x', y'), DirBest(t, g, me, 3, x', y'));
  }

  /** Rescanning a cell twice is the same as once. */
  lemma PointUpdateIdempotent(c: CacheView, t: Tables, g: Grid, me: Stone, x: int, y: int)
    requires WellFormed(g) && Shaped(c) && InBounds(x, y)
    ensures PointUpdate(PointUpdate(c, t, g, me, x, y), t, g, me, x, y) == PointUpdate(c, t, g, me, x, y)
  {
  }

  /** With bounded tables a point update keeps a bounded cache bounded. */
  lemma PointUpdateBounded(c: CacheView, t: Tables, g: Grid, me: Stone, x: int, y: int)
    requires WellFormed(g) && Shaped(c) && InBounds(x, y) && ViewBounded(c) && TablesBounded(t)
    ensures ViewBounded(PointUpdate(c, t, g, me, x, y))
  {
    forall dir | 0 <= dir <= 3
      ensures 0 <= DirBest(t, g, me, dir, x, y).score <= MAX_SCORE
    {
      LineBestBounded(t, DirLine(g, me, dir, x, y));
    }
  }

  /** Cell number k in row-major order. */
  function CellX(k: int): int { k / BOARD_SIZE }
  function CellY(k: int): int { k % BOARD_SIZE }

  const CELLS: nat := 361

  lemma CellInBounds(k: int)
    requires 0 <= k < CELLS
    ensures InBounds(CellX(k), CellY(k)) && CellX(k) * BOARD_SIZE + CellY(k) == k
  {
  }

  /** Two scan positions of on-board cells are equal only for the same cell. */
  lemma KeyInjective(x: int, y: int, x': int, y': int)
    requires InBounds(x, y) && InBounds(x', y')
    requires x * BOARD_SIZE + y == x' * BOARD_SIZE + y'
    ensures x == x' && y == y'
  {
  }

  /** The scan position x * 19 + y numbers cell (x, y). */
  lemma CellOfKey(x: int, y: int)
    requires InBounds(x, y)
    ensures CellX(x * BOARD_SIZE + y) == x && CellY(x * BOARD_SIZE + y) == y
  {
    var k := x * BOARD_SIZE + y;
    CellInBounds(k);
    KeyInjective(x, y, CellX(k), CellY(k));
  }

  /** Cell (x, y)'s turn in the rescan: the cache is rescanned there exactly when the board differs there from the root copy. */
  function CellRescan(c: CacheView, t: Tables, g: Grid, me: Stone, backup: Grid, x: int, y: int): (r: CacheView)
    requires WellFormed(g) && WellFormed(backup) && Shaped(c) && InBounds(x, y)
    ensures Shaped(r)
  {
    if g[x][y] != backup[x][y] then PointUpdate(c, t, g, me, x, y) else c
  }

  /** The cache after rescanning cells (x, 0) .. (x, n - 1) of row x, in order, wherever `g` differs from `backup`. */
  function RowRescan(c: CacheView, t: Tables, g: Grid, me: Stone, backup: Grid, x: int, n: nat): (r: CacheView)
    requires WellFormed(g) && WellFormed(backup) && Shaped(c) && 0 <= x < BOARD_SIZE && n <= BOARD_SIZE
    ensures Shaped(r)
  {
    if n == 0 then c
    else CellRescan(RowRescan(c, t, g, me, backup, x, n - 1), t, g, me, backup, x, n - 1)
  }

  /** The cache after rescanning rows 0 .. m - 1 in order: the rescan of every cell in row-major order. */
  function UpdatedFrom(c: CacheView, t: Tables, g: Grid, me: Stone, backup: Grid, m: nat): (r: CacheView)
    requires WellFormed(g) && WellFormed(backup) && Shaped(c) && m <= BOARD_SIZE
    ensures Shaped(r)
  {
    if m == 0 then c
    else RowRescan(UpdatedFrom(c, t, g, me, backup, m - 1), t, g, me, backup, m - 1, BOARD_SIZE)
  }

  /** An unchanged row rescans nothing. */
  lemma {:induction false} RowRescanUnchanged(c: CacheView, t: Tables, g: Grid, me: Stone, x: int, n: nat)
    requires WellFormed(g) && Shaped(c) && 0 <= x < BOARD_SIZE && n <= BOARD_SIZE
    ensures RowRescan(c, t, g, me, g, x, n) == c
    decreases n
  {
    if n > 0 {
      RowRescanUnchanged(c, t, g, me, x, n - 1);
    }
  }

  /** An unchanged board rescans nothing. */
  lemma {:induction false} UpdatedFromUnchanged(c: CacheView, t: Tables, g: Grid, me: Stone, m: nat)
    requires WellFormed(g) && Shaped(c) && m <= BOARD_SIZE
    ensures UpdatedFrom(c, t, g, me, g, m) == c
    decreases m
  {
    if m > 0 {
      UpdatedFromUnchanged(c, t, g, me, m - 1);
      RowRescanUnchanged(c, t, g, me, m - 1, BOARD_SIZE);
    }
  }

  lemma {:induction false} RowRescanBounded(c: CacheView, t: Tables, g: Grid, me: Stone, backup: Grid, x: int, n: nat)
    requires WellFormed(g) && WellFormed(backup) && Shaped(c) && 0 <= x < BOARD_SIZE && n <= BOARD_SIZE
    requires ViewBounded(c) && TablesBounded(t)
    ensures ViewBounded(RowRescan(c, t, g, me, backup, x, n))
    decreases n
  {
    if n > 0 {
      RowRescanBounded(c, t, g, me, backup, x, n - 1);
      var r := RowRescan(c, t, g, me, backup, x, n - 1);
      assert RowRescan(c, t, g, me, backup, x, n) == CellRescan(r, t, g, me, backup, x, n - 1);
      CellRescanBounded(r, t, g, me, backup, x, n - 1);
    }
  }

  lemma CellRescanBounded(c: CacheView, t: Tables, g: Grid, me: Stone, backup: Grid, x: int, y: int)
    requires WellFormed(g) && WellFormed(backup) && Shaped(c) && InBounds(x, y)
    requires ViewBounded(c) && TablesBounded(t)
    ensures ViewBounded(CellRescan(c, t, g, me, backup, x, y))
  {
    if g[x][y] != backup[x][y] {
      PointUpdateBounded(c, t, g, me, x, y);
    }
  }

  lemma {:induction false} UpdatedFromBounded(c: CacheView, t: Tables, g: Grid, me: Stone, backup: Grid, m: nat)
    requires WellFormed(g) && WellFormed(backup) && Shaped(c) && m <= BOARD_SIZE
    requires ViewBounded(c) && TablesBounded(t)
    ensures ViewBounded(UpdatedFrom(c, t, g, me, backup, m))
    decreases m
  {
    if m > 0 {
      UpdatedFromBounded(c, t, g, me, backup, m - 1);
      RowRescanBounded(UpdatedFrom(c, t, g, me, backup, m - 1), t, g, me, backup, m - 1, BOARD_SIZE);
    }
  }

  /** Side `maxPlayer`'s evaluation: its rescanned board score minus the other side's (any side but BLACK counts as WHITE). */
  function Evaluation(t: Tables, backup: Grid, black: CacheView, white: CacheView, g: Grid, maxPlayer: Stone): int
    requires WellFormed(g) && WellFormed(backup) && Shaped(black) && Shaped(white)
  {
    var b := ScoreChessSpec(UpdatedFrom(black, t, g, BLACK, backup, BOARD_SIZE));
    var w := ScoreChessSpec(UpdatedFrom(white, t, g, WHITE, backup, BOARD_SIZE));
    if maxPlayer == BLACK then b - w else w - b
  }

  /** The two sides' evaluations of one position are opposite. */
  lemma EvaluationAntisymmetric(t: Tables, backup: Grid, black: CacheView, white: CacheView, g: Grid, p: Stone)
    requires WellFormed(g) && WellFormed(backup) && Shaped(black) && Shaped(white)
    ensures Evaluation(t, backup, black, white, g, BLACK) == -Evaluation(t, backup, black, white, g, WHITE)
    ensures p != BLACK ==> Evaluation(t, backup, black, white, g, p) == Evaluation(t, backup, black, white, g, WHITE)
  {
  }

  /** With bounded caches and tables an evaluation lies within MAX_SCORE of 0. */
  lemma EvaluationBounded(t: Tables, backup: Grid, black: CacheView, white: CacheView, g: Grid, p: Stone)
    requires WellFormed(g) && WellFormed(backup) && Shaped(black) && Shaped(white)
    requires ViewBounded(black) && ViewBounded(white) && TablesBounded(t)
    ensures -MAX_SCORE <= Evaluation(t, backup, black, white, g, p) <= MAX_SCORE
  {
    UpdatedFromBounded(black, t, g, BLACK, backup, BOARD_SIZE);
    UpdatedFromBounded(white, t, g, WHITE, backup, BOARD_SIZE);
    ScoreChessBounded(UpdatedFrom(black, t, g, BLACK, backup, BOARD_SIZE));
    ScoreChessBounded(UpdatedFrom(white, t, g, WHITE, backup, BOARD_SIZE));
  }

  /** On the backed-up board itself the evaluation is the difference of the caches' own scores. */
  lemma EvaluationOfBackup(t: Tables, black: CacheView, white: CacheView, g: Grid)
    requires WellFormed(g) && Shaped(black) && Shaped(white)
    ensures Evaluation(t, g, black, white, g, BLACK) == ScoreChessSpec(black) - ScoreChessSpec(white)
  {
    UpdatedFromUnchanged(black, t, g, BLACK, BOARD_SIZE);
    UpdatedFromUnchanged(white, t, g, WHITE, BOARD_SIZE);
  }

  // ---------------------------------------------------------------- full scan

  /**
   * What one of the full scan's diagonal-slot loops stores in diagonal slot s.
   * Slots 0..18 get the diagonal from (s, 0), or with `anti` the anti-diagonal from
   * (18 - s, 0). Slot 18 + i gets the diagonal from (0, i), or with `anti` the line
   * stepping (+1, +1) from (18, i), which leaves the board after one cell.
   */
  function DiagonalPass(t: Tables, g: Grid, me: Stone, anti: bool, s: int): Entry
    requires WellFormed(g)
  {
    if s < BOARD_SIZE then
      (if anti then LineBest(t, Line(g, me, BOARD_SIZE - 1 - s, 0, -1, 1)) else LineBest(t, Line(g, me, s, 0, 1, 1)))
    else
      var i := s - (BOARD_SIZE - 1);
      if anti then LineBest(t, Line(g, me, BOARD_SIZE - 1, i, 1, 1)) else LineBest(t, Line(g, me, 0, i, 1, 1))
  }

  /**
   * The cache the full-board scan leaves. Row and column slots hold their lines.
   * The anti-diagonal passes run last and write into the diagonal slots, so the
   * diagonal slots end up holding them. The anti-diagonal slots are not written.
   */
  function FullScanView(c: CacheView, t: Tables, g: Grid, me: Stone): (r: CacheView)
    requires WellFormed(g) && Shaped(c)
    ensures Shaped(r)
  {
    CacheView(
      seq(BOARD_SIZE, i => LineBest(t, Line(g, me, 0, i, 1, 0))),
      seq(BOARD_SIZE, i => LineBest(t, Line(g, me, i, 0, 0, 1))),
      seq(2 * BOARD_SIZE - 1, s => DiagonalPass(t, g, me, true, s)),
      c.antiDiagonal)
  }

  /** The row and column slots of a full scan agree with what a point update writes. */
  lemma FullScanRowsAgree(c: CacheView, t: Tables, g: Grid, me: Stone, x: int, y: int)
    requires WellFormed(g) && Shaped(c) && InBounds(x, y)
    ensures FullScanView(c, t, g, me).horizontal[y] == DirBest(t, g, me, 0, x, y)
    ensures FullScanView(c, t, g, me).vertical[x] == DirBest(t, g, me, 1, x, y)
  {
  }

  /**
   * Diagonal slot i <= 18 of a full scan holds the anti-diagonal that a point
   * update would store in anti-diagonal slot i; diagonal slots 19..36 hold
   * (0, NONE); anti-diagonal slots keep their old contents.
   */
  lemma FullScanDiagonalSlots(c: CacheView, t: Tables, g: Grid, me: Stone, x: int, y: int)
    requires WellFormed(g) && Shaped(c) && InBounds(x, y)
    ensures x + y <= BOARD_SIZE - 1 ==>
      FullScanView(c, t, g, me).diagonal[AntiIndex(x, y)] == DirBest(t, g, me, 3, x, y)
    ensures forall i :: BOARD_SIZE <= i < 2 * BOARD_SIZE - 1 ==> FullScanView(c, t, g, me).diagonal[i] == Entry(0, NONE)
    ensures FullScanView(c, t, g, me).antiDiagonal == c.antiDiagonal
  {
    forall i | BOARD_SIZE <= i < 2 * BOARD_SIZE - 1
      ensures FullScanView(c, t, g, me).diagonal[i] == Entry(0, NONE)
    {
      var sy := i - (BOARD_SIZE - 1);
      WalkCovers(g, me, BOARD_SIZE - 1, sy, 1, 1, 1);
      WalkStops(g, me, BOARD_SIZE - 1, sy, 1, 1, 1, BOARD_SIZE);
      ShortLine(t, Line(g, me, BOARD_SIZE - 1, sy, 1, 1));
    }
  }

  /** Over bounded tables the full scan keeps a bounded cache bounded (the slots it does not write keep their bounds). */
  lemma FullScanViewBounded(c: CacheView, t: Tables, g: Grid, me: Stone)
    requires WellFormed(g) && Shaped(c) && ViewBounded(c) && TablesBounded(t)
    ensures ViewBounded(FullScanView(c, t, g, me))
  {
    var r := FullScanView(c, t, g, me);
    forall i | 0 <= i < BOARD_SIZE
      ensures 0 <= r.horizontal[i].score <= MAX_SCORE && 0 <= r.vertical[i].score <= MAX_SCORE
    {
      LineBestBounded(t, Line(g, me, 0, i, 1, 0));
      LineBestBounded(t, Line(g, me, i, 0, 0, 1));
    }
    forall s | 0 <= s < 2 * BOARD_SIZE - 1
      ensures 0 <= r.diagonal[s].score <= MAX_SCORE
    {
      if s < BOARD_SIZE {
        LineBestBounded(t, Line(g, me, BOARD_SIZE - 1 - s, 0, -1, 1));
      } else {
        LineBestBounded(t, Line(g, me, BOARD_SIZE - 1, s - (BOARD_SIZE - 1), 1, 1));
      }
    }
  }
}

/**
 * The one-ply greedy player: every empty cell is scored by the 5-cell windows
 * through it in four directions, and the best-scoring empty cell is played.
 * The board is only read.
 */
module SimpleAutoPlayer {
  import opened Board
  import opened Evaluator
  import opened Search

  /** The four lines through a cell. `Row` steps the row index, `Column` the column index. */
  datatype Direction = Row | Column | Diagonal | AntiDiagonal

  /**
   * Window values: index 0 for a window with no stone (or one that leaves the
   * board), 1..5 for own stones only, 5..8 for opponent stones only (count + 4),
   * 9 for a window holding both.
   */
  const SCORE_TABLE: seq<int> := [7, 35, 800, 15000, 800000, 15, 400, 1800, 100000, 0]

  /** The largest table entry. */
  const TOP_SCORE: int := 800000

  lemma TableBounds(k: int)
    requires 0 <= k < |SCORE_TABLE|
    ensures 0 <= SCORE_TABLE[k] <= TOP_SCORE
  {
  }

  /** Row index of the cell t steps along direction d from (row, ·). */
  function StepRow(row: int, d: Direction, t: int): int {
    match d
    case Row => row + t
    case Column => row
    case Diagonal => row + t
    case AntiDiagonal => row - t
  }

  /** Column index of the cell t steps along direction d from (·, column). */
  function StepColumn(column: int, d: Direction, t: int): int {
    match d
    case Row => column
    case Column => column + t
    case Diagonal => column + t
    case AntiDiagonal => column + t
  }

  /** Own and opponent stones counted in a window. */
  datatype Counts = Counts(own: nat, opp: nat)

  /**
   * Stones among the first n cells of the window at offset i (cells i, i+1, …
   * steps from (row, column)); a cell off the board counts as empty.
   */
  function CountsUpTo(g: Grid, row: int, column: int, p: Stone, d: Direction, i: int, n: nat): (c: Counts)
    requires WellFormed(g)
    ensures c.own + c.opp <= n
  {
    if n == 0 then Counts(0, 0)
    else
      var c := CountsUpTo(g, row, column, p, d, i, n - 1);
      var x, y := StepRow(row, d, i + n - 1), StepColumn(column, d, i + n - 1);
      if InBounds(x, y) then Tally(c, g[x][y], p) else c
  }

  /** A stone adds one to its side's count (own when it is p); an empty cell adds nothing. */
  function Tally(c: Counts, s: Stone, p: Stone): (c': Counts)
    ensures c'.own + c'.opp <= c.own + c.opp + 1
  {
    if s == EMPTY then c
    else if s == p then Counts(c.own + 1, c.opp)
    else Counts(c.own, c.opp + 1)
  }

  /** Whether the cell t steps along d from (row, column) lies on the board. */
  predicate StepOnBoard(row: int, column: int, d: Direction, t: int) {
    InBounds(StepRow(row, d, t), StepColumn(column, d, t))
  }

  /** One more cell of the window: the count grows by the stone at step i + n when that cell is on the board. */
  lemma CountsUpToNext(g: Grid, row: int, column: int, p: Stone, d: Direction, i: int, n: nat)
    requires WellFormed(g) && StepOnBoard(row, column, d, i + n)
    ensures CountsUpTo(g, row, column, p, d, i, n + 1)
         == Tally(CountsUpTo(g, row, column, p, d, i, n), g[StepRow(row, d, i + n)][StepColumn(column, d, i + n)], p)
  {
  }

  /** Whether all five cells of the window at offset i lie on the board. */
  predicate WindowOnBoard(row: int, column: int, d: Direction, i: int) {
    forall t :: i <= t < i + WINNING_THRESHOLD ==> StepOnBoard(row, column, d, t)
  }

  /** The table slot for a window's counts. */
  function TableIndex(c: Counts): int {
    if c.own > 0 && c.opp > 0 then 2 * WINNING_THRESHOLD - 1
    else if c.own == 0 && c.opp == 0 then 0
    else if c.own > 0 then c.own
    else c.opp + WINNING_THRESHOLD - 1
  }

  /** For the counts of at most five cells the slot is one of the ten table entries. */
  lemma TableIndexInRange(c: Counts)
    requires c.own + c.opp <= WINNING_THRESHOLD
    ensures 0 <= TableIndex(c) < |SCORE_TABLE|
    ensures c.own > 0 && c.opp > 0 ==> TableIndex(c) == 2 * WINNING_THRESHOLD - 1
  {
  }

  /** The value of the window at offset i: a window leaving the board scores like an empty one. */
  function WindowScore(g: Grid, row: int, column: int, p: Stone, d: Direction, i: int): (s: int)
    requires WellFormed(g)
    ensures 0 <= s <= TOP_SCORE
  {
    if !WindowOnBoard(row, column, d, i) then SCORE_TABLE[0]
    else
      var c := CountsUpTo(g, row, column, p, d, i, WINNING_THRESHOLD);
      TableIndexInRange(c);
      TableBounds(TableIndex(c));
      SCORE_TABLE[TableIndex(c)]
  }

  /** The sum over the first n windows, offsets -4, -3, …, n - 5. */
  function WindowsUpTo(g: Grid, row: int, column: int, p: Stone, d: Direction, n: nat): (s: int)
    requires WellFormed(g)
    ensures 0 <= s <= n * TOP_SCORE
  {
    if n == 0 then 0
    else WindowsUpTo(g, row, column, p, d, n - 1) + WindowScore(g, row, column, p, d, n - 1 - (WINNING_THRESHOLD - 1))
  }

  /** The five windows along direction d that contain (row, column). */
  function DirectionScore(g: Grid, row: int, column: int, p: Stone, d: Direction): int
    requires WellFormed(g)
  {
    WindowsUpTo(g, row, column, p, d, WINNING_THRESHOLD)
  }

  /** A cell's value for side p: the sum over its four directions. */
  function PointValue(g: Grid, row: int, column: int, p: Stone): int
    requires WellFormed(g)
  {
    DirectionScore(g, row, column, p, Row) + DirectionScore(g, row, column, p, Column)
    + DirectionScore(g, row, column, p, Diagonal) + DirectionScore(g, row, column, p, AntiDiagonal)
  }

  /** A cell's value is never negative and fits a 32-bit int, so the sums do not overflow. */
  lemma PointValueBounds(g: Grid, row: int, column: int, p: Stone)
    requires WellFormed(g)
    ensures 0 <= DirectionScore(g, row, column, p, Row) <= 5 * TOP_SCORE
    ensures 0 <= PointValue(g, row, column, p) <= 20 * TOP_SCORE < 0x8000_0000
  {
  }

  /** Every window at offset -4..0 contains (row, column) itself, at step -i. */
  lemma WindowContainsCell(row: int, column: int, d: Direction, i: int)
    requires -(WINNING_THRESHOLD - 1) <= i <= 0
    ensures 0 <= -i < WINNING_THRESHOLD && StepRow(row, d, i + -i) == row && StepColumn(column, d, i + -i) == column
  {
  }

  /** Among the first n cells, an empty (or off-board) cell at step j0 leaves at most n - 1 stones counted. */
  lemma {:induction false} CountsSkipEmpty(g: Grid, row: int, column: int, p: Stone, d: Direction, i: int, n: nat, j0: int)
    requires WellFormed(g) && 0 <= j0 < n
    requires var x, y := StepRow(row, d, i + j0), StepColumn(column, d, i + j0); !InBounds(x, y) || g[x][y] == EMPTY
    ensures var c := CountsUpTo(g, row, column, p, d, i, n); c.own + c.opp <= n - 1
    decreases n
  {
    if j0 < n - 1 {
      CountsSkipEmpty(g, row, column, p, d, i, n - 1, j0);
    }
  }

  /**
   * When the evaluated cell is empty, every on-board window through it counts
   * at most four stones: own counts select slots 1..4 and opponent counts
   * slots 5..8, slot 9 only when both are present.
   */
  lemma EmptyCellWindowIndex(g: Grid, row: int, column: int, p: Stone, d: Direction, i: int)
    requires WellFormed(g) && InBounds(row, column) && g[row][column] == EMPTY
    requires -(WINNING_THRESHOLD - 1) <= i <= 0
    ensures var c := CountsUpTo(g, row, column, p, d, i, WINNING_THRESHOLD);
      c.own + c.opp <= WINNING_THRESHOLD - 1
      && (c.own > 0 && c.opp == 0 ==> 1 <= TableIndex(c) <= 4)
      && (c.own == 0 && c.opp > 0 ==> 5 <= TableIndex(c) <= 8)
      && (TableIndex(c) == 2 * WINNING_THRESHOLD - 1 <==> c.own > 0 && c.opp > 0)
  {
    WindowContainsCell(row, column, d, i);
    CountsSkipEmpty(g, row, column, p, d, i, WINNING_THRESHOLD, -i);
  }

  /** Every cell's value for side p, by scan position x * 19 + y. */
  function PointValues(g: Grid, p: Stone): (vs: seq<int>)
    requires WellFormed(g)
    ensures |vs| == CELLS
  {
    seq(CELLS, k requires 0 <= k < CELLS => PointValue(g, CellX(k), CellY(k), p))
  }

  /** The greedy loop after k cells in row-major order, from value 0 at the centre; cell number k is valued vs[k]. */
  function GreedyUpTo(g: Grid, vs: seq<int>, tie: (int, int) -> bool, k: nat): Choice
    requires WellFormed(g) && |vs| == CELLS && k <= CELLS
  {
    if k == 0 then Choice(0, BOARD_SIZE / 2, BOARD_SIZE / 2) else GreedyStep(g, vs, tie, GreedyUpTo(g, vs, tie, k - 1), k)
  }

  /** One greedy step, on the cell at scan position k - 1: an empty cell is taken when it scores more, or as much and the tie-break accepts it. */
  function GreedyStep(g: Grid, vs: seq<int>, tie: (int, int) -> bool, b: Choice, k: nat): Choice
    requires WellFormed(g) && |vs| == CELLS && 0 < k <= CELLS
  {
    CellInBounds(k - 1);
    var x, y := CellX(k - 1), CellY(k - 1);
    if g[x][y] == EMPTY && (vs[k - 1] > b.value || (vs[k - 1] == b.value && tie(x, y))) then Choice(vs[k - 1], x, y) else b
  }

  function GreedyChoice(g: Grid, p: Stone, tie: (int, int) -> bool): Choice
    requires WellFormed(g)
  {
    GreedyUpTo(g, PointValues(g, p), tie, CELLS)
  }

  /**
   * After k cells: the value is at least 0 and at least every empty cell's value
   * so far; a positive value is the value of an empty cell scanned so far.
   */
  predicate GreedyInv(g: Grid, vs: seq<int>, b: Choice, k: nat)
    requires WellFormed(g) && |vs| == CELLS && k <= CELLS
  {
    0 <= b.value
    && (b.value > 0 ==> InBounds(b.x, b.y) && g[b.x][b.y] == EMPTY && 0 <= b.x * BOARD_SIZE + b.y < k
                        && b.value == vs[b.x * BOARD_SIZE + b.y])
    && (forall j :: 0 <= j < k && g[CellX(j)][CellY(j)] == EMPTY ==> vs[j] <= b.value)
  }

  lemma {:induction false} GreedyUpToInv(g: Grid, vs: seq<int>, tie: (int, int) -> bool, k: nat)
    requires WellFormed(g) && |vs| == CELLS && k <= CELLS
    ensures GreedyInv(g, vs, GreedyUpTo(g, vs, tie, k), k)
    decreases k
  {
    if k > 0 {
      GreedyUpToInv(g, vs, tie, k - 1);
      GreedyStepInv(g, vs, tie, GreedyUpTo(g, vs, tie, k - 1), k);
    }
  }

  /** A greedy step keeps the invariant, one more cell scanned. */
  lemma GreedyStepInv(g: Grid, vs: seq<int>, tie: (int, int) -> bool, b: Choice, k: nat)
    requires WellFormed(g) && |vs| == CELLS && 0 < k <= CELLS && GreedyInv(g, vs, b, k - 1)
    ensures GreedyInv(g, vs, GreedyStep(g, vs, tie, b, k), k)
  {
    CellInBounds(k - 1);
  }

  /** After the greedy loop over all cells, for any valuation vs: a positive value belongs to a reported empty cell. */
  lemma GreedyUpToCell(g: Grid, vs: seq<int>, tie: (int, int) -> bool)
    requires WellFormed(g) && |vs| == CELLS
    ensures var b := GreedyUpTo(g, vs, tie, CELLS);
      0 <= b.value && (b.value > 0 ==> InBounds(b.x, b.y) && g[b.x][b.y] == EMPTY && b.value == vs[b.x * BOARD_SIZE + b.y])
  {
    GreedyUpToInv(g, vs, tie, CELLS);
  }

  /** After the greedy loop over all cells, for any valuation vs: no empty cell is valued more. */
  lemma GreedyUpToMax(g: Grid, vs: seq<int>, tie: (int, int) -> bool)
    requires WellFormed(g) && |vs| == CELLS
    ensures forall x, y :: InBounds(x, y) && g[x][y] == EMPTY ==> vs[x * BOARD_SIZE + y] <= GreedyUpTo(g, vs, tie, CELLS).value
  {
    GreedyUpToInv(g, vs, tie, CELLS);
    forall x, y | InBounds(x, y) && g[x][y] == EMPTY
      ensures vs[x * BOARD_SIZE + y] <= GreedyUpTo(g, vs, tie, CELLS).value
    {
      CellOfKey(x, y);
    }
  }

  /** Cell number x * 19 + y of the valuation is the value of cell (x, y). */
  lemma PointValuesAt(g: Grid, p: Stone, x: int, y: int)
    requires WellFormed(g) && InBounds(x, y)
    ensures 0 <= x * BOARD_SIZE + y < CELLS && PointValues(g, p)[x * BOARD_SIZE + y] == PointValue(g, x, y, p)
  {
    CellOfKey(x, y);
  }

  /** The greedy choice's value is never negative, and a positive value is the value of the reported empty cell. */
  lemma GreedyChoiceCell(g: Grid, p: Stone, tie: (int, int) -> bool)
    requires WellFormed(g)
    ensures var b := GreedyChoice(g, p, tie);
      0 <= b.value && (b.value > 0 ==> InBounds(b.x, b.y) && g[b.x][b.y] == EMPTY && b.value == PointValue(g, b.x, b.y, p))
  {
    var b := GreedyChoice(g, p, tie);
    GreedyUpToCell(g, PointValues(g, p), tie);
    if b.value > 0 {
      PointValuesAt(g, p, b.x, b.y);
    }
  }

  /** No empty cell scores more than the greedy choice. */
  lemma GreedyChoiceMax(g: Grid, p: Stone, tie: (int, int) -> bool)
    requires WellFormed(g)
    ensures forall x, y :: InBounds(x, y) && g[x][y] == EMPTY ==> PointValue(g, x, y, p) <= GreedyChoice(g, p, tie).value
  {
    GreedyUpToMax(g, PointValues(g, p), tie);
    forall x, y | InBounds(x, y) && g[x][y] == EMPTY
      ensures PointValue(g, x, y, p) <= GreedyChoice(g, p, tie).value
    {
      PointValuesAt(g, p, x, y);
    }
  }

  /** The value of one direction through (row, column): the five windows scanned at offsets -4..0. */
  method EvaluateDirection(board: array2<Stone>, row: int, column: int, player: Stone, direction: Direction)
    returns (value: int)
    requires board.Length0 == BOARD_SIZE && board.Length1 == BOARD_SIZE
    ensures value == DirectionScore(Snapshot(board), row, column, player, direction)
  {
    ghost var g := Snapshot(board);
    value := 0;
    for i := -WINNING_THRESHOLD + 1 to 1
      invariant value == WindowsUpTo(g, row, column, player, direction, i + WINNING_THRESHOLD - 1)
    {
      var c := ScanWindow(board, row, column, player, direction, i, g);
      TableIndexInRange(c);
      value := value + SCORE_TABLE[TableIndex(c)];
    }
  }

  /**
   * The scan of the window at offset i: the counts of its five cells, or zero
   * counts once a cell leaves the board; either way the counts select the table
   * slot holding the window's score.
   */
  method ScanWindow(board: array2<Stone>, row: int, column: int, player: Stone, direction: Direction, i: int, ghost g: Grid)
    returns (c: Counts)
    requires board.Length0 == BOARD_SIZE && board.Length1 == BOARD_SIZE && Snapshot(board) == g
    ensures WindowOnBoard(row, column, direction, i) ==> c == CountsUpTo(g, row, column, player, direction, i, WINNING_THRESHOLD)
    ensures !WindowOnBoard(row, column, direction, i) ==> c == Counts(0, 0)
    ensures c.own + c.opp <= WINNING_THRESHOLD
    ensures SCORE_TABLE[TableIndex(c)] == WindowScore(g, row, column, player, direction, i)
  {
    var own, opp := 0, 0;
    ghost var off := false;
    var j := 0;
    while j < WINNING_THRESHOLD
      invariant 0 <= j <= WINNING_THRESHOLD && !off
      invariant Counts(own, opp) == CountsUpTo(g, row, column, player, direction, i, j)
      invariant forall t :: i <= t < i + j ==> StepOnBoard(row, column, direction, t)
    {
      var x, y := StepRow(row, direction, i + j), StepColumn(column, direction, i + j);
      if x < 0 || x >= BOARD_SIZE || y < 0 || y >= BOARD_SIZE {
        assert !StepOnBoard(row, column, direction, i + j);
        assert !WindowOnBoard(row, column, direction, i);
        own, opp := 0, 0;
        off := true;
        break;
      }
      own, opp := ScanCell(board, row, column, player, direction, i, j, x, y, own, opp, g);
      j := j + 1;
    }
    c := Counts(own, opp);
    ScanWindowScore(g, row, column, player, direction, i, c);
  }

  /** Cell j of the window at offset i, on the board at (x, y), added to the counts of the cells before it. */
  method ScanCell(board: array2<Stone>, row: int, column: int, player: Stone, direction: Direction, i: int, j: nat,
                  x: int, y: int, own: nat, opp: nat, ghost g: Grid)
    returns (own': nat, opp': nat)
    requires board.Length0 == BOARD_SIZE && board.Length1 == BOARD_SIZE && Snapshot(board) == g
    requires x == StepRow(row, direction, i + j) && y == StepColumn(column, direction, i + j) && InBounds(x, y)
    requires Counts(own, opp) == CountsUpTo(g, row, column, player, direction, i, j)
    ensures Counts(own', opp') == CountsUpTo(g, row, column, player, direction, i, j + 1)
  {
    CountsUpToNext(g, row, column, player, direction, i, j);
    own', opp' := CountCell(board, x, y, player, own, opp, g);
  }

  /** The count update for on-board cell (x, y). */
  method CountCell(board: array2<Stone>, x: int, y: int, player: Stone, own: nat, opp: nat, ghost g: Grid)
    returns (own': nat, opp': nat)
    requires board.Length0 == BOARD_SIZE && board.Length1 == BOARD_SIZE && Snapshot(board) == g && InBounds(x, y)
    ensures Counts(own', opp') == Tally(Counts(own, opp), g[x][y], player)
  {
    own', opp' := own, opp;
    if board[x, y] != EMPTY {
      if board[x, y] == player {
        own' := own + 1;
      } else {
        opp' := opp + 1;
      }
    }
  }

  /** The counts one window's scan leaves (all five cells on the board, or zero for a window leaving it) select the slot of its score. */
  lemma ScanWindowScore(g: Grid, row: int, column: int, p: Stone, d: Direction, i: int, c: Counts)
    requires WellFormed(g)
    requires WindowOnBoard(row, column, d, i) ==> c == CountsUpTo(g, row, column, p, d, i, WINNING_THRESHOLD)
    requires !WindowOnBoard(row, column, d, i) ==> c == Counts(0, 0)
    ensures c.own + c.opp <= WINNING_THRESHOLD
    ensures SCORE_TABLE[TableIndex(c)] == WindowScore(g, row, column, p, d, i)
  {
  }

  /** A cell's value for `player`: the sum of its four direction values. */
  method Evaluate(board: array2<Stone>, row: int, column: int, player: Stone) returns (value: int)
    requires board.Length0 == BOARD_SIZE && board.Length1 == BOARD_SIZE
    ensures value == PointValue(Snapshot(board), row, column, player)
  {
    value := 0;
    var v := EvaluateDirection(board, row, column, player, Row);
    value := value + v;
    v := EvaluateDirection(board, row, column, player, Column);
    value := value + v;
    v := EvaluateDirection(board, row, column, player, Diagonal);
    value := value + v;
    v := EvaluateDirection(board, row, column, player, AntiDiagonal);
    value := value + v;
  }

  /** Whether the board holds no stone: the scan stops at the first stone. */
  method IsFirstStone(board: array2<Stone>) returns (first: bool)
    requires board.Length0 == BOARD_SIZE && board.Length1 == BOARD_SIZE
    ensures first == IsEmptyBoard(Snapshot(board))
  {
    ghost var empty := IsEmptyBoard(Snapshot(board));
    first := true;
    var i := 0;
    while i < BOARD_SIZE
      invariant 0 <= i <= BOARD_SIZE
      invariant first ==> forall a, b :: 0 <= a < i && 0 <= b < BOARD_SIZE ==> board[a, b] == EMPTY
      invariant !first ==> !empty
    {
      var j := 0;
      while j < BOARD_SIZE
        invariant 0 <= j <= BOARD_SIZE
        invariant first ==> forall b :: 0 <= b < j ==> board[i, b] == EMPTY
        invariant !first ==> !empty
      {
        if board[i, j] != EMPTY {
          first := false;
          break;
        }
        j := j + 1;
      }
      if !first {
        break;
      }
      i := i + 1;
    }
  }

  /**
   * The greedy move for `player`: the centre with value 1 on an empty board;
   * otherwise the best value over the empty cells (an equal value wins when the
   * tie-break accepts the cell), its cell reported only when the value is positive,
   * (x0, y0) coming back unchanged otherwise.
   */
  method SimpleStrategy(board: array2<Stone>, player: Stone, tie: (int, int) -> bool, x0: int, y0: int)
    returns (r: int, bestX: int, bestY: int)
    requires board.Length0 == BOARD_SIZE && board.Length1 == BOARD_SIZE
    ensures IsEmptyBoard(Snapshot(board)) ==> r == 1 && bestX == BOARD_SIZE / 2 && bestY == BOARD_SIZE / 2
    ensures !IsEmptyBoard(Snapshot(board)) ==>
      var b := GreedyChoice(Snapshot(board), player, tie);
      r == b.value && (r > 0 ==> bestX == b.x && bestY == b.y) && (r <= 0 ==> bestX == x0 && bestY == y0)
  {
    ghost var g := Snapshot(board);
    var first := IsFirstStone(board);
    if first {
      return 1, BOARD_SIZE / 2, BOARD_SIZE / 2;
    }
    ghost var vs := PointValues(g, player);
    var best := Choice(0, BOARD_SIZE / 2, BOARD_SIZE / 2);
    ghost var k := 0;
    for x := 0 to BOARD_SIZE
      invariant k == x * BOARD_SIZE && best == GreedyUpTo(g, vs, tie, k)
    {
      best := GreedyRow(board, player, tie, x, best, g, vs, k);
      k := k + BOARD_SIZE;
    }
    r, bestX, bestY := best.value, x0, y0;
    if best.value > 0 {
      bestX, bestY := best.x, best.y;
    }
  }

  /** Row x of the greedy loop, whose first cell is number k. */
  method GreedyRow(board: array2<Stone>, player: Stone, tie: (int, int) -> bool, x: int, best: Choice,
                   ghost g: Grid, ghost vs: seq<int>, ghost k: nat) returns (best': Choice)
    requires board.Length0 == BOARD_SIZE && board.Length1 == BOARD_SIZE && Snapshot(board) == g && vs == PointValues(g, player)
    requires 0 <= x < BOARD_SIZE && k == x * BOARD_SIZE && best == GreedyUpTo(g, vs, tie, k)
    ensures best' == GreedyUpTo(g, vs, tie, k + BOARD_SIZE)
  {
    best' := best;
    ghost var n := k;
    for y := 0 to BOARD_SIZE
      invariant n == k + y && best' == GreedyUpTo(g, vs, tie, n)
    {
      best' := GreedyCell(board, player, tie, x, y, best', g, vs, n);
      n := n + 1;
    }
  }

  /** One cell of the greedy loop: an empty cell is evaluated and taken when its value beats the best so far. */
  method GreedyCell(board: array2<Stone>, player: Stone, tie: (int, int) -> bool, x: int, y: int, best: Choice,
                    ghost g: Grid, ghost vs: seq<int>, ghost k: nat) returns (best': Choice)
    requires board.Length0 == BOARD_SIZE && board.Length1 == BOARD_SIZE && Snapshot(board) == g && vs == PointValues(g, player)
    requires InBounds(x, y) && k == x * BOARD_SIZE + y && best == GreedyUpTo(g, vs, tie, k)
    ensures best' == GreedyUpTo(g, vs, tie, k + 1)
  {
    CellOfKey(x, y);
    assert GreedyUpTo(g, vs, tie, k + 1) == GreedyStep(g, vs, tie, best, k + 1);
    best' := best;
    if board[x, y] == EMPTY {
      var value := CellValueAt(board, player, x, y, g, vs, k);
      if value > best.value || (value == best.value && tie(x, y)) {
        best' := Choice(value, x, y);
      }
    }
  }

  /** The value of cell (x, y), number k. */
  method CellValueAt(board: array2<Stone>, player: Stone, x: int, y: int, ghost g: Grid, ghost vs: seq<int>, ghost k: nat)
    returns (value: int)
    requires board.Length0 == BOARD_SIZE && board.Length1 == BOARD_SIZE && Snapshot(board) == g && vs == PointValues(g, player)
    requires InBounds(x, y) && k == x * BOARD_SIZE + y && CellX(k) == x && CellY(k) == y
    ensures value == vs[k]
  {
    value := Evaluate(board, x, y, player);
  }
}

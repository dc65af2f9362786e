/**
 * The engine itself as imperative code: the score cache arrays, the score
 * tables, the scanners that fill them, the evaluator, the candidate search and
 * the alpha-beta search that place and undo stones on the caller's board.
 * Each method is proved against the value-level definitions of the other modules.
 */
module MiniMax {
  import opened Board
  import opened Bits
  import opened Patterns
  import opened ScoreTable
  import opened LineScan
  import opened Evaluator
  import opened Candidates
  import opened Search
  import Game

  /** Pairs a score array's contents with a type array's contents. */
  function Zip(ss: seq<int>, ks: seq<PatternType>): (es: seq<Entry>)
    requires |ss| == |ks|
    ensures |es| == |ss|
    ensures forall i :: 0 <= i < |ss| ==> es[i] == Entry(ss[i], ks[i])
  {
    seq(|ss|, i requires 0 <= i < |ss| => Entry(ss[i], ks[i]))
  }

  /** A cache whose every slot is (0, NONE). */
  function ZeroView(): (c: CacheView)
    ensures Shaped(c) && ViewBounded(c)
  {
    CacheView(seq(BOARD_SIZE, _ => Entry(0, NONE)), seq(BOARD_SIZE, _ => Entry(0, NONE)),
              seq(2 * BOARD_SIZE - 1, _ => Entry(0, NONE)), seq(2 * BOARD_SIZE - 1, _ => Entry(0, NONE)))
  }

  /** The tables the builder produces: every address holds its TableEntry. */
  function BuiltTables(): (t: Tables)
    ensures TablesOk(t)
  {
    Tables(seq(BIT_DATA_SIZE, a requires 0 <= a => TableEntry(a).score),
           seq(BIT_DATA_SIZE, a requires 0 <= a => TableEntry(a).kind))
  }

  /** The built tables hold scores between 0 and MAX_SCORE. */
  lemma BuiltTablesBounded()
    ensures TablesBounded(BuiltTables())
  {
    var t := BuiltTables();
    forall a | 0 <= a < |t.scores|
      ensures 0 <= t.scores[a] <= MAX_SCORE
    {
      EntryBounded(a, |PATTERNS|);
    }
  }

  /** Cell (i, j) is on the board and holds a stone. */
  predicate Occupied(g: Grid, i: int, j: int)
    requires WellFormed(g)
  {
    InBounds(i, j) && g[i][j] != EMPTY
  }

  /** The per-side cache of the best entry of every row, column, diagonal and anti-diagonal. */
  class ScoreCache {
    const horizontalScore: array<int>
    const horizontalType: array<PatternType>
    const verticalScore: array<int>
    const verticalType: array<PatternType>
    const diagonalScore: array<int>
    const diagonalType: array<PatternType>
    const antiDiagonalScore: array<int>
    const antiDiagonalType: array<PatternType>

    function Arrays(): set<object> {
      {horizontalScore, horizontalType, verticalScore, verticalType,
       diagonalScore, diagonalType, antiDiagonalScore, antiDiagonalType}
    }

    /** Nineteen row and column slots, 37 diagonal and anti-diagonal slots. */
    predicate Sized() {
      horizontalScore.Length == BOARD_SIZE && horizontalType.Length == BOARD_SIZE
      && verticalScore.Length == BOARD_SIZE && verticalType.Length == BOARD_SIZE
      && diagonalScore.Length == 2 * BOARD_SIZE - 1 && diagonalType.Length == 2 * BOARD_SIZE - 1
      && antiDiagonalScore.Length == 2 * BOARD_SIZE - 1 && antiDiagonalType.Length == 2 * BOARD_SIZE - 1
    }

    /** Sized, and the eight arrays are distinct. */
    ghost predicate Valid() {
      Sized()
      && horizontalScore != verticalScore && horizontalScore != diagonalScore && horizontalScore != antiDiagonalScore
      && verticalScore != diagonalScore && verticalScore != antiDiagonalScore && diagonalScore != antiDiagonalScore
      && horizontalType != verticalType && horizontalType != diagonalType && horizontalType != antiDiagonalType
      && verticalType != diagonalType && verticalType != antiDiagonalType && diagonalType != antiDiagonalType
    }

    /** The cache's contents as a value. */
    function View(): (c: CacheView)
      requires Sized()
      reads Arrays()
      ensures Shaped(c)
    {
      CacheView(Zip(horizontalScore[..], horizontalType[..]), Zip(verticalScore[..], verticalType[..]),
                Zip(diagonalScore[..], diagonalType[..]), Zip(antiDiagonalScore[..], antiDiagonalType[..]))
    }

    /** A zero-filled cache. */
    constructor ()
      ensures Valid() && fresh(Arrays())
      ensures View() == ZeroView()
    {
      horizontalScore := new int[BOARD_SIZE](_ => 0);
      horizontalType := new PatternType[BOARD_SIZE](_ => NONE);
      verticalScore := new int[BOARD_SIZE](_ => 0);
      verticalType := new PatternType[BOARD_SIZE](_ => NONE);
      diagonalScore := new int[2 * BOARD_SIZE - 1](_ => 0);
      diagonalType := new PatternType[2 * BOARD_SIZE - 1](_ => NONE);
      antiDiagonalScore := new int[2 * BOARD_SIZE - 1](_ => 0);
      antiDiagonalType := new PatternType[2 * BOARD_SIZE - 1](_ => NONE);
    }

    /** A copy of another cache, as the evaluator's byte copy makes. */
    constructor Copy(c: ScoreCache)
      requires c.Valid()
      ensures Valid() && fresh(Arrays())
      ensures View() == c.View()
    {
      var hs := CopyScores(c.horizontalScore);
      var ht := CopyTypes(c.horizontalType);
      var vs := CopyScores(c.verticalScore);
      var vt := CopyTypes(c.verticalType);
      var ds := CopyScores(c.diagonalScore);
      var dt := CopyTypes(c.diagonalType);
      var xs := CopyScores(c.antiDiagonalScore);
      var xt := CopyTypes(c.antiDiagonalType);
      horizontalScore, horizontalType, verticalScore, verticalType := hs, ht, vs, vt;
      diagonalScore, diagonalType, antiDiagonalScore, antiDiagonalType := ds, dt, xs, xt;
    }

    /** A fresh array with the same scores. */
    static method CopyScores(a: array<int>) returns (b: array<int>)
      ensures fresh(b) && b[..] == a[..]
    {
      b := new int[a.Length](i reads a => if 0 <= i < a.Length then a[i] else 0);
    }

    /** A fresh array with the same labels. */
    static method CopyTypes(a: array<PatternType>) returns (b: array<PatternType>)
      ensures fresh(b) && b[..] == a[..]
    {
      b := new PatternType[a.Length](i reads a => if 0 <= i < a.Length then a[i] else NONE);
    }

    /** Stores an entry in row slot i. */
    method SetHorizontal(i: int, e: Entry)
      requires Valid() && 0 <= i < BOARD_SIZE
      modifies horizontalScore, horizontalType
      ensures View() == old(View()).(horizontal := old(View()).horizontal[i := e])
    {
      horizontalScore[i] := e.score;
      horizontalType[i] := e.kind;
    }

    /** Stores an entry in column slot i. */
    method SetVertical(i: int, e: Entry)
      requires Valid() && 0 <= i < BOARD_SIZE
      modifies verticalScore, verticalType
      ensures View() == old(View()).(vertical := old(View()).vertical[i := e])
    {
      verticalScore[i] := e.score;
      verticalType[i] := e.kind;
    }

    /** Stores an entry in diagonal slot i. */
    method SetDiagonal(i: int, e: Entry)
      requires Valid() && 0 <= i < 2 * BOARD_SIZE - 1
      modifies diagonalScore, diagonalType
      ensures View() == old(View()).(diagonal := old(View()).diagonal[i := e])
    {
      diagonalScore[i] := e.score;
      diagonalType[i] := e.kind;
    }

    /** Stores an entry in anti-diagonal slot i. */
    method SetAntiDiagonal(i: int, e: Entry)
      requires Valid() && 0 <= i < 2 * BOARD_SIZE - 1
      modifies antiDiagonalScore, antiDiagonalType
      ensures View() == old(View()).(antiDiagonal := old(View()).antiDiagonal[i := e])
    {
      antiDiagonalScore[i] := e.score;
      antiDiagonalType[i] := e.kind;
    }
  }

  /** The search engine: the score tables, the root board copy and both sides' caches. */
  class AlphaBetaAlgorithm {
    const scoreTable: array<int>
    const scoreTypeTable: array<PatternType>
    const boardBackup: array2<Stone>
    const blackCache: ScoreCache
    const whiteCache: ScoreCache

    /** Both score tables have one slot per 14-bit address. */
    predicate TablesSized() {
      scoreTable.Length == BIT_DATA_SIZE && scoreTypeTable.Length == BIT_DATA_SIZE
    }

    ghost predicate Valid() {
      TablesSized()
      && boardBackup.Length0 == BOARD_SIZE && boardBackup.Length1 == BOARD_SIZE
      && blackCache.Valid() && whiteCache.Valid()
      && blackCache.Arrays() !! whiteCache.Arrays()
      && {scoreTable, scoreTypeTable} !! blackCache.Arrays()
      && {scoreTable, scoreTypeTable} !! whiteCache.Arrays()
    }

    /** The score tables as a value. */
    function TableView(): (t: Tables)
      requires TablesSized()
      reads scoreTable, scoreTypeTable
      ensures TablesOk(t)
    {
      Tables(scoreTable[..], scoreTypeTable[..])
    }

    /** Everything the leaf evaluation reads. */
    function CurrentEnv(): Env
      requires Valid()
      reads scoreTable, scoreTypeTable, boardBackup, blackCache.Arrays(), whiteCache.Arrays()
    {
      EngineEnv(TableView(), Snapshot(boardBackup), blackCache.View(), whiteCache.View())
    }

    /** The same state as plain values: the tables, the root copy and both caches. */
    ghost function EnvState(): (s: EnvParts)
      requires Valid()
      reads scoreTable, scoreTypeTable, boardBackup, blackCache.Arrays(), whiteCache.Arrays()
      ensures WellFormed(s.backup) && Shaped(s.black) && Shaped(s.white)
    {
      EnvParts(TableView(), Snapshot(boardBackup), blackCache.View(), whiteCache.View())
    }

    /** Every table score and every cached slot lies in 0..1000000. */
    ghost predicate Bounded()
      requires Valid()
      reads scoreTable, scoreTypeTable, blackCache.Arrays(), whiteCache.Arrays()
    {
      TablesBounded(TableView()) && ViewBounded(blackCache.View()) && ViewBounded(whiteCache.View())
    }

    /** In a bounded engine every leaf value the search reads fits in 32 bits. */
    lemma CurrentEnvBounded()
      requires Valid() && Bounded()
      ensures EnvBounded(CurrentEnv())
    {
      EngineEnvBounded(TableView(), Snapshot(boardBackup), blackCache.View(), whiteCache.View());
    }

    /** Allocates the tables and caches and builds the tables. */
    constructor ()
      ensures Valid() && fresh(blackCache.Arrays()) && fresh(whiteCache.Arrays())
      ensures fresh(scoreTable) && fresh(scoreTypeTable) && fresh(boardBackup)
      ensures TableView() == BuiltTables()
      ensures blackCache.View() == ZeroView() && whiteCache.View() == ZeroView()
      ensures Bounded()
    {
      var scores, kinds := NewTables();
      scoreTable, scoreTypeTable := scores, kinds;
      boardBackup := new Stone[BOARD_SIZE, BOARD_SIZE]((_, _) => EMPTY);
      var black, white := NewCaches();
      blackCache, whiteCache := black, white;
      BuiltTablesBounded();
    }

    /** Allocates and builds both score tables. */
    static method NewTables() returns (scores: array<int>, kinds: array<PatternType>)
      ensures fresh(scores) && fresh(kinds) && scores.Length == BIT_DATA_SIZE && kinds.Length == BIT_DATA_SIZE
      ensures Tables(scores[..], kinds[..]) == BuiltTables()
    {
      scores := new int[BIT_DATA_SIZE];
      kinds := new PatternType[BIT_DATA_SIZE];
      InitScoreTable(scores, kinds);
    }

    /** The two sides' zero-filled caches, sharing no array. */
    static method NewCaches() returns (black: ScoreCache, white: ScoreCache)
      ensures black.Valid() && white.Valid() && black.Arrays() !! white.Arrays()
      ensures fresh(black.Arrays()) && fresh(white.Arrays())
      ensures black.View() == ZeroView() && white.View() == ZeroView()
    {
      black := new ScoreCache();
      white := new ScoreCache();
    }

    /** Builds both tables: each pattern, in order, claims every still-zero address containing it forwards or backwards. */
    static method InitScoreTable(scores: array<int>, kinds: array<PatternType>)
      requires scores.Length == BIT_DATA_SIZE && kinds.Length == BIT_DATA_SIZE
      modifies scores, kinds
      ensures Tables(scores[..], kinds[..]) == BuiltTables()
    {
      forall a | 0 <= a < scores.Length {
        scores[a] := 0;
      }
      forall a | 0 <= a < kinds.Length {
        kinds[a] := NONE;
      }
      for n := 0 to |PATTERNS|
        invariant forall a :: 0 <= a < BIT_DATA_SIZE ==> Entry(scores[a], kinds[a]) == EntryAfter(a, n)
      {
        ApplyNth(scores, kinds, n);
      }
      assert scores[..] == BuiltTables().scores;
      assert kinds[..] == BuiltTables().kinds;
    }

    /** The builder's pass for pattern number n. */
    static method ApplyNth(scores: array<int>, kinds: array<PatternType>, n: nat)
      requires scores.Length == BIT_DATA_SIZE && kinds.Length == BIT_DATA_SIZE && n < |PATTERNS|
      requires forall a :: 0 <= a < BIT_DATA_SIZE ==> Entry(scores[a], kinds[a]) == EntryAfter(a, n)
      modifies scores, kinds
      ensures forall a :: 0 <= a < BIT_DATA_SIZE ==> Entry(scores[a], kinds[a]) == EntryAfter(a, n + 1)
    {
      var p := PATTERNS[n];
      var mask1, mask2 := PatternMasks(p.text);
      ApplyPattern(scores, kinds, p, mask1, mask2);
    }

    /** The forward and backward masks of a pattern text, two bits per character. */
    static method PatternMasks(text: string) returns (mask1: nat, mask2: nat)
      ensures mask1 == ForwardMask(text) && mask2 == BackwardMask(text)
    {
      mask1, mask2 := 0, 0;
      var length := |text|;
      ghost var fwd, bwd := TextCodes(text), TextCodes(Reverse(text));
      for j := 0 to length
        invariant mask1 == Pack(fwd[..j]) && mask2 == Pack(bwd[..j])
      {
        ghost var m1, m2 := mask1, mask2;
        mask1 := ShiftInChar(mask1, text[j]);
        mask2 := ShiftInChar(mask2, text[length - j - 1]);
        assert fwd[j] == CharCode(text[j]);
        assert bwd[j] == CharCode(Reverse(text)[j]) == CharCode(text[length - 1 - j]);
        PackPrefixStep(fwd, j);
        PackPrefixStep(bwd, j);
      }
      assert fwd[..length] == fwd && bwd[..length] == bwd;
    }

    /** Shifts a mask two bits up and ORs in the character's code: '1' sets bit 0, '2' sets bit 1. */
    static method ShiftInChar(mask: nat, ch: char) returns (r: nat)
      ensures r == 4 * mask + CharCode(ch)
    {
      // `<<= 2` on a mask of at most seven cells never reaches the sign bit
      r := 4 * mask;
      if ch == '1' {
        OrLowCode(mask, 1);
        r := BitOr(r, 1);
      } else if ch == '2' {
        OrLowCode(mask, 2);
        r := BitOr(r, 2);
      }
    }

    /** One pattern's pass over the addresses: each still-zero address containing it takes its score and type. */
    static method ApplyPattern(scores: array<int>, kinds: array<PatternType>, p: Pattern, mask1: nat, mask2: nat)
      requires scores.Length == BIT_DATA_SIZE && kinds.Length == BIT_DATA_SIZE
      requires mask1 == ForwardMask(p.text) && mask2 == BackwardMask(p.text)
      modifies scores, kinds
      ensures forall a :: 0 <= a < BIT_DATA_SIZE ==>
        Entry(scores[a], kinds[a]) == Claim(old(Entry(scores[a], kinds[a])), p, a)
    {
      ghost var before, beforeKinds := scores[..], kinds[..];
      for addr := 0 to BIT_DATA_SIZE
        invariant forall a :: 0 <= a < addr ==> Entry(scores[a], kinds[a]) == Claim(Entry(before[a], beforeKinds[a]), p, a)
        invariant forall a :: addr <= a < BIT_DATA_SIZE ==> scores[a] == before[a] && kinds[a] == beforeKinds[a]
      {
        ClaimAddress(scores, kinds, addr, p, mask1, mask2);
      }
    }

    /** One address of a pattern's pass. */
    static method ClaimAddress(scores: array<int>, kinds: array<PatternType>, addr: nat, p: Pattern, mask1: nat, mask2: nat)
      requires scores.Length == BIT_DATA_SIZE && kinds.Length == BIT_DATA_SIZE && addr < BIT_DATA_SIZE
      requires mask1 == ForwardMask(p.text) && mask2 == BackwardMask(p.text)
      modifies scores, kinds
      ensures Entry(scores[addr], kinds[addr]) == Claim(old(Entry(scores[addr], kinds[addr])), p, addr)
      ensures forall a :: 0 <= a < BIT_DATA_SIZE && a != addr ==> scores[a] == old(scores[a]) && kinds[a] == old(kinds[a])
    {
      if scores[addr] == 0 {
        var length := |p.text|;
        var hit := IsAddrContainsMask(addr, BIT_DATA_LENGTH, mask1, length * 2);
        if !hit {
          hit := IsAddrContainsMask(addr, BIT_DATA_LENGTH, mask2, length * 2);
        }
        if hit {
          scores[addr] := p.score;
          kinds[addr] := p.kind;
        }
      }
    }

    /**
     * Whether `mask`, `maskBitCount` bits wide, occurs in the low `addrBitCount`
     * bits of `addr` at an even offset.
     */
    static method IsAddrContainsMask(addr: nat, addrBitCount: int, mask: nat, maskBitCount: nat) returns (r: bool)
      ensures r == ContainsMask(addr, addrBitCount, mask, maskBitCount)
    {
      var k := LowOnes(maskBitCount);
      var m: nat := mask;
      var i := maskBitCount;
      ghost var h: nat := 0;
      while i <= addrBitCount
        invariant i == maskBitCount + 2 * h
        invariant k == Shl(Pow2(maskBitCount) - 1, 2 * h)
        invariant m == Shl(mask, 2 * h)
        invariant forall s: nat :: s < 2 * h && s % 2 == 0 ==> !BitsAt(addr, s, maskBitCount, mask)
        decreases addrBitCount - i
      {
        MaskTest(addr, 2 * h, maskBitCount, mask);
        if BitAnd(addr, k) == m {
          return true;
        }
        forall s: nat | s < 2 * h + 2 && s % 2 == 0
          ensures !BitsAt(addr, s, maskBitCount, mask)
        {
          if s >= 2 * h {
            assert s == 2 * h;
          }
        }
        ShlStep2(mask, 2 * h);
        ShlStep2(Pow2(maskBitCount) - 1, 2 * h);
        m := 4 * m;
        k := 4 * k;
        i := i + 2;
        h := h + 1;
      }
      return false;
    }

    /** The mask of the low n bits, one `|= 1 << i` at a time. */
    static method LowOnes(n: nat) returns (k: nat)
      ensures k == Pow2(n) - 1
    {
      k := 0;
      for i := 0 to n
        invariant k == Pow2(i) - 1
      {
        ShlPow2(1, i);
        OrNextBit(i);
        k := BitOr(k, Shl(1, i));
      }
    }

    /** Whether some on-board cell within distance SEARCH_RANGE of (x, y) holds a stone. */
    static method IsValidPosition(board: array2<Stone>, x: int, y: int) returns (r: bool)
      requires board.Length0 == BOARD_SIZE && board.Length1 == BOARD_SIZE
      ensures r == ValidPosition(Snapshot(board), x, y)
    {
      ghost var g := Snapshot(board);
      for dx := -SEARCH_RANGE to SEARCH_RANGE + 1
        invariant forall i, j :: x - SEARCH_RANGE <= i < x + dx && y - SEARCH_RANGE <= j <= y + SEARCH_RANGE ==>
          !Occupied(g, i, j)
      {
        ghost var row := x + dx;
        for dy := -SEARCH_RANGE to SEARCH_RANGE + 1
          invariant forall i, j :: x - SEARCH_RANGE <= i < x + dx && y - SEARCH_RANGE <= j <= y + SEARCH_RANGE ==>
            !Occupied(g, i, j)
          invariant forall j :: y - SEARCH_RANGE <= j < y + dy ==> !Occupied(g, row, j)
        {
          var newX, newY := x + dx, y + dy;
          if newX < 0 || newX >= BOARD_SIZE || newY < 0 || newY >= BOARD_SIZE {
            continue;
          }
          if board[newX, newY] != EMPTY {
            assert InBounds(newX, newY) && g[newX][newY] != EMPTY;
            return true;
          }
        }
      }
      assert !ValidPosition(g, x, y) by {
        forall i, j | x - SEARCH_RANGE <= i <= x + SEARCH_RANGE && y - SEARCH_RANGE <= j <= y + SEARCH_RANGE
          ensures !(InBounds(i, j) && g[i][j] != EMPTY)
        {
          assert !Occupied(g, i, j);
        }
      }
      return false;
    }

    /** After j cells of a scan: `cs` is the walk so far and (sx, sy) the next cell. */
    static ghost predicate Scanned(g: Grid, me: Stone, x0: int, y0: int, dx: int, dy: int, j: nat, cs: seq<int>, sx: int, sy: int)
      requires WellFormed(g)
    {
      cs == Walk(g, me, x0, y0, dx, dy, j) && |cs| == j && sx == Offset(x0, j, dx) && sy == Offset(y0, j, dy)
    }

    /** A scan that has read 19 cells, or reached the board's edge, has read the whole line. */
    static lemma ScanFinish(g: Grid, me: Stone, x0: int, y0: int, dx: int, dy: int, j: nat, cs: seq<int>, sx: int, sy: int)
      requires WellFormed(g) && j <= BOARD_SIZE && Scanned(g, me, x0, y0, dx, dy, j, cs, sx, sy)
      requires j == BOARD_SIZE || !InBounds(sx, sy)
      ensures cs == Line(g, me, x0, y0, dx, dy)
    {
      if j < BOARD_SIZE {
        WalkStops(g, me, x0, y0, dx, dy, j, BOARD_SIZE);
      }
    }

    /** Reading the on-board cell (sx, sy) extends the walk by its code. */
    static lemma ScanAdvance(g: Grid, me: Stone, x0: int, y0: int, dx: int, dy: int, j: nat, cs: seq<int>, sx: int, sy: int)
      requires WellFormed(g) && -1 <= dx <= 1 && -1 <= dy <= 1
      requires Scanned(g, me, x0, y0, dx, dy, j, cs, sx, sy) && InBounds(sx, sy)
      ensures Codes2(cs)
      ensures Scanned(g, me, x0, y0, dx, dy, j + 1, cs + [CellCode(me, g[sx][sy])], sx + dx, sy + dy)
    {
      WalkStep(g, me, x0, y0, dx, dy, j);
    }

    /**
     * Scans the line from (x0, y0) along (dx, dy): shifts each on-board cell's code
     * into a 32-bit register and, from the seventh cell on, looks up its low 14
     * bits and keeps the first entry of strictly greatest score.
     */
    method ScanLine(board: array2<Stone>, me: Stone, x0: int, y0: int, dx: int, dy: int) returns (best: Entry)
      requires TablesSized() && board.Length0 == BOARD_SIZE && board.Length1 == BOARD_SIZE
      requires -1 <= dx <= 1 && -1 <= dy <= 1
      ensures best == LineBest(TableView(), Line(Snapshot(board), me, x0, y0, dx, dy))
    {
      ghost var g := Snapshot(board);
      var opponent := if me == BLACK then WHITE else BLACK;
      var k := 0;
      var addr: nat := 0;
      var maxValue, maxType := 0, NONE;
      ghost var cs: seq<int> := [];
      var sx, sy := x0, y0;
      var j := 0;
      // the walk ends at the board's edge or after 19 cells
      while j < BOARD_SIZE && InBounds(sx, sy)
        invariant j <= BOARD_SIZE && Scanned(g, me, x0, y0, dx, dy, j, cs, sx, sy)
        invariant k == 2 * j && addr == Pack(cs) % WORD
        invariant Entry(maxValue, maxType) == LineBest(TableView(), cs)
      {
        var cell := board[sx, sy];
        ScanAdvance(g, me, x0, y0, dx, dy, j, cs, sx, sy);
        addr, k, maxValue, maxType := ScanCell(cell, me, opponent, addr, k, maxValue, maxType, cs);
        cs := cs + [CellCode(me, cell)];
        sx, sy := sx + dx, sy + dy;
        j := j + 1;
      }
      ScanFinish(g, me, x0, y0, dx, dy, j, cs, sx, sy);
      best := Entry(maxValue, maxType);
    }

    /** One cell of a scan: shift its code in and, once seven codes are in, look up the window. */
    method ScanCell(cell: Stone, me: Stone, opponent: Stone, addr: nat, k: int, maxValue: int, maxType: PatternType,
                    ghost cs: seq<int>)
      returns (addr': nat, k': int, maxValue': int, maxType': PatternType)
      requires TablesSized() && opponent == Other(me) && Codes2(cs)
      requires addr == Pack(cs) % WORD && k == 2 * |cs|
      requires Entry(maxValue, maxType) == LineBest(TableView(), cs)
      ensures addr' == Pack(cs + [CellCode(me, cell)]) % WORD && k' == k + 2
      ensures Entry(maxValue', maxType') == LineBest(TableView(), cs + [CellCode(me, cell)])
    {
      ShiftOrStep(addr, cs, CellCode(me, cell));
      addr' := ShiftCell(addr, cell, me, opponent);
      ScanStep(TableView(), addr', cs, CellCode(me, cell));
      k' := k + 2;
      maxValue', maxType' := maxValue, maxType;
      if k' >= BIT_DATA_LENGTH {
        maxValue', maxType' := KeepBetter(BitAnd(addr', BIT_DATA_SIZE), maxValue, maxType);
      }
    }

    /** `addr <<= 2`, then `|= 1` on an own stone and `|= 2` on an opponent's stone. */
    static method ShiftCell(addr: nat, cell: Stone, me: Stone, opponent: Stone) returns (r: nat)
      requires opponent == Other(me)
      ensures r == BitOr(Shl2(addr), CellCode(me, cell))
    {
      r := Shl2(addr);
      if cell == me {
        r := BitOr(r, 1);
      }
      if cell == opponent {
        r := BitOr(r, 2);
      }
    }

    /** Looks up a table slot and keeps it when its score is strictly greater than the best so far. */
    method KeepBetter(idx: nat, maxValue: int, maxType: PatternType) returns (value: int, kind: PatternType)
      requires TablesSized() && idx < BIT_DATA_SIZE
      ensures Entry(value, kind) == Better(Entry(maxValue, maxType), Lookup(TableView(), idx))
    {
      value, kind := maxValue, maxType;
      var v := scoreTable[idx];
      if v > maxValue {
        value := v;
        kind := scoreTypeTable[idx];
      }
    }

    /** One label's `switch`: the counter for its open four, open three, half-open three, half-open two or open two goes up. */
    static method CountKind(k: PatternType, four: nat, three: nat, halfThree: nat, two: nat, halfTwo: nat)
      returns (four': nat, three': nat, halfThree': nat, two': nat, halfTwo': nat)
      ensures four' == four + (if k == OPEN_FOUR then 1 else 0)
      ensures three' == three + (if k == OPEN_THREE then 1 else 0)
      ensures halfThree' == halfThree + (if k == HALF_OPEN_THREE then 1 else 0)
      ensures two' == two + (if k == OPEN_TWO then 1 else 0)
      ensures halfTwo' == halfTwo + (if k == HALF_OPEN_TWO then 1 else 0)
    {
      four', three', halfThree', two', halfTwo' := four, three, halfThree, two, halfTwo;
      match k
      case OPEN_FOUR => four' := four' + 1;
      case OPEN_THREE => three' := three' + 1;
      case HALF_OPEN_THREE => halfThree' := halfThree' + 1;
      case HALF_OPEN_TWO => halfTwo' := halfTwo' + 1;
      case OPEN_TWO => two' := two' + 1;
      case _ =>
    }

    /** The tail shared by the board and point scores: the best directional score, raised by the first matching combination rule. */
    static method CombineScores(row: Entry, column: Entry, diagonal: Entry, antiDiagonal: Entry) returns (value: int)
      ensures value == Combine(row, column, diagonal, antiDiagonal)
    {
      var best := Max(row.score, Max(column.score, Max(diagonal.score, antiDiagonal.score)));
      var four, three, halfThree, two, halfTwo := 0, 0, 0, 0, 0;
      four, three, halfThree, two, halfTwo := CountKind(row.kind, four, three, halfThree, two, halfTwo);
      four, three, halfThree, two, halfTwo := CountKind(column.kind, four, three, halfThree, two, halfTwo);
      four, three, halfThree, two, halfTwo := CountKind(diagonal.kind, four, three, halfThree, two, halfTwo);
      four, three, halfThree, two, halfTwo := CountKind(antiDiagonal.kind, four, three, halfThree, two, halfTwo);
      TallyFour(row.kind, column.kind, diagonal.kind, antiDiagonal.kind, OPEN_FOUR);
      TallyFour(row.kind, column.kind, diagonal.kind, antiDiagonal.kind, OPEN_THREE);
      TallyFour(row.kind, column.kind, diagonal.kind, antiDiagonal.kind, HALF_OPEN_THREE);
      TallyFour(row.kind, column.kind, diagonal.kind, antiDiagonal.kind, OPEN_TWO);
      TallyFour(row.kind, column.kind, diagonal.kind, antiDiagonal.kind, HALF_OPEN_TWO);
      if four >= 2 {
        return Max(best, 10000);
      }
      if four >= 1 && three >= 1 {
        return Max(best, 10000);
      }
      if three >= 2 {
        return Max(best, 5000);
      }
      if three >= 1 && halfThree >= 1 {
        return Max(best, 1000);
      }
      if two >= 2 {
        return Max(best, 100);
      }
      if two >= 1 && halfTwo >= 1 {
        return Max(best, 10);
      }
      return best;
    }

    /** The best entry of the row (0), column (1), diagonal (2) or anti-diagonal (3) through (x, y). */
    method ScorePointDir(board: array2<Stone>, player: Stone, dir: int, x: int, y: int) returns (score: int, kind: PatternType)
      requires TablesSized() && board.Length0 == BOARD_SIZE && board.Length1 == BOARD_SIZE && InBounds(x, y)
      ensures Entry(score, kind) == DirBest(TableView(), Snapshot(board), player, dir, x, y)
    {
      // the first cell and the step of the line, as each branch of the source sets them up
      var startX, startY, dx, dy := 0, 0, 0, 0;
      if dir == 0 {
        startX, startY, dx, dy := 0, y, 1, 0;
      } else if dir == 1 {
        startX, startY, dx, dy := x, 0, 0, 1;
      } else if dir == 2 {
        if x < y {
          startY := y - x;
        } else {
          startX := x - y;
        }
        dx, dy := 1, 1;
      } else if dir == 3 {
        startX, startY := BOARD_SIZE - 1, 0;
        if BOARD_SIZE - 1 - x < y {
          startY := y - (BOARD_SIZE - 1 - x);
        } else {
          startX := x + y;
        }
        dx, dy := -1, 1;
      }
      var best := Entry(0, NONE);
      if 0 <= dir <= 3 {
        assert (startX, startY, dx, dy) == DirStart(dir, x, y);
        best := ScanLine(board, player, startX, startY, dx, dy);
      }
      score, kind := best.score, best.kind;
    }

    /** The value of (x, y) for `player`: its four lines' best entries, combined. */
    method ScorePoint(board: array2<Stone>, player: Stone, x: int, y: int) returns (value: int)
      requires TablesSized() && board.Length0 == BOARD_SIZE && board.Length1 == BOARD_SIZE && InBounds(x, y)
      ensures value == ScorePointSpec(TableView(), Snapshot(board), player, x, y)
    {
      var rowScore, rowType := ScorePointDir(board, player, 0, x, y);
      var columnScore, columnType := ScorePointDir(board, player, 1, x, y);
      var diagonalScore, diagonalType := ScorePointDir(board, player, 2, x, y);
      var antiDiagonalScore, antiDiagonalType := ScorePointDir(board, player, 3, x, y);
      value := CombineScores(Entry(rowScore, rowType), Entry(columnScore, columnType),
                             Entry(diagonalScore, diagonalType), Entry(antiDiagonalScore, antiDiagonalType));
    }

    /** A cache's board score: the first best row, column, diagonal and anti-diagonal slot, combined. */
    static method ScoreChess(cache: ScoreCache) returns (value: int)
      requires cache.Valid()
      ensures value == ScoreChessSpec(cache.View())
    {
      ghost var c := cache.View();
      var bestRow, bestColumn, bestDiagonal, bestAntiDiagonal := Entry(0, NONE), Entry(0, NONE), Entry(0, NONE), Entry(0, NONE);
      for i := 0 to BOARD_SIZE
        invariant bestRow == FirstMax(c.horizontal[..i]) && bestColumn == FirstMax(c.vertical[..i])
      {
        FirstMaxPrefix(c.horizontal, i);
        FirstMaxPrefix(c.vertical, i);
        if cache.horizontalScore[i] > bestRow.score {
          bestRow := Entry(cache.horizontalScore[i], cache.horizontalType[i]);
        }
        if cache.verticalScore[i] > bestColumn.score {
          bestColumn := Entry(cache.verticalScore[i], cache.verticalType[i]);
        }
      }
      for i := 0 to 2 * BOARD_SIZE - 1
        invariant bestDiagonal == FirstMax(c.diagonal[..i]) && bestAntiDiagonal == FirstMax(c.antiDiagonal[..i])
      {
        FirstMaxPrefix(c.diagonal, i);
        FirstMaxPrefix(c.antiDiagonal, i);
        if cache.diagonalScore[i] > bestDiagonal.score {
          bestDiagonal := Entry(cache.diagonalScore[i], cache.diagonalType[i]);
        }
        if cache.antiDiagonalScore[i] > bestAntiDiagonal.score {
          bestAntiDiagonal := Entry(cache.antiDiagonalScore[i], cache.antiDiagonalType[i]);
        }
      }
      assert c.horizontal[..BOARD_SIZE] == c.horizontal && c.vertical[..BOARD_SIZE] == c.vertical;
      assert c.diagonal[..2 * BOARD_SIZE - 1] == c.diagonal && c.antiDiagonal[..2 * BOARD_SIZE - 1] == c.antiDiagonal;
      value := CombineScores(bestRow, bestColumn, bestDiagonal, bestAntiDiagonal);
    }

    /**
     * Rescans the row, column, diagonal and anti-diagonal through (x, y) for
     * `player` into their cache slots; the slot numbers are computed from each
     * line's first cell as the source does, and agree with DiagIndex and AntiIndex.
     */
    method ScoreChessPointToCache(board: array2<Stone>, player: Stone, x: int, y: int, cache: ScoreCache)
      requires TablesSized() && board.Length0 == BOARD_SIZE && board.Length1 == BOARD_SIZE && InBounds(x, y)
      requires cache.Valid() && {scoreTable, scoreTypeTable} !! cache.Arrays()
      modifies cache.Arrays()
      ensures cache.View() == PointUpdate(old(cache.View()), old(TableView()), old(Snapshot(board)), player, x, y)
    {
      ghost var g, t := Snapshot(board), TableView();
      // the scans read only the board and the tables, so all four run before the slots are written
      var row := ScanLine(board, player, 0, y, 1, 0);
      var column := ScanLine(board, player, x, 0, 0, 1);
      var startX, startY, index := DiagonalStart(x, y);
      var diagonal := ScanLine(board, player, startX, startY, 1, 1);
      var currentX, currentY, index' := AntiDiagonalStart(x, y);
      var antiDiagonal := ScanLine(board, player, currentX, currentY, -1, 1);
      assert row == DirBest(t, g, player, 0, x, y) && column == DirBest(t, g, player, 1, x, y);
      assert diagonal == DirBest(t, g, player, 2, x, y) && antiDiagonal == DirBest(t, g, player, 3, x, y);
      cache.SetHorizontal(y, row);
      cache.SetVertical(x, column);
      cache.SetDiagonal(index, diagonal);
      cache.SetAntiDiagonal(index', antiDiagonal);
    }

    /** The first cell of the diagonal through (x, y) and its cache slot, by the source's formulas. */
    static method DiagonalStart(x: int, y: int) returns (startX: int, startY: int, index: int)
      requires InBounds(x, y)
      ensures (startX, startY, 1, 1) == DirStart(2, x, y) && index == DiagIndex(x, y)
    {
      startX, startY := 0, 0;
      if x < y {
        startY := y - x;
      } else {
        startX := x - y;
      }
      index := if startY == 0 then startX else BOARD_SIZE + startY - 1;
    }

    /** The first cell of the anti-diagonal through (x, y) and its cache slot, by the source's formulas. */
    static method AntiDiagonalStart(x: int, y: int) returns (currentX: int, currentY: int, index: int)
      requires InBounds(x, y)
      ensures (currentX, currentY, -1, 1) == DirStart(3, x, y) && index == AntiIndex(x, y)
    {
      currentX, currentY := BOARD_SIZE - 1, 0;
      if BOARD_SIZE - 1 - x < y {
        currentY := y - (BOARD_SIZE - 1 - x);
      } else {
        currentX := x + y;
      }
      index := if currentY == 0 then 18 - currentX else currentY + BOARD_SIZE - 1;
    }

    /** Rescans the whole board for `player` into the cache, pass by pass as the source does. */
    method ScoreChessToCache(board: array2<Stone>, player: Stone, cache: ScoreCache)
      requires TablesSized() && board.Length0 == BOARD_SIZE && board.Length1 == BOARD_SIZE
      requires cache.Valid() && {scoreTable, scoreTypeTable} !! cache.Arrays()
      modifies cache.Arrays()
      ensures cache.View() == FullScanView(old(cache.View()), old(TableView()), old(Snapshot(board)), player)
    {
      ghost var c0, t, g := cache.View(), TableView(), Snapshot(board);
      FillRows(board, player, cache);
      FillColumns(board, player, cache);
      FillLowerDiagonals(board, player, cache, false);
      FillUpperDiagonals(board, player, cache, false);
      FillLowerDiagonals(board, player, cache, true);
      FillUpperDiagonals(board, player, cache, true);
      ghost var want := FullScanView(c0, t, g, player);
      assert cache.View().horizontal == want.horizontal;
      assert cache.View().vertical == want.vertical;
      assert cache.View().diagonal == want.diagonal;
    }

    /** The row pass: row slot i gets the best entry of row i. */
    method FillRows(board: array2<Stone>, me: Stone, cache: ScoreCache)
      requires TablesSized() && board.Length0 == BOARD_SIZE && board.Length1 == BOARD_SIZE
      requires cache.Valid() && {scoreTable, scoreTypeTable} !! cache.Arrays()
      modifies cache.horizontalScore, cache.horizontalType
      ensures forall i :: 0 <= i < BOARD_SIZE ==>
        cache.View().horizontal[i] == LineBest(old(TableView()), Line(old(Snapshot(board)), me, 0, i, 1, 0))
      ensures cache.View().vertical == old(cache.View()).vertical && cache.View().diagonal == old(cache.View()).diagonal
      ensures cache.View().antiDiagonal == old(cache.View()).antiDiagonal
    {
      ghost var c0, t, g := cache.View(), TableView(), Snapshot(board);
      ghost var h := c0.horizontal;
      for i := 0 to BOARD_SIZE
        invariant cache.View() == c0.(horizontal := h) && |h| == BOARD_SIZE
        invariant TableView() == t && Snapshot(board) == g
        invariant forall k :: 0 <= k < i ==> h[k] == LineBest(t, Line(g, me, 0, k, 1, 0))
      {
        var best := ScanLine(board, me, 0, i, 1, 0);
        cache.SetHorizontal(i, best);
        h := h[i := best];
      }
    }

    /** The column pass: column slot i gets the best entry of column i. */
    method FillColumns(board: array2<Stone>, me: Stone, cache: ScoreCache)
      requires TablesSized() && board.Length0 == BOARD_SIZE && board.Length1 == BOARD_SIZE
      requires cache.Valid() && {scoreTable, scoreTypeTable} !! cache.Arrays()
      modifies cache.verticalScore, cache.verticalType
      ensures forall i :: 0 <= i < BOARD_SIZE ==>
        cache.View().vertical[i] == LineBest(old(TableView()), Line(old(Snapshot(board)), me, i, 0, 0, 1))
      ensures cache.View().horizontal == old(cache.View()).horizontal && cache.View().diagonal == old(cache.View()).diagonal
      ensures cache.View().antiDiagonal == old(cache.View()).antiDiagonal
    {
      ghost var c0, t, g := cache.View(), TableView(), Snapshot(board);
      ghost var v := c0.vertical;
      for i := 0 to BOARD_SIZE
        invariant cache.View() == c0.(vertical := v) && |v| == BOARD_SIZE
        invariant TableView() == t && Snapshot(board) == g
        invariant forall k :: 0 <= k < i ==> v[k] == LineBest(t, Line(g, me, k, 0, 0, 1))
      {
        var best := ScanLine(board, me, i, 0, 0, 1);
        cache.SetVertical(i, best);
        v := v[i := best];
      }
    }

    /** The lower diagonal pass, or with `anti` the lower anti-diagonal pass, into diagonal slots 0..18. */
    method FillLowerDiagonals(board: array2<Stone>, me: Stone, cache: ScoreCache, anti: bool)
      requires TablesSized() && board.Length0 == BOARD_SIZE && board.Length1 == BOARD_SIZE
      requires cache.Valid() && {scoreTable, scoreTypeTable} !! cache.Arrays()
      modifies cache.diagonalScore, cache.diagonalType
      ensures forall s :: 0 <= s < BOARD_SIZE ==>
        cache.View().diagonal[s] == DiagonalPass(old(TableView()), old(Snapshot(board)), me, anti, s)
      ensures forall s :: BOARD_SIZE <= s < 2 * BOARD_SIZE - 1 ==> cache.View().diagonal[s] == old(cache.View()).diagonal[s]
      ensures cache.View().horizontal == old(cache.View()).horizontal && cache.View().vertical == old(cache.View()).vertical
      ensures cache.View().antiDiagonal == old(cache.View()).antiDiagonal
    {
      ghost var c0, t, g := cache.View(), TableView(), Snapshot(board);
      ghost var d := c0.diagonal;
      for i := 0 to BOARD_SIZE
        invariant cache.View() == c0.(diagonal := d) && |d| == 2 * BOARD_SIZE - 1
        invariant TableView() == t && Snapshot(board) == g
        invariant forall s :: 0 <= s < i ==> d[s] == DiagonalPass(t, g, me, anti, s)
        invariant forall s :: BOARD_SIZE <= s < 2 * BOARD_SIZE - 1 ==> d[s] == c0.diagonal[s]
      {
        var best := DiagonalEntry(board, me, anti, i);
        cache.SetDiagonal(i, best);
        d := d[i := best];
      }
    }

    /** The upper diagonal pass, or with `anti` the pass from (18, i), into diagonal slots 19..36. */
    method FillUpperDiagonals(board: array2<Stone>, me: Stone, cache: ScoreCache, anti: bool)
      requires TablesSized() && board.Length0 == BOARD_SIZE && board.Length1 == BOARD_SIZE
      requires cache.Valid() && {scoreTable, scoreTypeTable} !! cache.Arrays()
      modifies cache.diagonalScore, cache.diagonalType
      ensures forall s :: BOARD_SIZE <= s < 2 * BOARD_SIZE - 1 ==>
        cache.View().diagonal[s] == DiagonalPass(old(TableView()), old(Snapshot(board)), me, anti, s)
      ensures forall s :: 0 <= s < BOARD_SIZE ==> cache.View().diagonal[s] == old(cache.View()).diagonal[s]
      ensures cache.View().horizontal == old(cache.View()).horizontal && cache.View().vertical == old(cache.View()).vertical
      ensures cache.View().antiDiagonal == old(cache.View()).antiDiagonal
    {
      ghost var c0, t, g := cache.View(), TableView(), Snapshot(board);
      ghost var d := c0.diagonal;
      for i := 1 to BOARD_SIZE
        invariant cache.View() == c0.(diagonal := d) && |d| == 2 * BOARD_SIZE - 1
        invariant TableView() == t && Snapshot(board) == g
        invariant forall s :: BOARD_SIZE <= s < i + BOARD_SIZE - 1 ==> d[s] == DiagonalPass(t, g, me, anti, s)
        invariant forall s :: 0 <= s < BOARD_SIZE ==> d[s] == c0.diagonal[s]
      {
        var best := DiagonalEntry(board, me, anti, i + BOARD_SIZE - 1);
        cache.SetDiagonal(i + BOARD_SIZE - 1, best);
        d := d[i + BOARD_SIZE - 1 := best];
      }
    }

    /** The entry the diagonal passes store in diagonal slot s: the best entry of the line that slot's loop step scans. */
    method DiagonalEntry(board: array2<Stone>, me: Stone, anti: bool, s: int) returns (best: Entry)
      requires TablesSized() && board.Length0 == BOARD_SIZE && board.Length1 == BOARD_SIZE
      ensures best == DiagonalPass(TableView(), Snapshot(board), me, anti, s)
    {
      if s < BOARD_SIZE {
        if anti {
          best := ScanLine(board, me, BOARD_SIZE - 1 - s, 0, -1, 1);
        } else {
          best := ScanLine(board, me, s, 0, 1, 1);
        }
      } else {
        var i := s - (BOARD_SIZE - 1);
        if anti {
          best := ScanLine(board, me, BOARD_SIZE - 1, i, 1, 1);
        } else {
          best := ScanLine(board, me, 0, i, 1, 1);
        }
      }
    }

    /**
     * The leaf evaluation: copies of both caches get every cell where the board
     * differs from the root copy rescanned, in row-major order, and maxPlayer's
     * board score minus the other side's is returned.
     */
    method EvaluateMinMax(board: array2<Stone>, maxPlayer: Stone) returns (v: int)
      requires Valid() && board.Length0 == BOARD_SIZE && board.Length1 == BOARD_SIZE
      ensures v == Evaluation(TableView(), Snapshot(boardBackup), blackCache.View(), whiteCache.View(), Snapshot(board), maxPlayer)
    {
      var blackMax := RescoreCopy(board, BLACK, blackCache);
      var whiteMax := RescoreCopy(board, WHITE, whiteCache);
      if maxPlayer == BLACK {
        v := blackMax - whiteMax;
      } else {
        v := whiteMax - blackMax;
      }
    }

    /** One side's half of the evaluation: a copy of its cache is brought up to date with the board and scored. */
    method RescoreCopy(board: array2<Stone>, me: Stone, cache: ScoreCache) returns (value: int)
      requires TablesSized() && board.Length0 == BOARD_SIZE && board.Length1 == BOARD_SIZE
      requires boardBackup.Length0 == BOARD_SIZE && boardBackup.Length1 == BOARD_SIZE && cache.Valid()
      ensures value == ScoreChessSpec(UpdatedFrom(cache.View(), TableView(), Snapshot(board), me, Snapshot(boardBackup), BOARD_SIZE))
    {
      var copy := new ScoreCache.Copy(cache);
      RescanChanged(board, me, copy);
      value := ScoreChess(copy);
    }

    /** Rescans, in row-major order, every cell where the board differs from the root copy into one side's cache. */
    method RescanChanged(board: array2<Stone>, me: Stone, cache: ScoreCache)
      requires TablesSized() && board.Length0 == BOARD_SIZE && board.Length1 == BOARD_SIZE
      requires boardBackup.Length0 == BOARD_SIZE && boardBackup.Length1 == BOARD_SIZE
      requires cache.Valid() && {scoreTable, scoreTypeTable} !! cache.Arrays()
      modifies cache.Arrays()
      ensures cache.View()
        == UpdatedFrom(old(cache.View()), old(TableView()), old(Snapshot(board)), me, old(Snapshot(boardBackup)), BOARD_SIZE)
    {
      ghost var c0, t, g, backup := cache.View(), TableView(), Snapshot(board), Snapshot(boardBackup);
      assert board !in cache.Arrays() && boardBackup !in cache.Arrays();
      for i := 0 to BOARD_SIZE
        invariant TableView() == t && Snapshot(board) == g && Snapshot(boardBackup) == backup
        invariant cache.View() == UpdatedFrom(c0, t, g, me, backup, i)
      {
        RescanRow(board, me, i, cache, t, g, backup, UpdatedFrom(c0, t, g, me, backup, i));
      }
    }

    /** Row i of the rescan, starting from cache contents c0. */
    method RescanRow(board: array2<Stone>, me: Stone, i: int, cache: ScoreCache,
                     ghost t: Tables, ghost g: Grid, ghost backup: Grid, ghost c0: CacheView)
      requires TablesSized() && board.Length0 == BOARD_SIZE && board.Length1 == BOARD_SIZE && 0 <= i < BOARD_SIZE
      requires boardBackup.Length0 == BOARD_SIZE && boardBackup.Length1 == BOARD_SIZE
      requires cache.Valid() && {scoreTable, scoreTypeTable} !! cache.Arrays()
      requires board !in cache.Arrays() && boardBackup !in cache.Arrays()
      requires TableView() == t && Snapshot(board) == g && Snapshot(boardBackup) == backup && Shaped(c0)
      requires cache.View() == c0
      modifies cache.Arrays()
      ensures cache.View() == RowRescan(c0, t, g, me, backup, i, BOARD_SIZE)
    {
      for j := 0 to BOARD_SIZE
        invariant TableView() == t && Snapshot(board) == g && Snapshot(boardBackup) == backup
        invariant cache.View() == RowRescan(c0, t, g, me, backup, i, j)
      {
        RescanCell(board, me, i, j, cache, t, g, backup, RowRescan(c0, t, g, me, backup, i, j));
      }
    }

    /** One cell of the rescan: a cell where the board differs from the root copy has its four lines rescanned. */
    method RescanCell(board: array2<Stone>, me: Stone, i: int, j: int, cache: ScoreCache,
                      ghost t: Tables, ghost g: Grid, ghost backup: Grid, ghost c: CacheView)
      requires TablesSized() && board.Length0 == BOARD_SIZE && board.Length1 == BOARD_SIZE && InBounds(i, j)
      requires boardBackup.Length0 == BOARD_SIZE && boardBackup.Length1 == BOARD_SIZE
      requires cache.Valid() && {scoreTable, scoreTypeTable} !! cache.Arrays()
      requires TableView() == t && Snapshot(board) == g && Snapshot(boardBackup) == backup && Shaped(c)
      requires cache.View() == c
      modifies cache.Arrays()
      ensures cache.View() == CellRescan(c, t, g, me, backup, i, j)
    {
      if board[i, j] != boardBackup[i, j] {
        ScoreChessPointToCache(board, me, i, j, cache);
      }
    }

    /** The stone of the first cell, in row-major order, that holds a stone completing five; EMPTY if none. */
    static method GetWinner(board: array2<Stone>) returns (w: Stone)
      requires board.Length0 == BOARD_SIZE && board.Length1 == BOARD_SIZE
      ensures w == Winner(Snapshot(board))
    {
      for x := 0 to BOARD_SIZE
        invariant WinnerUpTo(Snapshot(board), x * BOARD_SIZE) == EMPTY
      {
        w := RowWinner(board, x, Snapshot(board));
        if Code(w) != 0 {
          WinnerStays(Snapshot(board), x * BOARD_SIZE + BOARD_SIZE, CELLS);
          return;
        }
        assert (x + 1) * BOARD_SIZE == x * BOARD_SIZE + BOARD_SIZE;
      }
      return EMPTY;
    }

    /** Row x of the winner scan, given no winner in the rows before it. */
    static method RowWinner(board: array2<Stone>, x: int, ghost g: Grid) returns (w: Stone)
      requires board.Length0 == BOARD_SIZE && board.Length1 == BOARD_SIZE && 0 <= x < BOARD_SIZE
      requires Snapshot(board) == g && WinnerUpTo(g, x * BOARD_SIZE) == EMPTY
      ensures w == WinnerUpTo(g, x * BOARD_SIZE + BOARD_SIZE)
    {
      ghost var base := x * BOARD_SIZE;
      for y := 0 to BOARD_SIZE
        invariant WinnerUpTo(g, base + y) == EMPTY
      {
        var stone, win := CellWins(board, x, y);
        if win {
          WinnerUpToStep(g, x, y, true);
          WinnerFoundInRow(g, x, y);
          return stone;
        }
        WinnerUpToStep(g, x, y, false);
      }
      return EMPTY;
    }

    /** The cell's stone, and whether it is a stone with five in a row through it by the game's win test. */
    static method CellWins(board: array2<Stone>, x: int, y: int) returns (stone: Stone, win: bool)
      requires board.Length0 == BOARD_SIZE && board.Length1 == BOARD_SIZE && InBounds(x, y)
      ensures stone == Snapshot(board)[x][y]
      ensures win == (stone != EMPTY && Game.WinAt(Snapshot(board), x, y))
    {
      stone, win := board[x, y], false;
      if Code(stone) != 0 {
        win := Game.Game.IsWin(board, x, y);
      }
    }

    /**
     * The sorted insertion walk of the candidate list: step past the entries
     * whose value is greater, and insert the new entry before the first one that
     * is not (or at the end).
     */
    static method InsertCandidate(cs: seq<Candidate>, c: Candidate) returns (r: seq<Candidate>)
      ensures r == Insert(cs, c)
    {
      var i := 0;
      while i < |cs| && cs[i].value > c.value
        invariant 0 <= i <= |cs| && forall k :: 0 <= k < i ==> cs[k].value > c.value
      {
        i := i + 1;
      }
      assert i == InsertIndex(cs, c);
      r := cs[..i] + [c] + cs[i..];
    }

    /**
     * The candidate list for `player`: every empty cell near a stone, in row-major
     * order, scored with `player` tried there and inserted by value.
     */
    method SearchCandidatePosition(board: array2<Stone>, player: Stone) returns (cs: seq<Candidate>)
      requires TablesSized() && board.Length0 == BOARD_SIZE && board.Length1 == BOARD_SIZE
      modifies board
      ensures Snapshot(board) == old(Snapshot(board))
      ensures cs == CandidateList(old(TableView()), old(Snapshot(board)), player)
    {
      ghost var g, t := Snapshot(board), TableView();
      ghost var vs := CellValues(t, g, player);
      cs := [];
      ghost var k := 0;
      for i := 0 to BOARD_SIZE
        invariant Snapshot(board) == g && TableView() == t
        invariant k == i * BOARD_SIZE && cs == CandidatesUpTo(g, vs, k)
      {
        cs := CandidateRow(board, player, i, cs, g, t, vs, k);
        k := k + BOARD_SIZE;
      }
    }

    /** Row i of the candidate scan, whose first cell is number k. */
    method CandidateRow(board: array2<Stone>, player: Stone, i: int, cs: seq<Candidate>,
                        ghost g: Grid, ghost t: Tables, ghost vs: seq<int>, ghost k: nat)
      returns (cs': seq<Candidate>)
      requires TablesSized() && board.Length0 == BOARD_SIZE && board.Length1 == BOARD_SIZE && 0 <= i < BOARD_SIZE
      requires Snapshot(board) == g && TableView() == t && vs == CellValues(t, g, player)
      requires k == i * BOARD_SIZE && cs == CandidatesUpTo(g, vs, k)
      modifies board
      ensures Snapshot(board) == g
      ensures cs' == CandidatesUpTo(g, vs, k + BOARD_SIZE)
    {
      cs' := cs;
      ghost var n := k;
      for j := 0 to BOARD_SIZE
        invariant Snapshot(board) == g && TableView() == t
        invariant n == k + j && cs' == CandidatesUpTo(g, vs, n)
      {
        cs' := TryCandidate(board, player, i, j, cs', g, t, vs, n);
        n := n + 1;
      }
    }

    /** One cell of the candidate scan: an empty cell near a stone is scored with `player` tried there and inserted. */
    method TryCandidate(board: array2<Stone>, player: Stone, i: int, j: int, cs: seq<Candidate>,
                        ghost g: Grid, ghost t: Tables, ghost vs: seq<int>, ghost k: nat)
      returns (cs': seq<Candidate>)
      requires TablesSized() && board.Length0 == BOARD_SIZE && board.Length1 == BOARD_SIZE && InBounds(i, j)
      requires Snapshot(board) == g && TableView() == t && vs == CellValues(t, g, player) && k == i * BOARD_SIZE + j
      requires cs == CandidatesUpTo(g, vs, k)
      modifies board
      ensures Snapshot(board) == g
      ensures cs' == CandidatesUpTo(g, vs, k + 1)
    {
      CellOfKey(i, j);
      assert CandidatesUpTo(g, vs, k + 1) == CellStep(g, vs, cs, k + 1);
      cs' := cs;
      var valid := board[i, j] == EMPTY;
      if valid {
        valid := IsValidPosition(board, i, j);
      }
      if valid {
        var value := TryValue(board, player, i, j, g, t);
        cs' := InsertCandidate(cs, Candidate(i, j, value));
      }
    }

    /** The value of cell (i, j) for `player`: the stone is placed there, the point scored, and the stone removed again. */
    method TryValue(board: array2<Stone>, player: Stone, i: int, j: int, ghost g: Grid, ghost t: Tables) returns (value: int)
      requires TablesSized() && board.Length0 == BOARD_SIZE && board.Length1 == BOARD_SIZE && InBounds(i, j)
      requires Snapshot(board) == g && TableView() == t && g[i][j] == EMPTY
      modifies board
      ensures Snapshot(board) == g
      ensures value == CellValue(t, g, player, i, j)
    {
      board[i, j] := player;
      GridExt(Snapshot(board), Place(g, i, j, player));
      value := ScorePoint(board, player, i, j);
      board[i, j] := EMPTY;
      GridExt(Snapshot(board), g);
    }

    /**
     * The search: at depth 0 or once someone has five in a row, the leaf
     * evaluation; otherwise the candidates for `player` are tried in order, each
     * placed, searched one level deeper and removed again, with cut-offs.
     */
    method MinMax(board: array2<Stone>, depth: nat, maxPlayer: Stone, player: Stone, alpha: int, beta: int) returns (v: int)
      requires Valid() && board.Length0 == BOARD_SIZE && board.Length1 == BOARD_SIZE && board != boardBackup
      modifies board
      ensures Snapshot(board) == old(Snapshot(board))
      ensures v == AlphaBeta(old(CurrentEnv()), old(Snapshot(board)), depth, maxPlayer, player, alpha, beta)
      decreases depth, 1
    {
      if depth == 0 {
        v := EvaluateMinMax(board, maxPlayer);
        return;
      }
      var winner := GetWinner(board);
      if Code(winner) != 0 {
        v := EvaluateMinMax(board, maxPlayer);
        return;
      }
      ghost var g, e := Snapshot(board), CurrentEnv();
      var cs := SearchCandidatePosition(board, player);
      CandidateListSpec(TableView(), g, player);
      if player == maxPlayer {
        v := MaxChildren(board, depth, maxPlayer, player, cs, alpha, beta, e, g);
      } else {
        v := MinChildren(board, depth, maxPlayer, player, cs, alpha, beta, e, g);
      }
    }

    /** The maximising walk over the candidates: best and alpha rise with each child, and beta <= alpha stops it. */
    method MaxChildren(board: array2<Stone>, depth: nat, maxPlayer: Stone, player: Stone, cs: seq<Candidate>,
                       alpha: int, beta: int, ghost e: Env, ghost g: Grid) returns (best: int)
      requires Valid() && board.Length0 == BOARD_SIZE && board.Length1 == BOARD_SIZE && board != boardBackup && depth >= 1
      requires CurrentEnv() == e && Snapshot(board) == g
      requires forall i :: 0 <= i < |cs| ==> IsCandidateCell(g, cs[i].row, cs[i].column)
      modifies board
      ensures Snapshot(board) == g
      ensures best == MaxLoop(e, g, depth, maxPlayer, player, cs, INT_MIN, alpha, beta)
      decreases depth, 0
    {
      ghost var r := MaxLoop(e, g, depth, maxPlayer, player, cs, INT_MIN, alpha, beta);
      best := INT_MIN;
      var a := alpha;
      var i := 0;
      ghost var rest := cs;
      while i < |cs|
        invariant 0 <= i <= |cs| && rest == cs[i..] && Snapshot(board) == g && CurrentEnv() == e
        invariant MaxLoop(e, g, depth, maxPlayer, player, rest, best, a, beta) == r
      {
        var value := ChildValue(board, depth - 1, maxPlayer, player, cs[i], a, beta, e, g);
        MaxLoopStep(e, g, depth, maxPlayer, player, rest, best, a, beta, value);
        best := Max(best, value);
        a := Max(a, best);
        if beta <= a {
          break;
        }
        i, rest := i + 1, rest[1..];
      }
    }

    /** The minimising walk over the candidates: best and beta fall with each child, and beta <= alpha stops it. */
    method MinChildren(board: array2<Stone>, depth: nat, maxPlayer: Stone, player: Stone, cs: seq<Candidate>,
                       alpha: int, beta: int, ghost e: Env, ghost g: Grid) returns (best: int)
      requires Valid() && board.Length0 == BOARD_SIZE && board.Length1 == BOARD_SIZE && board != boardBackup && depth >= 1
      requires CurrentEnv() == e && Snapshot(board) == g
      requires forall i :: 0 <= i < |cs| ==> IsCandidateCell(g, cs[i].row, cs[i].column)
      modifies board
      ensures Snapshot(board) == g
      ensures best == MinLoop(e, g, depth, maxPlayer, player, cs, INT_MAX, alpha, beta)
      decreases depth, 0
    {
      ghost var r := MinLoop(e, g, depth, maxPlayer, player, cs, INT_MAX, alpha, beta);
      best := INT_MAX;
      var b := beta;
      var i := 0;
      ghost var rest := cs;
      while i < |cs|
        invariant 0 <= i <= |cs| && rest == cs[i..] && Snapshot(board) == g && CurrentEnv() == e
        invariant MinLoop(e, g, depth, maxPlayer, player, rest, best, alpha, b) == r
      {
        var value := ChildValue(board, depth - 1, maxPlayer, player, cs[i], alpha, b, e, g);
        MinLoopStep(e, g, depth, maxPlayer, player, rest, best, alpha, b, value);
        best := Min(best, value);
        b := Min(b, best);
        if b <= alpha {
          break;
        }
        i, rest := i + 1, rest[1..];
      }
    }

    /**
     * The engine's move for `player`: the centre on an empty board; otherwise the
     * board is backed up, both caches are filled by the full scan, and every empty
     * cell near a stone is searched with the full window, the best value winning
     * (an equal value wins when the tie-break accepts the cell). Returns 0, leaving
     * x and y as they came in (x0, y0), when no cell was taken.
     */
    method AlphaBetaGo(board: array2<Stone>, player: Stone, tie: (int, int) -> bool, x0: int, y0: int)
      returns (r: int, x: int, y: int)
      requires Valid() && Bounded() && board.Length0 == BOARD_SIZE && board.Length1 == BOARD_SIZE && board != boardBackup
      modifies board, boardBackup, blackCache.Arrays(), whiteCache.Arrays()
      ensures Valid() && Bounded() && Snapshot(board) == old(Snapshot(board)) && TableView() == old(TableView())
      ensures IsEmptyBoard(old(Snapshot(board))) ==>
        r == 1 && x == BOARD_SIZE / 2 && y == BOARD_SIZE / 2
        && Snapshot(boardBackup) == old(Snapshot(boardBackup))
        && blackCache.View() == old(blackCache.View()) && whiteCache.View() == old(whiteCache.View())
      ensures !IsEmptyBoard(old(Snapshot(board))) ==>
        Snapshot(boardBackup) == old(Snapshot(board))
        && blackCache.View() == FullScanView(old(blackCache.View()), TableView(), old(Snapshot(board)), BLACK)
        && whiteCache.View() == FullScanView(old(whiteCache.View()), TableView(), old(Snapshot(board)), WHITE)
        && var b := RootChoice(CurrentEnv(), old(Snapshot(board)), player, tie);
           (r == 1 <==> b.x != -1) && (r == 1 ==> x == b.x && y == b.y) && (r == 0 ==> x == x0 && y == y0)
      ensures !IsEmptyBoard(old(Snapshot(board))) ==>
        var g, e := old(Snapshot(board)), CurrentEnv();
        (r == 1 ==>
          IsCandidateCell(g, x, y)
          && forall a, b :: IsCandidateCell(g, a, b) ==> MoveValue(e, g, player, a, b) <= MoveValue(e, g, player, x, y))
        && (r == 0 ==> forall a, b :: IsCandidateCell(g, a, b) ==> MoveValue(e, g, player, a, b) == INT_MIN && !tie(a, b))
    {
      ghost var g := Snapshot(board);
      var first := IsFirst(board);
      if first {
        return 1, BOARD_SIZE / 2, BOARD_SIZE / 2;
      }
      BackUp(board);
      FillCaches(board, g, g);
      ghost var e := CurrentEnv();
      ghost var vs := RootValues(e, g, player);
      ghost var s := EnvState();
      assert PartsEnv(s) == e;
      var best := SearchRoot(board, player, tie, e, s, g, vs);
      ChoiceUpToSpec(g, vs, tie, CELLS);
      CurrentEnvBounded();
      RootChoiceMinimax(e, g, player, tie);
      if best.x != -1 && best.y != -1 {
        return 1, best.x, best.y;
      }
      return 0, x0, y0;
    }

    /** Both caches filled by the full scan of the board, black first. */
    method FillCaches(board: array2<Stone>, ghost g: Grid, ghost backup: Grid)
      requires Valid() && board.Length0 == BOARD_SIZE && board.Length1 == BOARD_SIZE
      requires Snapshot(board) == g && Snapshot(boardBackup) == backup && Bounded()
      modifies blackCache.Arrays(), whiteCache.Arrays()
      ensures Valid() && Bounded() && Snapshot(board) == g && Snapshot(boardBackup) == backup && TableView() == old(TableView())
      ensures blackCache.View() == FullScanView(old(blackCache.View()), TableView(), g, BLACK)
      ensures whiteCache.View() == FullScanView(old(whiteCache.View()), TableView(), g, WHITE)
    {
      ghost var cb, cw, t := blackCache.View(), whiteCache.View(), TableView();
      ScoreChessToCache(board, BLACK, blackCache);
      FullScanViewBounded(cb, t, g, BLACK);
      ghost var b := blackCache.View();
      assert whiteCache.View() == cw && TableView() == t && Snapshot(board) == g && Snapshot(boardBackup) == backup;
      ScoreChessToCache(board, WHITE, whiteCache);
      FullScanViewBounded(cw, t, g, WHITE);
      assert blackCache.View() == b && TableView() == t;
    }

    /** The root loop over every cell in row-major order, from no choice made; cell number k is valued vs[k]. */
    method SearchRoot(board: array2<Stone>, player: Stone, tie: (int, int) -> bool,
                      ghost e: Env, ghost s: EnvParts, ghost g: Grid, ghost vs: seq<int>)
      returns (best: Choice)
      requires Valid() && board.Length0 == BOARD_SIZE && board.Length1 == BOARD_SIZE && board != boardBackup
      requires EnvState() == s && PartsEnv(s) == e && Snapshot(board) == g && vs == RootValues(e, g, player)
      modifies board
      ensures Snapshot(board) == g
      ensures best == ChoiceUpTo(g, vs, tie, CELLS)
    {
      best := Choice(INT_MIN, -1, -1);
      ghost var k := 0;
      for i := 0 to BOARD_SIZE
        invariant Snapshot(board) == g && EnvState() == s
        invariant k == i * BOARD_SIZE && best == ChoiceUpTo(g, vs, tie, k)
      {
        best := RootRow(board, player, tie, i, best, e, s, g, vs, k);
        k := k + BOARD_SIZE;
      }
    }

    /** Whether every cell is empty: the scan stops at the first stone. */
    static method IsFirst(board: array2<Stone>) returns (first: bool)
      requires board.Length0 == BOARD_SIZE && board.Length1 == BOARD_SIZE
      ensures first == IsEmptyBoard(Snapshot(board))
    {
      ghost var empty := IsEmptyBoard(Snapshot(board));
      first := true;
      var i := 0;
      while i < BOARD_SIZE
        invariant 0 <= i <= BOARD_SIZE
        invariant first ==> forall a, b :: 0 <= a < i && 0 <= b < BOARD_SIZE ==> board[a, b] == EMPTY
        invariant !first ==> !empty
      {
        var j := 0;
        while j < BOARD_SIZE
          invariant 0 <= j <= BOARD_SIZE
          invariant first ==> forall b :: 0 <= b < j ==> board[i, b] == EMPTY
          invariant !first ==> !empty
        {
          if board[i, j] != EMPTY {
            first := false;
            break;
          }
          j := j + 1;
        }
        if !first {
          break;
        }
        i := i + 1;
      }
    }

    /** The root copy: every cell of the board is copied into the backup board. */
    method BackUp(board: array2<Stone>)
      requires board.Length0 == BOARD_SIZE && board.Length1 == BOARD_SIZE && board != boardBackup
      requires boardBackup.Length0 == BOARD_SIZE && boardBackup.Length1 == BOARD_SIZE
      modifies boardBackup
      ensures Snapshot(boardBackup) == Snapshot(board) && Snapshot(board) == old(Snapshot(board))
    {
      for i := 0 to BOARD_SIZE
        invariant forall a, b :: 0 <= a < i && 0 <= b < BOARD_SIZE ==> boardBackup[a, b] == board[a, b]
      {
        for j := 0 to BOARD_SIZE
          invariant forall a, b :: 0 <= a < i && 0 <= b < BOARD_SIZE ==> boardBackup[a, b] == board[a, b]
          invariant forall b :: 0 <= b < j ==> boardBackup[i, b] == board[i, b]
        {
          boardBackup[i, j] := board[i, j];
        }
      }
      GridExt(Snapshot(boardBackup), Snapshot(board));
    }

    /** Row i of the root loop, whose first cell is number k. */
    method RootRow(board: array2<Stone>, player: Stone, tie: (int, int) -> bool, i: int, best: Choice,
                   ghost e: Env, ghost s: EnvParts, ghost g: Grid, ghost vs: seq<int>, ghost k: nat) returns (best': Choice)
      requires Valid() && board.Length0 == BOARD_SIZE && board.Length1 == BOARD_SIZE && board != boardBackup
      requires 0 <= i < BOARD_SIZE && EnvState() == s && PartsEnv(s) == e && Snapshot(board) == g && vs == RootValues(e, g, player)
      requires k == i * BOARD_SIZE && best == ChoiceUpTo(g, vs, tie, k)
      modifies board
      ensures Snapshot(board) == g && EnvState() == s
      ensures best' == ChoiceUpTo(g, vs, tie, k + BOARD_SIZE)
    {
      best' := best;
      ghost var n := k;
      for j := 0 to BOARD_SIZE
        invariant Snapshot(board) == g && EnvState() == s
        invariant n == k + j && best' == ChoiceUpTo(g, vs, tie, n)
      {
        best' := RootCell(board, player, tie, i, j, best', e, s, g, vs, n);
        n := n + 1;
      }
    }

    /** One cell of the root loop: an empty cell near a stone is searched and taken when its value beats the best so far. */
    method RootCell(board: array2<Stone>, player: Stone, tie: (int, int) -> bool, i: int, j: int, best: Choice,
                    ghost e: Env, ghost s: EnvParts, ghost g: Grid, ghost vs: seq<int>, ghost k: nat) returns (best': Choice)
      requires Valid() && board.Length0 == BOARD_SIZE && board.Length1 == BOARD_SIZE && board != boardBackup
      requires InBounds(i, j) && EnvState() == s && PartsEnv(s) == e && Snapshot(board) == g && vs == RootValues(e, g, player)
      requires k == i * BOARD_SIZE + j && best == ChoiceUpTo(g, vs, tie, k)
      modifies board
      ensures Snapshot(board) == g && EnvState() == s
      ensures best' == ChoiceUpTo(g, vs, tie, k + 1)
    {
      CellOfKey(i, j);
      assert ChoiceUpTo(g, vs, tie, k + 1) == ChoiceStep(g, vs, tie, best, k + 1);
      best' := best;
      var valid := board[i, j] == EMPTY;
      if valid {
        valid := IsValidPosition(board, i, j);
      }
      if valid {
        assert CurrentEnv() == e;
        var value := RootCellValue(board, player, i, j, e, g, vs, k);
        if value > best.value || (value == best.value && tie(i, j)) {
          best' := Choice(value, i, j);
        }
      }
    }

    /** The search value of candidate cell (i, j), number k, with `player` placed there. */
    method RootCellValue(board: array2<Stone>, player: Stone, i: int, j: int,
                         ghost e: Env, ghost g: Grid, ghost vs: seq<int>, ghost k: nat) returns (value: int)
      requires Valid() && board.Length0 == BOARD_SIZE && board.Length1 == BOARD_SIZE && board != boardBackup
      requires CurrentEnv() == e && Snapshot(board) == g && vs == RootValues(e, g, player)
      requires IsCandidateCell(g, i, j) && k == i * BOARD_SIZE + j && CellX(k) == i && CellY(k) == j
      modifies board
      ensures Snapshot(board) == g && CurrentEnv() == e
      ensures value == vs[k]
    {
      value := ChildValue(board, SEARCH_DEPTH, player, player, Candidate(i, j, 0), INT_MIN, INT_MAX, e, g);
    }

    /** Places `player` on the empty cell of candidate c, searches the result one level deeper for the other side, and empties the cell again. */
    method ChildValue(board: array2<Stone>, depth: nat, maxPlayer: Stone, player: Stone, c: Candidate,
                      alpha: int, beta: int, ghost e: Env, ghost g: Grid) returns (value: int)
      requires Valid() && board.Length0 == BOARD_SIZE && board.Length1 == BOARD_SIZE && board != boardBackup
      requires CurrentEnv() == e && Snapshot(board) == g && IsCandidateCell(g, c.row, c.column)
      modifies board
      ensures Snapshot(board) == g && CurrentEnv() == e
      ensures value == ChildScore(e, g, c, depth + 1, maxPlayer, player, alpha, beta)
      decreases depth, 2
    {
      board[c.row, c.column] := player;
      GridExt(Snapshot(board), Child(g, c, player));
      value := MinMax(board, depth, maxPlayer, Other(player), alpha, beta);
      board[c.row, c.column] := EMPTY;
      GridExt(Snapshot(board), g);
    }
  }
}

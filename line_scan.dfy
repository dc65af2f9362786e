/**
 * What one line scan computes: the cells along a row, column or diagonal are
 * coded 0/1/2 from one side's point of view, every run of seven consecutive
 * codes is looked up in the score tables, and the best entry is kept.
 */
module LineScan {
  import opened Board
  import opened Bits
  import opened Patterns

  /** The two score tables as values: `scores[a]` and `kinds[a]` for address a. */
  datatype Tables = Tables(scores: seq<int>, kinds: seq<PatternType>)

  predicate TablesOk(t: Tables) {
    |t.scores| == BIT_DATA_SIZE && |t.kinds| == BIT_DATA_SIZE
  }

  /** Every table score lies between 0 and MAX_SCORE. */
  predicate TablesBounded(t: Tables) {
    TablesOk(t) && forall a :: 0 <= a < |t.scores| ==> 0 <= t.scores[a] <= MAX_SCORE
  }

  /** The table entry at `idx` (an index past the tables reads as an empty entry; see WindowInTable). */
  function Lookup(t: Tables, idx: int): Entry {
    if 0 <= idx < |t.scores| && idx < |t.kinds| then Entry(t.scores[idx], t.kinds[idx]) else Entry(0, NONE)
  }

  /** A cell's code for side `me`: own stone 1, the other side's stone 2, anything else 0. */
  function CellCode(me: Stone, s: Stone): (c: int)
    ensures 0 <= c <= 2
    ensures c == 1 <==> s == me
    ensures c == 2 <==> s != me && s == Other(me)
  {
    if s == me then 1 else if s == Other(me) then 2 else 0
  }

  /**
   * The codes of the first n cells from (x0, y0) along (dx, dy); the walk stops
   * at the first cell off the board.
   */
  function Walk(g: Grid, me: Stone, x0: int, y0: int, dx: int, dy: int, n: nat): (w: seq<int>)
    requires WellFormed(g)
    ensures |w| <= n && Codes2(w)
  {
    if n == 0 then []
    else
      var w := Walk(g, me, x0, y0, dx, dy, n - 1);
      var cx, cy := Offset(x0, n - 1, dx), Offset(y0, n - 1, dy);
      if |w| == n - 1 && InBounds(cx, cy) then w + [CellCode(me, g[cx][cy])] else w
  }

  /** The walk lists exactly the on-board cells before the first off-board one, in order. */
  lemma {:induction false} WalkCells(g: Grid, me: Stone, x0: int, y0: int, dx: int, dy: int, n: nat)
    requires WellFormed(g)
    ensures var w := Walk(g, me, x0, y0, dx, dy, n);
      forall t :: 0 <= t < |w| ==>
        InBounds(Offset(x0, t, dx), Offset(y0, t, dy)) && w[t] == CellCode(me, g[Offset(x0, t, dx)][Offset(y0, t, dy)])
    ensures var w := Walk(g, me, x0, y0, dx, dy, n);
      |w| < n ==> !InBounds(Offset(x0, |w|, dx), Offset(y0, |w|, dy))
    decreases n
  {
    if n > 0 {
      WalkCells(g, me, x0, y0, dx, dy, n - 1);
    }
  }

  /** A walk whose first n cells are all on the board has length n. */
  lemma {:induction false} WalkCovers(g: Grid, me: Stone, x0: int, y0: int, dx: int, dy: int, n: nat)
    requires WellFormed(g)
    requires forall t :: 0 <= t < n ==> InBounds(Offset(x0, t, dx), Offset(y0, t, dy))
    ensures |Walk(g, me, x0, y0, dx, dy, n)| == n
    decreases n
  {
    if n > 0 {
      WalkCovers(g, me, x0, y0, dx, dy, n - 1);
      assert InBounds(Offset(x0, n - 1, dx), Offset(y0, n - 1, dy));
    }
  }

  /** While the walk is on the board, each step appends the next cell's code. */
  lemma WalkStep(g: Grid, me: Stone, x0: int, y0: int, dx: int, dy: int, j: nat)
    requires WellFormed(g) && |Walk(g, me, x0, y0, dx, dy, j)| == j
    requires InBounds(Offset(x0, j, dx), Offset(y0, j, dy))
    ensures Walk(g, me, x0, y0, dx, dy, j + 1) ==
      Walk(g, me, x0, y0, dx, dy, j) + [CellCode(me, g[Offset(x0, j, dx)][Offset(y0, j, dy)])]
  {
  }

  /** Once the walk has left the board, walking further adds nothing. */
  lemma {:induction false} WalkStops(g: Grid, me: Stone, x0: int, y0: int, dx: int, dy: int, j: nat, n: nat)
    requires WellFormed(g) && j <= n
    requires |Walk(g, me, x0, y0, dx, dy, j)| == j
    requires !InBounds(Offset(x0, j, dx), Offset(y0, j, dy))
    ensures Walk(g, me, x0, y0, dx, dy, n) == Walk(g, me, x0, y0, dx, dy, j)
    decreases n - j
  {
    if n > j {
      WalkStops(g, me, x0, y0, dx, dy, j, n - 1);
      if n - 1 > j {
        assert |Walk(g, me, x0, y0, dx, dy, n - 1)| == j < n - 1;
      }
    }
  }

  /** The codes of a whole line: at most 19 cells from its first cell. */
  function Line(g: Grid, me: Stone, x0: int, y0: int, dx: int, dy: int): seq<int>
    requires WellFormed(g)
  {
    Walk(g, me, x0, y0, dx, dy, BOARD_SIZE)
  }

  /** One step of a scan: a strictly greater score replaces the best so far, with its label. */
  function Better(best: Entry, e: Entry): Entry {
    if e.score > best.score then e else best
  }

  /** The running best of the entries in order, starting from score 0 and label NONE. */
  function FirstMax(es: seq<Entry>): Entry {
    if |es| == 0 then Entry(0, NONE) else Better(FirstMax(es[..|es| - 1]), es[|es| - 1])
  }
  /** Scanning one more entry is one more step of Better. */
  lemma FirstMaxSnoc(es: seq<Entry>, e: Entry)
    ensures FirstMax(es + [e]) == Better(FirstMax(es), e)
  {
    assert (es + [e])[..|es|] == es;
  }


  /** Scanning one more entry of a sequence is one more step of Better. */
  lemma FirstMaxPrefix(es: seq<Entry>, i: int)
    requires 0 <= i < |es|
    ensures FirstMax(es[..i + 1]) == Better(FirstMax(es[..i]), es[i])
  {
    assert es[..i + 1][..i] == es[..i];
  }

  /** The result is at least 0 and at least every entry's score. */
  lemma {:induction false} FirstMaxUpper(es: seq<Entry>)
    ensures FirstMax(es).score >= 0
    ensures forall i :: 0 <= i < |es| ==> es[i].score <= FirstMax(es).score
    decreases |es|
  {
    if |es| > 0 {
      var init := es[..|es| - 1];
      FirstMaxUpper(init);
      assert forall i :: 0 <= i < |init| ==> init[i] == es[i];
    }
  }

  /**
   * A positive result is the first entry that reaches the maximum; a result of
   * score 0 is exactly the starting entry (0, NONE).
   */
  lemma {:induction false} FirstMaxAttained(es: seq<Entry>)
    ensures FirstMax(es).score > 0 ==>
      exists i :: 0 <= i < |es| && FirstMax(es) == es[i]
        && forall j :: 0 <= j < i ==> es[j].score < es[i].score
    ensures FirstMax(es).score <= 0 ==> FirstMax(es) == Entry(0, NONE)
    decreases |es|
  {
    if |es| > 0 {
      var init := es[..|es| - 1];
      FirstMaxAttained(init);
      FirstMaxUpper(init);
      var last := |es| - 1;
      if es[last].score > FirstMax(init).score {
        assert forall j :: 0 <= j < last ==> es[j] == init[j];
        assert FirstMax(es) == es[last];
      } else if FirstMax(init).score > 0 {
        var i :| 0 <= i < |init| && FirstMax(init) == init[i]
          && forall j :: 0 <= j < i ==> init[j].score < init[i].score;
        assert es[i] == init[i];
        assert forall j :: 0 <= j < i ==> es[j] == init[j];
      }
    }
  }

  /** The entry for the seven codes starting at position i. */
  function Window(t: Tables, cs: seq<int>, i: int): Entry
    requires 0 <= i && i + WINDOW <= |cs|
  {
    Lookup(t, Pack(cs[i..i + WINDOW]))
  }

  /** The entries of all seven-cell windows of a line, left to right. */
  function Windows(t: Tables, cs: seq<int>): (es: seq<Entry>)
    ensures |es| == if |cs| >= WINDOW then |cs| - WINDOW + 1 else 0
  {
    if |cs| < WINDOW then []
    else seq(|cs| - WINDOW + 1, i requires 0 <= i < |cs| - WINDOW + 1 => Window(t, cs, i))
  }

  /** A line's value: the best window, the first one to reach it. */
  function LineBest(t: Tables, cs: seq<int>): Entry {
    FirstMax(Windows(t, cs))
  }

  /** Reading one more code adds one window when at least seven codes have been read. */
  lemma WindowsSnoc(t: Tables, cs: seq<int>, c: int)
    ensures |cs| + 1 < WINDOW ==> Windows(t, cs + [c]) == []
    ensures |cs| + 1 >= WINDOW ==>
      Windows(t, cs + [c]) == Windows(t, cs) + [Lookup(t, Pack((cs + [c])[|cs| + 1 - WINDOW..]))]
  {
    var ds := cs + [c];
    if |ds| >= WINDOW {
      var a, b := Windows(t, ds), Windows(t, cs) + [Lookup(t, Pack(ds[|cs| + 1 - WINDOW..]))];
      assert |a| == |b|;
      forall i | 0 <= i < |a|
        ensures a[i] == b[i]
      {
        if i < |a| - 1 {
          assert ds[i..i + WINDOW] == cs[i..i + WINDOW];
        } else {
          assert ds[i..i + WINDOW] == ds[|cs| + 1 - WINDOW..];
        }
      }
    }
  }

  /**
   * One scanner step on values: once the register holds the packed codes read so
   * far, from the seventh code on its low 14 bits address the newest window, which
   * is compared with the best so far; before that the best stays as it was.
   */
  lemma ScanStep(t: Tables, addr: nat, cs: seq<int>, c: int)
    requires Codes2(cs) && 0 <= c <= 2 && addr == Pack(cs + [c]) % WORD
    ensures |cs| + 1 < WINDOW ==> LineBest(t, cs + [c]) == LineBest(t, cs)
    ensures |cs| + 1 >= WINDOW ==> BitAnd(addr, BIT_DATA_SIZE) <= 10922
    ensures |cs| + 1 >= WINDOW ==>
      LineBest(t, cs + [c]) == Better(LineBest(t, cs), Lookup(t, BitAnd(addr, BIT_DATA_SIZE)))
  {
    var ds := cs + [c];
    WindowsSnoc(t, cs, c);
    if |ds| >= WINDOW {
      assert Codes2(ds);
      WindowIndex(addr, ds);
      assert ds[|cs| + 1 - WINDOW..] == ds[|ds| - 7..];
      FirstMaxSnoc(Windows(t, cs), Lookup(t, BitAnd(addr, BIT_DATA_SIZE)));
    }
  }

  /** A line of fewer than seven cells is never looked up and scores (0, NONE). */
  lemma ShortLine(t: Tables, cs: seq<int>)
    requires |cs| < WINDOW
    ensures LineBest(t, cs) == Entry(0, NONE)
  {
  }

  /** Every window of a line of codes reads an in-range table slot, at most 10922. */
  lemma WindowInTable(t: Tables, cs: seq<int>, i: int)
    requires TablesOk(t) && Codes2(cs) && 0 <= i && i + WINDOW <= |cs|
    ensures 0 <= Pack(cs[i..i + WINDOW]) <= 10922
    ensures Window(t, cs, i) == Entry(t.scores[Pack(cs[i..i + WINDOW])], t.kinds[Pack(cs[i..i + WINDOW])])
  {
    assert Codes2(cs[i..i + WINDOW]);
    PackWindowBound(cs[i..i + WINDOW]);
  }

  /** Entries whose scores lie between 0 and MAX_SCORE. */
  predicate EntriesBounded(es: seq<Entry>) {
    forall i :: 0 <= i < |es| ==> 0 <= es[i].score <= MAX_SCORE
  }

  /** The running best of bounded entries is bounded. */
  lemma FirstMaxBounded(es: seq<Entry>)
    requires EntriesBounded(es)
    ensures 0 <= FirstMax(es).score <= MAX_SCORE
  {
    FirstMaxUpper(es);
    FirstMaxAttained(es);
  }

  /** With bounded tables, a line's value lies between 0 and MAX_SCORE. */
  lemma LineBestBounded(t: Tables, cs: seq<int>)
    requires TablesBounded(t)
    ensures 0 <= LineBest(t, cs).score <= MAX_SCORE
  {
    var es := Windows(t, cs);
    assert forall i :: 0 <= i < |es| ==> es[i] == Window(t, cs, i);
    FirstMaxBounded(es);
  }
}

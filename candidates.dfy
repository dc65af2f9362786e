/**
 * Candidate moves: the empty cells with a stone within Chebyshev distance 2,
 * each scored by placing the mover's stone there, kept in a list sorted by
 * non-increasing value where a new entry goes before existing equal ones.
 */
module Candidates {
  import opened Board
  import opened Patterns
  import opened LineScan
  import opened Evaluator

  /** Some on-board cell near (x, y), possibly (x, y) itself, holds a stone. */
  predicate ValidPosition(g: Grid, x: int, y: int)
    requires WellFormed(g)
  {
    exists i, j | x - SEARCH_RANGE <= i <= x + SEARCH_RANGE && y - SEARCH_RANGE <= j <= y + SEARCH_RANGE ::
      InBounds(i, j) && g[i][j] != EMPTY
  }

  /** A candidate move: its cell and its point value. */
  datatype Candidate = Candidate(row: int, column: int, value: int)

  /** The scan position of a candidate's cell. */
  function Key(c: Candidate): int {
    c.row * BOARD_SIZE + c.column
  }

  /** `a` comes before `b`: a higher value, or an equal value and a later scan position. */
  predicate Before(a: Candidate, b: Candidate) {
    a.value > b.value || (a.value == b.value && Key(a) > Key(b))
  }

  predicate Ordered(cs: seq<Candidate>) {
    forall i, j :: 0 <= i < j < |cs| ==> Before(cs[i], cs[j])
  }

  /** Where a new entry goes: before the first entry whose value is not greater than its own. */
  function InsertIndex(cs: seq<Candidate>, c: Candidate): (k: nat)
    ensures k <= |cs|
    ensures forall i :: 0 <= i < k ==> cs[i].value > c.value
    ensures k < |cs| ==> cs[k].value <= c.value
  {
    if |cs| == 0 || cs[0].value <= c.value then 0
    else
      var k := InsertIndex(cs[1..], c);
      assert forall i :: 0 < i <= k ==> cs[i] == cs[1..][i - 1];
      1 + k
  }

  /** The list with `c` spliced in at its insertion index. */
  function Insert(cs: seq<Candidate>, c: Candidate): (r: seq<Candidate>)
    ensures multiset(r) == multiset(cs) + multiset{c}
    ensures |r| == |cs| + 1
  {
    var k := InsertIndex(cs, c);
    assert cs == cs[..k] + cs[k..];
    cs[..k] + [c] + cs[k..]
  }

  lemma BeforeValue(a: Candidate, b: Candidate)
    requires Before(a, b)
    ensures a.value >= b.value
  {
  }

  /** Inserting an entry scanned after all others keeps the list ordered. */
  lemma InsertOrdered(cs: seq<Candidate>, c: Candidate)
    requires Ordered(cs)
    requires forall i :: 0 <= i < |cs| ==> Key(cs[i]) < Key(c)
    ensures Ordered(Insert(cs, c))
  {
    var k := InsertIndex(cs, c);
    var r := Insert(cs, c);
    assert forall i :: 0 <= i < k ==> r[i] == cs[i];
    assert r[k] == c;
    assert forall i :: k < i < |r| ==> r[i] == cs[i - 1];
    forall i, j | 0 <= i < j < |r|
      ensures Before(r[i], r[j])
    {
      if j < k {
      } else if j == k {
      } else if i < k {
        assert Before(cs[i], cs[j - 1]);
      } else if i == k {
        if k < j - 1 {
          BeforeValue(cs[k], cs[j - 1]);
        }
      } else {
        assert Before(cs[i - 1], cs[j - 1]);
      }
    }
  }

  /** The mover's score for a candidate cell: its point value with the mover's stone placed on it. */
  function CellValue(t: Tables, g: Grid, p: Stone, x: int, y: int): int
    requires WellFormed(g)
  {
    ScorePointSpec(t, Place(g, x, y, p), p, x, y)
  }

  /** The cell is a candidate: on the board, empty, near a stone. */
  predicate IsCandidateCell(g: Grid, x: int, y: int)
    requires WellFormed(g)
  {
    InBounds(x, y) && g[x][y] == EMPTY && ValidPosition(g, x, y)
  }

  /** Every cell's value for side `p`, by scan position. */
  function CellValues(t: Tables, g: Grid, p: Stone): (vs: seq<int>)
    requires WellFormed(g)
    ensures |vs| == CELLS
  {
    seq(CELLS, k requires 0 <= k < CELLS => CellValue(t, g, p, CellX(k), CellY(k)))
  }

  /** The list built from the first k cells in row-major order, cell number k valued `vs[k]`. */
  function CandidatesUpTo(g: Grid, vs: seq<int>, k: nat): seq<Candidate>
    requires WellFormed(g) && |vs| == CELLS && k <= CELLS
  {
    if k == 0 then [] else CellStep(g, vs, CandidatesUpTo(g, vs, k - 1), k)
  }

  /** One scan step: the cell at scan position k - 1 joins the list when it is a candidate cell. */
  function CellStep(g: Grid, vs: seq<int>, cs: seq<Candidate>, k: nat): seq<Candidate>
    requires WellFormed(g) && |vs| == CELLS && 0 < k <= CELLS
  {
    var x, y := CellX(k - 1), CellY(k - 1);
    CellInBounds(k - 1);
    if g[x][y] == EMPTY && ValidPosition(g, x, y) then Insert(cs, Candidate(x, y, vs[k - 1])) else cs
  }

  /** The full candidate list for side `p`. */
  function CandidateList(t: Tables, g: Grid, p: Stone): seq<Candidate>
    requires WellFormed(g)
  {
    CandidatesUpTo(g, CellValues(t, g, p), CELLS)
  }

  /** An entry describes a candidate cell scanned before position k, with its value. */
  predicate Fits(g: Grid, vs: seq<int>, c: Candidate, k: int)
    requires WellFormed(g) && |vs| == CELLS
  {
    IsCandidateCell(g, c.row, c.column) && 0 <= Key(c) < k && k <= CELLS && c.value == vs[Key(c)]
  }

  /** A cell appears in the list. */
  predicate Listed(cs: seq<Candidate>, x: int, y: int) {
    exists i :: 0 <= i < |cs| && cs[i].row == x && cs[i].column == y
  }

  lemma InsertListed(cs: seq<Candidate>, c: Candidate, x: int, y: int)
    ensures Listed(Insert(cs, c), x, y) <==> Listed(cs, x, y) || (c.row == x && c.column == y)
  {
    var r := Insert(cs, c);
    if Listed(cs, x, y) {
      var i :| 0 <= i < |cs| && cs[i].row == x && cs[i].column == y;
      assert cs[i] in multiset(cs);
      assert cs[i] in multiset(r);
    }
    if c.row == x && c.column == y {
      assert c in multiset(r);
    }
    if Listed(r, x, y) {
      var i :| 0 <= i < |r| && r[i].row == x && r[i].column == y;
      assert r[i] in multiset(r);
      if r[i] != c {
        assert r[i] in multiset(cs);
      }
    }
  }

  /** An entry that fits the first k cells fits any longer prefix. */
  lemma FitsLater(g: Grid, vs: seq<int>, c: Candidate, k: int, k': int)
    requires WellFormed(g) && |vs| == CELLS && Fits(g, vs, c, k) && k <= k' <= CELLS
    ensures Fits(g, vs, c, k')
  {
  }

  /** Inserting the entry for scan position k - 1 into an ordered list of entries fitting k - 1 cells. */
  lemma InsertFits(g: Grid, vs: seq<int>, cs: seq<Candidate>, c: Candidate, k: int)
    requires WellFormed(g) && |vs| == CELLS && Ordered(cs)
    requires forall i :: 0 <= i < |cs| ==> Fits(g, vs, cs[i], k - 1)
    requires Fits(g, vs, c, k) && Key(c) == k - 1
    ensures Ordered(Insert(cs, c))
    ensures forall i :: 0 <= i < |Insert(cs, c)| ==> Fits(g, vs, Insert(cs, c)[i], k)
  {
    forall i | 0 <= i < |cs|
      ensures Key(cs[i]) < Key(c)
    {
      assert Fits(g, vs, cs[i], k - 1);
    }
    InsertOrdered(cs, c);
    var r := Insert(cs, c);
    var j := InsertIndex(cs, c);
    assert forall i :: 0 <= i < j ==> r[i] == cs[i];
    assert r[j] == c;
    assert forall i :: j < i < |r| ==> r[i] == cs[i - 1];
    forall i | 0 <= i < |r|
      ensures Fits(g, vs, r[i], k)
    {
      if i < j {
        FitsLater(g, vs, cs[i], k - 1, k);
      } else if i > j {
        FitsLater(g, vs, cs[i - 1], k - 1, k);
      }
    }
  }

  /** The list is ordered and every entry is a candidate cell scanned so far, with its value. */
  /** A scan step keeps the list ordered and every entry fitting the cells scanned so far. */
  lemma CellStepFits(g: Grid, vs: seq<int>, cs: seq<Candidate>, k: nat)
    requires WellFormed(g) && |vs| == CELLS && 0 < k <= CELLS && Ordered(cs)
    requires forall i :: 0 <= i < |cs| ==> Fits(g, vs, cs[i], k - 1)
    ensures Ordered(CellStep(g, vs, cs, k))
    ensures forall i :: 0 <= i < |CellStep(g, vs, cs, k)| ==> Fits(g, vs, CellStep(g, vs, cs, k)[i], k)
  {
    var x, y := CellX(k - 1), CellY(k - 1);
    CellInBounds(k - 1);
    if g[x][y] == EMPTY && ValidPosition(g, x, y) {
      InsertFits(g, vs, cs, Candidate(x, y, vs[k - 1]), k);
    } else {
      forall i | 0 <= i < |cs|
        ensures Fits(g, vs, cs[i], k)
      {
        FitsLater(g, vs, cs[i], k - 1, k);
      }
    }
  }

  /** The list is ordered and every entry is a candidate cell scanned so far, with its value. */
  lemma {:induction false} CandidatesUpToFit(g: Grid, vs: seq<int>, k: nat)
    requires WellFormed(g) && |vs| == CELLS && k <= CELLS
    ensures Ordered(CandidatesUpTo(g, vs, k))
    ensures forall i :: 0 <= i < |CandidatesUpTo(g, vs, k)| ==> Fits(g, vs, CandidatesUpTo(g, vs, k)[i], k)
    decreases k
  {
    if k > 0 {
      CandidatesUpToFit(g, vs, k - 1);
      CellStepFits(g, vs, CandidatesUpTo(g, vs, k - 1), k);
    }
  }

  /** A cell not yet scanned is not listed. */
  lemma NotYetListed(g: Grid, vs: seq<int>, k: nat, x: int, y: int)
    requires WellFormed(g) && |vs| == CELLS && k <= CELLS
    requires x * BOARD_SIZE + y >= k
    ensures !Listed(CandidatesUpTo(g, vs, k), x, y)
  {
    CandidatesUpToFit(g, vs, k);
    var cs := CandidatesUpTo(g, vs, k);
    forall i | 0 <= i < |cs|
      ensures !(cs[i].row == x && cs[i].column == y)
    {
      assert Fits(g, vs, cs[i], k);
    }
  }

  /** A scan step adds the cell at scan position k - 1 exactly when it is a candidate cell. */
  lemma CellStepListed(g: Grid, vs: seq<int>, cs: seq<Candidate>, k: nat, x: int, y: int)
    requires WellFormed(g) && |vs| == CELLS && 0 < k <= CELLS && InBounds(x, y)
    ensures Listed(CellStep(g, vs, cs, k), x, y) <==>
      Listed(cs, x, y) || (x * BOARD_SIZE + y == k - 1 && IsCandidateCell(g, x, y))
  {
    var cx, cy := CellX(k - 1), CellY(k - 1);
    CellInBounds(k - 1);
    if x * BOARD_SIZE + y == k - 1 {
      KeyInjective(x, y, cx, cy);
    }
    if g[cx][cy] == EMPTY && ValidPosition(g, cx, cy) {
      var c := Candidate(cx, cy, vs[k - 1]);
      InsertListed(cs, c, x, y);
    }
  }

  /** A cell scanned so far is listed exactly when it is a candidate cell. */
  lemma {:induction false} CandidatesUpToComplete(g: Grid, vs: seq<int>, k: nat, x: int, y: int)
    requires WellFormed(g) && |vs| == CELLS && k <= CELLS
    requires InBounds(x, y) && x * BOARD_SIZE + y < k
    ensures Listed(CandidatesUpTo(g, vs, k), x, y) <==> IsCandidateCell(g, x, y)
    decreases k
  {
    if x * BOARD_SIZE + y == k - 1 {
      NotYetListed(g, vs, k - 1, x, y);
    } else {
      CandidatesUpToComplete(g, vs, k - 1, x, y);
    }
    CellStepListed(g, vs, CandidatesUpTo(g, vs, k - 1), k, x, y);
  }

  /**
   * The candidate list holds exactly the empty cells near a stone, each once,
   * with its point value, in non-increasing order of value, and among equal values
   * the cell scanned later first.
   */
  lemma CandidateListSpec(t: Tables, g: Grid, p: Stone)
    requires WellFormed(g)
    ensures var cs := CandidateList(t, g, p);
      (forall x, y :: InBounds(x, y) ==> (Listed(cs, x, y) <==> IsCandidateCell(g, x, y)))
      && (forall i :: 0 <= i < |cs| ==>
            IsCandidateCell(g, cs[i].row, cs[i].column) && cs[i].value == CellValue(t, g, p, cs[i].row, cs[i].column))
      && (forall i, j :: 0 <= i < j < |cs| ==> cs[i].value >= cs[j].value)
      && (forall i, j :: 0 <= i < j < |cs| ==> (cs[i].row, cs[i].column) != (cs[j].row, cs[j].column))
      && (forall i, j :: 0 <= i < j < |cs| && cs[i].value == cs[j].value ==> Key(cs[i]) > Key(cs[j]))
  {
    var vs := CellValues(t, g, p);
    CandidatesUpToFit(g, vs, CELLS);
    var cs := CandidateList(t, g, p);
    forall x, y | InBounds(x, y)
      ensures Listed(cs, x, y) <==> IsCandidateCell(g, x, y)
    {
      CandidatesUpToComplete(g, vs, CELLS, x, y);
    }
    forall i | 0 <= i < |cs|
      ensures cs[i].value == CellValue(t, g, p, cs[i].row, cs[i].column)
    {
      assert Fits(g, vs, cs[i], CELLS);
      CellInBounds(Key(cs[i]));
      KeyInjective(CellX(Key(cs[i])), CellY(Key(cs[i])), cs[i].row, cs[i].column);
    }
    forall i, j | 0 <= i < j < |cs|
      ensures (cs[i].row, cs[i].column) != (cs[j].row, cs[j].column)
    {
      assert Before(cs[i], cs[j]);
    }
  }
}

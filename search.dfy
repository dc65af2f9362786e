/**
 * The game-tree search as values: the winner test, plain minimax over the
 * candidate lists, the fail-soft alpha-beta recursion the engine runs, the
 * theorem that with the full window they agree, and the root move choice.
 */
module Search {
  import opened Board
  import opened Game
  import opened Patterns
  import opened LineScan
  import opened Evaluator
  import opened Candidates

  const INT_MIN: int := -0x8000_0000
  const INT_MAX: int := 0x7fff_ffff

  function Min(a: int, b: int): int {
    if a <= b then a else b
  }

  // ---------------------------------------------------------------- winner

  /** The stone of the first of the first k cells, in row-major order, that holds a stone completing five. */
  function WinnerUpTo(g: Grid, k: nat): Stone
    requires WellFormed(g) && k <= CELLS
  {
    if k == 0 then EMPTY
    else
      var w := WinnerUpTo(g, k - 1);
      CellInBounds(k - 1);
      var x, y := CellX(k - 1), CellY(k - 1);
      if w != EMPTY then w
      else if g[x][y] != EMPTY && WinAt(g, x, y) then g[x][y]
      else EMPTY
  }

  function Winner(g: Grid): Stone
    requires WellFormed(g)
  {
    WinnerUpTo(g, CELLS)
  }

  /** Scanning cell (x, y) with no winner yet: the winner so far is that cell's stone exactly when the cell holds a stone completing five. */
  lemma WinnerUpToStep(g: Grid, x: int, y: int, win: bool)
    requires WellFormed(g) && InBounds(x, y) && WinnerUpTo(g, x * BOARD_SIZE + y) == EMPTY
    requires win == (g[x][y] != EMPTY && WinAt(g, x, y))
    ensures WinnerUpTo(g, x * BOARD_SIZE + y + 1) == if win then g[x][y] else EMPTY
  {
    CellOfKey(x, y);
  }

  /** A winner found at cell (x, y) is still the winner of the scan up to the end of row x. */
  lemma WinnerFoundInRow(g: Grid, x: int, y: int)
    requires WellFormed(g) && InBounds(x, y) && WinnerUpTo(g, x * BOARD_SIZE + y + 1) != EMPTY
    ensures WinnerUpTo(g, x * BOARD_SIZE + BOARD_SIZE) == WinnerUpTo(g, x * BOARD_SIZE + y + 1)
  {
    RowEnd(x);
    WinnerStays(g, x * BOARD_SIZE + y + 1, x * BOARD_SIZE + BOARD_SIZE);
  }

  /** Row x's scan positions end within the board. */
  lemma RowEnd(x: int)
    requires 0 <= x < BOARD_SIZE
    ensures 0 <= x * BOARD_SIZE && x * BOARD_SIZE + BOARD_SIZE <= CELLS
  {
  }

  /** Once a winner is found, scanning further cells keeps it. */
  lemma {:induction false} WinnerStays(g: Grid, k: nat, n: nat)
    requires WellFormed(g) && k <= n <= CELLS
    requires WinnerUpTo(g, k) != EMPTY
    ensures WinnerUpTo(g, n) == WinnerUpTo(g, k)
    decreases n - k
  {
    if n > k {
      WinnerStays(g, k, n - 1);
    }
  }

  /** Some cell before scan position k holds a stone with five in a row through it. */
  predicate HasWinBefore(g: Grid, k: int)
    requires WellFormed(g)
  {
    exists x, y | 0 <= x < BOARD_SIZE && 0 <= y < BOARD_SIZE ::
      x * BOARD_SIZE + y < k && g[x][y] != EMPTY && FiveInARow(g, x, y)
  }

  lemma {:induction false} WinnerUpToSpec(g: Grid, k: nat)
    requires WellFormed(g) && k <= CELLS
    ensures WinnerUpTo(g, k) != EMPTY <==> HasWinBefore(g, k)
    ensures WinnerUpTo(g, k) != EMPTY ==>
      exists x, y | 0 <= x < BOARD_SIZE && 0 <= y < BOARD_SIZE ::
        x * BOARD_SIZE + y < k && g[x][y] == WinnerUpTo(g, k) && FiveInARow(g, x, y)
    decreases k
  {
    if k > 0 {
      WinnerUpToSpec(g, k - 1);
      CellInBounds(k - 1);
      var x, y := CellX(k - 1), CellY(k - 1);
      WinAtIffFiveInARow(g, x, y);
      if HasWinBefore(g, k) && !HasWinBefore(g, k - 1) {
        var x', y' :| 0 <= x' < BOARD_SIZE && 0 <= y' < BOARD_SIZE &&
          x' * BOARD_SIZE + y' < k && g[x'][y'] != EMPTY && FiveInARow(g, x', y');
        KeyInjective(x', y', x, y);
      }
    }
  }

  /** GetWinner reports a stone exactly when some stone has five in a row through it, and then it is such a stone. */
  lemma WinnerSpec(g: Grid)
    requires WellFormed(g)
    ensures Winner(g) != EMPTY <==>
      exists x, y | 0 <= x < BOARD_SIZE && 0 <= y < BOARD_SIZE :: g[x][y] != EMPTY && FiveInARow(g, x, y)
    ensures Winner(g) != EMPTY ==>
      exists x, y | 0 <= x < BOARD_SIZE && 0 <= y < BOARD_SIZE :: g[x][y] == Winner(g) && FiveInARow(g, x, y)
  {
    WinnerUpToSpec(g, CELLS);
    if exists x, y | 0 <= x < BOARD_SIZE && 0 <= y < BOARD_SIZE :: g[x][y] != EMPTY && FiveInARow(g, x, y) {
      var x, y :| 0 <= x < BOARD_SIZE && 0 <= y < BOARD_SIZE && g[x][y] != EMPTY && FiveInARow(g, x, y);
      assert x * BOARD_SIZE + y < CELLS;
    }
  }

  /** An empty board has no winner. */
  lemma EmptyBoardNoWinner(g: Grid)
    requires WellFormed(g) && IsEmptyBoard(g)
    ensures Winner(g) == EMPTY
  {
    WinnerSpec(g);
  }

  // ---------------------------------------------------------------- environment

  /**
   * What the search consults: the candidate list for the side to move, the leaf
   * evaluation for the maximising side, and the end-of-game test.
   */
  datatype Env = Env(moves: (Grid, Stone) -> seq<Candidate>, leaf: (Grid, Stone) -> int, over: Grid -> bool)

  /**
   * The engine's environment: candidates from the tables, leaves scored from the
   * root board copy and the two sides' caches, and the game over once someone
   * has five in a row.
   */
  function EngineEnv(t: Tables, backup: Grid, black: CacheView, white: CacheView): (e: Env)
    requires WellFormed(backup) && Shaped(black) && Shaped(white)
    ensures forall g, p | WellFormed(g) :: e.moves(g, p) == CandidateList(t, g, p)
    ensures forall g, m | WellFormed(g) :: e.leaf(g, m) == Evaluation(t, backup, black, white, g, m)
    ensures forall g | WellFormed(g) :: e.over(g) <==> Winner(g) != EMPTY
  {
    Env((g, p) => if WellFormed(g) then CandidateList(t, g, p) else [],
        (g, m) => if WellFormed(g) then Evaluation(t, backup, black, white, g, m) else 0,
        g => WellFormed(g) && Winner(g) != EMPTY)
  }

  /** What the engine's environment is built from: the score tables, the root copy and both caches. */
  datatype EnvParts = EnvParts(tables: Tables, backup: Grid, black: CacheView, white: CacheView)

  /** The environment of the engine in state s. */
  function PartsEnv(s: EnvParts): Env
    requires WellFormed(s.backup) && Shaped(s.black) && Shaped(s.white)
  {
    EngineEnv(s.tables, s.backup, s.black, s.white)
  }

  /** Every leaf value is a 32-bit integer. */
  ghost predicate EnvBounded(e: Env) {
    forall g, m :: INT_MIN <= e.leaf(g, m) <= INT_MAX
  }

  /** With bounded tables and caches the engine's leaves are bounded by MAX_SCORE, well inside 32 bits. */
  lemma EngineEnvBounded(t: Tables, backup: Grid, black: CacheView, white: CacheView)
    requires WellFormed(backup) && Shaped(black) && Shaped(white)
    requires TablesBounded(t) && ViewBounded(black) && ViewBounded(white)
    ensures EnvBounded(EngineEnv(t, backup, black, white))
  {
    var e := EngineEnv(t, backup, black, white);
    forall g, m
      ensures INT_MIN <= e.leaf(g, m) <= INT_MAX
    {
      if WellFormed(g) {
        EvaluationBounded(t, backup, black, white, g, m);
      }
    }
  }

  /** The board after candidate c is played by p. */
  function Child(g: Grid, c: Candidate, p: Stone): Grid
    requires WellFormed(g)
  {
    Place(g, c.row, c.column, p)
  }

  // ---------------------------------------------------------------- plain minimax

  /** The largest of `b` and the values, in order. */
  function SeqMax(vs: seq<int>, b: int): int {
    if |vs| == 0 then b else SeqMax(vs[1..], Max(b, vs[0]))
  }

  function SeqMin(vs: seq<int>, b: int): int {
    if |vs| == 0 then b else SeqMin(vs[1..], Min(b, vs[0]))
  }

  lemma {:induction false} SeqMaxIsMax(vs: seq<int>, b: int)
    ensures SeqMax(vs, b) >= b
    ensures forall i :: 0 <= i < |vs| ==> vs[i] <= SeqMax(vs, b)
    ensures SeqMax(vs, b) == b || exists i :: 0 <= i < |vs| && SeqMax(vs, b) == vs[i]
    decreases |vs|
  {
    if |vs| > 0 {
      SeqMaxIsMax(vs[1..], Max(b, vs[0]));
      assert forall i :: 1 <= i < |vs| ==> vs[i] == vs[1..][i - 1];
      if SeqMax(vs, b) != b && SeqMax(vs, b) != vs[0] {
        var i :| 0 <= i < |vs[1..]| && SeqMax(vs[1..], Max(b, vs[0])) == vs[1..][i];
        assert SeqMax(vs, b) == vs[i + 1];
      }
    }
  }

  lemma {:induction false} SeqMinIsMin(vs: seq<int>, b: int)
    ensures SeqMin(vs, b) <= b
    ensures forall i :: 0 <= i < |vs| ==> SeqMin(vs, b) <= vs[i]
    ensures SeqMin(vs, b) == b || exists i :: 0 <= i < |vs| && SeqMin(vs, b) == vs[i]
    decreases |vs|
  {
    if |vs| > 0 {
      SeqMinIsMin(vs[1..], Min(b, vs[0]));
      assert forall i :: 1 <= i < |vs| ==> vs[i] == vs[1..][i - 1];
      if SeqMin(vs, b) != b && SeqMin(vs, b) != vs[0] {
        var i :| 0 <= i < |vs[1..]| && SeqMin(vs[1..], Min(b, vs[0])) == vs[1..][i];
        assert SeqMin(vs, b) == vs[i + 1];
      }
    }
  }

  /** A starting bound at or below `lo` that is already exceeded is forgotten. */
  lemma {:induction false} SeqMaxForget(vs: seq<int>, b: int, b': int, lo: int)
    requires b <= lo && b' <= lo && SeqMax(vs, b') > lo
    ensures SeqMax(vs, b) == SeqMax(vs, b')
    decreases |vs|
  {
    if |vs| > 0 {
      if vs[0] <= lo {
        SeqMaxForget(vs[1..], Max(b, vs[0]), Max(b', vs[0]), lo);
      } else {
        assert Max(b, vs[0]) == Max(b', vs[0]);
      }
    }
  }

  lemma {:induction false} SeqMinForget(vs: seq<int>, b: int, b': int, hi: int)
    requires b >= hi && b' >= hi && SeqMin(vs, b') < hi
    ensures SeqMin(vs, b) == SeqMin(vs, b')
    decreases |vs|
  {
    if |vs| > 0 {
      if vs[0] >= hi {
        SeqMinForget(vs[1..], Min(b, vs[0]), Min(b', vs[0]), hi);
      } else {
        assert Min(b, vs[0]) == Min(b', vs[0]);
      }
    }
  }

  lemma {:induction false} SeqMaxMonotone(vs: seq<int>, b: int, b': int)
    requires b <= b'
    ensures SeqMax(vs, b) <= SeqMax(vs, b')
    decreases |vs|
  {
    if |vs| > 0 {
      SeqMaxMonotone(vs[1..], Max(b, vs[0]), Max(b', vs[0]));
    }
  }

  lemma {:induction false} SeqMinMonotone(vs: seq<int>, b: int, b': int)
    requires b <= b'
    ensures SeqMin(vs, b) <= SeqMin(vs, b')
    decreases |vs|
  {
    if |vs| > 0 {
      SeqMinMonotone(vs[1..], Min(b, vs[0]), Min(b', vs[0]));
    }
  }

  /** Plain minimax: the leaf evaluation at depth 0 or once the game is won, else the best child for the side to move. */
  function Minimax(e: Env, g: Grid, depth: nat, maxPlayer: Stone, p: Stone): int
    requires WellFormed(g)
    decreases depth, 1
  {
    if depth == 0 || e.over(g) then e.leaf(g, maxPlayer)
    else
      var vs := ChildValues(e, g, depth, maxPlayer, p, e.moves(g, p));
      if p == maxPlayer then SeqMax(vs, INT_MIN) else SeqMin(vs, INT_MAX)
  }

  /** The minimax values of the children reached by the candidates, in order. */
  function ChildValues(e: Env, g: Grid, depth: nat, maxPlayer: Stone, p: Stone, cs: seq<Candidate>): (vs: seq<int>)
    requires WellFormed(g) && depth >= 1
    ensures |vs| == |cs|
    decreases depth, 0
  {
    seq(|cs|, i requires 0 <= i < |cs| => Minimax(e, Child(g, cs[i], p), depth - 1, maxPlayer, Other(p)))
  }

  lemma ChildValuesSplit(e: Env, g: Grid, depth: nat, maxPlayer: Stone, p: Stone, cs: seq<Candidate>)
    requires WellFormed(g) && depth >= 1 && |cs| > 0
    ensures ChildValues(e, g, depth, maxPlayer, p, cs)[0] == Minimax(e, Child(g, cs[0], p), depth - 1, maxPlayer, Other(p))
    ensures ChildValues(e, g, depth, maxPlayer, p, cs)[1..] == ChildValues(e, g, depth, maxPlayer, p, cs[1..])
  {
  }

  // ---------------------------------------------------------------- alpha-beta

  /** The engine's search: fail-soft alpha-beta over the same candidate lists. */
  function AlphaBeta(e: Env, g: Grid, depth: nat, maxPlayer: Stone, p: Stone, alpha: int, beta: int): int
    requires WellFormed(g)
    decreases depth, 1
  {
    if depth == 0 || e.over(g) then e.leaf(g, maxPlayer)
    else if p == maxPlayer then MaxLoop(e, g, depth, maxPlayer, p, e.moves(g, p), INT_MIN, alpha, beta)
    else MinLoop(e, g, depth, maxPlayer, p, e.moves(g, p), INT_MAX, alpha, beta)
  }

  /** The alpha-beta value of the child reached by playing c, one level deeper, for the other side. */
  function ChildScore(e: Env, g: Grid, c: Candidate, depth: nat, maxPlayer: Stone, p: Stone, alpha: int, beta: int): int
    requires WellFormed(g) && depth >= 1
    decreases depth, 0, 0
  {
    AlphaBeta(e, Child(g, c, p), depth - 1, maxPlayer, Other(p), alpha, beta)
  }

  /** The maximising loop: raise best and alpha with each child, stop once beta <= alpha. */
  function MaxLoop(e: Env, g: Grid, depth: nat, maxPlayer: Stone, p: Stone, cs: seq<Candidate>,
                   best: int, alpha: int, beta: int): int
    requires WellFormed(g) && depth >= 1
    decreases depth, 0, |cs|
  {
    if |cs| == 0 then best
    else
      var v := ChildScore(e, g, cs[0], depth, maxPlayer, p, alpha, beta);
      var best' := Max(best, v);
      var alpha' := Max(alpha, best');
      if beta <= alpha' then best' else MaxLoop(e, g, depth, maxPlayer, p, cs[1..], best', alpha', beta)
  }

  /** The minimising loop: lower best and beta with each child, stop once beta <= alpha. */
  function MinLoop(e: Env, g: Grid, depth: nat, maxPlayer: Stone, p: Stone, cs: seq<Candidate>,
                   best: int, alpha: int, beta: int): int
    requires WellFormed(g) && depth >= 1
    decreases depth, 0, |cs|
  {
    if |cs| == 0 then best
    else
      var v := ChildScore(e, g, cs[0], depth, maxPlayer, p, alpha, beta);
      var best' := Min(best, v);
      var beta' := Min(beta, best');
      if beta' <= alpha then best' else MinLoop(e, g, depth, maxPlayer, p, cs[1..], best', alpha, beta')
  }

  /** One step of the maximising loop, with the first child's value v. */
  lemma MaxLoopStep(e: Env, g: Grid, depth: nat, maxPlayer: Stone, p: Stone, cs: seq<Candidate>,
                    best: int, alpha: int, beta: int, v: int)
    requires WellFormed(g) && depth >= 1 && |cs| > 0
    requires v == ChildScore(e, g, cs[0], depth, maxPlayer, p, alpha, beta)
    ensures var best', alpha' := Max(best, v), Max(alpha, Max(best, v));
      MaxLoop(e, g, depth, maxPlayer, p, cs, best, alpha, beta)
        == if beta <= alpha' then best' else MaxLoop(e, g, depth, maxPlayer, p, cs[1..], best', alpha', beta)
  {
  }

  /** One step of the minimising loop, with the first child's value v. */
  lemma MinLoopStep(e: Env, g: Grid, depth: nat, maxPlayer: Stone, p: Stone, cs: seq<Candidate>,
                    best: int, alpha: int, beta: int, v: int)
    requires WellFormed(g) && depth >= 1 && |cs| > 0
    requires v == ChildScore(e, g, cs[0], depth, maxPlayer, p, alpha, beta)
    ensures var best', beta' := Min(best, v), Min(beta, Min(best, v));
      MinLoop(e, g, depth, maxPlayer, p, cs, best, alpha, beta)
        == if beta' <= alpha then best' else MinLoop(e, g, depth, maxPlayer, p, cs[1..], best', alpha, beta')
  {
  }

  /** The fail-soft bracket: a result at or below alpha bounds the true value from above, at or above beta from below, and inside the window equals it. */
  predicate Bracket(v: int, m: int, alpha: int, beta: int) {
    (v <= alpha ==> m <= v) && (v >= beta ==> m >= v) && (alpha < v < beta ==> m == v)
  }

  lemma {:induction false} MaxLoopAtLeast(e: Env, g: Grid, depth: nat, maxPlayer: Stone, p: Stone, cs: seq<Candidate>,
                                          best: int, alpha: int, beta: int)
    requires WellFormed(g) && depth >= 1
    ensures MaxLoop(e, g, depth, maxPlayer, p, cs, best, alpha, beta) >= best
    decreases |cs|
  {
    if |cs| > 0 {
      var v := ChildScore(e, g, cs[0], depth, maxPlayer, p, alpha, beta);
      MaxLoopAtLeast(e, g, depth, maxPlayer, p, cs[1..], Max(best, v), Max(alpha, Max(best, v)), beta);
    }
  }

  lemma {:induction false} MinLoopAtMost(e: Env, g: Grid, depth: nat, maxPlayer: Stone, p: Stone, cs: seq<Candidate>,
                                         best: int, alpha: int, beta: int)
    requires WellFormed(g) && depth >= 1
    ensures MinLoop(e, g, depth, maxPlayer, p, cs, best, alpha, beta) <= best
    decreases |cs|
  {
    if |cs| > 0 {
      var v := ChildScore(e, g, cs[0], depth, maxPlayer, p, alpha, beta);
      MinLoopAtMost(e, g, depth, maxPlayer, p, cs[1..], Min(best, v), alpha, Min(beta, Min(best, v)));
    }
  }

  /** Alpha-beta brackets minimax for every window alpha < beta. */
  lemma {:induction false} AlphaBetaBracket(e: Env, g: Grid, depth: nat, maxPlayer: Stone, p: Stone, alpha: int, beta: int)
    requires WellFormed(g)
    requires INT_MIN <= alpha < beta <= INT_MAX
    ensures Bracket(AlphaBeta(e, g, depth, maxPlayer, p, alpha, beta), Minimax(e, g, depth, maxPlayer, p), alpha, beta)
    decreases depth, 1
  {
    if depth > 0 && !e.over(g) {
      var cs := e.moves(g, p);
      if p == maxPlayer {
        MaxLoopBracket(e, g, depth, maxPlayer, p, cs, INT_MIN, alpha, beta);
      } else {
        MinLoopBracket(e, g, depth, maxPlayer, p, cs, INT_MAX, alpha, beta);
      }
    }
  }

  /** The maximising loop's pruning step, on values: the beta cut-off leaves a lower bound. */
  lemma MaxCutStep(rest: seq<int>, best: int, v0: int, m0: int, alpha: int, beta: int)
    requires alpha < beta && best <= alpha && Bracket(v0, m0, alpha, beta)
    requires beta <= Max(alpha, Max(best, v0))
    ensures Bracket(Max(best, v0), SeqMax(rest, Max(best, m0)), alpha, beta)
  {
    SeqMaxIsMax(rest, Max(best, m0));
  }

  /** The maximising loop's continuing step, on values: the rest's bracket for the raised window gives the bracket for the old one. */
  lemma MaxGoStep(rest: seq<int>, best: int, v0: int, m0: int, v: int, alpha: int, beta: int)
    requires alpha < beta && best <= alpha && Bracket(v0, m0, alpha, beta)
    requires Max(alpha, Max(best, v0)) < beta
    requires v >= Max(best, v0)
    requires Bracket(v, SeqMax(rest, Max(best, v0)), Max(alpha, Max(best, v0)), beta)
    ensures Bracket(v, SeqMax(rest, Max(best, m0)), alpha, beta)
  {
    var best' := Max(best, v0);
    if v0 <= alpha {
      SeqMaxMonotone(rest, Max(best, m0), best');
      if SeqMax(rest, best') > alpha {
        SeqMaxForget(rest, Max(best, m0), best', alpha);
      }
    } else {
      assert m0 == v0 && Max(best, m0) == best';
      SeqMaxIsMax(rest, best');
    }
  }

  lemma MinCutStep(rest: seq<int>, best: int, v0: int, m0: int, alpha: int, beta: int)
    requires alpha < beta && best >= beta && Bracket(v0, m0, alpha, beta)
    requires Min(beta, Min(best, v0)) <= alpha
    ensures Bracket(Min(best, v0), SeqMin(rest, Min(best, m0)), alpha, beta)
  {
    SeqMinIsMin(rest, Min(best, m0));
  }

  lemma MinGoStep(rest: seq<int>, best: int, v0: int, m0: int, v: int, alpha: int, beta: int)
    requires alpha < beta && best >= beta && Bracket(v0, m0, alpha, beta)
    requires alpha < Min(beta, Min(best, v0))
    requires v <= Min(best, v0)
    requires Bracket(v, SeqMin(rest, Min(best, v0)), alpha, Min(beta, Min(best, v0)))
    ensures Bracket(v, SeqMin(rest, Min(best, m0)), alpha, beta)
  {
    var best' := Min(best, v0);
    if v0 >= beta {
      SeqMinMonotone(rest, best', Min(best, m0));
      if SeqMin(rest, best') < beta {
        SeqMinForget(rest, Min(best, m0), best', beta);
      }
    } else {
      assert m0 == v0 && Min(best, m0) == best';
      SeqMinIsMin(rest, best');
    }
  }

  lemma {:induction false} MaxLoopBracket(e: Env, g: Grid, depth: nat, maxPlayer: Stone, p: Stone, cs: seq<Candidate>,
                                          best: int, alpha: int, beta: int)
    requires WellFormed(g) && depth >= 1
    requires INT_MIN <= alpha < beta <= INT_MAX && best <= alpha
    ensures Bracket(MaxLoop(e, g, depth, maxPlayer, p, cs, best, alpha, beta),
                    SeqMax(ChildValues(e, g, depth, maxPlayer, p, cs), best), alpha, beta)
    decreases depth, 0, |cs|
  {
    if |cs| > 0 {
      var child := Child(g, cs[0], p);
      var v0 := AlphaBeta(e, child, depth - 1, maxPlayer, Other(p), alpha, beta);
      var m0 := Minimax(e, child, depth - 1, maxPlayer, Other(p));
      AlphaBetaBracket(e, child, depth - 1, maxPlayer, Other(p), alpha, beta);
      ChildValuesSplit(e, g, depth, maxPlayer, p, cs);
      var rest := ChildValues(e, g, depth, maxPlayer, p, cs[1..]);
      assert SeqMax(ChildValues(e, g, depth, maxPlayer, p, cs), best) == SeqMax(rest, Max(best, m0));
      var best' := Max(best, v0);
      var alpha' := Max(alpha, best');
      if beta <= alpha' {
        MaxCutStep(rest, best, v0, m0, alpha, beta);
      } else {
        MaxLoopBracket(e, g, depth, maxPlayer, p, cs[1..], best', alpha', beta);
        MaxLoopAtLeast(e, g, depth, maxPlayer, p, cs[1..], best', alpha', beta);
        MaxGoStep(rest, best, v0, m0, MaxLoop(e, g, depth, maxPlayer, p, cs[1..], best', alpha', beta), alpha, beta);
      }
    }
  }

  lemma {:induction false} MinLoopBracket(e: Env, g: Grid, depth: nat, maxPlayer: Stone, p: Stone, cs: seq<Candidate>,
                                          best: int, alpha: int, beta: int)
    requires WellFormed(g) && depth >= 1
    requires INT_MIN <= alpha < beta <= INT_MAX && best >= beta
    ensures Bracket(MinLoop(e, g, depth, maxPlayer, p, cs, best, alpha, beta),
                    SeqMin(ChildValues(e, g, depth, maxPlayer, p, cs), best), alpha, beta)
    decreases depth, 0, |cs|
  {
    if |cs| > 0 {
      var child := Child(g, cs[0], p);
      var v0 := AlphaBeta(e, child, depth - 1, maxPlayer, Other(p), alpha, beta);
      var m0 := Minimax(e, child, depth - 1, maxPlayer, Other(p));
      AlphaBetaBracket(e, child, depth - 1, maxPlayer, Other(p), alpha, beta);
      ChildValuesSplit(e, g, depth, maxPlayer, p, cs);
      var rest := ChildValues(e, g, depth, maxPlayer, p, cs[1..]);
      assert SeqMin(ChildValues(e, g, depth, maxPlayer, p, cs), best) == SeqMin(rest, Min(best, m0));
      var best' := Min(best, v0);
      var beta' := Min(beta, best');
      if beta' <= alpha {
        MinCutStep(rest, best, v0, m0, alpha, beta);
      } else {
        MinLoopBracket(e, g, depth, maxPlayer, p, cs[1..], best', alpha, beta');
        MinLoopAtMost(e, g, depth, maxPlayer, p, cs[1..], best', alpha, beta');
        MinGoStep(rest, best, v0, m0, MinLoop(e, g, depth, maxPlayer, p, cs[1..], best', alpha, beta'), alpha, beta);
      }
    }
  }

  /** With bounded caches and tables every minimax value is a 32-bit integer. */
  lemma {:induction false} MinimaxRange(e: Env, g: Grid, depth: nat, maxPlayer: Stone, p: Stone)
    requires EnvBounded(e) && WellFormed(g)
    ensures INT_MIN <= Minimax(e, g, depth, maxPlayer, p) <= INT_MAX
    decreases depth
  {
    if !(depth == 0 || e.over(g)) {
      var cs := e.moves(g, p);
      var vs := ChildValues(e, g, depth, maxPlayer, p, cs);
      forall i | 0 <= i < |vs|
        ensures INT_MIN <= vs[i] <= INT_MAX
      {
        MinimaxRange(e, Child(g, cs[i], p), depth - 1, maxPlayer, Other(p));
      }
      SeqMaxIsMax(vs, INT_MIN);
      SeqMinIsMin(vs, INT_MAX);
    }
  }

  /** Called with the full window, the engine's alpha-beta returns exactly the minimax value. */
  lemma FullWindowIsMinimax(e: Env, g: Grid, depth: nat, maxPlayer: Stone, p: Stone)
    requires EnvBounded(e) && WellFormed(g)
    ensures AlphaBeta(e, g, depth, maxPlayer, p, INT_MIN, INT_MAX) == Minimax(e, g, depth, maxPlayer, p)
  {
    AlphaBetaBracket(e, g, depth, maxPlayer, p, INT_MIN, INT_MAX);
    MinimaxRange(e, g, depth, maxPlayer, p);
  }

  // ---------------------------------------------------------------- root choice

  /**
   * The value the root loop computes for cell (x, y): p plays there and the
   * result is searched SEARCH_DEPTH levels deep with the full window, the
   * opponent to move and p maximising.
   */
  function RootValue(e: Env, g: Grid, p: Stone, x: int, y: int): int
    requires WellFormed(g)
  {
    ChildScore(e, g, Candidate(x, y, 0), SEARCH_DEPTH + 1, p, p, INT_MIN, INT_MAX)
  }

  /** Every cell's root value, by scan position. */
  function RootValues(e: Env, g: Grid, p: Stone): (vs: seq<int>)
    requires WellFormed(g)
    ensures |vs| == CELLS
  {
    seq(CELLS, k requires 0 <= k < CELLS => RootValue(e, g, p, CellX(k), CellY(k)))
  }

  /** The root loop's state: best value so far and its cell, (-1, -1) while none was taken. */
  datatype Choice = Choice(value: int, x: int, y: int)

  /**
   * The root loop over the first k cells, cell number k valued `vs[k]`: a candidate
   * cell replaces the best so far when its value is greater, or equal and the
   * tie-break accepts it.
   */
  function ChoiceUpTo(g: Grid, vs: seq<int>, tie: (int, int) -> bool, k: nat): Choice
    requires WellFormed(g) && |vs| == CELLS && k <= CELLS
  {
    if k == 0 then Choice(INT_MIN, -1, -1) else ChoiceStep(g, vs, tie, ChoiceUpTo(g, vs, tie, k - 1), k)
  }

  /** One root loop step, on the cell at scan position k - 1. */
  function ChoiceStep(g: Grid, vs: seq<int>, tie: (int, int) -> bool, b: Choice, k: nat): Choice
    requires WellFormed(g) && |vs| == CELLS && 0 < k <= CELLS
  {
    CellInBounds(k - 1);
    var x, y := CellX(k - 1), CellY(k - 1);
    if g[x][y] == EMPTY && ValidPosition(g, x, y) && (vs[k - 1] > b.value || (vs[k - 1] == b.value && tie(x, y)))
    then Choice(vs[k - 1], x, y)
    else b
  }

  function RootChoice(e: Env, g: Grid, p: Stone, tie: (int, int) -> bool): Choice
    requires WellFormed(g)
  {
    ChoiceUpTo(g, RootValues(e, g, p), tie, CELLS)
  }

  /**
   * After k cells: a taken cell is a candidate cell scanned so far whose value is
   * the best value and at least every candidate's value so far; with no cell taken,
   * every candidate so far had value at most INT_MIN, and the tie-break declined
   * those with value INT_MIN.
   */
  predicate ChoiceInv(g: Grid, vs: seq<int>, tie: (int, int) -> bool, b: Choice, k: nat)
    requires WellFormed(g) && |vs| == CELLS && k <= CELLS
  {
    (b.x == -1 <==> b.y == -1)
    && (b.x != -1 ==> IsCandidateCell(g, b.x, b.y) && 0 <= b.x * BOARD_SIZE + b.y < k && b.value == vs[b.x * BOARD_SIZE + b.y])
    && (b.x == -1 ==> b.value == INT_MIN)
    && (forall j :: 0 <= j < k && IsCandidateCell(g, CellX(j), CellY(j)) ==>
          vs[j] <= b.value && (b.x == -1 && vs[j] == INT_MIN ==> !tie(CellX(j), CellY(j))))
  }

  /** A root loop step keeps the invariant, one more cell scanned. */
  lemma ChoiceStepInv(g: Grid, vs: seq<int>, tie: (int, int) -> bool, b: Choice, k: nat)
    requires WellFormed(g) && |vs| == CELLS && 0 < k <= CELLS && ChoiceInv(g, vs, tie, b, k - 1)
    ensures ChoiceInv(g, vs, tie, ChoiceStep(g, vs, tie, b, k), k)
  {
    CellInBounds(k - 1);
  }

  lemma {:induction false} ChoiceUpToSpec(g: Grid, vs: seq<int>, tie: (int, int) -> bool, k: nat)
    requires WellFormed(g) && |vs| == CELLS && k <= CELLS
    ensures ChoiceInv(g, vs, tie, ChoiceUpTo(g, vs, tie, k), k)
    decreases k
  {
    if k > 0 {
      ChoiceUpToSpec(g, vs, tie, k - 1);
      ChoiceStepInv(g, vs, tie, ChoiceUpTo(g, vs, tie, k - 1), k);
    }
  }

  /**
   * The root choice: a taken cell is a candidate cell carrying its search value,
   * and no candidate cell has a greater value; with no cell taken, every candidate
   * cell's value is INT_MIN and the tie-break declined each of them.
   */
  lemma RootChoiceSpec(e: Env, g: Grid, p: Stone, tie: (int, int) -> bool)
    requires EnvBounded(e) && WellFormed(g)
    ensures var b := RootChoice(e, g, p, tie);
      (b.x == -1 <==> b.y == -1)
      && (b.x != -1 ==> IsCandidateCell(g, b.x, b.y) && b.value == RootValue(e, g, p, b.x, b.y))
      && (forall x, y :: IsCandidateCell(g, x, y) ==> RootValue(e, g, p, x, y) <= b.value)
      && (b.x == -1 ==> forall x, y :: IsCandidateCell(g, x, y) ==> RootValue(e, g, p, x, y) == INT_MIN && !tie(x, y))
  {
    var vs := RootValues(e, g, p);
    var b := RootChoice(e, g, p, tie);
    ChoiceUpToSpec(g, vs, tie, CELLS);
    if b.x != -1 {
      CellInBounds(b.x * BOARD_SIZE + b.y);
      KeyInjective(b.x, b.y, CellX(b.x * BOARD_SIZE + b.y), CellY(b.x * BOARD_SIZE + b.y));
    }
    forall x, y | IsCandidateCell(g, x, y)
      ensures RootValue(e, g, p, x, y) <= b.value
      ensures b.x == -1 ==> RootValue(e, g, p, x, y) == INT_MIN && !tie(x, y)
    {
      var k := x * BOARD_SIZE + y;
      CellInBounds(k);
      KeyInjective(x, y, CellX(k), CellY(k));
      assert vs[k] == RootValue(e, g, p, x, y);
      FullWindowIsMinimax(e, Place(g, x, y, p), SEARCH_DEPTH, p, Other(p));
      MinimaxRange(e, Place(g, x, y, p), SEARCH_DEPTH, p, Other(p));
    }
  }

  /** The minimax value of p playing (x, y): the opponent moves next, SEARCH_DEPTH levels deep, p maximising. */
  function MoveValue(e: Env, g: Grid, p: Stone, x: int, y: int): int
    requires WellFormed(g)
  {
    Minimax(e, Place(g, x, y, p), SEARCH_DEPTH, p, Other(p))
  }

  /**
   * The root choice by minimax value: a taken cell is a candidate cell with the
   * greatest minimax value among all candidate cells; with no cell taken, every
   * candidate cell's minimax value is INT_MIN and the tie-break declined each.
   */
  lemma RootChoiceMinimax(e: Env, g: Grid, p: Stone, tie: (int, int) -> bool)
    requires EnvBounded(e) && WellFormed(g)
    ensures var b := RootChoice(e, g, p, tie);
      (b.x != -1 ==>
        IsCandidateCell(g, b.x, b.y) && b.value == MoveValue(e, g, p, b.x, b.y)
        && forall x, y :: IsCandidateCell(g, x, y) ==> MoveValue(e, g, p, x, y) <= b.value)
      && (b.x == -1 ==> forall x, y :: IsCandidateCell(g, x, y) ==> MoveValue(e, g, p, x, y) == INT_MIN && !tie(x, y))
  {
    RootChoiceSpec(e, g, p, tie);
    forall x, y
      ensures RootValue(e, g, p, x, y) == MoveValue(e, g, p, x, y)
    {
      FullWindowIsMinimax(e, Place(g, x, y, p), SEARCH_DEPTH, p, Other(p));
    }
  }
}

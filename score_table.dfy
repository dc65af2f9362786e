/**
 * What the score tables hold: every 14-bit address (seven 2-bit cells) gets the
 * score and label of the first listed pattern with a nonzero score that occurs
 * in it, read forwards or backwards, at a cell boundary.
 */
module ScoreTable {
  import opened Bits
  import opened Patterns

  /** A pattern character's 2-bit code: '1' is 01, '2' is 10, anything else 00. */
  function CharCode(ch: char): (c: int)
    ensures 0 <= c <= 2
    ensures c == 1 <==> ch == '1'
    ensures c == 2 <==> ch == '2'
  {
    if ch == '1' then 1 else if ch == '2' then 2 else 0
  }

  function TextCodes(t: string): (cs: seq<int>)
    ensures |cs| == |t| && Codes2(cs)
    ensures forall i :: 0 <= i < |t| ==> cs[i] == CharCode(t[i])
  {
    seq(|t|, i requires 0 <= i < |t| => CharCode(t[i]))
  }

  function Reverse(t: string): (r: string)
    ensures |r| == |t|
    ensures forall i :: 0 <= i < |t| ==> r[i] == t[|t| - 1 - i]
  {
    seq(|t|, i requires 0 <= i < |t| => t[|t| - 1 - i])
  }

  /** The pattern read left to right, two bits per character, first character highest. */
  function ForwardMask(t: string): int {
    Pack(TextCodes(t))
  }

  /** The pattern read right to left. */
  function BackwardMask(t: string): int {
    Pack(TextCodes(Reverse(t)))
  }

  /** A mask of `|t|` characters fits in `2 * |t|` bits. */
  lemma MaskBounds(t: string)
    ensures 0 <= ForwardMask(t) < Pow4(|t|)
    ensures 0 <= BackwardMask(t) < Pow4(|t|)
  {
    PackBound(TextCodes(t));
    PackBound(TextCodes(Reverse(t)));
  }

  /** Bits [s, s + m) of `addr` equal `mask`. */
  predicate BitsAt(addr: nat, s: nat, m: nat, mask: int) {
    Shr(addr, s) % Pow2(m) == mask
  }

  /** `mask` occurs in the low n bits of `addr` at some even offset s with s + m <= n. */
  predicate ContainsMask(addr: nat, n: int, mask: int, m: nat) {
    exists s: nat :: s + m <= n && s % 2 == 0 && BitsAt(addr, s, m, mask)
  }

  /** A mask longer than the address never occurs in it. */
  lemma ContainsTooLong(addr: nat, n: int, mask: int, m: nat)
    requires m > n
    ensures !ContainsMask(addr, n, mask, m)
  {
  }

  /** The single test the matching loop performs at offset s. */
  lemma MaskTest(addr: nat, s: nat, m: nat, mask: nat)
    ensures BitAnd(addr, Shl(Pow2(m) - 1, s)) == Shl(mask, s) <==> BitsAt(addr, s, m, mask)
  {
    AndShift(addr, Pow2(m) - 1, s);
    ShlInjective(BitAnd(Shr(addr, s), Pow2(m) - 1), mask, s);
    AndLowMask(Shr(addr, s), m);
  }

  /** The pattern occurs in a 7-cell address, forwards or backwards. */
  predicate Matches(addr: nat, p: Pattern) {
    ContainsMask(addr, BIT_DATA_LENGTH, ForwardMask(p.text), 2 * |p.text|)
    || ContainsMask(addr, BIT_DATA_LENGTH, BackwardMask(p.text), 2 * |p.text|)
  }

  /** A pattern that scores and occurs in the address. */
  predicate Scores(addr: nat, i: int)
    requires 0 <= i < |PATTERNS|
  {
    PATTERNS[i].score != 0 && Matches(addr, PATTERNS[i])
  }

  /** Pattern p claims address a when the address still scores 0 and the pattern occurs in it. */
  function Claim(e: Entry, p: Pattern, a: nat): Entry {
    if e.score == 0 && Matches(a, p) then Entry(p.score, p.kind) else e
  }

  /** The address's table entry after the first n patterns of `ps` were applied. */
  function EntryAfterIn(ps: seq<Pattern>, addr: nat, n: nat): Entry
    requires n <= |ps|
  {
    if n == 0 then Entry(0, NONE) else Claim(EntryAfterIn(ps, addr, n - 1), ps[n - 1], addr)
  }

  /** The entry after the first n listed patterns were applied. */
  function EntryAfter(addr: nat, n: nat): Entry
    requires n <= |PATTERNS|
  {
    EntryAfterIn(PATTERNS, addr, n)
  }

  /** The entry the builder leaves for an address. */
  function TableEntry(addr: nat): Entry {
    EntryAfter(addr, |PATTERNS|)
  }

  /** The first scoring pattern that occurs decides the entry, and nothing after it changes it. */
  lemma {:induction false} FirstScoringMatchWins(addr: nat, n: nat, i: nat)
    requires i < n <= |PATTERNS|
    requires Scores(addr, i)
    requires forall j :: 0 <= j < i ==> !Scores(addr, j)
    ensures EntryAfter(addr, n) == Entry(PATTERNS[i].score, PATTERNS[i].kind)
    decreases n
  {
    if n - 1 == i {
      NoScoringMatch(addr, i);
    } else {
      FirstScoringMatchWins(addr, n - 1, i);
    }
  }

  /** Without a scoring occurrence the score stays 0 and the label is NONE or a later zero-score pattern's. */
  lemma {:induction false} NoScoringMatch(addr: nat, n: nat)
    requires n <= |PATTERNS|
    requires forall j :: 0 <= j < n ==> !Scores(addr, j)
    ensures EntryAfter(addr, n).score == 0
    ensures EntryAfter(addr, n).kind == NONE
      || exists j :: 0 <= j < n && PATTERNS[j].score == 0 && Matches(addr, PATTERNS[j])
           && EntryAfter(addr, n).kind == PATTERNS[j].kind
    decreases n
  {
    if n > 0 {
      NoScoringMatch(addr, n - 1);
      var e := EntryAfter(addr, n - 1);
      var p := PATTERNS[n - 1];
      assert !Scores(addr, n - 1);
      if e.score == 0 && Matches(addr, p) {
        assert EntryAfter(addr, n) == Entry(0, p.kind);
      } else {
        assert EntryAfter(addr, n) == e;
        if e.kind != NONE {
          var j :| 0 <= j < n - 1 && PATTERNS[j].score == 0 && Matches(addr, PATTERNS[j]) && e.kind == PATTERNS[j].kind;
        }
      }
    }
  }

  /** An address containing no scoring pattern has score 0 and label NONE or one of the CLOSE labels. */
  lemma UnmatchedEntry(addr: nat)
    requires forall j :: 0 <= j < |PATTERNS| ==> !Scores(addr, j)
    ensures TableEntry(addr).score == 0
    ensures TableEntry(addr).kind in {NONE, CLOSE_FOUR, CLOSE_THREE, CLOSE_TWO}
  {
    NoScoringMatch(addr, |PATTERNS|);
    BlockedPatternsScoreZero();
  }

  /** Scores that are never negative and never increase along the list. */
  predicate ScoresFall(ps: seq<Pattern>) {
    forall i, j :: 0 <= i <= j < |ps| ==> 0 <= ps[j].score <= ps[i].score
  }

  /** With falling scores, the entry's score is the best score of any pattern of `ps` the address contains. */
  lemma {:induction false} HighestScoreWinsIn(ps: seq<Pattern>, addr: nat, n: nat)
    requires n <= |ps| && ScoresFall(ps)
    ensures forall j :: 0 <= j < n && Matches(addr, ps[j]) ==> ps[j].score <= EntryAfterIn(ps, addr, n).score
    ensures EntryAfterIn(ps, addr, n).score == 0
      || exists i :: 0 <= i < n && Matches(addr, ps[i]) && EntryAfterIn(ps, addr, n).score == ps[i].score
    decreases n
  {
    if n > 0 {
      HighestScoreWinsIn(ps, addr, n - 1);
      var e := EntryAfterIn(ps, addr, n - 1);
      var p := ps[n - 1];
      assert 0 <= p.score;
      if e.score != 0 && Matches(addr, p) {
        var i :| 0 <= i < n - 1 && Matches(addr, ps[i]) && e.score == ps[i].score;
        assert p.score <= ps[i].score;
      }
    }
  }

  /** Because scores fall down the list, the entry's score is the best score of any pattern the address contains. */
  lemma HighestScoreWins(addr: nat, n: nat)
    requires n <= |PATTERNS|
    ensures forall j :: 0 <= j < n && Matches(addr, PATTERNS[j]) ==> PATTERNS[j].score <= EntryAfter(addr, n).score
    ensures EntryAfter(addr, n).score == 0
      || exists i :: 0 <= i < n && Matches(addr, PATTERNS[i]) && EntryAfter(addr, n).score == PATTERNS[i].score
  {
    ScoresNonIncreasing();
    HighestScoreWinsIn(PATTERNS, addr, n);
  }

  /** Table scores lie between 0 and MAX_SCORE when every pattern's score does. */
  lemma {:induction false} EntryBoundedIn(ps: seq<Pattern>, addr: nat, n: nat)
    requires n <= |ps|
    requires forall i :: 0 <= i < |ps| ==> 0 <= ps[i].score <= MAX_SCORE
    ensures 0 <= EntryAfterIn(ps, addr, n).score <= MAX_SCORE
    decreases n
  {
    if n > 0 {
      EntryBoundedIn(ps, addr, n - 1);
    }
  }

  /** Table scores lie between 0 and MAX_SCORE. */
  lemma EntryBounded(addr: nat, n: nat)
    requires n <= |PATTERNS|
    ensures 0 <= EntryAfter(addr, n).score <= MAX_SCORE
  {
    ScoresNonIncreasing();
    EntryBoundedIn(PATTERNS, addr, n);
  }
}

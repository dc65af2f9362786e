/** The engine's constants and its table of 28 hand-written line patterns. */
module Patterns {

  /** A window is 7 cells of 2 bits each. */
  const BIT_DATA_LENGTH: int := 14
  /** Size of the score tables; also the mask applied to a scanner's accumulator. */
  const BIT_DATA_SIZE: int := 0x3fff
  /** Candidate moves lie within this Chebyshev distance of a stone. */
  const SEARCH_RANGE: int := 2
  /** Plies searched below each root move. */
  const SEARCH_DEPTH: nat := 3
  /** Worker count of the threaded search, which is not part of this model. */
  const THREAD_NUM: int := 4
  /** Cells per window. */
  const WINDOW: nat := 7

  datatype PatternType =
    | NONE
    | CONSECUTIVE_FIVE
    | OPEN_FOUR
    | MAKE_CONSECUTIVE_FOUR
    | OPEN_THREE
    | HALF_OPEN_THREE
    | OPEN_TWO
    | HALF_OPEN_TWO
    | CLOSE_FOUR
    | CLOSE_THREE
    | CLOSE_TWO

  /** A pattern over '0' (empty), '1' (own stone) and '2' (opponent stone), with its score and label. */
  datatype Pattern = Pattern(text: string, score: int, kind: PatternType)

  /** A score together with the pattern label it came from. */
  datatype Entry = Entry(score: int, kind: PatternType)

  const PATTERNS: seq<Pattern> := [
    Pattern("11111", 1000000, CONSECUTIVE_FIVE),
    Pattern("011110", 11000, OPEN_FOUR),
    Pattern("0011112", 220, MAKE_CONSECUTIVE_FOUR),
    Pattern("0101112", 220, MAKE_CONSECUTIVE_FOUR),
    Pattern("0110112", 220, MAKE_CONSECUTIVE_FOUR),
    Pattern("0111012", 220, MAKE_CONSECUTIVE_FOUR),
    Pattern("0110110", 220, MAKE_CONSECUTIVE_FOUR),
    Pattern("0101110", 220, MAKE_CONSECUTIVE_FOUR),
    Pattern("001110", 210, OPEN_THREE),
    Pattern("010110", 210, OPEN_THREE),
    Pattern("001112", 60, HALF_OPEN_THREE),
    Pattern("010112", 60, HALF_OPEN_THREE),
    Pattern("011012", 60, HALF_OPEN_THREE),
    Pattern("10011", 60, HALF_OPEN_THREE),
    Pattern("10101", 60, HALF_OPEN_THREE),
    Pattern("2011102", 60, HALF_OPEN_THREE),
    Pattern("00110", 15, OPEN_TWO),
    Pattern("01010", 15, OPEN_TWO),
    Pattern("010010", 15, OPEN_TWO),
    Pattern("000112", 13, HALF_OPEN_TWO),
    Pattern("001012", 13, HALF_OPEN_TWO),
    Pattern("010012", 13, HALF_OPEN_TWO),
    Pattern("10001", 13, HALF_OPEN_TWO),
    Pattern("2010102", 13, HALF_OPEN_TWO),
    Pattern("2011002", 13, HALF_OPEN_TWO),
    Pattern("211112", 0, CLOSE_FOUR),
    Pattern("21112", 0, CLOSE_THREE),
    Pattern("2112", 0, CLOSE_TWO)
  ]

  /** The highest pattern score. */
  const MAX_SCORE: int := 1000000

  predicate IsCellChar(ch: char) {
    ch == '0' || ch == '1' || ch == '2'
  }

  /** A pattern fits one window and is spelled with cell characters only. */
  predicate WellSpelled(p: Pattern) {
    1 <= |p.text| <= WINDOW && forall k :: 0 <= k < |p.text| ==> IsCellChar(p.text[k])
  }

  /** Every pattern fits the 14-bit window and uses only '0', '1' and '2'. */
  lemma PatternsWellSpelled()
    ensures |PATTERNS| == 28
    ensures forall i :: 0 <= i < |PATTERNS| ==> WellSpelled(PATTERNS[i])
  {
    forall i | 0 <= i < |PATTERNS|
      ensures WellSpelled(PATTERNS[i])
    {
      var p := PATTERNS[i];
      assert p.text == PATTERNS[i].text;
    }
  }

  /** The list of scores, in pattern order. */
  const SCORES: seq<int> := [
    1000000, 11000, 220, 220, 220, 220, 220, 220, 210, 210, 60, 60, 60, 60,
    60, 60, 15, 15, 15, 13, 13, 13, 13, 13, 13, 0, 0, 0]

  lemma ScoresListed()
    ensures |SCORES| == |PATTERNS|
    ensures forall i :: 0 <= i < |PATTERNS| ==> PATTERNS[i].score == SCORES[i]
  {
  }

  /** Scores never increase down the list, and lie between 0 and MAX_SCORE. */
  lemma {:induction false} ScoresNonIncreasing()
    ensures forall i, j :: 0 <= i <= j < |PATTERNS| ==> PATTERNS[j].score <= PATTERNS[i].score
    ensures forall i :: 0 <= i < |PATTERNS| ==> 0 <= PATTERNS[i].score <= MAX_SCORE
  {
    ScoresListed();
    assert forall i :: 0 <= i < |SCORES| - 1 ==> SCORES[i + 1] <= SCORES[i];
    forall i, j | 0 <= i <= j < |SCORES|
      ensures SCORES[j] <= SCORES[i]
    {
      var k := i;
      while k < j
        invariant i <= k <= j
        invariant SCORES[k] <= SCORES[i]
      {
        k := k + 1;
      }
    }
  }

  /** Exactly the three blocked patterns at the end score zero, and they carry the CLOSE labels. */
  lemma BlockedPatternsScoreZero()
    ensures forall i :: 0 <= i < |PATTERNS| ==> (PATTERNS[i].score == 0 <==> i >= 25)
    ensures forall i :: 25 <= i < |PATTERNS| ==>
      PATTERNS[i].kind == CLOSE_FOUR || PATTERNS[i].kind == CLOSE_THREE || PATTERNS[i].kind == CLOSE_TWO
  {
  }
}

/** The three scorers: a string is scored position by position against a
    matrix (scoring.py, score_sum, score_pssm and score_pssm_log). Each one
    is written as the source's loop: an accumulator that takes in the cell
    of the string's base at each position in turn. */
module Scorers {
  import opened Dna
  import opened Folds

  /** What every scorer demands: the row of the base at position `i` has an
      entry at `i`. The source does not check that the string is as long as
      the motif; a shorter string is scored on its own positions. */
  predicate Fits(s: seq<Base>, m: Matrix<real>) {
    forall i :: 0 <= i < |s| ==> i < |m.Row(s[i])|
  }

  /** The cells the scorers look up, in string order. */
  function Lookups(s: seq<Base>, m: Matrix<real>): (xs: seq<real>)
    requires Fits(s, m)
    ensures |xs| == |s|
  {
    seq(|s|, i requires 0 <= i < |s| => m.Row(s[i])[i])
  }

  /** score_sum: starts at 1 and adds every looked-up cell. With cells in
      [0,1] the score lies in [1, |s| + 1]. */
  function ScoreSum(s: seq<Base>, m: Matrix<real>): (r: real)
    requires Fits(s, m)
    ensures InUnit(m) ==> 1.0 <= r <= |s| as real + 1.0
    decreases |s|
  {
    if |s| == 0 then 1.0
    else ScoreSum(s[..|s| - 1], m) + m.Row(s[|s| - 1])[|s| - 1]
  }

  /** score_pssm: starts at 1 and multiplies by every looked-up cell. With
      cells in [0,1] the score lies in [0,1]. */
  function ScorePssm(s: seq<Base>, m: Matrix<real>): (r: real)
    requires Fits(s, m)
    ensures InUnit(m) ==> 0.0 <= r <= 1.0
    decreases |s|
  {
    if |s| == 0 then 1.0
    else
      var prev := ScorePssm(s[..|s| - 1], m);
      var cell := m.Row(s[|s| - 1])[|s| - 1];
      UnitFactors(prev, cell);
      prev * cell
  }

  /** score_pssm_log: starts at 0 and adds every looked-up cell. Its cells
      are costs (negated logarithms of frequencies, so lower is better); when
      none of them is negative, neither is the score. */
  function ScorePssmLog(s: seq<Base>, m: Matrix<real>): (r: real)
    requires Fits(s, m)
    ensures (forall i :: 0 <= i < |s| ==> 0.0 <= m.Row(s[i])[i]) ==> 0.0 <= r
    decreases |s|
  {
    if |s| == 0 then 0.0
    else ScorePssmLog(s[..|s| - 1], m) + m.Row(s[|s| - 1])[|s| - 1]
  }

  /** Dropping the last base of a string drops the last looked-up cell. */
  lemma LookupsSnoc(s: seq<Base>, m: Matrix<real>)
    requires Fits(s, m) && |s| > 0
    ensures Lookups(s, m) == Lookups(s[..|s| - 1], m) + [m.Row(s[|s| - 1])[|s| - 1]]
  {
  }

  /** The two additive scorers differ exactly by score_sum's starting value 1. */
  lemma {:induction false} ScoreSumIsOffsetLogScore(s: seq<Base>, m: Matrix<real>)
    requires Fits(s, m)
    ensures ScoreSum(s, m) == 1.0 + ScorePssmLog(s, m)
    decreases |s|
  {
    if |s| > 0 {
      ScoreSumIsOffsetLogScore(s[..|s| - 1], m);
    }
  }

  /** score_pssm_log is the sum of the looked-up cells. */
  lemma {:induction false} LogScoreIsSum(s: seq<Base>, m: Matrix<real>)
    requires Fits(s, m)
    ensures ScorePssmLog(s, m) == Sum(Lookups(s, m))
    decreases |s|
  {
    if |s| > 0 {
      LogScoreIsSum(s[..|s| - 1], m);
      LookupsSnoc(s, m);
      SumSnoc(Lookups(s[..|s| - 1], m), m.Row(s[|s| - 1])[|s| - 1]);
    }
  }

  /** score_pssm is the product of the looked-up cells. */
  lemma {:induction false} PssmScoreIsProduct(s: seq<Base>, m: Matrix<real>)
    requires Fits(s, m)
    ensures ScorePssm(s, m) == Product(Lookups(s, m))
    decreases |s|
  {
    if |s| > 0 {
      PssmScoreIsProduct(s[..|s| - 1], m);
      LookupsSnoc(s, m);
      ProductSnoc(Lookups(s[..|s| - 1], m), m.Row(s[|s| - 1])[|s| - 1]);
    }
  }

  /** If every looked-up cell lies in (0,1], so does the product score. */
  lemma PssmScorePositive(s: seq<Base>, m: Matrix<real>)
    requires Fits(s, m)
    requires forall i :: 0 <= i < |s| ==> 0.0 < m.Row(s[i])[i] <= 1.0
    ensures 0.0 < ScorePssm(s, m) <= 1.0
  {
    PssmScoreIsProduct(s, m);
    ProductPositive(Lookups(s, m));
  }

  /** The documented example "AT": the product scorer gives 0.5; score_sum
      gives 2.5 (its documentation claims 1.5, which neither scorer returns). */
  lemma ScoreExample()
    ensures ScorePssm([A, T], Matrix([1.0, 0.0], [0.0, 0.5], [0.0, 0.5], [0.0, 0.0])) == 0.5
    ensures ScoreSum([A, T], Matrix([1.0, 0.0], [0.0, 0.5], [0.0, 0.5], [0.0, 0.0])) == 2.5
  {
  }
}

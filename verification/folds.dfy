/** Sums and products of sequences of reals, the reference meaning of the
    scorers' running accumulators. */
module Folds {

  function Sum(xs: seq<real>): real {
    if |xs| == 0 then 0.0 else xs[0] + Sum(xs[1..])
  }

  function Product(xs: seq<real>): real {
    if |xs| == 0 then 1.0 else xs[0] * Product(xs[1..])
  }

  /** Adding one more element at the end of a sum. */
  lemma {:induction false} SumSnoc(xs: seq<real>, x: real)
    ensures Sum(xs + [x]) == Sum(xs) + x
  {
    if |xs| == 0 {
      assert xs + [x] == [x];
    } else {
      assert (xs + [x])[1..] == xs[1..] + [x];
      SumSnoc(xs[1..], x);
    }
  }

  /** Multiplying one more factor at the end of a product. */
  lemma {:induction false} ProductSnoc(xs: seq<real>, x: real)
    ensures Product(xs + [x]) == Product(xs) * x
  {
    if |xs| == 0 {
      assert xs + [x] == [x];
    } else {
      assert (xs + [x])[1..] == xs[1..] + [x];
      ProductSnoc(xs[1..], x);
    }
  }

  /** A product of factors from [0,1] lies in [0,1]. */
  lemma {:induction false} ProductInUnit(xs: seq<real>)
    requires forall i :: 0 <= i < |xs| ==> 0.0 <= xs[i] <= 1.0
    ensures 0.0 <= Product(xs) <= 1.0
  {
    if |xs| > 0 {
      ProductInUnit(xs[1..]);
      MulInUnit(xs[0], Product(xs[1..]));
    }
  }

  /** A product of factors from (0,1] lies in (0,1]. */
  lemma {:induction false} ProductPositive(xs: seq<real>)
    requires forall i :: 0 <= i < |xs| ==> 0.0 < xs[i] <= 1.0
    ensures 0.0 < Product(xs) <= 1.0
  {
    if |xs| > 0 {
      ProductPositive(xs[1..]);
      MulInUnit(xs[0], Product(xs[1..]));
      assert xs[0] * Product(xs[1..]) > 0.0;
    }
  }

  /** With factors from [0,1], the product is at most any single factor. */
  lemma {:induction false} ProductAtMostFactor(xs: seq<real>, j: int)
    requires forall i :: 0 <= i < |xs| ==> 0.0 <= xs[i] <= 1.0
    requires 0 <= j < |xs|
    ensures Product(xs) <= xs[j]
  {
    ProductAtMostHeadAndTail(xs);
    if j > 0 {
      ProductAtMostFactor(xs[1..], j - 1);
      assert xs[1..][j - 1] == xs[j];
    }
  }

  lemma ProductAtMostHeadAndTail(xs: seq<real>)
    requires forall i :: 0 <= i < |xs| ==> 0.0 <= xs[i] <= 1.0
    requires |xs| > 0
    ensures Product(xs) <= xs[0] && Product(xs) <= Product(xs[1..])
  {
    ProductInUnit(xs[1..]);
    MulInUnit(xs[0], Product(xs[1..]));
  }

  /** Multiplying two numbers from [0,1] gives at most either of them. */
  lemma MulInUnit(x: real, y: real)
    requires 0.0 <= x <= 1.0 && 0.0 <= y <= 1.0
    ensures 0.0 <= x * y <= y && x * y <= x
  {
  }

  /** Two factors from [0,1] have their product in [0,1]. */
  lemma UnitFactors(x: real, y: real)
    ensures 0.0 <= x <= 1.0 && 0.0 <= y <= 1.0 ==> 0.0 <= x * y <= 1.0
  {
    if 0.0 <= x <= 1.0 && 0.0 <= y <= 1.0 {
      MulInUnit(x, y);
    }
  }
}

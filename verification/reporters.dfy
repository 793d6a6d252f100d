/** The percentage reporters: the training motifs scored with the product
    scorer against their own frequency matrix (scoring.py,
    get_motifs_percentage and get_total_motifs_percentage). */
module Reporters {
  import opened Dna
  import opened Folds
  import opened Counts
  import opened Frequencies
  import opened Scorers

  /** The motifs as a set. */
  function Elements(ms: seq<seq<Base>>): (e: set<seq<Base>>)
    ensures forall x :: x in e <==> x in ms
  {
    set x | x in ms
  }

  /** The dictionary's keys: the distinct motifs, built in order of first
      occurrence. */
  function Distinct(ms: seq<seq<Base>>): (d: seq<seq<Base>>)
    ensures forall x :: x in d <==> x in ms
    ensures forall j, k :: 0 <= j < k < |d| ==> d[j] != d[k]
    ensures |d| == |Elements(ms)|
    decreases |ms|
  {
    if |ms| == 0 then []
    else
      var prev := Distinct(ms[..|ms| - 1]);
      var last := ms[|ms| - 1];
      assert ms == ms[..|ms| - 1] + [last];
      assert Elements(ms) == Elements(ms[..|ms| - 1]) + {last};
      if last in prev then
        assert Elements(ms) == Elements(ms[..|ms| - 1]);
        prev
      else
        prev + [last]
  }

  /** The source's loop over the motifs: each one is stored under its own
      string, so a repeated motif overwrites its earlier entry with the same
      score. */
  function ScoreEach(ms: seq<seq<Base>>, f: Matrix<real>): (d: map<seq<Base>, real>)
    requires forall x :: x in ms ==> Fits(x, f)
    ensures d.Keys == Elements(ms)
    ensures forall x :: x in d ==> Fits(x, f) && d[x] == ScorePssm(x, f)
    decreases |ms|
  {
    if |ms| == 0 then map[]
    else
      var last := ms[|ms| - 1];
      assert ms == ms[..|ms| - 1] + [last];
      ScoreEach(ms[..|ms| - 1], f)[last := ScorePssm(last, f)]
  }

  /** A motif of the training set scores in (0,1] against the set's own
      frequency matrix: each base it carries was counted at least once. */
  lemma TrainingMotifScore(motifs: seq<seq<Base>>, x: seq<Base>)
    requires |motifs| > 0 && SameLength(motifs) && |motifs[0]| > 0
    requires x in motifs
    ensures Fits(x, FrequencyMatrix(motifs))
    ensures 0.0 < ScorePssm(x, FrequencyMatrix(motifs)) <= 1.0
  {
    var f := FrequencyMatrix(motifs);
    var n := |motifs|;
    forall i | 0 <= i < |x|
      ensures i < |f.Row(x[i])| && 0.0 < f.Row(x[i])[i] <= 1.0
    {
      OwnBasesCounted(motifs, x, i);
      var k := Occurrences(motifs, x[i], i);
      assert f.Row(x[i])[i] == k as real / n as real;
      assert 1 <= k <= n;
    }
    PssmScorePositive(x, f);
  }

  /** get_motifs_percentage: one entry per distinct motif, holding its
      product score against the frequency matrix of all motifs, which lies
      in (0,1]. */
  function MotifsPercentage(motifs: seq<seq<Base>>): (d: map<seq<Base>, real>)
    requires |motifs| > 0 && SameLength(motifs) && |motifs[0]| > 0
    ensures d.Keys == Elements(motifs)
    ensures forall x :: x in d ==> Fits(x, FrequencyMatrix(motifs)) && d[x] == ScorePssm(x, FrequencyMatrix(motifs))
    ensures forall x :: x in d ==> 0.0 < d[x] <= 1.0
  {
    var f := FrequencyMatrix(motifs);
    AllTrainingMotifsScore(motifs);
    ScoreEach(motifs, f)
  }

  lemma AllTrainingMotifsScore(motifs: seq<seq<Base>>)
    requires |motifs| > 0 && SameLength(motifs) && |motifs[0]| > 0
    ensures forall x :: x in motifs ==> Fits(x, FrequencyMatrix(motifs))
    ensures forall x :: x in motifs ==>
      Fits(x, FrequencyMatrix(motifs)) && 0.0 < ScorePssm(x, FrequencyMatrix(motifs)) <= 1.0
  {
    forall x | x in motifs
      ensures Fits(x, FrequencyMatrix(motifs)) && 0.0 < ScorePssm(x, FrequencyMatrix(motifs)) <= 1.0
    {
      TrainingMotifScore(motifs, x);
    }
  }

  /** The dictionary's values, taken in the order of `keys`. */
  function ValuesOf(keys: seq<seq<Base>>, d: map<seq<Base>, real>): (vs: seq<real>)
    requires forall x :: x in keys ==> x in d
    ensures |vs| == |keys|
    ensures forall j :: 0 <= j < |keys| ==> vs[j] == d[keys[j]]
  {
    seq(|keys|, j requires 0 <= j < |keys| => d[keys[j]])
  }

  /** get_total_motifs_percentage: the product of the dictionary's values,
      one factor per distinct motif. It lies in (0,1] and is at most the
      score of any single motif. */
  function TotalMotifsPercentage(motifs: seq<seq<Base>>): (r: real)
    requires |motifs| > 0 && SameLength(motifs) && |motifs[0]| > 0
    ensures 0.0 < r <= 1.0
    ensures forall x :: x in motifs ==> r <= MotifsPercentage(motifs)[x]
  {
    var d := MotifsPercentage(motifs);
    var keys := Distinct(motifs);
    ProductOfScores(keys, d);
    Product(ValuesOf(keys, d))
  }

  /** A product of dictionary values from (0,1], one per key, lies in (0,1]
      and is at most each of them. */
  lemma ProductOfScores(keys: seq<seq<Base>>, d: map<seq<Base>, real>)
    requires forall x :: x in keys ==> x in d
    requires forall x :: x in d ==> 0.0 < d[x] <= 1.0
    ensures 0.0 < Product(ValuesOf(keys, d)) <= 1.0
    ensures forall x :: x in keys ==> Product(ValuesOf(keys, d)) <= d[x]
  {
    var values := ValuesOf(keys, d);
    ProductPositive(values);
    forall x | x in keys
      ensures Product(values) <= d[x]
    {
      var j :| 0 <= j < |keys| && keys[j] == x;
      ProductAtMostFactor(values, j);
    }
  }

  /** A list without repeated motifs is its own list of distinct motifs. */
  lemma {:induction false} DistinctOfDuplicateFree(ms: seq<seq<Base>>)
    requires forall j, k :: 0 <= j < k < |ms| ==> ms[j] != ms[k]
    ensures Distinct(ms) == ms
    decreases |ms|
  {
    if |ms| > 0 {
      var prev := ms[..|ms| - 1];
      DistinctOfDuplicateFree(prev);
      assert ms[|ms| - 1] !in prev;
      assert ms == prev + [ms[|ms| - 1]];
    }
  }

  /** The product score of each motif against `f`, in list order. */
  function ScoresOf(ms: seq<seq<Base>>, f: Matrix<real>): (vs: seq<real>)
    requires forall x :: x in ms ==> Fits(x, f)
    ensures |vs| == |ms|
  {
    seq(|ms|, j requires 0 <= j < |ms| => ScorePssm(ms[j], f))
  }

  lemma ValuesAreScores(ms: seq<seq<Base>>, f: Matrix<real>, d: map<seq<Base>, real>)
    requires forall x :: x in ms ==> Fits(x, f) && x in d
    requires forall x :: x in d ==> Fits(x, f) && d[x] == ScorePssm(x, f)
    ensures ValuesOf(ms, d) == ScoresOf(ms, f)
  {
  }

  /** For any motif list, repeats included, the total is the product of the
      scores of the distinct motifs, each taken once however often it is
      listed, because a repeated motif only overwrites its dictionary entry. */
  lemma TotalIsProductOfDistinctScores(motifs: seq<seq<Base>>)
    requires |motifs| > 0 && SameLength(motifs) && |motifs[0]| > 0
    ensures forall x :: x in Distinct(motifs) ==> Fits(x, FrequencyMatrix(motifs))
    ensures TotalMotifsPercentage(motifs) == Product(ScoresOf(Distinct(motifs), FrequencyMatrix(motifs)))
  {
    AllTrainingMotifsScore(motifs);
    ValuesAreScores(Distinct(motifs), FrequencyMatrix(motifs), MotifsPercentage(motifs));
  }

  /** Without repeated motifs, the total is the product of every motif's
      score against the frequency matrix of them all, each taken once. */
  lemma TotalOfDuplicateFree(motifs: seq<seq<Base>>)
    requires |motifs| > 0 && SameLength(motifs) && |motifs[0]| > 0
    requires forall j, k :: 0 <= j < k < |motifs| ==> motifs[j] != motifs[k]
    ensures forall x :: x in motifs ==> Fits(x, FrequencyMatrix(motifs))
    ensures TotalMotifsPercentage(motifs) == Product(ScoresOf(motifs, FrequencyMatrix(motifs)))
  {
    TotalIsProductOfDistinctScores(motifs);
    DistinctOfDuplicateFree(motifs);
  }

  /** A repeated motif is a single factor: for ["A", "A", "T"] the frequencies
      are 2/3 for A and 1/3 for T, and the total is 2/3 * 1/3 = 2/9, not the
      4/27 of one factor per listed motif. */
  lemma RepeatedMotifExample(ms: seq<seq<Base>>)
    requires ms == [[A], [A], [T]]
    ensures TotalMotifsPercentage(ms) == 2.0 / 9.0
    ensures Product(ScoresOf(ms, FrequencyMatrix(ms))) == 4.0 / 27.0
  {
    RepeatedMotifTotal(ms);
    RepeatedMotifScores(ms);
    RepeatedMotifProducts();
  }

  lemma RepeatedMotifTotal(ms: seq<seq<Base>>)
    requires ms == [[A], [A], [T]]
    ensures Fits([A], FrequencyMatrix(ms)) && Fits([T], FrequencyMatrix(ms))
    ensures TotalMotifsPercentage(ms) == Product(ScoresOf([[A], [T]], FrequencyMatrix(ms)))
  {
    RepeatedMotifKeys();
    TotalIsProductOfDistinctScores(ms);
  }

  lemma RepeatedMotifKeys()
    ensures Distinct([[A], [A], [T]]) == [[A], [T]]
  {
    var ms: seq<seq<Base>> := [[A], [A], [T]];
    assert ms[..2] == [[A], [A]] && ms[..2][..1] == [[A]] && ms[..2][..1][..0] == [];
  }

  lemma RepeatedMotifScores(ms: seq<seq<Base>>)
    requires ms == [[A], [A], [T]]
    ensures Fits([A], FrequencyMatrix(ms)) && Fits([T], FrequencyMatrix(ms))
    ensures ScoresOf([[A], [T]], FrequencyMatrix(ms)) == [2.0 / 3.0, 1.0 / 3.0]
    ensures ScoresOf(ms, FrequencyMatrix(ms)) == [2.0 / 3.0, 2.0 / 3.0, 1.0 / 3.0]
  {
    var f := FrequencyMatrix(ms);
    RepeatedMotifCells(ms);
    assert [A][..0] == [] && [T][..0] == [];
    assert ScorePssm([A], f) == 2.0 / 3.0 && ScorePssm([T], f) == 1.0 / 3.0;
  }

  lemma RepeatedMotifCells(ms: seq<seq<Base>>)
    requires ms == [[A], [A], [T]]
    ensures FrequencyMatrix(ms).Shaped(1)
    ensures FrequencyMatrix(ms).a[0] == 2.0 / 3.0 && FrequencyMatrix(ms).t[0] == 1.0 / 3.0
  {
    var f := FrequencyMatrix(ms);
    assert Carriers(ms, A, 0) == {0, 1};
    assert Carriers(ms, T, 0) == {2};
    assert |{0, 1}| == 2 by { assert {0, 1} == {0} + {1}; }
    assert f.Row(A)[0] == 2 as real / 3 as real && f.Row(T)[0] == 1 as real / 3 as real;
  }

  lemma RepeatedMotifProducts()
    ensures Product([2.0 / 3.0, 1.0 / 3.0]) == 2.0 / 9.0
    ensures Product([2.0 / 3.0, 2.0 / 3.0, 1.0 / 3.0]) == 4.0 / 27.0
  {
    var xs := [2.0 / 3.0, 2.0 / 3.0, 1.0 / 3.0];
    assert xs[1..] == [2.0 / 3.0, 1.0 / 3.0];
    assert xs[1..][1..] == [1.0 / 3.0] && xs[1..][1..][1..] == [];
  }
}

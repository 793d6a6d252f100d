/** The count matrix: per base and position, how many instances carry that
    base there (scoring.py, instances_to_count_matrix). */
module Counts {
  import opened Dna

  /** Reference meaning of a count: the number of instances with base `b` at
      position `i`, as the cardinality of the set of their indices. */
  function Occurrences(insts: seq<seq<Base>>, b: Base, i: int): nat
    requires Covers(insts, i)
  {
    |Carriers(insts, b, i)|
  }

  /** Every instance has a position `i`. */
  predicate Covers(insts: seq<seq<Base>>, i: int) {
    0 <= i && forall k :: 0 <= k < |insts| ==> i < |insts[k]|
  }

  /** The indices of the instances that carry base `b` at position `i`. */
  function Carriers(insts: seq<seq<Base>>, b: Base, i: int): (s: set<int>)
    requires Covers(insts, i)
    ensures forall k :: k in s <==> 0 <= k < |insts| && insts[k][i] == b
  {
    set k | 0 <= k < |insts| && insts[k][i] == b
  }

  /** The freshly allocated matrix: four rows of `width` zeros. */
  function Zeros(width: nat): (m: Matrix<int>)
    ensures m.Shaped(width)
  {
    var z := seq(width, _ => 0);
    Matrix(z, z, z, z)
  }

  /** The row of base `b` after the inner loop has visited every position of `inst`. */
  function Tick(row: seq<int>, inst: seq<Base>, b: Base): (r: seq<int>)
    requires |inst| == |row|
  {
    seq(|row|, i requires 0 <= i < |row| => if inst[i] == b then row[i] + 1 else row[i])
  }

  /** One iteration of the outer loop: every position of `inst` adds one to
      the count of the base it carries. */
  function AddInstance(m: Matrix<int>, inst: seq<Base>): (m': Matrix<int>)
    requires m.Shaped(|inst|)
  {
    Matrix(Tick(m.a, inst, A), Tick(m.t, inst, T), Tick(m.c, inst, C), Tick(m.g, inst, G))
  }

  /** The outer loop after it has consumed `insts`, starting from `Zeros(width)`. */
  function Tally(insts: seq<seq<Base>>, width: nat): (m: Matrix<int>)
    requires forall k :: 0 <= k < |insts| ==> |insts[k]| == width
    ensures m.Shaped(width)
    ensures forall b: Base, i :: 0 <= i < width ==> m.Row(b)[i] == Occurrences(insts, b, i)
    ensures forall i :: 0 <= i < width ==> Total(m, i) == |insts|
    decreases |insts|
  {
    if |insts| == 0 then
      Zeros(width)
    else
      var prev := insts[..|insts| - 1];
      var m := Tally(prev, width);
      OccurrencesSnoc(insts, width);
      AddInstanceTotal(m, insts[|insts| - 1]);
      AddInstance(m, insts[|insts| - 1])
  }

  /** Each position of an instance adds one to exactly one of the four rows. */
  lemma AddInstanceTotal(m: Matrix<int>, inst: seq<Base>)
    requires m.Shaped(|inst|)
    ensures forall i :: 0 <= i < |inst| ==> Total(AddInstance(m, inst), i) == Total(m, i) + 1
  {
  }

  /** Adding one instance at the end adds one to exactly the count of the
      base it carries, at every position. */
  lemma OccurrencesSnoc(insts: seq<seq<Base>>, width: nat)
    requires |insts| > 0
    requires forall k :: 0 <= k < |insts| ==> |insts[k]| == width
    ensures forall b: Base, i :: 0 <= i < width ==>
      Occurrences(insts, b, i)
      == Occurrences(insts[..|insts| - 1], b, i) + (if insts[|insts| - 1][i] == b then 1 else 0)
  {
    var n := |insts| - 1;
    var prev := insts[..n];
    forall b: Base, i | 0 <= i < width
      ensures Occurrences(insts, b, i) == Occurrences(prev, b, i) + (if insts[n][i] == b then 1 else 0)
    {
      var before := Carriers(prev, b, i);
      var after := Carriers(insts, b, i);
      if insts[n][i] == b {
        assert after == before + {n};
      } else {
        assert after == before;
      }
    }
  }

  /** instances_to_count_matrix: the source asserts that every instance has
      the length of the first, and indexes the first, so the list must be
      non-empty. Each row has the motif length, each entry counts the
      instances with that base at that position, and each column adds up to
      the number of instances. */
  function CountMatrix(insts: seq<seq<Base>>): (m: Matrix<int>)
    requires |insts| > 0 && SameLength(insts)
    ensures m.Shaped(|insts[0]|)
    ensures forall b: Base, i :: 0 <= i < |insts[0]| ==> m.Row(b)[i] == Occurrences(insts, b, i)
    ensures forall i :: 0 <= i < |insts[0]| ==> Total(m, i) == |insts|
    ensures forall b: Base, i :: 0 <= i < |insts[0]| ==> 0 <= m.Row(b)[i] <= |insts|
  {
    var m := Tally(insts, |insts[0]|);
    assert forall b: Base, i :: 0 <= i < |insts[0]| ==> 0 <= m.Row(b)[i] <= |insts| by {
      forall b: Base, i | 0 <= i < |insts[0]|
        ensures 0 <= m.Row(b)[i] <= |insts|
      {
        assert Total(m, i) == |insts|;
        assert m.Row(A)[i] >= 0 && m.Row(T)[i] >= 0 && m.Row(C)[i] >= 0 && m.Row(G)[i] >= 0;
      }
    }
    m
  }

  /** An instance contributes at least one to the count of each of its own bases. */
  lemma {:induction false} OwnBasesCounted(insts: seq<seq<Base>>, x: seq<Base>, i: int)
    requires |insts| > 0 && SameLength(insts)
    requires x in insts && 0 <= i < |x|
    ensures 1 <= CountMatrix(insts).Row(x[i])[i]
  {
  }

  /** The example from the documentation: ["ACC", "ATG"]. */
  lemma CountMatrixExample()
    ensures CountMatrix([[A, C, C], [A, T, G]])
         == Matrix([2, 0, 0], [0, 1, 0], [0, 1, 1], [0, 0, 1])
  {
    var insts := [[A, C, C], [A, T, G]];
    assert insts[..1] == [[A, C, C]];
    assert insts[..1][..0] == [];
    var m0 := Tally([], 3);
    var m1 := Tally([[A, C, C]], 3);
    assert m1 == AddInstance(m0, [A, C, C]);
    assert CountMatrix(insts) == AddInstance(m1, [A, T, G]);
  }
}

/** The alphabet and the matrix shape shared by every stage of the PSSM pipeline. */
module Dna {

  /** One of the four DNA bases. A string over any other symbol cannot be
      written as a `seq<Base>`, which is how the model rules out the lookup
      failure the source raises for an unknown character. */
  datatype Base = A | T | C | G

  /** The fixed base order: the order of the rows and of every column sum. */
  const Bases: seq<Base> := [A, T, C, G]

  /** A position-specific matrix: one row per base, entry `Row(b)[i]` belongs
      to base `b` at position `i`. Counts use `Matrix<int>`, frequencies and
      scores use `Matrix<real>`. */
  datatype Matrix<N> = Matrix(a: seq<N>, t: seq<N>, c: seq<N>, g: seq<N>) {

    function Row(b: Base): seq<N> {
      match b
      case A => a
      case T => t
      case C => c
      case G => g
    }

    /** All four rows have exactly `width` entries. */
    predicate Shaped(width: nat) {
      |a| == width && |t| == width && |c| == width && |g| == width
    }

    /** Every row has an entry at position `i`. */
    predicate HasColumn(i: int) {
      0 <= i && i < |a| && i < |t| && i < |c| && i < |g|
    }
  }

  /** The four counts at position `i`, added in base order. */
  function Total(m: Matrix<int>, i: int): int
    requires m.HasColumn(i)
  {
    m.a[i] + m.t[i] + m.c[i] + m.g[i]
  }

  /** The four frequencies at position `i`, added in base order. */
  function Mass(m: Matrix<real>, i: int): real
    requires m.HasColumn(i)
  {
    m.a[i] + m.t[i] + m.c[i] + m.g[i]
  }

  /** Every entry of every row lies in the closed unit interval. */
  predicate InUnit(m: Matrix<real>) {
    forall b: Base, i :: 0 <= i < |m.Row(b)| ==> 0.0 <= m.Row(b)[i] <= 1.0
  }

  /** All instances have the length of the first one. */
  predicate SameLength(insts: seq<seq<Base>>)
    requires |insts| > 0
  {
    forall k :: 0 <= k < |insts| ==> |insts[k]| == |insts[0]|
  }
}

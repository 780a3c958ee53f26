/**
 * The sum-of-squares feature of net.imglib2.ops.features.firstorder.sums: one pass
 * over the input values, starting at 0 and adding each value times itself.
 * Sample values are reals; double rounding is not modelled.
 */
module Sums {

  /** What recompute returns for the values `s`: 0, plus val * val for each value in order. */
  function SumOfSquaresOf(s: seq<real>): real
    decreases |s|
  {
    if |s| == 0 then 0.0 else SumOfSquaresOf(s[..|s| - 1]) + s[|s| - 1] * s[|s| - 1]
  }

  /** The sum of squares is never negative. */
  lemma {:induction false} SumOfSquaresNonNegative(s: seq<real>)
    ensures SumOfSquaresOf(s) >= 0.0
    decreases |s|
  {
    if |s| > 0 {
      SumOfSquaresNonNegative(s[..|s| - 1]);
      SquareNonNegative(s[|s| - 1]);
    }
  }

  lemma SquareNonNegative(v: real)
    ensures v * v >= 0.0
  {
    if v < 0.0 {
      assert v * v == (-v) * (-v);
    }
  }

  /** Appending `v` adds exactly v * v: the loop step. */
  lemma SumOfSquaresAppend(s: seq<real>, v: real)
    ensures SumOfSquaresOf(s + [v]) == SumOfSquaresOf(s) + v * v
  {
    assert (s + [v])[..|s|] == s;
  }

  /** The sum over a concatenation is the sum of the sums, so the sum does not depend on how the input is split. */
  lemma {:induction false} SumOfSquaresConcat(a: seq<real>, b: seq<real>)
    ensures SumOfSquaresOf(a + b) == SumOfSquaresOf(a) + SumOfSquaresOf(b)
    decreases |b|
  {
    if |b| > 0 {
      var b' := b[..|b| - 1];
      var v := b[|b| - 1];
      assert a + b == (a + b') + [v];
      assert b == b' + [v];
      SumOfSquaresConcat(a, b');
      SumOfSquaresAppend(a + b', v);
      SumOfSquaresAppend(b', v);
    } else {
      assert a + b == a;
    }
  }

  /** With no input the result is 0. */
  lemma SumOfSquaresEmpty()
    ensures SumOfSquaresOf([]) == 0.0
  {
  }

  /** The sum of squares of [5, 2, -3, 9] is 119. */
  lemma SumOfSquaresExample()
    ensures SumOfSquaresOf([5.0, 2.0, -3.0, 9.0]) == 119.0
  {
    assert [5.0, 2.0, -3.0, 9.0][..3] == [5.0, 2.0, -3.0];
    assert [5.0, 2.0, -3.0][..2] == [5.0, 2.0];
    assert [5.0, 2.0][..1] == [5.0];
    assert [5.0][..0] == [];
  }

  /** The SumOfSquares feature: its input, injected by the feature framework, and its computation. */
  class SumOfSquares
  {
    /** The values the framework hands in, as getRealDouble() gives them. */
    var ii: seq<real>

    constructor ()
      ensures ii == []
    {
      ii := [];
    }

    function Name(): (name: string)
      ensures name == "Sum of Squares"
    {
      "Sum of Squares"
    }

    /** copy(): a new SumOfSquares, sharing nothing with this one. */
    method Copy() returns (c: SumOfSquares)
      ensures fresh(c) && c.ii == []
    {
      c := new SumOfSquares();
    }

    /** recompute(): one pass over the input, adding val * val for each value. */
    method Recompute() returns (result: real)
      ensures result == SumOfSquaresOf(ii)
      ensures result >= 0.0
    {
      result := 0.0;
      var k := 0;
      while k < |ii|
        invariant 0 <= k <= |ii|
        invariant result == SumOfSquaresOf(ii[..k])
      {
        var val := ii[k];
        k := k + 1;
        assert ii[..k] == ii[..k - 1] + [val];
        SumOfSquaresAppend(ii[..k - 1], val);
        result := result + val * val;
      }
      assert ii[..k] == ii;
      SumOfSquaresNonNegative(ii);
    }
  }
}

/**
 * The minimum feature of net.imglib2.ops.features.firstorder: one pass over the
 * input values, starting from Double.MAX_VALUE and keeping the smaller value.
 * Sample values are reals; double rounding, NaN and infinities are not modelled.
 */
module FirstOrder {

  /** Double.MAX_VALUE, (2^53 - 1) * 2^971, written out exactly. */
  const DoubleMaxValue: real := 179769313486231570814527423731704356798070567525844996598917476803157260780028538760589558632766878171540458953514382464234321326889464182768467546703537516986049910576551282076245490090389328944075868508455133942304583236903222948165808559332123348274797826204144723168738177180919299881250404026184124858368.0

  /** One step of the fold: `val < min ? val : min`. */
  function Smaller(val: real, min: real): (r: real)
    ensures r <= val && r <= min
    ensures r == val || r == min
  {
    if val < min then val else min
  }

  /** What recompute returns for the values `s`: the sentinel folded with Smaller over `s` in order. */
  function MinOf(s: seq<real>): real
    decreases |s|
  {
    if |s| == 0 then DoubleMaxValue else Smaller(s[|s| - 1], MinOf(s[..|s| - 1]))
  }

  /** No input value is below the result. */
  lemma {:induction false} MinOfIsLowerBound(s: seq<real>)
    ensures forall i :: 0 <= i < |s| ==> MinOf(s) <= s[i]
    decreases |s|
  {
    if |s| > 0 {
      var init := s[..|s| - 1];
      MinOfIsLowerBound(init);
      forall i | 0 <= i < |s| ensures MinOf(s) <= s[i] {
        if i < |s| - 1 {
          assert s[i] == init[i];
        }
      }
    }
  }

  /** The result never exceeds the sentinel, whatever the input. */
  lemma {:induction false} MinOfAtMostSentinel(s: seq<real>)
    ensures MinOf(s) <= DoubleMaxValue
    decreases |s|
  {
    if |s| > 0 {
      MinOfAtMostSentinel(s[..|s| - 1]);
    }
  }

  /** The result is one of the input values, or else the sentinel. */
  lemma {:induction false} MinOfIsInputOrSentinel(s: seq<real>)
    ensures MinOf(s) in s || MinOf(s) == DoubleMaxValue
    decreases |s|
  {
    if |s| > 0 {
      var init := s[..|s| - 1];
      MinOfIsInputOrSentinel(init);
      assert s == init + [s[|s| - 1]];
    }
  }

  /**
   * For a non-empty input of finite doubles (none above Double.MAX_VALUE) the
   * result is an input value, so it is the input's least value.
   */
  lemma MinOfIsInput(s: seq<real>)
    requires |s| > 0
    requires forall i :: 0 <= i < |s| ==> s[i] <= DoubleMaxValue
    ensures MinOf(s) in s
  {
    MinOfIsInputOrSentinel(s);
    MinOfIsLowerBound(s);
    assert s[0] in s;
  }

  /** Appending a value takes the smaller of it and the old result: the loop step. */
  lemma MinOfAppend(s: seq<real>, v: real)
    ensures MinOf(s + [v]) == Smaller(v, MinOf(s))
  {
    assert (s + [v])[..|s|] == s;
  }

  /** With no input the result is the sentinel. */
  lemma MinOfEmpty()
    ensures MinOf([]) == DoubleMaxValue
  {
  }

  /** The minimum of [5, 2, -3, 9] is -3. */
  lemma MinOfExample()
    ensures MinOf([5.0, 2.0, -3.0, 9.0]) == -3.0
  {
    assert [5.0, 2.0, -3.0, 9.0][..3] == [5.0, 2.0, -3.0];
    assert [5.0, 2.0, -3.0][..2] == [5.0, 2.0];
    assert [5.0, 2.0][..1] == [5.0];
    assert [5.0][..0] == [];
  }

  /** The Min feature: its input, injected by the feature framework, and its computation. */
  class Min
  {
    /** The values the framework hands in, as getRealDouble() gives them. */
    var ii: seq<real>

    constructor ()
      ensures ii == []
    {
      ii := [];
    }

    function Name(): (name: string)
      ensures name == "Minimum"
    {
      "Minimum"
    }

    /** copy(): a new Min, sharing nothing with this one. */
    method Copy() returns (c: Min)
      ensures fresh(c) && c.ii == []
    {
      c := new Min();
    }

    /** recompute(): one pass over the input, keeping the smaller value. */
    method Recompute() returns (min: real)
      ensures min == MinOf(ii)
      ensures forall i :: 0 <= i < |ii| ==> min <= ii[i]
      ensures min <= DoubleMaxValue
    {
      min := DoubleMaxValue;
      var k := 0;
      while k < |ii|
        invariant 0 <= k <= |ii|
        invariant min == MinOf(ii[..k])
      {
        var val := ii[k];
        k := k + 1;
        assert ii[..k] == ii[..k - 1] + [val];
        MinOfAppend(ii[..k - 1], val);
        min := if val < min then val else min;
      }
      assert ii[..k] == ii;
      MinOfIsLowerBound(ii);
      MinOfAtMostSentinel(ii);
    }
  }
}

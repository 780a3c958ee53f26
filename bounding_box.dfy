/**
 * The integer bounding box of net.imglib2.transform.integer: an n-dimensional,
 * axis-aligned box held as two corner arrays of Java `long`s. Nothing in the box
 * is ordered on construction; `OrderMinMax` swaps the corners axis by axis so
 * that `corner1` becomes the minimum and `corner2` the maximum.
 */
module BoundingBoxes {

  /** Java's 64-bit `long`. Corners are only copied and compared, never added. */
  newtype Long = x: int | -0x8000_0000_0000_0000 <= x < 0x8000_0000_0000_0000

  /** The value held by a bounding box: its two corners, one entry per axis. */
  datatype Corners = Corners(corner1: seq<Long>, corner2: seq<Long>)
  {
    predicate WellFormed() { |corner1| == |corner2| }

    /** `corner1` is the minimum and `corner2` the maximum on every axis. */
    predicate IsOrdered()
      requires WellFormed()
    {
      forall d :: 0 <= d < |corner1| ==> corner1[d] <= corner2[d]
    }
  }

  /** An interval handed out by the box, as its (min, max) pair of corners. */
  datatype Interval = Interval(min: seq<Long>, max: seq<Long>)

  /**
   * What one step of orderMinMax leaves on an axis whose corners were (a, b):
   * (x, y) is (b, a) when the corners were reversed and (a, b) otherwise.
   */
  predicate SwappedIfReversed(a: Long, b: Long, x: Long, y: Long)
  {
    if a > b then x == b && y == a else x == a && y == b
  }

  /** orderMinMax on values: every reversed axis swapped, every other axis kept. */
  function OrderedCorners(c: Corners): (r: Corners)
    requires c.WellFormed()
    ensures r.WellFormed() && |r.corner1| == |c.corner1|
    decreases |c.corner1|
  {
    if |c.corner1| == 0 then c
    else
      var rest := OrderedCorners(Corners(c.corner1[1..], c.corner2[1..]));
      var a, b := c.corner1[0], c.corner2[0];
      if a > b then Corners([b] + rest.corner1, [a] + rest.corner2)
      else Corners([a] + rest.corner1, [b] + rest.corner2)
  }

  /** Axis `d` of the ordered box is axis `d` of the input, swapped exactly when it was reversed. */
  lemma {:induction false} OrderedCornersAt(c: Corners, d: nat)
    requires c.WellFormed() && d < |c.corner1|
    ensures var r := OrderedCorners(c);
      SwappedIfReversed(c.corner1[d], c.corner2[d], r.corner1[d], r.corner2[d])
    decreases d
  {
    if d > 0 {
      OrderedCornersAt(Corners(c.corner1[1..], c.corner2[1..]), d - 1);
    }
  }

  /** After ordering, corner1 is the minimum and corner2 the maximum on every axis. */
  lemma OrderedCornersIsOrdered(c: Corners)
    requires c.WellFormed()
    ensures OrderedCorners(c).IsOrdered()
  {
    forall d | 0 <= d < |c.corner1|
      ensures OrderedCorners(c).corner1[d] <= OrderedCorners(c).corner2[d]
    {
      OrderedCornersAt(c, d);
    }
  }

  /**
   * Ordering only swaps: on every axis the unordered pair of corner values is the
   * one the axis had before, so no value is invented or lost.
   */
  lemma OrderedCornersKeepsAxisPairs(c: Corners)
    requires c.WellFormed()
    ensures var r := OrderedCorners(c);
      forall d :: 0 <= d < |c.corner1| ==>
        multiset{r.corner1[d], r.corner2[d]} == multiset{c.corner1[d], c.corner2[d]}
  {
    var r := OrderedCorners(c);
    forall d | 0 <= d < |c.corner1|
      ensures multiset{r.corner1[d], r.corner2[d]} == multiset{c.corner1[d], c.corner2[d]}
    {
      OrderedCornersAt(c, d);
    }
  }

  /** An axis whose corners are already in order is left untouched. */
  lemma OrderedCornersKeepsOrderedAxes(c: Corners, d: nat)
    requires c.WellFormed() && d < |c.corner1| && c.corner1[d] <= c.corner2[d]
    ensures OrderedCorners(c).corner1[d] == c.corner1[d]
    ensures OrderedCorners(c).corner2[d] == c.corner2[d]
  {
    OrderedCornersAt(c, d);
  }

  /** A box that is already ordered comes back unchanged. */
  lemma OrderedCornersFixesOrdered(c: Corners)
    requires c.WellFormed() && c.IsOrdered()
    ensures OrderedCorners(c) == c
  {
    var r := OrderedCorners(c);
    forall d | 0 <= d < |c.corner1|
      ensures r.corner1[d] == c.corner1[d] && r.corner2[d] == c.corner2[d]
    {
      OrderedCornersAt(c, d);
    }
  }

  /** orderMinMax is idempotent. */
  lemma OrderedCornersIdempotent(c: Corners)
    requires c.WellFormed()
    ensures OrderedCorners(OrderedCorners(c)) == OrderedCorners(c)
  {
    OrderedCornersIsOrdered(c);
    OrderedCornersFixesOrdered(OrderedCorners(c));
  }

  /**
   * The ordered box is the only ordered box that keeps every axis's pair of
   * corner values: an independent characterisation of orderMinMax.
   */
  lemma OrderedCornersIsUnique(c: Corners, r: Corners)
    requires c.WellFormed() && r.WellFormed() && |r.corner1| == |c.corner1|
    requires r.IsOrdered()
    requires forall d :: 0 <= d < |c.corner1| ==>
      multiset{r.corner1[d], r.corner2[d]} == multiset{c.corner1[d], c.corner2[d]}
    ensures r == OrderedCorners(c)
  {
    var o := OrderedCorners(c);
    forall d | 0 <= d < |c.corner1|
      ensures r.corner1[d] == o.corner1[d] && r.corner2[d] == o.corner2[d]
    {
      OrderedAxisIsUnique(c, r, d);
    }
    assert r.corner1 == o.corner1;
    assert r.corner2 == o.corner2;
  }

  /** One axis of OrderedCornersIsUnique: an ordered pair with the axis's values is the ordered axis. */
  lemma OrderedAxisIsUnique(c: Corners, r: Corners, d: nat)
    requires c.WellFormed() && r.WellFormed() && |r.corner1| == |c.corner1| && d < |c.corner1|
    requires r.corner1[d] <= r.corner2[d]
    requires multiset{r.corner1[d], r.corner2[d]} == multiset{c.corner1[d], c.corner2[d]}
    ensures r.corner1[d] == OrderedCorners(c).corner1[d] && r.corner2[d] == OrderedCorners(c).corner2[d]
  {
    OrderedCornersAt(c, d);
    OrderedPairIsSwap(c.corner1[d], c.corner2[d], r.corner1[d], r.corner2[d]);
  }

  /** An ordered pair holding the values a and b is (a, b) swapped if reversed. */
  lemma OrderedPairIsSwap(a: Long, b: Long, x: Long, y: Long)
    requires x <= y && multiset{x, y} == multiset{a, b}
    ensures SwappedIfReversed(a, b, x, y)
  {
    assert x in multiset{a, b};
    assert a in multiset{x, y};
    if x == a {
      assert multiset{x, y} - multiset{x} == multiset{b};
      assert multiset{y} == multiset{b};
      assert y in multiset{b};
    } else {
      assert x == b && a == y;
    }
  }

  /**
   * The box itself. `n` and the two corner arrays are fixed at construction; the
   * arrays' contents change when the box is ordered.
   */
  class BoundingBox
  {
    const n: nat
    const corner1: array<Long>
    const corner2: array<Long>

    ghost predicate Valid()
      reads this
    {
      corner1.Length == n && corner2.Length == n && corner1 != corner2
    }

    /** The corners the box currently holds. */
    ghost function Value(): (c: Corners)
      reads this, corner1, corner2
    {
      Corners(corner1[..], corner2[..])
    }

    /** `BoundingBox(n)`: two fresh all-zero corners of length `n`. */
    constructor (n: nat)
      ensures Valid() && fresh(corner1) && fresh(corner2)
      ensures this.n == n
      ensures forall d :: 0 <= d < n ==> corner1[d] == 0 && corner2[d] == 0
    {
      this.n := n;
      corner1 := new Long[n](_ => 0);
      corner2 := new Long[n](_ => 0);
    }

    /**
     * `BoundingBox(corner1, corner2)`: the corners must have equal lengths; the box
     * stores fresh copies, so later writes to the caller's arrays do not reach it.
     */
    constructor FromCorners(c1: array<Long>, c2: array<Long>)
      requires c1.Length == c2.Length
      ensures Valid() && fresh(corner1) && fresh(corner2)
      ensures n == c1.Length
      ensures Value() == Corners(c1[..], c2[..])
    {
      n := c1.Length;
      corner1 := new Long[c1.Length](i reads c1 requires 0 <= i < c1.Length => c1[i]);
      corner2 := new Long[c2.Length](i reads c2 requires 0 <= i < c2.Length => c2[i]);
    }

    /** `BoundingBox(interval)`: the interval's min becomes corner1 and its max corner2. */
    constructor FromInterval(interval: Interval)
      requires |interval.min| == |interval.max|
      ensures Valid() && fresh(corner1) && fresh(corner2)
      ensures n == |interval.min|
      ensures Value() == Corners(interval.min, interval.max)
    {
      n := |interval.min|;
      corner1 := new Long[|interval.min|](i requires 0 <= i < |interval.min| => interval.min[i]);
      corner2 := new Long[|interval.max|](i requires 0 <= i < |interval.max| => interval.max[i]);
    }

    /** `corner1(c)`: copies corner1 into c[0..n) and leaves c[n..] as it was. */
    method Corner1(c: array<Long>)
      requires Valid() && c.Length >= n
      modifies c
      ensures c[..n] == old(corner1[..])
      ensures c[n..] == old(c[n..])
    {
      for d := 0 to n
        invariant forall k :: 0 <= k < d ==> c[k] == old(corner1[k])
        invariant forall k :: d <= k < c.Length ==> c[k] == old(c[k])
        invariant forall k :: d <= k < n ==> corner1[k] == old(corner1[k])
      {
        c[d] := corner1[d];
      }
    }

    /** `corner2(c)`: copies corner2 into c[0..n) and leaves c[n..] as it was. */
    method Corner2(c: array<Long>)
      requires Valid() && c.Length >= n
      modifies c
      ensures c[..n] == old(corner2[..])
      ensures c[n..] == old(c[n..])
    {
      for d := 0 to n
        invariant forall k :: 0 <= k < d ==> c[k] == old(corner2[k])
        invariant forall k :: d <= k < c.Length ==> c[k] == old(c[k])
        invariant forall k :: d <= k < n ==> corner2[k] == old(corner2[k])
      {
        c[d] := corner2[d];
      }
    }

    /**
     * `orderMinMax()`: swaps corner1[d] and corner2[d] in place on every axis where
     * corner1[d] > corner2[d]. Afterwards the box holds OrderedCorners of what it held.
     */
    method OrderMinMax()
      requires Valid()
      modifies corner1, corner2
      ensures Valid()
      ensures Value() == OrderedCorners(old(Value()))
      ensures Value().IsOrdered()
    {
      for d := 0 to n
        invariant forall k :: 0 <= k < d ==>
          SwappedIfReversed(old(corner1[k]), old(corner2[k]), corner1[k], corner2[k])
        invariant forall k :: d <= k < n ==>
          corner1[k] == old(corner1[k]) && corner2[k] == old(corner2[k])
      {
        if corner1[d] > corner2[d] {
          var tmp := corner1[d];
          corner1[d] := corner2[d];
          corner2[d] := tmp;
        }
      }
      ghost var was := old(Value());
      forall d | 0 <= d < n
        ensures corner1[d] == OrderedCorners(was).corner1[d]
        ensures corner2[d] == OrderedCorners(was).corner2[d]
      {
        OrderedCornersAt(was, d);
      }
      assert Value() == OrderedCorners(was);
      OrderedCornersIsOrdered(was);
    }

    /**
     * `getInterval()`: orders the box itself, then hands out its corners as an
     * interval whose min is below its max on every axis.
     */
    method GetInterval() returns (interval: Interval)
      requires Valid()
      modifies corner1, corner2
      ensures Valid()
      ensures Value() == OrderedCorners(old(Value()))
      ensures interval == Interval(corner1[..], corner2[..])
      ensures |interval.min| == |interval.max| == n
      ensures forall d :: 0 <= d < n ==> interval.min[d] <= interval.max[d]
    {
      OrderMinMax();
      interval := Interval(corner1[..], corner2[..]);
    }
  }
}

/**
 * mpicbg.imglib's AbstractInterpolator as an object: a position array it updates
 * in place and two link fields it reassigns. Each method is proved to move the
 * object's abstract State exactly as the matching Positioning transition does;
 * what those transitions promise is proved in module Positioning.
 */
module Interpolation {
  import Positioning

  class AbstractInterpolator
  {
    /** img.numDimensions() of the image the interpolator was built for. */
    const numDimensions: nat
    /** Where the interpolator is; Java keeps it as float[]. */
    const position: array<real>
    var linkedRasterPositionable: Positioning.Target
    var linkedPositionable: Positioning.Target
    /** Every call forwarded to a link so far, with the link it went to. */
    ghost var forwarded: seq<Positioning.Forward>

    ghost predicate Valid()
      reads this
    {
      position.Length == numDimensions && linkedPositionable.IsPositionable()
    }

    ghost function State(): Positioning.State
      reads this, position
    {
      Positioning.State(position[..], linkedPositionable, linkedRasterPositionable, forwarded)
    }

    /** Position at the origin, both links at the void sink. */
    constructor (numDimensions: nat)
      ensures Valid() && fresh(position)
      ensures State() == Positioning.Init(numDimensions)
    {
      this.numDimensions := numDimensions;
      position := new real[numDimensions](_ => 0.0);
      linkedRasterPositionable := Positioning.Void;
      linkedPositionable := Positioning.Void;
      forwarded := [];
      new;
      assert position[..] == Positioning.Init(numDimensions).position;
    }

    /**
     * Hands `call` to `link` from the current position: the link's own reaction is
     * not part of this model, only that it was called and where the interpolator was.
     */
    ghost method Forward(link: Positioning.Target, call: Positioning.Call)
      modifies this`forwarded
      ensures forwarded == old(forwarded) + [Positioning.Forward(link, call, position[..])]
    {
      forwarded := forwarded + [Positioning.Forward(link, call, position[..])];
    }

    /* Localizable */

    /** getDoublePosition(dim) and getFloatPosition(dim). */
    function GetDoublePosition(dim: nat): (p: real)
      requires Valid() && dim < numDimensions
      reads this, position
      ensures p == State().position[dim]
    {
      position[dim]
    }

    /** localize(float[]|double[]): copies the first dest.Length axes into dest. */
    method Localize(dest: array<real>)
      requires Valid() && dest.Length <= numDimensions
      modifies dest
      ensures dest[..] == old(position[..dest.Length])
      ensures State() == old(State())
    {
      for d := 0 to dest.Length
        invariant forall k :: 0 <= k < d ==> dest[k] == old(position[k])
        invariant position[..] == old(position[..])
      {
        dest[d] := position[d];
      }
    }

    /* Positionable */

    /** move(double|float distance, dim). */
    method Move(distance: real, dim: nat)
      requires Valid() && dim < numDimensions
      modifies this, position
      ensures Valid() && State() == old(State()).Move(distance, dim)
    {
      position[dim] := position[dim] + distance;
      Forward(linkedPositionable, Positioning.Call.Move(distance, dim));
    }

    /** moveTo(double[]|float[]): a `move` on every axis whose difference is not zero. */
    method MoveToReals(target: seq<real>)
      requires Valid() && numDimensions <= |target|
      modifies this, position
      ensures Valid() && State() == old(State()).MoveToReals(target)
    {
      for i := 0 to numDimensions
        invariant Valid()
        invariant State().MoveToFrom(target, i) == old(State()).MoveToFrom(target, 0)
      {
        var di := target[i] - position[i];
        if di != 0.0 {
          Move(di, i);
        }
      }
    }

    /** moveTo(Localizable): the localizable writes its coordinates into `position`. */
    method MoveToLocalizable(l: Positioning.Localizable)
      requires Valid() && |l.coordinates| == numDimensions
      modifies this, position
      ensures Valid() && State() == old(State()).MoveToLocalizable(l)
    {
      forall d | 0 <= d < numDimensions {
        position[d] := l.coordinates[d];
      }
      assert position[..] == l.coordinates;
      Forward(linkedPositionable, Positioning.Call.MoveToLocalizable(l));
    }

    /** setPosition(Localizable). */
    method SetPositionLocalizable(l: Positioning.Localizable)
      requires Valid() && |l.coordinates| == numDimensions
      modifies this, position
      ensures Valid() && State() == old(State()).SetPositionLocalizable(l)
    {
      forall d | 0 <= d < numDimensions {
        position[d] := l.coordinates[d];
      }
      assert position[..] == l.coordinates;
      Forward(linkedPositionable, Positioning.Call.SetPositionLocalizable(l));
    }

    /** setPosition(float[]|double[]). */
    method SetPositionReals(p: seq<real>)
      requires Valid() && numDimensions <= |p|
      modifies this, position
      ensures Valid() && State() == old(State()).SetPositionReals(p)
    {
      for i := 0 to numDimensions
        invariant forall k :: 0 <= k < i ==> position[k] == p[k]
        modifies position
      {
        position[i] := p[i];
      }
      assert position[..] == p[..numDimensions];
      Forward(linkedPositionable, Positioning.Call.SetPositionReals(p));
    }

    /** setPosition(float|double value, dim). */
    method SetPositionRealAt(value: real, dim: nat)
      requires Valid() && dim < numDimensions
      modifies this, position
      ensures Valid() && State() == old(State()).SetPositionRealAt(value, dim)
    {
      position[dim] := value;
      Forward(linkedPositionable, Positioning.Call.SetPositionRealAt(value, dim));
    }

    /* RasterPositionable */

    /** bck(dim). */
    method Bck(dim: nat)
      requires Valid() && dim < numDimensions
      modifies this, position
      ensures Valid() && State() == old(State()).Bck(dim)
    {
      position[dim] := position[dim] - 1.0;
      Forward(linkedRasterPositionable, Positioning.Call.Bck(dim));
    }

    /** fwd(dim). */
    method Fwd(dim: nat)
      requires Valid() && dim < numDimensions
      modifies this, position
      ensures Valid() && State() == old(State()).Fwd(dim)
    {
      position[dim] := position[dim] + 1.0;
      Forward(linkedRasterPositionable, Positioning.Call.Fwd(dim));
    }

    /** move(int|long distance, dim). */
    method MoveRaster(distance: int, dim: nat)
      requires Valid() && dim < numDimensions
      modifies this, position
      ensures Valid() && State() == old(State()).MoveRaster(distance, dim)
    {
      position[dim] := position[dim] + distance as real;
      Forward(linkedRasterPositionable, Positioning.Call.MoveRaster(distance, dim));
    }

    /** moveTo(RasterLocalizable). */
    method MoveToRasterLocalizable(l: Positioning.RasterLocalizable)
      requires Valid() && |l.coordinates| == numDimensions
      modifies this, position
      ensures Valid() && State() == old(State()).MoveToRasterLocalizable(l)
    {
      forall d | 0 <= d < numDimensions {
        position[d] := l.coordinates[d] as real;
      }
      assert position[..] == Positioning.AsReals(l.coordinates);
      Forward(linkedRasterPositionable, Positioning.Call.MoveToRasterLocalizable(l));
    }

    /** moveTo(int[]): forwarded as moveTo(int[]) to the continuous link. */
    method MoveToInts(p: seq<int>)
      requires Valid() && numDimensions <= |p|
      modifies this, position
      ensures Valid() && State() == old(State()).MoveToInts(p)
    {
      CopyInts(p);
      Forward(linkedPositionable, Positioning.Call.MoveToInts(p));
    }

    /** moveTo(long[]): forwarded as setPosition(long[]) to the continuous link. */
    method MoveToLongs(p: seq<int>)
      requires Valid() && numDimensions <= |p|
      modifies this, position
      ensures Valid() && State() == old(State()).MoveToLongs(p)
    {
      CopyInts(p);
      Forward(linkedPositionable, Positioning.Call.SetPositionInts(p));
    }

    /** setPosition(RasterLocalizable). */
    method SetPositionRasterLocalizable(l: Positioning.RasterLocalizable)
      requires Valid() && |l.coordinates| == numDimensions
      modifies this, position
      ensures Valid() && State() == old(State()).SetPositionRasterLocalizable(l)
    {
      forall d | 0 <= d < numDimensions {
        position[d] := l.coordinates[d] as real;
      }
      assert position[..] == Positioning.AsReals(l.coordinates);
      Forward(linkedRasterPositionable, Positioning.Call.SetPositionRasterLocalizable(l));
    }

    /** setPosition(int[]|long[]): forwarded to the continuous link. */
    method SetPositionInts(p: seq<int>)
      requires Valid() && numDimensions <= |p|
      modifies this, position
      ensures Valid() && State() == old(State()).SetPositionInts(p)
    {
      CopyInts(p);
      Forward(linkedPositionable, Positioning.Call.SetPositionInts(p));
    }

    /** setPosition(int|long value, dim): forwarded to the raster link. */
    method SetPositionIntAt(value: int, dim: nat)
      requires Valid() && dim < numDimensions
      modifies this, position
      ensures Valid() && State() == old(State()).SetPositionIntAt(value, dim)
    {
      position[dim] := value as real;
      Forward(linkedRasterPositionable, Positioning.Call.SetPositionIntAt(value, dim));
    }

    /** The loop shared by the integer-array setters: axis i takes p[i] for every i < numDimensions. */
    method CopyInts(p: seq<int>)
      requires Valid() && numDimensions <= |p|
      modifies position
      ensures position[..] == Positioning.AsReals(p[..numDimensions])
    {
      for i := 0 to numDimensions
        invariant forall k :: 0 <= k < i ==> position[k] == p[k] as real
      {
        position[i] := p[i] as real;
      }
    }

    /* LinkablePositionable */

    /** linkPositionable(p): both links now hold `p`. */
    method LinkPositionable(p: Positioning.Target)
      requires Valid() && p.IsPositionable()
      modifies this
      ensures Valid() && State() == old(State()).LinkPositionable(p)
    {
      linkedRasterPositionable := p;
      linkedPositionable := p;
    }

    /** unlinkPositionable(): returns the continuous link; both links go back to the void sink. */
    method UnlinkPositionable() returns (p: Positioning.Target)
      requires Valid()
      modifies this
      ensures Valid() && (p, State()) == old(State()).UnlinkPositionable()
    {
      p := linkedPositionable;
      linkedPositionable := Positioning.Void;
      linkedRasterPositionable := Positioning.Void;
    }

    /** linkRasterPositionable(r): only the raster link now holds `r`. */
    method LinkRasterPositionable(r: Positioning.Target)
      requires Valid()
      modifies this
      ensures Valid() && State() == old(State()).LinkRasterPositionable(r)
    {
      linkedRasterPositionable := r;
    }

    /** unlinkRasterPositionable(): returns the raster link; only that link goes back to the void sink. */
    method UnlinkRasterPositionable() returns (r: Positioning.Target)
      requires Valid()
      modifies this
      ensures Valid() && (r, State()) == old(State()).UnlinkRasterPositionable()
    {
      r := linkedRasterPositionable;
      linkedRasterPositionable := Positioning.Void;
    }
  }
}

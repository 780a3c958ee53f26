/**
 * The position/link state machine of mpicbg.imglib's AbstractInterpolator, on
 * values. A state is the per-axis position, the two links (the continuous
 * `linkedPositionable` and the `linkedRasterPositionable`) and the log of every
 * call the interpolator has forwarded so far, each with the target it went to.
 * Every mutator updates the position and then forwards one call to one link;
 * the void sink is a target like any other, one that does nothing with its calls.
 * Each log entry also records where the interpolator was when it made the call,
 * so that "update self, then forward" is a property of the log.
 */
module Positioning {

  /**
   * Something calls can be forwarded to. `Void` is the shared no-op sink every
   * link starts at; other targets are told apart by an identity, and `continuous`
   * says whether the target is a full Positionable or only a RasterPositionable.
   */
  datatype Target = Void | Target(id: nat, continuous: bool)
  {
    /** May stand in the continuous link (VoidPositionable is a Positionable too). */
    predicate IsPositionable() { Void? || continuous }
  }

  /** Another object's continuous coordinates, read when the interpolator moves to it. */
  datatype Localizable = Localizable(id: nat, coordinates: seq<real>)

  /** Another object's integer coordinates, read when the interpolator moves to it. */
  datatype RasterLocalizable = RasterLocalizable(id: nat, coordinates: seq<int>)

  /** A forwarded call and its arguments, one constructor per Positionable method. */
  datatype Call =
    | Move(distance: real, dim: nat)
    | MoveToLocalizable(localizable: Localizable)
    | SetPositionLocalizable(localizable: Localizable)
    | SetPositionReals(reals: seq<real>)
    | SetPositionRealAt(coordinate: real, dim: nat)
    | Bck(dim: nat)
    | Fwd(dim: nat)
    | MoveRaster(steps: int, dim: nat)
    | MoveToRasterLocalizable(rasterLocalizable: RasterLocalizable)
    | SetPositionRasterLocalizable(rasterLocalizable: RasterLocalizable)
    | MoveToInts(ints: seq<int>)
    | SetPositionInts(ints: seq<int>)
    | SetPositionIntAt(rasterCoordinate: int, dim: nat)

  /**
   * One forwarded call, the target it was forwarded to and the interpolator's
   * position at the moment it forwarded the call.
   */
  datatype Forward = Forward(receiver: Target, call: Call, senderPosition: seq<real>)

  /** Integer coordinates as the interpolator stores them. */
  function AsReals(p: seq<int>): seq<real>
  {
    seq(|p|, k requires 0 <= k < |p| => p[k] as real)
  }

  /**
   * The moves moveTo(double[]) forwards from axis `i` on when the interpolator is
   * at `position`: one move per axis whose difference is not zero, in increasing
   * axis order, each by that difference and sent once the axis has reached the
   * target. At most one move per axis.
   */
  function NonzeroMoves(position: seq<real>, target: seq<real>, link: Target, i: nat): (r: seq<Forward>)
    requires i <= |position| <= |target|
    ensures |r| <= |position| - i
    decreases |position| - i
  {
    if i == |position| then []
    else
      var di := target[i] - position[i];
      var next := position[i := target[i]];
      (if di == 0.0 then [] else [Forward(link, Move(di, i), next)]) + NonzeroMoves(next, target, link, i + 1)
  }

  datatype State = State(
    position: seq<real>,
    linkedPositionable: Target,
    linkedRasterPositionable: Target,
    forwarded: seq<Forward>)
  {
    /** The continuous link only ever holds a Positionable. */
    predicate Valid() { linkedPositionable.IsPositionable() }

    /** This state, after forwarding `call` to `link` from the current position. */
    function Forwarding(link: Target, call: Call): (r: State)
      ensures r.position == position && r.linkedPositionable == linkedPositionable
      ensures r.linkedRasterPositionable == linkedRasterPositionable
      ensures |r.forwarded| == |forwarded| + 1 && r.forwarded[..|forwarded|] == forwarded
    {
      this.(forwarded := forwarded + [Forward(link, call, position)])
    }

    /** move(double|float distance, dim): forwarded to the continuous link. */
    function Move(distance: real, dim: nat): (r: State)
      requires dim < |position|
      ensures |r.position| == |position| && (Valid() ==> r.Valid())
    {
      this.(position := position[dim := position[dim] + distance])
        .Forwarding(linkedPositionable, Call.Move(distance, dim))
    }

    /** moveTo(double[]|float[]): a `move` on every axis from `i` on whose difference is not zero. */
    function MoveToFrom(target: seq<real>, i: nat): (r: State)
      requires i <= |position| <= |target|
      ensures |r.position| == |position| && (Valid() ==> r.Valid())
      decreases |position| - i
    {
      if i == |position| then this
      else
        var di := target[i] - position[i];
        (if di == 0.0 then this else Move(di, i)).MoveToFrom(target, i + 1)
    }

    function MoveToReals(target: seq<real>): (r: State)
      requires |position| <= |target|
      ensures |r.position| == |position| && (Valid() ==> r.Valid())
    {
      MoveToFrom(target, 0)
    }

    /** moveTo(Localizable): the position becomes the localizable's coordinates. */
    function MoveToLocalizable(l: Localizable): (r: State)
      requires |l.coordinates| == |position|
      ensures |r.position| == |position| && (Valid() ==> r.Valid())
    {
      this.(position := l.coordinates).Forwarding(linkedPositionable, Call.MoveToLocalizable(l))
    }

    /** setPosition(Localizable). */
    function SetPositionLocalizable(l: Localizable): (r: State)
      requires |l.coordinates| == |position|
      ensures |r.position| == |position| && (Valid() ==> r.Valid())
    {
      this.(position := l.coordinates).Forwarding(linkedPositionable, Call.SetPositionLocalizable(l))
    }

    /** setPosition(float[]|double[]): the first numDimensions entries become the position. */
    function SetPositionReals(p: seq<real>): (r: State)
      requires |position| <= |p|
      ensures |r.position| == |position| && (Valid() ==> r.Valid())
    {
      this.(position := p[..|position|]).Forwarding(linkedPositionable, Call.SetPositionReals(p))
    }

    /** setPosition(float|double value, dim). */
    function SetPositionRealAt(value: real, dim: nat): (r: State)
      requires dim < |position|
      ensures |r.position| == |position| && (Valid() ==> r.Valid())
    {
      this.(position := position[dim := value]).Forwarding(linkedPositionable, Call.SetPositionRealAt(value, dim))
    }

    /** bck(dim): one step back, forwarded to the raster link. */
    function Bck(dim: nat): (r: State)
      requires dim < |position|
      ensures |r.position| == |position| && (Valid() ==> r.Valid())
    {
      this.(position := position[dim := position[dim] - 1.0]).Forwarding(linkedRasterPositionable, Call.Bck(dim))
    }

    /** fwd(dim): one step forward, forwarded to the raster link. */
    function Fwd(dim: nat): (r: State)
      requires dim < |position|
      ensures |r.position| == |position| && (Valid() ==> r.Valid())
    {
      this.(position := position[dim := position[dim] + 1.0]).Forwarding(linkedRasterPositionable, Call.Fwd(dim))
    }

    /** move(int|long distance, dim): forwarded to the raster link. */
    function MoveRaster(distance: int, dim: nat): (r: State)
      requires dim < |position|
      ensures |r.position| == |position| && (Valid() ==> r.Valid())
    {
      this.(position := position[dim := position[dim] + distance as real])
        .Forwarding(linkedRasterPositionable, Call.MoveRaster(distance, dim))
    }

    /** moveTo(RasterLocalizable). */
    function MoveToRasterLocalizable(l: RasterLocalizable): (r: State)
      requires |l.coordinates| == |position|
      ensures |r.position| == |position| && (Valid() ==> r.Valid())
    {
      this.(position := AsReals(l.coordinates))
        .Forwarding(linkedRasterPositionable, Call.MoveToRasterLocalizable(l))
    }

    /** setPosition(RasterLocalizable). */
    function SetPositionRasterLocalizable(l: RasterLocalizable): (r: State)
      requires |l.coordinates| == |position|
      ensures |r.position| == |position| && (Valid() ==> r.Valid())
    {
      this.(position := AsReals(l.coordinates))
        .Forwarding(linkedRasterPositionable, Call.SetPositionRasterLocalizable(l))
    }

    /** moveTo(int[]): forwarded as moveTo(int[]) to the continuous link. */
    function MoveToInts(p: seq<int>): (r: State)
      requires |position| <= |p|
      ensures |r.position| == |position| && (Valid() ==> r.Valid())
    {
      this.(position := AsReals(p[..|position|])).Forwarding(linkedPositionable, Call.MoveToInts(p))
    }

    /** moveTo(long[]): forwarded as setPosition(long[]) to the continuous link. */
    function MoveToLongs(p: seq<int>): (r: State)
      requires |position| <= |p|
      ensures |r.position| == |position| && (Valid() ==> r.Valid())
    {
      this.(position := AsReals(p[..|position|])).Forwarding(linkedPositionable, Call.SetPositionInts(p))
    }

    /** setPosition(int[]|long[]): forwarded to the continuous link. */
    function SetPositionInts(p: seq<int>): (r: State)
      requires |position| <= |p|
      ensures |r.position| == |position| && (Valid() ==> r.Valid())
    {
      this.(position := AsReals(p[..|position|])).Forwarding(linkedPositionable, Call.SetPositionInts(p))
    }

    /** setPosition(int|long value, dim): forwarded to the raster link. */
    function SetPositionIntAt(value: int, dim: nat): (r: State)
      requires dim < |position|
      ensures |r.position| == |position| && (Valid() ==> r.Valid())
    {
      this.(position := position[dim := value as real])
        .Forwarding(linkedRasterPositionable, Call.SetPositionIntAt(value, dim))
    }

    /** linkPositionable(p): both links now hold `p`. */
    function LinkPositionable(p: Target): (r: State)
      requires p.IsPositionable()
      ensures r.Valid()
    {
      this.(linkedRasterPositionable := p, linkedPositionable := p)
    }

    /** unlinkPositionable(): the old continuous link, and both links back at the void sink. */
    function UnlinkPositionable(): (r: (Target, State))
      ensures r.1.Valid()
    {
      (linkedPositionable, this.(linkedPositionable := Void, linkedRasterPositionable := Void))
    }

    /** linkRasterPositionable(r): only the raster link now holds `r`. */
    function LinkRasterPositionable(t: Target): (r: State)
      ensures Valid() ==> r.Valid()
    {
      this.(linkedRasterPositionable := t)
    }

    /** unlinkRasterPositionable(): the old raster link, and the raster link back at the void sink. */
    function UnlinkRasterPositionable(): (r: (Target, State))
      ensures Valid() ==> r.1.Valid()
    {
      (linkedRasterPositionable, this.(linkedRasterPositionable := Void))
    }
  }

  /** A new interpolator: at the origin on every axis, both links at the void sink, nothing forwarded. */
  function Init(numDimensions: nat): (s: State)
    ensures s.Valid() && |s.position| == numDimensions
    ensures forall d :: 0 <= d < numDimensions ==> s.position[d] == 0.0
    ensures s.linkedPositionable == Void && s.linkedRasterPositionable == Void
    ensures s.forwarded == []
  {
    State(seq(numDimensions, _ => 0.0), Void, Void, [])
  }

  /** Same position, same links: the state apart from what it has forwarded. */
  predicate SameExceptLog(s: State, t: State)
  {
    s.position == t.position
    && s.linkedPositionable == t.linkedPositionable
    && s.linkedRasterPositionable == t.linkedRasterPositionable
  }

  /**
   * A relative move changes its own axis by exactly the distance and leaves every
   * other axis alone.
   */
  lemma MoveChangesOneAxis(s: State, distance: real, steps: int, dim: nat, k: nat)
    requires dim < |s.position| && k < |s.position|
    ensures s.Move(distance, dim).position[k] == s.position[k] + (if k == dim then distance else 0.0)
    ensures s.MoveRaster(steps, dim).position[k] == s.position[k] + (if k == dim then steps as real else 0.0)
    ensures s.Fwd(dim).position[k] == s.position[k] + (if k == dim then 1.0 else 0.0)
    ensures s.Bck(dim).position[k] == s.position[k] - (if k == dim then 1.0 else 0.0)
  {
  }

  /**
   * `r` is `s` after forwarding exactly `call` to `link`, sent from `r`'s position,
   * that is, after the interpolator has updated itself; the links are unchanged.
   */
  predicate ForwardedAfterUpdate(s: State, r: State, link: Target, call: Call)
  {
    && r.forwarded == s.forwarded + [Forward(link, call, r.position)]
    && r.linkedPositionable == s.linkedPositionable
    && r.linkedRasterPositionable == s.linkedRasterPositionable
  }

  /**
   * Single-axis calls: continuous moves and setters go to the continuous link;
   * integer moves, unit steps and integer setters go to the raster link. Each is
   * forwarded once, after the position has been updated.
   */
  lemma ForwardingTargets(s: State, x: real, n: int, dim: nat)
    requires dim < |s.position|
    ensures ForwardedAfterUpdate(s, s.Move(x, dim), s.linkedPositionable, Call.Move(x, dim))
    ensures ForwardedAfterUpdate(s, s.SetPositionRealAt(x, dim), s.linkedPositionable, Call.SetPositionRealAt(x, dim))
    ensures ForwardedAfterUpdate(s, s.MoveRaster(n, dim), s.linkedRasterPositionable, Call.MoveRaster(n, dim))
    ensures ForwardedAfterUpdate(s, s.Fwd(dim), s.linkedRasterPositionable, Call.Fwd(dim))
    ensures ForwardedAfterUpdate(s, s.Bck(dim), s.linkedRasterPositionable, Call.Bck(dim))
    ensures ForwardedAfterUpdate(s, s.SetPositionIntAt(n, dim), s.linkedRasterPositionable, Call.SetPositionIntAt(n, dim))
  {
  }

  /**
   * Whole-position calls: the localizable ones go to the link of their kind, every
   * array call (integer arrays included) to the continuous link; moveTo(long[]) is
   * forwarded as setPosition(long[]). Each is forwarded once, after the update.
   */
  lemma WholePositionForwarding(s: State, l: Localizable, rl: RasterLocalizable, reals: seq<real>, ints: seq<int>)
    requires |l.coordinates| == |s.position| && |rl.coordinates| == |s.position|
    requires |s.position| <= |reals| && |s.position| <= |ints|
    ensures ForwardedAfterUpdate(s, s.MoveToLocalizable(l), s.linkedPositionable, Call.MoveToLocalizable(l))
    ensures ForwardedAfterUpdate(s, s.SetPositionLocalizable(l), s.linkedPositionable, Call.SetPositionLocalizable(l))
    ensures ForwardedAfterUpdate(s, s.SetPositionReals(reals), s.linkedPositionable, Call.SetPositionReals(reals))
    ensures ForwardedAfterUpdate(s, s.MoveToRasterLocalizable(rl), s.linkedRasterPositionable,
                                 Call.MoveToRasterLocalizable(rl))
    ensures ForwardedAfterUpdate(s, s.SetPositionRasterLocalizable(rl), s.linkedRasterPositionable,
                                 Call.SetPositionRasterLocalizable(rl))
    ensures ForwardedAfterUpdate(s, s.MoveToInts(ints), s.linkedPositionable, Call.MoveToInts(ints))
    ensures ForwardedAfterUpdate(s, s.MoveToLongs(ints), s.linkedPositionable, Call.SetPositionInts(ints))
    ensures ForwardedAfterUpdate(s, s.SetPositionInts(ints), s.linkedPositionable, Call.SetPositionInts(ints))
  {
  }

  /**
   * fwd followed by bck returns to the same position; the raster link is sent fwd
   * from the advanced position, then bck from the original one.
   */
  lemma FwdThenBckReturns(s: State, dim: nat)
    requires dim < |s.position|
    ensures SameExceptLog(s.Fwd(dim).Bck(dim), s)
    ensures s.Fwd(dim).Bck(dim).forwarded
         == s.forwarded + [Forward(s.linkedRasterPositionable, Call.Fwd(dim), s.position[dim := s.position[dim] + 1.0]),
                           Forward(s.linkedRasterPositionable, Call.Bck(dim), s.position)]
  {
    assert s.Fwd(dim).Bck(dim).position == s.position;
  }

  /** fwd(dim) moves the position exactly as move(1, dim) does; only the forwarded call differs. */
  lemma FwdIsUnitMove(s: State, dim: nat)
    requires dim < |s.position|
    ensures s.Fwd(dim).position == s.MoveRaster(1, dim).position
    ensures s.Bck(dim).position == s.MoveRaster(-1, dim).position
  {
  }

  /**
   * moveTo(double[]) from axis `i` on: axes before `i` keep their position, axes
   * from `i` on reach the target, the links stay, and exactly NonzeroMoves is
   * forwarded.
   */
  lemma {:induction false} MoveToFromSpec(s: State, target: seq<real>, i: nat)
    requires i <= |s.position| <= |target|
    ensures var r := s.MoveToFrom(target, i);
      && r.position == s.position[..i] + target[i..|s.position|]
      && r.linkedPositionable == s.linkedPositionable
      && r.linkedRasterPositionable == s.linkedRasterPositionable
      && r.forwarded == s.forwarded + NonzeroMoves(s.position, target, s.linkedPositionable, i)
    decreases |s.position| - i
  {
    var n := |s.position|;
    if i < n {
      var di := target[i] - s.position[i];
      var next := if di == 0.0 then s else s.Move(di, i);
      assert next.position == s.position[i := target[i]];
      MoveToFromSpec(next, target, i + 1);
      assert next.position[..i + 1] == s.position[..i] + [target[i]];
      assert next.position[..i + 1] + target[i + 1..n] == s.position[..i] + target[i..n];
    } else {
      assert s.position[..i] + target[i..n] == s.position;
    }
  }

  /** moveTo(double[]) leaves the position equal to the target on every axis. */
  lemma MoveToReachesTarget(s: State, target: seq<real>)
    requires |s.position| <= |target|
    ensures s.MoveToReals(target).position == target[..|s.position|]
    ensures SameExceptLog(s.MoveToReals(target), s.(position := target[..|s.position|]))
    ensures s.MoveToReals(target).forwarded
         == s.forwarded + NonzeroMoves(s.position, target, s.linkedPositionable, 0)
  {
    MoveToFromSpec(s, target, 0);
  }

  /** `f` is a move forwarded to `link` by a nonzero difference on some axis from `i` on. */
  predicate IsNonzeroMove(f: Forward, position: seq<real>, target: seq<real>, link: Target, i: nat)
    requires |position| <= |target|
  {
    && f.receiver == link && f.call.Move?
    && i <= f.call.dim < |position|
    && f.call.distance == target[f.call.dim] - position[f.call.dim]
    && f.call.distance != 0.0
  }

  /** Every move moveTo(double[]) forwards has a nonzero distance, and axes come in increasing order. */
  lemma {:induction false} NonzeroMovesAreOrdered(position: seq<real>, target: seq<real>, link: Target, i: nat)
    requires i <= |position| <= |target|
    ensures forall j :: 0 <= j < |NonzeroMoves(position, target, link, i)| ==>
      IsNonzeroMove(NonzeroMoves(position, target, link, i)[j], position, target, link, i)
    ensures forall j, j' :: 0 <= j < j' < |NonzeroMoves(position, target, link, i)| ==>
      var f, f' := NonzeroMoves(position, target, link, i)[j], NonzeroMoves(position, target, link, i)[j'];
      f.call.Move? && f'.call.Move? && f.call.dim < f'.call.dim
    decreases |position| - i
  {
    if i < |position| {
      var next := position[i := target[i]];
      NonzeroMovesAreOrdered(next, target, link, i + 1);
      var m := NonzeroMoves(position, target, link, i);
      var rest := NonzeroMoves(next, target, link, i + 1);
      var di := target[i] - position[i];
      var head := if di == 0.0 then [] else [Forward(link, Move(di, i), next)];
      assert m == head + rest;
      forall j | 0 <= j < |m|
        ensures IsNonzeroMove(m[j], position, target, link, i)
      {
        if j >= |head| {
          assert m[j] == rest[j - |head|];
          assert IsNonzeroMove(rest[j - |head|], next, target, link, i + 1);
        }
      }
      forall j, j' | 0 <= j < j' < |m|
        ensures m[j].call.Move? && m[j'].call.Move? && m[j].call.dim < m[j'].call.dim
      {
        assert m[j'] == rest[j' - |head|];
        assert IsNonzeroMove(rest[j' - |head|], next, target, link, i + 1);
        if j >= |head| {
          assert m[j] == rest[j - |head|];
        }
      }
    }
  }

  /**
   * Conversely, every axis from `i` on whose target differs from the position gets
   * its move, by exactly that difference, so a linked positionable misses no axis.
   */
  lemma {:induction false} NonzeroMovesComplete(position: seq<real>, target: seq<real>, link: Target, i: nat, k: nat)
    requires i <= k < |position| <= |target| && target[k] != position[k]
    ensures exists j :: (0 <= j < |NonzeroMoves(position, target, link, i)|
      && NonzeroMoves(position, target, link, i)[j].receiver == link
      && NonzeroMoves(position, target, link, i)[j].call == Move(target[k] - position[k], k))
    decreases |position| - i
  {
    var m := NonzeroMoves(position, target, link, i);
    var next := position[i := target[i]];
    var rest := NonzeroMoves(next, target, link, i + 1);
    var di := target[i] - position[i];
    var head := if di == 0.0 then [] else [Forward(link, Move(di, i), next)];
    assert m == head + rest;
    if k == i {
      assert m[0].call == Move(target[k] - position[k], k);
    } else {
      NonzeroMovesComplete(next, target, link, i + 1, k);
      var j :| 0 <= j < |rest| && rest[j].receiver == link && rest[j].call == Move(target[k] - next[k], k);
      assert m[j + |head|] == rest[j];
    }
  }

  /**
   * `f` is a move on some axis d, sent when the axes from `i` up to d had reached
   * the target and the later ones were still where they started.
   */
  predicate SentAfterAxisUpdate(f: Forward, position: seq<real>, target: seq<real>, i: nat)
    requires |position| <= |target|
  {
    && f.call.Move?
    && |f.senderPosition| == |position|
    && forall k :: 0 <= k < |position| ==>
         f.senderPosition[k] == if i <= k <= f.call.dim then target[k] else position[k]
  }

  /** Within moveTo(double[]), each move is forwarded after its own axis has been updated, and before any later axis. */
  lemma {:induction false} NonzeroMovesSentAfterUpdate(position: seq<real>, target: seq<real>, link: Target, i: nat)
    requires i <= |position| <= |target|
    ensures forall j :: 0 <= j < |NonzeroMoves(position, target, link, i)| ==>
      SentAfterAxisUpdate(NonzeroMoves(position, target, link, i)[j], position, target, i)
    decreases |position| - i
  {
    if i < |position| {
      var next := position[i := target[i]];
      NonzeroMovesSentAfterUpdate(next, target, link, i + 1);
      var m := NonzeroMoves(position, target, link, i);
      var rest := NonzeroMoves(next, target, link, i + 1);
      var di := target[i] - position[i];
      var head := if di == 0.0 then [] else [Forward(link, Move(di, i), next)];
      assert m == head + rest;
      forall j | 0 <= j < |m|
        ensures SentAfterAxisUpdate(m[j], position, target, i)
      {
        if j >= |head| {
          assert m[j] == rest[j - |head|];
          assert SentAfterAxisUpdate(rest[j - |head|], next, target, i + 1);
          NonzeroMovesAreOrdered(next, target, link, i + 1);
          assert IsNonzeroMove(rest[j - |head|], next, target, link, i + 1);
        }
      }
    }
  }

  /** Where a follower that starts at `p` ends after making every move in `fs`, in order. */
  function ApplyMoves(p: seq<real>, fs: seq<Forward>): (q: seq<real>)
    ensures |q| == |p|
    decreases |fs|
  {
    if |fs| == 0 then p
    else
      var c := fs[0].call;
      ApplyMoves(if c.Move? && c.dim < |p| then p[c.dim := p[c.dim] + c.distance] else p, fs[1..])
  }

  /** Replaying the moves from axis `i` on brings those axes to the target and leaves the others. */
  lemma {:induction false} ReplayNonzeroMoves(position: seq<real>, target: seq<real>, link: Target, i: nat)
    requires i <= |position| <= |target|
    ensures ApplyMoves(position, NonzeroMoves(position, target, link, i)) == position[..i] + target[i..|position|]
    decreases |position| - i
  {
    var n := |position|;
    if i < n {
      var next := position[i := target[i]];
      ReplayFirstAxis(position, target, link, i);
      ReplayNonzeroMoves(next, target, link, i + 1);
      assert next[..i + 1] + target[i + 1..n] == position[..i] + target[i..n] by {
        assert next[..i + 1] == position[..i] + [target[i]];
      }
    } else {
      assert position[..i] + target[i..n] == position;
    }
  }

  /** Replaying the move for axis `i`, if any, leaves the follower with axis `i` at the target. */
  lemma ReplayFirstAxis(position: seq<real>, target: seq<real>, link: Target, i: nat)
    requires i < |position| <= |target|
    ensures ApplyMoves(position, NonzeroMoves(position, target, link, i))
         == ApplyMoves(position[i := target[i]], NonzeroMoves(position[i := target[i]], target, link, i + 1))
  {
    var next := position[i := target[i]];
    var m := NonzeroMoves(position, target, link, i);
    var rest := NonzeroMoves(next, target, link, i + 1);
    var di := target[i] - position[i];
    if di == 0.0 {
      assert next == position;
      assert m == rest;
    } else {
      assert m == [Forward(link, Move(di, i), next)] + rest;
      assert m[1..] == rest;
      assert position[i := position[i] + di] == next;
    }
  }

  /**
   * A positionable linked to the interpolator and standing where it stood ends
   * where the interpolator ends once it has made the moves moveTo(double[]) forwarded.
   */
  lemma FollowerReplaysMoveTo(s: State, target: seq<real>)
    requires |s.position| <= |target|
    ensures var r := s.MoveToReals(target);
      |s.forwarded| <= |r.forwarded| && ApplyMoves(s.position, r.forwarded[|s.forwarded|..]) == r.position
  {
    var r := s.MoveToReals(target);
    MoveToReachesTarget(s, target);
    ReplayNonzeroMoves(s.position, target, s.linkedPositionable, 0);
    assert r.forwarded[|s.forwarded|..] == NonzeroMoves(s.position, target, s.linkedPositionable, 0);
    assert s.position[..0] + target[0..|s.position|] == target[..|s.position|];
  }

  /** Moving to where the interpolator already is forwards nothing and changes nothing. */
  lemma MoveToHereForwardsNothing(s: State)
    ensures s.MoveToReals(s.position) == s
  {
    MoveToReachesTarget(s, s.position);
    NoNonzeroMovesToHere(s.position, s.linkedPositionable, 0);
    assert s.position[..|s.position|] == s.position;
    assert s.forwarded + [] == s.forwarded;
  }

  lemma {:induction false} NoNonzeroMovesToHere(position: seq<real>, link: Target, i: nat)
    requires i <= |position|
    ensures NonzeroMoves(position, position, link, i) == []
    decreases |position| - i
  {
    if i < |position| {
      assert position[i := position[i]] == position;
      NoNonzeroMovesToHere(position, link, i + 1);
    }
  }

  /**
   * moveTo(long[]) is forwarded as setPosition(long[]), so it is indistinguishable
   * from setPosition(long[]); moveTo(int[]) keeps its own call and, like it, goes to
   * the continuous link rather than the raster link.
   */
  lemma IntegerArrayMovesGoToContinuousLink(s: State, p: seq<int>)
    requires |s.position| <= |p|
    ensures s.MoveToLongs(p) == s.SetPositionInts(p)
    ensures s.MoveToInts(p).position == s.SetPositionInts(p).position
    ensures s.MoveToInts(p).forwarded
         == s.forwarded + [Forward(s.linkedPositionable, Call.MoveToInts(p), s.MoveToInts(p).position)]
  {
  }

  /** The absolute setters overwrite every axis with the given coordinates. */
  lemma SettersOverwriteAllAxes(s: State, reals: seq<real>, ints: seq<int>, k: nat)
    requires |s.position| <= |reals| && |s.position| <= |ints| && k < |s.position|
    ensures s.SetPositionReals(reals).position[k] == reals[k]
    ensures s.SetPositionInts(ints).position[k] == ints[k] as real
    ensures s.MoveToInts(ints).position[k] == ints[k] as real
    ensures s.MoveToLongs(ints).position[k] == ints[k] as real
  {
  }

  /** A single-axis setter overwrites exactly that axis. */
  lemma SetterAtOverwritesOneAxis(s: State, x: real, n: int, dim: nat, k: nat)
    requires dim < |s.position| && k < |s.position|
    ensures s.SetPositionRealAt(x, dim).position[k] == if k == dim then x else s.position[k]
    ensures s.SetPositionIntAt(n, dim).position[k] == if k == dim then n as real else s.position[k]
  {
  }

  /** linkPositionable then unlinkPositionable hands back the target and restores both void links. */
  lemma LinkThenUnlink(s: State, p: Target)
    requires p.IsPositionable()
    ensures var (q, t) := s.LinkPositionable(p).UnlinkPositionable();
      q == p && t.linkedPositionable == Void && t.linkedRasterPositionable == Void
      && t.position == s.position && t.forwarded == s.forwarded
  {
  }

  /** linkRasterPositionable then unlinkRasterPositionable hands back the target and leaves the continuous link. */
  lemma LinkRasterThenUnlinkRaster(s: State, r: Target)
    ensures var (q, t) := s.LinkRasterPositionable(r).UnlinkRasterPositionable();
      q == r && t.linkedRasterPositionable == Void
      && t.linkedPositionable == s.linkedPositionable
      && t.position == s.position && t.forwarded == s.forwarded
  {
  }

  /**
   * The links are not symmetric: unlinkPositionable returns the continuous link
   * even when the raster link was set separately, and clears that one too;
   * unlinkRasterPositionable after linkPositionable returns the shared target and
   * keeps it in the continuous link.
   */
  lemma UnlinkAsymmetry(s: State, p: Target, r: Target)
    requires p.IsPositionable()
    ensures var (q, t) := s.LinkRasterPositionable(r).UnlinkPositionable();
      q == s.linkedPositionable && t.linkedRasterPositionable == Void && t.linkedPositionable == Void
    ensures var (q, t) := s.LinkPositionable(p).UnlinkRasterPositionable();
      q == p && t.linkedPositionable == p && t.linkedRasterPositionable == Void
  {
  }

  /** Once linked, the target sees every later move, in the order the interpolator made them, each from the updated position. */
  lemma LinkedTargetSeesMoves(s: State, p: Target, x: real, dim: nat, dim': nat)
    requires p.IsPositionable() && dim < |s.position| && dim' < |s.position|
    ensures var moved := s.position[dim := s.position[dim] + x];
      s.LinkPositionable(p).Move(x, dim).Fwd(dim').forwarded
         == s.forwarded + [Forward(p, Call.Move(x, dim), moved),
                           Forward(p, Call.Fwd(dim'), moved[dim' := moved[dim'] + 1.0])]
  {
  }

  /** After unlinkPositionable, moves of either kind reach only the void sink. */
  lemma UnlinkedMovesReachVoid(s: State, x: real, dim: nat)
    requires dim < |s.position|
    ensures var t := s.UnlinkPositionable().1;
      && t.Move(x, dim).forwarded[|s.forwarded|].receiver == Void
      && t.Fwd(dim).forwarded[|s.forwarded|].receiver == Void
      && |t.Move(x, dim).forwarded| == |t.Fwd(dim).forwarded| == |s.forwarded| + 1
  {
  }
}

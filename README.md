# imglib positioning, bounding boxes and first-order features in Dafny

This project models four classes of the imglib / imglib2 image-processing libraries and proves properties about them.

- **`BoundingBox`** (imglib2 `net.imglib2.transform.integer`) holds two `long[]` corners of an n-dimensional box. `orderMinMax` swaps the two coordinates on every axis where `corner1` is greater than `corner2`. After that, `corner1` is the minimum and `corner2` the maximum, and `getInterval` hands out the ordered box. Module `BoundingBoxes`, file `bounding_box.dfy`.
  - The value-level specification is `OrderedCorners`.
  - The class `BoundingBox` keeps the two arrays and updates them in place.
- **`AbstractInterpolator`** (imglib 1 `mpicbg.imglib.interpolation`) keeps a float position vector and two links: one to a continuous `Positionable` and one to a `RasterPositionable`. Every move, `fwd`/`bck` and setter updates the position and then passes a call on to one of the links. Both links start at the no-op `VoidPositionable`.
  - Module `Positioning` (`positioning.dfy`) states the behaviour as transitions of a `State` value and proves what they promise.
  - The transitions include: which axes change and by how much, which link gets which call, `moveTo` reaching its target with one `move` per changed axis in axis order, and link/unlink round trips.
  - Class `Interpolation.AbstractInterpolator` (`interpolator.dfy`) keeps a `position` array and mutable link fields. Each of its methods is proved to perform exactly its `State` transition.
  - The calls forwarded to the links are recorded in a ghost log. Each entry holds the receiver, the call and the position the interpolator sent it from.
- **`Min`** (imglib2 ops, `firstorder`) starts at `Double.MAX_VALUE` and keeps the smaller of that and each input value. Module `FirstOrder`, `min.dfy`.
- **`SumOfSquares`** (imglib2 ops, `firstorder.sums`) starts at `0` and adds `val * val` for each input value. Module `Sums`, `sum_of_squares.dfy`.
  - For both features, `recompute` is a loop proved against a recursive specification function (`MinOf`, `SumOfSquaresOf`), and the specification functions' properties are proved as lemmas.

BoundingBox's `long` corners are the newtype `BoundingBoxes.Long`, with bounds −2^63 ≤ x < 2^63. Java `float`/`double` values are Dafny `real`s. `Double.MAX_VALUE` is written out exactly as (2^53 − 1)·2^971.

How the interpolator forwards its calls:
- Most mutators forward the call they received. `moveTo(double[])`/`moveTo(float[])` instead forward one `move` per axis whose difference is non-zero, not a `moveTo`. `moveTo(long[])` forwards `setPosition(long[])`.
- `moveTo(int[])`, `moveTo(long[])`, `setPosition(int[])` and `setPosition(long[])` go to the continuous link, not the raster link.
- Only the two unlink operations return the previous target.
- Every call is forwarded after the interpolator has updated its own position. Each log entry records the position the call was sent from, so this order is proved. `linkPositionable` and `linkRasterPositionable` return nothing.
- `linkPositionable` replaces both links, and `unlinkPositionable` resets both. The raster-only pair touches only the raster link.

## Model

| member | source | states |
|---|---|---|
| BoundingBoxes.OrderedCorners | core/src/main/java/net/imglib2/transform/integer/BoundingBox.java:102-113 | orderMinMax on values: the result again has two corners of n axes each |
| BoundingBoxes.OrderedCornersAt | core/src/main/java/net/imglib2/transform/integer/BoundingBox.java:104-111 | on each axis d the two coordinates are swapped exactly when corner1[d] > corner2[d], otherwise kept |
| BoundingBoxes.OrderedCornersIsOrdered | core/src/main/java/net/imglib2/transform/integer/BoundingBox.java:98-113 | afterwards corner1[d] <= corner2[d] on every axis: corner1 is the min, corner2 the max |
| BoundingBoxes.OrderedCornersKeepsAxisPairs | core/src/main/java/net/imglib2/transform/integer/BoundingBox.java:106-111 | each axis keeps the same two coordinates (as a multiset); no value moves between axes |
| BoundingBoxes.OrderedCornersKeepsOrderedAxes | core/src/main/java/net/imglib2/transform/integer/BoundingBox.java:106 | an axis already in order (including equal coordinates) is left untouched |
| BoundingBoxes.OrderedCornersFixesOrdered | core/src/main/java/net/imglib2/transform/integer/BoundingBox.java:102-113 | a box that is already ordered is unchanged |
| BoundingBoxes.OrderedCornersIdempotent | core/src/main/java/net/imglib2/transform/integer/BoundingBox.java:102-113 | ordering twice gives the same box as ordering once (getInterval may call it repeatedly) |
| BoundingBoxes.OrderedCornersIsUnique | core/src/main/java/net/imglib2/transform/integer/BoundingBox.java:98-113 | any ordered box with the same coordinate pair on every axis is exactly the result of orderMinMax |
| BoundingBoxes.BoundingBox.constructor | core/src/main/java/net/imglib2/transform/integer/BoundingBox.java:54-59 | n axes, both corners fresh arrays of zeros |
| BoundingBoxes.BoundingBox.FromCorners | core/src/main/java/net/imglib2/transform/integer/BoundingBox.java:61-68 | n is the corners' length; the corners are fresh copies holding the given coordinates |
| BoundingBoxes.BoundingBox.FromInterval | core/src/main/java/net/imglib2/transform/integer/BoundingBox.java:70-77 | n is the interval's dimensionality; corner1 holds its min, corner2 its max, in fresh arrays |
| BoundingBoxes.BoundingBox.Corner1 | core/src/main/java/net/imglib2/transform/integer/BoundingBox.java:84-89 | the first n entries of c become corner1 as it was on entry, and the rest of c is unchanged; only c is written, so the box changes only when c is its own corner2 array |
| BoundingBoxes.BoundingBox.Corner2 | core/src/main/java/net/imglib2/transform/integer/BoundingBox.java:91-96 | the first n entries of c become corner2 as it was on entry, and the rest of c is unchanged; only c is written, so the box changes only when c is its own corner1 array |
| BoundingBoxes.BoundingBox.OrderMinMax | core/src/main/java/net/imglib2/transform/integer/BoundingBox.java:102-113 | the box becomes OrderedCorners of its old value and is ordered |
| BoundingBoxes.BoundingBox.GetInterval | core/src/main/java/net/imglib2/transform/integer/BoundingBox.java:118-122 | the box is ordered in place and the interval returned is its (min, max) = (corner1, corner2) |
| Positioning.NonzeroMoves | mpicbg/imglib/interpolation/AbstractInterpolator.java:159-178 | the moves moveTo(double[]) forwards from axis i: at most one per axis (further properties in NonzeroMovesAreOrdered, NonzeroMovesComplete, NonzeroMovesSentAfterUpdate, ReplayNonzeroMoves) |
| Positioning.Init | mpicbg/imglib/interpolation/AbstractInterpolator.java:54-71 | a new interpolator is at the origin of numDimensions axes, with both links at the void sink and nothing forwarded |
| Positioning.State.Move | mpicbg/imglib/interpolation/AbstractInterpolator.java:145-156 | move(double/float): keeps the number of axes and the link invariant; its effect is given by MoveChangesOneAxis and ForwardingTargets |
| Positioning.State.MoveToFrom | mpicbg/imglib/interpolation/AbstractInterpolator.java:159-178 | the moveTo loop from axis i on: keeps the number of axes and the link invariant; its effect is given by MoveToFromSpec |
| Positioning.State.MoveToReals | mpicbg/imglib/interpolation/AbstractInterpolator.java:159-178 | moveTo(double[]/float[]): keeps the number of axes; its effect is given by MoveToReachesTarget |
| Positioning.State.MoveToLocalizable | mpicbg/imglib/interpolation/AbstractInterpolator.java:180-185 | moveTo(Localizable): position becomes the localizable's coordinates, and the same call goes to the continuous link |
| Positioning.State.SetPositionLocalizable | mpicbg/imglib/interpolation/AbstractInterpolator.java:187-192 | setPosition(Localizable): position becomes the localizable's coordinates, and the same call goes to the continuous link |
| Positioning.State.SetPositionReals | mpicbg/imglib/interpolation/AbstractInterpolator.java:194-208 | setPosition(float[]/double[]): keeps the number of axes; its effect is given by SettersOverwriteAllAxes |
| Positioning.State.SetPositionRealAt | mpicbg/imglib/interpolation/AbstractInterpolator.java:210-222 | setPosition(float/double, dim): keeps the number of axes; its effect is given by SetterAtOverwritesOneAxis and ForwardingTargets |
| Positioning.State.Bck | mpicbg/imglib/interpolation/AbstractInterpolator.java:227-232 | bck(dim): keeps the number of axes; its effect is given by MoveChangesOneAxis and ForwardingTargets |
| Positioning.State.Fwd | mpicbg/imglib/interpolation/AbstractInterpolator.java:234-239 | fwd(dim): keeps the number of axes; its effect is given by MoveChangesOneAxis and ForwardingTargets |
| Positioning.State.MoveRaster | mpicbg/imglib/interpolation/AbstractInterpolator.java:241-253 | move(int/long, dim): keeps the number of axes; its effect is given by MoveChangesOneAxis and ForwardingTargets |
| Positioning.State.MoveToRasterLocalizable | mpicbg/imglib/interpolation/AbstractInterpolator.java:255-260 | moveTo(RasterLocalizable): position becomes the integer coordinates, and the same call goes to the raster link |
| Positioning.State.SetPositionRasterLocalizable | mpicbg/imglib/interpolation/AbstractInterpolator.java:278-283 | setPosition(RasterLocalizable): position becomes the integer coordinates, and the same call goes to the raster link |
| Positioning.State.MoveToInts | mpicbg/imglib/interpolation/AbstractInterpolator.java:262-268 | moveTo(int[]): keeps the number of axes; its effect is given by IntegerArrayMovesGoToContinuousLink |
| Positioning.State.MoveToLongs | mpicbg/imglib/interpolation/AbstractInterpolator.java:270-276 | moveTo(long[]): keeps the number of axes; its effect is given by IntegerArrayMovesGoToContinuousLink |
| Positioning.State.SetPositionInts | mpicbg/imglib/interpolation/AbstractInterpolator.java:285-299 | setPosition(int[]/long[]): keeps the number of axes; its effect is given by SettersOverwriteAllAxes |
| Positioning.State.SetPositionIntAt | mpicbg/imglib/interpolation/AbstractInterpolator.java:301-313 | setPosition(int/long, dim): keeps the number of axes; its effect is given by SetterAtOverwritesOneAxis and ForwardingTargets |
| Positioning.State.LinkPositionable | mpicbg/imglib/interpolation/AbstractInterpolator.java:318-323 | linkPositionable: both links become p, and the position is untouched |
| Positioning.State.UnlinkPositionable | mpicbg/imglib/interpolation/AbstractInterpolator.java:325-332 | unlinkPositionable: returns the continuous link, and both links go back to the void sink |
| Positioning.State.LinkRasterPositionable | mpicbg/imglib/interpolation/AbstractInterpolator.java:334-338 | linkRasterPositionable: only the raster link becomes r |
| Positioning.State.UnlinkRasterPositionable | mpicbg/imglib/interpolation/AbstractInterpolator.java:340-346 | unlinkRasterPositionable: returns the raster link, and only the raster link goes back to the void sink |
| Positioning.MoveChangesOneAxis | mpicbg/imglib/interpolation/AbstractInterpolator.java:145-253 | move (both kinds), fwd and bck change axis dim by the distance, +1 or −1, and leave every other axis as it was |
| Positioning.ForwardingTargets | mpicbg/imglib/interpolation/AbstractInterpolator.java:145-313 | single-axis moves and setters append exactly their own call, sent from the already updated position: double/float ones to the continuous link, int/long ones and fwd/bck to the raster link; links are unchanged |
| Positioning.WholePositionForwarding | mpicbg/imglib/interpolation/AbstractInterpolator.java:180-299 | the localizable and array calls each append one call, sent from the already updated position: localizables to the link of their kind, every array call to the continuous link, moveTo(long[]) as setPosition(long[]) |
| Positioning.FwdThenBckReturns | mpicbg/imglib/interpolation/AbstractInterpolator.java:227-239 | fwd then bck restores the position and links, and forwards fwd (from the advanced position) then bck (from the original one) |
| Positioning.FwdIsUnitMove | mpicbg/imglib/interpolation/AbstractInterpolator.java:227-253 | fwd/bck move the position like move(+1)/move(−1) |
| Positioning.MoveToFromSpec | mpicbg/imglib/interpolation/AbstractInterpolator.java:159-178 | the loop from axis i sets axes i.. to the target, leaves axes below i alone, and appends exactly NonzeroMoves |
| Positioning.MoveToReachesTarget | mpicbg/imglib/interpolation/AbstractInterpolator.java:159-178 | moveTo(double[]) ends at the target's first n coordinates, links unchanged, forwarding exactly the non-zero per-axis moves |
| Positioning.NonzeroMovesAreOrdered | mpicbg/imglib/interpolation/AbstractInterpolator.java:161-166 | every forwarded move is a move by target[d] − position[d] ≠ 0 on the continuous link, and the moves come in strictly increasing axis order |
| Positioning.NonzeroMovesComplete | mpicbg/imglib/interpolation/AbstractInterpolator.java:161-166 | conversely, every axis whose target differs from the position gets a move to the link by exactly that difference |
| Positioning.NonzeroMovesSentAfterUpdate | mpicbg/imglib/interpolation/AbstractInterpolator.java:161-166 | each move on axis d is sent when axes up to d are at the target and later axes are still where they started |
| Positioning.ReplayNonzeroMoves | mpicbg/imglib/interpolation/AbstractInterpolator.java:159-178 | replaying the forwarded moves from axis i brings those axes to the target and leaves the others |
| Positioning.FollowerReplaysMoveTo | mpicbg/imglib/interpolation/AbstractInterpolator.java:159-178 | a linked positionable at the interpolator's position that makes the forwarded moves ends where the interpolator ends |
| Positioning.MoveToHereForwardsNothing | mpicbg/imglib/interpolation/AbstractInterpolator.java:163-164 | moveTo the current position changes nothing and forwards nothing |
| Positioning.IntegerArrayMovesGoToContinuousLink | mpicbg/imglib/interpolation/AbstractInterpolator.java:262-276 | moveTo(long[]) is indistinguishable from setPosition(long[]); moveTo(int[]) sets the same position but forwards moveTo(int[]) to the continuous link, from the new position |
| Positioning.SettersOverwriteAllAxes | mpicbg/imglib/interpolation/AbstractInterpolator.java:194-299 | the array setters and integer-array moveTo set every axis k to the array's k-th value |
| Positioning.SetterAtOverwritesOneAxis | mpicbg/imglib/interpolation/AbstractInterpolator.java:210-313 | setPosition(value, dim) sets axis dim to the value and leaves the other axes as they were |
| Positioning.LinkThenUnlink | mpicbg/imglib/interpolation/AbstractInterpolator.java:318-332 | link then unlink returns the linked target and leaves both links at the void sink, with position and log unchanged |
| Positioning.LinkRasterThenUnlinkRaster | mpicbg/imglib/interpolation/AbstractInterpolator.java:334-346 | raster link then raster unlink returns r and restores the raster link to the void sink, leaving the continuous link alone |
| Positioning.UnlinkAsymmetry | mpicbg/imglib/interpolation/AbstractInterpolator.java:318-346 | unlinkPositionable also clears a raster-only link and returns the continuous link; unlinkRasterPositionable after linkPositionable returns p but leaves the continuous link at p |
| Positioning.LinkedTargetSeesMoves | mpicbg/imglib/interpolation/AbstractInterpolator.java:145-239 | after linkPositionable(p), a move and a fwd both reach p, in call order, each from the position after its own update |
| Positioning.UnlinkedMovesReachVoid | mpicbg/imglib/interpolation/AbstractInterpolator.java:145-239 | after unlinkPositionable, a move or a step forwards exactly one call, to the void sink |
| Interpolation.AbstractInterpolator.constructor | mpicbg/imglib/interpolation/AbstractInterpolator.java:54-71 | the object's state is Init(numDimensions) |
| Interpolation.AbstractInterpolator.GetDoublePosition | mpicbg/imglib/interpolation/AbstractInterpolator.java:108-111 | returns coordinate dim of the state's position |
| Interpolation.AbstractInterpolator.Localize | mpicbg/imglib/interpolation/AbstractInterpolator.java:127-139 | dest receives the first dest.length coordinates; the interpolator is unchanged |
| Interpolation.AbstractInterpolator.Move | mpicbg/imglib/interpolation/AbstractInterpolator.java:145-156 | performs State.Move on the object |
| Interpolation.AbstractInterpolator.MoveToReals | mpicbg/imglib/interpolation/AbstractInterpolator.java:159-178 | the per-axis loop calling move performs State.MoveToReals |
| Interpolation.AbstractInterpolator.MoveToLocalizable | mpicbg/imglib/interpolation/AbstractInterpolator.java:180-185 | performs State.MoveToLocalizable |
| Interpolation.AbstractInterpolator.SetPositionLocalizable | mpicbg/imglib/interpolation/AbstractInterpolator.java:187-192 | performs State.SetPositionLocalizable |
| Interpolation.AbstractInterpolator.SetPositionReals | mpicbg/imglib/interpolation/AbstractInterpolator.java:194-208 | the copy loop performs State.SetPositionReals |
| Interpolation.AbstractInterpolator.SetPositionRealAt | mpicbg/imglib/interpolation/AbstractInterpolator.java:210-222 | performs State.SetPositionRealAt |
| Interpolation.AbstractInterpolator.Bck | mpicbg/imglib/interpolation/AbstractInterpolator.java:227-232 | performs State.Bck |
| Interpolation.AbstractInterpolator.Fwd | mpicbg/imglib/interpolation/AbstractInterpolator.java:234-239 | performs State.Fwd |
| Interpolation.AbstractInterpolator.MoveRaster | mpicbg/imglib/interpolation/AbstractInterpolator.java:241-253 | performs State.MoveRaster |
| Interpolation.AbstractInterpolator.MoveToRasterLocalizable | mpicbg/imglib/interpolation/AbstractInterpolator.java:255-260 | performs State.MoveToRasterLocalizable |
| Interpolation.AbstractInterpolator.MoveToInts | mpicbg/imglib/interpolation/AbstractInterpolator.java:262-268 | performs State.MoveToInts |
| Interpolation.AbstractInterpolator.MoveToLongs | mpicbg/imglib/interpolation/AbstractInterpolator.java:270-276 | performs State.MoveToLongs (forwarding setPosition) |
| Interpolation.AbstractInterpolator.SetPositionRasterLocalizable | mpicbg/imglib/interpolation/AbstractInterpolator.java:278-283 | performs State.SetPositionRasterLocalizable |
| Interpolation.AbstractInterpolator.SetPositionInts | mpicbg/imglib/interpolation/AbstractInterpolator.java:285-299 | performs State.SetPositionInts |
| Interpolation.AbstractInterpolator.SetPositionIntAt | mpicbg/imglib/interpolation/AbstractInterpolator.java:301-313 | performs State.SetPositionIntAt |
| Interpolation.AbstractInterpolator.CopyInts | mpicbg/imglib/interpolation/AbstractInterpolator.java:263-299 | the copy loop shared by the integer-array moveTo/setPosition overloads: axis i becomes p[i] |
| Interpolation.AbstractInterpolator.LinkPositionable | mpicbg/imglib/interpolation/AbstractInterpolator.java:318-323 | performs State.LinkPositionable |
| Interpolation.AbstractInterpolator.UnlinkPositionable | mpicbg/imglib/interpolation/AbstractInterpolator.java:325-332 | returns and performs State.UnlinkPositionable |
| Interpolation.AbstractInterpolator.LinkRasterPositionable | mpicbg/imglib/interpolation/AbstractInterpolator.java:334-338 | performs State.LinkRasterPositionable |
| Interpolation.AbstractInterpolator.UnlinkRasterPositionable | mpicbg/imglib/interpolation/AbstractInterpolator.java:340-346 | returns and performs State.UnlinkRasterPositionable |
| FirstOrder.Smaller | ops/src/main/java/net/imglib2/ops/features/firstorder/Min.java:47 | `val < min ? val : min` is at most both operands and equal to one of them |
| FirstOrder.MinOf | ops/src/main/java/net/imglib2/ops/features/firstorder/Min.java:41-48 | the value recompute returns: Double.MAX_VALUE, folded with the smaller-of step over the inputs in order (properties in the MinOf lemmas below) |
| FirstOrder.MinOfIsLowerBound | ops/src/main/java/net/imglib2/ops/features/firstorder/Min.java:41-48 | the minimum is at most every input value |
| FirstOrder.MinOfAtMostSentinel | ops/src/main/java/net/imglib2/ops/features/firstorder/Min.java:41 | the minimum never exceeds Double.MAX_VALUE |
| FirstOrder.MinOfIsInputOrSentinel | ops/src/main/java/net/imglib2/ops/features/firstorder/Min.java:41-48 | the minimum is one of the inputs or Double.MAX_VALUE |
| FirstOrder.MinOfIsInput | ops/src/main/java/net/imglib2/ops/features/firstorder/Min.java:41-48 | for a non-empty input of finite doubles, the minimum is one of the inputs |
| FirstOrder.MinOfAppend | ops/src/main/java/net/imglib2/ops/features/firstorder/Min.java:44-48 | one more value v gives the smaller of v and the old minimum |
| FirstOrder.MinOfEmpty | ops/src/main/java/net/imglib2/ops/features/firstorder/Min.java:41 | with no input the result is Double.MAX_VALUE |
| FirstOrder.MinOfExample | ops/src/main/java/net/imglib2/ops/features/firstorder/Min.java:41-48 | the minimum of 5, 2, −3, 9 is −3 |
| FirstOrder.Min.constructor | ops/src/main/java/net/imglib2/ops/features/firstorder/Min.java:10-14 | a new feature has no input yet |
| FirstOrder.Min.Name | ops/src/main/java/net/imglib2/ops/features/firstorder/Min.java:20-23 | the name is "Minimum" |
| FirstOrder.Min.Copy | ops/src/main/java/net/imglib2/ops/features/firstorder/Min.java:29-32 | a fresh Min with no input |
| FirstOrder.Min.Recompute | ops/src/main/java/net/imglib2/ops/features/firstorder/Min.java:38-51 | returns MinOf(ii): at most every input and at most Double.MAX_VALUE |
| Sums.SumOfSquaresOf | ops/src/main/java/net/imglib2/ops/features/firstorder/sums/SumOfSquares.java:40-46 | the value recompute returns: 0 plus val * val for each input in order (properties in the lemmas below) |
| Sums.SumOfSquaresNonNegative | ops/src/main/java/net/imglib2/ops/features/firstorder/sums/SumOfSquares.java:37-48 | the sum of squares is never negative |
| Sums.SumOfSquaresAppend | ops/src/main/java/net/imglib2/ops/features/firstorder/sums/SumOfSquares.java:42-46 | one more value v adds exactly v * v |
| Sums.SumOfSquaresConcat | ops/src/main/java/net/imglib2/ops/features/firstorder/sums/SumOfSquares.java:37-48 | the sum over a + b is the sum over a plus the sum over b |
| Sums.SumOfSquaresEmpty | ops/src/main/java/net/imglib2/ops/features/firstorder/sums/SumOfSquares.java:40 | with no input the result is 0 |
| Sums.SumOfSquaresExample | ops/src/main/java/net/imglib2/ops/features/firstorder/sums/SumOfSquares.java:37-48 | the sum of squares of 5, 2, −3, 9 is 119 |
| Sums.SumOfSquares.constructor | ops/src/main/java/net/imglib2/ops/features/firstorder/sums/SumOfSquares.java:10-13 | the class has only Java's implicit default constructor: a new feature has no input yet |
| Sums.SumOfSquares.Name | ops/src/main/java/net/imglib2/ops/features/firstorder/sums/SumOfSquares.java:19-22 | the name is "Sum of Squares" |
| Sums.SumOfSquares.Copy | ops/src/main/java/net/imglib2/ops/features/firstorder/sums/SumOfSquares.java:28-31 | a fresh SumOfSquares with no input |
| Sums.SumOfSquares.Recompute | ops/src/main/java/net/imglib2/ops/features/firstorder/sums/SumOfSquares.java:37-48 | returns SumOfSquaresOf(ii), which is non-negative |

## Left out

- Floating point: `float` and `double` are exact reals. The model leaves out rounding and the `(float)` casts in `setPosition(double[])` and `setPosition(double, dim)`, and the `di == 0` tests compare exact differences. It also leaves out NaN and infinities, overflow of `SumOfSquares` to infinity, and the precision lost converting `int` or `long` to `float` (above 2^24), as in `move(int, dim)`, `setPosition(int, dim)` and `setPosition(int[])`.
- The `float`/`double` and `int`/`long` overloads of `AbstractInterpolator` are merged into one operation each, because with exact numbers they behave the same. The one exception is `moveTo(int[])` versus `moveTo(long[])`, which forward different calls.
- The linked targets' own reactions are not modelled. A link is an opaque `Target`, and each forwarded call is recorded in a ghost log. The model cannot express a link that points back at the interpolator.
- AbstractInterpolator: its `int`/`long` arguments (distances, coordinates, arrays, `RasterLocalizable` coordinates) are unbounded Dafny `int`s, not 32- or 64-bit values. The Java code only converts them to `float`, and that rounding is left out above, so no behaviour is lost.
- AbstractInterpolator: the preconditions `dim < numDimensions` and "the array has at least numDimensions entries" exclude Java's `ArrayIndexOutOfBoundsException`. So does `dest.length <= numDimensions` for `localize`. The model does not cover those paths or what they do before throwing. With a short array, `moveTo(double[])` forwards the moves for the axes it reaches and then throws. With a long `dest`, `localize` copies numDimensions entries and then throws.
- `moveTo(double[])` calls `this.move`. A subclass overriding `move` (virtual dispatch) is not modelled.
- `Localizable.localize` and `RasterLocalizable.localize`, as called by `moveTo`/`setPosition(Localizable)`, are an abstract read of exactly numDimensions coordinates. A localizable of a different dimensionality is excluded by a precondition.
- `AbstractInterpolator`'s image, factory, out-of-bounds strategy and `getType()` accessors, `numDimensions()` (a constant field here), and `getLocationAsString()` (string formatting) are not modelled.
- The interpolation kernels in subclasses and the out-of-bounds cursor are not part of this model.
- BoundingBox: the Java `assert` statements (`corner1.length == corner2.length`, `c.length >= n`) become preconditions. With Java assertions disabled, those calls would go ahead or fail with an array index exception; the model does not cover that.
- BoundingBox: a negative `n` in `BoundingBox(int)` (a `NegativeArraySizeException` in Java) is excluded by the type `nat`. `numDimensions()` is the constant field `n`.
- BoundingBox: `getInterval` returns the (min, max) pair as a value. The `FinalInterval` class and the `Interval` interface are not part of this model.
- Min: the `System.out.println` at `recompute` entry is output only and is left out.
- Min and SumOfSquares: the feature framework (`AbstractFeature`, `@RequiredInput` injection, caching) is left out. The injected iterable is a field `ii` of values that starts empty, where Java starts with `null`. Running `recompute` before injection, a `NullPointerException` in Java, is not modelled. `DoubleType` results are plain reals.
- FirstOrder.MinOfIsInput requires every input to be at most `Double.MAX_VALUE`, which every finite `double` is. For `+∞` inputs the sentinel would be returned.
- Sums: the property that the sum of squares is zero exactly when every input is zero is not stated.
- `DevUtil`, `DefaultAxisType`, `ComplexSech` and the `newcell.Cell` class are not part of this model.

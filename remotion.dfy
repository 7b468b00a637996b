/** The two host functions every component computes with, as the Remotion
    library defines them: `interpolate` and the easing curves it accepts.
    Numbers are exact reals; there is no floating-point rounding. */
module Remotion {

  /** The easing curves in use: `Easing.linear`, the default of `interpolate`,
      and `Easing.out(Easing.cubic)`, the default of the animation hook. */
  datatype Easing = Linear | CubicOut

  function Cube(u: real): real
  {
    u * u * u
  }

  /** `Easing.out(f)` is `t => 1 - f(1 - t)`, and `Easing.cubic` is `t => t^3`. */
  function Ease(e: Easing, t: real): (r: real)
    ensures 0.0 <= t <= 1.0 ==> 0.0 <= r <= 1.0
    ensures t == 0.0 ==> r == 0.0
    ensures t == 1.0 ==> r == 1.0
  {
    match e
    case Linear => t
    case CubicOut =>
      if 0.0 <= t <= 1.0 then CubeBounds(1.0 - t); 1.0 - Cube(1.0 - t)
      else 1.0 - Cube(1.0 - t)
  }

  lemma CubeBounds(u: real)
    requires 0.0 <= u <= 1.0
    ensures 0.0 <= Cube(u) <= 1.0
    ensures Cube(u) == 0.0 <==> u == 0.0
  {
    assert 0.0 <= u * u <= u;
    assert u * u * u <= u * u;
    if u > 0.0 {
      assert u * u > 0.0;
      assert u * u * u > 0.0;
    }
  }

  lemma CubeMonotone(u: real, v: real)
    requires 0.0 <= u <= v
    ensures Cube(u) <= Cube(v)
  {
    assert u * u <= u * v <= v * v;
    assert u * u * u <= v * v * u <= v * v * v;
  }

  /** Both easing curves are non-decreasing on [0, 1]. */
  lemma EaseMonotone(e: Easing, s: real, t: real)
    requires 0.0 <= s <= t <= 1.0
    ensures Ease(e, s) <= Ease(e, t)
  {
    if e == CubicOut {
      CubeMonotone(1.0 - t, 1.0 - s);
    }
  }

  /** On [0, 1] both easing curves reach 1 only at 1. */
  lemma EaseReachesOne(e: Easing, t: real)
    requires 0.0 <= t <= 1.0
    ensures Ease(e, t) == 1.0 <==> t == 1.0
  {
    if e == CubicOut {
      CubeBounds(1.0 - t);
    }
  }

  /** How `interpolate` treats an input outside a segment: 'extend' (the
      default) keeps the input, 'clamp' pins it to the segment's end. */
  datatype Extrapolate = Extend | Clamp

  datatype Options = Options(easing: Easing, left: Extrapolate, right: Extrapolate)

  /** The options `interpolate` uses when the caller gives none. */
  const Defaults := Options(Linear, Extend, Extend)

  predicate StrictlyIncreasing(xs: seq<real>)
  {
    forall i, j :: 0 <= i < j < |xs| ==> xs[i] < xs[j]
  }

  /** The segment of `inputRange` that `interpolate` uses for `input`: the
      first breakpoint at or above the input ends it, and the first and last
      segments extend to the left and to the right. */
  function FindRange(input: real, inputRange: seq<real>): (k: nat)
    requires |inputRange| >= 2
    ensures k <= |inputRange| - 2
    ensures 0 < k ==> inputRange[k] < input
    ensures k < |inputRange| - 2 ==> input <= inputRange[k + 1]
  {
    FindRangeFrom(input, inputRange, 1) - 1
  }

  function FindRangeFrom(input: real, inputRange: seq<real>, i: nat): (j: nat)
    requires 1 <= i <= |inputRange| - 1
    ensures i <= j <= |inputRange| - 1
    ensures forall m :: i <= m < j ==> inputRange[m] < input
    ensures j < |inputRange| - 1 ==> input <= inputRange[j]
    decreases |inputRange| - i
  {
    if i < |inputRange| - 1 && inputRange[i] < input then FindRangeFrom(input, inputRange, i + 1)
    else i
  }

  /** `interpolate` on one segment `[inMin, inMax] -> [outMin, outMax]`. */
  function InterpolateSegment(input: real, inMin: real, inMax: real, outMin: real, outMax: real,
                              options: Options): real
    requires inMin < inMax
  {
    var x := if input < inMin && options.left == Clamp then inMin else input;
    var y := if x > inMax && options.right == Clamp then inMax else x;
    if outMin == outMax then outMin
    else Ease(options.easing, (y - inMin) / (inMax - inMin)) * (outMax - outMin) + outMin
  }

  /** `interpolate(input, inputRange, outputRange, options)`. The library
      rejects ranges of different lengths, of fewer than two points, or that
      do not strictly increase; every literal range in the components
      satisfies this, and the hooks' windows `[start, start + duration]` do
      whenever `duration > 0`. */
  function Interpolate(input: real, inputRange: seq<real>, outputRange: seq<real>, options: Options): (r: real)
    requires |inputRange| == |outputRange| >= 2
    requires StrictlyIncreasing(inputRange)
    ensures forall i :: 0 <= i < |inputRange| && input == inputRange[i] ==> r == outputRange[i]
    ensures options.left == Clamp && input <= inputRange[0] ==> r == outputRange[0]
    ensures options.right == Clamp && input >= inputRange[|inputRange| - 1] ==> r == outputRange[|outputRange| - 1]
  {
    var k := FindRange(input, inputRange);
    FoundSegmentEnds(input, inputRange, outputRange, options);
    InterpolateSegment(input, inputRange[k], inputRange[k + 1], outputRange[k], outputRange[k + 1], options)
  }

  /** The segment `FindRange` picks holds every breakpoint equal to the
      input, and is the first (last) one for an input left (right) of all
      breakpoints. */
  lemma FoundSegmentEnds(input: real, inputRange: seq<real>, outputRange: seq<real>, options: Options)
    requires |inputRange| == |outputRange| >= 2
    requires StrictlyIncreasing(inputRange)
    ensures var k := FindRange(input, inputRange);
      var r := InterpolateSegment(input, inputRange[k], inputRange[k + 1], outputRange[k], outputRange[k + 1], options);
      && (forall i :: 0 <= i < |inputRange| && input == inputRange[i] ==> r == outputRange[i])
      && (options.left == Clamp && input <= inputRange[0] ==> r == outputRange[0])
      && (options.right == Clamp && input >= inputRange[|inputRange| - 1] ==> r == outputRange[|outputRange| - 1])
  {
    var k := FindRange(input, inputRange);
    var n := |inputRange|;
    SegmentEnds(input, inputRange[k], inputRange[k + 1], outputRange[k], outputRange[k + 1], options);
    forall i | 0 <= i < n && input == inputRange[i]
      ensures k <= i <= k + 1
    {
      assert k > 0 ==> inputRange[k] < inputRange[i];
      assert k < n - 2 ==> inputRange[i] <= inputRange[k + 1];
    }
    assert k > 0 ==> inputRange[0] < inputRange[k];
    assert k < n - 2 ==> inputRange[k + 1] < inputRange[n - 1];
  }

  /** One segment maps its start to `outMin` and its end to `outMax`, and
      clamping pins inputs beyond an end to that end's output. */
  lemma SegmentEnds(input: real, inMin: real, inMax: real, outMin: real, outMax: real, options: Options)
    requires inMin < inMax
    ensures input == inMin ==> InterpolateSegment(input, inMin, inMax, outMin, outMax, options) == outMin
    ensures input == inMax ==> InterpolateSegment(input, inMin, inMax, outMin, outMax, options) == outMax
    ensures options.left == Clamp && input <= inMin
        ==> InterpolateSegment(input, inMin, inMax, outMin, outMax, options) == outMin
    ensures options.right == Clamp && input >= inMax
        ==> InterpolateSegment(input, inMin, inMax, outMin, outMax, options) == outMax
  {
    var d := inMax - inMin;
    assert (inMin - inMin) / d == 0.0;
    assert (inMax - inMin) / d == 1.0;
  }

  function Clamp01(t: real): (c: real)
    ensures 0.0 <= c <= 1.0
    ensures 0.0 <= t <= 1.0 ==> c == t
  {
    if t < 0.0 then 0.0 else if t > 1.0 then 1.0 else t
  }

  /** With both ends clamped, `interpolate` onto [0, 1] is the eased clamped
      fraction of the way from `a` to `b`. */
  lemma {:induction false} ClampedUnit(x: real, a: real, b: real, e: Easing)
    requires a < b
    ensures StrictlyIncreasing([a, b])
    ensures Interpolate(x, [a, b], [0.0, 1.0], Options(e, Clamp, Clamp))
         == Ease(e, Clamp01((x - a) / (b - a)))
  {
    var o := Options(e, Clamp, Clamp);
    assert FindRange(x, [a, b]) == 0;
    var y := if x < a then a else if x > b then b else x;
    assert Interpolate(x, [a, b], [0.0, 1.0], o) == Ease(e, (y - a) / (b - a)) * 1.0 + 0.0;
    ClampedFraction(x, a, b);
  }

  lemma ClampedFraction(x: real, a: real, b: real)
    requires a < b
    ensures ((if x < a then a else if x > b then b else x) - a) / (b - a) == Clamp01((x - a) / (b - a))
  {
    var d := b - a;
    if x < a {
      DivSign(x - a, d);
      DivSign(0.0, d);
    } else if x > b {
      DivVersusOne(x - a, d);
      DivVersusOne(d, d);
    } else {
      DivSign(x - a, d);
      DivVersusOne(x - a, d);
    }
  }

  lemma DivVersusOne(n: real, d: real)
    requires d > 0.0
    ensures n <= d ==> n / d <= 1.0
    ensures n > d ==> n / d > 1.0
    ensures n == d ==> n / d == 1.0
  {
    var q := n / d;
    assert q * d == n;
    if q > 1.0 {
      assert q * d > 1.0 * d;
    } else if q < 1.0 {
      assert q * d < 1.0 * d;
    }
  }

  lemma DivSign(n: real, d: real)
    requires d > 0.0
    ensures n < 0.0 ==> n / d < 0.0
    ensures n > 0.0 ==> n / d > 0.0
    ensures n == 0.0 ==> n / d == 0.0
  {
  }

  /** The fraction of the way through `[a, a + len]` grows with the input. */
  lemma FractionMonotone(x: real, y: real, d: real)
    requires d > 0.0 && x <= y
    ensures x / d <= y / d
  {
    DivSign(y - x, d);
    assert y / d - x / d == (y - x) / d;
  }

  /** Within its one segment, an extended two-point `interpolate` applied to
      a point of [0, 1] is the eased point scaled onto the output range. */
  lemma UnitSegment(p: real, outMin: real, outMax: real, e: Easing)
    requires 0.0 <= p <= 1.0
    ensures StrictlyIncreasing([0.0, 1.0])
    ensures Interpolate(p, [0.0, 1.0], [outMin, outMax], Options(e, Extend, Extend))
         == Ease(e, p) * (outMax - outMin) + outMin
  {
    assert (p - 0.0) / (1.0 - 0.0) == p;
  }
}

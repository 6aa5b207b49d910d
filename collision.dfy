/** Ground collision as `collide` decides it: which terrain segment a point is
    looked up in, which bounds point resolves a lander, and how. */
module Collision {
  import opened Wrappers
  import opened JsNumbers
  import opened Geometry
  import opened Flight
  import Terrain

  /** `((divisions * x) / width) | 0`: the entity index of the segment under x. */
  function SegmentIndex(divisions: nat, width: real, x: real): int
    requires width > 0.0
  {
    ToInt32((divisions as real * x) / width)
  }

  /** Within the 32-bit range the index is the truncated quotient. */
  lemma IndexIsTruncated(d: nat, width: real, x: real, v: real)
    requires width > 0.0 && v == (d as real * x) / width
    requires -(TwoTo31 as real) < v < TwoTo31 as real
    ensures SegmentIndex(d, width, x) == Trunc(v)
  {
  }

  /** On screen, the index names the segment whose x-span holds x. */
  lemma SegmentHoldsPoint(d: nat, width: real, x: real)
    requires 1 <= d < TwoTo31 && width > 0.0 && 0.0 <= x < width
    ensures 0 <= SegmentIndex(d, width, x) < d
    ensures var i := SegmentIndex(d, width, x);
      (width / d as real) * i as real <= x < (width / d as real) * (i + 1) as real
  {
    InSegmentUnits(d as real, width, x);
    Below(x, width, width / d as real);
    SlicesInWidth(width, d as real);
    IndexIsTruncated(d, width, x, x / (width / d as real));
    TruncatedSpan(x / (width / d as real), width / d as real, x, SegmentIndex(d, width, x));
  }

  lemma SlicesInWidth(w: real, d: real)
    requires w > 0.0 && d > 0.0
    ensures w / (w / d) == d
  {
  }

  /** The truncation n of v = x / k (v >= 0) puts x in [k*n, k*(n+1)). */
  lemma TruncatedSpan(v: real, k: real, x: real, n: int)
    requires k > 0.0 && v >= 0.0 && v == x / k && n == Trunc(v)
    ensures k * n as real <= x < k * (n + 1) as real
  {
    var i := n as real;
    assert i <= v < i + 1.0;
    assert (n + 1) as real == i + 1.0;
    assert x == v * k;
    Between(i, v, k, x);
  }

  /** `(divisions * x) / width` counts x in segment widths. */
  lemma InSegmentUnits(d: real, w: real, x: real)
    requires d > 0.0 && w > 0.0
    ensures (d * x) / w == x / (w / d) && w / d > 0.0
  {
  }

  lemma Below(x: real, w: real, k: real)
    requires k > 0.0 && 0.0 <= x < w
    ensures 0.0 <= x / k < w / k
  {
  }

  /** i <= v < i + 1 scales to k*i <= x < k*(i+1) for x = v*k. */
  lemma Between(i: real, v: real, k: real, x: real)
    requires k > 0.0 && i <= v < i + 1.0 && x == v * k
    ensures k * i <= x < k * (i + 1.0)
  {
    var below, above := v - i, i + 1.0 - v;
    Terrain.NonNegProduct(below, k);
    assert below * k == x - k * i;
    Terrain.PosProduct(above, k);
    assert above * k == k * (i + 1.0) - x;
  }

  /** x / k for x in (-k, 0) lies in (-1, 0). */
  lemma WithinOneLeft(x: real, k: real)
    requires k > 0.0 && -k < x < 0.0
    ensures -1.0 < x / k < 0.0
  {
    assert x / k * k == x;
    if x / k <= -1.0 {
      assert false;
    }
  }

  /** Truncation toward zero: a point up to one segment width left of the
      screen is looked up in the first segment instead of counting as off-screen. */
  lemma JustLeftMapsToFirst(d: nat, width: real, x: real)
    requires 1 <= d && width > 0.0 && -(width / d as real) < x < 0.0
    ensures SegmentIndex(d, width, x) == 0
  {
    var k := width / d as real;
    InSegmentUnits(d as real, width, x);
    var v := x / k;
    WithinOneLeft(x, k);
    IndexIsTruncated(d, width, x, v);
    assert Trunc(v) == 0;
  }

  /** x / k >= w / k for x >= w, and x / k <= -1 for x <= -k. */
  lemma OutsideInUnits(x: real, w: real, k: real)
    requires k > 0.0
    ensures x >= w ==> x / k >= w / k
    ensures x <= -k ==> x / k <= -1.0
  {
    assert x / k * k == x && w / k * k == w;
    if x >= w && x / k < w / k {
      assert false;
    }
    if x <= -k && x / k > -1.0 {
      assert false;
    }
  }

  /** Far enough left or right (but short of 32-bit wrap-around) the index is
      out of range, so the point is off-screen. */
  lemma OffscreenIsOutOfRange(d: nat, width: real, x: real)
    requires 1 <= d && width > 0.0
    requires -(TwoTo31 as real) < (d as real * x) / width < TwoTo31 as real
    ensures x >= width ==> SegmentIndex(d, width, x) >= d
    ensures x <= -(width / d as real) ==> SegmentIndex(d, width, x) < 0
  {
    var k := width / d as real;
    InSegmentUnits(d as real, width, x);
    var v := x / k;
    OutsideInUnits(x, width, k);
    assert width / k == d as real;
    IndexIsTruncated(d, width, x, v);
  }

  /** A bounds point stops the walk when it is off the terrain's index range
      or on or below its segment. */
  predicate Resolves(terrain: seq<Line>, width: real, p: Vec)
    requires width > 0.0
  {
    var seg := SegmentIndex(|terrain|, width, p.x);
    !(0 <= seg < |terrain|) || terrain[seg].PointBelow(p.x, p.y)
  }

  /** The first bounds point from `from` on that resolves, if any. */
  function FirstContact(terrain: seq<Line>, width: real, pts: seq<Vec>, from: nat): (r: Option<nat>)
    requires width > 0.0 && from <= |pts|
    ensures r.Some? ==> from <= r.value < |pts| && Resolves(terrain, width, pts[r.value])
    ensures r.Some? ==> forall k :: from <= k < r.value ==> !Resolves(terrain, width, pts[k])
    ensures r.None? ==> forall k :: from <= k < |pts| ==> !Resolves(terrain, width, pts[k])
    decreases |pts| - from
  {
    if from == |pts| then None
    else if Resolves(terrain, width, pts[from]) then Some(from)
    else FirstContact(terrain, width, pts, from + 1)
  }

  /** The walk stops at a resolving point and moves past any other. */
  lemma FirstContactStep(terrain: seq<Line>, width: real, pts: seq<Vec>, i: nat)
    requires width > 0.0 && i < |pts|
    ensures Resolves(terrain, width, pts[i]) ==> FirstContact(terrain, width, pts, i) == Some(i)
    ensures !Resolves(terrain, width, pts[i]) ==>
              FirstContact(terrain, width, pts, i) == FirstContact(terrain, width, pts, i + 1)
  {
  }

  /** How a resolving point ends the flight. */
  datatype Outcome = Landed | Crashed | Offscreen

  /** The outcome `collide` reports after calling `land` with the given line
      (no line: the lander left the screen). */
  function Judge(line: Option<Line>, velocity: Vec, angle: real, velLimit: real, angLimit: real): Outcome {
    if line.None? then Offscreen
    else if LandingOk(line, velocity, angle, velLimit, angLimit) then Landed
    else Crashed
  }

  /** `land(entities[segment])` on a point below its segment, `land()` off-screen. */
  function Contact(terrain: seq<Line>, width: real, p: Vec, velocity: Vec, angle: real,
                   velLimit: real, angLimit: real): Outcome
    requires width > 0.0
  {
    var seg := SegmentIndex(|terrain|, width, p.x);
    Judge(if 0 <= seg < |terrain| then Some(terrain[seg]) else None, velocity, angle, velLimit, angLimit)
  }

  /** The whole decision for one lander: the resolving point and its outcome. */
  function Resolution(terrain: seq<Line>, width: real, pts: seq<Vec>, velocity: Vec,
                      angle: real, velLimit: real, angLimit: real): Option<(Vec, Outcome)>
    requires width > 0.0
  {
    match FirstContact(terrain, width, pts, 0)
    case None => None
    case Some(i) => Some((pts[i], Contact(terrain, width, pts[i], velocity, angle, velLimit, angLimit)))
  }

  /** Where the walk over the bounds points stops: at the first resolving
      point, whose outcome is the resolution, or past the end with none. */
  lemma ResolutionAt(terrain: seq<Line>, width: real, pts: seq<Vec>, velocity: Vec,
                     angle: real, velLimit: real, angLimit: real, i: nat)
    requires width > 0.0 && i <= |pts|
    requires FirstContact(terrain, width, pts, i) == FirstContact(terrain, width, pts, 0)
    ensures i < |pts| && Resolves(terrain, width, pts[i]) ==>
              Resolution(terrain, width, pts, velocity, angle, velLimit, angLimit)
              == Some((pts[i], Contact(terrain, width, pts[i], velocity, angle, velLimit, angLimit)))
    ensures i == |pts| ==> Resolution(terrain, width, pts, velocity, angle, velLimit, angLimit) == None
  {
    if i < |pts| && Resolves(terrain, width, pts[i]) {
      FirstContactStep(terrain, width, pts, i);
    }
  }

  /** A landing is reported only over the pad, slowly enough and upright
      enough, at a point on or below it; and a point below the pad is a crash
      exactly when the landing test fails. */
  lemma LandedMeansOnThePad(terrain: seq<Line>, width: real, pts: seq<Vec>, velocity: Vec,
                            angle: real, velLimit: real, angLimit: real)
    requires width > 0.0
    ensures var r := Resolution(terrain, width, pts, velocity, angle, velLimit, angLimit);
      r.Some? && r.value.1 == Landed ==>
        var seg := SegmentIndex(|terrain|, width, r.value.0.x);
        0 <= seg < |terrain| && terrain[seg].IsPad()
        && terrain[seg].PointBelow(r.value.0.x, r.value.0.y)
        && velocity.x + velocity.y < velLimit && -angLimit < angle < angLimit
    ensures var r := Resolution(terrain, width, pts, velocity, angle, velLimit, angLimit);
      r.Some? && r.value.1 != Offscreen ==>
        (r.value.1 == Crashed <==> !LandingOk(Some(terrain[SegmentIndex(|terrain|, width, r.value.0.x)]),
                                               velocity, angle, velLimit, angLimit))
  {
  }

  /** A lander none of whose bounds points touches the ground or leaves the
      screen is not resolved this frame. */
  lemma NoContactNoResolution(terrain: seq<Line>, width: real, pts: seq<Vec>, velocity: Vec,
                              angle: real, velLimit: real, angLimit: real)
    requires width > 0.0
    requires forall k :: 0 <= k < |pts| ==> !Resolves(terrain, width, pts[k])
    ensures Resolution(terrain, width, pts, velocity, angle, velLimit, angLimit).None?
  {
  }
}

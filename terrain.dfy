/** What `buildScene` produces, as functions of the scene parameters and of the
    values drawn from `Math.random()`, in the order the game draws them:
    first the pad index, then one height per non-pad segment, left to right. */
module Terrain {
  import opened JsNumbers
  import opened Geometry

  const PadThickness: int := 4
  const DefaultThickness: int := 1

  /** The game fields `buildScene` reads. */
  datatype Scene = Scene(divisions: nat, width: real, height: real,
                         groundHeight: real, mountainHeight: real)

  /** A supply of `Math.random()` results. */
  predicate Draws(ds: seq<real>) {
    forall i :: 0 <= i < |ds| ==> 0.0 <= ds[i] < 1.0
  }

  /** Enough draws for one terrain: the pad draw plus one per segment. */
  predicate Supplies(s: Scene, ds: seq<real>) {
    |ds| > s.divisions && Draws(ds)
  }

  /** `(1 + r * (divisions - 1)) | 0`: the 1-based loop index of the pad. */
  function PadIndex(divisions: nat, r: real): int {
    ToInt32(1.0 + r * (divisions as real - 1.0))
  }

  /** The pad is never the last segment once there are two or more; with one
      segment it is that segment. */
  lemma PadIndexRange(d: nat, r: real)
    requires 0.0 <= r < 1.0 && d < TwoTo31
    ensures d >= 2 ==> 1 <= PadIndex(d, r) <= d - 1
    ensures d == 1 ==> PadIndex(d, r) == 1
    ensures d == 0 ==> 0 <= PadIndex(d, r) <= 1
  {
    var v := 1.0 + r * (d as real - 1.0);
    if d >= 1 {
      ScaledDraw(r, d);
    } else {
      assert v == 1.0 - r;
    }
    assert -(TwoTo31 as real) < v < TwoTo31 as real;
    assert PadIndex(d, r) == Trunc(v);
  }

  lemma ScaledDraw(r: real, d: nat)
    requires 0.0 <= r < 1.0 && d >= 1
    ensures 1.0 <= 1.0 + r * (d as real - 1.0) <= d as real
    ensures d >= 2 ==> 1.0 + r * (d as real - 1.0) < d as real
  {
    var m := d as real - 1.0;
    NonNegProduct(r, m);
    NonNegProduct(1.0 - r, m);
    assert r * m + (1.0 - r) * m == m;
    if d >= 2 {
      PosProduct(1.0 - r, m);
    }
  }

  lemma NonNegProduct(a: real, b: real)
    requires a >= 0.0 && b >= 0.0
    ensures a * b >= 0.0
  {
  }

  lemma PosProduct(a: real, b: real)
    requires a > 0.0 && b > 0.0
    ensures a * b > 0.0
  {
  }

  /** A draw in [0, 1) scales a non-negative amount into [0, amount). */
  lemma FractionOf(r: real, m: real)
    requires 0.0 <= r < 1.0 && m >= 0.0
    ensures 0.0 <= r * m <= m
    ensures m > 0.0 ==> r * m < m
  {
    NonNegProduct(r, m);
    NonNegProduct(1.0 - r, m);
    assert r * m + (1.0 - r) * m == m;
    if m > 0.0 {
      PosProduct(1.0 - r, m);
    }
  }

  /** The pad index of a scene, from its first draw. */
  function Pad(s: Scene, ds: seq<real>): (p: int)
    requires Supplies(s, ds) && s.divisions < TwoTo31
    ensures s.divisions >= 1 ==> 1 <= p <= s.divisions
    ensures s.divisions >= 2 ==> p <= s.divisions - 1
  {
    PadIndexRange(s.divisions, ds[0]);
    PadIndex(s.divisions, ds[0])
  }

  function Baseline(s: Scene): real { s.height - s.groundHeight }

  /** `(width / divisions) * i`: the x where segment i (1-based) ends. */
  function SliceX(s: Scene, i: nat): real
    requires s.divisions > 0
  {
    (s.width / s.divisions as real) * i as real
  }

  /** Which draw the non-pad segment with 1-based index i consumes. */
  function DrawFor(pad: int, i: nat): nat
    requires i >= 1
  {
    if i < pad then i else i - 1
  }

  /** The y of the end of segment i (1-based); the start of the terrain for i = 0.
      The pad keeps the previous height because the loop does not resample y. */
  function EndY(s: Scene, ds: seq<real>, pad: int, i: nat): real
    requires i <= s.divisions < |ds|
    decreases i
  {
    if i == 0 then Baseline(s)
    else if i == pad then EndY(s, ds, pad, i - 1)
    else Baseline(s) - ds[DrawFor(pad, i)] * s.mountainHeight
  }

  /** The k-th terrain line (0-based list index k, loop index k + 1). */
  function TerrainLine(s: Scene, ds: seq<real>, pad: int, k: nat): Line
    requires k < s.divisions < |ds|
  {
    Line(SliceX(s, k), EndY(s, ds, pad, k), SliceX(s, k + 1), EndY(s, ds, pad, k + 1),
         if k + 1 == pad then PadThickness else DefaultThickness)
  }

  /** One more loop step's end height. */
  lemma EndYStep(s: Scene, ds: seq<real>, pad: int, i: nat)
    requires 1 <= i <= s.divisions < |ds|
    ensures EndY(s, ds, pad, i) == if i == pad then EndY(s, ds, pad, i - 1)
                                   else Baseline(s) - ds[DrawFor(pad, i)] * s.mountainHeight
  {
  }

  /** The first n terrain lines, in the order the loop pushes them. */
  function TerrainLines(s: Scene, ds: seq<real>, pad: int, n: nat): (ls: seq<Line>)
    requires n <= s.divisions < |ds|
    ensures |ls| == n
  {
    if n == 0 then [] else TerrainLines(s, ds, pad, n - 1) + [TerrainLine(s, ds, pad, n - 1)]
  }

  /** `target` as the loop stores it: half a segment width, at the pad's height. */
  function Target(s: Scene, ds: seq<real>, pad: int): Vec
    requires s.divisions < |ds| && 1 <= pad <= s.divisions
  {
    Vec((SliceX(s, pad) - SliceX(s, pad - 1)) / 2.0, EndY(s, ds, pad, pad))
  }

  function PadCount(ls: seq<Line>): nat {
    if ls == [] then 0 else PadCount(ls[..|ls| - 1]) + (if ls[|ls| - 1].IsPad() then 1 else 0)
  }

  lemma {:induction false} TerrainLinesAt(s: Scene, ds: seq<real>, pad: int, n: nat, k: nat)
    requires n <= s.divisions < |ds| && k < n
    ensures TerrainLines(s, ds, pad, n)[k] == TerrainLine(s, ds, pad, k)
  {
    if k < n - 1 {
      TerrainLinesAt(s, ds, pad, n - 1, k);
    }
  }

  /** The segments are contiguous, start at (0, baseline) and end at the width. */
  lemma TerrainIsContiguous(s: Scene, ds: seq<real>, pad: int)
    requires 0 < s.divisions < |ds|
    ensures TerrainLine(s, ds, pad, 0).x1 == 0.0 && TerrainLine(s, ds, pad, 0).y1 == Baseline(s)
    ensures TerrainLine(s, ds, pad, s.divisions - 1).x2 == s.width
    ensures forall k :: 0 < k < s.divisions ==>
              TerrainLine(s, ds, pad, k).x1 == TerrainLine(s, ds, pad, k - 1).x2 &&
              TerrainLine(s, ds, pad, k).y1 == TerrainLine(s, ds, pad, k - 1).y2
    ensures forall k :: 0 <= k < s.divisions ==>
              TerrainLine(s, ds, pad, k).x2 == s.width / s.divisions as real * (k + 1) as real
  {
    forall k | 0 < k < s.divisions
      ensures TerrainLine(s, ds, pad, k).x1 == TerrainLine(s, ds, pad, k - 1).x2
      ensures TerrainLine(s, ds, pad, k).y1 == TerrainLine(s, ds, pad, k - 1).y2
    {
      LinesMeet(s, ds, pad, k);
    }
    forall k | 0 <= k < s.divisions
      ensures TerrainLine(s, ds, pad, k).x2 == s.width / s.divisions as real * (k + 1) as real
    {
    }
    LastSliceEnds(s, ds, pad);
  }

  lemma LinesMeet(s: Scene, ds: seq<real>, pad: int, k: nat)
    requires 0 < k < s.divisions < |ds|
    ensures TerrainLine(s, ds, pad, k).x1 == TerrainLine(s, ds, pad, k - 1).x2
    ensures TerrainLine(s, ds, pad, k).y1 == TerrainLine(s, ds, pad, k - 1).y2
  {
    assert (k - 1) + 1 == k;
  }

  lemma LastSliceEnds(s: Scene, ds: seq<real>, pad: int)
    requires 0 < s.divisions < |ds|
    ensures TerrainLine(s, ds, pad, s.divisions - 1).x2 == s.width
  {
    assert (s.divisions - 1) + 1 == s.divisions;
    WholeSlices(s.width, s.divisions as real);
  }

  lemma WholeSlices(w: real, d: real)
    requires d > 0.0
    ensures w / d * d == w
  {
  }

  /** Line k is the pad exactly when k + 1 is the pad index. */
  lemma {:induction false} PadCountIs(s: Scene, ds: seq<real>, pad: int, n: nat)
    requires n <= s.divisions < |ds|
    ensures PadCount(TerrainLines(s, ds, pad, n)) == if 1 <= pad <= n then 1 else 0
  {
    if n > 0 {
      var ls := TerrainLines(s, ds, pad, n);
      assert ls[..n - 1] == TerrainLines(s, ds, pad, n - 1);
      PadCountIs(s, ds, pad, n - 1);
    }
  }

  /** Exactly one terrain line is the pad, and for two or more segments it is
      never the last one; its two endpoints have the same height. */
  lemma ExactlyOnePad(s: Scene, ds: seq<real>)
    requires Supplies(s, ds) && 1 <= s.divisions < TwoTo31
    ensures 1 <= Pad(s, ds) <= s.divisions
    ensures PadCount(TerrainLines(s, ds, Pad(s, ds), s.divisions)) == 1
    ensures forall k :: 0 <= k < s.divisions ==>
              (TerrainLine(s, ds, Pad(s, ds), k).IsPad() <==> k == Pad(s, ds) - 1)
    ensures s.divisions >= 2 ==> Pad(s, ds) - 1 <= s.divisions - 2
    ensures TerrainLine(s, ds, Pad(s, ds), Pad(s, ds) - 1).y1
         == TerrainLine(s, ds, Pad(s, ds), Pad(s, ds) - 1).y2
  {
    PadIndexRange(s.divisions, ds[0]);
    PadCountIs(s, ds, Pad(s, ds), s.divisions);
  }

  /** The pad is level at the height where the line before it ends, because
      the loop does not resample y for it: at the baseline when it is the
      first line, and otherwise wherever the previous draw left it. */
  lemma PadHeight(s: Scene, ds: seq<real>, pad: int)
    requires s.divisions < |ds| && 1 <= pad <= s.divisions
    ensures TerrainLine(s, ds, pad, pad - 1).y1 == TerrainLine(s, ds, pad, pad - 1).y2
    ensures pad == 1 ==> TerrainLine(s, ds, pad, 0).y2 == Baseline(s)
    ensures pad >= 2 ==> TerrainLine(s, ds, pad, pad - 1).y2 == TerrainLine(s, ds, pad, pad - 2).y2
  {
    assert (pad - 2) + 1 == pad - 1;
  }

  /** The stored target is half a segment width from the left edge, at the
      pad's height. It is the pad's midpoint only when the pad is the first
      segment, and lies left of the pad otherwise. */
  lemma TargetIsHalfASegment(s: Scene, ds: seq<real>, pad: int)
    requires s.divisions < |ds| && 1 <= pad <= s.divisions && s.width > 0.0
    ensures Target(s, ds, pad).x == s.width / (2.0 * s.divisions as real)
    ensures Target(s, ds, pad).y == TerrainLine(s, ds, pad, pad - 1).y2
    ensures pad == 1 ==> Target(s, ds, pad).x
                         == (TerrainLine(s, ds, pad, 0).x1 + TerrainLine(s, ds, pad, 0).x2) / 2.0
    ensures pad >= 2 ==> Target(s, ds, pad).x < TerrainLine(s, ds, pad, pad - 1).x1
  {
    var w := s.width / s.divisions as real;
    assert SliceX(s, pad) - SliceX(s, pad - 1) == w;
    assert w > 0.0;
    if pad >= 2 {
      assert SliceX(s, pad - 1) >= w;
    }
  }

  /** Every endpoint lies between the baseline and `mountainHeight` above it. */
  lemma {:induction false} HeightsWithinMountainRange(s: Scene, ds: seq<real>, pad: int, i: nat)
    requires Supplies(s, ds) && i <= s.divisions && s.mountainHeight >= 0.0
    ensures Baseline(s) - s.mountainHeight <= EndY(s, ds, pad, i) <= Baseline(s)
  {
    if i == 0 {
      assert EndY(s, ds, pad, i) == Baseline(s);
    } else if i == pad {
      assert EndY(s, ds, pad, i) == EndY(s, ds, pad, i - 1);
      HeightsWithinMountainRange(s, ds, pad, i - 1);
    } else {
      EndYStep(s, ds, pad, i);
      DrawnHeight(s, ds[DrawFor(pad, i)]);
    }
  }

  /** A sampled end height lies within the mountain range. */
  lemma DrawnHeight(s: Scene, r: real)
    requires 0.0 <= r < 1.0 && s.mountainHeight >= 0.0
    ensures Baseline(s) - s.mountainHeight <= Baseline(s) - r * s.mountainHeight <= Baseline(s)
  {
    FractionOf(r, s.mountainHeight);
  }
}

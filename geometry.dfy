/** The plain values of the game world: vectors, terrain lines and points.
    Canvas coordinates grow rightwards in x and DOWNWARDS in y. */
module Geometry {

  /** `vectorFactory(x, y)`: a 2D point or displacement. */
  datatype Vec = Vec(x: real, y: real)

  /** A terrain segment from (x1, y1) to (x2, y2). Its colour is drawing only. */
  datatype Line = Line(x1: real, y1: real, x2: real, y2: real, thickness: int) {

    /** Only the pad is drawn with a thickness other than the default 1. */
    predicate IsPad() { thickness != 1 }

    /** Twice the signed area of the triangle (start, end, (x, y)). */
    function Cross(x: real, y: real): real {
      (x2 - x1) * (y - y1) - (y2 - y1) * (x - x1)
    }

    /** `pointBelow`: (x, y) lies on the line or on its ground side. */
    predicate PointBelow(x: real, y: real) { Cross(x, y) >= 0.0 }

    /** The height of the line above abscissa x (for a segment with x1 < x2). */
    function HeightAt(x: real): real
      requires x1 < x2
    {
      y1 + (y2 - y1) * (x - x1) / (x2 - x1)
    }

    /** The same segment traversed from its end to its start. */
    function Reversed(): Line { Line(x2, y2, x1, y1, thickness) }
  }

  /** A one-pixel marker (the centre point added after the terrain). */
  datatype Point = Point(x: real, y: real, thickness: int)

  /** Every point of the segment's line, both endpoints included, counts as below. */
  lemma PointsOnLineAreBelow(l: Line, t: real)
    ensures l.PointBelow(l.x1, l.y1) && l.PointBelow(l.x2, l.y2)
    ensures l.PointBelow(l.x1 + t * (l.x2 - l.x1), l.y1 + t * (l.y2 - l.y1))
  {
    var dx, dy := l.x2 - l.x1, l.y2 - l.y1;
    assert l.Cross(l.x1 + t * dx, l.y1 + t * dy) == dx * (t * dy) - dy * (t * dx);
    assert dx * (t * dy) == dy * (t * dx);
  }

  /** Reversing the segment negates the cross product, so a point strictly on
      the other side is rejected and becomes "below" the reversed segment. */
  lemma OrientationDecidesSide(l: Line, x: real, y: real)
    ensures l.Reversed().Cross(x, y) == -l.Cross(x, y)
    ensures l.Cross(x, y) < 0.0 ==> !l.PointBelow(x, y) && l.Reversed().PointBelow(x, y)
  {
    var dx, dy := l.x2 - l.x1, l.y2 - l.y1;
    var r := l.Reversed();
    assert r.Cross(x, y) == (-dx) * (y - l.y2) - (-dy) * (x - l.x2);
    assert y - l.y2 == (y - l.y1) - dy;
    assert x - l.x2 == (x - l.x1) - dx;
    assert (-dx) * ((y - l.y1) - dy) == -(dx * (y - l.y1)) + dx * dy;
    assert (-dy) * ((x - l.x1) - dx) == -(dy * (x - l.x1)) + dy * dx;
  }

  /** For a left-to-right segment, "below" means on or under the line on the
      screen: y at least the line's height at x (y grows downwards). */
  lemma BelowMeansUnderTheLine(l: Line, x: real, y: real)
    requires l.x1 < l.x2
    ensures l.PointBelow(x, y) <==> y >= l.HeightAt(x)
  {
    var dx, dy := l.x2 - l.x1, l.y2 - l.y1;
    var h := l.HeightAt(x);
    assert dx * (h - l.y1) == dy * (x - l.x1) by {
      assert h - l.y1 == dy * (x - l.x1) / dx;
    }
    assert l.Cross(x, y) == dx * (y - h) by {
      assert dx * (y - l.y1) == dx * (y - h) + dx * (h - l.y1);
    }
    if y >= h {
      assert dx * (y - h) >= 0.0;
    } else {
      assert dx * (h - y) > 0.0;
    }
  }
}

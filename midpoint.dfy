/** `get_linestring_midpoint_2d`: the 2D midpoint of a line string's two end
    points. Coordinates are reals (the source's doubles, without rounding). */
module Midpoint {
  import opened Wrappers
  import opened LaneletMap

  /** A `lanelet::Point2d`: id and planar coordinates. */
  datatype Point2d = Point2d(id: int, x: real, y: real)

  /** The midpoint, or `TooFewPoints(id)` (the `runtime_error` naming the
      line string) when there are fewer than two points. */
  function GetLinestringMidpoint2d(lineString: LineString3d): (r: Result<Point2d, Fault>)
    ensures r.Failure? <==> |lineString.points| < 2
    ensures r.Failure? ==> r.error == TooFewPoints(lineString.id)
    ensures r.Success? ==> r.value.id == 0
    ensures r.Success? ==>
      var first, last := lineString.points[0], lineString.points[|lineString.points| - 1];
      r.value.x - first.x == last.x - r.value.x && r.value.y - first.y == last.y - r.value.y
  {
    if |lineString.points| < 2 then
      Failure(TooFewPoints(lineString.id))
    else
      var first := lineString.points[0];
      var last := lineString.points[|lineString.points| - 1];
      Success(Point2d(0, (first.x + last.x) / 2.0, (first.y + last.y) / 2.0))
  }

  function Reverse<T>(s: seq<T>): (r: seq<T>)
    ensures |r| == |s|
    ensures forall i :: 0 <= i < |s| ==> r[i] == s[|s| - 1 - i]
  {
    if s == [] then [] else Reverse(s[1..]) + [s[0]]
  }

  /** Only the end points' x and y matter: interior points, z coordinates and
      the line string's attributes do not affect the result. */
  lemma MidpointDependsOnlyOnEnds(a: LineString3d, b: LineString3d)
    requires a.id == b.id && |a.points| >= 2 && |b.points| >= 2
    requires a.points[0].x == b.points[0].x && a.points[0].y == b.points[0].y
    requires a.points[|a.points| - 1].x == b.points[|b.points| - 1].x
    requires a.points[|a.points| - 1].y == b.points[|b.points| - 1].y
    ensures GetLinestringMidpoint2d(a) == GetLinestringMidpoint2d(b)
  {
  }

  /** Reversing the point order gives the same midpoint. */
  lemma MidpointOfReversed(ls: LineString3d)
    ensures GetLinestringMidpoint2d(ls.(points := Reverse(ls.points))) == GetLinestringMidpoint2d(ls)
  {
    var n := |ls.points|;
    if n >= 2 {
      var rev := Reverse(ls.points);
      assert rev[0] == ls.points[n - 1];
      assert rev[n - 1] == ls.points[0];
    }
  }

  /** When the end points coincide in x and y, the midpoint is that point. */
  lemma MidpointOfClosedLineString(ls: LineString3d)
    requires |ls.points| >= 2
    requires ls.points[0].x == ls.points[|ls.points| - 1].x
    requires ls.points[0].y == ls.points[|ls.points| - 1].y
    ensures GetLinestringMidpoint2d(ls) == Success(Point2d(0, ls.points[0].x, ls.points[0].y))
  {
  }
}

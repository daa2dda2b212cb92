/** List helpers of the static centerline generator: the route connectivity
    check, the two `convert_to_geometry_points_vector` overloads and the
    first-appearance lane-id order built in `validate_centerline`. */
module CenterlinePoints {
  import opened Wrappers
  import LaneletMap
  import opened CenterlineTypes

  // ---- `check_lanelet_connection` ----

  /** The ids of `route[i]`, for i from `from` to the last but one, whose
      successor list (`next`, the route handler's `getNextLanelets` by id)
      lacks `route[i + 1]`. */
  function UnconnectedFrom(route: seq<int>, next: int -> seq<int>, from: nat): seq<int>
    decreases |route| - from
  {
    if from + 1 >= |route| then []
    else (if route[from + 1] !in next(route[from]) then [route[from]] else []) + UnconnectedFrom(route, next, from + 1)
  }

  function Unconnected(route: seq<int>, next: int -> seq<int>): seq<int> {
    UnconnectedFrom(route, next, 0)
  }

  /** An empty route makes `size() - 1` wrap around, and the first
      `route_lanelets.at(0)` throws. */
  method CheckLaneletConnection(route: seq<int>, next: int -> seq<int>) returns (r: Result<seq<int>, Fault>)
    ensures |route| == 0 ==> r == Failure(OutOfRange)
    ensures |route| > 0 ==> r == Success(Unconnected(route, next))
  {
    if |route| == 0 {
      return Failure(OutOfRange);
    }
    var unconnectedLaneIds := [];
    var i := 0;
    while i < |route| - 1
      invariant 0 <= i <= |route| - 1
      invariant unconnectedLaneIds + UnconnectedFrom(route, next, i) == Unconnected(route, next)
    {
      var nextLanelets := next(route[i]);
      var isConnected := route[i + 1] in nextLanelets;
      if !isConnected {
        unconnectedLaneIds := unconnectedLaneIds + [route[i]];
      }
      i := i + 1;
    }
    assert unconnectedLaneIds + [] == unconnectedLaneIds;
    return Success(unconnectedLaneIds);
  }

  lemma {:induction false} UnconnectedFromMembers(route: seq<int>, next: int -> seq<int>, from: nat, id: int)
    ensures id in UnconnectedFrom(route, next, from) <==>
      exists i :: from <= i < |route| - 1 && route[i] == id && route[i + 1] !in next(route[i])
    decreases |route| - from
  {
    if from + 1 < |route| {
      UnconnectedFromMembers(route, next, from + 1, id);
    }
  }

  /** An id is reported exactly when it is the id of a route lanelet not
      followed by one of its successors. */
  lemma UnconnectedMembers(route: seq<int>, next: int -> seq<int>, id: int)
    ensures id in Unconnected(route, next) <==>
      exists i :: 0 <= i < |route| - 1 && route[i] == id && route[i + 1] !in next(route[i])
  {
    UnconnectedFromMembers(route, next, 0, id);
  }

  lemma {:induction false} UnconnectedFromEmpty(route: seq<int>, next: int -> seq<int>, from: nat)
    ensures UnconnectedFrom(route, next, from) == [] <==>
      forall i :: from <= i < |route| - 1 ==> route[i + 1] in next(route[i])
    decreases |route| - from
  {
    if from + 1 < |route| {
      UnconnectedFromEmpty(route, next, from + 1);
    }
  }

  /** Nothing is reported iff every route lanelet is followed by one of its
      successors. */
  lemma UnconnectedEmptyIffConnected(route: seq<int>, next: int -> seq<int>)
    ensures Unconnected(route, next) == [] <==> forall i :: 0 <= i < |route| - 1 ==> route[i + 1] in next(route[i])
  {
    UnconnectedFromEmpty(route, next, 0);
  }

  /** At most one id per consecutive pair. */
  lemma {:induction false} UnconnectedFromLength(route: seq<int>, next: int -> seq<int>, from: nat)
    requires from < |route|
    ensures |UnconnectedFrom(route, next, from)| <= |route| - 1 - from
    decreases |route| - from
  {
    if from + 1 < |route| {
      UnconnectedFromLength(route, next, from + 1);
    }
  }

  // ---- `convert_to_geometry_points_vector`, map-order overload ----

  /** A `geometry_msgs` point from a 2D point: z stays 0. */
  function Lift(p: Point2): Position {
    Position(p.x, p.y, 0.0)
  }

  function LiftAll(points: seq<Point2>): (r: seq<Position>)
    ensures |r| == |points| && forall k :: 0 <= k < |points| ==> r[k] == Lift(points[k])
  {
    seq(|points|, k requires 0 <= k < |points| => Lift(points[k]))
  }

  /** One group per id of `order`, holding that id's points; `at` throws
      when an id has no entry. */
  function GroupsInMapOrder(pointsMap: map<int, seq<Point2>>, order: seq<int>): Result<seq<seq<Position>>, Fault> {
    if forall k :: 0 <= k < |order| ==> order[k] in pointsMap then
      Success(seq(|order|, k requires 0 <= k < |order| && order[k] in pointsMap => LiftAll(pointsMap[order[k]])))
    else Failure(OutOfRange)
  }

  method ConvertByMapOrder(pointsMap: map<int, seq<Point2>>, order: seq<int>) returns (r: Result<seq<seq<Position>>, Fault>)
    ensures r == GroupsInMapOrder(pointsMap, order)
  {
    var pointsVec: seq<seq<Position>> := [];
    var i := 0;
    while i < |order|
      invariant 0 <= i <= |order|
      invariant |pointsVec| == i
      invariant forall k :: 0 <= k < i ==> order[k] in pointsMap && pointsVec[k] == LiftAll(pointsMap[order[k]])
    {
      var id := order[i];
      if id !in pointsMap {
        assert !(forall k :: 0 <= k < |order| ==> order[k] in pointsMap);
        return Failure(OutOfRange);
      }
      var lanePoints := pointsMap[id];
      var group: seq<Position> := [];
      var j := 0;
      while j < |lanePoints|
        invariant 0 <= j <= |lanePoints|
        invariant group == LiftAll(lanePoints[..j])
      {
        group := group + [Lift(lanePoints[j])];
        j := j + 1;
      }
      assert lanePoints[..j] == lanePoints;
      pointsVec := pointsVec + [group];
      i := i + 1;
    }
    assert pointsVec == seq(|order|, k requires 0 <= k < |order| && order[k] in pointsMap => LiftAll(pointsMap[order[k]]));
    return Success(pointsVec);
  }

  /** The groups of a concatenated order are the groups of its parts. */
  lemma MapOrderConcat(pointsMap: map<int, seq<Point2>>, a: seq<int>, b: seq<int>)
    requires GroupsInMapOrder(pointsMap, a).Success? && GroupsInMapOrder(pointsMap, b).Success?
    ensures GroupsInMapOrder(pointsMap, a + b) == Success(GroupsInMapOrder(pointsMap, a).value + GroupsInMapOrder(pointsMap, b).value)
  {
    forall k | 0 <= k < |a + b| ensures (a + b)[k] in pointsMap {
      if k >= |a| {
        assert (a + b)[k] == b[k - |a|];
      }
    }
    var whole := GroupsInMapOrder(pointsMap, a + b).value;
    var groupsA, groupsB := GroupsInMapOrder(pointsMap, a).value, GroupsInMapOrder(pointsMap, b).value;
    var parts := groupsA + groupsB;
    assert |whole| == |parts|;
    forall k | 0 <= k < |whole| ensures whole[k] == parts[k] {
      if k >= |a| {
        assert (a + b)[k] == b[k - |a|];
        assert parts[k] == groupsB[k - |a|];
      } else {
        assert (a + b)[k] == a[k];
        assert parts[k] == groupsA[k];
      }
    }
    assert whole == parts;
  }

  // ---- `convert_to_geometry_points_vector`, run-splitting overload ----

  /** The loop reads `ids[i]` and `ids[i + 1]` for every i before the last
      point; a single point needs no id. */
  predicate IdsCover(pointCount: nat, idCount: nat) {
    pointCount < 2 || pointCount <= idCount
  }

  /** The loop from index `i` with `cur` holding the current group. */
  function RunsFrom<T>(points: seq<T>, ids: seq<int>, i: nat, cur: seq<T>): seq<seq<T>>
    requires IdsCover(|points|, |ids|)
    decreases |points| - i
  {
    if i >= |points| then []
    else
      var grown := cur + [points[i]];
      if i == |points| - 1 then [grown]
      else if ids[i] != ids[i + 1] then [grown] + RunsFrom(points, ids, i + 1, [])
      else RunsFrom(points, ids, i + 1, grown)
  }

  /** The points split into runs of equal consecutive lane id. */
  function Runs<T>(points: seq<T>, ids: seq<int>): seq<seq<T>>
    requires IdsCover(|points|, |ids|)
  {
    RunsFrom(points, ids, 0, [])
  }

  method SplitIntoRuns(centerline: seq<Position>, laneIds: seq<int>) returns (r: Result<seq<seq<Position>>, Fault>)
    ensures !IdsCover(|centerline|, |laneIds|) ==> r == Failure(OutOfRange)
    ensures IdsCover(|centerline|, |laneIds|) ==> r == Success(Runs(centerline, laneIds))
  {
    var pointsVec: seq<seq<Position>> := [];
    var points: seq<Position> := [];
    var i := 0;
    while i < |centerline|
      invariant 0 <= i <= |centerline|
      invariant i > 0 ==> i < |laneIds|
      invariant IdsCover(|centerline|, |laneIds|) ==>
        pointsVec + RunsFrom(centerline, laneIds, i, points) == Runs(centerline, laneIds)
    {
      points := points + [centerline[i]];
      if i == |centerline| - 1 {
        pointsVec := pointsVec + [points];
        return Success(pointsVec);
      }
      if i + 1 >= |laneIds| {
        return Failure(OutOfRange);
      }
      if laneIds[i] != laneIds[i + 1] {
        if IdsCover(|centerline|, |laneIds|) {
          AppendAssociative(pointsVec, [points], RunsFrom(centerline, laneIds, i + 1, []));
        }
        pointsVec := pointsVec + [points];
        points := [];
      }
      i := i + 1;
    }
    assert pointsVec + [] == pointsVec;
    return Success(pointsVec);
  }

  function Flatten<T>(groups: seq<seq<T>>): seq<T> {
    if groups == [] then [] else groups[0] + Flatten(groups[1..])
  }

  lemma {:induction false} RunsFromFlatten<T>(points: seq<T>, ids: seq<int>, i: nat, cur: seq<T>)
    requires IdsCover(|points|, |ids|) && i < |points|
    ensures Flatten(RunsFrom(points, ids, i, cur)) == cur + points[i..]
    decreases |points| - i
  {
    var grown := cur + [points[i]];
    if i == |points| - 1 {
      assert points[i..] == [points[i]];
      assert Flatten([grown]) == grown + Flatten([grown][1..]);
      assert [grown][1..] == [];
    } else {
      assert points[i..] == [points[i]] + points[i + 1..];
      RunsFromFlatten(points, ids, i + 1, if ids[i] != ids[i + 1] then [] else grown);
      if ids[i] != ids[i + 1] {
        var rest := RunsFrom(points, ids, i + 1, []);
        assert ([grown] + rest)[1..] == rest;
      }
    }
  }

  /** Concatenating the groups gives back all the points, in order. */
  lemma RunsFlatten<T>(points: seq<T>, ids: seq<int>)
    requires IdsCover(|points|, |ids|)
    ensures Flatten(Runs(points, ids)) == points
  {
    if |points| > 0 {
      RunsFromFlatten(points, ids, 0, []);
    }
  }

  lemma {:induction false} RunsFromNonEmpty<T>(points: seq<T>, ids: seq<int>, i: nat, cur: seq<T>)
    requires IdsCover(|points|, |ids|)
    ensures forall k :: 0 <= k < |RunsFrom(points, ids, i, cur)| ==> |RunsFrom(points, ids, i, cur)[k]| > 0
    decreases |points| - i
  {
    if i < |points| - 1 {
      var grown := cur + [points[i]];
      RunsFromNonEmpty(points, ids, i + 1, if ids[i] != ids[i + 1] then [] else grown);
    }
  }

  /** Every group holds at least one point. */
  lemma RunsNonEmpty<T>(points: seq<T>, ids: seq<int>)
    requires IdsCover(|points|, |ids|)
    ensures forall k :: 0 <= k < |Runs(points, ids)| ==> |Runs(points, ids)[k]| > 0
  {
    RunsFromNonEmpty(points, ids, 0, []);
  }

  lemma {:induction false} RunsFromShape<T, U>(p: seq<T>, q: seq<U>, ids: seq<int>, i: nat, curP: seq<T>, curQ: seq<U>)
    requires |p| == |q| && IdsCover(|p|, |ids|) && |curP| == |curQ|
    ensures |RunsFrom(p, ids, i, curP)| == |RunsFrom(q, ids, i, curQ)|
    ensures forall k :: 0 <= k < |RunsFrom(p, ids, i, curP)| ==> |RunsFrom(p, ids, i, curP)[k]| == |RunsFrom(q, ids, i, curQ)[k]|
    decreases |p| - i
  {
    if i < |p| - 1 {
      var grownP, grownQ := curP + [p[i]], curQ + [q[i]];
      if ids[i] != ids[i + 1] {
        RunsFromShape(p, q, ids, i + 1, [], []);
      } else {
        RunsFromShape(p, q, ids, i + 1, grownP, grownQ);
      }
    }
  }

  /** Where the groups break depends on the lane ids only: any two point
      lists of one length split alike. */
  lemma RunsShapeDependsOnIds<T, U>(p: seq<T>, q: seq<U>, ids: seq<int>)
    requires |p| == |q| && IdsCover(|p|, |ids|)
    ensures |Runs(p, ids)| == |Runs(q, ids)|
    ensures forall k :: 0 <= k < |Runs(p, ids)| ==> |Runs(p, ids)[k]| == |Runs(q, ids)[k]|
  {
    RunsFromShape(p, q, ids, 0, [], []);
  }

  lemma {:induction false} IdRunsFromConstant(points: seq<int>, ids: seq<int>, i: nat, cur: seq<int>)
    requires |points| <= |ids| && forall j :: 0 <= j < |points| ==> points[j] == ids[j]
    requires i < |points| && forall a :: 0 <= a < |cur| ==> cur[a] == ids[i]
    ensures var r := RunsFrom(points, ids, i, cur);
      (forall k :: 0 <= k < |r| ==> |r[k]| > 0)
      && (forall k, a :: 0 <= k < |r| && 0 <= a < |r[k]| ==> r[k][a] == r[k][0])
      && (forall k :: 0 <= k < |r| - 1 ==> r[k][|r[k]| - 1] != r[k + 1][0])
      && |r| > 0 && |r[0]| > 0 && r[0][0] == (if cur == [] then ids[i] else cur[0])
    decreases |points| - i
  {
    var grown := cur + [points[i]];
    if i < |points| - 1 {
      if ids[i] != ids[i + 1] {
        IdRunsFromConstant(points, ids, i + 1, []);
        var rest := RunsFrom(points, ids, i + 1, []);
        var r := [grown] + rest;
        forall k | 0 <= k < |r| - 1 ensures r[k][|r[k]| - 1] != r[k + 1][0] {
          if k > 0 {
            assert r[k] == rest[k - 1] && r[k + 1] == rest[k];
          }
        }
        forall k, a | 0 <= k < |r| && 0 <= a < |r[k]| ensures r[k][a] == r[k][0] {
          if k > 0 {
            assert r[k] == rest[k - 1];
          }
        }
      } else {
        IdRunsFromConstant(points, ids, i + 1, grown);
      }
    }
  }

  /** Splitting the lane ids themselves shows where the runs break: each
      group is one lane id, and neighbouring groups have different ids. */
  lemma IdRunsAreMaximal(ids: seq<int>, n: nat)
    requires n <= |ids|
    ensures var r := Runs(ids[..n], ids);
      (forall k :: 0 <= k < |r| ==> |r[k]| > 0)
      && (forall k, a :: 0 <= k < |r| && 0 <= a < |r[k]| ==> r[k][a] == r[k][0])
      && (forall k :: 0 <= k < |r| - 1 ==> r[k][|r[k]| - 1] != r[k + 1][0])
  {
    if n > 0 {
      IdRunsFromConstant(ids[..n], ids, 0, []);
    }
  }

  // ---- the first-appearance order of lane ids in `validate_centerline` ----

  /** Each distinct id once, where it first appears. */
  function FirstAppearance(ids: seq<int>): seq<int> {
    if ids == [] then []
    else
      var prefix := FirstAppearance(ids[..|ids| - 1]);
      if ids[|ids| - 1] in prefix then prefix else prefix + [ids[|ids| - 1]]
  }

  /** A bound's points, flattened to 2D. */
  function Project(points: seq<LaneletMap.Point3d>): (r: seq<Point2>)
    ensures |r| == |points| && forall k :: 0 <= k < |points| ==> r[k] == Point2(points[k].x, points[k].y)
  {
    seq(|points|, k requires 0 <= k < |points| => Point2(points[k].x, points[k].y))
  }

  /** The dedup loop: for each lane id, in centerline order, the first time
      it is seen its right and left bounds are recorded (`laneletOf` stands
      for `getLaneletsFromId`) and the id joins the order. */
  method BuildBoundMaps(laneIds: seq<int>, laneletOf: int -> LaneletMap.Lanelet)
    returns (rightBounds: map<int, seq<Point2>>, leftBounds: map<int, seq<Point2>>, order: seq<int>)
    ensures order == FirstAppearance(laneIds)
    ensures forall id :: id in rightBounds <==> id in order
    ensures forall id :: id in leftBounds <==> id in order
    ensures forall id :: id in rightBounds ==> rightBounds[id] == Project(laneletOf(id).rightBound.points)
    ensures forall id :: id in leftBounds ==> leftBounds[id] == Project(laneletOf(id).leftBound.points)
  {
    rightBounds, leftBounds, order := map[], map[], [];
    var i := 0;
    while i < |laneIds|
      invariant 0 <= i <= |laneIds|
      invariant order == FirstAppearance(laneIds[..i])
      invariant forall id :: id in rightBounds <==> id in order
      invariant forall id :: id in leftBounds <==> id in order
      invariant forall id :: id in rightBounds ==> rightBounds[id] == Project(laneletOf(id).rightBound.points)
      invariant forall id :: id in leftBounds ==> leftBounds[id] == Project(laneletOf(id).leftBound.points)
    {
      var id := laneIds[i];
      assert laneIds[..i + 1][..i] == laneIds[..i];
      if id in rightBounds {
        i := i + 1;
        continue;
      }
      order := order + [id];
      var lanelet := laneletOf(id);
      var right := AppendBound(lanelet.rightBound.points);
      var left := AppendBound(lanelet.leftBound.points);
      rightBounds := rightBounds[id := right];
      leftBounds := leftBounds[id := left];
      i := i + 1;
    }
    assert laneIds[..i] == laneIds;
  }

  /** The loop appending a bound's points to its `LineString2d`. */
  method AppendBound(points: seq<LaneletMap.Point3d>) returns (line: seq<Point2>)
    ensures line == Project(points)
  {
    line := [];
    var j := 0;
    while j < |points|
      invariant 0 <= j <= |points|
      invariant line == Project(points[..j])
    {
      line := line + [Point2(points[j].x, points[j].y)];
      j := j + 1;
    }
    assert points[..j] == points;
  }

  lemma {:induction false} FirstAppearanceMembers(ids: seq<int>, id: int)
    ensures id in FirstAppearance(ids) <==> id in ids
  {
    if ids != [] {
      var prefix := ids[..|ids| - 1];
      FirstAppearanceMembers(prefix, id);
      assert ids == prefix + [ids[|ids| - 1]];
    }
  }

  /** No id is listed twice. */
  lemma {:induction false} FirstAppearanceDistinct(ids: seq<int>)
    ensures forall i, j :: 0 <= i < j < |FirstAppearance(ids)| ==> FirstAppearance(ids)[i] != FirstAppearance(ids)[j]
  {
    if ids != [] {
      var prefix := ids[..|ids| - 1];
      FirstAppearanceDistinct(prefix);
      var p := FirstAppearance(prefix);
      var last := ids[|ids| - 1];
      if last !in p {
        var r := p + [last];
        assert FirstAppearance(ids) == r;
        forall i, j | 0 <= i < j < |r| ensures r[i] != r[j] {
          if j == |p| {
            assert r[i] == p[i];
          }
        }
      }
    }
  }

  /** Index of the first occurrence of `x`. */
  function FirstIndex(s: seq<int>, x: int): (i: nat)
    requires x in s
    ensures i < |s| && s[i] == x && forall j :: 0 <= j < i ==> s[j] != x
  {
    if s[0] == x then 0 else 1 + FirstIndex(s[1..], x)
  }

  lemma FirstIndexOfPrefix(s: seq<int>, t: seq<int>, x: int)
    requires x in s
    ensures x in s + t && FirstIndex(s + t, x) == FirstIndex(s, x)
  {
    var i := FirstIndex(s, x);
    var k := FirstIndex(s + t, x);
    assert (s + t)[i] == x;
  }

  /** The order lists ids by their first appearance in the lane ids. */
  lemma {:induction false} FirstAppearanceOrderAt(ids: seq<int>, i: nat, j: nat)
    requires i < j < |FirstAppearance(ids)|
    ensures FirstAppearance(ids)[i] in ids && FirstAppearance(ids)[j] in ids
    ensures FirstIndex(ids, FirstAppearance(ids)[i]) < FirstIndex(ids, FirstAppearance(ids)[j])
  {
    var prefix := ids[..|ids| - 1];
    var last := ids[|ids| - 1];
    assert ids == prefix + [last];
    var p := FirstAppearance(prefix);
    var r := FirstAppearance(ids);
    FirstAppearanceMembers(prefix, last);
    assert r == if last in p then p else p + [last];
    assert r[i] == p[i];
    FirstAppearanceMembers(prefix, r[i]);
    FirstIndexOfPrefix(prefix, [last], r[i]);
    if j < |p| {
      assert r[j] == p[j];
      FirstAppearanceMembers(prefix, r[j]);
      FirstIndexOfPrefix(prefix, [last], r[j]);
      FirstAppearanceOrderAt(prefix, i, j);
    } else {
      assert r[j] == last && last !in prefix;
      assert FirstIndex(ids, last) == |prefix|;
    }
  }
}

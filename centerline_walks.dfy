/** The two walks of the static centerline generator that pair centerline
    points with route lanelets: `connect_centerline_to_lanelet`, which
    records one lane id per centerline point in the centerline handler, and
    the output loop of `on_plan_path`, which cuts the planned trajectory into
    per-lanelet groups. Lanelet containment is the parameter
    `inside(laneletIndex, pointIndex)`: does route lanelet `laneletIndex`
    contain point `pointIndex` of the centerline. */
module CenterlineWalks {
  import opened Wrappers
  import opened CenterlineTypes

  /** The centerline handler's state this model needs: the selected
      centerline, the ids of its route's lanelets, and the lane id recorded
      for each centerline point. */
  class CenterlineHandler {
    var selectedCenterline: seq<Position>
    var routeLaneIds: seq<int>
    var centerlineLaneIds: seq<int>

    constructor (centerline: seq<Position>, routeIds: seq<int>)
      ensures selectedCenterline == centerline && routeLaneIds == routeIds && centerlineLaneIds == []
    {
      selectedCenterline := centerline;
      routeLaneIds := routeIds;
      centerlineLaneIds := [];
    }

    method ClearCenterlineLaneIds()
      modifies this
      ensures centerlineLaneIds == []
      ensures selectedCenterline == old(selectedCenterline) && routeLaneIds == old(routeLaneIds)
    {
      centerlineLaneIds := [];
    }

    method AddCenterlineLaneId(id: int)
      modifies this
      ensures centerlineLaneIds == old(centerlineLaneIds) + [id]
      ensures selectedCenterline == old(selectedCenterline) && routeLaneIds == old(routeLaneIds)
    {
      centerlineLaneIds := centerlineLaneIds + [id];
    }
  }

  // ---- `connect_centerline_to_lanelet` ----

  /** The first of the `laneletCount` route lanelets, from `from` on, that
      contains the centerline's front point. */
  function FrontLaneletFrom(laneletCount: nat, inside: (nat, nat) -> bool, from: nat): (r: Option<nat>)
    ensures r.Some? ==> from <= r.value < laneletCount && inside(r.value, 0)
    ensures r.Some? ==> forall j :: from <= j < r.value ==> !inside(j, 0)
    ensures r.None? <==> forall j :: from <= j < laneletCount ==> !inside(j, 0)
    decreases laneletCount - from
  {
    if from >= laneletCount then None
    else if inside(from, 0) then Some(from)
    else FrontLaneletFrom(laneletCount, inside, from + 1)
  }

  function FrontLanelet(laneletCount: nat, inside: (nat, nat) -> bool): Option<nat> {
    FrontLaneletFrom(laneletCount, inside, 0)
  }

  /** The walk from lanelet `li` and centerline point `c`, with `wasOnce`
      telling whether some point has been inside its lanelet so far: the
      lanelet index recorded for each point from `c` on. A point is
      recorded on the current lanelet when inside it, and also, when the
      front lies before the route, as long as no point has been inside. */
  function WalkFrom(laneletCount: nat, pointCount: nat, inside: (nat, nat) -> bool, hasFront: bool,
                    li: nat, c: nat, wasOnce: bool): (r: seq<nat>)
    requires c < pointCount
    ensures |r| <= pointCount - c
    ensures forall k :: 0 <= k < |r| ==> li <= r[k] < laneletCount
    decreases laneletCount - li, pointCount - c
  {
    if li >= laneletCount then []
    else
      var isInside := inside(li, c);
      var was := wasOnce || isInside;
      var isTarget := if !hasFront && !was then true else isInside;
      if !isTarget then WalkFrom(laneletCount, pointCount, inside, hasFront, li + 1, c, was)
      else if c + 1 == pointCount then [li]
      else [li] + WalkFrom(laneletCount, pointCount, inside, hasFront, li, c + 1, was)
  }

  /** The lanelet index recorded for each centerline point: the walk starts
      at the front's lanelet, or at the first lanelet when no route lanelet
      contains the front. */
  function AssignedLanelets(laneletCount: nat, pointCount: nat, inside: (nat, nat) -> bool): (r: seq<nat>)
    ensures |r| <= pointCount
    ensures forall k :: 0 <= k < |r| ==> r[k] < laneletCount
  {
    if pointCount == 0 then []
    else
      var front := FrontLanelet(laneletCount, inside);
      WalkFrom(laneletCount, pointCount, inside, front.Some?, if front.Some? then front.value else 0, 0, false)
  }

  function LaneIdsOf(routeIds: seq<int>, lanelets: seq<nat>): (ids: seq<int>)
    requires forall k :: 0 <= k < |lanelets| ==> lanelets[k] < |routeIds|
    ensures |ids| == |lanelets| && forall k :: 0 <= k < |lanelets| ==> ids[k] == routeIds[lanelets[k]]
  {
    seq(|lanelets|, k requires 0 <= k < |lanelets| => routeIds[lanelets[k]])
  }

  method ConnectCenterlineToLanelet(handler: CenterlineHandler, inside: (nat, nat) -> bool)
    modifies handler
    ensures handler.selectedCenterline == old(handler.selectedCenterline)
    ensures handler.routeLaneIds == old(handler.routeLaneIds)
    ensures handler.centerlineLaneIds ==
      LaneIdsOf(handler.routeLaneIds, AssignedLanelets(|handler.routeLaneIds|, |handler.selectedCenterline|, inside))
  {
    handler.ClearCenterlineLaneIds();
    var centerline := handler.selectedCenterline;
    if |centerline| == 0 {
      return;
    }
    var routeLanelets := handler.routeLaneIds;
    ghost var laneletCount, pointCount := |routeLanelets|, |centerline|;

    // 1. the lanelet of the centerline's front
    var front: Option<nat> := None;
    var i := 0;
    while i < |routeLanelets|
      invariant 0 <= i <= |routeLanelets|
      invariant forall j :: 0 <= j < i ==> !inside(j, 0)
    {
      if inside(i, 0) {
        front := Some(i);
        break;
      }
      i := i + 1;
    }
    assert front == FrontLanelet(laneletCount, inside);
    ghost var expected := AssignedLanelets(laneletCount, pointCount, inside);

    // 2. one lane id per centerline point
    var centerlineIdx := 0;
    var isEndLanelet := false;
    var wasOnceInside := false;
    var li := if front.Some? then front.value else 0;
    ghost var walked: seq<nat> := [];
    while li < |routeLanelets|
      invariant centerlineIdx < pointCount && !isEndLanelet
      invariant walked + WalkFrom(laneletCount, pointCount, inside, front.Some?, li, centerlineIdx, wasOnceInside) == expected
      invariant forall k :: 0 <= k < |walked| ==> walked[k] < laneletCount
      invariant handler.centerlineLaneIds == LaneIdsOf(routeLanelets, walked)
      invariant handler.selectedCenterline == centerline && handler.routeLaneIds == routeLanelets
      decreases laneletCount - li
    {
      while true
        invariant centerlineIdx < pointCount && !isEndLanelet
        invariant walked + WalkFrom(laneletCount, pointCount, inside, front.Some?, li, centerlineIdx, wasOnceInside) == expected
        invariant forall k :: 0 <= k < |walked| ==> walked[k] < laneletCount
        invariant handler.centerlineLaneIds == LaneIdsOf(routeLanelets, walked)
        invariant handler.selectedCenterline == centerline && handler.routeLaneIds == routeLanelets
        decreases pointCount - centerlineIdx
      {
        var isInside := inside(li, centerlineIdx);
        ghost var before := wasOnceInside;
        if isInside {
          wasOnceInside := true;
        }
        var isTargetLanelet := if front.None? && !wasOnceInside then true else isInside;
        if !isTargetLanelet {
          assert WalkFrom(laneletCount, pointCount, inside, front.Some?, li, centerlineIdx, before)
              == WalkFrom(laneletCount, pointCount, inside, front.Some?, li + 1, centerlineIdx, wasOnceInside);
          break;
        }
        handler.AddCenterlineLaneId(routeLanelets[li]);
        if centerlineIdx + 1 == pointCount {
          assert WalkFrom(laneletCount, pointCount, inside, front.Some?, li, centerlineIdx, before) == [li];
        } else {
          assert WalkFrom(laneletCount, pointCount, inside, front.Some?, li, centerlineIdx, before)
              == [li] + WalkFrom(laneletCount, pointCount, inside, front.Some?, li, centerlineIdx + 1, wasOnceInside);
          AppendAssociative(walked, [li], WalkFrom(laneletCount, pointCount, inside, front.Some?, li, centerlineIdx + 1, wasOnceInside));
        }
        walked := walked + [li];
        centerlineIdx := centerlineIdx + 1;
        if centerlineIdx == |centerline| {
          isEndLanelet := true;
          assert walked == expected;
          return;
        }
      }
      li := li + 1;
    }
    assert walked + [] == walked;
  }

  lemma {:induction false} WalkFromNonDecreasing(laneletCount: nat, pointCount: nat, inside: (nat, nat) -> bool,
                                                 hasFront: bool, li: nat, c: nat, wasOnce: bool)
    requires c < pointCount
    ensures forall a, b :: 0 <= a < b < |WalkFrom(laneletCount, pointCount, inside, hasFront, li, c, wasOnce)| ==>
      WalkFrom(laneletCount, pointCount, inside, hasFront, li, c, wasOnce)[a] <= WalkFrom(laneletCount, pointCount, inside, hasFront, li, c, wasOnce)[b]
    decreases laneletCount - li, pointCount - c
  {
    if li < laneletCount {
      var isInside := inside(li, c);
      var was := wasOnce || isInside;
      var isTarget := if !hasFront && !was then true else isInside;
      if !isTarget {
        WalkFromNonDecreasing(laneletCount, pointCount, inside, hasFront, li + 1, c, was);
      } else if c + 1 < pointCount {
        WalkFromNonDecreasing(laneletCount, pointCount, inside, hasFront, li, c + 1, was);
        var rest := WalkFrom(laneletCount, pointCount, inside, hasFront, li, c + 1, was);
        var r := [li] + rest;
        forall a, b | 0 <= a < b < |r| ensures r[a] <= r[b] {
          assert r[b] == rest[b - 1];
          if a > 0 {
            assert r[a] == rest[a - 1];
          }
        }
      }
    }
  }

  /** Along the centerline the recorded lanelets never go back along the
      route. */
  lemma AssignedLaneletsNonDecreasing(laneletCount: nat, pointCount: nat, inside: (nat, nat) -> bool, a: nat, b: nat)
    requires a < b < |AssignedLanelets(laneletCount, pointCount, inside)|
    ensures AssignedLanelets(laneletCount, pointCount, inside)[a] <= AssignedLanelets(laneletCount, pointCount, inside)[b]
  {
    var front := FrontLanelet(laneletCount, inside);
    WalkFromNonDecreasing(laneletCount, pointCount, inside, front.Some?, if front.Some? then front.value else 0, 0, false);
  }

  /** The first point goes to the front's lanelet, or to the first lanelet
      when no route lanelet contains the front; later ones lie no earlier. */
  lemma AssignedLaneletsStart(laneletCount: nat, pointCount: nat, inside: (nat, nat) -> bool)
    requires 0 < laneletCount && 0 < pointCount
    ensures |AssignedLanelets(laneletCount, pointCount, inside)| > 0
    ensures FrontLanelet(laneletCount, inside).Some? ==>
      AssignedLanelets(laneletCount, pointCount, inside)[0] == FrontLanelet(laneletCount, inside).value
    ensures FrontLanelet(laneletCount, inside).None? ==> AssignedLanelets(laneletCount, pointCount, inside)[0] == 0
  {
  }

  lemma {:induction false} WalkFromInside(laneletCount: nat, pointCount: nat, inside: (nat, nat) -> bool,
                                          hasFront: bool, li: nat, c: nat, wasOnce: bool, k: nat)
    requires c < pointCount && (hasFront || wasOnce)
    requires k < |WalkFrom(laneletCount, pointCount, inside, hasFront, li, c, wasOnce)|
    ensures inside(WalkFrom(laneletCount, pointCount, inside, hasFront, li, c, wasOnce)[k], c + k)
    decreases laneletCount - li, pointCount - c
  {
    var isInside := inside(li, c);
    var was := wasOnce || isInside;
    if !isInside {
      WalkFromInside(laneletCount, pointCount, inside, hasFront, li + 1, c, was, k);
    } else if k > 0 {
      WalkFromInside(laneletCount, pointCount, inside, hasFront, li, c + 1, was, k - 1);
    }
  }

  /** When some route lanelet contains the front, every point is recorded
      on a lanelet that contains it. */
  lemma AssignedLaneletsContainTheirPoints(laneletCount: nat, pointCount: nat, inside: (nat, nat) -> bool, k: nat)
    requires FrontLanelet(laneletCount, inside).Some?
    requires k < |AssignedLanelets(laneletCount, pointCount, inside)|
    ensures inside(AssignedLanelets(laneletCount, pointCount, inside)[k], k)
  {
    WalkFromInside(laneletCount, pointCount, inside, true, FrontLanelet(laneletCount, inside).value, 0, false, k);
  }

  // ---- the output loop of `on_plan_path` ----

  /** Point indices `start` to `end` (exclusive) of the trajectory, inside
      route lanelet `lanelet`. */
  datatype Span = Span(lanelet: nat, start: nat, end: nat)

  /** `points_with_lane_id`: a lane id and the points inside that lane. */
  datatype PointsWithLaneId = PointsWithLaneId(laneId: int, points: seq<Position>)

  /** Where the inner loop stops on lanelet `li`: the first point from `t`
      on that the lanelet does not contain, or the end of the trajectory. */
  function RunEnd(inside: (nat, nat) -> bool, li: nat, t: nat, pointCount: nat): (e: nat)
    requires t <= pointCount
    ensures t <= e <= pointCount
    ensures forall p :: t <= p < e ==> inside(li, p)
    ensures e < pointCount ==> !inside(li, e)
    decreases pointCount - t
  {
    if t == pointCount || !inside(li, t) then t else RunEnd(inside, li, t + 1, pointCount)
  }

  /** The spans the loop emits from lanelet `li` and point `t` on. */
  function SpansFrom(laneletCount: nat, pointCount: nat, inside: (nat, nat) -> bool, li: nat, t: nat): (r: seq<Span>)
    requires t < pointCount
    ensures forall k :: 0 <= k < |r| ==> li <= r[k].lanelet < laneletCount && t <= r[k].start < r[k].end <= pointCount
    decreases laneletCount - li
  {
    if li >= laneletCount then []
    else
      var e := RunEnd(inside, li, t, pointCount);
      var here := if e > t then [Span(li, t, e)] else [];
      if e == pointCount then here
      else here + SpansFrom(laneletCount, pointCount, inside, li + 1, e)
  }

  /** Every point of the span lies inside the span's lanelet. */
  predicate SpanInside(inside: (nat, nat) -> bool, s: Span) {
    forall p :: s.start <= p < s.end ==> inside(s.lanelet, p)
  }

  /** `b` follows `a`: on a later lanelet, starting where `a` ends. */
  predicate Follows(a: Span, b: Span) {
    a.lanelet < b.lanelet && a.end == b.start
  }

  /** Each span lies inside its lanelet, each span follows the previous one
      (so the lanelets strictly increase and no point is skipped or
      revisited), and the first starts at `t`. */
  lemma {:induction false} SpansFromShape(laneletCount: nat, pointCount: nat, inside: (nat, nat) -> bool, li: nat, t: nat)
    requires t < pointCount
    ensures forall k :: 0 <= k < |SpansFrom(laneletCount, pointCount, inside, li, t)| ==>
      SpanInside(inside, SpansFrom(laneletCount, pointCount, inside, li, t)[k])
    ensures forall k :: 0 <= k < |SpansFrom(laneletCount, pointCount, inside, li, t)| - 1 ==>
      Follows(SpansFrom(laneletCount, pointCount, inside, li, t)[k], SpansFrom(laneletCount, pointCount, inside, li, t)[k + 1])
    ensures |SpansFrom(laneletCount, pointCount, inside, li, t)| > 0 ==> SpansFrom(laneletCount, pointCount, inside, li, t)[0].start == t
    decreases laneletCount - li
  {
    if li < laneletCount {
      var e := RunEnd(inside, li, t, pointCount);
      if e < pointCount {
        SpansFromShape(laneletCount, pointCount, inside, li + 1, e);
        if e > t {
          var rest := SpansFrom(laneletCount, pointCount, inside, li + 1, e);
          var r := [Span(li, t, e)] + rest;
          assert SpansFrom(laneletCount, pointCount, inside, li, t) == r;
          forall k | 1 <= k < |r| ensures r[k] == rest[k - 1] { }
        }
      }
    }
  }

  /** The spans of the whole walk; an empty trajectory ends `on_plan_path`
      before the loop. */
  function PlannedSpans(laneletCount: nat, pointCount: nat, inside: (nat, nat) -> bool): (r: seq<Span>)
    ensures forall k :: 0 <= k < |r| ==> r[k].lanelet < laneletCount && r[k].start < r[k].end <= pointCount
  {
    if pointCount == 0 then [] else SpansFrom(laneletCount, pointCount, inside, 0, 0)
  }

  function GroupOf(routeIds: seq<int>, traj: seq<Position>, s: Span): PointsWithLaneId
    requires s.lanelet < |routeIds| && s.start <= s.end <= |traj|
  {
    PointsWithLaneId(routeIds[s.lanelet], traj[s.start..s.end])
  }

  /** The inner loop of `on_plan_path`: the points from `start` on that
      lanelet `li` contains, up to the first it does not or the end. */
  method CollectInside(traj: seq<Position>, inside: (nat, nat) -> bool, li: nat, start: nat)
    returns (points: seq<Position>, e: nat, isEnd: bool)
    requires start < |traj|
    ensures e == RunEnd(inside, li, start, |traj|)
    ensures points == traj[start..e]
    ensures isEnd <==> e == |traj|
  {
    points, e, isEnd := [], start, false;
    while !isEnd && inside(li, e)
      invariant start <= e <= |traj|
      invariant isEnd <==> e == |traj|
      invariant points == traj[start..e]
      invariant forall p :: start <= p < e ==> inside(li, p)
      decreases |traj| - e
    {
      points := points + [traj[e]];
      e := e + 1;
      isEnd := e == |traj|;
    }
  }

  method GroupTrajectoryByLanelet(routeIds: seq<int>, traj: seq<Position>, inside: (nat, nat) -> bool)
    returns (groups: seq<PointsWithLaneId>)
    ensures var spans := PlannedSpans(|routeIds|, |traj|, inside);
      |groups| == |spans| && forall k :: 0 <= k < |spans| ==> groups[k] == GroupOf(routeIds, traj, spans[k])
  {
    groups := [];
    if |traj| == 0 {
      return;
    }
    ghost var laneletCount, pointCount := |routeIds|, |traj|;
    ghost var planned := PlannedSpans(laneletCount, pointCount, inside);
    ghost var spans: seq<Span> := [];
    var target: nat := 0;
    var isEndLanelet := false;
    var li := 0;
    while li < |routeIds|
      invariant target < pointCount
      invariant spans + SpansFrom(laneletCount, pointCount, inside, li, target) == planned
      invariant forall k :: 0 <= k < |spans| ==> spans[k].lanelet < laneletCount && spans[k].start <= spans[k].end <= pointCount
      invariant |groups| == |spans| && forall k :: 0 <= k < |spans| ==> groups[k] == GroupOf(routeIds, traj, spans[k])
      decreases laneletCount - li
    {
      ghost var start := target;
      var currentLaneletPoints;
      currentLaneletPoints, target, isEndLanelet := CollectInside(traj, inside, li, target);
      ghost var here := if target > start then [Span(li, start, target)] else [];
      if |currentLaneletPoints| > 0 {
        groups := groups + [PointsWithLaneId(routeIds[li], currentLaneletPoints)];
      }
      if isEndLanelet {
        assert spans + here == planned;
        spans := spans + here;
        return;
      }
      AppendAssociative(spans, here, SpansFrom(laneletCount, pointCount, inside, li + 1, target));
      spans := spans + here;
      li := li + 1;
    }
    assert spans + [] == spans;
  }

  /** The points of the spans, concatenated. */
  function SpanPoints(traj: seq<Position>, spans: seq<Span>): seq<Position>
    requires forall k :: 0 <= k < |spans| ==> spans[k].start <= spans[k].end <= |traj|
  {
    if spans == [] then [] else traj[spans[0].start..spans[0].end] + SpanPoints(traj, spans[1..])
  }

  /** Spans that follow one another, the first starting at `t`, cover the
      trajectory from `t` to where the last one ends. */
  lemma {:induction false} ChainedSpansCover(traj: seq<Position>, spans: seq<Span>, t: nat)
    requires |spans| > 0 && spans[0].start == t
    requires forall k :: 0 <= k < |spans| ==> spans[k].start <= spans[k].end <= |traj|
    requires forall k :: 0 <= k < |spans| - 1 ==> Follows(spans[k], spans[k + 1])
    ensures t <= spans[|spans| - 1].end
    ensures SpanPoints(traj, spans) == traj[t..spans[|spans| - 1].end]
  {
    var first := spans[0];
    if |spans| == 1 {
      assert SpanPoints(traj, spans) == traj[t..first.end] + SpanPoints(traj, []);
    } else {
      var rest := spans[1..];
      assert Follows(spans[0], spans[1]);
      ChainedSpansCover(traj, rest, first.end);
      var last := rest[|rest| - 1].end;
      assert traj[t..first.end] + traj[first.end..last] == traj[t..last];
    }
  }

  /** The groups of a non-empty trajectory start at its first point, and
      their points, concatenated, are a prefix of it: no point is revisited
      or skipped. */
  lemma PlannedGroupsArePrefix(laneletCount: nat, traj: seq<Position>, inside: (nat, nat) -> bool)
    requires |PlannedSpans(laneletCount, |traj|, inside)| > 0
    ensures PlannedSpans(laneletCount, |traj|, inside)[0].start == 0
    ensures SpanPoints(traj, PlannedSpans(laneletCount, |traj|, inside))
      == traj[..PlannedSpans(laneletCount, |traj|, inside)[|PlannedSpans(laneletCount, |traj|, inside)| - 1].end]
  {
    SpansFromShape(laneletCount, |traj|, inside, 0, 0);
    ChainedSpansCover(traj, PlannedSpans(laneletCount, |traj|, inside), 0);
  }
}

/** The turn-direction tagging validator: every lanelet the check finds for an
    `intersection_area` polygon must carry a `turn_direction` tag whose value
    is "left", "straight" or "right". */
module TurnDirectionTagging {
  import opened Wrappers
  import opened LaneletMap

  /** The issues this validator emits carry coded messages. */
  type TaggingIssue = Issue<Message>

  const TurnDirectionKey: string := "turn_direction"
  const IntersectionArea: string := "intersection_area"
  const DirectionSet: set<string> := {"left", "straight", "right"}

  // ---- planar bounding boxes (`lanelet::BoundingBox2d`) ----

  /** An axis-aligned box; `EmptyBox` is the box of no points, which contains nothing. */
  datatype BoundingBox2d = EmptyBox | Box(minX: real, minY: real, maxX: real, maxY: real)

  function Min(a: real, b: real): real { if a <= b then a else b }
  function Max(a: real, b: real): real { if a <= b then b else a }

  /** The smallest box holding `box` and the point `p` (in the plane). */
  function Extend(box: BoundingBox2d, p: Point3d): BoundingBox2d {
    match box
    case EmptyBox => Box(p.x, p.y, p.x, p.y)
    case Box(x0, y0, x1, y1) => Box(Min(x0, p.x), Min(y0, p.y), Max(x1, p.x), Max(y1, p.y))
  }

  /** `boundingBox2d` of the polygon's planar outline. */
  function BoundingBoxOf(points: seq<Point3d>): BoundingBox2d {
    if points == [] then EmptyBox else Extend(BoundingBoxOf(points[1..]), points[0])
  }

  /** `bbox.contains(point)`: closed on every side. */
  predicate Contains(box: BoundingBox2d, p: Point3d) {
    box.Box? && box.minX <= p.x <= box.maxX && box.minY <= p.y <= box.maxY
  }

  lemma ExtendKeepsContents(box: BoundingBox2d, p: Point3d, q: Point3d)
    requires Contains(box, q)
    ensures Contains(Extend(box, p), q) && Contains(Extend(box, p), p)
  {
  }

  /** Every point of a polygon lies in its bounding box. */
  lemma {:induction false} BoundingBoxHoldsPoints(points: seq<Point3d>)
    ensures forall k :: 0 <= k < |points| ==> Contains(BoundingBoxOf(points), points[k])
  {
    if points != [] {
      BoundingBoxHoldsPoints(points[1..]);
      forall k | 0 < k < |points| ensures Contains(BoundingBoxOf(points), points[k]) {
        assert points[k] == points[1..][k - 1];
        ExtendKeepsContents(BoundingBoxOf(points[1..]), points[0], points[k]);
      }
    }
  }

  // ---- `lanelet_is_within_bbox_2d` ----

  /** What `lanelet_is_within_bbox_2d` actually tests: that NO point of either
      bound lies in the box (the opposite of what its name says). */
  predicate NoBoundPointInBox(box: BoundingBox2d, lane: Lanelet) {
    && (forall k :: 0 <= k < |lane.leftBound.points| ==> !Contains(box, lane.leftBound.points[k]))
    && (forall k :: 0 <= k < |lane.rightBound.points| ==> !Contains(box, lane.rightBound.points[k]))
  }

  method LaneletIsWithinBbox2d(box: BoundingBox2d, lane: Lanelet) returns (within: bool)
    ensures within <==> NoBoundPointInBox(box, lane)
  {
    var left := lane.leftBound.points;
    var i := 0;
    while i < |left|
      invariant 0 <= i <= |left|
      invariant forall k :: 0 <= k < i ==> !Contains(box, left[k])
    {
      if Contains(box, left[i]) {
        return false;
      }
      i := i + 1;
    }
    var right := lane.rightBound.points;
    var j := 0;
    while j < |right|
      invariant 0 <= j <= |right|
      invariant forall k :: 0 <= k < j ==> !Contains(box, right[k])
    {
      if Contains(box, right[j]) {
        return false;
      }
      j := j + 1;
    }
    return true;
  }

  // ---- issues ----

  function MissingTagIssue(validator: string, lane: Lanelet): TaggingIssue {
    Issue(Error, PrimLanelet, lane.id, Coded(validator, 1, "This lanelet is missing a turn_direction tag"))
  }

  const InvalidTagPrefix: string := "Invalid turn_directin tag is found ("

  function InvalidTagIssue(validator: string, lane: Lanelet, value: string): TaggingIssue {
    Issue(Error, PrimLanelet, lane.id, Coded(validator, 2, InvalidTagPrefix + value + ")"))
  }

  /** Issues found so far, followed by the outcome of the rest of the run: an
      exception discards everything. */
  function Then(prefix: seq<TaggingIssue>, rest: Result<seq<TaggingIssue>, Fault>): Result<seq<TaggingIssue>, Fault> {
    match rest
    case Failure(f) => Failure(f)
    case Success(more) => Success(prefix + more)
  }

  /** One run followed by another. */
  function Chain(first: Result<seq<TaggingIssue>, Fault>, rest: Result<seq<TaggingIssue>, Fault>): Result<seq<TaggingIssue>, Fault> {
    match first
    case Failure(f) => Failure(f)
    case Success(issues) => Then(issues, rest)
  }

  lemma ThenNothing(rest: Result<seq<TaggingIssue>, Fault>)
    ensures Then([], rest) == rest
  {
    if rest.Success? {
      assert [] + rest.value == rest.value;
    }
  }

  lemma ThenThen(a: seq<TaggingIssue>, b: seq<TaggingIssue>, rest: Result<seq<TaggingIssue>, Fault>)
    ensures Then(a, Then(b, rest)) == Then(a + b, rest)
  {
    if rest.Success? {
      assert a + (b + rest.value) == (a + b) + rest.value;
    }
  }

  lemma ChainThen(a: seq<TaggingIssue>, first: Result<seq<TaggingIssue>, Fault>, rest: Result<seq<TaggingIssue>, Fault>)
    ensures Chain(Then(a, first), rest) == Then(a, Chain(first, rest))
  {
    if first.Success? {
      ThenThen(a, first.value, rest);
    }
  }

  lemma ChainAssociative(a: Result<seq<TaggingIssue>, Fault>, b: Result<seq<TaggingIssue>, Fault>, c: Result<seq<TaggingIssue>, Fault>)
    ensures Chain(Chain(a, b), c) == Chain(a, Chain(b, c))
  {
    if a.Success? {
      ChainThen(a.value, b, c);
    }
  }

  // ---- the validator as written ----

  /** One lanelet found for an intersection area. A missing tag first records
      the code-1 issue, then reads the missing attribute, which throws: the run
      ends with `NoSuchAttribute` and the recorded issue is lost. */
  function LaneletIssues(validator: string, box: BoundingBox2d, lane: Lanelet): Result<seq<TaggingIssue>, Fault> {
    if !NoBoundPointInBox(box, lane) then Success([])
    else if TurnDirectionKey !in lane.attributes then Failure(NoSuchAttribute(lane.id, TurnDirectionKey))
    else if lane.attributes[TurnDirectionKey] in DirectionSet then Success([])
    else Success([InvalidTagIssue(validator, lane, lane.attributes[TurnDirectionKey])])
  }

  function LaneletsIssues(validator: string, box: BoundingBox2d, lanes: seq<Lanelet>): Result<seq<TaggingIssue>, Fault> {
    if lanes == [] then Success([])
    else Chain(LaneletIssues(validator, box, lanes[0]), LaneletsIssues(validator, box, lanes[1..]))
  }

  /** One polygon: only `intersection_area` polygons are examined, against
      the lanelets `search` returns for their bounding box. */
  function PolygonIssues(validator: string, polygon: Polygon3d, search: BoundingBox2d -> seq<Lanelet>): Result<seq<TaggingIssue>, Fault> {
    if !AttributeIs(polygon.attributes, "type", IntersectionArea) then Success([])
    else
      var box := BoundingBoxOf(polygon.points);
      LaneletsIssues(validator, box, search(box))
  }

  function TaggingIssues(validator: string, polygons: seq<Polygon3d>, search: BoundingBox2d -> seq<Lanelet>): Result<seq<TaggingIssue>, Fault> {
    if polygons == [] then Success([])
    else Chain(PolygonIssues(validator, polygons[0], search), TaggingIssues(validator, polygons[1..], search))
  }

  /** `checkTurnDirectionTagging`; `search` stands for the lanelet layer's
      spatial query and `validator` for the validator's name. */
  method CheckTurnDirectionTagging(validator: string, m: Map, search: BoundingBox2d -> seq<Lanelet>)
    returns (r: Result<seq<TaggingIssue>, Fault>)
    ensures r == TaggingIssues(validator, m.polygonLayer, search)
  {
    var polygons := m.polygonLayer;
    var issues: seq<TaggingIssue> := [];
    ThenNothing(TaggingIssues(validator, polygons, search));
    var i := 0;
    while i < |polygons|
      invariant 0 <= i <= |polygons|
      invariant Then(issues, TaggingIssues(validator, polygons[i..], search)) == TaggingIssues(validator, polygons, search)
    {
      var polygon := polygons[i];
      assert polygons[i..][1..] == polygons[i + 1..];
      var rest := TaggingIssues(validator, polygons[i + 1..], search);
      if !(("type" in polygon.attributes) && polygon.attributes["type"] == IntersectionArea) {
        ThenNothing(rest);
        i := i + 1;
        continue;
      }
      var box := BoundingBoxOf(polygon.points);
      var lanes := search(box);
      var j := 0;
      while j < |lanes|
        invariant 0 <= j <= |lanes|
        invariant Then(issues, Chain(LaneletsIssues(validator, box, lanes[j..]), rest)) == TaggingIssues(validator, polygons, search)
      {
        var lane := lanes[j];
        assert lanes[j..][1..] == lanes[j + 1..];
        var within := LaneletIsWithinBbox2d(box, lane);
        var later := LaneletsIssues(validator, box, lanes[j + 1..]);
        if !within {
          ThenNothing(later);
          j := j + 1;
          continue;
        }
        if TurnDirectionKey !in lane.attributes {
          issues := issues + [MissingTagIssue(validator, lane)];
          // `attribute("turn_direction")` on the missing key throws
          return Failure(NoSuchAttribute(lane.id, TurnDirectionKey));
        }
        var turnDirection := lane.attributes[TurnDirectionKey];
        if turnDirection !in DirectionSet {
          ChainThen([InvalidTagIssue(validator, lane, turnDirection)], later, rest);
          ThenThen(issues, [InvalidTagIssue(validator, lane, turnDirection)], Chain(later, rest));
          issues := issues + [InvalidTagIssue(validator, lane, turnDirection)];
        } else {
          ThenNothing(later);
        }
        j := j + 1;
      }
      ThenNothing(rest);
      i := i + 1;
    }
    assert polygons[i..] == [] && issues + [] == issues;
    r := Success(issues);
  }

  // ---- properties of the validator as written ----

  /** Polygons that are not intersection areas contribute nothing. */
  lemma OtherPolygonsAreSkipped(validator: string, polygon: Polygon3d, search: BoundingBox2d -> seq<Lanelet>)
    requires !AttributeIs(polygon.attributes, "type", IntersectionArea)
    ensures PolygonIssues(validator, polygon, search) == Success([])
  {
  }

  /** A lanelet failing the box test, or tagged with a valid direction,
      contributes nothing. */
  lemma SkippedOrValidLaneletHasNoIssue(validator: string, box: BoundingBox2d, lane: Lanelet)
    requires !NoBoundPointInBox(box, lane) || AttributeIs(lane.attributes, TurnDirectionKey, "left")
      || AttributeIs(lane.attributes, TurnDirectionKey, "straight") || AttributeIs(lane.attributes, TurnDirectionKey, "right")
    ensures LaneletIssues(validator, box, lane) == Success([])
  {
  }

  /** A tag outside the direction set gives exactly one code-2 Error on the
      lanelet, and its text holds the offending value. */
  lemma InvalidTagGivesOneCodeTwoError(validator: string, box: BoundingBox2d, lane: Lanelet)
    requires NoBoundPointInBox(box, lane)
    requires TurnDirectionKey in lane.attributes && lane.attributes[TurnDirectionKey] !in DirectionSet
    ensures var value := lane.attributes[TurnDirectionKey];
      && LaneletIssues(validator, box, lane) == Success([InvalidTagIssue(validator, lane, value)])
      && var issue := InvalidTagIssue(validator, lane, value);
      && issue.severity == Error && issue.primitive == PrimLanelet && issue.id == lane.id
      && issue.message.code == 2
      && issue.message.text[|InvalidTagPrefix|..|InvalidTagPrefix| + |value|] == value
  {
    var value := lane.attributes[TurnDirectionKey];
    assert (InvalidTagPrefix + value + ")")[|InvalidTagPrefix|..|InvalidTagPrefix| + |value|] == value;
  }

  /** Issues are ordered by polygon: the run over two batches of polygons is
      the first batch's run followed by the second's. */
  lemma {:induction false} TaggingIssuesConcat(validator: string, p1: seq<Polygon3d>, p2: seq<Polygon3d>, search: BoundingBox2d -> seq<Lanelet>)
    ensures TaggingIssues(validator, p1 + p2, search)
      == Chain(TaggingIssues(validator, p1, search), TaggingIssues(validator, p2, search))
  {
    if p1 == [] {
      assert p1 + p2 == p2;
      ThenNothing(TaggingIssues(validator, p2, search));
    } else {
      assert (p1 + p2)[1..] == p1[1..] + p2;
      TaggingIssuesConcat(validator, p1[1..], p2, search);
      ChainAssociative(PolygonIssues(validator, p1[0], search), TaggingIssues(validator, p1[1..], search), TaggingIssues(validator, p2, search));
    }
  }

  /** Predicate on issue lists: Errors on lanelets carrying code 2. */
  predicate AllCodeTwoLaneletErrors(issues: seq<TaggingIssue>) {
    forall k :: 0 <= k < |issues| ==>
      issues[k].severity == Error && issues[k].primitive == PrimLanelet
      && issues[k].message.Coded? && issues[k].message.code == 2
  }

  lemma {:induction false} LaneletsIssuesAreCodeTwo(validator: string, box: BoundingBox2d, lanes: seq<Lanelet>)
    ensures LaneletsIssues(validator, box, lanes).Success? ==> AllCodeTwoLaneletErrors(LaneletsIssues(validator, box, lanes).value)
  {
    if lanes != [] {
      LaneletsIssuesAreCodeTwo(validator, box, lanes[1..]);
    }
  }

  /** As written, every issue that reaches the caller is a code-2 Error on a
      lanelet: the code-1 issue for a missing tag can never be returned. */
  lemma {:induction false} CodeOneNeverReturned(validator: string, polygons: seq<Polygon3d>, search: BoundingBox2d -> seq<Lanelet>)
    ensures TaggingIssues(validator, polygons, search).Success? ==>
      AllCodeTwoLaneletErrors(TaggingIssues(validator, polygons, search).value)
  {
    if polygons != [] {
      CodeOneNeverReturned(validator, polygons[1..], search);
      var polygon := polygons[0];
      if AttributeIs(polygon.attributes, "type", IntersectionArea) {
        var box := BoundingBoxOf(polygon.points);
        LaneletsIssuesAreCodeTwo(validator, box, search(box));
      }
    }
  }

  /** As written, a lanelet inside the test that lacks the tag ends the whole
      run with an exception, whatever else the map holds. */
  lemma {:induction false} MissingTagAbortsLanelets(validator: string, box: BoundingBox2d, lanes: seq<Lanelet>, k: nat)
    requires k < |lanes| && NoBoundPointInBox(box, lanes[k]) && TurnDirectionKey !in lanes[k].attributes
    ensures LaneletsIssues(validator, box, lanes).Failure?
  {
    if k > 0 {
      MissingTagAbortsLanelets(validator, box, lanes[1..], k - 1);
    }
  }

  lemma {:induction false} MissingTagAbortsRun(validator: string, polygons: seq<Polygon3d>, search: BoundingBox2d -> seq<Lanelet>, p: nat, k: nat)
    requires p < |polygons| && AttributeIs(polygons[p].attributes, "type", IntersectionArea)
    requires var box := BoundingBoxOf(polygons[p].points);
      k < |search(box)| && NoBoundPointInBox(box, search(box)[k]) && TurnDirectionKey !in search(box)[k].attributes
    ensures TaggingIssues(validator, polygons, search).Failure?
  {
    if p == 0 {
      var box := BoundingBoxOf(polygons[0].points);
      MissingTagAbortsLanelets(validator, box, search(box), k);
    } else {
      MissingTagAbortsRun(validator, polygons[1..], search, p - 1, k);
    }
  }

  /** Two boxes overlap (closed intervals on both axes). */
  predicate Meets(a: BoundingBox2d, b: BoundingBox2d) {
    a.Box? && b.Box? && a.minX <= b.maxX && b.minX <= a.maxX && a.minY <= b.maxY && b.minY <= a.maxY
  }

  /** The box around both bounds of a lanelet. */
  function LaneletBox(lane: Lanelet): BoundingBox2d {
    BoundingBoxOf(lane.leftBound.points + lane.rightBound.points)
  }

  /** A concrete map that shows it: one intersection area, and one untagged
      lanelet that crosses the area's box without any bound point inside
      it. The search answers as a spatial index does: the lanelet for every
      query box its own box meets. */
  lemma MissingTagExample()
    ensures var area := Polygon3d(1, map["type" := IntersectionArea], [Point3d(2, 0.0, 0.0, 0.0), Point3d(3, 1.0, 1.0, 0.0)]);
      var left := LineString3d(4, map[], [Point3d(5, -1.0, 0.2, 0.0), Point3d(6, 2.0, 0.2, 0.0)]);
      var right := LineString3d(7, map[], [Point3d(8, -1.0, 0.8, 0.0), Point3d(9, 2.0, 0.8, 0.0)]);
      var lane := Lanelet(10, map[], left, right, []);
      Meets(LaneletBox(lane), BoundingBoxOf(area.points))
      && TaggingIssues("turn_direction_tagging", [area], q => if Meets(LaneletBox(lane), q) then [lane] else [])
         == Failure(NoSuchAttribute(10, TurnDirectionKey))
  {
    var area := Polygon3d(1, map["type" := IntersectionArea], [Point3d(2, 0.0, 0.0, 0.0), Point3d(3, 1.0, 1.0, 0.0)]);
    var left := LineString3d(4, map[], [Point3d(5, -1.0, 0.2, 0.0), Point3d(6, 2.0, 0.2, 0.0)]);
    var right := LineString3d(7, map[], [Point3d(8, -1.0, 0.8, 0.0), Point3d(9, 2.0, 0.8, 0.0)]);
    var lane := Lanelet(10, map[], left, right, []);
    var box := BoundingBoxOf(area.points);
    assert box == Box(0.0, 0.0, 1.0, 1.0);
    var pts := left.points + right.points;
    assert pts == [Point3d(5, -1.0, 0.2, 0.0), Point3d(6, 2.0, 0.2, 0.0), Point3d(8, -1.0, 0.8, 0.0), Point3d(9, 2.0, 0.8, 0.0)];
    assert BoundingBoxOf(pts[3..]) == Box(2.0, 0.8, 2.0, 0.8);
    assert BoundingBoxOf(pts[2..]) == Box(-1.0, 0.8, 2.0, 0.8);
    assert BoundingBoxOf(pts[1..]) == Box(-1.0, 0.2, 2.0, 0.8);
    assert LaneletBox(lane) == Box(-1.0, 0.2, 2.0, 0.8);
    assert NoBoundPointInBox(box, lane);
  }

  // ---- the evidently intended validator: a missing tag is reported and the run goes on ----

  function LaneletIssuesIntended(validator: string, box: BoundingBox2d, lane: Lanelet): seq<TaggingIssue> {
    if !NoBoundPointInBox(box, lane) then []
    else if TurnDirectionKey !in lane.attributes then [MissingTagIssue(validator, lane)]
    else if lane.attributes[TurnDirectionKey] in DirectionSet then []
    else [InvalidTagIssue(validator, lane, lane.attributes[TurnDirectionKey])]
  }

  function LaneletsIssuesIntended(validator: string, box: BoundingBox2d, lanes: seq<Lanelet>): seq<TaggingIssue> {
    if lanes == [] then [] else LaneletIssuesIntended(validator, box, lanes[0]) + LaneletsIssuesIntended(validator, box, lanes[1..])
  }

  function PolygonIssuesIntended(validator: string, polygon: Polygon3d, search: BoundingBox2d -> seq<Lanelet>): seq<TaggingIssue> {
    if !AttributeIs(polygon.attributes, "type", IntersectionArea) then []
    else
      var box := BoundingBoxOf(polygon.points);
      LaneletsIssuesIntended(validator, box, search(box))
  }

  function TaggingIssuesIntended(validator: string, polygons: seq<Polygon3d>, search: BoundingBox2d -> seq<Lanelet>): seq<TaggingIssue> {
    if polygons == [] then []
    else PolygonIssuesIntended(validator, polygons[0], search) + TaggingIssuesIntended(validator, polygons[1..], search)
  }

  /** Per lanelet: a missing tag is exactly one code-1 Error, an invalid one
      exactly one code-2 Error, anything else nothing. */
  lemma IntendedLaneletVerdict(validator: string, box: BoundingBox2d, lane: Lanelet)
    ensures var issues := LaneletIssuesIntended(validator, box, lane);
      && (!NoBoundPointInBox(box, lane) ==> issues == [])
      && (NoBoundPointInBox(box, lane) && TurnDirectionKey !in lane.attributes ==>
            issues == [MissingTagIssue(validator, lane)] && issues[0].message.code == 1)
      && (NoBoundPointInBox(box, lane) && TurnDirectionKey in lane.attributes ==>
            (issues == [] <==> lane.attributes[TurnDirectionKey] in DirectionSet))
  {
  }

  predicate AllLaneletErrors(issues: seq<TaggingIssue>) {
    forall k :: 0 <= k < |issues| ==>
      issues[k].severity == Error && issues[k].primitive == PrimLanelet
      && issues[k].message.Coded? && issues[k].message.code in {1, 2}
  }

  lemma {:induction false} IntendedLaneletsAreErrors(validator: string, box: BoundingBox2d, lanes: seq<Lanelet>)
    ensures AllLaneletErrors(LaneletsIssuesIntended(validator, box, lanes))
  {
    if lanes != [] {
      IntendedLaneletsAreErrors(validator, box, lanes[1..]);
    }
  }

  /** Every issue of the intended validator is an Error on a lanelet carrying code 1 or 2. */
  lemma {:induction false} IntendedIssuesAreLaneletErrors(validator: string, polygons: seq<Polygon3d>, search: BoundingBox2d -> seq<Lanelet>)
    ensures AllLaneletErrors(TaggingIssuesIntended(validator, polygons, search))
  {
    if polygons != [] {
      IntendedIssuesAreLaneletErrors(validator, polygons[1..], search);
      var polygon := polygons[0];
      if AttributeIs(polygon.attributes, "type", IntersectionArea) {
        var box := BoundingBoxOf(polygon.points);
        IntendedLaneletsAreErrors(validator, box, search(box));
      }
    }
  }

  /** The intended validator reports a missing tag with code 1. */
  lemma {:induction false} IntendedReportsMissingTag(validator: string, box: BoundingBox2d, lanes: seq<Lanelet>, k: nat)
    requires k < |lanes| && NoBoundPointInBox(box, lanes[k]) && TurnDirectionKey !in lanes[k].attributes
    ensures MissingTagIssue(validator, lanes[k]) in LaneletsIssuesIntended(validator, box, lanes)
  {
    if k > 0 {
      IntendedReportsMissingTag(validator, box, lanes[1..], k - 1);
    }
  }

  lemma {:induction false} IntendedAgreesOnLanelets(validator: string, box: BoundingBox2d, lanes: seq<Lanelet>)
    ensures LaneletsIssues(validator, box, lanes).Success? ==>
      LaneletsIssues(validator, box, lanes).value == LaneletsIssuesIntended(validator, box, lanes)
  {
    if lanes != [] {
      IntendedAgreesOnLanelets(validator, box, lanes[1..]);
    }
  }

  /** Wherever the code as written completes, it returns what the intended
      validator returns: the two differ only on maps with an untagged lanelet. */
  lemma {:induction false} IntendedAgreesWhereSourceCompletes(validator: string, polygons: seq<Polygon3d>, search: BoundingBox2d -> seq<Lanelet>)
    ensures TaggingIssues(validator, polygons, search).Success? ==>
      TaggingIssues(validator, polygons, search).value == TaggingIssuesIntended(validator, polygons, search)
  {
    if polygons != [] {
      IntendedAgreesWhereSourceCompletes(validator, polygons[1..], search);
      var polygon := polygons[0];
      if AttributeIs(polygon.attributes, "type", IntersectionArea) {
        var box := BoundingBoxOf(polygon.points);
        IntendedAgreesOnLanelets(validator, box, search(box));
      }
    }
  }
}

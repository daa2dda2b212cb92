/** The traffic-light facing validator. Every red/yellow/green traffic-light
    line string is judged against the lanelets that refer to its regulatory
    element: the lanelets' starting edge (the bound end points nearest the
    stop line) gives the expected direction, and the light's direction
    vector must point the same way. Judgments are collected in two flag
    tables keyed by light id and decoded into issues at the end. */
module TrafficLightFacing {
  import opened Wrappers
  import opened LaneletMap

  const TrafficLight: string := "traffic_light"
  const RedYellowGreen: string := "red_yellow_green"
  const StopLine: string := "stop_line"

  // ---- vectors and the cosine sign tests ----

  datatype Vec3 = Vec3(x: real, y: real, z: real)

  const Zero: Vec3 := Vec3(0.0, 0.0, 0.0)

  function Sub(a: Vec3, b: Vec3): Vec3 { Vec3(a.x - b.x, a.y - b.y, a.z - b.z) }

  function Dot(a: Vec3, b: Vec3): real { a.x * b.x + a.y * b.y + a.z * b.z }

  function BasicPoint(p: Point3d): Vec3 { Vec3(p.x, p.y, p.z) }

  /** `a.dot(b) / (a.norm() * b.norm()) > 0`. A zero vector makes the
      quotient NaN, and NaN compares false. */
  predicate CosinePositive(a: Vec3, b: Vec3) {
    a != Zero && b != Zero && Dot(a, b) > 0.0
  }

  /** `a.dot(b) / (a.norm() * b.norm()) < 0`, false on NaN likewise. */
  predicate CosineNegative(a: Vec3, b: Vec3) {
    a != Zero && b != Zero && Dot(a, b) < 0.0
  }

  /** The sign tests are the sign of the dot product, NaN case included. */
  lemma CosineSignIsDotSign(a: Vec3, b: Vec3)
    ensures CosinePositive(a, b) <==> Dot(a, b) > 0.0
    ensures CosineNegative(a, b) <==> Dot(a, b) < 0.0
  {
  }

  // ---- attribute predicates ----

  /** `is_red_yellow_green_traffic_light`. */
  function IsRedYellowGreenTrafficLight(lineString: LineString3d): (r: bool)
    ensures r <==> (("type", TrafficLight) in lineString.attributes.Items
                    && ("subtype", RedYellowGreen) in lineString.attributes.Items)
  {
    AttributeIs(lineString.attributes, "type", TrafficLight)
      && AttributeIs(lineString.attributes, "subtype", RedYellowGreen)
  }

  predicate IsStopLine(lineString: LineString3d) {
    AttributeIs(lineString.attributes, "type", StopLine)
  }

  // ---- `get_stop_line_from_reg_elem` ----

  /** Index of the first stop line among `lines`. */
  function FirstStopLine(lines: seq<LineString3d>): (r: Option<nat>)
    ensures r.Some? ==> r.value < |lines| && IsStopLine(lines[r.value])
    ensures r.Some? ==> forall j :: 0 <= j < r.value ==> !IsStopLine(lines[j])
    ensures r.None? <==> forall j :: 0 <= j < |lines| ==> !IsStopLine(lines[j])
  {
    if lines == [] then None
    else if IsStopLine(lines[0]) then Some(0)
    else match FirstStopLine(lines[1..])
      case None => None
      case Some(k) => Some(k + 1)
  }

  /** The regulatory element's stop line: its first `RefLine` of type
      stop_line, or an empty line string when there is none. */
  function StopLineOf(regElem: RegulatoryElement): LineString3d {
    match FirstStopLine(regElem.refLines)
    case Some(k) => regElem.refLines[k]
    case None => EmptyLineString
  }

  method GetStopLineFromRegElem(regElem: Option<RegulatoryElement>) returns (r: Result<LineString3d, Fault>)
    ensures regElem.None? ==> r == Failure(NullRegulatoryElement)
    ensures regElem.Some? ==> r == Success(StopLineOf(regElem.value))
  {
    if regElem.None? {
      return Failure(NullRegulatoryElement);
    }
    var refLines := regElem.value.refLines;
    var i := 0;
    while i < |refLines|
      invariant 0 <= i <= |refLines|
      invariant forall j :: 0 <= j < i ==> !IsStopLine(refLines[j])
    {
      if "type" in refLines[i].attributes && refLines[i].attributes["type"] == StopLine {
        return Success(refLines[i]);
      }
      i := i + 1;
    }
    return Success(EmptyLineString);
  }

  // ---- `get_starting_edge_from_lanelet` ----

  predicate HasEnds(lineString: LineString3d) {
    |lineString.points| > 0
  }

  function FrontOf(lineString: LineString3d): Vec3
    requires HasEnds(lineString)
  {
    BasicPoint(lineString.points[0])
  }

  function BackOf(lineString: LineString3d): Vec3
    requires HasEnds(lineString)
  {
    BasicPoint(lineString.points[|lineString.points| - 1])
  }

  function MinReal(a: real, b: real): real { if a <= b then a else b }

  /** How well the pair (a, b) matches the reference's ends, in the better
      of the two pairings; `norm` is the Euclidean norm. */
  function MatchCost(norm: Vec3 -> real, ref1: Vec3, ref2: Vec3, a: Vec3, b: Vec3): real {
    MinReal(norm(Sub(a, ref1)) + norm(Sub(b, ref2)), norm(Sub(b, ref1)) + norm(Sub(a, ref2)))
  }

  function FrontCost(norm: Vec3 -> real, lane: Lanelet, reference: LineString3d): real
    requires HasEnds(lane.leftBound) && HasEnds(lane.rightBound) && HasEnds(reference)
  {
    MatchCost(norm, FrontOf(reference), BackOf(reference), FrontOf(lane.leftBound), FrontOf(lane.rightBound))
  }

  function BackCost(norm: Vec3 -> real, lane: Lanelet, reference: LineString3d): real
    requires HasEnds(lane.leftBound) && HasEnds(lane.rightBound) && HasEnds(reference)
  {
    MatchCost(norm, FrontOf(reference), BackOf(reference), BackOf(lane.leftBound), BackOf(lane.rightBound))
  }

  function Anonymous(v: Vec3): Point3d { Point3d(InvalId, v.x, v.y, v.z) }

  /** The lanelet's edge (left end, right end) at whichever end of the
      lanelet lies nearer the reference line; ties go to the front. The edge
      carries the reference's id. */
  function GetStartingEdgeFromLanelet(lane: Lanelet, reference: LineString3d, norm: Vec3 -> real): (edge: LineString3d)
    requires HasEnds(lane.leftBound) && HasEnds(lane.rightBound) && HasEnds(reference)
    ensures edge.id == reference.id && edge.attributes == map[] && |edge.points| == 2
    ensures FrontCost(norm, lane, reference) <= BackCost(norm, lane, reference) ==>
      edge.points == [Anonymous(FrontOf(lane.leftBound)), Anonymous(FrontOf(lane.rightBound))]
    ensures FrontCost(norm, lane, reference) > BackCost(norm, lane, reference) ==>
      edge.points == [Anonymous(BackOf(lane.leftBound)), Anonymous(BackOf(lane.rightBound))]
    ensures MatchCost(norm, FrontOf(reference), BackOf(reference), BasicPoint(edge.points[0]), BasicPoint(edge.points[1]))
      == MinReal(FrontCost(norm, lane, reference), BackCost(norm, lane, reference))
  {
    var frontL, backL := FrontOf(lane.leftBound), BackOf(lane.leftBound);
    var frontR, backR := FrontOf(lane.rightBound), BackOf(lane.rightBound);
    var ref1, ref2 := FrontOf(reference), BackOf(reference);
    var frontMin := MatchCost(norm, ref1, ref2, frontL, frontR);
    var backMin := MatchCost(norm, ref1, ref2, backL, backR);
    var points := if frontMin <= backMin then [Anonymous(frontL), Anonymous(frontR)] else [Anonymous(backL), Anonymous(backR)];
    LineString3d(reference.id, map[], points)
  }

  // ---- `collect_referring_lanelets` ----

  /** One copy of `lane` per entry of `ids` equal to `target`. */
  function RefCopies(lane: Lanelet, ids: seq<int>, target: int): seq<Lanelet> {
    if ids == [] then [] else (if ids[0] == target then [lane] else []) + RefCopies(lane, ids[1..], target)
  }

  /** The lanelets referring to regulatory element `target`, in layer order,
      once per reference. */
  function Referring(lanelets: seq<Lanelet>, target: int): seq<Lanelet> {
    if lanelets == [] then []
    else RefCopies(lanelets[0], lanelets[0].regElemIds, target) + Referring(lanelets[1..], target)
  }

  method CollectReferringLanelets(lanelets: seq<Lanelet>, target: int) returns (group: seq<Lanelet>)
    ensures group == Referring(lanelets, target)
  {
    group := [];
    var i := 0;
    while i < |lanelets|
      invariant 0 <= i <= |lanelets|
      invariant group + Referring(lanelets[i..], target) == Referring(lanelets, target)
    {
      var lane := lanelets[i];
      assert lanelets[i..][1..] == lanelets[i + 1..];
      var ids := lane.regElemIds;
      assert Referring(lanelets[i..], target) == RefCopies(lane, ids, target) + Referring(lanelets[i + 1..], target);
      AppendAssociative(group, RefCopies(lane, ids, target), Referring(lanelets[i + 1..], target));
      ghost var before := group;
      var j := 0;
      while j < |ids|
        invariant 0 <= j <= |ids|
        invariant group + RefCopies(lane, ids[j..], target) == before + RefCopies(lane, ids, target)
      {
        assert ids[j..][1..] == ids[j + 1..];
        ghost var found := if ids[j] == target then [lane] else [];
        assert RefCopies(lane, ids[j..], target) == found + RefCopies(lane, ids[j + 1..], target);
        AppendAssociative(group, found, RefCopies(lane, ids[j + 1..], target));
        if ids[j] == target {
          group := group + [lane];
        }
        j := j + 1;
      }
      assert ids[j..] == [];
      i := i + 1;
    }
  }

  /** A lanelet appears once per reference it holds to the target. */
  lemma {:induction false} RefCopiesAreRepeats(lane: Lanelet, ids: seq<int>, target: int)
    ensures |RefCopies(lane, ids, target)| == multiset(ids)[target]
    ensures forall k :: 0 <= k < |RefCopies(lane, ids, target)| ==> RefCopies(lane, ids, target)[k] == lane
  {
    if ids != [] {
      RefCopiesAreRepeats(lane, ids[1..], target);
      assert ids == [ids[0]] + ids[1..];
      assert multiset(ids) == multiset([ids[0]]) + multiset(ids[1..]);
    }
  }

  /** Exactly the lanelets that refer to the target appear. */
  lemma {:induction false} ReferringMembers(lanelets: seq<Lanelet>, target: int, lane: Lanelet)
    ensures lane in Referring(lanelets, target) <==> lane in lanelets && target in lane.regElemIds
  {
    if lanelets != [] {
      ReferringMembers(lanelets[1..], target, lane);
      RefCopiesAreRepeats(lanelets[0], lanelets[0].regElemIds, target);
      var copies := RefCopies(lanelets[0], lanelets[0].regElemIds, target);
      assert target in lanelets[0].regElemIds <==> multiset(lanelets[0].regElemIds)[target] > 0;
      if |copies| > 0 {
        assert copies[0] == lanelets[0];
      }
      assert lanelets == [lanelets[0]] + lanelets[1..];
    }
  }

  /** Collection follows the layer order: the lanelets of one part of the
      layer come before those of the next. */
  lemma {:induction false} ReferringConcat(a: seq<Lanelet>, b: seq<Lanelet>, target: int)
    ensures Referring(a + b, target) == Referring(a, target) + Referring(b, target)
  {
    if a == [] {
      assert a + b == b;
    } else {
      assert (a + b)[1..] == a[1..] + b;
      ReferringConcat(a[1..], b, target);
    }
  }

  // ---- the accumulation phase ----

  /** The two flag tables and the issues emitted so far. */
  datatype Sweep = Sweep(correct: map<int, bool>, wrong: map<int, bool>, issues: seq<FacingIssue>)

  /** The fixed messages of this validator; `Text` gives their wording. */
  datatype FacingMessage = Unreferred | DivergentStartingPoints | NeverJudged | WrongDirection | JudgedBothWays

  function Text(message: FacingMessage): string {
    match message
    case Unreferred => "Regulatory element of traffic light must be referred by at least one lanelet"
    case DivergentStartingPoints => "Lanelets referring this traffic_light has several divergent starting points"
    case NeverJudged => "Refers of traffic light regulatory element must have type of traffic_light."
    case WrongDirection => "The linestring direction seems to be wrong."
    case JudgedBothWays => "The linestring direction has been judged as both correct and wrong."
  }

  type FacingIssue = Issue<FacingMessage>

  function UnreferredWarning(lightId: int): FacingIssue {
    Issue(Warning, PrimLineString, lightId, Unreferred)
  }

  function DivergentWarning(lightId: int): FacingIssue {
    Issue(Warning, PrimLineString, lightId, DivergentStartingPoints)
  }

  /** Every starting edge the sweep builds is defined: the stop line and the
      bounds of every referring lanelet have end points. Otherwise the
      source reads `front()` of an empty line string. */
  predicate EdgesDefined(lanes: seq<Lanelet>, stopLine: LineString3d) {
    HasEnds(stopLine) && forall k :: 0 <= k < |lanes| ==> HasEnds(lanes[k].leftBound) && HasEnds(lanes[k].rightBound)
  }

  /** One divergence Warning per referring lanelet from index `from` on
      whose starting edge points against `pseudo`, the first lanelet's. */
  function DivergentWarnings(lanes: seq<Lanelet>, from: nat, stopLine: LineString3d, lightId: int, pseudo: Vec3,
                             toVector: LineString3d -> Vec3, norm: Vec3 -> real): seq<FacingIssue>
    requires EdgesDefined(lanes, stopLine)
    decreases |lanes| - from
  {
    if from >= |lanes| then []
    else
      var comparing := toVector(GetStartingEdgeFromLanelet(lanes[from], stopLine, norm));
      (if CosineNegative(pseudo, comparing) then [DivergentWarning(lightId)] else [])
        + DivergentWarnings(lanes, from + 1, stopLine, lightId, pseudo, toVector, norm)
  }

  /** One (regulatory element, referred line string) pair. */
  function LightStep(st: Sweep, lanelets: seq<Lanelet>, regElem: RegulatoryElement, stopLine: LineString3d,
                     light: LineString3d, toVector: LineString3d -> Vec3, norm: Vec3 -> real): Result<Sweep, Fault>
  {
    if !IsRedYellowGreenTrafficLight(light) then Success(st)
    else
      var lanes := Referring(lanelets, regElem.id);
      if |lanes| == 0 then Success(st.(issues := st.issues + [UnreferredWarning(light.id)]))
      else if !EdgesDefined(lanes, stopLine) then Failure(EmptyLineStringAccess)
      else
        var pseudo := toVector(GetStartingEdgeFromLanelet(lanes[0], stopLine, norm));
        var issues := st.issues + DivergentWarnings(lanes, 1, stopLine, light.id, pseudo, toVector, norm);
        if CosinePositive(pseudo, toVector(light)) then Success(Sweep(st.correct[light.id := true], st.wrong, issues))
        else Success(Sweep(st.correct, st.wrong[light.id := true], issues))
  }

  function LightsSweep(st: Sweep, lanelets: seq<Lanelet>, regElem: RegulatoryElement, stopLine: LineString3d,
                       lights: seq<LineString3d>, toVector: LineString3d -> Vec3, norm: Vec3 -> real): Result<Sweep, Fault>
    decreases |lights|
  {
    if lights == [] then Success(st)
    else match LightStep(st, lanelets, regElem, stopLine, lights[0], toVector, norm)
      case Failure(f) => Failure(f)
      case Success(next) => LightsSweep(next, lanelets, regElem, stopLine, lights[1..], toVector, norm)
  }

  /** One regulatory element: its subtype is read unconditionally (and
      throws when missing); only traffic-light elements are examined. */
  function RegElemStep(st: Sweep, lanelets: seq<Lanelet>, regElem: RegulatoryElement,
                       toVector: LineString3d -> Vec3, norm: Vec3 -> real): Result<Sweep, Fault>
  {
    if "subtype" !in regElem.attributes then Failure(NoSuchAttribute(regElem.id, "subtype"))
    else if regElem.attributes["subtype"] != TrafficLight then Success(st)
    else LightsSweep(st, lanelets, regElem, StopLineOf(regElem), regElem.refers, toVector, norm)
  }

  function RegElemsSweep(st: Sweep, lanelets: seq<Lanelet>, regElems: seq<RegulatoryElement>,
                         toVector: LineString3d -> Vec3, norm: Vec3 -> real): Result<Sweep, Fault>
    decreases |regElems|
  {
    if regElems == [] then Success(st)
    else match RegElemStep(st, lanelets, regElems[0], toVector, norm)
      case Failure(f) => Failure(f)
      case Success(next) => RegElemsSweep(next, lanelets, regElems[1..], toVector, norm)
  }

  /** The rest of the sweep after an outcome. */
  function ContinueRegElems(res: Result<Sweep, Fault>, lanelets: seq<Lanelet>, regElems: seq<RegulatoryElement>,
                            toVector: LineString3d -> Vec3, norm: Vec3 -> real): Result<Sweep, Fault>
  {
    match res
    case Failure(f) => Failure(f)
    case Success(st) => RegElemsSweep(st, lanelets, regElems, toVector, norm)
  }

  function ContinueLights(res: Result<Sweep, Fault>, lanelets: seq<Lanelet>, regElem: RegulatoryElement, stopLine: LineString3d,
                          lights: seq<LineString3d>, toVector: LineString3d -> Vec3, norm: Vec3 -> real): Result<Sweep, Fault>
  {
    match res
    case Failure(f) => Failure(f)
    case Success(st) => LightsSweep(st, lanelets, regElem, stopLine, lights, toVector, norm)
  }

  // ---- the seeding phase ----

  /** Both tables start with every red/yellow/green light of the line-string
      layer mapped to false. */
  function SeedFlags(lineStrings: seq<LineString3d>): map<int, bool> {
    if lineStrings == [] then map[]
    else
      var flags := SeedFlags(lineStrings[..|lineStrings| - 1]);
      var last := lineStrings[|lineStrings| - 1];
      if IsRedYellowGreenTrafficLight(last) && last.id !in flags then flags[last.id := false] else flags
  }

  lemma {:induction false} SeedFlagsContents(lineStrings: seq<LineString3d>)
    ensures forall id :: id in SeedFlags(lineStrings) ==> !SeedFlags(lineStrings)[id]
    ensures forall id :: id in SeedFlags(lineStrings) <==>
      exists k :: 0 <= k < |lineStrings| && IsRedYellowGreenTrafficLight(lineStrings[k]) && lineStrings[k].id == id
  {
    if lineStrings != [] {
      var prefix := lineStrings[..|lineStrings| - 1];
      SeedFlagsContents(prefix);
      forall id ensures id in SeedFlags(lineStrings) <==>
        exists k :: 0 <= k < |lineStrings| && IsRedYellowGreenTrafficLight(lineStrings[k]) && lineStrings[k].id == id
      {
        if id in SeedFlags(prefix) {
          var k :| 0 <= k < |prefix| && IsRedYellowGreenTrafficLight(prefix[k]) && prefix[k].id == id;
          assert lineStrings[k] == prefix[k];
        }
        if exists k :: 0 <= k < |lineStrings| && IsRedYellowGreenTrafficLight(lineStrings[k]) && lineStrings[k].id == id {
          var k :| 0 <= k < |lineStrings| && IsRedYellowGreenTrafficLight(lineStrings[k]) && lineStrings[k].id == id;
          if k < |prefix| {
            assert prefix[k] == lineStrings[k];
          }
        }
      }
    }
  }

  // ---- the decoding phase ----

  /** `table[id]` on a `std::map<Id, bool>`: false for an absent key. */
  function Lookup(table: map<int, bool>, id: int): bool {
    id in table && table[id]
  }

  /** The verdict for one light: Error when never judged correct, Warning when
      judged both ways, nothing when judged correct only. */
  function DecodeLight(id: int, correct: map<int, bool>, wrong: map<int, bool>): (r: seq<FacingIssue>)
    ensures |r| <= 1
    ensures forall k :: 0 <= k < |r| ==> r[k].id == id && r[k].primitive == PrimLineString
    ensures r == [] <==> Lookup(correct, id) && !Lookup(wrong, id)
    ensures |r| == 1 ==> (r[0].severity == Error <==> !Lookup(correct, id))
    ensures |r| == 1 ==> (r[0].severity == Warning <==> Lookup(correct, id) && Lookup(wrong, id))
    ensures !Lookup(correct, id) && !Lookup(wrong, id) ==> r == [Issue(Error, PrimLineString, id, NeverJudged)]
    ensures !Lookup(correct, id) && Lookup(wrong, id) ==> r == [Issue(Error, PrimLineString, id, WrongDirection)]
    ensures Lookup(correct, id) && Lookup(wrong, id) ==> r == [Issue(Warning, PrimLineString, id, JudgedBothWays)]
  {
    var c, w := Lookup(correct, id), Lookup(wrong, id);
    if !c && !w then [Issue(Error, PrimLineString, id, NeverJudged)]
    else if !c && w then [Issue(Error, PrimLineString, id, WrongDirection)]
    else if c && w then [Issue(Warning, PrimLineString, id, JudgedBothWays)]
    else []
  }

  function DecodeKeys(keys: seq<int>, correct: map<int, bool>, wrong: map<int, bool>): seq<FacingIssue> {
    if keys == [] then [] else DecodeLight(keys[0], correct, wrong) + DecodeKeys(keys[1..], correct, wrong)
  }

  lemma {:induction false} MinExists(s: set<int>)
    requires s != {}
    ensures exists m :: m in s && forall k :: k in s ==> m <= k
  {
    if forall y :: y !in s {
      assert false;
    }
    var x :| x in s;
    if s != {x} {
      MinExists(s - {x});
      var m :| m in s - {x} && forall k :: k in s - {x} ==> m <= k;
      if x < m {
        forall k | k in s ensures x <= k {
          if k != x {
            assert k in s - {x};
          }
        }
      } else {
        forall k | k in s ensures m <= k {
          if k != x {
            assert k in s - {x};
          }
        }
      }
    } else {
      assert forall k :: k in s ==> x <= k;
    }
  }

  function SetMin(s: set<int>): (m: int)
    requires s != {}
    ensures m in s && forall k :: k in s ==> m <= k
  {
    MinExists(s);
    var m :| m in s && forall k :: k in s ==> m <= k;
    m
  }

  /** The keys of a `std::map` in iteration (ascending) order. */
  function SortedKeys(s: set<int>): (keys: seq<int>)
    ensures |keys| == |s|
    ensures forall k :: k in s <==> k in keys
    ensures forall i, j :: 0 <= i < j < |keys| ==> keys[i] < keys[j]
    decreases |s|
  {
    if s == {} then []
    else
      var m := SetMin(s);
      [m] + SortedKeys(s - {m})
  }

  /** Decoding a key set starts with its smallest key. */
  lemma DecodeSmallestFirst(keys: set<int>, id: int, correct: map<int, bool>, wrong: map<int, bool>)
    requires id in keys && forall key :: key in keys ==> id <= key
    ensures DecodeKeys(SortedKeys(keys), correct, wrong)
      == DecodeLight(id, correct, wrong) + DecodeKeys(SortedKeys(keys - {id}), correct, wrong)
  {
    assert id == SetMin(keys);
    var rest := SortedKeys(keys - {id});
    assert SortedKeys(keys) == [id] + rest;
    assert ([id] + rest)[1..] == rest;
  }

  /** One verdict per key of the "correct" table, in ascending id order. */
  function Decode(correct: map<int, bool>, wrong: map<int, bool>): seq<FacingIssue> {
    DecodeKeys(SortedKeys(correct.Keys), correct, wrong)
  }

  // ---- the whole validator ----

  /** `check_traffic_light_facing`: the sweep's Warnings, then the verdicts.
      `toVector` stands for `linestring_to_vector3d` and `norm` for the
      Euclidean norm. */
  function FacingIssues(m: Map, toVector: LineString3d -> Vec3, norm: Vec3 -> real): Result<seq<FacingIssue>, Fault> {
    var seed := SeedFlags(m.lineStringLayer);
    match RegElemsSweep(Sweep(seed, seed, []), m.laneletLayer, m.regulatoryElementLayer, toVector, norm)
    case Failure(f) => Failure(f)
    case Success(st) => Success(st.issues + Decode(st.correct, st.wrong))
  }

  /** The seeding loop over the line-string layer (`insert` keeps an id
      already present). */
  method SeedTables(lineStrings: seq<LineString3d>) returns (correct: map<int, bool>, wrong: map<int, bool>)
    ensures correct == SeedFlags(lineStrings) && wrong == correct
  {
    correct, wrong := map[], map[];
    var i := 0;
    while i < |lineStrings|
      invariant 0 <= i <= |lineStrings|
      invariant correct == SeedFlags(lineStrings[..i]) && wrong == correct
    {
      var lineString := lineStrings[i];
      assert lineStrings[..i + 1][..i] == lineStrings[..i];
      if IsRedYellowGreenTrafficLight(lineString) {
        if lineString.id !in correct {
          correct := correct[lineString.id := false];
        }
        if lineString.id !in wrong {
          wrong := wrong[lineString.id := false];
        }
      }
      i := i + 1;
    }
    assert lineStrings[..i] == lineStrings;
  }

  /** The loop comparing the other referring lanelets' starting edges with
      the first one's. */
  method CompareSiblings(lanes: seq<Lanelet>, stopLine: LineString3d, lightId: int, pseudo: Vec3,
                         toVector: LineString3d -> Vec3, norm: Vec3 -> real)
    returns (warnings: seq<FacingIssue>)
    requires EdgesDefined(lanes, stopLine)
    ensures warnings == DivergentWarnings(lanes, 1, stopLine, lightId, pseudo, toVector, norm)
  {
    warnings := [];
    var s := 1;
    while s < |lanes|
      invariant 1 <= s
      invariant warnings + DivergentWarnings(lanes, s, stopLine, lightId, pseudo, toVector, norm)
        == DivergentWarnings(lanes, 1, stopLine, lightId, pseudo, toVector, norm)
      decreases |lanes| - s
    {
      var comparing := toVector(GetStartingEdgeFromLanelet(lanes[s], stopLine, norm));
      var found: seq<FacingIssue> := if CosineNegative(pseudo, comparing) then [DivergentWarning(lightId)] else [];
      ghost var later := DivergentWarnings(lanes, s + 1, stopLine, lightId, pseudo, toVector, norm);
      assert DivergentWarnings(lanes, s, stopLine, lightId, pseudo, toVector, norm) == found + later;
      AppendAssociative(warnings, found, later);
      warnings := warnings + found;
      s := s + 1;
    }
    assert warnings + [] == warnings;
  }

  /** The body of the loop over a traffic-light element's `refers`. */
  method JudgeLight(st: Sweep, lanelets: seq<Lanelet>, regElem: RegulatoryElement, stopLine: LineString3d,
                    light: LineString3d, toVector: LineString3d -> Vec3, norm: Vec3 -> real)
    returns (res: Result<Sweep, Fault>)
    ensures res == LightStep(st, lanelets, regElem, stopLine, light, toVector, norm)
  {
    if !IsRedYellowGreenTrafficLight(light) {
      return Success(st);
    }
    var lanes := CollectReferringLanelets(lanelets, regElem.id);
    if |lanes| == 0 {
      return Success(st.(issues := st.issues + [UnreferredWarning(light.id)]));
    }
    if !EdgesDefined(lanes, stopLine) {
      return Failure(EmptyLineStringAccess);
    }
    var pseudo := toVector(GetStartingEdgeFromLanelet(lanes[0], stopLine, norm));
    var warnings := CompareSiblings(lanes, stopLine, light.id, pseudo, toVector, norm);
    var issues := st.issues + warnings;
    if CosinePositive(pseudo, toVector(light)) {
      res := Success(Sweep(st.correct[light.id := true], st.wrong, issues));
    } else {
      res := Success(Sweep(st.correct, st.wrong[light.id := true], issues));
    }
  }

  /** One traffic-light regulatory element: its referred line strings in order. */
  method JudgeLights(st: Sweep, lanelets: seq<Lanelet>, regElem: RegulatoryElement, stopLine: LineString3d,
                     lights: seq<LineString3d>, toVector: LineString3d -> Vec3, norm: Vec3 -> real)
    returns (res: Result<Sweep, Fault>)
    ensures res == LightsSweep(st, lanelets, regElem, stopLine, lights, toVector, norm)
  {
    var cur := st;
    var k := 0;
    while k < |lights|
      invariant 0 <= k <= |lights|
      invariant LightsSweep(cur, lanelets, regElem, stopLine, lights[k..], toVector, norm)
        == LightsSweep(st, lanelets, regElem, stopLine, lights, toVector, norm)
    {
      assert lights[k..][1..] == lights[k + 1..];
      var step := JudgeLight(cur, lanelets, regElem, stopLine, lights[k], toVector, norm);
      if step.Failure? {
        return Failure(step.error);
      }
      cur := step.value;
      k := k + 1;
    }
    assert lights[k..] == [];
    res := Success(cur);
  }

  /** The sweep over the regulatory-element layer. */
  method SweepRegElems(st: Sweep, lanelets: seq<Lanelet>, regElems: seq<RegulatoryElement>,
                       toVector: LineString3d -> Vec3, norm: Vec3 -> real)
    returns (res: Result<Sweep, Fault>)
    ensures res == RegElemsSweep(st, lanelets, regElems, toVector, norm)
  {
    var cur := st;
    var j := 0;
    while j < |regElems|
      invariant 0 <= j <= |regElems|
      invariant RegElemsSweep(cur, lanelets, regElems[j..], toVector, norm)
        == RegElemsSweep(st, lanelets, regElems, toVector, norm)
    {
      var regElem := regElems[j];
      assert regElems[j..][1..] == regElems[j + 1..];
      if "subtype" !in regElem.attributes {
        return Failure(NoSuchAttribute(regElem.id, "subtype"));
      }
      if regElem.attributes["subtype"] == TrafficLight {
        var found := GetStopLineFromRegElem(Some(regElem));
        var step := JudgeLights(cur, lanelets, regElem, found.value, regElem.refers, toVector, norm);
        if step.Failure? {
          return Failure(step.error);
        }
        cur := step.value;
      }
      j := j + 1;
    }
    assert regElems[j..] == [];
    res := Success(cur);
  }

  /** The decoding loop over the "correct" table, in ascending key order. */
  method DecodeTables(correct: map<int, bool>, wrong: map<int, bool>) returns (decoded: seq<FacingIssue>)
    ensures decoded == Decode(correct, wrong)
  {
    var remaining := correct.Keys;
    decoded := [];
    while remaining != {}
      invariant decoded + DecodeKeys(SortedKeys(remaining), correct, wrong) == Decode(correct, wrong)
      decreases |remaining|
    {
      MinExists(remaining);
      var id :| id in remaining && forall key :: key in remaining ==> id <= key;
      var verdict := DecodeLight(id, correct, wrong);
      DecodeSmallestFirst(remaining, id, correct, wrong);
      ghost var later := DecodeKeys(SortedKeys(remaining - {id}), correct, wrong);
      AppendAssociative(decoded, verdict, later);
      decoded := decoded + verdict;
      remaining := remaining - {id};
    }
    assert decoded + [] == decoded;
  }

  method CheckTrafficLightFacing(m: Map, toVector: LineString3d -> Vec3, norm: Vec3 -> real)
    returns (r: Result<seq<FacingIssue>, Fault>)
    ensures r == FacingIssues(m, toVector, norm)
  {
    var correct, wrong := SeedTables(m.lineStringLayer);
    var swept := SweepRegElems(Sweep(correct, wrong, []), m.laneletLayer, m.regulatoryElementLayer, toVector, norm);
    if swept.Failure? {
      return Failure(swept.error);
    }
    var decoded := DecodeTables(swept.value.correct, swept.value.wrong);
    r := Success(swept.value.issues + decoded);
  }
}

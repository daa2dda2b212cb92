/** What the traffic-light facing validator promises: how one light is
    judged, that judgments only accumulate, and what the final decoding
    reports for each light. */
module TrafficLightFacingProperties {
  import opened Wrappers
  import opened LaneletMap
  import opened TrafficLightFacing

  // ---- the starting edge ----

  /** The direction in which the stop line is drawn does not matter: swapping
      its end points yields the same edge points. */
  lemma StartingEdgeIgnoresReferenceDirection(lane: Lanelet, reference: LineString3d, reversed: LineString3d, norm: Vec3 -> real)
    requires HasEnds(lane.leftBound) && HasEnds(lane.rightBound) && HasEnds(reference) && HasEnds(reversed)
    requires FrontOf(reversed) == BackOf(reference) && BackOf(reversed) == FrontOf(reference)
    ensures GetStartingEdgeFromLanelet(lane, reversed, norm).points == GetStartingEdgeFromLanelet(lane, reference, norm).points
  {
    var r1, r2 := FrontOf(reference), BackOf(reference);
    forall a: Vec3, b: Vec3 ensures MatchCost(norm, r2, r1, a, b) == MatchCost(norm, r1, r2, a, b) {
      MatchCostSymmetric(norm, r1, r2, a, b);
    }
    assert FrontCost(norm, lane, reversed) == FrontCost(norm, lane, reference);
    assert BackCost(norm, lane, reversed) == BackCost(norm, lane, reference);
  }

  /** Matching (a, b) against the reference ends (r1, r2) is the same as
      matching it against (r2, r1). */
  lemma MatchCostSymmetric(norm: Vec3 -> real, r1: Vec3, r2: Vec3, a: Vec3, b: Vec3)
    ensures MatchCost(norm, r2, r1, a, b) == MatchCost(norm, r1, r2, a, b)
  {
    var p, q := norm(Sub(a, r1)) + norm(Sub(b, r2)), norm(Sub(b, r1)) + norm(Sub(a, r2));
    assert MatchCost(norm, r1, r2, a, b) == MinReal(p, q);
    assert MatchCost(norm, r2, r1, a, b) == MinReal(norm(Sub(b, r1)) + norm(Sub(a, r2)), norm(Sub(a, r1)) + norm(Sub(b, r2)));
  }

  // ---- judging one light ----

  /** Every divergence issue is a Warning about the light being judged, and
      there is at most one per compared lanelet. */
  lemma {:induction false} DivergentWarningsShape(lanes: seq<Lanelet>, from: nat, stopLine: LineString3d, lightId: int,
                                                  pseudo: Vec3, toVector: LineString3d -> Vec3, norm: Vec3 -> real)
    requires EdgesDefined(lanes, stopLine) && from <= |lanes|
    ensures |DivergentWarnings(lanes, from, stopLine, lightId, pseudo, toVector, norm)| <= |lanes| - from
    ensures forall k :: 0 <= k < |DivergentWarnings(lanes, from, stopLine, lightId, pseudo, toVector, norm)| ==>
      DivergentWarnings(lanes, from, stopLine, lightId, pseudo, toVector, norm)[k] == DivergentWarning(lightId)
    decreases |lanes| - from
  {
    if from < |lanes| {
      DivergentWarningsShape(lanes, from + 1, stopLine, lightId, pseudo, toVector, norm);
      var comparing := toVector(GetStartingEdgeFromLanelet(lanes[from], stopLine, norm));
      var head := if CosineNegative(pseudo, comparing) then [DivergentWarning(lightId)] else [];
      var rest := DivergentWarnings(lanes, from + 1, stopLine, lightId, pseudo, toVector, norm);
      assert DivergentWarnings(lanes, from, stopLine, lightId, pseudo, toVector, norm) == head + rest;
      forall k | 0 <= k < |head + rest| ensures (head + rest)[k] == DivergentWarning(lightId) {
        if k >= |head| {
          assert (head + rest)[k] == rest[k - |head|];
        }
      }
    }
  }

  /** Sibling `k` starts against the first referring lanelet: the cosine
      between their starting edges is negative. */
  predicate Diverges(lanes: seq<Lanelet>, k: nat, stopLine: LineString3d, pseudo: Vec3,
                     toVector: LineString3d -> Vec3, norm: Vec3 -> real)
    requires EdgesDefined(lanes, stopLine) && k < |lanes|
  {
    CosineNegative(pseudo, toVector(GetStartingEdgeFromLanelet(lanes[k], stopLine, norm)))
  }

  /** The siblings from index `from` on that diverge. */
  function DivergingSiblings(lanes: seq<Lanelet>, from: nat, stopLine: LineString3d, pseudo: Vec3,
                             toVector: LineString3d -> Vec3, norm: Vec3 -> real): set<nat>
    requires EdgesDefined(lanes, stopLine)
  {
    set k: nat | from <= k < |lanes| && Diverges(lanes, k, stopLine, pseudo, toVector, norm)
  }

  /** There is exactly one divergence Warning per diverging sibling. */
  lemma {:induction false} DivergentWarningsCount(lanes: seq<Lanelet>, from: nat, stopLine: LineString3d, lightId: int,
                                                  pseudo: Vec3, toVector: LineString3d -> Vec3, norm: Vec3 -> real)
    requires EdgesDefined(lanes, stopLine)
    ensures |DivergentWarnings(lanes, from, stopLine, lightId, pseudo, toVector, norm)|
      == |DivergingSiblings(lanes, from, stopLine, pseudo, toVector, norm)|
    decreases |lanes| - from
  {
    var all := DivergingSiblings(lanes, from, stopLine, pseudo, toVector, norm);
    if from < |lanes| {
      DivergentWarningsCount(lanes, from + 1, stopLine, lightId, pseudo, toVector, norm);
      var later := DivergingSiblings(lanes, from + 1, stopLine, pseudo, toVector, norm);
      var head: seq<FacingIssue> := if Diverges(lanes, from, stopLine, pseudo, toVector, norm) then [DivergentWarning(lightId)] else [];
      assert DivergentWarnings(lanes, from, stopLine, lightId, pseudo, toVector, norm)
        == head + DivergentWarnings(lanes, from + 1, stopLine, lightId, pseudo, toVector, norm);
      var b := Diverges(lanes, from, stopLine, pseudo, toVector, norm);
      forall k: nat ensures k in all <==> (b && k == from) || k in later {
      }
      SplitAtFirst(all, later, from, b);
    } else {
      assert all == {};
    }
  }

  /** A set of indices from `from` on is its part past `from`, plus `from`
      itself when `b` holds. */
  lemma SplitAtFirst(all: set<nat>, later: set<nat>, from: nat, b: bool)
    requires from !in later
    requires forall k: nat :: k in all <==> (b && k == from) || k in later
    ensures |all| == |later| + (if b then 1 else 0)
  {
    if b {
      assert all == later + {from};
    } else {
      assert all == later;
    }
  }

  /** No divergence Warning is raised iff no sibling diverges. */
  lemma DivergentWarningsEmpty(lanes: seq<Lanelet>, from: nat, stopLine: LineString3d, lightId: int,
                               pseudo: Vec3, toVector: LineString3d -> Vec3, norm: Vec3 -> real)
    requires EdgesDefined(lanes, stopLine)
    ensures DivergentWarnings(lanes, from, stopLine, lightId, pseudo, toVector, norm) == [] <==>
      forall k :: from <= k < |lanes| ==> !Diverges(lanes, k, stopLine, pseudo, toVector, norm)
  {
    DivergentWarningsCount(lanes, from, stopLine, lightId, pseudo, toVector, norm);
    var all := DivergingSiblings(lanes, from, stopLine, pseudo, toVector, norm);
    if exists k :: from <= k < |lanes| && Diverges(lanes, k, stopLine, pseudo, toVector, norm) {
      var k :| from <= k < |lanes| && Diverges(lanes, k, stopLine, pseudo, toVector, norm);
      assert k in all;
    }
  }

  /** A referred light whose element has no usable stop line reaches
      `front()` of an empty line string, which ends the run. */
  lemma StopLineMissingEndsRun(st: Sweep, lanelets: seq<Lanelet>, regElem: RegulatoryElement, stopLine: LineString3d,
                               light: LineString3d, toVector: LineString3d -> Vec3, norm: Vec3 -> real)
    requires IsRedYellowGreenTrafficLight(light) && |Referring(lanelets, regElem.id)| > 0 && !HasEnds(stopLine)
    ensures LightStep(st, lanelets, regElem, stopLine, light, toVector, norm) == Failure(EmptyLineStringAccess)
  {
  }

  /** A light that is not a red/yellow/green traffic light is skipped. */
  lemma OtherLineStringsAreSkipped(st: Sweep, lanelets: seq<Lanelet>, regElem: RegulatoryElement, stopLine: LineString3d,
                                   light: LineString3d, toVector: LineString3d -> Vec3, norm: Vec3 -> real)
    requires !IsRedYellowGreenTrafficLight(light)
    ensures LightStep(st, lanelets, regElem, stopLine, light, toVector, norm) == Success(st)
  {
  }

  /** A regulatory element whose subtype is not traffic_light is skipped;
      one without a subtype ends the run. */
  lemma OtherRegElemsAreSkipped(st: Sweep, lanelets: seq<Lanelet>, regElem: RegulatoryElement,
                                toVector: LineString3d -> Vec3, norm: Vec3 -> real)
    ensures "subtype" !in regElem.attributes ==>
      RegElemStep(st, lanelets, regElem, toVector, norm) == Failure(NoSuchAttribute(regElem.id, "subtype"))
    ensures "subtype" in regElem.attributes && regElem.attributes["subtype"] != TrafficLight ==>
      RegElemStep(st, lanelets, regElem, toVector, norm) == Success(st)
  {
  }

  /** A light whose regulatory element no lanelet refers to gets one Warning
      and no judgment. */
  lemma UnreferredLightIsWarnedOnly(st: Sweep, lanelets: seq<Lanelet>, regElem: RegulatoryElement, stopLine: LineString3d,
                                    light: LineString3d, toVector: LineString3d -> Vec3, norm: Vec3 -> real)
    requires IsRedYellowGreenTrafficLight(light)
    requires forall k :: 0 <= k < |lanelets| ==> regElem.id !in lanelets[k].regElemIds
    ensures LightStep(st, lanelets, regElem, stopLine, light, toVector, norm)
      == Success(Sweep(st.correct, st.wrong, st.issues + [UnreferredWarning(light.id)]))
  {
    NoReferencesNoLanelets(lanelets, regElem.id);
  }

  lemma {:induction false} NoReferencesNoLanelets(lanelets: seq<Lanelet>, target: int)
    requires forall k :: 0 <= k < |lanelets| ==> target !in lanelets[k].regElemIds
    ensures Referring(lanelets, target) == []
  {
    if lanelets != [] {
      RefCopiesAreRepeats(lanelets[0], lanelets[0].regElemIds, target);
      assert target !in multiset(lanelets[0].regElemIds);
      NoReferencesNoLanelets(lanelets[1..], target);
    }
  }

  /** A referred light gets exactly one judgment: "correct" when the first
      referring lanelet's starting edge and the light point the same way,
      "wrong" otherwise (a zero-length vector included). Only divergence
      Warnings about this light are added. */
  lemma ReferredLightIsJudgedOnce(st: Sweep, lanelets: seq<Lanelet>, regElem: RegulatoryElement, stopLine: LineString3d,
                                  light: LineString3d, toVector: LineString3d -> Vec3, norm: Vec3 -> real)
    requires IsRedYellowGreenTrafficLight(light)
    requires |Referring(lanelets, regElem.id)| > 0 && EdgesDefined(Referring(lanelets, regElem.id), stopLine)
    ensures var res := LightStep(st, lanelets, regElem, stopLine, light, toVector, norm);
      var lanes := Referring(lanelets, regElem.id);
      var pseudo := toVector(GetStartingEdgeFromLanelet(lanes[0], stopLine, norm));
      res.Success?
      && (CosinePositive(pseudo, toVector(light)) ==>
            res.value.correct == st.correct[light.id := true] && res.value.wrong == st.wrong)
      && (!CosinePositive(pseudo, toVector(light)) ==>
            res.value.correct == st.correct && res.value.wrong == st.wrong[light.id := true])
      && |res.value.issues| >= |st.issues| && res.value.issues[..|st.issues|] == st.issues
      && |res.value.issues| - |st.issues| == |DivergingSiblings(lanes, 1, stopLine, pseudo, toVector, norm)| < |lanes|
      && forall k :: |st.issues| <= k < |res.value.issues| ==> res.value.issues[k] == DivergentWarning(light.id)
  {
    var lanes := Referring(lanelets, regElem.id);
    var pseudo := toVector(GetStartingEdgeFromLanelet(lanes[0], stopLine, norm));
    DivergentWarningsShape(lanes, 1, stopLine, light.id, pseudo, toVector, norm);
    DivergentWarningsCount(lanes, 1, stopLine, light.id, pseudo, toVector, norm);
    var ws := DivergentWarnings(lanes, 1, stopLine, light.id, pseudo, toVector, norm);
    assert (st.issues + ws)[..|st.issues|] == st.issues;
  }

  /** A light whose direction vector is zero is never judged correct (the
      cosine is NaN). */
  lemma ZeroLightIsJudgedWrong(st: Sweep, lanelets: seq<Lanelet>, regElem: RegulatoryElement, stopLine: LineString3d,
                               light: LineString3d, toVector: LineString3d -> Vec3, norm: Vec3 -> real)
    requires IsRedYellowGreenTrafficLight(light) && toVector(light) == Zero
    requires |Referring(lanelets, regElem.id)| > 0 && EdgesDefined(Referring(lanelets, regElem.id), stopLine)
    ensures var res := LightStep(st, lanelets, regElem, stopLine, light, toVector, norm);
      res.Success? && res.value.correct == st.correct && Lookup(res.value.wrong, light.id)
  {
  }

  // ---- judgments only accumulate ----

  /** `after` keeps every flag `before` raised, and extends its issues. */
  predicate Extends(before: Sweep, after: Sweep) {
    (forall id :: id in before.correct && before.correct[id] ==> Lookup(after.correct, id))
    && (forall id :: id in before.wrong && before.wrong[id] ==> Lookup(after.wrong, id))
    && (forall id :: id in before.correct ==> id in after.correct)
    && |before.issues| <= |after.issues| && after.issues[..|before.issues|] == before.issues
  }

  lemma ExtendsTransitive(a: Sweep, b: Sweep, c: Sweep)
    requires Extends(a, b) && Extends(b, c)
    ensures Extends(a, c)
  {
    assert c.issues[..|a.issues|] == c.issues[..|b.issues|][..|a.issues|];
  }

  lemma LightStepExtends(st: Sweep, lanelets: seq<Lanelet>, regElem: RegulatoryElement, stopLine: LineString3d,
                         light: LineString3d, toVector: LineString3d -> Vec3, norm: Vec3 -> real)
    ensures var res := LightStep(st, lanelets, regElem, stopLine, light, toVector, norm);
      res.Success? ==> Extends(st, res.value)
  {
    var lanes := Referring(lanelets, regElem.id);
    if IsRedYellowGreenTrafficLight(light) && |lanes| > 0 && EdgesDefined(lanes, stopLine) {
      ReferredLightIsJudgedOnce(st, lanelets, regElem, stopLine, light, toVector, norm);
    } else if IsRedYellowGreenTrafficLight(light) && |lanes| == 0 {
      assert (st.issues + [UnreferredWarning(light.id)])[..|st.issues|] == st.issues;
    }
  }

  lemma {:induction false} LightsSweepExtends(st: Sweep, lanelets: seq<Lanelet>, regElem: RegulatoryElement, stopLine: LineString3d,
                                              lights: seq<LineString3d>, toVector: LineString3d -> Vec3, norm: Vec3 -> real)
    ensures var res := LightsSweep(st, lanelets, regElem, stopLine, lights, toVector, norm);
      res.Success? ==> Extends(st, res.value)
    decreases |lights|
  {
    if lights != [] {
      var step := LightStep(st, lanelets, regElem, stopLine, lights[0], toVector, norm);
      if step.Success? {
        LightStepExtends(st, lanelets, regElem, stopLine, lights[0], toVector, norm);
        LightsSweepExtends(step.value, lanelets, regElem, stopLine, lights[1..], toVector, norm);
        var res := LightsSweep(step.value, lanelets, regElem, stopLine, lights[1..], toVector, norm);
        if res.Success? {
          ExtendsTransitive(st, step.value, res.value);
        }
      }
    } else {
      assert st.issues[..|st.issues|] == st.issues;
    }
  }

  /** The sweep only raises flags and appends issues: no judgment made for
      one regulatory element is undone by a later one. */
  lemma {:induction false} RegElemsSweepExtends(st: Sweep, lanelets: seq<Lanelet>, regElems: seq<RegulatoryElement>,
                                                toVector: LineString3d -> Vec3, norm: Vec3 -> real)
    ensures var res := RegElemsSweep(st, lanelets, regElems, toVector, norm);
      res.Success? ==> Extends(st, res.value)
    decreases |regElems|
  {
    if regElems != [] {
      var regElem := regElems[0];
      var step := RegElemStep(st, lanelets, regElem, toVector, norm);
      if step.Success? {
        if "subtype" in regElem.attributes && regElem.attributes["subtype"] == TrafficLight {
          LightsSweepExtends(st, lanelets, regElem, StopLineOf(regElem), regElem.refers, toVector, norm);
        } else {
          assert st.issues[..|st.issues|] == st.issues;
        }
        RegElemsSweepExtends(step.value, lanelets, regElems[1..], toVector, norm);
        var res := RegElemsSweep(step.value, lanelets, regElems[1..], toVector, norm);
        if res.Success? {
          ExtendsTransitive(st, step.value, res.value);
        }
      }
    } else {
      assert st.issues[..|st.issues|] == st.issues;
    }
  }

  // ---- lights no traffic-light element refers to ----

  /** Some traffic-light regulatory element refers to a red/yellow/green
      light with this id. */
  predicate Referred(regElems: seq<RegulatoryElement>, id: int) {
    exists j, k :: 0 <= j < |regElems| && 0 <= k < |regElems[j].refers|
      && AttributeIs(regElems[j].attributes, "subtype", TrafficLight)
      && IsRedYellowGreenTrafficLight(regElems[j].refers[k]) && regElems[j].refers[k].id == id
  }

  /** The flags of `id` are as they were. */
  predicate SameFlags(before: Sweep, after: Sweep, id: int) {
    (id in before.correct <==> id in after.correct)
    && Lookup(before.correct, id) == Lookup(after.correct, id)
    && Lookup(before.wrong, id) == Lookup(after.wrong, id)
  }

  lemma {:induction false} LightsSweepLeavesOthers(st: Sweep, lanelets: seq<Lanelet>, regElem: RegulatoryElement, stopLine: LineString3d,
                                                   lights: seq<LineString3d>, toVector: LineString3d -> Vec3, norm: Vec3 -> real, id: int)
    requires forall k :: 0 <= k < |lights| && IsRedYellowGreenTrafficLight(lights[k]) ==> lights[k].id != id
    ensures var res := LightsSweep(st, lanelets, regElem, stopLine, lights, toVector, norm);
      res.Success? ==> SameFlags(st, res.value, id)
    decreases |lights|
  {
    if lights != [] {
      var step := LightStep(st, lanelets, regElem, stopLine, lights[0], toVector, norm);
      if step.Success? {
        assert SameFlags(st, step.value, id);
        LightsSweepLeavesOthers(step.value, lanelets, regElem, stopLine, lights[1..], toVector, norm, id);
      }
    }
  }

  lemma {:induction false} RegElemsSweepLeavesOthers(st: Sweep, lanelets: seq<Lanelet>, regElems: seq<RegulatoryElement>,
                                                     toVector: LineString3d -> Vec3, norm: Vec3 -> real, id: int)
    requires !Referred(regElems, id)
    ensures var res := RegElemsSweep(st, lanelets, regElems, toVector, norm);
      res.Success? ==> SameFlags(st, res.value, id)
    decreases |regElems|
  {
    if regElems != [] {
      var regElem := regElems[0];
      var step := RegElemStep(st, lanelets, regElem, toVector, norm);
      if step.Success? {
        if "subtype" in regElem.attributes && regElem.attributes["subtype"] == TrafficLight {
          forall k | 0 <= k < |regElem.refers| && IsRedYellowGreenTrafficLight(regElem.refers[k])
            ensures regElem.refers[k].id != id
          {
            if regElem.refers[k].id == id {
              assert AttributeIs(regElems[0].attributes, "subtype", TrafficLight);
              assert Referred(regElems, id);
            }
          }
          LightsSweepLeavesOthers(st, lanelets, regElem, StopLineOf(regElem), regElem.refers, toVector, norm, id);
        }
        RegElemsSweepLeavesOthers(step.value, lanelets, regElems[1..], toVector, norm, id);
      }
    }
  }

  // ---- the decoding ----

  lemma {:induction false} DecodeKeysMembers(keys: seq<int>, correct: map<int, bool>, wrong: map<int, bool>, issue: FacingIssue)
    ensures issue in DecodeKeys(keys, correct, wrong) <==> issue.id in keys && issue in DecodeLight(issue.id, correct, wrong)
  {
    if keys != [] {
      DecodeKeysMembers(keys[1..], correct, wrong, issue);
      assert keys == [keys[0]] + keys[1..];
    }
  }

  /** The decoded issues are exactly the verdicts of the ids in the
      "correct" table. */
  lemma DecodeMembers(correct: map<int, bool>, wrong: map<int, bool>, issue: FacingIssue)
    ensures issue in Decode(correct, wrong) <==> issue.id in correct && issue in DecodeLight(issue.id, correct, wrong)
  {
    DecodeKeysMembers(SortedKeys(correct.Keys), correct, wrong, issue);
  }

  lemma {:induction false} DecodeKeysAscending(keys: seq<int>, correct: map<int, bool>, wrong: map<int, bool>)
    requires forall i, j :: 0 <= i < j < |keys| ==> keys[i] < keys[j]
    ensures forall k :: 0 <= k < |DecodeKeys(keys, correct, wrong)| ==> DecodeKeys(keys, correct, wrong)[k].id in keys
    ensures forall i, j :: 0 <= i < j < |DecodeKeys(keys, correct, wrong)| ==>
      DecodeKeys(keys, correct, wrong)[i].id < DecodeKeys(keys, correct, wrong)[j].id
  {
    if keys != [] {
      var tail := keys[1..];
      DecodeKeysAscending(tail, correct, wrong);
      var head := DecodeLight(keys[0], correct, wrong);
      var rest := DecodeKeys(tail, correct, wrong);
      assert forall t :: 0 <= t < |rest| ==> rest[t].id in tail;
      var r := head + rest;
      assert DecodeKeys(keys, correct, wrong) == r;
      forall i, j | 0 <= i < j < |r| ensures r[i].id < r[j].id {
        if j >= |head| {
          var t := j - |head|;
          assert r[j] == rest[t];
          assert rest[t].id in tail;
          if i < |head| {
            var q :| 0 <= q < |tail| && tail[q] == r[j].id;
            assert keys[q + 1] == r[j].id;
          } else {
            assert r[i] == rest[i - |head|];
          }
        }
      }
      forall k | 0 <= k < |r| ensures r[k].id in keys {
        if k >= |head| {
          assert r[k] == rest[k - |head|];
        }
      }
    }
  }

  /** The verdicts come in ascending light id order, so at most one issue per
      light. */
  lemma DecodeAscending(correct: map<int, bool>, wrong: map<int, bool>)
    ensures var r := Decode(correct, wrong);
      forall i, j :: 0 <= i < j < |r| ==> r[i].id < r[j].id
  {
    DecodeKeysAscending(SortedKeys(correct.Keys), correct, wrong);
  }

  // ---- the whole validator ----

  /** A red/yellow/green light of the map that no traffic-light regulatory
      element refers to is reported as an Error, once a run completes. */
  lemma UnreferredLightIsReported(m: Map, toVector: LineString3d -> Vec3, norm: Vec3 -> real, k: nat)
    requires k < |m.lineStringLayer| && IsRedYellowGreenTrafficLight(m.lineStringLayer[k])
    requires !Referred(m.regulatoryElementLayer, m.lineStringLayer[k].id)
    requires FacingIssues(m, toVector, norm).Success?
    ensures Issue(Error, PrimLineString, m.lineStringLayer[k].id, NeverJudged) in FacingIssues(m, toVector, norm).value
  {
    var id := m.lineStringLayer[k].id;
    var seed := SeedFlags(m.lineStringLayer);
    SeedFlagsContents(m.lineStringLayer);
    var start := Sweep(seed, seed, []);
    RegElemsSweepLeavesOthers(start, m.laneletLayer, m.regulatoryElementLayer, toVector, norm, id);
    var st := RegElemsSweep(start, m.laneletLayer, m.regulatoryElementLayer, toVector, norm).value;
    var issue := Issue(Error, PrimLineString, id, NeverJudged);
    assert DecodeLight(id, st.correct, st.wrong) == [issue];
    DecodeMembers(st.correct, st.wrong, issue);
    assert issue in st.issues + Decode(st.correct, st.wrong);
  }

  /** A completed run reports the sweep's Warnings first, then one verdict
      per light in ascending id order; every light of the map has a seeded
      entry, so every light gets a verdict unless judged correct only. */
  lemma EveryMapLightHasAVerdict(m: Map, toVector: LineString3d -> Vec3, norm: Vec3 -> real, k: nat)
    requires k < |m.lineStringLayer| && IsRedYellowGreenTrafficLight(m.lineStringLayer[k])
    requires FacingIssues(m, toVector, norm).Success?
    ensures var seed := SeedFlags(m.lineStringLayer);
      var st := RegElemsSweep(Sweep(seed, seed, []), m.laneletLayer, m.regulatoryElementLayer, toVector, norm).value;
      forall issue :: issue in DecodeLight(m.lineStringLayer[k].id, st.correct, st.wrong) ==>
        issue in FacingIssues(m, toVector, norm).value
  {
    var id := m.lineStringLayer[k].id;
    var seed := SeedFlags(m.lineStringLayer);
    SeedFlagsContents(m.lineStringLayer);
    var start := Sweep(seed, seed, []);
    RegElemsSweepExtends(start, m.laneletLayer, m.regulatoryElementLayer, toVector, norm);
    var st := RegElemsSweep(start, m.laneletLayer, m.regulatoryElementLayer, toVector, norm).value;
    assert id in st.correct;
    forall issue | issue in DecodeLight(id, st.correct, st.wrong)
      ensures issue in FacingIssues(m, toVector, norm).value
    {
      DecodeMembers(st.correct, st.wrong, issue);
      assert issue in st.issues + Decode(st.correct, st.wrong);
    }
  }
}

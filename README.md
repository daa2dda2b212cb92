# autoware_tools map validators and centerline helpers, in Dafny

This project models the brains of two autoware_tools packages. The ROS,
lanelet2 and file I/O around them is left out.

- **Lanelet2 map validator**:
  - `snake_to_upper_camel`, which turns a validator name into UpperCamelCase (`snake_case.dfy`);
  - `get_linestring_midpoint_2d` (`midpoint.dfy`);
  - the turn-direction tagging validator (`turn_direction_tagging.dfy`);
  - the traffic-light facing validator (`traffic_light_facing.dfy`, with its properties in `traffic_light_facing_properties.dfy`).
  - The lanelet2 primitives are plain records in `lanelet_map.dfy`: line strings, polygons, lanelets, regulatory elements, attributes and issues. Layers are sequences in layer order.
  - `Fault` holds the exceptions and undefined behaviour that end a validator run.
- **Static centerline generator**:
  - hex colours and the marker-colour lookup (`centerline_color.dfy`);
  - the route connectivity check, both `convert_to_geometry_points_vector` overloads, and the first-appearance lane-id order with its bound maps (`centerline_points.dfy`);
  - the lane-id assignment walk of `connect_centerline_to_lanelet` over the centerline handler, and the per-lanelet grouping walk of `on_plan_path` (`centerline_walks.dfy`).
  - `std::out_of_range` from `at()` is `Failure(OutOfRange)`.

Source loops stay loops. Each loop is a method proved equal to a
specification function, and lemmas prove the properties of that function.

Each external query becomes a function parameter:
- the lanelet layer's spatial `search`;
- `linestring_to_vector3d` (`toVector`);
- the Eigen norm (`norm`);
- the route handler's `getNextLanelets` (`next`);
- `getLaneletsFromId` (`laneletOf`);
- `lanelet::geometry::inside` (`inside(laneletIndex, pointIndex)`).

Some details:

- **The facing validator's cosine tests** are sign tests on the dot product.
  - "cosine > 0" requires both vectors non-zero, because a zero vector makes the cosine NaN and every comparison false. A zero light vector therefore takes the "wrong" branch, and a zero sibling edge raises no divergence Warning.
  - The flag tables are `map<int, bool>`. Writing `table[id] = true` inserts the key when it is absent, as `std::map::operator[]` does.
  - Decoding visits the keys of the "correct" table in ascending order.
- **The turn-direction test**: `lanelet_is_within_bbox_2d` is true only when *no* bound point lies in the box, and the model keeps that. When the `turn_direction` tag is missing, the issue is recorded and then `attribute()` throws at line 76; see "Findings".
- **The connectivity check** is also defined for an empty route. There `size() - 1` wraps around, and the first `at(0)` throws.

## Model

| member | source | states |
|---|---|---|
| SnakeCase.ToUpper | map/autoware_lanelet2_map_validator/src/common/utils.cpp:28 | `toupper` in the C locale lowers 'a'..'z' by 32 and leaves every other char alone; its result is never a lower-case letter |
| SnakeCase.SnakeToUpperCamel | map/autoware_lanelet2_map_validator/src/common/utils.cpp:19-33 | the loop with its `capitalize_next` flag returns `UpperCamel` of the input |
| SnakeCase.UpperCamelIsMarkedThenDropped | map/autoware_lanelet2_map_validator/src/common/utils.cpp:22-30 | the output is the input with the first char and every char after an underscore upper-cased, then every underscore dropped; other chars keep their order and value |
| SnakeCase.UpperCamelHasNoUnderscore | map/autoware_lanelet2_map_validator/src/common/utils.cpp:24-27 | the output contains no underscore |
| SnakeCase.UpperCamelLength | map/autoware_lanelet2_map_validator/src/common/utils.cpp:24-31 | output length = input length minus the number of underscores |
| SnakeCase.OnlyUnderscoresGiveEmpty | map/autoware_lanelet2_map_validator/src/common/utils.cpp:21-32 | an input made only of underscores, the empty one included, gives the empty string |
| SnakeCase.UnderscoreRunCollapses | map/autoware_lanelet2_map_validator/src/common/utils.cpp:25-26 | two underscores in a row act like one |
| SnakeCase.CamelOfPlainWord | map/autoware_lanelet2_map_validator/src/common/utils.cpp:24-30 | a word without underscores comes back with only its first char possibly upper-cased |
| SnakeCase.FirstOutputIsUpper | map/autoware_lanelet2_map_validator/src/common/utils.cpp:22-28 | the first output char is already upper case |
| SnakeCase.UpperCamelIdempotent | map/autoware_lanelet2_map_validator/src/common/utils.cpp:19-33 | converting twice equals converting once |
| Midpoint.GetLinestringMidpoint2d | map/autoware_lanelet2_map_validator/src/lib/utils.cpp:28-44 | fails with the line string's id iff it has fewer than two points; otherwise id 0, with its x and y halfway between the first and last point |
| Midpoint.MidpointDependsOnlyOnEnds | map/autoware_lanelet2_map_validator/src/lib/utils.cpp:37-41 | interior points and z coordinates do not affect the result |
| Midpoint.MidpointOfReversed | map/autoware_lanelet2_map_validator/src/lib/utils.cpp:40-41 | reversing the points gives the same result |
| Midpoint.MidpointOfClosedLineString | map/autoware_lanelet2_map_validator/src/lib/utils.cpp:40-43 | when the ends coincide in x and y, the midpoint is that point, with id 0 |
| TurnDirectionTagging.BoundingBoxHoldsPoints | map/autoware_lanelet2_map_validator/src/validators/intersection/turn_direction_tagging.cpp:59-60 | the polygon's bounding box contains every one of its points |
| TurnDirectionTagging.LaneletIsWithinBbox2d | map/autoware_lanelet2_map_validator/src/validators/intersection/turn_direction_tagging.cpp:89-103 | returns true iff no left-bound and no right-bound point lies in the box |
| TurnDirectionTagging.CheckTurnDirectionTagging | map/autoware_lanelet2_map_validator/src/validators/intersection/turn_direction_tagging.cpp:46-87 | the nested loops return `TaggingIssues` of the polygon layer, or the fault that ends the run |
| TurnDirectionTagging.OtherPolygonsAreSkipped | map/autoware_lanelet2_map_validator/src/validators/intersection/turn_direction_tagging.cpp:52-57 | a polygon whose type is missing or is not intersection_area contributes no issue |
| TurnDirectionTagging.SkippedOrValidLaneletHasNoIssue | map/autoware_lanelet2_map_validator/src/validators/intersection/turn_direction_tagging.cpp:63-77 | a lanelet failing the box test, or tagged left, straight or right, contributes no issue |
| TurnDirectionTagging.InvalidTagGivesOneCodeTwoError | map/autoware_lanelet2_map_validator/src/validators/intersection/turn_direction_tagging.cpp:76-82 | a tag outside the set gives exactly one issue: an Error on the lanelet with its id and code 2, whose text contains the value |
| TurnDirectionTagging.TaggingIssuesConcat | map/autoware_lanelet2_map_validator/src/validators/intersection/turn_direction_tagging.cpp:52-84 | issues are ordered by polygon: the run over two batches of polygons is the first batch's run followed by the second's |
| TurnDirectionTagging.LaneletsIssuesAreCodeTwo | map/autoware_lanelet2_map_validator/src/validators/intersection/turn_direction_tagging.cpp:63-83 | every issue of a completed lanelet loop is a code-2 Error on a lanelet |
| TurnDirectionTagging.CodeOneNeverReturned | map/autoware_lanelet2_map_validator/src/validators/intersection/turn_direction_tagging.cpp:69-76 | as written, no completed run returns a code-1 issue |
| TurnDirectionTagging.MissingTagAbortsLanelets | map/autoware_lanelet2_map_validator/src/validators/intersection/turn_direction_tagging.cpp:69-76 | an untagged lanelet that passes the box test makes the lanelet loop fail |
| TurnDirectionTagging.MissingTagAbortsRun | map/autoware_lanelet2_map_validator/src/validators/intersection/turn_direction_tagging.cpp:52-76 | such a lanelet under any intersection area makes the whole run fail |
| TurnDirectionTagging.MissingTagExample | map/autoware_lanelet2_map_validator/src/validators/intersection/turn_direction_tagging.cpp:69-76 | a concrete map, with a one-polygon layer and a search that returns the one untagged lanelet for every query box the lanelet's own box meets; the lanelet crosses the area's box with no bound point inside it, and the run ends in `NoSuchAttribute(10, "turn_direction")` |
| TurnDirectionTagging.IntendedLaneletVerdict | map/autoware_lanelet2_map_validator/src/validators/intersection/turn_direction_tagging.cpp:65-82 | corrected lanelet check: a skipped lanelet gives nothing; a missing tag gives exactly the code-1 Error; a present tag gives nothing iff it is in the set |
| TurnDirectionTagging.IntendedIssuesAreLaneletErrors | map/autoware_lanelet2_map_validator/src/validators/intersection/turn_direction_tagging.cpp:52-83 | every issue of the corrected validator is an Error on a lanelet |
| TurnDirectionTagging.IntendedReportsMissingTag | map/autoware_lanelet2_map_validator/src/validators/intersection/turn_direction_tagging.cpp:69-74 | the corrected validator reports every untagged lanelet that passes the box test |
| TurnDirectionTagging.IntendedAgreesWhereSourceCompletes | map/autoware_lanelet2_map_validator/src/validators/intersection/turn_direction_tagging.cpp:52-86 | wherever the code as written completes, it returns exactly what the corrected validator returns |
| TrafficLightFacing.CosineSignIsDotSign | map/autoware_lanelet2_map_validator/src/validators/traffic_light/traffic_light_facing.cpp:182-195 | the cosine is positive (negative) iff the dot product is, NaN cases included |
| TrafficLightFacing.IsRedYellowGreenTrafficLight | map/autoware_lanelet2_map_validator/src/validators/traffic_light/traffic_light_facing.cpp:74-83 | true iff type is present and equals traffic_light, and subtype is present and equals red_yellow_green |
| TrafficLightFacing.FirstStopLine | map/autoware_lanelet2_map_validator/src/validators/traffic_light/traffic_light_facing.cpp:59-68 | the index of the first RefLine typed stop_line; none iff no RefLine is one |
| TrafficLightFacing.GetStopLineFromRegElem | map/autoware_lanelet2_map_validator/src/validators/traffic_light/traffic_light_facing.cpp:51-72 | a null element fails; otherwise it returns the first stop line, or the empty line string when there is none |
| TrafficLightFacing.GetStartingEdgeFromLanelet | map/autoware_lanelet2_map_validator/src/validators/traffic_light/traffic_light_facing.cpp:85-114 | a two-point edge with the reference's id, in (left, right) order; the front pair iff its best matching is no costlier than the back pair's, ties going to front; its cost is the smaller one |
| TrafficLightFacingProperties.StartingEdgeIgnoresReferenceDirection | map/autoware_lanelet2_map_validator/src/validators/traffic_light/traffic_light_facing.cpp:97-105 | reversing the stop line picks the same edge |
| TrafficLightFacing.CollectReferringLanelets | map/autoware_lanelet2_map_validator/src/validators/traffic_light/traffic_light_facing.cpp:116-128 | the nested loops return `Referring`: lanelets in layer order, one entry per matching reference |
| TrafficLightFacing.RefCopiesAreRepeats | map/autoware_lanelet2_map_validator/src/validators/traffic_light/traffic_light_facing.cpp:121-125 | a lanelet appears as often as its reference list names the target |
| TrafficLightFacing.ReferringMembers | map/autoware_lanelet2_map_validator/src/validators/traffic_light/traffic_light_facing.cpp:116-128 | a lanelet is collected iff it is in the layer and refers to the target |
| TrafficLightFacing.ReferringConcat | map/autoware_lanelet2_map_validator/src/validators/traffic_light/traffic_light_facing.cpp:120-126 | collection distributes over concatenated layers, keeping layer order |
| TrafficLightFacing.SeedFlagsContents | map/autoware_lanelet2_map_validator/src/validators/traffic_light/traffic_light_facing.cpp:139-145 | the seeded table maps exactly the ids of the red/yellow/green lights, all to false |
| TrafficLightFacing.SeedTables | map/autoware_lanelet2_map_validator/src/validators/traffic_light/traffic_light_facing.cpp:136-145 | the seeding loop builds both tables as `SeedFlags` |
| TrafficLightFacing.CompareSiblings | map/autoware_lanelet2_map_validator/src/validators/traffic_light/traffic_light_facing.cpp:179-190 | the sibling loop returns `DivergentWarnings` from sibling 1 on |
| TrafficLightFacingProperties.DivergentWarningsShape | map/autoware_lanelet2_map_validator/src/validators/traffic_light/traffic_light_facing.cpp:179-190 | at most one Warning per sibling, each the divergent-start Warning on the light |
| TrafficLightFacingProperties.DivergentWarningsCount | map/autoware_lanelet2_map_validator/src/validators/traffic_light/traffic_light_facing.cpp:179-190 | exactly one divergence Warning per sibling whose starting edge has a negative cosine with the first lanelet's |
| TrafficLightFacingProperties.DivergentWarningsEmpty | map/autoware_lanelet2_map_validator/src/validators/traffic_light/traffic_light_facing.cpp:179-190 | no divergence Warning iff no sibling's starting edge has a negative cosine with the first lanelet's |
| TrafficLightFacingProperties.StopLineMissingEndsRun | map/autoware_lanelet2_map_validator/src/validators/traffic_light/traffic_light_facing.cpp:155-171 | a referred red/yellow/green light whose element has no stop line ends the run with `EmptyLineStringAccess`, the source's `front()` on an empty line string |
| TrafficLightFacing.JudgeLight | map/autoware_lanelet2_map_validator/src/validators/traffic_light/traffic_light_facing.cpp:157-206 | one referred line string changes the sweep state as `LightStep` |
| TrafficLightFacing.JudgeLights | map/autoware_lanelet2_map_validator/src/validators/traffic_light/traffic_light_facing.cpp:157-207 | the loop over an element's referred line strings computes `LightsSweep` |
| TrafficLightFacing.SweepRegElems | map/autoware_lanelet2_map_validator/src/validators/traffic_light/traffic_light_facing.cpp:147-208 | the loop over regulatory elements computes `RegElemsSweep` |
| TrafficLightFacingProperties.OtherRegElemsAreSkipped | map/autoware_lanelet2_map_validator/src/validators/traffic_light/traffic_light_facing.cpp:148-152 | a missing subtype ends the run with `NoSuchAttribute`; a subtype other than traffic_light changes nothing |
| TrafficLightFacingProperties.OtherLineStringsAreSkipped | map/autoware_lanelet2_map_validator/src/validators/traffic_light/traffic_light_facing.cpp:159-161 | a referred line string that is not a red/yellow/green light changes nothing |
| TrafficLightFacingProperties.UnreferredLightIsWarnedOnly | map/autoware_lanelet2_map_validator/src/validators/traffic_light/traffic_light_facing.cpp:200-205 | with no referring lanelet, one Warning is appended and no flag changes |
| TrafficLightFacingProperties.ReferredLightIsJudgedOnce | map/autoware_lanelet2_map_validator/src/validators/traffic_light/traffic_light_facing.cpp:167-199 | with referring lanelets, exactly one flag is set (correct iff the cosine is positive), and only divergence Warnings are appended, fewer than the lanelets: one per diverging sibling |
| TrafficLightFacingProperties.ZeroLightIsJudgedWrong | map/autoware_lanelet2_map_validator/src/validators/traffic_light/traffic_light_facing.cpp:191-198 | a zero light vector (NaN cosine) is always judged wrong |
| TrafficLightFacingProperties.LightStepExtends | map/autoware_lanelet2_map_validator/src/validators/traffic_light/traffic_light_facing.cpp:191-205 | one step keeps every raised flag and only appends issues |
| TrafficLightFacingProperties.LightsSweepExtends | map/autoware_lanelet2_map_validator/src/validators/traffic_light/traffic_light_facing.cpp:157-207 | so does the loop over one element's line strings |
| TrafficLightFacingProperties.RegElemsSweepExtends | map/autoware_lanelet2_map_validator/src/validators/traffic_light/traffic_light_facing.cpp:147-208 | so does the whole sweep: flags only move from false to true |
| TrafficLightFacingProperties.LightsSweepLeavesOthers | map/autoware_lanelet2_map_validator/src/validators/traffic_light/traffic_light_facing.cpp:157-207 | a light id among none of the referred lights keeps its flags and table membership |
| TrafficLightFacingProperties.RegElemsSweepLeavesOthers | map/autoware_lanelet2_map_validator/src/validators/traffic_light/traffic_light_facing.cpp:147-208 | a light no traffic-light element refers to keeps its flags through the sweep |
| TrafficLightFacing.DecodeLight | map/autoware_lanelet2_map_validator/src/validators/traffic_light/traffic_light_facing.cpp:219-231 | at most one issue on the light; none iff only the correct flag is set; never judged either way gives the "never judged" Error, judged only wrong gives the "wrong direction" Error, and judged both ways gives the Warning |
| TrafficLightFacing.SortedKeys | map/autoware_lanelet2_map_validator/src/validators/traffic_light/traffic_light_facing.cpp:216 | the keys of the correct table, each once, strictly ascending (std::map order) |
| TrafficLightFacing.DecodeTables | map/autoware_lanelet2_map_validator/src/validators/traffic_light/traffic_light_facing.cpp:216-232 | the decode loop returns `Decode` of the two tables |
| TrafficLightFacingProperties.DecodeMembers | map/autoware_lanelet2_map_validator/src/validators/traffic_light/traffic_light_facing.cpp:216-231 | an issue is decoded iff its id is a key of the correct table and it is that light's verdict |
| TrafficLightFacingProperties.DecodeAscending | map/autoware_lanelet2_map_validator/src/validators/traffic_light/traffic_light_facing.cpp:216-231 | decoded issues come in strictly ascending id order |
| TrafficLightFacing.CheckTrafficLightFacing | map/autoware_lanelet2_map_validator/src/validators/traffic_light/traffic_light_facing.cpp:130-235 | the whole validator returns `FacingIssues`: sweep issues, then decoded verdicts, or the fault that ends the run |
| TrafficLightFacingProperties.UnreferredLightIsReported | map/autoware_lanelet2_map_validator/src/validators/traffic_light/traffic_light_facing.cpp:139-222 | a map light no traffic-light element refers to is reported as an Error, once a run completes |
| TrafficLightFacingProperties.EveryMapLightHasAVerdict | map/autoware_lanelet2_map_validator/src/validators/traffic_light/traffic_light_facing.cpp:136-231 | every map light's verdict appears in a completed run's result |
| CenterlineColor.HexChannels | planning/autoware_static_centerline_generator/src/static_centerline_generator_node.cpp:128-131 | the unsigned steps give b = v mod 256, g = (v div 256) mod 256 and r = v div 65536 |
| CenterlineColor.ChannelsRecombine | planning/autoware_static_centerline_generator/src/static_centerline_generator_node.cpp:128-131 | r * 65536 + g * 256 + b = v for every v |
| CenterlineColor.ChannelsAreBytes | planning/autoware_static_centerline_generator/src/static_centerline_generator_node.cpp:128-131 | for v <= 0xFFFFFF every channel is below 256 |
| CenterlineColor.ConvertHexToDecimal | planning/autoware_static_centerline_generator/src/static_centerline_generator_node.cpp:128-133 | each colour channel is the matching digit pair of v over 255.0 |
| CenterlineColor.ColorInUnitCube | planning/autoware_static_centerline_generator/src/static_centerline_generator_node.cpp:128-133 | a six-digit colour has every channel in [0, 1] |
| CenterlineColor.FirstThresholdAbove | planning/autoware_static_centerline_generator/src/static_centerline_generator_node.cpp:731-736 | the first index with dist < threshold; none iff dist is at or above every threshold |
| CenterlineColor.GetMarkerColor | planning/autoware_static_centerline_generator/src/static_centerline_generator_node.cpp:730-738 | the loop returns the first matching threshold's colour, none, or `OutOfRange` when the colour list is too short at that index |
| CenterlineColor.AscendingThresholdsPickTheBand | planning/autoware_static_centerline_generator/src/static_centerline_generator_node.cpp:731-736 | with ascending thresholds, the chosen index is the band dist lies in |
| CenterlinePoints.CheckLaneletConnection | planning/autoware_static_centerline_generator/src/static_centerline_generator_node.cpp:136-154 | an empty route fails with `OutOfRange`; otherwise the loop returns `Unconnected` |
| CenterlinePoints.UnconnectedMembers | planning/autoware_static_centerline_generator/src/static_centerline_generator_node.cpp:141-150 | an id is reported iff it is some route[i] (i < n - 1) whose successors lack route[i + 1] |
| CenterlinePoints.UnconnectedEmptyIffConnected | planning/autoware_static_centerline_generator/src/static_centerline_generator_node.cpp:141-150 | nothing is reported iff every consecutive pair is connected |
| CenterlinePoints.UnconnectedFromLength | planning/autoware_static_centerline_generator/src/static_centerline_generator_node.cpp:141-150 | at most one id per consecutive pair |
| CenterlinePoints.ConvertByMapOrder | planning/autoware_static_centerline_generator/src/static_centerline_generator_node.cpp:174-190 | `OutOfRange` iff some listed id has no entry; otherwise one group per listed id, in order, holding that id's points, in order, with z = 0 |
| CenterlinePoints.MapOrderConcat | planning/autoware_static_centerline_generator/src/static_centerline_generator_node.cpp:179-187 | the groups for a concatenated order are the groups of its parts |
| CenterlinePoints.SplitIntoRuns | planning/autoware_static_centerline_generator/src/static_centerline_generator_node.cpp:192-212 | `OutOfRange` iff there are at least two points and fewer ids than points; otherwise `Runs` |
| CenterlinePoints.RunsFlatten | planning/autoware_static_centerline_generator/src/static_centerline_generator_node.cpp:198-209 | the groups, concatenated, are the centerline points in order; an empty centerline gives no group |
| CenterlinePoints.RunsNonEmpty | planning/autoware_static_centerline_generator/src/static_centerline_generator_node.cpp:198-209 | every group is non-empty |
| CenterlinePoints.RunsShapeDependsOnIds | planning/autoware_static_centerline_generator/src/static_centerline_generator_node.cpp:201-208 | where groups break depends only on the lane ids |
| CenterlinePoints.IdRunsAreMaximal | planning/autoware_static_centerline_generator/src/static_centerline_generator_node.cpp:201-208 | split by itself, the id list gives constant groups, and neighbouring groups differ: a new group starts exactly where the lane id changes |
| CenterlinePoints.BuildBoundMaps | planning/autoware_static_centerline_generator/src/static_centerline_generator_node.cpp:740-763 | the order is `FirstAppearance` of the lane ids; both bound maps have exactly the ordered ids as keys, each mapped to that lanelet's bound in 2D |
| CenterlinePoints.FirstAppearanceMembers | planning/autoware_static_centerline_generator/src/static_centerline_generator_node.cpp:744-753 | an id is in the order iff it is among the lane ids |
| CenterlinePoints.FirstAppearanceDistinct | planning/autoware_static_centerline_generator/src/static_centerline_generator_node.cpp:744-753 | no id is listed twice |
| CenterlinePoints.FirstAppearanceOrderAt | planning/autoware_static_centerline_generator/src/static_centerline_generator_node.cpp:744-753 | ids are listed in order of their first appearance |
| CenterlineWalks.CenterlineHandler.ClearCenterlineLaneIds | planning/autoware_static_centerline_generator/src/static_centerline_generator_node.cpp:645 | empties the recorded lane ids and touches nothing else |
| CenterlineWalks.CenterlineHandler.AddCenterlineLaneId | planning/autoware_static_centerline_generator/src/static_centerline_generator_node.cpp:695 | appends one lane id and touches nothing else |
| CenterlineWalks.FrontLaneletFrom | planning/autoware_static_centerline_generator/src/static_centerline_generator_node.cpp:655-664 | the first route lanelet containing the front point; none iff no lanelet does |
| CenterlineWalks.WalkFrom | planning/autoware_static_centerline_generator/src/static_centerline_generator_node.cpp:667-707 | at most one lanelet per remaining point, each between the current lanelet and the end of the route |
| CenterlineWalks.ConnectCenterlineToLanelet | planning/autoware_static_centerline_generator/src/static_centerline_generator_node.cpp:643-715 | clears the ids, then records the route ids of `AssignedLanelets`, one per assigned point, possibly fewer than the centerline's points; the centerline and the route are unchanged |
| CenterlineWalks.AssignedLanelets | planning/autoware_static_centerline_generator/src/static_centerline_generator_node.cpp:643-707 | no more lanelets than centerline points, all on the route |
| CenterlineWalks.AssignedLaneletsNonDecreasing | planning/autoware_static_centerline_generator/src/static_centerline_generator_node.cpp:667-707 | along the centerline the recorded lanelet index never decreases |
| CenterlineWalks.AssignedLaneletsStart | planning/autoware_static_centerline_generator/src/static_centerline_generator_node.cpp:655-671 | the first point goes to the front's lanelet, or to lanelet 0 when no route lanelet contains the front |
| CenterlineWalks.AssignedLaneletsContainTheirPoints | planning/autoware_static_centerline_generator/src/static_centerline_generator_node.cpp:673-695 | when a route lanelet contains the front, each recorded point lies in the lanelet it is recorded on |
| CenterlineWalks.RunEnd | planning/autoware_static_centerline_generator/src/static_centerline_generator_node.cpp:613-623 | the inner loop stops at the first point the lanelet does not contain, or at the end |
| CenterlineWalks.CollectInside | planning/autoware_static_centerline_generator/src/static_centerline_generator_node.cpp:613-623 | the inner loop collects exactly the points up to that stop, and flags the end |
| CenterlineWalks.GroupTrajectoryByLanelet | planning/autoware_static_centerline_generator/src/static_centerline_generator_node.cpp:595-637 | emits, for each planned span, the span's lanelet id with its points; an empty trajectory gives nothing |
| CenterlineWalks.SpansFrom | planning/autoware_static_centerline_generator/src/static_centerline_generator_node.cpp:608-637 | every span is non-empty, within the trajectory, on a route lanelet |
| CenterlineWalks.SpansFromShape | planning/autoware_static_centerline_generator/src/static_centerline_generator_node.cpp:608-637 | each span lies inside its lanelet; each follows the previous on a strictly later lanelet, starting where it ended; the first starts at the walk's start |
| CenterlineWalks.PlannedGroupsArePrefix | planning/autoware_static_centerline_generator/src/static_centerline_generator_node.cpp:608-637 | the groups start at the first point and their points, concatenated, are a prefix of the trajectory: points are consumed in order and never revisited |

## Findings

| source | as written | input that shows it | evidently intended | confidence | as-written member | corrected member |
|---|---|---|---|---|---|---|
| map/autoware_lanelet2_map_validator/src/validators/intersection/turn_direction_tagging.cpp:69-76 | after recording the code-1 "missing turn_direction" issue, line 76 still calls `attribute("turn_direction")`, which throws for the missing key; the run ends and no code-1 issue is ever returned | one intersection_area polygon with corners (0,0) and (1,1), and one lanelet with no tags, left bound (-1,0.2)-(2,0.2) and right bound (-1,0.8)-(2,0.8): its box meets the area's, so the search returns it, and no bound point lies in the area's box, so the test passes it | record the code-1 issue and go on to the next lanelet | not executed; the throwing `attribute()` belongs to lanelet2, which is not part of this model | TurnDirectionTagging.MissingTagExample | TurnDirectionTagging.IntendedReportsMissingTag |

The as-written model returns `Failure(NoSuchAttribute(id, "turn_direction"))`.
`CodeOneNeverReturned` and `MissingTagAbortsRun` state the general case.
The corrected functions (`...Intended`) report the missing tag and go on.
`IntendedAgreesWhereSourceCompletes` shows the two agree wherever the code as
written completes.

No row is filed for the box test at turn_direction_tagging.cpp:64-67 and 89-103.
The comment there says lanelets outside the intersection area are skipped.
The name `lanelet_is_within_bbox_2d` says the same. The code does the opposite:
it skips every lanelet that has a bound point in the area's box, and examines
only those the search returns with no bound point inside. The model follows
the code (`TurnDirectionTagging.LaneletIsWithinBbox2d`). The intended test is
unclear: "some point inside" and "every point inside" are both possible, so
no corrected definition is modelled.

## Left out

- ROS and file I/O: node wiring, parameters, services, publishers, logging, markers, `std::cout`/`std::cerr` output, and the `RCLCPP_ERROR` when the lane-id count differs from the point count (static_centerline_generator_node.cpp:709-714).
- The rest of `on_plan_path` (route creation, the `LaneletsNotConnected` and `PathNotFound` responses, the optimiser call) is left out. Only its output loop (608-637) is modelled, with the empty-trajectory return before it.
- Hex string parsing (`iss >> std::hex`) is left out. Colours enter as the parsed `unsigned int`, and a failed parse is not modelled: that is 0 for a non-hex field, the largest `unsigned int` on overflow, and an uninitialised value for an empty or all-blank string.
- Floating point: coordinates and distances are `real`. The Eigen norm is an uninterpreted parameter, and cosines are dot-product signs, with NaN handled as above.
- These lanelet2 and route-handler operations are parameters, because their sources are not part of this model:
  - `search`;
  - `linestring_to_vector3d`;
  - `getNextLanelets`;
  - `getLaneletsFromId`;
  - `lanelet::geometry::inside`;
  - `toBasicPolygon2d`/`boundingBox2d`, modelled directly as the min/max box of the polygon's points.
- `append_issue_code_prefix`: a message keeps the validator name, code and text as separate fields; the rendered string is not modelled.
- The facing validator's issue messages are an enumeration, with `Text` giving each message's exact wording.
- The `CenterlineHandler` class definition is not part of this model. Its fields and its clear/add methods are inferred from how the node uses them. `update_start_index`, `update_end_index` and `is_valid` are left out.
- The validator scheduler that `main.cpp` calls has no source here. `main.cpp` itself, `lanelet2_absorber` and the empty `point_height_settings` validator are I/O or have nothing to specify.
- Decoding also reads `tl_has_been_judged_as_wrong[id]` through `operator[]`, which may insert a false entry. Such an entry changes no later lookup, so the model reads the table without inserting.
- GetStartingEdgeFromLanelet: it requires the bounds and the stop line to have end points. The sweep that calls it returns `Failure(EmptyLineStringAccess)` otherwise.

/** Plain-record view of the lanelet2 map layers read by the validators, and
    the issue records they emit. Primitives are values: the validators only
    read the map. */
module LaneletMap {

  /** A 3D point with its id (`lanelet::InvalId` is 0). */
  datatype Point3d = Point3d(id: int, x: real, y: real, z: real)

  const InvalId: int := 0

  /** String-keyed attributes (`type`, `subtype`, `turn_direction`, ...). */
  type Attributes = map<string, string>

  datatype LineString3d = LineString3d(id: int, attributes: Attributes, points: seq<Point3d>)

  datatype Polygon3d = Polygon3d(id: int, attributes: Attributes, points: seq<Point3d>)

  /** A lanelet with its two bounds and the ids of the regulatory elements it refers to. */
  datatype Lanelet = Lanelet(
    id: int,
    attributes: Attributes,
    leftBound: LineString3d,
    rightBound: LineString3d,
    regElemIds: seq<int>)

  /** A regulatory element: its `Refers` and `RefLine` line-string parameters. */
  datatype RegulatoryElement = RegulatoryElement(
    id: int,
    attributes: Attributes,
    refers: seq<LineString3d>,
    refLines: seq<LineString3d>)

  /** The layers of a map, each in its iteration order. */
  datatype Map = Map(
    lineStringLayer: seq<LineString3d>,
    polygonLayer: seq<Polygon3d>,
    laneletLayer: seq<Lanelet>,
    regulatoryElementLayer: seq<RegulatoryElement>)

  /** A default-constructed `ConstLineString3d`: invalid id, no attributes, no points. */
  const EmptyLineString: LineString3d := LineString3d(InvalId, map[], [])

  /** `hasAttribute(key) && attribute(key).value() == value`. */
  predicate AttributeIs(attributes: Attributes, key: string, value: string) {
    key in attributes && attributes[key] == value
  }

  datatype Severity = Error | Warning | Info

  datatype Primitive = PrimPoint | PrimLineString | PrimPolygon | PrimLanelet | PrimArea | PrimRegulatoryElement

  /** A message carrying the validator's issue code
      (`append_issue_code_prefix(name, code, text)`, whose rendering is not
      part of this model). */
  datatype Message = Coded(validator: string, code: nat, text: string)

  /** An issue record; each validator fixes its message type `M`. */
  datatype Issue<+M> = Issue(severity: Severity, primitive: Primitive, id: int, message: M)

  /** Exceptions and undefined behaviour that end a validator run early. */
  datatype Fault =
    | NoSuchAttribute(primitiveId: int, key: string)  // `attribute(key)` on a missing key throws
    | NullRegulatoryElement                            // `std::invalid_argument`
    | EmptyLineStringAccess                            // `front()`/`back()` of an empty line string
    | TooFewPoints(lineStringId: int)                  // `std::runtime_error` from the midpoint helper
}

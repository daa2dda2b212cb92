/** Values shared by the centerline-generator helpers. */
module CenterlineTypes {
  /** `std::out_of_range`, thrown by `at` on a vector or a map. */
  datatype Fault = OutOfRange

  /** A `geometry_msgs::msg::Point`. */
  datatype Position = Position(x: real, y: real, z: real)

  /** A boost.geometry `Point2d`, as stored in a `LineString2d`. */
  datatype Point2 = Point2(x: real, y: real)
}

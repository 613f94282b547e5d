/** The already-built route records the presentation components read. How
    they are built from the directions provider's response (leg
    classification, metro-line resolution, fares) happens in screens that are
    not part of this model, so these are input values here. An optional
    string field that is absent is represented by the empty string. The two
    agree wherever a component tests the field for truthiness (`||`, `&&`,
    `!`) or renders it as a JSX child, which is how most fields are used;
    a template literal, which writes "undefined" for an absent field, is
    where they differ. */
module RouteTypes {
  import opened Common

  /** The `type` tag of a segment; `Unrecognized` stands for any other
      string. */
  datatype Kind = Walking | Bus | Metro | OtherTransit | Unrecognized

  datatype Segment = Segment(
    kind: Kind,
    polyline: string,
    duration: string,
    distance: string,
    name: string,
    color: string,
    departureStop: string,
    arrivalStop: string,
    line: string,
    vehicleType: string,
    toBusStop: string,
    isFirst: bool,
    isLast: bool)

  /** An entry of a route's `buses` list. */
  datatype BusSummary = BusSummary(name: string, color: string, departureStop: string, arrivalStop: string)

  /** A route option: its bus summaries, its metro legs (the field may be
      absent) and its full ordered list of segments. */
  datatype Route = Route(buses: seq<BusSummary>, metro: Option<seq<Segment>>, segments: seq<Segment>)

  /** `route.metro ? route.metro.length : 0`. */
  function MetroCount(r: Route): (n: nat)
    ensures r.metro.None? ==> n == 0
    ensures r.metro.Some? ==> n == |r.metro.value|
  {
    match r.metro
    case None => 0
    case Some(m) => |m|
  }

  /** A line drawn on the map. */
  datatype Line = Line(points: seq<Point>, color: string)

  /** A marker placed on the map. */
  datatype Marker = Marker(position: Point, title: string, description: string)
}

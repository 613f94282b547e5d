/** The first route map (components/RouteMap.tsx): with a selected route it
    draws one polyline per segment, decoded with the polyline decoder, and a
    stop marker at the first point of every bus or other-transit segment
    whose polyline decodes to something; without a selected route it asks
    the directions widget for a route instead. The fixed origin and
    destination markers and the map widget itself are not modelled. */
module RouteMap {
  import opened Common
  import opened RouteTypes
  import PolylineDecoder

  const WalkingColor := "#4CAF50"
  const BusDefault := "#1976D2"
  const OtherDefault := "#FF9800"

  /** The stroke colour: green for walking, the segment's colour or blue for
      a bus, the segment's colour or orange for everything else (metro
      included). */
  function StrokeColor(seg: Segment): (c: string)
    ensures seg.kind == Walking ==> c == WalkingColor
    ensures seg.kind == Bus ==> c == (if seg.color != "" then seg.color else BusDefault)
    ensures seg.kind != Walking && seg.kind != Bus ==> c == (if seg.color != "" then seg.color else OtherDefault)
    ensures c != ""
  {
    if seg.kind == Walking then WalkingColor
    else if seg.kind == Bus then OrElse(seg.color, BusDefault)
    else OrElse(seg.color, OtherDefault)
  }

  /** One polyline per segment, in order, including segments whose polyline
      is missing or decodes to no points. */
  function SegmentLines(segs: seq<Segment>): (ls: seq<Line>)
    ensures |ls| == |segs|
    ensures forall i :: 0 <= i < |segs| ==>
      ls[i] == Line(PolylineDecoder.Decode(segs[i].polyline), StrokeColor(segs[i]))
  {
    if segs == [] then []
    else [Line(PolylineDecoder.Decode(segs[0].polyline), StrokeColor(segs[0]))] + SegmentLines(segs[1..])
  }

  /** A segment gets a stop marker: it is a bus or other-transit segment and
      its polyline decodes to at least one point. */
  predicate HasStopMarker(seg: Segment) {
    (seg.kind == Bus || seg.kind == OtherTransit) && PolylineDecoder.Decode(seg.polyline) != []
  }

  /** The marker at the segment's first decoded point. */
  function StopMarkerOf(seg: Segment): (m: Marker)
    requires HasStopMarker(seg)
    ensures m.position == PolylineDecoder.Decode(seg.polyline)[0]
    ensures m.title == "Parada: " + seg.departureStop
    ensures m.description == (if seg.kind == Bus then "Bus" else "Transporte") + ": " + seg.name
  {
    Marker(PolylineDecoder.Decode(seg.polyline)[0], "Parada: " + seg.departureStop,
           (if seg.kind == Bus then "Bus" else "Transporte") + ": " + seg.name)
  }

  /** The filter to bus and other-transit segments followed by the map that
      renders a marker or nothing; only the rendered markers are kept. */
  function StopMarkers(segs: seq<Segment>): (ms: seq<Marker>)
    ensures |ms| <= |segs|
    ensures forall i :: 0 <= i < |segs| && HasStopMarker(segs[i]) ==> StopMarkerOf(segs[i]) in ms
    ensures forall m :: m in ms ==> exists i :: 0 <= i < |segs| && HasStopMarker(segs[i]) && m == StopMarkerOf(segs[i])
  {
    if segs == [] then []
    else
      var rest := StopMarkers(segs[1..]);
      assert forall i :: 1 <= i < |segs| ==> segs[i] == segs[1..][i - 1];
      if HasStopMarker(segs[0]) then [StopMarkerOf(segs[0])] + rest else rest
  }

  /** The markers of a run of segments that all get one, in order. */
  function MarkersOf(marked: seq<Segment>): (ms: seq<Marker>)
    requires forall x :: x in marked ==> HasStopMarker(x)
  {
    seq(|marked|, k requires 0 <= k < |marked| => StopMarkerOf(marked[k]))
  }

  lemma MarkersOfCons(x: Segment, marked: seq<Segment>)
    requires HasStopMarker(x) && forall y :: y in marked ==> HasStopMarker(y)
    ensures MarkersOf([x] + marked) == [StopMarkerOf(x)] + MarkersOf(marked)
  {
    var a := MarkersOf([x] + marked);
    var b := [StopMarkerOf(x)] + MarkersOf(marked);
    assert |a| == |b|;
    forall k | 0 <= k < |a|
      ensures a[k] == b[k]
    {
      if k > 0 {
        assert ([x] + marked)[k] == marked[k - 1];
      }
    }
  }

  /** The markers are those of the segments that get one, in segment order:
      the filter to bus and other-transit segments followed by dropping the
      `null`s of the segments without points is one ordered filter. */
  lemma {:induction false} StopMarkersInOrder(segs: seq<Segment>)
    ensures StopMarkers(segs) == MarkersOf(Filter(HasStopMarker, segs))
  {
    if segs != [] {
      StopMarkersInOrder(segs[1..]);
      var tail := Filter(HasStopMarker, segs[1..]);
      if HasStopMarker(segs[0]) {
        assert Filter(HasStopMarker, segs) == [segs[0]] + tail;
        MarkersOfCons(segs[0], tail);
      } else {
        assert Filter(HasStopMarker, segs) == tail;
      }
    }
  }

  /** What the map shows besides the fixed origin and destination markers. */
  datatype MapContents = MapContents(lines: seq<Line>, stopMarkers: seq<Marker>, directions: bool)

  function RouteMapContents(selectedRoute: Option<Route>): (c: MapContents)
    ensures c.directions <==> selectedRoute.None?
    ensures selectedRoute.None? ==> c.lines == [] && c.stopMarkers == []
    ensures selectedRoute.Some? ==>
      c.lines == SegmentLines(selectedRoute.value.segments) &&
      c.stopMarkers == StopMarkers(selectedRoute.value.segments)
  {
    match selectedRoute
    case None => MapContents([], [], true)
    case Some(r) => MapContents(SegmentLines(r.segments), StopMarkers(r.segments), false)
  }

  /** A route made only of walking and metro segments gets no stop markers. */
  lemma {:induction false} NoStopsWithoutBusOrTransit(segs: seq<Segment>)
    requires forall i :: 0 <= i < |segs| ==> segs[i].kind == Walking || segs[i].kind == Metro
    ensures StopMarkers(segs) == []
  {
    if segs != [] {
      NoStopsWithoutBusOrTransit(segs[1..]);
    }
  }
}

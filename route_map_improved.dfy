/** The second route map (components/RouteMap_improved.tsx): colours per
    segment kind, the viewport the map is fitted to, the overview polyline,
    the bus and metro stop markers, and the colour/icon lookups for points of
    interest and reports. Polylines are decoded by a third-party library
    here; it is a parameter `lib` of the model, answering `None` where the
    library throws. The map widget, the speed-limit, school-zone and audio
    layers and all styling are not modelled. */
module RouteMapImproved {
  import opened Common
  import opened RouteTypes
  import RouteMap

  /** The library decoder: the points of an encoded polyline, or `None` when
      it throws. */
  type LibDecode = string -> Option<seq<Point>>

  /** The `selectedRoute` prop when it is not null: its `segments` field may
      be absent. */
  datatype SelectedRoute = SelectedRoute(segments: Option<seq<Segment>>)

  /** The component's `decodePolyline`: nothing for an empty string or when
      the library throws, the library's points otherwise. */
  function DecodePolyline(lib: LibDecode, encoded: string): (pts: seq<Point>)
    ensures encoded == "" ==> pts == []
    ensures encoded != "" && lib(encoded).None? ==> pts == []
    ensures encoded != "" && lib(encoded).Some? ==> pts == lib(encoded).value
  {
    if !Truthy(encoded) then []
    else match lib(encoded)
      case None => []
      case Some(p) => p
  }

  const WalkingColor := "#4CAF50"
  const BusDefault := "#1976D2"
  const MetroColor := "#FF5722"
  const OtherDefault := "#FF9800"

  /** The stroke colour of a drawn segment. */
  function StrokeColor(seg: Segment): (c: string)
    ensures seg.kind == Walking ==> c == WalkingColor
    ensures seg.kind == Bus ==> c == (if seg.color != "" then seg.color else BusDefault)
    ensures seg.kind == Metro ==> c == MetroColor
    ensures seg.kind == OtherTransit || seg.kind == Unrecognized ==>
      c == (if seg.color != "" then seg.color else OtherDefault)
  {
    if seg.kind == Walking then WalkingColor
    else if seg.kind == Bus then OrElse(seg.color, BusDefault)
    else if seg.kind == Metro then MetroColor
    else OrElse(seg.color, OtherDefault)
  }

  /** The two maps agree on the colour of every kind except metro, where this
      one ignores the segment's own colour. */
  lemma ColourRulesDiffer(seg: Segment)
    ensures seg.kind != Metro ==> StrokeColor(seg) == RouteMap.StrokeColor(seg)
    ensures seg.kind == Metro && seg.color != MetroColor ==> StrokeColor(seg) != RouteMap.StrokeColor(seg)
  {
    assert MetroColor[3] != OtherDefault[3];
  }

  /** A segment draws a line (and, for bus and metro, gets markers): its
      polyline is non-empty and decodes to at least one point. */
  predicate Drawable(lib: LibDecode, seg: Segment) {
    seg.polyline != "" && DecodePolyline(lib, seg.polyline) != []
  }

  /** The line a drawable segment draws. */
  function LineOf(lib: LibDecode, seg: Segment): Line {
    Line(DecodePolyline(lib, seg.polyline), StrokeColor(seg))
  }

  /** The segment lines: the map over the segments keeps only the drawable
      ones, in order. */
  function SegmentLines(lib: LibDecode, segs: seq<Segment>): (ls: seq<Line>)
    ensures |ls| <= |segs|
    ensures forall k :: 0 <= k < |ls| ==> ls[k].points != []
    ensures forall i :: 0 <= i < |segs| && Drawable(lib, segs[i]) ==> LineOf(lib, segs[i]) in ls
    ensures forall l :: l in ls ==> exists i :: 0 <= i < |segs| && Drawable(lib, segs[i]) && l == LineOf(lib, segs[i])
  {
    if segs == [] then []
    else
      var rest := SegmentLines(lib, segs[1..]);
      assert forall i :: 1 <= i < |segs| ==> segs[i] == segs[1..][i - 1];
      if Drawable(lib, segs[0]) then [LineOf(lib, segs[0])] + rest else rest
  }

  /** `Drawable` as the filter predicate of a given decoder. */
  function DrawableWith(lib: LibDecode): Segment -> bool {
    seg => Drawable(lib, seg)
  }

  /** The lines of a run of segments, one each, in order. */
  function LinesOf(lib: LibDecode, drawn: seq<Segment>): seq<Line> {
    seq(|drawn|, k requires 0 <= k < |drawn| => LineOf(lib, drawn[k]))
  }

  lemma LinesOfCons(lib: LibDecode, seg: Segment, drawn: seq<Segment>)
    ensures LinesOf(lib, [seg] + drawn) == [LineOf(lib, seg)] + LinesOf(lib, drawn)
  {
    var a := LinesOf(lib, [seg] + drawn);
    var b := [LineOf(lib, seg)] + LinesOf(lib, drawn);
    assert |a| == |b|;
    forall k | 0 <= k < |a|
      ensures a[k] == b[k]
    {
      if k > 0 {
        assert ([seg] + drawn)[k] == drawn[k - 1];
      }
    }
  }

  /** The lines drawn are those of the drawable segments, in segment order:
      mapping to a polyline or `null` and dropping the `null`s is one ordered
      filter followed by a map. */
  lemma {:induction false} SegmentLinesInOrder(lib: LibDecode, segs: seq<Segment>)
    ensures SegmentLines(lib, segs) == LinesOf(lib, Filter(DrawableWith(lib), segs))
  {
    if segs != [] {
      SegmentLinesInOrder(lib, segs[1..]);
      var tail := Filter(DrawableWith(lib), segs[1..]);
      if Drawable(lib, segs[0]) {
        assert Filter(DrawableWith(lib), segs) == [segs[0]] + tail;
        LinesOfCons(lib, segs[0], tail);
      } else {
        assert Filter(DrawableWith(lib), segs) == tail;
      }
    }
  }

  /** `selectedRoute && selectedRoute.segments && selectedRoute.segments.length > 0`. */
  predicate HasSegments(route: Option<SelectedRoute>) {
    route.Some? && route.value.segments.Some? && |route.value.segments.value| > 0
  }

  /** The overview polyline is drawn: no segments to draw and an active
      polyline to draw instead. */
  predicate OverviewDrawn(route: Option<SelectedRoute>, activeRoutePolyline: string) {
    !HasSegments(route) && activeRoutePolyline != ""
  }

  /** The directions widget is shown: no selected route and no active
      polyline (and an API key, which is configuration). */
  predicate DirectionsShown(route: Option<SelectedRoute>, activeRoutePolyline: string) {
    route.None? && activeRoutePolyline == ""
  }

  /** Segment lines and the overview polyline are never drawn together. */
  lemma OverviewOnlyWithoutSegments(lib: LibDecode, route: Option<SelectedRoute>, activeRoutePolyline: string)
    requires OverviewDrawn(route, activeRoutePolyline)
    ensures route.Some? && route.value.segments.Some? ==> SegmentLines(lib, route.value.segments.value) == []
    ensures !DirectionsShown(route, activeRoutePolyline)
  {
  }

  /** The points the fit effect collects from the segments: the decoded
      points of every segment with a polyline, in segment order. */
  function AllPoints(lib: LibDecode, segs: seq<Segment>): (pts: seq<Point>)
    ensures (forall i :: 0 <= i < |segs| ==> segs[i].polyline == "") ==> pts == []
  {
    if segs == [] then []
    else
      var last := segs[|segs| - 1];
      AllPoints(lib, segs[..|segs| - 1]) + (if last.polyline != "" then DecodePolyline(lib, last.polyline) else [])
  }

  lemma DropLastOfConcat(a: seq<Segment>, b: seq<Segment>)
    requires b != []
    ensures (a + b)[..|a + b| - 1] == a + b[..|b| - 1]
    ensures (a + b)[|a + b| - 1] == b[|b| - 1]
  {
    assert (a + b)[..|a + b| - 1] == a + b[..|b| - 1];
  }

  /** Collecting over two runs of segments concatenates their points. */
  lemma {:induction false} AllPointsConcat(lib: LibDecode, a: seq<Segment>, b: seq<Segment>)
    ensures AllPoints(lib, a + b) == AllPoints(lib, a) + AllPoints(lib, b)
  {
    if b != [] {
      var ab := a + b;
      DropLastOfConcat(a, b);
      AllPointsConcat(lib, a, b[..|b| - 1]);
    } else {
      assert a + b == a;
    }
  }

  /** Every collected point comes from the decoding of some segment's
      polyline, and every point of every segment is collected. */
  lemma {:induction false} AllPointsFromSegments(lib: LibDecode, segs: seq<Segment>)
    ensures forall p :: p in AllPoints(lib, segs) ==>
      exists i :: 0 <= i < |segs| && p in DecodePolyline(lib, segs[i].polyline)
    ensures forall i, p :: 0 <= i < |segs| && p in DecodePolyline(lib, segs[i].polyline) ==> p in AllPoints(lib, segs)
  {
    if segs != [] {
      var init := segs[..|segs| - 1];
      var last := segs[|segs| - 1];
      AllPointsFromSegments(lib, init);
      assert forall i :: 0 <= i < |init| ==> init[i] == segs[i];
      assert DecodePolyline(lib, "") == [];
    }
  }

  /** The viewport target of the fit effect once the map exists. */
  function FitPoints(lib: LibDecode, route: Option<SelectedRoute>, activeRoutePolyline: string, origin: Point, destiny: Point): (t: seq<Point>)
    ensures |t| > 0
  {
    if HasSegments(route) then
      var all := AllPoints(lib, route.value.segments.value);
      if |all| > 0 then all else [origin, destiny]
    else if Truthy(activeRoutePolyline) then
      var points := DecodePolyline(lib, activeRoutePolyline);
      if |points| > 0 then points else [origin, destiny]
    else [origin, destiny]
  }

  /** With segments, the target is the concatenation of the segments' points
      when there are any, else origin and destination; without segments it
      is the overview polyline's points when there are any, else origin and
      destination. Every target point is a decoded point or an endpoint. */
  lemma FitTargetPoints(lib: LibDecode, route: Option<SelectedRoute>, activeRoutePolyline: string, origin: Point, destiny: Point, p: Point)
    requires p in FitPoints(lib, route, activeRoutePolyline, origin, destiny)
    ensures HasSegments(route) ==>
      p == origin || p == destiny ||
      exists i :: 0 <= i < |route.value.segments.value| && p in DecodePolyline(lib, route.value.segments.value[i].polyline)
    ensures !HasSegments(route) ==> p == origin || p == destiny || p in DecodePolyline(lib, activeRoutePolyline)
  {
    if HasSegments(route) {
      AllPointsFromSegments(lib, route.value.segments.value);
    }
  }

  /** The fit effect: nothing when the map reference is not set yet;
      otherwise the points the map is fitted to, collected segment by
      segment as the effect's `forEach` does. */
  method FitTarget(mapReady: bool, lib: LibDecode, route: Option<SelectedRoute>, activeRoutePolyline: string, origin: Point, destiny: Point)
    returns (target: Option<seq<Point>>)
    ensures target.None? <==> !mapReady
    ensures target.Some? ==> target.value == FitPoints(lib, route, activeRoutePolyline, origin, destiny)
    ensures target.Some? ==> |target.value| > 0
  {
    if !mapReady {
      return None;
    }
    if HasSegments(route) {
      var segs := route.value.segments.value;
      var allPoints: seq<Point> := [];
      var i := 0;
      while i < |segs|
        invariant 0 <= i <= |segs|
        invariant allPoints == AllPoints(lib, segs[..i])
      {
        var segment := segs[i];
        if segment.polyline != "" {
          var points := DecodePolyline(lib, segment.polyline);
          if |points| > 0 {
            allPoints := allPoints + points;
          }
        }
        assert segs[..i + 1][..i] == segs[..i];
        i := i + 1;
      }
      assert segs[..i] == segs;
      if |allPoints| > 0 {
        target := Some(allPoints);
      } else {
        target := Some([origin, destiny]);
      }
    } else if activeRoutePolyline != "" {
      var points := DecodePolyline(lib, activeRoutePolyline);
      if |points| > 0 {
        target := Some(points);
      } else {
        target := Some([origin, destiny]);
      }
    } else {
      target := Some([origin, destiny]);
    }
  }

  /** The two stop markers of a drawable bus or metro segment, at its first
      and last decoded points; none when it decodes to nothing. */
  function StopPair(lib: LibDecode, seg: Segment): (ms: seq<Marker>)
    requires seg.kind == Bus || seg.kind == Metro
    ensures |ms| == 0 || |ms| == 2
    ensures |ms| == 2 <==> Drawable(lib, seg)
    ensures |ms| == 2 ==>
      var pts := DecodePolyline(lib, seg.polyline);
      ms[0].position == pts[0] && ms[1].position == pts[|pts| - 1]
    ensures |ms| == 2 && seg.kind == Bus ==>
      ms[0].title == "Parada: " + (if seg.departureStop != "" then seg.departureStop else "Salida") &&
      ms[1].title == "Parada: " + (if seg.arrivalStop != "" then seg.arrivalStop else "Llegada") &&
      ms[0].description == "Bus: " + seg.name && ms[1].description == "Bus: " + seg.name
    ensures |ms| == 2 && seg.kind == Metro ==>
      ms[0].title == "Estación: " + (if seg.departureStop != "" then seg.departureStop else "Salida") &&
      ms[1].title == "Estación: " + (if seg.arrivalStop != "" then seg.arrivalStop else "Llegada") &&
      ms[0].description == "Metro Línea " + seg.line && ms[1].description == "Metro Línea " + seg.line
  {
    var pts := DecodePolyline(lib, seg.polyline);
    if seg.polyline == "" || |pts| == 0 then []
    else if seg.kind == Bus then
      [ Marker(pts[0], "Parada: " + OrElse(seg.departureStop, "Salida"), "Bus: " + OrElse(seg.name, "")),
        Marker(pts[|pts| - 1], "Parada: " + OrElse(seg.arrivalStop, "Llegada"), "Bus: " + OrElse(seg.name, "")) ]
    else
      [ Marker(pts[0], "Estación: " + OrElse(seg.departureStop, "Salida"), "Metro Línea " + OrElse(seg.line, "")),
        Marker(pts[|pts| - 1], "Estación: " + OrElse(seg.arrivalStop, "Llegada"), "Metro Línea " + OrElse(seg.line, "")) ]
  }

  /** How many segments of the given kind are drawable. */
  function CountDrawable(lib: LibDecode, segs: seq<Segment>, kind: Kind): nat {
    if segs == [] then 0
    else (if segs[0].kind == kind && Drawable(lib, segs[0]) then 1 else 0) + CountDrawable(lib, segs[1..], kind)
  }

  /** The markers of one kind: the filter to that kind with a polyline, each
      giving its pair or nothing. */
  function KindStops(lib: LibDecode, segs: seq<Segment>, kind: Kind): (ms: seq<Marker>)
    requires kind == Bus || kind == Metro
    ensures |ms| == 2 * CountDrawable(lib, segs, kind)
    ensures forall i :: 0 <= i < |segs| && segs[i].kind == kind && Drawable(lib, segs[i]) ==>
      StopPair(lib, segs[i])[0] in ms && StopPair(lib, segs[i])[1] in ms
  {
    if segs == [] then []
    else
      var rest := KindStops(lib, segs[1..], kind);
      assert forall i :: 1 <= i < |segs| ==> segs[i] == segs[1..][i - 1];
      (if segs[0].kind == kind && segs[0].polyline != "" then StopPair(lib, segs[0]) else []) + rest
  }

  /** The filter of one kind's markers: segments of that kind that draw. */
  function DrawableOfKind(lib: LibDecode, kind: Kind): Segment -> bool {
    (seg: Segment) => seg.kind == kind && Drawable(lib, seg)
  }

  /** The pairs of a run of bus or metro segments, concatenated in order. */
  function Pairs(lib: LibDecode, stops: seq<Segment>): seq<Marker>
    requires forall x :: x in stops ==> x.kind == Bus || x.kind == Metro
  {
    if stops == [] then [] else StopPair(lib, stops[0]) + Pairs(lib, stops[1..])
  }

  lemma PairsShift(pair: seq<Marker>, rest: seq<Marker>, k: nat)
    requires |pair| == 2 && 1 <= k && 2 * k + 1 < |pair| + |rest|
    ensures (pair + rest)[2 * k] == rest[2 * (k - 1)]
    ensures (pair + rest)[2 * k + 1] == rest[2 * (k - 1) + 1]
  {
  }

  /** Over drawable segments the pairs line up: departure then arrival of
      the `k`-th segment at positions `2k` and `2k + 1`. */
  lemma {:induction false} PairsLineUp(lib: LibDecode, stops: seq<Segment>)
    requires forall x :: x in stops ==> (x.kind == Bus || x.kind == Metro) && Drawable(lib, x)
    ensures var ms := Pairs(lib, stops);
      |ms| == 2 * |stops| &&
      forall k :: 0 <= k < |stops| ==>
        ms[2 * k] == StopPair(lib, stops[k])[0] && ms[2 * k + 1] == StopPair(lib, stops[k])[1]
  {
    if stops != [] {
      var rest := Pairs(lib, stops[1..]);
      PairsLineUp(lib, stops[1..]);
      var ms := Pairs(lib, stops);
      assert ms == StopPair(lib, stops[0]) + rest;
      forall k | 0 <= k < |stops|
        ensures ms[2 * k] == StopPair(lib, stops[k])[0] && ms[2 * k + 1] == StopPair(lib, stops[k])[1]
      {
        if k > 0 {
          assert stops[k] == stops[1..][k - 1];
          PairsShift(StopPair(lib, stops[0]), rest, k);
        }
      }
    }
  }

  /** The markers of one kind are the pairs of the drawable segments of that
      kind, in segment order: the filter to the kind with a polyline and the
      dropped `null`s of segments without points make one ordered filter. */
  lemma {:induction false} KindStopsInOrder(lib: LibDecode, segs: seq<Segment>, kind: Kind)
    requires kind == Bus || kind == Metro
    ensures KindStops(lib, segs, kind) == Pairs(lib, Filter(DrawableOfKind(lib, kind), segs))
  {
    if segs != [] {
      KindStopsInOrder(lib, segs[1..], kind);
      var tail := Filter(DrawableOfKind(lib, kind), segs[1..]);
      if segs[0].kind == kind && Drawable(lib, segs[0]) {
        var stops := [segs[0]] + tail;
        assert Filter(DrawableOfKind(lib, kind), segs) == stops;
        assert stops[1..] == tail;
      } else {
        assert Filter(DrawableOfKind(lib, kind), segs) == tail;
        assert KindStops(lib, segs, kind) == KindStops(lib, segs[1..], kind);
      }
    }
  }

  /** All stop markers: the bus stops first, then the metro stations; none
      without a selected route or without segments. */
  function StopMarkers(lib: LibDecode, route: Option<SelectedRoute>): (ms: seq<Marker>)
    ensures route.None? || route.value.segments.None? ==> ms == []
    ensures route.Some? && route.value.segments.Some? ==>
      var segs := route.value.segments.value;
      ms == KindStops(lib, segs, Bus) + KindStops(lib, segs, Metro) &&
      |ms| == 2 * (CountDrawable(lib, segs, Bus) + CountDrawable(lib, segs, Metro))
  {
    if route.None? || route.value.segments.None? then []
    else
      var segs := route.value.segments.value;
      KindStops(lib, segs, Bus) + KindStops(lib, segs, Metro)
  }

  /** A segment that draws no line gets no marker either. */
  lemma {:induction false} UndrawableSegmentsAddNothing(lib: LibDecode, segs: seq<Segment>, kind: Kind)
    requires kind == Bus || kind == Metro
    requires forall i :: 0 <= i < |segs| ==> !Drawable(lib, segs[i])
    ensures KindStops(lib, segs, kind) == [] && SegmentLines(lib, segs) == []
  {
    if segs != [] {
      UndrawableSegmentsAddNothing(lib, segs[1..], kind);
    }
  }

  const PoiColorDefault := "#607D8B"
  const PoiIconDefault := "location"
  const ReportIconDefault := "help-circle"
  const ReportColorDefault := "#8E8E93"

  const PoiColors: map<string, string> := map[
    "restaurant" := "#FF6B35", "cafe" := "#8B4513", "shopping_mall" := "#9C27B0",
    "tourist_attraction" := "#4CAF50", "museum" := "#3F51B5", "pharmacy" := "#F44336",
    "hospital" := "#E91E63", "school" := "#FFC107", "police" := "#1976D2",
    "gas_station" := "#009688", "parking" := "#4CAF50", "bus_station" := "#FF9800",
    "subway_station" := "#673AB7", "transit_station" := "#2196F3", "taxi_stand" := "#FFEB3B",
    "car_repair" := "#795548", "traffic_control_point" := "#F44336"]

  const PoiIcons: map<string, string> := map[
    "restaurant" := "restaurant", "cafe" := "cafe", "shopping_mall" := "storefront",
    "tourist_attraction" := "camera", "museum" := "library", "pharmacy" := "medical",
    "hospital" := "medical", "school" := "school", "police" := "shield-checkmark",
    "gas_station" := "car-sport", "parking" := "car", "bus_station" := "bus",
    "subway_station" := "train", "transit_station" := "train", "taxi_stand" := "car",
    "car_repair" := "construct", "traffic_control_point" := "warning"]

  const ReportIcons: map<string, string> := map[
    "accessibility" := "accessibility", "safety" := "shield-half", "infrastructure" := "hammer",
    "transport" := "bus", "other" := "help-circle"]

  const ReportColors: map<string, string> := map[
    "accessibility" := "#FF6B35", "safety" := "#FF3B30", "infrastructure" := "#FF9500",
    "transport" := "#007AFF", "other" := "#8E8E93"]

  /** `table[key] || fallback`. */
  function Lookup(table: map<string, string>, key: string, fallback: string): (r: string)
    ensures key in table && table[key] != "" ==> r == table[key]
    ensures key !in table || table[key] == "" ==> r == fallback
  {
    if key in table then OrElse(table[key], fallback) else fallback
  }

  /** `getPOIColor`: a listed type's colour; the grey fallback exactly for
      the types not listed. */
  function PoiColor(placeType: string): (c: string)
    ensures placeType in PoiColors ==> c == PoiColors[placeType]
    ensures c == PoiColorDefault <==> placeType !in PoiColors
  {
    Lookup(PoiColors, placeType, PoiColorDefault)
  }

  /** `getPOIIcon`: a listed type's icon; `location` exactly for the types
      not listed. */
  function PoiIcon(placeType: string): (icon: string)
    ensures placeType in PoiIcons ==> icon == PoiIcons[placeType]
    ensures icon == PoiIconDefault <==> placeType !in PoiIcons
  {
    Lookup(PoiIcons, placeType, PoiIconDefault)
  }

  /** `getReportIcon`: `help-circle` for `other` and for any unlisted
      category. */
  function ReportIcon(category: string): (icon: string)
    ensures category in ReportIcons ==> icon == ReportIcons[category]
    ensures icon == ReportIconDefault <==> category !in ReportIcons || category == "other"
  {
    Lookup(ReportIcons, category, ReportIconDefault)
  }

  /** `getReportColor`: grey for `other` and for any unlisted category. */
  function ReportColor(category: string): (c: string)
    ensures category in ReportColors ==> c == ReportColors[category]
    ensures c == ReportColorDefault <==> category !in ReportColors || category == "other"
  {
    Lookup(ReportColors, category, ReportColorDefault)
  }
}

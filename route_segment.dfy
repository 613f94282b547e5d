/** One row of the route itinerary (components/RouteSegment.tsx): what is
    shown for a segment depends on its kind only; metro segments and
    unrecognised kinds render nothing. The text the row shows is modelled as
    the strings the component computes; layout and styles are not. */
module RouteSegment {
  import opened Common
  import opened RouteTypes

  const WalkingBorder := "#4CAF50"
  const FinalWalk := "Hacia tu destino final"
  const NextStopFallback := "la siguiente parada"

  const SubwayIcon := "\U{1F687}"
  const TramIcon := "\U{1F68A}"
  const TrainIcon := "\U{1F686}"

  /** What a row shows. */
  datatype SegmentView =
    | WalkingView(title: string, duration: string, instruction: string)
    | BusView(title: string, borderColor: string, departureStop: string, arrivalStop: string, duration: string)
    | TransitView(icon: string, title: string, borderColor: string, departureStop: string, arrivalStop: string, duration: string)
    | NoView

  /** The walking row's instruction line. */
  function WalkingInstruction(seg: Segment): (s: string)
    ensures s == FinalWalk <==> seg.isLast
    ensures !seg.isLast && seg.toBusStop != "" ==> s == "Hacia: " + seg.toBusStop
    ensures !seg.isLast && seg.toBusStop == "" ==> s == "Hacia: " + NextStopFallback
  {
    assert |FinalWalk| == 22 && FinalWalk[0] != ("Hacia: " + OrElse(seg.toBusStop, NextStopFallback))[6];
    if seg.isLast then FinalWalk else "Hacia: " + OrElse(seg.toBusStop, NextStopFallback)
  }

  /** The icon of an `OTHER_TRANSIT` row: subway, tram, or the train icon for
      every other vehicle type (including `TRAIN`). */
  function TransitIcon(vehicleType: string): (icon: string)
    ensures icon == SubwayIcon <==> vehicleType == "SUBWAY"
    ensures icon == TramIcon <==> vehicleType == "TRAM"
    ensures icon == TrainIcon <==> vehicleType != "SUBWAY" && vehicleType != "TRAM"
  {
    assert SubwayIcon[0] != TramIcon[0] && TramIcon[0] != TrainIcon[0] && SubwayIcon[0] != TrainIcon[0];
    if vehicleType == "SUBWAY" then SubwayIcon
    else if vehicleType == "TRAM" then TramIcon
    else TrainIcon
  }

  /** The component. The `isLast` prop it receives is never read: a walking
      row consults the segment's own `isLast` field. */
  function RenderSegment(seg: Segment, isLastProp: bool): (v: SegmentView)
    ensures v.NoView? <==> seg.kind == Metro || seg.kind == Unrecognized
    ensures v.WalkingView? <==> seg.kind == Walking
    ensures v.BusView? <==> seg.kind == Bus
    ensures v.TransitView? <==> seg.kind == OtherTransit
    ensures v.WalkingView? ==>
      v.title == (if seg.isFirst then "Inicia caminando" else "Camina") + " " + seg.distance &&
      v.instruction == WalkingInstruction(seg) && v.duration == seg.duration
    ensures v.BusView? ==>
      v.title == (if seg.name != "" then seg.name else "Bus") &&
      v.borderColor == seg.color && v.departureStop == seg.departureStop && v.arrivalStop == seg.arrivalStop &&
      v.duration == seg.duration
    ensures v.TransitView? ==>
      v.icon == TransitIcon(seg.vehicleType) &&
      v.title == (if seg.name != "" then seg.name else seg.vehicleType) &&
      v.borderColor == seg.color && v.departureStop == seg.departureStop && v.arrivalStop == seg.arrivalStop &&
      v.duration == seg.duration
  {
    match seg.kind
    case Walking =>
      WalkingView((if seg.isFirst then "Inicia caminando" else "Camina") + " " + seg.distance,
                  seg.duration, WalkingInstruction(seg))
    case Bus =>
      BusView(OrElse(seg.name, "Bus"), seg.color, seg.departureStop, seg.arrivalStop, seg.duration)
    case OtherTransit =>
      TransitView(TransitIcon(seg.vehicleType), OrElse(seg.name, seg.vehicleType), seg.color,
                  seg.departureStop, seg.arrivalStop, seg.duration)
    case _ => NoView
  }

  /** A bus row always has a non-empty title. */
  lemma BusTitleNeverEmpty(seg: Segment, isLastProp: bool)
    requires seg.kind == Bus
    ensures RenderSegment(seg, isLastProp).title != ""
  {
  }

  /** The `isLast` prop has no effect: a row depends on the segment alone. */
  lemma IsLastPropIgnored(seg: Segment, a: bool, b: bool)
    ensures RenderSegment(seg, a) == RenderSegment(seg, b)
  {
  }

  /** A walking row that is the last of the route says so, whatever the next
      stop field holds; one that is not names the next stop or the fallback,
      never an empty target. */
  lemma WalkingTargetNeverEmpty(seg: Segment, isLastProp: bool)
    requires seg.kind == Walking
    ensures |RenderSegment(seg, isLastProp).instruction| > |"Hacia: "|
  {
  }
}

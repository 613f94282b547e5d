/** The route details sheet (components/RouteDetailsModal.tsx): the
    displayed number of transfers and the itinerary rows, one per segment in
    order, each rendered by the segment row component with an `isLast` flag
    for the final index. Duration, distance, fare and times are passed
    through as text and are not modelled. */
module RouteDetailsModal {
  import opened Common
  import opened RouteTypes
  import RouteSegment

  /** `buses.length + (metro ? metro.length : 0) - 1`, shown as is: it is not
      clamped, so a route without buses or metro legs shows -1. */
  function Transfers(r: Route): (t: int)
    ensures t >= -1
    ensures t == -1 <==> |r.buses| == 0 && MetroCount(r) == 0
    ensures t + 1 == |r.buses| + MetroCount(r)
  {
    |r.buses| + (if r.metro.Some? then |r.metro.value| else 0) - 1
  }

  /** A route with a single transit leg has no transfer. */
  lemma OneLegNoTransfer(b: BusSummary, segs: seq<Segment>)
    ensures Transfers(Route([b], None, segs)) == 0
    ensures Transfers(Route([b], Some([]), segs)) == 0
  {
  }

  /** A walking-only route shows -1 transfers. */
  lemma WalkingOnlyShowsMinusOne(segs: seq<Segment>)
    ensures Transfers(Route([], None, segs)) == -1
  {
  }

  /** One itinerary row: the segment, the `isLast` prop passed to it, and what
      it renders. */
  datatype Row = Row(segment: Segment, isLast: bool, view: RouteSegment.SegmentView)

  /** `segments.map((segment, index) => <RouteSegment isLast={index === length - 1} />)`. */
  function Rows(segs: seq<Segment>): (rows: seq<Row>)
    ensures |rows| == |segs|
    ensures forall i :: 0 <= i < |segs| ==> rows[i].segment == segs[i]
    ensures forall i :: 0 <= i < |segs| ==> (rows[i].isLast <==> i == |segs| - 1)
    ensures forall i :: 0 <= i < |segs| ==> rows[i].view == RouteSegment.RenderSegment(segs[i], rows[i].isLast)
  {
    seq(|segs|, i requires 0 <= i < |segs| =>
      Row(segs[i], i == |segs| - 1, RouteSegment.RenderSegment(segs[i], i == |segs| - 1)))
  }

  /** A non-empty itinerary has exactly one row flagged last, the final one. */
  lemma ExactlyOneLastRow(segs: seq<Segment>)
    requires |segs| > 0
    ensures Rows(segs)[|segs| - 1].isLast
    ensures forall i, j :: 0 <= i < |segs| && 0 <= j < |segs| && Rows(segs)[i].isLast && Rows(segs)[j].isLast ==> i == j
  {
  }

  /** The flag does not reach the walking text: a final walking row whose
      segment is not marked last still names the next stop. */
  lemma FinalRowTextFollowsSegment(segs: seq<Segment>)
    requires |segs| > 0
    requires segs[|segs| - 1].kind == Walking && !segs[|segs| - 1].isLast
    ensures Rows(segs)[|segs| - 1].isLast
    ensures Rows(segs)[|segs| - 1].view.instruction != RouteSegment.FinalWalk
  {
  }

  datatype Details = Details(transfers: int, rows: seq<Row>)

  /** The component: nothing for a null route. */
  function RenderDetails(route: Option<Route>): (d: Option<Details>)
    ensures d.None? <==> route.None?
    ensures d.Some? ==> d.value.transfers == Transfers(route.value) && d.value.rows == Rows(route.value.segments)
  {
    match route
    case None => None
    case Some(r) => Some(Details(Transfers(r), Rows(r.segments)))
  }
}

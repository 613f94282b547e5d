# Smart-mobility trip planner: a verified model of its core logic

This project models, in Dafny, the self-contained logic of a mobile
trip-planning client for an urban area. The client decodes the routes a
routing provider returns, shows them on a map and in lists, keeps a history
of searched destinations, and warns about rain. The model covers:

- **`PolylineDecoder`**: the hand-written decoder of the Encoded Polyline
  Algorithm Format. Each coordinate delta is a chain of 5-bit chunks offset
  by 63. A chunk of 32 or more announces that another chunk follows. Chains
  are zig-zag decoded, and the deltas are summed into running latitude and
  longitude.
  - The decoder loop (`DecodePolyline`, `ReadVarint`) is proved equal to a
    functional specification (`Decode`).
  - `Decode` is proved to produce running sums and to give at most one point
    per two characters.
  - It is proved to invert the standard encoder.
- **`DestinationStorage`**: the searched-destinations history, kept in a
  `DestinationStore` class whose field `data` holds what the storage key
  reads back as.
  - Saving finds the first matching entry (same id, same name, or nearby
    coordinates). It updates that entry in place or appends a new one.
  - The "popular" and "recent" queries sort in place (an insertion sort on an
    array) and slice.
- **`EventBus`**: a `Registry` class holding one ordered listener list per
  event name. It supports subscribe, the returned unsubscriber, and emit.
- **`RegisterScreen`**: the registration form's chain of five checks, where
  the first failure wins, and what happens when the form is valid. The
  authentication provider supplies no `register` function, so a valid form
  never registers (see "Findings").
- **`WeatherAlert`**: the next-hours precipitation window and its maximum,
  the umbrella flag, the banner chosen by thresholds, and the render gating.
- **`RouteMap`, `RouteMapImproved`, `RouteSegment`, `RouteVerticalCard`,
  `RouteDetailsModal`**: what the route components derive from
  already-built `Route` and `Segment` records (`RouteTypes`):
  - stroke colours;
  - drawn lines and stop markers;
  - the map viewport target;
  - itinerary row texts and icons;
  - the `parseInt`-based walking minutes;
  - badges and the transfer count.

The map in `RouteMapImproved` uses a third-party polyline decoder. The model
takes that decoder as a function-valued parameter. The first map uses the
project's own decoder, `PolylineDecoder.Decode`.

Where the design description and the code disagree, the model follows the
code:
- The displayed number of transfers is `buses + metro - 1` and is not
  clamped at zero, so a walking-only route shows -1
  (`RouteDetailsModal.Transfers`).
- The design describes other-transit lines as purple. Both maps draw them in
  the segment's colour, with orange as the default.
- The itinerary passes an `isLast` prop to each row. The row component never
  reads it and uses the segment's own `isLast` field instead
  (`RouteSegment.IsLastPropIgnored`,
  `RouteDetailsModal.FinalRowTextFollowsSegment`).

Conventions:
- An absent optional string field is the empty string. The two agree where
  a component tests the field for truthiness or renders it as a JSX child,
  which covers most uses. They differ in a template literal, which writes
  "undefined", and in a strict comparison, where `undefined` equals only
  `undefined`. The places where this matters are listed under "Left out".
- Map points are integers in units of 1e-5 degree.
- Stored coordinates are integers in millionths of a degree.

## Model

| member | source | states |
|---|---|---|
| PolylineDecoder.Decode | utils/polylineDecoder.ts:7 | an empty encoded string decodes to no points |
| PolylineDecoder.ReadChunk | utils/polylineDecoder.ts:15-19 | reading one chunk chain consumes at least one character of a non-empty input and never more than the input |
| PolylineDecoder.ReadChunkAt | utils/polylineDecoder.ts:16-19 | one character of a chain: when its code minus 63 is 32 or more, the chain's value is its low five bits plus 32 times the rest of the chain; otherwise the chain ends with its low five bits; past the end of the input the character reads as a terminating zero |
| PolylineDecoder.VarintStep | utils/polylineDecoder.ts:15-19 | after one character the loop's `result`, `index` and `shift` still describe the chain being read: the accumulated bits plus the shifted value of what remains |
| PolylineDecoder.ReadVarint | utils/polylineDecoder.ts:14-19 | the `do … while` loop reads exactly one chain: its raw value and the index after it agree with `ReadChunk` on the rest of the input, and the index advances by at least one |
| PolylineDecoder.Int32 | utils/polylineDecoder.ts:17 | the 32-bit reduction of the bitwise result is a signed 32-bit value and leaves values in [0, 2^31) unchanged |
| PolylineDecoder.Int32Congruent | utils/polylineDecoder.ts:17 | the reduction preserves the value modulo 2^32 |
| PolylineDecoder.ZigZag | utils/polylineDecoder.ts:21 | on a natural chain value the result is negative exactly for an odd value, and the standard signed encoding of the result gives the value back |
| PolylineDecoder.ZigZagEncode | utils/polylineDecoder.ts:21 | zig-zag decoding inverts the standard signed encoding, and the encoding is odd exactly for negative values |
| PolylineDecoder.ZigZagOntoNaturals | utils/polylineDecoder.ts:32 | encoding a decoded natural gives it back, so zig-zag decoding is a bijection from the naturals to the integers |
| PolylineDecoder.ReadPair | utils/polylineDecoder.ts:13-33 | one outer step consumes at least two characters or the whole rest of the input |
| PolylineDecoder.RunningSumsAt | utils/polylineDecoder.ts:22-37 | the k-th emitted point is the starting point plus the first k+1 latitude and longitude deltas |
| PolylineDecoder.DecodeIsRunningSum | utils/polylineDecoder.ts:9-37 | the decoder gives one point per delta pair, and the k-th point is the sum of the first k+1 deltas, starting from 0 |
| PolylineDecoder.Deltas | utils/polylineDecoder.ts:13-33 | the outer loop produces no delta pair exactly for the empty string |
| PolylineDecoder.DeltasCount | utils/polylineDecoder.ts:13-38 | the number of outer steps is at most ceil(len/2), and at least one for a non-empty input |
| PolylineDecoder.DecodeCount | utils/polylineDecoder.ts:13-38 | a non-empty input yields at least one point and never more than ceil(len/2) |
| PolylineDecoder.DeltasStep | utils/polylineDecoder.ts:13-33 | the two chains read by one pass give the first delta of what is left, followed by the deltas of what follows them |
| PolylineDecoder.OuterStep | utils/polylineDecoder.ts:13-38 | one pass of the outer loop pushes the next running sum and keeps the points pushed so far plus the points still to come equal to the decoder's result |
| PolylineDecoder.DecodePolyline | utils/polylineDecoder.ts:6-40 | the decoder loop returns exactly `Decode(encoded)` for every input whose chains have at most seven characters |
| PolylineDecoder.ReadEncodedNat | utils/polylineDecoder.ts:1-5 | reading the chunk chain of a natural recovers the natural and stops exactly at its end |
| PolylineDecoder.ReadEncodedValue | utils/polylineDecoder.ts:1-5 | a delta whose zig-zag code fits 32 bits is recovered from its encoding, and reading stops at its end |
| PolylineDecoder.DeltasOfEncode | utils/polylineDecoder.ts:1-5 | decoding the standard encoding of a sequence of 32-bit-range deltas recovers that sequence |
| PolylineDecoder.TruncatedAfterLatitude | utils/polylineDecoder.ts:26-30 | an input cut off after a latitude chain still yields a final point, with a longitude delta of 0 |
| EventBus.IndexOf | utils/eventBus.ts:11 | `indexOf` is -1 exactly when the callback is absent, and otherwise the first position holding it |
| EventBus.IndexOfIsFirst | utils/eventBus.ts:11 | a position holding the callback with none before it is the one `indexOf` finds |
| EventBus.RemoveFirst | utils/eventBus.ts:11-14 | an absent callback leaves the list unchanged (a no-op unsubscribe); otherwise exactly one occurrence (the first) is removed and the others keep their order |
| EventBus.SubscribeThenUnsubscribe | utils/eventBus.ts:7-15 | subscribing a new callback and then calling its unsubscriber restores the list |
| EventBus.SubscribeThenUnsubscribeDuplicate | utils/eventBus.ts:7-15 | when the callback was already registered, its unsubscriber removes the earlier registration, so the same listeners remain with the new one at the end |
| EventBus.Registry.constructor | utils/eventBus.ts:3-4 | the registry starts with no lists |
| EventBus.Registry.CreateEventListener | utils/eventBus.ts:2-16 | the event's list is created if absent and the callback is appended at its end; no other event's list changes; the unsubscriber names the event and the callback |
| EventBus.Registry.Unsubscribe | utils/eventBus.ts:10-15 | the first occurrence of the callback is removed from its event's list, and no other list changes |
| EventBus.Registry.EmitEvent | utils/eventBus.ts:18-21 | every listener of the event is invoked once, in registration order; an event without a list invokes nothing |
| RegisterScreen.HandleRegister | app/auth/RegisterScreen.tsx:31-62 | an alert exactly when some check fails, with the message of the first failing one; otherwise `register` is called with name, email and password; when it resolves, navigation to the tabs follows exactly a truthy answer; when it throws, the handler ends with neither an alert nor navigation |
| RegisterScreen.MessagesDistinct | app/auth/RegisterScreen.tsx:33-56 | the five messages are pairwise distinct, so an alert identifies its check |
| RegisterScreen.EmptyPasswordIsMissing | app/auth/RegisterScreen.tsx:43-50 | an empty password is reported as missing, not as too short |
| RegisterScreen.SixCharactersSuffice | app/auth/RegisterScreen.tsx:48-58 | a six-character password with a matching confirmation passes every check, so `register` is called |
| RegisterScreen.FiveCharactersRefused | app/auth/RegisterScreen.tsx:48-51 | a five-character password is refused with the length message |
| RegisterScreen.ProvidedRegister | context/AuthContext.tsx:17-25 | the provider's context value has no `register`, so calling it throws for every set of credentials |
| RegisterScreen.ValidFormNeverRegisters | app/auth/RegisterScreen.tsx:20-61 | with the provider as written, a form that passes every check ends in the failed call: no alert and no navigation |
| RegisterScreen.ValidFormExample | app/auth/RegisterScreen.tsx:20-61 | a concrete valid form ("Ana", "ana@example.com", "secreto" twice) that stays on the screen |
| RegisterScreen.ResolvingRegisterDecidesNavigation | app/auth/RegisterScreen.tsx:58-61 | with a `register` that resolves, a valid form calls it with its name, email and password and navigates exactly when the answer is truthy |
| WeatherAlert.NextHours | components/WeatherAlert.tsx:45-48 | the window holds at most six entries, `min(hour + 6, length) - hour` of them (none past the end), namely the probabilities from the current hour on |
| WeatherAlert.MaxOf | components/WeatherAlert.tsx:49 | `Math.max` of the window is -Infinity exactly for an empty window, and otherwise an element no smaller than any other |
| WeatherAlert.NextHoursCoverCurrent | components/WeatherAlert.tsx:41-49 | within the forecast the next-hours maximum is a number, at least the current probability, attained within the next six hours |
| WeatherAlert.PastTheForecast | components/WeatherAlert.tsx:41-49 | past the end of the forecast the current probability is undefined and the maximum is -Infinity |
| WeatherAlert.UmbrellaMonotone | components/WeatherAlert.tsx:86 | the umbrella flag is off without data, and raising either probability never turns it off |
| WeatherAlert.SelectBanner | components/WeatherAlert.tsx:89-105 | red "imminent" exactly when p >= 70; orange "possible" exactly when 40 <= p < 70; orange "next hours" exactly when p < 40 and the maximum is >= 60; otherwise blue "stable" |
| WeatherAlert.UmbrellaMeansWarning | components/WeatherAlert.tsx:86-105 | whenever the umbrella flag is set, the banner is a warning |
| WeatherAlert.FortyPercentBoundary | components/WeatherAlert.tsx:86-100 | at exactly 40% the banner is orange while the strict umbrella flag is false |
| WeatherAlert.Render | components/WeatherAlert.tsx:66-83 | nothing when dismissed or loading without data; the error panel exactly for an error without data; the banner exactly when shown with data |
| RouteTypes.MetroCount | components/RouteDetailsModal.tsx:63 | an absent metro list counts as 0, a present one as its length |
| RouteSegment.WalkingInstruction | components/RouteSegment.tsx:29 | the final-destination text exactly when the segment is marked last; otherwise "Hacia: " and the next stop, or the fallback when it is empty |
| RouteSegment.TransitIcon | components/RouteSegment.tsx:63-65 | the subway icon exactly for SUBWAY, the tram icon exactly for TRAM, and the train icon for every other vehicle type |
| RouteSegment.RenderSegment | components/RouteSegment.tsx:9-89 | walking, bus and other-transit rows exactly for those kinds and nothing for metro or unknown kinds; the walking title prefix follows `isFirst`; a bus's title is its name or "Bus"; a transit title is its name or the vehicle type; bus and transit rows show the segment's colour, stops and duration as given, and a walking row its duration |
| RouteSegment.BusTitleNeverEmpty | components/RouteSegment.tsx:50 | a bus row's title is never empty |
| RouteSegment.IsLastPropIgnored | components/RouteSegment.tsx:9-89 | the row does not depend on the `isLast` prop |
| RouteSegment.WalkingTargetNeverEmpty | components/RouteSegment.tsx:29 | a walking row's instruction always names a target |
| RouteMap.StrokeColor | components/RouteMap.tsx:50-56 | green for walking; the segment's colour or blue for a bus; the segment's colour or orange for every other kind, metro included; never empty |
| RouteMap.SegmentLines | components/RouteMap.tsx:46-66 | one line per segment, in order, with the decoded points and the stroke colour |
| RouteMap.StopMarkerOf | components/RouteMap.tsx:73-80 | the marker sits at the first decoded point, titled with the departure stop and described as "Bus" or "Transporte" with the name |
| RouteMap.StopMarkers | components/RouteMap.tsx:69-90 | every bus or other-transit segment that decodes to a point gets its marker, and every marker comes from such a segment |
| RouteMap.StopMarkersInOrder | components/RouteMap.tsx:69-89 | the markers are exactly those of the segments that get one (`HasStopMarker`: bus or other transit, with a decoded point), one each, in segment order |
| RouteMap.RouteMapContents | components/RouteMap.tsx:46-100 | with a selected route, its lines and stop markers; without one, only the directions widget |
| RouteMap.NoStopsWithoutBusOrTransit | components/RouteMap.tsx:69-70 | a route of only walking and metro segments gets no stop markers |
| RouteMapImproved.DecodePolyline | components/RouteMap_improved.tsx:107-117 | no points for an empty string or when the library throws; otherwise the library's points |
| RouteMapImproved.StrokeColor | components/RouteMap_improved.tsx:314-322 | green for walking; the segment's colour or blue for a bus; always `#FF5722` for metro; the segment's colour or orange otherwise |
| RouteMapImproved.ColourRulesDiffer | components/RouteMap_improved.tsx:314-322 | the two maps agree on every kind but metro, where they differ unless the segment's colour is `#FF5722` |
| RouteMapImproved.SegmentLines | components/RouteMap_improved.tsx:301-333 | exactly the segments with a non-empty polyline that decodes to points draw a line, and no drawn line is empty |
| RouteMapImproved.SegmentLinesInOrder | components/RouteMap_improved.tsx:301-333 | the drawn lines are exactly the lines of the drawable segments, one each, in segment order |
| RouteMapImproved.OverviewOnlyWithoutSegments | components/RouteMap_improved.tsx:336-343 | the overview polyline is never drawn together with segment lines or the directions widget |
| RouteMapImproved.AllPoints | components/RouteMap_improved.tsx:127-134 | segments without a polyline contribute no points |
| RouteMapImproved.AllPointsConcat | components/RouteMap_improved.tsx:127-134 | collecting points over two runs of segments concatenates their points |
| RouteMapImproved.AllPointsFromSegments | components/RouteMap_improved.tsx:127-134 | every collected point comes from some segment's decoded polyline, and every such point is collected |
| RouteMapImproved.FitPoints | components/RouteMap_improved.tsx:123-169 | the fit target is never empty |
| RouteMapImproved.FitTargetPoints | components/RouteMap_improved.tsx:123-169 | every fit-target point is the origin, the destination, or a decoded point of the segments (with segments) or of the active polyline (without) |
| RouteMapImproved.FitTarget | components/RouteMap_improved.tsx:120-170 | the effect fits nothing before the map exists; otherwise the loop's collected target equals `FitPoints` and is never empty |
| RouteMapImproved.StopPair | components/RouteMap_improved.tsx:349-382 | a bus or metro segment gets exactly two markers, at its first and last decoded points, when it draws, and none otherwise; missing stop names read "Salida"/"Llegada" |
| RouteMapImproved.KindStops | components/RouteMap_improved.tsx:346-384 | twice as many markers as drawable segments of the kind, both of each such segment's markers included |
| RouteMapImproved.PairsLineUp | components/RouteMap_improved.tsx:349-382 | over drawable segments the `k`-th segment's departure and arrival markers sit at positions `2k` and `2k + 1` |
| RouteMapImproved.KindStopsInOrder | components/RouteMap_improved.tsx:346-384 | one kind's markers are the pairs of the drawable segments of that kind, in segment order |
| RouteMapImproved.StopMarkers | components/RouteMap_improved.tsx:346-425 | bus stops then metro stations, two per drawable segment; none without a route or segments |
| RouteMapImproved.UndrawableSegmentsAddNothing | components/RouteMap_improved.tsx:302-310 | segments that draw no line get no markers either |
| RouteMapImproved.PoiColor | components/RouteMap_improved.tsx:173-194 | a listed place type's colour, and the grey fallback exactly for unlisted types |
| RouteMapImproved.PoiIcon | components/RouteMap_improved.tsx:196-217 | a listed place type's icon, and `location` exactly for unlisted types |
| RouteMapImproved.ReportIcon | components/RouteMap_improved.tsx:220-229 | a listed category's icon, and `help-circle` exactly for `other` and unlisted categories |
| RouteMapImproved.ReportColor | components/RouteMap_improved.tsx:231-240 | a listed category's colour, and grey exactly for `other` and unlisted categories |
| RouteVerticalCard.Add | components/RouteVerticalCard.tsx:42 | NaN exactly when an operand is NaN, the sum otherwise |
| RouteVerticalCard.ParseInt | components/RouteVerticalCard.tsx:42 | blank text is NaN, and a negative value needs a minus sign after the leading white space |
| RouteVerticalCard.ValueOfDecimal | components/RouteVerticalCard.tsx:42 | reading the digits of a decimal numeral gives back its number |
| RouteVerticalCard.ParseLeadingInteger | components/RouteVerticalCard.tsx:42 | `parseInt` of a numeral followed by nothing or by a space (as in "5 mins") is that number |
| RouteVerticalCard.NonNumericIsNaN | components/RouteVerticalCard.tsx:42 | a text starting with neither space, sign nor digit parses as NaN |
| RouteVerticalCard.WalkingSegments | components/RouteVerticalCard.tsx:42 | the filter keeps only walking segments |
| RouteVerticalCard.WalkingTotalIsNaN | components/RouteVerticalCard.tsx:42 | the total is NaN exactly when some walking duration has no leading integer |
| RouteVerticalCard.SumDurations | components/RouteVerticalCard.tsx:42 | the reduce stays NaN once its accumulator is NaN, and gives a number when it starts from one and every duration has a leading integer |
| RouteVerticalCard.FoldIsTotal | components/RouteVerticalCard.tsx:42 | the reduce over the filtered list adds the reference total to its accumulator |
| RouteVerticalCard.WalkingMinutes | components/RouteVerticalCard.tsx:42 | the shown minutes are the sum of the walking durations' leading integers, and NaN exactly when one has none |
| RouteVerticalCard.OnlyWalkingCounts | components/RouteVerticalCard.tsx:42 | non-walking segments never change the minutes |
| RouteVerticalCard.TwoWalks | components/RouteVerticalCard.tsx:42 | walks of "5 mins" and "12 mins" show 17 |
| RouteVerticalCard.BusItems | components/RouteVerticalCard.tsx:46-56 | one entry per bus, in order, with its colour or blue, its name and its stops |
| RouteVerticalCard.MetroItems | components/RouteVerticalCard.tsx:58-68 | one entry per metro leg, in order, with its line and stops |
| RouteVerticalCard.RenderCard | components/RouteVerticalCard.tsx:28-68 | the bus badge counts the buses; the metro badge appears exactly for a non-empty metro list and counts it; the list shows the buses then the metro legs |
| RouteVerticalCard.BadgesCountItems | components/RouteVerticalCard.tsx:28-68 | the list is as long as the two badges add up to |
| RouteDetailsModal.Transfers | components/RouteDetailsModal.tsx:63 | transfers plus one equals the number of bus and metro legs; -1 exactly when there are none |
| RouteDetailsModal.OneLegNoTransfer | components/RouteDetailsModal.tsx:63 | a single bus leg shows 0 transfers |
| RouteDetailsModal.WalkingOnlyShowsMinusOne | components/RouteDetailsModal.tsx:63 | a route without transit legs shows -1 |
| RouteDetailsModal.Rows | components/RouteDetailsModal.tsx:86-91 | one row per segment, in order, flagged last exactly at the final index, rendered by the row component |
| RouteDetailsModal.ExactlyOneLastRow | components/RouteDetailsModal.tsx:86-91 | a non-empty itinerary has exactly one row flagged last, the final one |
| RouteDetailsModal.FinalRowTextFollowsSegment | components/RouteDetailsModal.tsx:86-91 | the final row's walking text follows the segment's own flag, not the row's |
| RouteDetailsModal.RenderDetails | components/RouteDetailsModal.tsx:22-92 | nothing for a null route; otherwise its transfers and its rows |
| DestinationStorage.ParseStored | utils/destinationStorage.ts:20-37 | a stored array reads back as itself; absent, unreadable, unparseable or non-array data reads back as the empty list |
| DestinationStorage.FindMatch | utils/destinationStorage.ts:48-67 | the first entry with the same non-empty id, the same name, or coordinates within 0.001 degree in both axes; -1 exactly when none matches |
| DestinationStorage.Updated | utils/destinationStorage.ts:71-81 | the matched entry gains one use and `lastUsed = now`; address and icon are replaced only by non-empty values; id, name and coordinates are kept |
| DestinationStorage.Inserted | utils/destinationStorage.ts:84-90 | a new entry carries the given fields, one use and `lastUsed = now` |
| DestinationStorage.Upsert | utils/destinationStorage.ts:71-90 | the list written back grows by one exactly when no stored entry matches, and keeps its length otherwise |
| DestinationStorage.SavedEntriesKeepMatching | utils/destinationStorage.ts:48-90 | a destination matches the entry it is first saved as, and an entry that matches it keeps matching after every later update |
| DestinationStorage.UpsertUpdatesMatch | utils/destinationStorage.ts:71-81 | on a match only that entry changes, in place, and the length is kept |
| DestinationStorage.UpsertAppends | utils/destinationStorage.ts:84-90 | without a match the new entry is appended and the length grows by one |
| DestinationStorage.UpsertKeepsEntries | utils/destinationStorage.ts:71-90 | no entry is removed or moved; every entry keeps its id, name and coordinates; every non-matching entry is unchanged |
| DestinationStorage.UpsertCountsOneUse | utils/destinationStorage.ts:71-90 | every save adds exactly one to the total use count |
| DestinationStorage.UpsertLeavesMatch | utils/destinationStorage.ts:48-90 | after a save the list holds an entry matching the saved destination |
| DestinationStorage.SavingTwiceDoesNotGrow | utils/destinationStorage.ts:48-90 | saving the same destination twice grows the list at most once |
| DestinationStorage.InsertInto | utils/destinationStorage.ts:108-109 | one insertion step extends the sorted prefix by one cell and permutes the array |
| DestinationStorage.SortDescending | utils/destinationStorage.ts:108-109 | the in-place sort leaves the array non-increasing by the key and a permutation of what it was |
| DestinationStorage.SliceEnd | utils/destinationStorage.ts:110 | `slice(0, limit)` keeps `min(limit, n)` entries, and for a negative limit counts from the end |
| DestinationStorage.SortedPrefix | utils/destinationStorage.ts:108-110 | a prefix of a sorted permutation is sorted, drawn from the list, and no left-out entry has a larger key |
| DestinationStorage.TopBy | utils/destinationStorage.ts:108-110 | sort-then-slice returns `SliceEnd` entries, sorted, drawn from the list, with no left-out entry ranking higher |
| DestinationStorage.DestinationStore.constructor | utils/destinationStorage.ts:17 | the store holds the given contents of the storage key |
| DestinationStorage.DestinationStore.GetDestinations | utils/destinationStorage.ts:20-37 | the stored list, or the empty list when the data is absent or unusable |
| DestinationStorage.DestinationStore.SaveDestination | utils/destinationStorage.ts:40-101 | when the write succeeds, the key holds the upserted list; when it fails, the error is passed on and the stored data is unchanged |
| DestinationStorage.DestinationStore.GetPopularDestinations | utils/destinationStorage.ts:104-115 | with the default limit 4, the entries with the highest counts: sorted by count, `min(limit, n)` of them, drawn from the history |
| DestinationStorage.DestinationStore.GetRecentDestinations | utils/destinationStorage.ts:118-129 | with the default limit 3, the most recently used entries: sorted by `lastUsed`, `min(limit, n)` of them, drawn from the history |
| DestinationStorage.UnreadableHistoryIsReplaced | utils/destinationStorage.ts:22-45 | a save over unreadable data starts from the empty list and writes the new destination alone |

## Left out

- PolylineDecoder.DecodePolyline: requires every chunk chain to have at most seven characters. From the eighth character on, JavaScript takes the shift count modulo 32, which the model does not reproduce. `Decode` is defined for every input.
- PolylineDecoder: the points are integers in units of 1e-5 degree. The final multiplication by `1e-5` into floating point is not modelled.
- PolylineDecoder: a string is a sequence of Unicode scalar values, while JavaScript's `charCodeAt` reads UTF-16 code units. A character outside the Basic Multilingual Plane is one character here but two code units there. Every character of an encoded polyline is ASCII.
- DestinationStorage: the storage key-value store, `JSON.parse` and `JSON.stringify` are not modelled. `Stored` represents what the key reads back as, and a write's success is a parameter.
- DestinationStorage: the clock (`Date.now()`) is a parameter, and the console logging is left out.
- DestinationStorage: coordinates are integers in millionths of a degree, so the 0.001 degree test becomes a difference below 1000. Floating-point rounding is not modelled.
- DestinationStorage: a missing `count` in stored data is represented as 0. This is faithful only for the update, where `count || 0` reads it (utils/destinationStorage.ts:75).
- DestinationStorage.Matches: every stored entry has a `name`. In JavaScript a stored entry without a `name` does not match a destination whose name is the empty string (`undefined !== ""`), while in the model both names are empty and match.
- DestinationStorage.DestinationStore.GetPopularDestinations: entries without a numeric `count` are outside the model. In JavaScript the comparator `b.count - a.count` is then NaN, and the resulting order is implementation-defined.
- DestinationStorage.DestinationStore.GetRecentDestinations: entries without a numeric `lastUsed` are outside the model, for the same reason with `b.lastUsed - a.lastUsed`.
- DestinationStorage.SortDescending: the sort is an insertion sort by adjacent swaps. The proof covers order and permutation, not the stability of `Array.prototype.sort`.
- EventBus: what a callback does when invoked is not modelled. This includes a callback that unsubscribes during `emitEvent`. The registry's keys are event names, not the `${eventName}Listeners` properties of the global object.
- RegisterScreen: `password.length` counts UTF-16 code units. Here it counts characters.
- RegisterScreen: fetching through `register` is a parameter: resolving to a truthy or falsy value, or throwing. As the authentication provider is written, it always throws (see "Findings").
- WeatherAlert: fetching the forecast, the clock that gives the current hour, and the displayed temperature are not modelled. Precipitation probabilities are integer percentages.
- RouteMap.StopMarkerOf: the title and description are template literals. An absent `departureStop` renders as "Parada: undefined" and an absent `name` as "Bus: undefined". The model renders both fields as the empty string.
- RouteMap.SegmentLines: the first map decodes with `PolylineDecoder.Decode`. That function agrees with the JavaScript decoder only on chains of at most seven characters. On longer chains the JavaScript shift count wraps modulo 32, and this is not modelled.
- RouteMap.StopMarkerOf: the same restriction to chains of at most seven characters applies to the decoded first point.
- RouteSegment: departure times and numbers of stops are passed through as text and are not modelled.
- RouteMapImproved: the library decoder is a parameter.
- RouteMapImproved: null entries in the segment list are not modelled. Every segment is a record.
- RouteMapImproved: the overview polyline's points and colour are not modelled, only the condition for drawing it.
- RouteMapImproved: the API-key condition on the directions widget is configuration and is not modelled.
- RouteMapImproved: the speed-limit, school-zone, audio-point and report layers are left out, except for the colour and icon lookups.
- RouteMapImproved.PoiColor: a key inherited from `Object.prototype` (such as `constructor`) is not modelled.
- RouteMapImproved.PoiIcon: the same holds for keys inherited from `Object.prototype`.
- RouteMapImproved.ReportIcon: the same holds for keys inherited from `Object.prototype`.
- RouteMapImproved.ReportColor: the same holds for keys inherited from `Object.prototype`.
- RouteVerticalCard: `parseInt` is modelled on integers. It does not model the loss of precision beyond 2^53 or the value -0.
- RouteVerticalCard, RouteDetailsModal: times, durations, fares and distances shown as plain text are not modelled.
- Building `Route` and `Segment` records from the routing provider's response happens in screens that are not part of this model. This covers leg classification, metro-line resolution and fares.

## Findings

| source | as written | input that shows it | evidently intended | confidence | as-written member | corrected member |
|---|---|---|---|---|---|---|
| app/auth/RegisterScreen.tsx:20 | the screen takes `register` from the authentication context, whose type and provider value (context/AuthContext.tsx:17-25, context/AuthContext.tsx:212-220) have no such member, so `await register(...)` throws a TypeError | a form passing all five checks: name "Ana", email "ana@example.com", password and confirmation "secreto" | the account is created and the screen navigates to the tabs when `register` answers truthy | not executed | RegisterScreen.ValidFormNeverRegisters | RegisterScreen.ResolvingRegisterDecidesNavigation |

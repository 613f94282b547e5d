/** The rain banner (components/WeatherAlert.tsx): from the hourly
    precipitation probabilities (integer percentages) and the current hour it
    derives the current probability and the maximum over the next hours, then
    picks a colour, message and icon by thresholds. Fetching the forecast,
    the clock and the displayed temperature are not modelled: the hourly
    list and the hour are parameters. */
module WeatherAlert {
  import opened Common

  /** A number that may be `-Infinity`, the value of `Math.max()` with no
      arguments. */
  datatype Extended = NegInfinity | Finite(value: int)

  /** `precipitation_probability.slice(hour, Math.min(hour + 6, length))`. */
  function NextHours(probs: seq<int>, hour: nat): (w: seq<int>)
    ensures |w| <= 6
    ensures |w| == Max(0, Min(hour + 6, |probs|) - hour)
    ensures forall i :: 0 <= i < |w| ==> hour + i < |probs| && w[i] == probs[hour + i]
  {
    if hour >= |probs| then [] else probs[hour..Min(hour + 6, |probs|)]
  }

  /** `Math.max(...w)`. */
  function MaxOf(w: seq<int>): (m: Extended)
    ensures m.NegInfinity? <==> w == []
    ensures m.Finite? ==> m.value in w && forall x :: x in w ==> x <= m.value
  {
    if w == [] then NegInfinity
    else
      var rest := MaxOf(w[1..]);
      assert forall x :: x in w ==> x == w[0] || x in w[1..];
      if rest.NegInfinity? || w[0] >= rest.value then Finite(w[0]) else rest
  }

  /** `precipitation_probability[hour]`, undefined past the end. */
  function CurrentProbability(probs: seq<int>, hour: nat): Option<int> {
    if hour < |probs| then Some(probs[hour]) else None
  }

  datatype WeatherData = WeatherData(precipitationProbability: Option<int>, nextHoursMaxPrecipitation: Extended)

  function Summarize(probs: seq<int>, hour: nat): WeatherData {
    WeatherData(CurrentProbability(probs, hour), MaxOf(NextHours(probs, hour)))
  }

  /** The window includes the current hour, so within the forecast the
      next-hours maximum is a number no smaller than the current
      probability, and it ranges over at most six hours. */
  lemma NextHoursCoverCurrent(probs: seq<int>, hour: nat)
    requires hour < |probs|
    ensures Summarize(probs, hour).nextHoursMaxPrecipitation.Finite?
    ensures Summarize(probs, hour).nextHoursMaxPrecipitation.value >= probs[hour]
    ensures exists i :: hour <= i < Min(hour + 6, |probs|) && probs[i] == Summarize(probs, hour).nextHoursMaxPrecipitation.value
  {
    var w := NextHours(probs, hour);
    assert w[0] == probs[hour];
    var m := MaxOf(w).value;
    var i :| 0 <= i < |w| && w[i] == m;
    assert probs[hour + i] == m;
  }

  /** Past the end of the forecast there is no current value and the maximum
      of the empty window is -Infinity. */
  lemma PastTheForecast(probs: seq<int>, hour: nat)
    requires hour >= |probs|
    ensures Summarize(probs, hour) == WeatherData(None, NegInfinity)
  {
  }

  /** `p >= t`, false when `p` is undefined. */
  predicate AtLeast(p: Option<int>, t: int) {
    p.Some? && p.value >= t
  }

  /** `p > t`, false when `p` is undefined. */
  predicate Above(p: Option<int>, t: int) {
    p.Some? && p.value > t
  }

  /** `m >= t`, false for -Infinity. */
  predicate ExtAtLeast(m: Extended, t: int) {
    m.Finite? && m.value >= t
  }

  /** `m > t`, false for -Infinity. */
  predicate ExtAbove(m: Extended, t: int) {
    m.Finite? && m.value > t
  }

  /** `needsUmbrella`: strict thresholds, 40 now or 60 in the next hours. */
  predicate NeedsUmbrella(d: WeatherData) {
    Above(d.precipitationProbability, 40) || ExtAbove(d.nextHoursMaxPrecipitation, 60)
  }

  /** Without data the flag is off, and raising either probability never
      turns it off. */
  lemma UmbrellaMonotone(d: WeatherData, e: WeatherData)
    requires d.precipitationProbability.Some? ==>
      e.precipitationProbability.Some? && e.precipitationProbability.value >= d.precipitationProbability.value
    requires d.nextHoursMaxPrecipitation.Finite? ==>
      e.nextHoursMaxPrecipitation.Finite? && e.nextHoursMaxPrecipitation.value >= d.nextHoursMaxPrecipitation.value
    ensures !NeedsUmbrella(WeatherData(None, NegInfinity))
    ensures NeedsUmbrella(d) ==> NeedsUmbrella(e)
  {
  }

  datatype Banner = Banner(backgroundColor: string, message: string, icon: string)

  const Stable := Banner("#3498db", "Clima estable", "sunny")
  const Imminent := Banner("#e74c3c", "¡Lluvia inminente! Lleva sombrilla", "rainy")
  const Possible := Banner("#f39c12", "Posible lluvia. Considera llevar sombrilla", "umbrella")
  const Upcoming := Banner("#f39c12", "Lluvia en las próximas horas. Lleva sombrilla", "umbrella")

  /** The if/else chain reassigning `backgroundColor`, `message` and `icon`,
      which start as the stable-weather banner. */
  function SelectBanner(d: WeatherData): (b: Banner)
    ensures b == Imminent <==> AtLeast(d.precipitationProbability, 70)
    ensures b == Possible <==> AtLeast(d.precipitationProbability, 40) && !AtLeast(d.precipitationProbability, 70)
    ensures b == Upcoming <==> !AtLeast(d.precipitationProbability, 40) && ExtAtLeast(d.nextHoursMaxPrecipitation, 60)
    ensures b == Stable <==> !AtLeast(d.precipitationProbability, 40) && !ExtAtLeast(d.nextHoursMaxPrecipitation, 60)
  {
    var p, m := d.precipitationProbability, d.nextHoursMaxPrecipitation;
    assert Stable.icon[0] == 's' && Imminent.icon[0] == 'r' && Possible.icon[0] == 'u';
    assert |Possible.message| == 42 && |Upcoming.message| == 45;
    if AtLeast(p, 70) then Imminent
    else if AtLeast(p, 40) then Possible
    else if ExtAtLeast(m, 60) then Upcoming
    else Stable
  }

  /** Whenever the umbrella flag is set, the banner is a warning. */
  lemma UmbrellaMeansWarning(d: WeatherData)
    requires NeedsUmbrella(d)
    ensures SelectBanner(d) != Stable
  {
  }

  /** The converse fails at the boundary: at exactly 40% (and a next-hours
      maximum of 40%) the banner is orange while the flag is false. */
  lemma FortyPercentBoundary()
    ensures SelectBanner(WeatherData(Some(40), Finite(40))) == Possible
    ensures !NeedsUmbrella(WeatherData(Some(40), Finite(40)))
  {
  }

  /** What the component renders. */
  datatype View = Nothing | ErrorPanel(message: string) | Shown(banner: Banner)

  /** The render gating: nothing when dismissed or loading without data; the
      error panel only for an error without data; otherwise the banner when
      there is data. */
  function Render(showAlert: bool, loading: bool, data: Option<WeatherData>, error: string): (v: View)
    ensures v.Shown? <==> showAlert && data.Some?
    ensures v.ErrorPanel? <==> showAlert && !loading && error != "" && data.None?
    ensures v.ErrorPanel? ==> v.message == error
    ensures v.Shown? ==> v.banner == SelectBanner(data.value)
  {
    if !showAlert || (loading && data.None?) then Nothing
    else if error != "" && data.None? then ErrorPanel(error)
    else if data.None? then Nothing
    else Shown(SelectBanner(data.value))
  }
}

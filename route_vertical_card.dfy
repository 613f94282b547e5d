/** The route option card (components/RouteVerticalCard.tsx): the bus and
    metro badges, the walking minutes summed with JavaScript's `parseInt`,
    and the list of transit legs. Times, duration, fare and distance are
    passed through as text and are not modelled. */
module RouteVerticalCard {
  import opened Common
  import opened RouteTypes

  /** A JavaScript number as far as this card needs one: an integer or NaN. */
  datatype Number = NaN | Num(value: int)

  /** JavaScript `+` on numbers: NaN absorbs. */
  function Add(a: Number, b: Number): (r: Number)
    ensures r.NaN? <==> a.NaN? || b.NaN?
    ensures r.Num? ==> r.value == a.value + b.value
  {
    if a.NaN? || b.NaN? then NaN else Num(a.value + b.value)
  }

  lemma AddAssociative(a: Number, b: Number, c: Number)
    ensures Add(Add(a, b), c) == Add(a, Add(b, c))
  {
  }

  lemma AddZero(a: Number)
    ensures Add(Num(0), a) == a
  {
  }

  /** The white space and line terminators `parseInt` skips first. */
  predicate IsSpace(c: char) {
    c == '\t' || c == '\n' || c == '\U{B}' || c == '\U{C}' || c == '\r' || c == ' ' ||
    c == '\U{A0}' || c == '\U{1680}' || ('\U{2000}' <= c <= '\U{200A}') || c == '\U{2028}' ||
    c == '\U{2029}' || c == '\U{202F}' || c == '\U{205F}' || c == '\U{3000}' || c == '\U{FEFF}'
  }

  function SkipSpace(s: string): string {
    if s != [] && IsSpace(s[0]) then SkipSpace(s[1..]) else s
  }

  /** The value of a digit in radix up to 16; 16 for any other character. */
  function DigitValue(c: char): (d: nat)
    ensures d <= 16
    ensures d < 10 <==> '0' <= c <= '9'
  {
    if '0' <= c <= '9' then c as int - '0' as int
    else if 'a' <= c <= 'f' then c as int - 'a' as int + 10
    else if 'A' <= c <= 'F' then c as int - 'A' as int + 10
    else 16
  }

  /** The values of the longest prefix of digits in the given radix. */
  function LeadingDigits(s: string, radix: nat): seq<nat> {
    if s == [] || DigitValue(s[0]) >= radix then []
    else [DigitValue(s[0])] + LeadingDigits(s[1..], radix)
  }

  /** A digit string's value, most significant digit first. */
  function ValueOf(ds: seq<nat>, radix: nat): nat {
    if ds == [] then 0 else ValueOf(ds[..|ds| - 1], radix) * radix + ds[|ds| - 1]
  }

  /** A run of digits in the given radix; NaN when there is none. */
  function ParseDigits(v: string, radix: nat): Number {
    var ds := LeadingDigits(v, radix);
    if ds == [] then NaN else Num(ValueOf(ds, radix))
  }

  /** After the sign: radix 16 behind a `0x`/`0X` prefix, else radix 10. */
  function ParseUnsigned(u: string): Number {
    if |u| >= 2 && u[0] == '0' && (u[1] == 'x' || u[1] == 'X') then ParseDigits(u[2..], 16)
    else ParseDigits(u, 10)
  }

  function Negate(x: Number): Number {
    if x.NaN? then NaN else Num(-x.value)
  }

  /** `parseInt(s)` with no radix: skip white space, take an optional sign,
      switch to radix 16 after a `0x`/`0X` prefix, read the longest run of
      digits; NaN when there is none. */
  function ParseInt(s: string): (r: Number)
    ensures SkipSpace(s) == [] ==> r.NaN?
    ensures r.Num? && r.value < 0 ==> SkipSpace(s) != [] && SkipSpace(s)[0] == '-'
  {
    var t := SkipSpace(s);
    if t != [] && t[0] == '-' then Negate(ParseUnsigned(t[1..]))
    else if t != [] && t[0] == '+' then ParseUnsigned(t[1..])
    else ParseUnsigned(t)
  }

  function DigitChar(d: nat): (c: char)
    requires d < 10
    ensures DigitValue(c) == d
  {
    ('0' as int + d) as char
  }

  /** The decimal numeral of `n`, as the routing service writes the integer
      part of a duration. */
  function Decimal(n: nat): (s: string)
    ensures |s| > 0
    ensures forall k :: 0 <= k < |s| ==> DigitValue(s[k]) < 10
  {
    if n < 10 then [DigitChar(n)] else Decimal(n / 10) + [DigitChar(n % 10)]
  }

  /** The digit values of a string of digits. */
  function Values(d: string): (vs: seq<nat>)
    ensures |vs| == |d|
  {
    if d == [] then [] else [DigitValue(d[0])] + Values(d[1..])
  }

  lemma {:induction false} ValuesSnoc(p: string, c: char)
    ensures Values(p + [c]) == Values(p) + [DigitValue(c)]
  {
    if p == [] {
      assert p + [c] == [c];
    } else {
      assert (p + [c])[0] == p[0];
      assert (p + [c])[1..] == p[1..] + [c];
      ValuesSnoc(p[1..], c);
    }
  }

  /** Reading the digits of a numeral recovers its number. */
  lemma {:induction false} ValueOfDecimal(n: nat)
    ensures ValueOf(Values(Decimal(n)), 10) == n
  {
    if n >= 10 {
      ValueOfDecimal(n / 10);
      ValuesSnoc(Decimal(n / 10), DigitChar(n % 10));
      var vs := Values(Decimal(n));
      assert vs[..|vs| - 1] == Values(Decimal(n / 10));
    } else {
      assert Values(Decimal(n)) == [n];
    }
  }

  /** The digit run of a numeral stops where the numeral does. */
  lemma {:induction false} LeadingDigitsOfNumeral(d: string, suffix: string)
    requires forall k :: 0 <= k < |d| ==> DigitValue(d[k]) < 10
    requires suffix == [] || DigitValue(suffix[0]) >= 10
    ensures LeadingDigits(d + suffix, 10) == Values(d)
  {
    if d == [] {
      assert d + suffix == suffix;
    } else {
      assert (d + suffix)[0] == d[0];
      assert (d + suffix)[1..] == d[1..] + suffix;
      LeadingDigitsOfNumeral(d[1..], suffix);
    }
  }

  /** `parseInt` takes the leading integer of a duration such as "5 mins". */
  lemma ParseLeadingInteger(n: nat, suffix: string)
    requires suffix == [] || suffix[0] == ' '
    ensures ParseInt(Decimal(n) + suffix) == Num(n)
  {
    var d := Decimal(n);
    var s := d + suffix;
    assert DigitValue(' ') == 16;
    assert s[0] == d[0];
    assert SkipSpace(s) == s;
    assert !(|s| >= 2 && s[0] == '0' && (s[1] == 'x' || s[1] == 'X')) by {
      if |d| == 1 {
        assert |s| >= 2 ==> s[1] == suffix[0];
      } else {
        assert s[1] == d[1];
      }
    }
    LeadingDigitsOfNumeral(d, suffix);
    ValueOfDecimal(n);
    assert ParseUnsigned(s) == ParseDigits(s, 10);
  }

  /** A text with no digit after optional space and sign is NaN. */
  lemma NonNumericIsNaN(s: string)
    requires s != [] && !IsSpace(s[0]) && DigitValue(s[0]) >= 10 && s[0] != '-' && s[0] != '+'
    ensures ParseInt(s) == NaN
  {
  }

  /** The reference total: walking durations added up over the segment list,
      other segments contributing 0. */
  function WalkingTotal(segs: seq<Segment>): Number {
    if segs == [] then Num(0)
    else Add(if segs[0].kind == Walking then ParseInt(segs[0].duration) else Num(0), WalkingTotal(segs[1..]))
  }

  /** The total is NaN exactly when some walking duration has no leading
      integer. */
  lemma {:induction false} WalkingTotalIsNaN(segs: seq<Segment>)
    ensures WalkingTotal(segs).NaN? <==>
      exists i :: 0 <= i < |segs| && segs[i].kind == Walking && ParseInt(segs[i].duration).NaN?
  {
    if segs != [] {
      WalkingTotalIsNaN(segs[1..]);
      assert forall i :: 1 <= i < |segs| ==> segs[i] == segs[1..][i - 1];
    }
  }

  /** `segments.filter(s => s.type === 'WALKING')`. */
  function WalkingSegments(segs: seq<Segment>): (ws: seq<Segment>)
    ensures forall k :: 0 <= k < |ws| ==> ws[k].kind == Walking
  {
    if segs == [] then []
    else if segs[0].kind == Walking then [segs[0]] + WalkingSegments(segs[1..])
    else WalkingSegments(segs[1..])
  }

  /** `.reduce((acc, curr) => acc + parseInt(curr.duration), acc)`. */
  function SumDurations(acc: Number, ws: seq<Segment>): (r: Number)
    ensures acc.NaN? ==> r.NaN?
    ensures acc.Num? && (forall k :: 0 <= k < |ws| ==> ParseInt(ws[k].duration).Num?) ==> r.Num?
    decreases |ws|
  {
    if ws == [] then acc else SumDurations(Add(acc, ParseInt(ws[0].duration)), ws[1..])
  }

  /** Folding over the filtered list from an accumulator adds the reference
      total to it. */
  lemma {:induction false} FoldIsTotal(acc: Number, segs: seq<Segment>)
    ensures SumDurations(acc, WalkingSegments(segs)) == Add(acc, WalkingTotal(segs))
    decreases |segs|
  {
    if segs != [] {
      var x, rest := segs[0], segs[1..];
      var p := ParseInt(x.duration);
      if x.kind == Walking {
        FoldIsTotal(Add(acc, p), rest);
        var ws := WalkingSegments(rest);
        assert WalkingSegments(segs) == [x] + ws;
        assert ([x] + ws)[1..] == ws;
        assert SumDurations(acc, [x] + ws) == SumDurations(Add(acc, p), ws);
        assert WalkingTotal(segs) == Add(p, WalkingTotal(rest));
        AddAssociative(acc, p, WalkingTotal(rest));
      } else {
        FoldIsTotal(acc, rest);
        assert WalkingSegments(segs) == WalkingSegments(rest);
        assert WalkingTotal(segs) == Add(Num(0), WalkingTotal(rest));
        AddZero(WalkingTotal(rest));
      }
    }
  }

  /** The walking minutes shown: the filter-then-reduce over the segments. It
      is NaN exactly when some walking duration has no leading integer, and
      otherwise the sum of the walking durations' leading integers. */
  function WalkingMinutes(segs: seq<Segment>): (m: Number)
    ensures m == WalkingTotal(segs)
    ensures m.NaN? <==> exists i :: 0 <= i < |segs| && segs[i].kind == Walking && ParseInt(segs[i].duration).NaN?
  {
    FoldIsTotal(Num(0), segs);
    WalkingTotalIsNaN(segs);
    AddZero(WalkingTotal(segs));
    SumDurations(Num(0), WalkingSegments(segs))
  }

  /** Non-walking segments never change the minutes. */
  lemma {:induction false} OnlyWalkingCounts(segs: seq<Segment>, seg: Segment)
    requires seg.kind != Walking
    ensures WalkingMinutes([seg] + segs) == WalkingMinutes(segs)
  {
    assert ([seg] + segs)[1..] == segs;
  }

  /** Two walks of "5 mins" and "12 mins" show 17. */
  lemma TwoWalks(a: Segment, b: Segment)
    requires a.kind == Walking && a.duration == Decimal(5) + " mins"
    requires b.kind == Walking && b.duration == Decimal(12) + " mins"
    ensures WalkingMinutes([a, b]) == Num(17)
  {
    ParseLeadingInteger(5, " mins");
    ParseLeadingInteger(12, " mins");
    assert [a, b][1..] == [b];
    assert [b][1..] == [];
    assert WalkingTotal([b]) == Add(Num(12), WalkingTotal([])) == Num(12);
    assert WalkingTotal([a, b]) == Add(Num(5), WalkingTotal([b]));
  }

  const BusIconDefault := "#1976D2"

  /** One entry of the transit list. */
  datatype TransitItem =
    | BusItem(iconColor: string, text: string, from: string, to: string)
    | MetroItem(text: string, from: string, to: string)

  function BusItems(buses: seq<BusSummary>): (items: seq<TransitItem>)
    ensures |items| == |buses|
    ensures forall i :: 0 <= i < |buses| ==>
      items[i] == BusItem(if buses[i].color != "" then buses[i].color else BusIconDefault,
                          buses[i].name, buses[i].departureStop, buses[i].arrivalStop)
  {
    if buses == [] then []
    else
      var b := buses[0];
      [BusItem(OrElse(b.color, BusIconDefault), b.name, b.departureStop, b.arrivalStop)] + BusItems(buses[1..])
  }

  function MetroItems(metro: seq<Segment>): (items: seq<TransitItem>)
    ensures |items| == |metro|
    ensures forall i :: 0 <= i < |metro| ==>
      items[i] == MetroItem(metro[i].line, metro[i].departureStop, metro[i].arrivalStop)
  {
    if metro == [] then []
    else [MetroItem(metro[0].line, metro[0].departureStop, metro[0].arrivalStop)] + MetroItems(metro[1..])
  }

  /** What the card shows. */
  datatype Card = Card(busBadge: nat, metroBadge: Option<nat>, walkingMinutes: Number, items: seq<TransitItem>)

  /** The bus badge counts the buses; the metro badge is shown only when the
      route has a non-empty metro list; the list shows the buses, in order,
      then the metro legs, in order. */
  function RenderCard(r: Route): (c: Card)
    ensures c.busBadge == |r.buses|
    ensures c.metroBadge.Some? <==> r.metro.Some? && |r.metro.value| > 0
    ensures c.metroBadge.Some? ==> c.metroBadge.value == |r.metro.value|
    ensures c.walkingMinutes == WalkingMinutes(r.segments)
    ensures |c.items| == |r.buses| + MetroCount(r)
    ensures forall i :: 0 <= i < |r.buses| ==> c.items[i] == BusItems(r.buses)[i]
    ensures forall j :: 0 <= j < MetroCount(r) ==>
      c.items[|r.buses| + j] == MetroItem(r.metro.value[j].line, r.metro.value[j].departureStop, r.metro.value[j].arrivalStop)
  {
    var metroBadge := if r.metro.Some? && |r.metro.value| > 0 then Some(|r.metro.value|) else None;
    var metroItems := if r.metro.Some? then MetroItems(r.metro.value) else [];
    Card(|r.buses|, metroBadge, WalkingMinutes(r.segments), BusItems(r.buses) + metroItems)
  }

  /** The badges count the listed legs: the list is as long as the bus badge
      plus the metro badge (0 when it is hidden). */
  lemma BadgesCountItems(r: Route)
    ensures |RenderCard(r).items| == RenderCard(r).busBadge + (if RenderCard(r).metroBadge.Some? then RenderCard(r).metroBadge.value else 0)
  {
  }
}

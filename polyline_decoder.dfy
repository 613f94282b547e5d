/** The hand-written decoder of the Encoded Polyline Algorithm Format
    (utils/polylineDecoder.ts): each coordinate delta is a chain of 5-bit
    chunks, offset by 63 into printable characters, where a chunk value of 32
    or more says that another chunk follows; a chain's value is zig-zag
    decoded and the deltas are summed into latitude and longitude. */
module PolylineDecoder {
  import opened Common

  /** A pair of consecutive deltas, one output point's worth. */
  datatype Delta = Delta(dlat: int, dlng: int)

  /** One varint read: its value and what is left of the input after it. */
  datatype Chunk = Chunk(value: nat, rest: string)

  /** `charCodeAt(i) - 63`, or NaN (None) when `i` is past the end. */
  function CodeAt(s: string, i: nat): Option<int> {
    if i < |s| then Some(s[i] as int - 63) else None
  }

  /** `b & 0x1f`. For an integer this is the low five bits of its two's
      complement, i.e. the Euclidean remainder modulo 32; NaN gives 0. */
  function Low5(b: Option<int>): (r: nat)
    ensures r < 32
  {
    match b
    case Some(x) => x % 32
    case None => 0
  }

  /** `b >= 0x20`; false for NaN. */
  predicate MoreFollows(b: Option<int>) {
    b.Some? && b.value >= 32
  }

  /** `x << shift` before the reduction to 32 bits, which Int32 applies
      once to the whole sum of the shifted chunks: `x` doubled `shift`
      times. */
  function ShiftLeft(x: nat, shift: nat): nat {
    if shift == 0 then x else 2 * ShiftLeft(x, shift - 1)
  }

  lemma {:induction false} ShiftLeftAdd(a: nat, b: nat, shift: nat)
    ensures ShiftLeft(a + b, shift) == ShiftLeft(a, shift) + ShiftLeft(b, shift)
  {
    if shift > 0 {
      ShiftLeftAdd(a, b, shift - 1);
    }
  }

  lemma {:induction false} ShiftLeftTimes32(x: nat, shift: nat)
    ensures ShiftLeft(32 * x, shift) == ShiftLeft(x, shift + 5)
  {
    if shift == 0 {
      calc {
        ShiftLeft(x, 5);
        2 * ShiftLeft(x, 4);
        4 * ShiftLeft(x, 3);
        8 * ShiftLeft(x, 2);
        16 * ShiftLeft(x, 1);
        32 * ShiftLeft(x, 0);
      }
    } else {
      ShiftLeftTimes32(x, shift - 1);
    }
  }

  /** What is left of the input once the reader's index is `i` (the index may
      run one or two places past the end, where nothing is left). */
  function Rest(s: string, i: nat): (r: string)
    ensures |r| <= |s|
  {
    if i <= |s| then s[i..] else []
  }

  /** Reading one chunk chain from the start of `s`: every character adds its
      low five bits at the next 5-bit position; the chain ends at the first
      character whose offset code is below 32, or at the end of the input,
      which reads as a terminating zero. */
  function ReadChunk(s: string): (r: Chunk)
    ensures |r.rest| <= |s| && (s != [] ==> |r.rest| < |s|)
  {
    if s == [] then Chunk(0, [])
    else if MoreFollows(Some(s[0] as int - 63)) then
      var c := ReadChunk(s[1..]);
      Chunk(Low5(Some(s[0] as int - 63)) + 32 * c.value, c.rest)
    else Chunk(Low5(Some(s[0] as int - 63)), s[1..])
  }

  /** The number of leading characters of `s` that announce a further chunk. */
  function LeadingRun(s: string): nat {
    if s != [] && MoreFollows(Some(s[0] as int - 63)) then 1 + LeadingRun(s[1..]) else 0
  }

  /** No chain is longer than seven characters, so every shift stays at most
      30: the range in which JavaScript's `<<`, whose shift count is taken
      modulo 32, agrees with multiplying by a power of two. */
  predicate ChunksFit(s: string) {
    forall i :: 0 <= i <= |s| ==> LeadingRun(s[i..]) <= 6
  }

  lemma FitsAt(s: string, i: nat)
    requires ChunksFit(s)
    ensures LeadingRun(Rest(s, i)) <= 6
  {
    if i <= |s| {
      assert LeadingRun(s[i..]) <= 6;
    }
  }

  /** One character read at index `i`, in terms of what is left of the input. */
  lemma ReadChunkAt(s: string, i: nat)
    ensures MoreFollows(CodeAt(s, i)) ==>
      ReadChunk(Rest(s, i)) == Chunk(Low5(CodeAt(s, i)) + 32 * ReadChunk(Rest(s, i + 1)).value, ReadChunk(Rest(s, i + 1)).rest)
    ensures !MoreFollows(CodeAt(s, i)) ==> ReadChunk(Rest(s, i)) == Chunk(Low5(CodeAt(s, i)), Rest(s, i + 1))
    ensures LeadingRun(Rest(s, i)) == if MoreFollows(CodeAt(s, i)) then 1 + LeadingRun(Rest(s, i + 1)) else 0
  {
    if i < |s| {
      assert Rest(s, i)[1..] == Rest(s, i + 1);
    }
  }

  /** JavaScript's reduction of a bitwise result to a signed 32-bit integer. */
  function Int32(v: int): (r: int)
    ensures -0x8000_0000 <= r < 0x8000_0000
    ensures 0 <= v < 0x8000_0000 ==> r == v
  {
    var u := v % 0x1_0000_0000;
    if u < 0x8000_0000 then u else u - 0x1_0000_0000
  }

  /** The reduction keeps the value modulo 2^32. */
  lemma Int32Congruent(v: int)
    ensures (v - Int32(v)) % 0x1_0000_0000 == 0
  {
  }

  /** `(r & 1) ? ~(r >> 1) : (r >> 1)`. `r >> 1` is floor division by two,
      which Dafny's `/` by a positive divisor is, and `~x` is `-x - 1`. */
  function ZigZag(r: int): (z: int)
    ensures r >= 0 ==> (z < 0 <==> r % 2 == 1)
    ensures r >= 0 ==> r == (if z < 0 then -2 * z - 1 else 2 * z)
  {
    if r % 2 == 1 then -(r / 2) - 1 else r / 2
  }

  /** The inverse of ZigZag on the naturals: the standard signed-value
      encoding (`v < 0 ? ~(v << 1) : v << 1`). */
  function ZigZagEncode(v: int): (r: nat)
    ensures ZigZag(r) == v
    ensures (r % 2 == 1) <==> v < 0
  {
    if v < 0 then -2 * v - 1 else 2 * v
  }

  /** With ZigZagEncode, ZigZag is a bijection from the naturals to the integers. */
  lemma ZigZagOntoNaturals(r: nat)
    ensures ZigZagEncode(ZigZag(r)) == r
  {
  }

  /** The signed delta a chain decodes to. */
  function DeltaOf(c: Chunk): int {
    ZigZag(Int32(c.value))
  }

  /** One outer step: a latitude chain, then a longitude chain. */
  datatype Step = Step(delta: Delta, rest: string)

  function ReadPair(s: string): (r: Step)
    requires s != []
    ensures |r.rest| + 2 <= |s| || r.rest == []
  {
    var a := ReadChunk(s);
    var b := ReadChunk(a.rest);
    Step(Delta(DeltaOf(a), DeltaOf(b)), b.rest)
  }

  /** The deltas of `s`, one per outer step. */
  function Deltas(s: string): (ds: seq<Delta>)
    ensures ds == [] <==> s == []
    decreases |s|
  {
    if s == [] then [] else [ReadPair(s).delta] + Deltas(ReadPair(s).rest)
  }

  /** The points reached from (lat, lng) by adding the deltas one by one. */
  function RunningSums(ds: seq<Delta>, lat: int, lng: int): seq<Point> {
    if ds == [] then []
    else [Point(lat + ds[0].dlat, lng + ds[0].dlng)] + RunningSums(ds[1..], lat + ds[0].dlat, lng + ds[0].dlng)
  }

  /** The decoder's result; an empty string decodes to no points. */
  function Decode(s: string): (r: seq<Point>)
    ensures s == [] ==> r == []
  {
    RunningSums(Deltas(s), 0, 0)
  }

  function SumLat(ds: seq<Delta>): int {
    if ds == [] then 0 else ds[0].dlat + SumLat(ds[1..])
  }

  function SumLng(ds: seq<Delta>): int {
    if ds == [] then 0 else ds[0].dlng + SumLng(ds[1..])
  }

  /** The k-th running sum is the start plus the first k+1 deltas. */
  lemma {:induction false} RunningSumsAt(ds: seq<Delta>, lat: int, lng: int)
    ensures |RunningSums(ds, lat, lng)| == |ds|
    ensures forall k :: 0 <= k < |ds| ==>
      RunningSums(ds, lat, lng)[k] == Point(lat + SumLat(ds[..k + 1]), lng + SumLng(ds[..k + 1]))
  {
    if ds != [] {
      var lat', lng' := lat + ds[0].dlat, lng + ds[0].dlng;
      RunningSumsAt(ds[1..], lat', lng');
      forall k | 0 <= k < |ds|
        ensures RunningSums(ds, lat, lng)[k] == Point(lat + SumLat(ds[..k + 1]), lng + SumLng(ds[..k + 1]))
      {
        assert ds[..k + 1][1..] == ds[1..][..k];
        if k > 0 {
          assert RunningSums(ds, lat, lng)[k] == RunningSums(ds[1..], lat', lng')[k - 1];
        }
      }
    }
  }

  /** The k-th decoded point is the sum of the first k+1 latitude and
      longitude deltas, starting from zero. */
  lemma DecodeIsRunningSum(s: string)
    ensures |Decode(s)| == |Deltas(s)|
    ensures forall k :: 0 <= k < |Deltas(s)| ==>
      Decode(s)[k] == Point(SumLat(Deltas(s)[..k + 1]), SumLng(Deltas(s)[..k + 1]))
  {
    RunningSumsAt(Deltas(s), 0, 0);
  }

  /** Each outer step consumes at least two characters (or the whole rest) and
      emits exactly one point, so a non-empty input gives at least one point
      and never more than ceil(len/2). */
  lemma {:induction false} DeltasCount(s: string)
    ensures |Deltas(s)| <= (|s| + 1) / 2
    ensures s != [] ==> |Deltas(s)| >= 1
    decreases |s|
  {
    if s != [] {
      DeltasCount(ReadPair(s).rest);
    }
  }

  lemma DecodeCount(s: string)
    ensures |Decode(s)| <= (|s| + 1) / 2
    ensures s != [] ==> |Decode(s)| >= 1
  {
    RunningSumsAt(Deltas(s), 0, 0);
    DeltasCount(s);
  }

  // ---------------------------------------------------------------------
  // The decoder loop as the source writes it.

  /** One `do … while (b >= 0x20)` loop: starting at `start`, reads one chain
      and returns its raw value and the index after it. */
  method ReadVarint(s: string, start: nat) returns (result: nat, index: nat)
    requires start <= |s| + 1
    requires LeadingRun(Rest(s, start)) <= 6
    ensures ReadChunk(Rest(s, start)) == Chunk(result, Rest(s, index))
    ensures start < index <= |s| + 2
    ensures start <= |s| ==> index <= |s| + 1
  {
    var shift: nat := 0;
    result := 0;
    index := start;
    var more := true;
    ghost var whole := ReadChunk(Rest(s, start));
    while more
      invariant start <= index
      invariant more ==> index == start || index <= |s|
      invariant !more ==> index == start + 1 || start < index <= |s| + 1
      invariant more ==>
        whole == Chunk(result + ShiftLeft(ReadChunk(Rest(s, index)).value, shift), ReadChunk(Rest(s, index)).rest)
      invariant !more ==> whole == Chunk(result, Rest(s, index))
      decreases |s| + 2 - index, more
    {
      var b := CodeAt(s, index);
      ghost var index0, result0, shift0 := index, result, shift;
      index := index + 1;
      result := result + ShiftLeft(Low5(b), shift);
      shift := shift + 5;
      more := MoreFollows(b);
      VarintStep(s, index0, result0, shift0, whole, index, result, shift);
    }
  }

  /** One character of the `do … while` loop, stated on the chain being read:
      the loop's variables after the character keep the chain's value. */
  lemma VarintStep(s: string, index: nat, result: nat, shift: nat, whole: Chunk,
                   index': nat, result': nat, shift': nat)
    requires whole == Chunk(result + ShiftLeft(ReadChunk(Rest(s, index)).value, shift), ReadChunk(Rest(s, index)).rest)
    requires index' == index + 1 && shift' == shift + 5
    requires result' == result + ShiftLeft(Low5(CodeAt(s, index)), shift)
    ensures MoreFollows(CodeAt(s, index)) ==> index < |s|
    ensures MoreFollows(CodeAt(s, index)) ==>
      whole == Chunk(result' + ShiftLeft(ReadChunk(Rest(s, index')).value, shift'), ReadChunk(Rest(s, index')).rest)
    ensures !MoreFollows(CodeAt(s, index)) ==> whole == Chunk(result', Rest(s, index'))
  {
    var low, tail := Low5(CodeAt(s, index)), ReadChunk(Rest(s, index + 1));
    ReadChunkAt(s, index);
    if MoreFollows(CodeAt(s, index)) {
      ShiftLeftAdd(low, 32 * tail.value, shift);
      ShiftLeftTimes32(tail.value, shift);
    }
  }

  /** Two chains read from index `index` give the first delta of what is
      left there, and the deltas after it are those of what follows them. */
  lemma DeltasStep(encoded: string, index: nat, result: nat, next: nat, result2: nat, next2: nat)
    requires index < |encoded|
    requires ReadChunk(Rest(encoded, index)) == Chunk(result, Rest(encoded, next))
    requires ReadChunk(Rest(encoded, next)) == Chunk(result2, Rest(encoded, next2))
    ensures Deltas(Rest(encoded, index)) ==
            [Delta(ZigZag(Int32(result)), ZigZag(Int32(result2)))] + Deltas(Rest(encoded, next2))
  {
    var here := Rest(encoded, index);
    assert here != [];
    assert ReadPair(here) == Step(Delta(ZigZag(Int32(result)), ZigZag(Int32(result2))), Rest(encoded, next2));
  }

  /** One pass of the outer loop, on what is left of the input: the two
      chains read give the next delta, the next point is the running sum
      moved by it, and the rest of the output is the rest of the input's. */
  lemma OuterStep(encoded: string, index: nat, result: nat, next: nat, result2: nat, next2: nat,
                  points: seq<Point>, lat: int, lng: int, lat': int, lng': int)
    requires index < |encoded|
    requires ReadChunk(Rest(encoded, index)) == Chunk(result, Rest(encoded, next))
    requires ReadChunk(Rest(encoded, next)) == Chunk(result2, Rest(encoded, next2))
    requires lat' == lat + ZigZag(Int32(result)) && lng' == lng + ZigZag(Int32(result2))
    ensures points + RunningSums(Deltas(Rest(encoded, index)), lat, lng) ==
            (points + [Point(lat', lng')]) + RunningSums(Deltas(Rest(encoded, next2)), lat', lng')
  {
    DeltasStep(encoded, index, result, next, result2, next2);
    EmitStep(points, Deltas(Rest(encoded, index)), Delta(ZigZag(Int32(result)), ZigZag(Int32(result2))),
             Deltas(Rest(encoded, next2)), lat, lng, lat', lng');
  }

  /** Emitting the first running sum and continuing from it. */
  lemma EmitStep(points: seq<Point>, ds: seq<Delta>, d: Delta, later: seq<Delta>, lat: int, lng: int, lat': int, lng': int)
    requires ds == [d] + later
    requires lat' == lat + d.dlat && lng' == lng + d.dlng
    ensures points + RunningSums(ds, lat, lng) == (points + [Point(lat', lng')]) + RunningSums(later, lat', lng')
  {
    RunningSumsCons(d, later, lat, lng);
    var p, tail := Point(lat', lng'), RunningSums(later, lat', lng');
    assert points + ([p] + tail) == (points + [p]) + tail;
  }

  /** `decodePolyline`: the outer loop emits one point per latitude/longitude
      pair and keeps the running sums; an empty string gives no points. */
  method DecodePolyline(encoded: string) returns (points: seq<Point>)
    requires ChunksFit(encoded)
    ensures points == Decode(encoded)
  {
    if encoded == [] {
      return [];
    }
    var index: nat, lat, lng := 0, 0, 0;
    points := [];
    var len := |encoded|;
    ghost var target := Decode(encoded);
    assert Rest(encoded, 0) == encoded;
    while index < len
      invariant index <= len + 2
      invariant points + RunningSums(Deltas(Rest(encoded, index)), lat, lng) == target
      decreases len + 2 - index
    {
      ghost var index0, points0, lat0, lng0 := index, points, lat, lng;
      FitsAt(encoded, index);
      var result, next := ReadVarint(encoded, index);
      var dlat := ZigZag(Int32(result));
      lat := lat + dlat;
      FitsAt(encoded, next);
      var result2, next2 := ReadVarint(encoded, next);
      var dlng := ZigZag(Int32(result2));
      lng := lng + dlng;
      OuterStep(encoded, index0, result, next, result2, next2, points0, lat0, lng0, lat, lng);
      points := points + [Point(lat, lng)];
      index := next2;
    }
  }

  lemma RunningSumsCons(d: Delta, ds: seq<Delta>, lat: int, lng: int)
    ensures RunningSums([d] + ds, lat, lng) == [Point(lat + d.dlat, lng + d.dlng)] + RunningSums(ds, lat + d.dlat, lng + d.dlng)
  {
    assert ([d] + ds)[1..] == ds;
  }

  // ---------------------------------------------------------------------
  // The encoder the format documents, to state the decoder's purpose.

  /** The 5-bit chunk chain of a natural, least significant chunk first. */
  function EncodeNat(z: nat): (r: string)
    ensures |r| >= 1
    decreases z
  {
    if z < 32 then [(z + 63) as char]
    else [((z % 32) + 32 + 63) as char] + EncodeNat(z / 32)
  }

  function EncodeValue(v: int): string {
    EncodeNat(ZigZagEncode(v))
  }

  function Encode(ds: seq<Delta>): string {
    if ds == [] then [] else EncodeValue(ds[0].dlat) + EncodeValue(ds[0].dlng) + Encode(ds[1..])
  }

  /** A delta whose zig-zag code fits a signed 32-bit integer. */
  predicate InRange(v: int) {
    -0x4000_0000 <= v < 0x4000_0000
  }

  lemma {:induction false} ReadEncodedNat(z: nat, t: string)
    ensures ReadChunk(EncodeNat(z) + t) == Chunk(z, t)
    decreases z
  {
    var e := EncodeNat(z) + t;
    if z >= 32 {
      ReadEncodedNat(z / 32, t);
      assert e[1..] == EncodeNat(z / 32) + t;
    } else {
      assert e[1..] == t;
    }
  }

  lemma ReadEncodedValue(v: int, t: string)
    requires InRange(v)
    ensures ReadChunk(EncodeValue(v) + t).rest == t
    ensures DeltaOf(ReadChunk(EncodeValue(v) + t)) == v
  {
    ReadEncodedNat(ZigZagEncode(v), t);
  }

  /** Decoding the standard encoding of a sequence of deltas recovers them. */
  lemma {:induction false} DeltasOfEncode(ds: seq<Delta>)
    requires forall i :: 0 <= i < |ds| ==> InRange(ds[i].dlat) && InRange(ds[i].dlng)
    ensures Deltas(Encode(ds)) == ds
    decreases |ds|
  {
    if ds != [] {
      var lat, lng := EncodeValue(ds[0].dlat), EncodeValue(ds[0].dlng);
      var tail := Encode(ds[1..]);
      assert Encode(ds) == lat + (lng + tail);
      ReadEncodedValue(ds[0].dlat, lng + tail);
      ReadEncodedValue(ds[0].dlng, tail);
      DeltasOfEncode(ds[1..]);
    }
  }

  /** An input cut off after a latitude chain still yields a final point,
      with a longitude delta of zero. */
  lemma TruncatedAfterLatitude(v: int)
    requires InRange(v)
    ensures Decode(EncodeValue(v)) == [Point(v, 0)]
  {
    var e := EncodeValue(v);
    ReadEncodedValue(v, []);
    assert e + [] == e;
    var a := ReadChunk(e);
    assert a.rest == [] && DeltaOf(a) == v;
    var b := ReadChunk(a.rest);
    assert b == Chunk(0, []) && DeltaOf(b) == 0;
    assert ReadPair(e) == Step(Delta(v, 0), []);
    assert Deltas(e) == [Delta(v, 0)] + Deltas([]);
    assert RunningSums([Delta(v, 0)], 0, 0) == [Point(v, 0)] + RunningSums([], v, 0);
  }
}

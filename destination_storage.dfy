/** The searched-destinations history (utils/destinationStorage.ts): a list
    of destinations kept under one storage key, updated by a find-or-insert
    on every search, and queried for the most used and the most recent
    entries. The key-value store is a field holding what its key reads back
    as; the clock is a parameter. Coordinates are integers in millionths of
    a degree, so the 0.001 degree proximity test is a difference below
    1000. */
module DestinationStorage {
  import opened Common

  datatype Coordinates = Coordinates(latitude: int, longitude: int)

  /** A stored destination; its coordinates may be missing in stored data,
      and a missing `count` reads as 0. */
  datatype Destination = Destination(
    id: string,
    name: string,
    address: string,
    icon: string,
    coordinates: Option<Coordinates>,
    count: int,
    lastUsed: int)

  /** The argument of `saveDestination`: a destination without `count` and
      `lastUsed`. */
  datatype NewDestination = NewDestination(
    id: string,
    name: string,
    address: string,
    icon: string,
    coordinates: Option<Coordinates>)

  /** What the storage key reads back as: nothing (null or the empty
      string), a failing read, text that is not JSON, JSON that is not an
      array, or a list of destinations. */
  datatype Stored = Missing | ReadFailure | Unparseable | NotAnArray | StoredList(items: seq<Destination>)

  /** `getDestinations`: the stored list, and the empty list in every other
      case. */
  function ParseStored(s: Stored): (ds: seq<Destination>)
    ensures s.StoredList? ==> ds == s.items
    ensures !s.StoredList? ==> ds == []
  {
    match s
    case StoredList(items) => items
    case _ => []
  }

  function Abs(x: int): (r: nat)
    ensures r == x || r == -x
  {
    if x < 0 then -x else x
  }

  /** Within 0.001 degrees in both latitude and longitude. */
  predicate Near(a: Coordinates, b: Coordinates) {
    Abs(a.latitude - b.latitude) < 1000 && Abs(a.longitude - b.longitude) < 1000
  }

  /** The `findIndex` predicate: the same non-empty id, or the same name, or
      (both having coordinates) nearby coordinates. */
  predicate Matches(dest: Destination, d: NewDestination) {
    (d.id != "" && dest.id == d.id) ||
    dest.name == d.name ||
    (d.coordinates.Some? && dest.coordinates.Some? && Near(dest.coordinates.value, d.coordinates.value))
  }

  /** `destinations.findIndex(...)`: the first matching index, or -1. */
  function FindMatch(ds: seq<Destination>, d: NewDestination): (k: int)
    ensures -1 <= k < |ds|
    ensures k == -1 <==> forall j :: 0 <= j < |ds| ==> !Matches(ds[j], d)
    ensures k >= 0 ==> Matches(ds[k], d) && forall j :: 0 <= j < k ==> !Matches(ds[j], d)
  {
    if ds == [] then -1
    else if Matches(ds[0], d) then 0
    else
      var k := FindMatch(ds[1..], d);
      assert forall j :: 1 <= j < |ds| ==> ds[j] == ds[1..][j - 1];
      if k == -1 then -1 else k + 1
  }

  /** The matched entry after a save: one more use, used now, the new
      address and icon when they are non-empty; id, name and coordinates
      stay those stored. */
  function Updated(e: Destination, d: NewDestination, now: int): (u: Destination)
    ensures u.count == e.count + 1 && u.lastUsed == now
    ensures u.address == (if d.address != "" then d.address else e.address)
    ensures u.icon == (if d.icon != "" then d.icon else e.icon)
    ensures u.id == e.id && u.name == e.name && u.coordinates == e.coordinates
  {
    e.(count := e.count + 1, lastUsed := now,
       address := OrElse(d.address, e.address), icon := OrElse(d.icon, e.icon))
  }

  /** A destination saved for the first time: used once, now. */
  function Inserted(d: NewDestination, now: int): (e: Destination)
    ensures e.count == 1 && e.lastUsed == now
    ensures e.id == d.id && e.name == d.name && e.address == d.address && e.icon == d.icon
    ensures e.coordinates == d.coordinates
  {
    Destination(d.id, d.name, d.address, d.icon, d.coordinates, 1, now)
  }

  /** The list `saveDestination` writes back, given the list it read. */
  function Upsert(ds: seq<Destination>, d: NewDestination, now: int): (r: seq<Destination>)
    ensures |r| == (if forall j :: 0 <= j < |ds| ==> !Matches(ds[j], d) then |ds| + 1 else |ds|)
  {
    var k := FindMatch(ds, d);
    if k == -1 then ds + [Inserted(d, now)] else ds[k := Updated(ds[k], d, now)]
  }

  /** On a match only the first matching entry changes, in place. */
  lemma UpsertUpdatesMatch(ds: seq<Destination>, d: NewDestination, now: int)
    requires FindMatch(ds, d) != -1
    ensures |Upsert(ds, d, now)| == |ds|
    ensures Upsert(ds, d, now)[FindMatch(ds, d)] == Updated(ds[FindMatch(ds, d)], d, now)
    ensures forall j :: 0 <= j < |ds| && j != FindMatch(ds, d) ==> Upsert(ds, d, now)[j] == ds[j]
  {
  }

  /** Without a match the new destination is appended. */
  lemma UpsertAppends(ds: seq<Destination>, d: NewDestination, now: int)
    requires FindMatch(ds, d) == -1
    ensures Upsert(ds, d, now) == ds + [Inserted(d, now)]
    ensures |Upsert(ds, d, now)| == |ds| + 1
  {
  }

  /** A save never removes an entry and never moves one: every stored entry
      keeps its place, its id, its name and its coordinates, and all but at
      most one are unchanged. */
  lemma UpsertKeepsEntries(ds: seq<Destination>, d: NewDestination, now: int)
    ensures |ds| <= |Upsert(ds, d, now)| <= |ds| + 1
    ensures forall j :: 0 <= j < |ds| ==>
      var e := Upsert(ds, d, now)[j];
      e.id == ds[j].id && e.name == ds[j].name && e.coordinates == ds[j].coordinates
    ensures forall j :: 0 <= j < |ds| && !Matches(ds[j], d) ==> Upsert(ds, d, now)[j] == ds[j]
  {
  }

  /** Whether an entry matches depends only on what a save keeps: the entry
      a destination is first saved as matches it, and an entry that matches
      keeps matching after any later save updates it. */
  lemma SavedEntriesKeepMatching(e: Destination, d: NewDestination, other: NewDestination, now: int)
    ensures Matches(Inserted(d, now), d)
    ensures Matches(e, d) ==> Matches(Updated(e, other, now), d)
  {
  }

  /** The total number of recorded uses. */
  function TotalCount(ds: seq<Destination>): int {
    if ds == [] then 0 else TotalCount(ds[..|ds| - 1]) + ds[|ds| - 1].count
  }

  lemma {:induction false} TotalCountAppend(ds: seq<Destination>, e: Destination)
    ensures TotalCount(ds + [e]) == TotalCount(ds) + e.count
  {
    assert (ds + [e])[..|ds|] == ds;
  }

  /** Replacing one entry changes the total by the difference of counts. */
  lemma {:induction false} TotalCountUpdate(ds: seq<Destination>, k: nat, e: Destination)
    requires k < |ds|
    ensures TotalCount(ds[k := e]) == TotalCount(ds) - ds[k].count + e.count
  {
    var n := |ds|;
    var t := ds[k := e];
    if k == n - 1 {
      assert t[..n - 1] == ds[..n - 1];
    } else {
      TotalCountUpdate(ds[..n - 1], k, e);
      assert t[..n - 1] == ds[..n - 1][k := e];
    }
  }

  /** Every save records exactly one more use in total. */
  lemma UpsertCountsOneUse(ds: seq<Destination>, d: NewDestination, now: int)
    ensures TotalCount(Upsert(ds, d, now)) == TotalCount(ds) + 1
  {
    var k := FindMatch(ds, d);
    if k == -1 {
      TotalCountAppend(ds, Inserted(d, now));
    } else {
      TotalCountUpdate(ds, k, Updated(ds[k], d, now));
    }
  }

  /** After a save the list holds an entry matching the saved destination. */
  lemma UpsertLeavesMatch(ds: seq<Destination>, d: NewDestination, now: int)
    ensures FindMatch(Upsert(ds, d, now), d) != -1
  {
    var r := Upsert(ds, d, now);
    var k := FindMatch(ds, d);
    if k == -1 {
      assert Matches(r[|ds|], d);
    } else {
      assert Matches(r[k], d);
    }
  }

  /** Saving the same destination again does not grow the list. */
  lemma SavingTwiceDoesNotGrow(ds: seq<Destination>, d: NewDestination, t1: int, t2: int)
    ensures |Upsert(Upsert(ds, d, t1), d, t2)| == |Upsert(ds, d, t1)|
  {
    UpsertLeavesMatch(ds, d, t1);
  }

  /** The sort keys of the two queries. */
  datatype SortKey = ByCount | ByLastUsed

  function Key(e: Destination, key: SortKey): int {
    match key
    case ByCount => e.count
    case ByLastUsed => e.lastUsed
  }

  /** Non-increasing by the key. */
  predicate SortedDesc(s: seq<Destination>, key: SortKey) {
    forall p, q :: 0 <= p < q < |s| ==> Key(s[p], key) >= Key(s[q], key)
  }

  /** The first `n` cells of `a` are non-increasing by the key. */
  predicate SortedUpTo(a: array<Destination>, n: int, key: SortKey)
    reads a
    requires 0 <= n <= a.Length
  {
    forall p, q :: 0 <= p < q < n ==> Key(a[p], key) >= Key(a[q], key)
  }

  /** One step of insertion: moves `a[i]` left past the entries with a
      smaller key, so that the first `i + 1` cells are sorted. */
  method InsertInto(a: array<Destination>, i: int, key: SortKey)
    requires 0 <= i < a.Length && SortedUpTo(a, i, key)
    modifies a
    ensures SortedUpTo(a, i + 1, key)
    ensures multiset(a[..]) == multiset(old(a[..]))
  {
    var j := i;
    while j > 0 && Key(a[j - 1], key) < Key(a[j], key)
      invariant 0 <= j <= i
      invariant forall p, q :: 0 <= p < q <= i && p != j && q != j ==> Key(a[p], key) >= Key(a[q], key)
      invariant forall q :: j < q <= i ==> Key(a[j], key) > Key(a[q], key)
      invariant multiset(a[..]) == multiset(old(a[..]))
    {
      Swap(a, j - 1, j);
      j := j - 1;
    }
  }

  /** Exchanges two cells. */
  method Swap(a: array<Destination>, p: int, q: int)
    requires 0 <= p < a.Length && 0 <= q < a.Length
    modifies a
    ensures a[..] == old(a[..])[p := old(a[q])][q := old(a[p])]
    ensures multiset(a[..]) == multiset(old(a[..]))
  {
    a[p], a[q] := a[q], a[p];
  }

  /** `Array.prototype.sort` with the comparator `(a, b) => key(b) - key(a)`,
      as an insertion sort by adjacent swaps. */
  method SortDescending(a: array<Destination>, key: SortKey)
    modifies a
    ensures SortedDesc(a[..], key)
    ensures multiset(a[..]) == multiset(old(a[..]))
  {
    var i := 0;
    while i < a.Length
      invariant 0 <= i <= a.Length
      invariant SortedUpTo(a, i, key)
      invariant multiset(a[..]) == multiset(old(a[..]))
    {
      InsertInto(a, i, key);
      i := i + 1;
    }
  }

  /** Where `slice(0, limit)` ends on a list of length `n`: a negative limit
      counts from the end. */
  function SliceEnd(n: nat, limit: int): (m: nat)
    ensures m <= n
    ensures limit >= 0 ==> m == Min(limit, n)
    ensures limit < 0 ==> m == Max(n + limit, 0)
  {
    if limit >= 0 then Min(limit, n) else Max(n + limit, 0)
  }

  /** Cutting a permutation of `ds` at `m`: the prefix is drawn from `ds`,
      and what it leaves of `ds` is the suffix. */
  lemma PrefixOfPermutation(ds: seq<Destination>, s: seq<Destination>, m: nat)
    requires multiset(s) == multiset(ds) && m <= |s|
    ensures multiset(s[..m]) <= multiset(ds)
    ensures multiset(ds) - multiset(s[..m]) == multiset(s[m..])
  {
    assert s == s[..m] + s[m..];
    assert multiset(ds) == multiset(s[..m]) + multiset(s[m..]);
  }

  /** In a sorted list, an entry before the cut has a key no smaller than
      one after it. */
  lemma PrefixDominates(s: seq<Destination>, key: SortKey, m: nat, x: Destination, y: Destination)
    requires SortedDesc(s, key) && m <= |s|
    requires x in s[..m] && y in s[m..]
    ensures Key(y, key) <= Key(x, key)
  {
    var p :| 0 <= p < m && s[..m][p] == x;
    var q :| 0 <= q < |s| - m && s[m..][q] == y;
    assert s[p] == x && s[m + q] == y;
  }

  /** A prefix of a sorted permutation of `ds` is sorted, is drawn from
      `ds`, and holds keys no smaller than those of the entries left out. */
  lemma SortedPrefix(ds: seq<Destination>, s: seq<Destination>, key: SortKey, m: nat)
    requires multiset(s) == multiset(ds) && SortedDesc(s, key) && m <= |s|
    ensures SortedDesc(s[..m], key)
    ensures multiset(s[..m]) <= multiset(ds)
    ensures forall x, y :: x in s[..m] && y in multiset(ds) - multiset(s[..m]) ==> Key(y, key) <= Key(x, key)
  {
    PrefixOfPermutation(ds, s, m);
    forall x, y | x in s[..m] && y in multiset(ds) - multiset(s[..m])
      ensures Key(y, key) <= Key(x, key)
    {
      assert y in multiset(s[m..]);
      PrefixDominates(s, key, m, x, y);
    }
  }

  /** The sort-then-slice of both queries: the `SliceEnd` first entries of
      the list sorted by the key, so the result is sorted, is drawn from the
      list, and no entry left out has a larger key than one returned. */
  method TopBy(ds: seq<Destination>, key: SortKey, limit: int) returns (r: seq<Destination>)
    ensures |r| == SliceEnd(|ds|, limit)
    ensures SortedDesc(r, key)
    ensures multiset(r) <= multiset(ds)
    ensures forall x, y :: x in r && y in multiset(ds) - multiset(r) ==> Key(y, key) <= Key(x, key)
  {
    var a := new Destination[|ds|](i requires 0 <= i < |ds| => ds[i]);
    assert a[..] == ds;
    SortDescending(a, key);
    var sorted := a[..];
    var m := SliceEnd(|ds|, limit);
    SortedPrefix(ds, sorted, key, m);
    r := sorted[..m];
  }

  /** The storage key holding the history. */
  class DestinationStore {
    var data: Stored

    constructor (initial: Stored)
      ensures data == initial
    {
      data := initial;
    }

    /** `getDestinations`. */
    method GetDestinations() returns (ds: seq<Destination>)
      ensures ds == ParseStored(data)
    {
      match data
      case StoredList(items) => ds := items;
      case _ => ds := [];
    }

    /** `saveDestination`: reads the list, overwrites the first matching
        entry or appends a new one, and writes the list back. `writeOk` says
        whether the storage accepts the write; when it does not, the error
        is rethrown (`ok` is false) and the stored data stays as it was. */
    method SaveDestination(destination: NewDestination, now: int, writeOk: bool) returns (ok: bool)
      modifies this
      ensures ok == writeOk
      ensures writeOk ==> data == StoredList(Upsert(ParseStored(old(data)), destination, now))
      ensures !writeOk ==> data == old(data)
    {
      var destinations := GetDestinations();
      var existingIndex := FindMatch(destinations, destination);
      if existingIndex != -1 {
        destinations := destinations[existingIndex := Updated(destinations[existingIndex], destination, now)];
      } else {
        destinations := destinations + [Inserted(destination, now)];
      }
      if writeOk {
        data := StoredList(destinations);
      }
      ok := writeOk;
    }

    /** `getPopularDestinations`: the most used entries, four by default. */
    method GetPopularDestinations(limit: int := 4) returns (r: seq<Destination>)
      ensures |r| == SliceEnd(|ParseStored(data)|, limit)
      ensures SortedDesc(r, ByCount)
      ensures multiset(r) <= multiset(ParseStored(data))
      ensures forall x, y :: x in r && y in multiset(ParseStored(data)) - multiset(r) ==> y.count <= x.count
    {
      var destinations := GetDestinations();
      r := TopBy(destinations, ByCount, limit);
    }

    /** `getRecentDestinations`: the most recently used entries, three by
        default. */
    method GetRecentDestinations(limit: int := 3) returns (r: seq<Destination>)
      ensures |r| == SliceEnd(|ParseStored(data)|, limit)
      ensures SortedDesc(r, ByLastUsed)
      ensures multiset(r) <= multiset(ParseStored(data))
      ensures forall x, y :: x in r && y in multiset(ParseStored(data)) - multiset(r) ==> y.lastUsed <= x.lastUsed
    {
      var destinations := GetDestinations();
      r := TopBy(destinations, ByLastUsed, limit);
    }
  }

  /** A history that cannot be read is replaced by the saved destination
      alone: the save starts from the empty list. */
  lemma UnreadableHistoryIsReplaced(s: Stored, d: NewDestination, now: int)
    requires !s.StoredList?
    ensures Upsert(ParseStored(s), d, now) == [Inserted(d, now)]
  {
  }
}

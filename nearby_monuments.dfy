/**
 * The nearby search of `components/NearbyMonuments.tsx`: every catalog
 * entry is annotated with its distance from the user, entries beyond the
 * radius are dropped, and the rest is ordered by distance or by name with a
 * stable sort. The distance itself (`calculateDistance`) is a parameter.
 */
module NearbyMonuments {
  import opened Types
  import opened JsText
  import opened Seqs
  import Constants

  /** The user's position as the geolocation callback reports it. */
  datatype Location = Location(lat: real, lon: real)

  datatype SortKey = ByDistance | ByName

  /** A catalog entry together with its distance from the user. */
  datatype Ranked = Ranked(monument: Monument, distance: real)

  /** `calculateDistance(lat1, lon1, lat2, lon2)`. */
  type Distance = (real, real, real, real) -> real

  const LOCATION_NOT_AVAILABLE: string := "Location not available."
  const LOCATION_DENIED: string := "Could not get location. Please enable location services."

  /** The radius the panel starts with, in kilometres. */
  const DEFAULT_RADIUS: real := 50.0

  /** The distance from `loc` to the monument's coordinates, with the user's
      coordinates as the first pair of arguments. */
  function DistanceTo(dist: Distance, loc: Location, m: Monument): (d: real)
    ensures d == dist(loc.lat, loc.lon, m.latitude, m.longitude)
  {
    dist(loc.lat, loc.lon, m.latitude, m.longitude)
  }

  /** The `map` step: each entry, unchanged, with its distance from `loc`. */
  function Annotate(catalog: seq<Monument>, loc: Location, dist: Distance): (r: seq<Ranked>)
    ensures |r| == |catalog|
    ensures forall i :: 0 <= i < |r| ==> r[i] == Ranked(catalog[i], DistanceTo(dist, loc, catalog[i]))
  {
    if catalog == [] then []
    else [Ranked(catalog[0], DistanceTo(dist, loc, catalog[0]))] + Annotate(catalog[1..], loc, dist)
  }

  /** The `filter` step's test. */
  function WithinRadius(radius: real): (p: Ranked -> bool)
    ensures forall x :: p(x) <==> x.distance <= radius
  {
    (r: Ranked) => r.distance <= radius
  }

  // ------------------------------------------------------------------ order

  /** `compare(a, b) <= 0` for the chosen key: `a.distance - b.distance` or
      `a.name.localeCompare(b.name)`. */
  predicate Before(key: SortKey, a: Ranked, b: Ranked)
    ensures key.ByName? && a.monument.name == b.monument.name ==> Before(key, a, b)
    ensures key.ByDistance? && a.distance == b.distance ==> Before(key, a, b)
  {
    match key
    case ByDistance => a.distance <= b.distance
    case ByName => LexLe(a.monument.name, b.monument.name)
  }

  /** The comparator compares every two entries. */
  lemma BeforeTotal(key: SortKey, a: Ranked, b: Ranked)
    ensures Before(key, a, b) || Before(key, b, a)
  {
    if key.ByName? { LexLeTotal(a.monument.name, b.monument.name); }
  }

  lemma BeforeTransitive(key: SortKey, a: Ranked, b: Ranked, c: Ranked)
    requires Before(key, a, b) && Before(key, b, c)
    ensures Before(key, a, c)
  {
    if key.ByName? { LexLeTransitive(a.monument.name, b.monument.name, c.monument.name); }
  }

  /** Two entries the comparator cannot tell apart. */
  predicate Tied(key: SortKey, a: Ranked, b: Ranked) {
    Before(key, a, b) && Before(key, b, a)
  }

  function TiedWith(key: SortKey, x: Ranked): Ranked -> bool {
    (y: Ranked) => Tied(key, x, y)
  }

  predicate SortedBy(key: SortKey, s: seq<Ranked>) {
    forall i, j :: 0 <= i < j < |s| ==> Before(key, s[i], s[j])
  }

  /** Places `x` in front of the first entry it may precede. */
  function Insert(key: SortKey, x: Ranked, s: seq<Ranked>): (r: seq<Ranked>)
    ensures multiset(r) == multiset(s) + multiset{x}
  {
    if s == [] then [x]
    else if Before(key, x, s[0]) then [x] + s
    else
      assert s == [s[0]] + s[1..];
      [s[0]] + Insert(key, x, s[1..])
  }

  /** The `sort` step: a stable sort under the comparator. */
  function SortBy(key: SortKey, s: seq<Ranked>): (r: seq<Ranked>)
    ensures multiset(r) == multiset(s)
  {
    if s == [] then []
    else
      assert s == [s[0]] + s[1..];
      Insert(key, s[0], SortBy(key, s[1..]))
  }

  lemma {:induction false} InsertSorted(key: SortKey, x: Ranked, s: seq<Ranked>)
    requires SortedBy(key, s)
    ensures SortedBy(key, Insert(key, x, s))
  {
    if s == [] {
    } else if Before(key, x, s[0]) {
      var r := [x] + s;
      forall i, j | 0 <= i < j < |r| ensures Before(key, r[i], r[j]) {
        if i == 0 && j > 1 { BeforeTransitive(key, x, s[0], s[j - 1]); }
      }
    } else {
      BeforeTotal(key, x, s[0]);
      InsertSorted(key, x, s[1..]);
      var t := Insert(key, x, s[1..]);
      InsertKeepsLowerBound(key, s[0], x, s[1..]);
      var r := [s[0]] + t;
      forall i, j | 0 <= i < j < |r| ensures Before(key, r[i], r[j]) {
        if i == 0 { assert r[j] == t[j - 1]; } else { assert r[i] == t[i - 1] && r[j] == t[j - 1]; }
      }
    }
  }

  /** An entry that precedes `x` and all of `s` precedes all of `Insert(x, s)`. */
  lemma InsertKeepsLowerBound(key: SortKey, b: Ranked, x: Ranked, s: seq<Ranked>)
    requires Before(key, b, x)
    requires forall k :: 0 <= k < |s| ==> Before(key, b, s[k])
    ensures forall j :: 0 <= j < |Insert(key, x, s)| ==> Before(key, b, Insert(key, x, s)[j])
  {
    var t := Insert(key, x, s);
    forall j | 0 <= j < |t| ensures Before(key, b, t[j]) {
      assert t[j] in multiset(t);
      if t[j] != x {
        assert t[j] in multiset(s);
        var k :| 0 <= k < |s| && s[k] == t[j];
      }
    }
  }

  /** The sorted entries are in non-decreasing order under the comparator. */
  lemma {:induction false} SortBySorted(key: SortKey, s: seq<Ranked>)
    ensures SortedBy(key, SortBy(key, s))
  {
    if s != [] {
      SortBySorted(key, s[1..]);
      InsertSorted(key, s[0], SortBy(key, s[1..]));
    }
  }

  /** Inserting `y` adds `y` to the entries tied with `x` exactly when it is tied
      with `x`, in front of those already there. */
  lemma {:induction false} InsertStable(key: SortKey, y: Ranked, t: seq<Ranked>, x: Ranked)
    ensures Filter(Insert(key, y, t), TiedWith(key, x))
         == (if Tied(key, x, y) then [y] else []) + Filter(t, TiedWith(key, x))
    decreases |t|, 1
  {
    var p := TiedWith(key, x);
    FilterSingleton(y, p);
    if t == [] {
      assert Insert(key, y, t) == [y];
      assert Filter(t, p) == [];
    } else if Before(key, y, t[0]) {
      assert Insert(key, y, t) == [y] + t;
      FilterAppend([y], t, p);
    } else {
      InsertStablePass(key, y, t, x);
    }
  }

  /** The case where `y` passes the head of `t`. */
  lemma {:induction false} InsertStablePass(key: SortKey, y: Ranked, t: seq<Ranked>, x: Ranked)
    requires t != [] && !Before(key, y, t[0])
    ensures Filter(Insert(key, y, t), TiedWith(key, x))
         == (if Tied(key, x, y) then [y] else []) + Filter(t, TiedWith(key, x))
    decreases |t|, 0
  {
    var p := TiedWith(key, x);
    var head := if Tied(key, x, y) then [y] else [];
    InsertStable(key, y, t[1..], x);
    assert head == [] || !p(t[0]) by {
      if Tied(key, x, y) && Tied(key, x, t[0]) { BeforeTransitive(key, y, x, t[0]); }
    }
    FilterPastHead(t[0], Insert(key, y, t[1..]), t[1..], p, head);
    assert [t[0]] + t[1..] == t;
  }

  /** Stability: the entries tied with any `x` keep their relative order. */
  lemma {:induction false} SortByStable(key: SortKey, s: seq<Ranked>, x: Ranked)
    ensures Filter(SortBy(key, s), TiedWith(key, x)) == Filter(s, TiedWith(key, x))
  {
    if s != [] {
      SortByStable(key, s[1..], x);
      InsertStable(key, s[0], SortBy(key, s[1..]), x);
    }
  }

  // ----------------------------------------------------------- the search

  /** `findMonuments`' pipeline with a location at hand. */
  function FindNearby(catalog: seq<Monument>, loc: Location, radius: real, key: SortKey, dist: Distance): (r: seq<Ranked>)
    ensures |r| <= |catalog|
    ensures forall i :: 0 <= i < |r| ==> r[i].distance <= radius
    ensures forall i :: 0 <= i < |r| ==>
      r[i].monument in catalog && r[i].distance == DistanceTo(dist, loc, r[i].monument)
    ensures multiset(r) == multiset(Filter(Annotate(catalog, loc, dist), WithinRadius(radius)))
    ensures SortedBy(key, r)
  {
    var kept := Filter(Annotate(catalog, loc, dist), WithinRadius(radius));
    FilterMembers(Annotate(catalog, loc, dist), WithinRadius(radius));
    SortBySorted(key, kept);
    var r := SortBy(key, kept);
    forall i | 0 <= i < |r|
      ensures r[i] in kept
      ensures r[i].monument in catalog && r[i].distance == DistanceTo(dist, loc, r[i].monument)
    {
      assert r[i] in multiset(r);
      var k :| 0 <= k < |Annotate(catalog, loc, dist)| && Annotate(catalog, loc, dist)[k] == r[i];
      assert r[i].monument == catalog[k];
    }
    r
  }

  /** Ties of the search keep catalog order. */
  lemma FindNearbyStable(catalog: seq<Monument>, loc: Location, radius: real, key: SortKey, dist: Distance, x: Ranked)
    ensures Filter(FindNearby(catalog, loc, radius, key, dist), TiedWith(key, x))
         == Filter(Filter(Annotate(catalog, loc, dist), WithinRadius(radius)), TiedWith(key, x))
  {
    SortByStable(key, Filter(Annotate(catalog, loc, dist), WithinRadius(radius)), x);
  }

  /** Exactly once: an entry within the radius is in the result as often as in
      the catalog; an entry beyond it is absent. */
  lemma {:induction false} FindNearbyCounts(catalog: seq<Monument>, loc: Location, radius: real, key: SortKey, dist: Distance, m: Monument)
    ensures var entry := Ranked(m, DistanceTo(dist, loc, m));
      multiset(FindNearby(catalog, loc, radius, key, dist))[entry]
        == if entry.distance <= radius then multiset(catalog)[m] else 0
  {
    AnnotateCounts(catalog, loc, dist, m);
    FilterCounts(Annotate(catalog, loc, dist), WithinRadius(radius));
  }

  lemma {:induction false} AnnotateCounts(catalog: seq<Monument>, loc: Location, dist: Distance, m: Monument)
    ensures multiset(Annotate(catalog, loc, dist))[Ranked(m, DistanceTo(dist, loc, m))] == multiset(catalog)[m]
  {
    if catalog != [] {
      AnnotateCounts(catalog[1..], loc, dist, m);
      assert catalog == [catalog[0]] + catalog[1..];
      assert Annotate(catalog, loc, dist)
          == [Ranked(catalog[0], DistanceTo(dist, loc, catalog[0]))] + Annotate(catalog[1..], loc, dist);
    }
  }

  /** Widening the radius never drops an entry: each one is in the result
      at least as often as under a smaller radius. */
  lemma WiderRadiusKeepsMore(catalog: seq<Monument>, loc: Location, r1: real, r2: real, key: SortKey, dist: Distance, m: Monument)
    requires r1 <= r2
    ensures var entry := Ranked(m, DistanceTo(dist, loc, m));
      multiset(FindNearby(catalog, loc, r1, key, dist))[entry]
        <= multiset(FindNearby(catalog, loc, r2, key, dist))[entry]
  {
    FindNearbyCounts(catalog, loc, r1, key, dist, m);
    FindNearbyCounts(catalog, loc, r2, key, dist, m);
  }

  /** Over the shipped catalog, each entry within the radius appears exactly once. */
  lemma CatalogSearchExactlyOnce(loc: Location, radius: real, key: SortKey, dist: Distance, i: int)
    requires 0 <= i < |Constants.MONUMENTS|
    requires DistanceTo(dist, loc, Constants.MONUMENTS[i]) <= radius
    ensures multiset(FindNearby(Constants.MONUMENTS, loc, radius, key, dist))
              [Ranked(Constants.MONUMENTS[i], DistanceTo(dist, loc, Constants.MONUMENTS[i]))] == 1
  {
    Constants.CatalogEntriesOccurOnce();
    FindNearbyCounts(Constants.MONUMENTS, loc, radius, key, dist, Constants.MONUMENTS[i]);
  }

  // --------------------------------------------------------- panel state

  /** The state of the nearby panel. */
  class NearbyPanel {
    const distance: Distance
    var userLocation: Option<Location>
    var radius: real
    var sortBy: SortKey
    var nearbyMonuments: seq<Ranked>
    var isLoading: bool
    var error: Option<string>

    /** The shown list always belongs to the current location, radius and
        sort key, once a location is known (the effect re-runs the search
        whenever one of the three changes). */
    predicate Consistent()
      reads this
      ensures Consistent() && userLocation.Some? ==>
        && SortedBy(sortBy, nearbyMonuments)
        && forall i :: 0 <= i < |nearbyMonuments| ==> nearbyMonuments[i].distance <= radius
      ensures Consistent() && userLocation.None? ==> nearbyMonuments == []
    {
      && (userLocation.Some? ==>
            nearbyMonuments == FindNearby(Constants.MONUMENTS, userLocation.value, radius, sortBy, distance))
      && (userLocation.None? ==> nearbyMonuments == [])
    }

    constructor(distance: Distance)
      ensures this.distance == distance
      ensures userLocation == None && radius == DEFAULT_RADIUS && sortBy == ByDistance
      ensures nearbyMonuments == [] && isLoading && error == None
      ensures Consistent()
    {
      this.distance := distance;
      userLocation := None;
      radius := DEFAULT_RADIUS;
      sortBy := ByDistance;
      nearbyMonuments := [];
      isLoading := true;
      error := None;
    }

    /** `findMonuments`: without a location only the error is set; with one,
        the list is recomputed and the error is left as it was. */
    method FindMonuments()
      modifies this
      ensures userLocation == old(userLocation) && radius == old(radius) && sortBy == old(sortBy)
      ensures isLoading == old(isLoading)
      ensures userLocation.None? ==>
        error == Some(LOCATION_NOT_AVAILABLE) && nearbyMonuments == old(nearbyMonuments)
      ensures userLocation.Some? ==>
        && error == old(error)
        && nearbyMonuments == FindNearby(Constants.MONUMENTS, userLocation.value, radius, sortBy, distance)
    {
      if userLocation.None? {
        error := Some(LOCATION_NOT_AVAILABLE);
        return;
      }
      nearbyMonuments := FindNearby(Constants.MONUMENTS, userLocation.value, radius, sortBy, distance);
    }

    /** The effect on `[userLocation, radius, sortBy]`: search once a location is present. */
    method Refresh()
      modifies this
      ensures userLocation == old(userLocation) && radius == old(radius) && sortBy == old(sortBy)
      ensures isLoading == old(isLoading) && error == old(error)
      ensures userLocation.None? ==> nearbyMonuments == old(nearbyMonuments)
      ensures userLocation.Some? ==>
        nearbyMonuments == FindNearby(Constants.MONUMENTS, userLocation.value, radius, sortBy, distance)
    {
      if userLocation.Some? {
        FindMonuments();
      }
    }

    /** The geolocation success callback, followed by the effect. */
    method LocationFound(lat: real, lon: real)
      requires Consistent()
      modifies this
      ensures Consistent()
      ensures userLocation == Some(Location(lat, lon)) && !isLoading
      ensures radius == old(radius) && sortBy == old(sortBy) && error == old(error)
    {
      userLocation := Some(Location(lat, lon));
      isLoading := false;
      Refresh();
    }

    /** The geolocation error callback; the location stays unknown. */
    method LocationFailed()
      requires Consistent()
      modifies this
      ensures Consistent()
      ensures error == Some(LOCATION_DENIED) && !isLoading
      ensures userLocation == old(userLocation) && radius == old(radius) && sortBy == old(sortBy)
      ensures nearbyMonuments == old(nearbyMonuments)
    {
      error := Some(LOCATION_DENIED);
      isLoading := false;
    }

    /** Moving the radius slider, followed by the effect. */
    method SetRadius(r: real)
      requires Consistent()
      modifies this
      ensures Consistent()
      ensures radius == r
      ensures userLocation == old(userLocation) && sortBy == old(sortBy)
      ensures error == old(error) && isLoading == old(isLoading)
    {
      radius := r;
      Refresh();
    }

    /** Choosing the sort key, followed by the effect. */
    method SetSortBy(key: SortKey)
      requires Consistent()
      modifies this
      ensures Consistent()
      ensures sortBy == key
      ensures userLocation == old(userLocation) && radius == old(radius)
      ensures error == old(error) && isLoading == old(isLoading)
    {
      sortBy := key;
      Refresh();
    }
  }
}

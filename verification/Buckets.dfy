/**
 The communities pallet's location index: locations are stored per community and geohash
 bucket, and each bucket lists the communities that have a location in it.
 */
module Buckets {
  import opened Primitives

  // A pair of coordinates in its lexicographic order, and a geohash bucket.
  type Location = int
  type Geohash = nat

  datatype Slot = Slot(cid: Cid, bucket: Geohash)

  // Geometry is a parameter: buckets, the neighbour buckets that matter for a location,
  // validity, and trip times.
  datatype Geometry = Geometry(
    geohash: Location -> Option<Geohash>,
    neighbours: (Geohash, Location) -> Option<seq<Geohash>>,
    valid: Location -> bool,
    farFromDateline: Location -> bool,
    tripTime: (Location, Location) -> nat,
    minTripTime: nat,
    maxLocations: nat,
    maxCommunities: nat,
    maxIdentifiers: nat)

  ghost predicate Symmetric(g: Geometry) {
    forall a, b :: g.tripTime(a, b) == g.tripTime(b, a)
  }

  datatype Error =
    | CommunityInexistent | CommunityAlreadyRegistered | InvalidLocation | MinimumDistanceViolationToDateLine
    | MinimumDistanceViolationToOtherLocation | InvalidLocationForGeohash | InvalidGeohash
    | TooManyLocationsPerGeohash | TooManyCommunityIdentifiersPerGeohash | TooManyCommunityIdentifiers

  // ---------- strictly sorted lists ----------

  predicate Increasing(s: seq<int>) {
    forall i, j :: 0 <= i < j < |s| ==> s[i] < s[j]
  }

  ghost function Elements(s: seq<int>): set<int> {
    set x | x in s
  }

  datatype Search = Found(index: nat) | Missing(index: nat)

  method BinarySearch(s: seq<int>, x: int) returns (r: Search)
    requires Increasing(s)
    ensures r.Found? ==> r.index < |s| && s[r.index] == x
    ensures r.Missing? ==> r.index <= |s| && (forall i :: 0 <= i < r.index ==> s[i] < x)
                           && (forall i :: r.index <= i < |s| ==> x < s[i])
    ensures r.Found? <==> x in s
  {
    var lo, hi := 0, |s|;
    while lo < hi
      invariant 0 <= lo <= hi <= |s|
      invariant forall i :: 0 <= i < lo ==> s[i] < x
      invariant forall i :: hi <= i < |s| ==> x < s[i]
    {
      var mid := (lo + hi) / 2;
      if s[mid] < x {
        lo := mid + 1;
      } else if x < s[mid] {
        hi := mid;
      } else {
        return Found(mid);
      }
    }
    return Missing(lo);
  }

  lemma InsertedAt(s: seq<int>, i: nat, x: int)
    requires Increasing(s) && i <= |s|
    requires (forall j :: 0 <= j < i ==> s[j] < x) && (forall j :: i <= j < |s| ==> x < s[j])
    ensures Increasing(s[..i] + [x] + s[i..])
    ensures Elements(s[..i] + [x] + s[i..]) == Elements(s) + {x}
  {
    var t := s[..i] + [x] + s[i..];
    assert s == s[..i] + s[i..];
    forall y ensures y in t <==> y in s || y == x {
      assert y in s <==> y in s[..i] || y in s[i..];
    }
  }

  lemma RemovedAt(s: seq<int>, i: nat)
    requires Increasing(s) && i < |s|
    ensures Increasing(s[..i] + s[i + 1..])
    ensures Elements(s[..i] + s[i + 1..]) == Elements(s) - {s[i]}
  {
    var t := s[..i] + s[i + 1..];
    assert s == s[..i] + [s[i]] + s[i + 1..];
    forall y ensures y in t <==> y in s && y != s[i] {
      assert y in s <==> y in s[..i] || y == s[i] || y in s[i + 1..];
    }
  }

  /** A strictly increasing list is determined by its elements. */
  lemma {:induction false} SameElementsSameList(s: seq<int>, t: seq<int>)
    requires Increasing(s) && Increasing(t) && Elements(s) == Elements(t)
    ensures s == t
  {
    hide Increasing, Elements;
    SameHead(s, t);
    if s != [] {
      RemovedAt(s, 0);
      RemovedAt(t, 0);
      assert s[..0] + s[1..] == s[1..] && t[..0] + t[1..] == t[1..];
      SameElementsSameList(s[1..], t[1..]);
      assert s == [s[0]] + s[1..] && t == [t[0]] + t[1..];
    }
  }

  lemma SameHead(s: seq<int>, t: seq<int>)
    requires Increasing(s) && Increasing(t) && Elements(s) == Elements(t)
    ensures s == [] <==> t == []
    ensures s != [] && t != [] ==> s[0] == t[0]
  {
    assert s == [] || s[0] in Elements(s);
    assert t == [] || t[0] in Elements(t);
    if s != [] {
      var i :| 0 <= i < |t| && t[i] == s[0];
      var j :| 0 <= j < |s| && s[j] == t[0];
    }
  }

  // ---------- storage ----------

  datatype Store = Store(locations: map<Slot, seq<Location>>, buckets: map<Geohash, seq<Cid>>, communities: seq<Cid>)

  function LocationsAt(st: Store, cid: Cid, b: Geohash): seq<Location> {
    if Slot(cid, b) in st.locations then st.locations[Slot(cid, b)] else []
  }

  function CommunitiesAt(st: Store, b: Geohash): seq<Cid> {
    if b in st.buckets then st.buckets[b] else []
  }

  predicate Has(st: Store, cid: Cid, b: Geohash, l: Location) {
    l in LocationsAt(st, cid, b)
  }

  ghost predicate Sorted(st: Store) {
    && (forall cid: Cid, b: Geohash :: Increasing(LocationsAt(st, cid, b)))
    && (forall b: Geohash :: Increasing(CommunitiesAt(st, b)))
  }

  // A community is listed under a bucket exactly if it has a location there.
  ghost predicate Agrees(st: Store) {
    forall cid: Cid, b: Geohash :: AgreesAt(st, cid, b)
  }

  ghost predicate AgreesAt(st: Store, cid: Cid, b: Geohash) {
    cid in CommunitiesAt(st, b) <==> exists l: Location :: Has(st, cid, b, l)
  }

  // Locations are filed under their own geohash, for registered communities only.
  ghost predicate Placed(st: Store, g: Geometry) {
    forall cid: Cid, b: Geohash, l: Location :: Has(st, cid, b, l) ==> g.geohash(l) == Some(b) && cid in st.communities
  }

  // Any two locations stored in one bucket are at least the minimum trip time apart.
  ghost predicate Spaced(st: Store, g: Geometry) {
    forall c: Cid, d: Cid, b: Geohash, l: Location, m: Location ::
      Has(st, c, b, l) && Has(st, d, b, m) && (c != d || l != m) ==> g.tripTime(l, m) >= g.minTripTime
  }

  ghost predicate Inv(st: Store, g: Geometry) {
    Sorted(st) && Agrees(st) && Placed(st, g) && Spaced(st, g)
  }

  // Only the lists of one bucket, and in it only one community's locations, may differ.
  ghost predicate OnlyAt(st: Store, st': Store, cid: Cid, b: Geohash) {
    && (forall c: Cid, d: Geohash :: c != cid || d != b ==> LocationsAt(st', c, d) == LocationsAt(st, c, d))
    && (forall d: Geohash :: d != b ==> CommunitiesAt(st', d) == CommunitiesAt(st, d))
  }

  // The bounded lists take the location and the community, or hold them already.
  predicate RoomForLocation(st: Store, g: Geometry, cid: Cid, b: Geohash, l: Location) {
    l in LocationsAt(st, cid, b) || |LocationsAt(st, cid, b)| < g.maxLocations
  }

  predicate RoomForCommunity(st: Store, g: Geometry, cid: Cid, b: Geohash) {
    cid in CommunitiesAt(st, b) || |CommunitiesAt(st, b)| < g.maxCommunities
  }

  // What a new location must be: valid, away from the date line and from others, and with room.
  ghost predicate Fileable(st: Store, g: Geometry, cid: Cid, l: Location) {
    && g.valid(l) && g.farFromDateline(l) && Acceptable(st, g, l)
    && RoomForLocation(st, g, cid, g.geohash(l).value, l) && RoomForCommunity(st, g, cid, g.geohash(l).value)
  }

  ghost predicate Added(st: Store, st': Store, cid: Cid, b: Geohash, l: Location) {
    && Sorted(st') && OnlyAt(st, st', cid, b)
    && Elements(LocationsAt(st', cid, b)) == Elements(LocationsAt(st, cid, b)) + {l}
    && Elements(CommunitiesAt(st', b)) == Elements(CommunitiesAt(st, b)) + {cid}
  }

  ghost predicate Removed(st: Store, st': Store, cid: Cid, b: Geohash, l: Location) {
    && Sorted(st') && OnlyAt(st, st', cid, b) && st'.communities == st.communities
    && Elements(LocationsAt(st', cid, b)) == Elements(LocationsAt(st, cid, b)) - {l}
    && Elements(CommunitiesAt(st', b)) ==
         if Has(st, cid, b, l) && exists m: Location :: m != l && Has(st, cid, b, m)
         then Elements(CommunitiesAt(st, b))
         else Elements(CommunitiesAt(st, b)) - {cid}
  }

  lemma HasMeansElement(st: Store, cid: Cid, b: Geohash, l: Location)
    ensures Has(st, cid, b, l) <==> l in Elements(LocationsAt(st, cid, b))
  {
  }

  lemma AddedHas(st: Store, st': Store, cid: Cid, b: Geohash, l: Location, c: Cid, d: Geohash, m: Location)
    requires Added(st, st', cid, b, l)
    ensures Has(st', c, d, m) <==> Has(st, c, d, m) || (c == cid && d == b && m == l)
  {
    hide Sorted;
    HasMeansElement(st, c, d, m);
    HasMeansElement(st', c, d, m);
  }

  lemma RemovedHas(st: Store, st': Store, cid: Cid, b: Geohash, l: Location, c: Cid, d: Geohash, m: Location)
    requires Removed(st, st', cid, b, l)
    ensures Has(st', c, d, m) <==> Has(st, c, d, m) && !(c == cid && d == b && m == l)
  {
    hide Sorted;
    HasMeansElement(st, c, d, m);
    HasMeansElement(st', c, d, m);
  }

  /** Removing keeps the index in agreement exactly when the location was stored, or nothing
      was; otherwise the community drops out of a bucket in which it still has locations. */
  lemma RemovalAgreesExactly(st: Store, st': Store, cid: Cid, b: Geohash, l: Location)
    requires Agrees(st) && Removed(st, st', cid, b, l)
    ensures Agrees(st') <==> (Has(st, cid, b, l) || !exists m: Location :: Has(st, cid, b, m))
  {
    hide Sorted, Has;
    assert AgreesAt(st, cid, b);
    forall m ensures Has(st', cid, b, m) <==> Has(st, cid, b, m) && m != l {
      RemovedHas(st, st', cid, b, l, cid, b, m);
    }
    assert cid in CommunitiesAt(st', b) <==> cid in Elements(CommunitiesAt(st', b));
    assert cid in CommunitiesAt(st, b) <==> cid in Elements(CommunitiesAt(st, b));
    if Has(st, cid, b, l) || !exists m: Location :: Has(st, cid, b, m) {
      forall c: Cid, d: Geohash ensures AgreesAt(st', c, d) {
        OthersAgree(st, st', cid, b, l, c, d);
      }
    } else {
      assert !AgreesAt(st', cid, b);
    }
  }

  lemma OthersAgree(st: Store, st': Store, cid: Cid, b: Geohash, l: Location, c: Cid, d: Geohash)
    requires Agrees(st) && Removed(st, st', cid, b, l)
    requires Has(st, cid, b, l) || !exists m: Location :: Has(st, cid, b, m)
    ensures AgreesAt(st', c, d)
  {
    hide Sorted, Has;
    assert AgreesAt(st, c, d);
    forall m ensures Has(st', c, d, m) <==> Has(st, c, d, m) && !(c == cid && d == b && m == l) {
      RemovedHas(st, st', cid, b, l, c, d, m);
    }
    assert c in CommunitiesAt(st', d) <==> c in Elements(CommunitiesAt(st', d));
    assert c in CommunitiesAt(st, d) <==> c in Elements(CommunitiesAt(st, d));
  }

  lemma RemovedKeeps(st: Store, st': Store, g: Geometry, cid: Cid, b: Geohash, l: Location)
    requires Inv(st, g) && Removed(st, st', cid, b, l)
    requires Has(st, cid, b, l) || !exists m: Location :: Has(st, cid, b, m)
    ensures Inv(st', g)
  {
    hide Has, AgreesAt;
    RemovalAgreesExactly(st, st', cid, b, l);
    forall c: Cid, d: Geohash, m: Location ensures Has(st', c, d, m) ==> Has(st, c, d, m) {
      RemovedHas(st, st', cid, b, l, c, d, m);
    }
  }

  // Adding a location that keeps its distance keeps the invariant.
  lemma AddedKeeps(st: Store, st': Store, g: Geometry, cid: Cid, b: Geohash, l: Location)
    requires Inv(st, g) && Symmetric(g) && Added(st, st', cid, b, l)
    requires g.geohash(l) == Some(b) && cid in st'.communities
    requires forall c :: c in st.communities ==> c in st'.communities
    requires forall c: Cid, m: Location :: Has(st, c, b, m) ==> g.tripTime(l, m) >= g.minTripTime
    ensures Inv(st', g)
  {
    hide Has, AgreesAt;
    forall c: Cid, d: Geohash, m: Location
      ensures Has(st', c, d, m) <==> Has(st, c, d, m) || (c == cid && d == b && m == l)
    {
      AddedHas(st, st', cid, b, l, c, d, m);
    }
    forall c: Cid, d: Geohash ensures AgreesAt(st', c, d) {
      AddedAgrees(st, st', cid, b, l, c, d);
    }
  }

  lemma AddedAgrees(st: Store, st': Store, cid: Cid, b: Geohash, l: Location, c: Cid, d: Geohash)
    requires Agrees(st) && Added(st, st', cid, b, l)
    ensures AgreesAt(st', c, d)
  {
    hide Sorted, Has;
    assert AgreesAt(st, c, d);
    forall m ensures Has(st', c, d, m) <==> Has(st, c, d, m) || (c == cid && d == b && m == l) {
      AddedHas(st, st', cid, b, l, c, d, m);
    }
    assert c == cid && d == b ==> Has(st', c, d, l);
    assert (exists m: Location :: Has(st', c, d, m)) <==>
           (c == cid && d == b) || exists m: Location :: Has(st, c, d, m);
    assert c in CommunitiesAt(st', d) <==> c in Elements(CommunitiesAt(st', d));
    assert c in CommunitiesAt(st, d) <==> c in Elements(CommunitiesAt(st, d));
  }

  // Writing the two lists of a slot and its bucket.
  lemma WrittenSlot(st: Store, st': Store, cid: Cid, b: Geohash, here: seq<Location>, cids: seq<Cid>)
    requires Sorted(st) && Increasing(here) && Increasing(cids)
    requires forall k: Slot :: k != Slot(cid, b) ==> (k in st'.locations <==> k in st.locations)
    requires forall k: Slot :: k != Slot(cid, b) && k in st.locations ==> st'.locations[k] == st.locations[k]
    requires forall d: Geohash :: d != b ==> (d in st'.buckets <==> d in st.buckets)
    requires forall d: Geohash :: d != b && d in st.buckets ==> st'.buckets[d] == st.buckets[d]
    requires LocationsAt(st', cid, b) == here && CommunitiesAt(st', b) == cids
    ensures Sorted(st') && OnlyAt(st, st', cid, b)
  {
    hide Increasing;
    forall c: Cid, d: Geohash ensures Increasing(LocationsAt(st', c, d)) {
      assert Increasing(LocationsAt(st, c, d));
    }
    forall d: Geohash ensures Increasing(CommunitiesAt(st', d)) {
      assert Increasing(CommunitiesAt(st, d));
    }
  }

  // ---------- nearby locations ----------

  // The buckets examined for a location: the relevant neighbours and its own.
  function Examined(g: Geometry, l: Location): Option<seq<Geohash>> {
    match g.geohash(l)
    case None => None
    case Some(b) =>
      match g.neighbours(b, l)
      case None => None
      case Some(buckets) => Some(buckets + [b])
  }

  ghost predicate StoredIn(st: Store, buckets: seq<Geohash>, m: Location) {
    exists b: Geohash, c: Cid :: b in buckets && Has(st, c, b, m)
  }

  /** The nearby search returns exactly the stored locations of the examined buckets. */
  method GetNearbyLocations(st: Store, g: Geometry, l: Location) returns (result: Option<seq<Location>>)
    requires Agrees(st)
    ensures result.Some? <==> Examined(g, l).Some?
    ensures result.Some? ==> forall m :: m in result.value <==> StoredIn(st, Examined(g, l).value, m)
  {
    hide Has, AgreesAt;
    var bucket := g.geohash(l);
    if bucket.None? {
      return None;
    }
    var relevant := g.neighbours(bucket.value, l);
    if relevant.None? {
      return None;
    }
    var buckets := relevant.value + [bucket.value];
    var nearby: seq<Location> := [];
    for i := 0 to |buckets|
      invariant forall m :: m in nearby <==> StoredIn(st, buckets[..i], m)
    {
      var here := CollectBucket(st, buckets[i]);
      BucketJoins(st, buckets, i);
      nearby := nearby + here;
    }
    assert buckets[..|buckets|] == buckets;
    return Some(nearby);
  }

  lemma BucketJoins(st: Store, buckets: seq<Geohash>, i: nat)
    requires i < |buckets|
    ensures forall m :: StoredIn(st, buckets[..i + 1], m) <==>
              StoredIn(st, buckets[..i], m) || StoredIn(st, [buckets[i]], m)
  {
    hide Has;
    assert buckets[..i + 1] == buckets[..i] + [buckets[i]];
  }

  method CollectBucket(st: Store, b: Geohash) returns (found: seq<Location>)
    requires Agrees(st)
    ensures forall m :: m in found <==> StoredIn(st, [b], m)
  {
    found := [];
    var cids := CommunitiesAt(st, b);
    for i := 0 to |cids|
      invariant forall m :: m in found <==> exists j :: 0 <= j < i && Has(st, cids[j], b, m)
    {
      found := found + LocationsAt(st, cids[i], b);
    }
    forall m ensures m in found <==> StoredIn(st, [b], m) {
      if m in found {
        var j :| 0 <= j < |cids| && Has(st, cids[j], b, m);
        assert b in [b];
      }
      if StoredIn(st, [b], m) {
        var d: Geohash, c: Cid :| d in [b] && Has(st, c, d, m);
        assert AgreesAt(st, c, b);
      }
    }
  }

  // ---------- the pallet ----------

  class Pallet {
    var locations: map<Slot, seq<Location>>
    var buckets: map<Geohash, seq<Cid>>
    var communities: seq<Cid>
    const geometry: Geometry

    ghost function View(): Store
      reads this
    {
      Store(locations, buckets, communities)
    }

    constructor (geometry: Geometry)
      ensures View() == Store(map[], map[], []) && Inv(View(), geometry) && this.geometry == geometry
    {
      locations, buckets, communities := map[], map[], [];
      this.geometry := geometry;
    }

    // A new location must be valid, away from the date line, and away from nearby locations.
    method ValidateLocation(l: Location) returns (error: Option<Error>)
      requires Inv(View(), geometry)
      ensures error.None? <==> geometry.valid(l) && geometry.farFromDateline(l) && Acceptable(View(), geometry, l)
      ensures error == Some(MinimumDistanceViolationToOtherLocation) ==>
                && Examined(geometry, l).Some?
                && exists m :: StoredIn(View(), Examined(geometry, l).value, m) &&
                               geometry.tripTime(l, m) < geometry.minTripTime
    {
      hide StoredIn;
      if !geometry.valid(l) {
        return Some(InvalidLocation);
      }
      if !geometry.farFromDateline(l) {
        return Some(MinimumDistanceViolationToDateLine);
      }
      var nearby := GetNearbyLocations(Store(locations, buckets, communities), geometry, l);
      if nearby.None? {
        return Some(if geometry.geohash(l).None? then InvalidLocationForGeohash else InvalidGeohash);
      }
      for i := 0 to |nearby.value|
        invariant forall j :: 0 <= j < i ==> geometry.tripTime(l, nearby.value[j]) >= geometry.minTripTime
      {
        if geometry.tripTime(l, nearby.value[i]) < geometry.minTripTime {
          assert StoredIn(View(), Examined(geometry, l).value, nearby.value[i]);
          return Some(MinimumDistanceViolationToOtherLocation);
        }
      }
      return None;
    }

    // Files the location, then lists the community; a full list rolls everything back.
    method InsertLocation(cid: Cid, b: Geohash, l: Location) returns (error: Option<Error>)
      requires Sorted(View())
      modifies this`locations, this`buckets
      ensures error.None? <==>
                old(RoomForLocation(View(), geometry, cid, b, l) && RoomForCommunity(View(), geometry, cid, b))
      ensures error.None? ==> Added(old(View()), View(), cid, b, l)
      ensures error.Some? ==> View() == old(View())
    {
      hide Increasing, Elements;
      var savedLocations := locations;
      var here := if Slot(cid, b) in locations then locations[Slot(cid, b)] else [];
      assert here == LocationsAt(View(), cid, b);
      var filed := Insert(here, l);
      if |filed| > |here| && |here| >= geometry.maxLocations {
        return Some(TooManyLocationsPerGeohash);
      }
      locations := locations[Slot(cid, b) := filed];
      var cids := if b in buckets then buckets[b] else [];
      assert cids == CommunitiesAt(old(View()), b);
      var listed := Insert(cids, cid);
      if |listed| > |cids| && |cids| >= geometry.maxCommunities {
        locations := savedLocations;
        return Some(TooManyCommunityIdentifiersPerGeohash);
      }
      AllNat(cids, listed, cid);
      buckets := buckets[b := listed];
      WrittenSlot(old(View()), View(), cid, b, filed, listed);
      return None;
    }

    method DoAddLocation(cid: Cid, l: Location) returns (error: Option<Error>)
      requires Inv(View(), geometry) && Symmetric(geometry)
      modifies this`locations, this`buckets
      ensures Inv(View(), geometry)
      ensures error.None? <==> cid in communities && old(Fileable(View(), geometry, cid, l))
      ensures error.Some? ==> View() == old(View())
      ensures error.None? ==> Added(old(View()), View(), cid, geometry.geohash(l).value, l)
    {
      hide Agrees, Placed, Spaced, OnlyAt;
      if cid !in communities {
        return Some(CommunityInexistent);
      }
      error := ValidateLocation(l);
      if error.Some? {
        return;
      }
      var b := geometry.geohash(l).value;
      OwnBucketExamined(View(), geometry, b, l);
      error := InsertLocation(cid, b, l);
      if error.None? {
        AddedKeeps(old(View()), View(), geometry, cid, b, l);
      }
    }

    // The index part of registering a community with its first location.
    method NewCommunity(cid: Cid, l: Location) returns (error: Option<Error>)
      requires Inv(View(), geometry) && Symmetric(geometry)
      modifies this
      ensures Inv(View(), geometry)
      ensures error.None? <==> cid !in old(communities) && old(Fileable(View(), geometry, cid, l))
                               && |old(communities)| < geometry.maxIdentifiers
      ensures error.Some? ==> View() == old(View())
      ensures error.None? ==> communities == old(communities) + [cid]
      ensures error.None? ==> Added(old(View()), View(), cid, geometry.geohash(l).value, l)
    {
      hide Agrees, Placed, Spaced;
      if cid in communities {
        return Some(CommunityAlreadyRegistered);
      }
      error := ValidateLocation(l);
      if error.Some? {
        return;
      }
      var b := geometry.geohash(l).value;
      OwnBucketExamined(View(), geometry, b, l);
      var savedLocations, savedBuckets := locations, buckets;
      error := InsertLocation(cid, b, l);
      if error.None? {
        if |communities| >= geometry.maxIdentifiers {
          locations, buckets := savedLocations, savedBuckets;
          return Some(TooManyCommunityIdentifiers);
        }
        ghost var mid := View();
        communities := communities + [cid];
        WrittenSlot(mid, View(), cid, b, LocationsAt(mid, cid, b), CommunitiesAt(mid, b));
        AddedKeeps(old(View()), View(), geometry, cid, b, l);
      }
    }

    // Removes the location, and the community from the bucket if none is left there.
    method RemoveLocationIntern(cid: Cid, l: Location, b: Geohash)
      requires Sorted(View())
      modifies this`locations, this`buckets
      ensures Removed(old(View()), View(), cid, b, l)
    {
      hide Increasing, Elements;
      var here := if Slot(cid, b) in locations then locations[Slot(cid, b)] else [];
      assert here == LocationsAt(View(), cid, b);
      var rest := Remove(here, l);
      var left := 0;
      if |rest| < |here| {
        left := |rest|;
        locations := locations[Slot(cid, b) := rest];
      }
      LeftOver(old(View()), cid, b, rest, l);
      var cids := if b in buckets then buckets[b] else [];
      assert cids == CommunitiesAt(old(View()), b);
      if left == 0 {
        var others := Remove(cids, cid);
        AllNat(cids, others, cid);
        cids := others;
        if others == [] {
          buckets := buckets - {b};
        } else {
          buckets := buckets[b := others];
        }
      }
      WrittenSlot(old(View()), View(), cid, b, rest, cids);
    }

    // Empties one bucket of a community, location by location.
    method ClearBucket(cid: Cid, b: Geohash)
      requires Inv(View(), geometry)
      modifies this`locations, this`buckets
      ensures Inv(View(), geometry) && OnlyAt(old(View()), View(), cid, b)
      ensures forall l :: !Has(View(), cid, b, l)
    {
      hide Agrees, Placed, Spaced, Increasing;
      var here := if Slot(cid, b) in locations then locations[Slot(cid, b)] else [];
      assert Increasing(LocationsAt(View(), cid, b));
      for i := 0 to |here|
        invariant Inv(View(), geometry) && OnlyAt(old(View()), View(), cid, b)
        invariant forall l :: Has(View(), cid, b, l) <==> l in here[i..]
      {
        ghost var before := View();
        assert here[i] in here[i..];
        RemoveLocationIntern(cid, here[i], b);
        RemovedKeeps(before, View(), geometry, cid, b, here[i]);
        NextGone(here, i, before, View(), cid, b);
      }
    }

    // Removes a community with all its locations.
    method RemoveCommunity(cid: Cid)
      requires Inv(View(), geometry)
      modifies this
      ensures Inv(View(), geometry)
      ensures cid !in communities && forall b, l :: !Has(View(), cid, b, l)
      ensures forall c, b :: c != cid ==> LocationsAt(View(), c, b) == LocationsAt(old(View()), c, b)
      ensures forall c :: c != cid ==> (c in communities <==> c in old(communities))
    {
      forall b, l ensures Has(View(), cid, b, l) ==> Slot(cid, b) in locations {}
      hide Agrees, Placed, Spaced, Increasing, Has;
      var slots := set k | k in locations && k.cid == cid;
      while slots != {}
        invariant Inv(View(), geometry) && communities == old(communities)
        invariant forall c, b :: c != cid ==> LocationsAt(View(), c, b) == LocationsAt(old(View()), c, b)
        invariant forall k :: k in slots ==> k.cid == cid
        invariant forall b, l :: Has(View(), cid, b, l) ==> Slot(cid, b) in slots
        decreases slots
      {
        var k :| k in slots;
        ghost var before := View();
        ClearBucket(cid, k.bucket);
        OtherBucketsHave(before, View(), cid, k.bucket);
        slots := slots - {k};
      }
      ghost var cleared := View();
      var gone := set k | k in locations && k.cid == cid;
      locations := locations - gone;
      communities := Without(communities, cid);
      Forgotten(cleared, View(), geometry, cid);
    }

    /** Removing a location keeps the index and the store in agreement exactly when the location
        is stored, or the community has no location in that bucket anyway. */
    method DoRemoveLocation(cid: Cid, l: Location) returns (error: Option<Error>)
      requires Inv(View(), geometry)
      modifies this`locations, this`buckets
      ensures error.None? <==> cid in communities && geometry.geohash(l).Some?
      ensures error.Some? ==> View() == old(View())
      ensures error.None? ==>
                var b := geometry.geohash(l).value;
                && Removed(old(View()), View(), cid, b, l)
                && (Inv(View(), geometry) <==> Has(old(View()), cid, b, l) || !HasAny(old(View()), cid, b))
    {
      hide Agrees, Placed, Spaced, OnlyAt, Has, HasAny;
      if cid !in communities {
        return Some(CommunityInexistent);
      }
      var b := geometry.geohash(l);
      if b.None? {
        return Some(InvalidLocationForGeohash);
      }
      RemoveLocationIntern(cid, l, b.value);
      RemovedKeepsExactly(old(View()), View(), geometry, cid, b.value, l);
      return None;
    }
  }

  ghost predicate HasAny(st: Store, cid: Cid, b: Geohash) {
    exists l: Location :: Has(st, cid, b, l)
  }

  lemma RemovedKeepsExactly(st: Store, st': Store, g: Geometry, cid: Cid, b: Geohash, l: Location)
    requires Inv(st, g) && Removed(st, st', cid, b, l)
    ensures Inv(st', g) <==> Has(st, cid, b, l) || !HasAny(st, cid, b)
  {
    hide Agrees, Placed, Spaced, Removed, Sorted;
    RemovalAgreesExactly(st, st', cid, b, l);
    if Has(st, cid, b, l) || !HasAny(st, cid, b) {
      RemovedKeeps(st, st', g, cid, b, l);
    }
  }

  lemma NextGone(here: seq<Location>, i: nat, st: Store, st': Store, cid: Cid, b: Geohash)
    requires Increasing(here) && i < |here| && Removed(st, st', cid, b, here[i])
    requires forall l :: Has(st, cid, b, l) <==> l in here[i..]
    ensures forall l :: Has(st', cid, b, l) <==> l in here[i + 1..]
  {
    hide Has;
    assert here[i..] == [here[i]] + here[i + 1..];
    assert here[i] !in here[i + 1..];
    forall l ensures Has(st', cid, b, l) <==> l in here[i + 1..] {
      RemovedHas(st, st', cid, b, here[i], cid, b, l);
    }
  }

  lemma OtherBucketsHave(st: Store, st': Store, cid: Cid, b: Geohash)
    requires OnlyAt(st, st', cid, b)
    ensures forall d: Geohash, l: Location :: d != b ==> (Has(st', cid, d, l) <==> Has(st, cid, d, l))
  {
  }

  // Dropping the emptied slots of a community and its registration.
  lemma Forgotten(st: Store, st': Store, g: Geometry, cid: Cid)
    requires Inv(st, g) && forall b: Geohash, l: Location :: !Has(st, cid, b, l)
    requires st'.locations == st.locations - (set k | k in st.locations && k.cid == cid)
    requires st'.buckets == st.buckets && forall c :: c in st'.communities <==> c in st.communities && c != cid
    ensures Inv(st', g) && forall b: Geohash, l: Location :: !Has(st', cid, b, l)
    ensures forall c: Cid, b: Geohash :: LocationsAt(st', c, b) == LocationsAt(st, c, b)
  {
    hide Increasing, AgreesAt;
    forall c: Cid, b: Geohash
      ensures LocationsAt(st', c, b) == LocationsAt(st, c, b) && AgreesAt(st', c, b)
    {
      EmptySlot(st, st', cid, c, b);
      assert AgreesAt(st, c, b);
      SameSlotAgrees(st, st', c, b);
    }
    forall b: Geohash ensures CommunitiesAt(st', b) == CommunitiesAt(st, b) {}
    forall c: Cid, b: Geohash, l: Location ensures Has(st', c, b, l) <==> Has(st, c, b, l) {}
  }

  lemma HasSome(st: Store, cid: Cid, b: Geohash)
    ensures LocationsAt(st, cid, b) != [] ==> exists l: Location :: Has(st, cid, b, l)
  {
    var s := LocationsAt(st, cid, b);
    if s != [] {
      assert Has(st, cid, b, s[0]);
    }
  }

  lemma EmptySlot(st: Store, st': Store, cid: Cid, c: Cid, b: Geohash)
    requires forall d: Geohash, l: Location :: !Has(st, cid, d, l)
    requires st'.locations == st.locations - (set k | k in st.locations && k.cid == cid)
    ensures LocationsAt(st', c, b) == LocationsAt(st, c, b)
  {
    HasSome(st, cid, b);
  }

  lemma SameSlotAgrees(st: Store, st': Store, c: Cid, b: Geohash)
    requires AgreesAt(st, c, b) && LocationsAt(st', c, b) == LocationsAt(st, c, b) && st'.buckets == st.buckets
    ensures AgreesAt(st', c, b)
  {
    forall l: Location ensures Has(st', c, b, l) <==> Has(st, c, b, l) {}
  }

  method Insert(s: seq<int>, x: int) returns (t: seq<int>)
    requires Increasing(s)
    ensures Increasing(t) && Elements(t) == Elements(s) + {x}
    ensures x in s ==> t == s
    ensures x !in s ==> |t| == |s| + 1
  {
    var position := BinarySearch(s, x);
    match position {
      case Found(_) =>
        t := s;
        assert x in Elements(s);
      case Missing(i) =>
        InsertedAt(s, i, x);
        t := s[..i] + [x] + s[i..];
    }
  }

  method Remove(s: seq<int>, x: int) returns (t: seq<int>)
    requires Increasing(s)
    ensures Increasing(t) && Elements(t) == Elements(s) - {x}
    ensures x !in s ==> t == s
    ensures x in s ==> |t| == |s| - 1
  {
    var position := BinarySearch(s, x);
    match position {
      case Found(i) =>
        RemovedAt(s, i);
        t := s[..i] + s[i + 1..];
      case Missing(_) =>
        t := s;
        assert x !in Elements(s);
    }
  }

  // Inserting or removing an identifier leaves a list of identifiers.
  lemma AllNat(s: seq<Cid>, t: seq<int>, x: Cid)
    requires Elements(t) <= Elements(s) + {x}
    ensures forall i :: 0 <= i < |t| ==> t[i] >= 0
  {
    forall i | 0 <= i < |t| ensures t[i] >= 0 {
      assert t[i] in Elements(t);
    }
  }

  lemma LeftOver(st: Store, cid: Cid, b: Geohash, rest: seq<int>, l: Location)
    requires Elements(rest) == Elements(LocationsAt(st, cid, b)) - {l}
    ensures |rest| > 0 <==> exists m: Location :: m != l && Has(st, cid, b, m)
  {
    if |rest| > 0 {
      assert rest[0] in Elements(rest);
      assert Has(st, cid, b, rest[0]);
    }
    if exists m: Location :: m != l && Has(st, cid, b, m) {
      var m :| m != l && Has(st, cid, b, m);
      assert m in Elements(rest);
    }
  }

  // The location is admissible and far enough from everything in the examined buckets.
  ghost predicate Acceptable(st: Store, g: Geometry, l: Location) {
    && g.geohash(l).Some? && Examined(g, l).Some?
    && forall m :: StoredIn(st, Examined(g, l).value, m) ==> g.tripTime(l, m) >= g.minTripTime
  }

  lemma OwnBucketExamined(st: Store, g: Geometry, b: Geohash, l: Location)
    requires Acceptable(st, g, l) && g.geohash(l) == Some(b)
    ensures forall c: Cid, m: Location :: Has(st, c, b, m) ==> g.tripTime(l, m) >= g.minTripTime
  {
    assert b in Examined(g, l).value;
    forall c: Cid, m: Location | Has(st, c, b, m) ensures StoredIn(st, Examined(g, l).value, m) {}
  }
}

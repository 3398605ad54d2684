/** Listing one side of a sync: which places it reports, and under which relative paths. */
module SyncListing {
  import opened Wrappers
  import opened SyncTypes
  import opened SyncPlanner
  import opened SyncFilters
  import opened SyncLowering

  /** What is stored at a place. */
  datatype Object = Object(size: nat, modified: Option<string>, etag: Option<string>)

  type Places = map<Endpoint, Object>

  function Entry(path: string, held: Object): SyncObject {
    SyncObject(path, held.size, held.modified, held.etag)
  }

  predicate IsRelative(path: string) {
    path == "" || path[0] != '/'
  }

  /** Listing a bucket reports every key that starts with the prefix as text; listing a directory reports
      every file below it. */
  predicate Listed(side: Side, place: Endpoint) {
    match side.kind
    case S3Kind =>
      place.S3? && place.connectionId == side.connectionId && place.bucket == side.bucket && side.prefix <= place.key
    case LocalKind => place.Local? && side.localPath == Some(place.root) && IsRelative(place.path)
  }

  /** The relative path a listed place is reported under. */
  function PathOf(side: Side, place: Endpoint): string
    requires Listed(side, place)
  {
    match side.kind
    case S3Kind => RelativeOf(side.prefix, place.key)
    case LocalKind => place.path
  }

  /** A key meets the prefix at the slashes that joining puts back; a file always does. */
  predicate AtBoundary(side: Side, place: Endpoint)
    requires Listed(side, place)
  {
    side.kind.S3Kind? ==> KeyBoundaryOk(side.prefix, place.key)
  }

  /** A listed place whose path the filter lets through. */
  predicate Selected(side: Side, filter: PatternFilter, place: Endpoint) {
    Listed(side, place) && Passes(filter, PathOf(side, place))
  }

  predicate AllAtBoundary(side: Side, filter: PatternFilter, places: Places) {
    forall place :: place in places && Selected(side, filter, place) ==> AtBoundary(side, place)
  }

  /** A listed place is the one its path stands for exactly when it is at the boundary. */
  lemma PlaceRoundTripsIff(side: Side, place: Endpoint)
    requires Listed(side, place)
    ensures IsRelative(PathOf(side, place))
    ensures PlaceOf(side, PathOf(side, place)) == place <==> AtBoundary(side, place)
  {
    if side.kind.S3Kind? {
      KeyRoundTripsIff(side.prefix, place.key);
      var rest := place.key[|side.prefix|..];
      var n := TrimmedIsSuffix(rest);
    }
  }

  /** The place of a relative path is listed, under that path. */
  lemma PlaceIsListed(side: Side, path: string)
    requires IsRelative(path) && (side.kind.LocalKind? ==> side.localPath.Some?)
    ensures Listed(side, PlaceOf(side, path)) && PathOf(side, PlaceOf(side, path)) == path
    ensures AtBoundary(side, PlaceOf(side, path))
  {
    if side.kind.S3Kind? {
      var key := JoinS3Key(side.prefix, path);
      RelativeRoundTrips(side.prefix, path);
      assert key[..|side.prefix|] == side.prefix;
      PlaceRoundTripsIff(side, PlaceOf(side, path));
    }
  }

  // ----- What a listing says -----

  ghost predicate ReportedAt(side: Side, places: Places, place: Endpoint, path: string, entry: SyncObject) {
    place in places && Listed(side, place) && PathOf(side, place) == path && entry == Entry(path, places[place])
  }

  ghost predicate IsReported(side: Side, places: Places, path: string, entry: SyncObject) {
    exists place :: ReportedAt(side, places, place, path, entry)
  }

  /** Every path listed passes the filter and is that of some listed place, with the object there, and every
      listed place's path that passes is listed. Places with one path are told apart by nothing: some one of
      them is reported. */
  ghost predicate IsListing(side: Side, filter: PatternFilter, places: Places, listing: map<string, SyncObject>) {
    && (forall path :: path in listing ==> Passes(filter, path) && IsReported(side, places, path, listing[path]))
    && (forall place :: place in places && Selected(side, filter, place) ==> PathOf(side, place) in listing)
  }

  predicate AllListed(side: Side, places: Places, order: seq<Endpoint>) {
    forall place :: place in order ==> place in places && Listed(side, place)
  }

  /** The entries of an enumeration in some order. */
  function Entries(side: Side, places: Places, order: seq<Endpoint>): seq<SyncObject>
    requires AllListed(side, places, order)
  {
    if order == [] then []
    else
      var last := order[|order| - 1];
      Entries(side, places, order[..|order| - 1]) + [Entry(PathOf(side, last), places[last])]
  }

  /** Whatever the order of enumeration, filtering its entries and indexing them by path gives a listing. */
  lemma {:induction false} EnumerationIsListing(side: Side, filter: PatternFilter, places: Places, order: seq<Endpoint>)
    requires forall place :: place in order <==> place in places && Listed(side, place)
    ensures IsListing(side, filter, places, ByPath(FilterListing(filter, Entries(side, places, order))))
  {
    EnumeratedPaths(side, places, order);
    FilterThenIndex(filter, Entries(side, places, order));
  }

  /** The index of an enumeration holds the paths of its places, each with what is at one of them. */
  ghost predicate Indexes(side: Side, places: Places, order: seq<Endpoint>, listing: map<string, SyncObject>)
    requires AllListed(side, places, order)
  {
    && (forall path :: path in listing ==> IsReported(side, places, path, listing[path]))
    && (forall place :: place in order ==> PathOf(side, place) in listing)
  }

  lemma {:induction false} EnumeratedPaths(side: Side, places: Places, order: seq<Endpoint>)
    requires AllListed(side, places, order)
    ensures Indexes(side, places, order, ByPath(Entries(side, places, order)))
  {
    if order != [] {
      var front, last := order[..|order| - 1], order[|order| - 1];
      assert order == front + [last];
      EnumeratedPaths(side, places, front);
      var entries, entry := Entries(side, places, front), Entry(PathOf(side, last), places[last]);
      assert (entries + [entry])[..|entries|] == entries;
      assert ByPath(Entries(side, places, order)) == ByPath(entries)[PathOf(side, last) := entry];
      IndexOneMore(side, places, front, last, ByPath(entries));
    }
  }

  lemma IndexOneMore(side: Side, places: Places, front: seq<Endpoint>, last: Endpoint, listing: map<string, SyncObject>)
    requires AllListed(side, places, front + [last]) && AllListed(side, places, front)
    requires Indexes(side, places, front, listing)
    requires last in places && Listed(side, last)
    ensures Indexes(side, places, front + [last],
                    listing[PathOf(side, last) := Entry(PathOf(side, last), places[last])])
  {
    var path := PathOf(side, last);
    assert ReportedAt(side, places, last, path, Entry(path, places[last]));
    assert IsReported(side, places, path, Entry(path, places[last]));
  }

  lemma ListedPathIsRelative(side: Side, filter: PatternFilter, places: Places, listing: map<string, SyncObject>,
                             path: string)
    requires IsListing(side, filter, places, listing) && path in listing
    ensures IsRelative(path) && Passes(filter, path)
    ensures side.kind.LocalKind? ==> side.localPath.Some?
  {
    assert IsReported(side, places, path, listing[path]);
    var place :| ReportedAt(side, places, place, path, listing[path]);
    PlaceRoundTripsIff(side, place);
  }

  /** On a side whose selected places are all at the boundary, listing and places say the same. */
  lemma BoundaryListingIsExact(side: Side, filter: PatternFilter, places: Places, listing: map<string, SyncObject>,
                               path: string)
    requires IsListing(side, filter, places, listing) && AllAtBoundary(side, filter, places)
    requires IsRelative(path) && Passes(filter, path)
    requires side.kind.LocalKind? ==> side.localPath.Some?
    ensures path in listing <==> PlaceOf(side, path) in places
    ensures path in listing ==>
              var entry, held := listing[path], places[PlaceOf(side, path)];
              && entry == Entry(path, held)
              && entry.relativePath == path && entry.size == held.size
              && entry.modified == held.modified && entry.etag == held.etag
  {
    PlaceIsListed(side, path);
    if path in listing {
      assert IsReported(side, places, path, listing[path]);
      var place :| ReportedAt(side, places, place, path, listing[path]);
      PlaceRoundTripsIff(side, place);
    }
  }
}

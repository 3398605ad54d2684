/** Planning: two listings are merged by path and each path gets one action and reason. */
module SyncPlanner {
  import opened Wrappers
  import opened SyncTypes
  import opened PathOrder

  // ----- The decision for one path -----

  function UpdateOrConflict(overwriteChanged: bool, reason: PlanReason): (PlanAction, PlanReason) {
    if overwriteChanged then (Update, reason) else (Conflict, reason)
  }

  /** The order of two modification times, which are compared as text. */
  predicate NotLater(a: string, b: string) {
    !Before(b, a)
  }

  function CompareSyncObjects(source: SyncObject, destination: SyncObject, mode: CompareMode, policy: SyncPolicy)
    : (PlanAction, PlanReason)
  {
    match mode
    case AlwaysOverwrite => UpdateOrConflict(policy.overwriteChanged, SourceNewer)
    case SizeOnly =>
      if source.size == destination.size then (Skip, Identical)
      else UpdateOrConflict(policy.overwriteChanged, SizeMismatch)
    case SizeAndModTime =>
      if source.size != destination.size then UpdateOrConflict(policy.overwriteChanged, SizeMismatch)
      else if source.modified == destination.modified then (Skip, Identical)
      else UpdateOrConflict(policy.overwriteChanged, SourceNewer)
    case UpdateIfSourceNewer =>
      if source.size != destination.size then UpdateOrConflict(policy.overwriteChanged, SizeMismatch)
      else if source.modified == destination.modified then (Skip, Identical)
      else if source.modified.Some? && destination.modified.Some?
              && NotLater(source.modified.value, destination.modified.value) then
        match policy.destinationNewer
        case SourceWins => UpdateOrConflict(policy.overwriteChanged, DestinationNewer)
        case SkipNewer => (Skip, DestinationNewer)
        case ConflictNewer => (Conflict, DestinationNewer)
      else UpdateOrConflict(policy.overwriteChanged, SourceNewer)
    case ChecksumIfAvailable =>
      if source.etag.Some? && source.etag == destination.etag && source.size == destination.size then
        (Skip, Identical)
      else if source.size != destination.size then UpdateOrConflict(policy.overwriteChanged, SizeMismatch)
      else UpdateOrConflict(policy.overwriteChanged, ChecksumMismatch)
  }

  function CompareCopyObjects(source: SyncObject, destination: SyncObject, mode: CompareMode)
    : (PlanAction, PlanReason)
  {
    match mode
    case AlwaysOverwrite => (Update, SourceNewer)
    case SizeOnly =>
      if source.size == destination.size then (Skip, Identical) else (Update, SizeMismatch)
    case SizeAndModTime =>
      if source.size != destination.size then (Update, SizeMismatch)
      else if source.modified == destination.modified then (Skip, Identical)
      else (Update, SourceNewer)
    case UpdateIfSourceNewer =>
      if source.size != destination.size then (Update, SizeMismatch)
      else if source.modified == destination.modified then (Skip, Identical)
      else if source.modified.Some? && destination.modified.Some?
              && NotLater(source.modified.value, destination.modified.value) then
        (Skip, DestinationNewer)
      else (Update, SourceNewer)
    case ChecksumIfAvailable =>
      if source.etag.Some? && source.etag == destination.etag && source.size == destination.size then
        (Skip, Identical)
      else if source.size != destination.size then (Update, SizeMismatch)
      else (Update, ChecksumMismatch)
  }

  function MissingOnSourceAction(mode: SyncMode, policy: SyncPolicy): (PlanAction, PlanReason) {
    if mode.Copy? || !policy.deleteExtras then (Skip, MissingOnSource) else (Delete, MissingOnSource)
  }

  /** The action for a path that at least one side lists. */
  function Decide(source: Option<SyncObject>, destination: Option<SyncObject>, mode: SyncMode, policy: SyncPolicy,
                  compare: CompareMode): (PlanAction, PlanReason)
    requires source.Some? || destination.Some?
  {
    if source.Some? && destination.Some? then
      if mode.Copy? then CompareCopyObjects(source.value, destination.value, compare)
      else CompareSyncObjects(source.value, destination.value, compare, policy)
    else if source.Some? then (Create, MissingOnDestination)
    else MissingOnSourceAction(mode, policy)
  }

  // ----- What the decisions mean -----

  /** What a compare mode takes as evidence that two objects are the same. */
  predicate SameBy(mode: CompareMode, source: SyncObject, destination: SyncObject) {
    match mode
    case AlwaysOverwrite => false
    case SizeOnly => source.size == destination.size
    case SizeAndModTime => source.size == destination.size && source.modified == destination.modified
    case UpdateIfSourceNewer => source.size == destination.size && source.modified == destination.modified
    case ChecksumIfAvailable =>
      source.size == destination.size && source.etag == destination.etag && source.etag.Some?
  }

  /** Both sides are dated, equally long, dated differently, and the destination not the older. */
  predicate DestinationIsNewer(mode: CompareMode, source: SyncObject, destination: SyncObject) {
    && mode == UpdateIfSourceNewer
    && source.size == destination.size
    && source.modified.Some? && destination.modified.Some?
    && Before(source.modified.value, destination.modified.value)
  }

  /** The four outcomes of a comparison, each by a condition that does not mention the others. */
  lemma ComparisonOutcomes(source: SyncObject, destination: SyncObject, mode: CompareMode, policy: SyncPolicy)
    ensures var (action, reason) := CompareSyncObjects(source, destination, mode, policy);
            var same, newer := SameBy(mode, source, destination), DestinationIsNewer(mode, source, destination);
            && action in {Skip, Update, Conflict}
            && (reason == Identical <==> same)
            && (reason == DestinationNewer <==> newer)
            && (action == Skip <==> same || (newer && policy.destinationNewer == SkipNewer))
            && (action == Conflict <==>
                !same && if newer && policy.destinationNewer != SourceWins
                         then policy.destinationNewer == ConflictNewer
                         else !policy.overwriteChanged)
            && (reason == SizeMismatch <==> mode != AlwaysOverwrite && source.size != destination.size)
            && (reason == ChecksumMismatch <==>
                mode == ChecksumIfAvailable && source.size == destination.size && !same)
            && reason in {Identical, SourceNewer, DestinationNewer, SizeMismatch, ChecksumMismatch}
  {
    if source.modified.Some? && destination.modified.Some? {
      BeforeTotal(source.modified.value, destination.modified.value);
      BeforeIrreflexive(source.modified.value);
      if Before(source.modified.value, destination.modified.value)
         && Before(destination.modified.value, source.modified.value) {
        BeforeTransitive(source.modified.value, destination.modified.value, source.modified.value);
      }
    }
  }

  // ----- Listings as maps -----

  /** The listing by path; a later entry replaces an earlier one of the same path. */
  function ByPath(objects: seq<SyncObject>): map<string, SyncObject> {
    if objects == [] then map[]
    else
      var last := objects[|objects| - 1];
      ByPath(objects[..|objects| - 1])[last.relativePath := last]
  }

  lemma {:induction false} ByPathKeepsPaths(objects: seq<SyncObject>)
    ensures forall p :: p in ByPath(objects) ==> ByPath(objects)[p].relativePath == p
    ensures ByPath(objects).Keys == set o | o in objects :: o.relativePath
  {
    if objects != [] {
      var front, last := objects[..|objects| - 1], objects[|objects| - 1];
      ByPathKeepsPaths(front);
      assert objects == front + [last];
      assert (set o | o in objects :: o.relativePath) == (set o | o in front :: o.relativePath) + {last.relativePath};
    }
  }

  /** Of several objects with one path it holds the last. */
  lemma {:induction false} LastOfPathWins(objects: seq<SyncObject>, path: string) returns (k: nat)
    requires path in ByPath(objects)
    ensures k < |objects| && ByPath(objects)[path] == objects[k] && objects[k].relativePath == path
    ensures forall j :: k < j < |objects| ==> objects[j].relativePath != path
  {
    var front, last := objects[..|objects| - 1], objects[|objects| - 1];
    if last.relativePath == path {
      k := |objects| - 1;
    } else {
      k := LastOfPathWins(front, path);
      assert forall j :: k < j < |front| ==> objects[j] == front[j];
    }
  }

  function Lookup(objects: map<string, SyncObject>, path: string): Option<SyncObject> {
    if path in objects then Some(objects[path]) else None
  }

  // ----- The plan -----

  function ItemFor(path: string, source: map<string, SyncObject>, destination: map<string, SyncObject>,
                   mode: SyncMode, policy: SyncPolicy, compare: CompareMode): PlanItem
    requires path in source || path in destination
  {
    var s, d := Lookup(source, path), Lookup(destination, path);
    var (action, reason) := Decide(s, d, mode, policy, compare);
    PlanItem(action, reason, path, s, d)
  }

  function ItemsFor(paths: seq<string>, source: map<string, SyncObject>, destination: map<string, SyncObject>,
                    mode: SyncMode, policy: SyncPolicy, compare: CompareMode): (items: seq<PlanItem>)
    requires forall p :: p in paths ==> p in source || p in destination
    ensures |items| == |paths|
    ensures forall k :: 0 <= k < |paths| ==>
              items[k] == ItemFor(paths[k], source, destination, mode, policy, compare)
  {
    seq(|paths|, k requires 0 <= k < |paths| => ItemFor(paths[k], source, destination, mode, policy, compare))
  }

  function AllPaths(source: map<string, SyncObject>, destination: map<string, SyncObject>): seq<string> {
    SortedPaths(source.Keys + destination.Keys)
  }

  function PlanItems(source: map<string, SyncObject>, destination: map<string, SyncObject>,
                     mode: SyncMode, policy: SyncPolicy, compare: CompareMode): seq<PlanItem>
  {
    SortedPathsIsSorted(source.Keys + destination.Keys);
    assert forall p :: p in AllPaths(source, destination) ==> p in Elements(AllPaths(source, destination));
    ItemsFor(AllPaths(source, destination), source, destination, mode, policy, compare)
  }

  lemma ItemAt(source: map<string, SyncObject>, destination: map<string, SyncObject>,
               mode: SyncMode, policy: SyncPolicy, compare: CompareMode, k: nat)
    requires k < |AllPaths(source, destination)|
    ensures var path := AllPaths(source, destination)[k];
            && (path in source || path in destination)
            && |PlanItems(source, destination, mode, policy, compare)| == |AllPaths(source, destination)|
            && PlanItems(source, destination, mode, policy, compare)[k]
               == ItemFor(path, source, destination, mode, policy, compare)
  {
    var paths := AllPaths(source, destination);
    SortedPathsIsSorted(source.Keys + destination.Keys);
    assert paths[k] in Elements(paths);
  }

  function CountOf(items: seq<PlanItem>, action: PlanAction): nat {
    if items == [] then 0
    else CountOf(items[..|items| - 1], action) + if items[|items| - 1].action == action then 1 else 0
  }

  /** The size an item adds to its action's byte total. */
  function ItemBytes(item: PlanItem): nat {
    if item.action == Delete then (if item.destination.Some? then item.destination.value.size else 0)
    else (if item.source.Some? then item.source.value.size else 0)
  }

  function BytesOf(items: seq<PlanItem>, action: PlanAction): nat {
    if items == [] then 0
    else
      BytesOf(items[..|items| - 1], action)
      + if items[|items| - 1].action == action then ItemBytes(items[|items| - 1]) else 0
  }

  /** The counters agree with the items. */
  ghost predicate Tallies(summary: PlanSummary, items: seq<PlanItem>) {
    && summary.creates == CountOf(items, Create)
    && summary.updates == CountOf(items, Update)
    && summary.deletes == CountOf(items, Delete)
    && summary.skips == CountOf(items, Skip)
    && summary.conflicts == CountOf(items, Conflict)
    && summary.bytesToCreate == BytesOf(items, Create)
    && summary.bytesToUpdate == BytesOf(items, Update)
    && summary.bytesToDelete == BytesOf(items, Delete)
  }

  function SummaryOf(items: seq<PlanItem>, sourceScanned: nat, destinationScanned: nat): (summary: PlanSummary)
    ensures Tallies(summary, items)
  {
    PlanSummary(CountOf(items, Create), CountOf(items, Update), CountOf(items, Delete), CountOf(items, Skip),
                CountOf(items, Conflict), BytesOf(items, Create), BytesOf(items, Update), BytesOf(items, Delete),
                sourceScanned, destinationScanned)
  }

  /** The plan of two listings. */
  function PlanOf(source: seq<SyncObject>, destination: seq<SyncObject>, mode: SyncMode, policy: SyncPolicy,
                  compare: CompareMode): SyncPlan
  {
    var items := PlanItems(ByPath(source), ByPath(destination), mode, policy, compare);
    SyncPlan(items, SummaryOf(items, |ByPath(source)|, |ByPath(destination)|))
  }

  function Tally(summary: PlanSummary, action: PlanAction, source: Option<SyncObject>, destination: Option<SyncObject>)
    : PlanSummary
  {
    var sourceBytes := if source.Some? then source.value.size else 0;
    var destinationBytes := if destination.Some? then destination.value.size else 0;
    match action
    case Create => summary.(creates := summary.creates + 1, bytesToCreate := summary.bytesToCreate + sourceBytes)
    case Update => summary.(updates := summary.updates + 1, bytesToUpdate := summary.bytesToUpdate + sourceBytes)
    case Delete => summary.(deletes := summary.deletes + 1, bytesToDelete := summary.bytesToDelete + destinationBytes)
    case Skip => summary.(skips := summary.skips + 1)
    case Conflict => summary.(conflicts := summary.conflicts + 1)
  }

  method IndexByPath(objects: seq<SyncObject>) returns (index: map<string, SyncObject>)
    ensures index == ByPath(objects)
  {
    index := map[];
    for i := 0 to |objects|
      invariant index == ByPath(objects[..i])
    {
      assert objects[..i + 1][..i] == objects[..i];
      index := index[objects[i].relativePath := objects[i]];
    }
    assert objects[..|objects|] == objects;
  }

  method BuildSyncPlan(source: seq<SyncObject>, destination: seq<SyncObject>, mode: SyncMode, policy: SyncPolicy,
                       compare: CompareMode) returns (plan: SyncPlan)
    ensures plan == PlanOf(source, destination, mode, policy, compare)
    ensures plan.items == PlanItems(ByPath(source), ByPath(destination), mode, policy, compare)
    ensures Tallies(plan.summary, plan.items)
    ensures plan.summary.sourceScanned == |ByPath(source)|
    ensures plan.summary.destinationScanned == |ByPath(destination)|
  {
    var sourceMap := IndexByPath(source);
    var destinationMap := IndexByPath(destination);
    var summary := PlanSummary(0, 0, 0, 0, 0, 0, 0, 0, |sourceMap|, |destinationMap|);
    var items: seq<PlanItem> := [];
    var allPaths := AllPaths(sourceMap, destinationMap);
    ghost var planned := PlanItems(sourceMap, destinationMap, mode, policy, compare);
    for i := 0 to |allPaths|
      invariant PlannedUpTo(planned, i, items, summary, |sourceMap|, |destinationMap|)
    {
      ItemAt(sourceMap, destinationMap, mode, policy, compare, i);
      var path := allPaths[i];
      var s, d := Lookup(sourceMap, path), Lookup(destinationMap, path);
      var (action, reason) := Decide(s, d, mode, policy, compare);
      PlanOneMore(planned, i, items, summary, |sourceMap|, |destinationMap|);
      summary := Tally(summary, action, s, d);
      items := items + [PlanItem(action, reason, path, s, d)];
    }
    plan := SyncPlan(items, summary);
    PlanComplete(planned, items, summary, |sourceMap|, |destinationMap|);
  }

  lemma PlanComplete(planned: seq<PlanItem>, items: seq<PlanItem>, summary: PlanSummary, sourceScanned: nat,
                     destinationScanned: nat)
    requires PlannedUpTo(planned, |planned|, items, summary, sourceScanned, destinationScanned)
    ensures items == planned && summary == SummaryOf(items, sourceScanned, destinationScanned)
  {
    assert planned[..|planned|] == planned;
  }

  /** The first `i` items of the plan are built and counted. */
  ghost predicate PlannedUpTo(planned: seq<PlanItem>, i: nat, items: seq<PlanItem>, summary: PlanSummary,
                              sourceScanned: nat, destinationScanned: nat)
  {
    && i <= |planned| && items == planned[..i] && Tallies(summary, items)
    && summary.sourceScanned == sourceScanned && summary.destinationScanned == destinationScanned
  }

  lemma PlanOneMore(planned: seq<PlanItem>, i: nat, items: seq<PlanItem>, summary: PlanSummary,
                    sourceScanned: nat, destinationScanned: nat)
    requires PlannedUpTo(planned, i, items, summary, sourceScanned, destinationScanned) && i < |planned|
    ensures PlannedUpTo(planned, i + 1, items + [planned[i]],
                        Tally(summary, planned[i].action, planned[i].source, planned[i].destination),
                        sourceScanned, destinationScanned)
  {
    TallyOne(summary, items, planned[i]);
    assert planned[..i + 1] == planned[..i] + [planned[i]];
  }

  lemma TallyOne(summary: PlanSummary, items: seq<PlanItem>, item: PlanItem)
    requires Tallies(summary, items)
    ensures var next := Tally(summary, item.action, item.source, item.destination);
            && Tallies(next, items + [item])
            && next.sourceScanned == summary.sourceScanned
            && next.destinationScanned == summary.destinationScanned
  {
    assert (items + [item])[..|items|] == items;
  }

  // ----- Laws of the plan -----

  ghost predicate Covers(items: seq<PlanItem>, path: string) {
    exists k :: 0 <= k < |items| && items[k].relativePath == path
  }

  /** A plan is in strict path order, so no path is listed twice. */
  lemma PlanIsSorted(source: map<string, SyncObject>, destination: map<string, SyncObject>,
                     mode: SyncMode, policy: SyncPolicy, compare: CompareMode)
    ensures var items := PlanItems(source, destination, mode, policy, compare);
            forall i, j :: 0 <= i < j < |items| ==>
              && Before(items[i].relativePath, items[j].relativePath)
              && items[i].relativePath != items[j].relativePath
  {
    var items := PlanItems(source, destination, mode, policy, compare);
    var paths := AllPaths(source, destination);
    SortedPathsIsSorted(source.Keys + destination.Keys);
    SortedDistinct(paths);
    forall i, j | 0 <= i < j < |items|
      ensures Before(items[i].relativePath, items[j].relativePath)
              && items[i].relativePath != items[j].relativePath
    {
      ItemAt(source, destination, mode, policy, compare, i);
      ItemAt(source, destination, mode, policy, compare, j);
    }
  }

  /** A plan lists exactly the paths of either side, each with the objects both sides have there and
      the decision for them. */
  lemma PlanIsExact(source: map<string, SyncObject>, destination: map<string, SyncObject>,
                    mode: SyncMode, policy: SyncPolicy, compare: CompareMode)
    ensures var items := PlanItems(source, destination, mode, policy, compare);
            && (forall p :: Covers(items, p) <==> p in source || p in destination)
            && |items| == |source.Keys + destination.Keys|
            && (forall k :: 0 <= k < |items| ==>
                  var p := items[k].relativePath;
                  && (p in source || p in destination)
                  && (items[k].source == if p in source then Some(source[p]) else None)
                  && (items[k].destination == if p in destination then Some(destination[p]) else None)
                  && items[k] == ItemFor(p, source, destination, mode, policy, compare))
  {
    var items := PlanItems(source, destination, mode, policy, compare);
    var paths := AllPaths(source, destination);
    SortedPathsIsSorted(source.Keys + destination.Keys);
    forall k | 0 <= k < |items|
      ensures var p := items[k].relativePath;
              && p == paths[k]
              && (p in source || p in destination)
              && items[k] == ItemFor(p, source, destination, mode, policy, compare)
    {
      ItemAt(source, destination, mode, policy, compare, k);
    }
    forall p | p in source || p in destination ensures Covers(items, p) {
      assert p in Elements(paths);
      var k :| 0 <= k < |paths| && paths[k] == p;
      assert items[k].relativePath == p;
    }
  }

  /** What becomes of a path that one side lacks: created, or deleted if that is asked for and skipped if not;
      and an item's reason names the lacking side exactly when there is one. */
  lemma MissingSides(source: map<string, SyncObject>, destination: map<string, SyncObject>,
                     mode: SyncMode, policy: SyncPolicy, compare: CompareMode, path: string)
    requires path in source || path in destination
    ensures var item := ItemFor(path, source, destination, mode, policy, compare);
            && (item.reason == MissingOnDestination <==> path !in destination)
            && (item.reason == MissingOnSource <==> path !in source)
            && (path !in destination ==> item.action == Create)
            && (path !in source ==> item.action == if mode != Copy && policy.deleteExtras then Delete else Skip)
            && (path in source && path in destination ==> item.action in {Update, Skip, Conflict})
  {
    if path in source && path in destination {
      ComparisonOutcomes(source[path], destination[path], compare, policy);
      CopyCompareAgrees(source[path], destination[path], compare, DeleteAfter);
      ComparisonOutcomes(source[path], destination[path], compare, CopyPolicy(DeleteAfter));
    }
  }

  // ----- The summary in terms of the listings -----

  /** The paths of some items with one action. */
  function PathsWith(items: seq<PlanItem>, action: PlanAction): set<string> {
    if items == [] then {}
    else
      var last := items[|items| - 1];
      PathsWith(items[..|items| - 1], action) + if last.action == action then {last.relativePath} else {}
  }

  ghost predicate PlannedAs(items: seq<PlanItem>, path: string, action: PlanAction) {
    exists k :: 0 <= k < |items| && items[k].relativePath == path && items[k].action == action
  }

  lemma {:induction false} PathsWithIff(items: seq<PlanItem>, action: PlanAction, path: string)
    ensures path in PathsWith(items, action) <==> PlannedAs(items, path, action)
  {
    if items != [] {
      var front, last := items[..|items| - 1], items[|items| - 1];
      PathsWithIff(front, action, path);
      if k :| 0 <= k < |front| && front[k].relativePath == path && front[k].action == action {
        assert items[k] == front[k];
      }
      if k :| 0 <= k < |items| && items[k].relativePath == path && items[k].action == action {
        assert k < |front| ==> front[k] == items[k];
      }
    }
  }

  ghost predicate NoRepeats(items: seq<PlanItem>) {
    forall i, j :: 0 <= i < j < |items| ==> items[i].relativePath != items[j].relativePath
  }

  lemma NoRepeatsInFront(items: seq<PlanItem>, action: PlanAction)
    requires NoRepeats(items) && items != []
    ensures var front := items[..|items| - 1];
            NoRepeats(front) && !PlannedAs(front, items[|items| - 1].relativePath, action)
  {
    var front := items[..|items| - 1];
    forall k | 0 <= k < |front|
      ensures front[k] == items[k] && front[k].relativePath != items[|items| - 1].relativePath
    {
    }
  }

  /** Where no path repeats, an action's counter is the number of its paths. */
  lemma {:induction false} CountIsCardinality(items: seq<PlanItem>, action: PlanAction)
    requires NoRepeats(items)
    ensures CountOf(items, action) == |PathsWith(items, action)|
  {
    if items != [] {
      var front, last := items[..|items| - 1], items[|items| - 1];
      NoRepeatsInFront(items, action);
      CountIsCardinality(front, action);
      PathsWithIff(front, action, last.relativePath);
    }
  }

  /** The listed paths with one action. */
  function PathsDecided(source: map<string, SyncObject>, destination: map<string, SyncObject>,
                        mode: SyncMode, policy: SyncPolicy, compare: CompareMode, action: PlanAction): set<string>
  {
    set p | p in source.Keys + destination.Keys
            && ItemFor(p, source, destination, mode, policy, compare).action == action
  }

  lemma {:induction false} CountsDecided(source: map<string, SyncObject>, destination: map<string, SyncObject>,
                      mode: SyncMode, policy: SyncPolicy, compare: CompareMode, action: PlanAction)
    ensures CountOf(PlanItems(source, destination, mode, policy, compare), action)
            == |PathsDecided(source, destination, mode, policy, compare, action)|
  {
    var items := PlanItems(source, destination, mode, policy, compare);
    PlanIsSorted(source, destination, mode, policy, compare);
    CountIsCardinality(items, action);
    forall p ensures p in PathsWith(items, action)
                     <==> p in PathsDecided(source, destination, mode, policy, compare, action)
    {
      PathsWithIff(items, action, p);
      ItemOfPath(source, destination, mode, policy, compare, action, p);
    }
    assert PathsWith(items, action) == PathsDecided(source, destination, mode, policy, compare, action);
  }

  lemma ItemOfPath(source: map<string, SyncObject>, destination: map<string, SyncObject>,
                   mode: SyncMode, policy: SyncPolicy, compare: CompareMode, action: PlanAction, p: string)
    ensures PlannedAs(PlanItems(source, destination, mode, policy, compare), p, action)
            <==> p in PathsDecided(source, destination, mode, policy, compare, action)
  {
    var items := PlanItems(source, destination, mode, policy, compare);
    PlanIsExact(source, destination, mode, policy, compare);
    if p in PathsDecided(source, destination, mode, policy, compare, action) {
      assert Covers(items, p);
      var k :| 0 <= k < |items| && items[k].relativePath == p;
    }
  }

  /** What the user reviews, in terms of the listings: as many creates as there are paths that only the source
      has, as many deletes as there are paths that only the destination has, if extras are deleted, and as
      many updates and conflicts as there are shared paths decided so. */
  lemma SummaryCounts(source: map<string, SyncObject>, destination: map<string, SyncObject>,
                      mode: SyncMode, policy: SyncPolicy, compare: CompareMode, summary: PlanSummary)
    requires Tallies(summary, PlanItems(source, destination, mode, policy, compare))
    ensures summary.creates == |source.Keys - destination.Keys|
    ensures summary.deletes == if mode != Copy && policy.deleteExtras then |destination.Keys - source.Keys| else 0
    ensures summary.updates == |set p | p in source.Keys * destination.Keys
                                        && ItemFor(p, source, destination, mode, policy, compare).action == Update|
    ensures summary.conflicts == |set p | p in source.Keys * destination.Keys
                                          && ItemFor(p, source, destination, mode, policy, compare).action == Conflict|
    ensures summary.creates + summary.updates + summary.deletes + summary.skips + summary.conflicts
            == |source.Keys + destination.Keys|
  {
    forall action ensures CountOf(PlanItems(source, destination, mode, policy, compare), action)
                          == |PathsDecided(source, destination, mode, policy, compare, action)|
    {
      CountsDecided(source, destination, mode, policy, compare, action);
    }
    CountersSum(PlanItems(source, destination, mode, policy, compare));
    PlanIsExact(source, destination, mode, policy, compare);
    DecidedSets(source, destination, mode, policy, compare);
  }

  lemma DecidedSets(source: map<string, SyncObject>, destination: map<string, SyncObject>,
                    mode: SyncMode, policy: SyncPolicy, compare: CompareMode)
    ensures PathsDecided(source, destination, mode, policy, compare, Create) == source.Keys - destination.Keys
    ensures PathsDecided(source, destination, mode, policy, compare, Delete)
            == if mode != Copy && policy.deleteExtras then destination.Keys - source.Keys else {}
    ensures forall action | action in {Update, Conflict} ::
              PathsDecided(source, destination, mode, policy, compare, action)
              == set p | p in source.Keys * destination.Keys
                         && ItemFor(p, source, destination, mode, policy, compare).action == action
  {
    CreatedPaths(source, destination, mode, policy, compare);
    DeletedPaths(source, destination, mode, policy, compare);
    SharedPaths(source, destination, mode, policy, compare, Update);
    SharedPaths(source, destination, mode, policy, compare, Conflict);
  }

  lemma CreatedPaths(source: map<string, SyncObject>, destination: map<string, SyncObject>,
                     mode: SyncMode, policy: SyncPolicy, compare: CompareMode)
    ensures PathsDecided(source, destination, mode, policy, compare, Create) == source.Keys - destination.Keys
  {
    forall p | p in source || p in destination
      ensures ItemFor(p, source, destination, mode, policy, compare).action == Create <==> p !in destination
    {
      MissingSides(source, destination, mode, policy, compare, p);
    }
  }

  lemma DeletedPaths(source: map<string, SyncObject>, destination: map<string, SyncObject>,
                     mode: SyncMode, policy: SyncPolicy, compare: CompareMode)
    ensures PathsDecided(source, destination, mode, policy, compare, Delete)
            == if mode != Copy && policy.deleteExtras then destination.Keys - source.Keys else {}
  {
    forall p | p in source || p in destination
      ensures ItemFor(p, source, destination, mode, policy, compare).action == Delete
              <==> p !in source && mode != Copy && policy.deleteExtras
    {
      MissingSides(source, destination, mode, policy, compare, p);
    }
  }

  lemma SharedPaths(source: map<string, SyncObject>, destination: map<string, SyncObject>,
                    mode: SyncMode, policy: SyncPolicy, compare: CompareMode, action: PlanAction)
    requires action in {Update, Conflict}
    ensures PathsDecided(source, destination, mode, policy, compare, action)
            == set p | p in source.Keys * destination.Keys
                       && ItemFor(p, source, destination, mode, policy, compare).action == action
  {
    forall p | p in PathsDecided(source, destination, mode, policy, compare, action)
      ensures p in source && p in destination
    {
      MissingSides(source, destination, mode, policy, compare, p);
    }
  }

  /** Each item is counted by exactly one of the five counters. */
  lemma {:induction false} CountersSum(items: seq<PlanItem>)
    ensures CountOf(items, Create) + CountOf(items, Update) + CountOf(items, Delete)
            + CountOf(items, Skip) + CountOf(items, Conflict) == |items|
  {
    if items != [] {
      CountersSum(items[..|items| - 1]);
    }
  }

  lemma {:induction false} NoneCounted(items: seq<PlanItem>, action: PlanAction)
    ensures CountOf(items, action) == 0 <==> forall k :: 0 <= k < |items| ==> items[k].action != action
  {
    if items != [] {
      NoneCounted(items[..|items| - 1], action);
    }
  }

  /** The policy a copy plan amounts to. */
  function CopyPolicy(phase: DeletePhase): SyncPolicy {
    SyncPolicy(true, false, SkipNewer, phase)
  }

  /** A copy plan is the sync plan of one fixed policy, whatever policy is set, and so never
      deletes and never conflicts. */
  lemma CopyIsASpecialSync(source: map<string, SyncObject>, destination: map<string, SyncObject>,
                           policy: SyncPolicy, compare: CompareMode, phase: DeletePhase)
    ensures PlanItems(source, destination, Copy, policy, compare)
            == PlanItems(source, destination, Sync, CopyPolicy(phase), compare)
    ensures forall k :: 0 <= k < |PlanItems(source, destination, Copy, policy, compare)| ==>
              PlanItems(source, destination, Copy, policy, compare)[k].action in {Create, Update, Skip}
  {
    var copy := PlanItems(source, destination, Copy, policy, compare);
    var sync := PlanItems(source, destination, Sync, CopyPolicy(phase), compare);
    forall k | 0 <= k < |copy| ensures copy[k] == sync[k] && copy[k].action in {Create, Update, Skip} {
      var path := AllPaths(source, destination)[k];
      ItemAt(source, destination, Copy, policy, compare, k);
      ItemAt(source, destination, Sync, CopyPolicy(phase), compare, k);
      if path in source && path in destination {
        CopyCompareAgrees(source[path], destination[path], compare, phase);
      }
    }
  }

  lemma CopyCompareAgrees(source: SyncObject, destination: SyncObject, compare: CompareMode, phase: DeletePhase)
    ensures CompareCopyObjects(source, destination, compare)
            == CompareSyncObjects(source, destination, compare, CopyPolicy(phase))
    ensures CompareCopyObjects(source, destination, compare).0 in {Update, Skip}
  {
  }

  /** Diff shows exactly what Sync would do. */
  lemma DiffPreviewsSync(source: map<string, SyncObject>, destination: map<string, SyncObject>,
                         policy: SyncPolicy, compare: CompareMode)
    ensures PlanItems(source, destination, Diff, policy, compare)
            == PlanItems(source, destination, Sync, policy, compare)
  {
    var diff := PlanItems(source, destination, Diff, policy, compare);
    var sync := PlanItems(source, destination, Sync, policy, compare);
    forall k | 0 <= k < |diff| ensures diff[k] == sync[k] {
      ItemAt(source, destination, Diff, policy, compare, k);
      ItemAt(source, destination, Sync, policy, compare, k);
    }
  }
}

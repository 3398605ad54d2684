/** End to end: listing, planning, lowering and any clean run together. */
module SyncConvergence {
  import opened Wrappers
  import opened SyncTypes
  import opened PathOrder
  import opened SyncPlanner
  import opened SyncFilters
  import opened SyncLowering
  import opened SyncListing
  import opened SyncExecutor
  import opened StatusSums
  import opened SyncRuns
  import opened SyncRunLaws
  import opened SyncStore

  predicate IsTransferPath(plan: RunPlan, path: string) {
    exists i :: 0 <= i < |plan.transfers| && plan.transfers[i].relativePath == path
  }

  predicate IsDeletePath(plan: RunPlan, path: string) {
    exists k :: 0 <= k < |plan.deletes| && plan.deletes[k].relativePath == path
  }

  /** `run` is the run plan prepared from the plan of two listings. */
  ghost predicate IsRunPlanFor(source: map<string, SyncObject>, destination: map<string, SyncObject>,
                               mode: SyncMode, policy: SyncPolicy, compare: CompareMode,
                               from: Side, to: Side, run: RunPlan)
  {
    Lowered(from, to, PlanItems(source, destination, mode, policy, compare), run.transfers, run.deletes)
  }

  /** The action the plan has for a listed path. */
  function ActionAt(source: map<string, SyncObject>, destination: map<string, SyncObject>,
                    mode: SyncMode, policy: SyncPolicy, compare: CompareMode, path: string): PlanAction
    requires path in source || path in destination
  {
    ItemFor(path, source, destination, mode, policy, compare).action
  }

  predicate Lists(source: map<string, SyncObject>, destination: map<string, SyncObject>, path: string) {
    path in source || path in destination
  }

  lemma PlannedIff(source: map<string, SyncObject>, destination: map<string, SyncObject>,
                   mode: SyncMode, policy: SyncPolicy, compare: CompareMode, path: string, action: PlanAction)
    ensures PlannedAs(PlanItems(source, destination, mode, policy, compare), path, action) <==>
            Lists(source, destination, path)
            && ActionAt(source, destination, mode, policy, compare, path) == action
  {
    ItemOfPath(source, destination, mode, policy, compare, action, path);
  }

  /** Lowering turns each planned create and update into one transfer of that path. */
  lemma TransfersAsPlanned(from: Side, to: Side, items: seq<PlanItem>, run: RunPlan)
    requires Lowered(from, to, items, run.transfers, run.deletes) && NoRepeats(items)
    ensures forall path :: IsTransferPath(run, path) <==>
        PlannedAs(items, path, Create) || PlannedAs(items, path, Update)
    ensures forall i, j :: 0 <= i < j < |run.transfers| ==>
              run.transfers[i].relativePath != run.transfers[j].relativePath
  {
    var origin := TransfersComeFromPlan(from, to, items);
    assert forall i :: 0 <= i < |origin| ==> run.transfers[i].relativePath == items[origin[i]].relativePath;
    forall path | PlannedAs(items, path, Create) || PlannedAs(items, path, Update) ensures IsTransferPath(run, path) {
      var k :| 0 <= k < |items| && items[k].relativePath == path && items[k].action in {Create, Update};
      assert IsTransfer(items[k]);
      var i :| 0 <= i < |origin| && origin[i] == k;
      assert run.transfers[i].relativePath == path;
    }
  }

  /** And each planned delete into one delete. */
  lemma DeletesAsPlanned(from: Side, to: Side, items: seq<PlanItem>, run: RunPlan)
    requires Lowered(from, to, items, run.transfers, run.deletes) && NoRepeats(items)
    ensures forall path :: IsDeletePath(run, path) <==> PlannedAs(items, path, Delete)
    ensures forall i, j :: 0 <= i < j < |run.deletes| ==>
              run.deletes[i].relativePath != run.deletes[j].relativePath
  {
    var origin := DeletesComeFromPlan(from, to, items);
    assert forall i :: 0 <= i < |origin| ==> run.deletes[i].relativePath == items[origin[i]].relativePath;
    forall path | PlannedAs(items, path, Delete) ensures IsDeletePath(run, path) {
      var k :| 0 <= k < |items| && items[k].relativePath == path && items[k].action == Delete;
      assert IsDelete(items[k]);
      var i :| 0 <= i < |origin| && origin[i] == k;
      assert run.deletes[i].relativePath == path;
    }
  }

  /** The transfers of the run plan are exactly the paths the plan creates or updates, without repetition. */
  lemma TransferPathsOfPlan(source: map<string, SyncObject>, destination: map<string, SyncObject>,
                            mode: SyncMode, policy: SyncPolicy, compare: CompareMode,
                            from: Side, to: Side, run: RunPlan)
    requires IsRunPlanFor(source, destination, mode, policy, compare, from, to, run)
    ensures forall path :: IsTransferPath(run, path) <==>
              Lists(source, destination, path)
              && ActionAt(source, destination, mode, policy, compare, path) in {Create, Update}
    ensures forall i, j :: 0 <= i < j < |run.transfers| ==>
              run.transfers[i].relativePath != run.transfers[j].relativePath
  {
    PlanIsSorted(source, destination, mode, policy, compare);
    TransfersAsPlanned(from, to, PlanItems(source, destination, mode, policy, compare), run);
    forall path ensures IsTransferPath(run, path) <==>
              Lists(source, destination, path)
              && ActionAt(source, destination, mode, policy, compare, path) in {Create, Update}
    {
      PlannedIff(source, destination, mode, policy, compare, path, Create);
      PlannedIff(source, destination, mode, policy, compare, path, Update);
    }
  }

  /** The deletes of the run plan are exactly the paths the plan deletes, without repetition. */
  lemma DeletePathsOfPlan(source: map<string, SyncObject>, destination: map<string, SyncObject>,
                          mode: SyncMode, policy: SyncPolicy, compare: CompareMode,
                          from: Side, to: Side, run: RunPlan)
    requires IsRunPlanFor(source, destination, mode, policy, compare, from, to, run)
    ensures forall path :: IsDeletePath(run, path) <==>
              Lists(source, destination, path)
              && ActionAt(source, destination, mode, policy, compare, path) == Delete
    ensures forall i, j :: 0 <= i < j < |run.deletes| ==>
              run.deletes[i].relativePath != run.deletes[j].relativePath
  {
    PlanIsSorted(source, destination, mode, policy, compare);
    DeletesAsPlanned(from, to, PlanItems(source, destination, mode, policy, compare), run);
    forall path ensures IsDeletePath(run, path) <==>
              Lists(source, destination, path)
              && ActionAt(source, destination, mode, policy, compare, path) == Delete
    {
      PlannedIff(source, destination, mode, policy, compare, path, Delete);
    }
  }

  /** A transfer as the listings have it: it reads a listed object of the source, carries its size, and creates
      exactly where the destination lists nothing. */
  predicate SizedTransfer(source: map<string, SyncObject>, destination: map<string, SyncObject>, item: RunItem) {
    && item.relativePath in source && item.bytes == source[item.relativePath].size
    && (item.action == Create <==> item.relativePath !in destination)
    && (item.action == Update <==> item.relativePath in destination)
  }

  /** A delete as the listings have it: of a listed object of the destination that the source lacks, with its
      size. */
  predicate SizedDelete(source: map<string, SyncObject>, destination: map<string, SyncObject>, item: RunItem) {
    && item.relativePath in destination && item.relativePath !in source
    && item.bytes == destination[item.relativePath].size
    && item.action == Delete && item.source == item.destination
  }

  lemma SizedItem(source: map<string, SyncObject>, destination: map<string, SyncObject>,
                  mode: SyncMode, policy: SyncPolicy, compare: CompareMode, path: string, run: RunItem)
    requires Lists(source, destination, path)
    requires ComesFrom(run, ItemFor(path, source, destination, mode, policy, compare))
    ensures run.action in {Create, Update} ==> SizedTransfer(source, destination, run)
    ensures run.action == Delete && run.source == run.destination ==> SizedDelete(source, destination, run)
  {
    MissingSides(source, destination, mode, policy, compare, path);
  }

  /** The bytes of a run plan are the sizes listed: of the source's object for a transfer, of the
      destination's for a delete. */
  lemma BytesAreSizes(source: map<string, SyncObject>, destination: map<string, SyncObject>,
                      mode: SyncMode, policy: SyncPolicy, compare: CompareMode,
                      from: Side, to: Side, run: RunPlan)
    requires IsRunPlanFor(source, destination, mode, policy, compare, from, to, run)
    ensures forall i :: 0 <= i < |run.transfers| ==> SizedTransfer(source, destination, run.transfers[i])
    ensures forall k :: 0 <= k < |run.deletes| ==> SizedDelete(source, destination, run.deletes[k])
  {
    var items := PlanItems(source, destination, mode, policy, compare);
    var transferred := TransfersComeFromPlan(from, to, items);
    var deleted := DeletesComeFromPlan(from, to, items);
    forall i | 0 <= i < |run.transfers| ensures SizedTransfer(source, destination, run.transfers[i]) {
      ItemAt(source, destination, mode, policy, compare, transferred[i]);
      SizedItem(source, destination, mode, policy, compare, items[transferred[i]].relativePath, run.transfers[i]);
    }
    forall k | 0 <= k < |run.deletes| ensures SizedDelete(source, destination, run.deletes[k]) {
      assert LowerDelete(to, items[deleted[k]]) == Ok(run.deletes[k]);
      ItemAt(source, destination, mode, policy, compare, deleted[k]);
      SizedItem(source, destination, mode, policy, compare, items[deleted[k]].relativePath, run.deletes[k]);
    }
  }

  /** Which action a path can have at all. */
  lemma ActionCases(source: map<string, SyncObject>, destination: map<string, SyncObject>,
                    mode: SyncMode, policy: SyncPolicy, compare: CompareMode, path: string)
    requires Lists(source, destination, path)
    ensures var action := ActionAt(source, destination, mode, policy, compare, path);
            && (action == Create <==> path in source && path !in destination)
            && (action == Delete <==> path !in source && !mode.Copy? && policy.deleteExtras)
            && (action in {Update, Conflict} ==> path in source && path in destination)
  {
    if path in source && path in destination {
      ComparisonOutcomes(source[path], destination[path], compare, policy);
      CopyCompareAgrees(source[path], destination[path], compare, DeleteAfter);
    }
  }

  // ----- One sync, end to end -----

  /** Two sides with what they hold, the patterns they were listed by and the listings, and the settings of
      the sync. */
  datatype Scenario = Scenario(
    from: Side,
    to: Side,
    filter: PatternFilter,
    source: Places,
    before: Places,
    sourceList: map<string, SyncObject>,
    destinationList: map<string, SyncObject>,
    policy: SyncPolicy,
    compare: CompareMode)

  ghost predicate WellListed(c: Scenario) {
    IsListing(c.from, c.filter, c.source, c.sourceList) && IsListing(c.to, c.filter, c.before, c.destinationList)
  }

  /** `last` and `result` are where some run of the sync planned for the scenario has got to, finished or
      not, clean or not. */
  ghost predicate Ran(c: Scenario, settings: Settings, run: RunPlan, last: World, result: Store) {
    && settings.mode == Sync
    && IsRunPlanFor(c.sourceList, c.destinationList, Sync, c.policy, c.compare, c.from, c.to, run)
    && RanTo(settings, run, c.source, AsFound(c.before), last, result)
  }

  /** It has finished, and everything it issued succeeded. */
  ghost predicate FinishedClean(c: Scenario, settings: Settings, run: RunPlan, last: World, result: Store) {
    Ran(c, settings, run, last, result) && last.exec.phase == Done && Clean(last)
  }

  function Action(c: Scenario, path: string): PlanAction
    requires Lists(c.sourceList, c.destinationList, path)
  {
    ActionAt(c.sourceList, c.destinationList, Sync, c.policy, c.compare, path)
  }

  /** Every item of a run plan acts at the place its path stands for. */
  ghost predicate WellPlaced(from: Side, to: Side, run: RunPlan) {
    && (forall i :: 0 <= i < |run.transfers| ==>
          && run.transfers[i].source == PlaceOf(from, run.transfers[i].relativePath)
          && run.transfers[i].destination == PlaceOf(to, run.transfers[i].relativePath))
    && (forall k :: 0 <= k < |run.deletes| ==> run.deletes[k].destination == PlaceOf(to, run.deletes[k].relativePath))
  }

  lemma LoweredIsWellPlaced(from: Side, to: Side, items: seq<PlanItem>, run: RunPlan)
    requires Lowered(from, to, items, run.transfers, run.deletes)
    ensures WellPlaced(from, to, run)
  {
    var transferred := TransfersComeFromPlan(from, to, items);
    forall i | 0 <= i < |run.transfers|
      ensures run.transfers[i].source == PlaceOf(from, run.transfers[i].relativePath)
      ensures run.transfers[i].destination == PlaceOf(to, run.transfers[i].relativePath)
    {
      var item := items[transferred[i]];
      assert LowerTransfer(from, to, item) == Ok(run.transfers[i]);
      BuiltAtPlace(from, item.relativePath);
      BuiltAtPlace(to, item.relativePath);
    }
    var deleted := DeletesComeFromPlan(from, to, items);
    forall k | 0 <= k < |run.deletes| ensures run.deletes[k].destination == PlaceOf(to, run.deletes[k].relativePath) {
      var item := items[deleted[k]];
      assert LowerDelete(to, item) == Ok(run.deletes[k]);
      BuiltAtPlace(to, item.relativePath);
    }
  }

  /** Every transfer goes by a strategy that reaches its destination. */
  lemma LoweredReaches(from: Side, to: Side, items: seq<PlanItem>, run: RunPlan)
    requires Lowered(from, to, items, run.transfers, run.deletes)
    ensures forall i :: 0 <= i < |run.transfers| ==> Reaches(run.transfers[i])
  {
    LoweredIsWellPlaced(from, to, items, run);
    StrategiesOfLists(from, to, items);
    forall i | 0 <= i < |run.transfers| ensures Reaches(run.transfers[i]) {
      assert run.transfers[i] in run.transfers;
      assert GoesBy(from, to, run.transfers[i].strategy);
    }
  }

  /** The places of a run plan are those of its paths. */
  lemma PlacesArePaths(from: Side, to: Side, run: RunPlan, path: string)
    requires WellPlaced(from, to, run)
    ensures IsTransferPlace(run, PlaceOf(to, path)) <==> IsTransferPath(run, path)
    ensures IsDeletePlace(run, PlaceOf(to, path)) <==> IsDeletePath(run, path)
  {
    if i :| 0 <= i < |run.transfers| && run.transfers[i].destination == PlaceOf(to, path) {
      PlaceOfInjective(to, path, run.transfers[i].relativePath);
    }
    if k :| 0 <= k < |run.deletes| && run.deletes[k].destination == PlaceOf(to, path) {
      PlaceOfInjective(to, path, run.deletes[k].relativePath);
    }
  }

  lemma RunPlanIsWellAimed(c: Scenario, run: RunPlan)
    requires IsRunPlanFor(c.sourceList, c.destinationList, Sync, c.policy, c.compare, c.from, c.to, run)
    ensures WellPlaced(c.from, c.to, run) && WellAimed(run)
  {
    LoweredReaches(c.from, c.to, PlanItems(c.sourceList, c.destinationList, Sync, c.policy, c.compare), run);
    LoweredIsWellPlaced(c.from, c.to, PlanItems(c.sourceList, c.destinationList, Sync, c.policy, c.compare), run);
    TransferPathsOfPlan(c.sourceList, c.destinationList, Sync, c.policy, c.compare, c.from, c.to, run);
    DeletePathsOfPlan(c.sourceList, c.destinationList, Sync, c.policy, c.compare, c.from, c.to, run);
    forall a: RunItem, b: RunItem | a.relativePath != b.relativePath
      ensures PlaceOf(c.to, a.relativePath) != PlaceOf(c.to, b.relativePath)
    {
      if PlaceOf(c.to, a.relativePath) == PlaceOf(c.to, b.relativePath) {
        PlaceOfInjective(c.to, a.relativePath, b.relativePath);
      }
    }
    forall i, k | 0 <= i < |run.transfers| && 0 <= k < |run.deletes|
      ensures run.transfers[i].relativePath != run.deletes[k].relativePath
    {
      assert IsTransferPath(run, run.transfers[i].relativePath);
      assert IsDeletePath(run, run.deletes[k].relativePath);
    }
  }

  /** The place a listed path stands for holds what the path's action says. */
  ghost predicate PathDone(c: Scenario, result: Store, path: string)
    requires Lists(c.sourceList, c.destinationList, path)
  {
    var read, place := PlaceOf(c.from, path), PlaceOf(c.to, path);
    match Action(c, path)
    case Create => read in c.source && place in result && result[place] == CopyOf(c.source[read])
    case Update => read in c.source && place in result && result[place] == CopyOf(c.source[read])
    case Delete => place !in result
    case Skip => Untouched(AsFound(c.before), result, place)
    case Conflict => Untouched(AsFound(c.before), result, place)
  }

  predicate StandsFor(c: Scenario, place: Endpoint, path: string) {
    Lists(c.sourceList, c.destinationList, path) && place == PlaceOf(c.to, path)
  }

  lemma PathResult(c: Scenario, run: RunPlan, result: Store, path: string)
    requires Lists(c.sourceList, c.destinationList, path) && WellPlaced(c.from, c.to, run)
    requires IsTransferPath(run, path) <==> Action(c, path) in {Create, Update}
    requires IsDeletePath(run, path) <==> Action(c, path) == Delete
    requires forall i :: 0 <= i < |run.transfers| ==>
               var item := run.transfers[i];
               && item.source in c.source
               && item.destination in result && result[item.destination] == CopyOf(c.source[item.source])
    requires IsDeletePath(run, path) ==> PlaceOf(c.to, path) !in result
    requires !IsTransferPath(run, path) && !IsDeletePath(run, path) ==>
               Untouched(AsFound(c.before), result, PlaceOf(c.to, path))
    ensures PathDone(c, result, path)
  {
    if IsTransferPath(run, path) {
      var i :| 0 <= i < |run.transfers| && run.transfers[i].relativePath == path;
      assert run.transfers[i].source == PlaceOf(c.from, path);
    }
  }

  /** What a finished clean sync run leaves, place by place, whatever the policy, the worker limits, the
      order of completions and the delete phase: the places of created and updated paths hold copies of
      what is at the source's place for them, those of deleted paths are empty, those of skipped and
      conflicting ones are as they were, and so is every place no listed path stands for. */
  lemma SyncRunResult(c: Scenario, settings: Settings, run: RunPlan, last: World, result: Store)
    requires FinishedClean(c, settings, run, last, result)
    ensures forall path :: Lists(c.sourceList, c.destinationList, path) ==> PathDone(c, result, path)
    ensures forall place :: (forall path :: !StandsFor(c, place, path)) ==> Untouched(AsFound(c.before), result, place)
  {
    RunPlanIsWellAimed(c, run);
    TransferPathsOfPlan(c.sourceList, c.destinationList, Sync, c.policy, c.compare, c.from, c.to, run);
    DeletePathsOfPlan(c.sourceList, c.destinationList, Sync, c.policy, c.compare, c.from, c.to, run);
    CleanRunDoesThePlan(settings, run, c.source, AsFound(c.before), last, result);
    forall path | Lists(c.sourceList, c.destinationList, path) ensures PathDone(c, result, path) {
      PlacesArePaths(c.from, c.to, run, path);
      PathResult(c, run, result, path);
    }
    forall place | forall path :: !StandsFor(c, place, path) ensures Untouched(AsFound(c.before), result, place) {
      NoItemAt(c, run, place);
    }
  }

  lemma NoItemAt(c: Scenario, run: RunPlan, place: Endpoint)
    requires WellPlaced(c.from, c.to, run) && forall path :: !StandsFor(c, place, path)
    requires forall path :: IsTransferPath(run, path) || IsDeletePath(run, path) ==>
                              Lists(c.sourceList, c.destinationList, path)
    ensures !IsTransferPlace(run, place) && !IsDeletePlace(run, place)
  {
    if i :| 0 <= i < |run.transfers| && run.transfers[i].destination == place {
      assert IsTransferPath(run, run.transfers[i].relativePath);
      assert StandsFor(c, place, run.transfers[i].relativePath);
    }
    if k :| 0 <= k < |run.deletes| && run.deletes[k].destination == place {
      assert IsDeletePath(run, run.deletes[k].relativePath);
      assert StandsFor(c, place, run.deletes[k].relativePath);
    }
  }

  /** The plan has no conflicts, which is what starting a sync run checks. */
  ghost predicate ConflictFree(source: map<string, SyncObject>, destination: map<string, SyncObject>,
                               policy: SyncPolicy, compare: CompareMode)
  {
    CountOf(PlanItems(source, destination, Sync, policy, compare), Conflict) == 0
  }

  lemma ConflictFreeAt(source: map<string, SyncObject>, destination: map<string, SyncObject>,
                       policy: SyncPolicy, compare: CompareMode, path: string)
    requires ConflictFree(source, destination, policy, compare) && Lists(source, destination, path)
    ensures ActionAt(source, destination, Sync, policy, compare, path) != Conflict
  {
    var items := PlanItems(source, destination, Sync, policy, compare);
    NoneCounted(items, Conflict);
    PlanIsExact(source, destination, Sync, policy, compare);
    assert Covers(items, path);
    var k :| 0 <= k < |items| && items[k].relativePath == path;
  }

  // ----- Convergence -----

  function SelectedIn(side: Side, filter: PatternFilter, store: Store): set<Endpoint> {
    set place | place in store && Selected(side, filter, place)
  }

  function PlacesFor(side: Side, paths: set<string>): set<Endpoint> {
    set path | path in paths :: PlaceOf(side, path)
  }

  /** The object at the place of a path is a copy of the source's, or was left because the compare mode
      takes the two for the same. */
  ghost predicate Converged(c: Scenario, result: Store, path: string)
    requires path in c.sourceList
  {
    var read, place := PlaceOf(c.from, path), PlaceOf(c.to, path);
    && place in result
    && ((read in c.source && result[place] == CopyOf(c.source[read]))
        || (place in c.before && result[place] == Original(c.before[place])
            && SameBy(c.compare, c.sourceList[path], Entry(path, c.before[place]))))
  }

  /** What one listed path of the destination comes to, where its places are at the boundary. */
  lemma PathHolds(c: Scenario, result: Store, path: string)
    requires WellListed(c) && AllAtBoundary(c.to, c.filter, c.before) && c.policy.deleteExtras
    requires Lists(c.sourceList, c.destinationList, path) && PathDone(c, result, path) && Action(c, path) != Conflict
    ensures PlaceOf(c.to, path) in result <==> path in c.sourceList
  {
    ActionCases(c.sourceList, c.destinationList, Sync, c.policy, c.compare, path);
    if path in c.destinationList {
      ListedPathIsRelative(c.to, c.filter, c.before, c.destinationList, path);
      BoundaryListingIsExact(c.to, c.filter, c.before, c.destinationList, path);
    }
  }

  /** Listed paths are relative, and the destination can place them. */
  lemma ListsRelative(c: Scenario, run: RunPlan, path: string)
    requires WellListed(c) && Lists(c.sourceList, c.destinationList, path)
    requires IsRunPlanFor(c.sourceList, c.destinationList, Sync, c.policy, c.compare, c.from, c.to, run)
    ensures IsRelative(path) && Passes(c.filter, path)
    ensures c.to.kind.LocalKind? ==> c.to.localPath.Some?
  {
    if path in c.destinationList {
      ListedPathIsRelative(c.to, c.filter, c.before, c.destinationList, path);
    } else {
      ListedPathIsRelative(c.from, c.filter, c.source, c.sourceList, path);
      CreatedIsLowered(c, run, path);
    }
  }

  /** A path to be created was lowered, so the destination has a root to create it under. */
  lemma CreatedIsLowered(c: Scenario, run: RunPlan, path: string)
    requires path in c.sourceList && path !in c.destinationList
    requires IsRunPlanFor(c.sourceList, c.destinationList, Sync, c.policy, c.compare, c.from, c.to, run)
    ensures c.to.kind.LocalKind? ==> c.to.localPath.Some?
  {
    var items := PlanItems(c.sourceList, c.destinationList, Sync, c.policy, c.compare);
    PlannedIff(c.sourceList, c.destinationList, Sync, c.policy, c.compare, path, Create);
    ActionCases(c.sourceList, c.destinationList, Sync, c.policy, c.compare, path);
    var k :| 0 <= k < |items| && items[k].relativePath == path && items[k].action == Create;
    assert LowerErrorOf(c.from, c.to, items[k]) == None;
  }

  /** No path stands for a place unless the place is listed, its path passes the filter and it is at the
      boundary. */
  lemma NobodysPlace(c: Scenario, run: RunPlan, place: Endpoint)
    requires WellListed(c)
    requires IsRunPlanFor(c.sourceList, c.destinationList, Sync, c.policy, c.compare, c.from, c.to, run)
    requires Selected(c.to, c.filter, place) ==> !AtBoundary(c.to, place)
    ensures forall path :: !StandsFor(c, place, path)
  {
    forall path ensures !StandsFor(c, place, path) {
      if StandsFor(c, place, path) {
        ListsRelative(c, run, path);
        PlaceIsListed(c.to, path);
      }
    }
  }

  /** In every run, whatever fails and wherever it has got to, a place that no listed path stands for is as
      it was. */
  lemma OthersUntouched(c: Scenario, settings: Settings, run: RunPlan, last: World, result: Store, place: Endpoint)
    requires Ran(c, settings, run, last, result) && forall path :: !StandsFor(c, place, path)
    ensures Untouched(AsFound(c.before), result, place)
  {
    RunPlanIsWellAimed(c, run);
    TransferPathsOfPlan(c.sourceList, c.destinationList, Sync, c.policy, c.compare, c.from, c.to, run);
    DeletePathsOfPlan(c.sourceList, c.destinationList, Sync, c.policy, c.compare, c.from, c.to, run);
    NoItemAt(c, run, place);
    OnlyPlannedPlacesChange(settings, run, c.source, AsFound(c.before), last, result, place);
  }

  /** So a place that is not at the boundary is never touched, and is none of the source's places. */
  lemma MisplacedSurvives(c: Scenario, settings: Settings, run: RunPlan, last: World, result: Store, place: Endpoint)
    requires WellListed(c) && Ran(c, settings, run, last, result)
    requires Listed(c.to, place) && !AtBoundary(c.to, place)
    ensures Untouched(AsFound(c.before), result, place)
    ensures place !in PlacesFor(c.to, c.sourceList.Keys)
  {
    NobodysPlace(c, run, place);
    OthersUntouched(c, settings, run, last, result, place);
    forall path | path in c.sourceList ensures PlaceOf(c.to, path) != place {
      assert !StandsFor(c, place, path);
    }
  }

  /** Nor is a place that the destination does not list, or whose path the filter keeps out. */
  lemma OutsideIsUntouched(c: Scenario, settings: Settings, run: RunPlan, last: World, result: Store, place: Endpoint)
    requires WellListed(c) && Ran(c, settings, run, last, result) && !Selected(c.to, c.filter, place)
    ensures Untouched(AsFound(c.before), result, place)
  {
    NobodysPlace(c, run, place);
    OthersUntouched(c, settings, run, last, result, place);
  }

  /** Nor is the place of a path that is skipped or in conflict. */
  lemma UnplannedIsUntouched(c: Scenario, settings: Settings, run: RunPlan, last: World, result: Store, path: string)
    requires Ran(c, settings, run, last, result) && Lists(c.sourceList, c.destinationList, path)
    requires Action(c, path) in {Skip, Conflict}
    ensures Untouched(AsFound(c.before), result, PlaceOf(c.to, path))
  {
    RunPlanIsWellAimed(c, run);
    TransferPathsOfPlan(c.sourceList, c.destinationList, Sync, c.policy, c.compare, c.from, c.to, run);
    DeletePathsOfPlan(c.sourceList, c.destinationList, Sync, c.policy, c.compare, c.from, c.to, run);
    PlacesArePaths(c.from, c.to, run, path);
    OnlyPlannedPlacesChange(settings, run, c.source, AsFound(c.before), last, result, PlaceOf(c.to, path));
  }

  lemma ResultAtBoundary(c: Scenario, settings: Settings, run: RunPlan, last: World, result: Store)
    requires WellListed(c) && FinishedClean(c, settings, run, last, result)
    requires c.policy.deleteExtras && ConflictFree(c.sourceList, c.destinationList, c.policy, c.compare)
    requires AllAtBoundary(c.to, c.filter, c.before)
    ensures SelectedIn(c.to, c.filter, result) == PlacesFor(c.to, c.sourceList.Keys)
  {
    SyncRunResult(c, settings, run, last, result);
    forall path | Lists(c.sourceList, c.destinationList, path)
      ensures PlaceOf(c.to, path) in result <==> path in c.sourceList
      ensures Selected(c.to, c.filter, PlaceOf(c.to, path))
    {
      ListedPathAt(c, run, result, path);
    }
    forall place | place in SelectedIn(c.to, c.filter, result) ensures place in PlacesFor(c.to, c.sourceList.Keys) {
      SelectedIsListed(c, result, place);
    }
  }

  /** A listed path of the result. */
  lemma ListedPathAt(c: Scenario, run: RunPlan, result: Store, path: string)
    requires WellListed(c) && AllAtBoundary(c.to, c.filter, c.before) && c.policy.deleteExtras
    requires ConflictFree(c.sourceList, c.destinationList, c.policy, c.compare)
    requires IsRunPlanFor(c.sourceList, c.destinationList, Sync, c.policy, c.compare, c.from, c.to, run)
    requires Lists(c.sourceList, c.destinationList, path) && PathDone(c, result, path)
    ensures PlaceOf(c.to, path) in result <==> path in c.sourceList
    ensures Selected(c.to, c.filter, PlaceOf(c.to, path))
  {
    ConflictFreeAt(c.sourceList, c.destinationList, c.policy, c.compare, path);
    PathHolds(c, result, path);
    ListsRelative(c, run, path);
    PlaceIsListed(c.to, path);
  }

  /** A selected place of the result is that of a listed path. */
  lemma SelectedIsListed(c: Scenario, result: Store, place: Endpoint)
    requires WellListed(c) && AllAtBoundary(c.to, c.filter, c.before)
    requires place in result && Selected(c.to, c.filter, place)
    requires (forall path :: !StandsFor(c, place, path)) ==> Untouched(AsFound(c.before), result, place)
    ensures exists path :: StandsFor(c, place, path)
  {
    if forall path :: !StandsFor(c, place, path) {
      assert place in c.before;
      PlaceRoundTripsIff(c.to, place);
      assert StandsFor(c, place, PathOf(c.to, place));
    }
  }

  /** Which places hold something: after every clean finished run of a conflict-free sync that deletes
      extras, the places the destination selects are exactly those of the source's listed paths if and only
      if every place it selected before was at the boundary. Any other place survives every run. */
  lemma PlacesConvergeIff(c: Scenario, settings: Settings, run: RunPlan, last: World, result: Store)
    requires WellListed(c) && FinishedClean(c, settings, run, last, result)
    requires c.policy.deleteExtras && ConflictFree(c.sourceList, c.destinationList, c.policy, c.compare)
    ensures SelectedIn(c.to, c.filter, result) == PlacesFor(c.to, c.sourceList.Keys) <==>
            AllAtBoundary(c.to, c.filter, c.before)
  {
    if AllAtBoundary(c.to, c.filter, c.before) {
      ResultAtBoundary(c, settings, run, last, result);
    } else {
      var place :| place in c.before && Selected(c.to, c.filter, place) && !AtBoundary(c.to, place);
      MisplacedSurvives(c, settings, run, last, result, place);
      assert place in SelectedIn(c.to, c.filter, result);
    }
  }

  /** Convergence: after a conflict-free sync that deletes extras and does not skip newer destination
      objects, onto a side whose selected places are at the boundary, every clean finished run leaves
      exactly the source's listed paths at their places, each with a copy of the source object or one the
      compare mode judges identical. With patterns set these are the paths that pass them, on both sides,
      and nothing else is touched. */
  lemma CleanSyncConverges(c: Scenario, settings: Settings, run: RunPlan, last: World, result: Store)
    requires WellListed(c) && FinishedClean(c, settings, run, last, result)
    requires c.policy.deleteExtras && c.policy.destinationNewer != SkipNewer
    requires ConflictFree(c.sourceList, c.destinationList, c.policy, c.compare)
    requires AllAtBoundary(c.to, c.filter, c.before)
    ensures SelectedIn(c.to, c.filter, result) == PlacesFor(c.to, c.sourceList.Keys)
    ensures forall path :: path in c.sourceList ==> Converged(c, result, path)
  {
    ResultAtBoundary(c, settings, run, last, result);
    SyncRunResult(c, settings, run, last, result);
    forall path | path in c.sourceList ensures Converged(c, result, path) {
      ConflictFreeAt(c.sourceList, c.destinationList, c.policy, c.compare, path);
      PathConvergesIff(c, result, path);
    }
  }

  /** The path's destination object is kept for being newer, not for being the same. */
  predicate KeptAsNewer(c: Scenario, path: string)
    requires path in c.sourceList
  {
    && c.policy.destinationNewer == SkipNewer && path in c.destinationList
    && DestinationIsNewer(c.compare, c.sourceList[path], c.destinationList[path])
  }

  lemma PathConvergesIff(c: Scenario, result: Store, path: string)
    requires WellListed(c) && AllAtBoundary(c.to, c.filter, c.before)
    requires path in c.sourceList && PathDone(c, result, path) && Action(c, path) != Conflict
    ensures Converged(c, result, path) <==> !KeptAsNewer(c, path)
  {
    ActionCases(c.sourceList, c.destinationList, Sync, c.policy, c.compare, path);
    if path in c.destinationList {
      ListedPathIsRelative(c.to, c.filter, c.before, c.destinationList, path);
      BoundaryListingIsExact(c.to, c.filter, c.before, c.destinationList, path);
      KeptOnlyIfSameOrNewer(c.sourceList[path], c.destinationList[path], c.compare, c.policy);
    }
  }

  /** Skipping newer destination objects is the one policy that can leave a difference, and exactly on
      the paths where the destination is the newer. */
  lemma SkipNewerConvergesIff(c: Scenario, settings: Settings, run: RunPlan, last: World, result: Store)
    requires WellListed(c) && FinishedClean(c, settings, run, last, result)
    requires c.policy.deleteExtras && c.policy.destinationNewer == SkipNewer
    requires ConflictFree(c.sourceList, c.destinationList, c.policy, c.compare)
    requires AllAtBoundary(c.to, c.filter, c.before)
    ensures SelectedIn(c.to, c.filter, result) == PlacesFor(c.to, c.sourceList.Keys)
    ensures forall path :: path in c.sourceList ==>
              (Converged(c, result, path) <==>
               !(path in c.destinationList
                 && DestinationIsNewer(c.compare, c.sourceList[path], c.destinationList[path])))
  {
    ResultAtBoundary(c, settings, run, last, result);
    SyncRunResult(c, settings, run, last, result);
    forall path | path in c.sourceList ensures Converged(c, result, path) <==> !KeptAsNewer(c, path) {
      ConflictFreeAt(c.sourceList, c.destinationList, c.policy, c.compare, path);
      PathConvergesIff(c, result, path);
    }
  }

  lemma KeptOnlyIfSameOrNewer(source: SyncObject, destination: SyncObject, compare: CompareMode, policy: SyncPolicy)
    ensures CompareSyncObjects(source, destination, compare, policy).0 == Skip <==>
            SameBy(compare, source, destination)
            || (policy.destinationNewer == SkipNewer && DestinationIsNewer(compare, source, destination))
    ensures !(SameBy(compare, source, destination) && DestinationIsNewer(compare, source, destination))
  {
    ComparisonOutcomes(source, destination, compare, policy);
    if DestinationIsNewer(compare, source, destination) {
      BeforeIrreflexive(source.modified.value);
    }
  }

  // ----- A key past the boundary -----

  /** For instance: `foobar/x` alone at a destination with prefix `foo`, and nothing at the source. The
      sync plans one delete, for `foo/bar/x`; a clean run finishes; and `foobar/x` is still there to be
      listed and planned again. */
  lemma SiblingSurvives(found: Object)
    returns (c: Scenario, settings: Settings, run: RunPlan, last: World, result: Store)
    ensures WellListed(c) && FinishedClean(c, settings, run, last, result)
    ensures c.policy.deleteExtras && ConflictFree(c.sourceList, c.destinationList, c.policy, c.compare)
    ensures c.sourceList == map[] && c.to.prefix == "foo"
    ensures var sibling := S3(c.to.connectionId, c.to.bucket, "foobar/x");
            && c.before == map[sibling := found]
            && sibling in result && Listed(c.to, sibling) && result[sibling] == Original(found)
    ensures IsListing(c.to, c.filter, c.before, c.destinationList) && IsDeletePath(run, "bar/x")
  {
    c := SiblingScenario(found);
    NothingToTransfer(c);
    run := RunPlanOf(c.from, c.to, PlanItems(c.sourceList, c.destinationList, Sync, c.policy, c.compare)).value;
    settings := Settings(Sync, DeleteAfter, false);
    last, result := CleanRunExists(settings, run, c.source, AsFound(c.before));
    MisplacedSurvives(c, settings, run, last, result, S3("there", "b", "foobar/x"));
  }

  lemma SiblingScenario(found: Object) returns (c: Scenario)
    ensures WellListed(c) && c.to == Side(S3Kind, "there", "b", "foo", None)
    ensures c.sourceList == map[] && c.source == map[] && c.policy.deleteExtras
    ensures c.before == map[S3("there", "b", "foobar/x") := found] && c.destinationList.Keys == {"bar/x"}
    ensures Listed(c.to, S3("there", "b", "foobar/x")) && !AtBoundary(c.to, S3("there", "b", "foobar/x"))
  {
    var from, to := Side(S3Kind, "here", "a", "", None), Side(S3Kind, "there", "b", "foo", None);
    var sibling := S3("there", "b", "foobar/x");
    SiblingIsListed(to, sibling);
    c := Scenario(from, to, PatternFilter([], []), map[], map[sibling := found], map[],
                  map["bar/x" := Entry("bar/x", found)],
                  SyncPolicy(true, true, SourceWins, DeleteAfter), SizeOnly);
    assert ReportedAt(to, c.before, sibling, "bar/x", c.destinationList["bar/x"]);
    assert IsReported(to, c.before, "bar/x", c.destinationList["bar/x"]);
  }

  lemma SiblingIsListed(to: Side, sibling: Endpoint)
    requires to.kind.S3Kind? && to.prefix == "foo" && sibling == S3(to.connectionId, to.bucket, "foobar/x")
    ensures Listed(to, sibling) && PathOf(to, sibling) == "bar/x" && !AtBoundary(to, sibling)
  {
    assert "foobar/x"[3..] == "bar/x" && "foobar/x"[..3] == "foo";
    assert TrimLeadingSlashes("bar/x") == "bar/x";
  }

  /** With an empty source and deletes on, an S3 destination is planned to be emptied. */
  lemma NothingToTransfer(c: Scenario)
    requires c.sourceList == map[] && c.policy.deleteExtras && c.to.kind.S3Kind?
    ensures var lowered := RunPlanOf(c.from, c.to, 
                            PlanItems(c.sourceList, c.destinationList, Sync, c.policy, c.compare));
            && lowered.Ok? && lowered.value.transfers == []
            && IsRunPlanFor(c.sourceList, c.destinationList, Sync, c.policy, c.compare, c.from, c.to, lowered.value)
            && (forall path :: IsDeletePath(lowered.value, path) <==> path in c.destinationList)
    ensures ConflictFree(c.sourceList, c.destinationList, c.policy, c.compare)
  {
    var items := PlanItems(c.sourceList, c.destinationList, Sync, c.policy, c.compare);
    forall k | 0 <= k < |items| ensures items[k].action == Delete && LowerErrorOf(c.from, c.to, items[k]) == None {
      ItemAt(c.sourceList, c.destinationList, Sync, c.policy, c.compare, k);
    }
    NoneCounted(items, Conflict);
    RunPlanIsLowered(c.from, c.to, items);
    var run := RunPlanOf(c.from, c.to, items).value;
    TransferPathsOfPlan(c.sourceList, c.destinationList, Sync, c.policy, c.compare, c.from, c.to, run);
    DeletePathsOfPlan(c.sourceList, c.destinationList, Sync, c.policy, c.compare, c.from, c.to, run);
    if run.transfers != [] {
      assert IsTransferPath(run, run.transfers[0].relativePath);
    }
  }

  // ----- Planning again -----

  /** What a place reports when it is listed again. Objects that were not written are as before. */
  ghost predicate IsRelisting(relist: Stored -> Object) {
    forall o: Object :: relist(Original(o)) == o
  }

  function Refound(relist: Stored -> Object, result: Store): Places {
    map place | place in result :: relist(result[place])
  }

  /** Replanning is quiet: if a fresh copy of an object is one the compare mode takes for the same, then
      planning again after a clean sync run asks for nothing. */
  lemma ReplanningIsQuiet(c: Scenario, settings: Settings, run: RunPlan, last: World, result: Store,
                          relist: Stored -> Object, again: map<string, SyncObject>)
    requires WellListed(c) && FinishedClean(c, settings, run, last, result)
    requires c.policy.deleteExtras && c.policy.destinationNewer != SkipNewer
    requires ConflictFree(c.sourceList, c.destinationList, c.policy, c.compare)
    requires AllAtBoundary(c.to, c.filter, c.before)
    requires IsRelisting(relist) && IsListing(c.to, c.filter, Refound(relist, result), again)
    requires forall path :: path in c.sourceList && PlaceOf(c.from, path) in c.source ==>
               SameBy(c.compare, c.sourceList[path], Entry(path, relist(CopyOf(c.source[PlaceOf(c.from, path)]))))
    ensures forall item :: item in PlanItems(c.sourceList, again, Sync, c.policy, c.compare) ==>
              item.action == Skip && item.reason == Identical
  {
    CleanSyncConverges(c, settings, run, last, result);
    RelistsTheSource(c, run, result, relist, again);
    forall path | path in c.sourceList ensures SameBy(c.compare, c.sourceList[path], again[path]) {
      assert Converged(c, result, path);
    }
    SameListingsPlanNothing(c.sourceList, again, c.policy, c.compare);
  }

  lemma RelistsTheSource(c: Scenario, run: RunPlan, result: Store, relist: Stored -> Object,
                         again: map<string, SyncObject>)
    requires WellListed(c) && SelectedIn(c.to, c.filter, result) == PlacesFor(c.to, c.sourceList.Keys)
    requires IsRunPlanFor(c.sourceList, c.destinationList, Sync, c.policy, c.compare, c.from, c.to, run)
    requires IsListing(c.to, c.filter, Refound(relist, result), again)
    ensures again.Keys == c.sourceList.Keys
    ensures forall path :: path in c.sourceList ==>
              PlaceOf(c.to, path) in result && again[path] == Entry(path, relist(result[PlaceOf(c.to, path)]))
  {
    var refound := Refound(relist, result);
    RefoundAtBoundary(c, run, result, relist);
    forall path | path in c.sourceList
      ensures path in again && PlaceOf(c.to, path) in result
      ensures again[path] == Entry(path, relist(result[PlaceOf(c.to, path)]))
    {
      assert PlaceOf(c.to, path) in PlacesFor(c.to, c.sourceList.Keys);
      ListsRelative(c, run, path);
      BoundaryListingIsExact(c.to, c.filter, refound, again, path);
    }
    forall path | path in again ensures path in c.sourceList {
      RelistedIsListed(c, run, result, relist, again, path);
    }
  }

  /** What the run leaves selected is at the boundary. */
  lemma RefoundAtBoundary(c: Scenario, run: RunPlan, result: Store, relist: Stored -> Object)
    requires WellListed(c) && SelectedIn(c.to, c.filter, result) == PlacesFor(c.to, c.sourceList.Keys)
    requires IsRunPlanFor(c.sourceList, c.destinationList, Sync, c.policy, c.compare, c.from, c.to, run)
    ensures AllAtBoundary(c.to, c.filter, Refound(relist, result))
  {
    forall place | place in Refound(relist, result) && Selected(c.to, c.filter, place) ensures AtBoundary(c.to, place) {
      assert place in SelectedIn(c.to, c.filter, result);
      var path :| path in c.sourceList.Keys && place == PlaceOf(c.to, path);
      ListsRelative(c, run, path);
      PlaceIsListed(c.to, path);
    }
  }

  lemma RelistedIsListed(c: Scenario, run: RunPlan, result: Store, relist: Stored -> Object,
                         again: map<string, SyncObject>, path: string)
    requires WellListed(c) && SelectedIn(c.to, c.filter, result) == PlacesFor(c.to, c.sourceList.Keys)
    requires IsRunPlanFor(c.sourceList, c.destinationList, Sync, c.policy, c.compare, c.from, c.to, run)
    requires IsListing(c.to, c.filter, Refound(relist, result), again) && path in again
    ensures path in c.sourceList
  {
    assert Passes(c.filter, path) && IsReported(c.to, Refound(relist, result), path, again[path]);
    var place :| ReportedAt(c.to, Refound(relist, result), place, path, again[path]);
    assert place in SelectedIn(c.to, c.filter, result);
    var listed :| listed in c.sourceList.Keys && place == PlaceOf(c.to, listed);
    ListsRelative(c, run, listed);
    PlaceIsListed(c.to, listed);
  }

  lemma SameListingsPlanNothing(source: map<string, SyncObject>, again: map<string, SyncObject>,
                                policy: SyncPolicy, compare: CompareMode)
    requires again.Keys == source.Keys
    requires forall path :: path in source ==> SameBy(compare, source[path], again[path])
    ensures forall item :: item in PlanItems(source, again, Sync, policy, compare) ==>
              item.action == Skip && item.reason == Identical
  {
    var items := PlanItems(source, again, Sync, policy, compare);
    forall item | item in items ensures item.action == Skip && item.reason == Identical {
      var k :| 0 <= k < |items| && items[k] == item;
      ItemAt(source, again, Sync, policy, compare, k);
      var path := AllPaths(source, again)[k];
      ComparisonOutcomes(source[path], again[path], compare, policy);
    }
  }

  /** In the size-only mode transfers that keep sizes are enough, if the source's places are at the
      boundary too, so that what is read is what was listed. The newer-destination policy is not asked. */
  lemma SizeOnlyReplanningIsQuiet(c: Scenario, settings: Settings, run: RunPlan, last: World, result: Store,
                                  relist: Stored -> Object, again: map<string, SyncObject>)
    requires c.compare == SizeOnly && c.policy.overwriteChanged && c.policy.deleteExtras
    requires WellListed(c) && FinishedClean(c, settings, run, last, result)
    requires AllAtBoundary(c.to, c.filter, c.before) && AllAtBoundary(c.from, c.filter, c.source)
    requires IsRelisting(relist) && IsListing(c.to, c.filter, Refound(relist, result), again)
    requires forall o: Object :: relist(CopyOf(o)).size == o.size
    ensures forall item :: item in PlanItems(c.sourceList, again, Sync, c.policy, SizeOnly) ==>
              item.action == Skip && item.reason == Identical
  {
    // in this mode the newer-destination policy is never consulted
    var same := c.(policy := c.policy.(destinationNewer := SourceWins));
    SizeOnlyIgnoresNewer(c.sourceList, c.destinationList, c.policy);
    SizeOnlyNeverConflicts(c.sourceList, c.destinationList, same.policy);
    SizeOnlyIgnoresNewer(c.sourceList, again, c.policy);
    forall path | path in c.sourceList && PlaceOf(c.from, path) in c.source
      ensures SameBy(SizeOnly, c.sourceList[path], Entry(path, relist(CopyOf(c.source[PlaceOf(c.from, path)]))))
    {
      ListedPathIsRelative(c.from, c.filter, c.source, c.sourceList, path);
      BoundaryListingIsExact(c.from, c.filter, c.source, c.sourceList, path);
    }
    ReplanningIsQuiet(same, settings, run, last, result, relist, again);
  }

  lemma SizeOnlyIgnoresNewer(source: map<string, SyncObject>, destination: map<string, SyncObject>, policy: SyncPolicy)
    ensures PlanItems(source, destination, Sync, policy, SizeOnly)
            == PlanItems(source, destination, Sync, policy.(destinationNewer := SourceWins), SizeOnly)
  {
    var a := PlanItems(source, destination, Sync, policy, SizeOnly);
    var b := PlanItems(source, destination, Sync, policy.(destinationNewer := SourceWins), SizeOnly);
    forall k | 0 <= k < |a| ensures a[k] == b[k] {
      ItemAt(source, destination, Sync, policy, SizeOnly, k);
      ItemAt(source, destination, Sync, policy.(destinationNewer := SourceWins), SizeOnly, k);
    }
  }

  lemma SizeOnlyNeverConflicts(source: map<string, SyncObject>, destination: map<string, SyncObject>,
                               policy: SyncPolicy)
    requires policy.overwriteChanged
    ensures ConflictFree(source, destination, policy, SizeOnly)
  {
    var items := PlanItems(source, destination, Sync, policy, SizeOnly);
    NoneCounted(items, Conflict);
    forall k | 0 <= k < |items| ensures items[k].action != Conflict {
      ItemAt(source, destination, Sync, policy, SizeOnly, k);
    }
  }

  /** In the always-overwrite mode planning again is never quiet on a path both sides have. */
  lemma AlwaysOverwriteNeverQuiet(source: map<string, SyncObject>, destination: map<string, SyncObject>,
                                  policy: SyncPolicy, path: string)
    requires path in source && path in destination
    ensures ActionAt(source, destination, Sync, policy, AlwaysOverwrite, path) in {Update, Conflict}
  {
  }
}

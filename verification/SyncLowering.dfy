/** Lowering a plan to the run plan the executor works through. */
module SyncLowering {
  import opened Wrappers
  import opened SyncTypes
  import opened SyncPlanner

  datatype EndpointKind = S3Kind | LocalKind

  /** One side of the sync form. */
  datatype Side = Side(
    kind: EndpointKind,
    connectionId: string,
    bucket: string,
    prefix: string,
    localPath: Option<string>)

  datatype LowerError = LocalPathRequired | LocalToLocal

  function JoinS3Key(prefix: string, relative: string): string {
    if prefix == "" then relative
    else if prefix[|prefix| - 1] == '/' then prefix + relative
    else prefix + "/" + relative
  }

  function BuildEndpoint(side: Side, relative: string): Result<Endpoint, LowerError> {
    match side.kind
    case S3Kind => Ok(S3(side.connectionId, side.bucket, JoinS3Key(side.prefix, relative)))
    case LocalKind =>
      match side.localPath
      case None => Err(LocalPathRequired)
      case Some(root) => Ok(Local(root, relative))
  }

  /** The place a path stands for on a side. */
  function PlaceOf(side: Side, path: string): Endpoint {
    match side.kind
    case S3Kind => S3(side.connectionId, side.bucket, JoinS3Key(side.prefix, path))
    case LocalKind => Local(if side.localPath.Some? then side.localPath.value else "", path)
  }

  lemma BuiltAtPlace(side: Side, path: string)
    ensures BuildEndpoint(side, path).Ok? ==> BuildEndpoint(side, path).value == PlaceOf(side, path)
  {
  }

  /** Different paths of a side stand for different places. */
  lemma PlaceOfInjective(side: Side, a: string, b: string)
    requires PlaceOf(side, a) == PlaceOf(side, b)
    ensures a == b
  {
    if side.kind.S3Kind? {
      JoinS3KeyInjective(side.prefix, a, b);
    }
  }

  function ExecutionStrategy(source: Endpoint, destination: Endpoint): Result<Strategy, LowerError> {
    match (source, destination)
    case (Local(_, _), S3(_, _, _)) => Ok(Upload)
    case (S3(_, _, _), Local(_, _)) => Ok(Download)
    case (S3(from, _, _), S3(to, _, _)) => Ok(if from == to then ServerSideCopy else ClientRelay)
    case (Local(_, _), Local(_, _)) => Err(LocalToLocal)
  }

  function DeleteStrategy(destination: Endpoint): Strategy {
    if destination.S3? then DeleteRemote else DeleteLocal
  }

  predicate IsTransfer(item: PlanItem) {
    item.action == Create || item.action == Update
  }

  predicate IsDelete(item: PlanItem) {
    item.action == Delete
  }

  function LowerTransfer(source: Side, destination: Side, item: PlanItem): Result<RunItem, LowerError> {
    match BuildEndpoint(source, item.relativePath)
    case Err(error) => Err(error)
    case Ok(from) =>
      match BuildEndpoint(destination, item.relativePath)
      case Err(error) => Err(error)
      case Ok(to) =>
        match ExecutionStrategy(from, to)
        case Err(error) => Err(error)
        case Ok(strategy) =>
          var bytes := if item.source.Some? then item.source.value.size else 0;
          Ok(RunItem(item.relativePath, item.action, from, to, strategy, bytes))
  }

  function LowerDelete(destination: Side, item: PlanItem): Result<RunItem, LowerError> {
    match BuildEndpoint(destination, item.relativePath)
    case Err(error) => Err(error)
    case Ok(to) =>
      var bytes := if item.destination.Some? then item.destination.value.size else 0;
      Ok(RunItem(item.relativePath, item.action, to, to, DeleteStrategy(to), bytes))
  }

  /** The error lowering an item runs into, if any. Skips and conflicts are not lowered. */
  function LowerErrorOf(source: Side, destination: Side, item: PlanItem): Option<LowerError> {
    var lowered := if IsTransfer(item) then LowerTransfer(source, destination, item)
                   else LowerDelete(destination, item);
    if (IsTransfer(item) || IsDelete(item)) && lowered.Err? then Some(lowered.error) else None
  }

  /** The transfers, in plan order. */
  function LoweredTransfers(source: Side, destination: Side, items: seq<PlanItem>): seq<RunItem>
    requires forall k :: 0 <= k < |items| ==> LowerErrorOf(source, destination, items[k]) == None
  {
    if items == [] then []
    else
      var last := items[|items| - 1];
      assert LowerErrorOf(source, destination, last) == None;
      LoweredTransfers(source, destination, items[..|items| - 1])
      + if IsTransfer(last) then [LowerTransfer(source, destination, last).value] else []
  }

  /** The deletes, in plan order. */
  function LoweredDeletes(source: Side, destination: Side, items: seq<PlanItem>): seq<RunItem>
    requires forall k :: 0 <= k < |items| ==> LowerErrorOf(source, destination, items[k]) == None
  {
    if items == [] then []
    else
      var last := items[|items| - 1];
      assert LowerErrorOf(source, destination, last) == None;
      LoweredDeletes(source, destination, items[..|items| - 1])
      + if IsDelete(last) then [LowerDelete(destination, last).value] else []
  }

  ghost predicate Lowered(source: Side, destination: Side, items: seq<PlanItem>, transfers: seq<RunItem>,
                          deletes: seq<RunItem>) {
    && (forall k :: 0 <= k < |items| ==> LowerErrorOf(source, destination, items[k]) == None)
    && transfers == LoweredTransfers(source, destination, items)
    && deletes == LoweredDeletes(source, destination, items)
  }

  ghost predicate FirstError(source: Side, destination: Side, items: seq<PlanItem>, k: nat, error: LowerError) {
    && k < |items|
    && LowerErrorOf(source, destination, items[k]) == Some(error)
    && forall j :: 0 <= j < k ==> LowerErrorOf(source, destination, items[j]) == None
  }

  predicate HasRelay(transfers: seq<RunItem>) {
    exists i :: 0 <= i < |transfers| && transfers[i].strategy == ClientRelay
  }

  function FirstErrorIn(source: Side, destination: Side, items: seq<PlanItem>): (error: Option<LowerError>)
    ensures error.None? <==> forall k :: 0 <= k < |items| ==> LowerErrorOf(source, destination, items[k]) == None
  {
    if items == [] then None
    else
      var earlier := FirstErrorIn(source, destination, items[..|items| - 1]);
      if earlier.Some? then earlier else LowerErrorOf(source, destination, items[|items| - 1])
  }

  /** The run plan of a plan's items, or the first error. */
  function RunPlanOf(source: Side, destination: Side, items: seq<PlanItem>): Result<RunPlan, LowerError> {
    var error := FirstErrorIn(source, destination, items);
    if error.Some? then Err(error.value)
    else
      var transfers := LoweredTransfers(source, destination, items);
      var deletes := LoweredDeletes(source, destination, items);
      Ok(RunPlan(transfers, deletes, SumBytes(transfers), SumBytes(deletes), HasRelay(transfers)))
  }

  /** The first `i` items are lowered. */
  ghost predicate LoweredUpTo(source: Side, destination: Side, items: seq<PlanItem>, i: nat,
                              transfers: seq<RunItem>, deletes: seq<RunItem>) {
    && i <= |items|
    && FirstErrorIn(source, destination, items[..i]).None?
    && transfers == LoweredTransfers(source, destination, items[..i])
    && deletes == LoweredDeletes(source, destination, items[..i])
  }

  /** One more item: its error, or its place at the end of one of the lists. */
  lemma {:induction false} LowerOneMore(source: Side, destination: Side, items: seq<PlanItem>, i: nat,
                     transfers: seq<RunItem>, deletes: seq<RunItem>)
    requires LoweredUpTo(source, destination, items, i, transfers, deletes) && i < |items|
    ensures FirstErrorIn(source, destination, items[..i + 1]) == LowerErrorOf(source, destination, items[i])
    ensures LowerErrorOf(source, destination, items[i]).None? ==>
              LoweredUpTo(source, destination, items, i + 1,
                          transfers + (if IsTransfer(items[i])
                              then [LowerTransfer(source, destination, items[i]).value] else []),
                          deletes + (if IsDelete(items[i]) then [LowerDelete(destination, items[i]).value] else []))
  {
    assert items[..i + 1][..i] == items[..i];
  }

  /** An error among the first items is the error of the whole list. */
  lemma {:induction false} ErrorStays(source: Side, destination: Side, items: seq<PlanItem>, i: nat)
    requires i <= |items| && FirstErrorIn(source, destination, items[..i]).Some?
    ensures FirstErrorIn(source, destination, items) == FirstErrorIn(source, destination, items[..i])
  {
    if i == |items| {
      assert items[..i] == items;
    } else {
      assert items[..|items| - 1][..i] == items[..i];
      ErrorStays(source, destination, items[..|items| - 1], i);
    }
  }

  method PrepareSyncRunPlan(source: Side, destination: Side, items: seq<PlanItem>)
    returns (result: Result<RunPlan, LowerError>)
    ensures result == RunPlanOf(source, destination, items)
  {
    var transfers: seq<RunItem>, deletes: seq<RunItem> := [], [];
    for i := 0 to |items|
      invariant LoweredUpTo(source, destination, items, i, transfers, deletes)
    {
      var item := items[i];
      LowerOneMore(source, destination, items, i, transfers, deletes);
      assert transfers + [] == transfers && deletes + [] == deletes;
      if item.action == Create || item.action == Update {
        var lowered := LowerTransfer(source, destination, item);
        if lowered.Err? {
          ErrorStays(source, destination, items, i + 1);
          return Err(lowered.error);
        }
        transfers := transfers + [lowered.value];
      } else if item.action == Delete {
        var lowered := LowerDelete(destination, item);
        if lowered.Err? {
          ErrorStays(source, destination, items, i + 1);
          return Err(lowered.error);
        }
        deletes := deletes + [lowered.value];
      }
    }
    assert items[..|items|] == items;
    result := Ok(RunPlan(transfers, deletes, SumBytes(transfers), SumBytes(deletes), HasRelay(transfers)));
  }

  /** What the run plan is: every create and update, and every delete, in plan order with exact totals; or
      the error of the first item that cannot be lowered. */
  lemma RunPlanIsLowered(source: Side, destination: Side, items: seq<PlanItem>)
    ensures match RunPlanOf(source, destination, items)
            case Err(error) => exists k :: FirstError(source, destination, items, k, error)
            case Ok(run) =>
              && Lowered(source, destination, items, run.transfers, run.deletes)
              && run.totalTransferBytes == SumBytes(run.transfers)
              && run.totalDeleteBytes == SumBytes(run.deletes)
              && (run.hasClientRelay <==> exists item :: item in run.transfers && item.strategy == ClientRelay)
  {
    var error := FirstErrorIn(source, destination, items);
    if error.Some? {
      var k := FirstErrorAt(source, destination, items, error.value);
    } else {
      var transfers := LoweredTransfers(source, destination, items);
      if item :| item in transfers && item.strategy == ClientRelay {
        var i :| 0 <= i < |transfers| && transfers[i] == item;
      }
    }
  }

  lemma {:induction false} FirstErrorAt(source: Side, destination: Side, items: seq<PlanItem>, error: LowerError)
    returns (k: nat)
    requires FirstErrorIn(source, destination, items) == Some(error)
    ensures FirstError(source, destination, items, k, error)
  {
    var front := items[..|items| - 1];
    if FirstErrorIn(source, destination, front).Some? {
      k := FirstErrorAt(source, destination, front, error);
      assert forall j :: 0 <= j <= k ==> front[j] == items[j];
    } else {
      k := |items| - 1;
      assert forall j :: 0 <= j < k ==> front[j] == items[j];
    }
  }

  /** The run plan's byte totals are the plan's: creates and updates on one side, deletes on the other. */
  lemma {:induction false} RunTotalsArePlanTotals(source: Side, destination: Side, items: seq<PlanItem>)
    requires forall k :: 0 <= k < |items| ==> LowerErrorOf(source, destination, items[k]) == None
    ensures SumBytes(LoweredTransfers(source, destination, items)) == BytesOf(items, Create) + BytesOf(items, Update)
    ensures SumBytes(LoweredDeletes(source, destination, items)) == BytesOf(items, Delete)
    ensures |LoweredTransfers(source, destination, items)| == CountOf(items, Create) + CountOf(items, Update)
    ensures |LoweredDeletes(source, destination, items)| == CountOf(items, Delete)
  {
    if items != [] {
      var front, last := items[..|items| - 1], items[|items| - 1];
      RunTotalsArePlanTotals(source, destination, front);
      var transfers := LoweredTransfers(source, destination, front);
      var deletes := LoweredDeletes(source, destination, front);
      assert transfers + [] == transfers && deletes + [] == deletes;
      if IsTransfer(last) {
        SumBytesConcat(transfers, [LowerTransfer(source, destination, last).value]);
        assert SumBytes([LowerTransfer(source, destination, last).value]) == ItemBytes(last);
      } else if IsDelete(last) {
        SumBytesConcat(deletes, [LowerDelete(destination, last).value]);
        assert SumBytes([LowerDelete(destination, last).value]) == ItemBytes(last);
      }
    }
  }

  /** The run items of one action. */
  function WithAction(items: seq<RunItem>, action: PlanAction): seq<RunItem> {
    if items == [] then []
    else
      var last := items[|items| - 1];
      WithAction(items[..|items| - 1], action) + if last.action == action then [last] else []
  }

  /** And it does so kind by kind: the summary's creates are the run plan's creates, in number and bytes, and
      so are its updates and deletes. */
  lemma {:induction false} SummaryByKind(source: Side, destination: Side, items: seq<PlanItem>)
    requires forall k :: 0 <= k < |items| ==> LowerErrorOf(source, destination, items[k]) == None
    ensures var transfers := LoweredTransfers(source, destination, items);
            var deletes := LoweredDeletes(source, destination, items);
            && CountOf(items, Create) == |WithAction(transfers, Create)|
            && CountOf(items, Update) == |WithAction(transfers, Update)|
            && CountOf(items, Delete) == |WithAction(deletes, Delete)| == |deletes|
            && BytesOf(items, Create) == SumBytes(WithAction(transfers, Create))
            && BytesOf(items, Update) == SumBytes(WithAction(transfers, Update))
            && BytesOf(items, Delete) == SumBytes(deletes)
  {
    if items != [] {
      var front, last := items[..|items| - 1], items[|items| - 1];
      SummaryByKind(source, destination, front);
      var transfers := LoweredTransfers(source, destination, front);
      var deletes := LoweredDeletes(source, destination, front);
      assert transfers + [] == transfers && deletes + [] == deletes;
      if IsTransfer(last) {
        WithOneMore(transfers, LowerTransfer(source, destination, last).value);
      } else if IsDelete(last) {
        WithOneMore(deletes, LowerDelete(destination, last).value);
      }
    }
  }

  lemma {:induction false} WithOneMore(items: seq<RunItem>, item: RunItem)
    ensures SumBytes(items + [item]) == SumBytes(items) + item.bytes
    ensures forall action :: var more, kept := WithAction(items + [item], action), WithAction(items, action);
                             && |more| == |kept| + (if item.action == action then 1 else 0)
                             && SumBytes(more) == SumBytes(kept) + (if item.action == action then item.bytes else 0)
  {
    assert (items + [item])[..|items|] == items;
    forall action
      ensures var more, kept := WithAction(items + [item], action), WithAction(items, action);
              && |more| == |kept| + (if item.action == action then 1 else 0)
              && SumBytes(more) == SumBytes(kept) + (if item.action == action then item.bytes else 0)
    {
      var kept := WithAction(items, action);
      assert (kept + [item])[..|kept|] == kept && kept + [] == kept;
    }
  }

  /** So a run plan prepared from a plan agrees with the summary the user reviews, kind by kind. */
  lemma RunPlanAgreesWithSummary(source: Side, destination: Side, plan: SyncPlan, run: RunPlan)
    requires Tallies(plan.summary, plan.items)
    requires Lowered(source, destination, plan.items, run.transfers, run.deletes)
    requires run.totalTransferBytes == SumBytes(run.transfers) && run.totalDeleteBytes == SumBytes(run.deletes)
    ensures |run.transfers| == plan.summary.creates + plan.summary.updates
    ensures |run.deletes| == plan.summary.deletes
    ensures run.totalTransferBytes == plan.summary.bytesToCreate + plan.summary.bytesToUpdate
    ensures run.totalDeleteBytes == plan.summary.bytesToDelete
    ensures plan.summary.creates == |WithAction(run.transfers, Create)|
    ensures plan.summary.bytesToCreate == SumBytes(WithAction(run.transfers, Create))
    ensures plan.summary.updates == |WithAction(run.transfers, Update)|
    ensures plan.summary.bytesToUpdate == SumBytes(WithAction(run.transfers, Update))
  {
    RunTotalsArePlanTotals(source, destination, plan.items);
    SummaryByKind(source, destination, plan.items);
  }

  /** What a lowered list is made of: each run item comes from one plan item of the right action, with
      its path and the size of what is read or removed, and the order of the plan is kept. */
  ghost predicate ComesFrom(run: RunItem, item: PlanItem) {
    && run.relativePath == item.relativePath && run.action == item.action
    && var read := if item.action == Delete then item.destination else item.source;
       run.bytes == if read.Some? then read.value.size else 0
  }

  lemma {:induction false} TransfersComeFromPlan(source: Side, destination: Side, items: seq<PlanItem>)
    returns (origin: seq<nat>)
    requires forall k :: 0 <= k < |items| ==> LowerErrorOf(source, destination, items[k]) == None
    ensures var transfers := LoweredTransfers(source, destination, items);
            && |origin| == |transfers|
            && (forall i :: 0 <= i < |origin| ==> origin[i] < |items| && IsTransfer(items[origin[i]])
                                                  && ComesFrom(transfers[i], items[origin[i]])
                                                  && LowerTransfer(source, destination, items[origin[i]])
                                                        == Ok(transfers[i]))
            && (forall i, j :: 0 <= i < j < |origin| ==> origin[i] < origin[j])
            && (forall k :: 0 <= k < |items| && IsTransfer(items[k]) ==> k in origin)
  {
    if items == [] {
      origin := [];
    } else {
      var front, last := items[..|items| - 1], items[|items| - 1];
      origin := TransfersComeFromPlan(source, destination, front);
      if IsTransfer(last) {
        origin := origin + [|items| - 1];
      }
    }
  }

  lemma {:induction false} DeletesComeFromPlan(source: Side, destination: Side, items: seq<PlanItem>)
    returns (origin: seq<nat>)
    requires forall k :: 0 <= k < |items| ==> LowerErrorOf(source, destination, items[k]) == None
    ensures var deletes := LoweredDeletes(source, destination, items);
            && |origin| == |deletes|
            && (forall i :: 0 <= i < |origin| ==> origin[i] < |items| && IsDelete(items[origin[i]])
                                                  && ComesFrom(deletes[i], items[origin[i]])
                                                  && LowerDelete(destination, items[origin[i]]) == Ok(deletes[i]))
            && (forall i, j :: 0 <= i < j < |origin| ==> origin[i] < origin[j])
            && (forall k :: 0 <= k < |items| && IsDelete(items[k]) ==> k in origin)
  {
    if items == [] {
      origin := [];
    } else {
      var front, last := items[..|items| - 1], items[|items| - 1];
      origin := DeletesComeFromPlan(source, destination, front);
      if IsDelete(last) {
        origin := origin + [|items| - 1];
      }
    }
  }

  // ----- Strategies and errors, by the two sides -----

  /** The way a side's objects go to another side. */
  predicate GoesBy(source: Side, destination: Side, strategy: Strategy) {
    strategy ==
    if source.kind.LocalKind? then Upload
    else if destination.kind.LocalKind? then Download
    else if source.connectionId == destination.connectionId then ServerSideCopy
    else ClientRelay
  }

  predicate RemovedBy(destination: Side, strategy: Strategy) {
    strategy == if destination.kind.S3Kind? then DeleteRemote else DeleteLocal
  }

  lemma StrategyOfOne(source: Side, destination: Side, item: PlanItem)
    ensures var lowered := LowerTransfer(source, destination, item);
            lowered.Ok? ==> GoesBy(source, destination, lowered.value.strategy)
                            && !(source.kind.LocalKind? && destination.kind.LocalKind?)
    ensures var lowered := LowerDelete(destination, item);
            lowered.Ok? ==> RemovedBy(destination, lowered.value.strategy)
  {
  }

  predicate AllGoBy(source: Side, destination: Side, transfers: seq<RunItem>) {
    forall item :: item in transfers ==> GoesBy(source, destination, item.strategy)
  }

  predicate AllRemovedBy(destination: Side, deletes: seq<RunItem>) {
    forall item :: item in deletes ==> RemovedBy(destination, item.strategy)
  }

  lemma {:induction false} StrategiesOfLists(source: Side, destination: Side, items: seq<PlanItem>)
    requires forall k :: 0 <= k < |items| ==> LowerErrorOf(source, destination, items[k]) == None
    ensures AllGoBy(source, destination, LoweredTransfers(source, destination, items))
    ensures source.kind.LocalKind? && destination.kind.LocalKind? ==>
              LoweredTransfers(source, destination, items) == []
    ensures AllRemovedBy(destination, LoweredDeletes(source, destination, items))
  {
    if items != [] {
      StrategiesOfLists(source, destination, items[..|items| - 1]);
      StrategyOfOne(source, destination, items[|items| - 1]);
    }
  }

  /** How every item of a run plan is carried out follows from the two sides alone. An object of a bucket is
      copied by the server exactly when both sides are of one connection, and relayed by the client if not,
      which is what the run plan's relay flag reports. */
  lemma StrategiesOfSides(source: Side, destination: Side, items: seq<PlanItem>, run: RunPlan)
    requires RunPlanOf(source, destination, items) == Ok(run)
    ensures forall item :: item in run.transfers ==>
              item.strategy ==
              if source.kind.LocalKind? then Upload
              else if destination.kind.LocalKind? then Download
              else if source.connectionId == destination.connectionId then ServerSideCopy
              else ClientRelay
    ensures source.kind.LocalKind? && destination.kind.LocalKind? ==> run.transfers == []
    ensures forall item :: item in run.deletes ==>
              item.strategy == if destination.kind.S3Kind? then DeleteRemote else DeleteLocal
    ensures run.hasClientRelay <==>
              && source.kind.S3Kind? && destination.kind.S3Kind?
              && source.connectionId != destination.connectionId && run.transfers != []
  {
    RunPlanIsLowered(source, destination, items);
    StrategiesOfLists(source, destination, items);
    if run.transfers != [] {
      assert run.transfers[0] in run.transfers;
    }
  }

  /** A directory that is not chosen. */
  predicate Unchosen(side: Side) {
    side.kind.LocalKind? && side.localPath.None?
  }

  /** Exactly when preparing a run plan fails, and why: something has to be placed in a directory that is not
      chosen, or transferred from one directory to another. */
  lemma LoweringFailsIff(source: Side, destination: Side, items: seq<PlanItem>)
    ensures RunPlanOf(source, destination, items) == Err(LocalPathRequired) <==>
            exists item :: item in items
              && ((item.action in {Create, Update} && (Unchosen(source) || Unchosen(destination)))
                  || (item.action == Delete && Unchosen(destination)))
    ensures RunPlanOf(source, destination, items) == Err(LocalToLocal) <==>
            && source.kind.LocalKind? && destination.kind.LocalKind?
            && !Unchosen(source) && !Unchosen(destination)
            && exists item :: item in items && item.action in {Create, Update}
  {
    RunPlanIsLowered(source, destination, items);
    var result := RunPlanOf(source, destination, items);
    if result.Err? {
      var k: nat :| FirstError(source, destination, items, k, result.error);
      assert items[k] in items;
    } else {
      forall item | item in items ensures LowerErrorOf(source, destination, item) == None {
      }
    }
  }

  // ----- Keys and relative paths -----

  function TrimLeadingSlashes(s: string): string {
    if s != "" && s[0] == '/' then TrimLeadingSlashes(s[1..]) else s
  }

  /** The relative path a listing reports for a key found under `prefix`. */
  function RelativeOf(prefix: string, key: string): string {
    TrimLeadingSlashes(if prefix <= key then key[|prefix|..] else key)
  }

  /** Different relative paths never share a key. */
  lemma JoinS3KeyInjective(prefix: string, a: string, b: string)
    requires JoinS3Key(prefix, a) == JoinS3Key(prefix, b)
    ensures a == b
  {
    var at := if prefix == "" then 0 else if prefix[|prefix| - 1] == '/' then |prefix| else |prefix| + 1;
    assert a == JoinS3Key(prefix, a)[at..];
    assert b == JoinS3Key(prefix, b)[at..];
  }

  /** The part of the key after the prefix starts with exactly the slash that joining puts back: none
      if the prefix is empty or ends in a slash, one otherwise. */
  predicate KeyBoundaryOk(prefix: string, key: string)
    requires prefix <= key
  {
    var rest := key[|prefix|..];
    if prefix == "" || prefix[|prefix| - 1] == '/' then rest == "" || rest[0] != '/'
    else rest != "" && rest[0] == '/' && (|rest| == 1 || rest[1] != '/')
  }

  lemma {:induction false} TrimmedIsSuffix(s: string) returns (n: nat)
    ensures n <= |s| && TrimLeadingSlashes(s) == s[n..]
    ensures forall i :: 0 <= i < n ==> s[i] == '/'
    ensures n < |s| ==> s[n] != '/'
  {
    if s != "" && s[0] == '/' {
      n := TrimmedIsSuffix(s[1..]);
      n := n + 1;
      assert s[n..] == s[1..][n - 1..];
      assert forall i :: 1 <= i < n ==> s[i] == s[1..][i - 1];
    } else {
      n := 0;
    }
  }

  /** A listed object's relative path leads back to its key exactly when the key meets the prefix at
      the right number of slashes. A prefix without a trailing slash also lists its longer siblings,
      and those come back as other keys. */
  lemma KeyRoundTripsIff(prefix: string, key: string)
    requires prefix <= key
    ensures JoinS3Key(prefix, RelativeOf(prefix, key)) == key <==> KeyBoundaryOk(prefix, key)
  {
    var rest := key[|prefix|..];
    var n := TrimmedIsSuffix(rest);
    assert key == prefix + rest;
    if prefix == "" || prefix[|prefix| - 1] == '/' {
      assert JoinS3Key(prefix, rest[n..]) == prefix + rest[n..];
      PutBack(prefix, "", rest, n);
    } else {
      assert JoinS3Key(prefix, rest[n..]) == prefix + "/" + rest[n..];
      PutBack(prefix, "/", rest, n);
      assert n > 0 ==> rest[0] == '/';
    }
  }

  /** Cutting some leading slashes off and putting some back gives the text again exactly when they are the
      same number. */
  lemma PutBack(prefix: string, slashes: string, rest: string, n: nat)
    requires |slashes| <= 1 && (slashes != "" ==> slashes[0] == '/') && n <= |rest|
    requires forall i :: 0 <= i < n ==> rest[i] == '/'
    ensures prefix + slashes + rest[n..] == prefix + rest <==> n == |slashes|
  {
    var joined := prefix + slashes + rest[n..];
    assert |joined| == |prefix| + |slashes| + |rest| - n;
    if n == |slashes| {
      assert slashes + rest[n..] == rest;
      assert joined == prefix + (slashes + rest[n..]);
    }
  }

  /** For instance `foobar/x`, listed under the prefix `foo`, is planned under another key. */
  lemma SiblingPrefixIsMisplaced()
    ensures JoinS3Key("foo", RelativeOf("foo", "foobar/x")) == "foo/bar/x"
  {
    assert "foobar/x"[3..] == "bar/x";
    assert "foo" <= "foobar/x";
    assert TrimLeadingSlashes("bar/x") == "bar/x";
    assert "foo" + "/" + "bar/x" == "foo/bar/x";
  }

  /** And the other way round, a relative path without a leading slash survives its key. */
  lemma RelativeRoundTrips(prefix: string, relative: string)
    requires relative == "" || relative[0] != '/'
    ensures RelativeOf(prefix, JoinS3Key(prefix, relative)) == relative
  {
    var key := JoinS3Key(prefix, relative);
    var rest := key[|prefix|..];
    if prefix == "" || prefix[|prefix| - 1] == '/' {
      assert rest == relative;
    } else {
      assert rest == "/" + relative;
      assert rest[1..] == relative;
      assert TrimLeadingSlashes(rest) == TrimLeadingSlashes(relative);
    }
    assert prefix <= key;
  }
}

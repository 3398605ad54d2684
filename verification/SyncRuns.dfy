/** Runs of the sync executor. The environment returns any task in flight, in any order, as a success
    or a failure; what holds after every step is proved here for all runs. */
module SyncRuns {
  import opened Wrappers
  import opened SyncTypes
  import opened SyncExecutor
  import opened StatusSums

  /** The execution together with the requests it has sent, those for transfers and those for deletes each
      in the order they were sent, and where each stands. `batches` says which deletes of the plan the
      executor takes a delete request for. */
  datatype World = World(
    exec: Exec,
    transfers: seq<Status>,
    sentTransfers: seq<RunItem>,
    batches: seq<Batch>,
    batchStatus: seq<Status>,
    sentDeletes: seq<PendingTask>)

  datatype Event =
    | TransferReturned(index: nat, ok: bool, workers: Workers)
    | BatchReturned(index: nat, ok: bool, workers: Workers)

  /** A completion arrives once, for a task that is in flight; worker limits are positive. */
  predicate Enabled(w: World, event: Event) {
    Positive(event.workers)
    && match event
       case TransferReturned(i, _, _) => i < |w.transfers| && w.transfers[i] == InFlight
       case BatchReturned(j, _, _) => j < |w.batchStatus| && w.batchStatus[j] == InFlight
  }

  function Outcome(ok: bool): Status {
    if ok then Succeeded else Failed
  }

  function TransferBytes(plan: RunPlan): (bytes: seq<nat>)
    ensures |bytes| == |plan.transfers|
  {
    seq(|plan.transfers|, i requires 0 <= i < |plan.transfers| => plan.transfers[i].bytes)
  }

  predicate InRange(deletes: seq<RunItem>, batches: seq<Batch>) {
    forall j :: 0 <= j < |batches| ==> batches[j].lo < batches[j].hi <= |deletes|
  }

  function Sizes(deletes: seq<RunItem>, batches: seq<Batch>): (sizes: seq<nat>)
    requires InRange(deletes, batches)
    ensures |sizes| == |batches|
  {
    seq(|batches|, j requires 0 <= j < |batches| => batches[j].hi - batches[j].lo)
  }

  function BatchBytes(deletes: seq<RunItem>, batches: seq<Batch>): (bytes: seq<nat>)
    requires InRange(deletes, batches)
    ensures |bytes| == |batches|
  {
    seq(|batches|, j requires 0 <= j < |batches| => SumBytes(deletes[batches[j].lo..batches[j].hi]))
  }

  /** The indices a world speaks of exist. */
  predicate Wellformed(plan: RunPlan, w: World) {
    && |w.sentTransfers| == |w.transfers| <= |plan.transfers|
    && |w.sentDeletes| == |w.batchStatus| == |w.batches|
    && InRange(plan.deletes, w.batches)
  }

  /** How many deletes a request stands for, and their bytes, which it reports when it succeeds. */
  function Reported(request: PendingTask): BatchResult {
    match request
    case RemoteDelete(_, _, keys, bytes) => BatchResult(|keys|, bytes)
    case LocalDelete(_, bytes) => BatchResult(1, bytes)
    case Transfer(item) => BatchResult(0, item.bytes)
  }

  /** A completion reports on the request that was sent. */
  function Finish(settings: Settings, plan: RunPlan, w: World, event: Event): World
    requires Wellformed(plan, w) && Enabled(w, event)
  {
    match event
    case TransferReturned(i, ok, _) =>
      var result := if ok then Some(w.sentTransfers[i].bytes) else None;
      w.(exec := FinishTransfer(settings, w.exec, result), transfers := w.transfers[i := Outcome(ok)])
    case BatchReturned(j, ok, _) =>
      var result := if ok then Some(Reported(w.sentDeletes[j])) else None;
      w.(exec := FinishBatch(settings, w.exec, result), batchStatus := w.batchStatus[j := Outcome(ok)])
  }

  function Settled(settings: Settings, plan: RunPlan, w: World): World {
    w.(exec := Settle(settings, plan, w.exec))
  }

  function Issued(plan: RunPlan, workers: Workers, w: World): World {
    var d, tasks := Issue(plan, workers, w.exec), IssuedTasks(plan, workers, w.exec);
    World(d.exec, w.transfers + Fresh(d.transfers), w.sentTransfers + TransfersAmong(tasks),
          w.batches + d.batches, w.batchStatus + Fresh(|d.batches|), w.sentDeletes + DeletesAmong(tasks))
  }

  /** One dispatch, as `Dispatch` has it: settle, then issue. */
  function Dispatched(settings: Settings, plan: RunPlan, workers: Workers, w: World): (r: World)
    ensures r.exec == Dispatch(settings, plan, workers, w.exec).exec
  {
    Issued(plan, workers, Settled(settings, plan, w))
  }

  /** What it adds to the requests sent is what the executor's dispatch returns. */
  lemma DispatchSends(settings: Settings, plan: RunPlan, workers: Workers, w: World)
    ensures var next, tasks := Dispatched(settings, plan, workers, w), TasksOf(settings, plan, workers, w.exec);
            && next.sentTransfers == w.sentTransfers + TransfersAmong(tasks)
            && next.sentDeletes == w.sentDeletes + DeletesAmong(tasks)
  {
  }

  function Step(settings: Settings, plan: RunPlan, w: World, event: Event): World
    requires Wellformed(plan, w) && Enabled(w, event)
  {
    Dispatched(settings, plan, event.workers, Finish(settings, plan, w, event))
  }

  function Start(settings: Settings, plan: RunPlan, workers: Workers): World {
    Dispatched(settings, plan, workers, Unsent(settings, plan))
  }

  /** Before the first dispatch. */
  function Unsent(settings: Settings, plan: RunPlan): World {
    World(StartExec(settings, plan), [], [], [], [], [])
  }

  /** `events` lead from `w` to `last`. */
  ghost predicate IsRun(settings: Settings, plan: RunPlan, w: World, events: seq<Event>, last: World)
    decreases |events|
  {
    if events == [] then last == w
    else
      && Wellformed(plan, w) && Enabled(w, events[0])
      && IsRun(settings, plan, Step(settings, plan, w, events[0]), events[1..], last)
  }

  /** `w` is the state after some run of the plan. */
  ghost predicate Reachable(settings: Settings, plan: RunPlan, w: World) {
    exists workers, events :: Positive(workers) && IsRun(settings, plan, Start(settings, plan, workers), events, w)
  }

  // ----- The invariant -----

  /** Batch `j` starts where the one before it ends. */
  ghost predicate Follows(batches: seq<Batch>, j: nat)
    requires j < |batches|
  {
    batches[j].lo == if j == 0 then 0 else batches[j - 1].hi
  }

  /** The issued batches cut the deletes before `next` into consecutive legal batches. */
  ghost predicate Chain(deletes: seq<RunItem>, batches: seq<Batch>, next: nat) {
    && next <= |deletes|
    && EndOf(batches, 0) == next
    && (forall j {:trigger IsBatch(deletes, batches[j])} :: 0 <= j < |batches| ==> IsBatch(deletes, batches[j]))
    && (forall j {:trigger Follows(batches, j)} :: 0 <= j < |batches| ==> Follows(batches, j))
  }

  /** The counters are what they count. */
  ghost predicate Accounts(settings: Settings, plan: RunPlan, w: World) {
    var e := w.exec;
    && Wellformed(plan, w)
    && Chain(plan.deletes, w.batches, e.nextDelete)
    && e.nextTransfer == |w.transfers|
    && e.activeTransfers == Count(w.transfers, InFlight)
    && e.completedTransfers == Count(w.transfers, Succeeded)
    && e.failedTransfers == Count(w.transfers, Failed)
    && e.activeBatches == Count(w.batchStatus, InFlight)
    && e.failedDeletes == Count(w.batchStatus, Failed)
    && e.completedDeletes == Weigh(Sizes(plan.deletes, w.batches), w.batchStatus, Succeeded)
    && e.bytesDone == Weigh(TransferBytes(plan), w.transfers, Succeeded)
                      + Weigh(BatchBytes(plan.deletes, w.batches), w.batchStatus, Succeeded)
    && e.totalBytes == StartExec(settings, plan).totalBytes
    && (e.transferFailed <==> e.failedTransfers > 0)
  }

  /** What each phase promises. */
  ghost predicate PhaseHolds(settings: Settings, plan: RunPlan, w: World) {
    var e := w.exec;
    var left := LeftIn(plan, e);
    match e.phase
    case DeletingBefore => !settings.mode.Copy? && settings.deletePhase == DeleteBefore && w.transfers == []
    case Copying =>
      && e.activeBatches == 0
      && (settings.mode.Copy? || settings.deletePhase == DeleteAfter ==> w.batches == [])
      && (!settings.mode.Copy? && settings.deletePhase == DeleteBefore ==> e.nextDelete == |plan.deletes|)
      && (!settings.mode.Copy? && settings.deletePhase == DeleteDuring ==> plan.deletes == [])
    case DeletingDuring => !settings.mode.Copy? && settings.deletePhase == DeleteDuring && plan.deletes != []
    case DeletingAfter =>
      && !settings.mode.Copy? && settings.deletePhase == DeleteAfter && plan.deletes != []
      && !left.transfers && (!settings.ignoreErrors ==> e.failedTransfers == 0)
    case Done =>
      && !left.transfers && e.activeBatches == 0
      && (!settings.mode.Copy? && !e.deletePhaseSkipped ==> e.nextDelete == |plan.deletes|)
    case Stopped =>
      && !settings.mode.Copy? && plan.deletes != []
      && !settings.ignoreErrors
      && (e.failedDeletes > 0 || (settings.deletePhase == DeleteDuring && e.failedTransfers > 0))
  }

  /** Do deletes run beside the transfers? */
  predicate RunsDeletesBeside(settings: Settings, plan: RunPlan) {
    !settings.mode.Copy? && settings.deletePhase == DeleteDuring && plan.deletes != []
  }

  /** The order of transfers and deletes, in every phase. */
  ghost predicate OrderHolds(settings: Settings, plan: RunPlan, w: World) {
    var e := w.exec;
    && (settings.mode.Copy? ==> w.batches == [])
    && (!settings.mode.Copy? && settings.deletePhase == DeleteAfter && w.batches != [] ==>
          !LeftIn(plan, e).transfers && (!settings.ignoreErrors ==> e.failedTransfers == 0))
    && (!settings.mode.Copy? && settings.deletePhase == DeleteBefore && w.transfers != [] ==>
          !LeftIn(plan, e).deletes && (!settings.ignoreErrors ==> e.failedDeletes == 0))
    && (!settings.ignoreErrors && e.phase != Stopped ==> e.failedDeletes == 0)
    && (!settings.ignoreErrors && RunsDeletesBeside(settings, plan) && e.phase != Stopped ==>
          e.failedTransfers == 0)
    && (e.deletePhaseSkipped ==>
          && e.phase == Done && !settings.mode.Copy? && settings.deletePhase != DeleteDuring
          && plan.deletes != [] && e.failedTransfers > 0 && !settings.ignoreErrors
          && (settings.deletePhase == DeleteAfter ==> w.batches == []))
  }

  /** The requests sent are the plan's own: the transfers are its first ones, and each delete request is for
      exactly the deletes of its batch. */
  ghost predicate SentHolds(plan: RunPlan, w: World) {
    && Wellformed(plan, w)
    && w.sentTransfers == plan.transfers[..|w.transfers|]
    && forall j :: 0 <= j < |w.batches| ==> Carries(plan.deletes, w.batches[j], w.sentDeletes[j])
  }

  ghost predicate Inv(settings: Settings, plan: RunPlan, w: World) {
    && Accounts(settings, plan, w) && PhaseHolds(settings, plan, w) && OrderHolds(settings, plan, w)
    && SentHolds(plan, w)
  }

  /** The run is over, or something is in flight. */
  predicate Live(w: World) {
    w.exec.phase == Done || w.exec.phase == Stopped || w.exec.activeTransfers > 0 || w.exec.activeBatches > 0
  }

  // ----- Completions keep the invariant -----

  lemma FinishTransferKeepsAccounts(settings: Settings, plan: RunPlan, w: World, event: Event)
    requires Accounts(settings, plan, w) && SentHolds(plan, w) && event.TransferReturned? && Enabled(w, event)
    ensures Accounts(settings, plan, Finish(settings, plan, w, event))
  {
    var i, v := event.index, Outcome(event.ok);
    CountUpdate(w.transfers, i, v, InFlight);
    CountUpdate(w.transfers, i, v, Succeeded);
    CountUpdate(w.transfers, i, v, Failed);
    WeighUpdate(TransferBytes(plan), w.transfers, i, v, Succeeded);
  }

  lemma FinishBatchKeepsAccounts(settings: Settings, plan: RunPlan, w: World, event: Event)
    requires Accounts(settings, plan, w) && SentHolds(plan, w) && event.BatchReturned? && Enabled(w, event)
    ensures Accounts(settings, plan, Finish(settings, plan, w, event))
  {
    ReportsItsBatch(plan, w, event.index);
    var j, v := event.index, Outcome(event.ok);
    CountUpdate(w.batchStatus, j, v, InFlight);
    CountUpdate(w.batchStatus, j, v, Failed);
    WeighUpdate(Sizes(plan.deletes, w.batches), w.batchStatus, j, v, Succeeded);
    WeighUpdate(BatchBytes(plan.deletes, w.batches), w.batchStatus, j, v, Succeeded);
  }

  /** What a delete request reports is what its batch amounts to. */
  lemma ReportsItsBatch(plan: RunPlan, w: World, j: nat)
    requires SentHolds(plan, w) && j < |w.batches|
    ensures Reported(w.sentDeletes[j]).completed == Sizes(plan.deletes, w.batches)[j]
    ensures Reported(w.sentDeletes[j]).bytes == BatchBytes(plan.deletes, w.batches)[j]
  {
    assert Carries(plan.deletes, w.batches[j], w.sentDeletes[j]);
    if w.sentDeletes[j].LocalDelete? {
      SumOfOne(plan.deletes, w.batches[j].lo);
    }
  }

  lemma SumOfOne(items: seq<RunItem>, i: nat)
    requires i < |items|
    ensures SumBytes(items[i..i + 1]) == items[i].bytes
  {
    var one := items[i..i + 1];
    assert one[..0] == [] && one[0] == items[i];
  }

  /** A task in flight is counted as active. */
  lemma EnabledMeansActive(settings: Settings, plan: RunPlan, w: World, event: Event)
    requires Accounts(settings, plan, w) && Enabled(w, event)
    ensures event.TransferReturned? ==> w.exec.activeTransfers > 0
    ensures event.BatchReturned? ==> w.exec.activeBatches > 0 && w.batches != []
  {
    CountZero(w.transfers, InFlight);
    CountZero(w.batchStatus, InFlight);
  }

  lemma FinishKeepsInv(settings: Settings, plan: RunPlan, w: World, event: Event)
    requires Inv(settings, plan, w) && Enabled(w, event)
    ensures Inv(settings, plan, Finish(settings, plan, w, event))
  {
    EnabledMeansActive(settings, plan, w, event);
    if event.TransferReturned? {
      FinishTransferKeepsAccounts(settings, plan, w, event);
    } else {
      FinishBatchKeepsAccounts(settings, plan, w, event);
      assert w.batches[event.index].hi <= |plan.deletes|;
    }
  }

  // ----- Settling keeps the invariant -----

  lemma SettleKeepsInv(settings: Settings, plan: RunPlan, w: World)
    requires Inv(settings, plan, w)
    ensures Inv(settings, plan, Settled(settings, plan, w))
    ensures var e := Settle(settings, plan, w.exec);
            var left := LeftIn(plan, e);
            && NextPhase(settings, plan, left, e.phase) == e.phase
            && (e.phase == Copying ==> left.transfers)
  {
    var left := LeftIn(plan, w.exec);
    var one := NextPhase(settings, plan, left, w.exec.phase);
    var two := NextPhase(settings, plan, left, one);
    var three := NextPhase(settings, plan, left, two);
    assert SettledPhase(settings, plan, left, w.exec.phase) == SettledPhase(settings, plan, left, one);
    assert SettledPhase(settings, plan, left, one) == SettledPhase(settings, plan, left, two);
    assert SettledPhase(settings, plan, left, two) == SettledPhase(settings, plan, left, three);
    CountPartition(w.transfers);
  }

  // ----- Issuing keeps the invariant -----

  lemma ChainSnoc(deletes: seq<RunItem>, batches: seq<Batch>, next: nat, batch: Batch)
    requires Chain(deletes, batches, next) && IsBatch(deletes, batch) && batch.lo == next
    ensures Chain(deletes, batches + [batch], batch.hi)
  {
    var extended := batches + [batch];
    forall j | 0 <= j < |extended| ensures Follows(extended, j) {
      assert j < |batches| ==> Follows(batches, j);
    }
  }

  /** New batches continue the chain, and there is one per free worker or no delete is left. */
  lemma {:induction false} NewBatchesExtendChain(deletes: seq<RunItem>, batches: seq<Batch>, next: nat, active: nat,
                                                 workers: nat)
    requires Chain(deletes, batches, next)
    ensures var more := NewBatches(deletes, next, active, workers);
            && Chain(deletes, batches + more, EndOf(more, next))
            && active + |more| <= (if active <= workers then workers else active)
            && (active < workers && next < |deletes| ==> more != [])
    decreases |deletes| - next
  {
    if active < workers && next < |deletes| {
      var batch := BatchAt(deletes, next);
      var extended := batches + [batch];
      ChainSnoc(deletes, batches, next, batch);
      NewBatchesExtendChain(deletes, extended, batch.hi, active + 1, workers);
      var rest := NewBatches(deletes, batch.hi, active + 1, workers);
      assert batches + ([batch] + rest) == extended + rest;
    } else {
      assert batches + [] == batches;
    }
  }

  /** Batches just issued are in flight, so they add nothing to what has come back. */
  lemma {:induction false} MoreBatchesSameSums(deletes: seq<RunItem>, batches: seq<Batch>, more: seq<Batch>,
                                               status: seq<Status>)
    requires InRange(deletes, batches + more) && |status| == |batches|
    ensures InRange(deletes, batches)
    ensures Weigh(Sizes(deletes, batches + more), status + Fresh(|more|), Succeeded)
            == Weigh(Sizes(deletes, batches), status, Succeeded)
    ensures Weigh(BatchBytes(deletes, batches + more), status + Fresh(|more|), Succeeded)
            == Weigh(BatchBytes(deletes, batches), status, Succeeded)
  {
    var all := batches + more;
    assert forall j :: 0 <= j < |batches| ==> batches[j] == all[j];
    assert Sizes(deletes, batches) <= Sizes(deletes, all);
    assert BatchBytes(deletes, batches) <= BatchBytes(deletes, all);
    WeighAppendFresh(Sizes(deletes, all), status, |more|, Succeeded);
    WeighAppendFresh(BatchBytes(deletes, all), status, |more|, Succeeded);
    WeighMoreWeights(Sizes(deletes, batches), Sizes(deletes, all), status, Succeeded);
    WeighMoreWeights(BatchBytes(deletes, batches), BatchBytes(deletes, all), status, Succeeded);
  }

  lemma ChainInRange(deletes: seq<RunItem>, batches: seq<Batch>, next: nat)
    requires Chain(deletes, batches, next)
    ensures InRange(deletes, batches)
  {
    forall j | 0 <= j < |batches| ensures batches[j].lo < batches[j].hi <= |deletes| {
      assert IsBatch(deletes, batches[j]);
    }
  }

  lemma IssueKeepsAccounts(settings: Settings, plan: RunPlan, workers: Workers, w: World)
    requires Accounts(settings, plan, w)
    ensures Accounts(settings, plan, Issued(plan, workers, w))
  {
    IssuedAmong(plan, workers, w.exec);
    var d := Issue(plan, workers, w.exec);
    NewBatchesExtendChain(plan.deletes, w.batches, w.exec.nextDelete, w.exec.activeBatches, workers.deletes);
    assert w.batches + [] == w.batches;
    ChainInRange(plan.deletes, w.batches + d.batches, d.exec.nextDelete);
    MoreBatchesSameSums(plan.deletes, w.batches, d.batches, w.batchStatus);
    CountAppendFresh(w.transfers, d.transfers, InFlight);
    CountAppendFresh(w.transfers, d.transfers, Succeeded);
    CountAppendFresh(w.transfers, d.transfers, Failed);
    CountAppendFresh(w.batchStatus, |d.batches|, InFlight);
    CountAppendFresh(w.batchStatus, |d.batches|, Failed);
    WeighAppendFresh(TransferBytes(plan), w.transfers, d.transfers, Succeeded);
  }

  lemma IssueKeepsInv(settings: Settings, plan: RunPlan, workers: Workers, w: World)
    requires Inv(settings, plan, w)
    requires NextPhase(settings, plan, LeftIn(plan, w.exec), w.exec.phase) == w.exec.phase
    ensures Inv(settings, plan, Issued(plan, workers, w))
    ensures Positive(workers) ==> Live(Issued(plan, workers, w))
  {
    IssueKeepsAccounts(settings, plan, workers, w);
    IssueKeepsSent(plan, workers, w);
    FitsIn(settings, plan, workers, w);
    IssueKeepsPhase(settings, plan, workers, w);
    IssueKeepsOrder(settings, plan, workers, w);
  }

  lemma IssueKeepsSent(plan: RunPlan, workers: Workers, w: World)
    requires SentHolds(plan, w) && w.exec.nextTransfer == |w.transfers|
    requires Wellformed(plan, Issued(plan, workers, w))
    ensures SentHolds(plan, Issued(plan, workers, w))
  {
    var tasks := IssuedTasks(plan, workers, w.exec);
    IssuedAmong(plan, workers, w.exec);
    PrefixGrows(plan.transfers, |w.transfers|, QuotaIn(plan, workers, w.exec));
    CarriedAppend(plan.deletes, w.batches, w.sentDeletes, BatchesIn(plan, workers, w.exec), DeletesAmong(tasks));
  }

  lemma PrefixGrows(items: seq<RunItem>, n: nat, more: nat)
    requires n + more <= |items|
    ensures items[..n + more] == items[..n] + items[n..n + more]
  {
  }

  lemma CarriedAppend(deletes: seq<RunItem>, batches: seq<Batch>, requests: seq<PendingTask>, moreBatches: seq<Batch>,
                      moreRequests: seq<PendingTask>)
    requires |batches| == |requests| && |moreBatches| == |moreRequests|
    requires forall j :: 0 <= j < |batches| ==> Carries(deletes, batches[j], requests[j])
    requires forall j :: 0 <= j < |moreBatches| ==> Carries(deletes, moreBatches[j], moreRequests[j])
    ensures forall j :: 0 <= j < |batches| + |moreBatches| ==>
              Carries(deletes, (batches + moreBatches)[j], (requests + moreRequests)[j])
  {
    forall j | 0 <= j < |batches| + |moreBatches|
      ensures Carries(deletes, (batches + moreBatches)[j], (requests + moreRequests)[j])
    {
      if j >= |batches| {
        assert Carries(deletes, moreBatches[j - |batches|], moreRequests[j - |batches|]);
      }
    }
  }

  /** What `NewBatchesExtendChain` says of the indices alone. */
  ghost predicate BatchesFit(plan: RunPlan, workers: Workers, w: World) {
    var more := NewBatches(plan.deletes, w.exec.nextDelete, w.exec.activeBatches, workers.deletes);
    && w.exec.nextTransfer == |w.transfers| <= |plan.transfers|
    && w.exec.nextDelete <= EndOf(more, w.exec.nextDelete) <= |plan.deletes|
    && (w.exec.activeBatches < workers.deletes && w.exec.nextDelete < |plan.deletes| ==> more != [])
    && (w.exec.nextDelete == |plan.deletes| ==> more == [])
  }

  lemma FitsIn(settings: Settings, plan: RunPlan, workers: Workers, w: World)
    requires Accounts(settings, plan, w)
    ensures BatchesFit(plan, workers, w)
  {
    NewBatchesExtendChain(plan.deletes, w.batches, w.exec.nextDelete, w.exec.activeBatches, workers.deletes);
    NewBatchesGoOn(plan.deletes, w.exec.nextDelete, w.exec.activeBatches, workers.deletes);
  }

  lemma {:induction false} NewBatchesGoOn(deletes: seq<RunItem>, next: nat, active: nat, workers: nat)
    ensures next <= EndOf(NewBatches(deletes, next, active, workers), next)
    decreases |deletes| - next
  {
    if active < workers && next < |deletes| {
      NewBatchesGoOn(deletes, BatchAt(deletes, next).hi, active + 1, workers);
    }
  }

  lemma IssueKeepsPhase(settings: Settings, plan: RunPlan, workers: Workers, w: World)
    requires BatchesFit(plan, workers, w) && PhaseHolds(settings, plan, w)
    requires NextPhase(settings, plan, LeftIn(plan, w.exec), w.exec.phase) == w.exec.phase
    ensures PhaseHolds(settings, plan, Issued(plan, workers, w))
    ensures Positive(workers) ==> Live(Issued(plan, workers, w))
  {
    assert w.batches + [] == w.batches;
    assert w.transfers + Fresh(0) == w.transfers;
  }

  lemma IssueKeepsOrder(settings: Settings, plan: RunPlan, workers: Workers, w: World)
    requires BatchesFit(plan, workers, w) && PhaseHolds(settings, plan, w) && OrderHolds(settings, plan, w)
    requires NextPhase(settings, plan, LeftIn(plan, w.exec), w.exec.phase) == w.exec.phase
    ensures OrderHolds(settings, plan, Issued(plan, workers, w))
  {
    OrderGoesOn(settings, plan, w, Issued(plan, workers, w), QuotaIn(plan, workers, w.exec),
                BatchesIn(plan, workers, w.exec));
  }

  /** More tasks in flight, of the kinds the phase lets run, keep the order. */
  lemma OrderGoesOn(settings: Settings, plan: RunPlan, w: World, next: World, quota: nat, more: seq<Batch>)
    requires PhaseHolds(settings, plan, w) && OrderHolds(settings, plan, w)
    requires NextPhase(settings, plan, LeftIn(plan, w.exec), w.exec.phase) == w.exec.phase
    requires next.exec == w.exec.(nextTransfer := w.exec.nextTransfer + quota,
                                  activeTransfers := w.exec.activeTransfers + quota,
                                  nextDelete := next.exec.nextDelete,
                                  activeBatches := w.exec.activeBatches + |more|, running := next.exec.running)
    requires next.transfers == w.transfers + Fresh(quota) && next.batches == w.batches + more
    requires quota > 0 ==> IssuesTransfers(w.exec.phase) && w.exec.nextTransfer < |plan.transfers|
    requires more != [] ==> IssuesDeletes(w.exec.phase) && w.exec.nextDelete < |plan.deletes|
    requires more == [] ==> next.exec.nextDelete == w.exec.nextDelete
    ensures OrderHolds(settings, plan, next)
  {
    assert w.batches + [] == w.batches;
    assert w.transfers + Fresh(0) == w.transfers;
  }

  // ----- Every run -----

  lemma StartInv(settings: Settings, plan: RunPlan, workers: Workers)
    requires Positive(workers)
    ensures Inv(settings, plan, Start(settings, plan, workers)) && Live(Start(settings, plan, workers))
  {
    var w := Unsent(settings, plan);
    assert Inv(settings, plan, w);
    SettleKeepsInv(settings, plan, w);
    IssueKeepsInv(settings, plan, workers, Settled(settings, plan, w));
  }

  lemma StepKeepsInv(settings: Settings, plan: RunPlan, w: World, event: Event)
    requires Inv(settings, plan, w) && Enabled(w, event)
    ensures Inv(settings, plan, Step(settings, plan, w, event)) && Live(Step(settings, plan, w, event))
  {
    var finished := Finish(settings, plan, w, event);
    FinishKeepsInv(settings, plan, w, event);
    SettleKeepsInv(settings, plan, finished);
    IssueKeepsInv(settings, plan, event.workers, Settled(settings, plan, finished));
  }

  lemma {:induction false} RunKeepsInv(settings: Settings, plan: RunPlan, w: World, events: seq<Event>, last: World)
    requires Inv(settings, plan, w) && Live(w) && IsRun(settings, plan, w, events, last)
    ensures Inv(settings, plan, last) && Live(last)
    decreases |events|
  {
    if events != [] {
      StepKeepsInv(settings, plan, w, events[0]);
      RunKeepsInv(settings, plan, Step(settings, plan, w, events[0]), events[1..], last);
    }
  }

  lemma ReachableInv(settings: Settings, plan: RunPlan, w: World)
    requires Reachable(settings, plan, w)
    ensures Inv(settings, plan, w) && Live(w)
  {
    var workers, events :| Positive(workers) && IsRun(settings, plan, Start(settings, plan, workers), events, w);
    StartInv(settings, plan, workers);
    RunKeepsInv(settings, plan, Start(settings, plan, workers), events, w);
  }
}

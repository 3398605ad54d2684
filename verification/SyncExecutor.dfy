/** The sync executor: what one completion message does to the counters, how the phase moves on,
    and which transfers and delete batches a dispatch issues. */
module SyncExecutor {
  import opened Wrappers
  import opened SyncTypes

  datatype Phase = DeletingBefore | Copying | DeletingDuring | DeletingAfter | Done | Stopped

  /** The settings an execution lives under. Editing any of them drops the execution. */
  datatype Settings = Settings(mode: SyncMode, deletePhase: DeletePhase, ignoreErrors: bool)

  /** The worker limits read at one dispatch; the transfer limit may be edited while a run goes on. */
  datatype Workers = Workers(transfers: nat, deletes: nat)

  /** A worker limit as typed: 4 unless the text is a positive number. */
  function WorkerCount(typed: Option<nat>): (count: nat)
    ensures count >= 1
    ensures count == 4 || typed == Some(count)
    ensures typed == Some(0) || typed == None ==> count == 4
    ensures typed.Some? && typed.value > 0 ==> count == typed.value
  {
    match typed
    case Some(n) => if n > 0 then n else 4
    case None => 4
  }

  predicate Positive(workers: Workers) {
    workers.transfers >= 1 && workers.deletes >= 1
  }

  /** The counters, indices and flags of an execution. */
  datatype Exec = Exec(
    phase: Phase,
    nextTransfer: nat,
    nextDelete: nat,
    activeTransfers: nat,
    activeBatches: nat,
    completedTransfers: nat,
    completedDeletes: nat,
    failedTransfers: nat,
    failedDeletes: nat,
    bytesDone: nat,
    totalBytes: nat,
    running: bool,
    deletePhaseSkipped: bool,
    transferFailed: bool)

  // ----- Starting -----

  function StartPhase(settings: Settings, plan: RunPlan): Phase {
    if settings.mode.Copy? then Copying
    else match settings.deletePhase
      case DeleteBefore => if plan.deletes != [] then DeletingBefore else Copying
      case DeleteDuring => if plan.deletes != [] then DeletingDuring else Copying
      case DeleteAfter => Copying
  }

  function StartExec(settings: Settings, plan: RunPlan): Exec {
    var total := plan.totalTransferBytes + if settings.mode.Copy? then 0 else plan.totalDeleteBytes;
    Exec(StartPhase(settings, plan), 0, 0, 0, 0, 0, 0, 0, 0, 0, total, true, false, false)
  }

  // ----- Completions -----

  function Less(n: nat): nat {
    if n == 0 then 0 else n - 1
  }

  /** A transfer came back, with its bytes if it succeeded. */
  function FinishTransfer(settings: Settings, e: Exec, result: Option<nat>): Exec {
    var back := e.(activeTransfers := Less(e.activeTransfers));
    match result
    case Some(bytes) =>
      back.(completedTransfers := e.completedTransfers + 1, bytesDone := e.bytesDone + bytes)
    case None =>
      back.(failedTransfers := e.failedTransfers + 1, transferFailed := true,
            phase := if !settings.ignoreErrors && e.phase == DeletingDuring then Stopped else e.phase)
  }

  datatype BatchResult = BatchResult(completed: nat, bytes: nat)

  /** A delete batch came back. A failed batch counts as one failure, however many keys it held. */
  function FinishBatch(settings: Settings, e: Exec, result: Option<BatchResult>): Exec {
    var back := e.(activeBatches := Less(e.activeBatches));
    match result
    case Some(batch) =>
      back.(completedDeletes := e.completedDeletes + batch.completed, bytesDone := e.bytesDone + batch.bytes)
    case None =>
      back.(failedDeletes := e.failedDeletes + 1,
            phase := if !settings.ignoreErrors then Stopped else e.phase)
  }

  function TransferOutcome(result: Result<RunItem, string>): Option<nat> {
    match result
    case Ok(item) => Some(item.bytes)
    case Err(_) => None
  }

  function BatchOutcome(result: Result<BatchResult, string>): Option<BatchResult> {
    match result
    case Ok(batch) => Some(batch)
    case Err(_) => None
  }

  // ----- Moving the phase -----

  /** What the phase depends on: is there transfer work left, delete work left, a failed transfer? */
  datatype Left = Left(transfers: bool, deletes: bool, failed: bool)

  function LeftIn(plan: RunPlan, e: Exec): Left {
    Left(e.activeTransfers > 0 || e.nextTransfer < |plan.transfers|,
         e.activeBatches > 0 || e.nextDelete < |plan.deletes|,
         e.transferFailed)
  }

  function Rank(phase: Phase): nat {
    match phase
    case DeletingBefore => 3
    case Copying => 2
    case DeletingDuring => 1
    case DeletingAfter => 1
    case Done => 0
    case Stopped => 0
  }

  /** Would leaving the copy phase skip the planned deletes? */
  predicate SkipsDeletes(settings: Settings, plan: RunPlan, left: Left) {
    !settings.mode.Copy? && plan.deletes != [] && left.failed && !settings.ignoreErrors
  }

  /** One move of the phase, or none. */
  function NextPhase(settings: Settings, plan: RunPlan, left: Left, phase: Phase): (next: Phase)
    ensures next != phase ==> Rank(next) < Rank(phase)
  {
    match phase
    case DeletingBefore => if left.deletes then phase else Copying
    case Copying =>
      if left.transfers then phase
      else if settings.mode.Copy? || plan.deletes == [] || SkipsDeletes(settings, plan, left) then Done
      else
        (match settings.deletePhase
         case DeleteAfter => DeletingAfter
         case DeleteDuring => DeletingDuring
         case DeleteBefore => Done)
    case DeletingDuring => if left.transfers || left.deletes then phase else Done
    case DeletingAfter => if left.deletes then phase else Done
    case Done => phase
    case Stopped => phase
  }

  /** Moves the phase until it stays. */
  function SettledPhase(settings: Settings, plan: RunPlan, left: Left, phase: Phase): Phase
    decreases Rank(phase)
  {
    var next := NextPhase(settings, plan, left, phase);
    if next == phase then phase else SettledPhase(settings, plan, left, next)
  }

  /** Is the copy phase left, in settling, by the way that skips the deletes? */
  predicate SkipsWhileSettling(settings: Settings, plan: RunPlan, left: Left, phase: Phase) {
    && (phase == Copying || (phase == DeletingBefore && !left.deletes))
    && !left.transfers && SkipsDeletes(settings, plan, left)
  }

  /** On the way from one phase and skip flag, another phase and flag have been reached. */
  predicate Settling(settings: Settings, plan: RunPlan, left: Left, from: Phase, skippedFrom: bool, phase: Phase,
                     skipped: bool) {
    && SettledPhase(settings, plan, left, phase) == SettledPhase(settings, plan, left, from)
    && (skipped || SkipsWhileSettling(settings, plan, left, phase) <==>
        skippedFrom || SkipsWhileSettling(settings, plan, left, from))
  }

  lemma OneMove(settings: Settings, plan: RunPlan, left: Left, from: Phase, skippedFrom: bool, phase: Phase,
                skipped: bool)
    requires Settling(settings, plan, left, from, skippedFrom, phase, skipped)
    ensures Settling(settings, plan, left, from, skippedFrom, NextPhase(settings, plan, left, phase),
                     skipped || SkipsNow(settings, plan, left, phase))
  {
  }

  /** Where the phase stays, settling is over. */
  lemma {:induction false} StaysSettled(settings: Settings, plan: RunPlan, left: Left, from: Phase,
                                        skippedFrom: bool, phase: Phase, skipped: bool)
    requires Settling(settings, plan, left, from, skippedFrom, phase, skipped)
    requires NextPhase(settings, plan, left, phase) == phase
    ensures phase == SettledPhase(settings, plan, left, from)
    ensures skipped <==> skippedFrom || SkipsWhileSettling(settings, plan, left, from)
  {
  }

  /** Does this very move leave the copy phase by the way that skips the deletes? */
  predicate SkipsNow(settings: Settings, plan: RunPlan, left: Left, phase: Phase) {
    phase == Copying && !left.transfers && SkipsDeletes(settings, plan, left)
  }

  /** Settling moves the phase and may set the skip flag; the counters stay. */
  function Settle(settings: Settings, plan: RunPlan, e: Exec): Exec {
    var left := LeftIn(plan, e);
    e.(phase := SettledPhase(settings, plan, left, e.phase),
       deletePhaseSkipped := e.deletePhaseSkipped || SkipsWhileSettling(settings, plan, left, e.phase))
  }

  // ----- Issuing -----

  const MAX_KEYS := 1000

  /** Two deletes that one batch request may carry. */
  predicate SameTarget(a: RunItem, b: RunItem) {
    && a.destination.S3? && b.destination.S3?
    && a.destination.connectionId == b.destination.connectionId
    && a.destination.bucket == b.destination.bucket
  }

  /** The deletes `lo..hi` of the run plan. */
  datatype Batch = Batch(lo: nat, hi: nat)

  /** `batch` is the longest batch that may start at `batch.lo`: a local delete goes alone, remote
      deletes share a connection and bucket and are at most 1000. */
  ghost predicate IsBatch(deletes: seq<RunItem>, batch: Batch) {
    && batch.lo < batch.hi <= |deletes|
    && batch.hi - batch.lo <= 1000
    && (deletes[batch.lo].destination.Local? ==> batch.hi == batch.lo + 1)
    && (deletes[batch.lo].destination.S3? ==>
          && (forall i :: batch.lo <= i < batch.hi ==> SameTarget(deletes[batch.lo], deletes[i]))
          && (batch.hi == |deletes| || batch.hi - batch.lo == 1000
              || !SameTarget(deletes[batch.lo], deletes[batch.hi])))
  }

  function GrowBatch(deletes: seq<RunItem>, lo: nat, hi: nat): (end: nat)
    requires lo <= hi <= |deletes| && lo < |deletes|
    ensures hi <= end <= |deletes|
    decreases |deletes| - hi
  {
    if hi < |deletes| && hi - lo < MAX_KEYS && SameTarget(deletes[lo], deletes[hi]) then
      GrowBatch(deletes, lo, hi + 1)
    else hi
  }

  function BatchAt(deletes: seq<RunItem>, lo: nat): (batch: Batch)
    requires lo < |deletes|
    ensures batch.lo == lo && IsBatch(deletes, batch)
  {
    if deletes[lo].destination.Local? then Batch(lo, lo + 1)
    else
      assert SameTarget(deletes[lo], deletes[lo]);
      GrownBatchIsBatch(deletes, lo, lo + 1);
      Batch(lo, GrowBatch(deletes, lo, lo))
  }

  lemma {:induction false} GrownBatchIsBatch(deletes: seq<RunItem>, lo: nat, hi: nat)
    requires lo < hi <= |deletes| && hi - lo <= MAX_KEYS && deletes[lo].destination.S3?
    requires forall i :: lo <= i < hi ==> SameTarget(deletes[lo], deletes[i])
    ensures IsBatch(deletes, Batch(lo, GrowBatch(deletes, lo, hi)))
    decreases |deletes| - hi
  {
    if hi < |deletes| && hi - lo < MAX_KEYS && SameTarget(deletes[lo], deletes[hi]) {
      GrownBatchIsBatch(deletes, lo, hi + 1);
    }
  }

  lemma LongestEndsLast(deletes: seq<RunItem>, a: Batch, b: Batch)
    requires IsBatch(deletes, a) && IsBatch(deletes, b) && a.lo == b.lo
    ensures b.hi <= a.hi
  {
  }

  /** Being the longest leaves no choice. */
  lemma BatchIsUnique(deletes: seq<RunItem>, a: Batch, b: Batch)
    requires IsBatch(deletes, a) && IsBatch(deletes, b) && a.lo == b.lo
    ensures a == b
  {
    LongestEndsLast(deletes, a, b);
    LongestEndsLast(deletes, b, a);
  }

  /** How many transfers a dispatch issues: as many as there are free workers and items left. */
  function TransferQuota(plan: RunPlan, workers: nat, e: Exec): nat {
    if workers <= e.activeTransfers || |plan.transfers| <= e.nextTransfer then 0
    else if workers - e.activeTransfers <= |plan.transfers| - e.nextTransfer then workers - e.activeTransfers
    else |plan.transfers| - e.nextTransfer
  }

  /** The batches a dispatch issues, one per free worker while deletes are left. */
  function NewBatches(deletes: seq<RunItem>, next: nat, active: nat, workers: nat): seq<Batch>
    decreases |deletes| - next
  {
    if active >= workers || next >= |deletes| then []
    else
      var batch := BatchAt(deletes, next);
      [batch] + NewBatches(deletes, batch.hi, active + 1, workers)
  }

  function EndOf(batches: seq<Batch>, start: nat): nat {
    if batches == [] then start else batches[|batches| - 1].hi
  }

  /** What one dispatch does: the new state, how many of the next transfers it issues, and the
      delete batches it issues. */
  datatype Dispatched = Dispatched(exec: Exec, transfers: nat, batches: seq<Batch>)

  predicate IssuesTransfers(phase: Phase) {
    phase == Copying || phase == DeletingDuring
  }

  predicate IssuesDeletes(phase: Phase) {
    phase == DeletingBefore || phase == DeletingDuring || phase == DeletingAfter
  }

  /** The transfers and the batches the phase lets a dispatch issue. */
  function QuotaIn(plan: RunPlan, workers: Workers, e: Exec): nat {
    if IssuesTransfers(e.phase) then TransferQuota(plan, workers.transfers, e) else 0
  }

  function BatchesIn(plan: RunPlan, workers: Workers, e: Exec): seq<Batch> {
    if IssuesDeletes(e.phase) then NewBatches(plan.deletes, e.nextDelete, e.activeBatches, workers.deletes) else []
  }

  /** Issuing from a settled state. */
  function Issue(plan: RunPlan, workers: Workers, e: Exec): Dispatched {
    var transfers, batches := QuotaIn(plan, workers, e), BatchesIn(plan, workers, e);
    Dispatched(
      e.(nextTransfer := e.nextTransfer + transfers,
         activeTransfers := e.activeTransfers + transfers,
         nextDelete := EndOf(batches, e.nextDelete),
         activeBatches := e.activeBatches + |batches|,
         running := e.running && (transfers > 0 || batches != [])),
      transfers,
      batches)
  }

  function Dispatch(settings: Settings, plan: RunPlan, workers: Workers, e: Exec): Dispatched {
    Issue(plan, workers, Settle(settings, plan, e))
  }

  // ----- The requests -----

  datatype PendingTask =
    | Transfer(item: RunItem)
    | RemoteDelete(connectionId: string, bucket: string, keys: seq<string>, bytes: nat)
    | LocalDelete(path: Endpoint, bytes: nat)

  function TransferTasks(plan: RunPlan, lo: nat, hi: nat): (tasks: seq<PendingTask>)
    requires lo == hi || lo <= hi <= |plan.transfers|
    ensures |tasks| == hi - lo
  {
    seq(hi - lo, k requires 0 <= k < hi - lo => Transfer(plan.transfers[lo + k]))
  }

  function KeysOf(deletes: seq<RunItem>, lo: nat, hi: nat): (keys: seq<string>)
    requires lo <= hi <= |deletes|
    requires forall i :: lo <= i < hi ==> deletes[i].destination.S3?
    ensures |keys| == hi - lo
  {
    seq(hi - lo, k requires 0 <= k < hi - lo => deletes[lo + k].destination.key)
  }

  /** The remote deletes `lo..hi` share a target, and `keys` and `bytes` are theirs. */
  ghost predicate Gathered(deletes: seq<RunItem>, lo: nat, hi: nat, keys: seq<string>, bytes: nat) {
    && lo <= hi <= |deletes| && lo < |deletes| && deletes[lo].destination.S3?
    && (forall i :: lo <= i < hi ==> SameTarget(deletes[lo], deletes[i]))
    && keys == KeysOf(deletes, lo, hi)
    && bytes == SumBytes(deletes[lo..hi])
  }

  lemma GatherOne(deletes: seq<RunItem>, lo: nat, hi: nat, keys: seq<string>, bytes: nat)
    requires Gathered(deletes, lo, hi, keys, bytes) && hi < |deletes| && SameTarget(deletes[lo], deletes[hi])
    ensures Gathered(deletes, lo, hi + 1, keys + [deletes[hi].destination.key], bytes + deletes[hi].bytes)
  {
    assert deletes[lo..hi + 1][..hi - lo] == deletes[lo..hi];
    assert KeysOf(deletes, lo, hi + 1) == KeysOf(deletes, lo, hi) + [deletes[hi].destination.key];
  }

  /** The request for a batch: all its keys, and exactly the bytes of its items. */
  function BatchTask(deletes: seq<RunItem>, batch: Batch): PendingTask
    requires IsBatch(deletes, batch)
  {
    var first := deletes[batch.lo];
    match first.destination
    case S3(connectionId, bucket, _) =>
      assert forall i :: batch.lo <= i < batch.hi ==> SameTarget(first, deletes[i]);
      RemoteDelete(connectionId, bucket, KeysOf(deletes, batch.lo, batch.hi), SumBytes(deletes[batch.lo..batch.hi]))
    case Local(_, _) => LocalDelete(first.destination, first.bytes)
  }

  /** What a request for a batch has to be: a remote one names the target of every delete `lo..hi` by its
      own key, in order, a local one the one file, and both carry the bytes of what they delete. */
  ghost predicate Carries(deletes: seq<RunItem>, batch: Batch, request: PendingTask) {
    && batch.lo < batch.hi <= |deletes|
    && match request
       case Transfer(_) => false
       case RemoteDelete(connectionId, bucket, keys, bytes) =>
         && |keys| == batch.hi - batch.lo
         && (forall i :: batch.lo <= i < batch.hi ==>
               deletes[i].destination == S3(connectionId, bucket, keys[i - batch.lo]))
         && bytes == SumBytes(deletes[batch.lo..batch.hi])
       case LocalDelete(path, bytes) =>
         && batch.hi == batch.lo + 1
         && path.Local? && deletes[batch.lo].destination == path && bytes == deletes[batch.lo].bytes
  }

  lemma BatchTaskCarries(deletes: seq<RunItem>, batch: Batch)
    requires IsBatch(deletes, batch)
    ensures Carries(deletes, batch, BatchTask(deletes, batch))
  {
    var first := deletes[batch.lo];
    forall i | batch.lo <= i < batch.hi && first.destination.S3? ensures SameTarget(first, deletes[i]) {
    }
  }

  function BatchTasks(deletes: seq<RunItem>, batches: seq<Batch>): (tasks: seq<PendingTask>)
    requires forall b :: b in batches ==> IsBatch(deletes, b)
    ensures |tasks| == |batches|
  {
    seq(|batches|, j requires 0 <= j < |batches| => BatchTask(deletes, batches[j]))
  }

  lemma {:induction false} NewBatchesAreBatches(deletes: seq<RunItem>, next: nat, active: nat, workers: nat)
    ensures forall b :: b in NewBatches(deletes, next, active, workers) ==> IsBatch(deletes, b)
    decreases |deletes| - next
  {
    if active < workers && next < |deletes| {
      NewBatchesAreBatches(deletes, BatchAt(deletes, next).hi, active + 1, workers);
    }
  }

  /** Part of the new batches are issued, and the rest is what would be issued from here. */
  ghost predicate IssuedSoFar(deletes: seq<RunItem>, start: nat, active0: nat, workers: nat, issued: seq<Batch>,
                              next: nat, active: nat, pending: seq<PendingTask>)
  {
    && issued + NewBatches(deletes, next, active, workers) == NewBatches(deletes, start, active0, workers)
    && next == EndOf(issued, start) && active == active0 + |issued|
    && (forall b :: b in issued ==> IsBatch(deletes, b))
    && pending == BatchTasks(deletes, issued)
  }

  lemma IssueOneMore(deletes: seq<RunItem>, start: nat, active0: nat, workers: nat, issued: seq<Batch>,
                     next: nat, active: nat, pending: seq<PendingTask>, batch: Batch)
    requires IssuedSoFar(deletes, start, active0, workers, issued, next, active, pending)
    requires active < workers && next < |deletes| && IsBatch(deletes, batch) && batch.lo == next
    ensures IssuedSoFar(deletes, start, active0, workers, issued + [batch], batch.hi, active + 1,
                        pending + [BatchTask(deletes, batch)])
  {
    BatchIsUnique(deletes, batch, BatchAt(deletes, next));
    var rest := NewBatches(deletes, batch.hi, active + 1, workers);
    assert issued + ([batch] + rest) == issued + [batch] + rest;
  }

  /** The requests issued from a settled state: transfers first, then delete batches. */
  function IssuedTasks(plan: RunPlan, workers: Workers, e: Exec): seq<PendingTask> {
    TransferTasks(plan, e.nextTransfer, e.nextTransfer + QuotaIn(plan, workers, e)) + DeleteTasks(plan, workers, e)
  }

  function DeleteTasks(plan: RunPlan, workers: Workers, e: Exec): (tasks: seq<PendingTask>)
    ensures |tasks| == |BatchesIn(plan, workers, e)|
  {
    BatchesInAreBatches(plan, workers, e);
    BatchTasks(plan.deletes, BatchesIn(plan, workers, e))
  }

  lemma BatchesInAreBatches(plan: RunPlan, workers: Workers, e: Exec)
    ensures forall b :: b in BatchesIn(plan, workers, e) ==> IsBatch(plan.deletes, b)
  {
    NewBatchesAreBatches(plan.deletes, e.nextDelete, e.activeBatches, workers.deletes);
  }

  /** Which batches are issued does not depend on the transfers. */
  lemma DeletesGoByThemselves(plan: RunPlan, workers: Workers, e: Exec, after: Exec)
    requires after.phase == e.phase && after.nextDelete == e.nextDelete && after.activeBatches == e.activeBatches
    ensures BatchesIn(plan, workers, after) == BatchesIn(plan, workers, e)
    ensures DeleteTasks(plan, workers, after) == DeleteTasks(plan, workers, e)
  {
  }

  lemma SomethingIssued(plan: RunPlan, workers: Workers, e: Exec)
    ensures IssuedTasks(plan, workers, e) == [] <==> QuotaIn(plan, workers, e) == 0 && BatchesIn(plan, workers, e) == []
  {
    assert |IssuedTasks(plan, workers, e)| == QuotaIn(plan, workers, e) + |BatchesIn(plan, workers, e)|;
  }

  /** The requests of a dispatch from state `e`. */
  function TasksOf(settings: Settings, plan: RunPlan, workers: Workers, e: Exec): seq<PendingTask> {
    IssuedTasks(plan, workers, Settle(settings, plan, e))
  }

  /** The items of the transfer requests among some requests, in order. */
  function TransfersAmong(tasks: seq<PendingTask>): seq<RunItem> {
    if tasks == [] then []
    else (if tasks[0].Transfer? then [tasks[0].item] else []) + TransfersAmong(tasks[1..])
  }

  /** The delete requests among some requests, in order. */
  function DeletesAmong(tasks: seq<PendingTask>): seq<PendingTask> {
    if tasks == [] then []
    else (if tasks[0].Transfer? then [] else [tasks[0]]) + DeletesAmong(tasks[1..])
  }

  lemma {:induction false} AmongTransfers(items: seq<RunItem>, deletes: seq<PendingTask>, tasks: seq<PendingTask>)
    requires |tasks| == |items| + |deletes|
    requires forall k :: 0 <= k < |items| ==> tasks[k] == Transfer(items[k])
    requires forall k :: 0 <= k < |deletes| ==> tasks[|items| + k] == deletes[k] && !deletes[k].Transfer?
    ensures TransfersAmong(tasks) == items && DeletesAmong(tasks) == deletes
    decreases |tasks|
  {
    if items != [] {
      assert tasks[0] == Transfer(items[0]);
      AmongTransfers(items[1..], deletes, tasks[1..]);
      assert items == [items[0]] + items[1..];
    } else if deletes != [] {
      assert tasks[0] == deletes[0];
      AmongTransfers([], deletes[1..], tasks[1..]);
      assert deletes == [deletes[0]] + deletes[1..];
    }
  }

  /** The next `n` transfers of a plan, and some delete requests. */
  lemma {:induction false} AmongBoth(plan: RunPlan, lo: nat, n: nat, deletes: seq<PendingTask>)
    requires n == 0 || lo + n <= |plan.transfers|
    requires forall j :: 0 <= j < |deletes| ==> !deletes[j].Transfer?
    ensures var tasks := TransferTasks(plan, lo, lo + n) + deletes;
            && TransfersAmong(tasks) == (if n == 0 then [] else plan.transfers[lo..lo + n])
            && DeletesAmong(tasks) == deletes
            && forall i, j :: 0 <= i < j < |tasks| && tasks[j].Transfer? ==> tasks[i].Transfer?
  {
    var items := if n == 0 then [] else plan.transfers[lo..lo + n];
    AmongTransfers(items, deletes, TransferTasks(plan, lo, lo + n) + deletes);
  }

  lemma QuotaFits(plan: RunPlan, workers: Workers, e: Exec)
    ensures QuotaIn(plan, workers, e) == 0 || e.nextTransfer + QuotaIn(plan, workers, e) <= |plan.transfers|
  {
  }

  /** What one dispatch sends: the next transfers of the plan, in order, then a request for each new batch. */
  lemma IssuedAmong(plan: RunPlan, workers: Workers, e: Exec)
    ensures var tasks, batches := IssuedTasks(plan, workers, e), BatchesIn(plan, workers, e);
            var quota := QuotaIn(plan, workers, e);
            && |TransfersAmong(tasks)| == quota
            && (e.nextTransfer <= |plan.transfers| ==>
                  && e.nextTransfer + quota <= |plan.transfers|
                  && TransfersAmong(tasks) == plan.transfers[e.nextTransfer..e.nextTransfer + quota])
            && |DeletesAmong(tasks)| == |batches|
            && (forall j :: 0 <= j < |batches| ==> Carries(plan.deletes, batches[j], DeletesAmong(tasks)[j]))
            && forall i, j :: 0 <= i < j < |tasks| && tasks[j].Transfer? ==> tasks[i].Transfer?
  {
    QuotaFits(plan, workers, e);
    DeleteTasksCarry(plan, workers, e);
    AmongBoth(plan, e.nextTransfer, QuotaIn(plan, workers, e), DeleteTasks(plan, workers, e));
  }

  lemma DeleteTasksCarry(plan: RunPlan, workers: Workers, e: Exec)
    ensures var deletes, batches := DeleteTasks(plan, workers, e), BatchesIn(plan, workers, e);
            forall j :: 0 <= j < |deletes| ==> Carries(plan.deletes, batches[j], deletes[j]) && !deletes[j].Transfer?
  {
    var batches := BatchesIn(plan, workers, e);
    BatchesInAreBatches(plan, workers, e);
    BatchTasksCarry(plan.deletes, batches);
  }

  lemma BatchTasksCarry(deletes: seq<RunItem>, batches: seq<Batch>)
    requires forall b :: b in batches ==> IsBatch(deletes, b)
    ensures var tasks := BatchTasks(deletes, batches);
            forall j :: 0 <= j < |tasks| ==> Carries(deletes, batches[j], tasks[j]) && !tasks[j].Transfer?
  {
    forall j | 0 <= j < |batches| ensures Carries(deletes, batches[j], BatchTask(deletes, batches[j])) {
      BatchTaskCarries(deletes, batches[j]);
    }
  }

  // ----- The execution object -----

  class SyncExecution {
    const settings: Settings
    const runPlan: RunPlan
    var phase: Phase
    var nextTransferIndex: nat
    var nextDeleteIndex: nat
    var activeTransfers: nat
    var activeDeleteBatches: nat
    var completedTransfers: nat
    var completedDeletes: nat
    var failedTransfers: nat
    var failedDeletes: nat
    var bytesDone: nat
    var totalBytes: nat
    var running: bool
    var deletePhaseSkipped: bool
    var transferFailed: bool

    ghost function View(): Exec
      reads this
    {
      Exec(phase, nextTransferIndex, nextDeleteIndex, activeTransfers, activeDeleteBatches,
           completedTransfers, completedDeletes, failedTransfers, failedDeletes, bytesDone, totalBytes,
           running, deletePhaseSkipped, transferFailed)
    }

    ghost predicate Valid()
      reads this
    {
      nextTransferIndex <= |runPlan.transfers| && nextDeleteIndex <= |runPlan.deletes|
    }

    constructor StartCopy(settings: Settings, runPlan: RunPlan)
      requires settings.mode.Copy?
      ensures this.settings == settings && this.runPlan == runPlan
      ensures Valid() && View() == StartExec(settings, runPlan)
    {
      this.settings, this.runPlan := settings, runPlan;
      phase := Copying;
      nextTransferIndex, nextDeleteIndex, activeTransfers, activeDeleteBatches := 0, 0, 0, 0;
      completedTransfers, completedDeletes, failedTransfers, failedDeletes := 0, 0, 0, 0;
      bytesDone, totalBytes := 0, runPlan.totalTransferBytes;
      running, deletePhaseSkipped, transferFailed := true, false, false;
    }

    constructor StartSync(settings: Settings, runPlan: RunPlan)
      requires !settings.mode.Copy?
      ensures this.settings == settings && this.runPlan == runPlan
      ensures Valid() && View() == StartExec(settings, runPlan)
    {
      this.settings, this.runPlan := settings, runPlan;
      if settings.deletePhase == DeleteBefore && runPlan.deletes != [] {
        phase := DeletingBefore;
      } else if settings.deletePhase == DeleteDuring && runPlan.deletes != [] {
        phase := DeletingDuring;
      } else {
        phase := Copying;
      }
      nextTransferIndex, nextDeleteIndex, activeTransfers, activeDeleteBatches := 0, 0, 0, 0;
      completedTransfers, completedDeletes, failedTransfers, failedDeletes := 0, 0, 0, 0;
      bytesDone, totalBytes := 0, runPlan.totalTransferBytes + runPlan.totalDeleteBytes;
      running, deletePhaseSkipped, transferFailed := true, false, false;
    }

    method NextTransferSpec() returns (spec: Option<PendingTask>)
      requires Valid()
      modifies this`nextTransferIndex
      ensures Valid()
      ensures old(nextTransferIndex) == |runPlan.transfers| ==>
                spec == None && nextTransferIndex == old(nextTransferIndex)
      ensures old(nextTransferIndex) < |runPlan.transfers| ==>
                && spec == Some(Transfer(runPlan.transfers[old(nextTransferIndex)]))
                && nextTransferIndex == old(nextTransferIndex) + 1
    {
      if nextTransferIndex >= |runPlan.transfers| {
        return None;
      }
      spec := Some(Transfer(runPlan.transfers[nextTransferIndex]));
      nextTransferIndex := nextTransferIndex + 1;
    }

    method NextDeleteBatchSpec() returns (spec: Option<PendingTask>)
      requires Valid()
      modifies this`nextDeleteIndex
      ensures Valid()
      ensures old(nextDeleteIndex) == |runPlan.deletes| ==>
                spec == None && nextDeleteIndex == old(nextDeleteIndex)
      ensures old(nextDeleteIndex) < |runPlan.deletes| ==>
                var batch := Batch(old(nextDeleteIndex), nextDeleteIndex);
                && IsBatch(runPlan.deletes, batch)
                && spec == Some(BatchTask(runPlan.deletes, batch))
    {
      if nextDeleteIndex >= |runPlan.deletes| {
        return None;
      }
      var first := runPlan.deletes[nextDeleteIndex];
      match first.destination
      case S3(connectionId, bucket, _) =>
        var start, end: nat := nextDeleteIndex, nextDeleteIndex;
        var keys: seq<string> := [];
        var bytes: nat, stop := 0, false;
        while !stop && end < |runPlan.deletes| && |keys| < MAX_KEYS
          invariant end - start <= MAX_KEYS && Gathered(runPlan.deletes, start, end, keys, bytes)
          invariant stop ==> end < |runPlan.deletes| && !SameTarget(first, runPlan.deletes[end])
          decreases !stop, |runPlan.deletes| - end
        {
          var item := runPlan.deletes[end];
          if item.destination.S3? && item.destination.connectionId == connectionId
             && item.destination.bucket == bucket {
            GatherOne(runPlan.deletes, start, end, keys, bytes);
            keys := keys + [item.destination.key];
            bytes := bytes + item.bytes;
            end := end + 1;
          } else {
            stop := true;
          }
        }
        assert start < end;
        nextDeleteIndex := end;
        spec := Some(RemoteDelete(connectionId, bucket, keys, bytes));
      case Local(_, _) =>
        nextDeleteIndex := nextDeleteIndex + 1;
        spec := Some(LocalDelete(first.destination, first.bytes));
    }

    /** One turn of the phase loop: moves the phase on, or says that it stays. */
    method MovePhase() returns (moved: bool)
      requires Valid()
      modifies this`phase, this`deletePhaseSkipped
      ensures phase == NextPhase(settings, runPlan, LeftIn(runPlan, old(View())), old(phase))
      ensures moved <==> phase != old(phase)
      ensures deletePhaseSkipped <==>
                old(deletePhaseSkipped) || SkipsNow(settings, runPlan, LeftIn(runPlan, old(View())), old(phase))
    {
      match phase
      case DeletingBefore =>
        if activeDeleteBatches == 0 && nextDeleteIndex >= |runPlan.deletes| {
          phase := Copying;
          return true;
        }
        return false;
      case Copying =>
        if activeTransfers > 0 || nextTransferIndex < |runPlan.transfers| {
          return false;
        }
        if settings.mode.Copy? {
          phase := Done;
        } else if runPlan.deletes == [] {
          phase := Done;
        } else if transferFailed && !settings.ignoreErrors {
          deletePhaseSkipped := true;
          phase := Done;
        } else {
          match settings.deletePhase
          case DeleteAfter => phase := DeletingAfter;
          case DeleteDuring => phase := DeletingDuring;
          case DeleteBefore => phase := Done;
        }
        return true;
      case DeletingDuring =>
        var transfersDone := activeTransfers == 0 && nextTransferIndex >= |runPlan.transfers|;
        var deletesDone := activeDeleteBatches == 0 && nextDeleteIndex >= |runPlan.deletes|;
        if transfersDone && deletesDone {
          phase := Done;
          return true;
        }
        return false;
      case DeletingAfter =>
        if activeDeleteBatches == 0 && nextDeleteIndex >= |runPlan.deletes| {
          phase := Done;
          return true;
        }
        return false;
      case Done => return false;
      case Stopped => return false;
    }

    /** Moves the phase on until it stays; says whether the run is over. */
    method SettlePhase() returns (over: bool)
      requires Valid()
      modifies this`phase, this`deletePhaseSkipped
      ensures Valid()
      ensures View() == Settle(settings, runPlan, old(View()))
      ensures over <==> phase == Done || phase == Stopped
    {
      ghost var left := LeftIn(runPlan, View());
      var moved := true;
      while moved
        invariant LeftIn(runPlan, View()) == left
        invariant Settling(settings, runPlan, left, old(phase), old(deletePhaseSkipped), phase, deletePhaseSkipped)
        invariant !moved ==> NextPhase(settings, runPlan, left, phase) == phase
        decreases Rank(phase), moved
      {
        OneMove(settings, runPlan, left, old(phase), old(deletePhaseSkipped), phase, deletePhaseSkipped);
        moved := MovePhase();
      }
      StaysSettled(settings, runPlan, left, old(phase), old(deletePhaseSkipped), phase, deletePhaseSkipped);
      over := phase == Done || phase == Stopped;
    }

    method IssueTransfers(workers: nat) returns (pending: seq<PendingTask>)
      requires Valid()
      modifies this`nextTransferIndex, this`activeTransfers
      ensures Valid()
      ensures var quota := TransferQuota(runPlan, workers, old(View()));
              && nextTransferIndex == old(nextTransferIndex) + quota
              && activeTransfers == old(activeTransfers) + quota
              && pending == TransferTasks(runPlan, old(nextTransferIndex), nextTransferIndex)
    {
      pending := [];
      while activeTransfers < workers && nextTransferIndex < |runPlan.transfers|
        invariant Valid()
        invariant old(nextTransferIndex) <= nextTransferIndex
        invariant activeTransfers - old(activeTransfers) == nextTransferIndex - old(nextTransferIndex)
        invariant nextTransferIndex - old(nextTransferIndex) <= TransferQuota(runPlan, workers, old(View()))
        invariant pending == TransferTasks(runPlan, old(nextTransferIndex), nextTransferIndex)
        decreases |runPlan.transfers| - nextTransferIndex
      {
        var spec := NextTransferSpec();
        activeTransfers := activeTransfers + 1;
        pending := pending + [spec.value];
      }
    }

    method IssueDeleteBatches(workers: nat) returns (pending: seq<PendingTask>)
      requires Valid()
      modifies this`nextDeleteIndex, this`activeDeleteBatches
      ensures Valid()
      ensures var batches := NewBatches(runPlan.deletes, old(nextDeleteIndex), old(activeDeleteBatches), workers);
              && (forall b :: b in batches ==> IsBatch(runPlan.deletes, b))
              && nextDeleteIndex == EndOf(batches, old(nextDeleteIndex))
              && activeDeleteBatches == old(activeDeleteBatches) + |batches|
              && pending == BatchTasks(runPlan.deletes, batches)
    {
      pending := [];
      ghost var issued: seq<Batch> := [];
      NewBatchesAreBatches(runPlan.deletes, nextDeleteIndex, activeDeleteBatches, workers);
      while activeDeleteBatches < workers
        invariant Valid()
        invariant IssuedSoFar(runPlan.deletes, old(nextDeleteIndex), old(activeDeleteBatches), workers, issued,
                              nextDeleteIndex, activeDeleteBatches, pending)
        decreases workers - activeDeleteBatches
      {
        ghost var start := nextDeleteIndex;
        var spec := NextDeleteBatchSpec();
        if spec == None {
          break;
        }
        ghost var batch := Batch(start, nextDeleteIndex);
        IssueOneMore(runPlan.deletes, old(nextDeleteIndex), old(activeDeleteBatches), workers, issued, start,
                     activeDeleteBatches, pending, batch);
        activeDeleteBatches := activeDeleteBatches + 1;
        pending := pending + [spec.value];
        issued := issued + [batch];
      }
      assert NewBatches(runPlan.deletes, nextDeleteIndex, activeDeleteBatches, workers) == [];
      assert issued + [] == issued;
    }

    method TransfersForPhase(workers: Workers) returns (pending: seq<PendingTask>)
      requires Valid()
      modifies this`nextTransferIndex, this`activeTransfers
      ensures Valid()
      ensures var quota := QuotaIn(runPlan, workers, old(View()));
              && nextTransferIndex == old(nextTransferIndex) + quota
              && activeTransfers == old(activeTransfers) + quota
              && pending == TransferTasks(runPlan, old(nextTransferIndex), nextTransferIndex)
    {
      if phase == Copying || phase == DeletingDuring {
        pending := IssueTransfers(workers.transfers);
      } else {
        pending := [];
      }
    }

    method DeletesForPhase(workers: Workers) returns (pending: seq<PendingTask>)
      requires Valid()
      modifies this`nextDeleteIndex, this`activeDeleteBatches
      ensures Valid()
      ensures var batches := BatchesIn(runPlan, workers, old(View()));
              && nextDeleteIndex == EndOf(batches, old(nextDeleteIndex))
              && activeDeleteBatches == old(activeDeleteBatches) + |batches|
      ensures pending == DeleteTasks(runPlan, workers, old(View()))
    {
      if phase == DeletingBefore || phase == DeletingDuring || phase == DeletingAfter {
        pending := IssueDeleteBatches(workers.deletes);
      } else {
        pending := [];
      }
    }

    /** Transfers first, then delete batches, as the phase lets; no request at all clears the flag. */
    method IssueForPhase(workers: Workers) returns (pending: seq<PendingTask>)
      requires Valid()
      modifies this`nextTransferIndex, this`activeTransfers, this`nextDeleteIndex, this`activeDeleteBatches
      modifies this`running
      ensures Valid()
      ensures View() == Issue(runPlan, workers, old(View())).exec
      ensures pending == IssuedTasks(runPlan, workers, old(View()))
    {
      ghost var before := View();
      var transfers := TransfersForPhase(workers);
      DeletesGoByThemselves(runPlan, workers, before, View());
      var deletes := DeletesForPhase(workers);
      pending := transfers + deletes;
      SomethingIssued(runPlan, workers, before);
      if pending == [] {
        running := false;
      }
    }

    method DispatchExecution(workers: Workers) returns (pending: seq<PendingTask>)
      requires Valid()
      modifies this
      ensures Valid()
      ensures View() == Dispatch(settings, runPlan, workers, old(View())).exec
      ensures pending == TasksOf(settings, runPlan, workers, old(View()))
      ensures TransfersAmong(pending) == runPlan.transfers[old(nextTransferIndex)..nextTransferIndex]
      ensures forall i, j :: 0 <= i < j < |pending| && pending[j].Transfer? ==> pending[i].Transfer?
    {
      IssuedAmong(runPlan, workers, Settle(settings, runPlan, View()));
      var over := SettlePhase();
      if over {
        running := false;
        pending := [];
      } else {
        pending := IssueForPhase(workers);
      }
    }

    method RecordCopyStep(result: Result<RunItem, string>)
      requires Valid()
      modifies this
      ensures Valid()
      ensures View() == FinishTransfer(settings, old(View()), TransferOutcome(result))
    {
      activeTransfers := Less(activeTransfers);
      match result {
        case Ok(item) =>
          completedTransfers := completedTransfers + 1;
          bytesDone := bytesDone + item.bytes;
        case Err(_) =>
          failedTransfers := failedTransfers + 1;
          transferFailed := true;
          if !settings.ignoreErrors && phase == DeletingDuring {
            phase := Stopped;
          }
      }
    }

    method CopyStepFinished(result: Result<RunItem, string>, workers: Workers) returns (pending: seq<PendingTask>)
      requires Valid()
      modifies this
      ensures Valid()
      ensures var finished := FinishTransfer(settings, old(View()), TransferOutcome(result));
              && View() == Dispatch(settings, runPlan, workers, finished).exec
              && pending == TasksOf(settings, runPlan, workers, finished)
    {
      RecordCopyStep(result);
      pending := DispatchExecution(workers);
    }

    method RecordDeleteBatch(result: Result<BatchResult, string>)
      requires Valid()
      modifies this
      ensures Valid()
      ensures View() == FinishBatch(settings, old(View()), BatchOutcome(result))
    {
      activeDeleteBatches := Less(activeDeleteBatches);
      match result {
        case Ok(batch) =>
          completedDeletes := completedDeletes + batch.completed;
          bytesDone := bytesDone + batch.bytes;
        case Err(_) =>
          failedDeletes := failedDeletes + 1;
          if !settings.ignoreErrors {
            phase := Stopped;
          }
      }
    }

    method DeleteBatchFinished(result: Result<BatchResult, string>, workers: Workers)
      returns (pending: seq<PendingTask>)
      requires Valid()
      modifies this
      ensures Valid()
      ensures var finished := FinishBatch(settings, old(View()), BatchOutcome(result));
              && View() == Dispatch(settings, runPlan, workers, finished).exec
              && pending == TasksOf(settings, runPlan, workers, finished)
    {
      RecordDeleteBatch(result);
      pending := DispatchExecution(workers);
    }
  }
}

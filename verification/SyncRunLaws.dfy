/** What every run of the sync executor guarantees, for all plans, settings, worker limits, completion
    orders and failures. */
module SyncRunLaws {
  import opened Wrappers
  import opened SyncTypes
  import opened SyncExecutor
  import opened StatusSums
  import opened SyncRuns

  /** The totals a lowered plan carries. */
  predicate TotalsMatch(plan: RunPlan) {
    plan.totalTransferBytes == SumBytes(plan.transfers) && plan.totalDeleteBytes == SumBytes(plan.deletes)
  }

  predicate Over(w: World) {
    w.exec.phase == Done || w.exec.phase == Stopped
  }

  predicate Quiet(w: World) {
    (forall i :: 0 <= i < |w.transfers| ==> w.transfers[i] != InFlight)
    && (forall j :: 0 <= j < |w.batchStatus| ==> w.batchStatus[j] != InFlight)
  }

  // ----- Conservation -----

  lemma ChainFront(deletes: seq<RunItem>, batches: seq<Batch>, next: nat)
    requires Chain(deletes, batches, next) && batches != []
    ensures var last := batches[|batches| - 1];
            IsBatch(deletes, last) && Chain(deletes, batches[..|batches| - 1], last.lo)
  {
    var front, last := batches[..|batches| - 1], batches[|batches| - 1];
    assert IsBatch(deletes, last) && Follows(batches, |batches| - 1);
    forall j | 0 <= j < |front| ensures Follows(front, j) {
      assert Follows(batches, j);
      FollowsInFront(batches, j);
    }
    forall j | 0 <= j < |front| ensures IsBatch(deletes, front[j]) {
      assert front[j] == batches[j];
    }
    assert front != [] ==> IsBatch(deletes, front[|front| - 1]);
  }

  lemma FollowsInFront(batches: seq<Batch>, j: nat)
    requires j < |batches| - 1 && Follows(batches, j)
    ensures Follows(batches[..|batches| - 1], j)
  {
  }

  lemma {:induction false} ChainSizes(deletes: seq<RunItem>, batches: seq<Batch>, next: nat)
    requires Chain(deletes, batches, next) && InRange(deletes, batches)
    ensures Total(Sizes(deletes, batches)) == next
    ensures Total(BatchBytes(deletes, batches)) == SumBytes(deletes[..next])
    ensures |batches| <= next
  {
    if batches != [] {
      var front, last := batches[..|batches| - 1], batches[|batches| - 1];
      ChainFront(deletes, batches, next);
      ChainInRange(deletes, front, last.lo);
      ChainSizes(deletes, front, last.lo);
      TotalsOfFront(deletes, batches);
      SumUpTo(deletes, last.lo, last.hi);
    }
  }

  lemma SumUpTo(items: seq<RunItem>, mid: nat, end: nat)
    requires mid <= end <= |items|
    ensures SumBytes(items[..end]) == SumBytes(items[..mid]) + SumBytes(items[mid..end])
  {
    assert items[..end] == items[..mid] + items[mid..end];
    SumBytesConcat(items[..mid], items[mid..end]);
  }

  lemma TotalsOfFront(deletes: seq<RunItem>, batches: seq<Batch>)
    requires batches != [] && InRange(deletes, batches) && InRange(deletes, batches[..|batches| - 1])
    ensures var front, last := batches[..|batches| - 1], batches[|batches| - 1];
            && Total(Sizes(deletes, batches)) == Total(Sizes(deletes, front)) + (last.hi - last.lo)
            && Total(BatchBytes(deletes, batches))
               == Total(BatchBytes(deletes, front)) + SumBytes(deletes[last.lo..last.hi])
  {
    var front := batches[..|batches| - 1];
    assert Sizes(deletes, batches)[..|front|] == Sizes(deletes, front);
    assert BatchBytes(deletes, batches)[..|front|] == BatchBytes(deletes, front);
  }

  lemma {:induction false} TransferBytesTotal(plan: RunPlan, n: nat)
    requires n <= |plan.transfers|
    ensures Total(TransferBytes(plan)[..n]) == SumBytes(plan.transfers[..n])
  {
    if n > 0 {
      TransferBytesTotal(plan, n - 1);
      assert TransferBytes(plan)[..n][..n - 1] == TransferBytes(plan)[..n - 1];
      assert plan.transfers[..n][..n - 1] == plan.transfers[..n - 1];
    }
  }

  /** In every reachable state each issued transfer is active, completed or failed, each issued delete
      is in flight, completed or in a failed batch, and each issued batch is accounted for. */
  lemma TaskConservation(settings: Settings, plan: RunPlan, w: World)
    requires Reachable(settings, plan, w)
    ensures Wellformed(plan, w)
    ensures var e := w.exec;
            var sizes := Sizes(plan.deletes, w.batches);
            && e.nextTransfer == |w.transfers| == e.activeTransfers + e.completedTransfers + e.failedTransfers
            && e.nextDelete == Weigh(sizes, w.batchStatus, InFlight) + e.completedDeletes
                               + Weigh(sizes, w.batchStatus, Failed)
            && |w.batches| == e.activeBatches + Count(w.batchStatus, Succeeded) + e.failedDeletes
  {
    ReachableInv(settings, plan, w);
    CountPartition(w.transfers);
    CountPartition(w.batchStatus);
    IssuedDeletes(plan, w, w.exec.nextDelete);
  }

  lemma IssuedDeletes(plan: RunPlan, w: World, nextDelete: nat)
    requires Wellformed(plan, w) && Chain(plan.deletes, w.batches, nextDelete)
    ensures var sizes := Sizes(plan.deletes, w.batches);
            Weigh(sizes, w.batchStatus, InFlight) + Weigh(sizes, w.batchStatus, Succeeded)
            + Weigh(sizes, w.batchStatus, Failed) == nextDelete
  {
    ChainSizes(plan.deletes, w.batches, nextDelete);
    var sizes := Sizes(plan.deletes, w.batches);
    assert sizes[..|w.batchStatus|] == sizes;
    WeighPartition(sizes, w.batchStatus);
  }

  /** The bytes of the issued tasks with one status. */
  ghost function BytesWith(plan: RunPlan, w: World, x: Status): nat
    requires Wellformed(plan, w)
  {
    Weigh(TransferBytes(plan), w.transfers, x) + Weigh(BatchBytes(plan.deletes, w.batches), w.batchStatus, x)
  }

  /** And every planned byte is done, in flight, failed or not yet issued. */
  lemma ByteConservation(settings: Settings, plan: RunPlan, w: World)
    requires Reachable(settings, plan, w) && TotalsMatch(plan)
    ensures Wellformed(plan, w) && w.exec.nextTransfer <= |plan.transfers| && w.exec.nextDelete <= |plan.deletes|
    ensures w.exec.bytesDone == BytesWith(plan, w, Succeeded)
    ensures w.exec.totalBytes
            == w.exec.bytesDone + BytesWith(plan, w, InFlight) + BytesWith(plan, w, Failed)
               + SumBytes(plan.transfers[w.exec.nextTransfer..])
               + if settings.mode.Copy? then 0 else SumBytes(plan.deletes[w.exec.nextDelete..])
  {
    ReachableInv(settings, plan, w);
    IssuedBytes(plan, w, w.exec.nextDelete);
    SplitBytes(plan.transfers, w.exec.nextTransfer);
    SplitBytes(plan.deletes, w.exec.nextDelete);
    if settings.mode.Copy? {
      assert w.exec.nextDelete == 0;
      assert plan.deletes[..0] == [];
    }
  }

  lemma {:induction false} SplitBytes(items: seq<RunItem>, n: nat)
    requires n <= |items|
    ensures SumBytes(items) == SumBytes(items[..n]) + SumBytes(items[n..])
  {
    SumBytesConcat(items[..n], items[n..]);
    assert items == items[..n] + items[n..];
  }

  lemma IssuedBytes(plan: RunPlan, w: World, nextDelete: nat)
    requires Wellformed(plan, w) && Chain(plan.deletes, w.batches, nextDelete)
    ensures BytesWith(plan, w, InFlight) + BytesWith(plan, w, Succeeded) + BytesWith(plan, w, Failed)
            == SumBytes(plan.transfers[..|w.transfers|]) + SumBytes(plan.deletes[..nextDelete])
  {
    ChainSizes(plan.deletes, w.batches, nextDelete);
    var batchBytes := BatchBytes(plan.deletes, w.batches);
    assert batchBytes[..|w.batchStatus|] == batchBytes;
    WeighPartition(batchBytes, w.batchStatus);
    WeighPartition(TransferBytes(plan), w.transfers);
    TransferBytesTotal(plan, |w.transfers|);
  }

  predicate Within(workers: Workers, limit: Workers) {
    workers.transfers <= limit.transfers && workers.deletes <= limit.deletes
  }

  /** While no limit above `limit` is ever read, from the start on, no more than `limit` tasks of a kind are
      active. */
  lemma {:induction false} ActiveWithinLimits(settings: Settings, plan: RunPlan, workers: Workers, events: seq<Event>,
                                              last: World, limit: Workers)
    requires Positive(workers) && IsRun(settings, plan, Start(settings, plan, workers), events, last)
    requires Within(workers, limit) && forall event :: event in events ==> Within(event.workers, limit)
    ensures last.exec.activeTransfers <= limit.transfers && last.exec.activeBatches <= limit.deletes
  {
    var first := Start(settings, plan, workers);
    StartInv(settings, plan, workers);
    IssueWithinLimits(plan, workers, Settle(settings, plan, StartExec(settings, plan)));
    StaysWithinLimits(settings, plan, first, events, last, limit);
  }

  lemma {:induction false} StaysWithinLimits(settings: Settings, plan: RunPlan, w: World, events: seq<Event>,
                                             last: World, limit: Workers)
    requires Inv(settings, plan, w) && IsRun(settings, plan, w, events, last)
    requires w.exec.activeTransfers <= limit.transfers && w.exec.activeBatches <= limit.deletes
    requires forall event :: event in events ==> Within(event.workers, limit)
    ensures last.exec.activeTransfers <= limit.transfers && last.exec.activeBatches <= limit.deletes
    decreases |events|
  {
    if events != [] {
      var next := Step(settings, plan, w, events[0]);
      assert Within(events[0].workers, limit);
      StepWithinLimits(settings, plan, w, events[0]);
      StepKeepsInv(settings, plan, w, events[0]);
      StaysWithinLimits(settings, plan, next, events[1..], last, limit);
    }
  }

  function Max(a: nat, b: nat): nat {
    if a < b then b else a
  }

  lemma StepWithinLimits(settings: Settings, plan: RunPlan, w: World, event: Event)
    requires Wellformed(plan, w) && Enabled(w, event)
    ensures Step(settings, plan, w, event).exec.activeTransfers <= Max(w.exec.activeTransfers, event.workers.transfers)
    ensures Step(settings, plan, w, event).exec.activeBatches <= Max(w.exec.activeBatches, event.workers.deletes)
  {
    FinishFreesWorkers(settings, plan, w, event);
    IssueWithinLimits(plan, event.workers, Settle(settings, plan, Finish(settings, plan, w, event).exec));
  }

  lemma FinishFreesWorkers(settings: Settings, plan: RunPlan, w: World, event: Event)
    requires Wellformed(plan, w) && Enabled(w, event)
    ensures var e := Settle(settings, plan, Finish(settings, plan, w, event).exec);
            e.activeTransfers <= w.exec.activeTransfers && e.activeBatches <= w.exec.activeBatches
  {
  }

  lemma IssueWithinLimits(plan: RunPlan, workers: Workers, e: Exec)
    ensures Issue(plan, workers, e).exec.activeTransfers <= Max(e.activeTransfers, workers.transfers)
    ensures Issue(plan, workers, e).exec.activeBatches <= Max(e.activeBatches, workers.deletes)
  {
    NewBatchesFit(plan.deletes, e.nextDelete, e.activeBatches, workers.deletes);
  }

  lemma {:induction false} NewBatchesFit(deletes: seq<RunItem>, next: nat, active: nat, workers: nat)
    ensures active + |NewBatches(deletes, next, active, workers)| <= Max(active, workers)
    decreases |deletes| - next
  {
    if active < workers && next < |deletes| {
      NewBatchesFit(deletes, BatchAt(deletes, next).hi, active + 1, workers);
    }
  }

  /** And no worker idles: after every dispatch as many tasks of a kind are active as its limit says, or none
      of the kind is left to issue, or the phase does not let the kind run. */
  lemma NoIdleWorkers(settings: Settings, plan: RunPlan, w: World, event: Event)
    requires Reachable(settings, plan, w) && Wellformed(plan, w) && Enabled(w, event)
    ensures var e := Step(settings, plan, w, event).exec;
            && (e.phase in {Copying, DeletingDuring} ==>
                  e.activeTransfers >= event.workers.transfers || e.nextTransfer == |plan.transfers|)
            && (e.phase in {DeletingBefore, DeletingDuring, DeletingAfter} ==>
                  e.activeBatches >= event.workers.deletes || e.nextDelete == |plan.deletes|)
  {
    ReachableInv(settings, plan, w);
    StepKeepsInv(settings, plan, w, event);
    IssueFills(plan, event.workers, Settle(settings, plan, Finish(settings, plan, w, event).exec));
    BoundedIndices(settings, plan, Step(settings, plan, w, event));
  }

  lemma BoundedIndices(settings: Settings, plan: RunPlan, w: World)
    requires Accounts(settings, plan, w)
    ensures w.exec.nextTransfer <= |plan.transfers| && w.exec.nextDelete <= |plan.deletes|
  {
  }

  lemma IssueFills(plan: RunPlan, workers: Workers, e: Exec)
    ensures var next := Issue(plan, workers, e).exec;
            && next.phase == e.phase
            && (e.phase in {Copying, DeletingDuring} ==>
                  next.activeTransfers >= workers.transfers || next.nextTransfer >= |plan.transfers|)
            && (e.phase in {DeletingBefore, DeletingDuring, DeletingAfter} ==>
                  next.activeBatches >= workers.deletes || next.nextDelete >= |plan.deletes|)
  {
    NewBatchesFill(plan.deletes, e.nextDelete, e.activeBatches, workers.deletes);
  }

  lemma {:induction false} NewBatchesFill(deletes: seq<RunItem>, next: nat, active: nat, workers: nat)
    ensures var batches := NewBatches(deletes, next, active, workers);
            active + |batches| >= workers || EndOf(batches, next) >= |deletes|
    decreases |deletes| - next
  {
    if active < workers && next < |deletes| {
      NewBatchesFill(deletes, BatchAt(deletes, next).hi, active + 1, workers);
    }
  }

  // ----- Delete batches -----

  function Flatten(deletes: seq<RunItem>, batches: seq<Batch>): seq<RunItem>
    requires InRange(deletes, batches)
  {
    if batches == [] then []
    else
      var last := batches[|batches| - 1];
      Flatten(deletes, batches[..|batches| - 1]) + deletes[last.lo..last.hi]
  }

  lemma ChainIsBatches(deletes: seq<RunItem>, batches: seq<Batch>, next: nat)
    requires Chain(deletes, batches, next)
    ensures forall b :: b in batches ==> IsBatch(deletes, b)
  {
    forall j | 0 <= j < |batches| ensures IsBatch(deletes, batches[j]) {
    }
  }

  lemma {:induction false} ChainFlattens(deletes: seq<RunItem>, batches: seq<Batch>, next: nat)
    requires Chain(deletes, batches, next) && InRange(deletes, batches)
    ensures Flatten(deletes, batches) == deletes[..next]
  {
    if batches != [] {
      var front, last := batches[..|batches| - 1], batches[|batches| - 1];
      ChainFront(deletes, batches, next);
      ChainFlattens(deletes, front, last.lo);
      assert deletes[..next] == deletes[..last.lo] + deletes[last.lo..last.hi];
    }
  }

  /** Batches later in the chain start where the earlier ones have ended. */
  lemma {:induction false} ChainOrdered(deletes: seq<RunItem>, batches: seq<Batch>, next: nat, j: nat, k: nat)
    requires Chain(deletes, batches, next) && j < k < |batches|
    ensures batches[j].hi <= batches[k].lo
    decreases k - j
  {
    assert IsBatch(deletes, batches[k - 1]) && Follows(batches, k);
    if j < k - 1 {
      ChainOrdered(deletes, batches, next, j, k - 1);
    }
  }

  /** The batches issued so far are an ordered partition of a prefix of the delete list: put together
      they are that prefix, none is empty or over 1000 keys, remote ones have one target and no two
      batches share an item. */
  lemma BatchesPartitionDeletes(settings: Settings, plan: RunPlan, w: World)
    requires Reachable(settings, plan, w)
    ensures InRange(plan.deletes, w.batches) && w.exec.nextDelete <= |plan.deletes|
    ensures Flatten(plan.deletes, w.batches) == plan.deletes[..w.exec.nextDelete]
    ensures forall j :: 0 <= j < |w.batches| ==>
              var b := w.batches[j];
              && 1 <= b.hi - b.lo <= 1000
              && (forall i :: b.lo <= i < b.hi && b.lo + 1 < b.hi ==> SameTarget(plan.deletes[b.lo], plan.deletes[i]))
    ensures forall j, k :: 0 <= j < k < |w.batches| ==> w.batches[j].hi <= w.batches[k].lo
    ensures forall b :: b in w.batches ==> IsBatch(plan.deletes, b)
    ensures |w.sentDeletes| == |w.batches|
    ensures forall j :: 0 <= j < |w.batches| ==>
              !w.sentDeletes[j].Transfer? && w.sentDeletes[j].bytes == BatchBytes(plan.deletes, w.batches)[j]
    ensures Total(BatchBytes(plan.deletes, w.batches)) == SumBytes(plan.deletes[..w.exec.nextDelete])
  {
    ReachableInv(settings, plan, w);
    ChainFlattens(plan.deletes, w.batches, w.exec.nextDelete);
    ChainSizes(plan.deletes, w.batches, w.exec.nextDelete);
    ChainIsBatches(plan.deletes, w.batches, w.exec.nextDelete);
    forall j | 0 <= j < |w.batches|
      ensures !w.sentDeletes[j].Transfer? && w.sentDeletes[j].bytes == BatchBytes(plan.deletes, w.batches)[j]
    {
      assert Carries(plan.deletes, w.batches[j], w.sentDeletes[j]);
      ReportsItsBatch(plan, w, j);
    }
    forall j | 0 <= j < |w.batches|
      ensures var b := w.batches[j];
              && 1 <= b.hi - b.lo <= 1000
              && (forall i :: b.lo <= i < b.hi && b.lo + 1 < b.hi ==> SameTarget(plan.deletes[b.lo], plan.deletes[i]))
    {
      assert IsBatch(plan.deletes, w.batches[j]);
    }
    forall j, k | 0 <= j < k < |w.batches| ensures w.batches[j].hi <= w.batches[k].lo {
      ChainOrdered(plan.deletes, w.batches, w.exec.nextDelete, j, k);
    }
  }

  // ----- The requests -----

  /** In every run the transfer requests of all dispatches, put together in order, are exactly the plan's
      first items, one request each and the next one next; and the delete requests are, batch by batch, for
      exactly the deletes the executor takes them for: their connection, bucket and keys in order, or their
      one file, and their bytes. */
  lemma RequestsFollowThePlan(settings: Settings, plan: RunPlan, w: World)
    requires Reachable(settings, plan, w)
    ensures w.exec.nextTransfer <= |plan.transfers|
    ensures w.sentTransfers == plan.transfers[..w.exec.nextTransfer]
    ensures |w.sentDeletes| == |w.batches|
    ensures forall j :: 0 <= j < |w.batches| ==>
              var b, request := w.batches[j], w.sentDeletes[j];
              && b.lo < b.hi <= |plan.deletes|
              && !request.Transfer? && request.bytes == SumBytes(plan.deletes[b.lo..b.hi])
              && (request.RemoteDelete? ==>
                    && |request.keys| == b.hi - b.lo
                    && forall i :: b.lo <= i < b.hi ==>
                         plan.deletes[i].destination == S3(request.connectionId, request.bucket,
                                                           request.keys[i - b.lo]))
              && (request.LocalDelete? ==> b.hi == b.lo + 1 && request.path == plan.deletes[b.lo].destination)
  {
    ReachableInv(settings, plan, w);
    forall j | 0 <= j < |w.batches|
      ensures var b, request := w.batches[j], w.sentDeletes[j];
              && b.lo < b.hi <= |plan.deletes|
              && !request.Transfer? && request.bytes == SumBytes(plan.deletes[b.lo..b.hi])
              && (request.RemoteDelete? ==>
                    && |request.keys| == b.hi - b.lo
                    && forall i :: b.lo <= i < b.hi ==>
                         plan.deletes[i].destination == S3(request.connectionId, request.bucket,
                                                           request.keys[i - b.lo]))
              && (request.LocalDelete? ==> b.hi == b.lo + 1 && request.path == plan.deletes[b.lo].destination)
    {
      assert Carries(plan.deletes, w.batches[j], w.sentDeletes[j]);
      ReportsItsBatch(plan, w, j);
    }
  }

  // ----- Order and failure -----

  /** Fail-safe delete: with deletes after the copy and errors not ignored, a delete batch exists only
      when every transfer of the plan has been issued, has come back and has succeeded. */
  lemma DeletesOnlyAfterAllTransfersSucceeded(settings: Settings, plan: RunPlan, w: World)
    requires Reachable(settings, plan, w)
    requires settings.mode.Sync? && settings.deletePhase == DeleteAfter && !settings.ignoreErrors
    requires w.batches != []
    ensures |w.transfers| == |plan.transfers|
    ensures forall i :: 0 <= i < |w.transfers| ==> w.transfers[i] == Succeeded
  {
    ReachableInv(settings, plan, w);
    CountZero(w.transfers, InFlight);
    CountZero(w.transfers, Failed);
  }

  /** After a failed transfer, such a run deletes nothing, and once nothing is in flight it is done with
      the delete phase reported as skipped. */
  lemma FailedTransferSkipsDeletes(settings: Settings, plan: RunPlan, w: World, i: nat)
    requires Reachable(settings, plan, w)
    requires settings.mode.Sync? && settings.deletePhase == DeleteAfter && !settings.ignoreErrors
    requires i < |w.transfers| && w.transfers[i] == Failed
    ensures w.batches == []
    ensures Quiet(w) ==> w.exec.phase == Done && (w.exec.deletePhaseSkipped <==> plan.deletes != [])
  {
    ReachableInv(settings, plan, w);
    CountZero(w.transfers, Failed);
    QuietMeansOver(settings, plan, w);
    ChainSizes(plan.deletes, w.batches, w.exec.nextDelete);
  }

  /** The skip flag is set only when deletes were planned, a transfer failed and errors count. */
  lemma SkipIsJustified(settings: Settings, plan: RunPlan, w: World)
    requires Reachable(settings, plan, w) && w.exec.deletePhaseSkipped
    ensures w.exec.phase == Done && !settings.mode.Copy? && !settings.ignoreErrors && plan.deletes != []
    ensures exists i :: 0 <= i < |w.transfers| && w.transfers[i] == Failed
    ensures settings.deletePhase == DeleteAfter ==> w.batches == []
  {
    ReachableInv(settings, plan, w);
    CountZero(w.transfers, Failed);
  }

  /** With deletes before the copy, no transfer is issued until every delete has been issued and has
      come back, and succeeded unless errors are ignored. */
  lemma TransfersOnlyAfterDeletes(settings: Settings, plan: RunPlan, w: World)
    requires Reachable(settings, plan, w)
    requires settings.mode.Sync? && settings.deletePhase == DeleteBefore && w.transfers != []
    ensures w.exec.nextDelete == |plan.deletes|
    ensures forall j :: 0 <= j < |w.batchStatus| ==>
              w.batchStatus[j] == Succeeded || (settings.ignoreErrors && w.batchStatus[j] == Failed)
  {
    ReachableInv(settings, plan, w);
    CountZero(w.batchStatus, InFlight);
    CountZero(w.batchStatus, Failed);
  }

  /** A copy run issues no delete, whatever deletes its plan holds. */
  lemma CopyNeverDeletes(settings: Settings, plan: RunPlan, w: World)
    requires Reachable(settings, plan, w) && settings.mode.Copy?
    ensures w.batches == [] && w.exec.phase in {Copying, Done} && !w.exec.deletePhaseSkipped
  {
    ReachableInv(settings, plan, w);
  }

  /** A run stops early only when errors count and something has failed. */
  lemma StopIsJustified(settings: Settings, plan: RunPlan, w: World)
    requires Reachable(settings, plan, w) && w.exec.phase == Stopped
    ensures !settings.ignoreErrors && !settings.mode.Copy?
    ensures (exists i :: 0 <= i < |w.transfers| && w.transfers[i] == Failed)
            || (exists j :: 0 <= j < |w.batchStatus| && w.batchStatus[j] == Failed)
  {
    ReachableInv(settings, plan, w);
    CountZero(w.transfers, Failed);
    CountZero(w.batchStatus, Failed);
  }

  /** And, except for transfers that fail in a separate copy phase, a failure that counts does stop the
      run: a failed delete batch always, a failed transfer while deletes run beside it. */
  lemma FailureStops(settings: Settings, plan: RunPlan, w: World)
    requires Reachable(settings, plan, w) && !settings.ignoreErrors
    requires (exists j :: 0 <= j < |w.batchStatus| && w.batchStatus[j] == Failed)
             || (RunsDeletesBeside(settings, plan)
                 && exists i :: 0 <= i < |w.transfers| && w.transfers[i] == Failed)
    ensures w.exec.phase == Stopped
  {
    ReachableInv(settings, plan, w);
    CountZero(w.transfers, Failed);
    CountZero(w.batchStatus, Failed);
  }

  /** A finished run has nothing in flight and has issued every transfer; unless it only copied or
      skipped the deletes, it has issued every delete too. */
  lemma DoneIsComplete(settings: Settings, plan: RunPlan, w: World)
    requires Reachable(settings, plan, w) && w.exec.phase == Done
    ensures Quiet(w)
    ensures w.exec.completedTransfers + w.exec.failedTransfers == |plan.transfers| == |w.transfers|
    ensures !settings.mode.Copy? && !w.exec.deletePhaseSkipped ==> w.exec.nextDelete == |plan.deletes|
  {
    ReachableInv(settings, plan, w);
    CountZero(w.transfers, InFlight);
    CountZero(w.batchStatus, InFlight);
    CountPartition(w.transfers);
  }

  /** Once over, a run stays as it is over and issues nothing more. */
  lemma OverIsAbsorbing(settings: Settings, plan: RunPlan, w: World, event: Event)
    requires Reachable(settings, plan, w) && Over(w) && Wellformed(plan, w) && Enabled(w, event)
    ensures var next := Step(settings, plan, w, event);
            && next.exec.phase == w.exec.phase == Stopped
            && |next.transfers| == |w.transfers| && next.batches == w.batches
            && !next.exec.running
  {
    ReachableInv(settings, plan, w);
    EnabledMeansActive(settings, plan, w, event);
    StoppedStays(settings, plan, w, event);
  }

  lemma StoppedStays(settings: Settings, plan: RunPlan, w: World, event: Event)
    requires Wellformed(plan, w) && Enabled(w, event) && w.exec.phase == Stopped
    ensures var next := Step(settings, plan, w, event);
            && next.exec.phase == Stopped && !next.exec.running
            && |next.transfers| == |w.transfers| && next.batches == w.batches
  {
    var finished := Finish(settings, plan, w, event);
    assert finished.exec.phase == Stopped;
    assert Settled(settings, plan, finished).exec.phase == Stopped;
    assert w.batches + [] == w.batches;
  }

  /** A task that came back keeps its outcome, and issued batches stay issued in their order. */
  lemma HistoryIsKept(settings: Settings, plan: RunPlan, w: World, event: Event)
    requires Wellformed(plan, w) && Enabled(w, event)
    ensures var next := Step(settings, plan, w, event);
            && |w.transfers| <= |next.transfers| && w.batches <= next.batches
            && |w.batchStatus| <= |next.batchStatus|
            && (forall i :: 0 <= i < |w.transfers| && w.transfers[i] != InFlight ==>
                  next.transfers[i] == w.transfers[i])
            && (forall j :: 0 <= j < |w.batchStatus| && w.batchStatus[j] != InFlight ==>
                  next.batchStatus[j] == w.batchStatus[j])
  {
  }

  // ----- Progress and termination -----

  /** No stall: a state with nothing in flight is over. */
  lemma QuietMeansOver(settings: Settings, plan: RunPlan, w: World)
    requires Reachable(settings, plan, w)
    ensures Quiet(w) ==> Over(w)
  {
    ReachableInv(settings, plan, w);
    CountZero(w.transfers, InFlight);
    CountZero(w.batchStatus, InFlight);
  }

  /** The work left: two for each item not issued and one for each task in flight. */
  function Measure(plan: RunPlan, e: Exec): int {
    2 * (|plan.transfers| - e.nextTransfer) + e.activeTransfers
    + 2 * (|plan.deletes| - e.nextDelete) + e.activeBatches
  }

  lemma {:induction false} NewBatchesCost(deletes: seq<RunItem>, next: nat, active: nat, workers: nat)
    ensures |NewBatches(deletes, next, active, workers)|
        <= EndOf(NewBatches(deletes, next, active, workers), next) - next
    decreases |deletes| - next
  {
    if active < workers && next < |deletes| {
      var batch := BatchAt(deletes, next);
      NewBatchesCost(deletes, batch.hi, active + 1, workers);
    }
  }

  /** Every completion, with its dispatch, leaves strictly less work. */
  lemma StepLowersMeasure(settings: Settings, plan: RunPlan, w: World, event: Event)
    requires Inv(settings, plan, w) && Enabled(w, event)
    ensures 0 <= Measure(plan, Step(settings, plan, w, event).exec) < Measure(plan, w.exec)
  {
    var finished := Finish(settings, plan, w, event);
    EnabledMeansActive(settings, plan, w, event);
    FinishLowersMeasure(settings, plan, w, event);
    IssuingCostsNothing(plan, event.workers, Settle(settings, plan, finished.exec));
    StepKeepsInv(settings, plan, w, event);
    MeasureIsNat(settings, plan, Step(settings, plan, w, event));
  }

  lemma FinishLowersMeasure(settings: Settings, plan: RunPlan, w: World, event: Event)
    requires Wellformed(plan, w) && Enabled(w, event)
    requires if event.TransferReturned? then w.exec.activeTransfers > 0 else w.exec.activeBatches > 0
    ensures Measure(plan, Settle(settings, plan, Finish(settings, plan, w, event).exec)) == Measure(plan, w.exec) - 1
  {
  }

  lemma MeasureIsNat(settings: Settings, plan: RunPlan, w: World)
    requires Accounts(settings, plan, w)
    ensures 0 <= Measure(plan, w.exec)
  {
  }

  lemma IssuingCostsNothing(plan: RunPlan, workers: Workers, e: Exec)
    ensures Measure(plan, Issue(plan, workers, e).exec) <= Measure(plan, e)
  {
    NewBatchesCost(plan.deletes, e.nextDelete, e.activeBatches, workers.deletes);
  }

  function Returned(s: seq<Status>): nat {
    Count(s, Succeeded) + Count(s, Failed)
  }

  lemma {:induction false} RunCountsReturns(settings: Settings, plan: RunPlan, w: World, events: seq<Event>,
                                            last: World)
    requires Inv(settings, plan, w) && IsRun(settings, plan, w, events, last)
    ensures Returned(last.transfers) + Returned(last.batchStatus)
            == Returned(w.transfers) + Returned(w.batchStatus) + |events|
    decreases |events|
  {
    if events != [] {
      var next := Step(settings, plan, w, events[0]);
      StepCountsOneReturn(settings, plan, w, events[0]);
      StepKeepsInv(settings, plan, w, events[0]);
      RunCountsReturns(settings, plan, next, events[1..], last);
    }
  }

  lemma StepCountsOneReturn(settings: Settings, plan: RunPlan, w: World, event: Event)
    requires Inv(settings, plan, w) && Enabled(w, event)
    ensures var next := Step(settings, plan, w, event);
            Returned(next.transfers) + Returned(next.batchStatus) == Returned(w.transfers) + Returned(w.batchStatus) + 1
  {
    var finished := Finish(settings, plan, w, event);
    var d := Issue(plan, event.workers, Settle(settings, plan, finished.exec));
    forall x | x in {Succeeded, Failed}
      ensures Count(finished.transfers + Fresh(d.transfers), x) == Count(finished.transfers, x)
      ensures Count(finished.batchStatus + Fresh(|d.batches|), x) == Count(finished.batchStatus, x)
    {
      CountAppendFresh(finished.transfers, d.transfers, x);
      CountAppendFresh(finished.batchStatus, |d.batches|, x);
    }
    if event.TransferReturned? {
      CountUpdate(w.transfers, event.index, Outcome(event.ok), Succeeded);
      CountUpdate(w.transfers, event.index, Outcome(event.ok), Failed);
    } else {
      CountUpdate(w.batchStatus, event.index, Outcome(event.ok), Succeeded);
      CountUpdate(w.batchStatus, event.index, Outcome(event.ok), Failed);
    }
  }

  /** Termination: no run takes more completions than the plan has items. */
  lemma {:induction false} RunsAreShort(settings: Settings, plan: RunPlan, workers: Workers, events: seq<Event>,
                                        last: World)
    requires Positive(workers) && IsRun(settings, plan, Start(settings, plan, workers), events, last)
    ensures |events| <= |plan.transfers| + |plan.deletes|
  {
    var first := Start(settings, plan, workers);
    StartInv(settings, plan, workers);
    RunCountsReturns(settings, plan, first, events, last);
    RunKeepsInv(settings, plan, first, events, last);
    CountPartition(last.transfers);
    CountPartition(last.batchStatus);
    ChainSizes(plan.deletes, last.batches, last.exec.nextDelete);
  }

  /** And every run can go on until it is over with nothing in flight. */
  lemma {:induction false} RunsCanFinish(settings: Settings, plan: RunPlan, w: World)
    returns (events: seq<Event>, last: World)
    requires Inv(settings, plan, w) && Live(w)
    ensures IsRun(settings, plan, w, events, last) && Quiet(last) && Over(last)
    decreases Measure(plan, w.exec)
  {
    CountZero(w.transfers, InFlight);
    CountZero(w.batchStatus, InFlight);
    if Quiet(w) {
      return [], w;
    }
    var event;
    if i :| 0 <= i < |w.transfers| && w.transfers[i] == InFlight {
      event := TransferReturned(i, true, Workers(1, 1));
    } else {
      var j :| 0 <= j < |w.batchStatus| && w.batchStatus[j] == InFlight;
      event := BatchReturned(j, true, Workers(1, 1));
    }
    StepLowersMeasure(settings, plan, w, event);
    StepKeepsInv(settings, plan, w, event);
    var rest;
    rest, last := RunsCanFinish(settings, plan, Step(settings, plan, w, event));
    events := [event] + rest;
    assert events[1..] == rest;
  }

  // ----- The `running` flag -----

  /** Did every dispatch of the run issue something? */
  ghost predicate EveryStepIssues(settings: Settings, plan: RunPlan, w: World, events: seq<Event>)
    decreases |events|
  {
    events != [] && Wellformed(plan, w) && Enabled(w, events[0]) ==>
      var next := Step(settings, plan, w, events[0]);
      && (|w.transfers| < |next.transfers| || |w.batches| < |next.batches|)
      && EveryStepIssues(settings, plan, next, events[1..])
  }

  /** The flag says exactly that no dispatch so far has come up empty. */
  lemma {:induction false} RunningMeansEveryStepIssued(settings: Settings, plan: RunPlan, w: World,
                                                       events: seq<Event>, last: World)
    requires IsRun(settings, plan, w, events, last)
    ensures last.exec.running <==> w.exec.running && EveryStepIssues(settings, plan, w, events)
    decreases |events|
  {
    if events != [] {
      RunningMeansEveryStepIssued(settings, plan, Step(settings, plan, w, events[0]), events[1..], last);
    }
  }

  /** So while it is set something is in flight. */
  lemma {:induction false} RunningMeansInFlight(settings: Settings, plan: RunPlan, workers: Workers,
                                                events: seq<Event>, last: World)
    requires Positive(workers) && IsRun(settings, plan, Start(settings, plan, workers), events, last)
    ensures last.exec.running ==> last.exec.activeTransfers > 0 || last.exec.activeBatches > 0
  {
    StartInv(settings, plan, workers);
    RunningOnlyWithWork(settings, plan, Start(settings, plan, workers), events, last);
  }

  lemma {:induction false} RunningOnlyWithWork(settings: Settings, plan: RunPlan, w: World, events: seq<Event>,
                                               last: World)
    requires IsRun(settings, plan, w, events, last)
    requires w.exec.running ==> w.exec.activeTransfers > 0 || w.exec.activeBatches > 0
    ensures last.exec.running ==> last.exec.activeTransfers > 0 || last.exec.activeBatches > 0
    decreases |events|
  {
    if events != [] {
      RunningOnlyWithWork(settings, plan, Step(settings, plan, w, events[0]), events[1..], last);
    }
  }

  /** But a cleared flag does not mean the work is done: two transfers in flight, one comes back,
      nothing is left to issue, and the flag is cleared with the other still in flight. */
  lemma NotRunningWithWorkInFlight(item: RunItem) returns (settings: Settings, plan: RunPlan, w: World)
    ensures Reachable(settings, plan, w)
    ensures !w.exec.running && w.exec.phase == Copying && w.transfers == [Succeeded, InFlight]
  {
    settings := Settings(Copy, DeleteAfter, false);
    plan := RunPlan([item, item], [], 2 * item.bytes, 0, false);
    var workers := Workers(4, 4);
    var first := Start(settings, plan, workers);
    StartInv(settings, plan, workers);
    assert first.transfers == [InFlight, InFlight];
    var event := TransferReturned(0, true, workers);
    w := Step(settings, plan, first, event);
    assert w.transfers == [Succeeded, InFlight];
    assert IsRun(settings, plan, first, [event], w) by {
      assert IsRun(settings, plan, w, [event][1..], w);
    }
  }

  // ----- When the flag tells the truth -----

  predicate Busy(w: World) {
    w.exec.activeTransfers > 0 || w.exec.activeBatches > 0
  }

  predicate FixedLimits(events: seq<Event>, workers: Workers) {
    forall i :: 0 <= i < |events| ==> events[i].workers == workers
  }

  /** Reached by a run whose worker limits were never edited. */
  ghost predicate ReachedUnder(settings: Settings, plan: RunPlan, workers: Workers, w: World) {
    exists events :: IsRun(settings, plan, Start(settings, plan, workers), events, w) && FixedLimits(events, workers)
  }

  /** One completion when at most one transfer was active: the flag stays true to the work in flight. */
  lemma AloneStaysTruthful(settings: Settings, plan: RunPlan, w: World, event: Event)
    requires Inv(settings, plan, w) && Enabled(w, event) && settings.mode.Copy?
    requires w.exec.activeTransfers <= 1 && (w.exec.running <==> Busy(w))
    ensures var next := Step(settings, plan, w, event); next.exec.running <==> Busy(next)
  {
    EnabledMeansActive(settings, plan, w, event);
  }

  lemma AloneStaysAlone(settings: Settings, plan: RunPlan, w: World, event: Event)
    requires Inv(settings, plan, w) && Enabled(w, event) && w.exec.activeTransfers <= 1
    requires event.workers.transfers == 1 || |plan.transfers| <= 1
    ensures Step(settings, plan, w, event).exec.activeTransfers <= 1
  {
    StepWithinLimits(settings, plan, w, event);
    StepKeepsInv(settings, plan, w, event);
    ActiveAtMostAll(settings, plan, Step(settings, plan, w, event));
  }

  lemma ActiveAtMostAll(settings: Settings, plan: RunPlan, w: World)
    requires Accounts(settings, plan, w)
    ensures w.exec.activeTransfers <= |plan.transfers|
  {
    CountPartition(w.transfers);
  }

  /** One transfer at a time, so far, and the flag true to the work in flight. */
  ghost predicate Alone(settings: Settings, plan: RunPlan, w: World) {
    Inv(settings, plan, w) && w.exec.activeTransfers <= 1 && (w.exec.running <==> Busy(w))
  }

  lemma AloneStep(settings: Settings, plan: RunPlan, w: World, event: Event)
    requires Alone(settings, plan, w) && Enabled(w, event) && Solo(settings, plan, event)
    ensures Alone(settings, plan, Step(settings, plan, w, event))
  {
    AloneStaysTruthful(settings, plan, w, event);
    AloneStaysAlone(settings, plan, w, event);
    StepKeepsInv(settings, plan, w, event);
  }

  /** Does this event's limit, or the plan, keep transfers to one at a time? */
  predicate Solo(settings: Settings, plan: RunPlan, event: Event) {
    settings.mode.Copy? && (event.workers.transfers == 1 || |plan.transfers| <= 1)
  }

  lemma {:induction false} AloneToTheEnd(settings: Settings, plan: RunPlan, w: World, events: seq<Event>, last: World)
    requires Alone(settings, plan, w) && IsRun(settings, plan, w, events, last)
    requires forall event :: event in events ==> Solo(settings, plan, event)
    ensures Alone(settings, plan, last)
    decreases |events|
  {
    if events != [] {
      assert Solo(settings, plan, events[0]);
      AloneStep(settings, plan, w, events[0]);
      AloneToTheEnd(settings, plan, Step(settings, plan, w, events[0]), events[1..], last);
    }
  }

  /** One success when every active transfer fills the limit, or none is left to issue. */
  lemma SuccessInCopy(settings: Settings, plan: RunPlan, w: World, event: Event)
    requires Inv(settings, plan, w) && settings.mode.Copy? && Enabled(w, event)
    requires event.TransferReturned? && event.ok
    requires w.exec.phase == Copying && w.exec.running && w.exec.activeTransfers >= 2
    requires w.exec.nextTransfer < |plan.transfers| ==> w.exec.activeTransfers == event.workers.transfers
    ensures var next := Step(settings, plan, w, event).exec;
            if w.exec.nextTransfer == |plan.transfers|
            then !next.running && next.activeTransfers == w.exec.activeTransfers - 1
            else && next.running && next.phase == Copying
                 && next.activeTransfers == w.exec.activeTransfers && next.nextTransfer == w.exec.nextTransfer + 1
  {
    var finished := Finish(settings, plan, w, event).exec;
    assert LeftIn(plan, finished).transfers;
    assert Settle(settings, plan, finished).phase == Copying;
    assert QuotaIn(plan, event.workers, Settle(settings, plan, finished))
        == if w.exec.nextTransfer < |plan.transfers| then 1 else 0;
  }

  /** With two transfers active, and the limit filled while any are left, the flag will clear too early. */
  lemma {:induction false} ClearsEarly(settings: Settings, plan: RunPlan, workers: Workers, w: World)
    returns (events: seq<Event>, last: World)
    requires Inv(settings, plan, w) && settings.mode.Copy? && Positive(workers)
    requires w.exec.phase == Copying && w.exec.running && w.exec.activeTransfers >= 2
    requires w.exec.nextTransfer < |plan.transfers| ==> w.exec.activeTransfers == workers.transfers
    ensures IsRun(settings, plan, w, events, last) && FixedLimits(events, workers)
    ensures !last.exec.running && Busy(last)
    decreases |plan.transfers| - w.exec.nextTransfer
  {
    CountZero(w.transfers, InFlight);
    var i :| 0 <= i < |w.transfers| && w.transfers[i] == InFlight;
    var event := TransferReturned(i, true, workers);
    var next := Step(settings, plan, w, event);
    SuccessInCopy(settings, plan, w, event);
    StepKeepsInv(settings, plan, w, event);
    var rest: seq<Event> := [];
    last := next;
    if w.exec.nextTransfer < |plan.transfers| {
      rest, last := ClearsEarly(settings, plan, workers, next);
    }
    events := EarlierEvent(settings, plan, workers, w, event, rest, last);
  }

  lemma {:induction false} EarlierEvent(settings: Settings, plan: RunPlan, workers: Workers, w: World, event: Event,
                                        rest: seq<Event>, last: World)
    returns (events: seq<Event>)
    requires Wellformed(plan, w) && Enabled(w, event) && event.workers == workers && FixedLimits(rest, workers)
    requires IsRun(settings, plan, Step(settings, plan, w, event), rest, last)
    ensures IsRun(settings, plan, w, events, last) && FixedLimits(events, workers)
  {
    events := [event] + rest;
    assert events[1..] == rest;
  }

  /** In a copy run whose limits are not edited, the flag says whether anything is in flight, in every
      state, exactly when transfers go one at a time: the limit is one, or there is one transfer at most. */
  lemma RunningIsTruthfulIff(settings: Settings, plan: RunPlan, workers: Workers)
    requires settings.mode.Copy? && Positive(workers)
    ensures (forall w :: ReachedUnder(settings, plan, workers, w) ==> (w.exec.running <==> Busy(w)))
            <==> workers.transfers == 1 || |plan.transfers| <= 1
  {
    var first := Start(settings, plan, workers);
    StartInv(settings, plan, workers);
    if workers.transfers == 1 || |plan.transfers| <= 1 {
      forall w | ReachedUnder(settings, plan, workers, w) ensures w.exec.running <==> Busy(w) {
        var events :| IsRun(settings, plan, first, events, w) && FixedLimits(events, workers);
        assert forall event :: event in events ==> Solo(settings, plan, event);
        AloneToTheEnd(settings, plan, first, events, w);
      }
    } else {
      var events, last := ClearsEarly(settings, plan, workers, first);
      assert ReachedUnder(settings, plan, workers, last);
    }
  }
}

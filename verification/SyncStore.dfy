/** What a sync run does to the destination. Every completion takes effect at the places its request names,
    on a store that remembers where each object comes from. */
module SyncStore {
  import opened Wrappers
  import opened SyncTypes
  import opened SyncListing
  import opened SyncExecutor
  import opened StatusSums
  import opened SyncRuns
  import opened SyncRunLaws

  /** What is at a place of the destination: the object found there, a copy of a source object, or
      whatever a failed transfer left behind. */
  datatype Stored = Original(found: Object) | CopyOf(copied: Object) | Residue

  type Store = map<Endpoint, Stored>

  function AsFound(places: Places): Store {
    map place | place in places :: Original(places[place])
  }

  /** What a failed task did before it failed: a transfer may leave a residue, a batch may have removed
      any of its objects. */
  datatype Damage = Damage(residue: bool, removed: set<Endpoint>)

  datatype Occurrence = Occurrence(event: Event, damage: Damage)

  function PlacesIn(deletes: seq<RunItem>, lo: nat, hi: nat): set<Endpoint>
    requires lo <= hi <= |deletes|
  {
    set k | lo <= k < hi :: deletes[k].destination
  }

  /** Can the strategy handle these endpoints? If not, the task fails. */
  predicate Handles(strategy: Strategy, source: Endpoint, destination: Endpoint) {
    match strategy
    case Upload => source.Local? && destination.S3?
    case Download => source.S3? && destination.Local?
    case ServerSideCopy => source.S3? && destination.S3?
    case ClientRelay => source.S3? && destination.S3?
    case DeleteRemote => destination.S3?
    case DeleteLocal => destination.Local?
  }

  /** Where a transfer writes. A server-side copy is made by the source's client, so it lands on the source's
      connection, whatever the destination's is. */
  function LandsAt(item: RunItem): Endpoint {
    if item.strategy == ServerSideCopy && item.source.S3? && item.destination.S3? then
      item.destination.(connectionId := item.source.connectionId)
    else item.destination
  }

  /** The places a request acts on: where its transfer lands, each key it names in the bucket it names, or its
      one file. */
  function PlacesOf(request: PendingTask): set<Endpoint> {
    match request
    case Transfer(item) => {LandsAt(item)}
    case RemoteDelete(connectionId, bucket, keys, _) => set key | key in keys :: S3(connectionId, bucket, key)
    case LocalDelete(path, _) => {path}
  }

  /** A request for a batch acts on the places of its deletes. */
  lemma CarriedPlaces(deletes: seq<RunItem>, batch: Batch, request: PendingTask)
    requires Carries(deletes, batch, request)
    ensures PlacesOf(request) == PlacesIn(deletes, batch.lo, batch.hi)
  {
    if request.RemoteDelete? {
      forall place | place in PlacesOf(request) ensures place in PlacesIn(deletes, batch.lo, batch.hi) {
        var i :| 0 <= i < |request.keys| && place == S3(request.connectionId, request.bucket, request.keys[i]);
        assert deletes[batch.lo + i].destination == S3(request.connectionId, request.bucket,
                                                       request.keys[batch.lo + i - batch.lo]);
      }
      forall k | batch.lo <= k < batch.hi ensures deletes[k].destination in PlacesOf(request) {
        assert request.keys[k - batch.lo] in request.keys;
      }
    }
  }

  /** A transfer can only succeed if its strategy handles its endpoints and there is something to read. A
      delete succeeds even where there is nothing to remove. */
  predicate Copies(source: Places, item: RunItem) {
    Handles(item.strategy, item.source, item.destination) && item.source in source
  }

  predicate Possible(plan: RunPlan, source: Places, w: World, event: Event) {
    && Wellformed(plan, w) && Enabled(w, event)
    && (event.TransferReturned? && event.ok ==> Copies(source, w.sentTransfers[event.index]))
  }

  /** What a completion has done, by the request that was sent. */

  function Effect(plan: RunPlan, source: Places, w: World, occurrence: Occurrence, store: Store): Store
    requires Possible(plan, source, w, occurrence.event)
  {
    match occurrence.event
    case TransferReturned(i, ok, _) =>
      var item := w.sentTransfers[i];
      if ok then store[LandsAt(item) := CopyOf(source[item.source])]
      else if occurrence.damage.residue then store[LandsAt(item) := Residue]
      else store
    case BatchReturned(j, ok, _) =>
      var places := PlacesOf(w.sentDeletes[j]);
      store - if ok then places else places * occurrence.damage.removed
  }

  /** A run with its effects, from `w` and `store` to `last` and `lastStore`. */
  ghost predicate IsStoreRun(settings: Settings, plan: RunPlan, source: Places,
                             w: World, store: Store, occurrences: seq<Occurrence>, last: World, lastStore: Store)
    decreases |occurrences|
  {
    if occurrences == [] then last == w && lastStore == store
    else
      && Possible(plan, source, w, occurrences[0].event)
      && IsStoreRun(settings, plan, source, Step(settings, plan, w, occurrences[0].event),
                    Effect(plan, source, w, occurrences[0], store), occurrences[1..], last, lastStore)
  }

  /** Every transfer of a run plan is carried out in a way that can reach its destination and lands there, and
      no two items act on one place. */
  ghost predicate WellAimed(plan: RunPlan) {
    && (forall i :: 0 <= i < |plan.transfers| ==> Reaches(plan.transfers[i]))
    && (forall i, j :: 0 <= i < j < |plan.transfers| ==> plan.transfers[i].destination != plan.transfers[j].destination)
    && (forall i, j :: 0 <= i < j < |plan.deletes| ==> plan.deletes[i].destination != plan.deletes[j].destination)
    && (forall i, k :: 0 <= i < |plan.transfers| && 0 <= k < |plan.deletes| ==>
          plan.transfers[i].destination != plan.deletes[k].destination)
  }

  predicate Reaches(item: RunItem) {
    Handles(item.strategy, item.source, item.destination) && LandsAt(item) == item.destination
  }

  /** A server-side copy between two connections would miss: it lands in the bucket of that name on the source's
      connection. Any other transfer lands where it is meant to. */
  lemma MissesIff(item: RunItem)
    requires Handles(item.strategy, item.source, item.destination)
    ensures Reaches(item) <==>
            !(item.strategy == ServerSideCopy && item.source.connectionId != item.destination.connectionId)
    ensures item.strategy == ServerSideCopy ==>
              LandsAt(item) == S3(item.source.connectionId, item.destination.bucket, item.destination.key)
  {
  }

  predicate IsTransferPlace(plan: RunPlan, place: Endpoint) {
    exists i :: 0 <= i < |plan.transfers| && plan.transfers[i].destination == place
  }

  predicate IsDeletePlace(plan: RunPlan, place: Endpoint) {
    exists k :: 0 <= k < |plan.deletes| && plan.deletes[k].destination == place
  }

  predicate Untouched(before: Store, store: Store, place: Endpoint) {
    (place in before <==> place in store) && (place in before ==> store[place] == before[place])
  }

  ghost predicate Elsewhere(plan: RunPlan, before: Store, store: Store) {
    forall place :: !IsTransferPlace(plan, place) && !IsDeletePlace(plan, place) ==> Untouched(before, store, place)
  }

  /** The destination place of transfer `i` is untouched until the transfer comes back, and holds a copy
      of the source object once it has succeeded. */
  ghost predicate TransferAt(plan: RunPlan, source: Places, before: Store, w: World, store: Store, i: nat)
    requires i < |plan.transfers|
  {
    var place := plan.transfers[i].destination;
    && (i >= |w.transfers| || w.transfers[i] == InFlight ==> Untouched(before, store, place))
    && (i < |w.transfers| && w.transfers[i] == Succeeded ==>
          && plan.transfers[i].source in source
          && place in store && store[place] == CopyOf(source[plan.transfers[i].source]))
  }

  /** The place of delete `k` is untouched while it is not issued. */
  ghost predicate UnissuedDeleteAt(plan: RunPlan, before: Store, w: World, store: Store, k: nat)
    requires k < |plan.deletes|
  {
    k >= w.exec.nextDelete ==> Untouched(before, store, plan.deletes[k].destination)
  }

  /** The places of batch `j` are untouched until it comes back, gone if it succeeded, and each untouched
      or gone if it failed. */
  ghost predicate BatchAtStore(plan: RunPlan, before: Store, w: World, store: Store, j: nat)
    requires Wellformed(plan, w) && j < |w.batches|
  {
    forall k :: w.batches[j].lo <= k < w.batches[j].hi ==>
      var place := plan.deletes[k].destination;
      && (w.batchStatus[j] == InFlight ==> Untouched(before, store, place))
      && (w.batchStatus[j] == Succeeded ==> place !in store)
      && (w.batchStatus[j] == Failed ==> place !in store || Untouched(before, store, place))
  }

  ghost predicate StoreInv(plan: RunPlan, source: Places, before: Store, w: World, store: Store) {
    && Wellformed(plan, w)
    && Elsewhere(plan, before, store)
    && (forall i :: 0 <= i < |plan.transfers| ==> TransferAt(plan, source, before, w, store, i))
    && (forall k :: 0 <= k < |plan.deletes| ==> UnissuedDeleteAt(plan, before, w, store, k))
    && (forall j :: 0 <= j < |w.batches| ==> BatchAtStore(plan, before, w, store, j))
  }

  // ----- Completions -----

  /** A returned transfer touches its own place only. */
  lemma TransferEffect(settings: Settings, plan: RunPlan, source: Places, before: Store,
                       w: World, store: Store, o: Occurrence)
    requires WellAimed(plan) && StoreInv(plan, source, before, w, store) && SentHolds(plan, w)
    requires o.event.TransferReturned? && Possible(plan, source, w, o.event)
    ensures StoreInv(plan, source, before, Finish(settings, plan, w, o.event), Effect(plan, source, w, o, store))
  {
    var next, after := Finish(settings, plan, w, o.event), Effect(plan, source, w, o, store);
    var own := plan.transfers[o.event.index].destination;
    assert w.sentTransfers[o.event.index] == plan.transfers[o.event.index];
    assert forall place :: place != own ==> Untouched(store, after, place);
    assert IsTransferPlace(plan, own);
    forall i | 0 <= i < |plan.transfers| ensures TransferAt(plan, source, before, next, after, i) {
      assert TransferAt(plan, source, before, w, store, i);
    }
    forall k | 0 <= k < |plan.deletes| ensures UnissuedDeleteAt(plan, before, next, after, k) {
      assert UnissuedDeleteAt(plan, before, w, store, k);
    }
    forall j | 0 <= j < |w.batches| ensures BatchAtStore(plan, before, next, after, j) {
      assert BatchAtStore(plan, before, w, store, j);
    }
  }

  /** Batches share no delete, so a returned batch touches no other batch's places. */
  ghost predicate BatchesApart(w: World) {
    && (forall j, k :: 0 <= j < k < |w.batches| ==> w.batches[j].hi <= w.batches[k].lo)
    && (forall j :: 0 <= j < |w.batches| ==> w.batches[j].hi <= w.exec.nextDelete)
  }

  /** What becomes of a place under a batch: nothing elsewhere; its own are gone if it succeeded, and each gone
      or as it was if not. */
  ghost predicate BatchTouches(store: Store, after: Store, places: set<Endpoint>, ok: bool) {
    && (forall place :: place !in places ==> Untouched(store, after, place))
    && (forall place :: place in places ==> place !in after || (!ok && Untouched(store, after, place)))
  }

  lemma BatchTouchesItsPlaces(plan: RunPlan, source: Places, w: World, store: Store, o: Occurrence)
    requires SentHolds(plan, w) && o.event.BatchReturned? && Possible(plan, source, w, o.event)
    ensures var own := w.batches[o.event.index];
            BatchTouches(store, Effect(plan, source, w, o, store), PlacesIn(plan.deletes, own.lo, own.hi), o.event.ok)
  {
    CarriedPlaces(plan.deletes, w.batches[o.event.index], w.sentDeletes[o.event.index]);
  }

  lemma OtherPlacesStay(plan: RunPlan, source: Places, before: Store, w: World, store: Store, after: Store,
                        own: Batch, ok: bool)
    requires WellAimed(plan) && StoreInv(plan, source, before, w, store)
    requires own.lo < own.hi <= |plan.deletes| && own.hi <= w.exec.nextDelete
    requires BatchTouches(store, after, PlacesIn(plan.deletes, own.lo, own.hi), ok)
    ensures Elsewhere(plan, before, after)
    ensures forall i :: 0 <= i < |plan.transfers| ==> TransferAt(plan, source, before, w, after, i)
    ensures forall k :: 0 <= k < |plan.deletes| ==> UnissuedDeleteAt(plan, before, w, after, k)
  {
    var places := PlacesIn(plan.deletes, own.lo, own.hi);
    assert forall place :: place in places ==> IsDeletePlace(plan, place);
    forall i | 0 <= i < |plan.transfers| ensures TransferAt(plan, source, before, w, after, i) {
      assert TransferAt(plan, source, before, w, store, i);
      assert plan.transfers[i].destination !in places;
    }
    forall k | 0 <= k < |plan.deletes| ensures UnissuedDeleteAt(plan, before, w, after, k) {
      assert UnissuedDeleteAt(plan, before, w, store, k);
      assert k >= own.hi ==> plan.deletes[k].destination !in places;
    }
  }

  lemma BatchEffect(settings: Settings, plan: RunPlan, source: Places, before: Store,
                    w: World, store: Store, o: Occurrence)
    requires WellAimed(plan) && StoreInv(plan, source, before, w, store) && BatchesApart(w)
    requires SentHolds(plan, w)
    requires o.event.BatchReturned? && Possible(plan, source, w, o.event)
    ensures StoreInv(plan, source, before, Finish(settings, plan, w, o.event), Effect(plan, source, w, o, store))
  {
    var next, after := Finish(settings, plan, w, o.event), Effect(plan, source, w, o, store);
    var own := w.batches[o.event.index];
    BatchTouchesItsPlaces(plan, source, w, store, o);
    OtherPlacesStay(plan, source, before, w, store, after, own, o.event.ok);
    forall i | 0 <= i < |plan.transfers| ensures TransferAt(plan, source, before, next, after, i) {
      assert TransferAt(plan, source, before, w, after, i);
    }
    forall k | 0 <= k < |plan.deletes| ensures UnissuedDeleteAt(plan, before, next, after, k) {
      assert UnissuedDeleteAt(plan, before, w, after, k);
    }
    forall j | 0 <= j < |w.batches| ensures BatchAtStore(plan, before, next, after, j) {
      assert BatchAtStore(plan, before, w, store, j);
      BatchDone(plan, before, w, store, after, o.event, j);
    }
  }

  /** A batch after some batch came back: its own, or another. */
  lemma BatchDone(plan: RunPlan, before: Store, w: World, store: Store, after: Store, event: Event, j: nat)
    requires WellAimed(plan) && Wellformed(plan, w) && BatchesApart(w)
    requires event.BatchReturned? && Enabled(w, event) && j < |w.batches| && BatchAtStore(plan, before, w, store, j)
    requires var own := w.batches[event.index];
             BatchTouches(store, after, PlacesIn(plan.deletes, own.lo, own.hi), event.ok)
    ensures BatchAtStore(plan, before, w.(batchStatus := w.batchStatus[event.index := Outcome(event.ok)]), after, j)
  {
    if j != event.index {
      BatchesDisjoint(plan, w, j, event.index);
    } else {
      OwnBatchDone(plan, before, w, store, after, event);
    }
  }

  lemma OwnBatchDone(plan: RunPlan, before: Store, w: World, store: Store, after: Store, event: Event)
    requires Wellformed(plan, w) && event.BatchReturned? && Enabled(w, event)
    requires BatchAtStore(plan, before, w, store, event.index)
    requires var own := w.batches[event.index];
             BatchTouches(store, after, PlacesIn(plan.deletes, own.lo, own.hi), event.ok)
    ensures var own := w.batches[event.index];
            forall k :: own.lo <= k < own.hi ==>
              var place := plan.deletes[k].destination;
              place !in after || (!event.ok && Untouched(before, after, place))
  {
    var own := w.batches[event.index];
    forall k | own.lo <= k < own.hi
      ensures var place := plan.deletes[k].destination;
              place !in after || (!event.ok && Untouched(before, after, place))
    {
      assert plan.deletes[k].destination in PlacesIn(plan.deletes, own.lo, own.hi);
    }
  }

  lemma BatchesDisjoint(plan: RunPlan, w: World, j: nat, own: nat)
    requires WellAimed(plan) && Wellformed(plan, w) && BatchesApart(w)
    requires j < |w.batches| && own < |w.batches| && j != own
    ensures forall k :: w.batches[j].lo <= k < w.batches[j].hi ==>
              plan.deletes[k].destination !in PlacesIn(plan.deletes, w.batches[own].lo, w.batches[own].hi)
  {
  }

  // ----- Dispatches -----

  lemma ApartFromChain(settings: Settings, plan: RunPlan, w: World)
    requires Accounts(settings, plan, w)
    ensures BatchesApart(w)
  {
    var n := |w.batches|;
    forall j, k | 0 <= j < k < n ensures w.batches[j].hi <= w.batches[k].lo {
      ChainOrdered(plan.deletes, w.batches, w.exec.nextDelete, j, k);
    }
    forall j | 0 <= j < n ensures w.batches[j].hi <= w.exec.nextDelete {
      assert IsBatch(plan.deletes, w.batches[n - 1]);
      assert j < n - 1 ==> w.batches[j].hi <= w.batches[n - 1].lo;
    }
  }

  lemma {:induction false} NewBatchesStartAt(deletes: seq<RunItem>, next: nat, active: nat, workers: nat)
    ensures forall b :: b in NewBatches(deletes, next, active, workers) ==> next <= b.lo && IsBatch(deletes, b)
    decreases |deletes| - next
  {
    if active < workers && next < |deletes| {
      NewBatchesStartAt(deletes, BatchAt(deletes, next).hi, active + 1, workers);
    }
  }

  /** A batch of deletes that were not issued before is as it was. */
  lemma UnissuedBatch(plan: RunPlan, source: Places, before: Store, w: World, store: Store, next: World, j: nat)
    requires StoreInv(plan, source, before, w, store) && Wellformed(plan, next) && j < |next.batches|
    requires w.exec.nextDelete <= next.batches[j].lo && next.batchStatus[j] == InFlight
    ensures BatchAtStore(plan, before, next, store, j)
  {
    forall k | next.batches[j].lo <= k < next.batches[j].hi
      ensures Untouched(before, store, plan.deletes[k].destination)
    {
      assert UnissuedDeleteAt(plan, before, w, store, k);
    }
  }

  /** A later state with the same outcomes so far, and new tasks in flight. */
  ghost predicate GoesOn(w: World, next: World, more: seq<Batch>) {
    && |w.transfers| <= |next.transfers| && w.exec.nextDelete <= next.exec.nextDelete
    && (forall i :: 0 <= i < |w.transfers| ==> next.transfers[i] == w.transfers[i])
    && (forall i :: |w.transfers| <= i < |next.transfers| ==> next.transfers[i] == InFlight)
    && next.batches == w.batches + more && |next.batchStatus| == |next.batches| && |w.batchStatus| == |w.batches|
    && (forall j :: 0 <= j < |w.batches| ==> next.batchStatus[j] == w.batchStatus[j])
    && (forall j :: |w.batches| <= j < |next.batches| ==>
          next.batchStatus[j] == InFlight && w.exec.nextDelete <= next.batches[j].lo)
  }

  lemma DispatchGoesOn(settings: Settings, plan: RunPlan, workers: Workers, w: World)
    requires Wellformed(plan, w)
    ensures GoesOn(w, SyncRuns.Dispatched(settings, plan, workers, w),
                   Issue(plan, workers, Settle(settings, plan, w.exec)).batches)
  {
    var settled := Settled(settings, plan, w);
    var d := Issue(plan, workers, settled.exec);
    NewBatchesStartAt(plan.deletes, w.exec.nextDelete, w.exec.activeBatches, workers.deletes);
    NewBatchesCost(plan.deletes, w.exec.nextDelete, w.exec.activeBatches, workers.deletes);
    forall j | 0 <= j < |d.batches| ensures w.exec.nextDelete <= d.batches[j].lo {
      assert d.batches[j] in d.batches;
    }
  }

  lemma GoingOnHasNoEffect(plan: RunPlan, source: Places, before: Store, w: World, store: Store, next: World,
                           more: seq<Batch>)
    requires StoreInv(plan, source, before, w, store) && GoesOn(w, next, more) && Wellformed(plan, next)
    ensures StoreInv(plan, source, before, next, store)
  {
    forall i | 0 <= i < |plan.transfers| ensures TransferAt(plan, source, before, next, store, i) {
      assert TransferAt(plan, source, before, w, store, i);
    }
    forall k | 0 <= k < |plan.deletes| ensures UnissuedDeleteAt(plan, before, next, store, k) {
      assert UnissuedDeleteAt(plan, before, w, store, k);
    }
    forall j | 0 <= j < |next.batches| ensures BatchAtStore(plan, before, next, store, j) {
      if j < |w.batches| {
        assert BatchAtStore(plan, before, w, store, j);
      } else {
        UnissuedBatch(plan, source, before, w, store, next, j);
      }
    }
  }

  /** Issuing has no effect yet. */
  lemma DispatchHasNoEffect(settings: Settings, plan: RunPlan, source: Places, before: Store,
                            workers: Workers, w: World, store: Store)
    requires StoreInv(plan, source, before, w, store) && Inv(settings, plan, w)
    ensures StoreInv(plan, source, before, SyncRuns.Dispatched(settings, plan, workers, w), store)
  {
    SettleKeepsInv(settings, plan, w);
    IssueKeepsInv(settings, plan, workers, Settled(settings, plan, w));
    DispatchGoesOn(settings, plan, workers, w);
    GoingOnHasNoEffect(plan, source, before, w, store, SyncRuns.Dispatched(settings, plan, workers, w),
                       Issue(plan, workers, Settle(settings, plan, w.exec)).batches);
  }

  // ----- Every run -----

  lemma StepKeepsStoreInv(settings: Settings, plan: RunPlan, source: Places, before: Store,
                          w: World, store: Store, o: Occurrence)
    requires WellAimed(plan) && StoreInv(plan, source, before, w, store)
    requires Inv(settings, plan, w) && Possible(plan, source, w, o.event)
    ensures StoreInv(plan, source, before, Step(settings, plan, w, o.event), Effect(plan, source, w, o, store))
  {
    if o.event.TransferReturned? {
      TransferEffect(settings, plan, source, before, w, store, o);
    } else {
      ApartFromChain(settings, plan, w);
      BatchEffect(settings, plan, source, before, w, store, o);
    }
    FinishKeepsInv(settings, plan, w, o.event);
    DispatchHasNoEffect(settings, plan, source, before, o.event.workers, Finish(settings, plan, w, o.event),
                        Effect(plan, source, w, o, store));
  }

  lemma {:induction false} RunKeepsStoreInv(settings: Settings, plan: RunPlan, source: Places, before: Store,
                                            w: World, store: Store, os: seq<Occurrence>, last: World, lastStore: Store)
    requires WellAimed(plan) && StoreInv(plan, source, before, w, store)
    requires Inv(settings, plan, w)
    requires IsStoreRun(settings, plan, source, w, store, os, last, lastStore)
    ensures StoreInv(plan, source, before, last, lastStore) && Inv(settings, plan, last)
    decreases |os|
  {
    if os != [] {
      StepKeepsStoreInv(settings, plan, source, before, w, store, os[0]);
      StepKeepsInv(settings, plan, w, os[0].event);
      RunKeepsStoreInv(settings, plan, source, before, Step(settings, plan, w, os[0].event),
                       Effect(plan, source, w, os[0], store), os[1..], last, lastStore);
    }
  }

  /** The runs of a plan on a destination: some positive worker limits, some completions. */
  ghost predicate RanTo(settings: Settings, plan: RunPlan, source: Places, before: Store,
                        last: World, lastStore: Store)
  {
    exists workers, os ::
      && Positive(workers)
      && IsStoreRun(settings, plan, source, Start(settings, plan, workers), before, os, last, lastStore)
  }

  lemma StartStoreInv(settings: Settings, plan: RunPlan, workers: Workers, source: Places, before: Store)
    requires Positive(workers)
    ensures StoreInv(plan, source, before, Start(settings, plan, workers), before)
    ensures Inv(settings, plan, Start(settings, plan, workers))
  {
    var idle := Unsent(settings, plan);
    assert StoreInv(plan, source, before, idle, before);
    assert Inv(settings, plan, idle);
    DispatchHasNoEffect(settings, plan, source, before, workers, idle, before);
    StartInv(settings, plan, workers);
  }

  lemma RanToInv(settings: Settings, plan: RunPlan, source: Places, before: Store, last: World, lastStore: Store)
    requires WellAimed(plan) && RanTo(settings, plan, source, before, last, lastStore)
    ensures StoreInv(plan, source, before, last, lastStore) && Inv(settings, plan, last)
  {
    var workers, os :|
      && Positive(workers)
      && IsStoreRun(settings, plan, source, Start(settings, plan, workers), before, os, last, lastStore);
    StartStoreInv(settings, plan, workers, source, before);
    RunKeepsStoreInv(settings, plan, source, before, Start(settings, plan, workers), before, os, last, lastStore);
  }

  /** A run with effects is a run. */
  lemma {:induction false} StoreRunIsRun(settings: Settings, plan: RunPlan, source: Places,
                                         w: World, store: Store, os: seq<Occurrence>, last: World, lastStore: Store)
    returns (events: seq<Event>)
    requires IsStoreRun(settings, plan, source, w, store, os, last, lastStore)
    ensures IsRun(settings, plan, w, events, last)
    decreases |os|
  {
    if os == [] {
      events := [];
    } else {
      var rest := StoreRunIsRun(settings, plan, source, Step(settings, plan, w, os[0].event),
                                Effect(plan, source, w, os[0], store), os[1..], last, lastStore);
      events := [os[0].event] + rest;
      assert events[1..] == rest;
    }
  }

  lemma RanToIsReachable(settings: Settings, plan: RunPlan, source: Places, before: Store, last: World,
                         lastStore: Store)
    requires RanTo(settings, plan, source, before, last, lastStore)
    ensures Reachable(settings, plan, last)
  {
    var workers, os :|
      && Positive(workers)
      && IsStoreRun(settings, plan, source, Start(settings, plan, workers), before, os, last, lastStore);
    var events := StoreRunIsRun(settings, plan, source, Start(settings, plan, workers), before, os, last, lastStore);
  }

  /** Whatever fails, a run touches planned places only. */
  lemma OnlyPlannedPlacesChange(settings: Settings, plan: RunPlan, source: Places, before: Store,
                               last: World, lastStore: Store, place: Endpoint)
    requires WellAimed(plan) && RanTo(settings, plan, source, before, last, lastStore)
    requires !IsTransferPlace(plan, place) && !IsDeletePlace(plan, place)
    ensures Untouched(before, lastStore, place)
  {
    RanToInv(settings, plan, source, before, last, lastStore);
  }

  /** Deletes after the copy are fail-safe on the store itself: if any transfer has failed and errors
      count, every object planned for deletion is still there as it was. */
  lemma FailedCopyDeletesNothing(settings: Settings, plan: RunPlan, source: Places, before: Store,
                                 last: World, lastStore: Store, i: nat, place: Endpoint)
    requires WellAimed(plan) && RanTo(settings, plan, source, before, last, lastStore)
    requires settings.mode.Sync? && settings.deletePhase == DeleteAfter && !settings.ignoreErrors
    requires i < |last.transfers| && last.transfers[i] == Failed
    requires IsDeletePlace(plan, place)
    ensures Untouched(before, lastStore, place)
  {
    RanToInv(settings, plan, source, before, last, lastStore);
    RanToIsReachable(settings, plan, source, before, last, lastStore);
    FailedTransferSkipsDeletes(settings, plan, last, i);
    var k :| 0 <= k < |plan.deletes| && plan.deletes[k].destination == place;
    assert UnissuedDeleteAt(plan, before, last, lastStore, k);
  }

  /** Did everything the run issued succeed? */
  predicate Clean(w: World) {
    w.exec.failedTransfers == 0 && w.exec.failedDeletes == 0
  }

  lemma {:induction false} ChainCovers(deletes: seq<RunItem>, batches: seq<Batch>, next: nat, k: nat) returns (j: nat)
    requires Chain(deletes, batches, next) && k < next
    ensures j < |batches| && batches[j].lo <= k < batches[j].hi
    decreases |batches|
  {
    ChainFront(deletes, batches, next);
    var last := batches[|batches| - 1];
    if last.lo <= k {
      j := |batches| - 1;
    } else {
      j := ChainCovers(deletes, batches[..|batches| - 1], last.lo, k);
    }
  }

  lemma CleanMeansSucceeded(settings: Settings, plan: RunPlan, w: World)
    requires Inv(settings, plan, w) && w.exec.phase == Done && Clean(w)
    ensures |w.transfers| == |plan.transfers|
    ensures forall i :: 0 <= i < |w.transfers| ==> w.transfers[i] == Succeeded
    ensures forall j :: 0 <= j < |w.batchStatus| ==> w.batchStatus[j] == Succeeded
    ensures w.exec.nextDelete == if settings.mode.Copy? then 0 else |plan.deletes|
  {
    CountZero(w.transfers, InFlight);
    CountZero(w.transfers, Failed);
    CountZero(w.batchStatus, InFlight);
    CountZero(w.batchStatus, Failed);
  }

  lemma DeleteAfterCleanRun(settings: Settings, plan: RunPlan, source: Places, before: Store,
                            last: World, lastStore: Store, k: nat)
    requires StoreInv(plan, source, before, last, lastStore) && Inv(settings, plan, last)
    requires last.exec.phase == Done && Clean(last) && k < |plan.deletes|
    ensures var place := plan.deletes[k].destination;
            if settings.mode.Copy? then Untouched(before, lastStore, place) else place !in lastStore
  {
    CleanMeansSucceeded(settings, plan, last);
    if settings.mode.Copy? {
      assert UnissuedDeleteAt(plan, before, last, lastStore, k);
    } else {
      var j := ChainCovers(plan.deletes, last.batches, last.exec.nextDelete, k);
      assert BatchAtStore(plan, before, last, lastStore, j);
    }
  }

  /** A clean run that is done has written every transfer, removed every planned delete of a sync, and
      left everything else alone. */
  lemma CleanRunDoesThePlan(settings: Settings, plan: RunPlan, source: Places, before: Store,
                            last: World, lastStore: Store)
    requires WellAimed(plan) && RanTo(settings, plan, source, before, last, lastStore)
    requires last.exec.phase == Done && Clean(last)
    ensures forall i :: 0 <= i < |plan.transfers| ==>
              var item := plan.transfers[i];
              && item.source in source
              && item.destination in lastStore && lastStore[item.destination] == CopyOf(source[item.source])
    ensures forall place :: IsDeletePlace(plan, place) ==>
              if settings.mode.Copy? then Untouched(before, lastStore, place) else place !in lastStore
    ensures forall place :: !IsTransferPlace(plan, place) && !IsDeletePlace(plan, place) ==>
              Untouched(before, lastStore, place)
  {
    RanToInv(settings, plan, source, before, last, lastStore);
    CleanMeansSucceeded(settings, plan, last);
    forall i | 0 <= i < |plan.transfers|
      ensures var item := plan.transfers[i];
              && item.source in source
              && item.destination in lastStore && lastStore[item.destination] == CopyOf(source[item.source])
    {
      assert TransferAt(plan, source, before, last, lastStore, i);
    }
    forall place | IsDeletePlace(plan, place)
      ensures if settings.mode.Copy? then Untouched(before, lastStore, place) else place !in lastStore
    {
      var k :| 0 <= k < |plan.deletes| && plan.deletes[k].destination == place;
      DeleteAfterCleanRun(settings, plan, source, before, last, lastStore, k);
    }
  }

  /** Clean runs exist: if there is something to read for every transfer, a run can go on to its end with
      every task a success. */
  lemma {:induction false} CleanRunFrom(settings: Settings, plan: RunPlan, source: Places, w: World, store: Store)
    returns (os: seq<Occurrence>, last: World, lastStore: Store)
    requires Inv(settings, plan, w) && Live(w) && Clean(w)
    requires forall i :: 0 <= i < |plan.transfers| ==> Copies(source, plan.transfers[i])
    ensures IsStoreRun(settings, plan, source, w, store, os, last, lastStore)
    ensures last.exec.phase == Done && Clean(last)
    decreases Measure(plan, w.exec)
  {
    CountZero(w.transfers, InFlight);
    CountZero(w.batchStatus, InFlight);
    if Quiet(w) {
      return [], w, store;
    }
    var event;
    if i :| 0 <= i < |w.transfers| && w.transfers[i] == InFlight {
      event := TransferReturned(i, true, Workers(1, 1));
    } else {
      var j :| 0 <= j < |w.batchStatus| && w.batchStatus[j] == InFlight;
      event := BatchReturned(j, true, Workers(1, 1));
    }
    var o := Occurrence(event, Damage(false, {}));
    StepLowersMeasure(settings, plan, w, event);
    StepKeepsInv(settings, plan, w, event);
    SuccessKeepsClean(settings, plan, w, event);
    var rest;
    rest, last, lastStore := CleanRunFrom(settings, plan, source, Step(settings, plan, w, event),
                                          Effect(plan, source, w, o, store));
    os := [o] + rest;
    assert os[1..] == rest;
  }

  lemma SuccessKeepsClean(settings: Settings, plan: RunPlan, w: World, event: Event)
    requires Wellformed(plan, w) && Enabled(w, event) && Clean(w) && event.ok
    ensures Clean(Step(settings, plan, w, event))
  {
  }

  lemma CleanRunExists(settings: Settings, plan: RunPlan, source: Places, before: Store)
    returns (last: World, lastStore: Store)
    requires forall i :: 0 <= i < |plan.transfers| ==> Copies(source, plan.transfers[i])
    ensures RanTo(settings, plan, source, before, last, lastStore)
    ensures last.exec.phase == Done && Clean(last)
  {
    var workers := Workers(1, 1);
    var first := Start(settings, plan, workers);
    StartInv(settings, plan, workers);
    StartIsClean(settings, plan, workers);
    var os;
    os, last, lastStore := CleanRunFrom(settings, plan, source, first, before);
    CleanRunReaches(settings, plan, source, before, workers, os, last, lastStore);
  }

  lemma StartIsClean(settings: Settings, plan: RunPlan, workers: Workers)
    ensures Clean(Start(settings, plan, workers))
  {
  }

  lemma {:induction false} CleanRunReaches(settings: Settings, plan: RunPlan, source: Places, before: Store,
                                           workers: Workers, os: seq<Occurrence>, last: World, lastStore: Store)
    requires Positive(workers)
    requires IsStoreRun(settings, plan, source, Start(settings, plan, workers), before, os, last, lastStore)
    ensures RanTo(settings, plan, source, before, last, lastStore)
  {
  }
}

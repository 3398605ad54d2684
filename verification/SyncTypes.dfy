/** The values the sync planner and executor exchange. */
module SyncTypes {
  import opened Wrappers

  datatype SyncMode = Diff | Copy | Sync

  datatype DestinationNewerPolicy = SourceWins | SkipNewer | ConflictNewer

  datatype DeletePhase = DeleteBefore | DeleteDuring | DeleteAfter

  datatype SyncPolicy = SyncPolicy(
    overwriteChanged: bool,
    deleteExtras: bool,
    destinationNewer: DestinationNewerPolicy,
    deletePhase: DeletePhase)

  datatype CompareMode =
    | SizeOnly
    | SizeAndModTime
    | UpdateIfSourceNewer
    | ChecksumIfAvailable
    | AlwaysOverwrite

  /** One listed object. `size` is unbounded here. */
  datatype SyncObject = SyncObject(
    relativePath: string,
    size: nat,
    modified: Option<string>,
    etag: Option<string>)

  datatype PlanAction = Create | Update | Delete | Skip | Conflict

  datatype PlanReason =
    | MissingOnDestination
    | MissingOnSource
    | SizeMismatch
    | SourceNewer
    | DestinationNewer
    | ChecksumMismatch
    | Identical

  datatype PlanItem = PlanItem(
    action: PlanAction,
    reason: PlanReason,
    relativePath: string,
    source: Option<SyncObject>,
    destination: Option<SyncObject>)

  datatype PlanSummary = PlanSummary(
    creates: nat,
    updates: nat,
    deletes: nat,
    skips: nat,
    conflicts: nat,
    bytesToCreate: nat,
    bytesToUpdate: nat,
    bytesToDelete: nat,
    sourceScanned: nat,
    destinationScanned: nat)

  datatype SyncPlan = SyncPlan(items: seq<PlanItem>, summary: PlanSummary)

  /** A local endpoint is a root directory and a path below it, joined by the file system. */
  datatype Endpoint =
    | S3(connectionId: string, bucket: string, key: string)
    | Local(root: string, path: string)

  datatype Strategy = Upload | Download | ServerSideCopy | ClientRelay | DeleteRemote | DeleteLocal

  datatype RunItem = RunItem(
    relativePath: string,
    action: PlanAction,
    source: Endpoint,
    destination: Endpoint,
    strategy: Strategy,
    bytes: nat)

  datatype RunPlan = RunPlan(
    transfers: seq<RunItem>,
    deletes: seq<RunItem>,
    totalTransferBytes: nat,
    totalDeleteBytes: nat,
    hasClientRelay: bool)

  function SumBytes(items: seq<RunItem>): nat {
    if items == [] then 0 else SumBytes(items[..|items| - 1]) + items[|items| - 1].bytes
  }

  lemma {:induction false} SumBytesConcat(a: seq<RunItem>, b: seq<RunItem>)
    ensures SumBytes(a + b) == SumBytes(a) + SumBytes(b)
  {
    if b == [] {
      assert a + b == a;
    } else {
      assert (a + b)[..|a + b| - 1] == a + b[..|b| - 1];
      SumBytesConcat(a, b[..|b| - 1]);
    }
  }
}

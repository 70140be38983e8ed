/** The backup workflow of `main.py`: for every configured instance and then
    every configured cluster, copy the latest automated snapshot into the
    target region and prune the manual copies there down to `keep`.
 */
module Backup {
  import opened Lexicographic
  import opened Snapshots
  import opened Naming
  import opened Retention
  import opened Service

  /** The module-level constants `SOURCE_REGION`, `SOURCE_DB`,
      `SOURCE_CLUSTER`, `DEST_KMS` and `KEEP`. */
  datatype Config = Config(
    sourceRegion: string,
    sourceDb: seq<string>,
    sourceCluster: seq<string>,
    destKms: string,
    keep: nat)

  /** The values the repository ships with. */
  const Shipped: Config := Config(
    "eu-west-1",
    ["my-rds-instance"],
    ["my-aurora-cluster", "my-second-cluster"],
    "arn:aws:kms:eu-central-1:ABC123:key/abc123",
    10)

  /** `event["region"]` (the target region) and `event["account"]`. */
  datatype Event = Event(region: string, account: string)

  /** One resource to back up. */
  datatype Task = Task(kind: Kind, name: string)

  /** The listing call for `name`'s snapshots of one type. */
  function Describe(kind: Kind, region: string, snapshotType: SnapshotType, name: string): (c: Call)
  {
    match kind
    case Instance => DescribeDbSnapshots(region, snapshotType, name)
    case Cluster => DescribeDbClusterSnapshots(region, snapshotType, name)
  }

  /** The listing of automated snapshots, made with the source client. */
  function SourceDescribe(cfg: Config, task: Task): (c: Call)
  {
    Describe(task.kind, cfg.sourceRegion, Automated, task.name)
  }

  /** The copy call for the selected source snapshot. The instance copy also
      passes `CopyTags=True`; both pass `KmsKeyId=DEST_KMS`. */
  function CopyCall(cfg: Config, event: Event, kind: Kind, sourceId: string): (c: Call)
  {
    var arn := SourceArn(cfg.sourceRegion, event.account, kind, sourceId);
    match kind
    case Instance => CopyDbSnapshot(event.region, arn, TargetId(sourceId), cfg.destKms, true, cfg.sourceRegion)
    case Cluster => CopyDbClusterSnapshot(event.region, arn, TargetId(sourceId), cfg.destKms, cfg.sourceRegion)
  }

  /** What a rejected copy raises: the instance copy sits in a `try` that
      wraps client errors; the cluster copy has none. */
  function CopyFailure(kind: Kind, failure: Failure): (e: Exception)
  {
    match kind
    case Instance => Wrap(failure, CopyIssue)
    case Cluster => Propagated(failure)
  }

  /** Both kinds delete through `delete_db_snapshot`; clusters pass the
      identifier as `DBClusterSnapshotIdentifier`. */
  function DeleteCall(region: string, kind: Kind, id: string): (c: Call)
  {
    match kind
    case Instance => DeleteDbSnapshot(region, DBSnapshotIdentifier(id))
    case Cluster => DeleteDbSnapshot(region, DBClusterSnapshotIdentifier(id))
  }

  /** One delete call per doomed copy, in order. */
  function DeleteCalls(region: string, kind: Kind, doomed: seq<Snapshot>): (calls: seq<Call>)
  {
    seq(|doomed|, i requires 0 <= i < |doomed| => DeleteCall(region, kind, doomed[i].identifier))
  }

  /** The deletion loop: one delete per doomed copy, stopping at the first
      one the service rejects. The calls it makes are always a prefix of the
      full delete list, and it completes exactly when every delete is
      accepted. */
  function DeleteAll(svc: Remote, region: string, kind: Kind, doomed: seq<Snapshot>, trace: seq<Call>): (r: Run)
    ensures trace <= r.trace
    ensures r.trace[|trace|..] <= DeleteCalls(region, kind, doomed)
    ensures r.outcome.Completed? <==> AllAccepted(svc, trace, DeleteCalls(region, kind, doomed))
    ensures r.outcome.Completed? ==> r.trace == trace + DeleteCalls(region, kind, doomed)
    decreases |doomed|
  {
    if |doomed| == 0 then Run(trace, Completed)
    else
      var id := doomed[0].identifier;
      var delete := DeleteCall(region, kind, id);
      DeleteCallsCons(region, kind, doomed);
      match svc.reply(trace, delete)
      case Rejected(f) =>
        Run(trace + [delete], Raised(Wrap(f, DeleteIssue(id))))
      case Accepted =>
        var r := DeleteAll(svc, region, kind, doomed[1..], trace + [delete]);
        PrefixStep(trace, delete, r.trace, DeleteCalls(region, kind, doomed[1..]));
        r
  }

  lemma DeleteCallsCons(region: string, kind: Kind, doomed: seq<Snapshot>)
    requires |doomed| > 0
    ensures DeleteCalls(region, kind, doomed)
            == [DeleteCall(region, kind, doomed[0].identifier)] + DeleteCalls(region, kind, doomed[1..])
  {
  }

  /** A trace that extends `trace + [c]` by a prefix of `rest` extends
      `trace` by a prefix of `[c] + rest`. */
  lemma PrefixStep(trace: seq<Call>, c: Call, after: seq<Call>, rest: seq<Call>)
    requires trace + [c] <= after && after[|trace| + 1..] <= rest
    ensures trace <= after
    ensures after[|trace|..] == [c] + after[|trace| + 1..]
    ensures after[|trace|..] <= [c] + rest
  {
    assert after[..|trace|] == (trace + [c])[..|trace|];
  }

  /** When the loop raises, it has made the first `m` delete calls: every one
      before the `m`-th was accepted, the `m`-th was rejected, and the
      exception names the copy that could not be deleted. */
  lemma {:induction false} DeleteAllHaltsAtFirstRejection(svc: Remote, region: string, kind: Kind,
                                                          doomed: seq<Snapshot>, trace: seq<Call>)
    returns (m: nat)
    requires DeleteAll(svc, region, kind, doomed, trace).outcome.Raised?
    ensures 0 < m <= |doomed|
    ensures DeleteAll(svc, region, kind, doomed, trace).trace == trace + DeleteCalls(region, kind, doomed)[..m]
    ensures AllAccepted(svc, trace, DeleteCalls(region, kind, doomed)[..m - 1])
    ensures var calls := DeleteCalls(region, kind, doomed);
            var reply := svc.reply(trace + calls[..m - 1], calls[m - 1]);
            && reply.Rejected?
            && DeleteAll(svc, region, kind, doomed, trace).outcome.exception
               == Wrap(reply.failure, DeleteIssue(doomed[m - 1].identifier))
    decreases |doomed|
  {
    var delete := DeleteCall(region, kind, doomed[0].identifier);
    var calls := DeleteCalls(region, kind, doomed);
    var rest := DeleteCalls(region, kind, doomed[1..]);
    DeleteCallsCons(region, kind, doomed);
    if svc.reply(trace, delete).Rejected? {
      m := 1;
      assert calls[..1] == [delete] && calls[..0] == [];
      assert trace + calls[..0] == trace;
    } else {
      var k := DeleteAllHaltsAtFirstRejection(svc, region, kind, doomed[1..], trace + [delete]);
      m := k + 1;
      var r := DeleteAll(svc, region, kind, doomed[1..], trace + [delete]);
      assert DeleteAll(svc, region, kind, doomed, trace) == r;
      HaltStep(svc, trace, delete, rest, calls, k, r.trace);
    }
  }

  /** Moving the halting point of the loop one delete further back. */
  lemma HaltStep(svc: Remote, trace: seq<Call>, delete: Call, rest: seq<Call>, calls: seq<Call>, k: nat,
                 after: seq<Call>)
    requires calls == [delete] + rest && 0 < k <= |rest|
    requires svc.reply(trace, delete).Accepted?
    requires after == trace + [delete] + rest[..k]
    requires AllAccepted(svc, trace + [delete], rest[..k - 1])
    ensures after == trace + calls[..k + 1]
    ensures AllAccepted(svc, trace, calls[..k])
    ensures trace + calls[..k] == trace + [delete] + rest[..k - 1]
    ensures calls[k] == rest[k - 1]
  {
    ConsSlices(delete, rest, calls, k);
    AcceptedCons(svc, trace, delete, rest[..k - 1]);
  }

  lemma ConsSlices(c: Call, rest: seq<Call>, calls: seq<Call>, k: nat)
    requires calls == [c] + rest && 0 < k <= |rest|
    ensures calls[..k + 1] == [c] + rest[..k]
    ensures calls[..k] == [c] + rest[..k - 1]
    ensures calls[k] == rest[k - 1]
  {
  }

  lemma AcceptedCons(svc: Remote, history: seq<Call>, c: Call, rest: seq<Call>)
    ensures AllAccepted(svc, history, [c] + rest)
            <==> svc.reply(history, c).Accepted? && AllAccepted(svc, history + [c], rest)
  {
    assert ([c] + rest)[0] == c && ([c] + rest)[1..] == rest;
  }

  /** Lists the manual copies of `name` in the target region and deletes all
      but the `keep` newest. */
  function PruneCopies(cfg: Config, event: Event, svc: Remote, now: string, kind: Kind, name: string,
                       trace: seq<Call>): (r: Run)
    ensures trace < r.trace
    ensures r.trace[|trace|] == Describe(kind, event.region, Manual, name)
    ensures forall i :: |trace| < i < |r.trace| ==> r.trace[i].DeleteDbSnapshot?
  {
    var describe := Describe(kind, event.region, Manual, name);
    var afterDescribe := trace + [describe];
    match svc.reply(trace, describe)
    case Rejected(f) => Run(afterDescribe, Raised(Propagated(f)))
    case Accepted =>
      var doomed := PruneTargets(svc.listing(trace, describe), cfg.keep, now);
      var r := DeleteAll(svc, event.region, kind, doomed, afterDescribe);
      DeletesOnly(event.region, kind, doomed, afterDescribe, r.trace);
      r
  }

  lemma DeletesOnly(region: string, kind: Kind, doomed: seq<Snapshot>, before: seq<Call>, after: seq<Call>)
    requires before <= after && after[|before|..] <= DeleteCalls(region, kind, doomed)
    ensures forall i :: |before| <= i < |after| ==> after[i].DeleteDbSnapshot?
  {
    forall i | |before| <= i < |after|
      ensures after[i].DeleteDbSnapshot?
    {
      assert after[i] == after[|before|..][i - |before|];
    }
  }

  /** `copy_rds_snapshots` (kind `Instance`) and `copy_cluster_snapshots`
      (kind `Cluster`). */
  function CopySnapshots(cfg: Config, event: Event, svc: Remote, now: string, kind: Kind, name: string,
                         trace: seq<Call>): (r: Run)
    ensures trace < r.trace
    ensures r.trace[|trace|] == Describe(kind, cfg.sourceRegion, Automated, name)
    ensures forall i :: |trace| < i < |r.trace| ==> !IsSourceDescribe(r.trace[i])
  {
    var describe := Describe(kind, cfg.sourceRegion, Automated, name);
    var afterDescribe := trace + [describe];
    match svc.reply(trace, describe)
    case Rejected(f) => Run(afterDescribe, Raised(Propagated(f)))
    case Accepted =>
      var sourceSnaps := svc.listing(trace, describe);
      if |sourceSnaps| == 0 then Run(afterDescribe, Completed)
      else
        var copy := CopyCall(cfg, event, kind, LatestIdentifier(sourceSnaps));
        var afterCopy := afterDescribe + [copy];
        match svc.reply(afterDescribe, copy)
        case Rejected(f) => Run(afterCopy, Raised(CopyFailure(kind, f)))
        case Accepted => PruneCopies(cfg, event, svc, now, kind, name, afterCopy)
  }

  /** One resource's copy-and-prune. */
  function RunTask(cfg: Config, event: Event, svc: Remote, now: string, task: Task, trace: seq<Call>): (r: Run)
    ensures trace < r.trace
  {
    CopySnapshots(cfg, event, svc, now, task.kind, task.name, trace)
  }

  /** `RunTask` with the invocation's configuration, event, service and
      clock reading fixed. */
  function TaskStep(cfg: Config, event: Event, svc: Remote, now: string): (step: (Task, seq<Call>) -> Run)
  {
    (task, trace) => RunTask(cfg, event, svc, now, task, trace)
  }

  /** A `for` loop over the tasks: runs `step` on each in order, and an
      exception from one ends the loop. */
  function RunTasks(step: (Task, seq<Call>) -> Run, tasks: seq<Task>, trace: seq<Call>): (r: Run)
    decreases |tasks|
  {
    if |tasks| == 0 then Run(trace, Completed)
    else
      var first := step(tasks[0], trace);
      if first.outcome.Raised? then first
      else RunTasks(step, tasks[1..], first.trace)
  }

  function InstanceTasks(names: seq<string>): (tasks: seq<Task>)
  {
    seq(|names|, i requires 0 <= i < |names| => Task(Instance, names[i]))
  }

  function ClusterTasks(names: seq<string>): (tasks: seq<Task>)
  {
    seq(|names|, i requires 0 <= i < |names| => Task(Cluster, names[i]))
  }

  /** Every configured instance in order, then every configured cluster. */
  function AllTasks(cfg: Config): (tasks: seq<Task>)
  {
    InstanceTasks(cfg.sourceDb) + ClusterTasks(cfg.sourceCluster)
  }

  /** `lambda_handler`: the instance loop, then the cluster loop; an exception
      anywhere ends the invocation. */
  function LambdaHandler(cfg: Config, event: Event, svc: Remote, now: string): (r: Run)
  {
    var step := TaskStep(cfg, event, svc, now);
    var instances := RunTasks(step, InstanceTasks(cfg.sourceDb), []);
    if instances.outcome.Raised? then instances
    else RunTasks(step, ClusterTasks(cfg.sourceCluster), instances.trace)
  }
}

/** Properties of one resource's copy-and-prune and of the handler's
    sequencing over resources. */
module BackupProperties {
  import opened Snapshots
  import opened Naming
  import opened Retention
  import opened Service
  import opened Backup

  /** No automated snapshot: the source listing is the only call, and the
      run completes without copying, listing the target or deleting. */
  lemma EmptySourceIsNoOp(cfg: Config, event: Event, svc: Remote, now: string, task: Task, trace: seq<Call>)
    requires svc.reply(trace, SourceDescribe(cfg, task)).Accepted?
    requires |svc.listing(trace, SourceDescribe(cfg, task))| == 0
    ensures RunTask(cfg, event, svc, now, task, trace) == Run(trace + [SourceDescribe(cfg, task)], Completed)
  {
  }

  /** The source listing has no `try`: if it is rejected, the failure escapes
      unwrapped and the listing is the resource's only call. */
  lemma SourceListingRejected(cfg: Config, event: Event, svc: Remote, now: string, task: Task, trace: seq<Call>)
    requires svc.reply(trace, SourceDescribe(cfg, task)).Rejected?
    ensures RunTask(cfg, event, svc, now, task, trace)
            == Run(trace + [SourceDescribe(cfg, task)],
                   Raised(Propagated(svc.reply(trace, SourceDescribe(cfg, task)).failure)))
  {
  }

  /** The target listing has no `try` either: if it is rejected, the failure
      escapes unwrapped and nothing is deleted. */
  lemma TargetListingRejected(cfg: Config, event: Event, svc: Remote, now: string, kind: Kind, name: string,
                              trace: seq<Call>)
    requires svc.reply(trace, Describe(kind, event.region, Manual, name)).Rejected?
    ensures var target := Describe(kind, event.region, Manual, name);
            PruneCopies(cfg, event, svc, now, kind, name, trace)
            == Run(trace + [target], Raised(Propagated(svc.reply(trace, target).failure)))
  {
  }

  /** A rejected copy ends the resource's work at the copy call: no target
      listing, no delete. The instance copy turns a client error into a
      `BackupException`; the cluster copy lets the error through unwrapped. */
  lemma CopyRejectionStops(cfg: Config, event: Event, svc: Remote, now: string, task: Task, trace: seq<Call>)
    requires svc.reply(trace, SourceDescribe(cfg, task)).Accepted?
    requires var snaps := svc.listing(trace, SourceDescribe(cfg, task));
             && |snaps| > 0
             && svc.reply(trace + [SourceDescribe(cfg, task)],
                          CopyCall(cfg, event, task.kind, LatestIdentifier(snaps))).Rejected?
    ensures var snaps := svc.listing(trace, SourceDescribe(cfg, task));
            var copy := CopyCall(cfg, event, task.kind, LatestIdentifier(snaps));
            var f := svc.reply(trace + [SourceDescribe(cfg, task)], copy).failure;
            var r := RunTask(cfg, event, svc, now, task, trace);
            && r.trace == trace + [SourceDescribe(cfg, task), copy]
            && (task.kind == Instance && f.ClientError? ==> r.outcome == Raised(BackupException(CopyIssue, f)))
            && (task.kind == Cluster ==> r.outcome == Raised(Propagated(f)))
            && (f.OtherError? ==> r.outcome == Raised(Propagated(f)))
  {
  }

  /** The copy that is made is of the newest automated snapshot by
      identifier, from the source region, under the `copy-of-` name. */
  lemma CopyOfLatest(cfg: Config, event: Event, svc: Remote, now: string, task: Task, trace: seq<Call>)
    requires svc.reply(trace, SourceDescribe(cfg, task)).Accepted?
    requires |svc.listing(trace, SourceDescribe(cfg, task))| > 0
    ensures var snaps := svc.listing(trace, SourceDescribe(cfg, task));
            var r := RunTask(cfg, event, svc, now, task, trace);
            && |r.trace| > |trace| + 1
            && (exists i :: 0 <= i < |snaps|
                  && r.trace[|trace| + 1] == CopyCall(cfg, event, task.kind, snaps[i].identifier)
                  && (forall j :: 0 <= j < |snaps| ==> Lexicographic.LessOrEqual(snaps[j].identifier, snaps[i].identifier)))
  {
    var snaps := svc.listing(trace, SourceDescribe(cfg, task));
    var id := LatestIdentifier(snaps);
    var i :| 0 <= i < |snaps| && snaps[i].identifier == id;
  }

  /** After an accepted source listing and an accepted copy, the resource's
      run continues with pruning. */
  lemma CopyAccepted(cfg: Config, event: Event, svc: Remote, now: string, task: Task, trace: seq<Call>)
    requires svc.reply(trace, SourceDescribe(cfg, task)).Accepted?
    requires |svc.listing(trace, SourceDescribe(cfg, task))| > 0
    requires var copy := CopyCall(cfg, event, task.kind, LatestIdentifier(svc.listing(trace, SourceDescribe(cfg, task))));
             svc.reply(trace + [SourceDescribe(cfg, task)], copy).Accepted?
    ensures var copy := CopyCall(cfg, event, task.kind, LatestIdentifier(svc.listing(trace, SourceDescribe(cfg, task))));
            RunTask(cfg, event, svc, now, task, trace)
            == PruneCopies(cfg, event, svc, now, task.kind, task.name, trace + [SourceDescribe(cfg, task), copy])
  {
    var copy := CopyCall(cfg, event, task.kind, LatestIdentifier(svc.listing(trace, SourceDescribe(cfg, task))));
    assert trace + [SourceDescribe(cfg, task)] + [copy] == trace + [SourceDescribe(cfg, task), copy];
  }

  /** After an accepted target listing, pruning is the deletion loop over the
      copies beyond the `keep` newest. */
  lemma TargetListingAccepted(cfg: Config, event: Event, svc: Remote, now: string, kind: Kind, name: string,
                              trace: seq<Call>)
    requires svc.reply(trace, Describe(kind, event.region, Manual, name)).Accepted?
    ensures var target := Describe(kind, event.region, Manual, name);
            PruneCopies(cfg, event, svc, now, kind, name, trace)
            == DeleteAll(svc, event.region, kind, PruneTargets(svc.listing(trace, target), cfg.keep, now),
                         trace + [target])
  {
  }

  /** The manual copies listed in the target region after an accepted copy. */
  function TargetCopies(cfg: Config, event: Event, svc: Remote, task: Task, trace: seq<Call>): (copies: seq<Snapshot>)
    requires |svc.listing(trace, SourceDescribe(cfg, task))| > 0
  {
    var describe := SourceDescribe(cfg, task);
    var copy := CopyCall(cfg, event, task.kind, LatestIdentifier(svc.listing(trace, describe)));
    svc.listing(trace + [describe, copy], Describe(task.kind, event.region, Manual, task.name))
  }

  /** Pruning with every call accepted: the target listing, then one delete
      per doomed copy. */
  lemma PruneAllAccepted(cfg: Config, event: Event, svc: Remote, now: string, kind: Kind, name: string,
                         trace: seq<Call>)
    requires var target := Describe(kind, event.region, Manual, name);
             && svc.reply(trace, target).Accepted?
             && AllAccepted(svc, trace + [target],
                            DeleteCalls(event.region, kind, PruneTargets(svc.listing(trace, target), cfg.keep, now)))
    ensures var target := Describe(kind, event.region, Manual, name);
            var doomed := PruneTargets(svc.listing(trace, target), cfg.keep, now);
            PruneCopies(cfg, event, svc, now, kind, name, trace)
            == Run(trace + [target] + DeleteCalls(event.region, kind, doomed), Completed)
  {
    TargetListingAccepted(cfg, event, svc, now, kind, name, trace);
  }

  /** When every call is accepted, the resource's calls are: the source
      listing, the copy, the target listing, and then one delete for each
      copy beyond the `keep` newest, newest first. */
  lemma AllAcceptedRun(cfg: Config, event: Event, svc: Remote, now: string, task: Task, trace: seq<Call>)
    requires svc.reply(trace, SourceDescribe(cfg, task)).Accepted?
    requires |svc.listing(trace, SourceDescribe(cfg, task))| > 0
    requires var describe := SourceDescribe(cfg, task);
             var copy := CopyCall(cfg, event, task.kind, LatestIdentifier(svc.listing(trace, describe)));
             var target := Describe(task.kind, event.region, Manual, task.name);
             var doomed := PruneTargets(TargetCopies(cfg, event, svc, task, trace), cfg.keep, now);
             && svc.reply(trace + [describe], copy).Accepted?
             && svc.reply(trace + [describe, copy], target).Accepted?
             && AllAccepted(svc, trace + [describe, copy, target], DeleteCalls(event.region, task.kind, doomed))
    ensures var describe := SourceDescribe(cfg, task);
            var copy := CopyCall(cfg, event, task.kind, LatestIdentifier(svc.listing(trace, describe)));
            var target := Describe(task.kind, event.region, Manual, task.name);
            var copies := TargetCopies(cfg, event, svc, task, trace);
            var doomed := PruneTargets(copies, cfg.keep, now);
            var r := RunTask(cfg, event, svc, now, task, trace);
            && r.outcome == Completed
            && r.trace == trace + [describe, copy, target] + DeleteCalls(event.region, task.kind, doomed)
            && |r.trace| - |trace| == 3 + (if |copies| > cfg.keep then |copies| - cfg.keep else 0)
  {
    var describe := SourceDescribe(cfg, task);
    var copy := CopyCall(cfg, event, task.kind, LatestIdentifier(svc.listing(trace, describe)));
    var target := Describe(task.kind, event.region, Manual, task.name);
    assert trace + [describe, copy] + [target] == trace + [describe, copy, target];
    CopyAccepted(cfg, event, svc, now, task, trace);
    PruneAllAccepted(cfg, event, svc, now, task.kind, task.name, trace + [describe, copy]);
  }

  /** Pruning that raises after an accepted target listing has made the
      first `m` planned deletes and stopped at the rejected one. */
  lemma PruneRejectionHalts(cfg: Config, event: Event, svc: Remote, now: string, kind: Kind, name: string,
                            trace: seq<Call>)
    returns (m: nat)
    requires svc.reply(trace, Describe(kind, event.region, Manual, name)).Accepted?
    requires PruneCopies(cfg, event, svc, now, kind, name, trace).outcome.Raised?
    ensures var target := Describe(kind, event.region, Manual, name);
            var doomed := PruneTargets(svc.listing(trace, target), cfg.keep, now);
            var deletes := DeleteCalls(event.region, kind, doomed);
            var before := trace + [target];
            && 0 < m <= |doomed|
            && PruneCopies(cfg, event, svc, now, kind, name, trace).trace == before + deletes[..m]
            && AllAccepted(svc, before, deletes[..m - 1])
            && svc.reply(before + deletes[..m - 1], deletes[m - 1]).Rejected?
            && var f := svc.reply(before + deletes[..m - 1], deletes[m - 1]).failure;
               var outcome := PruneCopies(cfg, event, svc, now, kind, name, trace).outcome;
               && (f.ClientError? ==> outcome == Raised(BackupException(DeleteIssue(doomed[m - 1].identifier), f)))
               && (f.OtherError? ==> outcome == Raised(Propagated(f)))
  {
    var target := Describe(kind, event.region, Manual, name);
    var doomed := PruneTargets(svc.listing(trace, target), cfg.keep, now);
    TargetListingAccepted(cfg, event, svc, now, kind, name, trace);
    m := DeleteAllHaltsAtFirstRejection(svc, event.region, kind, doomed, trace + [target]);
  }

  /** If a delete is rejected, the resource's run stops right there: the
      deletes made are the first `m` of the planned ones, the last of them is
      the rejected one, and nothing follows it. */
  lemma DeleteRejectionHalts(cfg: Config, event: Event, svc: Remote, now: string, task: Task, trace: seq<Call>)
    returns (m: nat)
    requires svc.reply(trace, SourceDescribe(cfg, task)).Accepted?
    requires |svc.listing(trace, SourceDescribe(cfg, task))| > 0
    requires var describe := SourceDescribe(cfg, task);
             var copy := CopyCall(cfg, event, task.kind, LatestIdentifier(svc.listing(trace, describe)));
             var target := Describe(task.kind, event.region, Manual, task.name);
             && svc.reply(trace + [describe], copy).Accepted?
             && svc.reply(trace + [describe, copy], target).Accepted?
             && RunTask(cfg, event, svc, now, task, trace).outcome.Raised?
    ensures var describe := SourceDescribe(cfg, task);
            var copy := CopyCall(cfg, event, task.kind, LatestIdentifier(svc.listing(trace, describe)));
            var target := Describe(task.kind, event.region, Manual, task.name);
            var doomed := PruneTargets(TargetCopies(cfg, event, svc, task, trace), cfg.keep, now);
            var deletes := DeleteCalls(event.region, task.kind, doomed);
            var before := trace + [describe, copy, target];
            var r := RunTask(cfg, event, svc, now, task, trace);
            && 0 < m <= |doomed|
            && r.trace == before + deletes[..m]
            && AllAccepted(svc, before, deletes[..m - 1])
            && svc.reply(before + deletes[..m - 1], deletes[m - 1]).Rejected?
            && var f := svc.reply(before + deletes[..m - 1], deletes[m - 1]).failure;
               && (f.ClientError? ==> r.outcome == Raised(BackupException(DeleteIssue(doomed[m - 1].identifier), f)))
               && (f.OtherError? ==> r.outcome == Raised(Propagated(f)))
  {
    var describe := SourceDescribe(cfg, task);
    var copy := CopyCall(cfg, event, task.kind, LatestIdentifier(svc.listing(trace, describe)));
    var target := Describe(task.kind, event.region, Manual, task.name);
    assert trace + [describe, copy] + [target] == trace + [describe, copy, target];
    CopyAccepted(cfg, event, svc, now, task, trace);
    assert RunTask(cfg, event, svc, now, task, trace)
           == PruneCopies(cfg, event, svc, now, task.kind, task.name, trace + [describe, copy]);
    m := PruneRejectionHalts(cfg, event, svc, now, task.kind, task.name, trace + [describe, copy]);
  }

  /** Each resource's run lists that resource's automated snapshots exactly
      once, as its first call. */
  lemma TaskSourceDescribes(cfg: Config, event: Event, svc: Remote, now: string, task: Task, trace: seq<Call>)
    ensures var r := RunTask(cfg, event, svc, now, task, trace);
            SourceDescribes(r.trace[|trace|..]) == [SourceDescribe(cfg, task)]
  {
    var r := RunTask(cfg, event, svc, now, task, trace);
    var ext := r.trace[|trace|..];
    assert ext == [ext[0]] + ext[1..];
    SourceDescribesAppend([ext[0]], ext[1..]);
    SourceDescribesNone(ext[1..]) by {
      forall i | 0 <= i < |ext[1..]| ensures !IsSourceDescribe(ext[1..][i]) {
        assert ext[1..][i] == r.trace[|trace| + 1 + i];
      }
    }
    assert SourceDescribes([ext[0]]) == [ext[0]] by {
      assert [ext[0]][1..] == [];
    }
  }

  lemma SliceSplit(a: seq<Call>, b: seq<Call>, c: seq<Call>)
    requires a <= b <= c
    ensures c[|a|..] == b[|a|..] + c[|b|..]
  {
  }

  function TaskDescribes(cfg: Config, tasks: seq<Task>): (calls: seq<Call>)
  {
    seq(|tasks|, i requires 0 <= i < |tasks| => SourceDescribe(cfg, tasks[i]))
  }

  /** Every step extends the trace and lists its own resource's automated
      snapshots exactly once. */
  ghost predicate ListsOwnSource(cfg: Config, step: (Task, seq<Call>) -> Run)
  {
    forall task, trace {:trigger step(task, trace)} ::
      && trace <= step(task, trace).trace
      && SourceDescribes(step(task, trace).trace[|trace|..]) == [SourceDescribe(cfg, task)]
  }

  lemma TaskStepListsOwnSource(cfg: Config, event: Event, svc: Remote, now: string)
    ensures ListsOwnSource(cfg, TaskStep(cfg, event, svc, now))
  {
    var step := TaskStep(cfg, event, svc, now);
    forall task, trace
      ensures trace <= step(task, trace).trace
      ensures SourceDescribes(step(task, trace).trace[|trace|..]) == [SourceDescribe(cfg, task)]
    {
      TaskSourceDescribes(cfg, event, svc, now, task, trace);
    }
  }

  /** Running a list of tasks starts them in list order and stops after the
      first that raises: the automated listings in the trace are those of a
      prefix of the tasks, all of them when the run completes. */
  lemma {:induction false} RunTasksInOrder(cfg: Config, step: (Task, seq<Call>) -> Run,
                                           tasks: seq<Task>, trace: seq<Call>)
    returns (started: nat)
    requires ListsOwnSource(cfg, step)
    ensures var r := RunTasks(step, tasks, trace);
            && trace <= r.trace
            && started <= |tasks|
            && SourceDescribes(r.trace[|trace|..]) == TaskDescribes(cfg, tasks[..started])
            && (r.outcome.Completed? ==> started == |tasks|)
            && (r.outcome.Raised? ==> 0 < started)
            && (r.outcome.Raised? ==>
                  var before := RunTasks(step, tasks[..started - 1], trace);
                  && before.outcome.Completed?
                  && step(tasks[started - 1], before.trace) == r)
    decreases |tasks|
  {
    var r := RunTasks(step, tasks, trace);
    if |tasks| == 0 {
      started := 0;
      assert r.trace[|trace|..] == [];
    } else {
      var first := step(tasks[0], trace);
      assert trace <= first.trace;
      if first.outcome.Raised? {
        started := 1;
        assert TaskDescribes(cfg, tasks[..1]) == [SourceDescribe(cfg, tasks[0])];
        assert tasks[..0] == [];
      } else {
        var k := RunTasksInOrder(cfg, step, tasks[1..], first.trace);
        started := k + 1;
        SliceSplit(trace, first.trace, r.trace);
        SourceDescribesAppend(first.trace[|trace|..], r.trace[|first.trace|..]);
        assert tasks[..started] == [tasks[0]] + tasks[1..][..k];
        assert TaskDescribes(cfg, tasks[..started])
               == [SourceDescribe(cfg, tasks[0])] + TaskDescribes(cfg, tasks[1..][..k]);
        if r.outcome.Raised? {
          RunPrefixStep(step, tasks, trace, k);
        }
      }
    }
  }

  /** Running the first `k` tasks after a completed first task is running the
      next `k - 1` from where the first one left off. */
  lemma RunPrefixStep(step: (Task, seq<Call>) -> Run, tasks: seq<Task>, trace: seq<Call>, k: nat)
    requires 0 < k < |tasks| && step(tasks[0], trace).outcome.Completed?
    ensures RunTasks(step, tasks[..k], trace) == RunTasks(step, tasks[1..][..k - 1], step(tasks[0], trace).trace)
    ensures tasks[k] == tasks[1..][k - 1]
  {
    var done := tasks[..k];
    assert done[0] == tasks[0] && done[1..] == tasks[1..][..k - 1];
  }

  /** Running `a + b` is running `a` and, unless that raised, `b` after it. */
  lemma {:induction false} RunTasksAppend(step: (Task, seq<Call>) -> Run, a: seq<Task>, b: seq<Task>,
                                          trace: seq<Call>)
    ensures var ra := RunTasks(step, a, trace);
            RunTasks(step, a + b, trace) == if ra.outcome.Raised? then ra else RunTasks(step, b, ra.trace)
    decreases |a|
  {
    if |a| == 0 {
      assert a + b == b;
    } else {
      assert (a + b)[0] == a[0];
      assert (a + b)[1..] == a[1..] + b;
      var first := step(a[0], trace);
      if first.outcome.Completed? {
        RunTasksAppend(step, a[1..], b, first.trace);
      }
    }
  }

  /** The handler is one pass over the instances followed by the clusters. */
  lemma HandlerRunsAllTasks(cfg: Config, event: Event, svc: Remote, now: string)
    ensures LambdaHandler(cfg, event, svc, now) == RunTasks(TaskStep(cfg, event, svc, now), AllTasks(cfg), [])
  {
    RunTasksAppend(TaskStep(cfg, event, svc, now), InstanceTasks(cfg.sourceDb), ClusterTasks(cfg.sourceCluster), []);
  }

  /** The handler lists the automated snapshots of every `SOURCE_DB` name in
      order and then of every `SOURCE_CLUSTER` name in order, stopping after
      the resource that raised. */
  lemma HandlerProcessesInOrder(cfg: Config, event: Event, svc: Remote, now: string)
    returns (started: nat)
    ensures var r := LambdaHandler(cfg, event, svc, now);
            var tasks := InstanceTasks(cfg.sourceDb) + ClusterTasks(cfg.sourceCluster);
            && started <= |cfg.sourceDb| + |cfg.sourceCluster|
            && SourceDescribes(r.trace) == TaskDescribes(cfg, tasks[..started])
            && (r.outcome.Completed? ==> started == |cfg.sourceDb| + |cfg.sourceCluster|)
            && (r.outcome.Raised? ==> 0 < started)
            && (r.outcome.Raised? ==>
                  var before := RunTasks(TaskStep(cfg, event, svc, now), tasks[..started - 1], []);
                  && before.outcome.Completed?
                  && RunTask(cfg, event, svc, now, tasks[started - 1], before.trace) == r)
  {
    HandlerRunsAllTasks(cfg, event, svc, now);
    TaskStepListsOwnSource(cfg, event, svc, now);
    started := RunTasksInOrder(cfg, TaskStep(cfg, event, svc, now), AllTasks(cfg), []);
    var r := LambdaHandler(cfg, event, svc, now);
    assert r.trace[0..] == r.trace;
  }

  /** A resource that raises ends the run: the tasks after it are not
      started. */
  lemma FailureSkipsLaterResources(step: (Task, seq<Call>) -> Run, done: seq<Task>, later: seq<Task>,
                                   trace: seq<Call>)
    requires RunTasks(step, done, trace).outcome.Raised?
    ensures RunTasks(step, done + later, trace) == RunTasks(step, done, trace)
  {
    RunTasksAppend(step, done, later, trace);
  }

  /** Nothing is rolled back: whatever happens to later resources, the calls
      made for earlier ones stay at the front of the trace. */
  lemma {:induction false} EarlierWorkKept(cfg: Config, step: (Task, seq<Call>) -> Run, done: seq<Task>,
                                           later: seq<Task>, trace: seq<Call>)
    requires ListsOwnSource(cfg, step)
    ensures RunTasks(step, done, trace).trace <= RunTasks(step, done + later, trace).trace
  {
    RunTasksAppend(step, done, later, trace);
    var ra := RunTasks(step, done, trace);
    if ra.outcome.Completed? {
      var _ := RunTasksInOrder(cfg, step, later, ra.trace);
    }
  }
}

# rds-backup-lambda in Dafny

A model of the AWS Lambda function in `main.py` that copies RDS snapshots
from a fixed source region into the region named by the invoking event, and
proofs about it. For each configured RDS instance (`SOURCE_DB`) and then each
configured Aurora cluster (`SOURCE_CLUSTER`) the function:

1. lists the resource's automated snapshots in the source region; with none
   it does nothing more for that resource;
2. picks the snapshot with the greatest identifier in Python's string order
   (`sorted(..., reverse=True)[0]`);
3. asks the target region to copy it, from its ARN
   `arn:aws:rds:<SOURCE_REGION>:<account>:snapshot:<id>` (or
   `cluster-snapshot`), to the identifier `copy-of-` followed by the source
   identifier with every `rds:` removed;
4. lists the resource's manual snapshots in the target region and, when there
   are more than `KEEP`, deletes everything after the `KEEP` newest by
   `by_timestamp`, newest first, stopping at the first failed delete.

Any exception ends the whole invocation: later resources are not touched and
nothing done earlier is undone.

The modules follow the source's structure:

- `Lexicographic` (lexicographic.dfy): Python's `str` ordering by code point.
  Dafny's `<` on sequences means "proper prefix", so the ordering is defined
  here, with proofs that it is a strict total order.
- `Snapshots` (snapshots.dfy): the listing records and the sort keys
  `by_snapshot_id`, `by_cluster_snapshot_id` and `by_timestamp`. Python's
  stable `sorted(..., reverse=True)` is an insertion sort here. The
  latest-snapshot selection is also in this module.
- `Naming` (naming.dfy): the `re.sub('rds:', '', id)` scan
  (`StripRds`), the `copy-of-` target identifier and the source ARN.
- `Retention` (retention.dfy): which target copies are deleted, and in what
  order.
- `Service` (service.dfy): the RDS client seen from outside. A `Remote`
  answers each call as a function of the calls made before it: `Accepted` or
  `Rejected` with a `ClientError` or another exception. An accepted listing
  call returns a sequence of snapshots. A run is the trace of calls issued
  plus how it ended. `Wrap` is the `except ClientError: raise
  BackupException(...) from ex` pattern.
- `Backup` (backup.dfy): `copy_rds_snapshots` and `copy_cluster_snapshots`
  (one function, `CopySnapshots`, with a `Kind`), the deletion loop and
  `lambda_handler`. The module constants become a `Config` record, and
  `Shipped` holds the values the repository ships with.
- `BackupProperties` (backup.dfy): what a run of one resource, and of the
  handler, is promised to do.

Apart from the API family they call and the resource type in the source
ARN (`snapshot` or `cluster-snapshot`), the two copy functions differ in
three places, and the model keeps each difference:

- the instance copy passes `CopyTags=True`; the cluster copy does not;
- the instance copy wraps a `ClientError` into `BackupException`; the cluster
  copy has no `try`, so its error escapes unwrapped;
- cluster deletes call `delete_db_snapshot` with the keyword
  `DBClusterSnapshotIdentifier` instead of calling `delete_db_cluster_snapshot`.

## Model

| member | source | states |
|---|---|---|
| Lexicographic.LessIrreflexive | main.py:66 | No identifier sorts strictly before itself. |
| Lexicographic.LessTransitive | main.py:66 | The string order used by `sorted` is transitive. |
| Lexicographic.LessTrichotomous | main.py:66 | Any two distinct strings are ordered one way or the other, so the greatest identifier is well defined. |
| Lexicographic.LessOrEqualAntisymmetric | main.py:66 | Two strings that are each at most the other are equal. |
| Snapshots.InsertDescStable | main.py:84 | Inserting one record places it before every record with the same key and leaves the relative order of the others unchanged. |
| Snapshots.SortDesc | main.py:84 | `sorted(..., reverse=True)` returns a permutation of its input, of the same length, with keys non-increasing, and records with equal keys keep their input order (the sort is stable). |
| Snapshots.LatestIdentifier | main.py:66 | The chosen identifier belongs to a listed snapshot, and no listed identifier is greater in Python's string order. |
| Snapshots.LatestIdentifierOrderIndependent | main.py:103 | Two listings with the same set of identifiers select the same snapshot, whatever order the service lists them in. |
| Naming.StripRdsOfJoin | main.py:68 | For a source identifier made of `rds:`-free pieces joined by `rds:`, the scan returns the pieces concatenated: every occurrence is removed, left to right, without rescanning. |
| Naming.StripRdsSplits | main.py:68 | Every identifier splits that way, so the previous row describes the scan on every input. |
| Naming.TargetIdShape | main.py:68 | The target identifier is `copy-of-` plus the pieces concatenated, and it is `8 + len(source) - 4k` characters long when `k` occurrences were removed. |
| Naming.TargetIdWithoutMarker | main.py:105 | An identifier that does not contain `rds:` is copied as `copy-of-<id>` unchanged. |
| Naming.TargetIdOfAutomated | main.py:68 | An automated identifier `rds:<name>` is copied as `copy-of-<name>`. |
| Naming.TargetIdOfAutomatedExample | main.py:68 | `rds:mydb-2024-01-01` is copied as `copy-of-mydb-2024-01-01`. |
| Naming.TargetIdOfInnerMarker | main.py:105 | A `rds:` in the middle of an identifier is removed too, not only a leading one. |
| Naming.TargetIdOfInnerMarkerExample | main.py:105 | `mydb-snap-rds:final` is copied as `copy-of-mydb-snap-final`. |
| Naming.StripRdsNotIdempotent | main.py:68 | One pass can leave a `rds:` behind: `rrds:ds:x` becomes `rds:x`. |
| Naming.TargetIdCollides | main.py:68 | `rds:db-1` and `db-1` get the same target identifier. |
| Naming.SourceArnParts | main.py:67 | The source ARN is the `arn:aws:rds:<region>:<account>:` head, then the resource type and a colon, then the identifier. |
| Naming.SourceArnInjective | main.py:104 | Within one region and account, different snapshots of either kind have different ARNs. |
| Retention.PruneTargets | main.py:83-84 | With more than `KEEP` copies, exactly `len(copies) - KEEP` copies are deleted, otherwise none; every deleted copy is one of the listed copies. |
| Retention.PrunePartitions | main.py:118-119 | Kept and deleted copies together are exactly the listed copies, and `min(KEEP, len(copies))` are kept. |
| Retention.PruneWithinLimitIsNoOp | main.py:83 | With at most `KEEP` copies nothing is deleted and everything is kept. |
| Retention.RetainedNotOlder | main.py:84 | No kept copy has an older timestamp key than any deleted copy. |
| Retention.PruneTargetsNewestFirst | main.py:119 | Deletions are issued newest first. |
| Retention.UndatedDeletedOnlyBehindNow | main.py:49-51 | A copy without a creation time sorts as created "now", so it is deleted only when every kept copy is at least as recent as "now". |
| Service.AllAcceptedAppend | main.py:84-89 | A batch of calls is accepted exactly when its first part is accepted and then its second part is accepted after the first. |
| Service.SourceDescribesAppend | main.py:139-142 | The automated-snapshot listings in two consecutive stretches of calls are those of the first stretch followed by those of the second. |
| Backup.DeleteAll | main.py:84-89 | The deletion loop issues a prefix of the planned deletes in order. It completes exactly when every delete is accepted, and then it has issued all of them. |
| Backup.DeleteAllHaltsAtFirstRejection | main.py:119-125 | When the loop raises, it has issued the first `m` deletes: the first `m-1` were accepted and the `m`-th was rejected. The exception names the copy that could not be deleted and wraps the failure as the source does. |
| Backup.PruneCopies | main.py:82-89 | Pruning first lists the manual copies in the target region, and every later call is a delete. |
| Backup.CopySnapshots | main.py:54-89 | A resource's run starts with the automated listing in the source region, and never lists source snapshots again. |
| Backup.RunTask | main.py:139-142 | Each resource's run issues at least one call after those already made. |
| BackupProperties.SourceListingRejected | main.py:59-61 | A rejected source listing escapes unwrapped, and it is the resource's only call. |
| BackupProperties.TargetListingRejected | main.py:115-117 | A rejected target listing escapes unwrapped, and nothing is deleted after it. |
| BackupProperties.EmptySourceIsNoOp | main.py:100-102 | With no automated snapshot the only call is the source listing, and the run completes: no copy, no target listing, no delete. |
| BackupProperties.CopyRejectionStops | main.py:71-80 | A rejected copy is the last call. For an instance, a client error becomes `BackupException`; for a cluster, the error escapes unwrapped; a non-client error always escapes unwrapped. |
| BackupProperties.CopyOfLatest | main.py:59-78 | The second call copies a listed automated snapshot whose identifier is the greatest in the listing. |
| BackupProperties.CopyAccepted | main.py:82 | After an accepted copy, the run continues with pruning of the target copies. |
| BackupProperties.TargetListingAccepted | main.py:83-89 | After an accepted target listing, pruning is the deletion loop over the copies beyond the `KEEP` newest. |
| BackupProperties.PruneAllAccepted | main.py:115-125 | When every call is accepted, pruning issues the target listing and then one delete per doomed copy, and completes. |
| BackupProperties.AllAcceptedRun | main.py:54-89 | When every call is accepted, a resource's run is: source listing, copy, target listing, one delete per copy beyond the `KEEP` newest. That is `3 + max(0, copies - KEEP)` calls, and the run completes. |
| BackupProperties.PruneRejectionHalts | main.py:118-125 | A pruning run that raises has issued the first `m` planned deletes and stopped at the rejected one. A client error becomes a `BackupException` naming that copy; any other error escapes unwrapped. |
| BackupProperties.DeleteRejectionHalts | main.py:84-89 | A resource's run that raises after the copy and the target listing ends exactly at the first rejected delete, with all earlier deletes accepted. A client error becomes a `BackupException` naming that copy; any other error escapes unwrapped. |
| BackupProperties.TaskSourceDescribes | main.py:59-61 | Each resource's run lists that resource's automated snapshots exactly once. |
| BackupProperties.TaskStepListsOwnSource | main.py:97-99 | Every step of the handler's loops extends the trace and lists its own resource's automated snapshots once. |
| BackupProperties.RunTasksInOrder | main.py:139-140 | A loop over resources starts them in list order. When it raises, every resource before the last one started completed, and the run is exactly that last resource's raising run. It completes only after starting all of them. |
| BackupProperties.RunTasksAppend | main.py:139-142 | Two loops in a row behave like one loop over the concatenated list, and the second loop does not run when the first raised. |
| BackupProperties.HandlerRunsAllTasks | main.py:139-142 | The handler is one loop over the instances followed by the clusters. |
| BackupProperties.HandlerProcessesInOrder | main.py:128-142 | The handler lists automated snapshots for every `SOURCE_DB` name in order, then every `SOURCE_CLUSTER` name in order. When it raises, every earlier resource completed, and the handler's result is the raising run of the last resource started. It completes only after all of them. |
| BackupProperties.FailureSkipsLaterResources | main.py:141-142 | Once a resource raises, no later resource is started. |
| BackupProperties.EarlierWorkKept | main.py:139-142 | Calls made for earlier resources stay at the front of the trace whatever happens afterwards: nothing is rolled back. |

## Left out

- The boto3 clients and botocore are not part of this model. They are replaced by the `Remote` oracle. A listing is a function of the calls made before it, so the model does not tie a listing to the effects of earlier copies and deletes.
- Snapshot records are only an identifier and an optional creation time. `by_snapshot_id` and `by_cluster_snapshot_id` both become `ById`, because each kind's records carry only its own identifier key.
- `datetime.isoformat` is not modelled: creation times are opaque strings compared in Python's string order.
- `datetime.now()` is read once per invocation, as the `now` parameter. The source reads the clock again for each undated record, so its undated keys can differ slightly from one another.
- `print` output and the context banner (main.py:132-133) are left out, because they have no effect on the calls made.
- Reading `event["region"]` and `event["account"]` (main.py:135-136) is modelled as an `Event` record. The `KeyError` for a missing key is not modelled.
- Creating the two clients (main.py:137-138) is represented only by the `region` field of each call.
- Backup.RunTask: states only that the trace grows. The full behaviour of one resource is in the BackupProperties lemmas about `RunTask`.
- The text of the `BackupException` messages is not modelled. A `Reason` records which message is raised and, for deletes, the identifier it names.

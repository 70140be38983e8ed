/** The remote database service, seen only through the calls made to it.

    The boto3 clients are replaced by a `Remote`: given the calls made so far
    and the next call, it says whether the call is accepted and, for an
    accepted listing call, which snapshots it returns. A run of the workflow
    produces the sequence of calls it issued (the trace) and how it ended.
 */
module Service {
  import opened Snapshots

  /** The `SnapshotType` argument of a listing call. */
  datatype SnapshotType = Automated | Manual

  /** The keyword argument a `delete_db_snapshot` call is made with. */
  datatype DeleteArgument =
    | DBSnapshotIdentifier(id: string)
    | DBClusterSnapshotIdentifier(id: string)

  /** One client call with its arguments. `region` is the region the client
      issuing the call is bound to. */
  datatype Call =
    | DescribeDbSnapshots(region: string, snapshotType: SnapshotType, dbInstanceIdentifier: string)
    | DescribeDbClusterSnapshots(region: string, snapshotType: SnapshotType, dbClusterIdentifier: string)
    | CopyDbSnapshot(region: string, sourceDBSnapshotIdentifier: string, targetDBSnapshotIdentifier: string,
                     kmsKeyId: string, copyTags: bool, sourceRegion: string)
    | CopyDbClusterSnapshot(region: string, sourceDBClusterSnapshotIdentifier: string,
                            targetDBClusterSnapshotIdentifier: string, kmsKeyId: string, sourceRegion: string)
    | DeleteDbSnapshot(region: string, argument: DeleteArgument)

  /** What a rejected call raises: `botocore.exceptions.ClientError`, or any
      other exception escaping the client. */
  datatype Failure = ClientError(code: string) | OtherError(name: string)

  datatype Reply = Accepted | Rejected(failure: Failure)

  /** Which message a `BackupException` carries. */
  datatype Reason = CopyIssue | DeleteIssue(snapshotId: string)

  /** What escapes a run: a `BackupException` wrapping a client error, or a
      failure propagated as it was raised. */
  datatype Exception =
    | BackupException(reason: Reason, cause: Failure)
    | Propagated(failure: Failure)

  datatype Outcome = Completed | Raised(exception: Exception)

  datatype Run = Run(trace: seq<Call>, outcome: Outcome)

  /** The service's behaviour, as a function of the calls made before. */
  datatype Remote = Remote(
    reply: (seq<Call>, Call) -> Reply,
    listing: (seq<Call>, Call) -> seq<Snapshot>)

  /** `except botocore.exceptions.ClientError as ex: raise BackupException(...)`:
      only client errors are wrapped; anything else passes through. */
  function Wrap(failure: Failure, reason: Reason): (e: Exception)
  {
    if failure.ClientError? then BackupException(reason, failure) else Propagated(failure)
  }

  /** Issuing `calls` one after another, starting after `history`, every one
      is accepted. */
  predicate AllAccepted(svc: Remote, history: seq<Call>, calls: seq<Call>)
    decreases |calls|
  {
    |calls| == 0 ||
    (svc.reply(history, calls[0]).Accepted? && AllAccepted(svc, history + [calls[0]], calls[1..]))
  }

  lemma {:induction false} AllAcceptedAppend(svc: Remote, history: seq<Call>, a: seq<Call>, b: seq<Call>)
    ensures AllAccepted(svc, history, a + b)
            <==> AllAccepted(svc, history, a) && AllAccepted(svc, history + a, b)
    decreases |a|
  {
    if |a| == 0 {
      assert a + b == b;
      assert history + a == history;
    } else {
      assert (a + b)[0] == a[0];
      assert (a + b)[1..] == a[1..] + b;
      assert history + [a[0]] + a[1..] == history + a;
      AllAcceptedAppend(svc, history + [a[0]], a[1..], b);
    }
  }

  /** A listing call against the source region for automated snapshots. */
  predicate IsSourceDescribe(c: Call)
  {
    (c.DescribeDbSnapshots? || c.DescribeDbClusterSnapshots?) && c.snapshotType == Automated
  }

  /** The automated-snapshot listing calls of a trace, in order. */
  function SourceDescribes(calls: seq<Call>): (r: seq<Call>)
    ensures |r| <= |calls|
    ensures forall i :: 0 <= i < |r| ==> IsSourceDescribe(r[i])
    decreases |calls|
  {
    if |calls| == 0 then []
    else (if IsSourceDescribe(calls[0]) then [calls[0]] else []) + SourceDescribes(calls[1..])
  }

  lemma {:induction false} SourceDescribesAppend(a: seq<Call>, b: seq<Call>)
    ensures SourceDescribes(a + b) == SourceDescribes(a) + SourceDescribes(b)
    decreases |a|
  {
    if |a| == 0 {
      assert a + b == b;
    } else {
      assert (a + b)[0] == a[0];
      assert (a + b)[1..] == a[1..] + b;
      SourceDescribesAppend(a[1..], b);
    }
  }

  lemma {:induction false} SourceDescribesNone(calls: seq<Call>)
    requires forall i :: 0 <= i < |calls| ==> !IsSourceDescribe(calls[i])
    ensures SourceDescribes(calls) == []
    decreases |calls|
  {
    if |calls| > 0 {
      SourceDescribesNone(calls[1..]);
    }
  }
}

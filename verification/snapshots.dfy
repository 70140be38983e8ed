/** Snapshot records as the service lists them, the sort keys the source uses
    (`by_snapshot_id`, `by_cluster_snapshot_id`, `by_timestamp`), Python's
    stable `sorted(..., reverse=True)`, and the choice of the latest automated
    snapshot.
 */
module Snapshots {
  import opened Lexicographic

  datatype Option<+T> = None | Some(value: T)

  /** Which of the two parallel API families a snapshot belongs to. */
  datatype Kind = Instance | Cluster

  /** One entry of a `DBSnapshots` or `DBClusterSnapshots` listing. The
      identifier is `DBSnapshotIdentifier` for instances and
      `DBClusterSnapshotIdentifier` for clusters; `createTime` is the ISO form
      of `SnapshotCreateTime`, absent when the listing has no such key. */
  datatype Snapshot = Snapshot(identifier: string, createTime: Option<string>)

  /** `by_snapshot_id` and `by_cluster_snapshot_id`: the snapshot's identifier. */
  function ById(snap: Snapshot): (id: string)
  {
    snap.identifier
  }

  /** `by_timestamp`: the ISO creation time, or the ISO form of `now` when the
      record carries no creation time. */
  function ByTimestamp(snap: Snapshot, now: string): (key: string)
  {
    match snap.createTime
    case Some(t) => t
    case None => now
  }

  /** The `key=by_timestamp` argument, with the clock reading fixed to `now`. */
  function TimestampKey(now: string): (key: Snapshot -> string)
  {
    snap => ByTimestamp(snap, now)
  }

  /** Keys never increase along `s`. */
  ghost predicate SortedDesc(s: seq<Snapshot>, key: Snapshot -> string)
  {
    forall i, j :: 0 <= i < j < |s| ==> LessOrEqual(key(s[j]), key(s[i]))
  }

  /** The elements of `s` whose key is `k`, in the order they occur in `s`. */
  function KeyFilter(s: seq<Snapshot>, key: Snapshot -> string, k: string): (r: seq<Snapshot>)
  {
    if |s| == 0 then []
    else (if key(s[0]) == k then [s[0]] else []) + KeyFilter(s[1..], key, k)
  }

  /** Places `x` in front of the first element whose key is not strictly
      greater than its own, so that `x` stays ahead of every element with an
      equal key. */
  function InsertDesc(x: Snapshot, s: seq<Snapshot>, key: Snapshot -> string): (r: seq<Snapshot>)
    ensures multiset(r) == multiset(s) + multiset{x}
    ensures SortedDesc(s, key) ==> SortedDesc(r, key)
  {
    if |s| == 0 then [x]
    else if Less(key(x), key(s[0])) then
      var rest := InsertDesc(x, s[1..], key);
      assert s == [s[0]] + s[1..];
      InsertedBelow(x, s, key, rest);
      [s[0]] + rest
    else
      LessTrichotomous(key(x), key(s[0]));
      InsertedAbove(x, s, key);
      [x] + s
  }

  lemma InsertedBelow(x: Snapshot, s: seq<Snapshot>, key: Snapshot -> string, rest: seq<Snapshot>)
    requires |s| > 0 && Less(key(x), key(s[0]))
    requires multiset(rest) == multiset(s[1..]) + multiset{x}
    requires SortedDesc(s, key) ==> SortedDesc(rest, key)
    ensures SortedDesc(s, key) ==> SortedDesc([s[0]] + rest, key)
  {
    if SortedDesc(s, key) {
      var r := [s[0]] + rest;
      forall i, j | 0 <= i < j < |r|
        ensures LessOrEqual(key(r[j]), key(r[i]))
      {
        if i == 0 {
          assert r[j] in multiset(rest) by { assert r[j] == rest[j - 1]; }
          if r[j] != x {
            assert r[j] in multiset(s[1..]);
            var m :| 0 <= m < |s[1..]| && s[1..][m] == r[j];
            assert s[m + 1] == r[j];
          }
        }
      }
    }
  }

  lemma InsertedAbove(x: Snapshot, s: seq<Snapshot>, key: Snapshot -> string)
    requires |s| > 0 && LessOrEqual(key(s[0]), key(x))
    ensures SortedDesc(s, key) ==> SortedDesc([x] + s, key)
  {
    if SortedDesc(s, key) {
      var r := [x] + s;
      forall i, j | 0 <= i < j < |r|
        ensures LessOrEqual(key(r[j]), key(r[i]))
      {
        if i == 0 && j > 1 {
          LessOrEqualTransitive(key(s[j - 1]), key(s[0]), key(x));
        }
      }
    }
  }

  /** Inserting never moves `x` past an element with the same key. */
  lemma {:induction false} InsertDescStable(x: Snapshot, s: seq<Snapshot>, key: Snapshot -> string, k: string)
    ensures KeyFilter(InsertDesc(x, s, key), key, k)
            == (if key(x) == k then [x] else []) + KeyFilter(s, key, k)
    decreases |s|
  {
    if |s| == 0 {
    } else if Less(key(x), key(s[0])) {
      var rest := InsertDesc(x, s[1..], key);
      InsertDescStable(x, s[1..], key, k);
      assert ([s[0]] + rest)[1..] == rest;
      if key(x) == k {
        LessIrreflexive(k);
      }
    } else {
      assert ([x] + s)[1..] == s;
    }
  }

  /** Python's `sorted(xs, key=key, reverse=True)`: a permutation of `xs`,
      ordered by non-increasing key, in which elements with equal keys keep
      their relative input order. */
  function SortDesc(xs: seq<Snapshot>, key: Snapshot -> string): (r: seq<Snapshot>)
    ensures multiset(r) == multiset(xs)
    ensures |r| == |xs|
    ensures SortedDesc(r, key)
    ensures forall k :: KeyFilter(r, key, k) == KeyFilter(xs, key, k)
    decreases |xs|
  {
    if |xs| == 0 then []
    else
      var sorted := SortDesc(xs[1..], key);
      assert xs == [xs[0]] + xs[1..];
      var r := InsertDesc(xs[0], sorted, key);
      assert |r| == |xs| by {
        assert |multiset(r)| == |multiset(xs)|;
      }
      assert forall k :: KeyFilter(r, key, k) == KeyFilter(xs, key, k) by {
        forall k {
          InsertDescStable(xs[0], sorted, key, k);
        }
      }
      r
  }

  /** The identifiers occurring in a listing. */
  function Identifiers(snaps: seq<Snapshot>): (ids: set<string>)
  {
    set i | 0 <= i < |snaps| :: snaps[i].identifier
  }

  /** `sorted(snaps, key=by_snapshot_id, reverse=True)[0]`'s identifier: the
      greatest identifier of the listing in Python's string order. */
  function LatestIdentifier(snaps: seq<Snapshot>): (id: string)
    requires |snaps| > 0
    ensures id in Identifiers(snaps)
    ensures forall i :: 0 <= i < |snaps| ==> LessOrEqual(snaps[i].identifier, id)
  {
    var sorted := SortDesc(snaps, ById);
    LatestIsGreatest(snaps, sorted);
    sorted[0].identifier
  }

  lemma LatestIsGreatest(snaps: seq<Snapshot>, sorted: seq<Snapshot>)
    requires |snaps| > 0
    requires multiset(sorted) == multiset(snaps) && SortedDesc(sorted, ById)
    ensures |sorted| > 0
    ensures sorted[0].identifier in Identifiers(snaps)
    ensures forall i :: 0 <= i < |snaps| ==> LessOrEqual(snaps[i].identifier, sorted[0].identifier)
  {
    assert snaps[0] in multiset(sorted);
    assert sorted[0] in multiset(snaps);
    var m :| 0 <= m < |snaps| && snaps[m] == sorted[0];
    assert sorted[0].identifier == snaps[m].identifier;
    forall i | 0 <= i < |snaps|
      ensures LessOrEqual(snaps[i].identifier, sorted[0].identifier)
    {
      assert snaps[i] in multiset(sorted);
      var j :| 0 <= j < |sorted| && sorted[j] == snaps[i];
      if j > 0 {
        assert LessOrEqual(ById(sorted[j]), ById(sorted[0]));
      }
    }
  }

  /** The selected identifier depends only on which identifiers are listed,
      not on the order the service lists them in. */
  lemma LatestIdentifierOrderIndependent(a: seq<Snapshot>, b: seq<Snapshot>)
    requires |a| > 0 && |b| > 0
    requires Identifiers(a) == Identifiers(b)
    ensures LatestIdentifier(a) == LatestIdentifier(b)
  {
    var x, y := LatestIdentifier(a), LatestIdentifier(b);
    assert x in Identifiers(b);
    assert y in Identifiers(a);
    var i :| 0 <= i < |b| && b[i].identifier == x;
    var j :| 0 <= j < |a| && a[j].identifier == y;
    LessOrEqualAntisymmetric(x, y);
  }
}

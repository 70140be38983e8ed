/** Retention of the target-side manual copies: keep the `keep` newest by
    `by_timestamp`, delete the rest in sorted order.
 */
module Retention {
  import opened Lexicographic
  import opened Snapshots

  /** The copies the source deletes, in the order it deletes them:
      `sorted(copies, key=by_timestamp, reverse=True)[keep:]` when there are
      more than `keep` copies, and none otherwise. */
  function PruneTargets(copies: seq<Snapshot>, keep: nat, now: string): (doomed: seq<Snapshot>)
    ensures |doomed| == if |copies| > keep then |copies| - keep else 0
    ensures multiset(doomed) <= multiset(copies)
  {
    if |copies| > keep then
      var sorted := SortDesc(copies, TimestampKey(now));
      assert sorted == sorted[..keep] + sorted[keep..];
      sorted[keep..]
    else []
  }

  /** The copies left in place after pruning. */
  function Retained(copies: seq<Snapshot>, keep: nat, now: string): (kept: seq<Snapshot>)
  {
    if |copies| > keep then SortDesc(copies, TimestampKey(now))[..keep] else copies
  }

  /** Pruning splits the copies: what is kept and what is deleted together
      are exactly the copies found, and at most `keep` are kept. */
  lemma PrunePartitions(copies: seq<Snapshot>, keep: nat, now: string)
    ensures multiset(Retained(copies, keep, now)) + multiset(PruneTargets(copies, keep, now))
            == multiset(copies)
    ensures |Retained(copies, keep, now)| == if |copies| > keep then keep else |copies|
  {
    if |copies| > keep {
      var sorted := SortDesc(copies, TimestampKey(now));
      SplitMultiset(sorted, keep);
    }
  }

  lemma SplitMultiset(s: seq<Snapshot>, n: nat)
    requires n <= |s|
    ensures multiset(s[..n]) + multiset(s[n..]) == multiset(s)
  {
    assert s == s[..n] + s[n..];
  }

  /** With no more than `keep` copies nothing is deleted. */
  lemma PruneWithinLimitIsNoOp(copies: seq<Snapshot>, keep: nat, now: string)
    requires |copies| <= keep
    ensures PruneTargets(copies, keep, now) == []
    ensures Retained(copies, keep, now) == copies
  {
  }

  /** No kept copy is older than a deleted one. */
  lemma RetainedNotOlder(copies: seq<Snapshot>, keep: nat, now: string, i: int, j: int)
    requires 0 <= i < |Retained(copies, keep, now)|
    requires 0 <= j < |PruneTargets(copies, keep, now)|
    ensures LessOrEqual(ByTimestamp(PruneTargets(copies, keep, now)[j], now),
                        ByTimestamp(Retained(copies, keep, now)[i], now))
  {
    var sorted := SortDesc(copies, TimestampKey(now));
    assert Retained(copies, keep, now)[i] == sorted[i];
    assert PruneTargets(copies, keep, now)[j] == sorted[keep + j];
    assert LessOrEqual(TimestampKey(now)(sorted[keep + j]), TimestampKey(now)(sorted[i]));
  }

  /** Deleted copies are visited newest first. */
  lemma PruneTargetsNewestFirst(copies: seq<Snapshot>, keep: nat, now: string, i: int, j: int)
    requires 0 <= i < j < |PruneTargets(copies, keep, now)|
    ensures LessOrEqual(ByTimestamp(PruneTargets(copies, keep, now)[j], now),
                        ByTimestamp(PruneTargets(copies, keep, now)[i], now))
  {
    var sorted := SortDesc(copies, TimestampKey(now));
    assert PruneTargets(copies, keep, now)[i] == sorted[keep + i];
    assert PruneTargets(copies, keep, now)[j] == sorted[keep + j];
    assert LessOrEqual(TimestampKey(now)(sorted[keep + j]), TimestampKey(now)(sorted[keep + i]));
  }

  /** A copy without a creation time sorts as if created `now`: it is deleted
      only when every kept copy has a key no older than `now`. */
  lemma UndatedDeletedOnlyBehindNow(copies: seq<Snapshot>, keep: nat, now: string, i: int, j: int)
    requires 0 <= j < |PruneTargets(copies, keep, now)|
    requires PruneTargets(copies, keep, now)[j].createTime.None?
    requires 0 <= i < |Retained(copies, keep, now)|
    ensures LessOrEqual(now, ByTimestamp(Retained(copies, keep, now)[i], now))
  {
    RetainedNotOlder(copies, keep, now, i, j);
  }
}

/** How a copy is named: the source snapshot's ARN and the target identifier
    `copy-of-` + `re.sub('rds:', '', id)`.
 */
module Naming {
  import opened Snapshots

  const Marker: string := "rds:"
  const CopyPrefix: string := "copy-of-"

  /** `Marker` occurs in `s` starting at position `p`. */
  predicate OccursAt(s: string, p: int)
  {
    0 <= p && p + 4 <= |s| && s[p..p + 4] == Marker
  }

  predicate ContainsMarker(s: string)
  {
    exists p :: 0 <= p <= |s| - 4 && OccursAt(s, p)
  }

  /** `re.sub('rds:', '', s)`: one left-to-right scan that drops each
      occurrence it meets and resumes after it. The result is not rescanned. */
  function StripRds(s: string): (r: string)
    decreases |s|
  {
    if |s| < 4 then s
    else if s[..4] == Marker then StripRds(s[4..])
    else [s[0]] + StripRds(s[1..])
  }

  /** `Marker.join(pieces)`. */
  function Join(pieces: seq<string>): (s: string)
    decreases |pieces|
  {
    if |pieces| == 0 then ""
    else if |pieces| == 1 then pieces[0]
    else pieces[0] + Marker + Join(pieces[1..])
  }

  /** `"".join(pieces)`. */
  function Concat(pieces: seq<string>): (s: string)
    decreases |pieces|
  {
    if |pieces| == 0 then "" else pieces[0] + Concat(pieces[1..])
  }

  ghost predicate MarkerFree(pieces: seq<string>)
  {
    forall j :: 0 <= j < |pieces| ==> !ContainsMarker(pieces[j])
  }

  /** Dropping the first character of a marker-free string keeps it free. */
  lemma MarkerFreeTail(p: string)
    requires |p| > 0 && !ContainsMarker(p)
    ensures !ContainsMarker(p[1..])
  {
    var q := p[1..];
    forall k | 0 <= k <= |q| - 4 && OccursAt(q, k)
      ensures false
    {
      assert p[k + 1..k + 5] == q[k..k + 4];
      assert OccursAt(p, k + 1);
    }
  }

  /** No occurrence starts at the front of `p + t` when `p` is non-empty and
      marker-free and `t` is empty or begins with the marker. */
  lemma NoMarkerAtBoundary(p: string, t: string)
    requires |p| > 0 && !ContainsMarker(p)
    requires |t| == 0 || OccursAt(t, 0)
    ensures !OccursAt(p + t, 0)
  {
    if |p| >= 4 {
      assert p[0..4] == (p + t)[0..4];
      assert !OccursAt(p, 0);
    } else if |t| > 0 {
      assert (p + t)[|p|] == t[0] == t[0..4][0];
      assert Marker[|p|] != 'r';
    }
  }

  /** A prefix free of the marker passes through the scan unchanged, as long
      as what follows it is empty or begins with the marker (the marker has
      no proper border, so no occurrence can straddle the boundary). */
  lemma {:induction false} StripRdsFreePrefix(p: string, t: string)
    requires !ContainsMarker(p)
    requires |t| == 0 || OccursAt(t, 0)
    ensures StripRds(p + t) == p + StripRds(t)
    decreases |p|
  {
    if |p| == 0 {
      assert p + t == t;
    } else {
      var q := p[1..];
      NoMarkerAtBoundary(p, t);
      MarkerFreeTail(p);
      StripRdsFreePrefix(q, t);
      assert (p + t)[1..] == q + t;
      if |p + t| < 4 {
        assert p + t == p;
      } else {
        assert (p + t)[..4] != Marker by {
          assert (p + t)[0..4] == (p + t)[..4];
        }
        assert StripRds(p + t) == [p[0]] + StripRds(q + t);
      }
      assert p == [p[0]] + q;
    }
  }

  /** A string without the letter `r` cannot contain the marker. */
  lemma WithoutLetterR(s: string)
    requires 'r' !in s
    ensures !ContainsMarker(s)
  {
    forall k | 0 <= k <= |s| - 4
      ensures !OccursAt(s, k)
    {
      assert s[k..k + 4][0] == s[k];
      assert s[k] in s;
    }
  }

  /** Removing the marker wherever it separates marker-free pieces gives back
      the pieces run together: `re.sub` agrees with `"".join(s.split("rds:"))`. */
  lemma {:induction false} StripRdsOfJoin(pieces: seq<string>)
    requires MarkerFree(pieces)
    ensures StripRds(Join(pieces)) == Concat(pieces)
    decreases |pieces|
  {
    if |pieces| == 0 {
    } else if |pieces| == 1 {
      StripRdsFreePrefix(pieces[0], "");
      assert pieces[0] + "" == pieces[0];
    } else {
      var rest := Join(pieces[1..]);
      var t := Marker + rest;
      assert OccursAt(t, 0) by { assert t[0..4] == Marker; }
      StripRdsFreePrefix(pieces[0], t);
      assert Join(pieces) == pieces[0] + t;
      assert t[..4] == Marker && t[4..] == rest;
      StripRdsOfJoin(pieces[1..]);
    }
  }

  /** Every identifier splits at the occurrences the scan removes into
      marker-free pieces whose concatenation is the scan's result. */
  lemma {:induction false} StripRdsSplits(s: string)
    returns (pieces: seq<string>)
    ensures |pieces| > 0 && MarkerFree(pieces)
    ensures Join(pieces) == s
    ensures Concat(pieces) == StripRds(s)
    decreases |s|
  {
    if |s| < 4 {
      pieces := [s];
      assert !ContainsMarker(s);
    } else if s[..4] == Marker {
      var tail := StripRdsSplits(s[4..]);
      pieces := SplitAfterMarker(s, tail);
    } else {
      var tail := StripRdsSplits(s[1..]);
      pieces := SplitAfterLetter(s, tail);
    }
  }

  lemma SplitAfterMarker(s: string, tail: seq<string>) returns (pieces: seq<string>)
    requires |s| >= 4 && s[..4] == Marker
    requires |tail| > 0 && MarkerFree(tail) && Join(tail) == s[4..]
    requires Concat(tail) == StripRds(s[4..])
    ensures |pieces| > 0 && MarkerFree(pieces)
    ensures Join(pieces) == s
    ensures Concat(pieces) == StripRds(s)
  {
    pieces := [""] + tail;
    assert !ContainsMarker("");
    assert MarkerFree(pieces) by {
      forall j | 0 < j < |pieces| ensures !ContainsMarker(pieces[j]) {
        assert pieces[j] == tail[j - 1];
      }
    }
    assert pieces[1..] == tail;
    assert s == s[..4] + s[4..];
  }

  lemma SplitAfterLetter(s: string, tail: seq<string>) returns (pieces: seq<string>)
    requires |s| >= 4 && s[..4] != Marker
    requires |tail| > 0 && MarkerFree(tail) && Join(tail) == s[1..]
    requires Concat(tail) == StripRds(s[1..])
    ensures |pieces| > 0 && MarkerFree(pieces)
    ensures Join(pieces) == s
    ensures Concat(pieces) == StripRds(s)
  {
    var head := [s[0]] + tail[0];
    pieces := [head] + tail[1..];
    assert pieces[1..] == tail[1..];
    assert Join(pieces) == [s[0]] + Join(tail) by {
      if |tail| > 1 {
        assert Join(tail) == tail[0] + Marker + Join(tail[1..]);
      }
    }
    assert s == [s[0]] + s[1..];
    assert Concat(pieces) == [s[0]] + Concat(tail);
    assert !ContainsMarker(head) by {
      if |head| >= 4 {
        JoinHead(tail);
        HeadWindow(s, tail[0], Join(tail));
      }
      forall k | 0 <= k <= |head| - 4
        ensures !OccursAt(head, k)
      {
        if k > 0 {
          assert tail[0][k - 1..k + 3] == head[k..k + 4];
          assert !OccursAt(tail[0], k - 1);
        }
      }
    }
    assert MarkerFree(pieces) by {
      forall j | 0 < j < |pieces| ensures !ContainsMarker(pieces[j]) {
        assert pieces[j] == tail[j];
      }
    }
  }

  lemma JoinHead(pieces: seq<string>)
    requires |pieces| > 0
    ensures |pieces[0]| <= |Join(pieces)|
    ensures Join(pieces)[..|pieces[0]|] == pieces[0]
  {
  }

  /** The first four characters of `s[0]` followed by a prefix of `s[1..]`
      are the first four characters of `s`. */
  lemma HeadWindow(s: string, first: string, rest: string)
    requires |s| >= 4 && s[1..] == rest
    requires |first| <= |rest| && rest[..|first|] == first
    requires |first| >= 3
    ensures ([s[0]] + first)[..4] == s[..4]
  {
    assert first[..3] == s[1..4];
  }

  lemma {:induction false} JoinLength(pieces: seq<string>)
    requires |pieces| > 0
    ensures |Join(pieces)| == |Concat(pieces)| + 4 * (|pieces| - 1)
    decreases |pieces|
  {
    if |pieces| > 1 {
      JoinLength(pieces[1..]);
    }
  }

  /** The target identifier of the copy of `sourceId`. */
  function TargetId(sourceId: string): (id: string)
  {
    CopyPrefix + StripRds(sourceId)
  }

  /** The target identifier is `copy-of-` followed by the source identifier
      with the `k` removed occurrences taken out, so it is `8 + |src| - 4k`
      characters long. */
  lemma TargetIdShape(sourceId: string, pieces: seq<string>)
    requires |pieces| > 0 && MarkerFree(pieces) && Join(pieces) == sourceId
    ensures TargetId(sourceId) == CopyPrefix + Concat(pieces)
    ensures |TargetId(sourceId)| == 8 + |sourceId| - 4 * (|pieces| - 1)
  {
    StripRdsOfJoin(pieces);
    JoinLength(pieces);
  }

  /** An identifier without the marker is copied under `copy-of-<id>`. */
  lemma TargetIdWithoutMarker(sourceId: string)
    requires !ContainsMarker(sourceId)
    ensures TargetId(sourceId) == CopyPrefix + sourceId
  {
    StripRdsOfJoin([sourceId]);
  }

  /** Automated identifiers `rds:<name>` lose their `rds:` prefix. */
  lemma TargetIdOfAutomated(name: string)
    requires !ContainsMarker(name)
    ensures TargetId(Marker + name) == CopyPrefix + name
  {
    assert Join(["", name]) == Marker + name;
    assert ["", name][1..] == [name] && [name][1..] == [];
    assert Concat([name]) == name + Concat([]);
    assert Concat(["", name]) == "" + Concat([name]);
    assert !ContainsMarker("");
    StripRdsOfJoin(["", name]);
  }

  /** `rds:mydb-2024-01-01` is copied as `copy-of-mydb-2024-01-01`. */
  lemma TargetIdOfAutomatedExample()
    ensures TargetId(Marker + "mydb-2024-01-01") == "copy-of-mydb-2024-01-01"
  {
    WithoutLetterR("mydb-2024-01-01");
    TargetIdOfAutomated("mydb-2024-01-01");
  }

  /** A single marker between two marker-free parts is cut out. */
  lemma TargetIdOfInnerMarker(front: string, back: string)
    requires !ContainsMarker(front) && !ContainsMarker(back)
    ensures TargetId(front + Marker + back) == CopyPrefix + front + back
  {
    var pieces := [front, back];
    assert pieces[1..] == [back] && [back][1..] == [];
    assert Join(pieces) == front + Marker + back;
    assert Concat([back]) == back + Concat([]);
    assert Concat(pieces) == front + back;
    StripRdsOfJoin(pieces);
  }


  /** `mydb-snap-rds:final` is copied as `copy-of-mydb-snap-final`. */
  lemma TargetIdOfInnerMarkerExample()
    ensures TargetId("mydb-snap-" + Marker + "final") == "copy-of-mydb-snap-final"
  {
    WithoutLetterR("mydb-snap-");
    WithoutLetterR("final");
    TargetIdOfInnerMarker("mydb-snap-", "final");
  }

  /** The scan is not a fixpoint: its result may still contain the marker. */
  lemma StripRdsNotIdempotent()
    ensures StripRds("rrds:ds:x") == "rds:x"
    ensures ContainsMarker(StripRds("rrds:ds:x"))
  {
    WithoutLetterR("ds:x");
    assert !ContainsMarker("r");
    TargetIdOfInnerMarker("r", "ds:x");
    assert "r" + Marker + "ds:x" == "rrds:ds:x";
    assert OccursAt("rds:x", 0);
  }

  /** Distinct source identifiers can map to the same target identifier. */
  lemma TargetIdCollides()
    ensures TargetId("rds:db-1") == TargetId("db-1")
  {
    WithoutLetterR("db-1");
    TargetIdOfAutomated("db-1");
    TargetIdWithoutMarker("db-1");
  }

  /** The resource type segment of a snapshot ARN. */
  function ArnResourceType(kind: Kind): (t: string)
  {
    match kind
    case Instance => "snapshot"
    case Cluster => "cluster-snapshot"
  }

  /** `arn:aws:rds:<region>:<account>:snapshot:<id>` for instances and
      `...:cluster-snapshot:<id>` for clusters. */
  function SourceArn(region: string, account: string, kind: Kind, id: string): (arn: string)
  {
    "arn:aws:rds:" + region + ":" + account + ":" + ArnResourceType(kind) + ":" + id
  }

  /** The ARN starts with the region and account and ends with the identifier. */
  lemma SourceArnParts(region: string, account: string, kind: Kind, id: string)
    ensures var arn := SourceArn(region, account, kind, id);
            var head := "arn:aws:rds:" + region + ":" + account + ":";
            && arn[..|head|] == head
            && arn[|arn| - |id|..] == id
            && arn[|head|..|arn| - |id|] == ArnResourceType(kind) + ":"
  {
  }

  /** Within one region and account, different snapshots (of either kind)
      have different ARNs. */
  lemma SourceArnInjective(region: string, account: string, k1: Kind, id1: string, k2: Kind, id2: string)
    requires SourceArn(region, account, k1, id1) == SourceArn(region, account, k2, id2)
    ensures k1 == k2 && id1 == id2
  {
    var head := "arn:aws:rds:" + region + ":" + account + ":";
    var a1 := SourceArn(region, account, k1, id1);
    var a2 := SourceArn(region, account, k2, id2);
    assert a1 == head + (ArnResourceType(k1) + ":" + id1);
    assert a2 == head + (ArnResourceType(k2) + ":" + id2);
    assert a1[|head|] == ArnResourceType(k1)[0];
    assert a2[|head|] == ArnResourceType(k2)[0];
    assert k1 == k2;
    var tail := head + ArnResourceType(k1) + ":";
    assert a1 == tail + id1 && a2 == tail + id2;
    assert id1 == a1[|tail|..];
    assert id2 == a2[|tail|..];
  }
}

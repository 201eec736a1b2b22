/** The last-write-wins conflict detector, and when the order in which versions
    meet it does not matter. */
module Conflict {
  import opened Base
  import opened PeerIds

  datatype FileVersion = FileVersion(hash: Hash, version: nat, timestamp: int, peer: PeerId)

  datatype Action = AcceptRemote | KeepLocal | Skip

  datatype Resolution = Resolution(action: Action, isConflict: bool)

  function Resolve(local: FileVersion, remote: FileVersion): Resolution
  {
    if local.hash == remote.hash then Resolution(Skip, false)
    else if remote.version > local.version then Resolution(AcceptRemote, false)
    else if local.version > remote.version then Resolution(KeepLocal, false)
    else ResolveConcurrent(local, remote)
  }

  function ResolveConcurrent(local: FileVersion, remote: FileVersion): Resolution
  {
    if remote.timestamp > local.timestamp then Resolution(AcceptRemote, true)
    else if local.timestamp > remote.timestamp then Resolution(KeepLocal, true)
    else if Less(local.peer, remote.peer) then Resolution(AcceptRemote, true)
    else Resolution(KeepLocal, true)
  }

  // ----- The order that "last write" refers to -----

  /** `a` is a later write than `b`: version, then timestamp, then peer. */
  predicate Outranks(a: FileVersion, b: FileVersion)
  {
    || a.version > b.version
    || (a.version == b.version && a.timestamp > b.timestamp)
    || (a.version == b.version && a.timestamp == b.timestamp && Less(b.peer, a.peer))
  }

  predicate SameRank(a: FileVersion, b: FileVersion)
  {
    a.version == b.version && a.timestamp == b.timestamp && a.peer == b.peer
  }

  lemma RankIsTotal(a: FileVersion, b: FileVersion)
    ensures Outranks(a, b) || Outranks(b, a) || SameRank(a, b)
    ensures !(Outranks(a, b) && Outranks(b, a))
    ensures SameRank(a, b) ==> !Outranks(a, b)
  {
    Trichotomy(a.peer, b.peer);
  }

  lemma RankIsTransitive(a: FileVersion, b: FileVersion, c: FileVersion)
    requires Outranks(a, b) && Outranks(b, c)
    ensures Outranks(a, c)
  {
    if Less(b.peer, a.peer) && Less(c.peer, b.peer) {
      Transitive(c.peer, b.peer, a.peer);
    }
  }

  /** Resolution is last-write-wins on different content, and the two ends of a
      comparison never both keep, nor both give up, their version. */
  lemma ResolveIsLastWriteWins(local: FileVersion, remote: FileVersion)
    ensures Resolve(local, remote).action.AcceptRemote?
            <==> local.hash != remote.hash && Outranks(remote, local)
    ensures Resolve(local, remote).action.Skip? <==> local.hash == remote.hash
    ensures Resolve(local, remote).isConflict
            <==> local.hash != remote.hash && local.version == remote.version
    ensures local.peer != remote.peer && local.hash != remote.hash ==>
              (Resolve(local, remote).action.AcceptRemote?
               <==> Resolve(remote, local).action.KeepLocal?)
  {
    Trichotomy(local.peer, remote.peer);
  }

  // ----- Folding many versions -----

  /** What a holder of `held` holds after meeting `v`. */
  function Meet(held: FileVersion, v: FileVersion): FileVersion
  {
    if Resolve(held, v).action.AcceptRemote? then v else held
  }

  function Fold(s: seq<FileVersion>): FileVersion
    requires |s| > 0
  {
    if |s| == 1 then s[0] else Meet(Fold(s[..|s| - 1]), s[|s| - 1])
  }

  lemma FoldSnoc(s: seq<FileVersion>, v: FileVersion)
    requires |s| > 0
    ensures Fold(s + [v]) == Meet(Fold(s), v)
  {
    assert (s + [v])[..|s|] == s;
  }

  lemma {:induction false} FoldIsMember(s: seq<FileVersion>)
    requires |s| > 0
    ensures Fold(s) in s
  {
    if |s| > 1 {
      FoldIsMember(s[..|s| - 1]);
    }
  }

  /** A version that nothing outranks stays if it comes first. */
  lemma {:induction false} FirstMaximumStays(s: seq<FileVersion>)
    requires |s| > 0
    requires forall v | v in s :: !Outranks(v, s[0])
    ensures Fold(s) == s[0]
  {
    if |s| > 1 {
      FirstMaximumStays(s[..|s| - 1]);
      ResolveIsLastWriteWins(s[0], s[|s| - 1]);
    }
  }

  lemma {:induction false} EqualHashesKeepFirst(s: seq<FileVersion>)
    requires |s| > 0
    requires forall v | v in s :: v.hash == s[0].hash
    ensures Fold(s) == s[0]
  {
    if |s| > 1 {
      EqualHashesKeepFirst(s[..|s| - 1]);
    }
  }

  /** `w`'s content wins every comparison that matters: `w` outranks all other content, and
      no other content outranks an older copy of `w`'s content. */
  ghost predicate Dominates(s: seq<FileVersion>, w: FileVersion)
  {
    && w in s
    && (forall b | b in s && b.hash != w.hash :: Outranks(w, b))
    && (forall a, b | a in s && b in s && a.hash == w.hash && b.hash != w.hash :: !Outranks(b, a))
  }

  ghost predicate OrderIndependent(s: seq<FileVersion>)
    requires |s| > 0
  {
    forall p: seq<FileVersion>, q: seq<FileVersion> |
      multiset(p) == multiset(s) && multiset(q) == multiset(s) :: Fold(p).hash == Fold(q).hash
  }

  lemma {:induction false} DominatorWins(s: seq<FileVersion>, t: seq<FileVersion>, w: FileVersion)
    requires Dominates(s, w) && |t| > 0 && w in t
    requires forall v | v in t :: v in s
    ensures Fold(t).hash == w.hash
  {
    if |t| > 1 {
      var init, last := t[..|t| - 1], t[|t| - 1];
      assert t == init + [last];
      FoldIsMember(init);
      ResolveIsLastWriteWins(Fold(init), last);
      if w in init {
        DominatorWins(s, init, w);
      }
    }
  }

  lemma {:induction false} HasMaximum(s: seq<FileVersion>) returns (i: nat)
    requires |s| > 0
    ensures i < |s| && forall v | v in s :: !Outranks(v, s[i])
  {
    var last := |s| - 1;
    RankIsTotal(s[last], s[last]);
    if last == 0 {
      return 0;
    }
    i := HasMaximum(s[..last]);
    RankIsTotal(s[last], s[i]);
    if Outranks(s[last], s[i]) {
      forall v | v in s ensures !Outranks(v, s[last]) {
        if Outranks(v, s[last]) {
          assert v in s[..last];
          RankIsTransitive(v, s[last], s[i]);
        }
      }
      return last;
    }
    assert s == s[..last] + [s[last]];
  }

  function ToFront(s: seq<FileVersion>, i: nat): seq<FileVersion>
    requires i < |s|
  {
    [s[i]] + s[..i] + s[i + 1..]
  }

  lemma ToFrontPermutes(s: seq<FileVersion>, i: nat)
    requires i < |s|
    ensures multiset(ToFront(s, i)) == multiset(s)
    ensures forall v :: v in ToFront(s, i) <==> v in s
  {
    assert s == s[..i] + [s[i]] + s[i + 1..];
    assert forall v :: v in multiset(ToFront(s, i)) <==> v in multiset(s);
  }

  function WithHash(s: seq<FileVersion>, h: Hash, same: bool): seq<FileVersion>
  {
    if s == [] then []
    else (if (s[0].hash == h) == same then [s[0]] else []) + WithHash(s[1..], h, same)
  }

  lemma {:induction false} WithHashPartitions(s: seq<FileVersion>, h: Hash)
    ensures multiset(WithHash(s, h, true)) + multiset(WithHash(s, h, false)) == multiset(s)
    ensures forall v :: v in WithHash(s, h, true) <==> v in s && v.hash == h
    ensures forall v :: v in WithHash(s, h, false) <==> v in s && v.hash != h
  {
    if s != [] {
      WithHashPartitions(s[1..], h);
      assert s == [s[0]] + s[1..];
    }
  }

  /** Once an older copy `a` is held, content that outranks it displaces the hash for good. */
  lemma {:induction false} DisplacedForGood(pre: seq<FileVersion>, t: seq<FileVersion>, a: FileVersion)
    requires |pre| > 0 && Fold(pre) == a
    requires forall v | v in t :: v.hash != a.hash
    ensures Fold(pre + t).hash == a.hash ==>
              Fold(pre + t) == a && forall v | v in t :: !Outranks(v, a)
  {
    if t == [] {
      assert pre + t == pre;
    } else {
      var init, last := t[..|t| - 1], t[|t| - 1];
      assert t == init + [last] && pre + t == (pre + init) + [last];
      DisplacedForGood(pre, init, a);
      FoldSnoc(pre + init, last);
      ResolveIsLastWriteWins(Fold(pre + init), last);
    }
  }

  lemma EqualRankMustShareHash(s: seq<FileVersion>, m: nat, j: nat)
    requires |s| > 0 && OrderIndependent(s) && m < |s| && j < |s|
    requires forall v | v in s :: !Outranks(v, s[m])
    requires SameRank(s[m], s[j])
    ensures s[m].hash == s[j].hash
  {
    ToFrontPermutes(s, m);
    ToFrontPermutes(s, j);
    FirstMaximumStays(ToFront(s, m));
    FirstMaximumStays(ToFront(s, j));
  }

  lemma OlderCopyMustBeSafe(s: seq<FileVersion>, m: nat, a: FileVersion, b: FileVersion)
    requires |s| > 0 && OrderIndependent(s) && m < |s| && a in s && b in s
    requires forall v | v in s :: !Outranks(v, s[m])
    requires a.hash == s[m].hash && b.hash != s[m].hash
    ensures !Outranks(b, a)
  {
    var h := s[m].hash;
    var same, others := WithHash(s, h, true), WithHash(s, h, false);
    WithHashPartitions(s, h);
    var j :| 0 <= j < |same| && same[j] == a;
    ToFrontPermutes(same, j);
    EqualHashesKeepFirst(ToFront(same, j));
    DisplacedForGood(ToFront(same, j), others, a);
    ToFrontPermutes(s, m);
    FirstMaximumStays(ToFront(s, m));
    assert multiset(ToFront(same, j) + others) == multiset(s);
  }

  /** The order of arrival is irrelevant to the content that survives exactly when some
      version dominates. */
  lemma OrderIndependentIff(s: seq<FileVersion>)
    requires |s| > 0
    ensures OrderIndependent(s) <==> exists w :: Dominates(s, w)
  {
    if w :| Dominates(s, w) {
      forall p: seq<FileVersion> | multiset(p) == multiset(s) ensures |p| > 0 && Fold(p).hash == w.hash {
        SameElements(s, p);
        DominatorWins(s, p, w);
      }
    }
    if OrderIndependent(s) {
      var m := HasMaximum(s);
      forall b | b in s && b.hash != s[m].hash ensures Outranks(s[m], b) {
        RankIsTotal(s[m], b);
        if SameRank(s[m], b) {
          var j :| 0 <= j < |s| && s[j] == b;
          EqualRankMustShareHash(s, m, j);
        }
      }
      forall a, b | a in s && b in s && a.hash == s[m].hash && b.hash != s[m].hash
        ensures !Outranks(b, a)
      {
        OlderCopyMustBeSafe(s, m, a, b);
      }
      assert Dominates(s, s[m]);
    }
  }

  ghost predicate HashIsRank(s: seq<FileVersion>)
  {
    forall a, b | a in s && b in s :: a.hash == b.hash <==> SameRank(a, b)
  }

  lemma MaximumDominates(s: seq<FileVersion>, m: nat)
    requires m < |s| && HashIsRank(s)
    requires forall v | v in s :: !Outranks(v, s[m])
    ensures Dominates(s, s[m])
    ensures forall v | v in s :: v == s[m] || Outranks(s[m], v)
  {
    forall v | v in s ensures v == s[m] || Outranks(s[m], v) {
      RankIsTotal(s[m], v);
    }
  }

  lemma SameElements(s: seq<FileVersion>, t: seq<FileVersion>)
    requires multiset(t) == multiset(s)
    ensures |t| == |s| && forall v :: v in t <==> v in s
  {
    assert |t| == |multiset(t)| && |s| == |multiset(s)|;
    assert forall v :: v in t <==> v in multiset(t);
    assert forall v :: v in s <==> v in multiset(s);
  }

  lemma OrderLeavesMaximum(s: seq<FileVersion>, m: nat, t: seq<FileVersion>)
    requires m < |s| && HashIsRank(s) && Dominates(s, s[m]) && multiset(t) == multiset(s)
    requires forall v | v in s :: v == s[m] || Outranks(s[m], v)
    ensures |t| > 0 && Fold(t) == s[m]
  {
    SameElements(s, t);
    DominatorWins(s, t, s[m]);
    FoldIsMember(t);
    RankIsTotal(s[m], Fold(t));
  }

  /** When content and rank determine each other, every order of arrival leaves the one
      version that outranks all the rest. */
  lemma EveryOrderLeavesTheMaximum(s: seq<FileVersion>, p: seq<FileVersion>)
    requires |s| > 0 && HashIsRank(s) && multiset(p) == multiset(s)
    ensures |p| > 0 && Fold(p) == Fold(s) && Fold(p) in s
    ensures forall v | v in s :: v == Fold(p) || Outranks(Fold(p), v)
  {
    var m := HasMaximum(s);
    MaximumDominates(s, m);
    OrderLeavesMaximum(s, m, s);
    OrderLeavesMaximum(s, m, p);
  }

  lemma FoldThree(a: FileVersion, b: FileVersion, c: FileVersion)
    ensures Fold([a, b, c]) == Meet(Meet(a, b), c)
  {
    assert [a, b, c] == [a, b] + [c] && [a, b] == [a] + [b];
    FoldSnoc([a, b], c);
    FoldSnoc([a], b);
  }

  /** The hypothesis is needed: a stale copy of the newest content makes order matter,
      because equal hashes are skipped without looking at versions. */
  lemma StaleCopyMakesOrderMatter(stale: FileVersion, mid: FileVersion, newest: FileVersion)
    requires stale.hash == newest.hash != mid.hash
    requires stale.version < mid.version < newest.version
    ensures Fold([mid, stale, newest]) == newest && Fold([stale, newest, mid]) == mid
    ensures !OrderIndependent([stale, newest, mid])
  {
    FoldThree(mid, stale, newest);
    FoldThree(stale, newest, mid);
    var p, q := [mid, stale, newest], [stale, newest, mid];
    assert multiset(p) == multiset(q);
  }
}

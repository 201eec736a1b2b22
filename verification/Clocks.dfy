/** Lamport and vector clocks, and the lattice that vector clocks form. */
module Clocks {
  import opened PeerIds

  function Max(a: nat, b: nat): nat { if a < b then b else a }

  class LamportClock {
    var counter: nat

    constructor ()
      ensures counter == 0
    {
      counter := 0;
    }

    constructor At(value: nat)
      ensures counter == value
    {
      counter := value;
    }

    method Tick() returns (now: nat)
      modifies this
      ensures counter == old(counter) + 1 == now
    {
      counter := counter + 1;
      now := counter;
    }

    /** After a witness the clock is past both what it was and what it saw. */
    method Witness(remote: nat) returns (now: nat)
      modifies this
      ensures counter == Max(old(counter), remote) + 1 == now
    {
      if remote > counter {
        counter := remote;
      }
      counter := counter + 1;
      now := counter;
    }
  }

  // ----- Vector clocks as values: a missing entry reads as 0 -----

  type Clock = map<PeerId, nat>

  function At(c: Clock, p: PeerId): nat { if p in c then c[p] else 0 }

  ghost predicate Leq(a: Clock, b: Clock)
  {
    forall p: PeerId :: At(a, p) <= At(b, p)
  }

  /** Equal up to entries that are 0. */
  ghost predicate Same(a: Clock, b: Clock)
  {
    forall p: PeerId :: At(a, p) == At(b, p)
  }

  function Ticked(c: Clock, p: PeerId): Clock { c[p := At(c, p) + 1] }

  function Merged(a: Clock, b: Clock): Clock
  {
    map p | p in a.Keys + b.Keys && (p in a || At(b, p) > 0) :: Max(At(a, p), At(b, p))
  }

  lemma MergedAt(a: Clock, b: Clock, p: PeerId)
    ensures At(Merged(a, b), p) == Max(At(a, p), At(b, p))
  {
  }

  datatype Ordering = Equal | Before | After | Concurrent

  /** The causal relation, stated by the pointwise order alone. */
  ghost function Order(a: Clock, b: Clock): Ordering
  {
    if Leq(a, b) && Leq(b, a) then Equal
    else if Leq(a, b) then Before
    else if Leq(b, a) then After
    else Concurrent
  }

  class VectorClock {
    var clocks: Clock

    constructor ()
      ensures clocks == map[]
    {
      clocks := map[];
    }

    method Tick(peer: PeerId) returns (now: nat)
      modifies this
      ensures clocks == Ticked(old(clocks), peer) && now == At(clocks, peer)
    {
      clocks := clocks[peer := At(clocks, peer) + 1];
      now := clocks[peer];
    }

    method Merge(remote: Clock)
      modifies this
      ensures clocks == Merged(old(clocks), remote)
    {
      var todo := remote.Keys;
      while todo != {}
        invariant todo <= remote.Keys
        invariant forall p :: p in clocks <==>
                    p in old(clocks) || (p in remote && p !in todo && remote[p] > 0)
        invariant forall p :: At(clocks, p) ==
                    if p in todo then At(old(clocks), p) else Max(At(old(clocks), p), At(remote, p))
        decreases todo
      {
        var k :| k in todo;
        if remote[k] > At(clocks, k) {
          clocks := clocks[k := remote[k]];
        }
        todo := todo - {k};
      }
      forall p ensures At(clocks, p) == At(Merged(old(clocks), remote), p) {
        MergedAt(old(clocks), remote, p);
      }
      assert forall p :: p in clocks ==> clocks[p] == At(clocks, p);
    }

    method Compare(other: VectorClock?) returns (o: Ordering)
      ensures o == if other == null then After else Order(clocks, other.clocks)
    {
      if other == null {
        return After;
      }
      var right := other.clocks;
      var todo := clocks.Keys + right.Keys;
      var hasLess, hasGreater := false, false;
      while todo != {}
        invariant todo <= clocks.Keys + right.Keys
        invariant !(hasLess && hasGreater)
        invariant hasLess ==> !Leq(right, clocks)
        invariant hasGreater ==> !Leq(clocks, right)
        invariant !hasLess ==> forall p | p !in todo :: At(right, p) <= At(clocks, p)
        invariant !hasGreater ==> forall p | p !in todo :: At(clocks, p) <= At(right, p)
        decreases todo
      {
        var k :| k in todo;
        var l, r := At(clocks, k), At(right, k);
        if l < r {
          hasLess := true;
        }
        if l > r {
          hasGreater := true;
        }
        if hasLess && hasGreater {
          return Concurrent;
        }
        todo := todo - {k};
      }
      if !hasLess && !hasGreater {
        o := Equal;
      } else if hasLess && !hasGreater {
        o := Before;
      } else {
        o := After;
      }
    }
  }

  // ----- The lattice -----

  lemma MergedIsLeastUpperBound(a: Clock, b: Clock)
    ensures Leq(a, Merged(a, b)) && Leq(b, Merged(a, b))
    ensures forall c | Leq(a, c) && Leq(b, c) :: Leq(Merged(a, b), c)
    ensures forall p :: p in Merged(a, b) <==> p in a || At(b, p) > 0
  {
    forall p { MergedAt(a, b, p); }
  }

  function MergeAll(c: Clock, s: seq<Clock>): Clock
  {
    if s == [] then c else Merged(MergeAll(c, s[..|s| - 1]), s[|s| - 1])
  }

  lemma {:induction false} MergeAllIsLeastUpperBound(c: Clock, s: seq<Clock>)
    ensures Leq(c, MergeAll(c, s)) && forall x | x in s :: Leq(x, MergeAll(c, s))
    ensures forall u | Leq(c, u) && (forall x | x in s :: Leq(x, u)) :: Leq(MergeAll(c, s), u)
  {
    if s != [] {
      var init, last := s[..|s| - 1], s[|s| - 1];
      assert s == init + [last];
      MergeAllIsLeastUpperBound(c, init);
      MergedIsLeastUpperBound(MergeAll(c, init), last);
      forall u | Leq(c, u) && (forall x | x in s :: Leq(x, u)) ensures Leq(MergeAll(c, s), u) {
        assert forall x | x in init :: Leq(x, u);
        assert last in s;
      }
    }
  }

  /** Neither the order nor the repetition of received clocks matters. */
  lemma MergeOrderIrrelevant(c: Clock, s: seq<Clock>, t: seq<Clock>)
    requires forall x :: x in s <==> x in t
    ensures Same(MergeAll(c, s), MergeAll(c, t))
  {
    MergeAllIsLeastUpperBound(c, s);
    MergeAllIsLeastUpperBound(c, t);
    assert Leq(MergeAll(c, s), MergeAll(c, t)) && Leq(MergeAll(c, t), MergeAll(c, s));
  }

  function Mirror(o: Ordering): Ordering
  {
    match o
    case Before => After
    case After => Before
    case _ => o
  }

  lemma OrderIsCausal(a: Clock, b: Clock, c: Clock)
    ensures Order(b, a) == Mirror(Order(a, b))
    ensures Order(a, b) == Equal <==> Same(a, b)
    ensures Order(a, b) == Before <==> (forall p :: At(a, p) <= At(b, p)) && exists p :: At(a, p) < At(b, p)
    ensures Order(a, b) == Concurrent <==> (exists p :: At(a, p) < At(b, p)) && exists p :: At(b, p) < At(a, p)
    ensures Order(a, b) == Before && Order(b, c) == Before ==> Order(a, c) == Before
  {
    if Order(a, b) == Before && Order(b, c) == Before {
      assert Leq(a, c) by {
        forall p ensures At(a, p) <= At(c, p) {
          assert At(a, p) <= At(b, p) && At(b, p) <= At(c, p);
        }
      }
    }
  }

  /** A local event moves the clock strictly forward and touches no other entry. */
  lemma TickIsLater(c: Clock, p: PeerId)
    ensures Order(c, Ticked(c, p)) == Before
    ensures forall q :: q != p ==> At(Ticked(c, p), q) == At(c, q)
  {
    assert At(Ticked(c, p), p) > At(c, p);
  }
}

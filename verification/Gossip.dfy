/** Any number of peers: when exchanging rows stops changing anything, and when it never does. */
module Gossip {
  import opened Base
  import opened PeerIds
  import opened Conflict
  import opened Clocks
  import opened TaskQueue
  import opened Replication
  import opened Invariants
  import opened Convergence
  import opened Downloads

  // ----- Connected peers -----

  type Edges = set<(PeerId, PeerId)>

  ghost predicate Walk(edges: Edges, path: seq<PeerId>)
  {
    forall i | 0 <= i < |path| - 1 :: (path[i], path[i + 1]) in edges || (path[i + 1], path[i]) in edges
  }

  ghost predicate Connected(nodes: set<PeerId>, edges: Edges)
  {
    forall a, b | a in nodes && b in nodes ::
      exists path :: Joins(nodes, edges, path, a, b)
  }

  ghost predicate Joins(nodes: set<PeerId>, edges: Edges, path: seq<PeerId>, a: PeerId, b: PeerId)
  {
    |path| > 0 && path[0] == a && path[|path| - 1] == b && Walk(edges, path) && forall x | x in path :: x in nodes
  }

  /** The offer of `x`'s row to `p`. */
  function OfferOf(s: System, x: PeerId, p: PeerId, k: Key): Msg
    requires x in s.peers && k in s.peers[x].rows
  {
    Offer(x, p, k, s.peers[x].rows[k], s.peers[x].clock)
  }

  /** `y` would not take over what `x` has to offer. */
  ghost predicate Settled(s: System, x: PeerId, y: PeerId, k: Key)
    requires x in s.peers && y in s.peers
  {
    k in s.peers[x].rows ==>
      !Accepts(s.peers[y], y, OfferOf(s, x, y, k))
  }

  ghost predicate Stable(s: System, edges: Edges, k: Key)
  {
    forall x, y | (x, y) in edges ::
      x in s.peers && y in s.peers && x != y && Settled(s, x, y, k) && Settled(s, y, x, k)
  }

  lemma SettledPairAgrees(s: System, x: PeerId, y: PeerId, k: Key)
    requires x in s.peers && y in s.peers && x != y && !Refused(k.path)
    requires forall q | q in {x, y} && k in s.peers[q].rows :: s.peers[q].rows[k].version >= 1
    requires Settled(s, x, y, k) && Settled(s, y, x, k)
    ensures HashAt(s, x, k) == HashAt(s, y, k)
  {
    var vx, vy := LocalVersion(s.peers[x], x, k), LocalVersion(s.peers[y], y, k);
    RankIsTotal(vx, vy);
    ResolveIsLastWriteWins(vx, vy);
    ResolveIsLastWriteWins(vy, vx);
    assert x in {x, y} && y in {x, y};
  }

  lemma LinkAgrees(s: System, edges: Edges, x: PeerId, y: PeerId, k: Key)
    requires Stable(s, edges, k) && ((x, y) in edges || (y, x) in edges) && !Refused(k.path)
    requires x in s.peers && y in s.peers
    requires forall q | q in s.peers && k in s.peers[q].rows :: s.peers[q].rows[k].version >= 1
    ensures HashAt(s, x, k) == HashAt(s, y, k)
  {
    SettledPairAgrees(s, x, y, k);
  }

  lemma {:induction false} AgreeAlong(s: System, edges: Edges, path: seq<PeerId>, k: Key)
    requires Stable(s, edges, k) && Walk(edges, path) && |path| > 0 && !Refused(k.path)
    requires forall x | x in path :: x in s.peers
    requires forall q | q in s.peers && k in s.peers[q].rows :: s.peers[q].rows[k].version >= 1
    ensures path[|path| - 1] in path && path[0] in path
    ensures HashAt(s, path[0], k) == HashAt(s, path[|path| - 1], k)
  {
    if |path| > 1 {
      var init := path[..|path| - 1];
      assert forall x | x in init :: x in path;
      assert Walk(edges, init) by {
        assert forall i | 0 <= i < |init| :: init[i] == path[i];
      }
      AgreeAlong(s, edges, init, k);
      var x, y := path[|path| - 2], path[|path| - 1];
      assert init[|init| - 1] == x && x in path && y in path;
      LinkAgrees(s, edges, x, y, k);
    }
  }

  /** In a connected network, a state in which no offer along a link would be accepted has one
      hash for the file everywhere; and one deletion flag, where tombstones are the rows with an
      empty hash. */
  lemma StableMeansOneHash(s: System, edges: Edges, k: Key, a: PeerId, b: PeerId)
    requires Connected(s.peers.Keys, edges) && Stable(s, edges, k) && !Refused(k.path)
    requires forall q | q in s.peers && k in s.peers[q].rows :: s.peers[q].rows[k].version >= 1
    requires a in s.peers && b in s.peers
    ensures HashAt(s, a, k) == HashAt(s, b, k)
    ensures (forall q | q in s.peers && k in s.peers[q].rows ::
               s.peers[q].rows[k].deleted <==> s.peers[q].rows[k].hash == NoHash)
            && k in s.peers[a].rows && k in s.peers[b].rows ==>
              s.peers[a].rows[k].deleted == s.peers[b].rows[k].deleted
  {
    var path :| Joins(s.peers.Keys, edges, path, a, b);
    AgreeAlong(s, edges, path, k);
  }

  // ----- Stamps: what an accepted offer raises -----

  datatype Stamp = Stamp(version: nat, modified: int)

  predicate Below(a: Stamp, b: Stamp)
  {
    a.version < b.version || (a.version == b.version && a.modified < b.modified)
  }

  function StampAt(s: System, q: PeerId, k: Key): Stamp
    requires q in s.peers
  {
    Stamp(LocalVersion(s.peers[q], q, k).version, LocalVersion(s.peers[q], q, k).timestamp)
  }

  function StampOf(m: Msg): Stamp { Stamp(m.version, m.modified) }

  /** Offering rows, delivering offers and requesting content. */
  predicate Offering(step: Step)
  {
    step.Lose? || step.call.Receive? || step.call.SyncAll? || step.call.KeepMine? || Dispatches(step.call)
  }

  /** The same and the downloads that follow from it; no edit, no user reset, no restart. */
  predicate Gossiping(step: Step) { Offering(step) || step.call.Respond? }

  /** Every version of the file in the system is one of `known`, which maps each stamp to its
      only hash: no two contents share version and time. */
  ghost predicate NoTies(s: System, k: Key, known: map<Stamp, Hash>)
  {
    && (forall q | q in s.peers && k in s.peers[q].rows ::
          StampAt(s, q, k) in known && known[StampAt(s, q, k)] == HashAt(s, q, k))
    && (forall m | m in s.net && m.key == k :: StampOf(m) in known && known[StampOf(m)] == m.hash)
  }

  ghost predicate Accepting(s: System, step: Step, k: Key)
  {
    && step.Act? && step.call.Receive? && step.who in s.peers && step.call.msg.key == k
    && k.repo in s.peers[step.who].tracked
    && Accepts(s.peers[step.who], step.who, step.call.msg)
  }

  /** An offering step sends copies of the sender's rows and changes none. */
  lemma OffersAreCopies(p: Peer, me: PeerId, a: Call)
    requires a.SyncAll? || a.KeepMine?
    ensures var e := Handle(p, me, a);
            && e.peer == p
            && forall m | m in e.out :: m.src == me && m.key in p.rows && Carries(m, me, m.dst, m.key, p.rows[m.key])
  {
  }

  /** What the receiver of a gossiping step does, seen from one file. */
  lemma CallSeenFrom(p: Peer, me: PeerId, a: Call, k: Key)
    requires Enabled(p, me, a) && Offering(Act(me, a))
    ensures var e := Handle(p, me, a);
            && (!(a.Receive? && a.msg.key == k && k.repo in p.tracked && Accepts(p, me, a.msg)) ==>
                  (k in e.peer.rows <==> k in p.rows) && (k in p.rows ==> e.peer.rows[k] == p.rows[k]))
            && (forall m | m in e.out && m.key == k ::
                  m.src == me && k in p.rows && Carries(m, me, m.dst, k, p.rows[k]))
  {
    if a.Receive? {
      UpdateRows(p, me, a.msg, a.missing, a.now);
      UpdateReplies(p, me, a.msg, a.missing, a.now);
    } else if Dispatches(a) {
      DispatchTouchesNoRow(p, me, a);
    } else {
      OffersAreCopies(p, me, a);
    }
  }

  lemma OfferingKeepsRow(s: System, step: Step, q: PeerId, k: Key)
    requires CanStep(s, step) && Offering(step) && q in s.peers && !(Accepting(s, step, k) && step.who == q)
    ensures RowAt(Apply(s, step), q, k) == RowAt(s, q, k)
  {
    if step.Act? && step.who == q {
      CallSeenFrom(s.peers[q], q, step.call, k);
    }
  }

  lemma GossipSendsCopies(s: System, step: Step, m: Msg)
    requires CanStep(s, step) && Gossiping(step) && m in Apply(s, step).net && m !in s.net
    ensures step.Act? && m.src == step.who && m.key in s.peers[step.who].rows
            && Carries(m, m.src, m.dst, m.key, s.peers[step.who].rows[m.key])
  {
    if step.Act? {
      assert m in Handle(s.peers[step.who], step.who, step.call).out;
      if step.call.Respond? {
        RespondSeenFrom(s.peers[step.who], step.call, m.key);
      } else {
        CallSeenFrom(s.peers[step.who], step.who, step.call, m.key);
      }
    }
  }

  /** What a gossiping step does, seen from one file. */
  lemma OfferingSeenFrom(s: System, step: Step, k: Key)
    requires CanStep(s, step) && Offering(step)
    ensures var s' := Apply(s, step);
            && s'.peers.Keys == s.peers.Keys
            && (forall q | q in s.peers && !(Accepting(s, step, k) && step.who == q) ::
                  RowAt(s', q, k) == RowAt(s, q, k))
            && (forall m | m in s'.net && m.key == k && m !in s.net ::
                  step.Act? && m.src == step.who && k in s.peers[step.who].rows
                  && Carries(m, m.src, m.dst, k, s.peers[step.who].rows[k]))
  {
    var s' := Apply(s, step);
    forall q | q in s.peers && !(Accepting(s, step, k) && step.who == q) ensures RowAt(s', q, k) == RowAt(s, q, k) {
      OfferingKeepsRow(s, step, q, k);
    }
    forall m | m in s'.net && m.key == k && m !in s.net
      ensures step.Act? && m.src == step.who && k in s.peers[step.who].rows
              && Carries(m, m.src, m.dst, k, s.peers[step.who].rows[k])
    {
      GossipSendsCopies(s, step, m);
    }
  }

  lemma AcceptingRaisesStamp(s: System, step: Step, k: Key, known: map<Stamp, Hash>)
    requires CanStep(s, step) && Accepting(s, step, k) && NoTies(s, k, known)
    requires SystemInv(s)
    ensures var s' := Apply(s, step);
            && step.who in s'.peers && k in s'.peers[step.who].rows
            && StampAt(s', step.who, k) == StampOf(step.call.msg)
            && HashAt(s', step.who, k) == step.call.msg.hash
            && Below(StampAt(s, step.who, k), StampAt(s', step.who, k))
  {
    var p, m := s.peers[step.who], step.call.msg;
    UpdateRows(p, step.who, m, step.call.missing, step.call.now);
    ResolveIsLastWriteWins(LocalVersion(p, step.who, k), RemoteVersion(m));
    ProbeAndReplySafe(p, step.who, m);
  }

  // ----- Downloads that end while rows are exchanged -----

  /** No download lowers the row's stamp or dates it anew: one that completes leaves a known
      version, not below the one it replaces, and none is given up. */
  ghost predicate Steady(s: System, step: Step, k: Key, known: map<Stamp, Hash>)
  {
    step.Act? && step.call.Respond? && step.who in s.peers ==>
      var p, a := s.peers[step.who], step.call;
      var dated := Stamp(VersionKept(p, k), a.now / 1000);
      && (GivesUp(p, a, k) ==> k !in p.rows)
      && (Completes(p, a, k) ==>
            dated in known && known[dated] == a.hash && !Below(dated, StampAt(s, step.who, k)))
  }

  /** What a step other than an acceptance leaves of a peer's row. */
  lemma SteadyRow(s: System, step: Step, k: Key, known: map<Stamp, Hash>, q: PeerId)
    requires CanStep(s, step) && Gossiping(step) && Steady(s, step, k, known) && q in s.peers
    requires !(Accepting(s, step, k) && step.who == q)
    ensures var s' := Apply(s, step);
            && q in s'.peers && !Below(StampAt(s', q, k), StampAt(s, q, k))
            && (RowAt(s', q, k) == RowAt(s, q, k)
                || (StampAt(s', q, k) in known && known[StampAt(s', q, k)] == HashAt(s', q, k)))
  {
    if Offering(step) {
      OfferingKeepsRow(s, step, q, k);
      assert RowAt(Apply(s, step), q, k) == RowAt(s, q, k);
    } else if step.who == q {
      RespondSeenFrom(s.peers[q], step.call, k);
    }
  }

  lemma NoTiesInRows(s: System, step: Step, k: Key, known: map<Stamp, Hash>, q: PeerId)
    requires CanStep(s, step) && Gossiping(step) && Steady(s, step, k, known) && NoTies(s, k, known) && SystemInv(s)
    requires q in Apply(s, step).peers && k in Apply(s, step).peers[q].rows
    ensures var s' := Apply(s, step); StampAt(s', q, k) in known && known[StampAt(s', q, k)] == HashAt(s', q, k)
  {
    if Accepting(s, step, k) && step.who == q {
      AcceptingRaisesStamp(s, step, k, known);
    } else {
      SteadyRow(s, step, k, known, q);
      assert RowAt(s, q, k).Some? ==> StampAt(s, q, k) in known;
    }
  }

  lemma NoTiesStays(s: System, step: Step, k: Key, known: map<Stamp, Hash>)
    requires CanStep(s, step) && Gossiping(step) && Steady(s, step, k, known) && NoTies(s, k, known) && SystemInv(s)
    ensures NoTies(Apply(s, step), k, known)
  {
    var s' := Apply(s, step);
    forall q | q in s'.peers && k in s'.peers[q].rows
      ensures StampAt(s', q, k) in known && known[StampAt(s', q, k)] == HashAt(s', q, k)
    {
      NoTiesInRows(s, step, k, known, q);
    }
    forall m | m in s'.net && m.key == k ensures StampOf(m) in known && known[StampOf(m)] == m.hash {
      if m !in s.net {
        GossipSendsCopies(s, step, m);
        assert StampOf(m) == StampAt(s, step.who, k);
      }
    }
  }

  // ----- How often offers can still be accepted -----

  ghost function Above(known: set<Stamp>, x: Stamp): set<Stamp> { set t | t in known && Below(x, t) }

  lemma HigherStampHasLessAbove(known: set<Stamp>, x: Stamp, y: Stamp)
    requires Below(x, y) && y in known
    ensures |Above(known, y)| < |Above(known, x)|
  {
    assert Above(known, y) + {y} <= Above(known, x);
    assert y !in Above(known, y);
    SubsetSize(Above(known, y) + {y}, Above(known, x));
  }

  lemma {:induction false} SubsetSize(a: set<Stamp>, b: set<Stamp>)
    requires a <= b
    ensures |a| <= |b|
  {
    if x :| x in a {
      SubsetSize(a - {x}, b - {x});
    }
  }

  /** For each peer, the number of stamps that its row could still rise to. */
  ghost function Room(s: System, ids: set<PeerId>, k: Key, known: set<Stamp>): nat
    requires ids <= s.peers.Keys
  {
    if ids == {} then 0
    else var q :| q in ids; |Above(known, StampAt(s, q, k))| + Room(s, ids - {q}, k, known)
  }

  lemma {:induction false} RoomWithout(s: System, ids: set<PeerId>, q: PeerId, k: Key, known: set<Stamp>)
    requires q in ids && ids <= s.peers.Keys
    ensures Room(s, ids, k, known) == |Above(known, StampAt(s, q, k))| + Room(s, ids - {q}, k, known)
  {
    var x :| x in ids && Room(s, ids, k, known) == |Above(known, StampAt(s, x, k))| + Room(s, ids - {x}, k, known);
    if x != q {
      RoomWithout(s, ids - {x}, q, k, known);
      RoomWithout(s, ids - {q}, x, k, known);
      assert ids - {x} - {q} == ids - {q} - {x};
    }
  }

  lemma {:induction false} RoomNotRaised(s: System, s': System, ids: set<PeerId>, k: Key, known: set<Stamp>)
    requires ids <= s.peers.Keys && ids <= s'.peers.Keys
    requires forall q | q in ids :: !Below(StampAt(s', q, k), StampAt(s, q, k))
    ensures Room(s', ids, k, known) <= Room(s, ids, k, known)
  {
    if q :| q in ids {
      RoomWithout(s, ids, q, k, known);
      RoomWithout(s', ids, q, k, known);
      SubsetSize(Above(known, StampAt(s', q, k)), Above(known, StampAt(s, q, k)));
      RoomNotRaised(s, s', ids - {q}, k, known);
    }
  }

  lemma {:induction false} RoomIsFinite(s: System, ids: set<PeerId>, k: Key, known: set<Stamp>)
    requires ids <= s.peers.Keys
    ensures Room(s, ids, k, known) <= |ids| * |known|
  {
    if q :| q in ids {
      RoomWithout(s, ids, q, k, known);
      SubsetSize(Above(known, StampAt(s, q, k)), known);
      RoomIsFinite(s, ids - {q}, k, known);
      assert |ids| * |known| == |known| + (|ids| - 1) * |known|;
    }
  }

  lemma GossipStepUsesRoom(s: System, step: Step, k: Key, known: map<Stamp, Hash>)
    requires CanStep(s, step) && Gossiping(step) && Steady(s, step, k, known) && NoTies(s, k, known) && SystemInv(s)
    ensures var s' := Apply(s, step);
            && s'.peers.Keys == s.peers.Keys
            && Room(s', s'.peers.Keys, k, known.Keys) + (if Accepting(s, step, k) then 1 else 0)
               <= Room(s, s.peers.Keys, k, known.Keys)
  {
    var s', ids := Apply(s, step), s.peers.Keys;
    assert s'.peers.Keys == ids;
    forall q | q in ids && !(Accepting(s, step, k) && step.who == q)
      ensures !Below(StampAt(s', q, k), StampAt(s, q, k))
    {
      SteadyRow(s, step, k, known, q);
    }
    if Accepting(s, step, k) {
      var who := step.who;
      AcceptingRaisesStamp(s, step, k, known);
      HigherStampHasLessAbove(known.Keys, StampAt(s, who, k), StampAt(s', who, k));
      RoomWithout(s, ids, who, k, known.Keys);
      RoomWithout(s', ids, who, k, known.Keys);
      RoomNotRaised(s, s', ids - {who}, k, known.Keys);
    } else {
      RoomNotRaised(s, s', ids, k, known.Keys);
    }
  }

  ghost predicate GossipStep(m: System, step: Step, k: Key, n: nat, accepted: nat, s': System)
  {
    && CanStep(m, step) && Gossiping(step) && s' == Apply(m, step)
    && accepted == n + if Accepting(m, step, k) then 1 else 0
  }

  /** A run of gossip in which `accepted` deliveries changed somebody's row for the file. */
  ghost predicate GossipRun(s: System, steps: seq<Step>, k: Key, accepted: nat, s': System)
  {
    if steps == [] then s' == s && accepted == 0
    else
      var last := |steps| - 1;
      exists m, n: nat :: GossipRun(s, steps[..last], k, n, m) && GossipStep(m, steps[last], k, n, accepted, s')
  }

  lemma GossipSnoc(s: System, steps: seq<Step>, k: Key, n: nat, m: System, step: Step, total: nat, s': System)
    requires GossipRun(s, steps, k, n, m) && GossipStep(m, step, k, n, total, s')
    ensures GossipRun(s, steps + [step], k, total, s')
  {
    var all := steps + [step];
    var last := |all| - 1;
    assert all[..last] == steps && all[last] == step;
    assert GossipRun(s, all[..last], k, n, m);
  }

  lemma ExtendGossip(s: System, steps: seq<Step>, k: Key, n: nat, m: System, step: Step)
    requires GossipRun(s, steps, k, n, m) && CanStep(m, step) && Gossiping(step)
    ensures GossipRun(s, steps + [step], k, n + (if Accepting(m, step, k) then 1 else 0), Apply(m, step))
  {
    var total := n + if Accepting(m, step, k) then 1 else 0;
    assert GossipStep(m, step, k, n, total, Apply(m, step));
    GossipSnoc(s, steps, k, n, m, step, total, Apply(m, step));
  }

  ghost predicate SteadyStep(m: System, step: Step, k: Key, known: map<Stamp, Hash>, n: nat, accepted: nat, s': System)
  {
    GossipStep(m, step, k, n, accepted, s') && Steady(m, step, k, known)
  }

  /** The same, with downloads that are steady. */
  ghost predicate SteadyRun(s: System, steps: seq<Step>, k: Key, known: map<Stamp, Hash>, accepted: nat, s': System)
  {
    if steps == [] then s' == s && accepted == 0
    else
      var last := |steps| - 1;
      exists m, n: nat ::
        SteadyRun(s, steps[..last], k, known, n, m) && SteadyStep(m, steps[last], k, known, n, accepted, s')
  }

  lemma {:induction false} GossipUsesRoom(s: System, steps: seq<Step>, k: Key, accepted: nat, s': System,
                                          known: map<Stamp, Hash>)
    requires SteadyRun(s, steps, k, known, accepted, s') && NoTies(s, k, known) && SystemInv(s)
    ensures NoTies(s', k, known) && SystemInv(s') && s'.peers.Keys == s.peers.Keys
    ensures accepted + Room(s', s'.peers.Keys, k, known.Keys) <= Room(s, s.peers.Keys, k, known.Keys)
  {
    if steps != [] {
      var last := |steps| - 1;
      var m, n: nat :|
        SteadyRun(s, steps[..last], k, known, n, m) && SteadyStep(m, steps[last], k, known, n, accepted, s');
      GossipUsesRoom(s, steps[..last], k, n, m, known);
      NoTiesStays(m, steps[last], k, known);
      StepKeepsInv(m, steps[last]);
      GossipStepUsesRoom(m, steps[last], k, known);
    }
  }

  /** Without ties and with steady downloads, however long peers keep offering and whatever is
      reordered, duplicated by re-offering or lost, only boundedly many deliveries change
      anything. */
  lemma WithoutTiesGossipSettles(s: System, steps: seq<Step>, k: Key, accepted: nat, s': System,
                                 known: map<Stamp, Hash>)
    requires SteadyRun(s, steps, k, known, accepted, s') && NoTies(s, k, known) && SystemInv(s)
    ensures accepted <= |s.peers| * |known|
  {
    GossipUsesRoom(s, steps, k, accepted, s', known);
    RoomIsFinite(s, s.peers.Keys, k, known.Keys);
    assert |s.peers.Keys| == |s.peers| && |known.Keys| == |known|;
  }

  lemma SteadyLast(s: System, steps: seq<Step>, k: Key, known: map<Stamp, Hash>, n: nat, m: System,
                   accepted: nat, s': System)
    requires steps != [] && SteadyRun(s, steps[..|steps| - 1], k, known, n, m)
    requires SteadyStep(m, steps[|steps| - 1], k, known, n, accepted, s')
    ensures SteadyRun(s, steps, k, known, accepted, s')
  {
  }

  /** Rows alone are always steady. */
  lemma {:induction false} OfferingIsSteady(s: System, steps: seq<Step>, k: Key, accepted: nat, s': System,
                                            known: map<Stamp, Hash>)
    requires GossipRun(s, steps, k, accepted, s') && forall st | st in steps :: Offering(st)
    ensures SteadyRun(s, steps, k, known, accepted, s')
  {
    if steps != [] {
      var last := |steps| - 1;
      var m, n: nat :| GossipRun(s, steps[..last], k, n, m) && GossipStep(m, steps[last], k, n, accepted, s');
      assert steps[last] in steps && forall st | st in steps[..last] :: st in steps;
      OfferingIsSteady(s, steps[..last], k, n, m, known);
      SteadyLast(s, steps, k, known, n, m, accepted, s');
    }
  }

  // ----- Which content a settled network holds -----

  /** The greatest stamp in the system belongs to a row, and nobody who holds it gives it up; so
      when the network has settled, everybody has that row's content. */
  lemma SettledOnTheGreatest(s: System, steps: seq<Step>, k: Key, accepted: nat, s': System,
                             known: map<Stamp, Hash>, edges: Edges, top: PeerId, a: PeerId)
    requires SteadyRun(s, steps, k, known, accepted, s') && NoTies(s, k, known) && SystemInv(s)
    requires top in s.peers && k in s.peers[top].rows && forall t | t in known :: !Below(StampAt(s, top, k), t)
    requires Connected(s'.peers.Keys, edges) && Stable(s', edges, k) && !Refused(k.path) && a in s'.peers
    ensures HashAt(s', a, k) == HashAt(s, top, k)
  {
    GreatestStays(s, steps, k, accepted, s', known, top);
    StableMeansOneHash(s', edges, k, a, top);
  }

  lemma {:induction false} GreatestStays(s: System, steps: seq<Step>, k: Key, accepted: nat, s': System,
                                         known: map<Stamp, Hash>, top: PeerId)
    requires SteadyRun(s, steps, k, known, accepted, s') && NoTies(s, k, known) && SystemInv(s)
    requires top in s.peers && k in s.peers[top].rows && forall t | t in known :: !Below(StampAt(s, top, k), t)
    ensures NoTies(s', k, known) && SystemInv(s') && top in s'.peers && k in s'.peers[top].rows
    ensures StampAt(s', top, k) == StampAt(s, top, k) && HashAt(s', top, k) == HashAt(s, top, k)
  {
    if steps != [] {
      var last := |steps| - 1;
      var m, n: nat :|
        SteadyRun(s, steps[..last], k, known, n, m) && SteadyStep(m, steps[last], k, known, n, accepted, s');
      GreatestStays(s, steps[..last], k, n, m, known, top);
      NoTiesStays(m, steps[last], k, known);
      StepKeepsInv(m, steps[last]);
      GreatestRefuses(m, steps[last], k, known, top);
      SteadyRow(m, steps[last], k, known, top);
    }
  }

  lemma GreatestRefuses(s: System, step: Step, k: Key, known: map<Stamp, Hash>, top: PeerId)
    requires CanStep(s, step) && NoTies(s, k, known) && SystemInv(s)
    requires top in s.peers && k in s.peers[top].rows && forall t | t in known :: !Below(StampAt(s, top, k), t)
    ensures !(Accepting(s, step, k) && step.who == top)
  {
    if Accepting(s, step, k) && step.who == top {
      AcceptingRaisesStamp(s, step, k, known);
    }
  }
}

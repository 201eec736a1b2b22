/** How a download ends, seen from the file's row: it completes and re-dates the row, it is given
    up and drops the row, or it leaves the row alone. */
module Downloads {
  import opened Base
  import opened PeerIds
  import opened Conflict
  import opened Clocks
  import opened TaskQueue
  import opened Replication

  /** The response names a request made for `k`. */
  predicate Awaited(p: Peer, a: Call, k: Key)
  {
    && a.Respond? && !a.outcome.PeerError? && a.hash != NoHash && a.path == k.path
    && PendingKey(a.path, a.hash) in p.pending && p.pending[PendingKey(a.path, a.hash)].repo == k.repo
  }

  /** The content came with the response and was written. */
  predicate Completes(p: Peer, a: Call, k: Key)
  {
    Awaited(p, a, k) && a.outcome.Inline? && a.outcome.written && k.repo in p.tracked && Storable(k.path)
  }

  /** The last retry of a stream failed. */
  predicate GivesUp(p: Peer, a: Call, k: Key)
  {
    && Awaited(p, a, k) && a.outcome == Stream(false) && !Escapes(k.path)
    && p.pending[PendingKey(a.path, a.hash)].retries >= MaxDownloadRetries
  }

  function VersionKept(p: Peer, k: Key): nat { if k in p.rows then p.rows[k].version else 1 }

  /** The row a completed download leaves: the fetched hash under the old version, dated now. */
  predicate Redated(p: Peer, a: Call, k: Key, row: Row)
    requires a.Respond?
  {
    row.hash == a.hash && row.version == VersionKept(p, k) && row.modified == a.now / 1000 && !row.deleted
  }

  lemma RespondSeenFrom(p: Peer, a: Call, k: Key)
    requires a.Respond?
    ensures var e := HandleRespond(p, a.path, a.hash, a.outcome, a.now);
            && e.out == {} && e.peer.tracked == p.tracked && e.peer.clock == p.clock && e.peer.lamport == p.lamport
            && (Completes(p, a, k) ==> k in e.peer.rows && Redated(p, a, k, e.peer.rows[k]))
            && (GivesUp(p, a, k) ==> k !in e.peer.rows)
            && (!Completes(p, a, k) && !GivesUp(p, a, k) ==>
                  (k in e.peer.rows <==> k in p.rows) && (k in p.rows ==> e.peer.rows[k] == p.rows[k]))
  {
  }

  /** Exactly when a completed download reopens the row to an offer that was refused before.  The
      offer is of other content than came in, and either it has the row's version and is dated
      after the completion, or at the same time by a greater peer; or it is of a newer version and
      was refused only because it was of the content just replaced. */
  lemma CompletionReopensIff(p: Peer, me: PeerId, a: Call, m: Msg)
    requires Completes(p, a, m.key) && !Accepts(p, me, m)
    ensures var p' := HandleRespond(p, a.path, a.hash, a.outcome, a.now).peer;
            Accepts(p', me, m)
            <==> (&& !Refused(m.key.path) && m.hash != a.hash
                  && (|| (m.version == VersionKept(p, m.key)
                          && (m.modified > a.now / 1000 || (m.modified == a.now / 1000 && Less(me, m.src))))
                      || (m.version > VersionKept(p, m.key) && m.hash == LocalVersion(p, me, m.key).hash)))
  {
    var p' := HandleRespond(p, a.path, a.hash, a.outcome, a.now).peer;
    RespondSeenFrom(p, a, m.key);
    ResolveIsLastWriteWins(LocalVersion(p, me, m.key), RemoteVersion(m));
    ResolveIsLastWriteWins(LocalVersion(p', me, m.key), RemoteVersion(m));
  }
}

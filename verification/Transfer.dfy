/** File transfer: the daemon's download and upload loops, the coordinator's limited copies
    between them, and what arrives when they are put in a row. */
module Transfer {
  import opened Base
  import opened Framing
  import Paths
  import Replication

  const BufferSize := 4096

  /** One end of a byte stream.  A read or write moves any number of bytes, or fails. */
  class Socket {
    var incoming: seq<Byte>
    var sent: seq<Byte>

    /** No transport error. */
    const reliable: bool

    constructor (incoming: seq<Byte>, reliable: bool)
      ensures this.incoming == incoming && sent == [] && this.reliable == reliable
    {
      this.incoming, this.sent, this.reliable := incoming, [], reliable;
    }

    /** Negative for an error, 0 at the end of the stream. */
    method Read(buffer: array<Byte>, max: nat) returns (n: int)
      requires 0 < max <= buffer.Length
      modifies this`incoming, buffer
      ensures n <= max && n <= |old(incoming)|
      ensures n <= 0 ==> incoming == old(incoming)
      ensures n > 0 ==> buffer[..n] == old(incoming)[..n] && incoming == old(incoming)[n..]
      ensures reliable ==> n >= 0 && (old(incoming) != [] ==> n > 0)
    {
      var fails: bool := *;
      if !reliable && fails {
        return -1;
      }
      var most := if max < |incoming| then max else |incoming|;
      var k: nat :| k <= most && (reliable && most > 0 ==> k > 0);
      forall i | 0 <= i < k {
        buffer[i] := incoming[i];
      }
      incoming := incoming[k..];
      n := k;
    }

    /** Negative for an error; otherwise at least one byte goes out. */
    method Write(data: seq<Byte>) returns (n: int)
      requires data != []
      modifies this`sent
      ensures n < 0 || 1 <= n <= |data|
      ensures sent == if n < 0 then old(sent) else old(sent) + data[..n]
      ensures reliable ==> n > 0
    {
      var fails: bool := *;
      if !reliable && fails {
        return -1;
      }
      var k: nat :| 1 <= k <= |data|;
      sent := sent + data[..k];
      n := k;
    }
  }

  /** A file system whose every operation may fail. */
  class Disk {
    var files: map<Path, seq<Byte>>

    /** No operation fails. */
    const reliable: bool

    /** Closing a file writes out all that was buffered. */
    const flushes: bool

    method Create(p: Path) returns (ok: bool)
      modifies this
      ensures files == if ok then old(files)[p := []] else old(files)
      ensures reliable ==> ok
    {
      var fails: bool := *;
      ok := reliable || !fails;
      if ok {
        files := files[p := []];
      }
    }

    method Append(p: Path, data: seq<Byte>) returns (ok: bool)
      requires p in files
      modifies this
      ensures ok ==> files == old(files)[p := old(files)[p] + data]
      ensures !ok ==> exists k: nat | k <= |data| :: files == old(files)[p := old(files)[p] + data[..k]]
      ensures reliable ==> ok
    {
      var fails: bool := *;
      ok := reliable || !fails;
      if ok {
        files := files[p := files[p] + data];
      } else {
        var k: nat :| k <= |data|;
        files := files[p := files[p] + data[..k]];
      }
    }

    /** A failed flush loses the end of the file; the caller does not notice. */
    method CloseFile(p: Path) returns (ghost kept: nat)
      requires p in files
      modifies this
      ensures kept <= |old(files)[p]| && files == old(files)[p := old(files)[p][..kept]]
      ensures flushes || reliable ==> kept == |old(files)[p]|
    {
      var k: nat :| k <= |files[p]| && (flushes || reliable ==> k == |files[p]|);
      files := files[p := files[p][..k]];
      kept := k;
    }

    method Remove(p: Path) returns (ok: bool)
      modifies this
      ensures files == if ok then old(files) - {p} else old(files)
      ensures reliable ==> ok
    {
      var fails: bool := *;
      ok := reliable || !fails;
      if ok {
        files := files - {p};
      }
    }

    method Rename(from: Path, to: Path) returns (ok: bool)
      requires from in files
      modifies this
      ensures files == if ok then old(files)[to := old(files)[from]] - {from} else old(files)
      ensures reliable ==> ok
    {
      var fails: bool := *;
      ok := reliable || !fails;
      if ok {
        files := files[to := files[from]] - {from};
      }
    }

    method HashOf(p: Path, sha: seq<Byte> -> Hash) returns (h: Option<Hash>)
      requires p in files
      ensures h.Some? ==> h.value == sha(files[p])
      ensures reliable ==> h.Some?
    {
      var fails: bool := *;
      h := if !reliable && fails then None else Some(sha(files[p]));
    }

    method ReadAt(p: Path, pos: nat, buffer: array<Byte>, max: nat) returns (n: nat)
      requires p in files && pos <= |files[p]| && max <= buffer.Length
      modifies buffer
      ensures n <= max && pos + n <= |files[p]| && buffer[..n] == files[p][pos..pos + n]
      ensures reliable ==> n == max || pos + n == |files[p]|
    {
      var k: nat :| k <= max && pos + k <= |files[p]| && (reliable ==> k == max || pos + k == |files[p]|);
      forall i | 0 <= i < k {
        buffer[i] := files[p][pos + i];
      }
      n := k;
    }
  }

  lemma PrefixGrows(s: seq<Byte>, a: nat, data: seq<Byte>, k: nat)
    requires a + |data| <= |s| && data == s[a..a + |data|] && k <= |data|
    ensures s[..a + k] == s[..a] + data[..k]
  {
    assert data[..k] == s[a..a + k];
  }

  function TempOf(p: Path): Path { Path(p.text + ".tmp") }

  /** What a download writes before it is done is neither indexed nor taken over from a peer. */
  lemma TempIsIgnored(p: Path)
    ensures Replication.IsTemp(TempOf(p)) && Replication.Refused(TempOf(p)) && TempOf(p) != p
  {
    Paths.IsTempIff(TempOf(p));
    assert |TempOf(p).text| == |p.text| + 4;
  }

  /** Nothing but the temporary file differs. */
  ghost predicate OnlyTempDiffers(before: map<Path, seq<Byte>>, after: map<Path, seq<Byte>>, tmp: Path)
  {
    forall p | p != tmp :: (p in before <==> p in after) && (p in before ==> before[p] == after[p])
  }

  method RemoveTemp(disk: Disk, tmp: Path)
    modifies disk
    ensures OnlyTempDiffers(old(disk.files), disk.files, tmp)
    ensures disk.reliable ==> tmp !in disk.files
  {
    var ok := disk.Remove(tmp);
  }

  /** The receive loop: what lands in the temporary file is the front of the stream. */
  method ReceiveInto(disk: Disk, sock: Socket, tmp: Path, size: nat) returns (total: nat)
    requires tmp in disk.files && disk.files[tmp] == []
    modifies disk, sock
    ensures OnlyTempDiffers(old(disk.files), disk.files, tmp) && tmp in disk.files
    ensures total <= size && total <= |old(sock.incoming)|
    ensures total == size ==> disk.files[tmp] == old(sock.incoming)[..size]
    ensures disk.reliable && sock.reliable && size <= |old(sock.incoming)| ==> total == size
  {
    var buffer := new Byte[BufferSize];
    total := 0;
    ghost var stream := sock.incoming;
    while total < size
      invariant total <= size && total <= |stream|
      invariant tmp in disk.files && disk.files[tmp] == stream[..total] && sock.incoming == stream[total..]
      invariant OnlyTempDiffers(old(disk.files), disk.files, tmp)
    {
      var toRead := if BufferSize < size - total then BufferSize else size - total;
      var n := sock.Read(buffer, toRead);
      if n <= 0 {
        break;
      }
      var ok := disk.Append(tmp, buffer[..n]);
      if !ok {
        return;
      }
      PrefixGrows(stream, total, stream[total..], n);
      total := total + n;
    }
  }

  /** What the environment did to a download: whether the temporary file could be made, how much
      arrived, how much of it the closing kept, what reading it back gave, and the rename. */
  datatype Attempt = Attempt(created: bool, received: nat, kept: nat, rehash: Option<Hash>, renamed: bool)

  ghost predicate Possible(a: Attempt, stream: seq<Byte>, size: int, hash: Hash, sha: seq<Byte> -> Hash)
  {
    && a.kept <= a.received <= |stream| && a.received <= size
    && (a.rehash.Some? ==> hash != NoHash && a.rehash.value == sha(stream[..a.kept]))
  }

  /** The daemon reports success exactly then. */
  predicate Succeeds(a: Attempt, size: int, hash: Hash)
  {
    && a.created && a.received == size && a.renamed
    && (hash == NoHash || a.rehash == None || a.rehash == Some(hash))
  }

  /** A download leaves the destination alone, or replaces it by what closing kept of the first
      `size` bytes of the stream. */
  method Download(disk: Disk, sock: Socket, dest: Path, size: int, hash: Hash, sha: seq<Byte> -> Hash)
      returns (done: bool, ghost a: Attempt)
    modifies disk, sock
    ensures forall p | p != dest && p != TempOf(dest) ::
              (p in disk.files <==> p in old(disk.files)) && (p in disk.files ==> disk.files[p] == old(disk.files)[p])
    ensures size >= 0 ==> Possible(a, old(sock.incoming), size, hash, sha)
    ensures done <==> size >= 0 && Succeeds(a, size, hash)
    ensures !done ==> OnlyTempDiffers(old(disk.files), disk.files, TempOf(dest))
    ensures done ==> && dest in disk.files && TempOf(dest) !in disk.files
                     && disk.files[dest] == old(sock.incoming)[..a.kept]
    ensures disk.flushes || disk.reliable ==> a.kept == a.received
    ensures disk.reliable && TempOf(dest) !in old(disk.files) ==> TempOf(dest) !in disk.files
    ensures disk.reliable && sock.reliable ==>
              (done <==> && 0 <= size <= |old(sock.incoming)|
                         && (hash == NoHash || sha(old(sock.incoming)[..size]) == hash))
  {
    done, a := false, Attempt(false, 0, 0, None, false);
    if size < 0 {
      return;
    }
    var tmp := TempOf(dest);
    assert |tmp.text| == |dest.text| + 4;
    var created := disk.Create(tmp);
    if !created {
      return;
    }
    var total := ReceiveInto(disk, sock, tmp, size);
    ghost var kept := disk.CloseFile(tmp);
    if total != size {
      a := Attempt(true, total, total, None, false);
      RemoveTemp(disk, tmp);
      return;
    }
    assert disk.files[tmp] == old(sock.incoming)[..kept];
    var actual: Option<Hash> := None;
    if hash != NoHash {
      actual := disk.HashOf(tmp, sha);
      a := Attempt(true, total, kept, actual, false);
      if actual.Some? && actual.value != hash {
        RemoveTemp(disk, tmp);
        return;
      }
    }
    var renamed := disk.Rename(tmp, dest);
    a := Attempt(true, total, kept, actual, renamed);
    if !renamed {
      RemoveTemp(disk, tmp);
      return;
    }
    done := true;
  }

  /** A lost flush can go unnoticed: of one byte nothing is kept, and the download succeeds. */
  lemma LostFlushSucceeds(byte: Byte, sha: seq<Byte> -> Hash)
    ensures exists a :: Possible(a, [byte], 1, NoHash, sha) && Succeeds(a, 1, NoHash) && a.kept == 0
  {
    var a := Attempt(true, 1, 0, None, true);
    assert Possible(a, [byte], 1, NoHash, sha) && Succeeds(a, 1, NoHash);
  }

  /** Every success that was read back, if a hash was given to compare with, is of the whole file. */
  ghost predicate SuccessIsExact(stream: seq<Byte>, size: nat, hash: Hash, sha: seq<Byte> -> Hash)
  {
    forall a | Possible(a, stream, size, hash, sha) && Succeeds(a, size, hash) && (hash == NoHash || a.rehash.Some?) ::
      a.kept == size
  }

  /** What a caller can rely on: nothing was to be kept, or the hash given is that of no shorter
      front of the file. */
  lemma SuccessIsExactIff(stream: seq<Byte>, size: nat, hash: Hash, sha: seq<Byte> -> Hash)
    requires size <= |stream|
    ensures SuccessIsExact(stream, size, hash, sha)
            <==> (size == 0 || (hash != NoHash && forall n: nat | n < size :: sha(stream[..n]) != hash))
  {
    if SuccessIsExact(stream, size, hash, sha) && size > 0 {
      if hash == NoHash {
        var a := Attempt(true, size, 0, None, true);
        assert Possible(a, stream, size, hash, sha) && Succeeds(a, size, hash);
      } else if n: nat :| n < size && sha(stream[..n]) == hash {
        var a := Attempt(true, size, n, Some(hash), true);
        assert Possible(a, stream, size, hash, sha) && Succeeds(a, size, hash);
      }
    }
  }

  /** Send one buffer, in as many writes as it takes. */
  method SendAll(sock: Socket, data: seq<Byte>) returns (written: nat)
    modifies sock`sent
    ensures written <= |data| && sock.sent == old(sock.sent) + data[..written]
    ensures sock.reliable ==> written == |data|
  {
    written := 0;
    while written < |data|
      invariant written <= |data| && sock.sent == old(sock.sent) + data[..written]
    {
      var n := sock.Write(data[written..]);
      if n < 0 {
        break;
      }
      PrefixGrows(data, written, data[written..], n);
      written := written + n;
    }
  }

  /** How much of `n` bytes a transfer of `size` bytes takes. */
  function Portion(n: nat, size: int): nat
  {
    if size < 0 then 0 else if size < n then size else n
  }

  /** An upload sends a prefix of the file, of at most `size` bytes, and all of that if nothing fails. */
  method Upload(disk: Disk, sock: Socket, src: Path, size: int) returns (count: nat)
    modifies sock`sent
    ensures src !in disk.files ==> sock.sent == old(sock.sent)
    ensures src in disk.files ==>
              exists k: nat | k <= Portion(|disk.files[src]|, size) ::
                && sock.sent == old(sock.sent) + disk.files[src][..k] && count <= k
                && (disk.reliable && sock.reliable ==> k == Portion(|disk.files[src]|, size))
  {
    count := 0;
    if src !in disk.files {
      return;
    }
    ghost var file := disk.files[src];
    assert sock.sent == old(sock.sent) + file[..0];
    var buffer := new Byte[BufferSize];
    while count < size
      invariant count <= Portion(|file|, size)
      invariant sock.sent == old(sock.sent) + file[..count]
      invariant disk.files[src] == file
    {
      var toRead := if BufferSize < size - count then BufferSize else size - count;
      var bytes := disk.ReadAt(src, count, buffer, toRead);
      if bytes <= 0 {
        break;
      }
      var data := buffer[..bytes];
      var written := SendAll(sock, data);
      PrefixGrows(file, count, data, written);
      if written < bytes {
        return;
      }
      count := count + written;
    }
  }

  /** A limited copy passes on a prefix of what it reads, of at most `limit` bytes. */
  method LimitedCopy(src: Socket, dst: Socket, limit: int) returns (copied: nat, completed: bool)
    requires src != dst
    modifies src, dst
    ensures copied <= Portion(|old(src.incoming)|, limit)
    ensures dst.sent == old(dst.sent) + old(src.incoming)[..copied]
    ensures completed ==> copied == limit
    ensures src.reliable && dst.reliable ==>
              copied == Portion(|old(src.incoming)|, limit) && (completed <==> copied == limit)
  {
    copied := 0;
    ghost var stream := src.incoming;
    var buffer := new Byte[32768];
    var failed := false;
    assert dst.sent == old(dst.sent) + stream[..0];
    while copied < limit
      invariant copied <= Portion(|stream|, limit)
      invariant src.incoming == stream[copied..]
      invariant dst.sent == old(dst.sent) + stream[..copied] && !failed
    {
      var toRead := if 32768 < limit - copied then 32768 else limit - copied;
      var n := src.Read(buffer, toRead);
      if n <= 0 {
        failed := n < 0;
        break;
      }
      var data := buffer[..n];
      var written := SendAll(dst, data);
      PrefixGrows(stream, copied, data, written);
      if written < n {
        copied := copied + written;
        failed := true;
        break;
      }
      copied := copied + n;
    }
    completed := !failed && copied == limit;
  }

  /** A daemon's upload, seen as the bytes that leave it. */
  method SendFile(from: Disk, src: Path, size: int, reliable: bool) returns (bytes: seq<Byte>)
    ensures src !in from.files ==> bytes == []
    ensures src in from.files ==> bytes <= from.files[src]
    ensures src in from.files && from.reliable && reliable ==> |bytes| == Portion(|from.files[src]|, size)
  {
    var sock := new Socket([], reliable);
    var _ := Upload(from, sock, src, size);
    bytes := sock.sent;
  }

  /** A relay, seen as bytes in and bytes out. */
  method Relay(input: seq<Byte>, size: int, reliable: bool) returns (output: seq<Byte>)
    ensures output <= input
    ensures reliable ==> |output| == Portion(|input|, size)
  {
    var source := new Socket(input, reliable);
    var sink := new Socket([], reliable);
    var _, _ := LimitedCopy(source, sink, size);
    output := sink.sent;
  }

  /** The whole way: upload, two relays, download.  Whatever fails on the way, the destination is
      untouched or holds what closing kept of the first `size` bytes of the source, with the hash
      given if that could be compared; and if nothing fails, the transfer happens. */
  method TransferFile(from: Disk, src: Path, to: Disk, dest: Path, size: int, hash: Hash, sha: seq<Byte> -> Hash,
                      reliable: bool)
      returns (done: bool, ghost a: Attempt)
    requires from != to
    modifies to
    ensures !done ==> OnlyTempDiffers(old(to.files), to.files, TempOf(dest))
    ensures done ==> Succeeds(a, size, hash) && dest in to.files && 0 <= a.kept <= size
    ensures done && size == 0 ==> to.files[dest] == []
    ensures done && size > 0 ==>
              src in from.files && size <= |from.files[src]| && to.files[dest] == from.files[src][..a.kept]
    ensures done && a.rehash.Some? ==> sha(to.files[dest]) == hash
    ensures to.flushes || to.reliable ==> a.kept == a.received
    ensures (&& reliable && from.reliable && to.reliable
             && src in from.files && 0 <= size <= |from.files[src]|
             && (hash == NoHash || sha(from.files[src][..size]) == hash)) ==> done
  {
    var sent := SendFile(from, src, size, reliable);
    var relayed := Relay(sent, size, reliable);
    var arrived := Relay(relayed, size, reliable);
    if src in from.files && 0 <= size <= |arrived| {
      assert arrived <= relayed <= sent <= from.files[src];
      assert arrived[..size] == from.files[src][..size];
    }
    var sock := new Socket(arrived, reliable);
    done, a := Download(to, sock, dest, size, hash, sha);
    if done && size > 0 {
      assert arrived[..a.kept] == arrived[..size][..a.kept];
      assert from.files[src][..a.kept] == from.files[src][..size][..a.kept];
    }
  }
}

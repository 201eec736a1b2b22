/** Length-prefixed messages over a byte stream that is read and written in arbitrary pieces. */
module Framing {
  import opened Base

  type Byte = b: nat | b < 256

  const MaxBody := 1048576
  const Wrap := 0x1_0000_0000

  /** The message encoding: the body of a message, its inverse, and its `type` field. */
  datatype Codec<!M> = Codec(marshal: M -> seq<Byte>, unmarshal: seq<Byte> -> Option<M>, typeOf: M -> string)

  ghost predicate Faithful<M(!new)>(c: Codec<M>)
  {
    forall m :: c.unmarshal(c.marshal(m)) == Some(m)
  }

  // ----- Frames -----

  /** The 4-byte big-endian length, truncated to 32 bits. */
  function Prefix(n: nat): seq<Byte>
  {
    [n / 256 / 256 / 256 % 256, n / 256 / 256 % 256, n / 256 % 256, n % 256]
  }

  function Length(s: seq<Byte>): nat
    requires |s| == 4
  {
    var a: nat, b: nat, c: nat, d: nat := s[0], s[1], s[2], s[3];
    a * 16777216 + b * 65536 + c * 256 + d
  }

  lemma PrefixRoundTrip(n: nat)
    ensures Length(Prefix(n)) == n % Wrap
  {
    var a := n / 256;
    var b := a / 256;
    var c := b / 256;
    assert n == 256 * a + n % 256 && a == 256 * b + a % 256 && b == 256 * c + b % 256;
    assert c == 256 * (c / 256) + c % 256;
    assert n == Wrap * (c / 256) + Length(Prefix(n));
    RemainderIsUnique(c / 256, Length(Prefix(n)), Wrap);
  }

  lemma ShortPrefixRoundTrip(n: nat)
    requires n < Wrap
    ensures Length(Prefix(n)) == n
  {
    PrefixRoundTrip(n);
  }

  function Frame<M>(c: Codec<M>, m: M): seq<Byte>
  {
    Prefix(|c.marshal(m)|) + c.marshal(m)
  }

  function Frames<M>(c: Codec<M>, ms: seq<M>): seq<Byte>
  {
    if ms == [] then [] else Frame(c, ms[0]) + Frames(c, ms[1..])
  }

  datatype Parsed<M> = Message(msg: M, rest: seq<Byte>) | Incomplete | BadLength | BadBody | MissingType

  /** What a reader makes of the front of a stream. */
  function Parse<M>(c: Codec<M>, s: seq<Byte>): Parsed<M>
  {
    if |s| < 4 then Incomplete
    else
      var n := Length(s[..4]);
      if n == 0 || n > MaxBody then BadLength
      else if |s| < 4 + n then Incomplete
      else
        match c.unmarshal(s[4..4 + n])
        case None => BadBody
        case Some(m) => if c.typeOf(m) == "" then MissingType else Message(m, s[4 + n..])
  }

  /** The messages of a stream up to the first that cannot be read. */
  function ParseAll<M>(c: Codec<M>, s: seq<Byte>): seq<M>
    decreases |s|
  {
    match Parse(c, s)
    case Message(m, rest) => [m] + ParseAll(c, rest)
    case _ => []
  }

  /** The length goes out with its highest byte first. */
  lemma PrefixIsBigEndian(n: nat)
    requires n < Wrap
    ensures var p := Prefix(n);
            && |p| == 4 && p[0] == n / 0x100_0000 && p[1] == n / 0x1_0000 % 0x100
            && p[2] == n / 0x100 % 0x100 && p[3] == n % 0x100
  {
    var a, b, c := n / 256, n / 256 / 256, n / 256 / 256 / 256;
    assert n / 0x1_0000 == b && n / 0x100_0000 == c && c < 256;
  }

  predicate Transmissible<M>(c: Codec<M>, m: M)
  {
    1 <= |c.marshal(m)| <= 1048576 && c.typeOf(m) != ""
  }

  /** A written message is read back exactly when its body is 1 to 1048576 bytes long and its
      type is not empty: the writer checks neither. */
  lemma FrameParsesIff<M(!new)>(c: Codec<M>, m: M, rest: seq<Byte>)
    requires Faithful(c)
    ensures Parse(c, Frame(c, m) + rest) == Message(m, rest) <==> Transmissible(c, m)
  {
    var body := c.marshal(m);
    var s := Frame(c, m) + rest;
    PrefixRoundTrip(|body|);
    assert s[..4] == Prefix(|body|);
    if |body| < Wrap {
      assert s[4..4 + |body|] == body && s[4 + |body|..] == rest;
    } else if Parse(c, s).Message? {
      assert |Parse(c, s).rest| == 4 + |body| + |rest| - 4 - |body| % Wrap > |rest|;
    }
  }

  lemma FrameParsesThen<M(!new)>(c: Codec<M>, m: M, rest: seq<Byte>)
    requires Faithful(c) && Transmissible(c, m)
    ensures ParseAll(c, Frame(c, m) + rest) == [m] + ParseAll(c, rest)
  {
    FrameParsesIff(c, m, rest);
  }

  lemma HeadAndTail<M>(ms: seq<M>, more: seq<M>)
    requires ms != []
    ensures [ms[0]] + (ms[1..] + more) == ms + more
  {
  }

  lemma ThreeParts(a: seq<Byte>, b: seq<Byte>, c: seq<Byte>)
    ensures a + b + c == a + (b + c)
  {
  }

  /** Frames are read back one by one, whatever follows them. */
  lemma {:induction false} FramesParseThen<M(!new)>(c: Codec<M>, ms: seq<M>, tail: seq<Byte>)
    requires Faithful(c) && forall m | m in ms :: Transmissible(c, m)
    ensures ParseAll(c, Frames(c, ms) + tail) == ms + ParseAll(c, tail)
  {
    if ms == [] {
      assert Frames(c, ms) + tail == tail;
    } else {
      var rest := Frames(c, ms[1..]) + tail;
      assert ms[0] in ms;
      FramesParseThen(c, ms[1..], tail);
      FrameParsesThen(c, ms[0], rest);
      assert Frames(c, ms) + tail == Frame(c, ms[0]) + rest by {
        ThreeParts(Frame(c, ms[0]), Frames(c, ms[1..]), tail);
      }
      HeadAndTail(ms, ParseAll(c, tail));
    }
  }

  lemma FramesParse<M(!new)>(c: Codec<M>, ms: seq<M>)
    requires Faithful(c) && forall m | m in ms :: Transmissible(c, m)
    ensures ParseAll(c, Frames(c, ms)) == ms
  {
    FramesParseThen(c, ms, []);
    assert Frames(c, ms) + [] == Frames(c, ms);
  }

  lemma {:induction false} FramesAppend<M>(c: Codec<M>, ms: seq<M>, m: M)
    ensures Frames(c, ms + [m]) == Frames(c, ms) + Frame(c, m)
  {
    if ms == [] {
      assert ms + [m] == [m] && [m][1..] == [];
    } else {
      assert (ms + [m])[1..] == ms[1..] + [m];
      FramesAppend(c, ms[1..], m);
      assert Frame(c, ms[0]) + (Frames(c, ms[1..]) + Frame(c, m)) == Frame(c, ms[0]) + Frames(c, ms[1..]) + Frame(c, m);
    }
  }

  // ----- A connection that moves bytes in pieces -----

  datatype Moved = Failed | Bytes(n: nat)

  class Conn {
    var inbox: seq<Byte>
    var outbox: seq<Byte>

    /** No transport error: reads fail only at the end of the stream, writes never. */
    const reliable: bool

    constructor (inbox: seq<Byte>, reliable: bool)
      ensures this.inbox == inbox && outbox == [] && this.reliable == reliable
    {
      this.inbox, this.outbox, this.reliable := inbox, [], reliable;
    }

    /** Read some bytes into `buf` from `offset` on: any number, or an error. */
    method Read(buf: array<Byte>, offset: nat) returns (r: Moved)
      requires offset < buf.Length
      modifies this`inbox, buf
      ensures r.Failed? ==> inbox == old(inbox) && buf[..] == old(buf[..])
      ensures r.Bytes? ==>
                && r.n <= |old(inbox)| && offset + r.n <= buf.Length
                && inbox == old(inbox)[r.n..]
                && buf[..offset] == old(buf[..offset])
                && buf[offset..offset + r.n] == old(inbox)[..r.n]
      ensures reliable && old(inbox) != [] ==> r.Bytes? && r.n > 0
    {
      var most := if buf.Length - offset < |inbox| then buf.Length - offset else |inbox|;
      var fails: bool := *;
      if !reliable && fails {
        return Failed;
      }
      var n: nat :| n <= most && (reliable && most > 0 ==> n > 0);
      forall i | 0 <= i < n {
        buf[offset + i] := inbox[i];
      }
      inbox := inbox[n..];
      r := Bytes(n);
    }

    /** Write a prefix of `data`: any number of bytes, or an error. */
    method Write(data: seq<Byte>) returns (r: Moved)
      requires data != []
      modifies this`outbox
      ensures r.Failed? ==> outbox == old(outbox)
      ensures r.Bytes? ==> r.n <= |data| && outbox == old(outbox) + data[..r.n]
      ensures reliable ==> r.Bytes? && r.n > 0
    {
      var fails: bool := *;
      if !reliable && fails {
        return Failed;
      }
      var n: nat :| n <= |data| && (reliable ==> n > 0);
      outbox := outbox + data[..n];
      r := Bytes(n);
    }
  }

  method ReadFull(conn: Conn, buf: array<Byte>) returns (ok: bool)
    modifies conn`inbox, buf
    ensures ok ==> old(conn.inbox) == buf[..] + conn.inbox
    ensures conn.reliable ==> (ok <==> |old(conn.inbox)| >= buf.Length)
  {
    var offset := 0;
    while offset < buf.Length
      invariant 0 <= offset <= buf.Length
      invariant old(conn.inbox) == buf[..offset] + conn.inbox
    {
      ghost var before := buf[..offset];
      ghost var left := conn.inbox;
      var r := conn.Read(buf, offset);
      if r.Failed? || r.n == 0 {
        return false;
      }
      assert buf[..offset + r.n] == before + left[..r.n];
      offset := offset + r.n;
    }
    ok := true;
  }

  method WriteFull(conn: Conn, data: seq<Byte>) returns (ok: bool)
    modifies conn`outbox
    ensures ok ==> conn.outbox == old(conn.outbox) + data
    ensures !ok ==> exists k: nat | k <= |data| :: conn.outbox == old(conn.outbox) + data[..k]
    ensures conn.reliable ==> ok
  {
    var offset := 0;
    while offset < |data|
      invariant 0 <= offset <= |data|
      invariant conn.outbox == old(conn.outbox) + data[..offset]
    {
      var r := conn.Write(data[offset..]);
      if r.Failed? || r.n == 0 {
        return false;
      }
      assert data[..offset + r.n] == data[..offset] + data[offset..][..r.n];
      offset := offset + r.n;
    }
    assert data[..|data|] == data;
    ok := true;
  }

  method WriteMessage<M>(conn: Conn, c: Codec<M>, m: M) returns (ok: bool)
    modifies conn`outbox
    ensures ok ==> conn.outbox == old(conn.outbox) + Frame(c, m)
    ensures !ok ==> exists k: nat | k <= |Frame(c, m)| :: conn.outbox == old(conn.outbox) + Frame(c, m)[..k]
    ensures conn.reliable ==> ok
  {
    var body := c.marshal(m);
    ok := WriteFull(conn, Prefix(|body|));
    if !ok {
      ghost var k: nat :| k <= 4 && conn.outbox == old(conn.outbox) + Prefix(|body|)[..k];
      assert Frame(c, m)[..k] == Prefix(|body|)[..k];
      return;
    }
    ghost var mid := conn.outbox;
    ok := WriteFull(conn, body);
    if !ok {
      ghost var k: nat :| k <= |body| && conn.outbox == mid + body[..k];
      assert Frame(c, m)[..4 + k] == Prefix(|body|) + body[..k];
    }
  }

  /** Reading a message is parsing the stream, however the reads are split. */
  method ReadMessage<M>(conn: Conn, c: Codec<M>) returns (r: Option<M>)
    modifies conn`inbox
    ensures r.Some? ==> Parse(c, old(conn.inbox)) == Message(r.value, conn.inbox)
    ensures conn.reliable ==> (r.Some? <==> Parse(c, old(conn.inbox)).Message?)
  {
    ghost var s := conn.inbox;
    var lenBuf := new Byte[4];
    var ok := ReadFull(conn, lenBuf);
    if !ok {
      return None;
    }
    var n := Length(lenBuf[..]);
    assert s[..4] == lenBuf[..] && s[4..] == conn.inbox;
    if n == 0 || n > MaxBody {
      return None;
    }
    var msgBuf := new Byte[n];
    ok := ReadFull(conn, msgBuf);
    if !ok {
      return None;
    }
    assert s[4..4 + n] == msgBuf[..] && s[4 + n..] == conn.inbox;
    var msg := c.unmarshal(msgBuf[..]);
    if msg.None? || c.typeOf(msg.value) == "" {
      return None;
    }
    r := msg;
  }

  /** The reader loop hands on the messages of the stream in order, all of them unless the
      transport fails. */
  method ReadLoop<M>(conn: Conn, c: Codec<M>) returns (handled: seq<M>)
    modifies conn`inbox
    ensures handled <= ParseAll(c, old(conn.inbox))
    ensures conn.reliable ==> handled == ParseAll(c, old(conn.inbox))
  {
    handled := [];
    while true
      invariant ParseAll(c, old(conn.inbox)) == handled + ParseAll(c, conn.inbox)
      decreases |conn.inbox|
    {
      ghost var s := conn.inbox;
      var r := ReadMessage(conn, c);
      if r.None? {
        assert conn.reliable ==> ParseAll(c, s) == [];
        return;
      }
      assert ParseAll(c, s) == [r.value] + ParseAll(c, conn.inbox);
      assert handled + ([r.value] + ParseAll(c, conn.inbox)) == handled + [r.value] + ParseAll(c, conn.inbox);
      handled := handled + [r.value];
    }
  }

  // ----- Writers that take turns -----

  datatype Turn<M> = Free | Held(msg: M, written: nat)

  /** One connection: the bytes written, whose turn it is, the messages written in full, those of
      them before the first frame that was cut off, and where that was. */
  datatype Stream<M> = Stream(bytes: seq<Byte>, turn: Turn<M>, done: seq<M>, sound: seq<M>, cut: Option<(M, nat)>)

  function NewStream<M>(): Stream<M> { Stream([], Free, [], [], None) }

  /** A write may fail at any point; the connection stays registered for the next writer. */
  datatype Move<M> = Lock(msg: M) | Chunk(n: nat) | Unlock | Fail

  predicate CanMove<M>(c: Codec<M>, s: Stream<M>, move: Move<M>)
  {
    match move
    case Lock(_) => s.turn.Free?
    case Chunk(n) => s.turn.Held? && s.turn.written + n <= |Frame(c, s.turn.msg)|
    case Unlock => s.turn.Held? && s.turn.written == |Frame(c, s.turn.msg)|
    case Fail => s.turn.Held? && s.turn.written < |Frame(c, s.turn.msg)|
  }

  function Moves<M>(c: Codec<M>, s: Stream<M>, move: Move<M>): Stream<M>
    requires CanMove(c, s, move)
  {
    match move
    case Lock(m) => s.(turn := Held(m, 0))
    case Chunk(n) =>
      s.(bytes := s.bytes + Frame(c, s.turn.msg)[s.turn.written..s.turn.written + n],
         turn := Held(s.turn.msg, s.turn.written + n))
    case Unlock =>
      s.(turn := Free, done := s.done + [s.turn.msg],
         sound := if s.cut.None? then s.sound + [s.turn.msg] else s.sound)
    case Fail =>
      s.(turn := Free, cut := if s.cut.None? && s.turn.written > 0 then Some((s.turn.msg, s.turn.written)) else s.cut)
  }

  ghost predicate Whole<M>(c: Codec<M>, s: Stream<M>)
  {
    s.sound == s.done
    && match s.turn
       case Free => s.bytes == Frames(c, s.sound)
       case Held(m, written) => written <= |Frame(c, m)| && s.bytes == Frames(c, s.sound) + Frame(c, m)[..written]
  }

  ghost predicate CutOff<M>(c: Codec<M>, s: Stream<M>, m: M, written: nat)
  {
    && 0 < written < |Frame(c, m)| && s.sound <= s.done
    && Frames(c, s.sound) + Frame(c, m)[..written] <= s.bytes
  }

  /** Whole frames up to the first that was cut off. */
  ghost predicate WholeFrames<M>(c: Codec<M>, s: Stream<M>)
  {
    if s.cut.None? then Whole(c, s) else CutOff(c, s, s.cut.value.0, s.cut.value.1)
  }

  ghost predicate WriterRun<M(!new)>(c: Codec<M>, s: Stream<M>, moves: seq<Move<M>>, s': Stream<M>)
  {
    if moves == [] then s' == s
    else
      var last := |moves| - 1;
      exists m :: WriterRun(c, s, moves[..last], m) && CanMove(c, m, moves[last]) && s' == Moves(c, m, moves[last])
  }

  lemma ChunkKeepsWhole<M>(c: Codec<M>, s: Stream<M>, n: nat)
    requires s.cut.None? && Whole(c, s) && CanMove(c, s, Chunk(n))
    ensures Whole(c, Moves(c, s, Chunk(n)))
  {
    var f, w := Frame(c, s.turn.msg), s.turn.written;
    assert f[..w + n] == f[..w] + f[w..w + n];
    assert Frames(c, s.sound) + f[..w] + f[w..w + n] == Frames(c, s.sound) + (f[..w] + f[w..w + n]);
  }

  lemma MoveKeepsWholeFrames<M>(c: Codec<M>, s: Stream<M>, move: Move<M>)
    requires WholeFrames(c, s) && CanMove(c, s, move)
    ensures WholeFrames(c, Moves(c, s, move))
  {
    if s.cut.None? {
      match move {
        case Lock(m) => assert Frames(c, s.sound) + Frame(c, m)[..0] == Frames(c, s.sound);
        case Chunk(n) => ChunkKeepsWhole(c, s, n);
        case Unlock =>
          var f := Frame(c, s.turn.msg);
          assert f[..|f|] == f;
          FramesAppend(c, s.sound, s.turn.msg);
        case Fail =>
          assert s.turn.written == 0 ==> Frames(c, s.sound) + Frame(c, s.turn.msg)[..0] == Frames(c, s.sound);
      }
    }
  }

  lemma {:induction false} TurnsWriteWholeFrames<M(!new)>(c: Codec<M>, s: Stream<M>, moves: seq<Move<M>>, s': Stream<M>)
    requires WholeFrames(c, s) && WriterRun(c, s, moves, s')
    ensures WholeFrames(c, s')
  {
    if moves != [] {
      var last := |moves| - 1;
      var m :| WriterRun(c, s, moves[..last], m) && CanMove(c, m, moves[last]) && s' == Moves(c, m, moves[last]);
      TurnsWriteWholeFrames(c, s, moves[..last], m);
      MoveKeepsWholeFrames(c, m, moves[last]);
    }
  }

  /** End to end: whatever the turns, chunks and failures of the writers, a reader gets the
      messages completed before the first frame that was cut off, in order, and then what the bytes
      from there on happen to parse to; all messages, and nothing else, if none was. */
  lemma StreamRoundTrip<M(!new)>(c: Codec<M>, moves: seq<Move<M>>, s: Stream<M>)
    requires Faithful(c) && WriterRun(c, NewStream(), moves, s)
    requires forall m | m in s.sound :: Transmissible(c, m)
    ensures Frames(c, s.sound) <= s.bytes && s.sound <= s.done
    ensures ParseAll(c, s.bytes) == s.sound + ParseAll(c, s.bytes[|Frames(c, s.sound)|..])
    ensures s.turn.Free? && s.cut.None? ==> ParseAll(c, s.bytes) == s.done
    ensures s.cut.Some? ==>
              && s.cut.value.1 < |Frame(c, s.cut.value.0)|
              && Frame(c, s.cut.value.0)[..s.cut.value.1] <= s.bytes[|Frames(c, s.sound)|..]
  {
    TurnsWriteWholeFrames(c, NewStream(), moves, s);
    var n := |Frames(c, s.sound)|;
    assert s.bytes == Frames(c, s.sound) + s.bytes[n..];
    FramesParseThen(c, s.sound, s.bytes[n..]);
  }

  lemma IncompleteIff<M>(c: Codec<M>, s: seq<Byte>, n: nat)
    requires |s| >= 4 && Length(s[..4]) == n && 1 <= n <= MaxBody
    ensures Parse(c, s) == Incomplete <==> |s| < 4 + n
    ensures |s| < 4 + n ==> ParseAll(c, s) == []
  {
  }

  lemma CutFrameStart<M>(c: Codec<M>, m: M, written: nat, later: seq<Byte>)
    requires 4 <= written < |Frame(c, m)|
    ensures (Frame(c, m)[..written] + later)[..4] == Prefix(|c.marshal(m)|)
  {
  }

  /** Behind a frame cut off in its body the reader finds nothing, whatever was completed since,
      exactly until as many bytes have followed as were missing. */
  lemma CutFrameSwallowsIff<M(!new)>(c: Codec<M>, m: M, written: nat, later: seq<Byte>)
    requires Transmissible(c, m) && 4 <= written < |Frame(c, m)|
    ensures Parse(c, Frame(c, m)[..written] + later) == Incomplete <==> |later| < |Frame(c, m)| - written
    ensures |later| < |Frame(c, m)| - written ==> ParseAll(c, Frame(c, m)[..written] + later) == []
  {
    var n := |c.marshal(m)|;
    ShortPrefixRoundTrip(n);
    CutFrameStart(c, m, written, later);
    IncompleteIff(c, Frame(c, m)[..written] + later, n);
  }
}

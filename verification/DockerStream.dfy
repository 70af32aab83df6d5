/** Docker's multiplexed raw stream. */
module DockerStream {
  type byte = b: int | 0 <= b < 256

  const LIMIT := 0x1_0000_0000

  /** The shared connection. It takes what it has room for and fails on the rest. */
  class Connection {
    var sent: seq<byte>
    var room: nat

    constructor (room: nat)
      ensures sent == [] && this.room == room
    {
      sent, this.room := [], room;
    }

    method Write(p: seq<byte>) returns (n: nat, ok: bool)
      modifies this
      ensures n == if |p| <= old(room) then |p| else old(room)
      ensures ok <==> n == |p|
      ensures sent == old(sent) + p[..n] && room == old(room) - n
    {
      n := if |p| <= room then |p| else room;
      sent, room := sent + p[..n], room - n;
      ok := n == |p|;
    }
  }

  function BigEndian(n: nat): (b: seq<byte>)
    requires n < LIMIT
    ensures |b| == 4 && Number(b) == n
  {
    var high := n / 0x100;
    var higher := high / 0x100;
    [higher / 0x100, higher % 0x100, high % 0x100, n % 0x100]
  }

  function Number(b: seq<byte>): (n: nat)
    requires |b| == 4
    ensures n < LIMIT
  {
    b[0] as int * 0x100_0000 + b[1] as int * 0x1_0000 + b[2] as int * 0x100 + b[3] as int
  }

  /** The "Stream format" of ContainerAttach: the stream, three zeros, and the length, of which only 32 bits
      fit. */
  function Header(stream: byte, length: nat): seq<byte> {
    [stream, 0, 0, 0] + BigEndian(length % LIMIT)
  }

  function Frame(stream: byte, p: seq<byte>): seq<byte> {
    Header(stream, |p|) + p
  }

  class FrameWriter {
    const stream: byte
    const w: Connection

    constructor (stream: byte, w: Connection)
      ensures this.stream == stream && this.w == w
    {
      this.stream, this.w := stream, w;
    }

    /** Sends one frame, header first; the count is of payload bytes only. */
    method Write(p: seq<byte>) returns (n: nat, ok: bool)
      modifies w
      ensures ok <==> |Frame(stream, p)| <= old(w.room)
      ensures ok ==> w.sent == old(w.sent) + Frame(stream, p) && n == |p|
      ensures !ok ==> w.sent == old(w.sent) + Frame(stream, p)[..old(w.room)]
      ensures !ok ==> n == if old(w.room) < 8 then 0 else old(w.room) - 8
    {
      var header := Header(stream, |p|);
      var _, sent := w.Write(header);
      if !sent {
        assert header[..old(w.room)] == Frame(stream, p)[..old(w.room)];
        return 0, false;
      }
      assert header[..8] == header;
      n, ok := w.Write(p);
      assert Frame(stream, p)[..8 + n] == header + p[..n];
    }
  }

  // ------------------------------------------------------------------------------------ Reading

  /** A reader: what it has delivered on each stream, and bytes of a frame not yet complete. */
  datatype Reader = Reader(stdout: seq<byte>, stderr: seq<byte>, rest: seq<byte>) {
    function Deliver(stream: byte, p: seq<byte>): Reader {
      if stream == 1 then this.(stdout := stdout + p)
      else if stream == 2 then this.(stderr := stderr + p)
      else this
    }

    /** A whole frame has arrived. */
    predicate Ready() {
      |rest| >= 8 && |rest| >= 8 + Number(rest[4..8])
    }

    function Take(): Reader
      requires Ready()
    {
      var n := Number(rest[4..8]);
      Deliver(rest[0], rest[8..8 + n]).(rest := rest[8 + n..])
    }
  }

  const EMPTY := Reader([], [], [])

  function Drain(r: Reader): (d: Reader)
    ensures !d.Ready()
    decreases |r.rest|
  {
    if r.Ready() then Drain(r.Take()) else r
  }

  function Feed(r: Reader, chunk: seq<byte>): Reader {
    Drain(r.(rest := r.rest + chunk))
  }

  function FeedAll(r: Reader, chunks: seq<seq<byte>>): Reader
    decreases chunks
  {
    if chunks == [] then r else FeedAll(Feed(r, chunks[0]), chunks[1..])
  }

  function Concat(parts: seq<seq<byte>>): seq<byte> {
    if parts == [] then [] else parts[0] + Concat(parts[1..])
  }

  lemma {:induction false} DrainInParts(r: Reader, more: seq<byte>)
    ensures Drain(r.(rest := r.rest + more)) == Feed(Drain(r), more)
    decreases |r.rest|
  {
    if r.Ready() {
      var all := r.(rest := r.rest + more);
      assert all.rest[4..8] == r.rest[4..8];
      var n := Number(r.rest[4..8]);
      assert all.rest[8..8 + n] == r.rest[8..8 + n] && all.rest[8 + n..] == r.rest[8 + n..] + more;
      assert all.Take() == r.Take().(rest := r.Take().rest + more);
      DrainInParts(r.Take(), more);
    }
  }

  /** It does not matter where the connection cuts the bytes. */
  lemma {:induction false} ChunksDoNotMatter(r: Reader, chunks: seq<seq<byte>>)
    requires !r.Ready()
    ensures FeedAll(r, chunks) == Feed(r, Concat(chunks))
    decreases |chunks|
  {
    if chunks == [] {
      assert r.rest + [] == r.rest;
    } else {
      var tail := Concat(chunks[1..]);
      ChunksDoNotMatter(Feed(r, chunks[0]), chunks[1..]);
      DrainInParts(r.(rest := r.rest + chunks[0]), tail);
      assert r.rest + chunks[0] + tail == r.rest + Concat(chunks);
    }
  }

  // -------------------------------------------------------------------------------- Round trips

  datatype Write = Write(stream: byte, payload: seq<byte>)

  function Frames(writes: seq<Write>): seq<byte> {
    if writes == [] then [] else Frame(writes[0].stream, writes[0].payload) + Frames(writes[1..])
  }

  /** What was written to one stream, in order. */
  function Payloads(writes: seq<Write>, stream: byte): seq<byte> {
    if writes == [] then []
    else (if writes[0].stream == stream then writes[0].payload else []) + Payloads(writes[1..], stream)
  }

  lemma TakeFrame(r: Reader, stream: byte, p: seq<byte>, more: seq<byte>)
    requires |p| < LIMIT && r.rest == Frame(stream, p) + more
    ensures r.Ready() && r.Take() == r.Deliver(stream, p).(rest := more)
  {
    hide BigEndian, Number;
    assert r.rest[4..8] == BigEndian(|p|);
    assert r.rest[8..8 + |p|] == p && r.rest[8 + |p|..] == more;
  }

  lemma DeliverPayloads(r: Reader, w: Write, rest: seq<Write>)
    ensures var d := r.Deliver(w.stream, w.payload);
            && d.stdout + Payloads(rest, 1) == r.stdout + Payloads([w] + rest, 1)
            && d.stderr + Payloads(rest, 2) == r.stderr + Payloads([w] + rest, 2)
  {
    assert ([w] + rest)[1..] == rest;
  }

  lemma {:induction false} DrainFrames(r: Reader, writes: seq<Write>)
    requires forall i | 0 <= i < |writes| :: |writes[i].payload| < LIMIT
    requires r.rest == Frames(writes)
    ensures Drain(r) == Reader(r.stdout + Payloads(writes, 1), r.stderr + Payloads(writes, 2), [])
    decreases |writes|
  {
    if writes != [] {
      var w := writes[0];
      TakeFrame(r, w.stream, w.payload, Frames(writes[1..]));
      DeliverPayloads(r, w, writes[1..]);
      hide Frame, Payloads, Reader.Take, Reader.Deliver;
      assert [w] + writes[1..] == writes;
      assert Drain(r) == Drain(r.Take());
      DrainFrames(r.Take(), writes[1..]);
    }
  }

  /** Whatever is written in atomic frames on the two streams, and however the bytes are cut on the
      way, each stream comes out as it went in. */
  lemma Demultiplexes(writes: seq<Write>, chunks: seq<seq<byte>>)
    requires forall i | 0 <= i < |writes| :: |writes[i].payload| < LIMIT
    requires Concat(chunks) == Frames(writes)
    ensures FeedAll(EMPTY, chunks) == Reader(Payloads(writes, 1), Payloads(writes, 2), [])
  {
    ChunksDoNotMatter(EMPTY, chunks);
    DrainFrames(EMPTY.(rest := Frames(writes)), writes);
    assert [] + Frames(writes) == Frames(writes);
  }

  /** How many of the frames are whole within the first n bytes. */
  function Whole(writes: seq<Write>, n: nat): (m: nat)
    ensures m <= |writes|
  {
    if writes == [] || n < |Frame(writes[0].stream, writes[0].payload)| then 0
    else 1 + Whole(writes[1..], n - |Frame(writes[0].stream, writes[0].payload)|)
  }

  lemma LengthIn(stream: byte, p: seq<byte>)
    requires |p| < LIMIT
    ensures |Frame(stream, p)| == 8 + |p| && Number(Frame(stream, p)[4..8]) == |p|
  {
    FrameBytes(stream, p);
    hide Number, Frame, Header, BigEndian;
  }

  /** A frame in full. */
  lemma FrameBytes(stream: byte, p: seq<byte>)
    ensures |p| < 0x1_0000_0000 ==>
              && Frame(stream, p)[..4] == [stream, 0, 0, 0] && Frame(stream, p)[4..8] == BigEndian(|p|)
              && Frame(stream, p)[8..] == p
    ensures |Frame(stream, p)| == 8 + |p|
  {
    hide BigEndian;
    HeaderParts([stream, 0, 0, 0], BigEndian(|p| % LIMIT), p);
  }

  lemma HeaderParts(a: seq<byte>, b: seq<byte>, p: seq<byte>)
    requires |a| == |b| == 4
    ensures var s := a + b + p; |s| == 8 + |p| && s[..4] == a && s[4..8] == b && s[8..] == p
  {
  }

  lemma PartOfFrame(r: Reader, stream: byte, p: seq<byte>, n: nat)
    requires |p| < LIMIT && n < |Frame(stream, p)| && r.rest == Frame(stream, p)[..n]
    ensures !r.Ready()
  {
    LengthIn(stream, p);
    hide Number, Frame;
    if n >= 8 {
      assert r.rest[4..8] == Frame(stream, p)[4..8];
    }
  }

  lemma {:induction false} DrainCut(r: Reader, writes: seq<Write>, n: nat)
    requires forall i | 0 <= i < |writes| :: |writes[i].payload| < LIMIT
    requires n <= |Frames(writes)| && r.rest == Frames(writes)[..n]
    ensures var done := writes[..Whole(writes, n)];
            && |Frames(done)| <= n
            && Drain(r) == Reader(r.stdout + Payloads(done, 1), r.stderr + Payloads(done, 2),
                                  Frames(writes)[|Frames(done)|..n])
    decreases |writes|
  {
    if writes != [] {
      var w, rest := writes[0], writes[1..];
      var frame := Frame(w.stream, w.payload);
      if n < |frame| {
        assert Frames(writes)[..n] == frame[..n];
        PartOfFrame(r, w.stream, w.payload, n);
        assert writes[..0] == [];
      } else {
        var k := n - |frame|;
        var later := rest[..Whole(rest, k)];
        hide Frame, Payloads, Reader.Take, Reader.Deliver;
        assert Frames(writes)[..n] == frame + Frames(rest)[..k];
        TakeFrame(r, w.stream, w.payload, Frames(rest)[..k]);
        assert writes[..Whole(writes, n)] == [w] + later;
        DeliverPayloads(r, w, later);
        assert ([w] + later)[1..] == later && Frames([w] + later) == frame + Frames(later);
        assert Drain(r) == Drain(r.Take());
        DrainCut(r.Take(), rest, k);
        assert Frames(writes)[|frame + Frames(later)|..n] == Frames(rest)[|Frames(later)|..k];
      }
    }
  }

  /** Where the connection fails part-way, and however the bytes are cut until then, what comes out is the
      payloads of the frames that were sent whole; nothing of the frame that was torn. */
  lemma CutOff(writes: seq<Write>, n: nat, chunks: seq<seq<byte>>)
    requires forall i | 0 <= i < |writes| :: |writes[i].payload| < LIMIT
    requires n <= |Frames(writes)| && Concat(chunks) == Frames(writes)[..n]
    ensures var done, r := writes[..Whole(writes, n)], FeedAll(EMPTY, chunks);
            && r.stdout == Payloads(done, 1) && r.stderr == Payloads(done, 2)
            && Frames(done) + r.rest == Frames(writes)[..n]
  {
    hide *;
    ChunksDoNotMatter(EMPTY, chunks) by {
      EmptyIs(Concat(chunks));
    }
    EmptyIs(Concat(chunks));
    DrainCut(EMPTY.(rest := Frames(writes)[..n]), writes, n);
    FramesFront(writes, Whole(writes, n));
    Rejoined(Frames(writes[..Whole(writes, n)]), Frames(writes), n);
  }

  lemma EmptyIs(bytes: seq<byte>)
    ensures !EMPTY.Ready() && Feed(EMPTY, bytes) == Drain(EMPTY.(rest := bytes)) && EMPTY == Reader([], [], [])
  {
    hide Drain;
    assert [] + bytes == bytes;
  }

  lemma Rejoined(front: seq<byte>, all: seq<byte>, n: nat)
    ensures front <= all && |front| <= n <= |all| ==> front + all[|front|..n] == all[..n]
  {
  }

  lemma {:induction false} FramesFront(writes: seq<Write>, m: nat)
    requires m <= |writes|
    ensures Frames(writes[..m]) <= Frames(writes)
  {
    if m > 0 {
      hide Frame;
      assert writes[..m][0] == writes[0] && writes[..m][1..] == writes[1..][..m - 1];
      FramesFront(writes[1..], m - 1);
    }
  }

  /** What a failing write leaves on the connection is such a part. */
  lemma FailedIsCut(writes: seq<Write>, w: Write, room: nat)
    requires room < |Frame(w.stream, w.payload)|
    ensures var all := writes + [w];
            && |Frames(writes)| + room <= |Frames(all)|
            && Frames(writes) + Frame(w.stream, w.payload)[..room] == Frames(all)[..|Frames(writes)| + room]
            && Whole(all, |Frames(writes)| + room) == |writes|
  {
    FramesConcat(writes, w);
    WholeBefore(writes, w, room);
    hide Frames, Frame, Whole;
  }

  lemma {:induction false} FramesConcat(writes: seq<Write>, w: Write)
    ensures Frames(writes + [w]) == Frames(writes) + Frame(w.stream, w.payload)
  {
    hide Frame;
    if writes == [] {
      assert writes + [w] == [w] && [w][1..] == [];
    } else {
      assert (writes + [w])[1..] == writes[1..] + [w];
      FramesConcat(writes[1..], w);
    }
  }

  lemma {:induction false} WholeBefore(writes: seq<Write>, w: Write, room: nat)
    requires room < |Frame(w.stream, w.payload)|
    ensures Whole(writes + [w], |Frames(writes)| + room) == |writes|
  {
    hide Frame;
    if writes != [] {
      assert (writes + [w])[1..] == writes[1..] + [w];
      WholeBefore(writes[1..], w, room);
    }
  }

  /** Headers are not delivered, so what comes out is always shorter than what came in. */
  lemma {:induction false} DrainShrinks(r: Reader)
    requires r.rest != []
    ensures |Drain(r).stdout| < |r.stdout| + |r.rest|
    decreases |r.rest|
  {
    if r.Ready() && r.Take().rest != [] {
      DrainShrinks(r.Take());
    }
  }

  /** The limit is exact: a single write comes out whole if and only if its length fits the header. */
  lemma FrameFitsIffShort(p: seq<byte>)
    ensures Feed(EMPTY, Frame(1, p)).stdout == p <==> |p| < LIMIT
  {
    var r := EMPTY.(rest := [] + Frame(1, p));
    assert [] + Frame(1, p) == Frame(1, p);
    if |p| < LIMIT {
      TakeFrame(r, 1, p, []);
      assert Frame(1, p) + [] == Frame(1, p);
      assert Drain(r) == Drain(r.Take()) == r.Take();
    } else {
      assert r.rest[4..8] == BigEndian(|p| % LIMIT);
      var t := r.Take();
      assert |t.stdout| + |t.rest| == |p| && t.rest != [];
      DrainShrinks(t);
    }
  }
}

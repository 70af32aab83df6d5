/** What a message means to the terminal: bytes for the shell, a window size, or nothing. */
module Resizes {
  import opened Options
  import opened TerminalStream

  predicate Resizing(m: Message) {
    match m
    case Text(Some(Control(kind, cols, rows))) => kind == "resize" && cols != 0 && rows != 0
    case _ => false
  }

  /** The resize frames for these sizes. */
  function Frames(sizes: seq<Size>): seq<Message> {
    seq(|sizes|, k requires 0 <= k < |sizes| => Text(Some(Control("resize", sizes[k].width, sizes[k].height))))
  }

  function UpTo(sizes: seq<Size>, n: nat): seq<Size> {
    if |sizes| <= n then sizes else sizes[..n]
  }

  /** A read skips the messages without bytes before the next one that has some, or before the end. Of the sizes
      they ask for, the first wait until there are four, and the rest are dropped. */
  lemma {:induction false} ReadSkips(sizes: seq<Size>, queue: seq<Size>, later: seq<Message>, room: nat)
    requires forall k | 0 <= k < |sizes| :: sizes[k].width > 0 && sizes[k].height > 0
    requires |queue| <= 4
    ensures ReadFrom(Stream(Frames(sizes) + later, [], queue, false), room)
            == ReadFrom(Stream(later, [], UpTo(queue + sizes, 4), false), room)
    decreases |sizes|
  {
    hide ReadFrom, UpTo, Frames;
    UpToMore(queue, sizes);
    if sizes == [] {
      NoFrames(later);
    } else {
      var next := if |queue| < 4 then queue + [sizes[0]] else queue;
      FrameFirst(sizes, later, queue, room);
      ReadSkips(sizes[1..], next, later, room);
    }
  }

  lemma NoFrames(later: seq<Message>)
    ensures Frames([]) + later == later
  {
  }

  lemma UpToMore(queue: seq<Size>, sizes: seq<Size>)
    requires |queue| <= 4
    ensures sizes == [] ==> UpTo(queue + sizes, 4) == queue
    ensures sizes != [] ==>
              UpTo(queue + sizes, 4) == UpTo((if |queue| < 4 then queue + [sizes[0]] else queue) + sizes[1..], 4)
  {
    if sizes != [] {
      assert queue + sizes == queue + [sizes[0]] + sizes[1..];
    } else {
      assert queue + sizes == queue;
    }
  }

  lemma {:induction false} FrameFirst(sizes: seq<Size>, later: seq<Message>, queue: seq<Size>, room: nat)
    requires sizes != [] && sizes[0].width > 0 && sizes[0].height > 0
    ensures ReadFrom(Stream(Frames(sizes) + later, [], queue, false), room)
            == ReadFrom(Stream(Frames(sizes[1..]) + later, [],
                               if |queue| < 4 then queue + [sizes[0]] else queue, false), room)
  {
    assert (Frames(sizes) + later)[1..] == Frames(sizes[1..]) + later;
    assert (Frames(sizes) + later)[0] == Text(Some(Control("resize", sizes[0].width, sizes[0].height)));
    assert Size(sizes[0].width, sizes[0].height) == sizes[0];
  }

  /** Any other text message, and any of another kind, is passed over. */
  lemma OthersIgnored(m: Message, later: seq<Message>, queue: seq<Size>, room: nat)
    requires !m.Binary? && !Resizing(m)
    ensures ReadFrom(Stream([m] + later, [], queue, false), room) == ReadFrom(Stream(later, [], queue, false), room)
  {
    assert ([m] + later)[1..] == later && queue + [] == queue;
  }

  /** Bytes fill the buffer as far as they go; what does not fit comes first in the next read, and with no message
      left the socket is closed. */
  lemma BytesFill(data: seq<byte>, later: seq<Message>, queue: seq<Size>, room: nat)
    ensures var n := if |data| <= room then |data| else room;
            && ReadFrom(Stream([Binary(data)] + later, [], queue, false), room)
               == Reading(Stream(later, data[n..], queue, false), data[..n], true)
            && (data != [] ==>
                  ReadFrom(Stream(later, data, queue, false), room)
                  == Reading(Stream(later, data[n..], queue, false), data[..n], true))
    ensures ReadFrom(Stream([], [], queue, false), room) == Reading(Stream([], [], queue, true), [], false)
  {
    assert ([Binary(data)] + later)[1..] == later;
  }
}

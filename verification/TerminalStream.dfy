/** A terminal's WebSocket, seen as a byte stream and a short queue of window sizes. */
module TerminalStream {
  import opened Concatenation
  import opened Options

  type byte = b: int | 0 <= b < 256

  datatype Size = Size(width: nat, height: nat)

  datatype Control = Control(kind: string, cols: nat, rows: nat)

  /** A received message; a text message comes with the control frame it decodes to, if it does. */
  datatype Message = Text(control: Option<Control>) | Binary(data: seq<byte>) | Other

  /** How many sizes wait for the executor before further ones are dropped. */
  const CAPACITY := 4

  /** The window size a message asks for, as a sequence of length at most one. */
  function SizeIn(m: Message): seq<Size> {
    match m
    case Text(Some(c)) => if c.kind == "resize" && c.cols > 0 && c.rows > 0 then [Size(c.cols, c.rows)] else []
    case _ => []
  }

  function BytesIn(m: Message): seq<byte> {
    if m.Binary? then m.data else []
  }

  /** The terminal bytes of a run of messages, and the sizes it asks for. */
  function Typed(ms: seq<Message>): seq<byte> {
    if ms == [] then [] else BytesIn(ms[0]) + Typed(ms[1..])
  }

  function Asked(ms: seq<Message>): seq<Size> {
    if ms == [] then [] else SizeIn(ms[0]) + Asked(ms[1..])
  }

  // ------------------------------------------------------------------- The stream as a value

  /** Messages still to come, bytes left over from the last one, sizes waiting, and whether the
      socket is gone. */
  datatype Stream = Stream(incoming: seq<Message>, buf: seq<byte>, sizes: seq<Size>, closed: bool) {
    /** A size joins the queue unless it is full. */
    function Offer(m: Message): Stream {
      this.(sizes := if |sizes| < CAPACITY then sizes + SizeIn(m) else sizes)
    }
  }

  datatype Reading = Reading(after: Stream, data: seq<byte>, ok: bool)

  function Front(s: seq<byte>, room: nat): seq<byte> {
    if |s| <= room then s else s[..room]
  }

  /** One read with room for so many bytes: left-over bytes first; else messages are taken until one
      carries terminal bytes, or the socket fails and is closed. */
  function ReadFrom(s: Stream, room: nat): Reading
    decreases |s.incoming|
  {
    if s.buf != [] then Reading(s.(buf := s.buf[|Front(s.buf, room)|..]), Front(s.buf, room), true)
    else if s.incoming == [] then Reading(s.(closed := true), [], false)
    else
      var m, t := s.incoming[0], s.(incoming := s.incoming[1..]);
      if m.Binary? then Reading(t.(buf := m.data[|Front(m.data, room)|..]), Front(m.data, room), true)
      else ReadFrom(t.Offer(m), room)
  }

  // ------------------------------------------------------------------- The stream as an object

  class WsStream {
    var incoming: seq<Message>
    var buf: seq<byte>
    var sizes: seq<Size>
    var closed: bool

    function Value(): Stream
      reads this
    {
      Stream(incoming, buf, sizes, closed)
    }

    constructor (incoming: seq<Message>)
      ensures Value() == Stream(incoming, [], [], false)
    {
      this.incoming, buf, sizes, closed := incoming, [], [], false;
    }

    /** Fills the caller's buffer; once the socket has failed it must not be called again, because
        closing a closed channel panics. */
    method Read(p: array<byte>) returns (n: nat, ok: bool)
      requires !closed
      modifies this, p
      ensures n <= p.Length
      ensures Reading(Value(), p[..n], ok) == ReadFrom(old(Value()), p.Length)
      ensures p[n..] == old(p[..])[n..]
    {
      if |buf| > 0 {
        n := Copy(p, buf);
        buf := buf[n..];
        return n, true;
      }
      while true
        invariant buf == [] && !closed && p[..] == old(p[..])
        invariant ReadFrom(Value(), p.Length) == ReadFrom(old(Value()), p.Length)
        decreases |incoming|
      {
        if incoming == [] {
          closed := true;
          return 0, false;
        }
        ghost var s := Value();
        var m := incoming[0];
        incoming := incoming[1..];
        match m {
          case Text(control) =>
            if control.Some? && control.value.kind == "resize" && control.value.cols > 0 && control.value.rows > 0 {
              if |sizes| < CAPACITY {
                sizes := sizes + [Size(control.value.cols, control.value.rows)];
              }
            }
          case Binary(data) =>
            n := Copy(p, data);
            if n < |data| {
              buf := data[n..];
            }
            return n, true;
          case Other =>
        }
        assert s.sizes + [] == s.sizes;
        assert Value() == s.(incoming := s.incoming[1..]).Offer(m);
      }
    }

    /** Takes the next size; with the socket gone it may, and with nothing queued it must, report the end. */
    method Next() returns (size: Option<Size>)
      requires sizes != [] || closed
      modifies this`sizes
      ensures size.Some? ==> old(sizes) == [size.value] + sizes
      ensures size.None? ==> closed && sizes == old(sizes)
    {
      var preferEnd: bool := *;
      if closed && (preferEnd || sizes == []) {
        return None;
      }
      size := Some(sizes[0]);
      sizes := sizes[1..];
    }
  }

  method Copy(p: array<byte>, data: seq<byte>) returns (n: nat)
    modifies p
    ensures n <= p.Length && n <= |data| && p[..n] == Front(data, p.Length) && |Front(data, p.Length)| == n
    ensures p[n..] == old(p[..])[n..]
  {
    n := if |data| <= p.Length then |data| else p.Length;
    for i := 0 to n
      invariant forall k | 0 <= k < i :: p[k] == data[k]
      invariant forall k | i <= k < p.Length :: p[k] == old(p[k])
    {
      p[i] := data[i];
    }
  }

  // ------------------------------------------------------------------------------- Whole sessions

  /** What the two users of the stream do: the input loop reads, the resize loop asks for a size and,
      if there is none or it learns of the end first, gets nothing. */
  datatype Use = ReadInto(room: nat) | NextSize(gets: bool)

  datatype Session = Session(s: Stream, delivered: seq<byte>, resizes: seq<Size>)

  function Do(x: Session, u: Use): Session {
    match u
    case ReadInto(room) =>
      if x.s.closed then x
      else var r := ReadFrom(x.s, room); x.(s := r.after, delivered := x.delivered + r.data)
    case NextSize(gets) =>
      if !gets || x.s.sizes == [] then x
      else x.(s := x.s.(sizes := x.s.sizes[1..]), resizes := x.resizes + [x.s.sizes[0]])
  }

  function Run(x: Session, uses: seq<Use>): Session
    decreases uses
  {
    if uses == [] then x else Run(Do(x, uses[0]), uses[1..])
  }

  /** a is b with some elements left out. */
  predicate Subsequence(a: seq<Size>, b: seq<Size>)
    decreases |b|
  {
    a == [] || (b != [] && (Subsequence(a, b[..|b| - 1])
                            || (a[|a| - 1] == b[|b| - 1] && Subsequence(a[..|a| - 1], b[..|b| - 1]))))
  }

  /** With `ms` everything that was to come: nothing typed is lost, doubled or reordered, and the
      sizes handed out or waiting are some of those asked for, in order, with few waiting. */
  ghost predicate Accounts(x: Session, ms: seq<Message>) {
    && |x.s.incoming| <= |ms| && x.s.incoming == ms[|ms| - |x.s.incoming|..]
    && x.delivered + x.s.buf == Typed(ms[..|ms| - |x.s.incoming|])
    && Subsequence(x.resizes + x.s.sizes, Asked(ms[..|ms| - |x.s.incoming|]))
    && |x.s.sizes| <= CAPACITY
  }

  lemma {:induction false} TypedAppend(a: seq<Message>, m: Message)
    ensures Typed(a + [m]) == Typed(a) + BytesIn(m)
    ensures Asked(a + [m]) == Asked(a) + SizeIn(m)
  {
    hide BytesIn, SizeIn;
    if a == [] {
      assert [m][1..] == [];
    } else {
      assert (a + [m])[1..] == a[1..] + [m];
      TypedAppend(a[1..], m);
    }
  }

  lemma FrontAndRest(s: seq<byte>, room: nat)
    ensures Front(s, room) + s[|Front(s, room)|..] == s
  {
  }

  /** Taking one message keeps the account. */
  lemma MessageAccounts(x: Session, ms: seq<Message>)
    requires Accounts(x, ms) && x.s.buf == [] && x.s.incoming != []
    ensures var m := x.s.incoming[0];
            var t := x.s.(incoming := x.s.incoming[1..]);
            && (!m.Binary? ==> Accounts(x.(s := t.Offer(m)), ms))
            && (m.Binary? ==> Accounts(x.(s := t.(buf := m.data)), ms))
  {
    hide Typed, Asked, Subsequence, BytesIn, SizeIn;
    var m := x.s.incoming[0];
    if m.Binary? {
      BinaryAccounts(x, ms);
    } else {
      OtherAccounts(x, ms);
    }
  }

  /** What has come so far, and one message more. */
  lemma OneMoreMessage(x: Session, ms: seq<Message>)
    requires Accounts(x, ms) && x.s.incoming != []
    ensures var m, k := x.s.incoming[0], |ms| - |x.s.incoming|;
            && x.s.incoming[1..] == ms[k + 1..] && k + 1 <= |ms|
            && Typed(ms[..k + 1]) == Typed(ms[..k]) + BytesIn(m)
            && Asked(ms[..k + 1]) == Asked(ms[..k]) + SizeIn(m)
  {
    hide *;
    AccountsIncoming(x, ms);
    NextOf(ms, |ms| - |x.s.incoming|, x.s.incoming);
    TypedAppend(ms[..|ms| - |x.s.incoming|], x.s.incoming[0]);
  }

  lemma AccountsIncoming(x: Session, ms: seq<Message>)
    requires Accounts(x, ms)
    ensures |x.s.incoming| <= |ms| && x.s.incoming == ms[|ms| - |x.s.incoming|..]
  {
  }

  lemma NextOf(ms: seq<Message>, k: nat, rest: seq<Message>)
    requires k < |ms| && rest == ms[k..]
    ensures rest[1..] == ms[k + 1..] && ms[..k + 1] == ms[..k] + [rest[0]]
  {
    assert rest[0] == ms[k];
  }

  lemma BinaryAccounts(x: Session, ms: seq<Message>)
    requires Accounts(x, ms) && x.s.buf == [] && x.s.incoming != [] && x.s.incoming[0].Binary?
    ensures Accounts(x.(s := x.s.(incoming := x.s.incoming[1..], buf := x.s.incoming[0].data)), ms)
  {
    var m, k := x.s.incoming[0], |ms| - |x.s.incoming|;
    assert SizeIn(m) == [] && BytesIn(m) == m.data;
    hide Typed, Asked, Subsequence, SizeIn, BytesIn;
    OneMoreMessage(x, ms);
    assert x.delivered + [] == x.delivered;
    assert Asked(ms[..k]) + [] == Asked(ms[..k]);
  }

  lemma OtherAccounts(x: Session, ms: seq<Message>)
    requires Accounts(x, ms) && x.s.buf == [] && x.s.incoming != [] && !x.s.incoming[0].Binary?
    ensures Accounts(x.(s := x.s.(incoming := x.s.incoming[1..]).Offer(x.s.incoming[0])), ms)
  {
    var m, k := x.s.incoming[0], |ms| - |x.s.incoming|;
    assert BytesIn(m) == [];
    hide Typed, Asked, Subsequence, SizeIn, BytesIn;
    OfferAccounts(x.resizes + x.s.sizes, Asked(ms[..k]), SizeIn(m));
    OneMoreMessage(x, ms);
    assert Typed(ms[..k]) + [] == Typed(ms[..k]);
    if |x.s.sizes| < CAPACITY {
      Associate(x.resizes, x.s.sizes, SizeIn(m));
    }
  }

  /** So does delivering a front of what is left over. */
  lemma DeliveryAccounts(x: Session, room: nat, ms: seq<Message>)
    requires Accounts(x, ms)
    ensures var d := Front(x.s.buf, room);
            Accounts(x.(s := x.s.(buf := x.s.buf[|d|..]), delivered := x.delivered + d), ms)
  {
    hide Typed, Asked, Subsequence;
    var d := Front(x.s.buf, room);
    FrontAndRest(x.s.buf, room);
    assert x.delivered + d + x.s.buf[|d|..] == x.delivered + (d + x.s.buf[|d|..]);
  }

  lemma {:induction false} ReadAccounts(x: Session, room: nat, ms: seq<Message>)
    requires Accounts(x, ms)
    ensures var r := ReadFrom(x.s, room); Accounts(x.(s := r.after, delivered := x.delivered + r.data), ms)
    decreases |x.s.incoming|
  {
    var s := x.s;
    if s.buf != [] {
      DeliveryAccounts(x, room, ms);
    } else if s.incoming != [] {
      MessageAccounts(x, ms);
      var m, t := s.incoming[0], s.(incoming := s.incoming[1..]);
      hide Accounts, Front;
      if m.Binary? {
        DeliveryAccounts(x.(s := t.(buf := m.data)), room, ms);
      } else {
        ReadAccounts(x.(s := t.Offer(m)), room, ms);
      }
    } else {
      assert x.delivered + [] == x.delivered;
    }
  }

  lemma OfferAccounts(a: seq<Size>, b: seq<Size>, size: seq<Size>)
    requires Subsequence(a, b) && |size| <= 1
    ensures Subsequence(a, b + size) && Subsequence(a + size, b + size)
  {
    if size == [] {
      assert a + size == a && b + size == b;
    } else {
      assert (b + size)[..|b|] == b && (a + size)[..|a|] == a;
    }
  }

  lemma {:induction false} RunAccounts(x: Session, uses: seq<Use>, ms: seq<Message>)
    requires Accounts(x, ms)
    ensures Accounts(Run(x, uses), ms)
    decreases |uses|
  {
    if uses != [] {
      var u := uses[0];
      if u.ReadInto? && !x.s.closed {
        ReadAccounts(x, u.room, ms);
      } else if u.NextSize? && u.gets && x.s.sizes != [] {
        assert x.resizes + [x.s.sizes[0]] + x.s.sizes[1..] == x.resizes + x.s.sizes;
      }
      RunAccounts(Do(x, u), uses[1..], ms);
    }
  }

  /** The stream's promise over any session: for any messages, any buffer sizes and any mixing of
      reads and resizes, the bytes delivered and the bytes left over are the terminal bytes of the
      messages taken so far, and the sizes handed out are, in order, some of those asked for. */
  lemma NothingTypedIsLost(ms: seq<Message>, uses: seq<Use>)
    ensures Accounts(Run(Session(Stream(ms, [], [], false), [], []), uses), ms)
  {
    var x := Session(Stream(ms, [], [], false), [], []);
    assert ms[..0] == [] && ms[0..] == ms;
    RunAccounts(x, uses, ms);
  }
}

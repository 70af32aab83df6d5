/** What a log means, and what a write, a healing newline or a cut does to that. */
module SolveLog {
  import opened Concatenation
  import opened Json
  import opened RecordCodec

  /** A line of this many bytes or more stops the replay. */
  const MAX_LINE := 0x10_0000

  function LineEnd(b: Bytes): (n: nat)
    ensures n <= |b|
    ensures n < |b| ==> b[n] == '\n'
    ensures forall i | 0 <= i < n :: b[i] != '\n'
  {
    if b == [] || b[0] == '\n' then 0 else 1 + LineEnd(b[1..])
  }

  function DropReturn(line: Bytes): Bytes {
    if line != [] && line[|line| - 1] == '\r' then line[..|line| - 1] else line
  }

  /** The solve on one line, as a sequence of length at most one. */
  function SolveOn(line: Bytes): seq<Pair> {
    match Decode(DropReturn(line))
    case Some(p) => [p]
    case None => []
  }

  /** The solves of all lines, oldest first; a last line need not be terminated. */
  function Pairs(b: Bytes): seq<Pair>
    decreases |b|
  {
    if b == [] then []
    else var n := LineEnd(b); SolveOn(b[..n]) + (if n == |b| then [] else Pairs(b[n + 1..]))
  }

  datatype Replayed = Replayed(visited: seq<Pair>, skipped: nat, tooLong: bool)

  /** Replay with its line limit: what it visits, how many lines it skips, and whether it stops early. */
  function Replay(b: Bytes): Replayed
    decreases |b|
  {
    if b == [] then Replayed([], 0, false)
    else
      var n := LineEnd(b);
      if n >= MAX_LINE then Replayed([], 0, true)
      else
        var rest := if n == |b| then Replayed([], 0, false) else Replay(b[n + 1..]);
        var bad := if DropReturn(b[..n]) != [] && SolveOn(b[..n]) == [] then 1 else 0;
        Replayed(SolveOn(b[..n]) + rest.visited, bad + rest.skipped, rest.tooLong)
  }

  /** What is left of the log after its first line. */
  function Rest(b: Bytes): (r: Bytes)
    requires b != []
    ensures |r| < |b|
  {
    if LineEnd(b) == |b| then [] else b[LineEnd(b) + 1..]
  }

  lemma ReplayNothing()
    ensures Replay([]) == Replayed([], 0, false)
  {
  }

  lemma ReplayStep(b: Bytes)
    requires b != []
    ensures var n, r := LineEnd(b), Replay(Rest(b));
            Replay(b) == if n >= MAX_LINE then Replayed([], 0, true)
                         else Replayed(SolveOn(b[..n]) + r.visited,
                                       (if DropReturn(b[..n]) != [] && SolveOn(b[..n]) == [] then 1 else 0) + r.skipped,
                                       r.tooLong)
  {
    hide SolveOn, LineEnd, DropReturn;
  }

  /** The part of the log before the first line that is too long. */
  function Reached(b: Bytes): (r: Bytes)
    ensures r <= b
    decreases |b|
  {
    if b == [] then []
    else
      var n := LineEnd(b);
      if n >= MAX_LINE then []
      else if n == |b| then b
      else b[..n + 1] + Reached(b[n + 1..])
  }

  predicate Scannable(b: Bytes) {
    Reached(b) == b
  }

  /** Replay finds exactly the solves before the first over-long line. */
  lemma {:induction false} ReplayVisits(b: Bytes)
    ensures Replay(b).visited == Pairs(Reached(b))
    ensures Replay(b).tooLong <==> !Scannable(b)
    decreases |b|
  {
    hide SolveOn, DropReturn;
    if b != [] {
      var n := LineEnd(b);
      if n < |b| {
        ReplayVisits(b[n + 1..]);
        if n < MAX_LINE {
          var r := Reached(b);
          LineEndOf(r, n);
          assert r[..n] == b[..n] && r[n + 1..] == Reached(b[n + 1..]);
          if r == b {
            assert Reached(b[n + 1..]) == b[n + 1..];
          }
        }
      }
    }
  }

  lemma LineEndOf(b: Bytes, n: nat)
    requires n <= |b| && (n < |b| ==> b[n] == '\n') && forall i | 0 <= i < n :: b[i] != '\n'
    ensures LineEnd(b) == n
  {
  }

  // ------------------------------------------------------------------------------ Lines and tails

  /** Nothing, or a last byte that ends a line: the next record starts a line of its own. */
  predicate Clean(b: Bytes) {
    b == [] || b[|b| - 1] == '\n'
  }

  /** Where the unterminated last line starts. */
  function TailStart(b: Bytes): (n: nat)
    ensures n <= |b| && (n == 0 || b[n - 1] == '\n')
    ensures forall i | n <= i < |b| :: b[i] != '\n'
    ensures Clean(b) <==> n == |b|
    decreases |b|
  {
    if Clean(b) then |b| else TailStart(b[..|b| - 1])
  }

  lemma TailStartOf(b: Bytes, n: nat)
    requires n <= |b| && (n == 0 || b[n - 1] == '\n') && forall i | n <= i < |b| :: b[i] != '\n'
    ensures TailStart(b) == n
  {
  }

  /** The solves on terminated lines; these no later write can damage. */
  function Settled(b: Bytes): seq<Pair> {
    Pairs(b[..TailStart(b)])
  }

  lemma PairsStep(line: Bytes, rest: Bytes)
    requires forall i | 0 <= i < |line| :: line[i] != '\n'
    ensures Pairs(line + "\n" + rest) == SolveOn(line) + Pairs(rest)
  {
    hide SolveOn;
    var b := line + "\n" + rest;
    LineEndOf(b, |line|);
    assert b[..|line|] == line && b[|line| + 1..] == rest;
  }

  lemma FirstLine(b: Bytes, n: nat)
    ensures n < |b| && b[n] == '\n' ==> b == b[..n] + "\n" + b[n + 1..]
  {
  }

  lemma {:induction false} PairsAppend(a: Bytes, b: Bytes)
    requires Clean(a)
    ensures Pairs(a + b) == Pairs(a) + Pairs(b)
    decreases |a|
  {
    if a == [] {
      assert a + b == b;
    } else {
      hide SolveOn, Pairs;
      var n := LineEnd(a);
      assert n < |a|;
      hide LineEnd;
      var line, rest := a[..n], a[n + 1..];
      FirstLine(a, n);
      PairsAppend(rest, b);
      PairsStep(line, rest);
      PairsStep(line, rest + b);
      Associate(line + "\n", rest, b);
      Associate(SolveOn(line), Pairs(rest), Pairs(b));
    }
  }

  lemma EmptyLine()
    ensures SolveOn([]) == []
  {
    assert ReadAll(FRESH, []) == FRESH;
  }

  /** A line on its own, with or without its newline. */
  lemma PairsOfLine(line: Bytes)
    requires forall i | 0 <= i < |line| :: line[i] != '\n'
    ensures Pairs(line) == SolveOn(line)
    ensures Pairs(line + "\n") == SolveOn(line)
  {
    hide SolveOn;
    EmptyLine();
    LineEndOf(line, |line|);
    LineEndOf(line + "\n", |line|);
    assert line[..|line|] == line && (line + "\n")[..|line|] == line && (line + "\n")[|line| + 1..] == [];
  }

  lemma PairsSplit(b: Bytes)
    ensures Pairs(b) == Settled(b) + SolveOn(b[TailStart(b)..])
    ensures Clean(b) ==> Settled(b) == Pairs(b)
  {
    var n := TailStart(b);
    hide SolveOn, Pairs, TailStart;
    PairsAppend(b[..n], b[n..]);
    PairsOfLine(b[n..]);
    assert b == b[..n] + b[n..];
    if Clean(b) {
      assert b[..n] == b;
    }
  }

  lemma Regroup(b: Bytes, n: nat, x: Bytes)
    ensures n <= |b| ==> b + x == b[..n] + (b[n..] + x)
  {
  }

  /** Ending the last line changes no solve and settles them all. */
  lemma PairsNewline(b: Bytes)
    ensures Pairs(b + "\n") == Pairs(b) == Settled(b + "\n")
  {
    var n := TailStart(b);
    hide SolveOn, Pairs, TailStart, Settled;
    PairsSplit(b);
    PairsOfLine(b[n..]);
    PairsAppend(b[..n], b[n..]);
    PairsAppend(b[..n], b[n..] + "\n");
    Regroup(b, n, "\n");
    Regroup(b, n, "");
    assert b + "" == b && b[n..] + "" == b[n..];
    PairsSplit(b + "\n");
  }

  /** Terminated lines keep their solves whatever follows. */
  lemma SettledGrows(b: Bytes, x: Bytes)
    ensures Settled(b) <= Settled(b + x)
  {
    hide Pairs;
    var n, m := TailStart(b), TailStart(b + x);
    assert n > 0 ==> (b + x)[n - 1] == '\n';
    assert (b + x)[..m] == b[..n] + (b + x)[n..m];
    PairsAppend(b[..n], (b + x)[n..m]);
  }

  lemma SettledPrefix(b: Bytes, k: nat, m: nat)
    requires k <= m <= |b|
    ensures Settled(b[..k]) <= Settled(b[..m])
  {
    assert b[..m] == b[..k] + b[k..m];
    SettledGrows(b[..k], b[k..m]);
  }

  // ------------------------------------------------------------------------------------- Writing

  /** Every line that holds anything begins with a brace, as records do. */
  predicate Braced(b: Bytes) {
    forall i | 0 <= i < |b| && StartsLine(b, i) :: b[i] == '\n' || b[i] == '{'
  }

  predicate StartsLine(b: Bytes, i: nat)
    requires i < |b|
  {
    i == 0 || b[i - 1] == '\n'
  }

  lemma BracedAppend(b: Bytes, x: Bytes)
    requires Braced(b) && x != [] && (x[0] == '{' || x[0] == '\n')
    requires forall i | 0 <= i < |x| - 1 :: x[i] != '\n'
    ensures Braced(b + x)
  {
    var c := b + x;
    forall i | 0 <= i < |c| && StartsLine(c, i)
      ensures c[i] == '\n' || c[i] == '{'
    {
      if i < |b| {
        assert StartsLine(b, i);
      }
    }
  }

  function Line(r: Record): Bytes {
    Encode(r) + "\n"
  }

  function Heal(b: Bytes): Bytes {
    if Clean(b) then b else b + "\n"
  }

  /** Replay accepts the record and reads it back as it is. */
  predicate Sound(p: Pair) {
    p.user != [] && p.challenge != [] && ValidUtf8(p.user) && ValidUtf8(p.challenge)
  }

  /** What replay makes of the record of a solve: nothing if user or challenge is empty, and otherwise the
      solve with ill-formed bytes replaced. */
  function ReadBack(p: Pair): seq<Pair> {
    if p.user == [] || p.challenge == [] then [] else [Pair(Sanitize(p.user), Sanitize(p.challenge))]
  }

  lemma SoundReadsBack(p: Pair)
    ensures ReadBack(p) == [p] <==> Sound(p)
    ensures forall q | q in ReadBack(p) :: ReadBack(q) == [q]
  {
    SanitizeFixes(p.user);
    SanitizeFixes(p.challenge);
    SanitizeTwice(p.user);
    SanitizeTwice(p.challenge);
    hide ValidUtf8, Sanitize;
  }

  lemma SolveOnRecord(r: Record)
    ensures SolveOn(Encode(r)) == ReadBack(r.Solve())
    ensures OneLine(Encode(r))
  {
    EncodeIsOneLine(r);
    DecodeInvertsEncode(r);
    hide Decode, Encode, ValidUtf8, Sanitize;
  }

  lemma SolveOnTorn(head: Bytes, x: Bytes, r: Record)
    requires head == [] || head[0] == '{'
    requires Torn(x, r)
    requires head != [] || x != Encode(r)
    ensures SolveOn(head + x) == []
  {
    hide Decode, Encode, DropReturn;
    NoReturn(head, x, r);
    if head == [] {
      assert head + x == x;
      TornNeverDecodes(x, r);
    } else {
      GluedNeverDecodes(head, x, r);
    }
  }

  lemma NoReturn(head: Bytes, x: Bytes, r: Record)
    requires Torn(x, r)
    ensures DropReturn(head + x) == head + x
  {
    EncodeIsOneLine(r);
    hide Encode;
    assert (head + x)[|head + x| - 1] == x[|x| - 1] == Encode(r)[|x| - 1];
  }

  /** A torn record goes on the last line, whatever that held. */
  lemma WriteTail(b: Bytes, x: Bytes, r: Record)
    requires Braced(b) && Torn(x, r)
    ensures TailStart(b + x) == TailStart(b) && Braced(b + x)
    ensures (b + x)[..TailStart(b)] == b[..TailStart(b)] && (b + x)[TailStart(b)..] == b[TailStart(b)..] + x
    ensures !Clean(b) ==> b[TailStart(b)] == '{'
  {
    hide Braced, TailStart, Encode, Torn;
    TornShape(x, r);
    BracedAppend(b, x);
    TailOn(b, x);
    SlicesOn(b, x, TailStart(b));
    BracedTail(b);
  }

  lemma TornShape(x: Bytes, r: Record)
    requires Torn(x, r)
    ensures x != [] && x[0] == '{' && forall i | 0 <= i < |x| :: x[i] != '\n'
  {
    EncodeIsOneLine(r);
    hide Encode;
    assert forall i | 0 <= i < |x| :: x[i] == Encode(r)[i];
  }

  lemma TailOn(b: Bytes, x: Bytes)
    requires forall i | 0 <= i < |x| :: x[i] != '\n'
    ensures TailStart(b + x) == TailStart(b)
  {
    var n := TailStart(b);
    hide TailStart;
    assert n > 0 ==> (b + x)[n - 1] == '\n';
    assert forall i | |b| <= i < |b + x| :: (b + x)[i] == x[i - |b|];
    TailStartOf(b + x, n);
  }

  lemma SlicesOn(b: Bytes, x: Bytes, n: nat)
    ensures n <= |b| ==> (b + x)[..n] == b[..n] && (b + x)[n..] == b[n..] + x
  {
  }

  lemma BracedTail(b: Bytes)
    requires Braced(b)
    ensures !Clean(b) ==> b[TailStart(b)] == '{'
  {
    var n := TailStart(b);
    hide TailStart;
    if !Clean(b) {
      assert StartsLine(b, n);
    }
  }

  /** The core of the log: a write adds its solve exactly when it begins a line and every byte of
      the record is written. On a damaged line it adds nothing and takes with it whatever that line held. */
  lemma Write(b: Bytes, x: Bytes, r: Record)
    requires Braced(b) && Torn(x, r)
    ensures Pairs(b + x)
         == if Clean(b) then Pairs(b) + (if x == Encode(r) then ReadBack(r.Solve()) else []) else Settled(b)
    ensures Settled(b + x) == Settled(b)
    ensures Braced(b + x)
  {
    var tail := b[TailStart(b)..];
    WriteTail(b, x, r);
    SolveOnRecord(r);
    PairsSplit(b);
    PairsSplit(b + x);
    hide Encode, ReadBack, SolveOn, Pairs, Braced;
    if !Clean(b) || x != Encode(r) {
      SolveOnTorn(tail, x, r);
    } else {
      assert tail + x == x;
    }
  }

  lemma HealKeeps(b: Bytes)
    requires Braced(b)
    ensures Pairs(Heal(b)) == Pairs(b) == Settled(Heal(b)) && Clean(Heal(b)) && Braced(Heal(b))
  {
    PairsSplit(b);
    PairsNewline(b);
    BracedAppend(b, "\n");
    hide Pairs, Settled, Braced;
  }

  /** A whole line written to a log: as above, and the line is settled. */
  lemma WriteLine(b: Bytes, r: Record)
    requires Braced(b)
    ensures Pairs(b + Line(r)) == if Clean(b) then Pairs(b) + ReadBack(r.Solve()) else Settled(b)
    ensures Settled(b + Line(r)) == Pairs(b + Line(r))
    ensures Braced(b + Line(r)) && Clean(b + Line(r))
  {
    EncodeIsOneLine(r);
    hide Encode, Pairs, Settled, ReadBack;
    Write(b, Encode(r), r);
    PairsNewline(b + Encode(r));
    BracedAppend(b + Encode(r), "\n");
    assert b + Line(r) == b + Encode(r) + "\n";
  }

  /** Whatever prefix of a write survives, it is a torn write or the whole line. */
  lemma WriteCut(b: Bytes, r: Record, k: nat)
    requires |b| < k <= |b| + |Line(r)|
    ensures var c := (b + Line(r))[..k];
            c == b + Line(r) || (c == b + Encode(r)[..k - |b|] && Torn(Encode(r)[..k - |b|], r))
  {
    hide Encode;
    var c := (b + Line(r))[..k];
    if k < |b| + |Line(r)| {
      assert c == b + Line(r)[..k - |b|];
      assert Line(r)[..k - |b|] == Encode(r)[..k - |b|];
    } else {
      assert c == b + Line(r);
    }
  }
}

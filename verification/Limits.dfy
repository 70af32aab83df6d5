/** How long lines may get. */
module Limits {
  import opened Json
  import opened Options
  import opened RecordCodec
  import opened SolveLog
  import opened Durability

  /** No newline from i to j. */
  predicate Stretch(b: Bytes, i: nat, j: nat) {
    i <= j <= |b| && forall k | i <= k < j :: b[k] != '\n'
  }

  /** Every stretch without a newline is shorter than 1 MiB. */
  predicate ShortStretches(b: Bytes) {
    forall i, j | 0 <= i <= j <= |b| && Stretch(b, i, j) :: j - i < 1_048_576
  }

  lemma RestStretches(b: Bytes, n: nat)
    requires n < |b| && b[n] == '\n' && forall k | 0 <= k < n :: b[k] != '\n'
    ensures ShortStretches(b) <==> n < 1_048_576 && ShortStretches(b[n + 1..])
  {
    var r := b[n + 1..];
    if ShortStretches(b) {
      assert Stretch(b, 0, n);
      forall i: nat, j: nat | Stretch(r, i, j) ensures j - i < 1_048_576 {
        assert forall k | i <= k < j :: b[n + 1 + k] == r[k];
        assert forall k | n + 1 + i <= k < n + 1 + j :: b[k] == r[k - n - 1];
        assert Stretch(b, n + 1 + i, n + 1 + j);
      }
    }
    if n < 1_048_576 && ShortStretches(r) {
      forall i: nat, j: nat | Stretch(b, i, j) ensures j - i < 1_048_576 {
        if j > n {
          assert i > n || i == j;
          if i > n {
            assert forall k | i - n - 1 <= k < j - n - 1 :: r[k] == b[n + 1 + k];
            assert Stretch(r, i - n - 1, j - n - 1);
          }
        }
      }
    }
  }

  lemma LastStretches(b: Bytes)
    requires forall k | 0 <= k < |b| :: b[k] != '\n'
    ensures ShortStretches(b) <==> |b| < 1_048_576
  {
    assert Stretch(b, 0, |b|);
  }

  /** The line limit. Replay goes to the end of the log, and finds every solve on it, if and only if each stretch
      without a newline is shorter than 1 MiB; otherwise it stops and says so. */
  lemma {:induction false} ReplaysAllIffShort(b: Bytes)
    ensures ShortStretches(b) <==> !Replay(b).tooLong
    ensures ShortStretches(b) ==> Replay(b).visited == Pairs(b)
    decreases |b|
  {
    if b == [] {
      LastStretches(b);
    } else {
      var n := LineEnd(b);
      ReplayStep(b);
      hide Replay, SolveOn, DropReturn;
      if n == |b| {
        LastStretches(b);
        ReplayNothing();
        assert Pairs(b) == SolveOn(b[..n]) + [];
      } else {
        RestStretches(b, n);
        hide ShortStretches;
        ReplaysAllIffShort(b[n + 1..]);
      }
    }
  }

  lemma ScannableIsShort(b: Bytes)
    ensures Scannable(b) <==> ShortStretches(b)
  {
    hide Scannable, ShortStretches, Replay;
    ReplaysAllIffShort(b);
    ReplayVisits(b);
  }

  // ----------------------------------------------------------------------- How long a record is

  lemma PieceSize(s: Bytes)
    requires s != []
    ensures |QuotePiece(s)| <= 6 * QuoteTake(s)
  {
  }

  lemma {:induction false} QuoteSize(s: Bytes)
    ensures |Quote(s)| <= 6 * |s|
    decreases |s|
  {
    if s != [] {
      PieceSize(s);
      hide QuotePiece, QuoteTake;
      QuoteSize(s[QuoteTake(s)..]);
    }
  }

  /** A record takes at most six bytes for each of its texts' bytes, and 34 more. */
  lemma RecordSize(r: Record)
    ensures |Encode(r)| <= 6 * (|r.user| + |r.challenge| + |r.at|) + 34
  {
    QuoteSize(r.user);
    QuoteSize(r.challenge);
    QuoteSize(r.at);
    hide Quote;
  }

  // ----------------------------------------------------------------------- Runs within the limit

  /** The texts of a record are small: three fields of 50 KiB are. */
  predicate SmallRecord(p: Pair, at: Bytes) {
    6 * (|p.user| + |p.challenge| + |at|) + 34 < 1_048_576
  }

  /** Only small records are written, and none on a damaged line. */
  predicate Moderate(s: State, run: seq<Event>)
    requires Possible(s, run)
    decreases |run|
  {
    run == []
    || ((run[0].WriteWhole? ==> SmallRecord(run[0].solve, run[0].at) && Clean(s.file))
        && (run[0].WriteShort? ==> SmallRecord(run[0].solve, run[0].at) && Clean(s.file))
        && Moderate(Next(s, run[0]), run[1..]))
  }

  lemma WrittenShort(b: Bytes, x: Bytes)
    requires ShortStretches(b) && Clean(b) && |x| <= 1_048_576
    requires |x| == 1_048_576 ==> x[|x| - 1] == '\n'
    ensures ShortStretches(b + x)
  {
    assert b != [] ==> (b + x)[|b| - 1] == '\n';
    assert x != [] ==> (b + x)[|b + x| - 1] == x[|x| - 1];
    forall i: nat, j: nat | Stretch(b + x, i, j) ensures j - i < 1_048_576 {
      if j <= |b| {
        assert forall k | i <= k < j :: (b + x)[k] == b[k];
        assert Stretch(b, i, j);
      }
    }
  }

  lemma CutShort(b: Bytes, k: nat)
    requires ShortStretches(b) && k <= |b|
    ensures ShortStretches(b[..k])
  {
    forall i: nat, j: nat | Stretch(b[..k], i, j) ensures j - i < 1_048_576 {
      assert forall m | i <= m < j :: b[m] == b[..k][m];
      assert Stretch(b, i, j);
    }
  }

  lemma HealedShort(b: Bytes)
    requires ShortStretches(b)
    ensures ShortStretches(Heal(b))
  {
    assert (b + "\n")[|b|] == '\n';
    if !Clean(b) {
      forall i: nat, j: nat | Stretch(b + "\n", i, j) ensures j - i < 1_048_576 {
        if j <= |b| {
          assert forall k | i <= k < j :: (b + "\n")[k] == b[k];
          assert Stretch(b, i, j);
        }
      }
    }
  }

  lemma LineShort(p: Pair, at: Bytes, n: nat)
    requires SmallRecord(p, at) && n <= |Line(Record(p.user, p.challenge, at))|
    ensures var x := Line(Record(p.user, p.challenge, at))[..n];
            |x| <= 1_048_576 && (|x| == 1_048_576 ==> x[|x| - 1] == '\n')
  {
    RecordSize(Record(p.user, p.challenge, at));
    hide Encode;
  }

  lemma ModerateStep(s: State, e: Event)
    requires ShortStretches(s.file) && Enabled(s, e)
    requires e.WriteWhole? || e.WriteShort? ==> SmallRecord(e.solve, e.at) && Clean(s.file)
    ensures ShortStretches(Next(s, e).file)
  {
    hide ShortStretches, Heal, Line, Clean, SmallRecord, Recovered, Found, Front;
    match e
    case Boot => HealedShort(s.file);
    case WriteWhole(p, at) =>
      var line := Line(Record(p.user, p.challenge, at));
      LineShort(p, at, |line|);
      assert line[..|line|] == line;
      WrittenShort(s.file, line);
    case WriteShort(p, at, n) =>
      LineShort(p, at, n);
      WrittenShort(s.file, Line(Record(p.user, p.challenge, at))[..n]);
    case PowerCut(kept) => CutShort(s.file, kept);
    case _ =>
  }

  lemma {:induction false} ModerateRun(s: State, run: seq<Event>)
    requires ShortStretches(s.file) && Possible(s, run) && Moderate(s, run)
    ensures LinesFit(s, run) && ShortStretches(After(s, run).file)
    decreases |run|
  {
    hide ShortStretches, Heal, Clean, SmallRecord, Next, Enabled, Scannable;
    if run != [] {
      ModerateStep(s, run[0]);
      if run[0].Boot? {
        HealedShort(s.file);
        ScannableIsShort(Heal(s.file));
      }
      ModerateRun(Next(s, run[0]), run[1..]);
    }
  }

  /** Runs that write small records, and none on a damaged line, never meet a line that is too long. */
  lemma SmallTextsFit(run: seq<Event>)
    requires Possible(FIRST, run) && Moderate(FIRST, run)
    ensures LinesFit(FIRST, run)
  {
    LastStretches([]);
    hide ShortStretches, Possible, Moderate;
    ModerateRun(FIRST, run);
  }

  /** There every boot recovers what was acknowledged, as replay reads its record. */
  lemma AcknowledgedIsRecovered(before: seq<Event>, later: seq<Event>, p: Pair)
    requires Possible(FIRST, before) && Moderate(FIRST, before) && p in After(FIRST, before).acked
    requires Possible(After(FIRST, before), later) && Moderate(After(FIRST, before), later)
    ensures forall q | q in ReadBack(p) :: q in Recovered(After(After(FIRST, before), later).file)
  {
    LastStretches([]);
    var t := After(After(FIRST, before), later);
    hide ShortStretches, Possible, Moderate, After, Recovered, ReadBack, Scannable, Heal;
    ModerateRun(FIRST, before);
    ModerateRun(After(FIRST, before), later);
    HealedShort(t.file);
    ScannableIsShort(Heal(t.file));
    Durable(before, later, p);
  }

  // ----------------------------------------------------------------------- Line by line

  /** A log of these lines. */
  function Lined(lines: seq<Bytes>): Bytes {
    if lines == [] then [] else lines[0] + "\n" + Lined(lines[1..])
  }

  function Solves(lines: seq<Bytes>): seq<Pair> {
    if lines == [] then []
    else (match Decode(DropReturn(lines[0])) case Some(p) => [p] case None => []) + Solves(lines[1..])
  }

  /** A line that holds something, and no solve. */
  predicate IsBad(line: Bytes) {
    DropReturn(line) != [] && Decode(DropReturn(line)) == None
  }

  ghost function BadBelow(lines: seq<Bytes>, n: nat): set<nat>
    requires n <= |lines|
  {
    set i: nat | i < n && IsBad(lines[i])
  }

  lemma {:induction false} BadShift(line: Bytes, rest: seq<Bytes>, n: nat)
    requires n <= |rest|
    ensures |BadBelow([line] + rest, n + 1)| == (if IsBad(line) then 1 else 0) + |BadBelow(rest, n)|
  {
    hide IsBad;
    var all := [line] + rest;
    if n == 0 {
      assert BadBelow(rest, 0) == {};
      assert BadBelow(all, 1) == if IsBad(line) then {0} else {};
    } else {
      BadShift(line, rest, n - 1);
      assert all[n] == rest[n - 1];
      assert BadBelow(all, n + 1) == BadBelow(all, n) + if IsBad(rest[n - 1]) then {n} else {};
      assert BadBelow(rest, n) == BadBelow(rest, n - 1) + if IsBad(rest[n - 1]) then {n - 1} else {};
    }
  }

  lemma ReplayFirst(line: Bytes, rest: Bytes)
    requires |line| < 1_048_576 && forall k | 0 <= k < |line| :: line[k] != '\n'
    ensures var r := Replay(rest);
            && Replay(line + "\n" + rest)
            == Replayed(SolveOn(line) + r.visited, (if IsBad(line) then 1 else 0) + r.skipped, r.tooLong)
  {
    var b := line + "\n" + rest;
    assert b[..|line|] == line && b[|line| + 1..] == rest;
    LineEndOf(b, |line|);
    ReplayStep(b);
    hide Decode, DropReturn, Replay;
  }

  /** Replay, line by line: of lines within the limit it visits the solve of each that holds one, in order, and
      counts as skipped those that hold something else. */
  lemma {:induction false} ReplaysLines(lines: seq<Bytes>)
    requires forall i | 0 <= i < |lines| ::
               |lines[i]| < 1_048_576 && forall k | 0 <= k < |lines[i]| :: lines[i][k] != '\n'
    ensures Replay(Lined(lines)) == Replayed(Solves(lines), |BadBelow(lines, |lines|)|, false)
  {
    if lines == [] {
      ReplayNothing();
      assert BadBelow(lines, 0) == {};
    } else {
      var line, rest := lines[0], lines[1..];
      assert lines == [line] + rest;
      ReplayFirst(line, Lined(rest));
      BadShift(line, rest, |rest|);
      ReplaysLines(rest);
      hide Replay, BadBelow, DropReturn, IsBad;
    }
  }

  /** A carriage return before the newline is no part of the line. */
  lemma CarriageReturns(line: Bytes)
    requires |line| < 1_048_575 && (forall k | 0 <= k < |line| :: line[k] != '\n')
    requires line == [] || line[|line| - 1] != '\r'
    ensures Replay(line + "\r" + "\n") == Replay(line + "\n")
  {
    assert DropReturn(line + "\r") == line == DropReturn(line) by {
      assert (line + "\r")[..|line|] == line;
    }
    hide DropReturn, Replay;
    ReplayFirst(line + "\r", []);
    ReplayFirst(line, []);
    assert line + "\r" + "\n" + [] == line + "\r" + "\n" && line + "\n" + [] == line + "\n";
  }
}

/** Runs of the scoring engine, event by event. */
module Losses {
  import opened Json
  import opened Options
  import opened RecordCodec
  import opened SolveLog
  import opened Durability
  import opened Survival

  // ------------------------------------------------------------------------------- Runs in pieces

  lemma RunFirst(s: State, e: Event, rest: seq<Event>)
    ensures Possible(s, [e] + rest) <==> Enabled(s, e) && Possible(Next(s, e), rest)
    ensures Possible(s, [e] + rest) ==> After(s, [e] + rest) == After(Next(s, e), rest)
  {
    hide Enabled, Next;
    assert ([e] + rest)[1..] == rest;
  }

  lemma RunNothing(s: State)
    ensures Possible(s, []) && After(s, []) == s
  {
  }

  lemma {:induction false} RunAppend(s: State, a: seq<Event>, b: seq<Event>)
    ensures Possible(s, a + b) <==> Possible(s, a) && Possible(After(s, a), b)
    ensures Possible(s, a + b) ==> After(s, a + b) == After(After(s, a), b)
    decreases |a|
  {
    if a == [] {
      assert a + b == b;
    } else {
      hide Enabled, Next;
      assert a + b == [a[0]] + (a[1..] + b);
      RunFirst(s, a[0], a[1..] + b);
      if Enabled(s, a[0]) {
        RunAppend(Next(s, a[0]), a[1..], b);
      }
    }
  }

  lemma RunOne(s: State, e: Event)
    ensures Possible(s, [e]) <==> Enabled(s, e)
    ensures Possible(s, [e]) ==> After(s, [e]) == Next(s, e)
  {
    RunFirst(s, e, []);
    assert [e] + [] == [e];
    hide Enabled, Next;
  }

  lemma RunTwo(s: State, d: Event, e: Event)
    ensures Possible(s, [d, e]) <==> Enabled(s, d) && Enabled(Next(s, d), e)
    ensures Possible(s, [d, e]) ==> After(s, [d, e]) == Next(Next(s, d), e)
  {
    RunFirst(s, d, [e]);
    assert [d] + [e] == [d, e];
    hide Enabled, Next;
    if Enabled(s, d) {
      RunOne(Next(s, d), e);
    }
  }

  // ----------------------------------------------------------------------- A request, undisturbed

  /** All the steps of a request whose solve is new. */
  function Request(p: Pair, at: Bytes): seq<Event> {
    [Submit(p)] + [WriteWhole(p, at), SyncDone]
  }

  /** The state after them. */
  function Requested(s: State, p: Pair, at: Bytes): State {
    var file := s.file + Line(Record(p.user, p.challenge, at));
    s.(file := file, synced := |file|, mem := s.mem + {p}, won := s.won - {p}, pending := {},
       appended := s.appended + [p], acked := s.acked + {p}, tried := s.tried + {p})
  }

  /** In any serving state whose log is at a line start and has no writer, a request for a new solve can run
      through its steps; then its solve is on the log, synced, and acknowledged. */
  lemma Acknowledged(s: State, p: Pair, at: Bytes)
    requires s.up && s.writer.None? && Clean(s.file) && p !in s.mem
    ensures Possible(s, Request(p, at)) && After(s, Request(p, at)) == Requested(s, p, at)
  {
    hide Line, Clean, Possible, After;
    var s1 := Next(s, Submit(p));
    RunFirst(s, Submit(p), [WriteWhole(p, at), SyncDone]);
    RunTwo(s1, WriteWhole(p, at), SyncDone);
    assert (s.won + {p}) - {p} == s.won - {p};
  }

  /** The state after them where the log is damaged: nothing says so, but the solve is lost. */
  function Smeared(s: State, p: Pair, at: Bytes): State {
    var file := s.file + Line(Record(p.user, p.challenge, at));
    s.(file := file, synced := |file|, mem := s.mem + {p}, won := s.won - {p}, pending := {}, lost := s.lost + {p},
       spoilt := s.spoilt + {p}, appended := s.appended + [p], smeared := s.smeared + {p}, tried := s.tried + {p})
  }

  lemma RequestSmeared(s: State, p: Pair, at: Bytes)
    requires s.up && s.writer.None? && !Clean(s.file) && p !in s.mem
    ensures Possible(s, Request(p, at)) && After(s, Request(p, at)) == Smeared(s, p, at)
  {
    hide Line, Clean, Possible, After;
    var s1 := Next(s, Submit(p));
    RunFirst(s, Submit(p), [WriteWhole(p, at), SyncDone]);
    RunTwo(s1, WriteWhole(p, at), SyncDone);
    assert (s.won + {p}) - {p} == s.won - {p};
  }

  /** The process dies and another boots. */
  lemma Rebooted(s: State)
    requires s.up
    ensures Possible(s, [Kill, Boot])
    ensures var t := After(s, [Kill, Boot]);
            && t == Down(s).(up := true, file := Heal(s.file), atBoot := Heal(s.file), mem := Recovered(s.file),
                             pending := Recovered(s.file) - Found(Front(Heal(s.file), s.synced)))
  {
    hide Heal, Recovered, Found, Front, Possible, After;
    RunTwo(s, Kill, Boot);
  }

  const STARTED := FIRST.(up := true)

  /** The first boot. */
  lemma Started(rest: seq<Event>)
    ensures Possible(FIRST, [Boot] + rest) <==> Possible(STARTED, rest)
    ensures Possible(FIRST, [Boot] + rest) ==> After(FIRST, [Boot] + rest) == After(STARTED, rest)
  {
    NothingRecovered();
    assert Next(FIRST, Boot) == STARTED by {
      hide Recovered, Found, Front;
    }
    hide Next, Possible, After;
    RunFirst(FIRST, Boot, rest);
  }

  lemma NothingRecovered()
    ensures Recovered([]) == {} && Heal([]) == [] && Clean([]) && Found([]) == {}
  {
    ReplayNothing();
    hide Replay;
    assert Pairs([]) == [];
  }

  /** A power cut that leaves nothing. */
  lemma AllGone(s: State)
    requires s.synced == 0
    ensures Possible(s, [PowerCut(0), Boot]) && After(s, [PowerCut(0), Boot]).mem == {}
  {
    NothingRecovered();
    hide Recovered, Heal, Found, Front, Possible, After;
    RunTwo(s, PowerCut(0), Boot);
    assert s.file[..0] == [];
  }

  // -------------------------------------------------------------------------------- Runs that lose

  /** A request that finds its solve already in memory is answered "correct" without waiting for the
      winner's append; a power cut can then undo what it was told. */
  lemma LoserNotDurable(p: Pair)
    requires Sound(p)
    ensures var run := [Boot] + [Submit(p), Submit(p)];
            && Possible(FIRST, run) && p in After(FIRST, run).mem
            && Possible(After(FIRST, run), [PowerCut(0), Boot])
            && After(After(FIRST, run), [PowerCut(0), Boot]).mem == {}
  {
    hide Sound, Possible, After, Recovered;
    Started([Submit(p), Submit(p)]);
    RunTwo(STARTED, Submit(p), Submit(p));
    AllGone(Next(STARTED, Submit(p)));
  }

  /** A process that dies between its write and its sync leaves a line that the next one recovers but never
      syncs: memory and log agree, no append failed, a second submission is told "correct", and a power cut
      undoes it. */
  lemma RebootNotDurable(p: Pair, at: Bytes)
    requires Sound(p) && Scannable(Line(Record(p.user, p.challenge, at)))
    ensures var run := [Boot] + ([Submit(p), WriteWhole(p, at)] + [Kill, Boot]);
            && Possible(FIRST, run)
            && var s := After(FIRST, run);
            && s.up && s.mem == Found(s.file) == {p}
            && s.won == {} && s.lost == {} && s.writer == None && s.smeared == {} && s.pending == {p}
            && Possible(s, [PowerCut(0), Boot]) && After(s, [PowerCut(0), Boot]).mem == {}
  {
    var line := Line(Record(p.user, p.challenge, at));
    LineAlone(p, at);
    NothingRecovered();
    WrittenStart(p, at);
    hide Sound, Found, Possible, After, Recovered, Line, Heal, Scannable, Next;
    Started([Submit(p), WriteWhole(p, at)] + [Kill, Boot]);
    RunAppend(STARTED, [Submit(p), WriteWhole(p, at)], [Kill, Boot]);
    var s := After(STARTED, [Submit(p), WriteWhole(p, at)]);
    Rebooted(s);
    assert Front(line, 0) == [];
    AllGone(After(s, [Kill, Boot]));
  }

  lemma WrittenStart(p: Pair, at: Bytes)
    requires Sound(p)
    ensures Possible(STARTED, [Submit(p), WriteWhole(p, at)])
    ensures var s := After(STARTED, [Submit(p), WriteWhole(p, at)]);
            s.up && s.synced == 0 && s.file == Line(Record(p.user, p.challenge, at)) && s.smeared == {}
  {
    var line := Line(Record(p.user, p.challenge, at));
    hide Sound, Possible, After, Line;
    RunTwo(STARTED, Submit(p), WriteWhole(p, at));
    assert [] + line == line;
  }

  /** A log of one line. */
  lemma LineAlone(p: Pair, at: Bytes)
    requires Sound(p)
    ensures var line := Line(Record(p.user, p.challenge, at));
            Heal(line) == line && Found(line) == {p} && (Scannable(line) ==> Recovered(line) == {p})
  {
    SoundSet(p);
    LineHolds(p, at);
    hide *;
    HealFinds(Line(Record(p.user, p.challenge, at)));
  }

  lemma LineHolds(p: Pair, at: Bytes)
    ensures var line := Line(Record(p.user, p.challenge, at));
            Braced(line) && Clean(line) && Heal(line) == line && Found(line) == ReadBackSet(p)
  {
    var line := Line(Record(p.user, p.challenge, at));
    NothingRecovered();
    BracedNothing();
    hide Found, Safe, Encode, Recovered, Line, ReadBack, ReadBackSet, Braced;
    WholeKeeps([], p, at);
    assert [] + line == line;
    WriteLine([], Record(p.user, p.challenge, at));
  }

  /** After a write that failed part-way, the next append of the same process is glued onto it: it returns
      nil, and neither solve is recovered. */
  lemma SmearedIsLost(p: Pair, q: Pair, at: Bytes)
    requires p != q
    ensures var run := [Boot] + ([Submit(p), WriteShort(p, at, 1)] + Request(q, at));
            && Possible(FIRST, run) && q in After(FIRST, run).smeared
            && Possible(After(FIRST, run), [Kill, Boot]) && After(After(FIRST, run), [Kill, Boot]).mem == {}
  {
    GluedLine(q, at);
    ShortStart(p, at);
    hide Possible, After, Recovered, Line, Request, Clean;
    Started([Submit(p), WriteShort(p, at, 1)] + Request(q, at));
    RunAppend(STARTED, [Submit(p), WriteShort(p, at, 1)], Request(q, at));
    var s := After(STARTED, [Submit(p), WriteShort(p, at, 1)]);
    RequestSmeared(s, q, at);
    Rebooted(Smeared(s, q, at));
  }

  lemma ShortStart(p: Pair, at: Bytes)
    ensures Possible(STARTED, [Submit(p), WriteShort(p, at, 1)])
    ensures After(STARTED, [Submit(p), WriteShort(p, at, 1)])
         == STARTED.(file := "{", mem := {p}, lost := {p}, spoilt := {p}, appended := [p], tried := {p})
  {
    var line := Line(Record(p.user, p.challenge, at));
    EncodeIsOneLine(Record(p.user, p.challenge, at));
    hide Encode;
    assert line[..1] == "{" && |line| > 1;
    hide Possible, After, Line;
    RunTwo(STARTED, Submit(p), WriteShort(p, at, 1));
    assert [] + line[..1] == "{";
  }

  lemma GluedLine(q: Pair, at: Bytes)
    ensures !Clean("{") && Recovered("{" + Line(Record(q.user, q.challenge, at))) == {}
  {
    BraceAlone();
    hide Found, Safe, Recovered, Encode, Line, ReadBack, ReadBackSet;
    WholeKeeps("{", q, at);
    WriteLine("{", Record(q.user, q.challenge, at));
    RecoveredIsFound("{" + Line(Record(q.user, q.challenge, at)));
  }

  lemma BraceAlone()
    ensures !Clean("{") && Braced("{") && Safe("{") == {}
  {
    assert TailStart("{") == 0 && "{"[..0] == [] && Pairs([]) == [];
  }

  /** A solve without user or challenge is acknowledged as any other, and its record is skipped by replay. */
  lemma EmptyIsLost(p: Pair, at: Bytes)
    requires p.user == [] || p.challenge == []
    ensures var run := [Boot] + Request(p, at);
            && Possible(FIRST, run) && p in After(FIRST, run).acked
            && Possible(After(FIRST, run), [Kill, Boot]) && After(After(FIRST, run), [Kill, Boot]).mem == {}
  {
    var line := Line(Record(p.user, p.challenge, at));
    assert ReadBackSet(p) == {};
    hide *;
    Started(Request(p, at));
    StartedIs();
    Acknowledged(STARTED, p, at);
    RequestedIs(p, at);
    LineHolds(p, at);
    RecoveredIsFound(line);
    Rebooted(Requested(STARTED, p, at));
    assert [] + line == line;
  }

  /** A line too long to replay hides every solve behind it: an acknowledged one is not recovered, and, being
      new to the process, is appended again when it is submitted again. */
  lemma LongLineHides(q: Pair, p: Pair, at: Bytes)
    requires Sound(q) && Sound(p) && p != q && |Encode(Record(q.user, q.challenge, at))| >= MAX_LINE
    ensures var run := [Boot] + (Request(q, at) + (Request(p, at) + [Kill, Boot]));
            && Possible(FIRST, run)
            && var s := After(FIRST, run);
            && p in s.acked && s.mem == {}
            && Possible(s, Request(p, at)) && Pairs(After(s, Request(p, at)).file) == [q, p, p]
  {
    hide *;
    LongRun(q, p, at);
    LongLog(q, p, at);
    var s := After(TwoRequests(q, p, at), [Kill, Boot]);
    Acknowledged(s, p, at);
    RequestedFile(s, p, at);
  }

  lemma LongRun(q: Pair, p: Pair, at: Bytes)
    requires Sound(q) && Sound(p) && p != q && |Encode(Record(q.user, q.challenge, at))| >= MAX_LINE
    ensures var run := [Boot] + (Request(q, at) + (Request(p, at) + [Kill, Boot]));
            && Possible(FIRST, run) && Possible(TwoRequests(q, p, at), [Kill, Boot])
            && var s := After(FIRST, run);
            && s == After(TwoRequests(q, p, at), [Kill, Boot])
            && s.up && s.writer.None? && s.file == LongFile(q, p, at) && s.mem == {} && p in s.acked && Clean(s.file)
  {
    hide *;
    TwoRun(q, p, at);
    LongReboot(q, p, at);
    Started(Request(q, at) + (Request(p, at) + [Kill, Boot]));
    assert Request(q, at) + (Request(p, at) + [Kill, Boot]) == Request(q, at) + Request(p, at) + [Kill, Boot];
    RunAppend(STARTED, Request(q, at) + Request(p, at), [Kill, Boot]);
    LongLog(q, p, at);
  }

  /** There a solve can be on a line that waits for a sync and yet be safe, on a line that an earlier process
      synced: without the over-long line, the two exclude each other. */
  lemma LongLineKeeps(q: Pair, p: Pair, at: Bytes)
    requires Sound(q) && Sound(p) && p != q && |Encode(Record(q.user, q.challenge, at))| >= MAX_LINE
    ensures var run := [Boot] + (Request(q, at) + (Request(p, at) + [Kill, Boot]));
            && Possible(FIRST, run) && Possible(After(FIRST, run), [Submit(p), WriteWhole(p, at)])
            && var s := After(After(FIRST, run), [Submit(p), WriteWhole(p, at)]);
            && s.up && p in s.mem && p in AtRisk(s)
            && forall k | s.synced <= k <= |s.file| :: p in Found(s.file[..k])
  {
    hide *;
    LongLineHides(q, p, at);
    var run := [Boot] + (Request(q, at) + (Request(p, at) + [Kill, Boot]));
    LongRun(q, p, at);
    AtRiskAgain(After(FIRST, run), p, at);
    Durable(run, [Submit(p), WriteWhole(p, at)], p);
    SoundReadsBack(p);
    assert p in ReadBack(p);
  }

  lemma AtRiskAgain(s: State, p: Pair, at: Bytes)
    requires s.up && s.writer.None? && s.mem == {} && Sound(p) && Clean(s.file)
    ensures Possible(s, [Submit(p), WriteWhole(p, at)])
    ensures var t := After(s, [Submit(p), WriteWhole(p, at)]); t.up && p in t.mem && p in AtRisk(t)
  {
    hide Possible, After, Line, Sound, Clean;
    RunTwo(s, Submit(p), WriteWhole(p, at));
  }

  lemma RequestedFile(s: State, p: Pair, at: Bytes)
    ensures Requested(s, p, at).file == s.file + Line(Record(p.user, p.challenge, at))
  {
    hide Line;
  }

  lemma LongReboot(q: Pair, p: Pair, at: Bytes)
    requires Sound(q) && Sound(p) && p != q && |Encode(Record(q.user, q.challenge, at))| >= MAX_LINE
    ensures var two := TwoRequests(q, p, at);
            && Possible(two, [Kill, Boot])
            && var s := After(two, [Kill, Boot]);
            s.up && s.writer.None? && s.file == LongFile(q, p, at) && s.mem == {} && p in s.acked
  {
    TwoIs(q, p, at);
    LongLog(q, p, at);
    hide Sound, Line, Possible, After, Recovered, Heal, Clean, Found, Front, Encode, Pairs, LongFile;
    Rebooted(TwoRequests(q, p, at));
  }

  /** The log of the two requests. */
  function LongFile(q: Pair, p: Pair, at: Bytes): Bytes {
    Line(Record(q.user, q.challenge, at)) + Line(Record(p.user, p.challenge, at))
  }

  /** The state after the two requests. */
  function TwoRequests(q: Pair, p: Pair, at: Bytes): State {
    Requested(Requested(STARTED, q, at), p, at)
  }

  lemma TwoRun(q: Pair, p: Pair, at: Bytes)
    requires Sound(q) && Sound(p) && p != q
    ensures Possible(STARTED, Request(q, at) + Request(p, at))
    ensures After(STARTED, Request(q, at) + Request(p, at)) == TwoRequests(q, p, at)
    ensures TwoRequests(q, p, at).file == LongFile(q, p, at) && TwoRequests(q, p, at).acked == {q, p}
  {
    hide *;
    BracedNothing();
    OneMoreLine([], q, at);
    Acknowledged(STARTED, q, at) by {
      StartedIs();
    }
    RequestedIs(q, at);
    RunAppend(STARTED, Request(q, at), Request(p, at));
    Acknowledged(Requested(STARTED, q, at), p, at);
    TwoIs(q, p, at);
  }

  lemma StartedIs()
    ensures STARTED.up && STARTED.writer.None? && STARTED.file == [] && STARTED.mem == {} && Clean([])
  {
  }

  lemma RequestedIs(q: Pair, at: Bytes)
    ensures var s := Requested(STARTED, q, at);
            s.up && s.writer.None? && s.file == [] + Line(Record(q.user, q.challenge, at)) && s.mem == {q}
              && q in s.acked
  {
    hide Line;
  }

  lemma TwoIs(q: Pair, p: Pair, at: Bytes)
    ensures TwoRequests(q, p, at) == Requested(Requested(STARTED, q, at), p, at)
    ensures TwoRequests(q, p, at).file == LongFile(q, p, at) && TwoRequests(q, p, at).acked == {q, p}
  {
    hide Line;
    assert [] + Line(Record(q.user, q.challenge, at)) == Line(Record(q.user, q.challenge, at));
  }

  lemma LongLog(q: Pair, p: Pair, at: Bytes)
    requires Sound(q) && Sound(p) && |Encode(Record(q.user, q.challenge, at))| >= MAX_LINE
    ensures var file := LongFile(q, p, at);
            && Clean(file) && Heal(file) == file && Recovered(file) == {}
            && Pairs(file + Line(Record(p.user, p.challenge, at))) == [q, p, p]
  {
    LongReplay(Record(q.user, q.challenge, at), Line(Record(p.user, p.challenge, at)));
    LongPairs(q, p, at);
    hide Encode, Line, Braced, Sound, Pairs, Replay, Clean;
    OneMoreLine(LongFile(q, p, at), p, at);
    ThreePairs(q, p);
  }

  lemma ThreePairs(q: Pair, p: Pair)
    ensures [q, p] + [p] == [q, p, p] && [q] + [p] == [q, p] && [] + [q] == [q]
  {
  }

  lemma LongPairs(q: Pair, p: Pair, at: Bytes)
    requires Sound(q) && Sound(p)
    ensures var file := LongFile(q, p, at); Clean(file) && Braced(file) && Pairs(file) == [q, p]
  {
    var line := Line(Record(q.user, q.challenge, at));
    BracedNothing();
    hide Line, Braced, Sound, Pairs, Clean;
    assert [] + line == line;
    OneMoreLine([], q, at);
    OneMoreLine(line, p, at);
    ThreePairs(q, p);
  }

  lemma OneMoreLine(b: Bytes, p: Pair, at: Bytes)
    requires Clean(b) && Braced(b) && Sound(p)
    ensures var c := b + Line(Record(p.user, p.challenge, at)); Clean(c) && Braced(c) && Pairs(c) == Pairs(b) + [p]
  {
    SoundReadsBack(p);
    hide Clean, Braced, Sound, Pairs, Settled, Line, ReadBack;
    WriteLine(b, Record(p.user, p.challenge, at));
  }

  lemma BracedNothing()
    ensures Braced([]) && Pairs([]) == [] && Clean([])
  {
  }

  lemma LongReplay(r: Record, rest: Bytes)
    requires |Encode(r)| >= MAX_LINE
    ensures Replay(Line(r) + rest) == Replayed([], 0, true)
  {
    EncodeIsOneLine(r);
    var b := Line(r) + rest;
    hide Encode;
    LineEndOf(b, |Encode(r)|);
    hide LineEnd;
  }
}

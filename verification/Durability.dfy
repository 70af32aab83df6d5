/** Whole runs over one solve log. */
module Durability {
  import opened Json
  import opened Options
  import opened RecordCodec
  import opened SolveLog

  /** An append after its write: the record's solve, and whether the record began a line. */
  datatype Writer = Writer(solve: Pair, clean: bool)

  datatype State = State(
    file: Bytes,              // the log as a reader sees it
    synced: nat,              // how much of it is certain to survive a power cut
    up: bool,                 // whether a process is serving
    atBoot: Bytes,            // the log as this process found it, healed
    mem: set<Pair>,           // the store's solves
    won: set<Pair>,           // solves whose request has updated the map and not yet written
    writer: Option<Writer>,   // the append between its write and its fsync; it holds the journal's lock
    lost: set<Pair>,          // solves whose append failed in this process, or landed on a damaged line
    spoilt: set<Pair>,        // of those, and of the one being synced: no whole line of their own was written
    pending: set<Pair>,       // solves on lines no sync has covered: this process's own, or found at boot
    appended: seq<Pair>,      // this process's appends, in order
    acked: set<Pair>,         // of all processes: appends that returned nil and had begun a line
    smeared: set<Pair>,       // of all processes: appends that returned nil on a damaged line
    tried: set<Pair>          // of all processes: appends that began to write
  )

  const FIRST := State([], 0, false, [], {}, {}, None, {}, {}, {}, [], {}, {}, {})

  /** A request that finds its solve new goes through three steps, each atomic under its own lock: the map
      update, then the journal's write, then its fsync. Between them any other step may come: other
      requests' steps, a failed write, the end of the process, a power cut at any byte. */
  datatype Event =
    | Boot                                        // open, heal, replay
    | Submit(solve: Pair)                         // a correct answer reaches the store's map
    | WriteWhole(solve: Pair, at: Bytes)          // the journal's write, complete
    | WriteShort(solve: Pair, at: Bytes, n: nat)  // the journal's write, failing after n bytes
    | SyncDone
    | SyncFailed
    | Kill                                        // the process dies; what it wrote stays readable
    | PowerCut(kept: nat)                         // everything dies; of the unsynced bytes a prefix stays

  predicate Enabled(s: State, e: Event) {
    match e
    case Boot => !s.up
    case Submit(p) => s.up
    case WriteWhole(p, at) => s.up && s.writer.None? && p in s.won
    case WriteShort(p, at, n) => s.up && s.writer.None? && p in s.won && n < |Line(Record(p.user, p.challenge, at))|
    case SyncDone => s.up && s.writer.Some?
    case SyncFailed => s.up && s.writer.Some?
    case Kill => s.up
    case PowerCut(kept) => s.synced <= kept <= |s.file|
  }

  function Found(b: Bytes): set<Pair> {
    set p | p in Pairs(b)
  }

  /** Of those, the ones no later write can damage. */
  function Safe(b: Bytes): set<Pair> {
    set p | p in Settled(b)
  }

  /** What a boot that finds b on the disk recovers. */
  function Recovered(b: Bytes): set<Pair> {
    set p | p in Replay(Heal(b)).visited
  }

  function Front(b: Bytes, n: nat): Bytes {
    if n <= |b| then b[..n] else b
  }

  function Down(s: State): State {
    s.(up := false, atBoot := [], mem := {}, won := {}, writer := None, lost := {}, spoilt := {}, pending := {},
       appended := [])
  }

  function Next(s: State, e: Event): State
    requires Enabled(s, e)
  {
    match e
    case Boot =>
      var file := Heal(s.file);
      var mem := Recovered(s.file);
      Down(s).(up := true, file := file, atBoot := file, mem := mem, pending := mem - Found(Front(file, s.synced)))
    case Submit(p) =>
      if p in s.mem then s else s.(mem := s.mem + {p}, won := s.won + {p})
    case WriteWhole(p, at) =>
      var clean := Clean(s.file);
      s.(file := s.file + Line(Record(p.user, p.challenge, at)), won := s.won - {p}, writer := Some(Writer(p, clean)),
         pending := if clean then s.pending + {p} else s.pending, spoilt := if clean then s.spoilt else s.spoilt + {p},
         appended := s.appended + [p], tried := s.tried + {p})
    case WriteShort(p, at, n) =>
      s.(file := s.file + Line(Record(p.user, p.challenge, at))[..n], won := s.won - {p},
         lost := s.lost + {p}, spoilt := s.spoilt + {p}, appended := s.appended + [p], tried := s.tried + {p})
    case SyncDone =>
      var w, t := s.writer.value, s.(writer := None, synced := |s.file|, pending := {});
      if w.clean then t.(acked := s.acked + {w.solve})
      else t.(smeared := s.smeared + {w.solve}, lost := s.lost + {w.solve})
    case SyncFailed => s.(writer := None, lost := s.lost + {s.writer.value.solve})
    case Kill => Down(s)
    case PowerCut(kept) => Down(s).(file := s.file[..kept], synced := kept)
  }

  /** A run is a list of events, each possible when it comes. */
  predicate Possible(s: State, run: seq<Event>)
    decreases |run|
  {
    run == [] || (Enabled(s, run[0]) && Possible(Next(s, run[0]), run[1..]))
  }

  function After(s: State, run: seq<Event>): State
    requires Possible(s, run)
    decreases |run|
  {
    if run == [] then s else After(Next(s, run[0]), run[1..])
  }

  /** Every solve submitted is one that replay reads back as it is. */
  predicate AllSound(run: seq<Event>) {
    forall i | 0 <= i < |run| && run[i].Submit? :: Sound(run[i].solve)
  }

  /** No boot of the run meets a line too long to replay. */
  predicate LinesFit(s: State, run: seq<Event>)
    requires Possible(s, run)
    decreases |run|
  {
    run == [] || ((run[0].Boot? ==> Scannable(Heal(s.file))) && LinesFit(Next(s, run[0]), run[1..]))
  }

  // ---------------------------------------------------------------------------- The invariants

  predicate Distinct(ps: seq<Pair>) {
    forall i, j | 0 <= i < j < |ps| :: ps[i] != ps[j]
  }

  /** What replay makes of the records of these solves. */
  function AllReadBack(ps: set<Pair>): set<Pair> {
    set p, q | p in ps && q in ReadBack(p) :: q
  }

  function ReadBackSet(p: Pair): set<Pair> {
    set q | q in ReadBack(p)
  }

  lemma SoundSet(p: Pair)
    ensures Sound(p) ==> ReadBackSet(p) == {p}
  {
    SoundReadsBack(p);
    hide Sound, ReadBack;
  }

  lemma AllMore(ps: set<Pair>, p: Pair)
    ensures AllReadBack(ps + {p}) == AllReadBack(ps) + ReadBackSet(p)
  {
    hide ReadBack;
  }

  /** What replay finds in b are solves from `tried`, as it reads them, and with `once` they are distinct. */
  predicate Honest(b: Bytes, tried: set<Pair>, once: bool) {
    Found(b) <= AllReadBack(tried) && (once ==> Distinct(Pairs(b)))
  }

  /** The same at whatever byte the log is cut. */
  predicate HonestCuts(b: Bytes, tried: set<Pair>, once: bool) {
    forall k | 0 <= k <= |b| :: Honest(b[..k], tried, once)
  }

  /** The disk alone: acknowledged solves are on settled lines among the synced bytes. */
  predicate DiskInv(s: State) {
    && s.synced <= |s.file|
    && Braced(s.file)
    && AllReadBack(s.acked) <= Safe(s.file[..s.synced])
    && (s.writer.Some? && s.writer.value.clean ==> ReadBackSet(s.writer.value.solve) <= Safe(s.file))
  }

  /** The record being synced, if it landed on a damaged line. */
  function Smearing(s: State): set<Pair> {
    if s.writer.Some? && !s.writer.value.clean then {s.writer.value.solve} else {}
  }

  /** Memory against log. */
  predicate MemoryInv(s: State) {
    && HonestCuts(s.file, s.tried, true)
    && (forall p | p in s.won :: Sound(p))
    && (s.writer.Some? ==> Sound(s.writer.value.solve))
    && (s.up ==>
          && s.mem == Found(s.file) + s.won + s.lost + Smearing(s)
          && s.won !! Found(s.file)
          && Smearing(s) !! Found(s.file)
          && Found(s.file) - Safe(s.file) <= s.lost
          && (!Clean(s.file) ==> s.lost != {})
          && (s.writer.Some? ==> Clean(s.file)))
  }

  /** What this process's boot replayed. */
  function AtBoot(s: State): set<Pair> {
    set p | p in Replay(s.atBoot).visited
  }

  /** This process's appends against its requests and its boot. */
  predicate OnceInv(s: State) {
    && Distinct(s.appended)
    && (forall p | p in s.appended :: p in s.mem && p !in s.won && p !in AtBoot(s))
    && s.won <= s.mem && AtBoot(s) <= s.mem && s.won !! AtBoot(s)
  }

  // ------------------------------------------------------------------------- The disk invariant

  lemma TornOrNothing(p: Pair, at: Bytes, n: nat)
    requires n < |Line(Record(p.user, p.challenge, at))|
    ensures var r := Record(p.user, p.challenge, at);
            Line(r)[..n] == Encode(r)[..n] && (n > 0 ==> Torn(Line(r)[..n], r))
  {
    hide Encode;
  }

  lemma WriteShortKeeps(b: Bytes, p: Pair, at: Bytes, n: nat)
    requires n < |Line(Record(p.user, p.challenge, at))| && Braced(b)
    ensures var c := b + Line(Record(p.user, p.challenge, at))[..n];
            Braced(c) && Settled(c) == Settled(b)
  {
    hide Encode, Line, Settled, Braced, Pairs, ReadBack;
    var r := Record(p.user, p.challenge, at);
    TornOrNothing(p, at, n);
    if n > 0 {
      Write(b, Line(r)[..n], r);
    } else {
      assert b + Line(r)[..0] == b;
    }
  }

  lemma DiskStep(s: State, e: Event)
    requires DiskInv(s) && Enabled(s, e)
    ensures DiskInv(Next(s, e))
  {
    hide Encode, Line, Settled, Braced, Pairs, Replay, Found, ReadBack, AllReadBack;
    match e
    case Boot =>
      HealKeeps(s.file);
      assert Heal(s.file)[..s.synced] == s.file[..s.synced];
    case WriteWhole(p, at) =>
      var r := Record(p.user, p.challenge, at);
      WriteLine(s.file, r);
      assert r.Solve() == p;
      assert (s.file + Line(r))[..s.synced] == s.file[..s.synced];
    case WriteShort(p, at, n) =>
      var r := Record(p.user, p.challenge, at);
      WriteShortKeeps(s.file, p, at, n);
      assert (s.file + Line(r)[..n])[..s.synced] == s.file[..s.synced];
    case SyncDone =>
      assert s.file[..|s.file|] == s.file;
      SettledPrefix(s.file, s.synced, |s.file|);
      AllMore(s.acked, s.writer.value.solve);
    case PowerCut(kept) =>
      SettledPrefix(s.file, s.synced, kept);
      assert s.file[..kept][..kept] == s.file[..kept];
      BracedCut(s.file, kept);
    case _ =>
  }

  lemma BracedCut(b: Bytes, k: nat)
    requires Braced(b) && k <= |b|
    ensures Braced(b[..k])
  {
    forall i | 0 <= i < k && StartsLine(b[..k], i)
      ensures b[..k][i] == '\n' || b[..k][i] == '{'
    {
      assert StartsLine(b, i);
    }
  }

  lemma {:induction false} DiskRun(s: State, run: seq<Event>)
    requires DiskInv(s) && Possible(s, run)
    ensures DiskInv(After(s, run))
    decreases |run|
  {
    hide DiskInv, Next, Enabled;
    if run != [] {
      DiskStep(s, run[0]);
      DiskRun(Next(s, run[0]), run[1..]);
    }
  }

  // ---------------------------------------------------------------------- The memory invariant

  /** However a write ends and wherever the log is then cut, replay finds one more solve at most. */
  lemma WriteCutFinds(b: Bytes, r: Record, k: nat)
    requires Braced(b) && |b| < k <= |b| + |Line(r)|
    ensures var c := (b + Line(r))[..k]; Pairs(c) <= Pairs(b) || Pairs(c) == Pairs(b) + ReadBack(r.Solve())
  {
    hide Encode, Line, Braced, ReadBack, Pairs, Settled;
    WriteCut(b, r, k);
    WriteLine(b, r);
    SettledIsPrefix(b);
    if (b + Line(r))[..k] != b + Line(r) {
      Write(b, Encode(r)[..k - |b|], r);
    }
  }

  lemma HonestStep(b: Bytes, c: Bytes, p: Pair, tried: set<Pair>, once: bool)
    requires Honest(b, tried, once) && (once ==> p !in Found(b) && Sound(p))
    requires Pairs(c) <= Pairs(b) || Pairs(c) == Pairs(b) + ReadBack(p)
    ensures Honest(c, tried + {p}, once)
  {
    SoundReadsBack(p);
    AllMore(tried, p);
    hide Pairs, Sound, ReadBack, AllReadBack;
  }

  /** No cut of a write makes replay find a solve that nobody tried to append, or find one twice. */
  lemma HonestWrite(b: Bytes, p: Pair, at: Bytes, n: nat, tried: set<Pair>, once: bool)
    requires HonestCuts(b, tried, once) && Braced(b) && (once ==> p !in Found(b) && Sound(p))
    requires n <= |Line(Record(p.user, p.challenge, at))|
    ensures HonestCuts(b + Line(Record(p.user, p.challenge, at))[..n], tried + {p}, once)
  {
    hide Encode, Line, Braced, Sound, Honest, Found, Pairs, ReadBack;
    var r := Record(p.user, p.challenge, at);
    assert r.Solve() == p;
    var c := b + Line(r)[..n];
    forall k | 0 <= k <= |c|
      ensures Honest(c[..k], tried + {p}, once)
    {
      if k <= |b| {
        assert c[..k] == b[..k];
        HonestWider(b[..k], tried, p, once);
      } else {
        assert b == b[..|b|];
        assert c[..k] == (b + Line(r))[..k];
        WriteCutFinds(b, r, k);
        HonestStep(b, c[..k], p, tried, once);
      }
    }
  }

  lemma HonestWider(b: Bytes, tried: set<Pair>, p: Pair, once: bool)
    requires Honest(b, tried, once)
    ensures Honest(b, tried + {p}, once)
  {
    AllMore(tried, p);
    hide Pairs, AllReadBack, ReadBackSet;
  }

  lemma SettledIsPrefix(b: Bytes)
    ensures Settled(b) <= Pairs(b)
  {
    hide Pairs, Settled;
    PairsSplit(b);
  }

  lemma HonestHeal(b: Bytes, tried: set<Pair>, once: bool)
    requires HonestCuts(b, tried, once) && Braced(b)
    ensures HonestCuts(Heal(b), tried, once)
  {
    HealKeeps(b);
    hide Pairs, Braced, Settled;
    forall k | 0 <= k <= |Heal(b)|
      ensures Honest(Heal(b)[..k], tried, once)
    {
      if k <= |b| {
        assert Heal(b)[..k] == b[..k];
      } else {
        assert b == b[..|b|] && Heal(b) == Heal(b)[..k];
      }
    }
  }

  /** A whole write, as sets. */
  lemma WholeKeeps(b: Bytes, p: Pair, at: Bytes)
    requires Braced(b)
    ensures var c := b + Line(Record(p.user, p.challenge, at));
            Found(c) == Safe(c) == (if Clean(b) then Found(b) + ReadBackSet(p) else Safe(b)) && Clean(c)
    ensures Safe(b) <= Found(b) && (Clean(b) ==> Safe(b) == Found(b))
  {
    hide Encode, Line, Braced, Pairs, Settled, ReadBack;
    assert Record(p.user, p.challenge, at).Solve() == p;
    WriteLine(b, Record(p.user, p.challenge, at));
    SettledIsPrefix(b);
    PairsSplit(b);
  }

  lemma WholeFinds(b: Bytes, p: Pair, at: Bytes)
    requires Braced(b) && Sound(p)
    ensures var c := b + Line(Record(p.user, p.challenge, at));
            Found(c) == Safe(c) == (if Clean(b) then Found(b) + {p} else Safe(b)) && Clean(c)
    ensures Safe(b) <= Found(b) && (Clean(b) ==> Safe(b) == Found(b))
  {
    hide *;
    WholeKeeps(b, p, at);
    SoundSet(p);
  }

  lemma ShortKeeps(b: Bytes, p: Pair, at: Bytes, n: nat)
    requires Braced(b) && n < |Line(Record(p.user, p.challenge, at))|
    ensures var c := b + Line(Record(p.user, p.challenge, at))[..n];
            Safe(c) == Safe(b) && (Found(c) == Found(b) || Found(c) == Found(b) + ReadBackSet(p) || Found(c) == Safe(b))
    ensures Safe(b) <= Found(b) && (Clean(b) ==> Safe(b) == Found(b))
  {
    hide Encode, Line, Braced, Pairs, Settled, ReadBack;
    var r := Record(p.user, p.challenge, at);
    assert r.Solve() == p;
    SettledIsPrefix(b);
    PairsSplit(b);
    TornOrNothing(p, at, n);
    if n > 0 {
      Write(b, Line(r)[..n], r);
    } else {
      assert b + Line(r)[..0] == b;
    }
  }

  lemma ShortFinds(b: Bytes, p: Pair, at: Bytes, n: nat)
    requires Braced(b) && Sound(p) && n < |Line(Record(p.user, p.challenge, at))|
    ensures var c := b + Line(Record(p.user, p.challenge, at))[..n];
            && Safe(c) == Safe(b) && (Found(c) == Found(b) || Found(c) == Found(b) + {p} || Found(c) == Safe(b))
    ensures Safe(b) <= Found(b) && (Clean(b) ==> Safe(b) == Found(b))
  {
    hide *;
    ShortKeeps(b, p, at, n);
    SoundSet(p);
  }

  lemma HealFinds(b: Bytes)
    requires Braced(b)
    ensures Found(Heal(b)) == Safe(Heal(b)) == Found(b) && Clean(Heal(b))
    ensures Scannable(Heal(b)) ==> Recovered(b) == Found(b)
  {
    HealKeeps(b);
    ReplayVisits(Heal(b));
    hide Pairs, Settled, Replay, Reached, Braced, Heal;
  }

  lemma MemoryStep(s: State, e: Event)
    requires DiskInv(s) && MemoryInv(s) && OnceInv(s) && Enabled(s, e)
    requires (e.Boot? ==> Scannable(Heal(s.file))) && (e.Submit? ==> Sound(e.solve))
    ensures MemoryInv(Next(s, e))
  {
    hide Found, Safe, Pairs, Settled, Braced, Encode, Line, Sound, Honest, HonestCuts, Replay, Reached, Heal, Clean,
         ReadBack, ReadBackSet;
    match e
    case Boot =>
      HealFinds(s.file);
      HonestHeal(s.file, s.tried, true);
    case WriteWhole(p, at) =>
      var r := Record(p.user, p.challenge, at);
      assert Line(r)[..|Line(r)|] == Line(r);
      HonestWrite(s.file, p, at, |Line(r)|, s.tried, true);
      WholeFinds(s.file, p, at);
    case WriteShort(p, at, n) =>
      HonestWrite(s.file, p, at, n, s.tried, true);
      ShortFinds(s.file, p, at, n);
    case PowerCut(kept) => HonestCut(s.file, kept, s.tried, true);
    case SyncFailed =>
      SafeIsFound(s.file);
      SoundSet(s.writer.value.solve);
    case _ =>
  }

  lemma SafeIsFound(b: Bytes)
    ensures Safe(b) <= Found(b)
  {
    SettledIsPrefix(b);
    hide Pairs, Settled;
  }

  lemma HonestCut(b: Bytes, kept: nat, tried: set<Pair>, once: bool)
    requires HonestCuts(b, tried, once) && kept <= |b|
    ensures HonestCuts(b[..kept], tried, once)
  {
    hide Honest;
    forall k | 0 <= k <= kept
      ensures Honest(b[..kept][..k], tried, once)
    {
      assert b[..kept][..k] == b[..k];
    }
  }

  /** Requests alone, whatever the log holds. */
  lemma OnceStep(s: State, e: Event)
    requires OnceInv(s) && Enabled(s, e)
    ensures OnceInv(Next(s, e))
  {
    ReplayNothing();
    hide Found, Replay, Heal, Clean, Line, Sound, Front;
  }

  lemma {:induction false} OnceRun(s: State, run: seq<Event>)
    requires OnceInv(s) && Possible(s, run)
    ensures OnceInv(After(s, run))
    decreases |run|
  {
    hide OnceInv, Next, Enabled;
    if run != [] {
      OnceStep(s, run[0]);
      OnceRun(Next(s, run[0]), run[1..]);
    }
  }

  lemma SoundRest(run: seq<Event>)
    requires run != [] && AllSound(run)
    ensures (run[0].Submit? ==> Sound(run[0].solve)) && AllSound(run[1..])
  {
    hide Sound;
  }

  lemma {:induction false} MemoryRun(s: State, run: seq<Event>)
    requires DiskInv(s) && MemoryInv(s) && OnceInv(s) && Possible(s, run) && LinesFit(s, run) && AllSound(run)
    ensures MemoryInv(After(s, run))
    decreases |run|
  {
    hide DiskInv, MemoryInv, OnceInv, Next, Enabled, Scannable, Heal;
    if run != [] {
      DiskStep(s, run[0]);
      SoundRest(run);
      MemoryStep(s, run[0]);
      OnceStep(s, run[0]);
      MemoryRun(Next(s, run[0]), run[1..]);
    }
  }

  /** What is on the log, without regard to memory: only what some process tried to append. */
  predicate TriedInv(s: State) {
    HonestCuts(s.file, s.tried, false)
  }

  lemma TriedStep(s: State, e: Event)
    requires DiskInv(s) && TriedInv(s) && Enabled(s, e)
    ensures TriedInv(Next(s, e))
  {
    hide Found, Safe, Pairs, Settled, Braced, Encode, Line, Sound, HonestCuts, Replay, Heal, Clean;
    match e
    case Boot => HonestHeal(s.file, s.tried, false);
    case WriteWhole(p, at) =>
      var r := Record(p.user, p.challenge, at);
      assert Line(r)[..|Line(r)|] == Line(r);
      HonestWrite(s.file, p, at, |Line(r)|, s.tried, false);
    case WriteShort(p, at, n) => HonestWrite(s.file, p, at, n, s.tried, false);
    case PowerCut(kept) => HonestCut(s.file, kept, s.tried, false);
    case _ =>
  }

  lemma {:induction false} TriedRun(s: State, run: seq<Event>)
    requires DiskInv(s) && TriedInv(s) && Possible(s, run)
    ensures TriedInv(After(s, run))
    decreases |run|
  {
    hide DiskInv, TriedInv, Next, Enabled;
    if run != [] {
      DiskStep(s, run[0]);
      TriedStep(s, run[0]);
      TriedRun(Next(s, run[0]), run[1..]);
    }
  }

  // ------------------------------------------------------------------------------------ Results

  lemma FirstInv()
    ensures DiskInv(FIRST) && MemoryInv(FIRST) && OnceInv(FIRST) && TriedInv(FIRST)
  {
    assert Pairs([]) == [];
    ReplayNothing();
  }

  lemma AckedStep(s: State, e: Event)
    requires Enabled(s, e)
    ensures s.acked <= Next(s, e).acked
  {
    hide Heal, Line, Replay, Found, Front, Clean, Sound;
  }

  lemma {:induction false} AckedGrows(s: State, run: seq<Event>)
    requires Possible(s, run)
    ensures s.acked <= After(s, run).acked
    decreases |run|
  {
    hide Next, Enabled;
    if run != [] {
      AckedStep(s, run[0]);
      AckedGrows(Next(s, run[0]), run[1..]);
    }
  }

  /** Durability. After any run in which p was acknowledged, continued in any way, p is on the log, as replay
      reads its record, wherever a power cut then leaves it, and the next boot finds it, if no line is too long. */
  lemma Durable(before: seq<Event>, later: seq<Event>, p: Pair)
    requires Possible(FIRST, before) && p in After(FIRST, before).acked
    requires Possible(After(FIRST, before), later)
    ensures var t := After(After(FIRST, before), later);
            forall q | q in ReadBack(p) ::
              && (forall k | t.synced <= k <= |t.file| :: q in Found(t.file[..k]))
              && (Scannable(Heal(t.file)) ==> q in Recovered(t.file))
  {
    var s := After(FIRST, before);
    var t := After(s, later);
    FirstInv();
    DiskRun(FIRST, before);
    DiskRun(s, later);
    AckedGrows(s, later);
    hide Found, Safe, Settled, Scannable, Heal, Possible, After, Replay, ReadBack;
    forall q, k | q in ReadBack(p) && t.synced <= k <= |t.file|
      ensures q in Found(t.file[..k])
    {
      SafeCut(t.file, t.synced, k);
      SafeIsFound(t.file[..k]);
    }
    assert t.file[..|t.file|] == t.file;
    HealFinds(t.file);
  }

  lemma SafeCut(b: Bytes, k: nat, m: nat)
    requires k <= m <= |b|
    ensures Safe(b[..k]) <= Safe(b[..m])
  {
    SettledPrefix(b, k, m);
    hide Settled;
  }

  /** No inventions. Wherever the log of any run is cut, it holds only solves that some process began to
      append, as replay reads them, and replay visits only those. */
  lemma NoInventions(run: seq<Event>, k: nat)
    requires Possible(FIRST, run) && k <= |After(FIRST, run).file|
    ensures var s := After(FIRST, run);
            && (forall q | q in Pairs(s.file[..k]) :: exists p :: p in s.tried && q in ReadBack(p))
            && (forall q | q in Replay(s.file[..k]).visited :: exists p :: p in s.tried && q in ReadBack(p))
  {
    FirstInv();
    TriedRun(FIRST, run);
    hide Pairs, Possible, After, Replay, ReadBack;
    var s := After(FIRST, run);
    assert Honest(s.file[..k], s.tried, false);
    assert forall q | q in Pairs(s.file[..k]) :: q in Found(s.file[..k]);
    VisitedIsFound(s.file[..k]);
    assert forall q | q in Replay(s.file[..k]).visited :: q in Pairs(s.file[..k]);
  }

  /** Replay visits a front of the solves a log holds. */
  lemma VisitedIsFound(b: Bytes)
    ensures Replay(b).visited <= Pairs(b)
  {
    ReplayVisits(b);
    var r := Reached(b);
    ReachedEnds(b);
    hide Pairs, Replay, Reached;
    if r != b {
      PairsAppend(r, b[|r|..]);
      assert r + b[|r|..] == b;
    }
  }

  lemma {:induction false} ReachedEnds(b: Bytes)
    ensures Reached(b) == b || Clean(Reached(b))
    decreases |b|
  {
    var n := LineEnd(b);
    hide LineEnd;
    if b != [] && n < MAX_LINE && n < |b| {
      ReachedEnds(b[n + 1..]);
      assert b == b[..n + 1] + b[n + 1..];
      assert Reached(b) == b[..n + 1] + Reached(b[n + 1..]);
    }
  }

  /** No duplicates. Wherever the log is cut, it holds each solve once. */
  lemma NoDuplicates(run: seq<Event>, k: nat)
    requires Possible(FIRST, run) && LinesFit(FIRST, run) && AllSound(run) && k <= |After(FIRST, run).file|
    ensures Distinct(Pairs(After(FIRST, run).file[..k]))
  {
    FirstInv();
    MemoryRun(FIRST, run);
    hide Pairs, Possible, After, LinesFit;
    var s := After(FIRST, run);
    assert Honest(s.file[..k], s.tried, true);
  }

  /** Memory against log. At every point of every interleaving, memory holds the log's solves, and
      beyond them exactly those whose winning request is still between its two steps and those whose
      append failed or was spoilt; when no request is under way and none failed, the two agree. */
  lemma MemoryMatchesLog(run: seq<Event>)
    requires Possible(FIRST, run) && LinesFit(FIRST, run) && AllSound(run) && After(FIRST, run).up
    ensures var s := After(FIRST, run);
            && Found(s.file) <= s.mem
            && s.mem - Found(s.file) == s.won + ((s.lost + Smearing(s)) - Found(s.file))
            && (s.won == {} && s.lost == {} && s.writer == None ==> s.mem == Found(s.file))
  {
    FirstInv();
    MemoryRun(FIRST, run);
    hide Found, Possible, After, LinesFit;
  }

  /** A process appends each solve at most once, however its requests interleave, and none that its boot
      replayed. */
  lemma AppendedOnce(run: seq<Event>)
    requires Possible(FIRST, run)
    ensures var s := After(FIRST, run);
            && Distinct(s.appended)
            && (forall p | p in s.appended :: p in s.mem && p !in s.won && p !in AtBoot(s))
  {
    FirstInv();
    OnceRun(FIRST, run);
  }

  /** If no boot meets an over-long line, that is: none that the log held at boot. */
  lemma AppendedNew(run: seq<Event>)
    requires Possible(FIRST, run) && LinesFit(FIRST, run)
    ensures var s := After(FIRST, run); forall p | p in s.appended :: p !in Found(s.atBoot)
  {
    AppendedOnce(run);
    BootScans(FIRST, run);
    ReplayVisits(After(FIRST, run).atBoot);
    hide Replay, Pairs, Reached, Possible, After, LinesFit;
  }

  lemma {:induction false} BootScans(s: State, run: seq<Event>)
    requires Possible(s, run) && LinesFit(s, run) && Scannable(s.atBoot)
    ensures Scannable(After(s, run).atBoot)
    decreases |run|
  {
    assert Scannable([]);
    hide Scannable, Heal, Replay, Found;
    if run != [] {
      BootScans(Next(s, run[0]), run[1..]);
    }
  }

  /** An append that returned nil put its solve on the log exactly when its record began a line. */
  lemma AcknowledgedIffClean(run: seq<Event>)
    requires Possible(FIRST, run) && LinesFit(FIRST, run) && AllSound(run)
    requires After(FIRST, run).up && After(FIRST, run).writer.Some?
    ensures var s := After(FIRST, run); s.writer.value.solve in Found(s.file) <==> s.writer.value.clean
  {
    FirstInv();
    MemoryRun(FIRST, run);
    DiskRun(FIRST, run);
    var s := After(FIRST, run);
    SafeIsFound(s.file);
    SoundSet(s.writer.value.solve);
    hide Found, Safe, Possible, After, LinesFit, ReadBackSet, Sound, AllReadBack, HonestCuts, Braced, Clean;
  }

  /** Within each process nothing is appended after an append failed. */
  predicate Orderly(s: State, run: seq<Event>)
    requires Possible(s, run)
    decreases |run|
  {
    run == [] || ((run[0].WriteWhole? ==> s.lost == {}) && Orderly(Next(s, run[0]), run[1..]))
  }

  /** The end of the log: it is damaged only after a failed append, and never under a writer. */
  predicate TailInv(s: State) {
    s.up ==> (!Clean(s.file) ==> s.lost != {}) && (s.writer.Some? ==> Clean(s.file))
  }

  predicate Unsmeared(s: State) {
    s.smeared == {} && (s.up ==> Smearing(s) == {})
  }

  lemma OrderlyStep(s: State, e: Event)
    requires TailInv(s) && Unsmeared(s) && Enabled(s, e) && (e.WriteWhole? ==> s.lost == {})
    ensures TailInv(Next(s, e)) && Unsmeared(Next(s, e))
  {
    hide Found, Replay, Encode, Front;
  }

  lemma {:induction false} OrderlyRun(s: State, run: seq<Event>)
    requires TailInv(s) && Unsmeared(s) && Possible(s, run) && Orderly(s, run)
    ensures Unsmeared(After(s, run))
    decreases |run|
  {
    hide TailInv, Unsmeared, Next, Enabled;
    if run != [] {
      OrderlyStep(s, run[0]);
      OrderlyRun(Next(s, run[0]), run[1..]);
    }
  }

  /** Then no record lands on a damaged line: every append that returned nil is acknowledged for good. */
  lemma OrderlyNeverSmears(run: seq<Event>)
    requires Possible(FIRST, run) && Orderly(FIRST, run)
    ensures After(FIRST, run).smeared == {}
  {
    OrderlyRun(FIRST, run);
  }
}

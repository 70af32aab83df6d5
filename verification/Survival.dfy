/** Which solves survive, and runs that lose one. */
module Survival {
  import opened Json
  import opened RecordCodec
  import opened SolveLog
  import opened Durability

  // ----------------------------------------------------------------------- What a power cut leaves

  /** The synced bytes end a line, or the next byte does, or there is no next byte and no process yet. */
  predicate EdgeInv(s: State) {
    && s.synced <= |s.file|
    && (Clean(s.file[..s.synced])
        || (s.synced == |s.file| && !s.up)
        || (s.synced < |s.file| && s.file[s.synced] == '\n'))
  }

  lemma EdgeStep(s: State, e: Event)
    requires EdgeInv(s) && TailInv(s) && Enabled(s, e)
    ensures EdgeInv(Next(s, e))
  {
    hide Found, Replay, Encode, Front, Sound;
    var t := Next(s, e);
    if e.SyncDone? {
      assert s.file[..|s.file|] == s.file;
    }
    if s.synced <= |t.file| && !e.PowerCut? {
      assert t.file[..s.synced] == s.file[..s.synced];
    }
  }

  /** Solves found on the synced bytes are found however much of the rest is there. */
  lemma EdgeKeeps(s: State, k: nat)
    requires EdgeInv(s) && s.synced <= k <= |s.file|
    ensures Found(s.file[..s.synced]) <= Found(s.file[..k])
  {
    var b, n := s.file, s.synced;
    hide Pairs, Settled, TailStart;
    if k > n {
      if Clean(b[..n]) {
        PairsSplit(b[..n]);
        SettledPrefix(b, n, k);
      } else {
        assert b[..n + 1] == b[..n] + "\n";
        PairsNewline(b[..n]);
        SettledPrefix(b, n + 1, k);
      }
      SettledIsPrefix(b[..k]);
    }
  }

  /** What is certain to survive a power cut, as replay finds it. */
  function Kept(s: State): set<Pair> {
    Found(Front(s.file, s.synced))
  }

  /** Not yet safe: the solve's request is between its two steps; or its line waits for a sync: its own, one
      that failed, or one that an earlier process never made; or it has no whole line of its own. */
  function AtRisk(s: State): set<Pair> {
    s.won + s.pending + s.spoilt
  }

  /** Memory in four parts: kept; requests between their two steps; solves on lines no sync has covered; and
      solves without a whole line of their own. `safe` is what the log holds on whole lines. */
  predicate InParts(mem: set<Pair>, kept: set<Pair>, won: set<Pair>, pending: set<Pair>, spoilt: set<Pair>,
                    safe: set<Pair>) {
    && mem == kept + won + pending + spoilt
    && kept !! won + pending + spoilt
    && pending <= safe && spoilt !! safe && won !! spoilt
  }

  predicate SurvivalInv(s: State) {
    EdgeInv(s) && (s.up ==> InParts(s.mem, Kept(s), s.won, s.pending, s.spoilt, Safe(s.file)))
  }

  lemma SameKept(s: State, t: State)
    requires s.synced == t.synced <= |s.file| && s.file <= t.file
    ensures Kept(s) == Kept(t)
  {
    assert t.file[..s.synced] == s.file[..s.synced];
    hide Found;
  }

  lemma SurvivalBoot(s: State)
    requires DiskInv(s) && Enabled(s, Boot) && EdgeInv(Next(s, Boot)) && Scannable(Heal(s.file))
    ensures SurvivalInv(Next(s, Boot))
  {
    var file := Heal(s.file);
    HealFinds(s.file);
    hide Found, Safe, Heal, Recovered, Scannable;
    var t := Next(s, Boot);
    EdgeKeeps(t, |t.file|);
    assert t.file[..|t.file|] == t.file;
    hide EdgeInv, DiskInv;
    BootParts(Found(file), Kept(t));
  }

  lemma BootParts(found: set<Pair>, kept: set<Pair>)
    requires kept <= found
    ensures InParts(found, kept, {}, found - kept, {}, found)
  {
  }

  lemma SurvivalWhole(s: State, p: Pair, at: Bytes)
    requires DiskInv(s) && MemoryInv(s) && SurvivalInv(s) && Enabled(s, WriteWhole(p, at))
             && EdgeInv(Next(s, WriteWhole(p, at)))
    ensures SurvivalInv(Next(s, WriteWhole(p, at)))
  {
    hide Found, Line, Clean, Braced, Sound, HonestCuts, Encode, EdgeInv, Safe, Kept, InParts;
    var t := Next(s, WriteWhole(p, at));
    WholeFinds(s.file, p, at);
    DiskSynced(s);
    SameKept(s, t);
    WriteParts(s.mem, Kept(s), s.won, s.pending, s.spoilt, Safe(s.file), p);
  }

  lemma SurvivalShort(s: State, p: Pair, at: Bytes, n: nat)
    requires DiskInv(s) && MemoryInv(s) && SurvivalInv(s)
    requires Enabled(s, WriteShort(p, at, n)) && EdgeInv(Next(s, WriteShort(p, at, n)))
    ensures SurvivalInv(Next(s, WriteShort(p, at, n)))
  {
    hide Found, Line, Clean, Braced, Sound, HonestCuts, Encode, EdgeInv, Safe, Kept, InParts;
    var t := Next(s, WriteShort(p, at, n));
    ShortFinds(s.file, p, at, n);
    DiskSynced(s);
    SameKept(s, t);
    WriteParts(s.mem, Kept(s), s.won, s.pending, s.spoilt, Safe(s.file), p);
  }

  lemma DiskSynced(s: State)
    requires DiskInv(s)
    ensures s.synced <= |s.file|
  {
  }

  lemma WriteParts(mem: set<Pair>, kept: set<Pair>, won: set<Pair>, pending: set<Pair>, spoilt: set<Pair>,
                   safe: set<Pair>, p: Pair)
    requires InParts(mem, kept, won, pending, spoilt, safe) && p in won && p !in safe
    ensures InParts(mem, kept, won - {p}, pending + {p}, spoilt, safe + {p})
    ensures InParts(mem, kept, won - {p}, pending, spoilt + {p}, safe)
  {
  }

  lemma SurvivalSync(s: State)
    requires MemoryInv(s) && SurvivalInv(s) && Enabled(s, SyncDone) && EdgeInv(Next(s, SyncDone))
    ensures SurvivalInv(Next(s, SyncDone))
  {
    hide Found, HonestCuts, Safe, InParts;
    var t := Next(s, SyncDone);
    assert s.file[..|s.file|] == s.file;
    EdgeKeeps(s, |s.file|);
    CleanIsSafe(s.file);
    hide EdgeInv, Clean;
    SyncParts(s.mem, Kept(s), s.won, s.pending, s.spoilt, Found(s.file));
  }

  lemma SyncParts(mem: set<Pair>, kept: set<Pair>, won: set<Pair>, pending: set<Pair>, spoilt: set<Pair>,
                  found: set<Pair>)
    requires InParts(mem, kept, won, pending, spoilt, found) && kept <= found <= mem && won !! found
    ensures InParts(mem, found, won, {}, spoilt, found)
  {
  }

  lemma CleanIsSafe(b: Bytes)
    requires Clean(b)
    ensures Safe(b) == Found(b)
  {
    PairsSplit(b);
    hide Pairs, Settled;
  }

  /** Events that leave the file as it is, or the process dead. */
  lemma SurvivalOther(s: State, e: Event)
    requires SurvivalInv(s) && Enabled(s, e) && EdgeInv(Next(s, e))
    requires e.Submit? || e.SyncFailed? || e.Kill? || e.PowerCut?
    ensures SurvivalInv(Next(s, e))
  {
    hide Found, Safe, EdgeInv, Front, Sound;
  }

  lemma SurvivalStep(s: State, e: Event)
    requires DiskInv(s) && MemoryInv(s) && TailInv(s) && SurvivalInv(s) && Enabled(s, e)
    requires (e.Boot? ==> Scannable(Heal(s.file))) && (e.Submit? ==> Sound(e.solve))
    ensures SurvivalInv(Next(s, e))
  {
    assert EdgeInv(s);
    EdgeStep(s, e);
    hide *;
    match e
    case Boot => SurvivalBoot(s);
    case WriteWhole(p, at) => SurvivalWhole(s, p, at);
    case WriteShort(p, at, n) => SurvivalShort(s, p, at, n);
    case SyncDone => SurvivalSync(s);
    case _ => SurvivalOther(s, e);
  }

  lemma TailStep(s: State, e: Event)
    requires TailInv(s) && Enabled(s, e)
    ensures TailInv(Next(s, e))
  {
    hide Found, Recovered, Encode, Front;
  }

  lemma {:induction false} SurvivalRun(s: State, run: seq<Event>)
    requires DiskInv(s) && MemoryInv(s) && OnceInv(s) && TailInv(s) && SurvivalInv(s)
    requires Possible(s, run) && LinesFit(s, run) && AllSound(run)
    ensures SurvivalInv(After(s, run))
    decreases |run|
  {
    hide DiskInv, MemoryInv, OnceInv, TailInv, SurvivalInv, Next, Enabled, Scannable, Heal;
    if run != [] {
      DiskStep(s, run[0]);
      SoundRest(run);
      MemoryStep(s, run[0]);
      OnceStep(s, run[0]);
      TailStep(s, run[0]);
      SurvivalStep(s, run[0]);
      SurvivalRun(Next(s, run[0]), run[1..]);
    }
  }

  // ----------------------------------------------------------------------- In any run

  /** What is not at risk is kept. */
  predicate Covered(s: State) {
    && EdgeInv(s)
    && (s.up ==> AllReadBack(s.mem - AtRisk(s)) <= Kept(s) && AllReadBack(s.pending) <= Safe(s.file))
  }

  lemma CoveredWrite(s: State, e: Event)
    requires DiskInv(s) && Covered(s) && Enabled(s, e) && (e.WriteWhole? || e.WriteShort?) && EdgeInv(Next(s, e))
    ensures Covered(Next(s, e))
  {
    hide Found, Line, Clean, Braced, Sound, Encode, EdgeInv, Safe, Kept;
    DiskSynced(s);
    SameKept(s, Next(s, e));
    match e
    case WriteWhole(p, at) => WholeKeeps(s.file, p, at);
    case WriteShort(p, at, n) => ShortKeeps(s.file, p, at, n);
  }

  /** Solves found on a log read back as they are. */
  lemma FoundReadsBack(ps: set<Pair>, tried: set<Pair>)
    requires ps <= AllReadBack(tried)
    ensures AllReadBack(ps) == ps
  {
    hide ReadBack;
    forall q | q in ps ensures ReadBack(q) == [q] && q in ReadBack(q) {
      var p :| p in tried && q in ReadBack(p);
      SoundReadsBack(p);
    }
    forall q | q in AllReadBack(ps) ensures q in ps {
      var p :| p in ps && q in ReadBack(p);
    }
  }

  lemma CoveredBoot(s: State)
    requires DiskInv(s) && TriedInv(s) && Enabled(s, Boot) && EdgeInv(Next(s, Boot))
    ensures Covered(Next(s, Boot))
  {
    HealFinds(s.file);
    RecoveredIsFound(s.file);
    var t := Next(s, Boot);
    assert s.file[..|s.file|] == s.file;
    assert Honest(s.file[..|s.file|], s.tried, false);
    assert AtRisk(t) == t.pending;
    hide Found, Safe, Heal, Recovered, Scannable, EdgeInv, AllReadBack, HonestCuts, AtRisk, Braced;
    FoundReadsBack(t.mem, s.tried);
    FoundReadsBack(t.pending, s.tried);
    FoundReadsBack(t.mem - t.pending, s.tried);
  }

  lemma CoveredSync(s: State)
    requires DiskInv(s) && TailInv(s) && Covered(s) && Enabled(s, SyncDone) && EdgeInv(Next(s, SyncDone))
    ensures Covered(Next(s, SyncDone))
  {
    hide Found, Safe;
    assert s.file[..|s.file|] == s.file;
    EdgeKeeps(s, |s.file|);
    CleanIsSafe(s.file);
  }

  lemma CoveredOther(s: State, e: Event)
    requires Covered(s) && Enabled(s, e) && EdgeInv(Next(s, e))
    requires e.Submit? || e.SyncFailed? || e.Kill? || e.PowerCut?
    ensures Covered(Next(s, e))
  {
    hide Found, Safe, EdgeInv, Front, Sound;
  }

  lemma CoveredStep(s: State, e: Event)
    requires DiskInv(s) && TailInv(s) && TriedInv(s) && Covered(s) && Enabled(s, e)
    ensures Covered(Next(s, e))
  {
    assert EdgeInv(s);
    EdgeStep(s, e);
    hide *;
    match e
    case Boot => CoveredBoot(s);
    case WriteWhole(p, at) => CoveredWrite(s, e);
    case WriteShort(p, at, n) => CoveredWrite(s, e);
    case SyncDone => CoveredSync(s);
    case _ => CoveredOther(s, e);
  }

  lemma {:induction false} CoveredRun(s: State, run: seq<Event>)
    requires DiskInv(s) && TailInv(s) && TriedInv(s) && Covered(s) && Possible(s, run)
    ensures DiskInv(After(s, run)) && Covered(After(s, run))
    decreases |run|
  {
    hide DiskInv, TailInv, TriedInv, Covered, Next, Enabled;
    if run != [] {
      DiskStep(s, run[0]);
      TriedStep(s, run[0]);
      TailStep(s, run[0]);
      CoveredStep(s, run[0]);
      CoveredRun(Next(s, run[0]), run[1..]);
    }
  }

  /** What is kept is found at every cut, and recovered if no line is over-long. */
  lemma KeptIsFound(s: State, p: Pair)
    requires DiskInv(s) && EdgeInv(s) && p in Kept(s)
    ensures s.synced <= |s.file|
    ensures forall k | s.synced <= k <= |s.file| :: p in Found(s.file[..k])
    ensures forall k | s.synced <= k <= |s.file| && Scannable(Heal(s.file[..k])) :: p in Recovered(s.file[..k])
  {
    hide Found, Scannable, Heal, Recovered, Safe, Braced;
    DiskSynced(s);
    assert Kept(s) == Found(s.file[..s.synced]);
    hide Kept;
    forall k | s.synced <= k <= |s.file|
      ensures p in Found(s.file[..k])
      ensures Scannable(Heal(s.file[..k])) ==> Recovered(s.file[..k]) == Found(s.file[..k])
    {
      EdgeKeeps(s, k);
      BracedCut(s.file, k);
      HealFinds(s.file[..k]);
    }
  }

  /** In every serving state of every run, a solve in memory that is not at risk is found, as replay reads its
      record, wherever a power cut leaves the log, and recovered by the next boot if no line is over-long. */
  lemma SurvivesUnlessAtRisk(run: seq<Event>, p: Pair)
    requires Possible(FIRST, run) && After(FIRST, run).up
    requires p in After(FIRST, run).mem && p !in AtRisk(After(FIRST, run))
    ensures var s := After(FIRST, run);
            && s.synced <= |s.file|
            && forall q | q in ReadBack(p) ::
                 && (forall k | s.synced <= k <= |s.file| :: q in Found(s.file[..k]))
                 && (forall k | s.synced <= k <= |s.file| && Scannable(Heal(s.file[..k])) ::
                       q in Recovered(s.file[..k]))
  {
    var s := After(FIRST, run);
    hide *;
    FirstInv();
    FirstSurvives();
    CoveredRun(FIRST, run);
    CoveredMeans(s, p);
    DiskSynced(s);
    forall q | q in ReadBack(p)
      ensures forall k | s.synced <= k <= |s.file| :: q in Found(s.file[..k])
      ensures forall k | s.synced <= k <= |s.file| && Scannable(Heal(s.file[..k])) :: q in Recovered(s.file[..k])
    {
      KeptIsFound(s, q);
    }
  }

  lemma CoveredMeans(s: State, p: Pair)
    requires Covered(s) && s.up && p in s.mem && p !in AtRisk(s)
    ensures EdgeInv(s) && forall q | q in ReadBack(p) :: q in Kept(s)
  {
    hide EdgeInv, Kept, AtRisk, Safe, ReadBack;
    assert p in s.mem - AtRisk(s);
  }

  // ----------------------------------------------------------------------- And no other

  /** Exactly which solves survive. In every serving state, a solve in memory, and so every solve a learner
      was told is correct, is found wherever a power cut leaves the log if and only if it is not at risk.
      If it is, some cut leaves a log from which no boot recovers it. */
  lemma SurvivesIff(run: seq<Event>, p: Pair)
    requires Possible(FIRST, run) && LinesFit(FIRST, run) && AllSound(run)
    requires After(FIRST, run).up && p in After(FIRST, run).mem
    ensures var s := After(FIRST, run);
            && s.synced <= |s.file|
            && ((forall k | s.synced <= k <= |s.file| :: p in Found(s.file[..k])) <==> p !in AtRisk(s))
            && (p in AtRisk(s) ==> p !in Recovered(s.file[..s.synced]))
  {
    var s := After(FIRST, run);
    hide *;
    FirstInv();
    FirstSurvives();
    DiskRun(FIRST, run);
    SurvivalRun(FIRST, run);
    Survives(s, p);
  }

  lemma FirstSurvives()
    ensures TailInv(FIRST) && SurvivalInv(FIRST) && Covered(FIRST)
  {
  }

  lemma Survives(s: State, p: Pair)
    requires DiskInv(s) && SurvivalInv(s) && s.up && p in s.mem
    ensures s.synced <= |s.file|
    ensures (forall k | s.synced <= k <= |s.file| :: p in Found(s.file[..k])) <==> p !in AtRisk(s)
    ensures p in AtRisk(s) ==> p !in Recovered(s.file[..s.synced])
  {
    hide Found, Recovered, Safe, Braced, EdgeInv;
    DiskSynced(s);
    assert Kept(s) == Found(s.file[..s.synced]);
    assert p in Kept(s) <==> p !in AtRisk(s);
    hide Kept, InParts, AtRisk;
    if p in Kept(s) {
      KeptIsFound(s, p);
    }
    RecoveredIsFound(s.file[..s.synced]) by {
      BracedCut(s.file, s.synced);
    }
  }

  lemma RecoveredIsFound(b: Bytes)
    requires Braced(b)
    ensures Recovered(b) <= Found(b)
  {
    HealKeeps(b);
    VisitedIsFound(Heal(b));
    hide Heal, Replay, Pairs, Settled;
  }
}

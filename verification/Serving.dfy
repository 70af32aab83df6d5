/** The program's calls are runs of the protocol. */
module Serving {
  import opened Json
  import opened RecordCodec
  import opened SolveLog
  import opened Journaling
  import opened Scoring
  import opened Durability
  import opened Losses

  /** The store and its log as a state of the protocol, with no request under way. */
  ghost predicate Shows(store: Store, s: State)
    reads store, store.Files()
  {
    && store.journal != null && s.up && s.writer.None?
    && store.journal.f.content == s.file && store.journal.f.synced == s.synced && store.Recorded() == s.mem
  }

  /** The file and memory of a state, whatever its history. */
  predicate Holds(s: State, file: Bytes, synced: nat, mem: set<Pair>) {
    s.up && s.writer.None? && s.file == file && s.synced == synced && s.mem == mem
  }

  /** Every outcome an append may have is a run from the state after the map update. */
  lemma AppendIsRun(s: State, p: Pair, at: Bytes, file: Bytes, synced: nat) returns (run: seq<Event>)
    requires s.up && s.writer.None? && p in s.won
    requires Appended(s.file, s.synced, file, synced, Line(Record(p.user, p.challenge, at)))
    ensures Possible(s, run) && Holds(After(s, run), file, synced, s.mem)
  {
    var line := Line(Record(p.user, p.challenge, at));
    hide Line, Possible, After;
    if file == s.file + line {
      if synced == |file| {
        run := [WriteWhole(p, at), SyncDone];
        RunTwo(s, WriteWhole(p, at), SyncDone);
      } else {
        run := [WriteWhole(p, at), SyncFailed];
        RunTwo(s, WriteWhole(p, at), SyncFailed);
      }
    } else {
      var n := |file| - |s.file|;
      assert file == s.file + line[..n];
      run := [WriteShort(p, at, n)];
      RunOne(s, WriteShort(p, at, n));
    }
  }

  /** One graded submission, running alone, is a run; a correct one starts with its map update. */
  method Serve(store: Store, challenge: Bytes, submitted: Bytes, user: Bytes, at: Bytes, ghost s: State)
    returns (correct: bool, known: bool, ghost run: seq<Event>)
    requires store.Valid() && Shows(store, s)
    modifies store`solves, store.Files()
    ensures store.Valid() && Possible(s, run) && Shows(store, After(s, run))
    ensures if correct then run != [] && run[0] == Submit(Pair(user, challenge)) else run == []
  {
    ghost var p := Pair(user, challenge);
    correct, known := store.Grade(challenge, submitted, user, at);
    hide Line, Possible, After;
    RunNothing(s);
    run := [];
    if correct {
      ghost var t := Next(s, Submit(p));
      ghost var later := [];
      RunNothing(t);
      if p !in s.mem {
        later := AppendIsRun(t, p, at, store.journal.f.content, store.journal.f.synced);
      }
      RunFirst(s, Submit(p), later);
      run := [Submit(p)] + later;
    }
  }

  /** Opening the log and replaying it into an empty store is a boot. */
  method Start(f: LogFile, store: Store, ghost s: State) returns (ok: bool)
    requires f.Valid() && store.Valid() && store.Recorded() == {}
    requires !s.up && s.file == f.content && s.synced == f.synced
    modifies f, store`journal, store`solves
    ensures ok ==> store.Valid() && Shows(store, Next(s, Boot))
    ensures !ok ==> f.content == s.file && f.synced == s.synced
  {
    hide Heal, Replay, Found, Front, Clean;
    var j;
    j, ok := Journal.OpenJournal(f);
    if ok {
      var _, _ := store.UseJournal(j);
    }
  }
}

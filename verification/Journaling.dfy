/** The solve log as the program holds it: an append-only file that can fail at any byte, the healing
    of its tail when it is opened, the durable append, and the replay loop. */
module Journaling {
  import opened Json
  import opened RecordCodec
  import opened SolveLog

  /** An open file. A write may stop anywhere, a sync may fail; neither loses what was synced. */
  class LogFile {
    var content: Bytes
    var synced: nat
    ghost var asked: seq<Bytes>  // what it was asked to write, in order

    predicate Valid()
      reads this
    {
      synced <= |content|
    }

    constructor (content: Bytes)
      ensures Valid() && this.content == content && synced == |content| && asked == []
    {
      this.content := content;
      synced := |content|;
      asked := [];
    }

    method Write(p: Bytes) returns (ok: bool)
      requires Valid()
      modifies this
      ensures Valid() && synced == old(synced)
      ensures old(content) <= content <= old(content) + p
      ensures ok <==> content == old(content) + p
      ensures asked == old(asked) + [p]
    {
      asked := asked + [p];
      var n :| 0 <= n <= |p|;
      content := content + p[..n];
      ok := n == |p|;
    }

    method Sync() returns (ok: bool)
      requires Valid()
      modifies this
      ensures Valid() && content == old(content)
      ensures synced == if ok then |content| else old(synced)
      ensures asked == old(asked)
    {
      ok := *;
      if ok {
        synced := |content|;
      }
    }
  }

  /** The file after an append of this line: all of it and synced, or a prefix of it and no more synced. */
  predicate Appended(before: Bytes, syncedBefore: nat, after: Bytes, syncedAfter: nat, line: Bytes) {
    && before <= after <= before + line
    && ((after == before + line && syncedAfter == |after|) || syncedAfter == syncedBefore)
  }

  class Journal {
    const f: LogFile

    constructor (f: LogFile)
      ensures this.f == f
    {
      this.f := f;
    }

    /** Opens the log: no file means no journal, and an unterminated last line is ended. */
    static method OpenJournal(f: LogFile?) returns (j: Journal?, ok: bool)
      requires f != null ==> f.Valid()
      modifies f
      ensures f == null ==> j == null && ok
      ensures f != null ==> f.Valid() && f.synced == old(f.synced) && (ok <==> j != null)
      ensures j != null ==> fresh(j) && j.f == f && f.content == Heal(old(f.content)) && Clean(f.content)
      ensures f != null && !ok ==> f.content == old(f.content)
    {
      if f == null {
        return null, true;
      }
      ok := TerminateLastLine(f);
      if !ok {
        return null, false;
      }
      j := new Journal(f);
    }

    static method TerminateLastLine(f: LogFile) returns (ok: bool)
      requires f.Valid()
      modifies f
      ensures f.Valid() && f.synced == old(f.synced)
      ensures f.content == if ok then Heal(old(f.content)) else old(f.content)
      ensures ok ==> Clean(f.content)
    {
      if |f.content| == 0 || f.content[|f.content| - 1] == '\n' {
        return true;
      }
      ok := f.Write("\n");
      if !ok {
        assert f.content == old(f.content) by {
          assert |f.content| <= |old(f.content)| + 1;
        }
      }
    }

    /** Writes the record's line, whole or in part, and reports success only once it is synced. */
    method Append(user: Bytes, challenge: Bytes, at: Bytes) returns (ok: bool)
      requires f.Valid()
      modifies f
      ensures f.Valid()
      ensures old(f.content) <= f.content <= old(f.content) + Line(Record(user, challenge, at))
      ensures ok ==> f.content == old(f.content) + Line(Record(user, challenge, at)) && f.synced == |f.content|
      ensures !ok ==> f.synced == old(f.synced)
      ensures f.asked == old(f.asked) + [Line(Record(user, challenge, at))]
    {
      var line := Encode(Record(user, challenge, at));
      ok := f.Write(line + "\n");
      if ok {
        ok := f.Sync();
      }
    }

    /** The scan loop: visits every solve, counts what it skips, stops at a line that is too long. */
    method Replay() returns (visited: seq<Pair>, recovered: nat, skipped: nat, ok: bool)
      ensures Replayed(visited, skipped, !ok) == SolveLog.Replay(f.content)
      ensures recovered == |visited|
    {
      hide Decode, DropReturn, LineEnd, SolveLog.Replay, Rest;
      visited, recovered, skipped, ok := [], 0, 0, true;
      var b := f.content;
      var rest := b;
      assert SolveLog.Replay([]) == Replayed([], 0, false) by {
        ReplayNothing();
      }
      while rest != []
        invariant recovered == |visited|
        invariant ok
        invariant SolveLog.Replay(b).visited == visited + SolveLog.Replay(rest).visited
        invariant SolveLog.Replay(b).skipped == skipped + SolveLog.Replay(rest).skipped
        invariant SolveLog.Replay(b).tooLong == SolveLog.Replay(rest).tooLong
        decreases |rest|
      {
        ReplayStep(rest);
        var n := LineEnd(rest);
        if n >= MAX_LINE {
          ok := false;
          return;
        }
        var line := DropReturn(rest[..n]);
        match Decode(line) {
          case Some(p) =>
            visited := visited + [p];
            recovered := recovered + 1;
          case None =>
            if line != [] {
              skipped := skipped + 1;
            }
        }
        rest := Rest(rest);
      }
    }
  }
}

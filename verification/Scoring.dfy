/** The registry of challenges and solves, kept in step with the log. */
module Scoring {
  import opened Json
  import opened Options
  import opened RecordCodec
  import opened Journaling
  import opened Grading
  import opened Standings

  /** Each method is one request running alone; how the steps of several requests mix is the subject of
      Durability. */
  class Store {
    var byHash: Registry
    var solves: map<Bytes, set<Bytes>>
    const phashGrade: Option<Grader>
    var journal: Journal?

    /** The file under the journal, if there is one. */
    ghost function Files(): set<object>
      reads this
    {
      if journal == null then {} else {journal.f}
    }

    ghost predicate Valid()
      reads this, Files()
    {
      journal != null ==> journal.f.Valid()
    }

    /** The recorded solves as pairs. */
    ghost function Recorded(): set<Pair>
      reads this
    {
      PairsIn(solves)
    }

    constructor (phashGrade: Option<Grader>)
      ensures Valid() && journal == null && byHash == map[] && Recorded() == {}
      ensures this.phashGrade == phashGrade
    {
      byHash, solves, journal := map[], map[], null;
      this.phashGrade := phashGrade;
    }

    /** Adds or replaces a challenge; one without a hash is refused. */
    method Upsert(c: Challenge) returns (ok: bool)
      modifies this`byHash
      ensures ok <==> c.hash != []
      ensures byHash == if ok then old(byHash)[c.hash := c] else old(byHash)
    {
      if c.hash == [] {
        return false;
      }
      byHash := byHash[c.hash := c];
      return true;
    }

    /** Marks a solve in memory; reports whether it was new. */
    method RecordInMemory(challenge: Bytes, user: Bytes) returns (isNew: bool)
      modifies this`solves
      ensures isNew <==> Pair(user, challenge) !in old(Recorded())
      ensures Recorded() == old(Recorded()) + {Pair(user, challenge)}
    {
      if challenge !in solves {
        solves := solves[challenge := {}];
      }
      if user in solves[challenge] {
        return false;
      }
      solves := solves[challenge := solves[challenge] + {user}];
      return true;
    }

    /** What the file was asked to write; what it did write is its own affair. */
    ghost function Asked(): seq<Bytes>
      reads this, Files()
    {
      if journal == null then [] else journal.f.asked
    }

    /** The appends a request owes: one for a new solve, none without a log. */
    ghost function Owed(isNew: bool, challenge: Bytes, user: Bytes, at: Bytes): seq<Bytes>
      reads this
    {
      if journal != null && isNew then [SolveLog.Line(Record(user, challenge, at))] else []
    }

    /** Appends a solve to the log; a failure is not reported to the caller. */
    method JournalSolve(challenge: Bytes, user: Bytes, at: Bytes)
      requires Valid()
      modifies Files()
      ensures Valid() && Asked() == old(Asked()) + Owed(true, challenge, user, at)
      ensures journal != null ==>
                Appended(old(journal.f.content), old(journal.f.synced), journal.f.content, journal.f.synced,
                         SolveLog.Line(Record(user, challenge, at)))
    {
      if journal == null {
        return;
      }
      var _ := journal.Append(user, challenge, at);
    }

    /** Records a solve, and appends it to the log exactly when it is new. */
    method RecordSolve(challenge: Bytes, user: Bytes, at: Bytes)
      requires Valid()
      modifies this`solves, Files()
      ensures Valid()
      ensures Recorded() == old(Recorded()) + {Pair(user, challenge)}
      ensures Asked() == old(Asked()) + Owed(Pair(user, challenge) !in old(Recorded()), challenge, user, at)
      ensures journal != null && Pair(user, challenge) !in old(Recorded()) ==>
                Appended(old(journal.f.content), old(journal.f.synced), journal.f.content, journal.f.synced,
                         SolveLog.Line(Record(user, challenge, at)))
      ensures journal != null && Pair(user, challenge) in old(Recorded()) ==>
                journal.f.content == old(journal.f.content) && journal.f.synced == old(journal.f.synced)
    {
      var isNew := RecordInMemory(challenge, user);
      if isNew {
        JournalSolve(challenge, user, at);
      }
    }

    /** Grades a submission; a correct one is recorded, any other leaves everything as it was. */
    method Grade(challenge: Bytes, submitted: Bytes, user: Bytes, at: Bytes) returns (correct: bool, known: bool)
      requires Valid()
      modifies this`solves, Files()
      ensures Valid()
      ensures known <==> challenge in byHash
      ensures correct <==> known && Accepts(byHash[challenge].flags, submitted, phashGrade)
      ensures Recorded() == old(Recorded()) + if correct then {Pair(user, challenge)} else {}
      ensures Asked() == old(Asked()) + Owed(correct && Pair(user, challenge) !in old(Recorded()), challenge, user, at)
      ensures journal != null && correct && Pair(user, challenge) !in old(Recorded()) ==>
                Appended(old(journal.f.content), old(journal.f.synced), journal.f.content, journal.f.synced,
                         SolveLog.Line(Record(user, challenge, at)))
      ensures journal != null && (!correct || Pair(user, challenge) in old(Recorded())) ==>
                journal.f.content == old(journal.f.content) && journal.f.synced == old(journal.f.synced)
    {
      correct, known := false, challenge in byHash;
      if !known {
        return;
      }
      var flags := byHash[challenge].flags;
      for i := 0 to |flags|
        invariant !correct
        invariant forall k | 0 <= k < i :: !FlagAccepts(flags[k], submitted, phashGrade)
      {
        if IsPhashFlag(flags[i]) {
          if phashGrade.Some? && phashGrade.value(flags[i], submitted) {
            assert FlagAccepts(flags[i], submitted, phashGrade);
            correct := true;
            break;
          }
        } else if flags[i] == submitted {
          assert FlagAccepts(flags[i], submitted, phashGrade);
          correct := true;
          break;
        }
      }
      if correct {
        RecordSolve(challenge, user, at);
      }
    }

    /** Attaches a log and replays what it holds; nothing is written. */
    method UseJournal(j: Journal?) returns (recovered: nat, ok: bool)
      requires j != null ==> j.f.Valid()
      modifies this`journal, this`solves
      ensures Valid() && journal == j
      ensures j == null ==> recovered == 0 && ok && Recorded() == old(Recorded())
      ensures j != null ==>
                var r := SolveLog.Replay(j.f.content);
                && Recorded() == old(Recorded()) + (set p | p in r.visited)
                && recovered == |r.visited| && (ok <==> !r.tooLong)
    {
      hide SolveLog.Replay;
      journal := j;
      if j == null {
        return 0, true;
      }
      var visited, skipped;
      visited, recovered, skipped, ok := j.Replay();
      RecordAll(visited);
    }

    /** The replay's callback, once per visited solve: replaying records and must not append. */
    method RecordAll(visited: seq<Pair>)
      modifies this`solves
      ensures Recorded() == old(Recorded()) + (set p | p in visited)
    {
      for i := 0 to |visited|
        invariant Recorded() == old(Recorded()) + (set p | p in visited[..i])
      {
        var _ := RecordInMemory(visited[i].challenge, visited[i].user);
        assert visited[..i + 1] == visited[..i] + [visited[i]];
        assert Pair(visited[i].user, visited[i].challenge) == visited[i];
      }
      assert visited[..|visited|] == visited;
    }

    method Solved(challenge: Bytes, user: Bytes) returns (b: bool)
      ensures b <==> Pair(user, challenge) in Recorded()
    {
      b := challenge in solves && user in solves[challenge];
    }

    /** The global view: the ranking, the per-challenge counts and the points there are. */
    method Standings() returns (ranking: seq<Standing>, challenges: seq<ChallengeStat>, totalPoints: int)
      ensures IsRanking(ranking, Recorded(), byHash)
      ensures IsStats(challenges, Recorded(), byHash)
      ensures totalPoints == PointsAvailable(byHash)
    {
      var byUser := Aggregate(byHash, solves);
      ranking := Rank(byUser, Recorded(), byHash);
      challenges, totalPoints := CountChallenges(byHash, solves);
    }
  }

  ghost function PairsIn(solves: map<Bytes, set<Bytes>>): set<Pair> {
    set h, u | h in solves && u in solves[h] :: Pair(u, h)
  }

  /** A table of rows that describes the solves done so far. */
  ghost predicate Describes(byUser: map<Bytes, Standing>, done: set<Pair>, reg: Registry) {
    && byUser.Keys == Learners(done)
    && forall u | u in byUser :: byUser[u] == RowOf(done, reg, u)
  }

  lemma OneMore(done: set<Pair>, p: Pair, reg: Registry, u: Bytes)
    requires p !in done
    ensures u != p.user ==> RowOf(done + {p}, reg, u) == RowOf(done, reg, u)
    ensures u == p.user ==>
              && SolvedBy(done + {p}, u) == SolvedBy(done, u) + 1
              && PointsOf(done + {p}, reg, u) == PointsOf(done, reg, u) + Worth(reg, p)
  {
    var before, after := Group(done, UserOf, u), Group(done + {p}, UserOf, u);
    if u == p.user {
      assert after - {p} == before;
      SumTake(after, q => Worth(reg, q), p);
    } else {
      assert after == before;
    }
  }

  lemma FirstOf(done: set<Pair>, u: Bytes, reg: Registry)
    requires u !in Learners(done)
    ensures RowOf(done, reg, u) == Standing(u, 0, 0)
  {
    assert Group(done, UserOf, u) == {};
  }

  /** Walks the solves challenge by challenge and learner by learner, in whatever order the maps give. */
  method Aggregate(reg: Registry, solves: map<Bytes, set<Bytes>>) returns (byUser: map<Bytes, Standing>)
    ensures Describes(byUser, PairsIn(solves), reg)
  {
    byUser := map[];
    ghost var done: set<Pair> := {};
    var hashes := solves.Keys;
    while hashes != {}
      invariant hashes <= solves.Keys
      invariant done == set p | p in PairsIn(solves) && p.challenge !in hashes
      invariant Describes(byUser, done, reg)
      decreases hashes
    {
      var h :| h in hashes;
      var value := if h in reg then reg[h].value else 0;
      var users := solves[h];
      ghost var before := done;
      while users != {}
        invariant users <= solves[h]
        invariant done == before + set u | u in solves[h] - users :: Pair(u, h)
        invariant Describes(byUser, done, reg)
        decreases users
      {
        var u :| u in users;
        var p := Pair(u, h);
        OneMoreRow(byUser, done, p, reg);
        var row := if u in byUser then byUser[u] else Standing(u, 0, 0);
        byUser := byUser[u := Standing(u, row.solved + 1, row.points + value)];
        done := done + {p};
        users := users - {u};
      }
      hashes := hashes - {h};
    }
    assert done == PairsIn(solves);
  }

  lemma OneMoreRow(byUser: map<Bytes, Standing>, done: set<Pair>, p: Pair, reg: Registry)
    requires Describes(byUser, done, reg) && p !in done
    ensures var u := p.user;
            var row := if u in byUser then byUser[u] else Standing(u, 0, 0);
            Describes(byUser[u := Standing(u, row.solved + 1, row.points + Worth(reg, p))], done + {p}, reg)
  {
    var u := p.user;
    if u !in byUser {
      FirstOf(done, u, reg);
    }
    forall v
      ensures v != u ==> RowOf(done + {p}, reg, v) == RowOf(done, reg, v)
      ensures v == u ==> RowOf(done + {p}, reg, v) ==
                         Standing(u, SolvedBy(done, u) + 1, PointsOf(done, reg, u) + Worth(reg, p))
    {
      OneMore(done, p, reg, v);
    }
    assert Learners(done + {p}) == Learners(done) + {u};
  }

  /** Lists the rows and sorts them, best first. */
  method Rank(byUser: map<Bytes, Standing>, ghost done: set<Pair>, ghost reg: Registry) returns (ranking: seq<Standing>)
    requires Describes(byUser, done, reg)
    ensures IsRanking(ranking, done, reg)
  {
    var rows: seq<Standing> := [];
    var users := byUser.Keys;
    while users != {}
      invariant users <= byUser.Keys
      invariant forall i | 0 <= i < |rows| ::
                  rows[i].user in byUser && rows[i].user !in users && rows[i] == byUser[rows[i].user]
      invariant forall i, j | 0 <= i < j < |rows| :: rows[i].user != rows[j].user
      invariant forall u | u in byUser && u !in users :: byUser[u] in rows
      decreases users
    {
      var u :| u in users;
      rows := rows + [byUser[u]];
      users := users - {u};
    }
    AheadIsWeakOrder();
    ranking := S.Sort(rows, Ahead);
    RankedRows(rows, ranking, done, reg, byUser);
  }

  lemma AheadIsWeakOrder()
    ensures S.WeakOrder(Ahead)
  {
    forall a: Standing, b: Standing, c: Standing
      ensures Ahead(a, b) ==> !Ahead(b, a)
      ensures !Ahead(b, a) && !Ahead(c, b) ==> !Ahead(c, a)
    {
      AheadOrders(a, b, c);
    }
  }

  /** Sorting distinct rows keeps them, and ties cannot occur. */
  lemma RankedRows(rows: seq<Standing>, r: seq<Standing>, done: set<Pair>, reg: Registry, byUser: map<Bytes, Standing>)
    requires Describes(byUser, done, reg)
    requires forall i | 0 <= i < |rows| :: rows[i].user in byUser && rows[i] == byUser[rows[i].user]
    requires forall i, j | 0 <= i < j < |rows| :: rows[i].user != rows[j].user
    requires forall u | u in byUser :: byUser[u] in rows
    requires S.Sorted(r, Ahead) && multiset(r) == multiset(rows)
    ensures IsRanking(r, done, reg)
  {
    forall row
      ensures row in r <==> row.user in Learners(done) && row == RowOf(done, reg, row.user)
    {
      assert row in r <==> row in multiset(rows);
    }
    S.DistinctSurvives(rows, r, RowUser);
    forall i, j | 0 <= i < j < |r|
      ensures Ahead(r[i], r[j]) && r[i].user != r[j].user
    {
      assert RowUser(r[i]) != RowUser(r[j]);
      AheadOrders(r[i], r[j], r[j]);
    }
  }

  method CountChallenges(reg: Registry, solves: map<Bytes, set<Bytes>>)
    returns (stats: seq<ChallengeStat>, totalPoints: int)
    ensures IsStats(stats, PairsIn(solves), reg)
    ensures totalPoints == PointsAvailable(reg)
  {
    var rows: seq<ChallengeStat> := [];
    totalPoints := 0;
    var hashes := reg.Keys;
    ghost var done := PairsIn(solves);
    hide PairsIn, Sum, SolverCount;
    while hashes != {}
      invariant hashes <= reg.Keys
      invariant forall i | 0 <= i < |rows| ::
          rows[i].hash in reg && rows[i].hash !in hashes && rows[i] == StatOf(done, reg, rows[i].hash)
      invariant forall i, j | 0 <= i < j < |rows| :: rows[i].hash != rows[j].hash
      invariant forall h | h in reg && h !in hashes :: StatOf(done, reg, h) in rows
      invariant totalPoints + Sum(hashes, h => ValueOf(reg, h)) == PointsAvailable(reg)
      decreases hashes
    {
      var h :| h in hashes;
      var c := reg[h];
      SolversOf(solves, h);
      SumTake(hashes, k => ValueOf(reg, k), h);
      rows := rows + [ChallengeStat(h, c.name, c.value, if h in solves then |solves[h]| else 0)];
      totalPoints := totalPoints + c.value;
      hashes := hashes - {h};
    }
    NothingLeft(reg);
    NameIsWeakOrder();
    stats := S.Sort(rows, NameBefore);
    S.DistinctSurvives(rows, stats, StatHash);
    assert forall i, j | 0 <= i < j < |stats| :: StatHash(stats[i]) != StatHash(stats[j]);
    forall x
      ensures x in stats <==> x.hash in reg && x == StatOf(done, reg, x.hash)
    {
      assert x in stats <==> x in multiset(rows);
    }
  }

  lemma NothingLeft(reg: Registry)
    ensures Sum({}, h => ValueOf(reg, h)) == 0
  {
  }

  lemma NameIsWeakOrder()
    ensures S.WeakOrder(NameBefore)
  {
    forall a: ChallengeStat, b: ChallengeStat, c: ChallengeStat
      ensures NameBefore(a, b) ==> !NameBefore(b, a)
      ensures !NameBefore(b, a) && !NameBefore(c, b) ==> !NameBefore(c, a)
    {
      S.LessTotal(a.name, b.name);
      S.LessTotal(b.name, c.name);
      if NameBefore(c, a) && !NameBefore(b, a) && !NameBefore(c, b) {
        if b.name != c.name {
          S.LessTransitive(b.name, c.name, a.name);
        }
      }
    }
  }

  /** The inner set of a challenge counts its solvers. */
  lemma SolversOf(solves: map<Bytes, set<Bytes>>, h: Bytes)
    ensures SolverCount(PairsIn(solves), h) == if h in solves then |solves[h]| else 0
  {
    var pairs := Group(PairsIn(solves), ChallengeOf, h);
    if h in solves {
      Relabel(solves[h], h);
      assert pairs == set u | u in solves[h] :: Pair(u, h);
    } else {
      assert pairs == {};
    }
  }

  lemma {:induction false} Relabel(users: set<Bytes>, h: Bytes)
    ensures |set u | u in users :: Pair(u, h)| == |users|
    decreases users
  {
    if users != {} {
      var u :| u in users;
      Relabel(users - {u}, h);
      assert (set v | v in users :: Pair(v, h)) == (set v | v in users - {u} :: Pair(v, h)) + {Pair(u, h)};
    }
  }
}

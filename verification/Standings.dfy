/** The scoreboard as a function of the recorded solves alone: rows, counts and totals. */
module Standings {
  import opened Json
  import opened RecordCodec
  import S = Sorting

  datatype Challenge = Challenge(hash: Bytes, name: Bytes, value: int, flags: seq<Bytes>)

  datatype Standing = Standing(user: Bytes, solved: int, points: int)

  datatype ChallengeStat = ChallengeStat(hash: Bytes, name: Bytes, value: int, solved: int)

  type Registry = map<Bytes, Challenge>

  /** A challenge that is no longer registered is worth nothing. */
  function ValueOf(reg: Registry, hash: Bytes): int {
    if hash in reg then reg[hash].value else 0
  }

  function Worth(reg: Registry, p: Pair): int {
    ValueOf(reg, p.challenge)
  }

  function One(p: Pair): int {
    1
  }

  // -------------------------------------------------------------------------------- Sums over sets

  ghost function Sum<T(!new)>(s: set<T>, f: T -> int): int {
    if s == {} then 0 else var x :| x in s; f(x) + Sum(s - {x}, f)
  }

  lemma {:induction false} SumTake<T(!new)>(s: set<T>, f: T -> int, x: T)
    requires x in s
    ensures Sum(s, f) == f(x) + Sum(s - {x}, f)
    decreases s
  {
    var y :| y in s && Sum(s, f) == f(y) + Sum(s - {y}, f);
    if y != x {
      SumTake(s - {y}, f, x);
      SumTake(s - {x}, f, y);
      assert s - {y} - {x} == s - {x} - {y};
    }
  }

  lemma {:induction false} SumUnion<T(!new)>(a: set<T>, b: set<T>, f: T -> int)
    requires a !! b
    ensures Sum(a + b, f) == Sum(a, f) + Sum(b, f)
    decreases a
  {
    if a == {} {
      assert a + b == b;
    } else {
      var x :| x in a;
      SumTake(a, f, x);
      SumTake(a + b, f, x);
      assert a + b - {x} == (a - {x}) + b;
      SumUnion(a - {x}, b, f);
    }
  }

  lemma {:induction false} SumOfOnes(s: set<Pair>)
    ensures Sum(s, One) == |s|
    decreases s
  {
    if s != {} {
      var x :| x in s;
      SumTake(s, One, x);
      SumOfOnes(s - {x});
    }
  }

  /** The elements of s that g sends to k. */
  ghost function Group<T(!new), K(!new)>(s: set<T>, g: T -> K, k: K): set<T> {
    set x | x in s && g(x) == k
  }

  /** Adding up group by group is adding up, whatever keys are walked, if they cover the set. */
  lemma {:induction false} SumByGroup<T(!new), K(!new)>(s: set<T>, f: T -> int, g: T -> K, keys: set<K>)
    requires forall x | x in s :: g(x) in keys
    ensures Sum(s, f) == Sum(keys, k => Sum(Group(s, g, k), f))
    decreases keys
  {
    var h := k => Sum(Group(s, g, k), f);
    if keys == {} {
      assert s == {};
    } else {
      var k :| k in keys;
      var rest := s - Group(s, g, k);
      SumTake(keys, h, k);
      SumUnion(Group(s, g, k), rest, f);
      assert Group(s, g, k) + rest == s;
      SumByGroup(rest, f, g, keys - {k});
      SumSame(keys - {k}, k' => Sum(Group(rest, g, k'), f), h) by {
        forall k' | k' in keys - {k}
          ensures Group(rest, g, k') == Group(s, g, k')
        {
        }
      }
    }
  }

  lemma {:induction false} SumSame<T(!new)>(s: set<T>, f: T -> int, h: T -> int)
    requires forall x | x in s :: f(x) == h(x)
    ensures Sum(s, f) == Sum(s, h)
    decreases s
  {
    if s != {} {
      var x :| x in s;
      SumTake(s, f, x);
      SumTake(s, h, x);
      SumSame(s - {x}, f, h);
    }
  }

  // ------------------------------------------------------------------------------------ The ranking

  function UserOf(p: Pair): Bytes {
    p.user
  }

  function RowUser(row: Standing): Bytes {
    row.user
  }

  function StatHash(stat: ChallengeStat): Bytes {
    stat.hash
  }

  function ChallengeOf(p: Pair): Bytes {
    p.challenge
  }

  ghost function SolvedBy(solves: set<Pair>, user: Bytes): int {
    |Group(solves, UserOf, user)|
  }

  ghost function PointsOf(solves: set<Pair>, reg: Registry, user: Bytes): int {
    Sum(Group(solves, UserOf, user), p => Worth(reg, p))
  }

  ghost function SolverCount(solves: set<Pair>, challenge: Bytes): int {
    |Group(solves, ChallengeOf, challenge)|
  }

  ghost function RowOf(solves: set<Pair>, reg: Registry, user: Bytes): Standing {
    Standing(user, SolvedBy(solves, user), PointsOf(solves, reg, user))
  }

  ghost function Learners(solves: set<Pair>): set<Bytes> {
    set p | p in solves :: p.user
  }

  /** More points first; among equals, the smaller name. */
  predicate Ahead(a: Standing, b: Standing) {
    a.points > b.points || (a.points == b.points && S.Less(a.user, b.user))
  }

  /** One row per learner, each the sum of that learner's solves, best first. */
  ghost predicate IsRanking(r: seq<Standing>, solves: set<Pair>, reg: Registry) {
    && (forall i, j | 0 <= i < j < |r| :: Ahead(r[i], r[j]) && r[i].user != r[j].user)
    && (forall row :: row in r <==> row.user in Learners(solves) && row == RowOf(solves, reg, row.user))
  }

  lemma AheadOrders(a: Standing, b: Standing, c: Standing)
    ensures Ahead(a, b) ==> !Ahead(b, a)
    ensures !Ahead(b, a) && !Ahead(c, b) ==> !Ahead(c, a)
    ensures a.user != b.user ==> Ahead(a, b) || Ahead(b, a)
  {
    S.LessTotal(a.user, b.user);
    S.LessTotal(b.user, c.user);
    S.LessTotal(a.user, c.user);
    if S.Less(a.user, b.user) && S.Less(b.user, c.user) {
      S.LessTransitive(a.user, b.user, c.user);
    }
  }

  /** The ranking is a function of the stored sets alone: two that both meet the description, in
      whatever order their maps were walked, are the same sequence. */
  lemma RankingUnique(r: seq<Standing>, s: seq<Standing>, solves: set<Pair>, reg: Registry)
    requires IsRanking(r, solves, reg) && IsRanking(s, solves, reg)
    ensures r == s
  {
    forall i, j | 0 <= i < j < |r|
      ensures Ahead(r[i], r[j]) && !Ahead(r[j], r[i])
    {
      AheadOrders(r[i], r[j], r[j]);
    }
    forall i, j | 0 <= i < j < |s|
      ensures Ahead(s[i], s[j]) && !Ahead(s[j], s[i])
    {
      AheadOrders(s[i], s[j], s[j]);
    }
    forall x
      ensures x in r <==> x in s
    {
    }
    S.SortedUnique(r, s, Ahead);
  }

  /** A column of a table, added up. */
  function Total<T>(rows: seq<T>, f: T -> int): int {
    if rows == [] then 0 else f(rows[0]) + Total(rows[1..], f)
  }

  /** Adding up a column of rows with distinct keys is adding it up over the keys. */
  lemma {:induction false} TotalIsSum<T(!new), K(!new)>(r: seq<T>, f: T -> int, key: T -> K, g: K -> int, keys: set<K>)
    requires forall i, j | 0 <= i < j < |r| :: key(r[i]) != key(r[j])
    requires forall i | 0 <= i < |r| :: f(r[i]) == g(key(r[i]))
    requires forall k :: k in keys <==> exists i | 0 <= i < |r| :: key(r[i]) == k
    ensures Total(r, f) == Sum(keys, g)
    decreases |r|
  {
    if r == [] {
      assert keys == {};
    } else {
      var k0 := key(r[0]);
      SumTake(keys, g, k0);
      forall k
        ensures k in keys - {k0} <==> exists i | 0 <= i < |r[1..]| :: key(r[1..][i]) == k
      {
        if k in keys && k != k0 {
          var i :| 0 <= i < |r| && key(r[i]) == k;
          assert key(r[1..][i - 1]) == k;
        }
      }
      TotalIsSum(r[1..], f, key, g, keys - {k0});
    }
  }

  lemma {:induction false} SumOfConstant<T(!new)>(s: set<T>, f: T -> int, c: int)
    requires forall x | x in s :: f(x) == c
    ensures Sum(s, f) == c * |s|
    decreases s
  {
    if s != {} {
      var x :| x in s;
      SumTake(s, f, x);
      SumOfConstant(s - {x}, f, c);
    }
  }

  /** The users of a ranking's rows are the learners. */
  lemma RankedUsers(r: seq<Standing>, solves: set<Pair>, reg: Registry)
    requires IsRanking(r, solves, reg)
    ensures forall u :: u in Learners(solves) <==> exists i | 0 <= i < |r| :: RowUser(r[i]) == u
    ensures forall i | 0 <= i < |r| :: r[i] == RowOf(solves, reg, r[i].user)
  {
    forall i | 0 <= i < |r|
      ensures r[i].user in Learners(solves) && r[i] == RowOf(solves, reg, r[i].user)
    {
      assert r[i] in r;
    }
    forall u | u in Learners(solves)
      ensures exists i | 0 <= i < |r| :: RowUser(r[i]) == u
    {
      assert RowOf(solves, reg, u) in r;
      var i :| 0 <= i < |r| && r[i] == RowOf(solves, reg, u);
      assert RowUser(r[i]) == u;
    }
  }

  /** Points walked by challenge: each registered challenge gives its value once per solver. */
  lemma PointsByChallenge(solves: set<Pair>, reg: Registry)
    ensures Sum(solves, p => Worth(reg, p)) == Sum(reg.Keys, h => ValueOf(reg, h) * SolverCount(solves, h))
  {
    var f := (p: Pair) => Worth(reg, p);
    var g := h => ValueOf(reg, h) * SolverCount(solves, h);
    var others := (set p | p in solves :: p.challenge) - reg.Keys;
    var keys := reg.Keys + others;
    SumByGroup(solves, f, ChallengeOf, keys);
    var byGroup := k => Sum(Group(solves, ChallengeOf, k), f);
    forall k | k in keys
      ensures byGroup(k) == g(k)
    {
      SumOfConstant(Group(solves, ChallengeOf, k), f, ValueOf(reg, k));
    }
    SumSame(keys, byGroup, g);
    SumUnion(reg.Keys, others, g);
    SumOfConstant(others, g, 0);
  }

  /** Nothing is lost or counted twice: over all rows, solves add up to the recorded pairs, and points
      to value times solvers over the registered challenges. */
  lemma RankingConserves(r: seq<Standing>, solves: set<Pair>, reg: Registry)
    requires IsRanking(r, solves, reg)
    ensures Total(r, (row: Standing) => row.solved) == |solves|
    ensures Total(r, (row: Standing) => row.points) ==
            Sum(reg.Keys, h => ValueOf(reg, h) * SolverCount(solves, h))
  {
    var users := Learners(solves);
    RankedUsers(r, solves, reg);
    var solved := u => SolvedBy(solves, u);
    TotalIsSum(r, (row: Standing) => row.solved, RowUser, solved, users);
    SumByGroup(solves, One, UserOf, users);
    SumOfOnes(solves);
    forall u | u in users
      ensures Sum(Group(solves, UserOf, u), One) == solved(u)
    {
      SumOfOnes(Group(solves, UserOf, u));
    }
    SumSame(users, u => Sum(Group(solves, UserOf, u), One), solved);
    PointsAddUp(r, solves, reg);
  }

  lemma PointsAddUp(r: seq<Standing>, solves: set<Pair>, reg: Registry)
    requires IsRanking(r, solves, reg)
    ensures Total(r, (row: Standing) => row.points) ==
            Sum(reg.Keys, h => ValueOf(reg, h) * SolverCount(solves, h))
  {
    var users := Learners(solves);
    RankedUsers(r, solves, reg);
    var worth := (p: Pair) => Worth(reg, p);
    var points := u => Sum(Group(solves, UserOf, u), worth);
    TotalIsSum(r, (row: Standing) => row.points, RowUser, points, users);
    SumByGroup(solves, worth, UserOf, users);
    PointsByChallenge(solves, reg);
  }

  // ------------------------------------------------------------------------------- The challenges

  ghost function StatOf(solves: set<Pair>, reg: Registry, hash: Bytes): ChallengeStat
    requires hash in reg
  {
    ChallengeStat(hash, reg[hash].name, reg[hash].value, SolverCount(solves, hash))
  }

  predicate NameBefore(a: ChallengeStat, b: ChallengeStat) {
    S.Less(a.name, b.name)
  }

  /** One entry per registered challenge, in name order. */
  ghost predicate IsStats(stats: seq<ChallengeStat>, solves: set<Pair>, reg: Registry) {
    && S.Sorted(stats, NameBefore)
    && (forall i, j | 0 <= i < j < |stats| :: stats[i].hash != stats[j].hash)
    && (forall x :: x in stats <==> x.hash in reg && x == StatOf(solves, reg, x.hash))
  }

  ghost function PointsAvailable(reg: Registry): int {
    Sum(reg.Keys, h => ValueOf(reg, h))
  }

  /** The per-challenge counts fall short of the recorded solves exactly by those of challenges that
      are no longer registered. */
  lemma CountsFallShort(stats: seq<ChallengeStat>, solves: set<Pair>, reg: Registry)
    requires IsStats(stats, solves, reg)
    ensures Total(stats, (x: ChallengeStat) => x.solved) == |solves| - |set p | p in solves && p.challenge !in reg|
  {
    var count := h => SolverCount(solves, h);
    forall i | 0 <= i < |stats|
      ensures stats[i].hash in reg && stats[i] == StatOf(solves, reg, stats[i].hash)
    {
      assert stats[i] in stats;
    }
    forall h
      ensures h in reg.Keys <==> exists i | 0 <= i < |stats| :: StatHash(stats[i]) == h
    {
      if h in reg {
        assert StatOf(solves, reg, h) in stats;
        var i :| 0 <= i < |stats| && stats[i] == StatOf(solves, reg, h);
        assert StatHash(stats[i]) == h;
      }
    }
    TotalIsSum(stats, (x: ChallengeStat) => x.solved, StatHash, count, reg.Keys);
    RegisteredCounts(solves, reg);
  }

  lemma RegisteredCounts(solves: set<Pair>, reg: Registry)
    ensures Sum(reg.Keys, h => SolverCount(solves, h)) ==
            |solves| - |set p | p in solves && p.challenge !in reg|
  {
    var gone := set p | p in solves && p.challenge !in reg;
    var here := solves - gone;
    var count := h => SolverCount(solves, h);
    SumByGroup(here, One, ChallengeOf, reg.Keys);
    SumOfOnes(here);
    forall h | h in reg.Keys
      ensures Sum(Group(here, ChallengeOf, h), One) == count(h)
    {
      SumOfOnes(Group(here, ChallengeOf, h));
      assert Group(here, ChallengeOf, h) == Group(solves, ChallengeOf, h);
    }
    SumSame(reg.Keys, h => Sum(Group(here, ChallengeOf, h), One), count);
    assert solves == here + gone;
  }
}

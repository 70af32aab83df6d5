/** What the scoreboard's descriptions say of its rows. */
module Scoreboard {
  import opened Json
  import opened RecordCodec
  import opened Standings
  import S = Sorting

  /** The smaller text is a beginning of the larger, or has the smaller byte where they first differ. */
  lemma {:induction false} LessMeans(a: Bytes, b: Bytes)
    ensures S.Less(a, b) <==>
            exists k: nat :: k <= |a| && k < |b| && a[..k] == b[..k] && (k == |a| || a[k] < b[k])
  {
    if a != [] && b != [] && a[0] == b[0] {
      LessMeans(a[1..], b[1..]);
      if S.Less(a, b) {
        var c, d := a[1..], b[1..];
        var k: nat :| k <= |c| && k < |d| && c[..k] == d[..k] && (k == |c| || c[k] < d[k]);
        assert a[..k + 1] == [a[0]] + a[1..][..k] && b[..k + 1] == [b[0]] + b[1..][..k];
        Witness(a, b, k + 1);
      }
      if k: nat :| k <= |a| && k < |b| && a[..k] == b[..k] && (k == |a| || a[k] < b[k]) {
        Shorter(a, b, k);
      }
    } else if S.Less(a, b) {
      Witness(a, b, 0);
    } else if k: nat :| k <= |a| && k < |b| && a[..k] == b[..k] && (k == |a| || a[k] < b[k]) {
      FirstDiffers(a, b, k);
    }
  }

  lemma Witness(a: Bytes, b: Bytes, k: nat)
    requires k <= |a| && k < |b| && a[..k] == b[..k] && (k == |a| || a[k] < b[k])
    ensures exists k: nat :: k <= |a| && k < |b| && a[..k] == b[..k] && (k == |a| || a[k] < b[k])
  {
  }

  lemma Shorter(a: Bytes, b: Bytes, k: nat)
    requires a != [] && b != [] && a[0] == b[0]
    requires k <= |a| && k < |b| && a[..k] == b[..k] && (k == |a| || a[k] < b[k])
    ensures var c, d := a[1..], b[1..];
            exists j: nat :: j <= |c| && j < |d| && c[..j] == d[..j] && (j == |c| || c[j] < d[j])
  {
    var j := k - 1;
    assert a[1..][..j] == a[..k][1..] && b[1..][..j] == b[..k][1..];
    Witness(a[1..], b[1..], j);
  }

  lemma FirstDiffers(a: Bytes, b: Bytes, k: nat)
    requires k <= |a| && k < |b| && a[..k] == b[..k] && (k == |a| || a[k] < b[k])
    requires a == [] || b == [] || a[0] != b[0]
    ensures S.Less(a, b)
  {
    if k > 0 {
      SameStart(a, b, k);
    }
  }

  lemma SameStart(a: Bytes, b: Bytes, k: nat)
    requires 0 < k <= |a| && k <= |b| && a[..k] == b[..k]
    ensures a[0] == b[0]
  {
    assert a[..k][0] == b[..k][0];
  }

  /** The ranking goes down by points, and by name among equals. */
  lemma BestFirst(r: seq<Standing>, solves: set<Pair>, reg: Registry)
    requires IsRanking(r, solves, reg)
    ensures forall i, j | 0 <= i < j < |r| ::
              r[i].points > r[j].points || (r[i].points == r[j].points && S.Less(r[i].user, r[j].user))
  {
  }

  /** A solve is worth its challenge's value while that is registered, and counts for its learner only. */
  lemma RowOfOne(p: Pair, reg: Registry, user: Bytes)
    ensures RowOf({p}, reg, user) ==
            if p.user == user then Standing(user, 1, if p.challenge in reg then reg[p.challenge].value else 0)
            else Standing(user, 0, 0)
    ensures RowOf({}, reg, user) == Standing(user, 0, 0)
  {
    var worth := (q: Pair) => Worth(reg, q);
    assert Group({p}, UserOf, user) == if p.user == user then {p} else {};
    SumTake({p}, worth, p);
    assert {p} - {p} == {} && Group({}, UserOf, user) == {};
  }

  /** Rows of separate solves add up. */
  lemma RowsAdd(a: set<Pair>, b: set<Pair>, reg: Registry, user: Bytes)
    requires a !! b
    ensures var x, y := RowOf(a, reg, user), RowOf(b, reg, user);
            RowOf(a + b, reg, user) == Standing(user, x.solved + y.solved, x.points + y.points)
  {
    assert Group(a + b, UserOf, user) == Group(a, UserOf, user) + Group(b, UserOf, user);
    SumUnion(Group(a, UserOf, user), Group(b, UserOf, user), (p: Pair) => Worth(reg, p));
  }
}

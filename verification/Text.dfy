/** Strings as Go's `strings` package handles them: lines, substrings, first replacement, trimming. Three
    facts carry the proofs about pages: a part of a text that lacks a word lacks it too; a word without a
    newline lies within one line; and a word shaped like a tag lies on one side of any place where a tag ends
    or the next begins. */
module Text {
  import opened Concatenation

  /** Whether t stands at position i of s. */
  predicate At(s: string, i: nat, t: string) {
    i + |t| <= |s| && s[i..i + |t|] == t
  }

  predicate Contains(s: string, t: string) {
    exists i: nat | i <= |s| :: At(s, i, t)
  }

  /** The first position of t in s from i on; |s| + 1 if there is none. */
  function Index(s: string, t: string, i: nat): (p: nat)
    requires i <= |s|
    ensures i <= p <= |s| + 1
    ensures p <= |s| ==> At(s, p, t)
    ensures forall k: nat | i <= k < p && k <= |s| :: !At(s, k, t)
    decreases |s| - i
  {
    if At(s, i, t) then i
    else if i == |s| then |s| + 1
    else Index(s, t, i + 1)
  }

  function ReplaceFirst(s: string, was: string, fill: string): string {
    var p := Index(s, was, 0);
    if p <= |s| then s[..p] + fill + s[p + |was|..] else s
  }

  lemma ReplaceThere(a: string, t: string, b: string, fill: string)
    requires forall k: nat | k < |a| :: !At(a + t + b, k, t)
    ensures ReplaceFirst(a + t + b, t, fill) == a + fill + b
  {
    var s := a + t + b;
    assert At(s, |a|, t) by {
      assert s[|a|..|a| + |t|] == t;
    }
    assert Index(s, t, 0) == |a|;
    assert s[..|a|] == a && s[|a| + |t|..] == b;
  }

  lemma NotThere(s: string, t: string, fill: string)
    ensures !Contains(s, t) ==> ReplaceFirst(s, t, fill) == s
  {
  }

  // ---------------------------------------------------------------------------- Parts of strings

  lemma PartLacks(a: string, b: string, c: string, t: string)
    requires !Contains(a + b + c, t)
    ensures !Contains(b, t)
  {
    forall i: nat | i <= |b| ensures !At(b, i, t) {
      if At(b, i, t) {
        assert (a + b + c)[|a| + i..|a| + i + |t|] == b[i..i + |t|];
        assert At(a + b + c, |a| + i, t);
      }
    }
  }

  lemma SliceLacks(s: string, i: nat, j: nat, t: string)
    requires i <= j <= |s| && !Contains(s, t)
    ensures !Contains(s[i..j], t)
  {
    assert s == s[..i] + s[i..j] + s[j..];
    PartLacks(s[..i], s[i..j], s[j..], t);
  }

  predicate Free(s: string, c: char) {
    forall i | 0 <= i < |s| :: s[i] != c
  }

  lemma FreeConcat(a: string, b: string, c: char)
    ensures Free(a, c) && Free(b, c) ==> Free(a + b, c)
  {
  }

  lemma LetterAt(s: string, i: nat, t: string, k: nat)
    requires At(s, i, t) && k < |t|
    ensures s[i + k] == t[k]
  {
    assert s[i..i + |t|][k] == t[k];
  }

  lemma AtSlice(s: string, i: nat, t: string, from: nat, to: nat)
    requires At(s, i, t) && from <= i && i + |t| <= to <= |s|
    ensures At(s[from..to], i - from, t)
    ensures Contains(s[from..to], t)
  {
    var part, k := s[from..to], i - from;
    forall j | 0 <= j < |t| ensures part[k..k + |t|][j] == t[j] {
      LetterAt(s, i, t, j);
      assert part[k + j] == s[i + j];
    }
    assert part[k..k + |t|] == t;
    assert At(part, k, t);
  }

  lemma AtPrefix(s: string, i: nat, t: string, n: nat)
    requires At(s, i, t) && n <= |t|
    ensures At(s, i, t[..n]) && Contains(s, t[..n])
  {
    assert s[i..i + |t|][..n] == s[i..i + n];
    assert At(s, i, t[..n]);
  }

  /** A word that lacks a character cannot lie across it. */
  lemma NoneAcross(a: string, c: char, b: string, t: string)
    requires Free(t, c) && t != "" && !Contains(a, t) && !Contains(b, t)
    ensures !Contains(a + [c] + b, t)
  {
    var s := a + [c] + b;
    assert s[0..|a|] == a && s[|a| + 1..|s|] == b;
    forall i: nat | i <= |s| ensures !At(s, i, t) {
      if At(s, i, t) {
        if i + |t| <= |a| {
          AtSlice(s, i, t, 0, |a|);
        } else if i > |a| {
          AtSlice(s, i, t, |a| + 1, |s|);
        } else {
          LetterAt(s, i, t, |a| - i);
        }
      }
    }
  }

  lemma Differs(s: string, p: nat, t: string, k: nat)
    requires k < |t| && (p + k >= |s| || s[p + k] != t[k])
    ensures !At(s, p, t)
  {
    if At(s, p, t) {
      LetterAt(s, p, t, k);
    }
  }

  /** Text shaped like one tag, or the start of one: a bracket opens it, and none closes it before its end. */
  predicate TagLike(t: string) {
    && t != "" && t[0] == '<' && (forall i | 1 <= i < |t| :: t[i] != '<')
    && (forall i | 0 <= i < |t| - 1 :: t[i] != '>')
  }

  /** Such text lies on one side of any place where a tag ends or the next begins. */
  lemma LacksAcross(a: string, b: string, t: string)
    requires !Contains(a, t) && !Contains(b, t) && TagLike(t)
    requires a == "" || b == "" || a[|a| - 1] == '>' || b[0] == '<'
    ensures !Contains(a + b, t)
  {
    var s := a + b;
    assert s[0..|a|] == a && s[|a|..|s|] == b;
    forall p: nat | p <= |s| ensures !At(s, p, t) {
      if At(s, p, t) {
        if p + |t| <= |a| {
          AtSlice(s, p, t, 0, |a|);
        } else if p >= |a| {
          AtSlice(s, p, t, |a|, |s|);
        } else {
          Differs(s, p, t, if b[0] == '<' then |a| - p else |a| - 1 - p);
        }
      }
    }
  }

  // ---------------------------------------------------------------------------- Lines

  predicate OneLine(s: string) {
    Free(s, '\n')
  }

  function Split(s: string): (lines: seq<string>)
    ensures lines != []
  {
    if s == "" then [""]
    else
      var rest := Split(s[1..]);
      if s[0] == '\n' then [""] + rest else [[s[0]] + rest[0]] + rest[1..]
  }

  function Join(parts: seq<string>, sep: string): string {
    if parts == [] then ""
    else if |parts| == 1 then parts[0]
    else parts[0] + sep + Join(parts[1..], sep)
  }

  lemma {:induction false} SplitOneLine(s: string)
    requires OneLine(s)
    ensures Split(s) == [s]
  {
    if s != "" {
      SplitOneLine(s[1..]);
      assert [s[0]] + s[1..] == s;
    }
  }

  lemma {:induction false} SplitAt(a: string, b: string)
    ensures Split(a + "\n" + b) == Split(a) + Split(b)
  {
    if a == "" {
      assert (a + "\n" + b)[1..] == b;
    } else {
      SplitAt(a[1..], b);
      assert (a + "\n" + b)[1..] == a[1..] + "\n" + b;
      Prepended(a[0], Split(a[1..]), Split(b));
      SplitStep(a);
      SplitStep(a + "\n" + b);
      hide Split;
    }
  }

  /** What a character before them makes of the lines. */
  function Prepend(c: char, lines: seq<string>): seq<string>
    requires lines != []
  {
    if c == '\n' then [""] + lines else [[c] + lines[0]] + lines[1..]
  }

  lemma SplitStep(s: string)
    ensures s != "" ==> Split(s) == Prepend(s[0], Split(s[1..]))
  {
  }

  lemma Prepended(c: char, a: seq<string>, b: seq<string>)
    requires a != []
    ensures Prepend(c, a + b) == Prepend(c, a) + b
  {
    assert (a + b)[0] == a[0] && (a + b)[1..] == a[1..] + b;
  }

  /** A line of its own stays one. */
  lemma SplitAround(a: string, line: string, b: string)
    requires OneLine(line)
    ensures Split(a + "\n" + line + "\n" + b) == Split(a) + [line] + Split(b)
  {
    SplitOneLine(line);
    hide Split, OneLine;
    SplitAt(a, line + "\n" + b);
    SplitAt(line, b);
    AssociateThree(a + "\n", line, "\n", b);
    assert Split(a) + ([line] + Split(b)) == Split(a) + [line] + Split(b);
  }

  lemma {:induction false} LinesLack(s: string, t: string)
    requires !Contains(s, t)
    ensures forall k | 0 <= k < |Split(s)| :: !Contains(Split(s)[k], t)
  {
    var n := NewlineIndex(s);
    if n == |s| {
      SplitOneLine(s);
    } else {
      var a, b := s[..n], s[n + 1..];
      assert s == a + "\n" + b;
      SplitAt(a, b);
      SplitOneLine(a);
      SliceLacks(s, 0, n, t);
      assert s[0..n] == a && s[n + 1..|s|] == b;
      SliceLacks(s, n + 1, |s|, t);
      LinesLack(b, t);
    }
  }

  function NewlineIndex(s: string): (n: nat)
    ensures n <= |s| && OneLine(s[..n]) && (n < |s| ==> s[n] == '\n')
  {
    if s == "" || s[0] == '\n' then 0
    else
      var n := NewlineIndex(s[1..]);
      assert s[..n + 1] == [s[0]] + s[1..][..n];
      n + 1
  }

  lemma {:induction false} SplitOfJoin(lines: seq<string>)
    requires lines != [] && forall k | 0 <= k < |lines| :: OneLine(lines[k])
    ensures Split(Join(lines, "\n")) == lines
  {
    if |lines| == 1 {
      SplitOneLine(lines[0]);
    } else {
      SplitOfJoin(lines[1..]);
      SplitAt(lines[0], Join(lines[1..], "\n"));
      SplitOneLine(lines[0]);
    }
  }

  lemma {:induction false} JoinLacks(parts: seq<string>, t: string)
    requires OneLine(t) && t != "" && forall k | 0 <= k < |parts| :: !Contains(parts[k], t)
    ensures !Contains(Join(parts, "\n"), t)
  {
    if |parts| > 1 {
      JoinLacks(parts[1..], t);
      NoneAcross(parts[0], '\n', Join(parts[1..], "\n"), t);
    }
  }

  /** Replacing a word that is one of the joined parts and occurs in none before it. */
  lemma ReplaceInJoin(parts: seq<string>, k: nat, t: string, fill: string)
    requires OneLine(t) && t != "" && k < |parts| && parts[k] == t
    requires forall j | 0 <= j < k :: !Contains(parts[j], t)
    ensures ReplaceFirst(Join(parts, "\n"), t, fill) == Join(parts[k := fill], "\n")
  {
    var a, b := Before(parts, k), After(parts, k);
    JoinAround(parts, k);
    BeforeLacks(parts, k, t);
    forall i: nat | i < |a| ensures !At(a + t + b, i, t) {
      NotBefore(a, t, b, i);
    }
    ReplaceThere(a, t, b, fill);
    JoinAround(parts[k := fill], k);
    assert Before(parts[k := fill], k) == a by {
      assert parts[k := fill][..k] == parts[..k];
    }
    assert After(parts[k := fill], k) == b by {
      assert parts[k := fill][k + 1..] == parts[k + 1..];
    }
  }

  /** What a join puts before and after its k-th part. */
  function Before(parts: seq<string>, k: nat): string
    requires k <= |parts|
  {
    if k == 0 then "" else Join(parts[..k], "\n") + "\n"
  }

  function After(parts: seq<string>, k: nat): string
    requires k < |parts|
  {
    if k + 1 == |parts| then "" else "\n" + Join(parts[k + 1..], "\n")
  }

  lemma {:induction false} JoinAround(parts: seq<string>, k: nat)
    requires k < |parts|
    ensures Join(parts, "\n") == Before(parts, k) + parts[k] + After(parts, k)
  {
    hide Before, After, Join;
    if k > 0 {
      JoinAround(parts[1..], k - 1);
      AfterLater(parts, k);
      BeforeMore(parts, k);
      JoinMore(parts);
      AssociateThree(parts[0] + "\n", Before(parts[1..], k - 1), parts[k], After(parts, k));
    } else {
      JoinFirst(parts);
    }
  }

  lemma JoinMore(parts: seq<string>)
    requires |parts| > 1
    ensures Join(parts, "\n") == parts[0] + "\n" + Join(parts[1..], "\n")
  {
  }

  lemma JoinFirst(parts: seq<string>)
    requires parts != []
    ensures Join(parts, "\n") == Before(parts, 0) + parts[0] + After(parts, 0)
  {
    if |parts| > 1 {
      assert parts[0] + "\n" + Join(parts[1..], "\n") == parts[0] + ("\n" + Join(parts[1..], "\n"));
    }
    assert "" + parts[0] == parts[0];
  }

  lemma AfterLater(parts: seq<string>, k: nat)
    requires 0 < k < |parts|
    ensures After(parts[1..], k - 1) == After(parts, k)
  {
    hide Join;
    assert parts[1..][k..] == parts[k + 1..];
  }

  lemma BeforeMore(parts: seq<string>, k: nat)
    requires 0 < k <= |parts|
    ensures Before(parts, k) == parts[0] + "\n" + Before(parts[1..], k - 1)
  {
    var rest := parts[1..];
    assert parts[..k][1..] == rest[..k - 1] && parts[..k][0] == parts[0];
    if k > 1 {
      JoinMore(parts[..k]);
      hide Join;
      assert parts[0] + "\n" + Join(rest[..k - 1], "\n") + "\n" == parts[0] + "\n" + (Join(rest[..k - 1], "\n") + "\n");
    }
  }

  lemma BeforeLacks(parts: seq<string>, k: nat, t: string)
    requires OneLine(t) && t != "" && k <= |parts| && forall j | 0 <= j < k :: !Contains(parts[j], t)
    ensures !Contains(Before(parts, k), t)
    ensures Before(parts, k) != "" ==> Before(parts, k)[|Before(parts, k)| - 1] == '\n'
  {
    if k > 0 {
      JoinLacks(parts[..k], t);
      assert !Contains("", t);
      NoneAcross(Join(parts[..k], "\n"), '\n', "", t);
      assert Join(parts[..k], "\n") + ['\n'] + "" == Before(parts, k);
    }
  }

  lemma NotBefore(a: string, t: string, b: string, i: nat)
    requires i < |a| && a[|a| - 1] == '\n' && OneLine(t) && !Contains(a, t)
    ensures !At(a + t + b, i, t)
  {
    var s := a + t + b;
    assert s[0..|a|] == a;
    if At(s, i, t) {
      if i + |t| <= |a| {
        AtSlice(s, i, t, 0, |a|);
      } else {
        LetterAt(s, i, t, |a| - 1 - i);
      }
    }
  }

  // ---------------------------------------------------------------------------- Trimming

  /** White space to `unicode.IsSpace`. */
  predicate IsSpace(c: char) {
    || '\t' <= c <= '\r' || c == ' ' || c == '\U{85}' || c == '\U{A0}' || c == '\U{1680}'
    || '\U{2000}' <= c <= '\U{200A}' || c == '\U{2028}' || c == '\U{2029}' || c == '\U{202F}'
    || c == '\U{205F}' || c == '\U{3000}'
  }

  function TrimLeft(s: string): string {
    if s != "" && IsSpace(s[0]) then TrimLeft(s[1..]) else s
  }

  function TrimRight(s: string): string {
    if s != "" && IsSpace(s[|s| - 1]) then TrimRight(s[..|s| - 1]) else s
  }

  function TrimSpace(s: string): string {
    TrimRight(TrimLeft(s))
  }

  lemma TrimIsSlice(s: string, t: string)
    requires !Contains(s, t)
    ensures !Contains(TrimSpace(s), t)
  {
    TrimLeftLacks(s, t);
    TrimRightLacks(TrimLeft(s), t);
  }

  lemma {:induction false} TrimLeftLacks(s: string, t: string)
    requires !Contains(s, t)
    ensures !Contains(TrimLeft(s), t)
  {
    if s != "" && IsSpace(s[0]) {
      SliceLacks(s, 1, |s|, t);
      assert s[1..|s|] == s[1..];
      TrimLeftLacks(s[1..], t);
    }
  }

  lemma {:induction false} TrimRightLacks(s: string, t: string)
    requires !Contains(s, t)
    ensures !Contains(TrimRight(s), t)
  {
    if s != "" && IsSpace(s[|s| - 1]) {
      SliceLacks(s, 0, |s| - 1, t);
      assert s[0..|s| - 1] == s[..|s| - 1];
      TrimRightLacks(s[..|s| - 1], t);
    }
  }

  /** White space to a regular expression. */
  predicate IsBlank(c: char) {
    c == ' ' || c == '\t' || c == '\n' || c == '\U{0C}' || c == '\r'
  }

  function Blanks(s: string): (n: nat)
    ensures n <= |s| && (n < |s| ==> !IsBlank(s[n])) && forall i | 0 <= i < n :: IsBlank(s[i])
  {
    if s != "" && IsBlank(s[0]) then 1 + Blanks(s[1..]) else 0
  }
}

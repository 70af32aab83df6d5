/** No opening tag is lost: exactly which lessons show all they open. A tag is what it is by its own characters,
    so it stays one wherever the text around it is cut, and an opening tag can be followed from the source,
    through both passes, to the page. */
module Openings {
  import opened Concatenation
  import opened Options
  import opened Text
  import opened Markdown
  import opened Blocks
  import opened Weaving
  import opened Placeholders
  import opened LostBlocks
  import opened Lesson
  import opened Agreement

  /** An opening tag of either kind. */
  predicate OpensAt(s: string, p: nat)
    requires p <= |s|
  {
    TagEnd(s, p, "quiz").Some? || TagEnd(s, p, "exercise").Some?
  }

  /** From i on, a closing tag of this kind comes before any opening tag. */
  predicate ClosedFirst(s: string, i: nat, word: string) {
    exists c: nat | i <= c <= |s| :: TagEnd(s, c, "end" + word).Some? && forall k: nat | i <= k < c :: !OpensAt(s, k)
  }

  predicate EachClosed(s: string, word: string) {
    forall p: nat | p <= |s| && TagEnd(s, p, word).Some? :: ClosedFirst(s, TagEnd(s, p, word).value, word)
  }

  /** Each opening tag of the source is closed, and before any other opens. */
  predicate EachClosedFirst(body: string) {
    EachClosed(body, "quiz") && EachClosed(body, "exercise")
  }

  /** Where the holes of w are, its text starting at `from`. */
  function HoleStarts(w: Weave<nat>, fills: seq<string>, from: nat): set<nat> {
    match w
    case End(_) => {}
    case More(t, k, rest) => {from + |t|} + HoleStarts(rest, fills, from + |t| + |Fill(fills, k)|)
  }

  /** Each opening tag of the source is where a registered block begins. */
  predicate EveryTagOpens(body: string) {
    forall p: nat | p <= |body| && OpensAt(body, p) :: p in HoleStarts(LayoutOf(body), BlockTexts(body), 0)
  }

  // ---------------------------------------------------------------------------- Tags are local

  predicate IsTagWord(word: string) {
    word == "quiz" || word == "endquiz" || word == "exercise" || word == "endexercise"
  }

  lemma {:induction false} BlanksAre(s: string, n: nat)
    requires n < |s| && !IsBlank(s[n]) && forall k | 0 <= k < n :: IsBlank(s[k])
    ensures Blanks(s) == n
  {
    if n > 0 {
      BlanksAre(s[1..], n - 1);
    }
  }

  /** A tag from i to e: the lengths of its two stretches of blanks. */
  predicate IsTag(s: string, i: nat, e: nat, word: string, a: nat, b: nat) {
    var p := i + 2 + a;
    var q := p + |word| + b;
    && e == q + 2 <= |s| && s[i] == '{' && s[i + 1] == '%' && s[q] == '%' && s[q + 1] == '}'
    && s[p..p + |word|] == word
    && (forall k | i + 2 <= k < p :: IsBlank(s[k])) && (forall k | p + |word| <= k < q :: IsBlank(s[k]))
  }

  lemma WordIs(word: string)
    requires IsTagWord(word)
    ensures word != "" && forall k | 0 <= k < |word| :: 'a' <= word[k] <= 'z'
  {
  }

  lemma TagShape(s: string, i: nat, word: string) returns (a: nat, b: nat)
    requires i <= |s| && TagEnd(s, i, word).Some?
    ensures IsTag(s, i, TagEnd(s, i, word).value, word, a, b)
  {
    a := Blanks(s[i + 2..]);
    var p := i + 2 + a;
    b := Blanks(s[p + |word|..]);
    var q := p + |word| + b;
    LetterAt(s, i, "{%", 0);
    LetterAt(s, i, "{%", 1);
    LetterAt(s, q, "%}", 0);
    LetterAt(s, q, "%}", 1);
    assert forall k | i + 2 <= k < p :: s[k] == s[i + 2..][k - (i + 2)];
    assert forall k | p + |word| <= k < q :: s[k] == s[p + |word|..][k - (p + |word|)];
  }

  lemma ShapeIsTag(s: string, i: nat, e: nat, word: string, a: nat, b: nat)
    requires IsTagWord(word) && IsTag(s, i, e, word, a, b)
    ensures i <= |s| && TagEnd(s, i, word) == Some(e)
  {
    hide *;
    ShapeBlanks(s, i, e, word, a, b);
    ShapeParts(s, i, e, word, a, b);
    PartsEnd(s, i, e, word, a, b);
  }

  lemma PartsEnd(s: string, i: nat, e: nat, word: string, a: nat, b: nat)
    requires i + 2 + a + |word| <= |s| && Blanks(s[i + 2..]) == a && Blanks(s[i + 2 + a + |word|..]) == b
    requires e == i + 4 + a + |word| + b && At(s, i, "{%") && At(s, i + 2 + a, word)
             && At(s, i + 2 + a + |word| + b, "%}")
    ensures TagEnd(s, i, word) == Some(e)
  {
    hide At, Blanks;
  }

  lemma ShapeParts(s: string, i: nat, e: nat, word: string, a: nat, b: nat)
    requires IsTag(s, i, e, word, a, b)
    ensures var p := i + 2 + a; var q := p + |word| + b;
            e == q + 2 && At(s, i, "{%") && At(s, p, word) && At(s, q, "%}")
  {
    var p := i + 2 + a;
    var q := p + |word| + b;
    assert s[i..i + 2] == "{%" && s[q..q + 2] == "%}";
  }

  lemma ShapeBlanks(s: string, i: nat, e: nat, word: string, a: nat, b: nat)
    requires IsTagWord(word) && IsTag(s, i, e, word, a, b)
    ensures i + 2 + a + |word| <= |s| && Blanks(s[i + 2..]) == a && Blanks(s[i + 2 + a + |word|..]) == b
  {
    WordIs(word);
    var p := i + 2 + a;
    assert s[p] == s[p..p + |word|][0];
    BlanksAre(s[i + 2..], a);
    BlanksAre(s[p + |word|..], b);
  }

  /** The same characters elsewhere are the same tag. */
  lemma TagMoves(s: string, i: nat, word: string, t: string, j: nat)
    requires IsTagWord(word) && i <= |s| && TagEnd(s, i, word).Some?
    requires var e := TagEnd(s, i, word).value; j + (e - i) <= |t| && t[j..j + (e - i)] == s[i..e]
    ensures j <= |t| && TagEnd(t, j, word) == Some(j + (TagEnd(s, i, word).value - i))
  {
    hide *;
    var e := TagEnd(s, i, word).value;
    var a, b := TagShape(s, i, word);
    MovedShape(s, i, e, word, a, b, t, j);
    ShapeIsTag(t, j, j + (e - i), word, a, b);
  }

  lemma TagTo(s: string, i: nat, e: nat, t: string, j: nat, f: nat, word: string)
    requires IsTagWord(word) && i <= e <= |s| && j <= f <= |t| && f - j == e - i && t[j..f] == s[i..e]
    requires TagEnd(s, i, word) == Some(e)
    ensures TagEnd(t, j, word) == Some(f)
  {
    hide TagEnd, IsTagWord;
    assert j + (e - i) == f;
    TagMoves(s, i, word, t, j);
  }

  lemma MovedShape(s: string, i: nat, e: nat, word: string, a: nat, b: nat, t: string, j: nat)
    requires IsTag(s, i, e, word, a, b) && i <= e && j + (e - i) <= |t| && t[j..j + (e - i)] == s[i..e]
    ensures IsTag(t, j, j + (e - i), word, a, b)
  {
    var p := 2 + a;
    SameLetters(s, i, e, t, j);
    SubSlice(s, i, i + p, i + p + |word|, e);
    SubSlice(t, j, j + p, j + p + |word|, j + (e - i));
    assert s[i + p..i + p + |word|] == t[j + p..j + p + |word|];
    forall k | j + 2 <= k < j + p || j + p + |word| <= k < j + p + |word| + b ensures IsBlank(t[k]) {
      assert t[k] == s[i + (k - j)];
    }
  }

  lemma SameLetters(s: string, i: nat, e: nat, t: string, j: nat)
    requires i <= e <= |s| && j + (e - i) <= |t| && t[j..j + (e - i)] == s[i..e]
    ensures forall k | j <= k < j + (e - i) :: t[k] == s[i + (k - j)]
  {
    forall k | j <= k < j + (e - i) ensures t[k] == s[i + (k - j)] {
      assert t[j..j + (e - i)][k - j] == s[i..e][k - j];
    }
  }

  lemma ShapeBraces(s: string, i: nat, e: nat, word: string, a: nat, b: nat)
    requires IsTagWord(word) && IsTag(s, i, e, word, a, b)
    ensures i + 4 < e <= |s| && s[i] == '{' && s[e - 1] == '}'
    ensures forall k | i < k < e :: s[k] != '{' && s[k] != '<'
    ensures forall k | i <= k < e - 1 :: s[k] != '}'
  {
    WordIs(word);
    hide IsTagWord;
    var p := i + 2 + a;
    assert forall k | p <= k < p + |word| :: s[k] == s[p..p + |word|][k - p];
  }

  /** A tag has no brace but its first and last character, and no angle bracket. */
  lemma TagBraces(s: string, i: nat, word: string)
    requires IsTagWord(word) && i <= |s| && TagEnd(s, i, word).Some?
    ensures var e := TagEnd(s, i, word).value;
            && i + 4 < e <= |s| && s[i] == '{' && s[e - 1] == '}'
            && (forall k | i < k < e :: s[k] != '{' && s[k] != '<')
            && (forall k | i <= k < e - 1 :: s[k] != '}')
  {
    var e := TagEnd(s, i, word).value;
    var a, b := TagShape(s, i, word);
    hide TagEnd;
    ShapeBraces(s, i, e, word, a, b);
  }

  /** No tag goes on into text that starts like this. */
  predicate Stopper(b: string) {
    b == "" || b[0] == '{' || (|b| >= 2 && b[0] == '\n' && b[1] == '<')
  }

  lemma TagInFront(a: string, b: string, p: nat, word: string)
    requires IsTagWord(word) && Stopper(b) && p < |a| && TagEnd(a + b, p, word).Some?
    ensures TagEnd(a, p, word) == TagEnd(a + b, p, word)
  {
    var s := a + b;
    assert b != "" ==> s[|a|] == b[0];
    assert |b| > 1 ==> s[|a| + 1] == b[1];
    TagBraces(s, p, word);
    var e := TagEnd(s, p, word).value;
    hide TagEnd, IsTagWord;
    assert e <= |a|;
    assert a[p..e] == s[p..e];
    TagMoves(s, p, word, a, p);
  }

  lemma TagStays(a: string, b: string, p: nat, word: string)
    requires IsTagWord(word) && p <= |a| && TagEnd(a, p, word).Some?
    ensures TagEnd(a + b, p, word) == TagEnd(a, p, word)
  {
    TagBraces(a, p, word);
    var e := TagEnd(a, p, word).value;
    hide TagEnd;
    assert (a + b)[p..e] == a[p..e];
    TagMoves(a, p, word, a + b, p);
  }

  /** What comes before does not matter. */
  lemma TagBehind(a: string, b: string, p: nat, word: string)
    requires IsTagWord(word) && p <= |b|
    ensures TagEnd(b, p, word).Some? ==> TagEnd(a + b, |a| + p, word) == Some(|a| + TagEnd(b, p, word).value)
    ensures TagEnd(a + b, |a| + p, word).Some? ==>
              |a| <= TagEnd(a + b, |a| + p, word).value
              && TagEnd(b, p, word) == Some(TagEnd(a + b, |a| + p, word).value - |a|)
  {
    hide TagEnd;
    if TagEnd(b, p, word).Some? {
      TagForth(a, b, p, word);
    } else if TagEnd(a + b, |a| + p, word).Some? {
      TagBack(a, b, p, word);
    }
  }

  lemma SliceBehind(a: string, b: string, p: nat, e: nat)
    ensures p <= e <= |b| ==> (a + b)[|a| + p..|a| + e] == b[p..e]
  {
  }

  lemma TagForth(a: string, b: string, p: nat, word: string)
    requires IsTagWord(word) && p <= |b| && TagEnd(b, p, word).Some?
    ensures TagEnd(a + b, |a| + p, word) == Some(|a| + TagEnd(b, p, word).value)
  {
    hide *;
    TagBraces(b, p, word);
    var s, i, e := a + b, |a| + p, TagEnd(b, p, word).value;
    SliceBehind(a, b, p, e);
    TagMoves(b, p, word, s, i);
  }

  lemma TagBack(a: string, b: string, p: nat, word: string)
    requires IsTagWord(word) && p <= |b| && TagEnd(a + b, |a| + p, word).Some?
    ensures |a| + p <= TagEnd(a + b, |a| + p, word).value
    ensures TagEnd(b, p, word) == Some(TagEnd(a + b, |a| + p, word).value - |a|)
  {
    hide *;
    var s, i := a + b, |a| + p;
    TagBraces(s, i, word);
    var e := TagEnd(s, i, word).value - |a|;
    SliceBehind(a, b, p, e);
    TagMoves(s, i, word, b, p);
  }

  /** A position has one kind of tag. */
  lemma OneKind(s: string, p: nat, u: string, v: string)
    requires IsTagWord(u) && IsTagWord(v) && p <= |s| && TagEnd(s, p, u).Some? && TagEnd(s, p, v).Some?
    ensures u == v
  {
    var n := p + 2 + Blanks(s[p + 2..]);
    if u != v {
      var k := WordsDiffer(u, v);
      LetterAt(s, n, u, k);
      Differs(s, n, v, k);
    }
  }

  lemma WordsDiffer(u: string, v: string) returns (k: nat)
    requires IsTagWord(u) && IsTagWord(v) && u != v
    ensures k < |u| && k < |v| && u[k] != v[k]
  {
    if u[0] != v[0] {
      k := 0;
    } else if u[1] != v[1] {
      k := 1;
    } else {
      k := 3;
    }
  }

  // ---------------------------------------------------------------------------- One pass

  /** What no block may have inside: an opening tag, or a placeholder of the pass before. */
  predicate Stops(s: string, k: nat)
    requires k <= |s|
  {
    OpensAt(s, k) || At(s, k, MARKER)
  }

  predicate StoppedFirst(s: string, i: nat, word: string) {
    exists c: nat | i <= c <= |s| :: TagEnd(s, c, "end" + word).Some? && forall k: nat | i <= k < c :: !Stops(s, k)
  }

  /** As EachClosed, and before any placeholder. */
  predicate EachStopped(s: string, word: string) {
    forall p: nat | p <= |s| && TagEnd(s, p, word).Some? :: StoppedFirst(s, TagEnd(s, p, word).value, word)
  }

  predicate IsKind(word: string) {
    word == "quiz" || word == "exercise"
  }

  lemma KindWords(word: string)
    ensures IsKind(word) ==> IsTagWord(word) && IsTagWord("end" + word)
    ensures IsTagWord("quiz") && IsTagWord("exercise") && IsTagWord("endexercise") && IsKind("quiz")
            && IsKind("exercise")
  {
  }

  lemma AtBehind(a: string, b: string, k: nat, t: string)
    ensures At(a + b, |a| + k, t) <==> At(b, k, t)
  {
    var s := a + b;
    if k + |t| <= |b| {
      assert s[|a| + k..|a| + k + |t|] == b[k..k + |t|];
    }
  }

  lemma StopsBehind(a: string, b: string, k: nat)
    requires k <= |b|
    ensures Stops(a + b, |a| + k) <==> Stops(b, k)
  {
    KindWords("quiz");
    hide TagEnd, At, IsTagWord;
    TagBehind(a, b, k, "quiz");
    TagBehind(a, b, k, "exercise");
    AtBehind(a, b, k, MARKER);
  }

  lemma StopsStays(a: string, b: string, k: nat)
    requires k <= |a| && Stops(a, k)
    ensures Stops(a + b, k)
  {
    KindWords("quiz");
    if At(a, k, MARKER) {
      assert (a + b)[k..k + |MARKER|] == a[k..k + |MARKER|];
    }
    hide TagEnd, IsTagWord, MARKER;
    if TagEnd(a, k, "quiz").Some? {
      TagStays(a, b, k, "quiz");
    } else if TagEnd(a, k, "exercise").Some? {
      TagStays(a, b, k, "exercise");
    }
  }

  lemma StopsWithin(s: string, i: nat, c: nat, k: nat)
    requires i <= c <= |s| && k <= c - i && Stops(s[i..c], k)
    ensures i + k < c && Stops(s, i + k)
  {
    hide *;
    NoStopAtEnd(s[i..c]);
    SliceParts(s, i, c);
    StopsStays(s[i..c], s[c..], k);
    StopsBehind(s[..i], s[i..], k);
  }

  lemma SliceParts(s: string, i: nat, c: nat)
    requires i <= c <= |s|
    ensures |s[..i]| == i && s[..i] + s[i..] == s && s[i..c] + s[c..] == s[i..]
  {
  }

  lemma NoStopAtEnd(s: string)
    ensures !Stops(s, |s|)
  {
    Differs(s, |s|, "{%", 0);
    Differs(s, |s|, MARKER, 0);
  }

  lemma StoppedTail(a: string, b: string, word: string)
    requires IsKind(word) && EachStopped(a + b, word)
    ensures EachStopped(b, word)
  {
    KindWords(word);
    hide TagEnd, IsTagWord, Stops, IsKind;
    var s := a + b;
    forall p: nat | p <= |b| && TagEnd(b, p, word).Some? ensures StoppedFirst(b, TagEnd(b, p, word).value, word) {
      TagBehind(a, b, p, word);
      var e := TagEnd(b, p, word).value;
      var c: nat :| |a| + e <= c <= |s| && TagEnd(s, c, "end" + word).Some?
        && forall k: nat | |a| + e <= k < c :: !Stops(s, k);
      TagBehind(a, b, c - |a|, "end" + word);
      forall k: nat | e <= k < c - |a| ensures !Stops(b, k) {
        StopsBehind(a, b, k);
      }
    }
  }

  predicate NoneOf(s: string, word: string) {
    forall k: nat | k <= |s| :: TagEnd(s, k, word).None?
  }

  /** No text between the holes has a tag of this word. */
  predicate TextsLackTag<T>(w: Weave<T>, word: string) {
    match w
    case End(t) => NoneOf(t, word)
    case More(t, _, rest) => NoneOf(t, word) && TextsLackTag(rest, word)
  }

  predicate Quiet(s: string) {
    forall k: nat | k <= |s| :: !Stops(s, k)
  }

  predicate InnersQuiet(blocks: seq<Block>) {
    forall j | 0 <= j < |blocks| :: Quiet(blocks[j].inner)
  }

  /** The tags of a block that was found. */
  lemma Found(s: string, word: string)
    requires FindBlock(s, word).Some?
    ensures var Span(o, i, c, e) := FindBlock(s, word).value;
            && TagEnd(s, o, word) == Some(i) && TagEnd(s, c, "end" + word) == Some(e)
            && (forall k: nat | k < o :: TagEnd(s, k, word).None?)
            && (forall k: nat | i <= k < c :: TagEnd(s, k, "end" + word).None?)
  {
    hide TagEnd, FindTag;
  }

  lemma SpanQuiet(s: string, word: string, i: nat, c: nat)
    requires i <= c <= |s| && StoppedFirst(s, i, word) && forall k: nat | i <= k < c :: TagEnd(s, k, "end" + word).None?
    ensures Quiet(s[i..c])
  {
    hide TagEnd, Stops;
    forall k: nat | k <= c - i ensures !Stops(s[i..c], k) {
      if Stops(s[i..c], k) {
        StopsWithin(s, i, c, k);
      }
    }
  }

  lemma FoundQuiet(s: string, word: string)
    requires EachStopped(s, word) && FindBlock(s, word).Some?
    ensures var Span(o, i, c, e) := FindBlock(s, word).value; Quiet(s[i..c])
  {
    hide TagEnd, FindBlock, StoppedFirst, Quiet;
    Found(s, word);
    var Span(o, i, c, e) := FindBlock(s, word).value;
    SpanQuiet(s, word, i, c);
  }

  lemma FrontLacks(s: string, o: nat, word: string)
    requires IsKind(word) && o <= |s| && forall k: nat | k < o :: TagEnd(s, k, word).None?
    ensures NoneOf(s[..o], word)
  {
    KindWords(word);
    hide TagEnd, IsTagWord;
    assert s[..o] + s[o..] == s;
    forall k: nat | k <= o ensures TagEnd(s[..o], k, word).None? {
      if TagEnd(s[..o], k, word).Some? {
        TagBraces(s[..o], k, word);
        TagStays(s[..o], s[o..], k, word);
      }
    }
  }

  lemma NotClosed(s: string, word: string)
    requires FindBlock(s, word).None? && FindTag(s, 0, word) <= |s|
    ensures !EachStopped(s, word)
  {
    hide TagEnd, Stops;
    assert !StoppedFirst(s, TagEnd(s, FindTag(s, 0, word), word).value, word);
  }

  lemma NotFound(s: string, word: string)
    requires EachStopped(s, word) && FindBlock(s, word).None?
    ensures NoneOf(s, word)
  {
    hide TagEnd, Stops, EachStopped;
    if FindTag(s, 0, word) <= |s| {
      NotClosed(s, word);
    }
  }

  /** In text where each tag of a kind is closed first, the pass takes them all, and each for itself. */
  lemma {:induction false} OnePass(s: string, word: string)
    requires IsKind(word) && EachStopped(s, word)
    ensures TextsLackTag(Cut(s, word), word) && InnersQuiet(Holes(Cut(s, word)))
    decreases |s|
  {
    hide FindBlock, TagEnd, NoneOf, EachStopped, Quiet, IsKind;
    if FindBlock(s, word).None? {
      NotFound(s, word);
    } else {
      var Span(o, i, c, e) := FindBlock(s, word).value;
      Found(s, word);
      FoundQuiet(s, word);
      FrontLacks(s, o, word);
      assert s[..e] + s[e..] == s;
      StoppedTail(s[..e], s[e..], word);
      OnePass(s[e..], word);
      assert Holes(Cut(s, word)) == [Block(s[o..e], s[i..c])] + Holes(Cut(s[e..], word));
    }
  }

  // ---------------------------------------------------------------------------- From pass to pass

  lemma TokenLineStops(k: nat, r: string)
    ensures Stopper(TokenLine(k) + r) && Free(TokenLine(k), '{') && TokenLine(k) != ""
  {
    TokenPlain(k);
    hide Token;
    assert (TokenLine(k) + r)[1] == Token(k)[0];
  }

  /** A tag lies before a placeholder or after it. */
  lemma ThroughToken(t: string, k: nat, r: string, p: nat, word: string)
    requires IsTagWord(word) && p <= |t + TokenLine(k) + r| && TagEnd(t + TokenLine(k) + r, p, word).Some?
    ensures var e, m := TagEnd(t + TokenLine(k) + r, p, word).value, |t| + |TokenLine(k)|;
            || (p < |t| && TagEnd(t, p, word) == Some(e))
            || (m <= p && m <= e && TagEnd(r, p - m, word) == Some(e - m))
  {
    TokenLineStops(k, r);
    var line := TokenLine(k);
    hide TagEnd, TokenLine, IsTagWord, Stopper;
    Associate(t, line, r);
    var s := t + line + r;
    assert forall k | |t| <= k < |t| + |line| :: s[k] == line[k - |t|];
    TagBraces(s, p, word);
    if p < |t| {
      TagInFront(t, line + r, p, word);
    } else {
      TagBack(t + line, r, p - |t| - |line|, word);
    }
  }

  lemma {:induction false} QuietSpell(w: Weave<nat>, n: nat, word: string)
    requires IsTagWord(word) && Below(w, n) && TextsLackTag(w, word)
    ensures NoneOf(Spell(w, TokenLines(n)), word)
    decreases w
  {
    if w.More? {
      BelowRest(w, n);
      QuietSpell(w.rest, n, word);
      var r := Spell(w.rest, TokenLines(n));
      var s := w.text + TokenLine(w.hole) + r;
      assert Fill(TokenLines(n), w.hole) == TokenLine(w.hole);
      SpellMore(w.text, w.hole, w.rest, TokenLines(n));
      assert Spell(w, TokenLines(n)) == s;
      hide TagEnd, Spell, TokenLine, IsTagWord;
      forall p: nat | p <= |s| ensures TagEnd(s, p, word).None? {
        if TagEnd(s, p, word).Some? {
          ThroughToken(w.text, w.hole, r, p, word);
        }
      }
    }
  }

  /** What stops a block in t stops it there, whatever follows t. */
  lemma StopsHere(t: string, x: string, y: string, c: nat, k: nat)
    requires Stopper(x) && k < c < |t| && t[c] == '{' && Stops(t + x, k)
    ensures Stops(t + y, k)
  {
    KindWords("quiz");
    if At(t + x, k, MARKER) {
      MarkerBefore(t, x, y, c, k);
    }
    hide TagEnd, IsTagWord, MARKER, Stopper, At;
    if TagEnd(t + x, k, "quiz").Some? {
      TagInFront(t, x, k, "quiz");
      TagStays(t, y, k, "quiz");
    } else if TagEnd(t + x, k, "exercise").Some? {
      TagInFront(t, x, k, "exercise");
      TagStays(t, y, k, "exercise");
    }
  }

  /** No placeholder holds a brace. */
  lemma MarkerBefore(t: string, x: string, y: string, c: nat, k: nat)
    requires k < c < |t| && t[c] == '{' && At(t + x, k, MARKER)
    ensures k + |MARKER| <= c && At(t + y, k, MARKER)
  {
    MarkerPlain();
    hide MARKER;
    if k + |MARKER| > c {
      LetterAt(t + x, k, MARKER, c - k);
    }
    assert (t + x)[k..k + |MARKER|] == t[k..k + |MARKER|] == (t + y)[k..k + |MARKER|];
  }

  lemma CloserBefore(t: string, x: string, e: nat, c: nat)
    requires Stopper(x) && TagEnd(x, 0, "quiz").Some? && e <= |t| && e <= c <= |t + x|
    requires TagEnd(t + x, c, "endexercise").Some? && forall k: nat | e <= k < c :: !Stops(t + x, k)
    ensures c < |t| && TagEnd(t, c, "endexercise").Some? && t[c] == '{'
  {
    KindWords("exercise");
    hide TagEnd, IsTagWord, Stopper;
    TagBehind(t, x, 0, "quiz");
    assert Stops(t + x, |t|);
    hide Stops;
    assert c <= |t|;
    if c == |t| {
      OneKind(t + x, c, "endexercise", "quiz");
    }
    TagInFront(t, x, c, "endexercise");
    TagBraces(t, c, "endexercise");
  }

  lemma StoppedElsewhere(t: string, x: string, y: string, e: nat, c: nat)
    requires Stopper(y) && e <= c < |t| && TagEnd(t, c, "endexercise").Some? && t[c] == '{'
    requires forall k: nat | e <= k < c :: !Stops(t + x, k)
    ensures StoppedFirst(t + y, e, "exercise")
  {
    KindWords("exercise");
    TagStays(t, y, c, "endexercise");
    hide TagEnd, IsTagWord, Stopper, Stops;
    forall k: nat | e <= k < c ensures !Stops(t + y, k) {
      if Stops(t + y, k) {
        StopsHere(t, y, x, c, k);
      }
    }
    assert TagEnd(t + y, c, "end" + "exercise").Some?;
  }

  /** Where a quiz opens next, what closes an exercise is before it, so that another text may follow. */
  lemma FrontStopped(t: string, x: string, y: string, e: nat)
    requires Stopper(x) && Stopper(y) && TagEnd(x, 0, "quiz").Some? && e <= |t| && StoppedFirst(t + x, e, "exercise")
    ensures StoppedFirst(t + y, e, "exercise")
  {
    hide TagEnd, Stopper, Stops;
    var c: nat :| e <= c <= |t + x| && TagEnd(t + x, c, "end" + "exercise").Some?
      && forall k: nat | e <= k < c :: !Stops(t + x, k);
    assert "end" + "exercise" == "endexercise";
    hide StoppedFirst;
    CloserBefore(t, x, e, c);
    StoppedElsewhere(t, x, y, e, c);
  }

  lemma StoppedForth(a: string, b: string, i: nat, word: string)
    requires IsKind(word) && StoppedFirst(b, i, word)
    ensures StoppedFirst(a + b, |a| + i, word)
  {
    KindWords(word);
    hide TagEnd, IsTagWord, Stops, IsKind;
    var c: nat :| i <= c <= |b| && TagEnd(b, c, "end" + word).Some? && forall k: nat | i <= k < c :: !Stops(b, k);
    TagBehind(a, b, c, "end" + word);
    forall k: nat | |a| + i <= k < |a| + c ensures !Stops(a + b, k) {
      StopsBehind(a, b, k - |a|);
    }
  }

  /** The text of a quiz. */
  predicate QuizText(raw: string) {
    raw != "" && TagEnd(raw, 0, "quiz").Some?
  }

  lemma QuizStops(raw: string, r: string)
    requires QuizText(raw)
    ensures Stopper(raw + r) && TagEnd(raw + r, 0, "quiz").Some?
  {
    KindWords("quiz");
    TagBraces(raw, 0, "quiz");
    hide TagEnd;
    TagStays(raw, r, 0, "quiz");
  }

  lemma TransferOne(t: string, raw: string, r: string, k: nat, v: string)
    requires QuizText(raw) && EachStopped(t + raw + r, "exercise") && EachStopped(v, "exercise")
    ensures EachStopped(t + TokenLine(k) + v, "exercise")
  {
    KindWords("exercise");
    QuizStops(raw, r);
    TokenLineStops(k, v);
    var s, line := t + TokenLine(k) + v, TokenLine(k);
    hide TagEnd, IsTagWord, Stopper, TokenLine, StoppedFirst, QuizText, IsKind;
    Associate(t, raw, r);
    Associate(t, line, v);
    forall p: nat | p <= |s| && TagEnd(s, p, "exercise").Some?
      ensures StoppedFirst(s, TagEnd(s, p, "exercise").value, "exercise") {
      var e, m := TagEnd(s, p, "exercise").value, |t + line|;
      ThroughToken(t, k, v, p, "exercise");
      if p < |t| && TagEnd(t, p, "exercise") == Some(e) {
        TagBraces(t, p, "exercise");
        TagStays(t, raw + r, p, "exercise");
        FrontStopped(t, raw + r, line + v, e);
      } else {
        StoppedForth(t + line, v, e - m, "exercise");
      }
    }
  }

  /** With the quizzes taken out, exercises are still closed first, and no placeholder is inside one. */
  lemma {:induction false} Transfer(w: Weave<nat>, raws: seq<string>)
    requires Below(w, |raws|) && (forall k | 0 <= k < |raws| :: QuizText(raws[k]))
             && EachStopped(Spell(w, raws), "exercise")
    ensures EachStopped(Spell(w, TokenLines(|raws|)), "exercise")
    decreases w
  {
    if w.More? {
      var n := |raws|;
      BelowRest(w, n);
      assert Fill(TokenLines(n), w.hole) == TokenLine(w.hole) && Fill(raws, w.hole) == raws[w.hole];
      SpellMore(w.text, w.hole, w.rest, raws);
      SpellMore(w.text, w.hole, w.rest, TokenLines(n));
      hide Spell, EachStopped, QuizText, TokenLine, TokenLines, Below, Fill;
      StoppedTail(w.text + raws[w.hole], Spell(w.rest, raws), "exercise");
      Transfer(w.rest, raws);
      TransferOne(w.text, raws[w.hole], Spell(w.rest, raws), w.hole, Spell(w.rest, TokenLines(n)));
    }
  }

  // ---------------------------------------------------------------------------- Where the holes are

  /** The text of a block: from its opening tag to the end of its closing one. */
  predicate BlockAt(raw: string, inner: string, word: string, i: nat, c: nat) {
    && i <= c <= |raw| && TagEnd(raw, 0, word) == Some(i) && raw[i..c] == inner
       && TagEnd(raw, c, "end" + word) == Some(|raw|)
  }

  ghost predicate BlockText(b: Block, word: string) {
    exists i: nat, c: nat :: BlockAt(b.raw, b.inner, word, i, c)
  }

  ghost predicate BlockTextsOf(blocks: seq<Block>, word: string) {
    forall j | 0 <= j < |blocks| :: BlockText(blocks[j], word)
  }

  lemma SpanText(s: string, word: string, o: nat, i: nat, c: nat, e: nat)
    requires IsKind(word) && o <= i <= c <= e <= |s|
    requires TagEnd(s, o, word) == Some(i) && TagEnd(s, c, "end" + word) == Some(e)
    ensures BlockAt(s[o..e], s[i..c], word, i - o, c - o)
  {
    hide *;
    KindWords(word);
    TagInSlice(s, o, o, i, e, word);
    TagInSlice(s, o, c, e, e, "end" + word);
    SubSlice(s, o, i, c, e);
    BlockIs(s[o..e], s[i..c], word, i - o, c - o);
  }

  lemma BlockIs(raw: string, inner: string, word: string, i: nat, c: nat)
    requires i <= c <= |raw| && TagEnd(raw, 0, word) == Some(i) && raw[i..c] == inner
    requires TagEnd(raw, c, "end" + word) == Some(|raw|)
    ensures BlockAt(raw, inner, word, i, c)
  {
    hide TagEnd;
  }

  lemma TagInSlice(s: string, o: nat, i: nat, c: nat, e: nat, word: string)
    requires IsTagWord(word) && o <= i <= c <= e <= |s| && TagEnd(s, i, word) == Some(c)
    ensures TagEnd(s[o..e], i - o, word) == Some(c - o)
  {
    hide *;
    SubSlice(s, o, i, c, e);
    TagTo(s, i, c, s[o..e], i - o, c - o, word);
  }

  lemma SubSlice(s: string, o: nat, i: nat, c: nat, e: nat)
    requires o <= i <= c <= e <= |s|
    ensures s[o..e][i - o..c - o] == s[i..c]
  {
    var a, b := s[o..e][i - o..c - o], s[i..c];
    assert |a| == |b| && forall k | 0 <= k < |a| :: a[k] == s[i + k] == b[k];
  }

  lemma {:induction false} CutTexts(s: string, word: string)
    requires IsKind(word)
    ensures BlockTextsOf(Holes(Cut(s, word)), word)
    decreases |s|
  {
    hide FindBlock, IsKind, TagEnd, BlockAt;
    if FindBlock(s, word).Some? {
      var Span(o, i, c, e) := FindBlock(s, word).value;
      Found(s, word);
      SpanText(s, word, o, i, c, e);
      assert BlockText(Block(s[o..e], s[i..c]), word);
      CutTexts(s[e..], word);
      assert Holes(Cut(s, word)) == [Block(s[o..e], s[i..c])] + Holes(Cut(s[e..], word));
    }
  }

  /** An opening tag at its start, and none after it. */
  predicate OnlyFirst(raw: string) {
    && |raw| > 0 && raw[0] == '{' && raw[|raw| - 1] == '}'
    && forall p: nat | 0 < p <= |raw| :: !OpensAt(raw, p)
  }

  lemma BlockBraces(raw: string, inner: string, word: string, i: nat, c: nat)
    requires IsKind(word) && BlockAt(raw, inner, word, i, c)
    ensures 0 < i <= c < |raw| && raw[0] == '{' && raw[|raw| - 1] == '}' && raw[c] == '{'
    ensures forall p | 0 < p < i || c < p < |raw| :: raw[p] != '{' && raw[p] != '<'
    ensures |inner| == c - i && inner == raw[i..c]
  {
    KindWords(word);
    TagBraces(raw, 0, word);
    TagBraces(raw, c, "end" + word);
    hide TagEnd, IsTagWord, IsKind;
  }

  lemma ClosesNothing(word: string, other: string)
    ensures IsKind(word) && IsKind(other) ==> "end" + word != other
  {
    assert ("end" + word)[1] == 'n' && "quiz"[1] == 'u' && "exercise"[1] == 'x';
  }

  lemma TagBetween(raw: string, inner: string, word: string, i: nat, c: nat, p: nat, other: string)
    requires IsKind(word) && IsKind(other) && BlockAt(raw, inner, word, i, c)
    requires 0 < p <= |raw| && TagEnd(raw, p, other).Some?
    ensures i <= p < TagEnd(raw, p, other).value <= c
  {
    KindWords(word);
    KindWords(other);
    BlockBraces(raw, inner, word, i, c);
    TagBraces(raw, p, other);
    ClosesNothing(word, other);
    assert TagEnd(raw, c, "end" + word).Some?;
    hide TagEnd, IsTagWord, IsKind, BlockAt;
    if p == c {
      OneKind(raw, p, "end" + word, other);
    }
  }

  lemma TagInner(raw: string, inner: string, word: string, i: nat, c: nat, p: nat, other: string)
    requires IsKind(word) && IsKind(other) && BlockAt(raw, inner, word, i, c)
    requires 0 < p <= |raw| && TagEnd(raw, p, other).Some?
    ensures i <= p <= c && |inner| == c - i && TagEnd(inner, p - i, other).Some?
  {
    hide *;
    KindWords(other);
    BlockBraces(raw, inner, word, i, c);
    TagBetween(raw, inner, word, i, c, p, other);
    TagInSlice(raw, i, p, TagEnd(raw, p, other).value, c, other);
  }

  lemma OpensInner(raw: string, inner: string, word: string, i: nat, c: nat, p: nat)
    requires IsKind(word) && BlockAt(raw, inner, word, i, c) && 0 < p <= |raw| && OpensAt(raw, p)
    ensures !Quiet(inner)
  {
    KindWords(word);
    var other := if TagEnd(raw, p, "quiz").Some? then "quiz" else "exercise";
    assert TagEnd(raw, p, other).Some? && IsKind(other);
    BlockBraces(raw, inner, word, i, c);
    TagInner(raw, inner, word, i, c, p, other);
    hide BlockAt, TagEnd, IsTagWord;
    assert Stops(inner, p - i);
  }

  lemma MarkerBetween(raw: string, inner: string, word: string, i: nat, c: nat, p: nat)
    requires IsKind(word) && BlockAt(raw, inner, word, i, c) && p <= |raw| && At(raw, p, MARKER)
    ensures i <= p && p + |MARKER| <= c <= |raw| && inner == raw[i..c] && raw[p..p + |MARKER|] == MARKER
  {
    BlockBraces(raw, inner, word, i, c);
    MarkerPlain();
    LetterAt(raw, p, MARKER, 0);
    assert |MARKER| > 0;
    hide TagEnd, MARKER, IsKind, BlockAt;
    if p + |MARKER| > c && p <= c {
      LetterAt(raw, p, MARKER, c - p);
    }
  }

  lemma MarkerInner(raw: string, inner: string, word: string, i: nat, c: nat, p: nat)
    requires IsKind(word) && BlockAt(raw, inner, word, i, c) && p <= |raw| && At(raw, p, MARKER)
    ensures !Quiet(inner)
  {
    hide *;
    MarkerBetween(raw, inner, word, i, c, p);
    SubSlice(raw, i, p, p + |MARKER|, c);
    MarkerStops(inner, p - i);
  }

  lemma MarkerStops(s: string, k: nat)
    requires k + |MARKER| <= |s| && s[k..k + |MARKER|] == MARKER
    ensures !Quiet(s)
  {
    assert Stops(s, k);
  }

  lemma QuietBlock(b: Block, word: string)
    requires IsKind(word) && BlockText(b, word) && Quiet(b.inner)
    ensures OnlyFirst(b.raw) && !Marked(b.raw)
  {
    hide BlockAt, Quiet, OpensAt, At, MARKER, IsKind;
    var raw, inner := b.raw, b.inner;
    var i: nat, c: nat :| BlockAt(raw, inner, word, i, c);
    BlockBraces(raw, inner, word, i, c);
    forall p: nat | 0 < p <= |raw| ensures !OpensAt(raw, p) {
      if OpensAt(raw, p) {
        OpensInner(raw, inner, word, i, c, p);
      }
    }
    forall p: nat | p <= |raw| ensures !At(raw, p, MARKER) {
      if At(raw, p, MARKER) {
        MarkerInner(raw, inner, word, i, c, p);
      }
    }
  }

  lemma {:induction false} HoleStartsFrom(w: Weave<nat>, fills: seq<string>, from: nat)
    ensures forall q | q in HoleStarts(w, fills, from) :: from <= q
    decreases w
  {
    if w.More? {
      HoleStartsFrom(w.rest, fills, from + |w.text| + |Fill(fills, w.hole)|);
    }
  }

  lemma TagInRaw(raw: string, r: string, p: nat, word: string)
    requires IsTagWord(word) && p < |raw| && raw[|raw| - 1] == '}' && TagEnd(raw + r, p, word).Some?
    ensures TagEnd(raw, p, word).Some?
  {
    assert (raw + r)[|raw| - 1] == '}';
    TagBraces(raw + r, p, word);
    var e := TagEnd(raw + r, p, word).value;
    hide TagEnd, IsTagWord;
    assert (raw + r)[p..e] == raw[p..e];
    TagMoves(raw + r, p, word, raw, p);
  }

  /** A tag in text made of a stretch without one, a block, and more. */
  lemma ThroughBlock(t: string, raw: string, r: string, p: nat, word: string)
    requires IsKind(word) && NoneOf(t, word) && OnlyFirst(raw)
    requires p <= |t + raw + r| && TagEnd(t + raw + r, p, word).Some?
    ensures p == |t| || (|t| + |raw| <= p && TagEnd(r, p - |t| - |raw|, word).Some?)
  {
    KindWords(word);
    Associate(t, raw, r);
    hide TagEnd, IsTagWord, OpensAt;
    if p < |t| {
      TagInFront(t, raw + r, p, word);
    } else if p >= |t| + |raw| {
      TagBehind(t + raw, r, p - |t| - |raw|, word);
    } else if p > |t| {
      TagBehind(t, raw + r, p - |t|, word);
      TagInRaw(raw, r, p - |t|, word);
      InsideOpens(raw, p - |t|, word);
    }
  }

  lemma InsideOpens(s: string, p: nat, word: string)
    requires IsKind(word) && p <= |s| && TagEnd(s, p, word).Some?
    ensures OpensAt(s, p)
  {
  }

  lemma {:induction false} OpeningIsHole(w: Weave<nat>, fills: seq<string>, from: nat, p: nat, word: string)
    requires IsKind(word) && Below(w, |fills|) && (forall k | 0 <= k < |fills| :: OnlyFirst(fills[k]))
             && TextsLackTag(w, word)
    requires p <= |Spell(w, fills)| && TagEnd(Spell(w, fills), p, word).Some?
    ensures from + p in HoleStarts(w, fills, from)
    decreases w
  {
    hide TagEnd, OnlyFirst, IsKind;
    if w.More? {
      BelowRest(w, |fills|);
      var raw, r := fills[w.hole], Spell(w.rest, fills);
      SpellMore(w.text, w.hole, w.rest, fills);
      ThroughBlock(w.text, raw, r, p, word);
      if p != |w.text| {
        OpeningIsHole(w.rest, fills, from + |w.text| + |raw|, p - |w.text| - |raw|, word);
      }
    }
  }

  /** No start lies within the n characters from p on. */
  predicate Clear(starts: set<nat>, p: nat, n: nat) {
    forall q | q in starts :: q <= p || p + n <= q
  }

  lemma ClearMore(first: nat, rest: set<nat>, p: nat, n: nat)
    requires Clear(rest, p, n) && first <= p
    ensures Clear({first} + rest, p, n)
  {
  }

  lemma StartsMore(t: string, k: nat, rest: Weave<nat>, fills: seq<string>, from: nat)
    requires k < |fills|
    ensures HoleStarts(More(t, k, rest), fills, from) == {from + |t|} + HoleStarts(rest, fills, from + |t| + |fills[k]|)
    ensures Clear(HoleStarts(More(t, k, rest), fills, from), from + |t|, |fills[k]|)
  {
    HoleStartsFrom(rest, fills, from + |t| + |fills[k]|);
  }

  /** In w, hole k is at p, and no other begins inside its fill. */
  predicate HoleAt(w: Weave<nat>, fills: seq<string>, from: nat, p: nat, k: nat) {
    && k < |fills| && from <= p && At(Spell(w, fills), p - from, fills[k])
    && Clear(HoleStarts(w, fills, from), p, |fills[k]|)
  }

  lemma HoleFirst(t: string, k: nat, rest: Weave<nat>, fills: seq<string>, from: nat)
    requires k < |fills|
    ensures HoleAt(More(t, k, rest), fills, from, from + |t|, k)
  {
    StartsMore(t, k, rest, fills, from);
    SpellFilled(t, k, rest, fills);
    hide Spell, HoleStarts, Clear, At;
    FillAt(t, fills[k], Spell(rest, fills));
  }

  lemma HoleLater(t: string, h: nat, rest: Weave<nat>, fills: seq<string>, from: nat, p: nat, k: nat)
    requires h < |fills| && HoleAt(rest, fills, from + |t| + |fills[h]|, p, k)
    ensures HoleAt(More(t, h, rest), fills, from, p, k)
  {
    var next := from + |t| + |fills[h]|;
    StartsMore(t, h, rest, fills, from);
    SpellFilled(t, h, rest, fills);
    hide Spell, HoleStarts, Clear, At;
    AtLater(t, fills[h], Spell(rest, fills), p - next, fills[k]);
    ClearMore(from + |t|, HoleStarts(rest, fills, next), p, |fills[k]|);
  }

  /** Where a hole is, its fill is; and the next hole is after it. */
  lemma {:induction false} HoleHas(w: Weave<nat>, fills: seq<string>, from: nat, p: nat) returns (k: nat)
    requires Below(w, |fills|) && p in HoleStarts(w, fills, from)
    ensures HoleAt(w, fills, from, p, k)
    decreases w
  {
    BelowRest(w, |fills|);
    var text, h, rest := w.text, w.hole, w.rest;
    StartsMore(text, h, rest, fills, from);
    hide Below, HoleAt, HoleStarts, Clear;
    if p == from + |text| {
      k := h;
      HoleFirst(text, h, rest, fills, from);
    } else {
      k := HoleHas(rest, fills, from + |text| + |fills[h]|, p);
      HoleLater(text, h, rest, fills, from, p, k);
    }
  }

  lemma SpellFilled(t: string, k: nat, rest: Weave<nat>, fills: seq<string>)
    requires k < |fills|
    ensures Spell(More(t, k, rest), fills) == t + fills[k] + Spell(rest, fills)
  {
  }

  lemma AtLater(t: string, fill: string, r: string, p: nat, x: string)
    requires At(r, p, x)
    ensures At(t + fill + r, |t| + |fill| + p, x)
  {
    AtBehind(t + fill, r, p, x);
  }

  lemma FillAt(t: string, fill: string, r: string)
    ensures At(t + fill + r, |t|, fill)
  {
    assert (t + fill + r)[|t|..|t| + |fill|] == fill;
  }

  lemma {:induction false} TextsOfQuiet(w: Weave<nat>, fills: seq<string>, word: string)
    requires IsTagWord(word) && NoneOf(Spell(w, fills), word)
    ensures TextsLackTag(w, word)
    decreases w
  {
    if w.More? {
      var fill, r := Fill(fills, w.hole), Spell(w.rest, fills);
      SpellMore(w.text, w.hole, w.rest, fills);
      Associate(w.text, fill, r);
      hide TagEnd, Spell, IsTagWord, Fill;
      var s := w.text + fill + r;
      forall p: nat | p <= |w.text| ensures TagEnd(w.text, p, word).None? {
        if TagEnd(w.text, p, word).Some? {
          TagStays(w.text, fill + r, p, word);
        }
      }
      forall p: nat | p <= |r| ensures TagEnd(r, p, word).None? {
        TagBehind(w.text + fill, r, p, word);
        assert TagEnd(s, |w.text + fill| + p, word).None?;
      }
      TextsOfQuiet(w.rest, fills, word);
    }
  }

  // ---------------------------------------------------------------------------- The lesson

  lemma ClosedIsStopped(s: string, word: string)
    requires !Marked(s) && EachClosed(s, word)
    ensures EachStopped(s, word)
  {
    hide TagEnd, OpensAt, At;
    forall p: nat | p <= |s| && TagEnd(s, p, word).Some? ensures StoppedFirst(s, TagEnd(s, p, word).value, word) {
      var e := TagEnd(s, p, word).value;
      assert ClosedFirst(s, e, word);
    }
  }

  lemma {:induction false} NumberedTexts<T>(w: Weave<T>, k: nat, word: string)
    requires TextsLackTag(w, word)
    ensures TextsLackTag(Numbered(w, k), word)
    decreases w
  {
    hide NoneOf;
    if w.More? {
      NumberedTexts(w.rest, k + 1, word);
    }
  }

  lemma {:induction false} TextsNumbered<T>(w: Weave<T>, k: nat, word: string)
    requires TextsLackTag(Numbered(w, k), word)
    ensures TextsLackTag(w, word)
    decreases w
  {
    hide NoneOf;
    if w.More? {
      TextsNumbered(w.rest, k + 1, word);
    }
  }

  /** The first pass: every quiz is taken, no quiz tag is left, and exercises are still closed first. */
  lemma FirstPass(body: string)
    requires EachStopped(body, "quiz") && EachStopped(body, "exercise")
    ensures BlockTextsOf(Quizzes(body), "quiz") && InnersQuiet(Quizzes(body))
    ensures NoneOf(WithoutQuizzes(body), "quiz") && EachStopped(WithoutQuizzes(body), "exercise")
  {
    hide *;
    KindWords("quiz");
    OnePass(body, "quiz");
    CutTexts(body, "quiz");
    FirstPassQuiet(body);
    FirstPassStopped(body);
    QuizzesAre(body);
  }

  lemma QuizzesAre(body: string)
    ensures Quizzes(body) == Holes(Cut(body, "quiz"))
    ensures Exercises(body) == Holes(Cut(WithoutQuizzes(body), "exercise"))
  {
  }

  lemma FirstPassQuiet(body: string)
    requires TextsLackTag(Cut(body, "quiz"), "quiz")
    ensures NoneOf(WithoutQuizzes(body), "quiz")
  {
    var w := Numbered(Cut(body, "quiz"), 0);
    KindWords("quiz");
    hide Spell, Cut, Holes, TokenLines, Below, NoneOf, IsTagWord, TextsLackTag, Numbered;
    NumberedBelow(Cut(body, "quiz"), 0);
    NumberedTexts(Cut(body, "quiz"), 0, "quiz");
    QuietSpell(w, |Quizzes(body)|, "quiz");
  }

  lemma FirstPassStopped(body: string)
    requires BlockTextsOf(Holes(Cut(body, "quiz")), "quiz") && EachStopped(body, "exercise")
    ensures EachStopped(WithoutQuizzes(body), "exercise")
  {
    var w, raws := Numbered(Cut(body, "quiz"), 0), Raws(Quizzes(body));
    CutSpells(body, "quiz", []);
    assert [] + raws == raws;
    forall k | 0 <= k < |raws| ensures QuizText(raws[k]) {
      assert BlockText(Holes(Cut(body, "quiz"))[k], "quiz");
      hide TagEnd, Cut, Holes;
      var i: nat, c: nat :| BlockAt(raws[k], Holes(Cut(body, "quiz"))[k].inner, "quiz", i, c);
      KindWords("quiz");
      BlockBraces(raws[k], Holes(Cut(body, "quiz"))[k].inner, "quiz", i, c);
    }
    hide Spell, Cut, Holes, TokenLines, Below, EachStopped, Numbered, QuizText;
    NumberedBelow(Cut(body, "quiz"), 0);
    Transfer(w, raws);
  }

  lemma {:induction false} NoneNestedQuiet(cuts: Weave<Block>, word: string)
    requires IsKind(word) && BlockTextsOf(Holes(cuts), word) && InnersQuiet(Holes(cuts))
    ensures NoneNested(cuts)
    decreases cuts
  {
    hide BlockText, Quiet, IsKind, Marked;
    if cuts.More? {
      assert Holes(cuts)[0] == cuts.hole && Holes(cuts)[1..] == Holes(cuts.rest);
      assert forall j | 0 <= j < |Holes(cuts.rest)| :: Holes(cuts.rest)[j] == Holes(cuts)[j + 1];
      QuietBlock(cuts.hole, word);
      NoneNestedQuiet(cuts.rest, word);
    }
  }

  /** The second pass: every exercise is taken, and no tag is left. */
  lemma LastPass(body: string)
    requires NoneOf(WithoutQuizzes(body), "quiz") && EachStopped(WithoutQuizzes(body), "exercise")
    ensures BlockTextsOf(Exercises(body), "exercise") && InnersQuiet(Exercises(body)) && NoQuizInExercise(body)
    ensures NoneOf(WithoutBlocks(body), "quiz") && NoneOf(WithoutBlocks(body), "exercise")
  {
    hide *;
    var v := WithoutQuizzes(body);
    KindWords("exercise");
    OnePass(v, "exercise");
    CutTexts(v, "exercise");
    NoneNestedQuiet(Cut(v, "exercise"), "exercise");
    QuizzesAre(body);
    NoQuizIs(body);
    TextsLackOther(v);
    LeftQuiet(body, "quiz");
    LeftQuiet(body, "exercise");
  }

  lemma NoQuizIs(body: string)
    ensures NoQuizInExercise(body) <==> NoneNested(Cut(WithoutQuizzes(body), "exercise"))
  {
  }

  lemma TextsLackOther(v: string)
    requires NoneOf(v, "quiz")
    ensures TextsLackTag(Cut(v, "exercise"), "quiz")
  {
    KindWords("quiz");
    hide Spell, Cut, Holes, NoneOf, IsTagWord, Numbered, TextsLackTag;
    CutSpells(v, "exercise", []);
    TextsOfQuiet(Numbered(Cut(v, "exercise"), 0), [] + Raws(Holes(Cut(v, "exercise"))), "quiz");
    TextsNumbered(Cut(v, "exercise"), 0, "quiz");
  }

  lemma LeftQuiet(body: string, word: string)
    requires IsKind(word) && TextsLackTag(Cut(WithoutQuizzes(body), "exercise"), word)
    ensures NoneOf(WithoutBlocks(body), word)
  {
    var q, e := |Quizzes(body)|, |Exercises(body)|;
    var cuts := Cut(WithoutQuizzes(body), "exercise");
    KindWords(word);
    hide Spell, Cut, Holes, TokenLines, Below, NoneOf, IsTagWord, IsKind, TextsLackTag, Numbered, WithoutQuizzes;
    NumberedBelow(cuts, q);
    NumberedTexts(cuts, q, word);
    QuietSpell(Numbered(cuts, q), q + e, word);
  }

  lemma TextsQuiet(body: string)
    requires NoneOf(WithoutBlocks(body), "quiz") && NoneOf(WithoutBlocks(body), "exercise")
    ensures TextsLackTag(LayoutOf(body), "quiz") && TextsLackTag(LayoutOf(body), "exercise")
  {
    KindWords("quiz");
    hide Spell, LayoutOf, BlockTexts, WithoutBlocks, NestedIn, Holes, TokenLines, NoneOf, IsTagWord, Count,
         TextsLackTag;
    LayoutMarks(body);
    TextsOfQuiet(LayoutOf(body), TokenLines(|BlockTexts(body)|), "quiz");
    TextsOfQuiet(LayoutOf(body), TokenLines(|BlockTexts(body)|), "exercise");
  }

  lemma RawsOnlyFirst(body: string)
    requires BlockTextsOf(Quizzes(body), "quiz") && InnersQuiet(Quizzes(body))
    requires BlockTextsOf(Exercises(body), "exercise") && InnersQuiet(Exercises(body))
    ensures forall k | 0 <= k < |BlockTexts(body)| :: OnlyFirst(BlockTexts(body)[k])
  {
    KindWords("quiz");
    hide Quizzes, Exercises, BlockText, Quiet, OnlyFirst, IsKind;
    var q := |Quizzes(body)|;
    forall k | 0 <= k < |BlockTexts(body)| ensures OnlyFirst(BlockTexts(body)[k]) {
      if k < q {
        QuietBlock(Quizzes(body)[k], "quiz");
      } else {
        QuietBlock(Exercises(body)[k - q], "exercise");
      }
    }
  }

  /** Where each tag is closed before another opens, each opens a block that is registered, and none is nested. */
  lemma ClosedOpens(body: string)
    requires !Marked(body) && EachClosedFirst(body)
    ensures NoQuizInExercise(body) && EveryTagOpens(body)
  {
    assert EachClosed(body, "quiz") && EachClosed(body, "exercise");
    hide *;
    ClosedIsStopped(body, "quiz");
    ClosedIsStopped(body, "exercise");
    FirstPass(body);
    LastPass(body);
    TextsQuiet(body);
    RawsOnlyFirst(body);
    LayoutBelow(body);
    LayoutSpells(body);
    AllOpen(body);
  }

  lemma AllOpen(body: string)
    requires TextsLackTag(LayoutOf(body), "quiz") && TextsLackTag(LayoutOf(body), "exercise")
    requires (forall k | 0 <= k < |BlockTexts(body)| :: OnlyFirst(BlockTexts(body)[k]))
             && Below(LayoutOf(body), |BlockTexts(body)|)
    requires Spell(LayoutOf(body), BlockTexts(body)) == body
    ensures EveryTagOpens(body)
  {
    KindWords("quiz");
    hide LayoutOf, BlockTexts, TextsLackTag, OnlyFirst, Below, Spell, TagEnd, IsKind, HoleStarts;
    forall p: nat | p <= |body| && OpensAt(body, p) ensures p in HoleStarts(LayoutOf(body), BlockTexts(body), 0) {
      var word := if TagEnd(body, p, "quiz").Some? then "quiz" else "exercise";
      OpeningIsHole(LayoutOf(body), BlockTexts(body), 0, p, word);
    }
  }

  /** The text of a registered block, of either kind. */
  lemma BlockOf(body: string, k: nat) returns (inner: string, word: string, i: nat, c: nat)
    requires k < |BlockTexts(body)|
    ensures IsKind(word) && BlockAt(BlockTexts(body)[k], inner, word, i, c)
  {
    KindWords("quiz");
    CutTexts(body, "quiz");
    CutTexts(WithoutQuizzes(body), "exercise");
    QuizzesAre(body);
    hide Quizzes, Exercises, IsKind, BlockAt, WithoutQuizzes, Cut, Holes;
    var q := |Quizzes(body)|;
    var b := if k < q then Quizzes(body)[k] else Exercises(body)[k - q];
    word := if k < q then "quiz" else "exercise";
    assert BlockText(b, word);
    inner := b.inner;
    i, c :| BlockAt(b.raw, inner, word, i, c);
  }

  predicate NoOpening(s: string, from: nat, to: nat) {
    forall q: nat | from <= q < to :: q <= |s| && !OpensAt(s, q)
  }

  /** A tag that opens a block is closed by the end of it. */
  lemma BlockCloses(body: string, raw: string, inner: string, word: string, i: nat, c: nat, p: nat, other: string)
    requires IsKind(word) && BlockAt(raw, inner, word, i, c) && At(body, p, raw)
    requires IsKind(other) && p <= |body| && TagEnd(body, p, other).Some?
    requires NoOpening(body, p + 1, p + |raw|)
    ensures ClosedFirst(body, TagEnd(body, p, other).value, other)
  {
    hide OpensAt, TagEnd, IsTagWord, IsKind;
    KindWords(word);
    KindWords(other);
    BlockBraces(raw, inner, word, i, c);
    assert body[p..p + |raw|] == raw;
    TagOutSlice(body, p, raw, 0, i, word);
    TagOutSlice(body, p, raw, c, |raw|, "end" + word);
    OneKind(body, p, word, other);
    assert TagEnd(body, p + c, "end" + word).Some?;
  }

  lemma TagOutSlice(s: string, p: nat, raw: string, i: nat, e: nat, word: string)
    requires IsTagWord(word) && i <= e <= |raw| && TagEnd(raw, i, word) == Some(e) && At(s, p, raw)
    ensures p + i <= |s| && TagEnd(s, p + i, word) == Some(p + e)
  {
    hide TagEnd, IsTagWord;
    SubSlice(s, p, p + i, p + e, p + |raw|);
    TagTo(raw, i, e, s, p + i, p + e, word);
  }

  /** And the other way round. */
  lemma OpensClosed(body: string)
    requires NoQuizInExercise(body) && EveryTagOpens(body)
    ensures EachClosedFirst(body)
  {
    hide TagEnd, ClosedFirst, HoleStarts, LayoutOf, BlockTexts, NoQuizInExercise;
    forall p: nat | p <= |body| && TagEnd(body, p, "quiz").Some?
      ensures ClosedFirst(body, TagEnd(body, p, "quiz").value, "quiz") {
      OpensClosedAt(body, p, "quiz");
    }
    forall p: nat | p <= |body| && TagEnd(body, p, "exercise").Some?
      ensures ClosedFirst(body, TagEnd(body, p, "exercise").value, "exercise") {
      OpensClosedAt(body, p, "exercise");
    }
  }

  lemma OpensClosedAt(body: string, p: nat, word: string)
    requires NoQuizInExercise(body) && EveryTagOpens(body) && p <= |body| && IsKind(word) && TagEnd(body, p, word).Some?
    ensures ClosedFirst(body, TagEnd(body, p, word).value, word)
  {
    hide *;
    var w, raws := LayoutOf(body), BlockTexts(body);
    LayoutSpells(body);
    LayoutBelow(body);
    HoleOfOpening(body, p, word);
    var k := HoleHas(w, raws, 0, p);
    HoleIs(w, raws, p, k);
    var inner, other, i, c := BlockOf(body, k);
    NoneInside(body, raws[k], p);
    BlockCloses(body, raws[k], inner, other, i, c, p, word);
  }

  lemma HoleIs(w: Weave<nat>, fills: seq<string>, p: nat, k: nat)
    requires HoleAt(w, fills, 0, p, k)
    ensures k < |fills| && At(Spell(w, fills), p, fills[k]) && Clear(HoleStarts(w, fills, 0), p, |fills[k]|)
  {
    hide At, Spell, HoleStarts, Clear;
  }

  lemma NoneInside(body: string, raw: string, p: nat)
    requires EveryTagOpens(body) && At(body, p, raw)
    requires Clear(HoleStarts(LayoutOf(body), BlockTexts(body), 0), p, |raw|)
    ensures NoOpening(body, p + 1, p + |raw|)
  {
    hide LayoutOf, BlockTexts, HoleStarts, OpensAt;
  }

  lemma HoleOpens(body: string, p: nat)
    requires EveryTagOpens(body) && p <= |body| && OpensAt(body, p)
    ensures p in HoleStarts(LayoutOf(body), BlockTexts(body), 0)
  {
    hide LayoutOf, BlockTexts, HoleStarts, OpensAt;
  }

  lemma HoleOfOpening(body: string, p: nat, word: string)
    requires EveryTagOpens(body) && p <= |body| && IsKind(word) && TagEnd(body, p, word).Some?
    ensures p in HoleStarts(LayoutOf(body), BlockTexts(body), 0)
  {
    InsideOpens(body, p, word);
    HoleOpens(body, p);
  }

  /** Nothing a lesson opens is lost: each opening tag of the source is where a registered block begins, and each
      registered block is on the page once, in the place of its source. */
  ghost predicate ShipsWhole(body: string, htmls: seq<string>) {
    && EveryTagOpens(body)
    && exists page :: SamePlaces(body, htmls, LayoutOf(body), page) && EachOnce(Slots(page), |htmls|)
  }

  /** Exactly which lessons ship whole, of those that compile and have no placeholder of their own: each opening
      tag is closed, before any other opens, and none of the blocks is in a code fence. */
  lemma ShipsWholeIff(x: Setting, body: string, quizzes: seq<Built>, exercises: seq<Built>)
    requires Digests(x) && Compiled(x, body, quizzes, exercises) && !Marked(body)
    ensures ShipsWhole(body, Htmls(quizzes + exercises)) <==> EachClosedFirst(body) && NoBlockInFence(body)
  {
    hide *;
    var htmls := Htmls(quizzes + exercises);
    PageAndStoreAgree(x, body, quizzes, exercises);
    BuiltUnmarked(x, body, quizzes, exercises);
    HtmlCount(quizzes + exercises);
    if EachClosedFirst(body) && NoBlockInFence(body) {
      ClosedOpens(body);
      LessonBlocks(body, htmls);
      ShipsIs(body, htmls);
    }
    if ShipsWhole(body, htmls) {
      ShipsIs(body, htmls);
      OpensClosed(body);
    }
  }

  lemma ShipsIs(body: string, htmls: seq<string>)
    ensures ShipsWhole(body, htmls) <==>
              && EveryTagOpens(body)
              && exists page :: SamePlaces(body, htmls, LayoutOf(body), page) && EachOnce(Slots(page), |htmls|)
  {
  }
}

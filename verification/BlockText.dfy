/** Which parts of a lesson are blocks. */
module BlockText {
  import opened Concatenation
  import opened Options
  import opened Text
  import opened Blocks
  import opened Inlines
  import opened Openings
  import opened PageText
  import opened Trimming

  /** A tag as it is written, with any blanks around its word. */
  function Tag(before: string, word: string, after: string): string {
    "{%" + before + word + after + "%}"
  }

  /** A tag with this word starts after n characters. */
  ghost predicate Starts(s: string, n: nat, word: string) {
    exists a, b, c, rest :: |a| == n && Gap(b) && Gap(c) && s == a + Tag(b, word, c) + rest
  }

  lemma TagParts(a: string, b: string, word: string, c: string, rest: string)
    requires Gap(b) && Gap(c)
    ensures var s, i := a + Tag(b, word, c) + rest, |a|;
            IsTag(s, i, i + |Tag(b, word, c)|, word, |b|, |c|)
  {
    hide *;
    TagShapeIs(b, word, c);
    GapBlank(b);
    GapBlank(c);
    Placed(a, Tag(b, word, c), rest);
    Shifted(a + Tag(b, word, c) + rest, |a|, Tag(b, word, c), b, word, c);
  }

  lemma GapBlank(b: string)
    ensures Gap(b) ==> forall k | 0 <= k < |b| :: IsBlank(b[k])
  {
  }

  lemma Placed(a: string, t: string, rest: string)
    ensures var s, i := a + t + rest, |a|; i + |t| <= |s| && forall k | 0 <= k < |t| :: s[i + k] == t[k]
  {
  }

  lemma Shifted(s: string, i: nat, t: string, b: string, word: string, c: string)
    requires i + |t| <= |s| && forall k | 0 <= k < |t| :: s[i + k] == t[k]
    requires |t| == |b| + |word| + |c| + 4 && t[0] == '{' && t[1] == '%' && t[|t| - 2] == '%' && t[|t| - 1] == '}'
    requires t[2 + |b|..2 + |b| + |word|] == word && forall k | 0 <= k < |b| :: t[2 + k] == b[k]
    requires forall k | 0 <= k < |c| :: t[2 + |b| + |word| + k] == c[k]
    requires forall k | 0 <= k < |b| :: IsBlank(b[k])
    requires forall k | 0 <= k < |c| :: IsBlank(c[k])
    ensures IsTag(s, i, i + |t|, word, |b|, |c|)
  {
    var p := i + 2 + |b|;
    assert s[p..p + |word|] == t[2 + |b|..2 + |b| + |word|];
    forall k | i + 2 <= k < p ensures IsBlank(s[k]) {
      assert s[k] == s[i + (k - i)] == t[2 + (k - i - 2)] == b[k - i - 2];
    }
    forall k | p + |word| <= k < p + |word| + |c| ensures IsBlank(s[k]) {
      assert s[k] == s[i + (k - i)] == t[2 + |b| + |word| + (k - p - |word|)] == c[k - p - |word|];
    }
  }

  lemma TagShapeIs(b: string, word: string, c: string)
    ensures var t := Tag(b, word, c);
            && |t| == |b| + |word| + |c| + 4 && t[0] == '{' && t[1] == '%' && t[|t| - 2] == '%' && t[|t| - 1] == '}'
            && t[2 + |b|..2 + |b| + |word|] == word && (forall k | 0 <= k < |b| :: t[2 + k] == b[k])
            && forall k | 0 <= k < |c| :: t[2 + |b| + |word| + k] == c[k]
  {
  }

  lemma TagRead(a: string, b: string, word: string, c: string, rest: string)
    requires IsTagWord(word) && Gap(b) && Gap(c)
    ensures TagEnd(a + Tag(b, word, c) + rest, |a|, word) == Some(|a| + |Tag(b, word, c)|)
  {
    hide *;
    TagParts(a, b, word, c, rest);
    var s := a + Tag(b, word, c) + rest;
    ShapeIsTag(s, |a|, |a| + |Tag(b, word, c)|, word, |b|, |c|);
  }

  lemma TagFound(s: string, i: nat, word: string)
    requires i <= |s| && TagEnd(s, i, word).Some?
    ensures Starts(s, i, word)
  {
    hide *;
    var x, y := TagShape(s, i, word);
    TagGaps(s, i, TagEnd(s, i, word).value, word, x, y);
  }

  lemma TagGaps(s: string, i: nat, e: nat, word: string, x: nat, y: nat)
    requires IsTag(s, i, e, word, x, y)
    ensures Starts(s, i, word)
  {
    var p := i + 2 + x;
    var q := p + |word| + y;
    var b, c := s[i + 2..p], s[p + |word|..q];
    assert s[i..i + 2] == "{%" && s[q..q + 2] == "%}" && s[p..p + |word|] == word;
    BlankGap(b);
    BlankGap(c);
    Cuts(s, i, p, p + |word|, q);
    hide IsTag, Gap, IsBlank;
    assert s == s[..i] + Tag(b, word, c) + s[q + 2..];
  }

  lemma BlankGap(b: string)
    ensures (forall k | 0 <= k < |b| :: IsBlank(b[k])) ==> Gap(b)
  {
  }

  lemma Cuts(s: string, i: nat, p: nat, r: nat, q: nat)
    requires i + 2 <= p <= r <= q && q + 2 <= |s|
    ensures s == s[..i] + (s[i..i + 2] + s[i + 2..p] + s[p..r] + s[r..q] + s[q..q + 2]) + s[q + 2..]
  {
  }

  lemma StartsIff(s: string, i: nat, word: string)
    requires i <= |s| && IsTagWord(word)
    ensures TagEnd(s, i, word).Some? <==> Starts(s, i, word)
  {
    hide TagEnd, Gap, Tag, IsTagWord;
    if TagEnd(s, i, word).Some? {
      TagFound(s, i, word);
    }
    if a, b, c, rest :| |a| == i && Gap(b) && Gap(c) && s == a + Tag(b, word, c) + rest {
      TagRead(a, b, word, c, rest);
    }
  }

  lemma FirstTag(s: string, i: nat, n: nat, word: string)
    requires i <= n <= |s| && IsTagWord(word) && Starts(s, n, word) && forall k | i <= k < n :: !Starts(s, k, word)
    ensures FindTag(s, i, word) == n
  {
    hide *;
    var p := FindTag(s, i, word);
    StartsIff(s, n, word);
    if p <= |s| {
      StartsIff(s, p, word);
    }
  }

  lemma NoTag(s: string, i: nat, word: string)
    requires i <= |s| && IsTagWord(word) && forall k | i <= k <= |s| :: !Starts(s, k, word)
    ensures FindTag(s, i, word) > |s|
  {
    hide *;
    var p := FindTag(s, i, word);
    if p <= |s| {
      StartsIff(s, p, word);
    }
  }

  predicate IsWord(word: string) {
    word == "quiz" || word == "exercise"
  }

  lemma WordsAre(word: string)
    requires IsWord(word)
    ensures IsTagWord(word) && IsTagWord("end" + word)
  {
    assert "end" + "quiz" == "endquiz" && "end" + "exercise" == "endexercise";
  }

  /** A lesson that begins with text without an opening tag and a block: the first block is from there to the nearest
      closing tag, and the further ones are those of the text after it. */
  lemma BlocksAre(before: string, open: string, inner: string, close: string, rest: string, word: string)
    requires IsWord(word)
    requires (exists b, c :: Gap(b) && Gap(c) && open == Tag(b, word, c))
    requires (exists b, c :: Gap(b) && Gap(c) && close == Tag(b, "end" + word, c))
    requires var s := before + open + inner + close + rest;
             && (forall k | 0 <= k < |before| :: !Starts(s, k, word))
             && forall k | |before + open| <= k < |before + open + inner| :: !Starts(s, k, "end" + word)
    ensures Cut(before + open + inner + close + rest, word)
            == More(before, Block(open + inner + close, inner), Cut(rest, word))
  {
    var b, c :| Gap(b) && Gap(c) && open == Tag(b, word, c);
    var d, e :| Gap(d) && Gap(e) && close == Tag(d, "end" + word, e);
    hide *;
    BlockHere(before, b, c, inner, d, e, rest, word);
  }

  lemma BlockHere(before: string, b: string, c: string, inner: string, d: string, e: string, rest: string, word: string)
    requires IsWord(word) && Gap(b) && Gap(c) && Gap(d) && Gap(e)
    requires var s := before + Tag(b, word, c) + inner + Tag(d, "end" + word, e) + rest;
             && (forall k | 0 <= k < |before| :: !Starts(s, k, word))
             && forall k | |before + Tag(b, word, c)| <= k < |before + Tag(b, word, c) + inner| ::
                  !Starts(s, k, "end" + word)
    ensures var open, close := Tag(b, word, c), Tag(d, "end" + word, e);
            Cut(before + open + inner + close + rest, word)
            == More(before, Block(open + inner + close, inner), Cut(rest, word))
  {
    hide *;
    WordsAre(word);
    var open, close := Tag(b, word, c), Tag(d, "end" + word, e);
    var s, o := before + open + inner + close + rest, |before|;
    var i := o + |open|;
    var n := i + |inner|;
    Slices(before, open, inner, close, rest);
    Here(before, b, word, c, inner + close + rest, s);
    FirstTag(s, 0, o, word);
    Here(before + open + inner, d, "end" + word, e, rest, s);
    FirstTag(s, i, n, "end" + word);
    TagLong(b, word, c);
    TagLong(d, "end" + word, e);
    CutsAt(s, word, o, i, n, n + |close|);
  }

  lemma TagLong(b: string, word: string, c: string)
    ensures |Tag(b, word, c)| > 0
  {
  }

  lemma Slices(before: string, open: string, inner: string, close: string, rest: string)
    ensures var s, o, i := before + open + inner + close + rest, |before|, |before| + |open|;
            && |s| == i + |inner| + |close| + |rest| && s == before + open + (inner + close + rest)
            && s[..o] == before && s[o..i + |inner| + |close|] == open + inner + close && s[i..i + |inner|] == inner
            && s[i + |inner| + |close|..] == rest && |before + open| == i && |before + open + inner| == i + |inner|
  {
    Sliced(before, open, inner, close, rest);
    AssociateThree(before, open, inner, close);
  }

  lemma Here(a: string, b: string, word: string, c: string, rest: string, s: string)
    requires IsTagWord(word) && Gap(b) && Gap(c) && s == a + Tag(b, word, c) + rest
    ensures Starts(s, |a|, word) && |a| <= |s| && TagEnd(s, |a|, word) == Some(|a| + |Tag(b, word, c)|)
  {
    hide Gap, Tag, TagEnd, IsTagWord;
    TagRead(a, b, word, c, rest);
  }

  lemma CutsAt(s: string, word: string, o: nat, i: nat, n: nat, m: nat)
    requires o < i <= n < m <= |s|
    requires FindTag(s, 0, word) == o && TagEnd(s, o, word) == Some(i) && FindTag(s, i, "end" + word) == n
    requires TagEnd(s, n, "end" + word) == Some(m)
    ensures Cut(s, word) == More(s[..o], Block(s[o..m], s[i..n]), Cut(s[m..], word))
  {
    hide FindTag, TagEnd;
  }

  /** Text without an opening tag, or without a closing tag after the first one, holds no block. */
  lemma NoBlocks(s: string, word: string)
    requires IsWord(word)
    ensures (forall k | 0 <= k <= |s| :: !Starts(s, k, word)) ==> Cut(s, word) == End(s)
    ensures (forall k | 0 <= k <= |s| :: !Starts(s, k, "end" + word)) ==> Cut(s, word) == End(s)
  {
    hide *;
    WordsAre(word);
    if forall k | 0 <= k <= |s| :: !Starts(s, k, word) {
      NoTag(s, 0, word);
      NoCut(s, word);
    }
    if forall k | 0 <= k <= |s| :: !Starts(s, k, "end" + word) {
      var o := FindTag(s, 0, word);
      if o <= |s| {
        NoTag(s, TagEnd(s, o, word).value, "end" + word);
      }
      NoCut(s, word);
    }
  }

  lemma NoCut(s: string, word: string)
    requires var o := FindTag(s, 0, word);
             o <= |s| ==> FindTag(s, TagEnd(s, o, word).value, "end" + word) > |s|
    ensures Cut(s, word) == End(s)
  {
    hide FindTag, TagEnd;
  }
}

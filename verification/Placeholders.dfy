/** Placeholders through the renderer and back: the line loop passes them, and the substitution puts each
    block where its placeholder came out. */
module Placeholders {
  import opened Decimal
  import opened Text
  import opened Markdown
  import opened Blocks
  import opened Weaving

  // ---------------------------------------------------------------------------- Into the renderer

  /** The placeholders are lines of their own, and the only marked ones. */
  lemma {:induction false} LinesOf(w: Weave<nat>, n: nat)
    requires TextsUnmarked(w) && Below(w, n)
    ensures MarkedOf(Split(Spell(w, TokenLines(n)))) == Tokens(Holes(w))
    ensures PlainlyMarked(Split(Spell(w, TokenLines(n))))
    decreases w
  {
    hide Marked, Token;
    LinesLack(w.text, MARKER) by {
      NotContained(w.text);
    }
    assert forall k | 0 <= k < |Split(w.text)| :: !Marked(Split(w.text)[k]) by {
      NotMarked(Split(w.text));
    }
    NoneMarked(Split(w.text));
    if w.More? {
      assert Holes(w)[0] == w.hole && Holes(w)[1..] == Holes(w.rest);
      BelowRest(w, n);
      LinesOf(w.rest, n);
      var rest := Spell(w.rest, TokenLines(n));
      SpellLine(w, n);
      TokenPlain(w.hole);
      SplitAround(w.text, Token(w.hole), rest);
      hide Split, TokenLines, Spell;
      MarkedAround(Split(w.text), w.hole, Split(rest), Holes(w.rest));
    }
  }

  lemma NotContained(s: string)
    ensures !Marked(s) <==> !Contains(s, MARKER)
  {
  }

  lemma NotMarked(lines: seq<string>)
    ensures (forall k | 0 <= k < |lines| :: !Contains(lines[k], MARKER)) ==>
              (forall k | 0 <= k < |lines| :: !Marked(lines[k]))
  {
  }

  lemma SpellLine(w: Weave<nat>, n: nat)
    requires w.More? && w.hole < n
    ensures Spell(w, TokenLines(n)) == w.text + "\n" + Token(w.hole) + "\n" + Spell(w.rest, TokenLines(n))
  {
    var t := Token(w.hole);
    assert Fill(TokenLines(n), w.hole) == "\n" + t + "\n";
    hide TokenLines, Spell, Token, Fill;
    SpellMore(w.text, w.hole, w.rest, TokenLines(n));
    assert w.text + ("\n" + t + "\n") == w.text + "\n" + t + "\n";
  }

  lemma MarkedAround(before: seq<string>, k: nat, after: seq<string>, slots: seq<nat>)
    requires MarkedOf(before) == [] && MarkedOf(after) == Tokens(slots) && PlainlyMarked(after)
    requires forall i | 0 <= i < |before| :: !Marked(before[i])
    ensures MarkedOf(before + [Token(k)] + after) == Tokens([k] + slots)
    ensures PlainlyMarked(before + [Token(k)] + after)
  {
    TokenPlain(k);
    assert MarkedOf([Token(k)]) == [Token(k)] by {
      assert [Token(k)][1..] == [];
    }
    assert Tokens([k] + slots) == [Token(k)] + Tokens(slots);
    hide Token, Marked;
    MarkedOfConcat(before + [Token(k)], after);
    MarkedOfConcat(before, [Token(k)]);
  }

  // ---------------------------------------------------------------------------- Out of the renderer

  /** A rendered page, chunk by chunk: text, or the place of a block. */
  datatype Chunk = Text(text: string) | Slot(block: nat)

  function Slots(page: seq<Chunk>): seq<nat> {
    if page == [] then []
    else if page[0].Slot? then [page[0].block] + Slots(page[1..])
    else Slots(page[1..])
  }

  function ChunkText(c: Chunk, fills: seq<string>): string {
    match c
    case Text(t) => t
    case Slot(k) => Fill(fills, k)
  }

  function Texts(page: seq<Chunk>, fills: seq<string>): seq<string> {
    seq(|page|, i requires 0 <= i < |page| => ChunkText(page[i], fills))
  }

  predicate OthersUnmarked(page: seq<Chunk>) {
    forall i | 0 <= i < |page| && page[i].Text? :: !Marked(page[i].text)
  }

  function AllTokens(n: nat): seq<string> {
    seq(n, k requires 0 <= k < n => Token(k))
  }

  function Laid(chunks: seq<string>, slots: seq<nat>): seq<Chunk> {
    if chunks == [] then []
    else if Marked(chunks[0]) && slots != [] then [Slot(slots[0])] + Laid(chunks[1..], slots[1..])
    else [Text(chunks[0])] + Laid(chunks[1..], slots)
  }

  lemma {:induction false} LaidOut(chunks: seq<string>, slots: seq<nat>, n: nat)
    requires MarkedOf(chunks) == Tokens(slots) && forall i | 0 <= i < |slots| :: slots[i] < n
    ensures var page := Laid(chunks, slots);
            Texts(page, AllTokens(n)) == chunks && Slots(page) == slots && OthersUnmarked(page)
  {
    hide Marked, Token;
    if chunks != [] {
      if Marked(chunks[0]) {
        assert MarkedOf(chunks)[0] == chunks[0] && MarkedOf(chunks)[1..] == MarkedOf(chunks[1..]);
        assert Tokens(slots)[1..] == Tokens(slots[1..]);
        LaidOut(chunks[1..], slots[1..], n);
      } else {
        LaidOut(chunks[1..], slots, n);
      }
    }
  }

  // ---------------------------------------------------------------------------- Substitution

  /** The blocks' HTML for their placeholders, first to last, each for the first occurrence. */
  function Substituted(page: string, htmls: seq<string>, i: nat): string
    decreases |htmls| - i
  {
    if i >= |htmls| then page else Substituted(ReplaceFirst(page, Token(i), htmls[i]), htmls, i + 1)
  }

  /** Distinct numbers make distinct placeholders, and none is part of another. */
  lemma TokenApart(i: nat, j: nat)
    requires i != j
    ensures !Contains(Token(j), Token(i))
  {
    var s, t := Token(j), Token(i);
    forall p: nat | p <= |s| ensures !At(s, p, t) {
      if At(s, p, t) {
        TokenWithin(i, j, p);
        NumberOfDigits(i);
        NumberOfDigits(j);
      }
    }
  }

  lemma TokenWithin(i: nat, j: nat, p: nat)
    requires At(Token(j), p, Token(i))
    ensures Digits(i) == Digits(j)
  {
    var s, t := Token(j), Token(i);
    TokenShape(i);
    TokenShape(j);
    hide Token, Digits;
    LetterAt(s, p, t, 0);
    LetterAt(s, p, t, |t| - 1);
    assert p == 0 && |t| == |s|;
    assert s[0..|s|] == s;
    assert t[|MARKER|..|t| - 3] == Digits(i) && s[|MARKER|..|s| - 3] == Digits(j);
  }

  /** A placeholder opens once and closes once. */
  lemma TokenShape(k: nat)
    ensures var t := Token(k); var m := |MARKER|;
            && |t| == m + |Digits(k)| + 3 && t[m..|t| - 3] == Digits(k)
            && t[0] == '<' && (forall i | 1 <= i < |t| :: t[i] != '<')
            && t[|t| - 1] == '>' && (forall i | 0 <= i < |t| - 1 :: t[i] != '>')
  {
    MarkerPlain();
    var d := Digits(k);
    assert forall i | 0 <= i < |d| :: IsDigit(d[i]);
    hide Digits;
    assert Token(k) == MARKER + d + "-->";
  }

  lemma UnmarkedLacks(s: string, k: nat)
    requires !Marked(s)
    ensures !Contains(s, Token(k))
  {
    TokenMarked(k);
    var t := Token(k);
    hide Token;
    forall p: nat | p <= |s| ensures !At(s, p, t) {
      if At(s, p, t) {
        AtPrefix(s, p, t, |MARKER|);
      }
    }
  }

  /** The first i blocks in place, the others still placeholders. */
  function Half(htmls: seq<string>, i: nat): seq<string>
    requires i <= |htmls|
  {
    htmls[..i] + AllTokens(|htmls|)[i..]
  }

  lemma {:induction false} SlotOf(page: seq<Chunk>, k: nat) returns (p: nat)
    requires Count(Slots(page), k) == 1
    ensures p < |page| && page[p] == Slot(k) && forall j | 0 <= j < |page| && j != p :: page[j] != Slot(k)
  {
    if page[0] == Slot(k) {
      p := 0;
      NoSlot(page[1..], k);
      forall j | 0 <= j < |page| && j != p ensures page[j] != Slot(k) {
        assert page[j] == page[1..][j - 1];
      }
    } else {
      var later := SlotOf(page[1..], k);
      p := 1 + later;
      forall j | 0 <= j < |page| && j != p ensures page[j] != Slot(k) {
        if j > 0 {
          assert page[j] == page[1..][j - 1];
        }
      }
    }
  }

  lemma {:induction false} NoSlot(page: seq<Chunk>, k: nat)
    requires Count(Slots(page), k) == 0
    ensures forall j | 0 <= j < |page| :: page[j] != Slot(k)
  {
    if page != [] {
      NoSlot(page[1..], k);
      forall j | 0 <= j < |page| ensures page[j] != Slot(k) {
        if j > 0 {
          assert page[j] == page[1..][j - 1];
        }
      }
    }
  }

  predicate AllUnmarked(htmls: seq<string>) {
    forall k | 0 <= k < |htmls| :: !Marked(htmls[k])
  }

  /** One substitution puts one block in place. */
  lemma SubstituteOne(page: seq<Chunk>, htmls: seq<string>, i: nat)
    requires i < |htmls| && EachOnce(Slots(page), |htmls|) && OthersUnmarked(page) && AllUnmarked(htmls)
    ensures ReplaceFirst(Join(Texts(page, Half(htmls, i)), "\n"), Token(i), htmls[i])
         == Join(Texts(page, Half(htmls, i + 1)), "\n")
  {
    var p := SlotOf(page, i);
    var parts := Texts(page, Half(htmls, i));
    hide Token, Marked;
    assert Half(htmls, i)[i] == AllTokens(|htmls|)[i] == Token(i);
    forall j | 0 <= j < p ensures !Contains(parts[j], Token(i)) {
      OtherLacks(page[j], htmls, i);
    }
    TokenPlain(i);
    assert parts[p := htmls[i]] == Texts(page, Half(htmls, i + 1)) by {
      forall j | 0 <= j < |page| ensures parts[p := htmls[i]][j] == ChunkText(page[j], Half(htmls, i + 1)) {
        HalfStep(page[j], htmls, i);
      }
    }
    hide Texts, Contains;
    ReplaceInJoin(parts, p, Token(i), htmls[i]);
  }

  lemma OtherLacks(c: Chunk, htmls: seq<string>, i: nat)
    requires i < |htmls| && AllUnmarked(htmls) && c != Slot(i) && (c.Text? ==> !Marked(c.text))
    ensures !Contains(ChunkText(c, Half(htmls, i)), Token(i))
  {
    hide Marked, Token, Contains;
    if c.Text? {
      UnmarkedLacks(c.text, i);
    } else if c.block < i {
      UnmarkedLacks(htmls[c.block], i);
    } else if c.block < |htmls| {
      assert Half(htmls, i)[c.block] == AllTokens(|htmls|)[c.block];
      TokenApart(i, c.block);
    } else {
      EmptyUnmarked();
      UnmarkedLacks("", i);
    }
  }

  lemma EmptyUnmarked()
    ensures !Marked("")
  {
  }

  lemma HalfStep(c: Chunk, htmls: seq<string>, i: nat)
    requires i < |htmls|
    ensures c == Slot(i) ==> ChunkText(c, Half(htmls, i + 1)) == htmls[i]
    ensures c != Slot(i) ==> ChunkText(c, Half(htmls, i + 1)) == ChunkText(c, Half(htmls, i))
  {
    hide Token;
  }

  lemma {:induction false} SubstituteAll(page: seq<Chunk>, htmls: seq<string>, i: nat)
    requires i <= |htmls| && EachOnce(Slots(page), |htmls|) && OthersUnmarked(page) && AllUnmarked(htmls)
    ensures Substituted(Join(Texts(page, Half(htmls, i)), "\n"), htmls, i) == Join(Texts(page, htmls), "\n")
    decreases |htmls| - i
  {
    hide EachOnce, OthersUnmarked, AllUnmarked, Texts, Join, ReplaceFirst, Token;
    if i < |htmls| {
      SubstituteOne(page, htmls, i);
      SubstituteAll(page, htmls, i + 1);
    } else {
      assert Half(htmls, i) == htmls;
    }
  }

  // ---------------------------------------------------------------------------- All the way

  /** The page made of this Markdown and these blocks, chunk by chunk: before the substitution it is the
      rendering, after it each slot holds its block's HTML, and no other chunk could be taken for a
      placeholder. */
  predicate Placed(markdown: string, htmls: seq<string>, page: seq<Chunk>) {
    && Texts(page, AllTokens(|htmls|)) == Chunks(Split(markdown), 0)
    && Substituted(Rendered(markdown), htmls, 0) == Join(Texts(page, htmls), "\n")
    && OthersUnmarked(page)
  }

  /** Text with numbered holes, each number once: with placeholders in its holes, rendered, and with the
      blocks substituted, it is a page that shows every block exactly once, in the order of the holes. */
  lemma BlocksInPlace(layout: Weave<nat>, htmls: seq<string>)
    requires EachOnce(Holes(layout), |htmls|) && TextsUnmarked(layout) && AllUnmarked(htmls)
    requires FencesClear(Split(Spell(layout, TokenLines(|htmls|))), 0)
    ensures exists page :: Placed(Spell(layout, TokenLines(|htmls|)), htmls, page) && Slots(page) == Holes(layout)
  {
    hide *;
    var n := |htmls|;
    var markdown := Spell(layout, TokenLines(n));
    var chunks := Chunks(Split(markdown), 0);
    var page := Laid(chunks, Holes(layout));
    HolesBelow(layout, n);
    LinesOf(layout, n);
    MarkedSurvive(Split(markdown));
    LaidOut(chunks, Holes(layout), n);
    SubstituteAll(page, htmls, 0);
    Together(markdown, htmls, page);
  }

  lemma HolesBelow(w: Weave<nat>, n: nat)
    requires EachOnce(Holes(w), n)
    ensures Below(w, n) && forall i | 0 <= i < |Holes(w)| :: Holes(w)[i] < n
  {
    forall i | 0 <= i < |Holes(w)| ensures Holes(w)[i] < n {
      CountThere(Holes(w), i);
    }
  }

  lemma Together(markdown: string, htmls: seq<string>, page: seq<Chunk>)
    requires OthersUnmarked(page) && Texts(page, AllTokens(|htmls|)) == Chunks(Split(markdown), 0)
    requires Substituted(Join(Texts(page, Half(htmls, 0)), "\n"), htmls, 0) == Join(Texts(page, htmls), "\n")
    ensures Placed(markdown, htmls, page)
  {
    hide Chunks, Split, Substituted, Texts, Join, AllTokens, OthersUnmarked;
    assert htmls[..0] + AllTokens(|htmls|)[0..] == AllTokens(|htmls|);
  }

  /** The rendered lesson with its blocks substituted. */
  function PageOf(body: string, htmls: seq<string>): string {
    Substituted(Rendered(WithoutBlocks(body)), htmls, 0)
  }

  /** The source is `layout` with the blocks' texts in its holes, the page is `page` with the blocks' HTML in
      its slots; holes and slots are the same blocks in the same order. */
  predicate SamePlaces(body: string, htmls: seq<string>, layout: Weave<nat>, page: seq<Chunk>) {
    && Spell(layout, BlockTexts(body)) == body
    && Placed(WithoutBlocks(body), htmls, page)
    && Slots(page) == Holes(layout)
  }

  /** No block tag lies in a code fence. */
  predicate NoBlockInFence(body: string) {
    FencesClear(Split(WithoutBlocks(body)), 0)
  }

  /** The blocks of a lesson, in the places of their source. */
  lemma LessonBlocks(body: string, htmls: seq<string>)
    requires !Marked(body) && NoQuizInExercise(body) && NoBlockInFence(body)
    requires |htmls| == |BlockTexts(body)| && AllUnmarked(htmls)
    ensures exists page :: SamePlaces(body, htmls, LayoutOf(body), page) && EachOnce(Slots(page), |htmls|)
  {
    hide Chunks, Marked, Split, Spell, Count, TextsUnmarked, LayoutOf, BlockTexts, WithoutBlocks, FencesClear,
         TokenLines, NoQuizInExercise, Placed, AllUnmarked, EachOnce;
    var layout := LayoutOf(body);
    LayoutSpells(body);
    TextsOfUnmarked(layout, BlockTexts(body));
    BlocksInPlace(layout, htmls);
    var page :| Placed(WithoutBlocks(body), htmls, page) && Slots(page) == Holes(layout);
    assert SamePlaces(body, htmls, layout, page);
  }

  // ---------------------------------------------------------------------------- Blocks that get lost

  /** Compiled blocks are elements. */
  predicate IsElement(html: string) {
    html != "" && html[0] == '<' && html[|html| - 1] == '>'
  }

  lemma TokenTagLike(k: nat)
    ensures TagLike(Token(k))
  {
    TokenShape(k);
  }

  /** Putting another block in its place does not bring a placeholder back. */
  lemma ReplaceKeepsLost(page: string, i: nat, html: string, k: nat)
    requires !Contains(page, Token(k)) && !Contains(html, Token(k)) && IsElement(html)
    ensures !Contains(ReplaceFirst(page, Token(i), html), Token(k))
  {
    hide Token, Marked;
    var t := Token(k);
    var p := Index(page, Token(i), 0);
    if p <= |page| {
      var u, v := page[..p], page[p + |Token(i)|..];
      SliceLacks(page, 0, p, t);
      SliceLacks(page, p + |Token(i)|, |page|, t);
      assert page[0..p] == u && page[p + |Token(i)|..|page|] == v;
      TokenTagLike(k);
      hide Contains;
      LacksAcross(u, html, t);
      LacksAcross(u + html, v, t);
    }
  }

  lemma {:induction false} SubstituteLost(page: string, htmls: seq<string>, i: nat, k: nat, other: string)
    requires i <= k < |htmls| && !Contains(page, Token(k))
    requires forall j | i <= j < k :: !Contains(htmls[j], Token(k)) && IsElement(htmls[j])
    ensures Substituted(page, htmls[k := other], i) == Substituted(page, htmls, i)
    decreases k - i
  {
    hide Token, Marked, Contains, ReplaceFirst;
    if i < k {
      ReplaceKeepsLost(page, i, htmls[i], k);
      SubstituteLost(ReplaceFirst(page, Token(i), htmls[i]), htmls, i + 1, k, other);
    } else {
      NotThere(page, Token(k), htmls[k]);
      NotThere(page, Token(k), other);
      SubstituteLater(page, htmls, k + 1, k, other);
    }
  }

  lemma {:induction false} SubstituteLater(page: string, htmls: seq<string>, i: nat, k: nat, other: string)
    requires k < i && k < |htmls|
    ensures Substituted(page, htmls[k := other], i) == Substituted(page, htmls, i)
    decreases |htmls| - i
  {
    hide Token, ReplaceFirst;
    if i < |htmls| {
      SubstituteLater(ReplaceFirst(page, Token(i), htmls[i]), htmls, i + 1, k, other);
    }
  }
}

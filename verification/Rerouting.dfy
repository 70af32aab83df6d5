/** The finished page: compiled blocks in place, each exercise's button leading where its authored link says. */
module Rerouting {
  import opened Concatenation
  import opened Text
  import opened Html
  import opened Markdown
  import opened Blocks
  import opened Weaving
  import opened Placeholders
  import opened DemoLinks
  import opened Lesson
  import opened Agreement

  // ---------------------------------------------------------------------------- Appending weaves

  function Prefixed(p: string, w: Weave<nat>): Weave<nat> {
    match w
    case End(t) => End(p + t)
    case More(t, k, rest) => More(p + t, k, rest)
  }

  function Append(a: Weave<nat>, b: Weave<nat>): Weave<nat> {
    match a
    case End(t) => Prefixed(t + "\n", b)
    case More(t, k, rest) => More(t, k, Append(rest, b))
  }

  lemma PrefixedSpells(p: string, w: Weave<nat>, fills: seq<string>)
    ensures Spell(Prefixed(p, w), fills) == p + Spell(w, fills) && Holes(Prefixed(p, w)) == Holes(w)
  {
    if w.More? {
      hide Fill;
      var s, fill := Spell(w.rest, fills), Fill(fills, w.hole);
      Associate(p, w.text, fill);
      Associate(p, w.text + fill, s);
    }
  }

  lemma {:induction false} AppendSpells(a: Weave<nat>, b: Weave<nat>, fills: seq<string>)
    ensures Spell(Append(a, b), fills) == Spell(a, fills) + "\n" + Spell(b, fills)
    ensures Holes(Append(a, b)) == Holes(a) + Holes(b)
    decreases a
  {
    match a
    case End(t) => PrefixedSpells(t + "\n", b, fills);
    case More(t, k, rest) =>
      AppendSpells(rest, b, fills);
      hide Fill;
      var head, mid, last := t + Fill(fills, k), Spell(rest, fills), Spell(b, fills);
      assert head + (mid + "\n" + last) == head + mid + "\n" + last;
  }

  lemma {:induction false} AppendLacks(a: Weave<nat>, b: Weave<nat>, x: string)
    requires TextsLack(a, x) && TextsLack(b, x) && OneLine(x) && x != ""
    ensures TextsLack(Append(a, b), x)
    decreases a
  {
    match a
    case End(t) => NoneAcross(t, '\n', b.text, x);
    case More(t, k, rest) => AppendLacks(rest, b, x);
  }

  // ---------------------------------------------------------------------------- An exercise around its button

  function FrontOf(text: string, hash: string): string {
    "<div" + Spelled(Attribute("class", "exercise")) + Spelled(Attribute("data-challenge", hash)) + ">"
    + QuestionHtml(Rendered(text))
  }

  const VERDICT := Element("div", Spelled(Attribute("class", "verdict")), "")

  /** An exercise with some button. */
  function ExerciseWith(text: string, hash: string, button: string): string {
    BlockHtml("exercise", hash, QuestionHtml(Rendered(text)) + button)
  }

  lemma ExerciseAround(text: string, hash: string, button: string)
    ensures ExerciseWith(text, hash, button) == FrontOf(text, hash) + button + (VERDICT + "</div>")
  {
    hide Rendered, QuestionHtml, VERDICT, Spelled;
    var a := Spelled(Attribute("class", "exercise")) + Spelled(Attribute("data-challenge", hash));
    var q, verdict := QuestionHtml(Rendered(text)), VERDICT;
    assert ExerciseWith(text, hash, button) == Element("div", a, q + button + verdict) by {
      VerdictIs();
    }
    Open(a, q, button, verdict);
    Associate("<div", Spelled(Attribute("class", "exercise")), Spelled(Attribute("data-challenge", hash)));
  }

  lemma VerdictIs()
    ensures VERDICT == Element("div", Spelled(Attribute("class", "verdict")), "")
  {
  }

  lemma Open(a: string, q: string, button: string, verdict: string)
    ensures Element("div", a, q + button + verdict) == "<div" + a + ">" + q + button + (verdict + "</div>")
  {
    assert "<" + "div" == "<div" && "</" + "div" + ">" == "</div>";
    var x := "<div" + a + ">";
    assert x + (q + button + verdict) == x + q + button + verdict;
    AssociateThree(x + (q + button + verdict), "</", "div", ">");
    assert x + q + button + verdict + "</div>" == x + q + button + (verdict + "</div>");
  }

  /** An element of another kind holds no button's opening of its own. */
  lemma OtherTagLacks(s: string, h: string)
    requires IsHash(h) && |s| >= 2 && s[1] != 'a' && forall i | 1 <= i < |s| :: s[i] != '<'
    ensures !Contains(s, Opening(h))
  {
    OpeningShape(h);
    hide Opening, IsHash;
    forall p: nat | p <= |s| ensures !At(s, p, Opening(h)) {
      Differs(s, p, Opening(h), if p == 0 then 1 else 0);
    }
  }

  lemma DivLacks(a: string, h: string)
    requires IsHash(h) && Free(a, '<')
    ensures !Contains("<div" + a + ">", Opening(h)) && !Contains("</div>", Opening(h))
    ensures !Contains("<" + "div" + a + ">", Opening(h)) && !Contains("</" + "div" + ">", Opening(h))
  {
    hide Opening, Contains, IsHash;
    assert "<" + "div" == "<div" && "</" + "div" + ">" == "</div>";
    var s := "<div" + a + ">";
    assert s[1] == 'd' && forall i | 4 <= i < 4 + |a| :: s[i] == a[i - 4];
    OtherTagLacks(s, h);
    OtherTagLacks("</div>", h);
  }

  lemma SpelledFree(a: Attribute)
    ensures Free(a.name, '<') && Free(a.value, '<') ==> Free(Spelled(a), '<')
  {
  }

  lemma ClassFree()
    ensures Free("class", '<') && Free("data-challenge", '<') && Free("exercise", '<') && Free("verdict", '<')
            && Free("q", '<')
  {
  }

  lemma OpeningTagLike(h: string)
    requires IsHash(h)
    ensures TagLike(Opening(h))
  {
    OpeningShape(h);
  }

  lemma FrontLacks(text: string, hash: string, h: string)
    requires IsHash(hash) && IsHash(h) && !Contains(Rendered(text), Opening(h))
    ensures !Contains(FrontOf(text, hash), Opening(h))
  {
    hide Rendered, Opening, Contains, IsHash, Spelled, Element;
    var x, inner := Opening(h), Rendered(text);
    OpeningTagLike(h);
    ClassFree();
    assert Free(hash, '<') by {
      HashFree(hash);
    }
    SpelledFree(Attribute("class", "exercise"));
    SpelledFree(Attribute("data-challenge", hash));
    SpelledFree(Attribute("class", "q"));
    var a, b := Spelled(Attribute("class", "exercise")), Spelled(Attribute("data-challenge", hash));
    DivLacks(a + b, h);
    Associate("<div", a, b);
    DivLacks(Spelled(Attribute("class", "q")), h);
    ElementLacks("div", Spelled(Attribute("class", "q")), inner, x);
    ElementStarts("div", Spelled(Attribute("class", "q")), inner);
    LacksAcross("<div" + a + b + ">", QuestionHtml(inner), x);
  }

  lemma HashFree(h: string)
    ensures IsHash(h) ==> Free(h, '<')
  {
  }

  lemma AfterLacks(h: string)
    requires IsHash(h)
    ensures !Contains(VERDICT + "</div>", Opening(h))
  {
    hide Opening, Contains, IsHash, Spelled, Element, VERDICT;
    var x := Opening(h);
    OpeningTagLike(h);
    ClassFree();
    SpelledFree(Attribute("class", "verdict"));
    DivLacks(Spelled(Attribute("class", "verdict")), h);
    EmptyLacks(x);
    ElementLacks("div", Spelled(Attribute("class", "verdict")), "", x);
    VerdictIs();
    LacksAcross(VERDICT, "</div>", x);
  }

  lemma EmptyLacks(t: string)
    ensures t != "" ==> !Contains("", t)
  {
  }

  // ---------------------------------------------------------------------------- The page around its buttons

  /** The blocks of a lesson: its quizzes as HTML, its exercises as text and hash. */
  datatype Lists = Lists(quizzes: seq<string>, texts: seq<string>, hashes: seq<string>)

  type Pieces = b: Lists | |b.texts| == |b.hashes| witness Lists([], [], [])

  /** The HTML of all blocks, with these buttons on the exercises. */
  function Filled(b: Pieces, buttons: seq<string>): seq<string>
    requires |buttons| == |b.hashes|
  {
    b.quizzes + seq(|b.hashes|, e requires 0 <= e < |b.hashes| => ExerciseWith(b.texts[e], b.hashes[e], buttons[e]))
  }

  /** The HTML of all blocks, the exercises' buttons routed by rs. */
  function Routed(b: Pieces, rs: seq<Routing>): seq<string>
    requires |rs| == |b.hashes|
  {
    Filled(b, Buttons(b.hashes, rs))
  }

  function ChunkWeave(c: Chunk, b: Pieces): Weave<nat>
  {
    match c
    case Text(t) => End(t)
    case Slot(k) =>
      var q := |b.quizzes|;
      if k < q then End(b.quizzes[k])
      else if k - q < |b.hashes| then More(FrontOf(b.texts[k - q], b.hashes[k - q]), k - q, End(VERDICT + "</div>"))
      else End("")
  }

  /** The whole page as text with a hole for each button. */
  function Stitched(page: seq<Chunk>, b: Pieces): Weave<nat>
  {
    if page == [] then End("")
    else if |page| == 1 then ChunkWeave(page[0], b)
    else Append(ChunkWeave(page[0], b), Stitched(page[1..], b))
  }

  lemma ChunkSpells(c: Chunk, b: Pieces, buttons: seq<string>)
    requires |buttons| == |b.hashes|
    ensures Spell(ChunkWeave(c, b), buttons) == ChunkText(c, Filled(b, buttons))
  {
    hide FrontOf, ExerciseWith, VERDICT;
    var q := |b.quizzes|;
    if c.Slot? && c.block >= q && c.block - q < |b.hashes| {
      var e := c.block - q;
      ExerciseAround(b.texts[e], b.hashes[e], buttons[e]);
      assert Fill(buttons, e) == buttons[e];
      assert Filled(b, buttons)[c.block] == ExerciseWith(b.texts[e], b.hashes[e], buttons[e]);
    }
  }

  lemma {:induction false} StitchedSpells(page: seq<Chunk>, b: Pieces, buttons: seq<string>)
    requires |buttons| == |b.hashes|
    ensures Spell(Stitched(page, b), buttons) == Join(Texts(page, Filled(b, buttons)), "\n")
  {
    hide ChunkWeave, Filled, ChunkText;
    var fills, parts := Filled(b, buttons), Texts(page, Filled(b, buttons));
    if page != [] {
      ChunkSpells(page[0], b, buttons);
      assert parts[0] == ChunkText(page[0], fills) && parts[1..] == Texts(page[1..], fills);
      if |page| > 1 {
        StitchedSpells(page[1..], b, buttons);
        AppendSpells(ChunkWeave(page[0], b), Stitched(page[1..], b), buttons);
      }
    }
  }

  lemma {:induction false} StitchedCounts(page: seq<Chunk>, b: Pieces, e: nat)
    ensures Count(Holes(Stitched(page, b)), e) == if e < |b.hashes| then Count(Slots(page), |b.quizzes| + e) else 0
  {
    if page != [] {
      var w, rest := ChunkWeave(page[0], b), Stitched(page[1..], b);
      StitchedCounts(page[1..], b, e);
      ChunkCounts(page[0], b, e);
      SlotsCount(page, |b.quizzes| + e);
      hide ChunkWeave, Count, Slots;
      if |page| > 1 {
        AppendSpells(w, rest, []);
        CountConcat(Holes(w), Holes(rest), e);
      } else {
        assert page[1..] == [];
        NoSlots(|b.quizzes| + e);
      }
    }
  }

  lemma NoSlots(k: nat)
    ensures Count(Slots([]), k) == 0
  {
  }

  lemma SlotsCount(page: seq<Chunk>, k: nat)
    ensures page != [] ==>
              Count(Slots(page), k) == (if page[0] == Slot(k) then 1 else 0) + Count(Slots(page[1..]), k)
  {
  }

  lemma ChunkCounts(c: Chunk, b: Pieces, e: nat)
    ensures Count(Holes(ChunkWeave(c, b)), e) == if e < |b.hashes| && c == Slot(|b.quizzes| + e) then 1 else 0
  {
    if c.Slot? && c.block >= |b.quizzes| && c.block - |b.quizzes| < |b.hashes| {
      assert Holes(ChunkWeave(c, b)) == [c.block - |b.quizzes|];
    }
  }

  /** Nothing of the lesson but the exercises' own buttons shows the opening of a button: not its text, not a
      quiz, not the text of an exercise. */
  predicate ShownOnce(page: seq<Chunk>, b: Pieces, x: string) {
    && (forall i | 0 <= i < |page| && page[i].Text? :: !Contains(page[i].text, x))
    && (forall i | 0 <= i < |b.quizzes| :: !Contains(b.quizzes[i], x))
    && (forall i | 0 <= i < |b.texts| :: !Contains(Rendered(b.texts[i]), x))
  }

  lemma {:induction false} StitchedLacks(page: seq<Chunk>, b: Pieces, h: string)
    requires ShownOnce(page, b, Opening(h)) && IsHash(h) && OneLine(Opening(h))
    requires forall i | 0 <= i < |b.hashes| :: IsHash(b.hashes[i])
    ensures TextsLack(Stitched(page, b), Opening(h))
  {
    hide Opening, Contains, Rendered, FrontOf, VERDICT, IsHash;
    assert Opening(h) != "" by {
      OpeningShape(h);
    }
    if page == [] {
      EmptyLacks(Opening(h));
    } else {
      ChunkLacks(page[0], page, 0, b, h);
      if |page| > 1 {
        forall i | 0 <= i < |page[1..]| && page[1..][i].Text? ensures !Contains(page[1..][i].text, Opening(h)) {
          assert page[1..][i] == page[i + 1];
        }
        StitchedLacks(page[1..], b, h);
        AppendLacks(ChunkWeave(page[0], b), Stitched(page[1..], b), Opening(h));
      }
    }
  }

  lemma ChunkLacks(c: Chunk, page: seq<Chunk>, i: nat, b: Pieces, h: string)
    requires i < |page| && page[i] == c
    requires ShownOnce(page, b, Opening(h)) && IsHash(h) && Opening(h) != ""
    requires forall i | 0 <= i < |b.hashes| :: IsHash(b.hashes[i])
    ensures TextsLack(ChunkWeave(c, b), Opening(h))
  {
    hide Opening, Contains, Rendered, FrontOf, VERDICT, IsHash;
    EmptyLacks(Opening(h));
    var q := |b.quizzes|;
    if c.Slot? && c.block >= q && c.block - q < |b.hashes| {
      FrontLacks(b.texts[c.block - q], b.hashes[c.block - q], h);
      AfterLacks(h);
    }
  }

  lemma OpeningOneLine(h: string)
    requires OneLine(h)
    ensures OneLine(Opening(h))
  {
    OpeningIs(h);
    hide Opening;
    StartOneLine();
  }

  lemma StartOneLine()
    ensures OneLine(START)
  {
  }

  lemma RoutedIs(b: Pieces, rs: seq<Routing>)
    requires |rs| == |b.hashes|
    ensures Routed(b, rs) == Filled(b, Buttons(b.hashes, rs)) && |Buttons(b.hashes, rs)| == |b.hashes|
  {
  }

  /** Pairing on a whole page: every chunk stays as it is, but the exercises' buttons lead where the authored
      links say. */
  lemma PagePaired(page: seq<Chunk>, b: Pieces)
    requires AllHashes(b.hashes) && EachOnce(Slots(page), |b.quizzes| + |b.hashes|)
    requires forall i | 0 <= i < |b.hashes| :: OneLine(b.hashes[i]) && ShownOnce(page, b, Opening(b.hashes[i]))
    ensures var html := Join(Texts(page, Routed(b, Defaults(|b.hashes|))), "\n");
            var rs := Routings(Authored(Anchors(html, 0)), |b.hashes|);
            Paired(html, b.hashes) == Join(Texts(page, Routed(b, rs)), "\n")
  {
    hide Opening, Spell, Stitched, ShownOnce, Join, Texts, Routed, Buttons, Paired, IsHash, Count, Anchors, Authored,
         RoutingOf;
    var w, n := Stitched(page, b), |b.hashes|;
    var html := Join(Texts(page, Routed(b, Defaults(n))), "\n");
    RoutedIs(b, Defaults(n));
    RoutedIs(b, Routings(Authored(Anchors(html, 0)), n));
    StitchedSpells(page, b, Buttons(b.hashes, Defaults(n)));
    StitchedSpells(page, b, Buttons(b.hashes, Routings(Authored(Anchors(html, 0)), n)));
    assert EachOnce(Holes(w), n) by {
      forall e: nat ensures Count(Holes(w), e) == if e < n then 1 else 0 {
        StitchedCounts(page, b, e);
      }
    }
    forall i | 0 <= i < n ensures TextsLack(w, Opening(b.hashes[i])) {
      OpeningOneLine(b.hashes[i]);
      StitchedLacks(page, b, b.hashes[i]);
    }
    Pairing(w, b.hashes);
  }

  // ---------------------------------------------------------------------------- The lesson

  /** The trimmed texts of the first n exercises. */
  function ExerciseTexts(body: string, n: nat): (texts: seq<string>)
    ensures |texts| == n
  {
    seq(n, i => if 0 <= i < |Exercises(body)| then TrimSpace(Exercises(body)[i].inner) else "")
  }

  function PiecesOf(body: string, quizzes: seq<Built>, exercises: seq<Built>): Pieces {
    Lists(Htmls(quizzes), ExerciseTexts(body, |exercises|), HashesOf(exercises))
  }

  lemma RoutedDefaults(x: Setting, body: string, quizzes: seq<Built>, exercises: seq<Built>)
    requires Compiled(x, body, quizzes, exercises)
    ensures var b := PiecesOf(body, quizzes, exercises);
            && |b.quizzes| + |b.hashes| == |quizzes + exercises|
            && Routed(b, Defaults(|b.hashes|)) == Htmls(quizzes + exercises)
  {
    hide Quizzes, Exercises, BuildQuiz, BuildAll, BlockHtml, QuestionHtml, Rendered, Button;
    BuildCount(x, Quiz, Quizzes(body));
    BuildCount(x, Exercise, Exercises(body));
    var b := PiecesOf(body, quizzes, exercises);
    forall e | 0 <= e < |exercises|
      ensures exercises[e].html == ExerciseWith(b.texts[e], b.hashes[e], Button(b.hashes[e], DEFAULT)) {
      assert Build(x, Exercise, Exercises(body)[e].inner) == Ok(exercises[e]);
    }
  }

  /** Neither the rendered lesson, before its blocks are put in, nor the text of an exercise, has x. */
  predicate LessonLacks(body: string, b: Pieces, x: string) {
    && (forall k | 0 <= k < |Chunks(Split(WithoutBlocks(body)), 0)| ::
        !Contains(Chunks(Split(WithoutBlocks(body)), 0)[k], x))
    && (forall k | 0 <= k < |b.texts| :: !Contains(Rendered(b.texts[k]), x))
  }

  lemma LacksShown(body: string, b: Pieces, page: seq<Chunk>, n: nat, x: string)
    requires LessonLacks(body, b, x) && forall k | 0 <= k < |b.quizzes| :: !Contains(b.quizzes[k], x)
    requires Texts(page, AllTokens(n)) == Chunks(Split(WithoutBlocks(body)), 0)
    ensures ShownOnce(page, b, x)
  {
    hide Chunks, Split, WithoutBlocks, Contains, Rendered, AllTokens;
    var chunks := Chunks(Split(WithoutBlocks(body)), 0);
    forall k | 0 <= k < |page| && page[k].Text? ensures !Contains(page[k].text, x) {
      assert chunks[k] == Texts(page, AllTokens(n))[k] == page[k].text;
    }
  }

  /** No two exercises have the same hash. */
  predicate Apart(exercises: seq<Built>) {
    forall i, j | 0 <= i < j < |exercises| :: exercises[i].challenge.hash != exercises[j].challenge.hash
  }

  lemma HashesIn(x: Setting, body: string, quizzes: seq<Built>, exercises: seq<Built>)
    requires Digests(x) && Compiled(x, body, quizzes, exercises)
    requires Apart(exercises)
    ensures var hashes := PiecesOf(body, quizzes, exercises).hashes;
            hashes == HashesOf(exercises) && AllHashes(hashes) && forall i | 0 <= i < |hashes| :: OneLine(hashes[i])
  {
    hide Quizzes, Exercises, ExerciseHtml, BuildAll, IsDigest, IsHash;
    BuildCount(x, Exercise, Exercises(body));
    forall i | 0 <= i < |exercises|
      ensures IsHash(exercises[i].challenge.hash) && OneLine(exercises[i].challenge.hash) {
      var inner := Exercises(body)[i].inner;
      assert Build(x, Exercise, inner) == Ok(exercises[i]);
      assert IsDigest(x.challengeHash(TrimSpace(inner), x.slug));
      DigestPlain(exercises[i].challenge.hash);
    }
  }

  lemma PlacesMeans(body: string, htmls: seq<string>, layout: Weave<nat>, page: seq<Chunk>)
    ensures SamePlaces(body, htmls, layout, page) ==>
              && PageOf(body, htmls) == Join(Texts(page, htmls), "\n")
              && Texts(page, AllTokens(|htmls|)) == Chunks(Split(WithoutBlocks(body)), 0)
  {
  }

  /** After pairing, the page shows each exercise with its routed button, and all else as before. */
  ghost predicate FinishedPage(body: string, quizzes: seq<Built>, exercises: seq<Built>, page: seq<Chunk>) {
    var html, b := PageOf(body, Htmls(quizzes + exercises)), PiecesOf(body, quizzes, exercises);
    var rs := Routings(Authored(Anchors(html, 0)), |b.hashes|);
    && EachOnce(Slots(page), |quizzes + exercises|)
    && Paired(html, b.hashes) == Join(Texts(page, Routed(b, rs)), "\n")
  }

  lemma FinishedIs(body: string, quizzes: seq<Built>, exercises: seq<Built>, page: seq<Chunk>)
    requires EachOnce(Slots(page), |quizzes + exercises|)
    requires var b := PiecesOf(body, quizzes, exercises);
             var html := Join(Texts(page, Routed(b, Defaults(|b.hashes|))), "\n");
             var rs := Routings(Authored(Anchors(html, 0)), |b.hashes|);
             && html == PageOf(body, Htmls(quizzes + exercises))
             && Paired(html, b.hashes) == Join(Texts(page, Routed(b, rs)), "\n")
    ensures FinishedPage(body, quizzes, exercises, page)
  {
  }
}

/** A lesson from source to page. */
module Finishing {
  import opened Concatenation
  import opened Decimal
  import opened Options
  import opened Text
  import opened Html
  import opened Markdown
  import opened Blocks
  import opened Weaving
  import opened Placeholders
  import opened DemoLinks
  import opened Lesson
  import opened Agreement
  import opened Rerouting
  import opened Marks

  // ---------------------------------------------------------------------------- The page around the marks

  function BlockAttributes(kind: string, hash: string): seq<Attribute> {
    [Attribute("class", kind)] + [Attribute("data-challenge", hash)]
  }

  lemma PlainName(name: string, value: string, h: string)
    requires |name| < 14 && Free(name, '"') && Free(value, '"')
    ensures NoMarks([Attribute(name, value)], h) && SpelledAll([Attribute(name, value)])
            == Spelled(Attribute(name, value))
  {
    SpelledOne(Attribute(name, value));
  }

  lemma BlockNames(kind: string, hash: string, h: string)
    requires Free(kind, '"') && Free(hash, '"')
    ensures NoMarks(BlockAttributes(kind, hash), h)
    ensures SpelledAll(BlockAttributes(kind, hash))
         == Spelled(Attribute("class", kind)) + Spelled(Attribute("data-challenge", hash))
  {
    var a, b := Attribute("class", kind), Attribute("data-challenge", hash);
    assert "data-challenge"[5] == 'c' && HASH_CODE[5] == 'h' && |"data-challenge"| == 14;
    assert Free("class", '"') && Free("data-challenge", '"');
    assert !EndsIn("data-challenge", HASH_CODE);
    assert NoMark(b, h);
    PlainName("class", kind, h);
    SpelledOne(b);
    hide Spelled, SpelledAll, EndsIn;
    SpelledConcat([a], [b]);
  }

  lemma QuoteFreeLacks(s: string, h: string)
    requires IsDigest(h) && Free(s, '"')
    ensures !Contains(s, HashMark(h))
  {
    MarkShape(h);
    hide HashMark, IsDigest;
    forall p: nat | p <= |s| ensures !At(s, p, HashMark(h)) {
      Differs(s, p, HashMark(h), 15);
    }
  }

  /** The element of a block: its own tags have no mark. */
  lemma BlockLacksMark(kind: string, hash: string, inner: string, h: string)
    requires IsDigest(h) && Free(kind, '"') && Free(hash, '"') && !Contains(inner, HashMark(h))
    ensures !Contains(BlockHtml(kind, hash, inner), HashMark(h))
  {
    MarkShape(h);
    BlockNames(kind, hash, h);
    VerdictLacks(h);
    VerdictIs();
    AnchorPlain();
    hide Contains, IsDigest, HashMark, NoMarks, NoStart, Spelled, SpelledAll, Element, VERDICT, BlockAttributes;
    LacksBeside(inner, VERDICT, HashMark(h));
    ElementLacksMark("div", BlockAttributes(kind, hash), inner + VERDICT, h);
  }

  lemma VerdictLacks(h: string)
    requires IsDigest(h)
    ensures !Contains(VERDICT, HashMark(h)) && VERDICT != "" && VERDICT[0] == '<' && VERDICT[|VERDICT| - 1] == '>'
    ensures !Contains(VERDICT + "</div>", HashMark(h))
  {
    MarkShape(h);
    AnchorPlain();
    VerdictIs();
    ElementEnds("div", Spelled(Attribute("class", "verdict")), "");
    assert Free("class", '"') && Free("verdict", '"') && Free("", '"');
    PlainName("class", "verdict", h);
    QuoteFreeLacks("", h);
    QuoteFreeLacks("</div>", h);
    hide Contains, IsDigest, HashMark, NoMarks, NoStart, Spelled, SpelledAll, Element, VERDICT;
    ElementLacksMark("div", [Attribute("class", "verdict")], "", h);
    LacksBeside(VERDICT, "</div>", HashMark(h));
  }

  lemma ElementEnds(name: string, attributes: string, inner: string)
    ensures IsElement(Element(name, attributes, inner))
  {
  }

  lemma QuestionLacks(html: string, h: string)
    requires IsDigest(h) && !Contains(html, HashMark(h))
    ensures !Contains(QuestionHtml(html), HashMark(h)) && IsElement(QuestionHtml(html))
  {
    AnchorPlain();
    assert Free("class", '"') && Free("q", '"');
    PlainName("class", "q", h);
    ElementEnds("div", Spelled(Attribute("class", "q")), html);
    hide Contains, IsDigest, HashMark, NoMarks, NoStart, Spelled, SpelledAll, Element;
    ElementLacksMark("div", [Attribute("class", "q")], html, h);
  }

  lemma FrontLacksMark(text: string, hash: string, h: string)
    requires IsDigest(h) && Free(hash, '"') && !Contains(Rendered(text), HashMark(h))
    ensures !Contains(FrontOf(text, hash), HashMark(h))
  {
    MarkShape(h);
    AnchorPlain();
    assert Free("exercise", '"');
    BlockNames("exercise", hash, h);
    QuestionLacks(Rendered(text), h);
    var a, b := Spelled(Attribute("class", "exercise")), Spelled(Attribute("data-challenge", hash));
    assert OpenOf("div", BlockAttributes("exercise", hash)) == "<div" + a + b + ">" by {
      assert "<" + "div" == "<div";
      Associate("<div", a, b);
    }
    hide Contains, IsDigest, HashMark, NoMarks, NoStart, Spelled, SpelledAll, Element, BlockAttributes, Rendered,
         QuestionHtml;
    ElementLacksMark("div", BlockAttributes("exercise", hash), Rendered(text), h);
    LacksBeside("<div" + a + b + ">", QuestionHtml(Rendered(text)), HashMark(h));
  }

  // ---------------------------------------------------------------------------- Quizzes have no mark

  lemma QuizEntitiesFree()
    ensures forall c :: Free(QuizEntity(c), '"')
  {
  }

  lemma EscapedLacks(s: string, h: string)
    requires IsDigest(h)
    ensures Free(Escape(s, QuizEntity), '"') && !Contains(Escape(s, QuizEntity), HashMark(h))
  {
    QuizEntitiesFree();
    hide QuizEntity;
    EscapeFree(s, QuizEntity, '"');
    QuoteFreeLacks(Escape(s, QuizEntity), h);
  }

  lemma ChoiceWords()
    ensures Free("type", '"') && Free("radio", '"') && Free("name", '"') && Free("data-flag", '"') && |"data-flag"| < 14
    ensures NoStart("<input") && NoStart("<" + "label") && NoStart("</" + "label" + ">")
    ensures NoStart("<" + "button") && NoStart("</" + "button" + ">") && NoStart("Submit")
    ensures Free("class", '"') && Free("quiz-submit", '"') && Free("quiz", '"')
  {
  }

  function InputAttributes(name: string, flag: string): seq<Attribute> {
    [Attribute("type", "radio")] + [Attribute("name", name)] + [Attribute("data-flag", flag)]
  }

  lemma InputNames(name: string, flag: string, h: string)
    requires Free(name, '"') && Free(flag, '"')
    ensures NoMarks(InputAttributes(name, flag), h)
    ensures SpelledAll(InputAttributes(name, flag))
         == Spelled(Attribute("type", "radio")) + Spelled(Attribute("name", name))
           + Spelled(Attribute("data-flag", flag))
  {
    ChoiceWords();
    PlainName("type", "radio", h);
    PlainName("name", name, h);
    PlainName("data-flag", flag, h);
    hide Spelled, SpelledAll, NoMarks;
    var a, b, c := [Attribute("type", "radio")], [Attribute("name", name)], [Attribute("data-flag", flag)];
    NoMarksConcat(a, b, h);
    NoMarksConcat(a + b, c, h);
    SpelledConcat(a, b);
    SpelledConcat(a + b, c);
  }

  lemma ChoiceLacks(name: string, flag: string, text: string, h: string)
    requires IsDigest(h) && Free(name, '"') && Free(flag, '"')
    ensures !Contains(ChoiceHtml(name, flag, text), HashMark(h)) && IsElement(ChoiceHtml(name, flag, text))
  {
    MarkShape(h);
    ChoiceWords();
    InputNames(name, flag, h);
    EscapedLacks(text, h);
    var attributes := SpelledAll(InputAttributes(name, flag));
    var escaped := Escape(text, QuizEntity);
    var input := "<input" + (attributes + ">");
    FreeConcat(" ", escaped, '\"');
    QuoteFreeLacks(" " + escaped, h);
    QuoteFreeLacks(">", h);
    AttributesLackMark(InputAttributes(name, flag), ">", h);
    SpelledStarts(InputAttributes(name, flag), ">");
    NameBefore("<input", attributes + ">", h);
    LacksBeside(input, " " + escaped, HashMark(h));
    assert SpelledAll([]) == "" && NoMarks([], h);
    hide Contains, IsDigest, HashMark, NoMarks, NoStart, Spelled, SpelledAll, Escape, InputAttributes;
    ElementLacksMark("label", [], input + (" " + escaped), h);
    InputIs(name, flag, attributes, escaped);
    ElementEnds("label", "", input + (" " + escaped));
  }

  lemma InputIs(name: string, flag: string, attributes: string, escaped: string)
    requires attributes == Spelled(Attribute("type", "radio")) + Spelled(Attribute("name", name))
             + Spelled(Attribute("data-flag", flag))
    ensures "<input" + Spelled(Attribute("type", "radio")) + Spelled(Attribute("name", name))
            + Spelled(Attribute("data-flag", flag))
            + "> " + escaped == "<input" + (attributes + ">") + (" " + escaped)
  {
    hide Spelled;
  }

  lemma {:induction false} ChoicesLack(x: Setting, name: string, choices: seq<Choice>, h: string)
    requires Digests(x) && IsDigest(h) && Free(name, '"')
    ensures !Contains(ChoicesHtml(x, name, choices), HashMark(h))
  {
    if choices == [] {
      QuoteFreeLacks("", h);
    } else {
      var before, c := choices[..|choices| - 1], choices[|choices| - 1];
      ChoicesLack(x, name, before, h);
      assert IsDigest(x.flagHash(c.text));
      DigestPlain(x.flagHash(c.text));
      MarkShape(h);
      hide Contains, IsDigest, HashMark, ChoiceHtml, Digests;
      ChoiceLacks(name, x.flagHash(c.text), c.text, h);
      LacksBeside(ChoicesHtml(x, name, before), ChoiceHtml(name, x.flagHash(c.text), c.text), HashMark(h));
    }
  }

  lemma QuizInnerLacks(question: string, choices: string, h: string)
    requires IsDigest(h) && !Contains(choices, HashMark(h))
    ensures !Contains(QuizInner(question, choices), HashMark(h))
  {
    MarkShape(h);
    ChoiceWords();
    EscapedLacks(question, h);
    QuestionLacks(Escape(question, QuizEntity), h);
    NoLetters("Submit", h);
    PlainName("class", "quiz-submit", h);
    ElementEnds("button", Spelled(Attribute("class", "quiz-submit")), "Submit");
    hide Contains, IsDigest, HashMark, NoMarks, NoStart, Spelled, SpelledAll, Escape, Element, QuestionHtml;
    ElementLacksMark("button", [Attribute("class", "quiz-submit")], "Submit", h);
    var q := QuestionHtml(Escape(question, QuizEntity));
    LacksBeside(q, choices, HashMark(h));
    LacksBeside(q + choices, Element("button", Spelled(Attribute("class", "quiz-submit")), "Submit"), HashMark(h));
  }

  lemma NameFree(hash: string)
    requires IsDigest(hash)
    ensures Free("q-" + Start(hash, 8), '"')
  {
  }

  lemma QuizLacks(x: Setting, inner: string, h: string)
    requires Digests(x) && IsDigest(h) && BuildQuiz(x, inner).Ok?
    ensures !Contains(BuildQuiz(x, inner).value.html, HashMark(h))
  {
    var question, choices := Join(Question(QuizLines(inner)), " "), Choices(QuizLines(inner));
    var hash := x.challengeHash(question, x.slug);
    assert IsDigest(hash);
    DigestPlain(hash);
    NameFree(hash);
    ChoiceWords();
    hide Contains, IsDigest, HashMark, BlockHtml, QuizInner, ChoicesHtml, Question, Choices, Join, Digests;
    var options := ChoicesHtml(x, "q-" + Start(hash, 8), choices);
    ChoicesLack(x, "q-" + Start(hash, 8), choices, h);
    QuizInnerLacks(question, options, h);
    BlockLacksMark("quiz", hash, QuizInner(question, options), h);
  }

  lemma QuizzesLack(x: Setting, body: string, quizzes: seq<Built>, exercises: seq<Built>, h: string)
    requires Digests(x) && Compiled(x, body, quizzes, exercises) && IsDigest(h)
    ensures forall k | 0 <= k < |Htmls(quizzes)| :: !Contains(Htmls(quizzes)[k], HashMark(h))
  {
    hide Contains, HashMark, Quizzes, Exercises, BuildQuiz, IsDigest, Digests;
    BuildCount(x, Quiz, Quizzes(body));
    forall k | 0 <= k < |quizzes| ensures !Contains(quizzes[k].html, HashMark(h)) {
      assert Build(x, Quiz, Quizzes(body)[k].inner) == Ok(quizzes[k]);
      QuizLacks(x, Quizzes(body)[k].inner, h);
    }
  }

  // ---------------------------------------------------------------------------- Marks on the whole page

  lemma TailAt(s: string, p: nat, pre: string, m: string)
    ensures At(s, p, pre + m) ==> At(s, p + |pre|, m)
  {
    if At(s, p, pre + m) {
      assert s[p..p + |pre + m|][|pre|..] == s[p + |pre|..p + |pre| + |m|];
      assert (pre + m)[|pre|..] == m;
    }
  }

  lemma MarkLacksOpening(s: string, h: string)
    requires !Contains(s, HashMark(h))
    ensures !Contains(s, Opening(h))
  {
    HashSpelled(h);
    var m, a := HashMark(h), "<a" + Spelled(Attribute(CLASS, "exercise-demo"));
    assert Opening(h) == a + " " + m by {
      hide Spelled, HashMark;
      Associate(a, " ", m);
    }
    hide Opening, HashMark, Spelled;
    forall p: nat | p <= |s| ensures !At(s, p, Opening(h)) {
      TailAt(s, p, a + " ", m);
    }
  }

  lemma {:induction false} StitchedLacksMark(page: seq<Chunk>, b: Pieces, h: string)
    requires ShownOnce(page, b, HashMark(h)) && IsDigest(h) && forall i | 0 <= i < |b.hashes| :: IsDigest(b.hashes[i])
    ensures TextsLack(Stitched(page, b), HashMark(h))
  {
    MarkShape(h);
    hide HashMark, Contains, Rendered, FrontOf, VERDICT, IsDigest;
    if page == [] {
      EmptyLacks(HashMark(h));
    } else {
      ChunkLacksMark(page[0], page, 0, b, h);
      if |page| > 1 {
        forall i | 0 <= i < |page[1..]| && page[1..][i].Text? ensures !Contains(page[1..][i].text, HashMark(h)) {
          assert page[1..][i] == page[i + 1];
        }
        StitchedLacksMark(page[1..], b, h);
        AppendLacks(ChunkWeave(page[0], b), Stitched(page[1..], b), HashMark(h));
      }
    }
  }

  lemma ChunkLacksMark(c: Chunk, page: seq<Chunk>, i: nat, b: Pieces, h: string)
    requires i < |page| && page[i] == c && ShownOnce(page, b, HashMark(h))
    requires IsDigest(h) && HashMark(h) != "" && forall k | 0 <= k < |b.hashes| :: IsDigest(b.hashes[k])
    ensures TextsLack(ChunkWeave(c, b), HashMark(h))
  {
    EmptyLacks(HashMark(h));
    var q := |b.quizzes|;
    if c.Slot? && c.block >= q && c.block - q < |b.hashes| {
      DigestPlain(b.hashes[c.block - q]);
      hide HashMark, Contains, Rendered, FrontOf, VERDICT, IsDigest;
      FrontLacksMark(b.texts[c.block - q], b.hashes[c.block - q], h);
      VerdictLacks(h);
    }
  }

  // ---------------------------------------------------------------------------- The lesson

  lemma DigestsIn(x: Setting, body: string, quizzes: seq<Built>, exercises: seq<Built>)
    requires Digests(x) && Compiled(x, body, quizzes, exercises) && Apart(exercises)
    ensures AllDigests(PiecesOf(body, quizzes, exercises).hashes)
  {
    hide Quizzes, Exercises, ExerciseHtml, BuildAll, IsDigest;
    BuildCount(x, Exercise, Exercises(body));
    forall i | 0 <= i < |exercises| ensures IsDigest(exercises[i].challenge.hash) {
      var inner := Exercises(body)[i].inner;
      assert Build(x, Exercise, inner) == Ok(exercises[i]);
      assert IsDigest(x.challengeHash(TrimSpace(inner), x.slug));
    }
  }

  /** The submit buttons are the exercises' own: no text of the lesson opens one for an exercise of it. */
  predicate OwnButtons(body: string, b: Pieces) {
    forall i | 0 <= i < |b.hashes| :: LessonLacks(body, b, Opening(b.hashes[i]))
  }

  /** And no text has the mark by which a button is found again. */
  predicate OwnMarks(body: string, b: Pieces) {
    forall i | 0 <= i < |b.hashes| :: LessonLacks(body, b, HashMark(b.hashes[i]))
  }

  lemma MarksAreButtons(body: string, b: Pieces)
    requires OwnMarks(body, b)
    ensures OwnButtons(body, b)
  {
    hide Contains, HashMark, Opening, Rendered, Chunks, WithoutBlocks, Split;
    var chunks := Chunks(Split(WithoutBlocks(body)), 0);
    forall i | 0 <= i < |b.hashes| ensures LessonLacks(body, b, Opening(b.hashes[i])) {
      assert LessonLacks(body, b, HashMark(b.hashes[i]));
      forall k | 0 <= k < |chunks| ensures !Contains(chunks[k], Opening(b.hashes[i])) {
        MarkLacksOpening(chunks[k], b.hashes[i]);
      }
      forall k | 0 <= k < |b.texts| ensures !Contains(Rendered(b.texts[k]), Opening(b.hashes[i])) {
        MarkLacksOpening(Rendered(b.texts[k]), b.hashes[i]);
      }
    }
  }

  lemma OpeningShown(x: Setting, body: string, quizzes: seq<Built>, exercises: seq<Built>, page: seq<Chunk>, n: nat,
                     i: nat)
    requires Digests(x) && Compiled(x, body, quizzes, exercises) && Apart(exercises) && i < |exercises|
    requires var b := PiecesOf(body, quizzes, exercises); |b.hashes| == |exercises| && OwnButtons(body, b)
    requires Texts(page, AllTokens(n)) == Chunks(Split(WithoutBlocks(body)), 0)
    ensures var b := PiecesOf(body, quizzes, exercises); ShownOnce(page, b, Opening(b.hashes[i]))
  {
    var b := PiecesOf(body, quizzes, exercises);
    var h := b.hashes[i];
    assert LessonLacks(body, b, Opening(h));
    DigestsIn(x, body, quizzes, exercises);
    assert IsDigest(h);
    assert b.quizzes == Htmls(quizzes);
    hide *;
    QuizzesLack(x, body, quizzes, exercises, h);
    forall k | 0 <= k < |b.quizzes| ensures !Contains(b.quizzes[k], Opening(h)) {
      MarkLacksOpening(b.quizzes[k], h);
    }
    LacksShown(body, b, page, n, Opening(h));
  }

  lemma MarkShown(x: Setting, body: string, quizzes: seq<Built>, exercises: seq<Built>, page: seq<Chunk>, n: nat,
                  i: nat)
    requires Digests(x) && Compiled(x, body, quizzes, exercises) && Apart(exercises) && i < |exercises|
    requires var b := PiecesOf(body, quizzes, exercises); |b.hashes| == |exercises| && OwnMarks(body, b)
    requires Texts(page, AllTokens(n)) == Chunks(Split(WithoutBlocks(body)), 0)
    ensures var b := PiecesOf(body, quizzes, exercises); ShownOnce(page, b, HashMark(b.hashes[i]))
  {
    var b := PiecesOf(body, quizzes, exercises);
    var h := b.hashes[i];
    assert LessonLacks(body, b, HashMark(h));
    DigestsIn(x, body, quizzes, exercises);
    assert IsDigest(h);
    assert b.quizzes == Htmls(quizzes);
    hide *;
    QuizzesLack(x, body, quizzes, exercises, h);
    LacksShown(body, b, page, n, HashMark(h));
  }

  lemma HashCount(body: string, quizzes: seq<Built>, exercises: seq<Built>)
    ensures |PiecesOf(body, quizzes, exercises).hashes| == |exercises|
  {
  }

  /** The paired page: the rendering of the lesson with every block in the place of its source, each exercise
      with the routing of its authored link on its button. */
  lemma LessonPage(x: Setting, body: string, quizzes: seq<Built>, exercises: seq<Built>)
    requires Digests(x) && Compiled(x, body, quizzes, exercises)
    requires !Marked(body) && NoQuizInExercise(body) && NoBlockInFence(body)
    requires Apart(exercises) && OwnButtons(body, PiecesOf(body, quizzes, exercises))
    ensures exists layout, page ::
              && SamePlaces(body, Htmls(quizzes + exercises), layout, page)
              && FinishedPage(body, quizzes, exercises, page)
  {
    hide *;
    PageAndStoreAgree(x, body, quizzes, exercises);
    RoutedDefaults(x, body, quizzes, exercises);
    var layout, page :| SamePlaces(body, Htmls(quizzes + exercises), layout, page)
                        && EachOnce(Slots(page), |quizzes + exercises|);
    var b := PiecesOf(body, quizzes, exercises);
    HashesIn(x, body, quizzes, exercises);
    HashCount(body, quizzes, exercises);
    PlacesMeans(body, Htmls(quizzes + exercises), layout, page);
    forall i | 0 <= i < |b.hashes| ensures OneLine(b.hashes[i]) && ShownOnce(page, b, Opening(b.hashes[i])) {
      OpeningShown(x, body, quizzes, exercises, page, |Htmls(quizzes + exercises)|, i);
    }
    PagePaired(page, b);
    assert FinishedPage(body, quizzes, exercises, page) by {
      FinishedIs(body, quizzes, exercises, page);
    }
  }

  // ---------------------------------------------------------------------------- From source to page

  /** The routings of the exercises' buttons: those of the authored links on the page. */
  function RoutingsFor(body: string, quizzes: seq<Built>, exercises: seq<Built>): (rs: seq<Routing>)
    ensures |rs| == |exercises|
  {
    Routings(Authored(Anchors(PageOf(body, Htmls(quizzes + exercises)), 0)), |exercises|)
  }

  /** What the page is to be: `page` with every block's HTML, the buttons routed, and marked if the server verifies. */
  function Delivered(body: string, quizzes: seq<Built>, exercises: seq<Built>, page: seq<Chunk>,
                     verified: bool): string {
    HashCount(body, quizzes, exercises);
    var b := PiecesOf(body, quizzes, exercises);
    var n := if verified then |b.hashes| else 0;
    Join(Texts(page, Filled(b, Shown(b.hashes, RoutingsFor(body, quizzes, exercises), n))), "\n")
  }

  lemma ShownNone(hashes: seq<string>, rs: seq<Routing>)
    requires |hashes| == |rs|
    ensures Shown(hashes, rs, 0) == Buttons(hashes, rs)
  {
    forall i | 0 <= i < |hashes| ensures ShownButton(hashes[i], rs[i], false) == Button(hashes[i], rs[i]) {
      ButtonParts(hashes[i], rs[i]);
    }
    hide ShownButton, Button;
  }

  lemma AssembledIs(x: Setting, body: string, quizzes: seq<Built>, exercises: seq<Built>)
    requires Compiled(x, body, quizzes, exercises)
    ensures var hashes := PiecesOf(body, quizzes, exercises).hashes;
            && |hashes| == |exercises|
            && Compile(x, body)
            == Finish(x, Page(Paired(PageOf(body, Htmls(quizzes + exercises)), hashes),
                              Challenges(quizzes + exercises)),
                      hashes, RoutingsFor(body, quizzes, exercises))
  {
    hide Quizzes, Exercises, PageOf, Paired, Finish, BuildAll, Anchors, Authored;
  }

  lemma FinishedDelivered(body: string, quizzes: seq<Built>, exercises: seq<Built>, page: seq<Chunk>)
    requires FinishedPage(body, quizzes, exercises, page)
    ensures var hashes := PiecesOf(body, quizzes, exercises).hashes;
            Paired(PageOf(body, Htmls(quizzes + exercises)), hashes) == Delivered(body, quizzes, exercises, page, false)
  {
    var b := PiecesOf(body, quizzes, exercises);
    hide Paired, PageOf, Anchors, Authored, Filled, Shown, Buttons, RoutingOf, Join, Texts, Htmls;
    HashCount(body, quizzes, exercises);
    RoutedIs(b, RoutingsFor(body, quizzes, exercises));
    ShownNone(b.hashes, RoutingsFor(body, quizzes, exercises));
  }

  lemma StitchedDelivered(body: string, quizzes: seq<Built>, exercises: seq<Built>, page: seq<Chunk>, verified: bool)
    ensures var b := PiecesOf(body, quizzes, exercises);
            && |b.hashes| == |exercises|
            && Spell(Stitched(page, b),
                     Shown(b.hashes, RoutingsFor(body, quizzes, exercises), if verified then |b.hashes| else 0))
            == Delivered(body, quizzes, exercises, page, verified)
  {
    HashCount(body, quizzes, exercises);
    var b := PiecesOf(body, quizzes, exercises);
    var rs := RoutingsFor(body, quizzes, exercises);
    hide PiecesOf, RoutingsFor, Spell, Stitched, Shown, Filled, Texts, Join;
    StitchedSpells(page, b, Shown(b.hashes, rs, if verified then |b.hashes| else 0));
  }

  lemma StitchedOnce(body: string, quizzes: seq<Built>, exercises: seq<Built>, page: seq<Chunk>)
    requires EachOnce(Slots(page), |quizzes + exercises|)
    ensures EachOnce(Holes(Stitched(page, PiecesOf(body, quizzes, exercises))), |exercises|)
  {
    var b := PiecesOf(body, quizzes, exercises);
    assert |b.quizzes| == |quizzes| && |b.hashes| == |exercises|;
    hide PiecesOf, Stitched, Count, Slots, Holes;
    forall e: nat ensures Count(Holes(Stitched(page, b)), e) == if e < |exercises| then 1 else 0 {
      StitchedCounts(page, b, e);
    }
  }

  lemma StitchedMarks(x: Setting, body: string, quizzes: seq<Built>, exercises: seq<Built>, page: seq<Chunk>, n: nat)
    requires Digests(x) && Compiled(x, body, quizzes, exercises) && Apart(exercises)
    requires OwnMarks(body, PiecesOf(body, quizzes, exercises))
    requires Texts(page, AllTokens(n)) == Chunks(Split(WithoutBlocks(body)), 0)
    ensures var b := PiecesOf(body, quizzes, exercises);
            forall i | 0 <= i < |b.hashes| :: TextsLack(Stitched(page, b), HashMark(b.hashes[i]))
  {
    var b := PiecesOf(body, quizzes, exercises);
    HashCount(body, quizzes, exercises);
    DigestsIn(x, body, quizzes, exercises);
    assert forall i | 0 <= i < |b.hashes| :: IsDigest(b.hashes[i]);
    hide *;
    forall i | 0 <= i < |b.hashes| ensures TextsLack(Stitched(page, b), HashMark(b.hashes[i])) {
      MarkShown(x, body, quizzes, exercises, page, n, i);
      StitchedLacksMark(page, b, b.hashes[i]);
    }
  }

  lemma RoutingsForQuotable(body: string, quizzes: seq<Built>, exercises: seq<Built>)
    ensures AllQuotable(RoutingsFor(body, quizzes, exercises))
  {
    hide PageOf, Anchors, Authored;
    RoutingsQuotable(Authored(Anchors(PageOf(body, Htmls(quizzes + exercises)), 0)), |exercises|);
  }

  /** What marking makes of the paired page. */
  lemma MarkedDelivered(x: Setting, body: string, quizzes: seq<Built>, exercises: seq<Built>, page: seq<Chunk>,
                        n: nat, p: Page)
    requires Digests(x) && Compiled(x, body, quizzes, exercises) && Apart(exercises)
    requires OwnMarks(body, PiecesOf(body, quizzes, exercises))
    requires EachOnce(Slots(page), |quizzes + exercises|)
    requires Texts(page, AllTokens(n)) == Chunks(Split(WithoutBlocks(body)), 0)
    requires PortsAreNumbers(RoutingsFor(body, quizzes, exercises))
    requires p.html == Delivered(body, quizzes, exercises, page, false)
    ensures var hashes, rs := PiecesOf(body, quizzes, exercises).hashes, RoutingsFor(body, quizzes, exercises);
            && |hashes| == |exercises| && WithTargets(p, hashes, rs, 0).Ok?
            && WithTargets(p, hashes, rs, 0).value.html == Delivered(body, quizzes, exercises, page, true)
  {
    hide *;
    HashCount(body, quizzes, exercises);
    DigestsIn(x, body, quizzes, exercises);
    RoutingsForQuotable(body, quizzes, exercises);
    StitchedOnce(body, quizzes, exercises, page);
    StitchedMarks(x, body, quizzes, exercises, page, n);
    StitchedDelivered(body, quizzes, exercises, page, false);
    StitchedDelivered(body, quizzes, exercises, page, true);
    var b := PiecesOf(body, quizzes, exercises);
    AllMarked(Stitched(page, b), p, b.hashes, RoutingsFor(body, quizzes, exercises), 0);
  }

  /** The target that a button's tag tells to check: none if it has no flag. */
  function TagTarget(tag: string): Option<Target> {
    var m := TagAttributes(tag, 0);
    if ValueOf(m, VERIFY) != "1" then None
    else
      match Atoi(ValueOf(m, PORT))
      case Some(port) => Some(Target(port, ValueOf(m, PATH)))
      case None => None
  }

  /** Each challenge is as compiled, but for the target: that of the button with its hash, as the button's tag on
      the page tells it. */
  ghost predicate Recorded(before: seq<Challenge>, after: seq<Challenge>, hashes: seq<string>, rs: seq<Routing>,
                           verified: bool)
    requires |hashes| == |rs|
  {
    && |after| == |before|
    && forall j | 0 <= j < |before| ::
         && (forall i | 0 <= i < |hashes| && hashes[i] == before[j].hash ::
               after[j] == before[j].(verify := TagTarget(OpenTag(ShownAttributes(hashes[i], rs[i], verified)))))
         && ((forall i | 0 <= i < |hashes| :: hashes[i] != before[j].hash) ==> after[j] == before[j])
  }

  lemma TagTargetIs(hash: string, r: Routing, verified: bool)
    requires IsHash(hash) && Quotable(r)
    ensures TagTarget(OpenTag(ShownAttributes(hash, r, verified)))
         == if verified && Atoi(r.port).Some? then Some(Target(Atoi(r.port).value, r.path)) else None
  {
    hide TagAttributes, OpenTag, ShownAttributes, Atoi, IsHash, Quotable, VERIFY, PORT, PATH, TERM, HASH_CODE;
    ShownReads(hash, r, verified);
  }

  /** Where nothing is recorded nothing was to be. */
  lemma NoneRecorded(challenges: seq<Challenge>, hashes: seq<string>, rs: seq<Routing>)
    requires |hashes| == |rs| && AllDigests(hashes) && AllQuotable(rs)
    requires forall j | 0 <= j < |challenges| :: challenges[j].verify == None
    ensures Recorded(challenges, challenges, hashes, rs, false)
  {
    hide IsDigest, Quotable, TagTarget, OpenTag, ShownAttributes;
    forall i | 0 <= i < |hashes| ensures TagTarget(OpenTag(ShownAttributes(hashes[i], rs[i], false))) == None {
      DigestPlain(hashes[i]);
      TagTargetIs(hashes[i], rs[i], false);
    }
  }

  lemma TargetsRecorded(page: Page, hashes: seq<string>, rs: seq<Routing>)
    requires |hashes| == |rs| && AllDigests(hashes) && AllQuotable(rs) && PortsAreNumbers(rs)
    ensures var r := WithTargets(page, hashes, rs, 0);
            r.Ok? && Recorded(page.challenges, r.value.challenges, hashes, rs, true)
  {
    hide IsDigest, Quotable, TagTarget, OpenTag, ShownAttributes, WithTargets, Atoi;
    TargetsAimed(page, hashes, rs, 0);
    var after := WithTargets(page, hashes, rs, 0).value.challenges;
    assert forall j | 0 <= j < |after| :: Aimed(page.challenges[j], after[j], hashes, rs, 0);
    forall i | 0 <= i < |hashes|
      ensures TagTarget(OpenTag(ShownAttributes(hashes[i], rs[i], true))) == Some(TargetOf(rs[i])) {
      DigestPlain(hashes[i]);
      TagTargetIs(hashes[i], rs[i], true);
    }
  }

  lemma NotVerifiedYet(x: Setting, body: string, quizzes: seq<Built>, exercises: seq<Built>)
    requires Compiled(x, body, quizzes, exercises)
    ensures var c := Challenges(quizzes + exercises); forall j | 0 <= j < |c| :: c[j].verify == None
  {
    hide Quizzes, Exercises, BlockHtml, Question, Choices, Join, Rendered;
    BuildCount(x, Quiz, Quizzes(body));
    BuildCount(x, Exercise, Exercises(body));
    forall i | 0 <= i < |quizzes| ensures quizzes[i].challenge.verify == None {
      assert Build(x, Quiz, Quizzes(body)[i].inner) == Ok(quizzes[i]);
    }
    forall i | 0 <= i < |exercises| ensures exercises[i].challenge.verify == None {
      assert Build(x, Exercise, Exercises(body)[i].inner) == Ok(exercises[i]);
    }
  }

  /** A lesson is refused exactly if its page refers to an unknown terminal, or a port to verify is no number;
      otherwise this is its page, and these are the targets of its challenges. */
  ghost predicate Outcome(x: Setting, body: string, quizzes: seq<Built>, exercises: seq<Built>, page: seq<Chunk>) {
    var hashes, rs := HashesOf(exercises), RoutingsFor(body, quizzes, exercises);
    var refused := !TermsKnown(Delivered(body, quizzes, exercises, page, false), x.terminals)
      || (x.verified && !PortsAreNumbers(rs));
    match Compile(x, body)
    case Err(_) => refused
    case Ok(p) =>
      && !refused && p.html == Delivered(body, quizzes, exercises, page, x.verified)
      && Recorded(Challenges(quizzes + exercises), p.challenges, hashes, rs, x.verified)
  }

  lemma OutcomeIs(x: Setting, body: string, quizzes: seq<Built>, exercises: seq<Built>, page: seq<Chunk>, n: nat)
    requires Digests(x) && Compiled(x, body, quizzes, exercises) && Apart(exercises)
    requires x.verified ==> OwnMarks(body, PiecesOf(body, quizzes, exercises))
    requires FinishedPage(body, quizzes, exercises, page) && EachOnce(Slots(page), |quizzes + exercises|)
    requires Texts(page, AllTokens(n)) == Chunks(Split(WithoutBlocks(body)), 0)
    ensures Outcome(x, body, quizzes, exercises, page)
  {
    AssembledIs(x, body, quizzes, exercises);
    FinishedDelivered(body, quizzes, exercises, page);
    DigestsIn(x, body, quizzes, exercises);
    RoutingsForQuotable(body, quizzes, exercises);
    NotVerifiedYet(x, body, quizzes, exercises);
    var hashes, rs := PiecesOf(body, quizzes, exercises).hashes, RoutingsFor(body, quizzes, exercises);
    assert hashes == HashesOf(exercises);
    var p := Page(Delivered(body, quizzes, exercises, page, false), Challenges(quizzes + exercises));
    hide *;
    if x.verified && PortsAreNumbers(rs) {
      MarkedDelivered(x, body, quizzes, exercises, page, n, p);
      TargetsRecorded(p, hashes, rs);
    } else if x.verified {
      BadPort(p, hashes, rs);
    } else {
      NoneRecorded(p.challenges, hashes, rs);
    }
    FinishIs(x, p, hashes, rs);
    OutcomeMeans(x, body, quizzes, exercises, page, p);
  }

  lemma BadPort(p: Page, hashes: seq<string>, rs: seq<Routing>)
    requires |hashes| == |rs| && !PortsAreNumbers(rs)
    ensures WithTargets(p, hashes, rs, 0).Err?
  {
    hide WithTargets, Atoi;
    BadPortRefused(p, hashes, rs, 0);
  }

  lemma FinishIs(x: Setting, p: Page, hashes: seq<string>, rs: seq<Routing>)
    requires |hashes| == |rs|
    ensures !TermsKnown(p.html, x.terminals) ==> Finish(x, p, hashes, rs).Err?
    ensures TermsKnown(p.html, x.terminals) ==>
              Finish(x, p, hashes, rs) == if x.verified then WithTargets(p, hashes, rs, 0) else Ok(p)
  {
    hide TermsKnown, WithTargets;
  }

  lemma OutcomeMeans(x: Setting, body: string, quizzes: seq<Built>, exercises: seq<Built>, page: seq<Chunk>, p: Page)
    requires var hashes, rs := HashesOf(exercises), RoutingsFor(body, quizzes, exercises);
             && |hashes| == |exercises| && p.challenges == Challenges(quizzes + exercises)
             && p.html == Delivered(body, quizzes, exercises, page, false)
             && Compile(x, body) == Finish(x, p, hashes, rs)
             && (!TermsKnown(p.html, x.terminals) ==> Finish(x, p, hashes, rs).Err?)
             && (TermsKnown(p.html, x.terminals) ==>
                   Finish(x, p, hashes, rs) == if x.verified then WithTargets(p, hashes, rs, 0) else Ok(p))
             && (x.verified ==> (PortsAreNumbers(rs) <==> WithTargets(p, hashes, rs, 0).Ok?))
             && (x.verified && PortsAreNumbers(rs) ==>
                   && WithTargets(p, hashes, rs, 0).value.html == Delivered(body, quizzes, exercises, page, true)
                   && Recorded(p.challenges, WithTargets(p, hashes, rs, 0).value.challenges, hashes, rs, true))
             && (!x.verified ==> Recorded(p.challenges, p.challenges, hashes, rs, false))
    ensures Outcome(x, body, quizzes, exercises, page)
  {
    hide Compile, Finish, WithTargets, Delivered, RoutingsFor, PortsAreNumbers, TermsKnown, Recorded, Challenges,
         HashesOf;
  }

  /** A lesson, compiled. Every block stands once on the page, in the place of its source; each exercise's button
      leads where its authored link says, and is marked if the server verifies; and what the store is told to
      verify is what the button on the finished page says. */
  lemma LessonCompiles(x: Setting, body: string, quizzes: seq<Built>, exercises: seq<Built>)
    requires Digests(x) && Compiled(x, body, quizzes, exercises)
    requires !Marked(body) && NoQuizInExercise(body) && NoBlockInFence(body) && Apart(exercises)
    requires var b := PiecesOf(body, quizzes, exercises); if x.verified then OwnMarks(body, b) else OwnButtons(body, b)
    ensures exists layout, page ::
              && SamePlaces(body, Htmls(quizzes + exercises), layout, page)
              && EachOnce(Slots(page), |quizzes + exercises|)
              && Outcome(x, body, quizzes, exercises, page)
  {
    hide *;
    if x.verified {
      MarksAreButtons(body, PiecesOf(body, quizzes, exercises));
    }
    LessonPage(x, body, quizzes, exercises);
    var layout, page :| SamePlaces(body, Htmls(quizzes + exercises), layout, page)
                        && FinishedPage(body, quizzes, exercises, page);
    FinishedOnce(body, quizzes, exercises, page);
    PlacesMeans(body, Htmls(quizzes + exercises), layout, page);
    OutcomeIs(x, body, quizzes, exercises, page, |Htmls(quizzes + exercises)|);
  }

  lemma FinishedOnce(body: string, quizzes: seq<Built>, exercises: seq<Built>, page: seq<Chunk>)
    requires FinishedPage(body, quizzes, exercises, page)
    ensures EachOnce(Slots(page), |quizzes + exercises|)
  {
    hide PageOf, Paired, Anchors, Authored, Routed, Join, Texts;
  }
}

/** A compiled lesson's page and the challenges it registers agree. */
module Agreement {
  import opened Concatenation
  import opened Decimal
  import opened Options
  import opened Text
  import opened Html
  import opened Markdown
  import opened Blocks
  import opened Weaving
  import opened Placeholders
  import opened LostBlocks
  import opened DemoLinks
  import opened Lesson
  import G = Grading

  /** 256 bits in lower-case hexadecimal. */
  predicate IsDigest(h: string) {
    |h| == 64 && forall i | 0 <= i < |h| :: '0' <= h[i] <= '9' || 'a' <= h[i] <= 'f'
  }

  /** Nothing more is known of the two digests. */
  ghost predicate Digests(x: Setting) {
    && (forall text, slug :: IsDigest(x.challengeHash(text, slug)))
    && (forall text :: IsDigest(x.flagHash(text)))
  }

  lemma DigestPlain(h: string)
    requires IsDigest(h)
    ensures IsHash(h) && OneLine(h) && !G.IsPhashFlag(h)
  {
    assert h[..6][0] == h[0] != 'p' == "phash$"[0];
  }

  // ---------------------------------------------------------------------------- Quizzes grade themselves

  predicate RightChoice(x: Setting, choices: seq<Choice>, submitted: string) {
    exists i | 0 <= i < |choices| :: choices[i].correct && x.flagHash(choices[i].text) == submitted
  }

  /** The flags registered for a quiz accept what a choice on its page submits exactly if that is the salted
      hash of a choice marked correct, whatever compares captures. */
  lemma {:induction false} QuizGrades(x: Setting, choices: seq<Choice>, submitted: string, grade: Option<G.Grader>)
    requires Digests(x)
    ensures G.Accepts(RightFlags(x, choices), submitted, grade) <==> RightChoice(x, choices, submitted)
  {
    if choices != [] {
      var before, c := choices[..|choices| - 1], choices[|choices| - 1];
      QuizGrades(x, before, submitted, grade);
      assert IsDigest(x.flagHash(c.text));
      DigestPlain(x.flagHash(c.text));
      hide IsDigest, G.IsPhashFlag;
      AcceptsMore(RightFlags(x, before), x.flagHash(c.text), submitted, grade);
      RightMore(x, before, c, submitted);
      assert before + [c] == choices;
    }
  }

  lemma AcceptsMore(flags: seq<string>, flag: string, submitted: string, grade: Option<G.Grader>)
    requires !G.IsPhashFlag(flag)
    ensures G.Accepts(flags + [flag], submitted, grade) <==> G.Accepts(flags, submitted, grade) || flag == submitted
  {
    var more := flags + [flag];
    if G.Accepts(flags, submitted, grade) {
      var i :| 0 <= i < |flags| && G.FlagAccepts(flags[i], submitted, grade);
      assert more[i] == flags[i];
    }
    if flag == submitted {
      assert G.FlagAccepts(more[|flags|], submitted, grade);
    }
  }

  lemma RightMore(x: Setting, before: seq<Choice>, c: Choice, submitted: string)
    ensures RightChoice(x, before + [c], submitted) <==>
            RightChoice(x, before, submitted) || (c.correct && x.flagHash(c.text) == submitted)
  {
    var more := before + [c];
    if RightChoice(x, before, submitted) {
      var i :| 0 <= i < |before| && before[i].correct && x.flagHash(before[i].text) == submitted;
      assert more[i] == before[i];
    }
    assert more[|before|] == c;
  }

  // ---------------------------------------------------------------------------- Compiled blocks hold no placeholder

  lemma KindNames()
    ensures Free("div", '<') && Free("button", '<') && Free("label", '<')
    ensures Free("class", '<') && Free("data-challenge", '<') && Free("type", '<') && Free("name", '<')
            && Free("data-flag", '<')
    ensures Calm("quiz") && Calm("exercise") && Calm("verdict") && Calm("q") && Calm("quiz-submit") && Calm("Submit")
    ensures Calm("radio") && Calm("") && Calm("q-") && Calm("<input") && Calm("> ")
  {
  }

  lemma HashCalm(h: string)
    ensures IsHash(h) ==> Calm(h) && Calm(Start(h, 8))
  {
  }

  lemma QuizEntitiesFree()
    ensures forall c :: Free(QuizEntity(c), '<')
  {
  }

  lemma QuizTextCalm(text: string)
    ensures Calm(Escape(text, QuizEntity))
  {
    QuizEntitiesFree();
    EscapeFree(text, QuizEntity, '<');
    CalmWithout(Escape(text, QuizEntity));
  }

  lemma ChoiceCalm(name: string, flag: string, text: string)
    requires Calm(name) && Calm(flag)
    ensures Calm(ChoiceHtml(name, flag, text))
  {
    hide Calm, Free, Spelled, Element, Escape;
    KindNames();
    QuizTextCalm(text);
    var a, b, c := Spelled(Attribute("type", "radio")), Spelled(Attribute("name", name)),
      Spelled(Attribute("data-flag", flag));
    SpelledCalm(Attribute("type", "radio"));
    SpelledCalm(Attribute("name", name));
    SpelledCalm(Attribute("data-flag", flag));
    CalmFive("<input", a, b, c, "> ");
    CalmConcat("<input" + a + b + c + "> ", Escape(text, QuizEntity));
    ElementCalm("label", "", "<input" + a + b + c + "> " + Escape(text, QuizEntity));
  }

  lemma {:induction false} ChoicesCalm(x: Setting, name: string, choices: seq<Choice>)
    requires Digests(x) && Calm(name)
    ensures Calm(ChoicesHtml(x, name, choices))
  {
    hide Calm, Free, ChoiceHtml;
    KindNames();
    if choices != [] {
      var c := choices[|choices| - 1];
      ChoicesCalm(x, name, choices[..|choices| - 1]);
      assert IsDigest(x.flagHash(c.text));
      DigestPlain(x.flagHash(c.text));
      HashCalm(x.flagHash(c.text));
      ChoiceCalm(name, x.flagHash(c.text), c.text);
      CalmConcat(ChoicesHtml(x, name, choices[..|choices| - 1]), ChoiceHtml(name, x.flagHash(c.text), c.text));
    }
  }

  lemma DivCalm(kind: string, inner: string)
    requires Calm(kind) && Calm(inner)
    ensures Calm(Element("div", Spelled(Attribute("class", kind)), inner))
    ensures Calm(Element("button", Spelled(Attribute("class", kind)), inner))
  {
    hide Calm, Free, Spelled, Element;
    KindNames();
    SpelledCalm(Attribute("class", kind));
    ElementCalm("div", Spelled(Attribute("class", kind)), inner);
    ElementCalm("button", Spelled(Attribute("class", kind)), inner);
  }

  lemma BlockAttributesCalm(kind: string, hash: string)
    requires Calm(kind) && IsHash(hash)
    ensures Calm(Spelled(Attribute("class", kind)) + Spelled(Attribute("data-challenge", hash)))
  {
    hide Calm, Free, Spelled;
    KindNames();
    HashCalm(hash);
    SpelledCalm(Attribute("class", kind));
    SpelledCalm(Attribute("data-challenge", hash));
    CalmConcat(Spelled(Attribute("class", kind)), Spelled(Attribute("data-challenge", hash)));
  }

  lemma BlockCalm(kind: string, hash: string, inner: string)
    requires Calm(kind) && IsHash(hash) && Calm(inner)
    ensures Calm(BlockHtml(kind, hash, inner))
  {
    hide Calm, Free, Spelled, Element;
    KindNames();
    BlockAttributesCalm(kind, hash);
    DivCalm("verdict", "");
    CalmConcat(inner, Element("div", Spelled(Attribute("class", "verdict")), ""));
    ElementCalm("div", Spelled(Attribute("class", kind)) + Spelled(Attribute("data-challenge", hash)),
                inner + Element("div", Spelled(Attribute("class", "verdict")), ""));
  }

  lemma QuizCalm(x: Setting, inner: string)
    requires Digests(x) && BuildQuiz(x, inner).Ok?
    ensures Calm(BuildQuiz(x, inner).value.html)
  {
    hide Calm, Free, BlockHtml, QuestionHtml, ChoicesHtml, Escape, Marked, Join, Question, Choices, Element, Spelled;
    var lines := QuizLines(inner);
    var question, choices := Join(Question(lines), " "), Choices(lines);
    var hash := x.challengeHash(question, x.slug);
    assert IsDigest(hash);
    DigestPlain(hash);
    KindNames();
    HashCalm(hash);
    QuizTextCalm(question);
    QuestionCalm(Escape(question, QuizEntity));
    CalmConcat("q-", Start(hash, 8));
    ChoicesCalm(x, "q-" + Start(hash, 8), choices);
    DivCalm("quiz-submit", "Submit");
    var options := ChoicesHtml(x, "q-" + Start(hash, 8), choices);
    CalmConcat(QuestionHtml(Escape(question, QuizEntity)), options);
    CalmConcat(QuestionHtml(Escape(question, QuizEntity)) + options,
               Element("button", Spelled(Attribute("class", "quiz-submit")), "Submit"));
    BlockCalm("quiz", hash, QuizInner(question, options));
  }

  lemma QuestionCalm(html: string)
    requires Calm(html)
    ensures Calm(QuestionHtml(html))
  {
    hide Calm, Element, Spelled;
    KindNames();
    DivCalm("q", html);
  }

  lemma ElementLacks(name: string, attributes: string, inner: string, t: string)
    requires TagLike(t) && !Contains(inner, t)
    requires !Contains("<" + name + attributes + ">", t) && !Contains("</" + name + ">", t)
    ensures !Contains(Element(name, attributes, inner), t)
  {
    var open, close := "<" + name + attributes + ">", "</" + name + ">";
    assert open[|open| - 1] == '>' && close[0] == '<';
    AssociateThree(open + inner, "</", name, ">");
    hide Contains;
    LacksAcross(open, inner, t);
    LacksAcross(open + inner, close, t);
  }

  lemma OpenCalm(name: string, attributes: string)
    requires name != "" && TagStart(name[0]) && Free(name, '<') && Calm(attributes)
    ensures Calm("<" + name + attributes + ">") && Calm("</" + name + ">")
  {
    assert Calm("<" + name) && Calm(">") && Calm("</" + name);
    hide Calm, Free;
    CalmConcat("<" + name, attributes);
    CalmConcat("<" + name + attributes, ">");
    CalmConcat("</" + name, ">");
  }

  lemma MarkerCommentLike()
    ensures CommentLike(MARKER)
  {
  }

  lemma ButtonCalm(hash: string)
    requires IsHash(hash)
    ensures Calm(Button(hash, DEFAULT))
  {
    hide Calm, Spelled, Element, Free, CLASS, HASH_CODE, PORT, PATH, TERM, PREFIX, PROTOCOL, HREF;
    NamesPlain();
    DefaultsCalm();
    HashCalm(hash);
    var names := ButtonAttributes(hash, DEFAULT);
    assert names == [Attribute(CLASS, "exercise-demo"), Attribute(HASH_CODE, hash), Attribute(PORT, DEFAULT.port),
                     Attribute(PATH, DEFAULT.path), Attribute(TERM, DEFAULT.term), Attribute(HREF, "#")];
    AttributesCalm(names);
    ElementCalm("a", SpelledAll(names), "Test Exercise");
  }

  lemma DefaultsCalm()
    ensures Calm("exercise-demo") && Calm(DEFAULT.port) && Calm(DEFAULT.path) && Calm(DEFAULT.term) && Calm("#")
    ensures Calm("Test Exercise") && Free("a", '<')
  {
  }

  lemma {:induction false} AttributesCalm(attributes: seq<Attribute>)
    requires forall i | 0 <= i < |attributes| :: Free(attributes[i].name, '<') && Calm(attributes[i].value)
    ensures Calm(SpelledAll(attributes))
  {
    CalmEmpty();
    hide Calm, Free, Spelled;
    if attributes != [] {
      SpelledCalm(attributes[0]);
      AttributesCalm(attributes[1..]);
      CalmConcat(Spelled(attributes[0]), SpelledAll(attributes[1..]));
    }
  }

  /** A block holds a comment only if its inner HTML does. */
  lemma BlockLacks(kind: string, hash: string, inner: string, t: string)
    requires Calm(kind) && IsHash(hash) && CommentLike(t) && !Contains(inner, t)
    ensures !Contains(BlockHtml(kind, hash, inner), t)
  {
    assert TagLike(t) && |t| >= 2 && t[0] == '<' && !TagStart(t[1]);
    hide Calm, Spelled, Element, Free, Contains, TagLike, CommentLike;
    KindNames();
    BlockAttributesCalm(kind, hash);
    DivCalm("verdict", "");
    var verdict := Element("div", Spelled(Attribute("class", "verdict")), "");
    var attributes := Spelled(Attribute("class", kind)) + Spelled(Attribute("data-challenge", hash));
    CalmLacks(verdict, t);
    ElementStarts("div", Spelled(Attribute("class", "verdict")), "");
    LacksAcross(inner, verdict, t);
    OpenCalm("div", attributes);
    CalmLacks("<" + "div" + attributes + ">", t);
    CalmLacks("</" + "div" + ">", t);
    ElementLacks("div", attributes, inner + verdict, t);
  }

  lemma ElementStarts(name: string, attributes: string, inner: string)
    ensures Element(name, attributes, inner) != "" && Element(name, attributes, inner)[0] == '<'
  {
  }

  lemma ExerciseLacks(text: string, hash: string, t: string)
    requires CommentLike(t) && !Contains(text, t) && IsHash(hash)
    ensures !Contains(ExerciseHtml(text, hash, DEFAULT), t)
  {
    assert TagLike(t) && |t| >= 2 && t[0] == '<' && !TagStart(t[1]);
    hide Calm, Spelled, Element, Free, Contains, Rendered, BlockHtml, Button, ButtonAttributes, TagLike, CommentLike;
    RenderedLacks(text, t);
    KindNames();
    var html, button := Rendered(text), Button(hash, DEFAULT);
    ButtonCalm(hash);
    CalmLacks(button, t);
    ButtonStarts(hash, DEFAULT);
    SpelledCalm(Attribute("class", "q"));
    OpenCalm("div", Spelled(Attribute("class", "q")));
    CalmLacks("<" + "div" + Spelled(Attribute("class", "q")) + ">", t);
    CalmLacks("</" + "div" + ">", t);
    ElementLacks("div", Spelled(Attribute("class", "q")), html, t);
    LacksAcross(QuestionHtml(html), button, t);
    BlockLacks("exercise", hash, QuestionHtml(html) + button, t);
  }

  lemma ButtonStarts(hash: string, r: Routing)
    ensures Button(hash, r) != "" && Button(hash, r)[0] == '<'
  {
    ElementStarts("a", SpelledAll(ButtonAttributes(hash, r)), "Test Exercise");
  }

  // ---------------------------------------------------------------------------- Page and store

  /** What is inside a block is part of it. */
  lemma {:induction false} InnersLack(s: string, t: string)
    ensures forall i | 0 <= i < |Holes(Cut(s, "exercise"))| && !Contains(Holes(Cut(s, "exercise"))[i].raw, t) ::
              !Contains(Holes(Cut(s, "exercise"))[i].inner, t)
    decreases |s|
  {
    hide Contains, FindBlock, TagEnd;
    if FindBlock(s, "exercise").Some? {
      var Span(o, i, c, e) := FindBlock(s, "exercise").value;
      var b, more := Block(s[o..e], s[i..c]), Cut(s[e..], "exercise");
      InnersLack(s[e..], t);
      assert s[o..e] == s[o..i] + s[i..c] + s[c..e];
      if !Contains(b.raw, t) {
        PartLacks(s[o..i], s[i..c], s[c..e], t);
      }
      assert Holes(Cut(s, "exercise")) == [b] + Holes(more);
    }
  }

  lemma {:induction false} NoneNestedRaws(cuts: Weave<Block>)
    requires NoneNested(cuts)
    ensures forall i | 0 <= i < |Holes(cuts)| :: !Marked(Holes(cuts)[i].raw)
    decreases cuts
  {
    hide Marked;
    if cuts.More? {
      NoneNestedRaws(cuts.rest);
    }
  }

  lemma {:induction false} RawsLack(cuts: Weave<Block>, t: string)
    requires !Contains(Whole(cuts), t)
    ensures forall i | 0 <= i < |Holes(cuts)| :: !Contains(Holes(cuts)[i].raw, t)
    decreases cuts
  {
    if cuts.More? {
      var later := Whole(cuts.rest);
      hide Contains;
      PartLacks(cuts.text, cuts.hole.raw, later, t);
      assert cuts.text + cuts.hole.raw + later + "" == cuts.text + cuts.hole.raw + later;
      PartLacks(cuts.text + cuts.hole.raw, later, "", t);
      RawsLack(cuts.rest, t);
    }
  }

  /** The compiled blocks of a lesson, quizzes first. */
  predicate Compiled(x: Setting, body: string, quizzes: seq<Built>, exercises: seq<Built>) {
    BuildAll(x, Quiz, Quizzes(body)) == Ok(quizzes) && BuildAll(x, Exercise, Exercises(body)) == Ok(exercises)
  }

  /** A compiled block holds a comment only if it is an exercise whose text holds it. */
  lemma BuiltLacks(x: Setting, body: string, quizzes: seq<Built>, exercises: seq<Built>, t: string)
    requires Digests(x) && Compiled(x, body, quizzes, exercises) && CommentLike(t)
    ensures |quizzes| == |Quizzes(body)| && |exercises| == |Exercises(body)|
    ensures forall i | 0 <= i < |quizzes| :: !Contains(quizzes[i].html, t)
    ensures forall i | 0 <= i < |exercises| && !Contains(Exercises(body)[i].raw, t) :: !Contains(exercises[i].html, t)
  {
    assert |t| >= 2 && t[0] == '<' && !TagStart(t[1]);
    hide Contains, BuildQuiz, Cut, Holes, Spell, ExerciseHtml, Calm, CommentLike, IsDigest;
    BuildCount(x, Quiz, Quizzes(body));
    BuildCount(x, Exercise, Exercises(body));
    InnersLack(WithoutQuizzes(body), t);
    forall i | 0 <= i < |quizzes| ensures !Contains(quizzes[i].html, t) {
      assert Build(x, Quiz, Quizzes(body)[i].inner) == Ok(quizzes[i]);
      QuizCalm(x, Quizzes(body)[i].inner);
      CalmLacks(quizzes[i].html, t);
    }
    forall i | 0 <= i < |exercises| && !Contains(Exercises(body)[i].raw, t) ensures !Contains(exercises[i].html, t) {
      var inner := Exercises(body)[i].inner;
      assert Build(x, Exercise, inner) == Ok(exercises[i]);
      assert IsDigest(x.challengeHash(TrimSpace(inner), x.slug));
      DigestPlain(x.challengeHash(TrimSpace(inner), x.slug));
      TrimIsSlice(inner, t);
      ExerciseLacks(TrimSpace(inner), x.challengeHash(TrimSpace(inner), x.slug), t);
    }
  }

  lemma BuiltUnmarked(x: Setting, body: string, quizzes: seq<Built>, exercises: seq<Built>)
    requires Digests(x) && Compiled(x, body, quizzes, exercises)
    ensures |quizzes + exercises| == |BlockTexts(body)|
    ensures NoQuizInExercise(body) ==> AllUnmarked(Htmls(quizzes + exercises))
  {
    MarkerCommentLike();
    hide Contains, CommentLike;
    BuiltLacks(x, body, quizzes, exercises, MARKER);
    hide Cut, Holes, Spell, Compiled;
    if NoQuizInExercise(body) {
      NoneNestedRaws(Cut(WithoutQuizzes(body), "exercise"));
    }
  }

  /** The element of a block opens with its kind and its challenge's hash. */
  predicate Carries(html: string, kind: string, hash: string) {
    "<div" + Spelled(Attribute("class", kind)) + Spelled(Attribute("data-challenge", hash)) + ">" <= html
  }

  lemma BlockCarries(kind: string, hash: string, inner: string)
    ensures Carries(BlockHtml(kind, hash, inner), kind, hash)
  {
    hide Spelled;
    var a := Spelled(Attribute("class", kind)) + Spelled(Attribute("data-challenge", hash));
    var all := inner + Element("div", Spelled(Attribute("class", "verdict")), "");
    hide Element;
    Front(a, all);
  }

  lemma Front(a: string, all: string)
    ensures "<div" + a + ">" <= Element("div", a, all)
  {
    assert "<" + "div" == "<div";
    assert Element("div", a, all) == "<div" + a + ">" + (all + "</" + "div" + ">");
  }

  predicate SameHashes(built: seq<Built>, kind: string) {
    forall i | 0 <= i < |built| :: Carries(built[i].html, kind, built[i].challenge.hash)
  }

  lemma BuiltCarry(x: Setting, body: string, quizzes: seq<Built>, exercises: seq<Built>)
    requires Compiled(x, body, quizzes, exercises)
    ensures SameHashes(quizzes, "quiz") && SameHashes(exercises, "exercise")
  {
    hide Carries, Quizzes, Exercises, BlockHtml, Rendered, Question, Choices, Join;
    BuildCount(x, Quiz, Quizzes(body));
    BuildCount(x, Exercise, Exercises(body));
    forall i | 0 <= i < |quizzes| ensures Carries(quizzes[i].html, "quiz", quizzes[i].challenge.hash) {
      var inner := Quizzes(body)[i].inner;
      assert Build(x, Quiz, inner) == Ok(quizzes[i]);
      QuizCarries(x, inner);
    }
    forall i | 0 <= i < |exercises| ensures Carries(exercises[i].html, "exercise", exercises[i].challenge.hash) {
      var inner := Exercises(body)[i].inner;
      assert Build(x, Exercise, inner) == Ok(exercises[i]);
      ExerciseCarries(x, inner);
    }
  }

  lemma QuizCarries(x: Setting, inner: string)
    requires BuildQuiz(x, inner).Ok?
    ensures var b := BuildQuiz(x, inner).value; Carries(b.html, "quiz", b.challenge.hash)
  {
    hide Carries, BlockHtml, QuizInner, Question, Choices, Join;
    var lines := QuizLines(inner);
    var question := Join(Question(lines), " ");
    var hash := x.challengeHash(question, x.slug);
    BlockCarries("quiz", hash, QuizInner(question, ChoicesHtml(x, "q-" + Start(hash, 8), Choices(lines))));
  }

  lemma ExerciseCarries(x: Setting, inner: string)
    requires BuildExercise(x, inner).Ok?
    ensures var b := BuildExercise(x, inner).value; Carries(b.html, "exercise", b.challenge.hash)
  {
    hide Carries, BlockHtml, ExerciseInner;
    var text := TrimSpace(inner);
    var hash := x.challengeHash(text, x.slug);
    BlockCarries("exercise", hash, ExerciseInner(text, hash, DEFAULT));
  }

  /** Page and store agree. In a lesson whose text has no placeholder of its own, the HTML of each registered
      challenge carries the hash registered for it; and it stands on the page exactly once, at the place of its
      source text, in source order, if and only if no quiz is nested in an exercise and no block tag lies in a
      code fence. */
  lemma PageAndStoreAgree(x: Setting, body: string, quizzes: seq<Built>, exercises: seq<Built>)
    requires Digests(x) && Compiled(x, body, quizzes, exercises) && !Marked(body)
    ensures SameHashes(quizzes, "quiz") && SameHashes(exercises, "exercise")
    ensures (exists layout, page ::
               && SamePlaces(body, Htmls(quizzes + exercises), layout, page)
               && EachOnce(Slots(page), |quizzes + exercises|))
            <==> NoQuizInExercise(body) && NoBlockInFence(body)
  {
    hide *;
    BuiltCarry(x, body, quizzes, exercises);
    BuiltUnmarked(x, body, quizzes, exercises);
    HtmlCount(quizzes + exercises);
    if NoQuizInExercise(body) && NoBlockInFence(body) {
      LessonBlocks(body, Htmls(quizzes + exercises));
    }
    if layout, page :| SamePlaces(body, Htmls(quizzes + exercises), layout, page)
                       && EachOnce(Slots(page), |quizzes + exercises|) {
      ShownMeansKept(body, Htmls(quizzes + exercises), layout, page);
    }
  }

  /** Placeholders of exercises are not in the text that exercises are cut from. */
  lemma ExercisesLack(body: string, k: nat)
    requires !Marked(body) && k >= |Quizzes(body)|
    ensures forall e | 0 <= e < |Exercises(body)| :: !Contains(Exercises(body)[e].raw, Token(k))
  {
    var w, q := Numbered(Cut(body, "quiz"), 0), |Quizzes(body)|;
    hide Spell, Cut, Holes, Token, Contains, Marked, TokenLines, Below, TextsUnmarked, Count, Numbered;
    LayoutTexts(body);
    NumberedBelow(Cut(body, "quiz"), 0);
    SpellHolds(w, q, k);
    CountNumbered(Cut(body, "quiz"), 0, k);
    CutWhole(WithoutQuizzes(body), "exercise");
    RawsLack(Cut(WithoutQuizzes(body), "exercise"), Token(k));
  }

  /** A block in a code fence, or a quiz inside an exercise, is not on the page: the page is the same whatever
      the block's HTML is. Its challenge is registered all the same. */
  lemma BlockLost(x: Setting, body: string, quizzes: seq<Built>, exercises: seq<Built>, k: nat, other: string)
    requires Digests(x) && Compiled(x, body, quizzes, exercises) && !Marked(body)
    requires k < |quizzes + exercises| && (BlockFenced(body, k) || BlockNested(body, k))
    ensures PageOf(body, Htmls(quizzes + exercises)[k := other]) == PageOf(body, Htmls(quizzes + exercises))
  {
    hide *;
    var htmls := Htmls(quizzes + exercises);
    BuiltUnmarked(x, body, quizzes, exercises);
    HtmlCount(quizzes + exercises);
    ComesOutIff(body, k);
    EarlierLack(x, body, quizzes, exercises, k);
    SubstituteLost(Rendered(WithoutBlocks(body)), htmls, 0, k, other);
    PageIs(body, htmls);
    PageIs(body, htmls[k := other]);
  }

  lemma PageIs(body: string, htmls: seq<string>)
    ensures PageOf(body, htmls) == Substituted(Rendered(WithoutBlocks(body)), htmls, 0)
  {
  }

  lemma EarlierLack(x: Setting, body: string, quizzes: seq<Built>, exercises: seq<Built>, k: nat)
    requires Digests(x) && Compiled(x, body, quizzes, exercises) && !Marked(body) && k < |quizzes + exercises|
    ensures var htmls := Htmls(quizzes + exercises);
            forall j | 0 <= j < k :: !Contains(htmls[j], Token(k)) && IsElement(htmls[j])
  {
    TokenCommentLike(k);
    hide Contains, Token, CommentLike, Carries, Quizzes, Exercises, Compiled, IsElement;
    BuiltLacks(x, body, quizzes, exercises, Token(k));
    BuiltElements(x, body, quizzes, exercises);
    if k >= |quizzes| {
      ExercisesLack(body, k);
    }
  }

  lemma BuiltElements(x: Setting, body: string, quizzes: seq<Built>, exercises: seq<Built>)
    requires Compiled(x, body, quizzes, exercises)
    ensures forall i | 0 <= i < |quizzes + exercises| :: IsElement((quizzes + exercises)[i].html)
  {
    hide Quizzes, Exercises, BlockHtml, IsElement, QuizInner, ExerciseInner, Question, Choices, Join;
    BuildCount(x, Quiz, Quizzes(body));
    BuildCount(x, Exercise, Exercises(body));
    forall i | 0 <= i < |quizzes| ensures IsElement(quizzes[i].html) {
      assert Build(x, Quiz, Quizzes(body)[i].inner) == Ok(quizzes[i]);
      QuizIsElement(x, Quizzes(body)[i].inner);
    }
    forall i | 0 <= i < |exercises| ensures IsElement(exercises[i].html) {
      assert Build(x, Exercise, Exercises(body)[i].inner) == Ok(exercises[i]);
      ExerciseIsElement(x, Exercises(body)[i].inner);
    }
  }

  lemma QuizIsElement(x: Setting, inner: string)
    ensures BuildQuiz(x, inner).Ok? ==> IsElement(BuildQuiz(x, inner).value.html)
  {
    hide BlockHtml, IsElement, QuizInner, Question, Choices, Join, ChoicesHtml;
    var lines := QuizLines(inner);
    var question := Join(Question(lines), " ");
    var hash := x.challengeHash(question, x.slug);
    BlockIsElement("quiz", hash, QuizInner(question, ChoicesHtml(x, "q-" + Start(hash, 8), Choices(lines))));
  }

  lemma ExerciseIsElement(x: Setting, inner: string)
    ensures BuildExercise(x, inner).Ok? ==> IsElement(BuildExercise(x, inner).value.html)
  {
    hide BlockHtml, IsElement, ExerciseInner;
    var hash := x.challengeHash(TrimSpace(inner), x.slug);
    BlockIsElement("exercise", hash, ExerciseInner(TrimSpace(inner), hash, DEFAULT));
  }

  lemma BlockIsElement(kind: string, hash: string, inner: string)
    ensures IsElement(BlockHtml(kind, hash, inner))
  {
  }

  lemma HtmlCount(built: seq<Built>)
    ensures |Htmls(built)| == |built|
  {
  }

  // ---------------------------------------------------------------------------- Verification targets

  /** All ports are numbers. */
  predicate PortsAreNumbers(rs: seq<Routing>) {
    forall i | 0 <= i < |rs| :: Atoi(rs[i].port).Some?
  }

  function TargetOf(r: Routing): Target
    requires Atoi(r.port).Some?
  {
    Target(Atoi(r.port).value, r.path)
  }

  /** From the i-th exercise on, what becomes of a challenge: the target of the exercise that has its hash. */
  predicate Aimed(before: Challenge, after: Challenge, hashes: seq<string>, rs: seq<Routing>, from: nat)
    requires |hashes| == |rs| && PortsAreNumbers(rs)
  {
    && after.(verify := before.verify) == before
    && (forall i | from <= i < |hashes| && hashes[i] == before.hash :: after.verify == Some(TargetOf(rs[i])))
    && ((forall i | from <= i < |hashes| :: hashes[i] != before.hash) ==> after.verify == before.verify)
  }

  lemma {:induction false} TargetsAimed(page: Page, hashes: seq<string>, rs: seq<Routing>, from: nat)
    requires |hashes| == |rs| && from <= |hashes|
    requires forall i, j | 0 <= i < j < |hashes| :: hashes[i] != hashes[j]
    requires PortsAreNumbers(rs)
    ensures var r := WithTargets(page, hashes, rs, from);
            && r.Ok?
            && |r.value.challenges| == |page.challenges|
            && forall j | 0 <= j < |page.challenges| ::
               Aimed(page.challenges[j], r.value.challenges[j], hashes, rs, from)
    decreases |hashes| - from
  {
    hide Atoi, ReplaceFirst, HashMark;
    if from < |hashes| {
      var challenges := RetargetAll(page.challenges, hashes[from], TargetOf(rs[from]));
      var next := Page(ReplaceFirst(page.html, HashMark(hashes[from]),
                                    HashMark(hashes[from]) + " data-verify=\"1\""), challenges);
      TargetsAimed(next, hashes, rs, from + 1);
      var r := WithTargets(next, hashes, rs, from + 1);
      forall j | 0 <= j < |page.challenges| ensures Aimed(page.challenges[j], r.value.challenges[j], hashes, rs, from) {
        assert Aimed(challenges[j], r.value.challenges[j], hashes, rs, from + 1);
      }
    }
  }

  lemma {:induction false} BadPortRefused(page: Page, hashes: seq<string>, rs: seq<Routing>, from: nat)
    requires |hashes| == |rs| && exists i :: from <= i < |rs| && Atoi(rs[i].port).None?
    ensures WithTargets(page, hashes, rs, from).Err?
    decreases |hashes| - from
  {
    hide Atoi, ReplaceFirst, HashMark;
    if Atoi(rs[from].port).Some? {
      var next := Page(ReplaceFirst(page.html, HashMark(hashes[from]), HashMark(hashes[from]) + " data-verify=\"1\""),
                       RetargetAll(page.challenges, hashes[from], TargetOf(rs[from])));
      BadPortRefused(next, hashes, rs, from + 1);
    }
  }
}

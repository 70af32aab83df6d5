/** Two lessons that register a quiz their page does not show. The first has it between two fence lines, where
    the line loop takes its placeholder for code. The second has it inside an exercise, which takes the
    placeholder into its own text before there is HTML to put there. Both are cut tag by tag, so they are
    what an author would write. */
module LostLessons {
  import opened Concatenation
  import opened Options
  import opened Text
  import opened Html
  import opened Markdown
  import opened Blocks
  import opened Weaving
  import opened Placeholders
  import opened LostBlocks
  import opened Openings
  import opened DemoLinks
  import opened Lesson
  import opened Agreement

  // ------------------------------------------------------------------------------- Cutting one block

  function Tag(word: string): string {
    "{% " + word + " %}"
  }

  lemma BlanksHere(s: string)
    ensures s != "" && !IsBlank(s[0]) ==> Blanks(s) == 0
    ensures |s| >= 2 && IsBlank(s[0]) && !IsBlank(s[1]) ==> Blanks(s) == 1
  {
    if |s| >= 2 {
      assert s[1..][0] == s[1];
    }
  }

  /** A tag as an author writes it. */
  lemma TagHere(s: string, i: nat, word: string)
    requires At(s, i, Tag(word)) && IsTagWord(word)
    ensures i <= |s| && TagEnd(s, i, word) == Some(i + |word| + 6)
  {
    var t, n := Tag(word), |word|;
    TagLetters(word);
    forall k | 0 <= k < |t| ensures s[i + k] == t[k] {
      LetterAt(s, i, t, k);
    }
    hide Tag;
    assert s[i..i + 2] == "{%" && s[i + 3..i + 3 + n] == word && s[i + 4 + n..i + 6 + n] == "%}";
    BlanksHere(s[i + 2..]);
    BlanksHere(s[i + 3 + n..]);
  }

  lemma TagLetters(word: string)
    requires IsTagWord(word)
    ensures var t, n := Tag(word), |word|;
            && |t| == n + 6 && n > 0 && t[0] == '{' && t[1] == '%' && t[2] == ' ' && !IsBlank(t[3])
            && (forall k | 0 <= k < n :: t[3 + k] == word[k])
            && t[3 + n] == ' ' && t[4 + n] == '%' && t[5 + n] == '}'
  {
  }

  /** A tag is no tag of another word. */
  lemma OtherTag(s: string, i: nat, other: string, word: string)
    requires At(s, i, Tag(other)) && IsTagWord(other) && IsTagWord(word) && other != word
    ensures i <= |s| && TagEnd(s, i, word).None?
  {
    TagHere(s, i, other);
    hide TagEnd, Tag, IsTagWord;
    if TagEnd(s, i, word).Some? {
      OneKind(s, i, other, word);
    }
  }

  lemma NoTag(s: string, i: nat, word: string)
    requires i <= |s| && (i < |s| ==> s[i] != '{')
    ensures TagEnd(s, i, word).None?
  {
    Differs(s, i, "{%", 0);
  }

  lemma {:induction false} FindsTag(s: string, i: nat, p: nat, word: string)
    requires i <= p <= |s| && TagEnd(s, p, word).Some? && forall k: nat | i <= k < p :: TagEnd(s, k, word).None?
    ensures FindTag(s, i, word) == p
    decreases p - i
  {
    hide TagEnd;
    if i < p {
      FindsTag(s, i + 1, p, word);
    }
  }

  lemma {:induction false} FindsNone(s: string, i: nat, word: string)
    requires i <= |s| && forall k: nat | i <= k <= |s| :: TagEnd(s, k, word).None?
    ensures FindTag(s, i, word) > |s|
    decreases |s| - i
  {
    hide TagEnd;
    if i < |s| {
      FindsNone(s, i + 1, word);
    }
  }

  lemma FoundSpan(s: string, word: string, o: nat, i: nat, c: nat, e: nat)
    requires o <= i <= c <= |s|
    requires FindTag(s, 0, word) == o && TagEnd(s, o, word) == Some(i)
    requires FindTag(s, i, "end" + word) == c && TagEnd(s, c, "end" + word) == Some(e)
    ensures FindBlock(s, word) == Some(Span(o, i, c, e))
  {
    hide FindTag, TagEnd;
  }

  lemma CutFirst(s: string, word: string, o: nat, i: nat, c: nat, e: nat)
    requires FindBlock(s, word) == Some(Span(o, i, c, e))
    ensures Cut(s, word) == More(s[..o], Block(s[o..e], s[i..c]), Cut(s[e..], word))
  {
    hide FindBlock;
  }

  lemma CutNone(s: string, word: string)
    requires forall k: nat | k <= |s| :: TagEnd(s, k, word).None?
    ensures Cut(s, word) == End(s)
  {
    hide TagEnd, FindTag;
    FindsNone(s, 0, word);
    assert FindBlock(s, word).None?;
  }

  /** The first block of a text. */
  lemma FindsOne(s: string, o: nat, inner: string, word: string)
    requires word == "quiz" || word == "exercise"
    requires At(s, o, Tag(word)) && At(s, o + |word| + 6 + |inner|, Tag("end" + word))
    requires At(s, o + |word| + 6, inner)
    requires forall k: nat | k < o :: TagEnd(s, k, word).None?
    requires forall k: nat | o + |word| + 6 <= k < o + |word| + 6 + |inner| :: TagEnd(s, k, "end" + word).None?
    ensures FindBlock(s, word)
         == Some(Span(o, o + |word| + 6, o + |word| + 6 + |inner|, o + |word| + 6 + |inner| + |word| + 9))
  {
    hide Tag, TagEnd, FindBlock, FindTag, At;
    var i := o + |word| + 6;
    var c := i + |inner|;
    TagHere(s, o, word);
    TagHere(s, c, "end" + word);
    FindsTag(s, 0, o, word);
    FindsTag(s, i, c, "end" + word);
    FoundSpan(s, word, o, i, c, c + |word| + 9);
  }

  function Tagging(word: string, inner: string): string {
    Tag(word) + inner + Tag("end" + word)
  }

  lemma TagLength(word: string)
    ensures |Tag(word)| == |word| + 6 && |Tag("end" + word)| == |word| + 9
  {
  }

  lemma TaggingSlices(pre: string, inner: string, post: string, word: string)
    ensures var s := pre + Tagging(word, inner) + post;
            var o := |pre|; var i := o + |word| + 6; var c := i + |inner|; var e := c + |word| + 9;
            && At(s, o, Tag(word)) && At(s, i, inner) && At(s, c, Tag("end" + word))
            && s[..o] == pre && s[o..e] == Tagging(word, inner) && s[i..c] == inner && s[e..] == post
  {
    TagLength(word);
    hide Tag;
    BlockSlices(pre, Tag(word), inner, Tag("end" + word), post);
  }

  /** A text with one block of a kind, and no other tag of it around. */
  lemma CutOne(s: string, pre: string, inner: string, post: string, word: string)
    requires (word == "quiz" || word == "exercise") && s == pre + Tagging(word, inner) + post
    requires forall k: nat | k < |pre| :: TagEnd(s, k, word).None?
    requires forall k: nat | |pre| + |word| + 6 <= k < |pre| + |word| + 6 + |inner| :: TagEnd(s, k, "end" + word).None?
    requires forall k: nat | k <= |post| :: TagEnd(post, k, word).None?
    ensures Cut(s, word) == More(pre, Block(Tagging(word, inner), inner), End(post))
  {
    hide Tag, TagEnd, FindBlock, FindTag, At, Cut, Tagging;
    TaggingSlices(pre, inner, post, word);
    var o := |pre|;
    var i := o + |word| + 6;
    var c := i + |inner|;
    FindsOne(s, o, inner, word);
    CutFirst(s, word, o, i, c, c + |word| + 9);
    CutNone(post, word);
  }

  lemma BlockSlices(pre: string, open: string, inner: string, close: string, post: string)
    ensures var s := pre + (open + inner + close) + post;
            var o := |pre|; var i := o + |open|; var c := i + |inner|; var e := c + |close|;
            && At(s, o, open) && At(s, i, inner) && At(s, c, close)
            && s[..o] == pre && s[o..e] == open + inner + close && s[i..c] == inner && s[e..] == post
  {
    var s := pre + (open + inner + close) + post;
    var o := |pre|; var i := o + |open|; var c := i + |inner|; var e := c + |close|;
    assert s[o..i] == open && s[c..e] == close;
  }

  /** One block cut: the text around its placeholder. */
  lemma OneCut(pre: string, b: Block, post: string, k: nat, n: nat)
    requires k < n
    ensures Holes(More(pre, b, End(post))) == [b]
    ensures Spell(Numbered(More(pre, b, End(post)), k), TokenLines(n)) == pre + TokenLine(k) + post
  {
    hide Token;
    assert Numbered(More(pre, b, End(post)), k) == More(pre, k, End(post));
    assert Fill(TokenLines(n), k) == TokenLine(k);
  }

  lemma NoCut(s: string, word: string, k: nat, n: nat)
    requires Free(s, '{')
    ensures Holes(Cut(s, word)) == [] && Spell(Numbered(Cut(s, word), k), TokenLines(n)) == s
  {
    hide TagEnd, Cut;
    forall i: nat | i <= |s| ensures TagEnd(s, i, word).None? {
      NoTag(s, i, word);
    }
    CutNone(s, word);
  }

  // ------------------------------------------------------------------------------- The quiz

  const QUESTION := "1+1?"
  const CHOICE := "- [x] 2"
  const INNER := QUESTION + "\n" + CHOICE

  lemma InnerPlain()
    ensures Free(INNER, '{') && Free(INNER, '<') && TrimSpace(INNER) == INNER
  {
    assert INNER[0] == '1' && INNER[|INNER| - 1] == '2';
    assert TrimLeft(INNER) == INNER;
  }

  lemma InnerLines()
    ensures QuizLines(INNER) == [QUESTION, CHOICE]
  {
    InnerPlain();
    SplitAt(QUESTION, CHOICE);
    SplitOneLine(QUESTION);
    SplitOneLine(CHOICE);
    assert INNER == QUESTION + "\n" + CHOICE;
    hide INNER, QUESTION, CHOICE;
  }

  lemma ReadsQuestion()
    ensures ChoiceOf(QUESTION).None? && TrimSpace(QUESTION) == QUESTION
  {
    assert QUESTION[0] == '1' && QUESTION[|QUESTION| - 1] == '?';
    assert TrimLeft(QUESTION) == QUESTION;
  }

  lemma ReadsChoice()
    ensures ChoiceOf(CHOICE) == Some(Choice("2", true))
  {
    var a, b := CHOICE, CHOICE[2..];
    assert a[0] == '-' && a[1] == ' ' && a[1..][0] == ' ' && a[2] == '[';
    assert b == "[x] 2";
    BlanksHere(a);
    BlanksHere(a[1..]);
    assert a[0..] == a && a[1 + 1..] == b;
    BlanksHere(" 2");
    assert b[3..] == " 2" && " 2"[1..] == "2" && BlanksOff("2") == "2";
  }

  lemma TwoLines(q: string, c: string, choice: Choice)
    requires ChoiceOf(q).None? && TrimSpace(q) == q && q != "" && ChoiceOf(c) == Some(choice)
    ensures Question([q, c]) == [q] && Choices([q, c]) == [choice]
  {
    hide ChoiceOf, TrimSpace;
    assert [q, c][..1] == [q] && [q][..0] == [];
    assert Question([q][..0]) == [] && Choices([q][..0]) == [];
    assert Question([q]) == [q] && Choices([q]) == [];
    assert [q, c][1] == c;
  }

  function QuizOf(x: Setting): Built {
    var hash := x.challengeHash(QUESTION, x.slug);
    Built(BlockHtml("quiz", hash, QuizInner(QUESTION, ChoicesHtml(x, "q-" + Start(hash, 8), [Choice("2", true)]))),
          Challenge(hash, 10, [x.flagHash("2")], None))
  }

  lemma QuizBuilds(x: Setting)
    ensures BuildQuiz(x, INNER) == Ok(QuizOf(x))
  {
    InnerLines();
    ReadsQuestion();
    ReadsChoice();
    assert QUESTION != "";
    hide ChoiceOf, TrimSpace, QUESTION, CHOICE, INNER, BlockHtml, QuizInner, ChoicesHtml;
    TwoLines(QUESTION, CHOICE, Choice("2", true));
    assert Join([QUESTION], " ") == QUESTION;
    var choices := [Choice("2", true)];
    assert choices[..0] == [];
    assert RightFlags(x, choices) == [x.flagHash("2")];
  }

  // ------------------------------------------------------------------------------- A quiz in a fence

  const FENCE := "```"
  const BLOCK := Tagging("quiz", INNER)

  /** Three backquotes, a quiz, three backquotes. */
  const FENCED := FENCE + "\n" + BLOCK + ("\n" + FENCE)

  lemma TagPlain(word: string)
    requires IsTagWord(word)
    ensures Free(Tag(word), '<')
  {
  }

  lemma FreeUnmarked(s: string)
    requires Free(s, '<')
    ensures !Marked(s)
  {
    forall i: nat | i <= |s| ensures !At(s, i, MARKER) {
      Differs(s, i, MARKER, 0);
    }
  }

  lemma BlockPlain()
    ensures Free(BLOCK, '<')
  {
    InnerPlain();
    TagPlain("quiz");
    TagPlain("endquiz");
    hide Tag, INNER, Free;
    FreeConcat(Tag("quiz"), INNER, '<');
    FreeConcat(Tag("quiz") + INNER, Tag("endquiz"), '<');
    assert Tag("end" + "quiz") == Tag("endquiz") by {
      assert "end" + "quiz" == "endquiz";
    }
  }

  lemma FenceIs()
    ensures IsFence(FENCE) && TermOf(FENCE) == None && Free(FENCE, '<') && Free(FENCE, '{') && OneLine(FENCE)
    ensures Free(FENCE + "\n", '<') && Free("\n" + FENCE, '<') && Free(FENCE + "\n", '{') && Free("\n" + FENCE, '{')
  {
    assert FENCE[3..] == "" && TrimSpace("") == "";
  }

  lemma FencedCut()
    ensures !Marked(FENCED) && Cut(FENCED, "quiz") == More(FENCE + "\n", Block(BLOCK, INNER), End("\n" + FENCE))
  {
    BlockPlain();
    FenceIs();
    InnerPlain();
    var pre, post := FENCE + "\n", "\n" + FENCE;
    hide FENCE, INNER, TagEnd, Marked, Cut, Tag;
    assert BLOCK == Tagging("quiz", INNER);
    FreeConcat(pre, BLOCK, '<');
    FreeConcat(pre + BLOCK, post, '<');
    FreeUnmarked(FENCED);
    TagLength("quiz");
    NoTagsIn(FENCED, pre, Tag("quiz"), INNER, Tag("end" + "quiz"), post);
    forall k: nat | k < |pre| ensures TagEnd(FENCED, k, "quiz").None? {
      NoTag(FENCED, k, "quiz");
    }
    forall k: nat | |pre| + 10 <= k < |pre| + 10 + |INNER| ensures TagEnd(FENCED, k, "endquiz").None? {
      NoTag(FENCED, k, "endquiz");
    }
    forall k: nat | k <= |post| ensures TagEnd(post, k, "quiz").None? {
      NoTag(post, k, "quiz");
    }
    assert "end" + "quiz" == "endquiz";
    CutOne(FENCED, pre, INNER, post, "quiz");
  }

  lemma NoTagsIn(s: string, pre: string, open: string, inner: string, close: string, post: string)
    requires s == pre + (open + inner + close) + post
    ensures Free(pre, '{') ==> forall k: nat | k < |pre| :: s[k] != '{'
    ensures Free(inner, '{') ==> forall k: nat | |pre| + |open| <= k < |pre| + |open| + |inner| :: s[k] != '{'
  {
    assert forall k: nat | k < |pre| :: s[k] == pre[k];
    var i := |pre| + |open|;
    assert forall k: nat | i <= k < i + |inner| :: s[k] == inner[k - i];
  }

  lemma FencedText()
    ensures Quizzes(FENCED) == [Block(BLOCK, INNER)] && Exercises(FENCED) == []
    ensures WithoutBlocks(FENCED) == FENCE + "\n" + TokenLine(0) + ("\n" + FENCE)
  {
    FencedCut();
    FenceIs();
    TokenPlain(0);
    hide FENCE, FENCED, BLOCK, INNER, Cut, Token, Spell, TokenLines, Numbered, Holes;
    OneQuiz(FENCED, FENCE + "\n", Block(BLOCK, INNER), "\n" + FENCE);
  }

  /** A lesson of one quiz in text without tags. */
  lemma OneQuiz(body: string, pre: string, b: Block, post: string)
    requires Cut(body, "quiz") == More(pre, b, End(post)) && Free(pre, '{') && Free(post, '{')
    ensures Quizzes(body) == [b] && Exercises(body) == [] && WithoutBlocks(body) == pre + TokenLine(0) + post
  {
    var left := pre + TokenLine(0) + post;
    TokenLinePlain(1);
    assert TokenLines(1)[0] == TokenLine(0);
    hide Cut, Token, Spell, TokenLine, TokenLines, Numbered, Holes, Free;
    FreeConcat(pre, TokenLine(0), '{');
    FreeConcat(pre + TokenLine(0), post, '{');
    OneCut(pre, b, post, 0, 1);
    assert WithoutQuizzes(body) == left;
    NoCut(left, "exercise", 1, 1);
  }

  lemma Regroup5(a: string, n: string, t: string, b: string)
    ensures a + n + n + t + n + (n + b) == a + n + (n + t + n) + (n + b)
  {
  }

  lemma LinesAround(pre: string, k: nat, post: string)
    ensures Split(pre + "\n" + TokenLine(k) + ("\n" + post)) == Split(pre) + ["", Token(k), ""] + Split(post)
  {
    TokenPlain(k);
    SplitOneLine("");
    Regroup5(pre, "\n", Token(k), post);
    hide Split, OneLine, Token;
    SplitEnds(pre, post);
    SplitAround(pre + "\n", Token(k), "\n" + post);
    assert Split(pre) + [""] + [Token(k)] + ([""] + Split(post)) == Split(pre) + ["", Token(k), ""] + Split(post);
  }

  lemma SplitEnds(pre: string, post: string)
    ensures Split(pre + "\n") == Split(pre) + [""] && Split("\n" + post) == [""] + Split(post)
  {
    SplitOneLine("");
    hide Split;
    SplitAt(pre, "");
    SplitAt("", post);
    assert pre + "\n" + "" == pre + "\n" && "" + "\n" + post == "\n" + post;
  }

  lemma FramedLines(body: string, pre: string, post: string)
    requires OneLine(pre) && OneLine(post) && WithoutBlocks(body) == pre + "\n" + TokenLine(0) + ("\n" + post)
    ensures LinesOfLesson(body) == [pre, "", Token(0), "", post]
  {
    hide *;
    SplitOneLine(pre);
    SplitOneLine(post);
    LinesIs(body);
    LinesAround(pre, 0, post);
    FiveParts(pre, "", Token(0), "", post);
  }

  lemma FiveParts(a: string, b: string, c: string, d: string, e: string)
    ensures [a] + [b, c, d] + [e] == [a, b, c, d, e]
  {
  }

  lemma FencedLines()
    ensures LinesOfLesson(FENCED) == [FENCE, "", Token(0), "", FENCE]
  {
    hide *;
    FencedText();
    FenceIs();
    FramedLines(FENCED, FENCE, FENCE);
  }

  lemma LinesIs(body: string)
    ensures LinesOfLesson(body) == Split(WithoutBlocks(body))
  {
  }

  lemma FencedEnds(lines: seq<string>)
    requires lines == [FENCE, "", Token(0), "", FENCE]
    ensures FenceEnd(lines, 1) == 4 && IsFence(lines[0])
    ensures lines[1..4] == ["", Token(0), ""]
    ensures Chunks(lines, 0) == [FenceHtml(FENCE, Escapes(["", Token(0), ""]))]
  {
    FenceIs();
    TokenPlain(0);
    hide FENCE, Token, FenceHtml, Escapes;
    assert !IsFence(Token(0)) && !IsFence("");
    assert FenceEnd(lines, 4) == 4;
    assert FenceEnd(lines, 3) == 4;
    assert FenceEnd(lines, 2) == 4;
    assert lines[0 + 1..FenceEnd(lines, 0 + 1)] == ["", Token(0), ""];
    assert StepAt(lines, 0) == Step(Some(FenceHtml(FENCE, Escapes(["", Token(0), ""]))), 5);
    assert Chunks(lines, 5) == [];
  }

  /** The page of the fenced lesson: the fence, and in it the name of a placeholder. */
  function FencePage(): string
  {
    FenceIs();
    FenceHtml(FENCE, Escapes(["", Token(0), ""]))
  }

  lemma FencedIsFenced()
    ensures BlockFenced(FENCED, 0) && Rendered(WithoutBlocks(FENCED)) == FencePage()
  {
    FencedLines();
    var lines := LinesOfLesson(FENCED);
    FencedEnds(lines);
    hide FENCE, FENCED, Token, Split, WithoutBlocks, Chunks, FenceHtml, Escapes, IsFence, FenceEnd;
    assert Fenced(lines, 0, 2);
    assert lines[2] == Token(0);
    assert Join([FencePage()], "\n") == FencePage();
  }

  lemma EntitiesQuoteFree()
    ensures forall c :: Free(Entity(c), '"')
  {
  }

  lemma {:induction false} JoinFree(parts: seq<string>)
    requires forall k | 0 <= k < |parts| :: Free(parts[k], '"')
    ensures Free(Join(parts, "\n"), '"')
  {
    if |parts| > 1 {
      JoinFree(parts[1..]);
      FreeConcat(parts[0], "\n", '"');
      FreeConcat(parts[0] + "\n", Join(parts[1..], "\n"), '"');
    }
  }

  lemma ElementFree(name: string, inner: string)
    ensures Free(name, '"') && Free(inner, '"') ==> Free(Element(name, "", inner), '"')
  {
  }

  lemma FencePageTerms(terminals: nat)
    ensures TermsKnown(FencePage(), terminals)
  {
    var lines := ["", Token(0), ""];
    FenceIs();
    EntitiesQuoteFree();
    hide Token, FENCE, Element, IsFence, TermOf;
    forall k | 0 <= k < 3 ensures Free(Escapes(lines)[k], '"') {
      EscapeFree(lines[k], Entity, '"');
    }
    hide Free, Escape, Escapes;
    JoinFree(Escapes(lines));
    hide Join;
    assert Free("code", '"') && Free("pre", '"') by {
      WordsFree();
    }
    ElementFree("code", Join(Escapes(lines), "\n"));
    ElementFree("pre", Element("code", "", Join(Escapes(lines), "\n")));
    FreeTerms(FencePage(), terminals);
  }

  lemma WordsFree()
    ensures Free("code", '"') && Free("pre", '"')
  {
  }

  lemma FreeTerms(s: string, terminals: nat)
    requires Free(s, '"')
    ensures TermsKnown(s, terminals)
  {
    forall i: nat | i <= |s| ensures !At(s, i, "data-term=\"") {
      Differs(s, i, "data-term=\"", 10);
    }
  }

  lemma OneBuildAll(x: Setting, kind: Kind, b: Block)
    ensures Build(x, kind, b.inner).Ok? ==> BuildAll(x, kind, [b]) == Ok([Build(x, kind, b.inner).value])
  {
    hide Build;
    assert [b][1..] == [] && BuildAll(x, kind, []) == Ok([]);
    if Build(x, kind, b.inner).Ok? {
      var built := Build(x, kind, b.inner).value;
      assert [built] + [] == [built];
    }
  }

  lemma OneQuizCompiles(x: Setting, body: string, raw: string)
    requires Quizzes(body) == [Block(raw, INNER)] && Exercises(body) == []
    ensures Compile(x, body) == Assembled(x, body, [QuizOf(x)], []) && Compiled(x, body, [QuizOf(x)], [])
  {
    QuizBuilds(x);
    hide BuildQuiz, QuizOf, Quizzes, Exercises, INNER, Assembled;
    OneBuildAll(x, Quiz, Block(raw, INNER));
    assert BuildAll(x, Exercise, []) == Ok([]);
  }

  lemma NoExercisesAssembled(x: Setting, body: string, quizzes: seq<Built>)
    requires TermsKnown(PageOf(body, Htmls(quizzes)), x.terminals)
    ensures Assembled(x, body, quizzes, []) == Ok(Page(PageOf(body, Htmls(quizzes)), Challenges(quizzes)))
  {
    hide TermsKnown, PageOf, Anchors, Authored;
    assert quizzes + [] == quizzes;
    assert HashesOf([]) == [];
  }

  lemma OneLost(body: string, html: string)
    requires !Contains(Rendered(WithoutBlocks(body)), Token(0))
    ensures PageOf(body, [html]) == Rendered(WithoutBlocks(body))
  {
    hide Contains, Token, Rendered, WithoutBlocks, ReplaceFirst;
    NotThere(Rendered(WithoutBlocks(body)), Token(0), html);
    assert Substituted(Rendered(WithoutBlocks(body)), [html], 1) == Rendered(WithoutBlocks(body));
  }

  /** A lesson with a quiz in a fence compiles: it registers the quiz, and its page is a fence without it. */
  lemma FencedLesson(x: Setting)
    ensures BlockFenced(FENCED, 0) && !Marked(FENCED)
    ensures Compile(x, FENCED) == Ok(Page(FencePage(), [QuizOf(x).challenge]))
  {
    hide *;
    FencedCut();
    FencedText();
    FencedIsFenced();
    OneBlock(FENCED, Block(BLOCK, INNER));
    ComesOutIff(FENCED, 0);
    OneLost(FENCED, QuizOf(x).html);
    OneQuizCompiles(x, FENCED, BLOCK);
    FencePageTerms(x.terminals);
    OneBuilt(QuizOf(x));
    NoExercisesAssembled(x, FENCED, [QuizOf(x)]);
  }

  lemma OneBlock(body: string, b: Block)
    requires Quizzes(body) == [b] && Exercises(body) == []
    ensures |BlockTexts(body)| == 1
  {
    hide Quizzes, Exercises;
  }

  lemma OneBuilt(b: Built)
    ensures Htmls([b]) == [b.html] && Challenges([b]) == [b.challenge]
  {
  }

  // ------------------------------------------------------------------------------- A quiz in an exercise

  const TASK := "Try it. "
  const HEAD := Tag("exercise") + TASK

  /** A quiz inside an exercise. */
  const NESTED := HEAD + BLOCK + Tag("endexercise")

  lemma HeadIs()
    ensures |HEAD| == 22 && At(HEAD, 0, Tag("exercise")) && forall k | 1 <= k < |HEAD| :: HEAD[k] != '{'
    ensures Free(HEAD, '<') && Free(Tag("endexercise"), '<')
    ensures |Tag("endexercise")| == 17 && forall k | 1 <= k < 17 :: Tag("endexercise")[k] != '{'
  {
  }

  /** The quiz tag is not that of an exercise. */
  lemma NestedQuizTags()
    ensures forall k: nat | k < |HEAD| :: TagEnd(NESTED, k, "quiz").None?
    ensures forall k: nat | k <= 17 :: TagEnd(Tag("endexercise"), k, "quiz").None?
  {
    HeadIs();
    hide TagEnd, BLOCK, Tag, HEAD;
    forall k: nat | k < |HEAD| ensures TagEnd(NESTED, k, "quiz").None? {
      if k == 0 {
        AtFront(HEAD, Tag("exercise"), BLOCK + Tag("endexercise"));
        Associate(HEAD, BLOCK, Tag("endexercise"));
        OtherTag(NESTED, 0, "exercise", "quiz");
      } else {
        NoTag(NESTED, k, "quiz");
      }
    }
    forall k: nat | k <= 17 ensures TagEnd(Tag("endexercise"), k, "quiz").None? {
      if k == 0 {
        AtFront(Tag("endexercise"), Tag("endexercise"), "");
        OtherTag(Tag("endexercise"), 0, "endexercise", "quiz");
      } else {
        NoTag(Tag("endexercise"), k, "quiz");
      }
    }
  }

  lemma AtFront(a: string, t: string, b: string)
    ensures At(a, 0, t) ==> At(a + b, 0, t)
    ensures At(a, 0, a)
  {
    if At(a, 0, t) {
      assert (a + b)[..|t|] == a[..|t|];
    }
  }

  lemma NestedCut()
    ensures !Marked(NESTED) && Cut(NESTED, "quiz") == More(HEAD, Block(BLOCK, INNER), End(Tag("endexercise")))
  {
    HeadIs();
    BlockPlain();
    InnerPlain();
    NestedQuizTags();
    var post := Tag("endexercise");
    hide Tag, TagEnd, HEAD, INNER, Marked, Cut;
    assert BLOCK == Tagging("quiz", INNER);
    FreeConcat(HEAD, BLOCK, '<');
    FreeConcat(HEAD + BLOCK, post, '<');
    FreeUnmarked(NESTED);
    TagLength("quiz");
    NoTagsIn(NESTED, HEAD, Tag("quiz"), INNER, Tag("end" + "quiz"), post);
    forall k: nat | |HEAD| + 10 <= k < |HEAD| + 10 + |INNER| ensures TagEnd(NESTED, k, "endquiz").None? {
      NoTag(NESTED, k, "endquiz");
    }
    assert "end" + "quiz" == "endquiz";
    CutOne(NESTED, HEAD, INNER, post, "quiz");
  }

  function Inside(): string {
    TASK + TokenLine(0)
  }

  lemma NestedLeft()
    ensures Quizzes(NESTED) == [Block(BLOCK, INNER)]
    ensures WithoutQuizzes(NESTED) == Tagging("exercise", Inside())
  {
    NestedCut();
    hide NESTED, BLOCK, INNER, Cut, Token, Spell, TokenLine, TokenLines, Numbered, Holes;
    OneCut(HEAD, Block(BLOCK, INNER), Tag("endexercise"), 0, 1);
    assert "end" + "exercise" == "endexercise";
    hide Tag;
    Associate(Tag("exercise"), TASK, TokenLine(0));
  }

  lemma InsidePlain()
    ensures Free(Inside(), '{')
  {
    TokenLinePlain(1);
    assert TokenLines(1)[0] == TokenLine(0);
    hide TokenLine, Token;
  }

  /** A text that is one exercise. */
  lemma OneExercise(s: string, inner: string)
    requires s == Tagging("exercise", inner) && Free(inner, '{')
    ensures Cut(s, "exercise") == More("", Block(s, inner), End(""))
  {
    TagLength("exercise");
    hide Tag, Cut, TagEnd;
    assert s == "" + s + "";
    NoTagsIn(s, "", Tag("exercise"), inner, Tag("end" + "exercise"), "");
    assert "end" + "exercise" == "endexercise";
    forall k: nat | 14 <= k < 14 + |inner| ensures TagEnd(s, k, "endexercise").None? {
      NoTag(s, k, "endexercise");
    }
    NoTag("", 0, "exercise");
    CutOne(s, "", inner, "", "exercise");
  }

  lemma NestedText()
    ensures Quizzes(NESTED) == [Block(BLOCK, INNER)]
    ensures Exercises(NESTED) == [Block(Tagging("exercise", Inside()), Inside())]
    ensures WithoutBlocks(NESTED) == TokenLine(1)
  {
    NestedLeft();
    InsidePlain();
    hide NESTED, BLOCK, INNER, Cut, Token, Spell, TokenLine, TokenLines, Numbered, Holes, Tagging, Inside, Free;
    var s, inner := Tagging("exercise", Inside()), Inside();
    OneExercise(s, inner);
    OneCut("", Block(s, inner), "", 1, 2);
    assert "" + TokenLine(1) + "" == TokenLine(1);
  }

  lemma InTheMiddle(a: string, b: string, t: string, c: string)
    ensures Contains(a + (b + ("\n" + t + "\n")) + c, t)
  {
    var pre, post := a + b + "\n", "\n" + c;
    assert a + (b + ("\n" + t + "\n")) + c == pre + t + post;
    assert (pre + t + post)[|pre|..|pre| + |t|] == t;
    assert At(pre + t + post, |pre|, t);
  }

  lemma InsideHoldsToken()
    ensures Contains(Tagging("exercise", Inside()), Token(0))
  {
    hide Token, Tag, TASK, Contains;
    InTheMiddle(Tag("exercise"), TASK, Token(0), Tag("end" + "exercise"));
  }

  lemma NestedIsNested()
    ensures BlockNested(NESTED, 0)
  {
    NestedText();
    InsideHoldsToken();
    hide Token, Contains, Tagging, Inside, NESTED, Exercises, Quizzes, WithoutBlocks;
    assert Contains(Exercises(NESTED)[0].raw, Token(0));
  }

  lemma TokenLineChunks(k: nat)
    ensures Rendered(TokenLine(k)) == Token(k)
  {
    TokenPlain(k);
    SplitOneLine("");
    hide Token;
    SplitAround("", Token(k), "");
    assert "" + "\n" + Token(k) + "\n" + "" == TokenLine(k);
    var lines := ["", Token(k), ""];
    assert Split(TokenLine(k)) == lines;
    hide Split;
    RawLine(lines, 1);
    EmptyLine(lines, 0);
    EmptyLine(lines, 2);
    hide StepAt;
    assert Chunks(lines, 3) == [];
    assert Chunks(lines, 2) == [];
    assert Chunks(lines, 1) == [Token(k)];
    assert Chunks(lines, 0) == [Token(k)];
  }

  lemma EmptyLine(lines: seq<string>, i: nat)
    requires i < |lines| && lines[i] == ""
    ensures StepAt(lines, i) == Step(None, i + 1)
  {
    hide FenceHtml, HeadingHtml, ItemHtml, Element, Escape, Inline, Items, FenceEnd, ItemsEnd, Escapes;
  }

  /** The exercise's text keeps the placeholder of the quiz. */
  function TextLeft(): string {
    TASK + "\n" + Token(0)
  }

  lemma InsideTrims()
    ensures TrimSpace(Inside()) == TextLeft()
  {
    TokenEnds(0);
    hide Token;
    var s := Inside();
    assert s == TextLeft() + "\n";
    assert s[0] == 'T' && TrimLeft(s) == s;
    assert s[..|s| - 1] == TextLeft();
    assert TrimRight(TextLeft()) == TextLeft();
  }

  lemma TokenEnds(k: nat)
    ensures Token(k) != "" && Token(k)[|Token(k)| - 1] == '>'
  {
  }

  function ExerciseOf(x: Setting): Built
    requires ExerciseFlags(x).Ok?
  {
    var hash := x.challengeHash(TextLeft(), x.slug);
    Built(ExerciseHtml(TextLeft(), hash, DEFAULT), Challenge(hash, 20, ExerciseFlags(x).value, None))
  }

  lemma ExerciseBuilds(x: Setting)
    requires ExerciseFlags(x).Ok?
    ensures BuildExercise(x, Inside()) == Ok(ExerciseOf(x))
  {
    InsideTrims();
    TokenEnds(0);
    hide TrimSpace, Inside, Token, ExerciseHtml, ExerciseFlags;
  }

  /** Placeholders of both blocks, of which only the exercise's is a line of the page. */
  lemma TwoSubstituted(page: string, quiz: string, exercise: string)
    requires page == Token(1)
    ensures Substituted(page, [quiz, exercise], 0) == exercise
  {
    TokenApart(0, 1);
    hide Token, Contains;
    NotThere(page, Token(0), quiz);
    assert "" + Token(1) + "" == Token(1);
    ReplaceThere("", Token(1), "", exercise);
    assert "" + exercise + "" == exercise;
    hide ReplaceFirst;
    assert Substituted(exercise, [quiz, exercise], 2) == exercise;
    assert Substituted(page, [quiz, exercise], 1) == exercise;
  }

  lemma TwoCompile(x: Setting, body: string, quiz: Block, exercise: Block)
    requires Quizzes(body) == [quiz] && Exercises(body) == [exercise]
    requires BuildQuiz(x, quiz.inner).Ok? && BuildExercise(x, exercise.inner).Ok?
    ensures Compiled(x, body, [BuildQuiz(x, quiz.inner).value], [BuildExercise(x, exercise.inner).value])
  {
    hide BuildQuiz, BuildExercise, Quizzes, Exercises;
    OneBuildAll(x, Quiz, quiz);
    OneBuildAll(x, Exercise, exercise);
  }

  lemma NestedPage(quiz: Built, exercise: Built)
    ensures PageOf(NESTED, Htmls([quiz] + [exercise])) == exercise.html
  {
    hide *;
    NestedText();
    TokenLineChunks(1);
    TwoHtmls(quiz, exercise);
    TwoSubstituted(Rendered(WithoutBlocks(NESTED)), quiz.html, exercise.html);
    PageIs(NESTED, Htmls([quiz] + [exercise]));
  }

  lemma TwoHtmls(quiz: Built, exercise: Built)
    ensures Htmls([quiz] + [exercise]) == [quiz.html, exercise.html]
  {
  }

  lemma ExerciseOfIs(x: Setting)
    requires ExerciseFlags(x).Ok?
    ensures ExerciseOf(x).html == ExerciseHtml(TASK + "\n" + Token(0),
                                               x.challengeHash(TASK + "\n" + Token(0), x.slug), DEFAULT)
  {
    hide ExerciseHtml, Token, TASK, ExerciseFlags;
  }

  /** A lesson with a quiz in an exercise: both blocks compile, and the page before its links are paired is the
      exercise alone, with the placeholder of the quiz in its text. */
  lemma NestedBlocks(x: Setting)
    requires ExerciseFlags(x).Ok?
    ensures BlockNested(NESTED, 0) && !Marked(NESTED)
    ensures Compiled(x, NESTED, [QuizOf(x)], [ExerciseOf(x)])
    ensures PageOf(NESTED, Htmls([QuizOf(x)] + [ExerciseOf(x)]))
         == ExerciseHtml(TASK + "\n" + Token(0), x.challengeHash(TASK + "\n" + Token(0), x.slug), DEFAULT)
  {
    hide *;
    NestedCut();
    NestedText();
    NestedIsNested();
    QuizBuilds(x);
    ExerciseBuilds(x);
    TwoCompile(x, NESTED, Block(BLOCK, INNER), Block(Tagging("exercise", Inside()), Inside()));
    NestedPage(QuizOf(x), ExerciseOf(x));
    ExerciseOfIs(x);
  }
}

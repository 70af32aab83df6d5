/** Lessons that ship without a block their author opened: a quiz in an exercise, an exercise in a quiz, and a block
    that is never closed. */
module SilentLessons {
  import opened Concatenation
  import opened Decimal
  import opened Options
  import opened Text
  import opened Search
  import opened Html
  import opened Markdown
  import opened Blocks
  import opened Weaving
  import opened Placeholders
  import opened LostBlocks
  import opened Openings
  import opened DemoLinks
  import opened Lesson
  import opened Agreement
  import opened LostLessons
  import opened Rerouting
  import opened Marks
  import opened Finishing
  import opened References

  // ------------------------------------------------------------------------------- Plain lines

  /** Text that Markdown and HTML leave as it is. */
  predicate Plain(s: string) {
    forall i | 0 <= i < |s| :: s[i] !in "&'<>\"`*[="
  }

  lemma {:induction false} EscapeSame(s: string)
    requires Plain(s)
    ensures Escape(s, Entity) == s
  {
    if s != "" {
      assert s[0] !in "&'<>\"`*[=";
      EscapeSame(s[1..]);
    }
  }

  lemma {:induction false} NotIndexed(s: string, c: char)
    requires Free(s, c)
    ensures IndexOf(s, c) == |s|
  {
    if s != "" {
      NotIndexed(s[1..], c);
    }
  }

  lemma PlainFree(s: string)
    requires Plain(s)
    ensures Free(s, '`') && Free(s, '*') && Free(s, '[') && Free(s, '=') && Free(s, '"') && Free(s, '<')
  {
  }

  lemma InlineSame(s: string)
    requires Plain(s)
    ensures Inline(Escape(s, Entity)) == s
  {
    EscapeSame(s);
    PlainFree(s);
    NotIndexed(s, '`');
    NotIndexed(s, '[');
    assert Codes(s) == s;
    forall i: nat | i <= |s| ensures !At(s, i, "**") {
      Differs(s, i, "**", 0);
    }
    assert BoldHere(s).None?;
  }

  /** A line that is no fence, heading, item or raw HTML. */
  lemma PlainLine(lines: seq<string>, i: nat)
    requires i < |lines| && Plain(lines[i]) && lines[i] != "" && TrimSpace(lines[i]) != ""
    requires lines[i][0] !in "`#-*" && TrimSpace(lines[i])[0] != '<'
    ensures StepAt(lines, i) == Step(Some(Element("p", "", lines[i])), i + 1)
  {
    InlineSame(lines[i]);
    assert Hashes(lines[i]) == 0;
    hide Inline, Escape, TrimSpace, FenceHtml, HeadingHtml, ItemHtml, Items, Element;
  }

  // ------------------------------------------------------------------------------- A block that is never closed

  /** An exercise without its closing tag. */
  const UNCLOSED := Tag("exercise") + TASK

  lemma UnclosedIs()
    ensures Plain(UNCLOSED) && OneLine(UNCLOSED) && |UNCLOSED| > 14 && UNCLOSED[0] == '{'
    ensures At(UNCLOSED, 0, Tag("exercise")) && forall k | 1 <= k < |UNCLOSED| :: UNCLOSED[k] != '{'
  {
    assert UNCLOSED[..14] == Tag("exercise");
  }

  lemma UnclosedTags(word: string)
    requires IsTagWord(word) && word != "exercise"
    ensures NoneOf(UNCLOSED, word)
  {
    UnclosedIs();
    hide TagEnd, UNCLOSED, Tag, IsTagWord;
    forall k: nat | k <= |UNCLOSED| ensures TagEnd(UNCLOSED, k, word).None? {
      if k == 0 {
        assert IsTagWord("exercise") by {
          KindWords("exercise");
        }
        OtherTag(UNCLOSED, 0, "exercise", word);
      } else {
        NoTag(UNCLOSED, k, word);
      }
    }
  }

  /** Without a closing tag there is no block. */
  lemma NeverClosed(s: string, word: string)
    requires IsKind(word) && NoneOf(s, "end" + word)
    ensures Cut(s, word) == End(s)
  {
    hide TagEnd;
    assert FindBlock(s, word).None?;
  }

  lemma NoBlocks(s: string)
    requires Cut(s, "quiz") == End(s) && Cut(s, "exercise") == End(s)
    ensures Quizzes(s) == [] && Exercises(s) == [] && WithoutBlocks(s) == s
  {
    hide Cut;
    assert Numbered(Cut(s, "quiz"), 0) == End(s);
    assert WithoutQuizzes(s) == s;
    assert Numbered(Cut(s, "exercise"), 0) == End(s);
  }

  lemma UnclosedBlocks()
    ensures Quizzes(UNCLOSED) == [] && Exercises(UNCLOSED) == [] && WithoutBlocks(UNCLOSED) == UNCLOSED
  {
    assert "end" + "exercise" == "endexercise" && "end" + "quiz" == "endquiz";
    KindWords("quiz");
    KindWords("exercise");
    hide NoneOf, UNCLOSED, Cut, Quizzes, Exercises, WithoutBlocks;
    UnclosedTags("endquiz");
    UnclosedTags("endexercise");
    NeverClosed(UNCLOSED, "quiz");
    NeverClosed(UNCLOSED, "exercise");
    NoBlocks(UNCLOSED);
  }

  lemma UnclosedRendered()
    ensures Rendered(UNCLOSED) == Element("p", "", UNCLOSED)
  {
    UnclosedIs();
    SplitOneLine(UNCLOSED);
    TrimStarts(UNCLOSED);
    hide UNCLOSED, Plain, OneLine, TrimSpace, Split, Element;
    PlainLine([UNCLOSED], 0);
    hide StepAt;
    assert Chunks([UNCLOSED], 1) == [];
    assert Chunks([UNCLOSED], 0) == [Element("p", "", UNCLOSED)];
  }

  lemma {:induction false} TrimRightStarts(s: string)
    requires s != "" && !IsSpace(s[0])
    ensures TrimRight(s) != "" && TrimRight(s)[0] == s[0]
  {
    if IsSpace(s[|s| - 1]) {
      TrimRightStarts(s[..|s| - 1]);
    }
  }

  /** Trimming keeps a first character that is no white space. */
  lemma TrimStarts(s: string)
    requires s != "" && !IsSpace(s[0])
    ensures TrimSpace(s) != "" && TrimSpace(s)[0] == s[0]
  {
    TrimRightStarts(s);
  }

  lemma NoBlocksCompile(x: Setting, body: string)
    requires Quizzes(body) == [] && Exercises(body) == [] && TermsKnown(Rendered(WithoutBlocks(body)), x.terminals)
    ensures Compile(x, body) == Ok(Page(Rendered(WithoutBlocks(body)), []))
  {
    hide Quizzes, Exercises, WithoutBlocks, Rendered, TermsKnown;
    assert BuildAll(x, Quiz, []) == Ok([]) && BuildAll(x, Exercise, []) == Ok([]);
    assert Htmls([]) == [] && Challenges([]) == [];
    assert PageOf(body, Htmls([])) == Rendered(WithoutBlocks(body));
    NoExercisesAssembled(x, body, []);
  }

  /** A lesson whose exercise is never closed compiles: it registers nothing, and its page shows the tag as text. */
  lemma UnclosedLesson(x: Setting)
    ensures !Marked(UNCLOSED) && NoQuizInExercise(UNCLOSED) && NoBlockInFence(UNCLOSED) && !EachClosedFirst(UNCLOSED)
    ensures Compile(x, UNCLOSED) == Ok(Page("<p>" + UNCLOSED + "</p>", []))
  {
    hide *;
    UnclosedBlocks();
    UnclosedRendered();
    UnclosedTerms(x.terminals);
    NoBlocksCompile(x, UNCLOSED);
    UnclosedClear();
    UnclosedNot();
  }

  lemma UnclosedTerms(terminals: nat)
    ensures TermsKnown(Element("p", "", UNCLOSED), terminals) && Element("p", "", UNCLOSED) == "<p>" + UNCLOSED + "</p>"
  {
    UnclosedIs();
    PlainFree(UNCLOSED);
    FreeUnreferring(UNCLOSED);
    FreeUnreferring("");
    assert "<" + "p" + "" + ">" == "<p>" && "</" + "p" + ">" == "</p>";
    AssociateThree("<p>" + UNCLOSED, "</", "p", ">");
    hide UNCLOSED, Element, TermsKnown, Unreferring;
    ElementUnreferring("p", "", UNCLOSED);
    NoneReferred(Element("p", "", UNCLOSED), terminals);
  }

  lemma UnclosedClear()
    ensures !Marked(UNCLOSED) && NoQuizInExercise(UNCLOSED) && NoBlockInFence(UNCLOSED)
  {
    UnclosedIs();
    PlainFree(UNCLOSED);
    FreeUnmarked(UNCLOSED);
    UnclosedBlocks();
    SplitOneLine(UNCLOSED);
    assert Split(WithoutBlocks(UNCLOSED)) == [UNCLOSED];
    hide Marked, UNCLOSED, Quizzes, Exercises, WithoutBlocks, Split, Plain;
    OneLineClear([UNCLOSED]);
    UnclosedNone();
  }

  lemma OneLineClear(lines: seq<string>)
    requires |lines| == 1 && !Marked(lines[0])
    ensures FencesClear(lines, 0)
  {
    hide Marked;
    FencesClearMeans(lines, 0);
  }

  lemma UnclosedNone()
    ensures NoQuizInExercise(UNCLOSED)
  {
    assert "end" + "exercise" == "endexercise" && "end" + "quiz" == "endquiz";
    KindWords("quiz");
    hide NoneOf, UNCLOSED, Cut, Quizzes, Exercises;
    UnclosedTags("endquiz");
    UnclosedTags("endexercise");
    NeverClosed(UNCLOSED, "quiz");
    NeverClosed(UNCLOSED, "exercise");
    assert WithoutQuizzes(UNCLOSED) == UNCLOSED;
  }

  lemma UnclosedNot()
    ensures !EachClosedFirst(UNCLOSED)
  {
    UnclosedIs();
    KindWords("exercise");
    TagHere(UNCLOSED, 0, "exercise");
    UnclosedTags("endexercise");
    assert "end" + "exercise" == "endexercise";
    hide TagEnd, UNCLOSED, Tag, OpensAt;
    assert !ClosedFirst(UNCLOSED, 14, "exercise");
  }

  // ------------------------------------------------------------------------------- An exercise in a quiz

  const TAKEN := Tagging("exercise", TASK)
  const ASKED := QUESTION + "\n" + TAKEN + ("\n" + CHOICE)

  /** A quiz with an exercise inside. */
  const SWALLOWED := Tagging("quiz", ASKED)

  lemma NoneOfConcat(a: string, b: string, word: string)
    requires IsTagWord(word) && NoneOf(a, word) && NoneOf(b, word)
    requires Stopper(b) || (a != "" && a[|a| - 1] == '}')
    ensures NoneOf(a + b, word)
  {
    hide TagEnd, IsTagWord;
    forall k: nat | k <= |a + b| ensures TagEnd(a + b, k, word).None? {
      if TagEnd(a + b, k, word).Some? {
        if k >= |a| {
          TagBehind(a, b, k - |a|, word);
        } else if Stopper(b) {
          TagInFront(a, b, k, word);
        } else {
          TagInRaw(a, b, k, word);
        }
      }
    }
  }

  lemma NoneOfFree(s: string, word: string)
    requires Free(s, '{')
    ensures NoneOf(s, word)
  {
    hide TagEnd;
    forall k: nat | k <= |s| ensures TagEnd(s, k, word).None? {
      NoTag(s, k, word);
    }
  }

  lemma TagEnds(word: string)
    requires IsTagWord(word)
    ensures var t := Tag(word); |t| == |word| + 6 && t[0] == '{' && t[|t| - 1] == '}' && Stopper(t)
    ensures forall k | 1 <= k < |Tag(word)| :: Tag(word)[k] != '{'
  {
  }

  lemma NoneOfTag(other: string, word: string)
    requires IsTagWord(other) && IsTagWord(word) && other != word
    ensures NoneOf(Tag(other), word)
  {
    var s := Tag(other);
    TagEnds(other);
    hide TagEnd, Tag, IsTagWord;
    assert At(s, 0, s) by {
      assert s[..|s|] == s;
    }
    forall k: nat | k <= |s| ensures TagEnd(s, k, word).None? {
      if k == 0 {
        OtherTag(s, 0, other, word);
      } else {
        NoTag(s, k, word);
      }
    }
  }

  lemma AskedFree()
    ensures Free(QUESTION + "\n", '{') && Free(TASK, '{') && Free("\n" + CHOICE, '{')
    ensures IsTagWord("endquiz") && IsTagWord("exercise") && IsTagWord("endexercise")
            && "end" + "exercise" == "endexercise"
    ensures "end" + "quiz" == "endquiz" && IsTagWord("quiz")
  {
  }

  lemma TakenNone(word: string)
    requires word == "quiz" || word == "endquiz"
    ensures NoneOf(TAKEN, word) && Stopper(TAKEN) && TAKEN != "" && TAKEN[0] == '{' && TAKEN[|TAKEN| - 1] == '}'
  {
    AskedFree();
    TagEnds("exercise");
    TagEnds("endexercise");
    hide TagEnd, Tag, NoneOf, IsTagWord, TASK, Free;
    NoneOfTag("exercise", word);
    NoneOfTag("endexercise", word);
    NoneOfFree(TASK, word);
    NoneOfConcat(Tag("exercise"), TASK, word);
    NoneOfConcat(Tag("exercise") + TASK, Tag("endexercise"), word);
    assert (Tag("exercise") + TASK + Tag("endexercise"))[0] == Tag("exercise")[0];
  }

  lemma AskedNone(word: string)
    requires word == "quiz" || word == "endquiz"
    ensures NoneOf(ASKED, word)
  {
    AskedFree();
    TakenNone(word);
    hide TagEnd, Tag, NoneOf, IsTagWord, TAKEN, Free, QUESTION, CHOICE, Stopper;
    NoneOfFree(QUESTION + "\n", word);
    NoneOfFree("\n" + CHOICE, word);
    NoneOfConcat(QUESTION + "\n", TAKEN, word);
    EndsWith(QUESTION + "\n", TAKEN);
    NoneOfConcat(QUESTION + "\n" + TAKEN, "\n" + CHOICE, word);
  }

  lemma EndsWith(a: string, b: string)
    ensures b != "" ==> a + b != "" && (a + b)[|a + b| - 1] == b[|b| - 1]
  {
  }

  lemma SwallowedParts()
    ensures "" + SWALLOWED + "" == SWALLOWED && Tag("quiz") + (ASKED + Tag("endquiz")) == SWALLOWED
            && |Tag("quiz")| == 10
  {
    TagEnds("quiz");
    hide ASKED;
    assert "end" + "quiz" == "endquiz";
    Associate(Tag("quiz"), ASKED, Tag("endquiz"));
  }

  lemma NoneBetween(open: string, inner: string, close: string, k: nat, word: string)
    requires IsTagWord(word) && NoneOf(inner, word) && Stopper(close) && |open| <= k < |open| + |inner|
    ensures TagEnd(open + (inner + close), k, word).None?
  {
    hide TagEnd, IsTagWord, Stopper;
    var j := k - |open|;
    TagBehind(open, inner + close, j, word);
    if TagEnd(inner + close, j, word).Some? {
      TagInFront(inner, close, j, word);
    }
  }

  /** No closing tag of the quiz before its last. */
  lemma SwallowedTags(k: nat)
    requires 10 <= k < 10 + |ASKED|
    ensures k <= |SWALLOWED| && TagEnd(SWALLOWED, k, "endquiz").None?
  {
    hide *;
    AskedFree();
    AskedNone("endquiz");
    TagEnds("endquiz");
    SwallowedParts();
    NoneBetween(Tag("quiz"), ASKED, Tag("endquiz"), k, "endquiz");
  }

  lemma SwallowedCut()
    ensures Cut(SWALLOWED, "quiz") == More("", Block(SWALLOWED, ASKED), End(""))
  {
    AskedFree();
    SwallowedParts();
    NoneOfFree("", "quiz");
    TagLength("quiz");
    assert |SWALLOWED| >= 10 + |ASKED|;
    hide TagEnd, Tag, ASKED, Cut;
    forall k: nat | 10 <= k < 10 + |ASKED| ensures TagEnd(SWALLOWED, k, "end" + "quiz").None? {
      SwallowedTags(k);
    }
    CutOne(SWALLOWED, "", ASKED, "", "quiz");
  }

  lemma SwallowedText()
    ensures Quizzes(SWALLOWED) == [Block(SWALLOWED, ASKED)] && Exercises(SWALLOWED) == []
    ensures WithoutBlocks(SWALLOWED) == TokenLine(0) && NoQuizInExercise(SWALLOWED)
  {
    SwallowedCut();
    hide SWALLOWED, ASKED, Cut, Token, Spell, TokenLine, TokenLines, Numbered, Holes;
    OneQuiz(SWALLOWED, "", Block(SWALLOWED, ASKED), "");
    OneCut("", Block(SWALLOWED, ASKED), "", 0, 1);
    assert "" + TokenLine(0) + "" == TokenLine(0);
    assert WithoutQuizzes(SWALLOWED) == TokenLine(0);
    TokenLineUncut();
  }

  lemma TokenLineUncut()
    ensures Cut(TokenLine(0), "exercise") == End(TokenLine(0))
  {
    TokenLineStops(0, "");
    hide TagEnd, TokenLine;
    NoneOfFree(TokenLine(0), "exercise");
    CutNone(TokenLine(0), "exercise");
  }

  // What the quiz makes of it

  lemma AskedLines()
    ensures TrimSpace(ASKED) == ASKED && QuizLines(ASKED) == [QUESTION, TAKEN, CHOICE]
  {
    AskedTrims();
    TakenOneLine();
    SplitOneLine(QUESTION);
    SplitOneLine(TAKEN);
    SplitOneLine(CHOICE);
    hide TAKEN, Split, TrimSpace, QUESTION, CHOICE;
    SplitAround(QUESTION, TAKEN, CHOICE);
    assert ASKED == QUESTION + "\n" + TAKEN + "\n" + CHOICE by {
      Associate(QUESTION + "\n" + TAKEN, "\n", CHOICE);
    }
    assert [QUESTION] + [TAKEN] + [CHOICE] == [QUESTION, TAKEN, CHOICE];
  }

  lemma AskedTrims()
    ensures TrimSpace(ASKED) == ASKED
  {
    EndsWith(QUESTION + "\n" + TAKEN, "\n" + CHOICE);
    assert ("\n" + CHOICE)[|CHOICE|] == '2';
    assert (QUESTION + "\n")[0] == '1';
    hide TAKEN;
    assert ASKED[0] == '1' && ASKED[|ASKED| - 1] == '2';
    hide ASKED;
    assert TrimLeft(ASKED) == ASKED;
  }

  lemma TakenOneLine()
    ensures OneLine(TAKEN) && OneLine(QUESTION) && OneLine(CHOICE) && Free(TAKEN, '=') && Free(TAKEN, '<')
  {
  }

  lemma ReadsTaken()
    ensures ChoiceOf(TAKEN).None? && TrimSpace(TAKEN) == TAKEN && TAKEN != ""
  {
    TakenNone("quiz");
    hide TAKEN;
    BlanksHere(TAKEN);
    assert TAKEN[0..] == TAKEN;
    assert TrimLeft(TAKEN) == TAKEN;
  }

  lemma ThreeLines(q: string, r: string, c: string, choice: Choice)
    requires ChoiceOf(q).None? && TrimSpace(q) == q && q != "" && ChoiceOf(c) == Some(choice)
    requires ChoiceOf(r).None? && TrimSpace(r) == r && r != ""
    ensures Question([q, r, c]) == [q, r] && Choices([q, r, c]) == [choice]
  {
    hide ChoiceOf, TrimSpace;
    assert [q, r, c][..2] == [q, r] && [q, r][..1] == [q] && [q][..0] == [];
    assert Question([q][..0]) == [] && Choices([q][..0]) == [];
    assert Question([q]) == [q] && Choices([q]) == [];
    assert Question([q, r]) == [q, r] && Choices([q, r]) == [];
    assert [q, r, c][2] == c;
  }

  /** The exercise is part of the question. */
  const ALL_ASKED := QUESTION + " " + TAKEN

  function SwallowingQuiz(x: Setting): Built {
    var hash := x.challengeHash(ALL_ASKED, x.slug);
    Built(BlockHtml("quiz", hash, QuizInner(ALL_ASKED, ChoicesHtml(x, "q-" + Start(hash, 8), [Choice("2", true)]))),
          Challenge(hash, 10, [x.flagHash("2")], None))
  }

  lemma SwallowingBuilds(x: Setting)
    ensures BuildQuiz(x, ASKED) == Ok(SwallowingQuiz(x))
  {
    AskedLines();
    ReadsQuestion();
    ReadsTaken();
    ReadsChoice();
    assert QUESTION != "";
    hide ChoiceOf, TrimSpace, QUESTION, CHOICE, TAKEN, ASKED, BlockHtml, QuizInner, ChoicesHtml;
    ThreeLines(QUESTION, TAKEN, CHOICE, Choice("2", true));
    JoinTwo(QUESTION, TAKEN);
    var choices := [Choice("2", true)];
    assert choices[..0] == [];
    assert RightFlags(x, choices) == [x.flagHash("2")];
  }

  lemma JoinTwo(a: string, b: string)
    ensures Join([a, b], " ") == a + " " + b
  {
    assert [a, b][1..] == [b];
  }

  lemma SwallowingTerms(x: Setting)
    requires Digests(x)
    ensures TermsKnown(SwallowingQuiz(x).html, x.terminals)
  {
    TakenOneLine();
    var hash := x.challengeHash(ALL_ASKED, x.slug);
    assert IsDigest(hash);
    hide TAKEN, Digests, IsDigest, BlockHtml, QuizInner, ChoicesHtml, TermsKnown, Unreferring;
    QuizUnreferring(x, ALL_ASKED, hash, Choice("2", true));
    NoneReferred(SwallowingQuiz(x).html, x.terminals);
  }

  lemma ReplaceWhole(t: string, html: string)
    ensures ReplaceFirst(t, t, html) == html
  {
    assert "" + t + "" == t && "" + html + "" == html;
    ReplaceThere("", t, "", html);
  }

  lemma OneSubstituted(html: string)
    ensures PageOf(SWALLOWED, [html]) == html
  {
    hide *;
    SwallowedText();
    TokenLineChunks(0);
    ReplaceWhole(Token(0), html);
    PageIs(SWALLOWED, [html]);
    SubstitutedOne(Token(0), html);
  }

  lemma SubstitutedOne(page: string, html: string)
    ensures Substituted(page, [html], 0) == ReplaceFirst(page, Token(0), html)
  {
    hide ReplaceFirst, Token;
    assert Substituted(ReplaceFirst(page, Token(0), html), [html], 1) == ReplaceFirst(page, Token(0), html);
  }

  lemma SwallowedClear()
    ensures !Marked(SWALLOWED) && NoBlockInFence(SWALLOWED)
  {
    SwallowedUnmarked();
    SwallowedText();
    TokenLineLines();
    hide Marked, SWALLOWED, WithoutBlocks, Token, TokenLine, Split;
    ThreeClear(Token(0));
  }

  lemma SwallowedUnmarked()
    ensures !Marked(SWALLOWED)
  {
    TakenOneLine();
    assert Free(QUESTION + "\n", '<') && Free("\n" + CHOICE, '<') && Free(Tag("quiz"), '<')
      && Free(Tag("endquiz"), '<');
    assert "end" + "quiz" == "endquiz";
    hide TAKEN, QUESTION, CHOICE, Tag, Marked;
    FreeConcat(QUESTION + "\n", TAKEN, '<');
    FreeConcat(QUESTION + "\n" + TAKEN, "\n" + CHOICE, '<');
    FreeConcat(Tag("quiz"), ASKED, '<');
    FreeConcat(Tag("quiz") + ASKED, Tag("endquiz"), '<');
    FreeUnmarked(SWALLOWED);
  }

  lemma TokenLineLines()
    ensures Split(TokenLine(0)) == ["", Token(0), ""] && Token(0) != "" && Token(0)[0] == '<'
  {
    TokenPlain(0);
    SplitOneLine("");
    hide Token;
    SplitAround("", Token(0), "");
    assert "" + "\n" + Token(0) + "\n" + "" == TokenLine(0);
  }

  lemma ThreeClear(t: string)
    requires t != "" && t[0] == '<'
    ensures FencesClear(["", t, ""], 0)
  {
    var lines := ["", t, ""];
    hide Marked;
    assert FencesClear(lines, 3);
    assert !IsFence(t) && !IsItem(t);
    assert FencesClear(lines, 2);
    assert FencesClear(lines, 1);
  }

  lemma SwallowedNot()
    ensures !EachClosedFirst(SWALLOWED)
  {
    AskedFree();
    SwallowedParts();
    SwallowedOpens();
    TagLength("quiz");
    assert "end" + "quiz" == "endquiz";
    hide TagEnd, Tag, ASKED, SWALLOWED;
    assert !ClosedFirst(SWALLOWED, 10, "quiz") by {
      forall c: nat | 10 <= c <= 15 ensures TagEnd(SWALLOWED, c, "endquiz").None? {
        SwallowedTags(c);
      }
    }
  }

  lemma AskedOpens()
    ensures |ASKED| > 5 && TagEnd(ASKED, 5, "exercise").Some?
  {
    AskedFree();
    assert |QUESTION + "\n"| == 5;
    hide Tag, TagEnd, QUESTION, CHOICE, IsTagWord;
    BlockSlices(QUESTION + "\n", Tag("exercise"), TASK, Tag("end" + "exercise"), "\n" + CHOICE);
    TagHere(ASKED, 5, "exercise");
  }

  lemma SwallowedSlices()
    ensures At(SWALLOWED, 0, Tag("quiz")) && At(SWALLOWED, 10, ASKED)
  {
    SwallowedParts();
    hide Tag, ASKED;
    TaggingSlices("", ASKED, "", "quiz");
  }

  lemma SwallowedOpens()
    ensures |ASKED| > 5 && 15 <= |SWALLOWED| && TagEnd(SWALLOWED, 0, "quiz") == Some(10) && OpensAt(SWALLOWED, 15)
  {
    hide *;
    AskedFree();
    AskedOpens();
    SwallowedSlices();
    TagHere(SWALLOWED, 0, "quiz");
    assert |"quiz"| == 4;
    var e := TagEnd(ASKED, 5, "exercise").value;
    TagInside(ASKED, 5, "exercise");
    TagOutSlice(SWALLOWED, 10, ASKED, 5, e, "exercise");
    KindWords("exercise");
    InsideOpens(SWALLOWED, 15, "exercise");
  }

  lemma TagInside(s: string, i: nat, word: string)
    requires i <= |s|
    ensures TagEnd(s, i, word).Some? ==> i <= TagEnd(s, i, word).value <= |s|
  {
  }

  lemma AssembledOne(x: Setting, body: string, quiz: Built)
    requires TermsKnown(quiz.html, x.terminals) && PageOf(body, [quiz.html]) == quiz.html
    ensures Assembled(x, body, [quiz], []) == Ok(Page(quiz.html, [quiz.challenge]))
  {
    hide TermsKnown, PageOf;
    OneBuilt(quiz);
    NoExercisesAssembled(x, body, [quiz]);
  }

  lemma OneBlockCompiles(x: Setting, body: string, b: Block)
    requires Quizzes(body) == [b] && Exercises(body) == [] && BuildQuiz(x, b.inner).Ok?
    ensures Compile(x, body) == Assembled(x, body, [BuildQuiz(x, b.inner).value], [])
  {
    hide BuildQuiz, Quizzes, Exercises, Assembled;
    OneBuildAll(x, Quiz, b);
    assert BuildAll(x, Exercise, []) == Ok([]);
  }

  /** A lesson whose exercise lies in a quiz compiles: it registers the quiz alone, with the exercise in its
      question. */
  lemma SwallowedLesson(x: Setting)
    requires Digests(x)
    ensures !Marked(SWALLOWED) && NoQuizInExercise(SWALLOWED) && NoBlockInFence(SWALLOWED)
            && !EachClosedFirst(SWALLOWED)
    ensures Compile(x, SWALLOWED) == Ok(Page(SwallowingQuiz(x).html, [SwallowingQuiz(x).challenge]))
  {
    hide *;
    SwallowedClear();
    SwallowedText();
    SwallowedNot();
    SwallowingBuilds(x);
    SwallowingTerms(x);
    OneSubstituted(SwallowingQuiz(x).html);
    OneBlockCompiles(x, SWALLOWED, Block(SWALLOWED, ASKED));
    AssembledOne(x, SWALLOWED, SwallowingQuiz(x));
  }

  // ------------------------------------------------------------------------------- A quiz in an exercise

  lemma TaskPlain()
    ensures Plain(TASK) && TASK != "" && TASK[0] == 'T' && !IsSpace(TASK[0]) && OneLine(TASK)
    ensures Free(TASK, 'D') && Free(TASK, '"') && Free(TASK, '=')
  {
  }

  lemma LeftLines()
    ensures Split(TextLeft()) == [TASK, Token(0)]
  {
    TaskPlain();
    TokenPlain(0);
    hide TASK, Token, Split, OneLine, Plain;
    SplitOneLine(TASK);
    SplitOneLine(Token(0));
    SplitAt(TASK, Token(0));
    assert [TASK] + [Token(0)] == [TASK, Token(0)];
  }

  /** A line of plain text, and a placeholder. */
  lemma TwoChunks(t: string, k: nat)
    requires Plain(t) && t != "" && !IsSpace(t[0]) && t[0] !in "`#-*<"
    ensures Chunks([t, Token(k)], 0) == [Element("p", "", t), Token(k)]
  {
    TrimStarts(t);
    TokenPlain(k);
    var lines := [t, Token(k)];
    hide Plain, Token, TrimSpace, Element, IsSpace;
    PlainLine(lines, 0);
    RawLine(lines, 1);
    hide StepAt;
    assert Chunks(lines, 2) == [];
    assert Chunks(lines, 1) == [Token(k)];
  }

  lemma LeftRendered()
    ensures Rendered(TextLeft()) == Element("p", "", TASK) + "\n" + Token(0)
  {
    TaskPlain();
    LeftLines();
    hide TASK, Plain, Token, Split, OneLine, Element, IsSpace, Chunks, TextLeft;
    TwoChunks(TASK, 0);
    JoinPair(Element("p", "", TASK), Token(0));
  }

  lemma JoinPair(a: string, b: string)
    ensures Join([a, b], "\n") == a + "\n" + b
  {
    assert [a, b][1..] == [b];
  }

  /** Digits and lower-case letters make up a digest, and a placeholder has none of these characters. */
  lemma TokenFree(c: char)
    requires c == 'D' || c == '"' || c == '='
    ensures Free(Token(0), c)
  {
    assert Digits(0) == "0" && Free(MARKER, c) && Free("-->", c);
    hide MARKER, Digits;
    FreeConcat(MARKER, Digits(0), c);
    FreeConcat(MARKER + Digits(0), "-->", c);
  }

  lemma ParagraphFree(c: char)
    requires c == 'D' || c == '"' || c == '='
    ensures Free(Element("p", "", TASK) + "\n", c)
  {
    TaskPlain();
    assert Free("<" + "p" + "" + ">", c) && Free("</", c) && Free("p", c) && Free(">", c) && Free("\n", c);
    hide TASK, Free;
    var a := "<" + "p" + "" + ">";
    FreeConcat(a, TASK, c);
    FreeConcat(a + TASK, "</", c);
    FreeConcat(a + TASK + "</", "p", c);
    FreeConcat(a + TASK + "</" + "p", ">", c);
    FreeConcat(a + TASK + "</" + "p" + ">", "\n", c);
  }

  lemma LeftFree(c: char)
    requires c == 'D' || c == '"' || c == '='
    ensures Free(Rendered(TextLeft()), c)
  {
    hide *;
    LeftRendered();
    TokenFree(c);
    ParagraphFree(c);
    FreeConcat(Element("p", "", TASK) + "\n", Token(0), c);
  }

  /** The page of the nested lesson up to its button, and after it. */
  function Around1(hash: string, button: string): string {
    FrontOf(TextLeft(), hash) + button + (VERDICT + "</div>")
  }

  lemma EndFree()
    ensures Free(VERDICT + "</div>", 'D') && Unreferring(VERDICT + "</div>") && (VERDICT + "</div>")[0] == '<'
  {
    VerdictUnreferring();
    FreeUnreferring("</div>");
    VerdictIs();
    assert VERDICT[0] == '<' && Free("</div>", 'D');
    assert Free(VERDICT, 'D');
    hide VERDICT, Element, Spelled, Free, Unreferring;
    JoinedUnreferring(VERDICT, "</div>");
    FreeConcat(VERDICT, "</div>", 'D');
  }

  lemma FrontFree(hash: string)
    requires IsDigest(hash)
    ensures Free(FrontOf(TextLeft(), hash), 'D') && Unreferring(FrontOf(TextLeft(), hash))
  {
    LeftFree('D');
    LeftFree('=');
    DigestUnreferring(hash);
    assert Free(hash, 'D');
    var text := Rendered(TextLeft());
    FreeUnreferring(text);
    FreeStart(text);
    OpenFree(hash);
    QuestionFree(text);
    hide *;
    QuestionUnreferring(text);
    FrontIs(hash);
    FreeConcat(OpenExercise(hash), QuestionHtml(text), 'D');
    JoinedUnreferring(OpenExercise(hash), QuestionHtml(text));
  }

  function OpenExercise(hash: string): string {
    "<div" + Spelled(Attribute("class", "exercise")) + Spelled(Attribute("data-challenge", hash)) + ">"
  }

  lemma FrontIs(hash: string)
    ensures FrontOf(TextLeft(), hash) == OpenExercise(hash) + QuestionHtml(Rendered(TextLeft()))
  {
    hide Spelled, QuestionHtml, Rendered, TextLeft;
  }

  lemma OpenFree(hash: string)
    requires Free(hash, 'D') && Free(hash, '=')
    ensures Free(OpenExercise(hash), 'D') && Unreferring(OpenExercise(hash))
  {
    var a, b := Spelled(Attribute("class", "exercise")), Spelled(Attribute("data-challenge", hash));
    assert Free("<div", 'D') && Free(a, 'D') && Free(b, 'D') && Free(">", 'D');
    SpelledUnreferring("class", "exercise");
    SpelledUnreferring("data-challenge", hash);
    FreeUnreferring("<div");
    FreeUnreferring(">");
    assert a[0] == ' ' && b[0] == ' ';
    hide Spelled, Unreferring, Free;
    FreeConcat("<div", a, 'D');
    FreeConcat("<div" + a, b, 'D');
    FreeConcat("<div" + a + b, ">", 'D');
    JoinedUnreferring("<div", a);
    JoinedUnreferring("<div" + a, b);
    JoinedUnreferring("<div" + a + b, ">");
  }

  lemma QuestionFree(text: string)
    requires Free(text, 'D')
    ensures Free(QuestionHtml(text), 'D')
  {
    var a := "<" + "div" + Spelled(Attribute("class", "q")) + ">";
    assert Free(a, 'D') && Free("</", 'D') && Free("div", 'D') && Free(">", 'D');
    hide Spelled, Free;
    FreeConcat(a, text, 'D');
    FreeConcat(a + text, "</", 'D');
    FreeConcat(a + text + "</", "div", 'D');
    FreeConcat(a + text + "</" + "div", ">", 'D');
  }

  lemma ButtonFree(hash: string)
    requires IsDigest(hash)
    ensures Free(Button(hash, DEFAULT), 'D')
  {
    assert Free(hash, 'D');
    assert Free(PRE, 'D') && Free("data-hash-code=\"", 'D') && Free("\"", 'D');
    RestFree(hash);
    ButtonParts(hash, DEFAULT);
    hide Free, ButtonRest, PRE, IsDigest, Button;
    FreeConcat("data-hash-code=\"", hash, 'D');
    FreeConcat("data-hash-code=\"" + hash, "\"", 'D');
    FreeConcat(PRE, HashMark(hash), 'D');
    FreeConcat(PRE + HashMark(hash), ButtonRest(hash, DEFAULT), 'D');
  }

  lemma RestFree(hash: string)
    ensures Free(ButtonRest(hash, DEFAULT), 'D')
  {
    RestParts(hash);
    var a, b, c := Spelled(Attribute(PORT, "80")), Spelled(Attribute(PATH, "/result.html")),
      Spelled(Attribute(HREF, "#")) + TAIL;
    assert Free(a, 'D') && Free(b, 'D') && Free(" ", 'D') && Free(FIRST_TERM, 'D') && Free(c, 'D');
    hide Free, Spelled, FIRST_TERM, TAIL;
    FreeConcat(a, b, 'D');
    FreeConcat(a + b, " ", 'D');
    FreeConcat(a + b + " ", FIRST_TERM, 'D');
    FreeConcat(a + b + " " + FIRST_TERM, c, 'D');
  }

  // No link of the page was authored

  lemma {:induction false} AnchorsFree(s: string, i: nat)
    requires i <= |s| && Free(s, 'D')
    ensures forall k | 0 <= k < |Anchors(s, i)| :: Free(Anchors(s, i)[k], 'D')
    decreases |s| - i
  {
    hide AnchorEnd;
    if i < |s| {
      match AnchorEnd(s, i)
      case Some(e) =>
        AnchorsFree(s, e);
        assert Free(s[i..e], 'D') && Anchors(s, i) == [s[i..e]] + Anchors(s, e);
      case None => AnchorsFree(s, i + 1);
    }
  }

  lemma {:induction false} NoneAuthored(tags: seq<string>)
    requires forall k | 0 <= k < |tags| :: Free(tags[k], 'D')
    ensures Authored(tags) == []
  {
    if tags != [] {
      var s := tags[0];
      assert "id=\"exerciseDemo\""[12] == 'D' && "class=\"exerciseDemo\""[15] == 'D';
      forall i: nat | i <= |s| ensures !At(s, i, "id=\"exerciseDemo\"") && !At(s, i, "class=\"exerciseDemo\"") {
        Differs(s, i, "id=\"exerciseDemo\"", 12);
        Differs(s, i, "class=\"exerciseDemo\"", 15);
      }
      NoneAuthored(tags[1..]);
    }
  }

  lemma NotPaired(html: string, hash: string)
    requires Free(html, 'D')
    ensures Authored(Anchors(html, 0)) == [] && Paired(html, [hash]) == html
    ensures Routings(Authored(Anchors(html, 0)), 1) == [DEFAULT]
  {
    AnchorsFree(html, 0);
    hide Anchors, Authored, Button;
    NoneAuthored(Anchors(html, 0));
  }

  // What the page refers to, and the mark

  lemma NestedTerms(hash: string, terminals: nat)
    requires IsDigest(hash) && terminals >= 1
    ensures TermsKnown(Around1(hash, Button(hash, DEFAULT)), terminals)
  {
    var front, end := FrontOf(TextLeft(), hash), VERDICT + "</div>";
    FrontFree(hash);
    EndFree();
    var a, b := Spelled(Attribute(PORT, "80")), Spelled(Attribute(PATH, "/result.html"));
    var c := Spelled(Attribute(HREF, "#")) + TAIL;
    ButtonStart(hash);
    RestUnreferring();
    RestParts(hash);
    ButtonParts(hash, DEFAULT);
    assert (PRE + HashMark(hash))[0] == '<';
    hide *;
    JoinedUnreferring(front, PRE + HashMark(hash));
    JoinedUnreferring(front + (PRE + HashMark(hash)), a + b + " ");
    JoinedUnreferring(c, end);
    NestedRegroup(front, PRE, HashMark(hash), a, b, FIRST_TERM, c, end);
    AroundIs(hash, Button(hash, DEFAULT));
    OneReferred(front + (PRE + HashMark(hash)) + (a + b + " "), c + end, terminals);
  }

  lemma AroundIs(hash: string, button: string)
    ensures Around1(hash, button) == FrontOf(TextLeft(), hash) + button + (VERDICT + "</div>")
  {
  }

  lemma NestedRegroup(front: string, pre: string, mark: string, a: string, b: string, term: string, c: string,
                      end: string)
    ensures front + (pre + mark + (a + b + " " + term + c)) + end
            == front + (pre + mark) + (a + b + " ") + term + (c + end)
  {
  }

  lemma ButtonStart(hash: string)
    requires IsDigest(hash)
    ensures Unreferring(PRE + HashMark(hash)) && PRE != ""
  {
    DigestUnreferring(hash);
    FreeUnreferring(hash);
    assert Unreferring(PRE) && Unreferring("data-hash-code=\"") && Unreferring("\"");
    FreeStart(hash);
    hide Unreferring, PRE, IsDigest;
    JoinedUnreferring("data-hash-code=\"", hash);
    JoinedUnreferring("data-hash-code=\"" + hash, "\"");
    JoinedUnreferring(PRE, HashMark(hash));
  }

  lemma RestUnreferring()
    ensures Unreferring(Spelled(Attribute(PORT, "80")) + Spelled(Attribute(PATH, "/result.html")) + " ")
    ensures (Spelled(Attribute(PORT, "80")) + Spelled(Attribute(PATH, "/result.html")) + " ")[0] == ' '
    ensures Unreferring(Spelled(Attribute(HREF, "#")) + TAIL) && (Spelled(Attribute(HREF, "#")) + TAIL)[0] == ' '
  {
    SpelledUnreferring(PORT, "80");
    SpelledUnreferring(PATH, "/result.html");
    SpelledUnreferring(HREF, "#");
    var a, b, c := Spelled(Attribute(PORT, "80")), Spelled(Attribute(PATH, "/result.html")),
      Spelled(Attribute(HREF, "#"));
    assert a[0] == ' ' && b[0] == ' ' && c[0] == ' ';
    FreeUnreferring(" ");
    FreeUnreferring(TAIL);
    assert TAIL[0] == '>';
    hide Unreferring, Spelled, TAIL;
    JoinedUnreferring(a, b);
    JoinedUnreferring(a + b, " ");
    JoinedUnreferring(c, TAIL);
  }

  lemma NestedMarked(hash: string)
    requires IsDigest(hash)
    ensures ReplaceFirst(Around1(hash, Button(hash, DEFAULT)), HashMark(hash), HashMark(hash) + FLAG)
         == Around1(hash, ShownButton(hash, DEFAULT, true))
  {
    DigestPlain(hash);
    LeftFree('"');
    QuoteFreeLacks(Rendered(TextLeft()), hash);
    hide *;
    FrontLacksMark(TextLeft(), hash, hash);
    ButtonParts(hash, DEFAULT);
    Replaced(FrontOf(TextLeft(), hash), hash, ButtonRest(hash, DEFAULT), VERDICT + "</div>");
    AroundIs(hash, Button(hash, DEFAULT));
    AroundIs(hash, ShownButton(hash, DEFAULT, true));
  }

  // The lesson

  lemma NestedHtml(x: Setting, hash: string)
    ensures ExerciseHtml(TextLeft(), hash, DEFAULT) == Around1(hash, Button(hash, DEFAULT))
    ensures Around1(hash, ShownButton(hash, DEFAULT, x.verified))
         == ExerciseWith(TextLeft(), hash, ShownButton(hash, DEFAULT, x.verified))
  {
    ExerciseAround(TextLeft(), hash, Button(hash, DEFAULT));
    ExerciseAround(TextLeft(), hash, ShownButton(hash, DEFAULT, x.verified));
    hide BlockHtml, FrontOf, Button, ShownButton, TextLeft, VERDICT, QuestionHtml, Rendered;
  }

  lemma NestedFree(hash: string)
    requires IsDigest(hash)
    ensures Free(Around1(hash, Button(hash, DEFAULT)), 'D')
  {
    hide *;
    FrontFree(hash);
    ButtonFree(hash);
    EndFree();
    AroundIs(hash, Button(hash, DEFAULT));
    FreeConcat(FrontOf(TextLeft(), hash), Button(hash, DEFAULT), 'D');
    FreeConcat(FrontOf(TextLeft(), hash) + Button(hash, DEFAULT), VERDICT + "</div>", 'D');
  }

  const WEB := Target(80, "/result.html")

  lemma WebIs()
    ensures Atoi(DEFAULT.port) == Some(80) && DEFAULT.path == "/result.html"
  {
    var t := "80";
    assert t[..1] == "8" && t[..1][..0] == [];
    assert Number("8") == 8 && Number(t) == 80;
  }

  lemma OneTarget(page: Page, hash: string)
    ensures WithTargets(page, [hash], [DEFAULT], 0)
         == Ok(Page(ReplaceFirst(page.html, HashMark(hash), HashMark(hash) + FLAG),
                    RetargetAll(page.challenges, hash, WEB)))
  {
    WebIs();
    hide Atoi, ReplaceFirst, HashMark, RetargetAll;
    assert FLAG == " data-verify=\"1\"";
    var next := Page(ReplaceFirst(page.html, HashMark(hash), HashMark(hash) + FLAG),
                     RetargetAll(page.challenges, hash, WEB));
    assert WithTargets(next, [hash], [DEFAULT], 1) == Ok(next);
  }

  /** The challenges of the nested lesson: the quiz's too, though its page does not show it. */
  function NestedChallenges(x: Setting): seq<Challenge>
    requires ExerciseFlags(x).Ok?
  {
    var both := [QuizOf(x).challenge, ExerciseOf(x).challenge];
    if x.verified then RetargetAll(both, ExerciseOf(x).challenge.hash, WEB) else both
  }

  lemma OneEach(x: Setting, body: string, quiz: Built, exercise: Built, html: string)
    requires Compiled(x, body, [quiz], [exercise]) && PageOf(body, Htmls([quiz] + [exercise])) == html
    ensures Compile(x, body)
         == Finish(x, Page(Paired(html, [exercise.challenge.hash]), [quiz.challenge, exercise.challenge]),
                   [exercise.challenge.hash], Routings(Authored(Anchors(html, 0)), 1))
  {
    hide Compiled, PageOf, Paired, Anchors, Authored, Finish, Compile, Htmls, RoutingOf;
    AssembledIs(x, body, [quiz], [exercise]);
    assert HashesOf([exercise]) == [exercise.challenge.hash];
    assert Challenges([quiz] + [exercise]) == [quiz.challenge, exercise.challenge];
  }

  lemma NestedAssembled(x: Setting)
    requires ExerciseFlags(x).Ok?
    ensures var hash := ExerciseOf(x).challenge.hash; var html := ExerciseHtml(TextLeft(), hash, DEFAULT);
            Compile(x, NESTED) == Finish(x, Page(Paired(html, [hash]), [QuizOf(x).challenge, ExerciseOf(x).challenge]),
                                         [hash], Routings(Authored(Anchors(html, 0)), 1))
  {
    hide *;
    NestedBlocks(x);
    HashOf(x);
    OneEach(x, NESTED, QuizOf(x), ExerciseOf(x), ExerciseHtml(TextLeft(), ExerciseOf(x).challenge.hash, DEFAULT));
  }

  lemma HashOf(x: Setting)
    requires ExerciseFlags(x).Ok?
    ensures TextLeft() == TASK + "\n" + Token(0) && ExerciseOf(x).challenge.hash == x.challengeHash(TextLeft(), x.slug)
  {
    hide ExerciseHtml, TASK, Token, ExerciseFlags;
  }

  lemma FinishNested(x: Setting, page: Page, hash: string)
    requires TermsKnown(page.html, x.terminals)
    ensures Finish(x, page, [hash], [DEFAULT])
         == if x.verified
            then Ok(Page(ReplaceFirst(page.html, HashMark(hash), HashMark(hash) + FLAG),
                         RetargetAll(page.challenges, hash, WEB)))
            else Ok(page)
  {
    OneTarget(page, hash);
    FinishIs(x, page, [hash], [DEFAULT]);
    hide TermsKnown, ReplaceFirst, HashMark, RetargetAll, WithTargets, Finish;
  }

  /** The nested lesson's page finished. */
  lemma NestedFinished(x: Setting, hash: string, both: seq<Challenge>)
    requires IsDigest(hash) && x.terminals >= 1
    ensures var html := ExerciseHtml(TextLeft(), hash, DEFAULT);
            && Finish(x, Page(Paired(html, [hash]), both), [hash], Routings(Authored(Anchors(html, 0)), 1))
            == Ok(Page(ExerciseWith(TextLeft(), hash, ShownButton(hash, DEFAULT, x.verified)),
                       if x.verified then RetargetAll(both, hash, WEB) else both))
  {
    hide *;
    var html := Around1(hash, Button(hash, DEFAULT));
    NestedHtml(x, hash);
    NestedFree(hash);
    NotPaired(html, hash);
    NestedTerms(hash, x.terminals);
    FinishNested(x, Page(html, both), hash);
    NestedMarked(hash);
    ButtonParts(hash, DEFAULT);
  }

  /** A lesson with a quiz in an exercise compiles: it registers both, and its page is the exercise alone, with
      the placeholder of the quiz in its text. */
  lemma NestedLesson(x: Setting)
    requires Digests(x) && ExerciseFlags(x).Ok? && x.terminals >= 1
    ensures !Marked(NESTED) && BlockNested(NESTED, 0)
    ensures var text := TASK + "\n" + Token(0); var hash := x.challengeHash(text, x.slug);
            Compile(x, NESTED) == Ok(Page(ExerciseWith(text, hash, ShownButton(hash, DEFAULT, x.verified)),
                                          NestedChallenges(x)))
  {
    assert IsDigest(x.challengeHash(TextLeft(), x.slug));
    hide *;
    HashOf(x);
    NestedBlocks(x);
    NestedAssembled(x);
    NestedFinished(x, ExerciseOf(x).challenge.hash, [QuizOf(x).challenge, ExerciseOf(x).challenge]);
    ChallengesAre(x);
  }

  lemma ChallengesAre(x: Setting)
    requires ExerciseFlags(x).Ok?
    ensures var both := [QuizOf(x).challenge, ExerciseOf(x).challenge];
            NestedChallenges(x) == if x.verified then RetargetAll(both, ExerciseOf(x).challenge.hash, WEB) else both
  {
    hide QuizOf, ExerciseOf, RetargetAll;
  }
}

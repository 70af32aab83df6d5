/** Quizzes as they are written. */
module QuizText {
  import opened Concatenation
  import opened Options
  import opened Text
  import opened Html
  import opened Markdown
  import opened Lesson
  import opened Agreement
  import opened PageText
  import opened Trimming
  import G = Grading

  /** The text of a choice and the blanks after it: blanks do not count as text, unless there is nothing else. */
  predicate Tidy(t: string, after: string) {
    && t != "" && Gap(after)
    && ((!Gap([t[0]]) && !Gap([t[|t| - 1]])) || (|t| == 1 && after == ""))
  }

  /** The line is a choice with this mark and text: a dash, the mark in brackets and the text, blanks between. */
  ghost predicate IsChoice(line: string, mark: char, t: string) {
    exists a, b, c, d :: Gap(a) && Gap(b) && Gap(c) && Tidy(t, d) && line == Spaced(a, b, mark, c, t, d)
  }

  function Spaced(a: string, b: string, mark: char, c: string, t: string, d: string): string {
    a + "-" + b + "[" + [mark] + "]" + c + t + d
  }

  predicate IsMark(mark: char) {
    mark == ' ' || mark == 'x' || mark == 'X'
  }

  /** It is marked with an x of either case. */
  ghost predicate IsRight(line: string, t: string) {
    IsChoice(line, 'x', t) || IsChoice(line, 'X', t)
  }

  // ---------------------------------------------------------------------------- Blanks

  lemma {:induction false} BlanksOffDrops(t: string, d: string)
    requires Gap(d) && t != "" && !Gap([t[|t| - 1]])
    ensures BlanksOff(t + d) == t
  {
    var s := t + d;
    GapOne(s[|s| - 1]);
    if d == "" {
      assert s == t;
    } else {
      assert s[..|s| - 1] == t + d[..|d| - 1] && s[|s| - 1] == d[|d| - 1];
      BlanksOffDrops(t, d[..|d| - 1]);
    }
  }

  lemma {:induction false} BlanksOffSplits(s: string) returns (d: string)
    ensures s == BlanksOff(s) + d && Gap(d)
    ensures BlanksOff(s) != "" ==> !Gap([BlanksOff(s)[|BlanksOff(s)| - 1]])
    ensures s != "" && !Gap([s[0]]) ==> BlanksOff(s) != "" && BlanksOff(s)[0] == s[0]
  {
    if s != "" && IsBlank(s[|s| - 1]) {
      var e := BlanksOffSplits(s[..|s| - 1]);
      d := e + [s[|s| - 1]];
      GapOne(s[|s| - 1]);
      GapJoins(e, [s[|s| - 1]]);
    } else {
      if s != "" {
        GapOne(s[|s| - 1]);
      }
      d := "";
      assert s + d == s;
    }
  }

  // ---------------------------------------------------------------------------- One line

  lemma TextRead(c: string, t: string, d: string)
    requires Gap(c) && Tidy(t, d)
    ensures ChoiceText(c + t + d) == Some(t)
  {
    var s := c + t + d;
    if Gap([t[0]]) {
      assert [t[0]] == t;
      GapJoins(c, t);
      assert s == c + t;
      GapIs(s);
      hide Gap, BlanksOff;
      assert s[|s| - 1..] == t;
    } else {
      hide Gap;
      assert s == c + (t + d) && (t + d)[0] == t[0];
      BlanksBefore(c, t + d);
      BlanksOffDrops(t, d);
    }
  }

  lemma TextFound(s: string, t: string) returns (c: string, d: string)
    requires ChoiceText(s) == Some(t)
    ensures Gap(c) && Tidy(t, d) && s == c + t + d
  {
    GapIs(s);
    var n := Blanks(s);
    if n == |s| {
      c, d := s[..n - 1], "";
      assert s == c + t + d;
      GapJoins(c, t);
    } else {
      c := s[..n];
      GapOne(s[n]);
      d := BlanksOffSplits(s[n..]);
      assert s == c + (t + d) == c + t + d;
    }
  }

  lemma DashRead(a: string, b: string, mark: char, rest: string)
    requires Gap(a) && Gap(b)
    ensures var line := a + ("-" + (b + ("[" + [mark] + "]" + rest)));
            var after := line[Blanks(line)..];
            && after != "" && after[0] == '-'
            && after[1 + Blanks(after[1..])..] == "[" + [mark] + "]" + rest
  {
    var inner := "[" + [mark] + "]" + rest;
    var dash := "-" + (b + inner);
    assert inner[0] == '[' && dash[0] == '-';
    GapOne('[');
    GapOne('-');
    hide Gap;
    BlanksBefore(b, inner);
    BlanksBefore(a, dash);
    assert dash[1..] == b + inner;
  }

  lemma SpacedIs(a: string, b: string, mark: char, c: string, t: string, d: string)
    ensures Spaced(a, b, mark, c, t, d) == a + ("-" + (b + ("[" + [mark] + "]" + (c + t + d))))
  {
  }

  lemma ChoiceRead(line: string, mark: char, t: string)
    requires IsChoice(line, mark, t) && IsMark(mark)
    ensures ChoiceOf(line) == Some(Choice(t, mark != ' '))
  {
    var a, b, c, d :| Gap(a) && Gap(b) && Gap(c) && Tidy(t, d) && line == Spaced(a, b, mark, c, t, d);
    hide Gap, Tidy, ChoiceText, Spaced, IsBlank, Blanks, ChoiceOf;
    SpacedIs(a, b, mark, c, t, d);
    DashRead(a, b, mark, c + t + d);
    TextRead(c, t, d);
    Brackets(mark, c + t + d);
    var after := line[Blanks(line)..];
    ChoiceIs(line, after, after[1 + Blanks(after[1..])..]);
  }

  lemma ChoiceIs(line: string, after: string, b: string)
    requires after == line[Blanks(line)..] && after != "" && after[0] == '-' && b == after[1 + Blanks(after[1..])..]
    requires |b| >= 3 && b[0] == '[' && b[2] == ']' && IsMark(b[1]) && ChoiceText(b[3..]).Some?
    ensures ChoiceOf(line) == Some(Choice(ChoiceText(b[3..]).value, b[1] != ' '))
  {
    hide Blanks, ChoiceText;
  }

  lemma Brackets(mark: char, text: string)
    ensures var s := "[" + [mark] + "]" + text;
            |s| >= 3 && s[0] == '[' && s[1] == mark && s[2] == ']' && s[3..] == text
  {
  }

  lemma ChoiceFound(line: string)
    requires ChoiceOf(line).Some?
    ensures var Choice(t, correct) := ChoiceOf(line).value;
            if correct then IsRight(line, t) else IsChoice(line, ' ', t)
  {
    var t := ChoiceOf(line).value.text;
    var n := Blanks(line);
    var after := line[n..];
    var m := 1 + Blanks(after[1..]);
    var b := after[m..];
    hide Gap, Tidy, BlanksOff, ChoiceText, IsChoice;
    var c, d := TextFound(b[3..], t);
    GapIs(line);
    GapIs(after[1..]);
    Assembles(line, n, after, m, b);
    Found(line, line[..n], after[1..][..m - 1], b[1], c, t, d);
  }

  lemma Found(line: string, a: string, b: string, mark: char, c: string, t: string, d: string)
    requires Gap(a) && Gap(b) && Gap(c) && Tidy(t, d) && line == a + ("-" + (b + ("[" + [mark] + "]" + (c + t + d))))
    ensures IsChoice(line, mark, t)
  {
    hide Gap, Tidy;
    SpacedIs(a, b, mark, c, t, d);
  }

  lemma Assembles(line: string, n: nat, after: string, m: nat, b: string)
    requires n <= |line| && after == line[n..] && 1 <= m <= |after| && after[0] == '-' && b == after[m..]
    requires |b| >= 3 && b[0] == '[' && b[2] == ']'
    ensures line == line[..n] + ("-" + (after[1..][..m - 1] + ("[" + [b[1]] + "]" + b[3..])))
  {
    assert b == "[" + [b[1]] + "]" + b[3..];
    assert after == "-" + (after[1..][..m - 1] + b);
  }

  /** A line is a choice, right or wrong, exactly if it can be taken apart like one. */
  lemma ChoicesAreLines(line: string, t: string)
    ensures ChoiceOf(line) == Some(Choice(t, true)) <==> IsRight(line, t)
    ensures ChoiceOf(line) == Some(Choice(t, false)) <==> IsChoice(line, ' ', t)
  {
    hide ChoiceOf, IsChoice;
    if ChoiceOf(line).Some? {
      ChoiceFound(line);
    }
    if IsChoice(line, ' ', t) {
      ChoiceRead(line, ' ', t);
    }
    if IsChoice(line, 'x', t) {
      ChoiceRead(line, 'x', t);
    }
    if IsChoice(line, 'X', t) {
      ChoiceRead(line, 'X', t);
    }
  }

  /** Choices as lessons write them. */
  lemma WrittenChoices(t: string)
    requires t != "" && !Gap([t[0]]) && !Gap([t[|t| - 1]])
    ensures ChoiceOf("- [x] " + t) == ChoiceOf("- [X] " + t) == Some(Choice(t, true))
    ensures ChoiceOf("- [ ] " + t) == Some(Choice(t, false))
  {
    hide ChoiceOf, IsChoice, Gap, Written;
    WrittenIs('x', t);
    WrittenIs('X', t);
    WrittenIs(' ', t);
    ChoicesAreLines(Written('x', t), t);
    ChoicesAreLines(Written('X', t), t);
    ChoicesAreLines(Written(' ', t), t);
    WrittenWords(t);
  }

  function Written(mark: char, t: string): string {
    "- [" + [mark] + "] " + t
  }

  lemma WrittenWords(t: string)
    ensures Written('x', t) == "- [x] " + t && Written('X', t) == "- [X] " + t && Written(' ', t) == "- [ ] " + t
  {
    assert "- [" + ['x'] + "] " == "- [x] " && "- [" + ['X'] + "] " == "- [X] " && "- [" + [' '] + "] " == "- [ ] ";
  }

  lemma WrittenIs(mark: char, t: string)
    requires t != "" && !Gap([t[0]]) && !Gap([t[|t| - 1]])
    ensures IsChoice(Written(mark, t), mark, t)
  {
    assert Written(mark, t) == Spaced("", " ", mark, " ", t, "");
    assert Tidy(t, "") && Gap("") && Gap(" ");
  }

  // ---------------------------------------------------------------------------- The lines of a quiz

  /** A quiz's text is its lines with any space around them. */
  lemma LinesAre(before: string, lines: seq<string>, after: string)
    requires Spaces(before) && Spaces(after) && lines != [] && forall k | 0 <= k < |lines| :: OneLine(lines[k])
    requires Trim(lines[0]) && Trim(lines[|lines| - 1])
    ensures QuizLines(before + Join(lines, "\n") + after) == lines
  {
    SplitOfJoin(lines);
    JoinEnds(lines);
    hide *;
    TrimDrops(before, Join(lines, "\n"), after);
    QuizLinesIs(before + Join(lines, "\n") + after);
  }

  lemma QuizLinesIs(inner: string)
    ensures QuizLines(inner) == Split(TrimSpace(inner))
  {
  }

  lemma JoinEnds(lines: seq<string>)
    requires lines != [] && Trim(lines[0]) && Trim(lines[|lines| - 1])
    ensures Trim(Join(lines, "\n"))
  {
    hide IsSpace;
    JoinLast(lines);
  }

  lemma {:induction false} JoinLast(lines: seq<string>)
    requires lines != [] && lines[|lines| - 1] != ""
    ensures var s, last := Join(lines, "\n"), lines[|lines| - 1]; s != "" && s[|s| - 1] == last[|last| - 1]
  {
    if |lines| > 1 {
      JoinLast(lines[1..]);
    }
  }

  // ---------------------------------------------------------------------------- A quiz

  /** Some line is a right choice whose text has this hash. */
  ghost predicate RightLine(x: Setting, lines: seq<string>, submitted: string) {
    exists k, t :: 0 <= k < |lines| && IsRight(lines[k], t) && x.flagHash(t) == submitted
  }

  lemma {:induction false} RightLines(x: Setting, lines: seq<string>, submitted: string)
    ensures RightChoice(x, Choices(lines), submitted) <==> RightLine(x, lines, submitted)
  {
    hide ChoiceOf, IsRight;
    if lines != [] {
      var before, last := lines[..|lines| - 1], lines[|lines| - 1];
      assert lines == before + [last];
      RightLines(x, before, submitted);
      RightLineMore(x, before, last, submitted);
      if ChoiceOf(last).Some? {
        RightMore(x, Choices(before), ChoiceOf(last).value, submitted);
      }
      LastRight(x, last, submitted);
    }
  }

  lemma RightLineMore(x: Setting, before: seq<string>, last: string, submitted: string)
    ensures RightLine(x, before + [last], submitted) <==>
            RightLine(x, before, submitted) || RightLine(x, [last], submitted)
  {
    hide IsRight;
    var more := before + [last];
    if RightLine(x, before, submitted) {
      var k, t :| 0 <= k < |before| && IsRight(before[k], t) && x.flagHash(t) == submitted;
      assert more[k] == before[k];
    }
    if RightLine(x, [last], submitted) {
      var k, t :| 0 <= k < |[last]| && IsRight([last][k], t) && x.flagHash(t) == submitted;
      assert more[|before|] == last;
    }
    if RightLine(x, more, submitted) {
      var k, t :| 0 <= k < |more| && IsRight(more[k], t) && x.flagHash(t) == submitted;
      assert if k < |before| then more[k] == before[k] else more[k] == [last][0];
    }
  }

  lemma LastRight(x: Setting, last: string, submitted: string)
    ensures RightLine(x, [last], submitted) <==>
            ChoiceOf(last).Some? && ChoiceOf(last).value.correct && x.flagHash(ChoiceOf(last).value.text) == submitted
  {
    hide ChoiceOf, IsChoice, IsRight;
    if ChoiceOf(last).Some? {
      ChoicesAreLines(last, ChoiceOf(last).value.text);
      if ChoiceOf(last).value.correct {
        assert IsRight([last][0], ChoiceOf(last).value.text);
      }
    }
    if RightLine(x, [last], submitted) {
      var k, t :| 0 <= k < |[last]| && IsRight([last][k], t) && x.flagHash(t) == submitted;
      ChoicesAreLines(last, t);
    }
  }

  /** The flags registered for a quiz accept a submission exactly if it is the salted hash of the text of a line
      marked right. */
  lemma QuizAccepts(x: Setting, inner: string, submitted: string, grade: Option<G.Grader>)
    requires Digests(x) && BuildQuiz(x, inner).Ok?
    ensures G.Accepts(BuildQuiz(x, inner).value.challenge.flags, submitted, grade) <==>
            RightLine(x, QuizLines(inner), submitted)
  {
    hide *;
    QuizGrades(x, Choices(QuizLines(inner)), submitted, grade);
    RightLines(x, QuizLines(inner), submitted);
    FlagsAre(x, inner);
  }

  lemma FlagsAre(x: Setting, inner: string)
    requires BuildQuiz(x, inner).Ok?
    ensures BuildQuiz(x, inner).value.challenge.flags == RightFlags(x, Choices(QuizLines(inner)))
  {
    hide QuizLines, Choices, Question, RightFlags, ChoicesHtml, BlockHtml, QuizInner;
  }

  /** A line of the question: no choice and not only space. */
  ghost predicate IsQuestion(line: string) {
    (forall mark, t | IsMark(mark) :: !IsChoice(line, mark, t)) && !Spaces(line)
  }

  /** A quiz is refused exactly if it has no question or no choice. */
  lemma QuizRefused(x: Setting, inner: string)
    ensures BuildQuiz(x, inner) == Err(QuizIncomplete) <==>
            || (forall k | 0 <= k < |QuizLines(inner)| :: !IsQuestion(QuizLines(inner)[k]))
            || (forall k, mark, t | 0 <= k < |QuizLines(inner)| && IsMark(mark) ::
                  !IsChoice(QuizLines(inner)[k], mark, t))
    ensures BuildQuiz(x, inner).Err? ==> BuildQuiz(x, inner) == Err(QuizIncomplete)
  {
    var lines := QuizLines(inner);
    QuestionFound(lines);
    ChoicesFound(lines);
    hide QuizLines, Choices, Question, RightFlags, ChoicesHtml, BlockHtml, QuizInner, IsQuestion, IsChoice;
  }

  lemma ChoiceOrNot(line: string)
    ensures ChoiceOf(line).Some? <==> exists mark, t :: IsMark(mark) && IsChoice(line, mark, t)
  {
    hide ChoiceOf, IsChoice;
    if ChoiceOf(line).Some? {
      ChoiceFound(line);
      var t := ChoiceOf(line).value.text;
      assert IsMark(' ') && IsMark('x') && IsMark('X');
      assert IsChoice(line, ' ', t) || IsChoice(line, 'x', t) || IsChoice(line, 'X', t);
    }
    forall mark, t | IsMark(mark) && IsChoice(line, mark, t) ensures ChoiceOf(line).Some? {
      ChoiceRead(line, mark, t);
    }
  }

  lemma {:induction false} QuestionFound(lines: seq<string>)
    ensures Join(Question(lines), " ") == "" <==> forall k | 0 <= k < |lines| :: !IsQuestion(lines[k])
    ensures Join(Question(lines), " ") == "" <==> Question(lines) == []
  {
    hide ChoiceOf, IsChoice, TrimSpace, Spaces;
    if lines != [] {
      var before, last := lines[..|lines| - 1], lines[|lines| - 1];
      QuestionFound(before);
      ChoiceOrNot(last);
      SpaceTrims(last);
      if TrimSpace(last) != "" {
        NotEmpty(Question(before), TrimSpace(last));
      }
      assert lines == before + [last];
    }
  }

  lemma {:induction false} NotEmpty(parts: seq<string>, last: string)
    requires last != ""
    ensures Join(parts + [last], " ") != ""
  {
    assert |parts + [last]| > 1 ==> |(parts + [last])[0] + " "| > 0;
  }

  lemma {:induction false} ChoicesFound(lines: seq<string>)
    ensures Choices(lines) == [] <==>
            forall k, mark, t | 0 <= k < |lines| && IsMark(mark) :: !IsChoice(lines[k], mark, t)
  {
    hide ChoiceOf, IsChoice;
    if lines != [] {
      var before, last := lines[..|lines| - 1], lines[|lines| - 1];
      ChoicesFound(before);
      ChoiceOrNot(last);
      assert lines == before + [last];
    }
  }

  // ---------------------------------------------------------------------------- A quiz in full

  /** A line of a quiz as its author means it. */
  datatype Line = Asked(text: string) | Answered(mark: char, text: string)

  function Source(l: Line): string {
    match l
    case Asked(text) => text
    case Answered(mark, text) => Written(mark, text)
  }

  ghost predicate Proper(l: Line) {
    && OneLine(Source(l)) && Trim(l.text)
    && (l.Answered? ==> IsMark(l.mark))
    && (l.Asked? ==> forall mark, t | IsMark(mark) :: !IsChoice(l.text, mark, t))
  }

  function Sources(lines: seq<Line>): (s: seq<string>)
    ensures |s| == |lines|
  {
    seq(|lines|, k requires 0 <= k < |lines| => Source(lines[k]))
  }

  function Questions(lines: seq<Line>): seq<string> {
    if lines == [] then []
    else
      match lines[|lines| - 1]
      case Asked(text) => Questions(lines[..|lines| - 1]) + [text]
      case Answered(_, _) => Questions(lines[..|lines| - 1])
  }

  function Label(name: string, flag: string, text: string): string {
    "<label><input type=\"radio\" name=\"" + name + "\" data-flag=\"" + flag + "\"> " + Escape(text, QuizEntity)
    + "</label>"
  }

  function Labels(x: Setting, name: string, lines: seq<Line>): string {
    if lines == [] then ""
    else
      match lines[|lines| - 1]
      case Asked(_) => Labels(x, name, lines[..|lines| - 1])
      case Answered(_, text) => Labels(x, name, lines[..|lines| - 1]) + Label(name, x.flagHash(text), text)
  }

  function Right(x: Setting, lines: seq<Line>): seq<string> {
    if lines == [] then []
    else
      match lines[|lines| - 1]
      case Asked(_) => Right(x, lines[..|lines| - 1])
      case Answered(mark, text) =>
        Right(x, lines[..|lines| - 1]) + (if mark == ' ' then [] else [x.flagHash(text)])
  }

  /** The quiz with these lines and any space around them: its page element and its challenge. */
  lemma QuizWritten(x: Setting, before: string, lines: seq<Line>, after: string)
    requires Spaces(before) && Spaces(after) && Digests(x)
    requires forall k | 0 <= k < |lines| :: Proper(lines[k])
    requires (exists k :: 0 <= k < |lines| && lines[k].Asked?) && exists k :: 0 <= k < |lines| && lines[k].Answered?
    ensures var question := Join(Questions(lines), " ");
            var hash := x.challengeHash(question, x.slug);
            && |hash| == 64
            && BuildQuiz(x, before + Join(Sources(lines), "\n") + after)
               == Ok(Built("<div class=\"quiz\" data-challenge=\"" + hash + "\"><div class=\"q\">"
                           + Escape(question, QuizEntity) + "</div>" + Labels(x, "q-" + hash[..8], lines)
                           + "<button class=\"quiz-submit\">Submit</button>" + "<div class=\"verdict\"></div></div>",
                           Challenge(hash, 10, Right(x, lines), None)))
  {
    var inner := before + Join(Sources(lines), "\n") + after;
    var question := Join(Questions(lines), " ");
    var hash := x.challengeHash(question, x.slug);
    assert IsDigest(hash);
    hide Proper, QuizInner, BlockHtml, Labels, ChoicesHtml, Question, Choices, Join, Questions, Right, RightFlags,
         IsDigest, IsSpace, QuizLines;
    assert |hash| == 64 by {
      DigestLong(hash);
    }
    SourcesTrim(lines);
    LinesAre(before, Sources(lines), after);
    QuestionsAre(lines);
    ChoicesAre(x, "q-" + hash[..8], lines);
    QuizHtml(hash, question, Labels(x, "q-" + hash[..8], lines));
  }

  lemma DigestLong(h: string)
    ensures IsDigest(h) ==> |h| == 64
  {
  }

  lemma SourcesTrim(lines: seq<Line>)
    requires forall k | 0 <= k < |lines| :: Proper(lines[k])
    ensures forall k | 0 <= k < |lines| :: OneLine(Sources(lines)[k]) && Trim(Sources(lines)[k])
  {
    hide IsSpace, IsChoice, OneLine;
    forall k | 0 <= k < |lines| ensures OneLine(Sources(lines)[k]) && Trim(Sources(lines)[k]) {
      SourceTrims(lines[k]);
    }
  }

  lemma SourceTrims(l: Line)
    requires Trim(l.text)
    ensures Trim(Source(l))
  {
  }

  lemma {:induction false} QuestionsAre(lines: seq<Line>)
    requires forall k | 0 <= k < |lines| :: Proper(lines[k])
    ensures Question(Sources(lines)) == Questions(lines)
    ensures Join(Questions(lines), " ") == "" <==> forall k | 0 <= k < |lines| :: lines[k].Answered?
  {
    hide Proper, ChoiceOf, TrimSpace;
    if lines != [] {
      var before, last := lines[..|lines| - 1], lines[|lines| - 1];
      QuestionsAre(before);
      SourcesMore(lines);
      LineRead(last);
      if last.Asked? {
        NotEmpty(Questions(before), last.text);
      }
      assert lines == before + [last];
    }
  }

  lemma SourcesMore(lines: seq<Line>)
    requires lines != []
    ensures Sources(lines) != [] && Sources(lines)[|lines| - 1] == Source(lines[|lines| - 1])
    ensures Sources(lines)[..|lines| - 1] == Sources(lines[..|lines| - 1])
  {
  }

  lemma LineRead(l: Line)
    requires Proper(l)
    ensures l.text != ""
    ensures l.Asked? ==> ChoiceOf(Source(l)).None? && TrimSpace(Source(l)) == l.text
    ensures l.Answered? ==> ChoiceOf(Source(l)) == Some(Choice(l.text, l.mark != ' '))
  {
    hide ChoiceOf, IsChoice, TrimSpace, IsSpace, Written;
    if l.Asked? {
      ChoiceOrNot(l.text);
      assert "" + l.text + "" == l.text;
      TrimDrops("", l.text, "");
    } else {
      NotBlank(l.text[0]);
      NotBlank(l.text[|l.text| - 1]);
      WrittenIs(l.mark, l.text);
      ChoiceRead(Written(l.mark, l.text), l.mark, l.text);
    }
  }

  lemma {:induction false} ChoicesAre(x: Setting, name: string, lines: seq<Line>)
    requires forall k | 0 <= k < |lines| :: Proper(lines[k])
    ensures var choices := Choices(Sources(lines));
            && ChoicesHtml(x, name, choices) == Labels(x, name, lines)
            && RightFlags(x, choices) == Right(x, lines)
            && (choices == [] <==> forall k | 0 <= k < |lines| :: lines[k].Asked?)
  {
    hide Proper, ChoiceOf, ChoiceHtml, Label;
    if lines != [] {
      var before, last := lines[..|lines| - 1], lines[|lines| - 1];
      ChoicesAre(x, name, before);
      SourcesMore(lines);
      LineRead(last);
      assert lines == before + [last];
      if last.Answered? {
        var choices, c := Choices(Sources(before)), Choice(last.text, last.mark != ' ');
        assert (choices + [c])[..|choices|] == choices;
        LabelIs(name, x.flagHash(last.text), last.text);
      }
    }
  }

  lemma LabelIs(name: string, flag: string, text: string)
    ensures ChoiceHtml(name, flag, text) == Label(name, flag, text)
  {
    var a, b := " name=\"" + name + "\"", " data-flag=\"" + flag + "\"";
    Constants();
    SpelledIs("name", " name=\"", name);
    SpelledIs("data-flag", " data-flag=\"", flag);
    var escaped := Escape(text, QuizEntity);
    hide Element, Spelled, Escape;
    ElementIs("label", "", "<label>", "</label>",
              "<input" + Spelled(Attribute("type", "radio")) + a + b + "> " + escaped);
    LabelConstants();
    LabelWords("<input type=\"radio\"", " name=\"", name, "\"", " data-flag=\"", flag, "> ", escaped);
  }

  lemma LabelConstants()
    ensures "\"" + " data-flag=\"" == "\" data-flag=\"" && "\"" + "> " == "\"> "
    ensures "<label>" + ("<input type=\"radio\"" + " name=\"") == "<label><input type=\"radio\" name=\""
  {
  }

  lemma LabelWords(input: string, n: string, name: string, q: string, f: string, flag: string, end: string,
                   rest: string)
    ensures "<label>" + (input + (n + name + q) + (f + flag + q) + end + rest)
            == "<label>" + (input + n) + name + (q + f) + flag + (q + end) + rest
  {
    var done := input + n + name;
    AssociateThree(input, n, name, q);
    AssociateThree(done + q, f, flag, q);
    assert done + q + f == done + (q + f);
    assert done + (q + f) + flag + q + end == done + (q + f) + flag + (q + end);
    var body := (q + f) + flag + (q + end) + rest;
    assert done + (q + f) + flag + (q + end) + rest == done + body;
    assert "<label>" + (done + body) == "<label>" + (input + n) + name + body;
  }

  lemma Constants()
    ensures " " + "name" + "=\"" == " name=\"" && " " + "data-flag" + "=\"" == " data-flag=\""
    ensures "<input" + Spelled(Attribute("type", "radio")) == "<input type=\"radio\""
    ensures "<" + "label" + "" + ">" == "<label>" && "</" + "label" + ">" == "</label>"
    ensures "</" + "button" + ">" == "</button>"
  {
  }

  lemma SubmitWords()
    ensures "<" + "button" + Spelled(Attribute("class", "quiz-submit")) + ">" == "<button class=\"quiz-submit\">"
    ensures "<button class=\"quiz-submit\">" + "Submit" + "</button>" == "<button class=\"quiz-submit\">Submit</button>"
  {
  }

  lemma QuizHtml(hash: string, question: string, choices: string)
    ensures BlockHtml("quiz", hash, QuizInner(question, choices))
            == "<div class=\"quiz\" data-challenge=\"" + hash + "\"><div class=\"q\">" + Escape(question, QuizEntity)
               + "</div>" + choices + "<button class=\"quiz-submit\">Submit</button>"
               + "<div class=\"verdict\"></div></div>"
  {
    var q := Escape(question, QuizEntity);
    hide Element, Spelled, BlockHtml, QuestionHtml, Escape;
    SubmitWords();
    QuestionIs(q);
    ElementIs("button", Spelled(Attribute("class", "quiz-submit")), "<button class=\"quiz-submit\">", "</button>",
              "Submit");
    BlockIs("quiz", hash, QuizInner(question, choices));
    Regroup("<div class=\"quiz\" data-challenge=\"" + hash, "\">", "<div class=\"q\">", q, "</div>", choices,
            "<button class=\"quiz-submit\">" + "Submit" + "</button>", "<div class=\"verdict\"></div></div>");
    assert "\">" + "<div class=\"q\">" == "\"><div class=\"q\">";
    assert "<div class=\"" + "quiz" + "\" data-challenge=\"" == "<div class=\"quiz\" data-challenge=\"";
  }

  lemma Regroup(front: string, end: string, open: string, q: string, close: string, choices: string, button: string,
                last: string)
    ensures front + end + (open + q + close + choices + button) + last
            == front + (end + open) + q + close + choices + button + last
  {
    AssociateThree(front + end, open, q, close);
    assert front + end + (open + q + close + choices + button) == front + end + (open + q + close) + choices + button;
    assert front + end + open == front + (end + open);
  }
}

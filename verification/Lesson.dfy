/** The lesson compiler. */
module Lesson {
  import opened Decimal
  import opened Options
  import opened Text
  import opened Html
  import opened Markdown
  import opened Blocks
  import opened Weaving
  import opened Placeholders
  import opened DemoLinks

  datatype Error =
    | QuizIncomplete
    | ExerciseEmpty
    | ReferenceFailed
    | UnknownTerminal
    | PortNotANumber(port: string)

  datatype Result<+T> = Ok(value: T) | Err(error: Error)

  /** What server-side verification fetches. */
  datatype Target = Target(port: int, path: string)

  datatype Challenge = Challenge(hash: string, value: int, flags: seq<string>, verify: Option<Target>)

  /** How an exercise gets its flag: written in the front matter, computed from a reference page (which may
      fail), or not at all. */
  datatype Reference = Written(text: string) | Computed(flag: Option<string>) | Ungraded

  /** What a lesson is compiled with. Challenge hashes and salted flags are digests, here any functions. */
  datatype Setting = Setting(
    slug: string,
    challengeHash: (string, string) -> string,
    flagHash: string -> string,
    reference: Reference,
    terminals: nat,
    verified: bool)

  /** A block as compiled. */
  datatype Built = Built(html: string, challenge: Challenge)

  // ---------------------------------------------------------------------------- Quizzes

  datatype Choice = Choice(text: string, correct: bool)

  function BlanksOff(s: string): string {
    if s != "" && IsBlank(s[|s| - 1]) then BlanksOff(s[..|s| - 1]) else s
  }

  /** The text of a choice: what follows the mark, without the blanks around it, but at least one character. */
  function ChoiceText(s: string): Option<string> {
    if s == "" then None
    else if Blanks(s) == |s| then Some(s[|s| - 1..])
    else Some(BlanksOff(s[Blanks(s)..]))
  }

  /** A line `- [x] text` is a choice. */
  function ChoiceOf(line: string): Option<Choice> {
    var a := line[Blanks(line)..];
    if a == "" || a[0] != '-' then None
    else
      var b := a[1 + Blanks(a[1..])..];
      if |b| < 3 || b[0] != '[' || b[2] != ']' || (b[1] != ' ' && b[1] != 'x' && b[1] != 'X') then None
      else
        match ChoiceText(b[3..])
        case None => None
        case Some(t) => Some(Choice(t, b[1] != ' '))
  }

  function Choices(lines: seq<string>): seq<Choice> {
    if lines == [] then []
    else
      var before := Choices(lines[..|lines| - 1]);
      match ChoiceOf(lines[|lines| - 1])
      case Some(c) => before + [c]
      case None => before
  }

  function Question(lines: seq<string>): seq<string> {
    if lines == [] then []
    else
      var before, last := Question(lines[..|lines| - 1]), lines[|lines| - 1];
      if ChoiceOf(last).None? && TrimSpace(last) != "" then before + [TrimSpace(last)] else before
  }

  /** The entities of text inside a quiz. */
  function QuizEntity(c: char): string {
    match c
    case '&' => "&amp;"
    case '<' => "&lt;"
    case '>' => "&gt;"
    case '"' => "&quot;"
    case _ => [c]
  }

  function ChoiceHtml(name: string, flag: string, text: string): string {
    Element("label", "",
            "<input" + Spelled(Attribute("type", "radio")) + Spelled(Attribute("name", name))
            + Spelled(Attribute("data-flag", flag)) + "> " + Escape(text, QuizEntity))
  }

  function ChoicesHtml(x: Setting, name: string, choices: seq<Choice>): string {
    if choices == [] then ""
    else
      var c := choices[|choices| - 1];
      ChoicesHtml(x, name, choices[..|choices| - 1]) + ChoiceHtml(name, x.flagHash(c.text), c.text)
  }

  function RightFlags(x: Setting, choices: seq<Choice>): seq<string> {
    if choices == [] then []
    else
      var before, c := RightFlags(x, choices[..|choices| - 1]), choices[|choices| - 1];
      if c.correct then before + [x.flagHash(c.text)] else before
  }

  /** A block of either kind as its page element. */
  function BlockHtml(kind: string, hash: string, inner: string): string {
    Element("div", Spelled(Attribute("class", kind)) + Spelled(Attribute("data-challenge", hash)),
            inner + Element("div", Spelled(Attribute("class", "verdict")), ""))
  }

  function QuestionHtml(html: string): string {
    Element("div", Spelled(Attribute("class", "q")), html)
  }

  function QuizInner(question: string, choices: string): string {
    QuestionHtml(Escape(question, QuizEntity)) + choices
    + Element("button", Spelled(Attribute("class", "quiz-submit")), "Submit")
  }

  function QuizLines(inner: string): seq<string> {
    Split(TrimSpace(inner))
  }

  function Start(s: string, n: nat): string {
    if n <= |s| then s[..n] else s
  }

  function BuildQuiz(x: Setting, inner: string): Result<Built> {
    var lines := QuizLines(inner);
    var question, choices := Join(Question(lines), " "), Choices(lines);
    if question == "" || choices == [] then Err(QuizIncomplete)
    else
      var hash := x.challengeHash(question, x.slug);
      Ok(Built(BlockHtml("quiz", hash, QuizInner(question, ChoicesHtml(x, "q-" + Start(hash, 8), choices))),
               Challenge(hash, 10, RightFlags(x, choices), None)))
  }

  method RenderQuiz(x: Setting, inner: string) returns (r: Result<Built>)
    ensures r == BuildQuiz(x, inner)
  {
    hide ChoiceOf, TrimSpace, Split, Element, Spelled, Escape, ChoiceHtml;
    var lines := QuizLines(inner);
    var question: seq<string>, choices: seq<Choice> := [], [];
    for i := 0 to |lines|
      invariant question == Question(lines[..i]) && choices == Choices(lines[..i])
    {
      assert lines[..i + 1][..i] == lines[..i];
      match ChoiceOf(lines[i])
      case Some(c) =>
        choices := choices + [c];
        continue;
      case None =>
        if TrimSpace(lines[i]) != "" {
          question := question + [TrimSpace(lines[i])];
        }
    }
    assert lines[..|lines|] == lines;
    var q := Join(question, " ");
    if q == "" || choices == [] {
      return Err(QuizIncomplete);
    }
    var hash := x.challengeHash(q, x.slug);
    var flags: seq<string>, options := [], "";
    for i := 0 to |choices|
      invariant flags == RightFlags(x, choices[..i]) && options == ChoicesHtml(x, "q-" + Start(hash, 8), choices[..i])
    {
      hide Start, Question, Choices;
      assert choices[..i + 1][..i] == choices[..i];
      if choices[i].correct {
        flags := flags + [x.flagHash(choices[i].text)];
      }
      options := options + ChoiceHtml("q-" + Start(hash, 8), x.flagHash(choices[i].text), choices[i].text);
    }
    assert choices[..|choices|] == choices;
    r := Ok(Built(BlockHtml("quiz", hash, QuizInner(q, options)), Challenge(hash, 10, flags, None)));
  }

  // ---------------------------------------------------------------------------- Exercises

  function ExerciseInner(text: string, hash: string, r: Routing): string {
    QuestionHtml(Rendered(text)) + Button(hash, r)
  }

  function ExerciseHtml(text: string, hash: string, r: Routing): string {
    BlockHtml("exercise", hash, ExerciseInner(text, hash, r))
  }

  function ExerciseFlags(x: Setting): Result<seq<string>> {
    match x.reference
    case Written(flag) => Ok([flag])
    case Computed(Some(flag)) => Ok([flag])
    case Computed(None) => Err(ReferenceFailed)
    case Ungraded => Ok([])
  }

  function BuildExercise(x: Setting, inner: string): Result<Built> {
    var text := TrimSpace(inner);
    if text == "" then Err(ExerciseEmpty)
    else
      match ExerciseFlags(x)
      case Err(e) => Err(e)
      case Ok(flags) =>
        var hash := x.challengeHash(text, x.slug);
        Ok(Built(ExerciseHtml(text, hash, DEFAULT), Challenge(hash, 20, flags, None)))
  }

  // ---------------------------------------------------------------------------- Both

  datatype Kind = Quiz | Exercise

  function WordOf(kind: Kind): string {
    if kind.Quiz? then "quiz" else "exercise"
  }

  function Build(x: Setting, kind: Kind, inner: string): Result<Built> {
    if kind.Quiz? then BuildQuiz(x, inner) else BuildExercise(x, inner)
  }

  /** Every block compiled, or the first failure. */
  function BuildAll(x: Setting, kind: Kind, blocks: seq<Block>): Result<seq<Built>> {
    if blocks == [] then Ok([])
    else
      match Build(x, kind, blocks[0].inner)
      case Err(e) => Err(e)
      case Ok(b) =>
        match BuildAll(x, kind, blocks[1..])
        case Err(e) => Err(e)
        case Ok(rest) => Ok([b] + rest)
  }

  function Htmls(built: seq<Built>): seq<string> {
    seq(|built|, i requires 0 <= i < |built| => built[i].html)
  }

  function Challenges(built: seq<Built>): seq<Challenge> {
    seq(|built|, i requires 0 <= i < |built| => built[i].challenge)
  }

  function HashesOf(built: seq<Built>): seq<string> {
    seq(|built|, i requires 0 <= i < |built| => built[i].challenge.hash)
  }

  function CutOf(kind: Kind, s: string): Weave<Block> {
    Cut(s, WordOf(kind))
  }

  /** The text with its blocks replaced, numbered from k on, as one of n in all. */
  function Left(kind: Kind, s: string, k: nat, n: nat): string {
    Spell(Numbered(CutOf(kind, s), k), TokenLines(n))
  }

  function PlaceholdersFor(kind: Kind, s: string, from: nat): string {
    Left(kind, s, from, from + |Holes(CutOf(kind, s))|)
  }

  /** One pass: the text with the blocks of one kind replaced by placeholders, and the blocks compiled. */
  method Extract(x: Setting, kind: Kind, body: string, from: nat) returns (out: string, r: Result<seq<Built>>)
    ensures r == BuildAll(x, kind, Holes(CutOf(kind, body)))
    ensures r.Ok? ==> out == PlaceholdersFor(kind, body, from)
  {
    out := "";
    var rest, built: seq<Built> := body, [];
    ExtractStart(x, kind, body, from);
    while true
      invariant Extracting(x, kind, body, from, rest, built, out)
      decreases |rest|
    {
      hide Extracting, Build, BuildAll, FindBlock, TagEnd, CutOf, PlaceholdersFor, TokenLine;
      match FindBlock(rest, WordOf(kind))
      case None =>
        ExtractEnd(x, kind, body, from, rest, built, out);
        out := out + rest;
        return out, Ok(built);
      case Some(Span(o, i, c, e)) =>
        var one := Build(x, kind, rest[i..c]);
        ExtractMore(x, kind, body, from, rest, built, out);
        match one
        case Err(error) =>
          return out, Err(error);
        case Ok(b) =>
          out := out + rest[..o] + TokenLine(from + |built|);
          built := built + [b];
          rest := rest[e..];
    }
  }

  function After(built: seq<Built>, r: Result<seq<Built>>): Result<seq<Built>> {
    match r
    case Err(e) => Err(e)
    case Ok(rest) => Ok(built + rest)
  }

  /** What is done and what is left make up the pass. */
  ghost predicate Extracting(x: Setting, kind: Kind, body: string, from: nat, rest: string, built: seq<Built>,
                             out: string) {
    var all, later := CutOf(kind, body), CutOf(kind, rest);
    && BuildAll(x, kind, Holes(all)) == After(built, BuildAll(x, kind, Holes(later)))
    && |Holes(all)| == |built| + |Holes(later)|
    && PlaceholdersFor(kind, body, from) == out + Left(kind, rest, from + |built|, from + |Holes(all)|)
  }

  lemma ExtractStart(x: Setting, kind: Kind, body: string, from: nat)
    ensures Extracting(x, kind, body, from, body, [], "")
  {
    var r := BuildAll(x, kind, Holes(CutOf(kind, body)));
    hide BuildAll, Spell, TokenLines, CutOf, Numbered, Holes;
    assert r.Ok? ==> [] + r.value == r.value;
    assert "" + PlaceholdersFor(kind, body, from) == PlaceholdersFor(kind, body, from);
  }

  lemma ExtractEnd(x: Setting, kind: Kind, body: string, from: nat, rest: string, built: seq<Built>, out: string)
    requires Extracting(x, kind, body, from, rest, built, out) && FindBlock(rest, WordOf(kind)).None?
    ensures PlaceholdersFor(kind, body, from) == out + rest
    ensures BuildAll(x, kind, Holes(CutOf(kind, body))) == Ok(built)
  {
    assert CutOf(kind, rest) == End(rest);
    assert built + [] == built;
  }

  lemma ExtractMore(x: Setting, kind: Kind, body: string, from: nat, rest: string, built: seq<Built>, out: string)
    requires Extracting(x, kind, body, from, rest, built, out) && FindBlock(rest, WordOf(kind)).Some?
    ensures var Span(o, i, c, e) := FindBlock(rest, WordOf(kind)).value;
            var one := Build(x, kind, rest[i..c]);
            && (one.Err? ==> BuildAll(x, kind, Holes(CutOf(kind, body))) == Err(one.error))
            && (one.Ok? ==>
                  Extracting(x, kind, body, from, rest[e..], built + [one.value],
                             out + rest[..o] + TokenLine(from + |built|)))
  {
    hide FindBlock, TagEnd, CutOf, Build, BuildAll, TokenLine, PlaceholdersFor, Left, Holes;
    var Span(o, i, c, e) := FindBlock(rest, WordOf(kind)).value;
    var b, more := Block(rest[o..e], rest[i..c]), CutOf(kind, rest[e..]);
    CutMore(kind, rest);
    BuildMore(x, kind, built, b, Holes(more));
    var k, n := from + |built|, from + |Holes(CutOf(kind, body))|;
    LeftMore(kind, rest, k, n);
    Chain(PlaceholdersFor(kind, body, from), out, Left(kind, rest, k, n), rest[..o], TokenLine(k),
          Left(kind, rest[e..], k + 1, n));
  }

  lemma Chain(page: string, out: string, left: string, text: string, line: string, last: string)
    ensures page == out + left && left == text + line + last ==> page == out + text + line + last
  {
  }

  lemma LeftMore(kind: Kind, s: string, k: nat, n: nat)
    requires FindBlock(s, WordOf(kind)).Some? && k < n
    ensures var Span(o, i, c, e) := FindBlock(s, WordOf(kind)).value;
            Left(kind, s, k, n) == s[..o] + TokenLine(k) + Left(kind, s[e..], k + 1, n)
  {
    hide FindBlock, TagEnd, TokenLine;
    CutMore(kind, s);
    assert Fill(TokenLines(n), k) == TokenLine(k);
  }

  lemma CutMore(kind: Kind, s: string)
    requires FindBlock(s, WordOf(kind)).Some?
    ensures var Span(o, i, c, e) := FindBlock(s, WordOf(kind)).value;
            var b, more := Block(s[o..e], s[i..c]), CutOf(kind, s[e..]);
            CutOf(kind, s) == More(s[..o], b, more) && Holes(CutOf(kind, s)) == [b] + Holes(more)
  {
    hide FindBlock, TagEnd;
  }

  lemma BuildMore(x: Setting, kind: Kind, built: seq<Built>, b: Block, later: seq<Block>)
    ensures var one, all := Build(x, kind, b.inner), After(built, BuildAll(x, kind, [b] + later));
            && (one.Err? ==> all == Err(one.error))
            && (one.Ok? ==> all == After(built + [one.value], BuildAll(x, kind, later)))
  {
    assert ([b] + later)[1..] == later;
    if Build(x, kind, b.inner).Ok? {
      var one := Build(x, kind, b.inner).value;
      var r := BuildAll(x, kind, later);
      if r.Ok? {
        assert built + ([one] + r.value) == built + [one] + r.value;
      }
    }
  }

  // ---------------------------------------------------------------------------- Terminals

  /** The number of the terminal that an attribute at i refers to. */
  function TermAt(s: string, i: nat): Option<nat>
    requires i <= |s|
  {
    if !At(s, i, "data-term=\"") then None
    else
      var p := i + |"data-term=\""|;
      var q := if At(s, p, ".term") then p + 5 else if At(s, p, "term") then p + 4 else p;
      var n := Leading(s[q..]);
      if n > 0 && At(s, q + n, "\"") then Some(Number(s[q..][..n])) else None
  }

  predicate TermsKnown(s: string, terminals: nat) {
    forall i: nat | i <= |s| && TermAt(s, i).Some? :: TermAt(s, i).value <= terminals
  }

  method CheckTermRefs(s: string, terminals: nat) returns (ok: bool)
    ensures ok <==> TermsKnown(s, terminals)
  {
    hide TermAt;
    for i := 0 to |s| + 1
      invariant forall k: nat | k < i && TermAt(s, k).Some? :: TermAt(s, k).value <= terminals
    {
      if TermAt(s, i).Some? && TermAt(s, i).value > terminals {
        return false;
      }
    }
    return true;
  }

  // ---------------------------------------------------------------------------- Verification targets

  function Retarget(c: Challenge, hash: string, target: Target): Challenge {
    if c.hash == hash then c.(verify := Some(target)) else c
  }

  function RetargetAll(challenges: seq<Challenge>, hash: string, target: Target): seq<Challenge> {
    seq(|challenges|, j requires 0 <= j < |challenges| => Retarget(challenges[j], hash, target))
  }

  function HashMark(hash: string): string {
    "data-hash-code=\"" + hash + "\""
  }

  datatype Page = Page(html: string, challenges: seq<Challenge>)

  /** From the i-th exercise on: the target of each recorded, its button marked. */
  function WithTargets(page: Page, hashes: seq<string>, rs: seq<Routing>, i: nat): Result<Page>
    requires |rs| == |hashes|
    decreases |hashes| - i
  {
    if i >= |hashes| then Ok(page)
    else
      match Atoi(rs[i].port)
      case None => Err(PortNotANumber(rs[i].port))
      case Some(port) =>
        WithTargets(
          Page(ReplaceFirst(page.html, HashMark(hashes[i]), HashMark(hashes[i]) + " data-verify=\"1\""),
               RetargetAll(page.challenges, hashes[i], Target(port, rs[i].path))),
          hashes, rs, i + 1)
  }

  function Finish(x: Setting, page: Page, hashes: seq<string>, rs: seq<Routing>): Result<Page>
    requires |rs| == |hashes|
  {
    if !TermsKnown(page.html, x.terminals) then Err(UnknownTerminal)
    else if x.verified then WithTargets(page, hashes, rs, 0)
    else Ok(page)
  }

  /** The page of compiled blocks, paired with the authored links and with its targets recorded. */
  function Assembled(x: Setting, body: string, quizzes: seq<Built>, exercises: seq<Built>): Result<Page> {
    var built, hashes := quizzes + exercises, HashesOf(exercises);
    var html := PageOf(body, Htmls(built));
    Finish(x, Page(Paired(html, hashes), Challenges(built)), hashes, Routings(Authored(Anchors(html, 0)), |hashes|))
  }

  function Compile(x: Setting, body: string): Result<Page> {
    match BuildAll(x, Quiz, Quizzes(body))
    case Err(e) => Err(e)
    case Ok(quizzes) =>
      match BuildAll(x, Exercise, Exercises(body))
      case Err(e) => Err(e)
      case Ok(exercises) => Assembled(x, body, quizzes, exercises)
  }

  /** A lesson being rendered. */
  class Lesson {
    const setting: Setting
    var html: string
    var challenges: seq<Challenge>
    var exerciseHashes: seq<string>

    constructor (setting: Setting)
      ensures this.setting == setting && html == "" && challenges == [] && exerciseHashes == []
    {
      this.setting := setting;
      html, challenges, exerciseHashes := "", [], [];
    }

    /** Renders the lesson: the page and the challenges it registers, or why it cannot be built. */
    method Render(body: string) returns (error: Option<Error>)
      requires challenges == [] && exerciseHashes == []
      modifies this
      ensures match Compile(setting, body)
              case Err(e) => error == Some(e)
              case Ok(page) => error == None && html == page.html && challenges == page.challenges
    {
      hide Spell, TokenLines, Cut, Holes, Numbered, BuildAll, Rendered, Paired, Routings, Substituted, Finish;
      var withoutQuizzes, quizzes := Extract(setting, Quiz, body, 0);
      if quizzes.Err? {
        return Some(quizzes.error);
      }
      BuildCount(setting, Quiz, Quizzes(body));
      assert withoutQuizzes == WithoutQuizzes(body);
      var withoutBlocks, exercises := Extract(setting, Exercise, withoutQuizzes, |quizzes.value|);
      if exercises.Err? {
        return Some(exercises.error);
      }
      assert withoutBlocks == WithoutBlocks(body);
      var built := quizzes.value + exercises.value;
      challenges, exerciseHashes := Challenges(built), HashesOf(exercises.value);
      html := RenderMarkdown(withoutBlocks);
      html := SubstituteBlocks(html, Htmls(built));
      var routings;
      html, routings := PairDemoLinks(html, exerciseHashes);
      error := Check(routings);
    }

    /** The checks that may still refuse the page, and the verification targets. */
    method Check(routings: seq<Routing>) returns (error: Option<Error>)
      requires |routings| == |exerciseHashes|
      modifies this
      ensures match Finish(setting, old(Page(html, challenges)), old(exerciseHashes), routings)
              case Err(e) => error == Some(e)
              case Ok(page) => error == None && html == page.html && challenges == page.challenges
    {
      hide TermsKnown, ReplaceFirst, HashMark, Atoi;
      var known := CheckTermRefs(html, setting.terminals);
      if !known {
        return Some(UnknownTerminal);
      }
      if !setting.verified {
        return None;
      }
      ghost var first := Page(html, challenges);
      for i := 0 to |exerciseHashes|
        invariant exerciseHashes == old(exerciseHashes)
        invariant WithTargets(first, exerciseHashes, routings, 0)
                  == WithTargets(Page(html, challenges), exerciseHashes, routings, i)
      {
        var port := Atoi(routings[i].port);
        if port.None? {
          return Some(PortNotANumber(routings[i].port));
        }
        Record(exerciseHashes[i], Target(port.value, routings[i].path));
        html := ReplaceFirst(html, HashMark(exerciseHashes[i]), HashMark(exerciseHashes[i]) + " data-verify=\"1\"");
      }
      return None;
    }

    /** Records a target on every challenge with this hash. */
    method Record(hash: string, target: Target)
      modifies this`challenges
      ensures challenges == RetargetAll(old(challenges), hash, target)
    {
      for j := 0 to |challenges|
        invariant |challenges| == |old(challenges)|
        invariant forall k | 0 <= k < j :: challenges[k] == Retarget(old(challenges)[k], hash, target)
        invariant forall k | j <= k < |challenges| :: challenges[k] == old(challenges)[k]
      {
        if challenges[j].hash == hash {
          challenges := challenges[j := challenges[j].(verify := Some(target))];
        }
      }
    }
  }

  method SubstituteBlocks(page: string, htmls: seq<string>) returns (out: string)
    ensures out == Substituted(page, htmls, 0)
  {
    hide ReplaceFirst, Token;
    out := page;
    for i := 0 to |htmls|
      invariant Substituted(page, htmls, 0) == Substituted(out, htmls, i)
    {
      out := ReplaceFirst(out, Token(i), htmls[i]);
    }
  }

  lemma {:induction false} BuildCount(x: Setting, kind: Kind, blocks: seq<Block>)
    requires BuildAll(x, kind, blocks).Ok?
    ensures |BuildAll(x, kind, blocks).value| == |blocks|
    ensures forall i | 0 <= i < |blocks| :: Build(x, kind, blocks[i].inner) == Ok(BuildAll(x, kind, blocks).value[i])
  {
    hide Build;
    if blocks != [] {
      BuildCount(x, kind, blocks[1..]);
    }
  }
}

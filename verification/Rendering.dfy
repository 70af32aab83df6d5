/** Documents: as written, as shown. */
module Rendering {
  import opened Concatenation
  import opened Decimal
  import opened Options
  import opened Text
  import opened Html
  import opened Markdown
  import opened PageText
  import opened Trimming

  /** One line of a list. */
  datatype Item = Item(bullet: char, gap: string, text: string)

  /** A part of a document. A fence may lack its closing line. */
  datatype Part =
    | Terminal(before: string, number: char, after: string, code: seq<string>, closing: Option<string>)
    | Code(info: string, code: seq<string>, closing: Option<string>)
    | Heading(level: nat, gap: string, text: string)
    | Bullets(items: seq<Item>)
    | Empty(line: string)
    | Raw(space: string, text: string)
    | Paragraph(line: string)

  // ---------------------------------------------------------------------------- As written

  function TerminalInfo(before: string, number: char, after: string): string {
    before + ".term" + [number] + after
  }

  function Fenced(info: string, code: seq<string>, closing: Option<string>): seq<string> {
    ["```" + info] + code + (if closing.Some? then ["```" + closing.value] else [])
  }

  function HeadingLine(level: nat, gap: string, text: string): string
    requires level <= 4
  {
    "####"[..level] + gap + text
  }

  function ItemLine(i: Item): string {
    [i.bullet] + i.gap + i.text
  }

  function ItemLines(items: seq<Item>): (lines: seq<string>)
    ensures |lines| == |items|
  {
    seq(|items|, k requires 0 <= k < |items| => ItemLine(items[k]))
  }

  function Lines(p: Part): seq<string>
    requires p.Heading? ==> p.level <= 4
  {
    match p
    case Terminal(before, number, after, code, closing) => Fenced(TerminalInfo(before, number, after), code, closing)
    case Code(info, code, closing) => Fenced(info, code, closing)
    case Heading(level, gap, text) => [HeadingLine(level, gap, text)]
    case Bullets(items) => ItemLines(items)
    case Empty(line) => [line]
    case Raw(space, text) => [space + "<" + text]
    case Paragraph(line) => [line]
  }

  /** Text after a gap of at least one blank. */
  predicate After(gap: string, text: string) {
    gap != "" && Gap(gap) && (text != "" ==> !Gap([text[0]]))
  }

  predicate ProperHeading(level: nat, gap: string, text: string) {
    1 <= level <= 4 && After(gap, text)
  }

  predicate ProperItem(i: Item) {
    (i.bullet == '-' || i.bullet == '*') && After(i.gap, i.text)
  }

  predicate ProperTerminal(before: string, number: char, after: string) {
    Spaces(before) && '1' <= number <= '6' && Spaces(after)
  }

  predicate NoFences(lines: seq<string>) {
    forall k | 0 <= k < |lines| :: !("```" <= lines[k])
  }

  ghost predicate Proper(p: Part) {
    match p
    case Terminal(before, number, after, code, _) => ProperTerminal(before, number, after) && NoFences(code)
    case Code(info, code, _) =>
      && NoFences(code)
      && forall a, d, b | ProperTerminal(a, d, b) :: info != TerminalInfo(a, d, b)
    case Heading(level, gap, text) => ProperHeading(level, gap, text)
    case Bullets(items) => items != [] && forall k | 0 <= k < |items| :: ProperItem(items[k])
    case Empty(line) => Spaces(line)
    case Raw(space, _) => Spaces(space)
    case Paragraph(line) =>
      && !("```" <= line)
      && (forall n, gap, text | ProperHeading(n, gap, text) :: line != HeadingLine(n, gap, text))
      && (forall i: Item | ProperItem(i) :: line != ItemLine(i))
      && !Spaces(line)
      && (forall space, text | Spaces(space) :: line != space + "<" + text)
  }

  /** Lists are as long as they can be, and only the last fence may be left open. */
  predicate Apart(p: Part, rest: seq<Part>) {
    rest != [] ==> (p.Bullets? ==> !rest[0].Bullets?) && (p.Terminal? || p.Code? ==> p.closing.Some?)
  }

  ghost predicate Document(parts: seq<Part>) {
    parts != [] ==> Proper(parts[0]) && Apart(parts[0], parts[1..]) && Document(parts[1..])
  }

  ghost function Source(parts: seq<Part>): seq<string>
    requires Document(parts)
  {
    if parts == [] then [] else Lines(parts[0]) + Source(parts[1..])
  }

  // ---------------------------------------------------------------------------- As shown

  function Inlined(text: string): string {
    Links(Bolds(Codes(Escape(text, Entity))))
  }

  function ItemsHtml(items: seq<Item>): string {
    if items == [] then "" else "<li>" + Inlined(items[0].text) + "</li>" + ItemsHtml(items[1..])
  }

  function CodeHtml(code: seq<string>): string {
    "<code>" + Join(seq(|code|, k requires 0 <= k < |code| => Escape(code[k], Entity)), "\n") + "</code>"
  }

  function Shown(p: Part): Option<string> {
    match p
    case Terminal(_, d, _, code, _) =>
      Some("<pre class=\"term-code\" data-term=\"" + [d] + "\" title=\"click to run in terminal " + [d] + "\">"
           + CodeHtml(code) + "</pre>")
    case Code(_, code, _) => Some("<pre>" + CodeHtml(code) + "</pre>")
    case Heading(n, _, text) =>
      Some(if n == 1 then "<h1>" + Inlined(text) + "</h1>"
           else if n == 2 then "<h2>" + Inlined(text) + "</h2>"
           else if n == 3 then "<h3>" + Inlined(text) + "</h3>"
           else "<h4>" + Inlined(text) + "</h4>")
    case Bullets(items) => Some("<ul>" + ItemsHtml(items) + "</ul>")
    case Empty(_) => None
    case Raw(space, text) => Some(space + "<" + text)
    case Paragraph(line) => Some("<p>" + Inlined(line) + "</p>")
  }

  function Page(parts: seq<Part>): seq<string> {
    if parts == [] then []
    else (if Shown(parts[0]).Some? then [Shown(parts[0]).value] else []) + Page(parts[1..])
  }

  // ---------------------------------------------------------------------------- Kinds of lines

  lemma FenceIs(l: string)
    ensures IsFence(l) <==> "```" <= l
    ensures IsFence(l) ==> l == "```" + l[3..] && l[0] == '`'
    ensures forall info :: l == "```" + info ==> IsFence(l) && l[3..] == info
  {
  }

  lemma {:induction false} HashesAre(n: nat, rest: string)
    requires n <= 4 && (rest == "" || rest[0] != '#')
    ensures Hashes("####"[..n] + rest) == n && ("####"[..n] + rest)[n..] == rest
  {
    var s := "####"[..n] + rest;
    assert s[n..] == rest && forall k | 0 <= k < n :: s[k] == "####"[k] == '#';
    hide Hashes;
    assert rest != "" ==> s[n] == rest[0];
  }

  lemma NotAfter(c: char)
    ensures c in "`#-*<" ==> !Gap([c]) && !IsSpace(c)
  {
    GapOne(c);
  }

  lemma AfterIs(gap: string, text: string)
    requires After(gap, text)
    ensures Blanks(gap + text) == |gap| && (gap + text)[|gap|..] == text && IsBlank((gap + text)[0])
    ensures gap[0] !in "`#-*<"
  {
    GapIs(gap);
    NotBlank(gap[0]);
    GapOne(gap[0]);
    NotAfter(gap[0]);
    if text == "" {
      assert gap + text == gap;
    } else {
      BlanksBefore(gap, text);
    }
  }

  lemma HeadingRead(n: nat, gap: string, text: string)
    requires ProperHeading(n, gap, text)
    ensures var l := HeadingLine(n, gap, text);
            && IsHeading(l) && !IsFence(l) && !IsItem(l) && Some(HeadingHtml(l)) == Shown(Heading(n, gap, text))
  {
    var l := HeadingLine(n, gap, text);
    HeadingShape(n, gap, text);
    hide *;
    StartsHeading(l, n);
    Tail(l, n, gap, text);
    HeadingWords(n, Inlined(text));
    InlineIs(text);
    HeadingHtmlIs(l, n, gap, text);
    ShownHeading(n, gap, text);
  }

  lemma HeadingShape(n: nat, gap: string, text: string)
    requires ProperHeading(n, gap, text)
    ensures var l := HeadingLine(n, gap, text);
            && 1 <= n <= 4 && n < |l| && l[0] == '#' && Hashes(l) == n && l[n..] == gap + text && IsBlank(l[n])
            && Blanks(l[n..]) == |gap|
  {
    AfterIs(gap, text);
    hide Hashes, Blanks, IsBlank, Gap;
    HashesAre(n, gap + text);
    Two("####"[..n], gap, text);
  }

  lemma StartsHeading(l: string, n: nat)
    requires 1 <= n <= 4 && n < |l| && l[0] == '#' && Hashes(l) == n && IsBlank(l[n])
    ensures IsHeading(l) && !IsFence(l) && !IsItem(l)
  {
    FenceIs(l);
    hide Hashes, IsBlank, IsFence;
  }

  lemma HeadingHtmlIs(l: string, n: nat, gap: string, text: string)
    requires IsHeading(l) && Hashes(l) == n && Blanks(l[n..]) == |gap| && n + |gap| <= |l| && l[n + |gap|..] == text
    ensures 1 <= n <= 4 && HeadingHtml(l) == Element("h" + [Digit(n)], "", Inline(Escape(text, Entity)))
  {
    hide Hashes, Blanks, Element, Inline, Escape, IsBlank;
  }

  lemma ShownHeading(n: nat, gap: string, text: string)
    ensures var inner := Inlined(text);
            Shown(Heading(n, gap, text))
            == Some(if n == 1 then "<h1>" + inner + "</h1>" else if n == 2 then "<h2>" + inner + "</h2>"
                    else if n == 3 then "<h3>" + inner + "</h3>" else "<h4>" + inner + "</h4>")
  {
  }

  lemma Tail(l: string, n: nat, gap: string, text: string)
    requires n <= |l| && l[n..] == gap + text
    ensures l[n + |gap|..] == text
  {
    assert (gap + text)[|gap|..] == text;
  }

  lemma InlineIs(text: string)
    ensures Inline(Escape(text, Entity)) == Inlined(text)
  {
  }

  lemma HeadingWords(n: nat, inner: string)
    requires 1 <= n <= 4
    ensures Element("h" + [Digit(n)], "", inner)
            == if n == 1 then "<h1>" + inner + "</h1>" else if n == 2 then "<h2>" + inner + "</h2>"
               else if n == 3 then "<h3>" + inner + "</h3>" else "<h4>" + inner + "</h4>"
  {
    var h := "h" + [Digit(n)];
    DigitWords();
    var open, close := "<" + h + "" + ">", "</" + h + ">";
    ElementIs(h, "", open, close, inner);
    hide Element;
    if n == 1 {
      assert open == "<h1>" && close == "</h1>";
    } else if n == 2 {
      assert open == "<h2>" && close == "</h2>";
    } else if n == 3 {
      assert open == "<h3>" && close == "</h3>";
    } else {
      assert open == "<h4>" && close == "</h4>";
    }
  }

  lemma DigitWords()
    ensures Digit(1) == '1' && Digit(2) == '2' && Digit(3) == '3' && Digit(4) == '4'
  {
  }

  lemma HeadingFound(l: string) returns (n: nat, gap: string, text: string)
    requires IsHeading(l)
    ensures ProperHeading(n, gap, text) && l == HeadingLine(n, gap, text)
  {
    n := Hashes(l);
    var rest := l[n..];
    var m := Blanks(rest);
    HashesText(l);
    hide *;
    gap, text := rest[..m], rest[m..];
    AfterFound(rest, m);
    MadeHeading(l, n, m);
  }

  lemma HashesText(l: string)
    requires IsHeading(l)
    ensures var n := Hashes(l); 1 <= n <= 4 && n < |l| && IsBlank(l[n]) && l[..n] == "####"[..n]
  {
    hide Hashes;
  }

  lemma MadeHeading(l: string, n: nat, m: nat)
    requires 1 <= n <= 4 && n + m <= |l| && l[..n] == "####"[..n] && After(l[n..][..m], l[n..][m..])
    ensures ProperHeading(n, l[n..][..m], l[n..][m..]) && l == HeadingLine(n, l[n..][..m], l[n..][m..])
  {
    hide After;
    assert l == l[..n] + l[n..][..m] + l[n..][m..];
  }

  lemma AfterFound(rest: string, m: nat)
    requires m == Blanks(rest) && rest != "" && IsBlank(rest[0])
    ensures After(rest[..m], rest[m..])
  {
    GapIs(rest);
    if m < |rest| {
      GapOne(rest[m]);
    }
    hide Gap, IsBlank;
  }

  lemma ItemRead(i: Item)
    requires ProperItem(i)
    ensures var l := ItemLine(i);
            IsItem(l) && !IsFence(l) && !IsHeading(l) && ItemHtml(l) == "<li>" + Inlined(i.text) + "</li>"
  {
    var l := ItemLine(i);
    ItemShape(i);
    hide *;
    StartsItem(l);
    Tail(l, 1, i.gap, i.text);
    InlineIs(i.text);
    ItemHtmlIs(l, i.gap, i.text);
    LiIs(Inlined(i.text));
  }

  lemma ItemShape(i: Item)
    requires ProperItem(i)
    ensures var l := ItemLine(i);
            && |l| > 1 && (l[0] == '-' || l[0] == '*') && l[1..] == i.gap + i.text && IsBlank(l[1])
            && Blanks(l[1..]) == |i.gap|
  {
    AfterIs(i.gap, i.text);
    hide Blanks, IsBlank, Gap;
    Two([i.bullet], i.gap, i.text);
    assert ItemLine(i)[1] == (i.gap + i.text)[0];
  }

  lemma StartsItem(l: string)
    requires |l| > 1 && (l[0] == '-' || l[0] == '*') && IsBlank(l[1])
    ensures IsItem(l) && !IsFence(l) && !IsHeading(l)
  {
    FenceIs(l);
    hide IsBlank, IsFence;
  }

  lemma ItemHtmlIs(l: string, gap: string, text: string)
    requires IsItem(l) && Blanks(l[1..]) == |gap| && 1 + |gap| <= |l| && l[1 + |gap|..] == text
    ensures ItemHtml(l) == Element("li", "", Inline(Escape(text, Entity)))
  {
    hide Blanks, Element, Inline, Escape, IsBlank;
  }

  lemma LiIs(inner: string)
    ensures Element("li", "", inner) == "<li>" + inner + "</li>"
  {
    assert "<" + "li" + "" + ">" == "<li>" && "</" + "li" + ">" == "</li>";
    ElementIs("li", "", "<li>", "</li>", inner);
  }

  lemma ItemFound(l: string) returns (i: Item)
    requires IsItem(l)
    ensures ProperItem(i) && l == ItemLine(i)
  {
    var rest := l[1..];
    var m := Blanks(rest);
    i := Item(l[0], rest[..m], rest[m..]);
    AfterFound(rest, m);
    hide After, IsBlank, Blanks;
    assert l == [l[0]] + rest[..m] + rest[m..];
  }

  lemma RawRead(space: string, text: string)
    requires Spaces(space)
    ensures var l := space + "<" + text;
            IsRaw(l) && !IsFence(l) && !IsHeading(l) && !IsItem(l) && TrimSpace(l) != ""
  {
    var l := space + "<" + text;
    Two(space, "<", text);
    TrimLeftDrops(space, "<" + text);
    TrimRightKeeps("<" + text);
    FenceIs(l);
    SpaceStart(l);
    assert l[0] == '<' || IsSpace(l[0]);
    hide TrimLeft, TrimRight, IsSpace, Spaces;
  }

  lemma SpaceStart(l: string)
    ensures l != "" && (l[0] == '<' || IsSpace(l[0])) ==> l[0] != '`' && !IsHeading(l) && !IsItem(l)
  {
  }

  lemma EmptyRead(l: string)
    requires Spaces(l)
    ensures TrimSpace(l) == "" && !IsFence(l) && !IsHeading(l) && !IsItem(l) && !IsRaw(l)
  {
    SpaceTrims(l);
    FenceIs(l);
    SpaceStart(l);
    assert l != "" ==> IsSpace(l[0]);
    hide IsSpace, TrimSpace, Spaces;
  }

  lemma RawFound(l: string) returns (space: string, text: string)
    requires IsRaw(l)
    ensures Spaces(space) && l == space + "<" + text
  {
    space := TrimLeftSplits(l);
    var t := TrimLeft(l);
    TrimRightStarts(t);
    text := t[1..];
    hide TrimLeft, TrimRight, Spaces;
    assert t == "<" + text;
  }

  lemma {:induction false} TrimLeftSplits(s: string) returns (space: string)
    ensures Spaces(space) && s == space + TrimLeft(s)
  {
    space := "";
    if s != "" && IsSpace(s[0]) {
      var more := TrimLeftSplits(s[1..]);
      space := [s[0]] + more;
      assert s == [s[0]] + s[1..];
    }
  }

  lemma {:induction false} TrimRightStarts(s: string)
    ensures TrimRight(s) != "" ==> s != "" && s[0] == TrimRight(s)[0]
  {
    if s != "" && IsSpace(s[|s| - 1]) {
      TrimRightStarts(s[..|s| - 1]);
    }
  }

  /** A paragraph is a line of no other kind. */
  lemma ParagraphIs(l: string)
    ensures Proper(Paragraph(l)) <==>
            !IsFence(l) && !IsHeading(l) && !IsItem(l) && TrimSpace(l) != "" && !IsRaw(l)
  {
    FenceIs(l);
    SpaceTrims(l);
    hide IsFence, IsHeading, IsItem, IsRaw, TrimSpace, ProperHeading, ProperItem, Spaces, HeadingLine, ItemLine;
    if Proper(Paragraph(l)) {
      if IsHeading(l) {
        var n, gap, text := HeadingFound(l);
      }
      if IsItem(l) {
        var i := ItemFound(l);
      }
      if IsRaw(l) {
        var space, text := RawFound(l);
      }
    } else {
      ParagraphNot(l);
    }
  }

  lemma ParagraphNot(l: string)
    requires !Proper(Paragraph(l))
    ensures IsFence(l) || IsHeading(l) || IsItem(l) || TrimSpace(l) == "" || IsRaw(l)
  {
    FenceIs(l);
    SpaceTrims(l);
    hide IsFence, IsHeading, IsItem, IsRaw, TrimSpace, ProperItem, Spaces, ItemLine, After;
    if n, gap, text :| ProperHeading(n, gap, text) && l == HeadingLine(n, gap, text) {
      HeadingRead(n, gap, text);
    } else if i: Item :| ProperItem(i) && l == ItemLine(i) {
      ItemRead(i);
    } else if space, text :| Spaces(space) && l == space + "<" + text {
      RawRead(space, text);
    }
  }

  // ---------------------------------------------------------------------------- Fences

  lemma {:induction false} TrimRightSplits(s: string) returns (space: string)
    ensures Spaces(space) && s == TrimRight(s) + space
  {
    space := "";
    if s != "" && IsSpace(s[|s| - 1]) {
      var more := TrimRightSplits(s[..|s| - 1]);
      space := more + [s[|s| - 1]];
      assert s == s[..|s| - 1] + [s[|s| - 1]];
    }
  }

  lemma TermRead(before: string, d: char, after: string)
    requires ProperTerminal(before, d, after)
    ensures IsFence("```" + TerminalInfo(before, d, after))
    ensures TermOf("```" + TerminalInfo(before, d, after)) == Some([d])
  {
    var t := ".term" + [d];
    SpacesAre(d);
    SpacesAre('.');
    assert Trim(t) by {
      assert t[0] == '.' && t[|t| - 1] == d;
    }
    TrimDrops(before, t, after);
    Two(before, ".term", [d]);
    FenceIs("```" + TerminalInfo(before, d, after));
    hide TrimSpace, IsSpace;
    assert |t| == 6 && t[..5] == ".term" && t[5] == d && t[5..] == [d];
  }

  lemma TermFound(info: string) returns (before: string, d: char, after: string)
    requires IsFence("```" + info) && TermOf("```" + info).Some?
    ensures ProperTerminal(before, d, after) && info == TerminalInfo(before, d, after)
  {
    assert ("```" + info)[3..] == info;
    before := TrimLeftSplits(info);
    after := TrimRightSplits(TrimLeft(info));
    var t := TrimSpace(info);
    hide TrimLeft, TrimRight, Spaces;
    d := t[5];
    assert t == ".term" + [d];
    Two(before, ".term", [d]);
    Two(before, t, after);
  }

  lemma EscapesAre(code: seq<string>)
    ensures Escapes(code) == seq(|code|, k requires 0 <= k < |code| => Escape(code[k], Entity))
    ensures Element("code", "", Join(Escapes(code), "\n")) == CodeHtml(code)
  {
    assert "<" + "code" + "" + ">" == "<code>" && "</" + "code" + ">" == "</code>";
    ElementIs("code", "", "<code>", "</code>", Join(Escapes(code), "\n"));
  }

  lemma TerminalHtml(l: string, d: char, code: seq<string>)
    requires IsFence(l) && TermOf(l) == Some([d])
    ensures FenceHtml(l, Escapes(code))
            == "<pre class=\"term-code\" data-term=\"" + [d] + "\" title=\"click to run in terminal " + [d] + "\">"
               + CodeHtml(code) + "</pre>"
  {
    EscapesAre(code);
    TerminalWords();
    TitleWords();
    TerminalClass();
    ClassWords();
    SpelledIs("data-term", " data-term=\"", [d]);
    SpelledIs("title", " title=\"", "click to run in terminal " + [d]);
    hide Element, Spelled, TermOf, Escapes, CodeHtml;
    var attributes := " class=\"term-code\"" + (" data-term=\"" + [d] + "\"")
                      + (" title=\"" + ("click to run in terminal " + [d]) + "\"");
    var open := "<" + "pre" + attributes + ">";
    ElementIs("pre", attributes, open, "</pre>", CodeHtml(code));
    Attributes("<pre", " class=\"term-code\"", " data-term=\"", [d], "\"", " title=\"", "click to run in terminal ",
               ">");
  }

  lemma TerminalClass()
    ensures Spelled(Attribute("class", "term-code")) == " class=\"term-code\""
  {
  }

  lemma ClassWords()
    ensures "<pre" + " class=\"term-code\"" + " data-term=\"" == "<pre class=\"term-code\" data-term=\""
  {
  }

  lemma TerminalWords()
    ensures " " + "data-term" + "=\"" == " data-term=\"" && " " + "title" + "=\"" == " title=\""
    ensures "<" + "pre" == "<pre" && "</" + "pre" + ">" == "</pre>" && "\"" + ">" == "\">"
  {
  }

  lemma TitleWords()
    ensures "\"" + " title=\"" + "click to run in terminal " == "\" title=\"click to run in terminal "
  {
  }

  lemma Attributes(a: string, b: string, c: string, d: string, q: string, t: string, w: string, e: string)
    ensures a + (b + (c + d + q) + (t + (w + d) + q)) + e == a + b + c + d + (q + t + w) + d + (q + e)
  {
    var one := b + (c + d + q);
    Two(a, one, t + (w + d) + q);
    Two(a, b, c + d + q);
    AssociateThree(a + b, c, d, q);
    var done := a + b + c + d;
    AssociateThree(done + q, t, w + d, q);
    Two(done + q + t, w, d);
    Two(done, q + t, w);
    Two(done, q, t);
    Two(done + (q + t + w) + d, q, e);
  }

  lemma PlainHtml(l: string, code: seq<string>)
    requires IsFence(l) && TermOf(l).None?
    ensures FenceHtml(l, Escapes(code)) == "<pre>" + CodeHtml(code) + "</pre>"
  {
    EscapesAre(code);
    assert "<" + "pre" + "" + ">" == "<pre>" && "</" + "pre" + ">" == "</pre>";
    hide Element, TermOf, Escapes, CodeHtml;
    ElementIs("pre", "", "<pre>", "</pre>", CodeHtml(code));
  }

  lemma {:induction false} FenceEndIs(lines: seq<string>, i: nat, e: nat)
    requires i <= e <= |lines| && forall k | i <= k < e :: !IsFence(lines[k])
    requires e < |lines| ==> IsFence(lines[e])
    ensures FenceEnd(lines, i) == e
    decreases e - i
  {
    hide IsFence;
    if i < e {
      FenceEndIs(lines, i + 1, e);
    }
  }

  lemma {:induction false} ItemsEndIs(lines: seq<string>, i: nat, e: nat)
    requires i <= e <= |lines| && forall k | i <= k < e :: IsItem(lines[k])
    requires e < |lines| ==> !IsItem(lines[e])
    ensures ItemsEnd(lines, i) == e
    decreases e - i
  {
    hide IsItem;
    if i < e {
      ItemsEndIs(lines, i + 1, e);
    }
  }

  // ---------------------------------------------------------------------------- Steps

  /** The loop takes in the part and emits what it shows. */
  ghost predicate Takes(lines: seq<string>, i: nat, p: Part, n: nat) {
    && i < n <= |lines| && StepAt(lines, i).chunk == Shown(p)
    && (StepAt(lines, i).next == n || (n == |lines| && StepAt(lines, i).next > n))
  }

  lemma FenceTaken(lines: seq<string>, i: nat, p: Part, info: string, code: seq<string>, closing: Option<string>)
    requires i < |lines| && Fenced(info, code, closing) <= lines[i..] && NoFences(code)
    requires closing.None? ==> |lines| == i + 1 + |code|
    requires IsFence("```" + info) ==> Some(FenceHtml("```" + info, Escapes(code))) == Shown(p)
    ensures Takes(lines, i, p, i + |Fenced(info, code, closing)|)
  {
    var e := i + 1 + |code|;
    FencedLines(lines, i, info, code, closing);
    forall k | i < k < e ensures !IsFence(lines[k]) {
      FenceIs(lines[k]);
      assert lines[k] == code[k - i - 1];
    }
    FenceIs(lines[i]);
    if closing.Some? {
      FenceIs(lines[e]);
    }
    FenceEndIs(lines, i + 1, e);
    hide IsFence, FenceHtml, Escapes, Shown, NoFences, Fenced;
  }

  lemma FencedLines(lines: seq<string>, i: nat, info: string, code: seq<string>, closing: Option<string>)
    requires i < |lines| && Fenced(info, code, closing) <= lines[i..]
    ensures |Fenced(info, code, closing)| == |code| + (if closing.Some? then 2 else 1)
    ensures i + |Fenced(info, code, closing)| <= |lines|
    ensures lines[i] == "```" + info && lines[i + 1..i + 1 + |code|] == code
    ensures closing.Some? ==> lines[i + 1 + |code|] == "```" + closing.value
  {
    var f := Fenced(info, code, closing);
    assert forall k | 0 <= k < |f| :: lines[i + k] == f[k];
    assert f[1..1 + |code|] == code;
  }

  lemma OneTaken(lines: seq<string>, i: nat, p: Part)
    requires i < |lines| && Proper(p) && (p.Heading? || p.Empty? || p.Raw? || p.Paragraph?) && Lines(p) <= lines[i..]
    ensures |Lines(p)| == 1 && Takes(lines, i, p, i + 1)
  {
    assert Lines(p)[0] == lines[i..][0] == lines[i];
    var l := lines[i];
    hide Takes;
    match p
    case Heading(n, gap, text) =>
      hide *;
      ProperHeadingIs(p);
      HeadingRead(n, gap, text);
      HeadingStep(lines, i);
      TakesIs(lines, i, p, i + 1);
    case Empty(line) =>
      EmptyRead(line);
      hide *;
      EmptyStep(lines, i);
      ShownEmpty(line);
      TakesIs(lines, i, p, i + 1);
    case Raw(space, text) =>
      RawRead(space, text);
      hide *;
      RawStep(lines, i);
      ShownRaw(space, text);
      TakesIs(lines, i, p, i + 1);
    case Paragraph(line) =>
      hide *;
      ParagraphIs(line);
      ParagraphStep(lines, i);
      TakesIs(lines, i, p, i + 1);
  }

  lemma ProperHeadingIs(p: Part)
    requires p.Heading?
    ensures Proper(p) <==> ProperHeading(p.level, p.gap, p.text)
  {
  }

  lemma ShownEmpty(line: string)
    ensures Shown(Empty(line)) == None
  {
  }

  lemma ShownRaw(space: string, text: string)
    ensures Shown(Raw(space, text)) == Some(space + "<" + text)
  {
  }

  lemma HeadingStep(lines: seq<string>, i: nat)
    requires i < |lines| && !IsFence(lines[i]) && IsHeading(lines[i])
    ensures StepAt(lines, i) == Step(Some(HeadingHtml(lines[i])), i + 1)
  {
    hide IsFence, IsHeading, HeadingHtml;
  }

  lemma EmptyStep(lines: seq<string>, i: nat)
    requires i < |lines| && !IsFence(lines[i]) && !IsHeading(lines[i]) && !IsItem(lines[i]) && TrimSpace(lines[i]) == ""
    ensures StepAt(lines, i) == Step(None, i + 1)
  {
    hide IsFence, IsHeading, IsItem, TrimSpace;
  }

  lemma RawStep(lines: seq<string>, i: nat)
    requires i < |lines| && !IsFence(lines[i]) && !IsHeading(lines[i]) && !IsItem(lines[i]) && TrimSpace(lines[i]) != ""
    requires IsRaw(lines[i])
    ensures StepAt(lines, i) == Step(Some(lines[i]), i + 1)
  {
    hide IsFence, IsHeading, IsItem, TrimSpace, IsRaw;
  }

  lemma ParagraphStep(lines: seq<string>, i: nat)
    requires i < |lines| && !IsFence(lines[i]) && !IsHeading(lines[i]) && !IsItem(lines[i]) && TrimSpace(lines[i]) != ""
    requires !IsRaw(lines[i])
    ensures StepAt(lines, i) == Step(Shown(Paragraph(lines[i])), i + 1)
  {
    var l := lines[i];
    InlineIs(l);
    assert "<" + "p" + "" + ">" == "<p>" && "</" + "p" + ">" == "</p>";
    ElementIs("p", "", "<p>", "</p>", Inlined(l));
    hide IsFence, IsHeading, IsItem, TrimSpace, IsRaw, Element, Inline, Inlined, Escape;
  }

  lemma {:induction false} ItemsAre(items: seq<Item>)
    requires forall k | 0 <= k < |items| :: ProperItem(items[k])
    ensures forall k | 0 <= k < |items| :: IsItem(ItemLines(items)[k])
    ensures Items(ItemLines(items)) == ItemsHtml(items)
  {
    hide IsItem, ItemHtml, ItemLine, ProperItem, IsFence, IsHeading, Inlined;
    if items != [] {
      ItemRead(items[0]);
      ItemsAre(items[1..]);
      assert ItemLines(items)[1..] == ItemLines(items[1..]);
      assert forall k | 1 <= k < |items| :: ItemLines(items)[k] == ItemLines(items[1..])[k - 1];
    }
  }

  lemma BulletsTaken(lines: seq<string>, i: nat, items: seq<Item>)
    requires i < |lines| && Proper(Bullets(items)) && ItemLines(items) <= lines[i..]
    requires i + |items| < |lines| ==> !IsItem(lines[i + |items|])
    ensures Takes(lines, i, Bullets(items), i + |items|)
  {
    var e := i + |items|;
    hide *;
    BulletLines(lines, i, items);
    SomeBullets(items);
    ItemsAre(items);
    UlIs(ItemsHtml(items));
    ItemsEndIs(lines, i, e);
    ShownBullets(items);
    BulletStep(lines, i, e);
    TakesIs(lines, i, Bullets(items), e);
  }

  lemma ShownBullets(items: seq<Item>)
    ensures Shown(Bullets(items)) == Some("<ul>" + ItemsHtml(items) + "</ul>")
  {
  }

  lemma TakesIs(lines: seq<string>, i: nat, p: Part, n: nat)
    requires i < n <= |lines| && StepAt(lines, i) == Step(Shown(p), n)
    ensures Takes(lines, i, p, n)
  {
  }

  lemma BulletStep(lines: seq<string>, i: nat, e: nat)
    requires i < |lines| && !IsFence(lines[i]) && !IsHeading(lines[i]) && IsItem(lines[i]) && e == ItemsEnd(lines, i)
    ensures StepAt(lines, i) == Step(Some(Element("ul", "", Items(lines[i..e]))), e)
  {
    hide IsFence, IsHeading, IsItem, Element, Items;
  }

  lemma UlIs(inner: string)
    ensures Element("ul", "", inner) == "<ul>" + inner + "</ul>"
  {
    assert "<" + "ul" + "" + ">" == "<ul>" && "</" + "ul" + ">" == "</ul>";
    ElementIs("ul", "", "<ul>", "</ul>", inner);
  }

  lemma BulletLines(lines: seq<string>, i: nat, items: seq<Item>)
    requires i < |lines| && Proper(Bullets(items)) && ItemLines(items) <= lines[i..]
    ensures var e := i + |items|;
            && i < e <= |lines| && lines[i..e] == ItemLines(items) && (forall k | i <= k < e :: IsItem(lines[k]))
            && !IsFence(lines[i]) && !IsHeading(lines[i])
  {
    SomeBullets(items);
    hide *;
    ItemsAre(items);
    ItemRead(items[0]);
    FirstItem(items);
    BulletSlice(lines, i, ItemLines(items));
  }

  lemma SomeBullets(items: seq<Item>)
    requires Proper(Bullets(items))
    ensures items != [] && forall k | 0 <= k < |items| :: ProperItem(items[k])
  {
  }

  lemma BulletSlice(lines: seq<string>, i: nat, part: seq<string>)
    requires i < |lines| && part <= lines[i..] && forall k | 0 <= k < |part| :: IsItem(part[k])
    ensures i + |part| <= |lines| && lines[i..i + |part|] == part && (part != [] ==> lines[i] == part[0])
    ensures forall k | i <= k < i + |part| :: IsItem(lines[k])
  {
    hide IsItem;
    assert forall k | 0 <= k < |part| :: lines[i + k] == part[k];
    forall k | i <= k < i + |part| ensures IsItem(lines[k]) {
      assert lines[k] == part[k - i];
    }
  }

  lemma FirstItem(items: seq<Item>)
    requires items != []
    ensures ItemLines(items)[0] == ItemLine(items[0])
  {
  }

  lemma PartTaken(lines: seq<string>, i: nat, p: Part)
    requires i < |lines| && Proper(p) && Lines(p) <= lines[i..]
    requires p.Bullets? && i + |Lines(p)| < |lines| ==> !IsItem(lines[i + |Lines(p)|])
    requires (p.Terminal? || p.Code?) && p.closing.None? ==> i + |Lines(p)| == |lines|
    ensures Takes(lines, i, p, i + |Lines(p)|)
  {
    if p.Terminal? {
      TerminalTaken(lines, i, p);
    } else if p.Code? {
      CodeTaken(lines, i, p);
    } else if p.Bullets? {
      LinesOf(p);
      hide *;
      BulletsTaken(lines, i, p.items);
    } else {
      hide *;
      OneTaken(lines, i, p);
    }
  }

  lemma LinesOf(p: Part)
    ensures p.Bullets? ==> Lines(p) == ItemLines(p.items) && p == Bullets(p.items)
    ensures p.Code? ==> Lines(p) == Fenced(p.info, p.code, p.closing)
    ensures p.Terminal? ==> Lines(p) == Fenced(TerminalInfo(p.before, p.number, p.after), p.code, p.closing)
  {
    hide ItemLines, Fenced, TerminalInfo;
  }

  lemma CodeOf(p: Part)
    ensures p.Code? && Proper(p) ==> NoFences(p.code) && Proper(Code(p.info, p.code, p.closing))
    ensures p.Terminal? && Proper(p) ==> NoFences(p.code) && ProperTerminal(p.before, p.number, p.after)
  {
    hide NoFences, ProperTerminal, TerminalInfo;
  }

  lemma TerminalTaken(lines: seq<string>, i: nat, p: Part)
    requires i < |lines| && p.Terminal? && Proper(p) && Lines(p) <= lines[i..]
    requires p.closing.None? ==> i + |Lines(p)| == |lines|
    ensures Takes(lines, i, p, i + |Lines(p)|)
  {
    hide *;
    var info := TerminalInfo(p.before, p.number, p.after);
    LinesOf(p);
    CodeOf(p);
    TermRead(p.before, p.number, p.after);
    TerminalHtml("```" + info, p.number, p.code);
    ShownTerminal(p);
    FencedCount(info, p.code, p.closing);
    FenceTaken(lines, i, p, info, p.code, p.closing);
  }

  lemma FencedCount(info: string, code: seq<string>, closing: Option<string>)
    ensures |Fenced(info, code, closing)| == |code| + (if closing.Some? then 2 else 1)
  {
  }

  lemma CodeTaken(lines: seq<string>, i: nat, p: Part)
    requires i < |lines| && p.Code? && Proper(p) && Lines(p) <= lines[i..]
    requires p.closing.None? ==> i + |Lines(p)| == |lines|
    ensures Takes(lines, i, p, i + |Lines(p)|)
  {
    hide *;
    LinesOf(p);
    CodeOf(p);
    CodeRead(p.info, p.code, p.closing);
    PlainHtml("```" + p.info, p.code);
    ShownCode(p.info, p.code, p.closing);
    FencedCount(p.info, p.code, p.closing);
    FenceTaken(lines, i, p, p.info, p.code, p.closing);
  }

  lemma CodeRead(info: string, code: seq<string>, closing: Option<string>)
    requires Proper(Code(info, code, closing))
    ensures IsFence("```" + info) && TermOf("```" + info).None?
  {
    FenceIs("```" + info);
    hide IsFence, TermOf, NoFences, ProperTerminal, TerminalInfo;
    if TermOf("```" + info).Some? {
      var before, d, after := TermFound(info);
    }
  }

  lemma ShownTerminal(p: Part)
    requires p.Terminal?
    ensures var d := p.number;
            Shown(p) == Some("<pre class=\"term-code\" data-term=\"" + [d]
                             + "\" title=\"click to run in terminal " + [d] + "\">" + CodeHtml(p.code) + "</pre>")
  {
    hide CodeHtml;
  }

  lemma ShownCode(info: string, code: seq<string>, closing: Option<string>)
    ensures Shown(Code(info, code, closing)) == Some("<pre>" + CodeHtml(code) + "</pre>")
  {
    hide CodeHtml;
  }

  // ---------------------------------------------------------------------------- Documents

  lemma FirstIs(parts: seq<Part>)
    requires Document(parts) && parts != []
    ensures Lines(parts[0]) != [] && Source(parts) == Lines(parts[0]) + Source(parts[1..])
    ensures Source(parts)[0] == Lines(parts[0])[0] && (IsItem(Source(parts)[0]) ==> parts[0].Bullets?)
  {
    var p := parts[0];
    FirstLine(p);
    hide IsItem, Proper;
  }

  lemma FirstLine(p: Part)
    requires Proper(p)
    ensures Lines(p) != [] && (IsItem(Lines(p)[0]) ==> p.Bullets?)
  {
    match p
    case Heading(n, gap, text) =>
      HeadingRead(n, gap, text);
    case Empty(line) =>
      EmptyRead(line);
    case Raw(space, text) =>
      RawRead(space, text);
    case Paragraph(line) =>
      ParagraphIs(line);
    case _ =>
  }

  /** From the line where a document starts on, the loop emits the page of the document. */
  lemma {:induction false} Emits(before: seq<string>, parts: seq<Part>)
    requires Document(parts)
    ensures Chunks(before + Source(parts), |before|) == Page(parts)
    decreases |parts|
  {
    var lines, i := before + Source(parts), |before|;
    if parts != [] {
      var p, rest := parts[0], Source(parts[1..]);
      FirstIs(parts);
      if parts[1..] != [] {
        FirstIs(parts[1..]);
      }
      hide Proper, Lines, Shown, StepAt, IsItem;
      var n := i + |Lines(p)|;
      assert lines == before + Lines(p) + rest;
      assert lines[i..] == Lines(p) + rest && lines[n..] == rest;
      PartTaken(lines, i, p);
      Emits(before + Lines(p), parts[1..]);
      ChunksFrom(lines, i, p, n);
    }
  }

  lemma ChunksFrom(lines: seq<string>, i: nat, p: Part, n: nat)
    requires Takes(lines, i, p, n)
    ensures Chunks(lines, i) == (if Shown(p).Some? then [Shown(p).value] else []) + Chunks(lines, n)
  {
    hide StepAt, Shown;
  }

  /** Every run of lines is a document. */
  lemma {:induction false} Parse(lines: seq<string>) returns (parts: seq<Part>)
    ensures Document(parts) && Source(parts) == lines
    decreases |lines|
  {
    parts := [];
    if lines != [] {
      var p, n := ParsePart(lines);
      var rest := Parse(lines[n..]);
      parts := [p] + rest;
      assert parts[1..] == rest;
      hide Proper, Lines, IsItem;
      if rest != [] {
        FirstIs(rest);
        assert Source(rest)[0] == lines[n];
      }
      assert lines == lines[..n] + lines[n..];
    }
  }

  lemma ParsePart(lines: seq<string>) returns (p: Part, n: nat)
    requires lines != []
    ensures 0 < n <= |lines| && Proper(p) && Lines(p) == lines[..n]
    ensures n < |lines| ==> (p.Bullets? ==> !IsItem(lines[n])) && (p.Terminal? || p.Code? ==> p.closing.Some?)
  {
    var l := lines[0];
    hide Proper, Lines;
    n := 1;
    if IsFence(l) {
      p, n := ParseFence(lines);
    } else if IsHeading(l) {
      var level, gap, text := HeadingFound(l);
      p := Heading(level, gap, text);
    } else if IsItem(l) {
      p, n := ParseItems(lines);
    } else if TrimSpace(l) == "" {
      SpaceTrims(l);
      p := Empty(l);
    } else if IsRaw(l) {
      var space, text := RawFound(l);
      p := Raw(space, text);
    } else {
      ParagraphIs(l);
      p := Paragraph(l);
    }
    if !IsFence(l) && (IsHeading(l) || !IsItem(l)) {
      ParsedOne(p, l);
    }
  }

  lemma ParsedOne(p: Part, l: string)
    requires
      || (p.Heading? && ProperHeading(p.level, p.gap, p.text) && l == HeadingLine(p.level, p.gap, p.text))
      || (p.Empty? && Spaces(p.line) && l == p.line)
      || (p.Raw? && Spaces(p.space) && l == p.space + "<" + p.text)
      || (p.Paragraph? && Proper(p) && l == p.line)
    ensures Proper(p) && Lines(p) == [l]
  {
  }

  lemma ParseFence(lines: seq<string>) returns (p: Part, n: nat)
    requires lines != [] && IsFence(lines[0])
    ensures 0 < n <= |lines| && Proper(p) && Lines(p) == lines[..n]
    ensures (p.Terminal? || p.Code?) && (n < |lines| ==> p.closing.Some?)
  {
    var e := FenceEnd(lines, 1);
    var info, code := lines[0][3..], lines[1..e];
    FenceIs(lines[0]);
    FenceClears(lines, 1);
    var closing := if e < |lines| then Some(lines[e][3..]) else None;
    n := if e < |lines| then e + 1 else e;
    if e < |lines| {
      FenceIs(lines[e]);
    }
    assert Fenced(info, code, closing) == lines[..n];
    hide IsFence, FenceEnd;
    if before, d, after :| ProperTerminal(before, d, after) && info == TerminalInfo(before, d, after) {
      p := Terminal(before, d, after, code, closing);
    } else {
      p := Code(info, code, closing);
    }
  }

  lemma {:induction false} FenceClears(lines: seq<string>, i: nat)
    requires i <= |lines|
    ensures NoFences(lines[i..FenceEnd(lines, i)])
    decreases |lines| - i
  {
    hide IsFence;
    if i < |lines| && !IsFence(lines[i]) {
      FenceClears(lines, i + 1);
      FenceIs(lines[i]);
      var e := FenceEnd(lines, i + 1);
      assert lines[i..e] == [lines[i]] + lines[i + 1..e];
    }
  }

  lemma ParseItems(lines: seq<string>) returns (p: Part, n: nat)
    requires lines != [] && IsItem(lines[0])
    ensures 0 < n <= |lines| && Proper(p) && Lines(p) == lines[..n]
    ensures p.Bullets? && (n < |lines| ==> !IsItem(lines[n]))
  {
    n := ItemsEnd(lines, 0);
    ItemsStop(lines, 0);
    var items := ItemsFound(lines[..n]);
    p := Bullets(items);
  }

  lemma {:induction false} ItemsStop(lines: seq<string>, i: nat)
    requires i <= |lines|
    ensures ItemsEnd(lines, i) < |lines| ==> !IsItem(lines[ItemsEnd(lines, i)])
    decreases |lines| - i
  {
    hide IsItem;
    if i < |lines| && IsItem(lines[i]) {
      ItemsStop(lines, i + 1);
    }
  }

  lemma {:induction false} ItemsFound(lines: seq<string>) returns (items: seq<Item>)
    requires forall k | 0 <= k < |lines| :: IsItem(lines[k])
    ensures |items| == |lines| && ItemLines(items) == lines
    ensures forall k | 0 <= k < |items| :: ProperItem(items[k])
  {
    hide IsItem, ProperItem, ItemLine;
    items := [];
    if lines != [] {
      var i := ItemFound(lines[0]);
      var rest := ItemsFound(lines[1..]);
      items := [i] + rest;
      assert forall k | 1 <= k < |items| :: items[k] == rest[k - 1] && ItemLine(items[k]) == ItemLines(rest)[k - 1];
    }
  }

  lemma {:induction false} JoinOfSplit(s: string)
    ensures Join(Split(s), "\n") == s && forall k | 0 <= k < |Split(s)| :: OneLine(Split(s)[k])
  {
    var n := NewlineIndex(s);
    SplitOneLine(s[..n]);
    if n < |s| {
      var a, b := s[..n], s[n + 1..];
      assert s == a + "\n" + b;
      SplitAt(a, b);
      JoinOfSplit(b);
      hide Split, OneLine;
      assert ([a] + Split(b))[1..] == Split(b);
      assert forall k | 1 <= k < |Split(s)| :: Split(s)[k] == Split(b)[k - 1];
    } else {
      assert s[..n] == s;
    }
  }

  /** The text is this document: its lines, each without a newline. */
  ghost predicate Writes(parts: seq<Part>, src: string) {
    && Document(parts) && parts != []
    && (forall k | 0 <= k < |Source(parts)| :: OneLine(Source(parts)[k]))
    && Join(Source(parts), "\n") == src
  }

  lemma WrittenRenders(parts: seq<Part>, src: string)
    requires Writes(parts, src)
    ensures Rendered(src) == Join(Page(parts), "\n")
  {
    hide OneLine, Proper, Lines, Chunks, Page;
    FirstIs(parts);
    SplitOfJoin(Source(parts));
    Emits([], parts);
    assert [] + Source(parts) == Source(parts);
  }

  /** Rendering turns the parts of a document into their HTML: every text is some document, and whichever way it
      is taken apart, the page is that of its parts. */
  lemma DocumentsRender(src: string)
    ensures exists parts :: Writes(parts, src)
    ensures forall parts | Writes(parts, src) :: Rendered(src) == Join(Page(parts), "\n")
  {
    JoinOfSplit(src);
    var parts := Parse(Split(src));
    assert Writes(parts, src);
    hide *;
    forall parts | Writes(parts, src) ensures Rendered(src) == Join(Page(parts), "\n") {
      WrittenRenders(parts, src);
    }
  }
}


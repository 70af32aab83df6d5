/** The Markdown subset, line by line. */
module Markdown {
  import opened Decimal
  import opened Html
  import opened Options
  import opened Search
  import opened Text

  // ---------------------------------------------------------------------------- Escaping

  /** `html.EscapeString`, one character at a time. */
  function Entity(c: char): string {
    match c
    case '&' => "&amp;"
    case '\'' => "&#39;"
    case '<' => "&lt;"
    case '>' => "&gt;"
    case '"' => "&#34;"
    case _ => [c]
  }

  lemma EntitiesFree()
    ensures forall x :: Free(Entity(x), '<')
  {
  }

  // ---------------------------------------------------------------------------- Inline rewrites

  /** Up to the second backquote: what to put out and where to go on; text between two of them becomes code. */
  function CodeHere(s: string): (r: Option<(string, nat)>)
    ensures r.Some? ==> 0 < r.value.1 <= |s|
  {
    var i := IndexOf(s, '`');
    if i == |s| then None
    else
      var j := i + 1 + IndexOf(s[i + 1..], '`');
      if j == |s| then None
      else if j == i + 1 then Some((s[..j], j))
      else Some((s[..i] + Element("code", "", s[i + 1..j]), j + 1))
  }

  function Codes(s: string): string
    decreases |s|
  {
    match CodeHere(s)
    case None => s
    case Some((out, n)) => out + Codes(s[n..])
  }

  /** Up to the first double star: what to put out and where to go on; text between two pairs becomes bold. */
  function BoldHere(s: string): (r: Option<(string, nat)>)
    ensures r.Some? ==> 0 < r.value.1 <= |s|
  {
    var i := Index(s, "**", 0);
    if i > |s| then None
    else
      var j := i + 2 + IndexOf(s[i + 2..], '*');
      if j == |s| then None
      else if i + 2 < j && j + 1 < |s| && s[j + 1] == '*'
        then Some((s[..i] + Element("strong", "", s[i + 2..j]), j + 2))
      else Some((s[..i + 1], i + 1))
  }

  function Bolds(s: string): string
    decreases |s|
  {
    match BoldHere(s)
    case None => s
    case Some((out, n)) => out + Bolds(s[n..])
  }

  predicate IsLetter(c: char) {
    'a' <= c <= 'z' || 'A' <= c <= 'Z'
  }

  predicate IsNameChar(c: char) {
    IsLetter(c) || '0' <= c <= '9' || c == '-'
  }

  function NameLength(s: string): (n: nat)
    ensures n <= |s| && (n < |s| ==> !IsNameChar(s[n])) && forall i | 0 <= i < n :: IsNameChar(s[i])
  {
    if s != "" && IsNameChar(s[0]) then 1 + NameLength(s[1..]) else 0
  }

  /** An attribute list is `{:` up to the next brace, which must be `}`; its length, or 0. */
  function ListLength(s: string): (n: nat)
    ensures n <= |s| && (n > 0 ==> n >= 3 && s[n - 1] == '}')
  {
    if |s| >= 2 && s[..2] == "{:" then
      var n := 2 + NoBrace(s[2..]);
      if n < |s| && s[n] == '}' then n + 1 else 0
    else 0
  }

  function NoBrace(s: string): (n: nat)
    ensures n <= |s| && forall i | 0 <= i < n :: s[i] != '{' && s[i] != '}'
  {
    if s == "" || s[0] == '{' || s[0] == '}' then 0 else 1 + NoBrace(s[1..])
  }

  /** A run of attribute lists. */
  function ListRun(s: string): (n: nat)
    ensures n <= |s| && (n > 0 ==> s[n - 1] == '}')
    decreases |s|
  {
    var n := ListLength(s);
    if n == 0 then 0 else n + ListRun(s[n..])
  }

  const QUOT := "&#34;"

  /** The attribute of the list whose inside is s: name="value" with escaped quotes. */
  function ListAttribute(s: string): Option<Attribute> {
    var t := s[Blanks(s)..];
    var n := NameLength(t);
    if n == 0 || !IsLetter(t[0]) || !("=" + QUOT <= t[n..]) then None
    else
      var u := t[n + 1 + |QUOT|..];
      var v := IndexOf(u, '&');
      if QUOT <= u[v..] && Blanks(u[v + |QUOT|..]) == |u| - v - |QUOT| then Some(Attribute(t[..n], u[..v])) else None
  }

  predicate Inert(name: string) {
    name == "id" || name == "class" || "data-" <= name
  }

  /** The attributes of a run of lists, but only inert ones. */
  function RunAttributes(s: string): string
    decreases |s|
  {
    var n := ListLength(s);
    if n == 0 then ""
    else
      var rest := RunAttributes(s[n..]);
      match ListAttribute(s[2..n - 1])
      case Some(a) => if Inert(a.name) then Spelled(a) + rest else rest
      case None => rest
  }

  /** A link at the start of s, as four positions: the ends of text, address, parenthesis and lists. */
  datatype Link = Link(text: nat, url: nat, end: nat)

  function LinkAt(s: string): (link: Option<Link>)
    requires s != "" && s[0] == '['
    ensures link.Some? ==>
              && var Link(t, u, e) := link.value;
              && 1 < t && t + 2 < u < e <= |s|
              && s[t] == ']' && s[t + 1] == '(' && s[u] == ')' && (s[e - 1] == ')' || s[e - 1] == '}')
  {
    var t := 1 + IndexOf(s[1..], ']');
    if t == 1 || t + 1 >= |s| || s[t + 1] != '(' then None
    else
      var u := t + 2 + IndexOf(s[t + 2..], ')');
      if u == t + 2 || u == |s| then None
      else Some(Link(t, u, u + 1 + ListRun(s[u + 1..])))
  }

  function LinkHtml(s: string, link: Link): string
    requires s != "" && s[0] == '[' && LinkAt(s) == Some(link)
  {
    Element("a", Spelled(Attribute("href", s[link.text + 2..link.url])) + RunAttributes(s[link.url + 1..link.end]),
            s[1..link.text])
  }

  /** Up to the first opening bracket, and over the link that starts there: what to put out and where to go on. */
  function LinkHere(s: string): (r: Option<(string, nat)>)
    ensures r.Some? ==> 0 < r.value.1 <= |s|
  {
    var i := IndexOf(s, '[');
    if i == |s| then None
    else
      match LinkAt(s[i..])
      case Some(link) => Some((s[..i] + LinkHtml(s[i..], link), i + link.end))
      case None => Some((s[..i + 1], i + 1))
  }

  function Links(s: string): string
    decreases |s|
  {
    match LinkHere(s)
    case None => s
    case Some((out, n)) => out + Links(s[n..])
  }

  function Inline(s: string): string {
    Links(Bolds(Codes(s)))
  }

  /** Taking a stretch of calm text into an element leaves it calm. */
  lemma WrapCalm(s: string, i: nat, from: nat, to: nat, name: string, after: string)
    requires name == "code" || name == "strong"
    requires Calm(s) && i <= from <= to < |s| && !TagStart(s[i]) && !TagStart(s[to]) && Calm(after)
    ensures Calm(s[..i] + Element(name, "", s[from..to]) + after)
  {
    CalmEmpty();
    hide Calm, Element;
    CalmTake(s, i);
    CalmSlice(s, from, to);
    var inner := Element(name, "", s[from..to]);
    ElementCalm(name, "", s[from..to]);
    CalmConcat(s[..i], inner);
    CalmConcat(s[..i] + inner, after);
  }

  lemma PassCalm(s: string, i: nat, after: string)
    requires Calm(s) && i <= |s| && (0 < i ==> s[i - 1] != '<') && Calm(after)
    ensures Calm(s[..i] + after)
  {
    assert s[0..i] == s[..i];
    hide Calm;
    CalmUpTo(s, 0, i);
    CalmConcat(s[..i], after);
  }

  lemma CodeHereCalm(s: string, after: string)
    requires Calm(s) && Calm(after) && CodeHere(s).Some?
    ensures Calm(CodeHere(s).value.0 + after)
  {
    hide Calm, Element, Free, IndexOf;
    var i := IndexOf(s, '`');
    var j := i + 1 + IndexOf(s[i + 1..], '`');
    if j == i + 1 {
      PassCalm(s, j, after);
    } else {
      WrapCalm(s, i, i + 1, j, "code", after);
    }
  }

  lemma {:induction false} CodesCalm(s: string)
    requires Calm(s)
    ensures Calm(Codes(s))
    decreases |s|
  {
    hide Calm, CodeHere;
    if CodeHere(s).Some? {
      var n := CodeHere(s).value.1;
      CalmDrop(s, n);
      CodesCalm(s[n..]);
      CodeHereCalm(s, Codes(s[n..]));
    }
  }

  lemma BoldHereCalm(s: string, after: string)
    requires Calm(s) && Calm(after) && BoldHere(s).Some?
    ensures Calm(BoldHere(s).value.0 + after)
  {
    hide Calm, Element, Free, IndexOf, Index, At;
    var i := Index(s, "**", 0);
    StarsAt(s, i);
    var j := i + 2 + IndexOf(s[i + 2..], '*');
    if i + 2 < j && j + 1 < |s| && s[j + 1] == '*' {
      WrapCalm(s, i, i + 2, j, "strong", after);
    } else {
      PassCalm(s, i + 1, after);
    }
  }

  lemma StarsAt(s: string, i: nat)
    requires At(s, i, "**")
    ensures i + 2 <= |s| && s[i] == '*' && s[i + 1] == '*'
  {
    LetterAt(s, i, "**", 0);
    LetterAt(s, i, "**", 1);
  }

  lemma {:induction false} BoldsCalm(s: string)
    requires Calm(s)
    ensures Calm(Bolds(s))
    decreases |s|
  {
    hide Calm, BoldHere;
    if BoldHere(s).Some? {
      var n := BoldHere(s).value.1;
      CalmDrop(s, n);
      BoldsCalm(s[n..]);
      BoldHereCalm(s, Bolds(s[n..]));
    }
  }

  lemma ListAttributeCalm(s: string)
    requires Calm(s) && ListAttribute(s).Some?
    ensures Calm(Spelled(ListAttribute(s).value))
  {
    var b := Blanks(s);
    var t := s[b..];
    var n := NameLength(t);
    assert Free(t[..n], '<');
    hide Calm, Spelled, Free;
    CalmDrop(s, b);
    var u := t[n + 1 + |QUOT|..];
    CalmDrop(t, n + 1 + |QUOT|);
    var v := IndexOf(u, '&');
    CalmTake(u, v);
    SpelledCalm(Attribute(t[..n], u[..v]));
  }

  lemma {:induction false} RunCalm(s: string)
    requires Calm(s)
    ensures Calm(RunAttributes(s))
    decreases |s|
  {
    hide Calm, ListAttribute, ListLength, Inert, Spelled;
    var n := ListLength(s);
    if n > 0 {
      CalmDrop(s, n);
      RunCalm(s[n..]);
      CalmSlice(s, 2, n - 1);
      if ListAttribute(s[2..n - 1]).Some? {
        ListAttributeCalm(s[2..n - 1]);
        CalmConcat(Spelled(ListAttribute(s[2..n - 1]).value), RunAttributes(s[n..]));
      }
    } else {
      CalmEmpty();
    }
  }

  lemma LinkNames()
    ensures Free("href", '<') && Free("a", '<')
  {
  }

  lemma LinkCalm(s: string, link: Link)
    requires Calm(s) && s != "" && s[0] == '[' && LinkAt(s) == Some(link)
    ensures Calm(LinkHtml(s, link))
  {
    hide Calm, LinkAt, Element, Spelled, Free, RunAttributes;
    LinkNames();
    var Link(t, u, e) := link;
    var href, lists := Attribute("href", s[t + 2..u]), s[u + 1..e];
    CalmSlice(s, t + 2, u);
    CalmSlice(s, 1, t);
    CalmUpTo(s, u + 1, e);
    RunCalm(lists);
    SpelledCalm(href);
    CalmConcat(Spelled(href), RunAttributes(lists));
    ElementCalm("a", Spelled(href) + RunAttributes(lists), s[1..t]);
  }

  lemma LinkHereCalm(s: string, after: string)
    requires Calm(s) && Calm(after) && LinkHere(s).Some?
    ensures Calm(LinkHere(s).value.0 + after)
  {
    hide Calm, LinkAt, LinkHtml, IndexOf;
    var i := IndexOf(s, '[');
    var rest := s[i..];
    if LinkAt(rest).Some? {
      var link := LinkAt(rest).value;
      CalmDrop(s, i);
      CalmTake(s, i);
      LinkCalm(rest, link);
      CalmConcat(s[..i], LinkHtml(rest, link));
      CalmConcat(s[..i] + LinkHtml(rest, link), after);
    } else {
      PassCalm(s, i + 1, after);
    }
  }

  lemma {:induction false} LinksCalm(s: string)
    requires Calm(s)
    ensures Calm(Links(s))
    decreases |s|
  {
    hide Calm, LinkHere;
    if LinkHere(s).Some? {
      var n := LinkHere(s).value.1;
      CalmDrop(s, n);
      LinksCalm(s[n..]);
      LinkHereCalm(s, Links(s[n..]));
    }
  }

  /** Whatever a line holds, its rendering opens nothing but element tags. */
  lemma InlineCalm(s: string)
    ensures Calm(Inline(Escape(s, Entity)))
  {
    EntitiesFree();
    EscapeFree(s, Entity, '<');
    CalmWithout(Escape(s, Entity));
    CodesCalm(Escape(s, Entity));
    BoldsCalm(Codes(Escape(s, Entity)));
    LinksCalm(Bolds(Codes(Escape(s, Entity))));
  }

  // ---------------------------------------------------------------------------- Lines

  predicate IsFence(l: string) {
    |l| >= 3 && l[..3] == "```"
  }

  /** The first fence line from i on. */
  function FenceEnd(lines: seq<string>, i: nat): (e: nat)
    requires i <= |lines|
    ensures i <= e <= |lines| && (e < |lines| ==> IsFence(lines[e]))
    decreases |lines| - i
  {
    if i == |lines| || IsFence(lines[i]) then i else FenceEnd(lines, i + 1)
  }

  /** The terminal a fence names: `.term1` to `.term6`. */
  function TermOf(l: string): Option<string>
    requires IsFence(l)
  {
    var info := TrimSpace(l[3..]);
    if |info| == 6 && info[..5] == ".term" && '1' <= info[5] <= '6' then Some(info[5..]) else None
  }

  function Escapes(lines: seq<string>): seq<string> {
    seq(|lines|, k requires 0 <= k < |lines| => Escape(lines[k], Entity))
  }

  function FenceHtml(l: string, escaped: seq<string>): string
    requires IsFence(l)
  {
    var code := Element("code", "", Join(escaped, "\n"));
    match TermOf(l)
    case Some(d) =>
      Element("pre", Spelled(Attribute("class", "term-code")) + Spelled(Attribute("data-term", d))
                     + Spelled(Attribute("title", "click to run in terminal " + d)), code)
    case None => Element("pre", "", code)
  }

  function Hashes(l: string): (n: nat)
    ensures n <= |l| && (n < |l| ==> l[n] != '#') && forall i | 0 <= i < n :: l[i] == '#'
  {
    if l != "" && l[0] == '#' then 1 + Hashes(l[1..]) else 0
  }

  /** One to four hashes, then blanks. */
  predicate IsHeading(l: string) {
    var n := Hashes(l);
    1 <= n <= 4 && n < |l| && IsBlank(l[n])
  }

  function HeadingHtml(l: string): string
    requires IsHeading(l)
  {
    var n := Hashes(l);
    var text := l[n + Blanks(l[n..])..];
    Element("h" + [Digit(n)], "", Inline(Escape(text, Entity)))
  }

  predicate IsItem(l: string) {
    |l| >= 2 && (l[0] == '-' || l[0] == '*') && IsBlank(l[1])
  }

  function ItemHtml(l: string): string
    requires IsItem(l)
  {
    Element("li", "", Inline(Escape(l[1 + Blanks(l[1..])..], Entity)))
  }

  /** The end of the run of items from i on. */
  function ItemsEnd(lines: seq<string>, i: nat): (e: nat)
    requires i <= |lines|
    ensures i <= e <= |lines| && forall k | i <= k < e :: IsItem(lines[k])
    ensures i < |lines| && IsItem(lines[i]) ==> i < e
    decreases |lines| - i
  {
    if i == |lines| || !IsItem(lines[i]) then i else ItemsEnd(lines, i + 1)
  }

  function Items(lines: seq<string>): string
    requires forall k | 0 <= k < |lines| :: IsItem(lines[k])
  {
    if lines == [] then "" else ItemHtml(lines[0]) + Items(lines[1..])
  }

  /** Raw HTML lines pass through. */
  predicate IsRaw(l: string) {
    var t := TrimSpace(l);
    t != "" && t[0] == '<'
  }

  /** What the loop emits at line i, if anything, and the line it goes on with. */
  datatype Step = Step(chunk: Option<string>, next: nat)

  function StepAt(lines: seq<string>, i: nat): (r: Step)
    requires i < |lines|
    ensures i < r.next
  {
    var l := lines[i];
    if IsFence(l) then
      var e := FenceEnd(lines, i + 1);
      Step(Some(FenceHtml(l, Escapes(lines[i + 1..e]))), e + 1)
    else if IsHeading(l) then Step(Some(HeadingHtml(l)), i + 1)
    else if IsItem(l) then
      var e := ItemsEnd(lines, i);
      Step(Some(Element("ul", "", Items(lines[i..e]))), e)
    else if TrimSpace(l) == "" then Step(None, i + 1)
    else if IsRaw(l) then Step(Some(l), i + 1)
    else Step(Some(Element("p", "", Inline(Escape(l, Entity)))), i + 1)
  }

  function Emitted(r: Step): seq<string> {
    match r.chunk
    case Some(c) => [c]
    case None => []
  }

  function Chunks(lines: seq<string>, i: nat): seq<string>
    decreases |lines| - i
  {
    if i >= |lines| then []
    else
      var r := StepAt(lines, i);
      Emitted(r) + Chunks(lines, r.next)
  }

  function Rendered(src: string): string {
    Join(Chunks(Split(src), 0), "\n")
  }

  /** The lines of a fence, escaped, up to its end. */
  method TakeFence(lines: seq<string>, i: nat) returns (buf: seq<string>, e: nat)
    requires i <= |lines|
    ensures e == FenceEnd(lines, i) && buf == Escapes(lines[i..e])
  {
    buf, e := [], i;
    while e < |lines| && !IsFence(lines[e])
      invariant i <= e <= |lines| && FenceEnd(lines, i) == FenceEnd(lines, e)
      invariant buf == Escapes(lines[i..e])
    {
      hide Escape, IsFence;
      assert lines[i..e + 1] == lines[i..e] + [lines[e]];
      buf := buf + [Escape(lines[e], Entity)];
      e := e + 1;
    }
  }

  /** The items of a stretch of lines. */
  function Stretch(lines: seq<string>, i: nat, e: nat): string
    requires i <= e <= |lines| && forall k | i <= k < e :: IsItem(lines[k])
  {
    Items(lines[i..e])
  }

  lemma StretchGrows(lines: seq<string>, i: nat, e: nat)
    requires i <= e < |lines| && forall k | i <= k <= e :: IsItem(lines[k])
    ensures Stretch(lines, i, i) == ""
    ensures Stretch(lines, i, e + 1) == Stretch(lines, i, e) + ItemHtml(lines[e])
  {
    hide IsItem, ItemHtml;
    ItemsMore(lines[i..e], lines[e]);
    assert lines[i..e] + [lines[e]] == lines[i..e + 1];
  }

  method TakeItems(lines: seq<string>, i: nat) returns (items: string, e: nat)
    requires i < |lines| && IsItem(lines[i])
    ensures e == ItemsEnd(lines, i) && items == Stretch(lines, i, e)
  {
    hide Stretch, IsItem, ItemHtml;
    items, e := "", i;
    StretchGrows(lines, i, i);
    while e < |lines| && IsItem(lines[e])
      invariant i <= e <= |lines| && ItemsEnd(lines, i) == ItemsEnd(lines, e)
      invariant forall k | i <= k < e :: IsItem(lines[k])
      invariant items == Stretch(lines, i, e)
    {
      StretchGrows(lines, i, e);
      items := items + ItemHtml(lines[e]);
      e := e + 1;
    }
  }

  method RenderMarkdown(src: string) returns (html: string)
    ensures html == Rendered(src)
  {
    hide FenceHtml, HeadingHtml, ItemHtml, Element, IsFence, IsHeading, IsItem, IsRaw, TrimSpace, Escape, Inline, Items;
    var lines := Split(src);
    var out: seq<string> := [];
    var i := 0;
    while i < |lines|
      invariant Chunks(lines, 0) == out + Chunks(lines, i)
      decreases |lines| - i
    {
      ghost var step := StepAt(lines, i);
      ghost var goal := out + Emitted(step);
      MoreChunks(lines, i, out);
      hide Chunks;
      var l := lines[i];
      if IsFence(l) {
        var buf, e := TakeFence(lines, i + 1);
        out := out + [FenceHtml(l, buf)];
        i := e + 1;
      } else if IsHeading(l) {
        out := out + [HeadingHtml(l)];
        i := i + 1;
      } else if IsItem(l) {
        var items, e := TakeItems(lines, i);
        out := out + [Element("ul", "", items)];
        i := e;
      } else if TrimSpace(l) == "" {
        i := i + 1;
      } else if IsRaw(l) {
        out := out + [l];
        i := i + 1;
      } else {
        out := out + [Element("p", "", Inline(Escape(l, Entity)))];
        i := i + 1;
      }
      assert out == goal && i == step.next;
    }
    NoMoreChunks(lines, i);
    assert out + [] == out;
    html := Join(out, "\n");
  }

  lemma MoreChunks(lines: seq<string>, i: nat, out: seq<string>)
    requires i < |lines|
    ensures var step := StepAt(lines, i);
            out + Emitted(step) + Chunks(lines, step.next) == out + Chunks(lines, i)
  {
  }

  lemma NoMoreChunks(lines: seq<string>, i: nat)
    ensures i >= |lines| ==> Chunks(lines, i) == []
  {
  }

  lemma {:induction false} ItemsMore(lines: seq<string>, l: string)
    requires IsItem(l) && forall k | 0 <= k < |lines| :: IsItem(lines[k])
    ensures Items(lines + [l]) == Items(lines) + ItemHtml(l)
  {
    hide ItemHtml, IsItem;
    if lines == [] {
      assert [] + [l] == [l] && [l][1..] == [];
    } else {
      ItemsMore(lines[1..], l);
      assert (lines + [l])[1..] == lines[1..] + [l];
      assert Items(lines + [l]) == ItemHtml(lines[0]) + Items(lines[1..] + [l]);
    }
  }

  // ---------------------------------------------------------------------------- What passes through

  /** The opening of a block's placeholder. */
  const MARKER := "<!--BLOCK:"

  predicate Marked(l: string) {
    Contains(l, MARKER)
  }

  function MarkedOf(parts: seq<string>): seq<string> {
    if parts == [] then []
    else if Marked(parts[0]) then [parts[0]] + MarkedOf(parts[1..])
    else MarkedOf(parts[1..])
  }

  lemma {:induction false} MarkedOfConcat(a: seq<string>, b: seq<string>)
    ensures MarkedOf(a + b) == MarkedOf(a) + MarkedOf(b)
  {
    hide Marked;
    if a == [] {
      assert a + b == b;
    } else {
      MarkedOfConcat(a[1..], b);
      assert (a + b)[1..] == a[1..] + b && (a + b)[0] == a[0];
    }
  }

  lemma {:induction false} NoneMarked(parts: seq<string>)
    requires forall k | 0 <= k < |parts| :: !Marked(parts[k])
    ensures MarkedOf(parts) == []
  {
    hide Marked;
    if parts != [] {
      NoneMarked(parts[1..]);
    }
  }

  lemma CalmUnmarked(s: string)
    requires Calm(s)
    ensures !Marked(s)
  {
    CalmLacks(s, MARKER);
  }

  /** The line the loop goes on with after line i. */
  function NextAt(lines: seq<string>, i: nat): (n: nat)
    requires i < |lines|
    ensures i < n
  {
    if IsFence(lines[i]) then FenceEnd(lines, i + 1) + 1
    else if IsItem(lines[i]) then ItemsEnd(lines, i)
    else i + 1
  }

  lemma NextIs(lines: seq<string>, i: nat)
    requires i < |lines|
    ensures StepAt(lines, i).next == NextAt(lines, i)
  {
    hide FenceHtml, HeadingHtml, ItemHtml, Element, TrimSpace, Escape, Inline, Items, FenceEnd, ItemsEnd, Escapes,
         IsFence, IsRaw;
    if IsItem(lines[i]) {
      assert Hashes(lines[i]) == 0;
    }
  }

  /** Marked lines start with their angle bracket. */
  predicate PlainlyMarked(lines: seq<string>) {
    forall k | 0 <= k < |lines| && Marked(lines[k]) :: lines[k] != "" && lines[k][0] == '<'
  }

  /** From line i on, no fence holds a marked line. */
  predicate FencesClear(lines: seq<string>, i: nat)
    decreases |lines| - i
  {
    i < |lines| ==>
      && FenceClear(lines, i)
      && FencesClear(lines, NextAt(lines, i))
  }

  lemma RawLine(lines: seq<string>, i: nat)
    requires i < |lines| && lines[i] != "" && lines[i][0] == '<'
    ensures StepAt(lines, i) == Step(Some(lines[i]), i + 1) && !IsItem(lines[i]) && !IsFence(lines[i])
  {
    TrimKeeps(lines[i]);
    hide FenceHtml, HeadingHtml, ItemHtml, Element, TrimSpace, Escape, Inline, Items, FenceEnd, ItemsEnd, Escapes;
    var l := lines[i];
    if IsFence(l) {
      FenceStart(l);
    }
    assert !IsHeading(l) && !IsItem(l);
  }

  lemma FenceStart(l: string)
    requires IsFence(l)
    ensures l[0] == '`'
  {
    assert l[..3][0] == '`';
  }

  lemma TrimKeeps(s: string)
    requires s != "" && s[0] == '<'
    ensures TrimSpace(s) != "" && TrimSpace(s)[0] == '<'
  {
    assert TrimLeft(s) == s;
    TrimRightKeeps(s);
  }

  lemma {:induction false} TrimRightKeeps(s: string)
    requires s != "" && !IsSpace(s[0])
    ensures TrimRight(s) != "" && TrimRight(s)[0] == s[0]
  {
    if IsSpace(s[|s| - 1]) {
      TrimRightKeeps(s[..|s| - 1]);
    }
  }

  lemma {:induction false} EscapesCalm(lines: seq<string>)
    ensures Calm(Join(Escapes(lines), "\n"))
  {
    if lines == [] {
      CalmEmpty();
    } else {
      EntitiesFree();
      EscapeFree(lines[0], Entity, '<');
      CalmWithout(Escape(lines[0], Entity));
      EscapesCalm(lines[1..]);
      assert Escapes(lines)[1..] == Escapes(lines[1..]);
      hide Escape, Calm;
      if |lines| > 1 {
        CalmNewline();
        CalmConcat(Escape(lines[0], Entity), "\n");
        CalmConcat(Escape(lines[0], Entity) + "\n", Join(Escapes(lines[1..]), "\n"));
      }
    }
  }

  lemma CalmNewline()
    ensures Calm("\n")
  {
  }

  lemma FenceCalm(l: string, lines: seq<string>)
    requires IsFence(l)
    ensures Calm(FenceHtml(l, Escapes(lines)))
  {
    hide *;
    EscapesCalm(lines);
    FenceHtmlCalm(l, Escapes(lines));
  }

  lemma FenceHtmlCalm(l: string, escaped: seq<string>)
    requires IsFence(l) && Calm(Join(escaped, "\n"))
    ensures Calm(FenceHtml(l, escaped))
  {
    hide Calm, Element, Free, Spelled, Join;
    BlockNames();
    CalmEmpty();
    var inner := Join(escaped, "\n");
    ElementCalm("code", "", inner);
    if TermOf(l).Some? {
      FenceAttributesCalm(l);
    }
    var attributes :=
      if TermOf(l).Some? then
        Spelled(Attribute("class", "term-code")) + Spelled(Attribute("data-term", TermOf(l).value))
        + Spelled(Attribute("title", "click to run in terminal " + TermOf(l).value))
      else "";
    ElementCalm("pre", attributes, Element("code", "", inner));
  }

  lemma BlockNames()
    ensures Free("code", '<') && Free("pre", '<') && Free("p", '<') && Free("ul", '<') && Free("li", '<')
  {
  }

  lemma FenceAttributesCalm(l: string)
    requires IsFence(l) && TermOf(l).Some?
    ensures var d := TermOf(l).value;
            Calm(Spelled(Attribute("class", "term-code")) + Spelled(Attribute("data-term", d))
                 + Spelled(Attribute("title", "click to run in terminal " + d)))
  {
    var d := TermOf(l).value;
    assert |d| == 1 && d[0] != '<';
    CalmWithout("term-code");
    CalmWithout("click to run in terminal ");
    CalmWithout(d);
    assert Free("class", '<') && Free("data-term", '<') && Free("title", '<');
    hide Calm, Spelled, Free, TermOf;
    CalmConcat("click to run in terminal ", d);
    SpelledCalm(Attribute("class", "term-code"));
    SpelledCalm(Attribute("data-term", d));
    SpelledCalm(Attribute("title", "click to run in terminal " + d));
    CalmConcat(Spelled(Attribute("class", "term-code")), Spelled(Attribute("data-term", d)));
    CalmConcat(Spelled(Attribute("class", "term-code")) + Spelled(Attribute("data-term", d)),
               Spelled(Attribute("title", "click to run in terminal " + d)));
  }

  lemma HeadingCalm(l: string)
    requires IsHeading(l)
    ensures Calm(HeadingHtml(l))
  {
    var n := Hashes(l);
    var text := l[n + Blanks(l[n..])..];
    assert Free("h" + [Digit(n)], '<');
    CalmEmpty();
    hide Calm, Element, Free, Inline, Escape;
    InlineCalm(text);
    ElementCalm("h" + [Digit(n)], "", Inline(Escape(text, Entity)));
  }

  lemma {:induction false} ItemsCalm(lines: seq<string>)
    requires forall k | 0 <= k < |lines| :: IsItem(lines[k])
    ensures Calm(Items(lines))
  {
    CalmEmpty();
    hide Calm, Element, Free, Inline, Escape;
    if lines != [] {
      BlockNames();
      InlineCalm(lines[0][1 + Blanks(lines[0][1..])..]);
      ElementCalm("li", "", Inline(Escape(lines[0][1 + Blanks(lines[0][1..])..], Entity)));
      ItemsCalm(lines[1..]);
      CalmConcat(ItemHtml(lines[0]), Items(lines[1..]));
    }
  }

  /** A step passes its line through or emits calm text, whatever lines it takes in. */
  lemma StepPasses(lines: seq<string>, i: nat)
    requires i < |lines|
    ensures StepAt(lines, i).chunk.Some? ==>
              StepAt(lines, i).chunk.value == lines[i] || Calm(StepAt(lines, i).chunk.value)
  {
    hide FenceHtml, HeadingHtml, ItemHtml, Element, TrimSpace, Escape, Inline, Items, FenceEnd, ItemsEnd, Escapes,
         Calm, IsHeading, IsRaw, Free;
    var l := lines[i];
    if IsFence(l) {
      FenceCalm(l, lines[i + 1..FenceEnd(lines, i + 1)]);
    } else if IsHeading(l) {
      HeadingCalm(l);
    } else {
      BlockNames();
      CalmEmpty();
      if IsItem(l) {
        var items := lines[i..ItemsEnd(lines, i)];
        ItemsCalm(items);
        ElementCalm("ul", "", Items(items));
      } else {
        InlineCalm(l);
        ElementCalm("p", "", Inline(Escape(l, Entity)));
      }
    }
  }

  lemma StepUnmarked(lines: seq<string>, i: nat)
    requires i < |lines| && !Marked(lines[i])
    ensures StepAt(lines, i).chunk.Some? ==> !Marked(StepAt(lines, i).chunk.value)
  {
    hide StepAt, Calm, Marked;
    StepPasses(lines, i);
    if StepAt(lines, i).chunk.Some? && Calm(StepAt(lines, i).chunk.value) {
      CalmUnmarked(StepAt(lines, i).chunk.value);
    }
  }

  /** Where the step at line i leaves off, at most the end. */
  function NextLine(lines: seq<string>, i: nat): (n: nat)
    requires i < |lines|
    ensures i < n <= |lines|
  {
    var n := StepAt(lines, i).next;
    if n > |lines| then |lines| else n
  }

  predicate FenceClear(lines: seq<string>, i: nat)
    requires i < |lines|
  {
    IsFence(lines[i]) ==> forall k | i < k < FenceEnd(lines, i + 1) :: !Marked(lines[k])
  }

  /** A step keeps the marked lines it takes in, unless they are in a fence: those are lost. */
  lemma StepSurvives(lines: seq<string>, i: nat)
    requires i < |lines| && PlainlyMarked(lines)
    ensures FenceClear(lines, i) ==> MarkedOf(Emitted(StepAt(lines, i))) == MarkedOf(lines[i..NextLine(lines, i)])
    ensures !FenceClear(lines, i) ==>
              MarkedOf(Emitted(StepAt(lines, i))) == [] != MarkedOf(lines[i..NextLine(lines, i)])
  {
    hide FenceHtml, HeadingHtml, ItemHtml, Element, TrimSpace, Escape, Inline, Items, FenceEnd, Escapes, Marked,
         IsHeading, IsRaw;
    var taken := lines[i..NextLine(lines, i)];
    if Marked(lines[i]) {
      RawLine(lines, i);
      assert taken == [lines[i]];
    } else {
      StepUnmarked(lines, i);
      NoneMarked(Emitted(StepAt(lines, i)));
      if FenceClear(lines, i) {
        forall k | 0 <= k < |taken| ensures !Marked(taken[k]) {
          if k > 0 && Marked(lines[i + k]) {
            RawLine(lines, i + k);
          }
        }
        NoneMarked(taken);
      } else {
        var k :| i < k < FenceEnd(lines, i + 1) && Marked(lines[k]);
        OneMarked(taken, k - i);
      }
    }
  }

  lemma {:induction false} OneMarked(parts: seq<string>, k: nat)
    requires k < |parts| && Marked(parts[k])
    ensures MarkedOf(parts) != []
  {
    hide Marked;
    if k > 0 {
      OneMarked(parts[1..], k - 1);
    }
  }

  lemma {:induction false} Survivors(lines: seq<string>, i: nat)
    requires i <= |lines| && PlainlyMarked(lines)
    ensures |MarkedOf(Chunks(lines, i))| <= |MarkedOf(lines[i..])|
    ensures FencesClear(lines, i) ==> MarkedOf(Chunks(lines, i)) == MarkedOf(lines[i..])
    ensures !FencesClear(lines, i) ==> |MarkedOf(Chunks(lines, i))| < |MarkedOf(lines[i..])|
    decreases |lines| - i
  {
    hide StepAt, Marked, FenceEnd;
    if i < |lines| {
      var r, n := StepAt(lines, i), NextLine(lines, i);
      StepSurvives(lines, i);
      NextIs(lines, i);
      Survivors(lines, n);
      assert Chunks(lines, r.next) == Chunks(lines, n) && (FencesClear(lines, r.next) <==> FencesClear(lines, n));
      MarkedOfConcat(Emitted(r), Chunks(lines, n));
      MarkedOfConcat(lines[i..n], lines[n..]);
      assert lines[i..] == lines[i..n] + lines[n..];
    }
  }

  /** Marked lines come out as chunks of their own, all of them and in order, and nothing else comes out
      marked, exactly when no fence holds one. */
  lemma MarkedSurvive(lines: seq<string>)
    requires PlainlyMarked(lines)
    ensures MarkedOf(Chunks(lines, 0)) == MarkedOf(lines) <==> FencesClear(lines, 0)
  {
    Survivors(lines, 0);
    assert lines[0..] == lines;
  }

  // ---------------------------------------------------------------------------- What does not pass

  /** Line j is the text of a fence, for the loop from line i on. */
  predicate Fenced(lines: seq<string>, i: nat, j: nat)
    decreases |lines| - i
  {
    i < |lines| && ((IsFence(lines[i]) && i < j < FenceEnd(lines, i + 1)) || Fenced(lines, NextAt(lines, i), j))
  }

  lemma {:induction false} FencedLater(lines: seq<string>, i: nat, j: nat)
    ensures Fenced(lines, i, j) ==> i < j < |lines|
    decreases |lines| - i
  {
    hide FenceEnd;
    if i < |lines| {
      FencedLater(lines, NextAt(lines, i), j);
    }
  }

  /** Fences are clear if no marked line is fenced. */
  lemma {:induction false} FencesClearMeans(lines: seq<string>, i: nat)
    ensures FencesClear(lines, i) <==> forall j | 0 <= j < |lines| && Marked(lines[j]) :: !Fenced(lines, i, j)
    decreases |lines| - i
  {
    hide Marked, FenceEnd, IsFence, NextAt;
    if i < |lines| {
      FencesClearMeans(lines, NextAt(lines, i));
    }
  }

  /** A line that starts like a comment: it is raw, and no rendering of other text can hold it. */
  predicate CommentLike(t: string) {
    |t| >= 2 && TagLike(t) && !TagStart(t[1]) && OneLine(t)
  }

  /** A comment that occurs in fenced lines only is in no chunk. */
  lemma {:induction false} ChunksLack(lines: seq<string>, i: nat, t: string)
    requires CommentLike(t) && forall j | i <= j < |lines| && Contains(lines[j], t) :: Fenced(lines, i, j)
    ensures forall k | 0 <= k < |Chunks(lines, i)| :: !Contains(Chunks(lines, i)[k], t)
    decreases |lines| - i
  {
    hide StepAt, Contains, FenceEnd, CommentLike, IsFence;
    if i < |lines| {
      var r, n := StepAt(lines, i), NextAt(lines, i);
      NextIs(lines, i);
      StepLacks(lines, i, t);
      forall j | n <= j < |lines| && Contains(lines[j], t) ensures Fenced(lines, n, j) {
        assert Fenced(lines, i, j);
      }
      ChunksLack(lines, n, t);
      assert Chunks(lines, i) == Emitted(r) + Chunks(lines, n);
    }
  }

  lemma StepLacks(lines: seq<string>, i: nat, t: string)
    requires i < |lines| && CommentLike(t) && (Contains(lines[i], t) ==> Fenced(lines, i, i))
    ensures forall k | 0 <= k < |Emitted(StepAt(lines, i))| :: !Contains(Emitted(StepAt(lines, i))[k], t)
  {
    hide StepAt, Contains, Calm, Fenced;
    FencedLater(lines, i, i);
    StepPasses(lines, i);
    if StepAt(lines, i).chunk.Some? && Calm(StepAt(lines, i).chunk.value) {
      CalmLacks(StepAt(lines, i).chunk.value, t);
    }
  }

  /** A marked line outside the fences comes out. */
  lemma {:induction false} LineComesOut(lines: seq<string>, i: nat, j: nat)
    requires i <= j < |lines| && PlainlyMarked(lines) && Marked(lines[j]) && !Fenced(lines, i, j)
    ensures exists k | 0 <= k < |Chunks(lines, i)| :: Chunks(lines, i)[k] == lines[j]
    decreases |lines| - i
  {
    hide StepAt, Marked, FenceEnd;
    var r, n := StepAt(lines, i), NextAt(lines, i);
    NextIs(lines, i);
    assert Chunks(lines, i) == Emitted(r) + Chunks(lines, n);
    RawLine(lines, j);
    if i == j {
      assert Chunks(lines, i)[0] == lines[j];
    } else {
      NotTaken(lines, i, j);
      LineComesOut(lines, n, j);
      var k :| 0 <= k < |Chunks(lines, n)| && Chunks(lines, n)[k] == lines[j];
      assert Chunks(lines, i)[|Emitted(r)| + k] == lines[j];
    }
  }

  /** Only a fence takes in a line that is no item. */
  lemma NotTaken(lines: seq<string>, i: nat, j: nat)
    requires i < j < |lines| && !IsItem(lines[j]) && !IsFence(lines[j])
    requires IsFence(lines[i]) ==> !(j < FenceEnd(lines, i + 1))
    ensures NextAt(lines, i) <= j
  {
    hide IsFence, IsItem;
  }

  /** Text that lacks a comment renders without it. */
  lemma RenderedLacks(text: string, t: string)
    requires CommentLike(t) && !Contains(text, t)
    ensures !Contains(Rendered(text), t)
  {
    hide Chunks, Split, Join, Contains, Fenced;
    LinesLack(text, t);
    ChunksLack(Split(text), 0, t);
    JoinLacks(Chunks(Split(text), 0), t);
  }
}

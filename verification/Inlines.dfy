/** The inline rewrites on text as it is written: code, bold text, and links with their attribute lists. */
module Inlines {
  import opened Concatenation
  import opened Search
  import opened Options
  import opened Text
  import opened Html
  import opened Markdown
  import opened PageText
  import opened Trimming

  lemma {:induction false} First(s: string, n: nat, c: char)
    requires n < |s| && s[n] == c && Free(s[..n], c)
    ensures IndexOf(s, c) == n
  {
    assert forall i | 0 <= i < n :: s[i] == s[..n][i];
  }

  /** Taking a text of five parts apart. */
  lemma {:induction false} Sliced(a: string, x: string, b: string, y: string, rest: string)
    ensures var s, i := a + x + b + y + rest, |a| + |x|;
            && s[..|a|] == a && s[..i] == a + x && s[i..i + |b|] == b && s[..i + |b|] == a + x + b
            && s[i..] == b + y + rest && s[i + |b|..] == y + rest && s[i + |b| + |y|..] == rest
            && s[i..][..|b|] == b && s == a + x + (b + y + rest)
            && (x != "" ==> s[|a|] == x[0]) && (y != "" ==> s[i..][|b|] == s[i + |b|] == y[0])
            && forall k | 0 <= k < |y| :: s[i + |b| + k] == y[k]
  {
    var s, i := a + x + b + y + rest, |a| + |x|;
    AssociateThree(a + x, b, y, rest);
    var tail := b + y + rest;
    assert s == (a + x) + tail;
    assert s[i..] == tail;
    assert tail[..|b|] == b;
    assert s == (a + x + b) + (y + rest);
  }

  lemma Missing(a: string, c: char)
    requires Free(a, c)
    ensures IndexOf(a, c) == |a|
  {
  }

  // ---------------------------------------------------------------------------- Code

  lemma CodeIs(inner: string)
    ensures Element("code", "", inner) == "<code>" + inner + "</code>"
    ensures Element("strong", "", inner) == "<strong>" + inner + "</strong>"
  {
    assert "<" + "code" + "" + ">" == "<code>" && "</" + "code" + ">" == "</code>";
    assert "<" + "strong" + "" + ">" == "<strong>" && "</" + "strong" + ">" == "</strong>";
    ElementIs("code", "", "<code>", "</code>", inner);
    ElementIs("strong", "", "<strong>", "</strong>", inner);
  }

  /** What becomes of backquotes: a pair around something makes code, the first of a pair around nothing stays,
      and so does a single one. */
  lemma {:induction false} CodesWritten(a: string, code: string, rest: string)
    requires Free(a, '`') && Free(code, '`')
    ensures Codes(a) == a
    ensures Codes(a + "`" + code) == a + "`" + code
    ensures Codes(a + "`" + code + "`" + rest) ==
            if code == "" then a + "`" + Codes("`" + rest) else a + "<code>" + code + "</code>" + Codes(rest)
  {
    hide *;
    CodesNone(a);
    NoPair(a, code);
    Pair(a, code, rest);
    CodeIs(code);
    AssociateThree(a, "<code>", code, "</code>");
  }

  lemma {:induction false} CodesNone(s: string)
    requires Free(s, '`')
    ensures Codes(s) == s
  {
    Missing(s, '`');
  }

  lemma {:induction false} NoPair(a: string, code: string)
    requires Free(a, '`') && Free(code, '`')
    ensures Codes(a + "`" + code) == a + "`" + code
  {
    var s := a + "`" + code;
    assert s[..|a|] == a && s[|a| + 1..] == code && s[|a|] == '`';
    First(s, |a|, '`');
    Missing(code, '`');
    hide IndexOf;
    assert CodeHere(s).None?;
    hide CodeHere;
  }

  lemma {:induction false} Pair(a: string, code: string, rest: string)
    requires Free(a, '`') && Free(code, '`')
    ensures Codes(a + "`" + code + "`" + rest) ==
            if code == "" then a + "`" + Codes("`" + rest) else a + Element("code", "", code) + Codes(rest)
  {
    var s := a + "`" + code + "`" + rest;
    Sliced(a, "`", code, "`", rest);
    var i := |a| + 1;
    hide *;
    First(s, |a|, '`');
    First(s[i..], |code|, '`');
    CodeStep(s, |a|, i + |code|);
    CodesStep(s);
    if code == "" {
      assert a + "`" + code == a + "`";
    }
  }

  lemma {:induction false} CodeStep(s: string, i: nat, j: nat)
    requires i == IndexOf(s, '`') < |s| && j == i + 1 + IndexOf(s[i + 1..], '`') < |s|
    ensures CodeHere(s) == if j == i + 1 then Some((s[..j], j))
                           else Some((s[..i] + Element("code", "", s[i + 1..j]), j + 1))
  {
    hide IndexOf, Element;
  }

  lemma {:induction false} CodesStep(s: string)
    ensures CodeHere(s).Some? ==> Codes(s) == CodeHere(s).value.0 + Codes(s[CodeHere(s).value.1..])
  {
    hide CodeHere;
  }

  // ---------------------------------------------------------------------------- Bold text

  /** No double star starts in the text when another star follows it. */
  predicate Starless(a: string) {
    !Contains(a + "*", "**")
  }

  /** The text goes on with something that ends in a double star and holds no star before it. */
  ghost predicate BoldAhead(rest: string) {
    exists b, r :: b != "" && Free(b, '*') && rest == b + "**" + r
  }

  lemma FirstStars(a: string, rest: string)
    requires Starless(a)
    ensures Index(a + "**" + rest, "**", 0) == |a|
  {
    var s := a + "**" + rest;
    assert At(s, |a|, "**");
    forall k: nat | k < |a| ensures !At(s, k, "**") {
      StarStays(a, rest, k);
    }
  }

  lemma StarStays(a: string, rest: string, k: nat)
    requires k < |a|
    ensures At(a + "**" + rest, k, "**") ==> At(a + "*", k, "**")
  {
    assert (a + "**" + rest)[k..k + 2] == (a + "*")[k..k + 2];
  }

  lemma {:induction false} NoStars(a: string)
    requires !Contains(a, "**")
    ensures Bolds(a) == a
  {
    assert Index(a, "**", 0) == |a| + 1;
  }

  lemma {:induction false} BoldRun(a: string, b: string, rest: string)
    requires Starless(a) && b != "" && Free(b, '*')
    ensures Bolds(a + "**" + b + "**" + rest) == a + "<strong>" + b + "</strong>" + Bolds(rest)
  {
    var s := a + "**" + b + "**" + rest;
    Sliced(a, "**", b, "**", rest);
    CodeIs(b);
    var i := |a| + 2;
    var j := i + |b|;
    hide *;
    FirstStars(a, b + "**" + rest);
    First(s[i..], |b|, '*');
    BoldStep(s, |a|, j);
    BoldsStep(s);
    AssociateThree(a, "<strong>", b, "</strong>");
  }

  lemma {:induction false} BoldsStep(s: string)
    ensures BoldHere(s).Some? ==> Bolds(s) == BoldHere(s).value.0 + Bolds(s[BoldHere(s).value.1..])
  {
    hide BoldHere;
  }

  lemma {:induction false} BoldStep(s: string, i: nat, j: nat)
    requires i == Index(s, "**", 0) < |s| && j == i + 2 + IndexOf(s[i + 2..], '*') < |s|
    requires i + 2 < j && j + 1 < |s| && s[j + 1] == '*'
    ensures BoldHere(s) == Some((s[..i] + Element("strong", "", s[i + 2..j]), j + 2))
  {
    hide IndexOf, Index, At, Element;
  }

  lemma {:induction false} BoldSkip(a: string, rest: string)
    requires Starless(a) && !BoldAhead(rest)
    ensures Bolds(a + "**" + rest) == a + "*" + Bolds("*" + rest)
  {
    var s := a + "**" + rest;
    var n := IndexOf(rest, '*');
    hide *;
    StarSlices(a, rest);
    FirstStars(a, rest);
    AheadIf(rest);
    if n == |rest| {
      LoneStar(rest);
      NoBold(s, |a|);
      BoldsNone(s);
    } else {
      NoBoldStep(s, |a|, n);
      BoldsStep(s);
    }
  }

  lemma StarSlices(a: string, rest: string)
    ensures var s := a + "**" + rest;
            && s[|a| + 2..] == rest && s[|a| + 1..] == "*" + rest && s[..|a| + 1] == a + "*"
            && s == a + "*" + ("*" + rest)
            && forall k | 0 <= k < |rest| :: rest[k] == s[|a| + k + 2]
  {
    assert "**" == "*" + "*";
    Two(a, "*", "*");
    Sliced(a + "*", "", "", "*", rest);
    assert a + "*" + "" + "" == a + "*";
  }

  lemma NoBold(s: string, i: nat)
    requires i + 2 <= |s| && i == Index(s, "**", 0) && IndexOf(s[i + 2..], '*') == |s| - i - 2
    ensures BoldHere(s).None?
  {
    hide IndexOf, Index, At, Element;
  }

  lemma BoldsNone(s: string)
    ensures BoldHere(s).None? ==> Bolds(s) == s
  {
    hide BoldHere;
  }

  lemma {:induction false} NoBoldStep(s: string, i: nat, n: nat)
    requires i + 2 <= |s| && i == Index(s, "**", 0) && n == IndexOf(s[i + 2..], '*') < |s| - i - 2
    requires n == 0 || i + n + 3 >= |s| || s[i + n + 3] != '*'
    ensures BoldHere(s) == Some((s[..i + 1], i + 1))
  {
    hide IndexOf, Index, At, Element;
  }

  lemma {:induction false} AheadIf(rest: string)
    ensures var n := IndexOf(rest, '*');
            0 < n && n + 1 < |rest| && rest[n + 1] == '*' ==> BoldAhead(rest)
  {
    var n := IndexOf(rest, '*');
    if 0 < n && n + 1 < |rest| && rest[n + 1] == '*' {
      hide IndexOf;
      assert rest == rest[..n] + "**" + rest[n + 2..];
      assert Free(rest[..n], '*');
    }
  }

  lemma {:induction false} LoneStar(rest: string)
    requires IndexOf(rest, '*') == |rest|
    ensures Bolds("*" + rest) == "*" + rest
  {
    var s := "*" + rest;
    forall i: nat | i <= |s| ensures !At(s, i, "**") {
      if At(s, i, "**") {
        LetterAt(s, i, "**", 1);
      }
    }
    NoStars(s);
  }

  /** What becomes of double stars: with text that holds none between them, two make it bold; any other stays. */
  lemma {:induction false} BoldsWritten(a: string, b: string, rest: string)
    requires Starless(a)
    ensures Bolds(a) == a && Bolds(a + "*") == a + "*"
    ensures b != "" && Free(b, '*') ==>
              Bolds(a + "**" + b + "**" + rest) == a + "<strong>" + b + "</strong>" + Bolds(rest)
    ensures !BoldAhead(rest) ==> Bolds(a + "**" + rest) == a + "*" + Bolds("*" + rest)
  {
    assert !Contains(a, "**") by {
      assert (a + "*")[..|a|] == a;
      SliceLacks(a + "*", 0, |a|, "**");
    }
    NoStars(a);
    NoStars(a + "*");
    hide Bolds, BoldAhead, Free, Starless, Contains;
    if b != "" && Free(b, '*') {
      BoldRun(a, b, rest);
    }
    if !BoldAhead(rest) {
      BoldSkip(a, rest);
    }
  }

  // ---------------------------------------------------------------------------- Attribute lists

  /** The inside of an attribute list: one attribute, its quotes escaped, with blanks around it; or anything else. */
  datatype List = Named(before: string, name: string, value: string, after: string) | Other(inside: string)

  function Inside(l: List): string {
    match l
    case Named(before, name, value, after) => before + name + "=&#34;" + value + "&#34;" + after
    case Other(inside) => inside
  }

  predicate IsName(n: string) {
    && n != "" && ('a' <= n[0] <= 'z' || 'A' <= n[0] <= 'Z')
    && forall i | 0 <= i < |n| ::
         'a' <= n[i] <= 'z' || 'A' <= n[i] <= 'Z' || '0' <= n[i] <= '9' || n[i] == '-'
  }

  predicate Braceless(s: string) {
    Free(s, '{') && Free(s, '}')
  }

  predicate ProperName(l: List) {
    l.Named? && Gap(l.before) && Gap(l.after) && IsName(l.name) && Free(l.value, '&') && Braceless(l.value)
  }

  ghost predicate Proper(l: List) {
    match l
    case Named(_, _, _, _) => ProperName(l)
    case Other(inside) => Braceless(inside) && forall n: List | ProperName(n) :: Inside(n) != inside
  }

  /** What a list adds to its link: its attribute, if that is inert. */
  function ListHtml(l: List): string {
    match l
    case Named(_, name, value, _) =>
      if name == "id" || name == "class" || (|name| >= 5 && name[..5] == "data-") then " " + name + "=\"" + value + "\""
      else ""
    case Other(_) => ""
  }

  lemma {:induction false} NameIs(name: string, rest: string)
    requires forall i | 0 <= i < |name| :: IsNameChar(name[i])
    requires rest != "" && !IsNameChar(rest[0])
    ensures NameLength(name + rest) == |name|
  {
    var s := name + rest;
    assert s[|name|] == rest[0] && forall i | 0 <= i < |name| :: s[i] == name[i];
    hide IsNameChar, NameLength;
  }

  lemma ListRead(l: List)
    requires ProperName(l)
    ensures ListAttribute(Inside(l)) == Some(Attribute(l.name, l.value))
  {
    var s := Inside(l);
    var u := l.value + ("&#34;" + l.after);
    var t := l.name + ("=&#34;" + u);
    NameShape(l.name);
    GapIs(l.after);
    assert "=&#34;"[0] == '=' && "&#34;"[0] == '&' && |"=&#34;"| == 6 && |"&#34;"| == 5;
    hide *;
    assert l.name != "" && t[0] == l.name[0];
    Regrouped(l.before, l.name, "=&#34;", l.value, "&#34;", l.after);
    BlanksBefore(l.before, t);
    Tail(l.name, "=&#34;", u);
    NameIs(l.name, "=&#34;" + u);
    Tail(l.value, "&#34;", l.after);
    First(u, |l.value|, '&');
    InsideIs(l);
    ListStep(s, t, |l.name|, u, |l.value|);
  }

  lemma InsideIs(l: List)
    requires l.Named?
    ensures Inside(l) == l.before + l.name + "=&#34;" + l.value + "&#34;" + l.after
  {
  }

  lemma NameShape(name: string)
    requires IsName(name)
    ensures name != "" && !Gap([name[0]]) && IsLetter(name[0]) && forall i | 0 <= i < |name| :: IsNameChar(name[i])
    ensures !IsNameChar('=')
  {
    GapOne(name[0]);
  }

  lemma Regrouped(a: string, b: string, c: string, d: string, e: string, f: string)
    ensures a + b + c + d + e + f == a + (b + (c + (d + (e + f))))
  {
    Sliced(a + b + c, "", d, e, f);
    assert a + b + c + "" == a + b + c;
    Two(a, b + c, d + e + f);
    Two(a, b, c);
    Two(b, c, d + e + f);
    Two(d, e, f);
  }

  lemma Tail(a: string, b: string, c: string)
    ensures var s := a + (b + c); s == a + b + c && s[..|a|] == a && s[|a|..] == b + c && s[|a| + |b|..] == c
    ensures b <= (a + (b + c))[|a|..] && (b != "" ==> (a + (b + c))[|a|] == b[0])
  {
  }

  lemma ListStep(s: string, t: string, n: nat, u: string, v: nat)
    requires t == s[Blanks(s)..] && n == NameLength(t) && 0 < n < |t| && IsLetter(t[0])
    requires "=&#34;" <= t[n..] && u == t[n + 6..] && v == IndexOf(u, '&') && "&#34;" <= u[v..]
    requires Blanks(u[v + 5..]) == |u| - v - 5
    ensures ListAttribute(s) == Some(Attribute(t[..n], u[..v]))
  {
    hide Blanks, NameLength, IndexOf;
    assert "=" + QUOT == "=&#34;";
  }

  /** Whatever reads as an attribute was written as one. */
  lemma ListFound(s: string) returns (l: List)
    requires Braceless(s) && ListAttribute(s).Some?
    ensures ProperName(l) && Inside(l) == s && ListAttribute(s) == Some(Attribute(l.name, l.value))
  {
    hide *;
    var b, t, n, u, v := ListShape(s);
    l := Made(s, b, t, n, u, v);
  }

  lemma Made(s: string, b: nat, t: string, n: nat, u: string, v: nat) returns (l: List)
    requires Braceless(s) && b == Blanks(s) && t == s[b..] && n == NameLength(t)
    requires 0 < n && n + 6 <= |t| && IsLetter(t[0]) && t[n..n + 6] == "=&#34;" && u == t[n + 6..]
    requires v == IndexOf(u, '&') && v + 5 <= |u| && u[v..v + 5] == "&#34;" && Blanks(u[v + 5..]) == |u[v + 5..]|
    ensures ProperName(l) && Inside(l) == s && l.name == t[..n] && l.value == u[..v]
  {
    hide *;
    GapIs(s);
    GapIs(u[v + 5..]);
    NameFound(t, n);
    ValueFree(s, t, u, b, n, v);
    Rejoined(s, b, t, n, u, v);
    l := Named(s[..b], t[..n], u[..v], u[v + 5..]);
    InsideIs(l);
    ProperIs(l);
  }

  lemma ProperIs(l: List)
    requires l.Named? && Gap(l.before) && Gap(l.after) && IsName(l.name) && Free(l.value, '&') && Braceless(l.value)
    ensures ProperName(l)
  {
  }

  lemma NameFound(t: string, n: nat)
    requires n == NameLength(t) && 0 < n && IsLetter(t[0])
    ensures IsName(t[..n])
  {
    hide NameLength;
  }

  lemma ValueFree(s: string, t: string, u: string, b: nat, n: nat, v: nat)
    requires b <= |s| && t == s[b..] && n + 6 <= |t| && u == t[n + 6..] && v == IndexOf(u, '&') && Braceless(s)
    ensures Free(u[..v], '&') && Braceless(u[..v])
  {
    hide IndexOf;
    assert forall i | 0 <= i < v :: u[..v][i] == u[i] == s[b + n + 6 + i];
  }

  lemma ListShape(s: string) returns (b: nat, t: string, n: nat, u: string, v: nat)
    requires ListAttribute(s).Some?
    ensures b == Blanks(s) && t == s[b..] && n == NameLength(t)
    ensures 0 < n && n + 6 <= |t| && IsLetter(t[0]) && t[n..n + 6] == "=&#34;" && u == t[n + 6..]
    ensures v == IndexOf(u, '&') && v + 5 <= |u| && u[v..v + 5] == "&#34;" && Blanks(u[v + 5..]) == |u[v + 5..]|
    ensures ListAttribute(s) == Some(Attribute(t[..n], u[..v]))
  {
    hide Blanks, NameLength, IndexOf;
    assert "=" + QUOT == "=&#34;";
    b := Blanks(s);
    t := s[b..];
    n := NameLength(t);
    u := t[n + 6..];
    v := IndexOf(u, '&');
  }

  lemma Rejoined(s: string, b: nat, t: string, n: nat, u: string, v: nat)
    requires b <= |s| && t == s[b..] && n + 6 <= |t| && t[n..n + 6] == "=&#34;" && u == t[n + 6..]
    requires v + 5 <= |u| && u[v..v + 5] == "&#34;"
    ensures s == s[..b] + t[..n] + "=&#34;" + u[..v] + "&#34;" + u[v + 5..]
  {
    assert u == u[..v] + "&#34;" + u[v + 5..];
    assert t == t[..n] + "=&#34;" + u;
    AssociateThree(t[..n] + "=&#34;", u[..v], "&#34;", u[v + 5..]);
    assert s == s[..b] + t;
    Two(s[..b], t[..n] + "=&#34;" + u[..v] + "&#34;", u[v + 5..]);
    Two(s[..b], t[..n] + "=&#34;" + u[..v], "&#34;");
    Two(s[..b], t[..n] + "=&#34;", u[..v]);
    Two(s[..b], t[..n], "=&#34;");
  }

  lemma AttributeOf(l: List)
    requires Proper(l)
    ensures ListAttribute(Inside(l)) == if l.Named? then Some(Attribute(l.name, l.value)) else None
  {
    hide ListAttribute, ProperName, Inside;
    if l.Named? {
      ListRead(l);
    } else {
      OtherIs(l);
      if ListAttribute(l.inside).Some? {
        var found := ListFound(l.inside);
      }
    }
  }

  lemma OtherIs(l: List)
    requires l.Other?
    ensures Inside(l) == l.inside
  {
  }

  function ListText(l: List): string {
    "{:" + Inside(l) + "}"
  }

  /** A run of attribute lists. */
  function ListsText(lists: seq<List>): string {
    if lists == [] then "" else ListText(lists[0]) + ListsText(lists[1..])
  }

  function ListsHtml(lists: seq<List>): string {
    if lists == [] then "" else ListHtml(lists[0]) + ListsHtml(lists[1..])
  }

  ghost predicate AllProper(lists: seq<List>) {
    forall i | 0 <= i < |lists| :: Proper(lists[i])
  }

  /** No attribute list comes first. */
  ghost predicate NoList(rest: string) {
    forall inside, r | Braceless(inside) :: rest != "{:" + inside + "}" + r
  }

  lemma {:induction false} NoBraceIs(s: string, rest: string)
    requires Braceless(s) && rest != "" && rest[0] == '}'
    ensures NoBrace(s + rest) == |s|
  {
    if s != "" {
      assert (s + rest)[0] == s[0] && (s + rest)[1..] == s[1..] + rest;
      NoBraceIs(s[1..], rest);
    } else {
      assert s + rest == rest;
    }
  }

  lemma LengthOf(inside: string, rest: string)
    requires Braceless(inside)
    ensures ListLength("{:" + inside + "}" + rest) == |inside| + 3
    ensures ("{:" + inside + "}" + rest)[2..|inside| + 2] == inside
  {
    var s := "{:" + inside + "}" + rest;
    Sliced("", "{:", inside, "}", rest);
    assert "" + "{:" == "{:";
    NoBraceIs(inside, "}" + rest);
    assert inside + "}" + rest == inside + ("}" + rest);
    hide NoBrace, Free;
  }

  lemma LengthNone(rest: string)
    requires NoList(rest)
    ensures ListLength(rest) == 0
  {
    var n := ListLength(rest);
    if n > 0 {
      var inside := rest[2..n - 1];
      InsideBraceless(rest);
      hide ListLength, Free;
      ListCut(rest, n);
    }
  }

  lemma InsideBraceless(s: string)
    ensures ListLength(s) > 0 ==> Braceless(s[2..ListLength(s) - 1]) && s[..2] == "{:"
  {
    if ListLength(s) > 0 {
      var n := NoBrace(s[2..]);
      assert s[2..][..n] == s[2..n + 2];
    }
  }

  lemma ListCut(s: string, n: nat)
    requires 3 <= n <= |s| && s[..2] == "{:" && s[n - 1] == '}'
    ensures s == "{:" + s[2..n - 1] + "}" + s[n..]
  {
  }

  lemma ProperBraceless(l: List)
    requires Proper(l)
    ensures Braceless(Inside(l))
  {
    if l.Named? {
      assert Braceless("=&#34;") && Braceless("&#34;");
      GapBraceless(l.before);
      GapBraceless(l.after);
      assert Braceless(l.name);
      hide Braceless;
      Joins(l.before, l.name);
      Joins(l.before + l.name, "=&#34;");
      Joins(l.before + l.name + "=&#34;", l.value);
      Joins(l.before + l.name + "=&#34;" + l.value, "&#34;");
      Joins(l.before + l.name + "=&#34;" + l.value + "&#34;", l.after);
    }
  }

  lemma Joins(a: string, b: string)
    requires Braceless(a) && Braceless(b)
    ensures Braceless(a + b)
  {
  }

  lemma GapBraceless(s: string)
    requires Gap(s)
    ensures Braceless(s)
  {
  }

  lemma {:induction false} RunIs(lists: seq<List>, rest: string)
    requires AllProper(lists) && NoList(rest)
    ensures ListRun(ListsText(lists) + rest) == |ListsText(lists)|
  {
    hide Proper, NoList, ListLength, Inside, Braceless, ListText;
    if lists == [] {
      LengthNone(rest);
      assert "" + rest == rest;
    } else {
      var l, later := lists[0], ListsText(lists[1..]) + rest;
      RunIs(lists[1..], rest);
      ListFirst(l, later);
      Two(ListText(l), ListsText(lists[1..]), rest);
      assert (ListText(l) + later)[|ListText(l)|..] == later;
    }
  }

  lemma ListFirst(l: List, rest: string)
    requires Proper(l)
    ensures ListLength(ListText(l) + rest) == |ListText(l)| == |Inside(l)| + 3
    ensures (ListText(l) + rest)[2..|ListText(l)| - 1] == Inside(l)
  {
    hide Proper, ListLength, Inside, Braceless;
    ProperBraceless(l);
    LengthOf(Inside(l), rest);
  }

  lemma {:induction false} AttributesAre(lists: seq<List>)
    requires AllProper(lists)
    ensures RunAttributes(ListsText(lists)) == ListsHtml(lists)
  {
    hide Proper, ListLength, Inside, Braceless, ListText, ListAttribute, Inert, Spelled;
    if lists == [] {
      assert ListLength("") == 0;
    } else {
      var l, later := lists[0], ListsText(lists[1..]);
      AttributesAre(lists[1..]);
      ListFirst(l, later);
      AttributeOf(l);
      assert (ListText(l) + later)[|ListText(l)|..] == later;
      HtmlOf(l);
    }
  }

  lemma HtmlOf(l: List)
    ensures ListHtml(l) == if l.Named? && Inert(l.name) then Spelled(Attribute(l.name, l.value)) else ""
  {
  }

  // ---------------------------------------------------------------------------- Links

  /** A link as it is written: its text, its address and its attribute lists. */
  function LinkText(text: string, url: string, lists: seq<List>): string {
    "[" + text + "](" + url + ")" + ListsText(lists)
  }

  /** The text begins a link, after its opening bracket. */
  ghost predicate LinkAhead(rest: string) {
    exists text, url, r :: text != "" && Free(text, ']') && url != "" && Free(url, ')')
                           && rest == text + "](" + url + ")" + r
  }

  lemma LinkFound(text: string, url: string, lists: seq<List>, rest: string)
    requires text != "" && Free(text, ']') && url != "" && Free(url, ')') && AllProper(lists) && NoList(rest)
    ensures var s, t := LinkText(text, url, lists) + rest, 1 + |text|;
            && s != "" && s[0] == '['
            && LinkAt(s) == Some(Link(t, t + 2 + |url|, |LinkText(text, url, lists)|))
            && s[1..t] == text && s[t + 2..t + 2 + |url|] == url && s[|LinkText(text, url, lists)|..] == rest
            && s[t + 3 + |url|..|LinkText(text, url, lists)|] == ListsText(lists)
  {
    var all := ListsText(lists);
    var s, t := LinkText(text, url, lists) + rest, 1 + |text|;
    hide *;
    RunIs(lists, rest);
    LinkSliced(text, url, all, rest);
    LinkTextIs(text, url, lists);
    First(s[1..], |text|, ']');
    First(s[t + 2..], |url|, ')');
    LinkStep(s, t, t + 2 + |url|);
  }

  lemma LinkTextIs(text: string, url: string, lists: seq<List>)
    ensures LinkText(text, url, lists) == "[" + text + "](" + url + ")" + ListsText(lists)
  {
  }

  lemma LinkSliced(text: string, url: string, all: string, rest: string)
    ensures var s, t := "[" + text + "](" + url + ")" + all + rest, 1 + |text|;
            var u := t + 2 + |url|;
            && |s| > u && s[0] == '[' && s[1..][|text|] == s[t] == ']' && s[1..][..|text|] == s[1..t] == text
            && s[t + 1] == '(' && s[t + 2..][..|url|] == s[t + 2..u] == url && s[t + 2..][|url|] == s[u] == ')'
            && s[u + 1..] == all + rest && s[u + 1..u + 1 + |all|] == all && s[u + 1 + |all|..] == rest
  {
    var t := 1 + |text|;
    var u := t + 2 + |url|;
    var front := "[" + text + "](" + url + ")";
    var s := front + all + rest;
    FrontSliced(text, url);
    Within(front, all, rest);
    assert s[1..t] == front[1..t] && s[1..][..|text|] == s[1..t];
    assert s[t + 2..u] == front[t + 2..u] && s[t + 2..][..|url|] == s[t + 2..u];
  }

  lemma FrontSliced(text: string, url: string)
    ensures var s, t := "[" + text + "](" + url + ")", 1 + |text|;
            && |s| == t + 3 + |url| && s[0] == '[' && s[1..t] == text && s[t] == ']' && s[t + 1] == '('
            && s[t + 2..t + 2 + |url|] == url && s[t + 2 + |url|] == ')'
  {
  }

  lemma Within(front: string, all: string, rest: string)
    ensures var s, n := front + all + rest, |front|;
            && s[n..] == all + rest && s[n..n + |all|] == all && s[n + |all|..] == rest
            && forall k | 0 <= k < n :: s[k] == front[k]
  {
  }

  lemma LinkStep(s: string, t: nat, u: nat)
    requires s != "" && s[0] == '[' && t == 1 + IndexOf(s[1..], ']') && 1 < t && t + 1 < |s| && s[t + 1] == '('
    requires u == t + 2 + IndexOf(s[t + 2..], ')') && t + 2 < u < |s|
    ensures LinkAt(s) == Some(Link(t, u, u + 1 + ListRun(s[u + 1..])))
  {
    hide IndexOf, ListRun;
  }

  lemma LinksStep(s: string)
    ensures LinkHere(s).Some? ==> Links(s) == LinkHere(s).value.0 + Links(s[LinkHere(s).value.1..])
  {
    hide LinkHere;
  }

  lemma HereIs(s: string, i: nat)
    requires i == IndexOf(s, '[') < |s|
    ensures LinkHere(s) == if LinkAt(s[i..]).Some? then
                             var link := LinkAt(s[i..]).value;
                             Some((s[..i] + LinkHtml(s[i..], link), i + link.end))
                           else Some((s[..i + 1], i + 1))
  {
    hide LinkAt, LinkHtml, IndexOf;
  }

  lemma LinksNone(s: string)
    requires Free(s, '[')
    ensures Links(s) == s
  {
    Missing(s, '[');
  }

  lemma LinkHtmlIs(s: string, link: Link, text: string, url: string, lists: seq<List>)
    requires s != "" && s[0] == '[' && LinkAt(s) == Some(link) && AllProper(lists)
    requires s[1..link.text] == text && s[link.text + 2..link.url] == url
             && s[link.url + 1..link.end] == ListsText(lists)
    ensures LinkHtml(s, link) == "<a href=\"" + url + "\"" + ListsHtml(lists) + ">" + text + "</a>"
  {
    hide LinkAt, RunAttributes, ListsHtml, ListsText, Proper;
    AttributesAre(lists);
    LinkWords();
    SpelledIs("href", " href=\"", url);
    hide Spelled, Element;
    var attributes := " href=\"" + url + "\"" + ListsHtml(lists);
    ElementIs("a", attributes, "<a" + attributes + ">", "</a>", text);
    Two("<a", " href=\"" + url + "\"", ListsHtml(lists));
    AssociateThree("<a", " href=\"", url, "\"");
  }

  lemma LinkWords()
    ensures "<" + "a" == "<a" && "</" + "a" + ">" == "</a>" && "<a" + " href=\"" == "<a href=\""
    ensures " " + "href" + "=\"" == " href=\""
  {
  }

  lemma LinkRun(a: string, text: string, url: string, lists: seq<List>, rest: string)
    requires Free(a, '[') && text != "" && Free(text, ']') && url != "" && Free(url, ')')
    requires AllProper(lists) && NoList(rest)
    ensures Links(a + LinkText(text, url, lists) + rest)
            == a + "<a href=\"" + url + "\"" + ListsHtml(lists) + ">" + text + "</a>" + Links(rest)
  {
    var link := LinkText(text, url, lists);
    var s := a + link + rest;
    hide *;
    LinkFound(text, url, lists, rest);
    Sliced(a, "", link, "", rest);
    assert a + "" + link + "" == a + link && a + "" == a;
    assert link + "" + rest == link + rest && s[|a|] == (link + rest)[0];
    First(s, |a|, '[');
    HereIs(s, |a|);
    LinksStep(s);
    var t := 1 + |text|;
    LinkHtmlIs(link + rest, Link(t, t + 2 + |url|, |link|), text, url, lists);
    Regroup(a, "<a href=\"", url, "\"", ListsHtml(lists), ">", text, "</a>");
  }

  lemma Regroup(a: string, b: string, c: string, d: string, e: string, f: string, g: string, h: string)
    ensures a + (b + c + d + e + f + g + h) == a + b + c + d + e + f + g + h
  {
    Two(a, b + c + d + e + f + g, h);
    Two(a, b + c + d + e + f, g);
    Two(a, b + c + d + e, f);
    Push(a, b, c, d, e, "");
    assert b + c + d + e + "" == b + c + d + e && a + b + c + d + e + "" == a + b + c + d + e;
  }

  lemma AheadOf(s: string, link: Link)
    requires s != "" && s[0] == '[' && LinkAt(s) == Some(link)
    ensures LinkAhead(s[1..])
  {
    LinkEnds(s, link);
    hide LinkAt;
    var t, u := link.text, link.url;
    var text, url := s[1..t], s[t + 2..u];
    assert s[1..] == text + "](" + url + ")" + s[u + 1..];
  }

  lemma LinkEnds(s: string, link: Link)
    requires s != "" && s[0] == '[' && LinkAt(s) == Some(link)
    ensures Free(s[1..link.text], ']') && Free(s[link.text + 2..link.url], ')')
  {
    var t, u := link.text, link.url;
    assert s[1..t] == s[1..][..t - 1] && s[t + 2..u] == s[t + 2..][..u - t - 2];
    assert s[1..][..IndexOf(s[1..], ']')] == s[1..t] && s[t + 2..][..IndexOf(s[t + 2..], ')')] == s[t + 2..u];
  }

  lemma LinkSkip(a: string, rest: string)
    requires Free(a, '[') && !LinkAhead(rest)
    ensures Links(a + "[" + rest) == a + "[" + Links(rest)
  {
    var s := a + "[" + rest;
    assert s[|a|] == '[' && s[..|a|] == a && s[..|a| + 1] == a + "[" && s[|a| + 1..] == rest && s[|a|..][1..] == rest;
    hide *;
    First(s, |a|, '[');
    HereIs(s, |a|);
    LinksStep(s);
    if LinkAt(s[|a|..]).Some? {
      AheadOf(s[|a|..], LinkAt(s[|a|..]).value);
    }
  }

  /** What becomes of links: a link is made of a bracketed text with an address in parentheses, and of the lists
      that follow; any other opening bracket stays. */
  lemma LinksWritten(a: string, text: string, url: string, lists: seq<List>, rest: string)
    requires Free(a, '[')
    ensures Links(a) == a
    ensures text != "" && Free(text, ']') && url != "" && Free(url, ')') && AllProper(lists) && NoList(rest) ==>
              Links(a + LinkText(text, url, lists) + rest)
              == a + "<a href=\"" + url + "\"" + ListsHtml(lists) + ">" + text + "</a>" + Links(rest)
    ensures !LinkAhead(rest) ==> Links(a + "[" + rest) == a + "[" + Links(rest)
  {
    hide *;
    LinksNone(a);
    if text != "" && Free(text, ']') && url != "" && Free(url, ')') && AllProper(lists) && NoList(rest) {
      LinkRun(a, text, url, lists, rest);
    }
    if !LinkAhead(rest) {
      LinkSkip(a, rest);
    }
  }
}

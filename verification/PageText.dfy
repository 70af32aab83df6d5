/** What the compiler writes. */
module PageText {
  import opened Concatenation
  import opened Text
  import opened Html
  import opened Markdown
  import opened DemoLinks
  import opened Lesson
  import opened Marks
  import opened Options
  import opened Trimming

  lemma ElementIs(name: string, attributes: string, open: string, close: string, inner: string)
    requires open == "<" + name + attributes + ">" && close == "</" + name + ">"
    ensures Element(name, attributes, inner) == open + inner + close
  {
    AssociateThree(open + inner, "</", name, ">");
  }

  lemma SpelledIs(name: string, front: string, value: string)
    requires front == " " + name + "=\""
    ensures Spelled(Attribute(name, value)) == front + value + "\""
  {
  }

  // ---------------------------------------------------------------------------- Blocks

  lemma BlockWords()
    ensures " " + "class" + "=\"" == " class=\"" && " " + "data-challenge" + "=\"" == " data-challenge=\""
    ensures "<" + "div" + (" class=\"" + "q" + "\"") + ">" == "<div class=\"q\">" && "</" + "div" + ">" == "</div>"
  {
  }

  lemma VerdictWords()
    ensures "<" + "div" + (" class=\"" + "verdict" + "\"") + ">" == "<div class=\"verdict\">"
    ensures "<div class=\"verdict\">" + "" + "</div>" == "<div class=\"verdict\"></div>"
    ensures "<div class=\"verdict\"></div>" + "</div>" == "<div class=\"verdict\"></div></div>"
  {
  }

  lemma QuestionIs(html: string)
    ensures QuestionHtml(html) == "<div class=\"q\">" + html + "</div>"
  {
    BlockWords();
    SpelledIs("class", " class=\"", "q");
    hide Element, Spelled;
    ElementIs("div", Spelled(Attribute("class", "q")), "<div class=\"q\">", "</div>", html);
  }

  /** The element of a block: its kind, its challenge's hash, what is inside, and room for a verdict. */
  lemma BlockIs(kind: string, hash: string, inner: string)
    ensures BlockHtml(kind, hash, inner)
            == "<div class=\"" + kind + "\" data-challenge=\"" + hash + "\">" + inner
               + "<div class=\"verdict\"></div></div>"
  {
    BlockWords();
    SpelledIs("class", " class=\"", kind);
    SpelledIs("data-challenge", " data-challenge=\"", hash);
    var attributes := Spelled(Attribute("class", kind)) + Spelled(Attribute("data-challenge", hash));
    var verdict := "<div class=\"verdict\"></div>";
    hide Element, Spelled;
    VerdictWords();
    SpelledIs("class", " class=\"", "verdict");
    ElementIs("div", Spelled(Attribute("class", "verdict")), "<div class=\"verdict\">", "</div>", "");
    OpenIs(kind, hash);
    var open := "<div class=\"" + kind + "\" data-challenge=\"" + hash + "\">";
    ElementIs("div", attributes, open, "</div>", inner + verdict);
    CloseIs(open, inner, verdict, "</div>");
  }

  lemma OpenIs(kind: string, hash: string)
    ensures "<" + "div" + ((" class=\"" + kind + "\"") + (" data-challenge=\"" + hash + "\"")) + ">"
            == "<div class=\"" + kind + "\" data-challenge=\"" + hash + "\">"
  {
    assert "<" + "div" + (" class=\"" + kind + "\"") == "<div class=\"" + kind + "\"";
    Two("<" + "div", " class=\"" + kind + "\"", " data-challenge=\"" + hash + "\"");
    Words("<div class=\"" + kind, "\"", " data-challenge=\"", hash, "\"", ">");
    assert "\"" + " data-challenge=\"" == "\" data-challenge=\"" && "\"" + ">" == "\">";
  }

  lemma Two(a: string, b: string, c: string)
    ensures a + (b + c) == a + b + c
  {
  }

  lemma CloseIs(open: string, inner: string, verdict: string, close: string)
    ensures open + (inner + verdict) + close == open + inner + (verdict + close)
  {
  }

  lemma Words(a: string, q: string, n: string, value: string, r: string, rest: string)
    ensures a + q + (n + value + r) + rest == a + (q + n) + value + (r + rest)
  {
    AssociateThree(a + q, n, value, r);
    assert a + q + n == a + (q + n);
  }

  // ---------------------------------------------------------------------------- Buttons

  /** The attribute, if it has a value. */
  function Given(front: string, value: string): string {
    if value == "" then "" else front + value + "\""
  }

  /** The button of an exercise. */
  function ButtonText(hash: string, r: Routing): string {
    "<a class=\"exercise-demo\" data-hash-code=\"" + hash + "\" data-port=\"" + r.port + "\" data-path=\"" + r.path
    + "\" data-term=\"" + r.term + "\"" + Given(" data-host-prefix=\"", r.prefix) + Given(" data-protocol=\"", r.proto)
    + " href=\"#\">Test Exercise</a>"
  }

  lemma ButtonNames()
    ensures " " + CLASS + "=\"" == " class=\"" && " " + HASH_CODE + "=\"" == " data-hash-code=\""
    ensures " " + PORT + "=\"" == " data-port=\"" && " " + PATH + "=\"" == " data-path=\""
  {
  }

  lemma OtherNames()
    ensures " " + TERM + "=\"" == " data-term=\"" && " " + PREFIX + "=\"" == " data-host-prefix=\""
    ensures " " + PROTOCOL + "=\"" == " data-protocol=\"" && " " + HREF + "=\"" == " href=\""
  {
  }

  /** The attributes every button has before those it may lack. */
  function FrontAttributes(hash: string, r: Routing): seq<Attribute> {
    [Attribute(CLASS, "exercise-demo"), Attribute(HASH_CODE, hash), Attribute(PORT, r.port), Attribute(PATH, r.path),
     Attribute(TERM, r.term)]
  }

  lemma FrontIs(hash: string, r: Routing)
    ensures SpelledAll(FrontAttributes(hash, r))
            == (" class=\"" + "exercise-demo" + "\"") + (" data-hash-code=\"" + hash + "\"")
               + (" data-port=\"" + r.port + "\"") + (" data-path=\"" + r.path + "\"")
               + (" data-term=\"" + r.term + "\"")
  {
    ButtonNames();
    OtherNames();
    hide SpelledAll, CLASS, HASH_CODE, PORT, PATH, TERM, PREFIX, PROTOCOL, HREF;
    SpelledIs(CLASS, " class=\"", "exercise-demo");
    SpelledIs(HASH_CODE, " data-hash-code=\"", hash);
    SpelledIs(PORT, " data-port=\"", r.port);
    SpelledIs(PATH, " data-path=\"", r.path);
    SpelledIs(TERM, " data-term=\"", r.term);
    var a, b, c, d, e := Attribute(CLASS, "exercise-demo"), Attribute(HASH_CODE, hash), Attribute(PORT, r.port),
      Attribute(PATH, r.path), Attribute(TERM, r.term);
    assert FrontAttributes(hash, r) == [a] + [b] + [c] + [d] + [e];
    hide Spelled;
    SpelledOne(a);
    More([a], b);
    More([a] + [b], c);
    More([a] + [b] + [c], d);
    More([a] + [b] + [c] + [d], e);
  }

  lemma More(attributes: seq<Attribute>, a: Attribute)
    ensures SpelledAll(attributes + [a]) == SpelledAll(attributes) + Spelled(a)
  {
    SpelledConcat(attributes, [a]);
    SpelledOne(a);
  }

  lemma OneMore(done: string, q: string, n: string, v: string)
    ensures done + q + (n + v + q) == done + (q + n) + v + q
  {
    AssociateThree(done + q, n, v, q);
    assert done + q + n == done + (q + n);
  }

  lemma Four(a: string, q: string, n: seq<string>, v: seq<string>)
    requires |n| == |v| == 4
    ensures a + (n[0] + v[0] + q) + (n[1] + v[1] + q) + (n[2] + v[2] + q) + (n[3] + v[3] + q)
            == a + n[0] + v[0] + (q + n[1]) + v[1] + (q + n[2]) + v[2] + (q + n[3]) + v[3] + q
  {
    AssociateThree(a, n[0], v[0], q);
    var one := a + n[0] + v[0];
    OneMore(one, q, n[1], v[1]);
    var two := one + (q + n[1]) + v[1];
    OneMore(two, q, n[2], v[2]);
    OneMore(two + (q + n[2]) + v[2], q, n[3], v[3]);
  }

  lemma Push(a: string, s: string, b: string, c: string, d: string, e: string)
    ensures a + (s + b + c + d + e) == a + s + b + c + d + e
  {
    Two(a, s + b + c + d, e);
    Two(a, s + b + c, d);
    AssociateThree(a, s, b, c);
  }

  function ButtonFront(hash: string, r: Routing): string {
    "<a class=\"exercise-demo\" data-hash-code=\"" + hash + "\" data-port=\"" + r.port + "\" data-path=\"" + r.path
    + "\" data-term=\"" + r.term + "\""
  }

  lemma ButtonFrontIs(hash: string, r: Routing)
    ensures "<" + "a" + SpelledAll(FrontAttributes(hash, r)) == ButtonFront(hash, r)
  {
    FrontIs(hash, r);
    FrontWords();
    InnerWords();
    Push("<a", " class=\"" + "exercise-demo" + "\"", " data-hash-code=\"" + hash + "\"",
         " data-port=\"" + r.port + "\"", " data-path=\"" + r.path + "\"", " data-term=\"" + r.term + "\"");
    Four("<a class=\"exercise-demo\"", "\"",
         [" data-hash-code=\"", " data-port=\"", " data-path=\"", " data-term=\""], [hash, r.port, r.path, r.term]);
    hide SpelledAll, FrontAttributes;
  }

  lemma FrontWords()
    ensures "<" + "a" == "<a" && "<a" + (" class=\"" + "exercise-demo" + "\"") == "<a class=\"exercise-demo\""
    ensures "<a class=\"exercise-demo\"" + " data-hash-code=\"" == "<a class=\"exercise-demo\" data-hash-code=\""
  {
  }

  lemma InnerWords()
    ensures "\"" + " data-port=\"" == "\" data-port=\"" && "\"" + " data-path=\"" == "\" data-path=\""
    ensures "\"" + " data-term=\"" == "\" data-term=\""
  {
  }

  lemma LastWords()
    ensures " href=\"" + "#" + "\"" == " href=\"#\"" && " href=\"#\"" + ">" == " href=\"#\">"
    ensures " href=\"#\">" + "Test Exercise" == " href=\"#\">Test Exercise"
    ensures "</" + "a" + ">" == "</a>"
    ensures " href=\"#\">Test Exercise" + "</a>" == " href=\"#\">Test Exercise</a>"
  {
  }

  /** The optional attributes. */
  lemma GivenIs(name: string, front: string, value: string)
    requires front == " " + name + "=\""
    ensures SpelledAll(if value != "" then [Attribute(name, value)] else []) == Given(front, value)
  {
    hide SpelledAll, Spelled;
    SpelledOne(Attribute(name, value));
    SpelledIs(name, front, value);
    SpelledNone();
  }

  lemma SpelledNone()
    ensures SpelledAll([]) == ""
  {
  }

  lemma AttributesAre(hash: string, r: Routing)
    ensures SpelledAll(ButtonAttributes(hash, r))
            == SpelledAll(FrontAttributes(hash, r)) + Given(" data-host-prefix=\"", r.prefix)
               + Given(" data-protocol=\"", r.proto) + " href=\"#\""
  {
    ButtonNames();
    OtherNames();
    LastWords();
    hide SpelledAll, Spelled, CLASS, HASH_CODE, PORT, PATH, TERM, PREFIX, PROTOCOL, HREF, Given;
    var front := FrontAttributes(hash, r);
    var b := if r.prefix != "" then [Attribute(PREFIX, r.prefix)] else [];
    var c := if r.proto != "" then [Attribute(PROTOCOL, r.proto)] else [];
    assert ButtonAttributes(hash, r) == front + b + c + [Attribute(HREF, "#")];
    hide ButtonAttributes, FrontAttributes;
    GivenIs(PREFIX, " data-host-prefix=\"", r.prefix);
    GivenIs(PROTOCOL, " data-protocol=\"", r.proto);
    SpelledIs(HREF, " href=\"", "#");
    SpelledConcat(front, b);
    SpelledConcat(front + b, c);
    More(front + b + c, Attribute(HREF, "#"));
  }

  /** The button of an exercise, in full. */
  lemma ButtonIs(hash: string, r: Routing)
    ensures Button(hash, r) == ButtonText(hash, r)
  {
    AttributesAre(hash, r);
    ButtonFrontIs(hash, r);
    LastWords();
    hide SpelledAll, ButtonAttributes, FrontAttributes, Given, ButtonFront, ButtonText;
    var front, b, c := SpelledAll(FrontAttributes(hash, r)), Given(" data-host-prefix=\"", r.prefix),
      Given(" data-protocol=\"", r.proto);
    Two("<" + "a", front + b + c, " href=\"#\"");
    Two("<" + "a", front + b, c);
    Two("<" + "a", front, b);
    Ends("<" + "a" + front + b + c, " href=\"#\"", ">", "Test Exercise", "</", "a");
    ButtonTextIs(hash, r);
  }

  lemma ButtonTextIs(hash: string, r: Routing)
    ensures ButtonText(hash, r) == ButtonFront(hash, r) + Given(" data-host-prefix=\"", r.prefix)
                                   + Given(" data-protocol=\"", r.proto) + " href=\"#\">Test Exercise</a>"
  {
  }

  lemma Ends(a: string, b: string, c: string, d: string, e: string, f: string)
    ensures a + b + c + d + e + f + c == a + (b + c + d + (e + f + c))
  {
  }

  // ---------------------------------------------------------------------------- Exercises

  function DefaultButton(hash: string): string {
    "<a class=\"exercise-demo\" data-hash-code=\"" + hash + "\" data-port=\"" + "80" + "\" data-path=\""
    + "/result.html" + "\" data-term=\"" + ".term1" + "\"" + " href=\"#\">Test Exercise</a>"
  }

  lemma DefaultButtonIs(hash: string)
    ensures Button(hash, DEFAULT) == DefaultButton(hash)
  {
    ButtonIs(hash, DEFAULT);
    ButtonTextIs(hash, DEFAULT);
    assert ButtonFront(hash, DEFAULT) + "" + "" == ButtonFront(hash, DEFAULT);
  }

  /** The flags of an exercise: the one its author wrote, else the computed one, if any. */
  function FlagsGiven(reference: Reference): Option<seq<string>> {
    match reference
    case Written(flag) => Some([flag])
    case Computed(Some(flag)) => Some([flag])
    case Computed(None) => None
    case Ungraded => Some([])
  }

  /** The exercise with this text and any space around it: its page element and its challenge. */
  lemma ExerciseWritten(x: Setting, before: string, text: string, after: string)
    requires Spaces(before) && Spaces(after) && (text == "" || Trim(text))
    ensures BuildExercise(x, before + text + after) ==
            if text == "" then Err(ExerciseEmpty)
            else
              var hash := x.challengeHash(text, x.slug);
              if FlagsGiven(x.reference).None? then Err(ReferenceFailed)
              else
                Ok(Built("<div class=\"exercise\" data-challenge=\"" + hash + "\"><div class=\"q\">" + Rendered(text)
                         + "</div>" + DefaultButton(hash) + "<div class=\"verdict\"></div></div>",
                         Challenge(hash, 20, FlagsGiven(x.reference).value, None)))
  {
    hide TrimSpace, Rendered, Button, ExerciseHtml, DefaultButton, Spaces, Trim;
    TrimDrops(before, text, after);
    ExerciseIs(text, x.challengeHash(text, x.slug));
  }

  lemma ExerciseIs(text: string, hash: string)
    ensures ExerciseHtml(text, hash, DEFAULT)
            == "<div class=\"exercise\" data-challenge=\"" + hash + "\"><div class=\"q\">" + Rendered(text)
               + "</div>" + DefaultButton(hash) + "<div class=\"verdict\"></div></div>"
  {
    ExerciseWords();
    var html := Rendered(text);
    hide Rendered, Button, BlockHtml, QuestionHtml, DefaultButton;
    DefaultButtonIs(hash);
    QuestionIs(html);
    BlockIs("exercise", hash, ExerciseInner(text, hash, DEFAULT));
    Nest("<div class=\"exercise\" data-challenge=\"" + hash, "\">", "<div class=\"q\">", html, "</div>",
         DefaultButton(hash), "<div class=\"verdict\"></div></div>");
  }

  lemma ExerciseWords()
    ensures "\">" + "<div class=\"q\">" == "\"><div class=\"q\">"
    ensures "<div class=\"" + "exercise" + "\" data-challenge=\"" == "<div class=\"exercise\" data-challenge=\""
  {
  }

  lemma Nest(front: string, end: string, open: string, html: string, close: string, button: string, last: string)
    ensures front + end + (open + html + close + button) + last
            == front + (end + open) + html + close + button + last
  {
    Two(front + end, open + html + close, button);
    AssociateThree(front + end, open, html, close);
    Two(front, end, open);
  }

  // ---------------------------------------------------------------------------- Authored links

  /** A marked link with a full routing. */
  function LinkTo(mark: string, r: Routing): seq<Attribute> {
    [Attribute("href", r.path), Attribute(mark, "exerciseDemo"), Attribute("data-port", r.port),
     Attribute("data-term", r.term), Attribute("data-host-prefix", r.prefix), Attribute("data-protocol", r.proto)]
  }

  /** It sends the button it is paired with there, but only to a path on the same host. */
  lemma LinkRoutes(mark: string, r: Routing)
    requires (mark == "id" || mark == "class") && Quotable(r) && r.port != "" && r.term != ""
    ensures RoutingOf(OpenTag(LinkTo(mark, r))) == if "/" <= r.path then r else r.(path := "/result.html")
  {
    hide *;
    LinkReadable(mark, r);
    AttributesRead(LinkTo(mark, r));
    LinkMap(mark, r);
    Routes(OpenTag(LinkTo(mark, r)), MapOf(LinkTo(mark, r)), r);
  }

  lemma Routes(tag: string, m: map<string, string>, r: Routing)
    requires TagAttributes(tag, 0) == m && r.port != "" && r.term != ""
    requires ValueOf(m, PORT) == r.port && ValueOf(m, HREF) == r.path && ValueOf(m, TERM) == r.term
    requires ValueOf(m, PREFIX) == r.prefix && ValueOf(m, PROTOCOL) == r.proto
    ensures RoutingOf(tag) == if "/" <= r.path then r else r.(path := "/result.html")
  {
    hide TagAttributes, ValueOf, PORT, PATH, TERM, PREFIX, PROTOCOL, HREF;
  }

  lemma LinkMap(mark: string, r: Routing)
    requires mark == "id" || mark == "class"
    ensures var m := MapOf(LinkTo(mark, r));
            && ValueOf(m, PORT) == r.port && ValueOf(m, HREF) == r.path && ValueOf(m, TERM) == r.term
            && ValueOf(m, PREFIX) == r.prefix && ValueOf(m, PROTOCOL) == r.proto
  {
    var link := LinkTo(mark, r);
    assert |link| == 6;
    LinkNames();
    NamesApart();
    hide MapOf, CLASS, HASH_CODE, PORT, PATH, TERM, PREFIX, PROTOCOL, HREF;
    MapLookup(link, 0);
    MapLookup(link, 2);
    MapLookup(link, 3);
    MapLookup(link, 4);
    MapLookup(link, 5);
  }

  lemma LinkNames()
    ensures PORT == "data-port" && TERM == "data-term" && HREF == "href" && PREFIX == "data-host-prefix"
    ensures PROTOCOL == "data-protocol" && CLASS == "class" && |"id"| == 2
  {
  }

  lemma LinkReadable(mark: string, r: Routing)
    requires (mark == "id" || mark == "class") && Quotable(r)
    ensures Readable(LinkTo(mark, r))
  {
    NamesReadable();
    LongNamesReadable();
    LinkNames();
    assert ReadableName("id") && Free("exerciseDemo", '"');
    hide ReadableName, Free, CLASS, HASH_CODE, PORT, PATH, TERM, PREFIX, PROTOCOL, HREF;
  }

  /** And one with no other attribute than an address leaves the defaults. */
  lemma BareLinkRoutes(mark: string, path: string)
    requires (mark == "id" || mark == "class") && Free(path, '"')
    ensures RoutingOf(OpenTag(Bare(mark, path)))
            == Routing("80", if "/" <= path then path else "/result.html", ".term1", "", "")
  {
    hide *;
    BareReadable(mark, path);
    AttributesRead(Bare(mark, path));
    BareMap(mark, path);
    BareIs(OpenTag(Bare(mark, path)), MapOf(Bare(mark, path)), path);
  }

  function Bare(mark: string, path: string): seq<Attribute> {
    [Attribute("href", path), Attribute(mark, "exerciseDemo")]
  }

  lemma BareReadable(mark: string, path: string)
    requires (mark == "id" || mark == "class") && Free(path, '"')
    ensures Readable(Bare(mark, path))
  {
    NamesReadable();
    LinkNames();
    assert ReadableName("id") && Free("exerciseDemo", '"');
    hide ReadableName, Free, CLASS, HREF;
  }

  lemma BareMap(mark: string, path: string)
    requires mark == "id" || mark == "class"
    ensures var m := MapOf(Bare(mark, path));
            && ValueOf(m, HREF) == path && ValueOf(m, PORT) == ValueOf(m, TERM) == ""
            && ValueOf(m, PREFIX) == ValueOf(m, PROTOCOL) == ""
  {
    var link := Bare(mark, path);
    NamesApart();
    LinkNames();
    hide MapOf, CLASS, PORT, TERM, PREFIX, PROTOCOL, HREF;
    MapLookup(link, 0);
    MapMissing(link, PORT);
    MapMissing(link, TERM);
    MapMissing(link, PREFIX);
    MapMissing(link, PROTOCOL);
  }

  lemma BareIs(tag: string, m: map<string, string>, path: string)
    requires TagAttributes(tag, 0) == m && ValueOf(m, HREF) == path && ValueOf(m, PORT) == ValueOf(m, TERM) == ""
    requires ValueOf(m, PREFIX) == ValueOf(m, PROTOCOL) == ""
    ensures RoutingOf(tag) == Routing("80", if "/" <= path then path else "/result.html", ".term1", "", "")
  {
    hide TagAttributes, ValueOf, PORT, PATH, TERM, PREFIX, PROTOCOL, HREF;
  }

  /** The i-th exercise goes by the i-th link, and by the defaults where there is none. */
  lemma RoutingsAre(links: seq<string>, count: nat, i: nat)
    requires i < count
    ensures Routings(links, count)[i] ==
            if i < |links| then RoutingOf(links[i]) else Routing("80", "/result.html", ".term1", "", "")
  {
    hide RoutingOf;
  }

  /** A tag is the author's exactly if it carries the mark and is no button. */
  lemma AuthoredIff(tag: string)
    ensures IsAuthored(tag) <==>
            && (exists a, b :: tag == a + "id=\"exerciseDemo\"" + b || tag == a + "class=\"exerciseDemo\"" + b)
            && forall a, b :: tag != a + "data-hash-code=" + b
  {
    hide IsAuthored, Contains;
    HoldsIff(tag, "id=\"exerciseDemo\"");
    HoldsIff(tag, "class=\"exerciseDemo\"");
    HoldsIff(tag, "data-hash-code=");
    AuthoredIs(tag);
  }

  lemma AuthoredIs(tag: string)
    ensures IsAuthored(tag) <==>
            && !Contains(tag, "data-hash-code=")
            && (Contains(tag, "id=\"exerciseDemo\"") || Contains(tag, "class=\"exerciseDemo\""))
  {
    hide Contains;
  }

  lemma HoldsIff(s: string, t: string)
    ensures Contains(s, t) <==> exists a, b :: s == a + t + b
  {
    if Contains(s, t) {
      var i: nat :| i <= |s| && At(s, i, t);
      assert s == s[..i] + t + s[i + |t|..];
    }
    if a, b :| s == a + t + b {
      assert s[|a|..|a| + |t|] == t;
      assert At(s, |a|, t);
    }
  }
}

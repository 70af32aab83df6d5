/** The buttons that submit an exercise, and the authored links that say where they lead. */
module DemoLinks {
  import opened Concatenation
  import opened Options
  import opened Search
  import opened Text
  import opened Html
  import opened Blocks
  import opened Weaving

  datatype Routing = Routing(port: string, path: string, term: string, prefix: string, proto: string)

  const DEFAULT := Routing("80", "/result.html", ".term1", "", "")

  // ---------------------------------------------------------------------------- Buttons

  const CLASS := "class"
  const HASH_CODE := "data-hash-code"
  const PORT := "data-port"
  const PATH := "data-path"
  const TERM := "data-term"
  const PREFIX := "data-host-prefix"
  const PROTOCOL := "data-protocol"
  const HREF := "href"

  function ButtonAttributes(hash: string, r: Routing): seq<Attribute> {
    [Attribute(CLASS, "exercise-demo"), Attribute(HASH_CODE, hash), Attribute(PORT, r.port),
     Attribute(PATH, r.path), Attribute(TERM, r.term)]
    + (if r.prefix != "" then [Attribute(PREFIX, r.prefix)] else [])
    + (if r.proto != "" then [Attribute(PROTOCOL, r.proto)] else [])
    + [Attribute(HREF, "#")]
  }

  function SpelledAll(attributes: seq<Attribute>): string {
    if attributes == [] then "" else Spelled(attributes[0]) + SpelledAll(attributes[1..])
  }

  function Button(hash: string, r: Routing): string {
    Element("a", SpelledAll(ButtonAttributes(hash, r)), "Test Exercise")
  }

  function Buttons(hashes: seq<string>, rs: seq<Routing>): seq<string>
    requires |hashes| == |rs|
  {
    seq(|hashes|, i requires 0 <= i < |hashes| => Button(hashes[i], rs[i]))
  }

  // ---------------------------------------------------------------------------- Authored links

  predicate IsWord(c: char) {
    'a' <= c <= 'z' || 'A' <= c <= 'Z' || '0' <= c <= '9' || c == '_'
  }

  /** The end of the anchor tag that starts at i. */
  function AnchorEnd(s: string, i: nat): (e: Option<nat>)
    requires i <= |s|
    ensures e.Some? ==> i + 3 <= e.value <= |s|
  {
    if !At(s, i, "<a") || (i + 2 < |s| && IsWord(s[i + 2])) then None
    else
      var close := i + 2 + IndexOf(s[i + 2..], '>');
      if close < |s| then Some(close + 1) else None
  }

  function Anchors(s: string, i: nat): seq<string>
    requires i <= |s|
    decreases |s| - i
  {
    if i == |s| then []
    else
      match AnchorEnd(s, i)
      case Some(e) => [s[i..e]] + Anchors(s, e)
      case None => Anchors(s, i + 1)
  }

  /** A link the author marked, and not one of the buttons. */
  predicate IsAuthored(tag: string) {
    && !Contains(tag, "data-hash-code=")
    && (Contains(tag, "id=\"exerciseDemo\"") || Contains(tag, "class=\"exerciseDemo\""))
  }

  function Authored(tags: seq<string>): seq<string> {
    if tags == [] then []
    else if IsAuthored(tags[0]) then [tags[0]] + Authored(tags[1..])
    else Authored(tags[1..])
  }

  predicate IsNameChar(c: char) {
    'a' <= c <= 'z' || 'A' <= c <= 'Z' || c == '-'
  }

  function NameRun(s: string, i: nat): (e: nat)
    requires i <= |s|
    ensures i <= e <= |s| && (e < |s| ==> !IsNameChar(s[e])) && forall k | i <= k < e :: IsNameChar(s[k])
    decreases |s| - i
  {
    if i < |s| && IsNameChar(s[i]) then NameRun(s, i + 1) else i
  }

  predicate Boundary(s: string, i: nat)
    requires i < |s|
  {
    (i > 0 && IsWord(s[i - 1])) != IsWord(s[i])
  }

  /** Where the name of the attribute that starts at i ends, and where its value does. */
  function AttributeAt(s: string, i: nat): (a: Option<(nat, nat)>)
    requires i < |s|
    ensures a.Some? ==> i < a.value.0 && a.value.0 + 2 <= a.value.1 < |s|
  {
    var n := NameRun(s, i);
    if !Boundary(s, i) || n == i || !At(s, n, "=\"") then None
    else
      var v := n + 2 + IndexOf(s[n + 2..], '"');
      if v < |s| then Some((n, v)) else None
  }

  /** The attributes of a tag; of two with one name the later counts. */
  function TagAttributes(s: string, i: nat): map<string, string>
    requires i <= |s|
    decreases |s| - i
  {
    if i == |s| then map[]
    else
      match AttributeAt(s, i)
      case Some((n, v)) => map[s[i..n] := s[n + 2..v]] + TagAttributes(s, v + 1)
      case None => TagAttributes(s, i + 1)
  }

  function ValueOf(m: map<string, string>, name: string): string {
    if name in m then m[name] else ""
  }

  function RoutingFrom(m: map<string, string>): Routing {
    Routing(
      if ValueOf(m, PORT) != "" then ValueOf(m, PORT) else DEFAULT.port,
      if "/" <= ValueOf(m, HREF) then ValueOf(m, HREF) else DEFAULT.path,
      if ValueOf(m, TERM) != "" then ValueOf(m, TERM) else DEFAULT.term,
      ValueOf(m, PREFIX),
      ValueOf(m, PROTOCOL))
  }

  function RoutingOf(tag: string): Routing {
    RoutingFrom(TagAttributes(tag, 0))
  }

  /** The i-th exercise is routed by the i-th authored link, and by the defaults where there is none. */
  function Routings(links: seq<string>, count: nat): (rs: seq<Routing>)
    ensures |rs| == count
  {
    seq(count, i => if 0 <= i < |links| then RoutingOf(links[i]) else DEFAULT)
  }

  // ---------------------------------------------------------------------------- Pairing

  /** The first n buttons rerouted, one replacement each. */
  function Rerouted(html: string, hashes: seq<string>, rs: seq<Routing>, n: nat): string
    requires n <= |hashes| == |rs|
  {
    if n == 0 then html
    else ReplaceFirst(Rerouted(html, hashes, rs, n - 1), Button(hashes[n - 1], DEFAULT),
                      Button(hashes[n - 1], rs[n - 1]))
  }

  function Min(a: nat, b: nat): nat {
    if a < b then a else b
  }

  function Paired(html: string, hashes: seq<string>): string {
    var links := Authored(Anchors(html, 0));
    Rerouted(html, hashes, Routings(links, |hashes|), Min(|links|, |hashes|))
  }

  method PairDemoLinks(html: string, hashes: seq<string>) returns (out: string, routings: seq<Routing>)
    ensures out == Paired(html, hashes)
    ensures routings == Routings(Authored(Anchors(html, 0)), |hashes|)
  {
    hide Button, IsAuthored, RoutingOf, Anchors, ReplaceFirst;
    routings := seq(|hashes|, _ => DEFAULT);
    out := html;
    if |hashes| == 0 {
      return;
    }
    var tags := Anchors(html, 0);
    ghost var links := Authored(tags);
    ghost var goal := Routings(links, |hashes|);
    var i, k := 0, 0;
    while k < |tags|
      invariant 0 <= k <= |tags| && 0 <= i <= |hashes| == |routings|
      invariant i <= |links| && (links[i..] == Authored(tags[k..]) || i == |hashes|)
      invariant routings == Routings(links[..i], |hashes|)
      invariant out == Rerouted(html, hashes, goal, i)
    {
      var tag := tags[k];
      k := k + 1;
      if i >= |hashes| || !IsAuthored(tag) {
        continue;
      }
      var r := RoutingOf(tag);
      out := ReplaceFirst(out, Button(hashes[i], DEFAULT), Button(hashes[i], r));
      routings := routings[i := r];
      i := i + 1;
    }
  }

  // ---------------------------------------------------------------------------- Where a button can be

  /** What only the button of this exercise starts with. */
  function Opening(hash: string): string {
    "<a" + Spelled(Attribute(CLASS, "exercise-demo")) + Spelled(Attribute(HASH_CODE, hash))
  }

  predicate Quotable(r: Routing) {
    Free(r.port, '"') && Free(r.path, '"') && Free(r.term, '"') && Free(r.prefix, '"') && Free(r.proto, '"')
  }

  /** A challenge hash as far as the page minds: no quote and no angle bracket. */
  predicate IsHash(h: string) {
    Free(h, '"') && Free(h, '<') && Free(h, '>')
  }

  const START := "<a" + (" " + CLASS + "=\"" + "exercise-demo" + "\"") + (" " + HASH_CODE + "=\"")

  lemma OpeningIs(h: string)
    ensures Opening(h) == START + h + "\""
  {
    var a := "<a" + (" " + CLASS + "=\"" + "exercise-demo" + "\"");
    var b := " " + HASH_CODE + "=\"";
    assert Opening(h) == a + (b + h + "\"");
    AssociateThree(a, b, h, "\"");
  }

  lemma StartShape()
    ensures |START| > 10 && START[0] == '<' && START[1] == 'a' && (forall i | 1 <= i < |START| :: START[i] != '<')
    ensures Free(START, '>') && (forall i | 0 <= i < 9 :: START[i] != '"') && START[9] == '"' && START[10] == 'e'
  {
  }

  lemma OpeningShape(h: string)
    requires IsHash(h)
    ensures var x := Opening(h);
            && |x| > 10 && x[0] == '<' && x[1] == 'a' && (forall i | 1 <= i < |x| :: x[i] != '<') && Free(x, '>')
            && (forall i | 0 <= i < 9 :: x[i] != '"') && x[9] == '"' && x[10] == 'e'
            && |x| == |START| + |h| + 1
  {
    OpeningIs(h);
    StartShape();
    hide Opening;
    var x := Opening(h);
    assert forall i | 0 <= i < |START| :: x[i] == START[i];
    assert forall i | 0 <= i < |h| :: x[|START| + i] == h[i];
  }

  /** No opening starts inside an attribute's value: after the next quote it would go on otherwise. */
  lemma NotInValue(pre: string, value: string, rest: string, p: nat, h: string)
    requires IsHash(h) && Free(value, '"') && |pre| <= p < |pre| + |value|
    requires rest != "" && rest[0] != 'e'
    ensures !At(pre + value + "\"" + rest, p, Opening(h))
  {
    var s, x := pre + value + "\"" + rest, Opening(h);
    OpeningShape(h);
    hide Opening, IsHash;
    var quote := |pre| + |value|;
    assert s[quote] == '"' && s[quote + 1] == rest[0];
    assert forall i | |pre| <= i < quote :: s[i] == value[i - |pre|];
    if At(s, p, x) {
      if p + 9 < quote {
        LetterAt(s, p, x, 9);
      } else if p + 9 > quote {
        LetterAt(s, p, x, quote - p);
      } else {
        LetterAt(s, p, x, 10);
      }
    }
  }

  predicate PlainAttributes(attributes: seq<Attribute>) {
    forall i | 0 <= i < |attributes| :: Free(attributes[i].name, '<') && Free(attributes[i].value, '"')
  }

  const TAIL := ">Test Exercise</a>"

  lemma TailLacks(h: string)
    requires IsHash(h)
    ensures !Contains(TAIL, Opening(h))
  {
    OpeningShape(h);
    hide Opening, IsHash;
    var s, x := TAIL, Opening(h);
    forall p: nat | p <= |s| ensures !At(s, p, x) {
      Differs(s, p, x, if p < |s| && s[p] == '<' then 1 else 0);
    }
  }

  lemma {:induction false} AttributesLack(attributes: seq<Attribute>, h: string)
    requires IsHash(h) && PlainAttributes(attributes)
    ensures !Contains(SpelledAll(attributes) + TAIL, Opening(h))
  {
    if attributes == [] {
      TailLacks(h);
      assert SpelledAll(attributes) + TAIL == TAIL;
    } else {
      var a, rest := attributes[0], SpelledAll(attributes[1..]) + TAIL;
      AttributesLack(attributes[1..], h);
      assert rest[0] == ' ' || rest[0] == '>';
      AttributeLacks(a, rest, h);
      Associate(Spelled(a), SpelledAll(attributes[1..]), TAIL);
    }
  }

  lemma AttributeLacks(a: Attribute, rest: string, h: string)
    requires IsHash(h) && Free(a.name, '<') && Free(a.value, '"')
    requires rest != "" && rest[0] != 'e' && !Contains(rest, Opening(h))
    ensures !Contains(Spelled(a) + rest, Opening(h))
  {
    OpeningShape(h);
    hide Opening, IsHash;
    var pre := " " + a.name + "=\"";
    var s, x := pre + a.value + "\"" + rest, Opening(h);
    var quote := |pre| + |a.value|;
    assert forall i | 0 <= i < |pre| :: s[i] == pre[i] != '<';
    assert s[quote] == '"' && s[quote + 1..|s|] == rest;
    forall p: nat | p <= |s| ensures !At(s, p, x) {
      if At(s, p, x) {
        LetterAt(s, p, x, 0);
        if |pre| <= p < quote {
          NotInValue(pre, a.value, rest, p, h);
        } else if p > quote {
          AtSlice(s, p, x, quote + 1, |s|);
        }
      }
    }
  }

  lemma NamesPlain()
    ensures Free(CLASS, '<') && Free(HASH_CODE, '<') && Free(PORT, '<') && Free(PATH, '<')
    ensures Free(TERM, '<') && Free(PREFIX, '<') && Free(PROTOCOL, '<') && Free(HREF, '<')
    ensures Free("exercise-demo", '"') && Free("#", '"')
  {
  }

  lemma PlainConcat(a: seq<Attribute>, b: seq<Attribute>)
    ensures PlainAttributes(a) && PlainAttributes(b) ==> PlainAttributes(a + b)
  {
  }

  lemma ButtonPlain(g: string, r: Routing)
    requires IsHash(g) && Quotable(r)
    ensures PlainAttributes(ButtonAttributes(g, r))
  {
    NamesPlain();
    hide Free, CLASS, HASH_CODE, PORT, PATH, TERM, PREFIX, PROTOCOL, HREF;
    var a := [Attribute(CLASS, "exercise-demo"), Attribute(HASH_CODE, g), Attribute(PORT, r.port),
              Attribute(PATH, r.path), Attribute(TERM, r.term)];
    var b := if r.prefix != "" then [Attribute(PREFIX, r.prefix)] else [];
    var c := if r.proto != "" then [Attribute(PROTOCOL, r.proto)] else [];
    PlainConcat(a, b);
    PlainConcat(a + b, c);
    PlainConcat(a + b + c, [Attribute(HREF, "#")]);
  }

  /** A button is its opening and more. */
  lemma ButtonOpens(g: string, r: Routing) returns (rest: string)
    ensures Button(g, r) == "<a" + (SpelledAll(ButtonAttributes(g, r)) + TAIL)
    ensures Button(g, r) == Opening(g) + rest
    ensures rest != "" && rest[|rest| - 1] == '>'
  {
    var attributes := ButtonAttributes(g, r);
    assert attributes[0] == Attribute(CLASS, "exercise-demo") && attributes[1] == Attribute(HASH_CODE, g);
    var later := SpelledAll(attributes[2..]);
    assert attributes[1..][1..] == attributes[2..];
    hide ButtonAttributes, Spelled;
    var one, two := Spelled(attributes[0]), Spelled(attributes[1]);
    assert SpelledAll(attributes) == one + (two + later);
    rest := later + TAIL;
    ButtonShape(g, r);
    assert "<a" + (one + (two + later) + TAIL) == "<a" + one + two + (later + TAIL);
  }

  lemma ButtonShape(g: string, r: Routing)
    ensures Button(g, r) == "<a" + (SpelledAll(ButtonAttributes(g, r)) + TAIL)
  {
    hide SpelledAll, ButtonAttributes;
    var x := SpelledAll(ButtonAttributes(g, r));
    assert TAIL == ">" + "Test Exercise" + "</" + "a" + ">";
    assert "<" + "a" == "<a";
    Tail("<a", x, ">", "Test Exercise", "</", "a");
  }

  lemma Tail(a: string, x: string, b: string, c: string, d: string, e: string)
    ensures a + x + b + c + d + e + b == a + (x + (b + c + d + e + b))
  {
  }

  lemma OpeningsDiffer(h: string, g: string, rest: string)
    requires IsHash(h) && IsHash(g) && h != g
    ensures !At(Opening(g) + rest, 0, Opening(h))
  {
    OpeningIs(h);
    OpeningIs(g);
    hide Opening;
    var s, t, n := START + g + "\"" + rest, START + h + "\"", |START|;
    if |h| < |g| {
      assert s[n + |h|] == g[|h|];
      Differs(s, 0, t, n + |h|);
    } else if |g| < |h| {
      assert t[n + |g|] == h[|g|];
      assert s[n + |g|] == '"';
      Differs(s, 0, t, n + |g|);
    } else {
      var k :| 0 <= k < |h| && h[k] != g[k];
      assert s[n + k] == g[k] && t[n + k] == h[k];
      Differs(s, 0, t, n + k);
    }
  }

  /** No button holds the opening of another. */
  lemma ButtonLacks(h: string, g: string, r: Routing)
    requires IsHash(h) && IsHash(g) && h != g && Quotable(r)
    ensures !Contains(Button(g, r), Opening(h))
  {
    hide IsHash, Quotable, Opening, Button, ButtonAttributes, SpelledAll;
    ButtonPlain(g, r);
    AttributesLack(ButtonAttributes(g, r), h);
    var rest := ButtonOpens(g, r);
    OpeningsDiffer(h, g, rest);
    OpeningShape(h);
    var s, x := Button(g, r), Opening(h);
    assert s[1] == 'a' && s[2..|s|] == SpelledAll(ButtonAttributes(g, r)) + TAIL;
    forall p: nat | p <= |s| ensures !At(s, p, x) {
      if p == 1 {
        Differs(s, p, x, 0);
      } else if p >= 2 && At(s, p, x) {
        AtSlice(s, p, x, 2, |s|);
      }
    }
  }

  // ---------------------------------------------------------------------------- The pairing

  predicate AllHashes(hashes: seq<string>) {
    && (forall i | 0 <= i < |hashes| :: IsHash(hashes[i]))
    && (forall i, j | 0 <= i < j < |hashes| :: hashes[i] != hashes[j])
  }

  predicate AllQuotable(rs: seq<Routing>) {
    forall i | 0 <= i < |rs| :: Quotable(rs[i])
  }

  /** The text between the buttons shows none of them. */
  predicate TextsLack(w: Weave<nat>, x: string) {
    match w
    case End(t) => !Contains(t, x)
    case More(t, _, rest) => !Contains(t, x) && TextsLack(rest, x)
  }

  /** Spelled with buttons, text with no hole for this exercise has no opening of its button. */
  lemma {:induction false} OthersLack(w: Weave<nat>, hashes: seq<string>, rs: seq<Routing>, i: nat)
    requires AllHashes(hashes) && |rs| == |hashes| && AllQuotable(rs) && i < |hashes|
    requires TextsLack(w, Opening(hashes[i])) && Count(Holes(w), i) == 0 && Below(w, |hashes|)
    ensures !Contains(Spell(w, Buttons(hashes, rs)), Opening(hashes[i]))
    decreases w
  {
    if w.More? {
      var j, fills, x := w.hole, Buttons(hashes, rs), Opening(hashes[i]);
      assert Holes(w)[0] == j && Holes(w)[1..] == Holes(w.rest) && j != i;
      BelowRest(w, |hashes|);
      OthersLack(w.rest, hashes, rs, i);
      assert Fill(fills, j) == Button(hashes[j], rs[j]);
      ButtonLacks(hashes[i], hashes[j], rs[j]);
      OpeningShape(hashes[i]);
      var _ := ButtonOpens(hashes[j], rs[j]);
      var button, rest := Button(hashes[j], rs[j]), Spell(w.rest, fills);
      hide Button, Opening, Spell, Contains, Buttons;
      LacksAcross(w.text, button, x);
      LacksAcross(w.text + button, rest, x);
      SpellMore(w.text, j, w.rest, fills);
    }
  }

  /** The text before and after the one hole of a number. */
  lemma {:induction false} HoleOf(w: Weave<nat>, k: nat) returns (a: Weave<nat>, b: Weave<nat>)
    requires Count(Holes(w), k) == 1
    ensures w == Around(a, k, b) && Count(Holes(a), k) == 0 && Count(Holes(b), k) == 0
    ensures forall x :: TextsLack(w, x) ==> TextsLack(a, x)
    decreases w
  {
    assert Holes(w)[0] == w.hole && Holes(w)[1..] == Holes(w.rest);
    if w.hole == k {
      a, b := End(w.text), w.rest;
    } else {
      a, b := HoleOf(w.rest, k);
      a := More(w.text, w.hole, a);
      assert Holes(a)[1..] == Holes(a.rest);
    }
  }

  /** Fills that no hole asks for do not matter. */
  lemma {:induction false} SpellUnasked(w: Weave<nat>, k: nat, fills: seq<string>, other: string)
    requires Count(Holes(w), k) == 0 && k < |fills|
    ensures Spell(w, fills[k := other]) == Spell(w, fills)
    decreases w
  {
    if w.More? {
      assert Holes(w)[0] == w.hole && Holes(w)[1..] == Holes(w.rest);
      SpellUnasked(w.rest, k, fills, other);
    }
  }

  lemma RerouteOne(w: Weave<nat>, hashes: seq<string>, rs: seq<Routing>, i: nat, r: Routing)
    requires AllHashes(hashes) && |rs| == |hashes| && AllQuotable(rs) && i < |hashes|
    requires EachOnce(Holes(w), |hashes|) && TextsLack(w, Opening(hashes[i]))
    ensures ReplaceFirst(Spell(w, Buttons(hashes, rs)), Button(hashes[i], rs[i]), Button(hashes[i], r))
         == Spell(w, Buttons(hashes, rs[i := r]))
  {
    hide AllHashes, AllQuotable, Quotable, IsHash, Button, Opening, TextsLack, Contains, ReplaceFirst, Spell, Around;
    var fills, x := Buttons(hashes, rs), Opening(hashes[i]);
    var a, b := HoleOf(w, i);
    var was, target := Button(hashes[i], rs[i]), Button(hashes[i], r);
    AroundSpells(a, i, b, fills);
    AroundSpells(a, i, b, fills[i := target]);
    SpellUnasked(a, i, fills, target);
    SpellUnasked(b, i, fills, target);
    assert fills[i := target] == Buttons(hashes, rs[i := r]);
    PartsOfBelow(w, a, i, b, |hashes|);
    OthersLack(a, hashes, rs, i);
    HashIs(hashes, i);
    ReplaceButton(Spell(a, fills), hashes[i], rs[i], Spell(b, fills), target);
  }

  lemma HashIs(hashes: seq<string>, i: nat)
    ensures AllHashes(hashes) && i < |hashes| ==> IsHash(hashes[i])
  {
  }

  lemma PartsOfBelow(w: Weave<nat>, a: Weave<nat>, k: nat, b: Weave<nat>, n: nat)
    requires EachOnce(Holes(w), n) && w == Around(a, k, b)
    ensures Below(a, n)
  {
    AroundSpells(a, k, b, []);
    forall i | 0 <= i < |Holes(a)| ensures Holes(a)[i] < n {
      assert Holes(w)[i] == Holes(a)[i];
      CountThere(Holes(w), i);
    }
  }

  /** The first occurrence of a button is where it was put. */
  lemma ReplaceButton(before: string, hash: string, r: Routing, after: string, target: string)
    requires IsHash(hash) && !Contains(before, Opening(hash))
    ensures ReplaceFirst(before + Button(hash, r) + after, Button(hash, r), target) == before + target + after
  {
    hide Button, Opening, IsHash;
    OpeningShape(hash);
    var rest := ButtonOpens(hash, r);
    var t, x := Button(hash, r), Opening(hash);
    var s := before + t + after;
    assert t[..|x|] == x && s[0..|before|] == before && s[|before|] == '<';
    forall p: nat | p < |before| ensures !At(s, p, t) {
      if At(s, p, t) {
        AtPrefix(s, p, t, |x|);
        if p + |x| <= |before| {
          AtSlice(s, p, x, 0, |before|);
        } else {
          Differs(s, p, x, |before| - p);
        }
      }
    }
    ReplaceThere(before, t, after, target);
  }

  // ---------------------------------------------------------------------------- Authored routings

  lemma {:induction false} TagAttributesUnquoted(s: string, i: nat)
    requires i <= |s|
    ensures forall name | name in TagAttributes(s, i) :: Free(TagAttributes(s, i)[name], '"')
    decreases |s| - i
  {
    if i < |s| {
      match AttributeAt(s, i)
      case Some((n, v)) => TagAttributesUnquoted(s, v + 1);
      case None => TagAttributesUnquoted(s, i + 1);
    }
  }

  lemma RoutingsQuotable(links: seq<string>, count: nat)
    ensures AllQuotable(Routings(links, count))
  {
    assert Quotable(DEFAULT);
    forall i | 0 <= i < count ensures Quotable(Routings(links, count)[i]) {
      if i < |links| {
        TagAttributesUnquoted(links[i], 0);
        FromQuotable(TagAttributes(links[i], 0));
      }
    }
  }

  lemma FromQuotable(m: map<string, string>)
    requires forall name | name in m :: Free(m[name], '"')
    ensures Quotable(RoutingFrom(m))
  {
    assert Quotable(DEFAULT);
  }

  /** The first n routings, and defaults for the rest. */
  function Upto(rs: seq<Routing>, n: nat): seq<Routing> {
    seq(|rs|, i requires 0 <= i < |rs| => if i < n then rs[i] else DEFAULT)
  }

  lemma {:induction false} ReroutedSpells(w: Weave<nat>, hashes: seq<string>, rs: seq<Routing>, n: nat)
    requires AllHashes(hashes) && n <= |rs| == |hashes| && AllQuotable(rs)
    requires EachOnce(Holes(w), |hashes|) && forall i | 0 <= i < |hashes| :: TextsLack(w, Opening(hashes[i]))
    ensures Rerouted(Spell(w, Buttons(hashes, Upto(rs, 0))), hashes, rs, n) == Spell(w, Buttons(hashes, Upto(rs, n)))
  {
    hide Button, Opening, Spell, ReplaceFirst, AllHashes, TextsLack, EachOnce, Quotable;
    if n > 0 {
      ReroutedSpells(w, hashes, rs, n - 1);
      assert AllQuotable(Upto(rs, n - 1)) by {
        DefaultQuotable();
      }
      RerouteOne(w, hashes, Upto(rs, n - 1), n - 1, rs[n - 1]);
      assert Upto(rs, n - 1)[n - 1 := rs[n - 1]] == Upto(rs, n);
    }
  }

  lemma DefaultQuotable()
    ensures Quotable(DEFAULT)
  {
  }

  function Defaults(count: nat): (rs: seq<Routing>)
    ensures |rs| == count
  {
    seq(count, _ => DEFAULT)
  }

  /** On a page that shows each exercise's button once, pairing changes the routing of each button and nothing
      else: the i-th exercise's, wherever it stands, to that of the i-th authored link. */
  lemma Pairing(w: Weave<nat>, hashes: seq<string>)
    requires AllHashes(hashes) && EachOnce(Holes(w), |hashes|)
    requires forall i | 0 <= i < |hashes| :: TextsLack(w, Opening(hashes[i]))
    ensures var html := Spell(w, Buttons(hashes, Defaults(|hashes|)));
            Paired(html, hashes) == Spell(w, Buttons(hashes, Routings(Authored(Anchors(html, 0)), |hashes|)))
  {
    hide Button, Opening, Spell, ReplaceFirst, AllHashes, TextsLack, EachOnce, Quotable, Anchors, RoutingOf, Authored,
         AllQuotable;
    var html := Spell(w, Buttons(hashes, Defaults(|hashes|)));
    var links := Authored(Anchors(html, 0));
    var rs := Routings(links, |hashes|);
    var n := Min(|links|, |hashes|);
    RoutingsQuotable(links, |hashes|);
    assert Upto(rs, 0) == Defaults(|hashes|);
    assert Upto(rs, n) == rs;
    ReroutedSpells(w, hashes, rs, n);
  }

  // ---------------------------------------------------------------------------- Reading attributes back

  function OpenTag(attributes: seq<Attribute>): string {
    "<a" + SpelledAll(attributes) + ">"
  }

  function MapOf(attributes: seq<Attribute>): map<string, string> {
    if attributes == [] then map[]
    else map[attributes[0].name := attributes[0].value] + MapOf(attributes[1..])
  }

  predicate Readable(attributes: seq<Attribute>) {
    forall i | 0 <= i < |attributes| :: ReadableOne(attributes[i])
  }

  predicate ReadableOne(a: Attribute) {
    && a.name != "" && IsWord(a.name[0]) && (forall k | 0 <= k < |a.name| :: IsNameChar(a.name[k]))
    && Free(a.value, '"')
  }

  lemma {:induction false} NameRunIs(s: string, i: nat, e: nat)
    requires i <= e < |s| && !IsNameChar(s[e]) && forall k | i <= k < e :: IsNameChar(s[k])
    ensures NameRun(s, i) == e
    decreases e - i
  {
    if i < e {
      NameRunIs(s, i + 1, e);
    }
  }

  lemma IndexOfIs(s: string, c: char, n: nat)
    requires n < |s| && s[n] == c && forall k | 0 <= k < n :: s[k] != c
    ensures IndexOf(s, c) == n
  {
  }

  /** An attribute of this name and value is spelled at i. */
  predicate Lies(s: string, i: nat, a: Attribute) {
    var n := i + 1 + |a.name|; var v := n + 2 + |a.value|;
    && v < |s| && s[i] == ' ' && s[n] == '=' && s[n + 1] == '"' && s[v] == '"'
    && s[i + 1..n] == a.name && s[n + 2..v] == a.value
  }

  lemma SpelledLies(pre: string, a: Attribute, rest: string)
    ensures Lies(pre + Spelled(a) + rest, |pre|, a) && |Spelled(a)| == |a.name| + |a.value| + 4
  {
    Laid5(pre, " ", a.name, "=\"", a.value, "\"", rest);
  }

  lemma NextQuote(s: string, i: nat, e: nat)
    requires i <= e < |s| && s[e] == '"' && Free(s[i..e], '"')
    ensures IndexOf(s[i..], '"') == e - i
  {
    assert forall k | 0 <= k < e - i :: s[i..][k] == s[i..e][k];
    IndexOfIs(s[i..], '"', e - i);
  }

  lemma NameLies(s: string, i: nat, a: Attribute)
    requires ReadableOne(a) && Lies(s, i, a)
    ensures var n := i + 1 + |a.name|;
            NameRun(s, i) == i && NameRun(s, i + 1) == n && Boundary(s, i + 1) && At(s, n, "=\"")
  {
    var n := i + 1 + |a.name|;
    assert forall k | i + 1 <= k < n :: s[k] == s[i + 1..n][k - i - 1];
    assert s[i + 1] == a.name[0];
    NameRunIs(s, i, i);
    NameRunIs(s, i + 1, n);
    assert s[n..n + 2] == "=\"";
  }

  lemma ReadAt(s: string, i: nat, a: Attribute)
    requires ReadableOne(a) && Lies(s, i, a)
    ensures AttributeAt(s, i) == None && AttributeAt(s, i + 1) == Some((i + 1 + |a.name|, i + 3 + |a.name| + |a.value|))
  {
    hide NameRun, IndexOf, Boundary, At;
    NameLies(s, i, a);
    NextQuote(s, i + |a.name| + 3, i + |a.name| + 3 + |a.value|);
  }

  lemma ReadStep(s: string, i: nat, a: Attribute)
    requires ReadableOne(a) && Lies(s, i, a)
    ensures TagAttributes(s, i) == map[a.name := a.value] + TagAttributes(s, i + |a.name| + |a.value| + 4)
  {
    hide TagAttributes, AttributeAt, ReadableOne;
    ReadAt(s, i, a);
    PassOne(s, i);
    TakeOne(s, i + 1, i + 1 + |a.name|, i + 3 + |a.name| + |a.value|);
  }

  lemma PassOne(s: string, i: nat)
    ensures i < |s| && AttributeAt(s, i).None? ==> TagAttributes(s, i) == TagAttributes(s, i + 1)
  {
  }

  lemma TakeOne(s: string, i: nat, n: nat, v: nat)
    requires i < |s| && AttributeAt(s, i) == Some((n, v))
    ensures i < n && n + 2 <= v < |s| && TagAttributes(s, i) == map[s[i..n] := s[n + 2..v]] + TagAttributes(s, v + 1)
  {
    hide AttributeAt;
  }

  /** Where seven strings lie in their concatenation. */
  lemma Laid5(pre: string, b: string, name: string, e: string, value: string, q: string, rest: string)
    requires |b| == 1 && |e| == 2 && |q| == 1
    ensures var s, i := pre + (b + name + e + value + q) + rest, |pre|;
            var n := i + 1 + |name|; var v := n + 2 + |value|;
            && v < |s| && s[i] == b[0] && s[n] == e[0] && s[n + 1] == e[1] && s[v] == q[0]
            && s[i + 1..n] == name && s[n + 2..v] == value
  {
    assert pre + (b + name + e + value + q) + rest == pre + b + name + e + value + q + rest;
  }

  lemma {:induction false} ReadFrom(pre: string, attributes: seq<Attribute>)
    requires Readable(attributes)
    ensures TagAttributes(pre + SpelledAll(attributes) + ">", |pre|) == MapOf(attributes)
    decreases |attributes|
  {
    hide ReadableOne, Spelled, AttributeAt, TagAttributes, Lies;
    var s := pre + SpelledAll(attributes) + ">";
    if attributes == [] {
      assert s == pre + ">";
      ReadEnd(pre);
    } else {
      var a, rest := attributes[0], SpelledAll(attributes[1..]) + ">";
      assert s == pre + Spelled(a) + rest && s == pre + Spelled(a) + SpelledAll(attributes[1..]) + ">";
      SpelledLies(pre, a, rest);
      ReadStep(s, |pre|, a);
      ReadFrom(pre + Spelled(a), attributes[1..]);
    }
  }

  lemma ReadEnd(pre: string)
    ensures TagAttributes(pre + ">", |pre|) == map[]
  {
    NameRunIs(pre + ">", |pre|, |pre|);
    assert TagAttributes(pre + ">", |pre| + 1) == map[];
  }

  /** A tag spelled from attributes reads back as them. */
  lemma AttributesRead(attributes: seq<Attribute>)
    requires Readable(attributes)
    ensures TagAttributes(OpenTag(attributes), 0) == MapOf(attributes)
  {
    var s := OpenTag(attributes);
    ReadFrom("<a", attributes);
    var rest := SpelledAll(attributes) + ">";
    assert s == "<a" + rest;
    assert rest[0] == ' ' || rest[0] == '>';
    hide SpelledAll;
    NameRunIs(s, 0, 0);
    NameRunIs(s, 1, 2);
    Differs(s, 2, "=\"", 0);
    assert TagAttributes(s, 0) == TagAttributes(s, 1) == TagAttributes(s, 2);
  }

  /** What a page reads off a tag: the value of the only attribute of a name, or nothing. */
  lemma {:induction false} MapLookup(attributes: seq<Attribute>, i: nat)
    requires i < |attributes| && forall j | i < j < |attributes| :: attributes[j].name != attributes[i].name
    ensures attributes[i].name in MapOf(attributes) && MapOf(attributes)[attributes[i].name] == attributes[i].value
  {
    if i == 0 {
      MapMissing(attributes[1..], attributes[0].name);
    } else {
      MapLookup(attributes[1..], i - 1);
    }
  }

  lemma {:induction false} MapMissing(attributes: seq<Attribute>, name: string)
    requires forall j | 0 <= j < |attributes| :: attributes[j].name != name
    ensures name !in MapOf(attributes)
  {
    if attributes != [] {
      MapMissing(attributes[1..], name);
    }
  }

  predicate ReadableName(n: string) {
    n != "" && IsWord(n[0]) && forall k | 0 <= k < |n| :: IsNameChar(n[k])
  }

  lemma NamesApart()
    ensures |CLASS| == 5 && |HASH_CODE| == 14 && |PREFIX| == 16 && |PROTOCOL| == 13 && |HREF| == 4
    ensures |PORT| == |PATH| == |TERM| == 9 && PORT != PATH && PORT != TERM && PATH != TERM
  {
    assert PORT[6] == 'o' && PATH[6] == 'a' && TERM[6] == 'e';
  }

  lemma NamesReadable()
    ensures ReadableName(CLASS) && ReadableName(HREF) && ReadableName(PORT) && ReadableName(PATH) && ReadableName(TERM)
    ensures Free("exercise-demo", '"') && Free("#", '"')
  {
  }

  lemma LongNamesReadable()
    ensures ReadableName(HASH_CODE) && ReadableName(PREFIX) && ReadableName(PROTOCOL)
  {
  }

  lemma ReadableConcat(a: seq<Attribute>, b: seq<Attribute>)
    ensures Readable(a) && Readable(b) ==> Readable(a + b)
  {
  }

  lemma ButtonReadable(hash: string, r: Routing)
    requires IsHash(hash) && Quotable(r)
    ensures Readable(ButtonAttributes(hash, r))
  {
    hide CLASS, HASH_CODE, PORT, PATH, TERM, PREFIX, PROTOCOL, HREF;
    NamesReadable();
    LongNamesReadable();
    hide Free;
    var a := [Attribute(CLASS, "exercise-demo"), Attribute(HASH_CODE, hash), Attribute(PORT, r.port),
              Attribute(PATH, r.path), Attribute(TERM, r.term)];
    var b := if r.prefix != "" then [Attribute(PREFIX, r.prefix)] else [];
    var c := if r.proto != "" then [Attribute(PROTOCOL, r.proto)] else [];
    ReadableConcat(a, b);
    ReadableConcat(a + b, c);
    ReadableConcat(a + b + c, [Attribute(HREF, "#")]);
  }

  /** A button's tag reads back as the hash and the routing it was made for. */
  lemma ButtonReads(hash: string, r: Routing)
    requires IsHash(hash) && Quotable(r)
    ensures var m := TagAttributes(OpenTag(ButtonAttributes(hash, r)), 0);
            && ValueOf(m, HASH_CODE) == hash && ValueOf(m, PORT) == r.port
            && ValueOf(m, PATH) == r.path && ValueOf(m, TERM) == r.term
            && ValueOf(m, PREFIX) == r.prefix && ValueOf(m, PROTOCOL) == r.proto
  {
    hide TagAttributes, Readable, MapOf, SpelledAll, CLASS, HASH_CODE, PORT, PATH, TERM, PREFIX, PROTOCOL, HREF,
         OpenTag, Quotable, IsHash;
    var attributes := ButtonAttributes(hash, r);
    ButtonReadable(hash, r);
    AttributesRead(attributes);
    NamesApart();
    MapLookup(attributes, 1);
    MapLookup(attributes, 2);
    MapLookup(attributes, 3);
    MapLookup(attributes, 4);
    if r.prefix != "" {
      MapLookup(attributes, 5);
    } else {
      MapMissing(attributes, PREFIX);
    }
    if r.proto != "" {
      MapLookup(attributes, if r.prefix != "" then 6 else 5);
    } else {
      MapMissing(attributes, PROTOCOL);
    }
  }
}

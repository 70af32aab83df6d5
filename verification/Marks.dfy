/** The button of an exercise that the server verifies: the flag after its hash, where the code puts it, and how
    the button's tag reads back with it. The place is found by the attribute that carries the hash. It has
    quotes, so it is found nowhere but in a tag; and its hash has neither blanks nor brackets, so it is found
    at no other attribute. */
module Marks {
  import opened Concatenation
  import opened Decimal
  import opened Text
  import opened Html
  import opened Blocks
  import opened Weaving
  import opened Placeholders
  import opened DemoLinks
  import opened Lesson
  import opened Agreement

  // ---------------------------------------------------------------------------- The marked button

  const VERIFY := "data-verify"
  const FLAG := " data-verify=\"1\""

  /** The attributes of an exercise's button, with the flag after the hash if the server verifies. */
  function ShownAttributes(hash: string, r: Routing, verified: bool): seq<Attribute> {
    var all := ButtonAttributes(hash, r);
    if verified then all[..2] + [Attribute(VERIFY, "1")] + all[2..] else all
  }

  function ShownButton(hash: string, r: Routing, verified: bool): string {
    Element("a", SpelledAll(ShownAttributes(hash, r, verified)), "Test Exercise")
  }

  const PRE := "<a" + Spelled(Attribute(CLASS, "exercise-demo")) + " "

  function ButtonRest(hash: string, r: Routing): string {
    SpelledAll(ButtonAttributes(hash, r)[2..]) + TAIL
  }

  lemma {:induction false} SpelledConcat(a: seq<Attribute>, b: seq<Attribute>)
    ensures SpelledAll(a + b) == SpelledAll(a) + SpelledAll(b)
  {
    if a == [] {
      assert a + b == b;
    } else {
      SpelledConcat(a[1..], b);
      assert (a + b)[1..] == a[1..] + b;
      Associate(Spelled(a[0]), SpelledAll(a[1..]), SpelledAll(b));
    }
  }

  lemma SpelledOne(a: Attribute)
    ensures SpelledAll([a]) == Spelled(a)
  {
    assert [a][1..] == [];
  }

  lemma AnchorShape(attributes: seq<Attribute>)
    ensures Element("a", SpelledAll(attributes), "Test Exercise") == "<a" + (SpelledAll(attributes) + TAIL)
  {
    hide SpelledAll;
    var x := SpelledAll(attributes);
    assert TAIL == ">" + "Test Exercise" + "</" + "a" + ">";
    assert "<" + "a" == "<a";
    Tail("<a", x, ">", "Test Exercise", "</", "a");
  }

  lemma FlagIs()
    ensures Spelled(Attribute(VERIFY, "1")) == FLAG
  {
  }

  lemma HashSpelled(hash: string)
    ensures Spelled(Attribute(HASH_CODE, hash)) == " " + HashMark(hash)
  {
    assert HASH_CODE + "=\"" == "data-hash-code=\"";
    Three(" ", HASH_CODE, "=\"", hash);
  }

  lemma Three(a: string, b: string, c: string, d: string)
    ensures a + b + c + d + "\"" == a + (b + c + d + "\"")
  {
  }

  lemma FirstTwo(hash: string, r: Routing)
    ensures |ButtonAttributes(hash, r)| >= 2
    ensures ButtonAttributes(hash, r)[..2] == [Attribute(CLASS, "exercise-demo")] + [Attribute(HASH_CODE, hash)]
  {
  }

  /** A button is the mark of its hash between what comes before and after it; the flag goes between. */
  lemma ButtonParts(hash: string, r: Routing)
    ensures ShownButton(hash, r, false) == PRE + HashMark(hash) + ButtonRest(hash, r)
    ensures ShownButton(hash, r, true) == PRE + (HashMark(hash) + FLAG) + ButtonRest(hash, r)
    ensures ShownButton(hash, r, false) == Button(hash, r)
  {
    FlagIs();
    HashSpelled(hash);
    FirstTwo(hash, r);
    var all := ButtonAttributes(hash, r);
    var one, two, flag, rest := Attribute(CLASS, "exercise-demo"), Attribute(HASH_CODE, hash),
      Attribute(VERIFY, "1"), all[2..];
    assert all == [one] + [two] + rest;
    AnchorShape(all);
    AnchorShape(ShownAttributes(hash, r, true));
    hide ButtonAttributes, SpelledAll, Spelled, HashMark, FLAG, TAIL;
    SpelledConcat([one] + [two], rest);
    SpelledConcat([one], [two]);
    SpelledConcat([one] + [two] + [flag], rest);
    SpelledConcat([one] + [two], [flag]);
    SpelledOne(one);
    SpelledOne(two);
    SpelledOne(flag);
    Gather(Spelled(one), HashMark(hash), "", SpelledAll(rest), TAIL);
    Gather(Spelled(one), HashMark(hash), FLAG, SpelledAll(rest), TAIL);
  }

  lemma Gather(one: string, mark: string, flag: string, rest: string, tail: string)
    ensures "<a" + (one + (" " + mark) + flag + rest + tail) == "<a" + one + " " + (mark + flag) + (rest + tail)
    ensures flag == "" ==> "<a" + (one + (" " + mark) + rest + tail) == "<a" + one + " " + mark + (rest + tail)
  {
  }

  // ---------------------------------------------------------------------------- Where a mark can be

  lemma MarkShape(h: string)
    requires IsDigest(h)
    ensures var m := HashMark(h);
            && |m| == 81 && m[0] == 'd' && m[1] == 'a' && m[..14] == HASH_CODE && m[15] == '"' && m[80] == '"'
            && (forall k | 0 <= k < 15 :: m[k] != '"' && m[k] != '<' && m[k] != '>' && m[k] != '\n')
            && (forall k | 0 <= k < 64 :: m[16 + k] == h[k])
    ensures Free(HashMark(h), '<') && Free(HashMark(h), '>') && OneLine(HashMark(h))
  {
    var a := "data-hash-code=\"";
    assert |a| == 16 && a[..14] == HASH_CODE;
    assert HashMark(h)[..14] == a[..14];
  }

  predicate EndsIn(s: string, t: string) {
    |t| <= |s| && s[|s| - |t|..] == t
  }

  /** An attribute that is not the mark: it is of another name, or has another value. */
  predicate NoMark(a: Attribute, h: string) {
    Free(a.name, '"') && Free(a.value, '"') && (EndsIn(a.name, HASH_CODE) ==> a.value != h)
  }

  /** The first quote of a mark comes fifteen characters after its start. */
  lemma FirstQuote(s: string, p: nat, h: string, q: nat)
    requires IsDigest(h) && p <= q < |s| && s[q] == '"' && (forall k | p <= k < q :: s[k] != '"')
    requires At(s, p, HashMark(h))
    ensures q == p + 15
  {
    var m := HashMark(h);
    MarkShape(h);
    hide IsDigest, HashMark;
    if q - p < 15 {
      LetterAt(s, p, m, q - p);
    } else {
      LetterAt(s, p, m, 15);
    }
  }

  /** No mark starts in a value. */
  lemma MarkNotInValue(pre: string, value: string, rest: string, p: nat, h: string)
    requires IsDigest(h) && Free(value, '"') && |pre| <= p <= |pre| + |value|
    requires rest != "" && (rest[0] == ' ' || rest[0] == '>')
    ensures !At(pre + value + "\"" + rest, p, HashMark(h))
  {
    var s := pre + value + "\"" + rest;
    var quote := |pre| + |value|;
    assert s[quote] == '"' && s[quote + 1] == rest[0];
    assert forall k | |pre| <= k < quote :: s[k] == value[k - |pre|];
    if At(s, p, HashMark(h)) {
      FirstQuote(s, p, h, quote);
      MarkShape(h);
      assert h[0] != ' ' && h[0] != '>';
      hide HashMark;
      LetterAt(s, p, HashMark(h), 16);
    }
  }

  /** A mark that starts in a name is that attribute. */
  lemma MarkInName(a: Attribute, rest: string, p: nat, h: string)
    requires IsDigest(h) && NoMark(a, h) && p < |a.name| + 3
    ensures !At(Spelled(a) + rest, p, HashMark(h))
  {
    var s, m, n := Spelled(a) + rest, HashMark(h), |a.name|;
    var q := n + 2;
    NameLetters(a, rest);
    assert s[q] == '"' && forall k | 0 <= k < q :: s[k] != '"';
    if At(s, p, m) {
      FirstQuote(s, p, h, q);
      MarkShape(h);
      hide IsDigest, HashMark, Spelled;
      LetterAt(s, p, m, 0);
      assert p >= 1;
      assert a.name[p - 1..] == HASH_CODE by {
        forall k | 0 <= k < 14 ensures a.name[p - 1 + k] == m[..14][k] {
          LetterAt(s, p, m, k);
        }
      }
      assert p == n - 13 && s[n + 3 + |a.value|] == '"';
      OtherValue(s, a.value, h, p);
    }
  }

  lemma NameLetters(a: Attribute, rest: string)
    requires Free(a.name, '"')
    ensures var s, n := Spelled(a) + rest, |a.name|;
            && |s| == n + |a.value| + 4 + |rest| && s[0] == ' ' && s[n + 1] == '=' && s[n + 2] == '"'
            && (forall k | 0 <= k < n :: s[k + 1] == a.name[k])
            && (forall k | 0 <= k < |a.value| :: s[n + 3 + k] == a.value[k])
            && s[n + 3 + |a.value|] == '"'
            && (forall k | 0 <= k < n + 2 :: s[k] != '"')
  {
  }

  /** No mark has another value. */
  lemma OtherValue(s: string, value: string, h: string, p: nat)
    requires |h| == 64 && Free(h, '"') && Free(value, '"') && value != h
    requires p + 16 + |value| < |s| && s[p + 16 + |value|] == '"'
    requires forall k | 0 <= k < |value| :: s[p + 16 + k] == value[k]
    ensures !At(s, p, HashMark(h))
  {
    var m := HashMark(h);
    assert |m| == 81 && m[80] == '"' && forall k | 0 <= k < 64 :: m[16 + k] == h[k];
    hide HashMark;
    if |value| < 64 {
      assert m[16 + |value|] == h[|value|];
      Differs(s, p, m, 16 + |value|);
    } else if |value| > 64 {
      assert s[p + 16 + 64] == value[64];
      Differs(s, p, m, 80);
    } else {
      var k :| 0 <= k < 64 && value[k] != h[k];
      assert s[p + 16 + k] == value[k] && m[16 + k] == h[k];
      Differs(s, p, m, 16 + k);
    }
  }

  /** An attribute that is not the mark, and what follows it. */
  lemma AttributeLacksMark(a: Attribute, rest: string, h: string)
    requires IsDigest(h) && NoMark(a, h) && !Contains(rest, HashMark(h))
    requires rest != "" && (rest[0] == ' ' || rest[0] == '>')
    ensures !Contains(Spelled(a) + rest, HashMark(h))
  {
    var s, m, pre := Spelled(a) + rest, HashMark(h), " " + a.name + "=\"";
    assert s == pre + a.value + "\"" + rest && |pre| == |a.name| + 3;
    var from := |pre| + |a.value| + 1;
    assert s[from..|s|] == rest;
    assert Free(a.value, '"');
    hide Spelled, HashMark, IsDigest, NoMark;
    forall p: nat | p <= |s| ensures !At(s, p, m) {
      if p < |pre| {
        MarkInName(a, rest, p, h);
      } else if p < from {
        MarkNotInValue(pre, a.value, rest, p, h);
      } else if At(s, p, m) {
        AtSlice(s, p, m, from, |s|);
      }
    }
  }

  predicate NoMarks(attributes: seq<Attribute>, h: string) {
    forall i | 0 <= i < |attributes| :: NoMark(attributes[i], h)
  }

  lemma {:induction false} AttributesLackMark(attributes: seq<Attribute>, rest: string, h: string)
    requires IsDigest(h) && NoMarks(attributes, h) && !Contains(rest, HashMark(h))
    requires rest != "" && rest[0] == '>'
    ensures !Contains(SpelledAll(attributes) + rest, HashMark(h))
  {
    hide HashMark, IsDigest, NoMark, Contains, Spelled;
    if attributes == [] {
      assert SpelledAll(attributes) + rest == rest;
    } else {
      var a, more := attributes[0], SpelledAll(attributes[1..]) + rest;
      AttributesLackMark(attributes[1..], rest, h);
      SpelledStarts(attributes[1..], rest);
      AttributeLacksMark(a, more, h);
      Associate(Spelled(a), SpelledAll(attributes[1..]), rest);
    }
  }

  lemma SpelledStarts(attributes: seq<Attribute>, rest: string)
    requires rest != "" && rest[0] == '>'
    ensures var s := SpelledAll(attributes) + rest; s != "" && (s[0] == ' ' || s[0] == '>')
  {
  }

  /** A tag's name in front of attributes does not make a mark. */
  lemma NameBefore(front: string, s: string, h: string)
    requires IsDigest(h) && !Contains(s, HashMark(h)) && NoStart(front)
    requires s != "" && (s[0] == ' ' || s[0] == '>')
    ensures !Contains(front + s, HashMark(h))
  {
    MarkShape(h);
    var all, m := front + s, HashMark(h);
    hide HashMark, IsDigest;
    assert all[|front|..|all|] == s;
    forall p: nat | p <= |all| ensures !At(all, p, m) {
      if p >= |front| {
        if At(all, p, m) {
          AtSlice(all, p, m, |front|, |all|);
        }
      } else if all[p] == 'd' {
        Differs(all, p, m, 1);
      } else {
        Differs(all, p, m, 0);
      }
    }
  }

  /** Nothing here starts like a mark. */
  predicate NoStart(s: string) {
    forall k | 0 <= k < |s| && s[k] == 'd' :: k + 1 < |s| ==> s[k + 1] != 'a'
  }

  lemma NoLetters(s: string, h: string)
    requires IsDigest(h) && NoStart(s)
    ensures !Contains(s, HashMark(h))
  {
    MarkShape(h);
    hide HashMark, IsDigest;
    forall p: nat | p <= |s| ensures !At(s, p, HashMark(h)) {
      Differs(s, p, HashMark(h), if p < |s| && s[p] == 'd' then 1 else 0);
    }
  }

  /** Where a tag ends or the next begins, no mark lies across. */
  lemma LacksBeside(a: string, b: string, t: string)
    requires !Contains(a, t) && !Contains(b, t) && Free(t, '<') && Free(t, '>') && t != ""
    requires a == "" || b == "" || a[|a| - 1] == '>' || b[0] == '<'
    ensures !Contains(a + b, t)
  {
    var s := a + b;
    assert s[0..|a|] == a && s[|a|..|s|] == b;
    forall p: nat | p <= |s| ensures !At(s, p, t) {
      if At(s, p, t) {
        if p + |t| <= |a| {
          AtSlice(s, p, t, 0, |a|);
        } else if p >= |a| {
          AtSlice(s, p, t, |a|, |s|);
        } else if b[0] == '<' {
          LetterAt(s, p, t, |a| - p);
        } else {
          LetterAt(s, p, t, |a| - 1 - p);
        }
      }
    }
  }

  lemma ElementLacksMark(name: string, attributes: seq<Attribute>, inner: string, h: string)
    requires IsDigest(h) && NoMarks(attributes, h) && NoStart("<" + name) && NoStart("</" + name + ">")
    requires !Contains(inner, HashMark(h))
    ensures !Contains(OpenOf(name, attributes), HashMark(h))
    ensures !Contains(Element(name, SpelledAll(attributes), inner), HashMark(h))
  {
    var open, close, m := OpenOf(name, attributes), "</" + name + ">", HashMark(h);
    MarkShape(h);
    NoLetters(">", h);
    NoLetters(close, h);
    AttributesLackMark(attributes, ">", h);
    SpelledStarts(attributes, ">");
    NameBefore("<" + name, SpelledAll(attributes) + ">", h);
    Associate("<" + name, SpelledAll(attributes), ">");
    hide HashMark, IsDigest, Contains, NoMarks, SpelledAll;
    LacksBeside(open, inner, m);
    LacksBeside(open + inner, close, m);
    AssociateThree(open + inner, "</", name, ">");
  }

  function OpenOf(name: string, attributes: seq<Attribute>): string {
    "<" + name + SpelledAll(attributes) + ">"
  }

  // ---------------------------------------------------------------------------- Marking the buttons

  lemma NamesMark()
    ensures Free(CLASS, '"') && Free(HASH_CODE, '"') && Free(PORT, '"') && Free(PATH, '"') && Free(TERM, '"')
    ensures Free(PREFIX, '"') && Free(PROTOCOL, '"') && Free(HREF, '"') && Free(VERIFY, '"')
    ensures Free("exercise-demo", '"') && Free("#", '"') && Free("1", '"')
    ensures |HASH_CODE| == 14 && |CLASS| < 14 && |PORT| < 14 && |PATH| < 14 && |TERM| < 14 && |PROTOCOL| < 14
            && |HREF| < 14
    ensures |VERIFY| < 14 && !EndsIn(PREFIX, HASH_CODE)
  {
    assert |PREFIX| == 16 && PREFIX[2..][0] == 't';
  }

  lemma NoMarksConcat(a: seq<Attribute>, b: seq<Attribute>, h: string)
    ensures NoMarks(a, h) && NoMarks(b, h) ==> NoMarks(a + b, h)
  {
  }

  lemma ButtonNoMarks(g: string, r: Routing, verified: bool, h: string)
    requires IsHash(g) && Quotable(r) && g != h
    ensures NoMarks(ShownAttributes(g, r, verified), h)
  {
    NamesMark();
    hide Free, CLASS, HASH_CODE, PORT, PATH, TERM, PREFIX, PROTOCOL, HREF, VERIFY;
    var a, f := [Attribute(CLASS, "exercise-demo"), Attribute(HASH_CODE, g)], [Attribute(VERIFY, "1")];
    var b := [Attribute(PORT, r.port), Attribute(PATH, r.path), Attribute(TERM, r.term)];
    var c := if r.prefix != "" then [Attribute(PREFIX, r.prefix)] else [];
    var d := if r.proto != "" then [Attribute(PROTOCOL, r.proto)] else [];
    var e := [Attribute(HREF, "#")];
    assert ButtonAttributes(g, r) == a + b + c + d + e;
    assert NoMarks(a, h) && NoMarks(f, h) && NoMarks(b, h) && NoMarks(c, h) && NoMarks(d, h) && NoMarks(e, h);
    hide NoMarks, EndsIn, ButtonAttributes;
    NoMarksConcat(a, b, h);
    NoMarksConcat(a + b, c, h);
    NoMarksConcat(a + b + c, d, h);
    NoMarksConcat(a + b + c + d, e, h);
    SliceNoMarks(a + b + c + d + e, 2, h);
    NoMarksConcat((a + b + c + d + e)[..2], f, h);
    NoMarksConcat((a + b + c + d + e)[..2] + f, (a + b + c + d + e)[2..], h);
  }

  lemma SliceNoMarks(a: seq<Attribute>, n: nat, h: string)
    requires NoMarks(a, h) && n <= |a|
    ensures NoMarks(a[..n], h) && NoMarks(a[n..], h)
  {
    hide NoMark;
  }

  lemma AnchorPlain()
    ensures NoStart("<" + "a") && NoStart("</" + "a" + ">") && NoStart("Test Exercise")
    ensures NoStart("<" + "div") && NoStart("</" + "div" + ">")
  {
  }

  /** A button carries no other hash's mark. */
  lemma ShownLacks(g: string, r: Routing, verified: bool, h: string)
    requires IsDigest(g) && IsDigest(h) && g != h && Quotable(r)
    ensures !Contains(ShownButton(g, r, verified), HashMark(h)) && IsElement(ShownButton(g, r, verified))
  {
    DigestPlain(g);
    ButtonNoMarks(g, r, verified, h);
    AnchorPlain();
    hide IsDigest, HashMark, Contains, NoMarks, ShownAttributes, NoStart, SpelledAll;
    NoLetters("Test Exercise", h);
    ElementLacksMark("a", ShownAttributes(g, r, verified), "Test Exercise", h);
  }

  /** The buttons, the first n of them marked. */
  function Shown(hashes: seq<string>, rs: seq<Routing>, n: nat): (buttons: seq<string>)
    requires |hashes| == |rs|
    ensures |buttons| == |hashes|
  {
    seq(|hashes|, i requires 0 <= i < |hashes| => ShownButton(hashes[i], rs[i], i < n))
  }

  /** Filled with elements, of which only the i-th holds t, text with no hole for that one holds none. */
  lemma {:induction false} FillsLack(w: Weave<nat>, fills: seq<string>, i: nat, t: string)
    requires TextsLack(w, t) && Count(Holes(w), i) == 0 && Below(w, |fills|)
    requires forall j | 0 <= j < |fills| && j != i :: IsElement(fills[j]) && !Contains(fills[j], t)
    requires Free(t, '<') && Free(t, '>') && t != ""
    ensures !Contains(Spell(w, fills), t)
    decreases w
  {
    if w.More? {
      var j := w.hole;
      assert Holes(w)[0] == j && Holes(w)[1..] == Holes(w.rest) && j != i;
      BelowRest(w, |fills|);
      FillsLack(w.rest, fills, i, t);
      var fill, rest := fills[j], Spell(w.rest, fills);
      hide Spell, Contains;
      SpellMore(w.text, j, w.rest, fills);
      LacksBeside(w.text, fill, t);
      LacksBeside(w.text + fill, rest, t);
    }
  }

  lemma PreShape()
    ensures |PRE| > 2 && PRE[0] == '<' && PRE[|PRE| - 1] == ' ' && NoStart(PRE)
  {
  }

  /** The first occurrence of an exercise's mark is on its button. */
  lemma ReplaceMark(before: string, hash: string, rest: string, fill: string)
    requires IsDigest(hash) && !Contains(before, HashMark(hash))
    ensures ReplaceFirst(before + (PRE + HashMark(hash) + rest), HashMark(hash), fill) == before + (PRE + fill + rest)
  {
    MarkShape(hash);
    PreShape();
    var m, head := HashMark(hash), before + PRE;
    var s := head + m + rest;
    hide HashMark, IsDigest, PRE;
    assert before + (PRE + m + rest) == s && before + (PRE + fill + rest) == head + fill + rest;
    assert s[0..|before|] == before && forall k | 0 <= k < |PRE| :: s[|before| + k] == PRE[k];
    forall p: nat | p < |head| ensures !At(s, p, m) {
      NotEarlier(s, before, PRE, p, m);
    }
    ReplaceThere(head, m, rest, fill);
  }

  lemma NotEarlier(s: string, before: string, pre: string, p: nat, m: string)
    requires p < |before| + |pre| <= |s| && s[0..|before|] == before
             && forall k | 0 <= k < |pre| :: s[|before| + k] == pre[k]
    requires |pre| > 2 && pre[0] == '<' && pre[|pre| - 1] == ' ' && NoStart(pre)
    requires |m| == 81 && m[0] == 'd' && m[1] == 'a' && Free(m, '<') && !Contains(before, m)
    ensures !At(s, p, m)
  {
    if p >= |before| {
      var k := p - |before|;
      assert s[p] == pre[k];
      if pre[k] == 'd' {
        assert s[p + 1] == pre[k + 1];
        Differs(s, p, m, 1);
      } else {
        Differs(s, p, m, 0);
      }
    } else if At(s, p, m) {
      if p + |m| <= |before| {
        AtSlice(s, p, m, 0, |before|);
      } else {
        assert s[|before| + 0] == '<';
        LetterAt(s, p, m, |before| - p);
      }
    }
  }

  predicate AllDigests(hashes: seq<string>) {
    && (forall i | 0 <= i < |hashes| :: IsDigest(hashes[i]))
    && (forall i, j | 0 <= i < j < |hashes| :: hashes[i] != hashes[j])
  }

  /** One more button marked. */
  lemma MarkOne(w: Weave<nat>, hashes: seq<string>, rs: seq<Routing>, n: nat)
    requires |rs| == |hashes| && AllDigests(hashes) && AllQuotable(rs) && n < |hashes|
    requires EachOnce(Holes(w), |hashes|) && TextsLack(w, HashMark(hashes[n]))
    ensures ReplaceFirst(Spell(w, Shown(hashes, rs, n)), HashMark(hashes[n]), HashMark(hashes[n]) + FLAG)
         == Spell(w, Shown(hashes, rs, n + 1))
  {
    var fills, m, marked := Shown(hashes, rs, n), HashMark(hashes[n]), ShownButton(hashes[n], rs[n], true);
    MarkShape(hashes[n]);
    ButtonParts(hashes[n], rs[n]);
    forall j | 0 <= j < |fills| && j != n ensures IsElement(fills[j]) && !Contains(fills[j], m) {
      ShownLacks(hashes[j], rs[j], j < n, hashes[n]);
    }
    assert fills[n := marked] == Shown(hashes, rs, n + 1);
    assert fills[n] == ShownButton(hashes[n], rs[n], false);
    hide IsDigest, AllQuotable, HashMark, ShownButton, FLAG, PRE, ButtonRest, Spell, ReplaceFirst, TextsLack,
         Contains, Shown, Around, IsElement;
    var a, b := HoleOf(w, n);
    AroundSpells(a, n, b, fills);
    AroundSpells(a, n, b, fills[n := marked]);
    SpellUnasked(a, n, fills, marked);
    SpellUnasked(b, n, fills, marked);
    PartsOfBelow(w, a, n, b, |hashes|);
    FillsLack(a, fills, n, m);
    Replaced(Spell(a, fills), hashes[n], ButtonRest(hashes[n], rs[n]), Spell(b, fills));
  }

  lemma Replaced(before: string, hash: string, rest: string, after: string)
    requires IsDigest(hash) && !Contains(before, HashMark(hash))
    ensures ReplaceFirst(before + (PRE + HashMark(hash) + rest) + after, HashMark(hash), HashMark(hash) + FLAG)
         == before + (PRE + (HashMark(hash) + FLAG) + rest) + after
  {
    hide IsDigest, HashMark, FLAG, PRE, ReplaceFirst;
    var m := HashMark(hash);
    ReplaceMark(before, hash, rest + after, m + FLAG);
    Shifted(before, PRE, m, rest, after);
    Shifted(before, PRE, m + FLAG, rest, after);
  }

  lemma Shifted(a: string, b: string, c: string, d: string, e: string)
    ensures a + (b + c + d) + e == a + (b + c + (d + e))
  {
  }

  /** The targets recorded, every button of the page is marked. */
  lemma {:induction false} AllMarked(w: Weave<nat>, page: Page, hashes: seq<string>, rs: seq<Routing>, n: nat)
    requires n <= |rs| == |hashes| && AllDigests(hashes) && AllQuotable(rs) && PortsAreNumbers(rs)
    requires EachOnce(Holes(w), |hashes|) && forall i | 0 <= i < |hashes| :: TextsLack(w, HashMark(hashes[i]))
    requires page.html == Spell(w, Shown(hashes, rs, n))
    ensures var r := WithTargets(page, hashes, rs, n); r.Ok? && r.value.html == Spell(w, Shown(hashes, rs, |hashes|))
    decreases |hashes| - n
  {
    hide Spell, Shown, HashMark, ReplaceFirst, TextsLack, AllDigests, AllQuotable, Atoi, EachOnce;
    if n < |hashes| {
      MarkOne(w, hashes, rs, n);
      assert FLAG == " data-verify=\"1\"";
      var next := Page(ReplaceFirst(page.html, HashMark(hashes[n]), HashMark(hashes[n]) + FLAG),
                       RetargetAll(page.challenges, hashes[n], TargetOf(rs[n])));
      AllMarked(w, next, hashes, rs, n + 1);
    }
  }

  // ---------------------------------------------------------------------------- Reading a button on the page

  lemma ShownReadable(hash: string, r: Routing)
    requires IsHash(hash) && Quotable(r)
    ensures Readable(ShownAttributes(hash, r, true)) && Readable(ShownAttributes(hash, r, false))
  {
    ButtonReadable(hash, r);
    assert ReadableOne(Attribute(VERIFY, "1"));
    hide ReadableOne, ButtonAttributes, Quotable, IsHash, VERIFY;
  }

  lemma VerifyApart()
    ensures |VERIFY| == 11 && VERIFY != CLASS && VERIFY != HREF && VERIFY != PORT && VERIFY != PATH && VERIFY != TERM
    ensures VERIFY != HASH_CODE && VERIFY != PREFIX && VERIFY != PROTOCOL
  {
    NamesApart();
  }

  /** No two attributes have the same name. */
  predicate NamesOnce(attributes: seq<Attribute>) {
    forall i, j | 0 <= i < j < |attributes| :: attributes[i].name != attributes[j].name
  }

  lemma ShownNames(hash: string, r: Routing, verified: bool)
    ensures NamesOnce(ShownAttributes(hash, r, verified))
  {
    hide CLASS, HASH_CODE, PORT, PATH, TERM, PREFIX, PROTOCOL, HREF, VERIFY;
    NamesApart();
    VerifyApart();
    var all := ButtonAttributes(hash, r);
    assert NamesOnce(all) && forall i | 0 <= i < |all| :: all[i].name != VERIFY;
    hide ButtonAttributes;
    var shown := ShownAttributes(hash, r, true);
    assert forall i | 0 <= i < |shown| :: i != 2 ==> shown[i] == all[if i < 2 then i else i - 1];
  }

  lemma ReadsOne(attributes: seq<Attribute>, i: nat)
    requires Readable(attributes) && NamesOnce(attributes) && i < |attributes|
    ensures ValueOf(TagAttributes(OpenTag(attributes), 0), attributes[i].name) == attributes[i].value
  {
    hide TagAttributes, Readable, OpenTag;
    AttributesRead(attributes);
    MapLookup(attributes, i);
  }

  lemma TagOpens(attributes: seq<Attribute>)
    ensures OpenTag(attributes) <= Element("a", SpelledAll(attributes), "Test Exercise")
  {
    AnchorShape(attributes);
    hide SpelledAll;
    var a := SpelledAll(attributes);
    assert TAIL[..1] == ">";
    assert "<a" + (a + TAIL) == "<a" + a + ">" + TAIL[1..];
  }

  /** The tag of a button on the page reads back as the hash and routing it was made for, and the flag. */
  lemma ShownReads(hash: string, r: Routing, verified: bool)
    requires IsHash(hash) && Quotable(r)
    ensures var m := TagAttributes(OpenTag(ShownAttributes(hash, r, verified)), 0);
            && ValueOf(m, HASH_CODE) == hash && ValueOf(m, PORT) == r.port && ValueOf(m, PATH) == r.path
            && ValueOf(m, TERM) == r.term && ValueOf(m, VERIFY) == if verified then "1" else ""
    ensures OpenTag(ShownAttributes(hash, r, verified)) <= ShownButton(hash, r, verified)
  {
    TagOpens(ShownAttributes(hash, r, verified));
    ShownReadable(hash, r);
    ShownNames(hash, r, verified);
    VerifyApart();
    var attributes := ShownAttributes(hash, r, verified);
    var d := if verified then 1 else 0;
    assert attributes[1] == Attribute(HASH_CODE, hash) && attributes[2 + d] == Attribute(PORT, r.port)
           && attributes[3 + d] == Attribute(PATH, r.path) && attributes[4 + d] == Attribute(TERM, r.term);
    assert verified ==> attributes[2] == Attribute(VERIFY, "1");
    assert !verified ==> forall i | 0 <= i < |attributes| :: attributes[i].name != VERIFY;
    hide TagAttributes, Readable, NamesOnce, MapOf, SpelledAll, ShownAttributes, OpenTag, IsHash, Quotable, CLASS,
         HASH_CODE, PORT, PATH, TERM, PREFIX, PROTOCOL, HREF, VERIFY;
    ReadsOne(attributes, 1);
    ReadsOne(attributes, 2 + d);
    ReadsOne(attributes, 3 + d);
    ReadsOne(attributes, 4 + d);
    if verified {
      ReadsOne(attributes, 2);
    } else {
      AttributesRead(attributes);
      MapMissing(attributes, VERIFY);
    }
  }
}

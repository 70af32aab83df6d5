/** Which terminals a page refers to: text without the end of the attribute's name before an equals sign refers to
    none, and the default button to the first. */
module References {
  import opened Concatenation
  import opened Decimal
  import opened Options
  import opened Text
  import opened Html
  import opened Markdown
  import opened DemoLinks
  import opened Lesson
  import opened Agreement
  import opened Rerouting
  import opened Marks

  const REF := "data-term=\""

  /** No equals sign follows an `m`. */
  predicate Unreferring(s: string) {
    forall i | 0 < i < |s| && s[i] == '=' :: s[i - 1] != 'm'
  }

  lemma RefShape()
    ensures |REF| == 11 && REF[8] == 'm' && REF[9] == '=' && Free(REF[..8], '=')
  {
  }

  lemma NoTerm(s: string, i: nat)
    requires i <= |s| && (i + 9 >= |s| || s[i + 9] != '=' || s[i + 8] != 'm')
    ensures TermAt(s, i).None?
  {
    RefShape();
    Differs(s, i, REF, if i + 9 < |s| && s[i + 9] == '=' then 8 else 9);
  }

  lemma NoneReferred(s: string, terminals: nat)
    requires Unreferring(s)
    ensures TermsKnown(s, terminals)
  {
    hide TermAt;
    forall i: nat | i <= |s| ensures TermAt(s, i).None? {
      NoTerm(s, i);
    }
  }

  lemma JoinedUnreferring(a: string, b: string)
    requires Unreferring(a) && Unreferring(b) && (b == "" || b[0] != '=')
    ensures Unreferring(a + b)
  {
    var s := a + b;
    forall i | 0 < i < |s| && s[i] == '=' ensures s[i - 1] != 'm' {
      if i > |a| {
        assert s[i] == b[i - |a|] && s[i - 1] == b[i - |a| - 1];
      }
    }
  }

  lemma FreeUnreferring(s: string)
    ensures Free(s, '=') ==> Unreferring(s)
  {
  }

  lemma {:induction false} EscapedUnreferring(s: string)
    requires Free(s, '=')
    ensures Free(Escape(s, QuizEntity), '=') && Free(Escape(s, Entity), '=')
  {
    if s != "" {
      EscapedUnreferring(s[1..]);
    }
  }

  lemma SpelledUnreferring(name: string, value: string)
    requires Free(name, '=') && name != "" && name[|name| - 1] != 'm' && Free(value, '=')
    ensures Unreferring(Spelled(Attribute(name, value)))
  {
    var s, n := Spelled(Attribute(name, value)), |name|;
    assert s[n + 1] == '=' && s[n] == name[n - 1] && forall i | 0 < i < |s| && s[i] == '=' :: i == n + 1;
  }

  lemma ElementUnreferring(name: string, attributes: string, inner: string)
    requires Free(name, '=') && Unreferring(attributes) && Unreferring(inner)
    requires (attributes == "" || attributes[0] != '=') && (inner == "" || inner[0] != '=')
    ensures Unreferring(Element(name, attributes, inner)) && Element(name, attributes, inner)[0] != '='
  {
    FreeUnreferring("<" + name);
    FreeUnreferring(">");
    FreeUnreferring("</" + name + ">");
    hide Unreferring;
    JoinedUnreferring("<" + name, attributes);
    JoinedUnreferring("<" + name + attributes, ">");
    JoinedUnreferring("<" + name + attributes + ">", inner);
    JoinedUnreferring("<" + name + attributes + ">" + inner, "</" + name + ">");
    AssociateThree("<" + name + attributes + ">" + inner, "</", name, ">");
  }

  lemma DigestUnreferring(h: string)
    ensures IsDigest(h) ==> Free(h, '=')
  {
  }

  lemma BlockUnreferring(kind: string, hash: string, inner: string)
    requires (kind == "quiz" || kind == "exercise") && IsDigest(hash) && Unreferring(inner)
             && (inner == "" || inner[0] != '=')
    ensures Unreferring(BlockHtml(kind, hash, inner))
  {
    DigestUnreferring(hash);
    var a, b := Spelled(Attribute("class", kind)), Spelled(Attribute("data-challenge", hash));
    SpelledUnreferring("class", kind);
    SpelledUnreferring("data-challenge", hash);
    assert a[0] == ' ' && b[0] == ' ';
    VerdictUnreferring();
    hide Unreferring, Spelled, Element, VERDICT;
    JoinedUnreferring(a, b);
    JoinedUnreferring(inner, VERDICT);
    assert (a + b)[0] == ' ';
    ElementUnreferring("div", a + b, inner + VERDICT);
    VerdictIs();
  }

  lemma VerdictUnreferring()
    ensures Unreferring(VERDICT) && VERDICT != "" && VERDICT[0] != '='
  {
    VerdictIs();
    SpelledUnreferring("class", "verdict");
    ElementUnreferring("div", Spelled(Attribute("class", "verdict")), "");
  }

  lemma QuestionUnreferring(html: string)
    requires Unreferring(html) && (html == "" || html[0] != '=')
    ensures Unreferring(QuestionHtml(html)) && QuestionHtml(html) != "" && QuestionHtml(html)[0] != '='
  {
    SpelledUnreferring("class", "q");
    ElementUnreferring("div", Spelled(Attribute("class", "q")), html);
  }

  lemma InputUnreferring(name: string, flag: string)
    requires Free(name, '=') && Free(flag, '=')
    ensures var a := Spelled(Attribute("type", "radio")); Unreferring(a) && a != "" && a[0] == ' '
    ensures var b := Spelled(Attribute("name", name)); Unreferring(b) && b != "" && b[0] == ' '
    ensures var c := Spelled(Attribute("data-flag", flag)); Unreferring(c) && c != "" && c[0] == ' '
    ensures Unreferring("<input") && Unreferring("> ") && Unreferring("")
  {
    hide Unreferring;
    SpelledUnreferring("type", "radio");
    SpelledUnreferring("name", name);
    SpelledUnreferring("data-flag", flag);
    FreeUnreferring("<input");
    FreeUnreferring("> ");
    FreeUnreferring("");
  }

  /** A quiz of one choice. */
  lemma ChoiceUnreferring(name: string, flag: string, text: string)
    requires Free(name, '=') && Free(flag, '=') && Free(text, '=')
    ensures Unreferring(ChoiceHtml(name, flag, text)) && ChoiceHtml(name, flag, text) != ""
            && ChoiceHtml(name, flag, text)[0] != '='
  {
    var a, b, c := Spelled(Attribute("type", "radio")), Spelled(Attribute("name", name)),
      Spelled(Attribute("data-flag", flag));
    var t := Escape(text, QuizEntity);
    hide *;
    InputUnreferring(name, flag);
    EscapedUnreferring(text);
    FreeUnreferring(t);
    FreeStart(t);
    JoinedInput("<input", a, b, c, "> ", t);
    LabelUnreferring("<input" + a + b + c + "> " + t);
    ChoiceIs(name, flag, text);
  }

  lemma FreeStart(t: string)
    ensures Free(t, '=') ==> t == "" || t[0] != '='
  {
  }

  lemma LabelUnreferring(inner: string)
    requires Unreferring(inner) && (inner == "" || inner[0] != '=')
    ensures var l := Element("label", "", inner); Unreferring(l) && l != "" && l[0] != '='
  {
    FreeUnreferring("");
    ElementUnreferring("label", "", inner);
  }

  lemma ChoiceIs(name: string, flag: string, text: string)
    ensures var a, b, c := Spelled(Attribute("type", "radio")), Spelled(Attribute("name", name)),
            Spelled(Attribute("data-flag", flag));
            ChoiceHtml(name, flag, text) == Element("label", "", "<input" + a + b + c + "> " + Escape(text, QuizEntity))
  {
    hide Spelled, Element, Escape;
  }

  lemma JoinedInput(o: string, a: string, b: string, c: string, e: string, t: string)
    requires Unreferring(o) && Unreferring(a) && Unreferring(b) && Unreferring(c) && Unreferring(e) && Unreferring(t)
    requires o != "" && o[0] != '='
    requires a != "" && a[0] != '=' && b != "" && b[0] != '=' && c != "" && c[0] != '=' && e != "" && e[0] != '='
    requires t == "" || t[0] != '='
    ensures Unreferring(o + a + b + c + e + t) && (o + a + b + c + e + t)[0] != '='
  {
    hide Unreferring;
    JoinedUnreferring(o, a);
    JoinedUnreferring(o + a, b);
    JoinedUnreferring(o + a + b, c);
    JoinedUnreferring(o + a + b + c, e);
    JoinedUnreferring(o + a + b + c + e, t);
  }

  lemma QuizUnreferring(x: Setting, question: string, hash: string, choice: Choice)
    requires Digests(x) && IsDigest(hash) && Free(question, '=') && Free(choice.text, '=')
    ensures Unreferring(BlockHtml("quiz", hash, QuizInner(question, ChoicesHtml(x, "q-" + Start(hash, 8), [choice]))))
  {
    var name := "q-" + Start(hash, 8);
    var flag := x.flagHash(choice.text);
    assert IsDigest(flag);
    DigestUnreferring(flag);
    assert Free(name, '=');
    ChoiceUnreferring(name, flag, choice.text);
    EscapedUnreferring(question);
    var q, c := Escape(question, QuizEntity), ChoiceHtml(name, flag, choice.text);
    FreeUnreferring(q);
    SpelledUnreferring("class", "quiz-submit");
    FreeUnreferring("Submit");
    assert [choice][..0] == [] && ChoicesHtml(x, name, []) == "";
    assert ChoicesHtml(x, name, [choice]) == c by {
      assert "" + c == c;
    }
    var s := Element("button", Spelled(Attribute("class", "quiz-submit")), "Submit");
    ElementUnreferring("button", Spelled(Attribute("class", "quiz-submit")), "Submit");
    hide Unreferring, ChoiceHtml, Element, Escape, BlockHtml, QuestionHtml, ChoicesHtml, IsDigest, Digests;
    QuestionUnreferring(q);
    JoinedUnreferring(QuestionHtml(q), c);
    JoinedUnreferring(QuestionHtml(q) + c, s);
    BlockUnreferring("quiz", hash, QuestionHtml(q) + c + s);
  }

  // ---------------------------------------------------------------------------- The default button

  const FIRST_TERM := "data-term=\".term1\""

  lemma FirstTermShape()
    ensures |FIRST_TERM| == 18 && FIRST_TERM[..11] == REF && FIRST_TERM[11..16] == ".term"
    ensures FIRST_TERM[16] == '1' && FIRST_TERM[17] == '"' && FIRST_TERM[9] == '='
    ensures forall k | 0 <= k < 18 && k != 9 :: FIRST_TERM[k] != '='
  {
  }

  lemma FirstTermAt(s: string, i: nat)
    requires At(s, i, FIRST_TERM)
    ensures i <= |s| && TermAt(s, i) == Some(1)
  {
    FirstTermShape();
    forall k | 0 <= k < 18 ensures s[i + k] == FIRST_TERM[k] {
      LetterAt(s, i, FIRST_TERM, k);
    }
    assert s[i..i + 18] == FIRST_TERM;
    hide FIRST_TERM;
    assert s[i..i + 11] == s[i..i + 18][..11] && s[i + 11..i + 16] == s[i..i + 18][11..16];
    var t := s[i + 16..];
    assert t[0] == '1' && t[1] == '"' && t[1..][0] == '"';
    assert Leading(t[1..]) == 0 && Leading(t) == 1;
    assert t[..1] == "1" && Number("1") == 1 by {
      assert "1"[..0] == [];
    }
    assert s[i + 17..i + 18] == "\"";
  }

  lemma OneReferred(a: string, b: string, terminals: nat)
    requires Unreferring(a) && Unreferring(b) && (b == "" || b[0] != '=') && terminals >= 1
    ensures TermsKnown(a + FIRST_TERM + b, terminals)
  {
    var s, n := a + FIRST_TERM + b, |a|;
    FirstTermShape();
    assert At(s, n, FIRST_TERM) by {
      assert s[n..n + 18] == FIRST_TERM;
    }
    FirstTermAt(s, n);
    assert forall k | n <= k < n + 18 :: s[k] == FIRST_TERM[k - n];
    assert forall k | n + 18 <= k < |s| :: s[k] == b[k - n - 18];
    hide TermAt, FIRST_TERM;
    forall i: nat | i <= |s| && i != n ensures TermAt(s, i).None? {
      if i + 9 < |s| && s[i + 9] == '=' {
        if i + 9 < n {
          assert a[i + 9] == '=';
        } else if i + 9 > n + 18 {
          assert b[i + 9 - n - 18] == '=' && b[i + 8 - n - 18] == s[i + 8];
        }
      }
      NoTerm(s, i);
    }
  }

  lemma RestParts(hash: string)
    ensures ButtonRest(hash, DEFAULT)
         == Spelled(Attribute(PORT, "80")) + Spelled(Attribute(PATH, "/result.html")) + " " + FIRST_TERM
            + (Spelled(Attribute(HREF, "#")) + TAIL)
  {
    var a, b, c, d := Attribute(PORT, "80"), Attribute(PATH, "/result.html"), Attribute(TERM, ".term1"),
      Attribute(HREF, "#");
    assert ButtonAttributes(hash, DEFAULT)[2..] == [a] + [b] + [c] + [d];
    assert Spelled(c) == " " + FIRST_TERM;
    hide Spelled, SpelledAll, TAIL, FIRST_TERM;
    SpelledConcat([a], [b]);
    SpelledConcat([a] + [b], [c]);
    SpelledConcat([a] + [b] + [c], [d]);
    SpelledOne(a);
    SpelledOne(b);
    SpelledOne(c);
    SpelledOne(d);
    RestRegroup(Spelled(a), Spelled(b), FIRST_TERM, Spelled(d), TAIL);
  }

  lemma RestRegroup(a: string, b: string, c: string, d: string, e: string)
    ensures a + b + (" " + c) + d + e == a + b + " " + c + (d + e)
  {
  }
}

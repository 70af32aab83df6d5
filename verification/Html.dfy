/** HTML text: elements, attributes and escaping; and calm text, in which every angle bracket opens or closes
    an element. Calm text stays calm when it is joined, and when it is cut before a character that cannot
    start a tag's name, which is where the inline rewrites cut. No comment, hence no placeholder of a block,
    can hide in it. */
module Html {
  import opened Text

  datatype Attribute = Attribute(name: string, value: string)

  function Spelled(a: Attribute): string {
    " " + a.name + "=\"" + a.value + "\""
  }

  function Element(name: string, attributes: string, inner: string): string {
    "<" + name + attributes + ">" + inner + "</" + name + ">"
  }

  function Escape(s: string, entity: char -> string): string {
    if s == "" then "" else entity(s[0]) + Escape(s[1..], entity)
  }

  lemma {:induction false} EscapeFree(s: string, entity: char -> string, c: char)
    requires forall x :: Free(entity(x), c)
    ensures Free(Escape(s, entity), c)
  {
    if s != "" {
      EscapeFree(s[1..], entity, c);
    }
  }

  // ---------------------------------------------------------------------------- Calm text

  predicate TagStart(c: char) {
    'a' <= c <= 'z' || 'A' <= c <= 'Z' || c == '/'
  }

  /** Every angle bracket opens an element's tag: no comment can hide here. */
  predicate Calm(s: string) {
    forall i | 0 <= i < |s| && s[i] == '<' :: i + 1 < |s| && TagStart(s[i + 1])
  }

  lemma CalmConcat(a: string, b: string)
    requires Calm(a) && Calm(b)
    ensures Calm(a + b)
  {
  }

  lemma CalmWithout(s: string)
    requires Free(s, '<')
    ensures Calm(s)
  {
  }

  lemma CalmSlice(s: string, i: nat, j: nat)
    requires Calm(s) && i <= j <= |s| && (i < j < |s| ==> !TagStart(s[j]))
    ensures Calm(s[i..j])
  {
  }

  lemma CalmTake(s: string, j: nat)
    requires Calm(s) && j <= |s| && (0 < j < |s| ==> !TagStart(s[j]))
    ensures Calm(s[..j])
  {
  }

  lemma CalmDrop(s: string, i: nat)
    requires Calm(s) && i <= |s|
    ensures Calm(s[i..])
  {
  }

  lemma CalmLacks(s: string, t: string)
    requires Calm(s) && |t| >= 2 && t[0] == '<' && !TagStart(t[1])
    ensures !Contains(s, t)
  {
    forall i: nat | i <= |s| ensures !At(s, i, t) {
      if At(s, i, t) {
        LetterAt(s, i, t, 0);
        LetterAt(s, i, t, 1);
      }
    }
  }

  lemma CalmFive(a: string, b: string, c: string, d: string, e: string)
    requires Calm(a) && Calm(b) && Calm(c) && Calm(d) && Calm(e)
    ensures Calm(a + b + c + d + e)
  {
    hide Calm;
    CalmConcat(a, b);
    CalmConcat(a + b, c);
    CalmConcat(a + b + c, d);
    CalmConcat(a + b + c + d, e);
  }

  lemma CalmUpTo(s: string, i: nat, j: nat)
    requires Calm(s) && i <= j <= |s| && (i < j ==> s[j - 1] != '<')
    ensures Calm(s[i..j])
  {
  }

  lemma CalmEmpty()
    ensures Calm("")
  {
  }

  lemma SpelledCalm(a: Attribute)
    requires Free(a.name, '<') && Calm(a.value)
    ensures Calm(Spelled(a))
  {
    assert Calm(" ") && Calm("=\"") && Calm("\"");
    CalmWithout(a.name);
    hide Calm, Free;
    CalmFive(" ", a.name, "=\"", a.value, "\"");
  }

  lemma ElementCalm(name: string, attributes: string, inner: string)
    requires name != "" && TagStart(name[0]) && Free(name, '<') && Calm(attributes) && Calm(inner)
    ensures Calm(Element(name, attributes, inner))
  {
    assert Calm("<" + name) && Calm(">") && Calm("</" + name);
    hide Calm, Free;
    CalmFive("<" + name, attributes, ">", inner, "</" + name);
    CalmConcat("<" + name + attributes + ">" + inner + ("</" + name), ">");
    assert "<" + name + attributes + ">" + inner + ("</" + name) + ">" == Element(name, attributes, inner);
  }
}

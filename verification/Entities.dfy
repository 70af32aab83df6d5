/** Escaped text reads back as what it was, and holds nothing that could be markup. */
module Entities {
  import opened Options
  import opened Search
  import opened Text
  import opened Html
  import opened Markdown
  import opened Lesson

  /** What a page shows for an entity. */
  function Meaning(entity: string): Option<char> {
    if entity == "&amp;" then Some('&')
    else if entity == "&lt;" then Some('<')
    else if entity == "&gt;" then Some('>')
    else if entity == "&quot;" || entity == "&#34;" then Some('"')
    else if entity == "&#39;" then Some('\'')
    else None
  }

  /** Text as a page shows it. */
  function Shown(s: string): string
    decreases |s|
  {
    if s == "" then ""
    else
      var n := IndexOf(s, ';');
      if s[0] == '&' && n < |s| && Meaning(s[..n + 1]).Some? then [Meaning(s[..n + 1]).value] + Shown(s[n + 1..])
      else [s[0]] + Shown(s[1..])
  }

  lemma EntityMeans(entity: string, rest: string)
    requires Meaning(entity).Some? && |entity| > 1 && entity[0] == '&' && entity[|entity| - 1] == ';'
    requires Free(entity[..|entity| - 1], ';')
    ensures Shown(entity + rest) == [Meaning(entity).value] + Shown(rest)
  {
    var s, n := entity + rest, |entity| - 1;
    assert s[n] == ';' && forall i | 0 <= i < n :: s[i] == entity[..n][i];
    assert IndexOf(s, ';') == n;
    assert s[..n + 1] == entity && s[n + 1..] == rest;
    hide Meaning;
  }

  lemma PlainShown(c: char, rest: string)
    requires c != '&'
    ensures Shown([c] + rest) == [c] + Shown(rest)
  {
    assert ([c] + rest)[0] == c && ([c] + rest)[1..] == rest;
  }

  lemma EntityShown(c: char, rest: string)
    ensures Shown(Entity(c) + rest) == [c] + Shown(rest)
    ensures Shown(QuizEntity(c) + rest) == [c] + Shown(rest)
  {
    hide Shown;
    if c in "&<>\"'" {
      Named(c);
      EntityMeans(Entity(c), rest);
      if c == '\'' {
        PlainShown(c, rest);
      } else {
        EntityMeans(QuizEntity(c), rest);
      }
    } else {
      PlainShown(c, rest);
    }
  }

  predicate IsEntity(entity: string, c: char) {
    && Meaning(entity) == Some(c) && |entity| > 1 && entity[0] == '&' && entity[|entity| - 1] == ';'
    && Free(entity[..|entity| - 1], ';')
  }

  lemma Named(c: char)
    requires c in "&<>\"'"
    ensures IsEntity(Entity(c), c) && (c != '\'' ==> IsEntity(QuizEntity(c), c))
  {
  }

  lemma Safe(c: char)
    ensures forall d | d in "<>\"'" :: Free(Entity(c), d)
    ensures forall d | d in "<>\"" :: Free(QuizEntity(c), d)
  {
  }

  /** Both escapings read back as the text, and neither leaves an angle bracket or a double quote. */
  lemma {:induction false} EscapeShown(s: string)
    ensures Shown(Escape(s, Entity)) == s && Shown(Escape(s, QuizEntity)) == s
    ensures forall d | d in "<>\"'" :: Free(Escape(s, Entity), d)
    ensures forall d | d in "<>\"" :: Free(Escape(s, QuizEntity), d)
  {
    hide Shown, Entity, QuizEntity;
    if s != "" {
      EscapeShown(s[1..]);
      EntityShown(s[0], Escape(s[1..], Entity));
      EntityShown(s[0], Escape(s[1..], QuizEntity));
      Safe(s[0]);
      assert s == [s[0]] + s[1..];
    } else {
      ShownNone();
    }
  }

  lemma ShownNone()
    ensures Shown("") == ""
  {
  }

  /** The two differ in the quotes. */
  lemma EntityWords()
    ensures Entity('"') == "&#34;" && Entity('\'') == "&#39;" && QuizEntity('"') == "&quot;" && QuizEntity('\'') == "'"
  {
  }
}

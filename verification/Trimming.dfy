/** What trimming does: it drops exactly the space at both ends. */
module Trimming {
  import opened Text

  /** The Unicode code points that count as space. */
  const SPACES := "\t\n\U{0B}\U{0C}\r \U{85}\U{A0}\U{1680}\U{2000}\U{2001}\U{2002}\U{2003}\U{2004}\U{2005}\U{2006}"
                  + "\U{2007}\U{2008}\U{2009}\U{200A}\U{2028}\U{2029}\U{202F}\U{205F}\U{3000}"

  lemma SpacesAre(c: char)
    ensures IsSpace(c) <==> c in SPACES
  {
  }

  predicate Spaces(s: string) {
    forall i | 0 <= i < |s| :: IsSpace(s[i])
  }

  predicate Trim(s: string) {
    s != "" && !IsSpace(s[0]) && !IsSpace(s[|s| - 1])
  }

  lemma {:induction false} TrimLeftDrops(a: string, t: string)
    requires Spaces(a) && (t == "" || !IsSpace(t[0]))
    ensures TrimLeft(a + t) == t
  {
    if a == "" {
      assert a + t == t;
    } else {
      assert (a + t)[0] == a[0] && (a + t)[1..] == a[1..] + t;
      TrimLeftDrops(a[1..], t);
    }
  }

  lemma {:induction false} TrimRightDrops(t: string, b: string)
    requires Spaces(b) && (t == "" || !IsSpace(t[|t| - 1]))
    ensures TrimRight(t + b) == t
  {
    var s := t + b;
    if b == "" {
      assert s == t;
    } else {
      assert s[|s| - 1] == b[|b| - 1] && s[..|s| - 1] == t + b[..|b| - 1];
      TrimRightDrops(t, b[..|b| - 1]);
    }
  }

  /** Trimming drops the space at both ends. */
  lemma TrimDrops(a: string, t: string, b: string)
    requires Spaces(a) && Spaces(b) && (t == "" || Trim(t))
    ensures TrimSpace(a + t + b) == t
  {
    hide TrimLeft, TrimRight, IsSpace;
    if t == "" {
      assert a + t + b == (a + b) + "";
      TrimLeftDrops(a + b, "");
      TrimRightDrops("", "");
      assert "" + "" == "";
    } else {
      assert a + t + b == a + (t + b) && (t + b)[0] == t[0];
      TrimLeftDrops(a, t + b);
      TrimRightDrops(t, b);
    }
  }

  lemma SpaceTrims(line: string)
    ensures TrimSpace(line) == "" <==> Spaces(line)
  {
    hide IsSpace;
    TrimLeftStops(line);
    TrimRightStops(TrimLeft(line));
  }

  lemma {:induction false} TrimLeftStops(s: string)
    ensures TrimLeft(s) == "" || !IsSpace(TrimLeft(s)[0])
    ensures TrimLeft(s) == "" <==> Spaces(s)
  {
    hide IsSpace;
    if s != "" {
      TrimLeftStops(s[1..]);
    }
  }

  lemma {:induction false} TrimRightStops(s: string)
    requires s == "" || !IsSpace(s[0])
    ensures s == "" <==> TrimRight(s) == ""
  {
    hide IsSpace;
    if s != "" && IsSpace(s[|s| - 1]) {
      TrimRightStops(s[..|s| - 1]);
    }
  }

  // ---------------------------------------------------------------------------- Blanks

  predicate Gap(s: string) {
    forall i | 0 <= i < |s| :: s[i] in {' ', '\t', '\n', '\r', '\U{0C}'}
  }

  lemma GapIs(s: string)
    ensures Gap(s) <==> forall i | 0 <= i < |s| :: IsBlank(s[i])
    ensures Gap(s) <==> Blanks(s) == |s|
    ensures Gap(s[..Blanks(s)])
  {
  }

  lemma GapJoins(a: string, b: string)
    ensures Gap(a + b) <==> Gap(a) && Gap(b)
  {
    var s := a + b;
    if Gap(s) {
      assert forall i | 0 <= i < |a| :: s[i] == a[i];
      assert forall i | 0 <= i < |b| :: s[|a| + i] == b[i];
    }
  }

  lemma GapOne(c: char)
    ensures Gap([c]) <==> IsBlank(c)
  {
    assert [c][0] == c;
  }

  lemma BlanksBefore(a: string, rest: string)
    requires Gap(a) && rest != "" && !Gap([rest[0]])
    ensures Blanks(a + rest) == |a| && (a + rest)[|a|..] == rest
  {
    GapIs(a);
    GapOne(rest[0]);
    var s := a + rest;
    assert s[|a|] == rest[0] && forall i | 0 <= i < |a| :: s[i] == a[i];
    hide Gap, IsBlank;
  }

  lemma NotBlank(c: char)
    ensures Gap([c]) ==> IsSpace(c)
  {
    assert [c][0] == c;
  }
}

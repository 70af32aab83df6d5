/** What counts as a reference to a terminal. */
module Terminals {
  import opened Decimal
  import opened Options
  import opened Text
  import opened Lesson

  predicate IsPrefix(w: string) {
    w == "" || w == "term" || w == ".term"
  }

  function Reference(w: string, digits: string): string {
    "data-term=\"" + w + digits + "\""
  }

  /** The page refers to the terminal with this number, in one of the three spellings. */
  ghost predicate Refers(s: string, digits: string) {
    exists a, w, b :: IsPrefix(w) && s == a + Reference(w, digits) + b
  }

  lemma AtIs(s: string, i: nat, t: string, rest: string)
    ensures i <= |s| && s[i..] == t + rest ==> At(s, i, t) && s[i + |t|..] == rest
  {
    if i <= |s| && s[i..] == t + rest {
      assert s[i..][..|t|] == t;
    }
  }

  lemma AtNot(s: string, i: nat, t: string, c: char, rest: string)
    requires i <= |s| && s[i..] == [c] + rest && t != "" && t[0] != c
    ensures !At(s, i, t)
  {
    assert s[i] == c;
    Differs(s, i, t, 0);
  }

  lemma LeadingIs(digits: string, rest: string)
    requires AllDigits(digits) && rest != "" && !IsDigit(rest[0])
    ensures Leading(digits + rest) == |digits|
  {
    var s := digits + rest;
    assert s[|digits|] == rest[0] && forall i | 0 <= i < |digits| :: s[i] == digits[i];
    hide Leading, IsDigit;
    assert forall i | 0 <= i < Leading(s) :: s[..Leading(s)][i] == s[i];
  }

  lemma Seen(s: string, i: nat, w: string, digits: string, b: string)
    requires i <= |s| && s[i..] == "data-term=\"" + (w + (digits + ("\"" + b)))
    requires IsPrefix(w) && digits != "" && AllDigits(digits)
    ensures TermAt(s, i) == Some(Number(digits))
  {
    hide *;
    var end := "\"" + b;
    var rest := digits + end;
    var p := i + |"data-term=\""|;
    var q := p + |w|;
    Quoted(digits, b);
    AtIs(s, i, "data-term=\"", w + rest);
    Spelling(s, p, w, rest);
    LeadingIs(digits, end);
    AtIs(s, q, digits, end);
    AtIs(s, q + |digits|, "\"", b);
    Known(s, i, q, digits);
  }

  lemma Quoted(digits: string, b: string)
    requires digits != "" && AllDigits(digits)
    ensures var end := "\"" + b;
            var rest := digits + end;
            && end != "" && !IsDigit(end[0]) && rest != "" && IsDigit(rest[0]) && rest[..|digits|] == digits
  {
    assert (digits + ("\"" + b))[0] == digits[0];
  }

  lemma Known(s: string, i: nat, q: nat, digits: string)
    requires i <= |s| && At(s, i, "data-term=\"") && q <= |s| && digits != "" && AllDigits(digits)
    requires var p := i + |"data-term=\""|;
             q == if At(s, p, ".term") then p + 5 else if At(s, p, "term") then p + 4 else p
    requires Leading(s[q..]) == |digits| && s[q..][..|digits|] == digits && At(s, q + |digits|, "\"")
    ensures TermAt(s, i) == Some(Number(digits))
  {
    hide At, Leading, Number, AllDigits;
  }

  lemma Spelling(s: string, p: nat, w: string, rest: string)
    requires p <= |s| && s[p..] == w + rest && IsPrefix(w) && rest != "" && IsDigit(rest[0])
    ensures (if At(s, p, ".term") then p + 5 else if At(s, p, "term") then p + 4 else p) == p + |w| <= |s|
    ensures s[p + |w|..] == rest
  {
    AtIs(s, p, w, rest);
    if w != ".term" {
      AtNot(s, p, ".term", s[p], s[p + 1..]);
    }
    if w == "" {
      AtNot(s, p, "term", s[p], s[p + 1..]);
    }
  }

  lemma Found(s: string, i: nat) returns (digits: string)
    requires i <= |s| && TermAt(s, i).Some?
    ensures digits != "" && AllDigits(digits) && Refers(s, digits) && TermAt(s, i) == Some(Number(digits))
  {
    var p := i + |"data-term=\""|;
    var w := if At(s, p, ".term") then ".term" else if At(s, p, "term") then "term" else "";
    var q := p + |w|;
    var n := Leading(s[q..]);
    digits := s[q..][..n];
    hide Leading, Number;
    assert s[i..p] == "data-term=\"" && s[p..q] == w && s[q + n..q + n + 1] == "\"";
    Cut(s, i, p, q, q + n, w, digits);
  }

  lemma Cut(s: string, i: nat, p: nat, q: nat, e: nat, w: string, digits: string)
    requires i <= p <= q <= e < |s| && IsPrefix(w)
    requires s[i..p] == "data-term=\"" && s[p..q] == w && s[q..][..e - q] == digits && s[e..e + 1] == "\""
    ensures Refers(s, digits)
  {
    assert s == s[..i] + (s[i..p] + s[p..q] + s[q..][..e - q] + s[e..e + 1]) + s[e + 1..];
    assert s == s[..i] + Reference(w, digits) + s[e + 1..];
  }

  /** A page is refused exactly if some reference on it has a number beyond the lesson's terminals. */
  lemma TermsKnownIff(s: string, terminals: nat)
    ensures TermsKnown(s, terminals) <==>
            forall digits | digits != "" && AllDigits(digits) && Refers(s, digits) :: Number(digits) <= terminals
  {
    hide TermAt, AllDigits, Number, Refers;
    forall digits | digits != "" && AllDigits(digits) && Refers(s, digits)
      ensures exists i: nat :: i <= |s| && TermAt(s, i) == Some(Number(digits))
    {
      ReferenceSeen(s, digits);
    }
    forall i: nat | i <= |s| && TermAt(s, i).Some?
      ensures exists digits :: digits != "" && AllDigits(digits) && Refers(s, digits)
                               && TermAt(s, i) == Some(Number(digits))
    {
      var digits := Found(s, i);
    }
  }

  lemma ReferenceSeen(s: string, digits: string)
    requires digits != "" && AllDigits(digits) && Refers(s, digits)
    ensures exists i: nat :: i <= |s| && TermAt(s, i) == Some(Number(digits))
  {
    var a, w, b :| IsPrefix(w) && s == a + Reference(w, digits) + b;
    hide TermAt, AllDigits, Number;
    After(a, w, digits, b);
    Seen(s, |a|, w, digits, b);
  }

  lemma After(a: string, w: string, digits: string, b: string)
    ensures (a + Reference(w, digits) + b)[|a|..] == "data-term=\"" + (w + (digits + ("\"" + b)))
  {
  }
}

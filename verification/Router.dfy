/** The pattern of an exposed-port host name. */
module Router {
  import opened Options
  import opened Decimal

  // ------------------------------------------------------------------------- The host pattern

  predicate TokenChar(c: char) {
    '0' <= c <= '9' || 'a' <= c <= 'z'
  }

  predicate DomainChar(c: char) {
    TokenChar(c) || 'A' <= c <= 'Z' || c == '_' || c == '-' || c == '.'
  }

  predicate All(s: string, f: char -> bool) {
    forall i | 0 <= i < |s| :: f(s[i])
  }

  predicate NotNewline(c: char) {
    c != '\n'
  }

  /** What the pattern captures after "ip": four groups of digits, the session's token, and perhaps
      a port, a domain, and a port of the connection itself. */
  datatype Tail = Tail(a: string, b: string, c: string, d: string, token: string,
                       port: Option<string>, domain: Option<string>, outer: Option<string>)

  predicate Few(s: string, most: nat) {
    1 <= |s| <= most && All(s, IsDigit)
  }

  predicate WellFormed(t: Tail) {
    && Few(t.a, 3) && Few(t.b, 3) && Few(t.c, 3) && Few(t.d, 3)
    && t.token != "" && All(t.token, TokenChar)
    && (t.port.Some? ==> Few(t.port.value, 5))
    && (t.domain.Some? ==> t.domain.value != "" && All(t.domain.value, DomainChar))
    && (t.outer.Some? ==> Few(t.outer.value, 5))
  }

  function Optional(mark: char, part: Option<string>): string {
    if part.Some? then [mark] + part.value else ""
  }

  function End2(t: Tail): string {
    Optional('.', t.domain) + Optional(':', t.outer)
  }

  function End1(t: Tail): string {
    t.token + (Optional('-', t.port) + End2(t))
  }

  function Text(t: Tail): string {
    t.a + ("-" + (t.b + ("-" + (t.c + ("-" + (t.d + ("-" + End1(t))))))))
  }

  /** The meaning of the pattern: the host is some prefix without a newline, "ip", and a tail. */
  predicate Splits(host: string, prefix: string, t: Tail) {
    WellFormed(t) && All(prefix, NotNewline) && host == prefix + "ip" + Text(t)
  }

  // ---------------------------------------------------------------------------------- Matching

  function Span(s: string, f: char -> bool): (n: nat)
    ensures n <= |s| && (forall i | 0 <= i < n :: f(s[i])) && (n < |s| ==> !f(s[n]))
  {
    if s == "" || !f(s[0]) then 0 else 1 + Span(s[1..], f)
  }

  /** A run of f at the head of a string whose rest does not continue it. */
  lemma SpanOf(x: string, rest: string, f: char -> bool)
    requires All(x, f) && (rest != "" ==> !f(rest[0]))
    ensures Span(x + rest, f) == |x| && (x + rest)[..|x|] == x && (x + rest)[|x|..] == rest
  {
    hide Span;
    assert forall i | 0 <= i < |x| :: (x + rest)[i] == x[i];
    assert rest != "" ==> (x + rest)[|x|] == rest[0];
  }

  datatype Taken = Taken(part: string, rest: string)

  /** Between one and `most` characters of class f, as many as there are. */
  function Take(s: string, f: char -> bool, most: nat): Option<Taken> {
    var n := Span(s, f);
    if 1 <= n <= most then Some(Taken(s[..n], s[n..])) else None
  }

  /** A group of digits followed by a dash. */
  function TakeGroup(s: string): Option<Taken> {
    match Take(s, IsDigit, 3)
    case Some(t) => if t.rest != "" && t.rest[0] == '-' then Some(Taken(t.part, t.rest[1..])) else None
    case None => None
  }

  datatype Part = Part(part: Option<string>, rest: string)

  /** A part that is there exactly if its mark is. */
  function TakeOptional(s: string, mark: char, f: char -> bool, most: nat): Option<Part> {
    if s == "" || s[0] != mark then Some(Part(None, s))
    else
      match Take(s[1..], f, most)
      case Some(t) => Some(Part(Some(t.part), t.rest))
      case None => None
  }

  function ParseEnd(s: string, a: string, b: string, c: string, d: string): Option<Tail> {
    match Take(s, TokenChar, |s|)
    case None => None
    case Some(token) =>
      match TakeOptional(token.rest, '-', IsDigit, 5)
      case None => None
      case Some(port) =>
        match TakeOptional(port.rest, '.', DomainChar, |port.rest|)
        case None => None
        case Some(domain) =>
          match TakeOptional(domain.rest, ':', IsDigit, 5)
          case None => None
          case Some(outer) =>
            if outer.rest == "" then Some(Tail(a, b, c, d, token.part, port.part, domain.part, outer.part)) else None
  }

  /** Matches the pattern's tail. No choice in it can go another way: every repetition is followed
      by a character it cannot take. */
  function ParseTail(s: string): Option<Tail> {
    match TakeGroup(s)
    case None => None
    case Some(a) =>
      match TakeGroup(a.rest)
      case None => None
      case Some(b) =>
        match TakeGroup(b.rest)
        case None => None
        case Some(c) =>
          match TakeGroup(c.rest)
          case None => None
          case Some(d) => ParseEnd(d.rest, a.part, b.part, c.part, d.part)
  }

  lemma TakeOf(x: string, rest: string, f: char -> bool, most: nat)
    requires 1 <= |x| <= most && All(x, f) && (rest != "" ==> !f(rest[0]))
    ensures Take(x + rest, f, most) == Some(Taken(x, rest))
  {
    SpanOf(x, rest, f);
  }

  lemma TakeGives(s: string, f: char -> bool, most: nat)
    ensures Take(s, f, most).Some? ==>
              var t := Take(s, f, most).value; s == t.part + t.rest && 1 <= |t.part| <= most && All(t.part, f)
  {
    hide Span;
  }

  lemma TakeGroupOf(x: string, rest: string)
    requires Few(x, 3)
    ensures TakeGroup(x + ("-" + rest)) == Some(Taken(x, rest))
  {
    SpanOf(x, "-" + rest, IsDigit);
    hide Span;
    assert ("-" + rest)[1..] == rest;
  }

  lemma TakeGroupGives(s: string)
    ensures TakeGroup(s).Some? ==> var t := TakeGroup(s).value; Few(t.part, 3) && s == t.part + ("-" + t.rest)
  {
    hide Span;
  }

  lemma TakeOptionalOf(part: Option<string>, rest: string, mark: char, f: char -> bool, most: nat)
    requires part.Some? ==> 1 <= |part.value| <= most && All(part.value, f)
    requires rest != "" ==> rest[0] != mark && !f(rest[0])
    ensures TakeOptional(Optional(mark, part) + rest, mark, f, most) == Some(Part(part, rest))
  {
    if part.Some? {
      SpanOf(part.value, rest, f);
      hide Span;
      assert (Optional(mark, part) + rest)[1..] == part.value + rest;
    } else {
      assert "" + rest == rest;
    }
  }

  lemma TakeOptionalGives(s: string, mark: char, f: char -> bool, most: nat)
    ensures TakeOptional(s, mark, f, most).Some? ==>
              var p := TakeOptional(s, mark, f, most).value;
              && s == Optional(mark, p.part) + p.rest
              && (p.part.Some? ==> 1 <= |p.part.value| <= most && All(p.part.value, f))
  {
    hide Span;
  }

  /** After each part comes a mark that the part cannot take. */
  lemma Marks(t: Tail)
    requires WellFormed(t)
    ensures var r2 := Optional(':', t.outer) + "";
            var r1 := Optional('.', t.domain) + r2;
            var r0 := Optional('-', t.port) + r1;
            && (r2 != "" ==> r2[0] == ':')
            && (r1 != "" ==> r1[0] == '.' || r1[0] == ':')
            && (r0 != "" ==> r0[0] == '-' || r0[0] == '.' || r0[0] == ':')
            && End1(t) == t.token + r0
  {
  }

  lemma ParseEndOf(t: Tail)
    requires WellFormed(t)
    ensures ParseEnd(End1(t), t.a, t.b, t.c, t.d) == Some(t)
  {
    var r2 := Optional(':', t.outer) + "";
    var r1 := Optional('.', t.domain) + r2;
    var r0 := Optional('-', t.port) + r1;
    hide *;
    OptionalsTaken(t);
    TokenTaken(t);
    EndTaken(t, r0, r1, r2);
  }

  lemma TokenTaken(t: Tail)
    requires WellFormed(t)
    ensures var r0 := Optional('-', t.port) + (Optional('.', t.domain) + (Optional(':', t.outer) + ""));
            Take(End1(t), TokenChar, |End1(t)|) == Some(Taken(t.token, r0))
  {
    Marks(t);
    var r0 := Optional('-', t.port) + (Optional('.', t.domain) + (Optional(':', t.outer) + ""));
    hide Take, Optional, End1, All;
    TakeOf(t.token, r0, TokenChar, |t.token + r0|);
  }

  lemma OptionalsTaken(t: Tail)
    requires WellFormed(t)
    ensures var r2 := Optional(':', t.outer) + "";
            var r1 := Optional('.', t.domain) + r2;
            var r0 := Optional('-', t.port) + r1;
            && TakeOptional(r0, '-', IsDigit, 5) == Some(Part(t.port, r1))
            && TakeOptional(r1, '.', DomainChar, |r1|) == Some(Part(t.domain, r2))
            && TakeOptional(r2, ':', IsDigit, 5) == Some(Part(t.outer, ""))
  {
    var r2 := Optional(':', t.outer) + "";
    var r1 := Optional('.', t.domain) + r2;
    Marks(t);
    if t.domain.Some? {
      DomainLength(t, r2);
    }
    hide TakeOptional, Optional, End1, All;
    TakeOptionalOf(t.port, r1, '-', IsDigit, 5);
    TakeOptionalOf(t.domain, r2, '.', DomainChar, |r1|);
    TakeOptionalOf(t.outer, "", ':', IsDigit, 5);
  }

  lemma EndTaken(t: Tail, r0: string, r1: string, r2: string)
    requires Take(End1(t), TokenChar, |End1(t)|) == Some(Taken(t.token, r0))
    requires TakeOptional(r0, '-', IsDigit, 5) == Some(Part(t.port, r1))
    requires TakeOptional(r1, '.', DomainChar, |r1|) == Some(Part(t.domain, r2))
    requires TakeOptional(r2, ':', IsDigit, 5) == Some(Part(t.outer, ""))
    ensures ParseEnd(End1(t), t.a, t.b, t.c, t.d) == Some(t)
  {
    hide Take, TakeOptional, End1;
  }

  lemma DomainLength(t: Tail, rest: string)
    ensures t.domain.Some? ==> |t.domain.value| <= |Optional('.', t.domain) + rest|
  {
  }

  /** Printing a tail and matching it are inverse, in both directions. */
  lemma ParsePrints(t: Tail)
    requires WellFormed(t)
    ensures ParseTail(Text(t)) == Some(t)
  {
    ParseEndOf(t);
    hide TakeGroup, ParseEnd, End1;
    TakeGroupOf(t.d, End1(t));
    TakeGroupOf(t.c, t.d + ("-" + End1(t)));
    TakeGroupOf(t.b, t.c + ("-" + (t.d + ("-" + End1(t)))));
    TakeGroupOf(t.a, t.b + ("-" + (t.c + ("-" + (t.d + ("-" + End1(t)))))));
  }

  lemma ParseEndGives(s: string, a: string, b: string, c: string, d: string)
    requires Few(a, 3) && Few(b, 3) && Few(c, 3) && Few(d, 3)
    ensures ParseEnd(s, a, b, c, d).Some? ==>
              var t := ParseEnd(s, a, b, c, d).value;
              WellFormed(t) && End1(t) == s && t.a == a && t.b == b && t.c == c && t.d == d
  {
    hide Take, TakeOptional, Optional, All;
    if ParseEnd(s, a, b, c, d).Some? {
      TakeGives(s, TokenChar, |s|);
      var token := Take(s, TokenChar, |s|).value;
      TakeOptionalGives(token.rest, '-', IsDigit, 5);
      var port := TakeOptional(token.rest, '-', IsDigit, 5).value;
      TakeOptionalGives(port.rest, '.', DomainChar, |port.rest|);
      var domain := TakeOptional(port.rest, '.', DomainChar, |port.rest|).value;
      TakeOptionalGives(domain.rest, ':', IsDigit, 5);
      var outer := TakeOptional(domain.rest, ':', IsDigit, 5).value;
      assert Optional(':', outer.part) + "" == Optional(':', outer.part);
    }
  }

  lemma PrintsParse(s: string)
    ensures ParseTail(s).Some? ==> WellFormed(ParseTail(s).value) && Text(ParseTail(s).value) == s
  {
    hide Span, ParseEnd, TakeGroup, End1;
    if ParseTail(s).Some? {
      TakeGroupGives(s);
      var a := TakeGroup(s).value;
      TakeGroupGives(a.rest);
      var b := TakeGroup(a.rest).value;
      TakeGroupGives(b.rest);
      var c := TakeGroup(b.rest).value;
      TakeGroupGives(c.rest);
      var d := TakeGroup(c.rest).value;
      ParseEndGives(d.rest, a.part, b.part, c.part, d.part);
    }
  }

  /** The pattern matches with its "ip" at position i. */
  predicate MatchesAt(host: string, i: nat) {
    && i + 2 <= |host| && host[i] == 'i' && host[i + 1] == 'p'
    && All(host[..i], NotNewline)
    && ParseTail(host[i + 2..]).Some?
  }

  /** The last such position below n: a greedy `.*` gives up characters from the right. */
  function LastMatch(host: string, n: nat): Option<nat> {
    if n == 0 then None
    else if MatchesAt(host, n - 1) then Some(n - 1)
    else LastMatch(host, n - 1)
  }

  lemma {:induction false} LastMatchIs(host: string, n: nat)
    ensures match LastMatch(host, n)
            case Some(i) => i < n && MatchesAt(host, i) && forall j | i < j < n :: !MatchesAt(host, j)
            case None => forall j | 0 <= j < n :: !MatchesAt(host, j)
  {
    hide MatchesAt;
    if n > 0 {
      LastMatchIs(host, n - 1);
    }
  }

  /** The matcher agrees with the pattern's meaning: it finds a split if there is one, and then the
      one with the longest prefix, which leaves no choice for the rest. */
  lemma GreedyMatch(host: string, prefix: string, t: Tail)
    requires Splits(host, prefix, t)
    ensures LastMatch(host, |host|).Some? && MatchesAt(host, LastMatch(host, |host|).value)
    ensures var i := LastMatch(host, |host|).value;
            && |prefix| <= i && Splits(host, host[..i], ParseTail(host[i + 2..]).value)
            && (i == |prefix| ==> ParseTail(host[i + 2..]).value == t)
  {
    hide ParseTail, Text, WellFormed;
    SplitsMatch(host, prefix, t);
    LastMatchIs(host, |host|);
    MatchesSplit(host, LastMatch(host, |host|).value);
  }

  lemma CutOut(prefix: string, rest: string)
    ensures var host := prefix + "ip" + rest;
            && host[..|prefix|] == prefix && host[|prefix| + 2..] == rest
            && host[|prefix|] == 'i' && host[|prefix| + 1] == 'p'
  {
  }

  lemma CutIn(host: string, i: nat)
    ensures i + 2 <= |host| && host[i] == 'i' && host[i + 1] == 'p' ==> host == host[..i] + "ip" + host[i + 2..]
  {
  }

  lemma SplitsMatch(host: string, prefix: string, t: Tail)
    requires Splits(host, prefix, t)
    ensures MatchesAt(host, |prefix|) && ParseTail(host[|prefix| + 2..]) == Some(t)
  {
    ParsePrints(t);
    CutOut(prefix, Text(t));
    hide ParseTail, Text, WellFormed;
  }

  lemma MatchesSplit(host: string, i: nat)
    requires MatchesAt(host, i)
    ensures Splits(host, host[..i], ParseTail(host[i + 2..]).value)
  {
    PrintsParse(host[i + 2..]);
    hide ParseTail, Text, WellFormed, All;
    CutIn(host, i);
  }
}

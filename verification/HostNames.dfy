/** Exposed-port host names, written and read back. */
module HostNames {
  import opened Options
  import opened Decimal
  import opened Router

  // ------------------------------------------------------------------------------------ Decoding

  datatype Target = Target(ip: string, port: int, session: string)

  datatype Decoded = Ok(target: Target) | NoInstance | BadOctet | BadPort

  function Octets(t: Tail): seq<string> {
    [t.a, t.b, t.c, t.d]
  }

  function Dotted(a: string, b: string, c: string, d: string): string {
    a + "." + b + "." + c + "." + d
  }

  function DecodeTail(t: Tail, default: int): Decoded
    requires WellFormed(t)
  {
    if exists i | 0 <= i < 4 :: Number(Octets(t)[i]) > 255 then BadOctet
    else if t.port.None? then Ok(Target(Dotted(t.a, t.b, t.c, t.d), default, t.token))
    else if Number(t.port.value) < 1 || Number(t.port.value) > 65535 then BadPort
    else Ok(Target(Dotted(t.a, t.b, t.c, t.d), Number(t.port.value), t.token))
  }

  /** The host carries an instance at all. */
  predicate Encodes(host: string) {
    LastMatch(host, |host|).Some?
  }

  function Captured(host: string): (t: Tail)
    requires Encodes(host)
    ensures WellFormed(t)
  {
    var i := LastMatch(host, |host|).value;
    LastMatchIs(host, |host|);
    MatchesSplit(host, i);
    ParseTail(host[i + 2..]).value
  }

  function Decode(host: string, default: int): Decoded {
    if Encodes(host) then DecodeTail(Captured(host), default) else NoInstance
  }

  method DecodeHost(host: string, default: int) returns (r: Decoded)
    ensures r == Decode(host, default)
  {
    hide ParseTail;
    if !Encodes(host) {
      return NoInstance;
    }
    var t := Captured(host);
    for i := 0 to 4
      invariant forall k | 0 <= k < i :: Number(Octets(t)[k]) <= 255
    {
      if Number(Octets(t)[i]) > 255 {
        return BadOctet;
      }
    }
    var port := default;
    if t.port.Some? {
      var p := Number(t.port.value);
      if p < 1 || p > 65535 {
        return BadPort;
      }
      port := p;
    }
    return Ok(Target(Dotted(t.a, t.b, t.c, t.d), port, t.token));
  }

  // ------------------------------------------------------------------------------------ Encoding

  /** The characters of s that a token may hold. */
  function Keep(s: string): (r: string)
    ensures All(r, TokenChar)
  {
    if s == "" then "" else if TokenChar(s[0]) then [s[0]] + Keep(s[1..]) else Keep(s[1..])
  }

  /** The page's token for a pod, and the server's for the same name. */
  function PageToken(pod: string): (r: string)
    ensures r != "" && All(r, TokenChar)
  {
    if Keep(pod) == "" then "i0" else Keep(pod)
  }

  method HostToken(s: string) returns (r: string)
    ensures r == if Keep(s) == "" then "s0" else Keep(s)
  {
    var b := "";
    for i := 0 to |s|
      invariant b + Keep(s[i..]) == Keep(s)
    {
      assert s[i..][1..] == s[i + 1..];
      if TokenChar(s[i]) {
        b := b + [s[i]];
      }
    }
    assert s[|s|..] == "";
    assert b + "" == b;
    r := if |b| == 0 then "s0" else b;
  }

  function Replace(s: string, from: char, to: char): (r: string)
    ensures |r| == |s| && forall i | 0 <= i < |s| :: r[i] == if s[i] == from then to else s[i]
  {
    if s == "" then "" else [if s[0] == from then to else s[0]] + Replace(s[1..], from, to)
  }

  /** The host part of an exposed-port link. */
  function PageHost(hostPrefix: string, ip: string, pod: string, port: string, routerHost: string): string {
    (if hostPrefix != "" then hostPrefix + "-" else "") + "ip" + Replace(ip, '.', '-') + "-" + PageToken(pod) + "-"
      + port + "." + routerHost
  }

  // --------------------------------------------------------------------------------- Round trip

  /** A router host as it is configured: a domain, perhaps with a port. */
  predicate RouterHost(host: string, domain: string, outer: Option<string>) {
    && host == domain + Optional(':', outer)
    && domain != "" && All(domain, DomainChar) && (outer.Some? ==> Few(outer.value, 5))
  }

  function Lead(hostPrefix: string): string {
    if hostPrefix != "" then hostPrefix + "-" else ""
  }

  function Dashed(a: string, b: string, c: string, d: string): string {
    a + "-" + b + "-" + c + "-" + d
  }

  /** What stands between a token and the dot after it: nothing, or a dash and a port. */
  predicate PortMark(mid: string) {
    mid == "" || (mid[0] == '-' && AllDigits(mid[1..]))
  }

  /** Everything before the router host. */
  function Head(lead: string, dashed: string, token: string, mid: string): string {
    lead + "ip" + dashed + "-" + token + mid + "."
  }

  lemma DashesForDots(a: string, b: string, c: string, d: string)
    requires AllDigits(a) && AllDigits(b) && AllDigits(c) && AllDigits(d)
    ensures Replace(Dotted(a, b, c, d), '.', '-') == Dashed(a, b, c, d)
  {
    hide Replace;
  }

  /** A tail has two dashes with only digits between them before anything else. */
  lemma TailNeedsDashes(u: string, mid: string, w: string, t: Tail)
    requires WellFormed(t) && PortMark(mid) && All(u, TokenChar)
    ensures Text(t) != u + mid + "." + w
  {
    var s, y := u + mid + "." + w, Text(t);
    hide End1;
    assert y[|t.a|] == '-' && y[|t.a| + 1 + |t.b|] == '-';
    assert forall k | 0 <= k < |t.a| :: IsDigit(y[k]);
    assert forall k | |t.a| + 1 <= k < |t.a| + 1 + |t.b| :: IsDigit(y[k]);
    assert forall k | 0 <= k < |u| :: TokenChar(s[k]);
    assert s[|u| + |mid|] == '.';
    if mid != "" {
      assert s[|u|] == '-';
      assert forall k | |u| + 1 <= k < |u| + |mid| :: s[k] == mid[1..][k - |u| - 1];
    }
  }

  predicate DigitOrDash(c: char) {
    IsDigit(c) || c == '-'
  }

  /** Outside the token there is no second letter i. */
  lemma NoOtherI(lead: string, dashed: string, token: string, mid: string, rest: string, j: nat)
    requires PortMark(mid) && All(dashed, DigitOrDash)
    requires var p := |lead| + 2 + |dashed| + 1;
             |lead| < j < p || p + |token| <= j < |Head(lead, dashed, token, mid)|
    ensures (Head(lead, dashed, token, mid) + rest)[j] != 'i'
  {
    var p := |lead| + 2 + |dashed| + 1;
    var front, back := lead + "ip" + dashed + "-", mid + ".";
    assert Head(lead, dashed, token, mid) == front + token + back;
    assert forall k | 1 <= k < |mid| :: mid[k] == mid[1..][k - 1];
    if j < p {
      assert (Head(lead, dashed, token, mid) + rest)[j] == front[j];
    } else {
      assert (Head(lead, dashed, token, mid) + rest)[j] == back[j - p - |token|];
    }
  }

  /** Within the token a second "ip" finds too few dashes. */
  lemma NoneInToken(front: string, token: string, mid: string, rest: string, k: nat)
    requires All(token, TokenChar) && PortMark(mid) && k < |token|
    ensures !MatchesAt(front + token + mid + "." + rest, |front| + k)
  {
    var host := front + token + mid + "." + rest;
    if k + 2 <= |token| {
      var u := token[k + 2..];
      assert host[|front| + k + 2..] == u + mid + "." + rest;
      PrintsParse(u + mid + "." + rest);
      if ParseTail(u + mid + "." + rest).Some? {
        TailNeedsDashes(u, mid, rest, ParseTail(u + mid + "." + rest).value);
      }
    } else {
      assert host[|front| + k + 1] == '-' || host[|front| + k + 1] == '.';
    }
    hide ParseTail;
  }

  /** No "ip" between the real one and the router host matches. */
  lemma NoneInside(lead: string, dashed: string, token: string, mid: string, rest: string, j: nat)
    requires All(token, TokenChar) && PortMark(mid) && All(dashed, DigitOrDash)
    requires |lead| < j < |Head(lead, dashed, token, mid)|
    ensures !MatchesAt(Head(lead, dashed, token, mid) + rest, j)
  {
    hide ParseTail, All, PortMark;
    var front := lead + "ip" + dashed + "-";
    if |front| <= j < |front| + |token| {
      NoneInToken(front, token, mid, rest, j - |front|);
      assert Head(lead, dashed, token, mid) + rest == front + token + mid + "." + rest;
    } else {
      NoOtherI(lead, dashed, token, mid, rest, j);
    }
  }

  /** Inside the router host the pattern matches exactly where it matches the router host alone. */
  lemma MatchesInRest(head: string, rest: string, k: nat)
    requires All(head, NotNewline)
    ensures MatchesAt(head + rest, |head| + k) <==> MatchesAt(rest, k)
    ensures k + 2 <= |rest| ==> (head + rest)[|head| + k + 2..] == rest[k + 2..]
  {
    hide ParseTail;
    var host := head + rest;
    if k + 2 <= |rest| {
      assert host[|head| + k + 2..] == rest[k + 2..];
      assert host[..|head| + k] == head + rest[..k];
      assert forall i | 0 <= i < k :: host[|head| + i] == rest[..k][i];
    }
  }

  lemma LastMatchUnique(host: string, i: nat)
    requires i < |host| && MatchesAt(host, i) && forall j | i < j < |host| :: !MatchesAt(host, j)
    ensures LastMatch(host, |host|) == Some(i)
  {
    hide MatchesAt;
    LastMatchIs(host, |host|);
  }

  /** Whose instance the whole host names: the router host's own, if it encodes one; else the one
      written in front of it. */
  lemma WhoseMatch(lead: string, dashed: string, token: string, mid: string, rest: string)
    requires All(lead, NotNewline) && All(token, TokenChar) && PortMark(mid)
    requires All(dashed, DigitOrDash)
    requires MatchesAt(Head(lead, dashed, token, mid) + rest, |lead|)
    ensures var host := Head(lead, dashed, token, mid) + rest;
            && LastMatch(host, |host|) ==
               (if Encodes(rest) then Some(|Head(lead, dashed, token, mid)| + LastMatch(rest, |rest|).value)
                else Some(|lead|))
            && (Encodes(rest) ==> Captured(host) == Captured(rest))
  {
    hide *;
    HeadHasNoNewline(lead, dashed, token, mid);
    NoneBetween(lead, dashed, token, mid, rest);
    LaterMatch(Head(lead, dashed, token, mid), rest, |lead|);
  }

  lemma NoneBetween(lead: string, dashed: string, token: string, mid: string, rest: string)
    requires All(lead, NotNewline) && All(token, TokenChar) && PortMark(mid)
    requires All(dashed, DigitOrDash)
    ensures |lead| < |Head(lead, dashed, token, mid)|
    ensures forall j | |lead| < j < |Head(lead, dashed, token, mid)| ::
            !MatchesAt(Head(lead, dashed, token, mid) + rest, j)
  {
    var head := Head(lead, dashed, token, mid);
    assert |lead| < |head|;
    hide Head, MatchesAt, All, PortMark;
    forall j | |lead| < j < |head|
      ensures !MatchesAt(head + rest, j)
    {
      NoneInside(lead, dashed, token, mid, rest, j);
    }
  }

  lemma LaterMatch(head: string, rest: string, i: nat)
    requires All(head, NotNewline) && i < |head| && MatchesAt(head + rest, i)
    requires forall j | i < j < |head| :: !MatchesAt(head + rest, j)
    ensures var host := head + rest;
            && LastMatch(host, |host|) == (if Encodes(rest) then Some(|head| + LastMatch(rest, |rest|).value)
                                           else Some(i))
            && (Encodes(rest) ==> Captured(host) == Captured(rest))
  {
    var host := head + rest;
    hide MatchesAt, ParseTail, LastMatch;
    LastMatchIs(rest, |rest|);
    if Encodes(rest) {
      var k := LastMatch(rest, |rest|).value;
      MatchesInRest(head, rest, k);
      NoneLater(head, rest, k + 1);
      LastMatchUnique(host, |head| + k);
      CapturedInRest(head, rest);
    } else {
      NoneLater(head, rest, 0);
      LastMatchUnique(host, i);
    }
  }

  lemma NoneLater(head: string, rest: string, k: nat)
    requires All(head, NotNewline) && k <= |rest| && forall j | k <= j < |rest| :: !MatchesAt(rest, j)
    ensures forall j | |head| + k <= j < |head + rest| :: !MatchesAt(head + rest, j)
  {
    hide MatchesAt;
    forall j | |head| + k <= j < |head + rest|
      ensures !MatchesAt(head + rest, j)
    {
      MatchesInRest(head, rest, j - |head|);
      assert !MatchesAt(rest, j - |head|);
    }
  }

  lemma CapturedInRest(head: string, rest: string)
    requires Encodes(rest) && Encodes(head + rest)
    requires LastMatch(head + rest, |head + rest|) == Some(|head| + LastMatch(rest, |rest|).value)
    ensures Captured(head + rest) == Captured(rest)
  {
    hide LastMatch, ParseTail;
    var k := LastMatch(rest, |rest|).value;
    LastMatchIs(rest, |rest|);
    assert (head + rest)[|head| + k + 2..] == rest[k + 2..];
  }

  lemma HeadHasNoNewline(lead: string, dashed: string, token: string, mid: string)
    ensures All(lead, NotNewline) && All(token, TokenChar) && PortMark(mid) && All(dashed, DigitOrDash) ==>
              All(Head(lead, dashed, token, mid), NotNewline) && |Head(lead, dashed, token, mid)| > |lead|
  {
    assert forall k | 1 <= k < |mid| :: mid[k] == mid[1..][k - 1];
  }

  /** The tail the page writes in front of a router host. */
  function Written(a: nat, b: nat, c: nat, d: nat, pod: string, port: nat, domain: string,
                   outer: Option<string>): Tail {
    Tail(Digits(a), Digits(b), Digits(c), Digits(d), PageToken(pod), Some(Digits(port)), Some(domain), outer)
  }

  lemma WrittenIsWellFormed(a: nat, b: nat, c: nat, d: nat, pod: string, port: nat, domain: string,
                            outer: Option<string>)
    requires a < 256 && b < 256 && c < 256 && d < 256 && port < 65536
    requires RouterHost(domain + Optional(':', outer), domain, outer)
    ensures WellFormed(Written(a, b, c, d, pod, port, domain, outer))
  {
    assert Power(1) == 10 && Power(2) == 100 && Power(3) == 1000;
    assert Power(4) == 10000 && Power(5) == 100000;
    DigitCount(a, 3, 1000);
    DigitCount(b, 3, 1000);
    DigitCount(c, 3, 1000);
    DigitCount(d, 3, 1000);
    DigitCount(port, 5, 100000);
    hide Digits, Power, PageToken;
  }

  lemma TextRegroups(t: Tail)
    ensures Text(t) == Dashed(t.a, t.b, t.c, t.d) + ("-" + End1(t))
  {
    hide End1;
  }

  lemma WrittenEnd(t: Tail)
    requires t.domain.Some?
    ensures End1(t) == t.token + Optional('-', t.port) + "." + (t.domain.value + Optional(':', t.outer))
  {
    var o := Optional(':', t.outer);
    hide Optional;
    assert Optional('.', t.domain) == "." + t.domain.value by {
      Marked('.', t.domain);
    }
    assert ("." + t.domain.value) + o == "." + (t.domain.value + o);
  }

  lemma Marked(mark: char, part: Option<string>)
    ensures part.Some? ==> Optional(mark, part) == [mark] + part.value
  {
  }

  lemma HeadRegroups(lead: string, dashed: string, token: string, mid: string, rest: string)
    ensures Head(lead, dashed, token, mid) + rest == lead + "ip" + (dashed + ("-" + (token + mid + "." + rest)))
  {
    assert dashed + ("-" + (token + mid + "." + rest)) == dashed + "-" + token + mid + "." + rest;
    assert lead + "ip" + (dashed + "-" + token + mid + "." + rest)
      == lead + "ip" + dashed + "-" + token + mid + "." + rest;
  }

  lemma PortMarks(port: Option<string>)
    requires port.Some? ==> AllDigits(port.value)
    ensures PortMark(Optional('-', port))
  {
  }

  /** A tail in front of a router host. */
  lemma TailShape(lead: string, t: Tail)
    requires t.domain.Some?
    ensures var rest := t.domain.value + Optional(':', t.outer);
            Head(lead, Dashed(t.a, t.b, t.c, t.d), t.token, Optional('-', t.port)) + rest == lead + "ip" + Text(t)
  {
    hide Dashed, Text, End1, Optional;
    TextRegroups(t);
    WrittenEnd(t);
    HeadRegroups(lead, Dashed(t.a, t.b, t.c, t.d), t.token, Optional('-', t.port),
                 t.domain.value + Optional(':', t.outer));
  }

  lemma PageHostShape(hostPrefix: string, a: nat, b: nat, c: nat, d: nat, pod: string, port: nat, domain: string,
                      outer: Option<string>)
    ensures var t := Written(a, b, c, d, pod, port, domain, outer);
            var rest := domain + Optional(':', outer);
            var dashed := Dashed(t.a, t.b, t.c, t.d);
            var host := PageHost(hostPrefix, Dotted(t.a, t.b, t.c, t.d), pod, Digits(port), rest);
            && host == Head(Lead(hostPrefix), dashed, PageToken(pod), "-" + Digits(port)) + rest
            && host == Lead(hostPrefix) + "ip" + Text(t)
            && All(dashed, DigitOrDash)
  {
    var t := Written(a, b, c, d, pod, port, domain, outer);
    DashesForDots(t.a, t.b, t.c, t.d);
    assert All(Dashed(t.a, t.b, t.c, t.d), DigitOrDash);
    Marked('-', t.port);
    hide Digits, PageToken, Replace, Dashed, Text, End1, Optional, Dotted, All;
    TailShape(Lead(hostPrefix), t);
    PageHostIs(hostPrefix, Dotted(t.a, t.b, t.c, t.d), pod, Digits(port), domain + Optional(':', outer),
               Dashed(t.a, t.b, t.c, t.d));
  }

  lemma PageHostIs(hostPrefix: string, ip: string, pod: string, port: string, rest: string, dashed: string)
    requires Replace(ip, '.', '-') == dashed
    ensures PageHost(hostPrefix, ip, pod, port, rest)
         == Head(Lead(hostPrefix), dashed, PageToken(pod), "-" + port) + rest
  {
    hide Replace, PageToken;
    var lead := Lead(hostPrefix);
    assert lead + "ip" + dashed + "-" + PageToken(pod) + "-" + port + "." + rest
        == lead + "ip" + dashed + "-" + PageToken(pod) + ("-" + port) + "." + rest;
  }

  /** If the last match is where a split puts it, that split is what is captured. */
  lemma CapturedIs(host: string, lead: string, t: Tail)
    requires Splits(host, lead, t) && LastMatch(host, |host|) == Some(|lead|)
    ensures Encodes(host) && Captured(host) == t
  {
    SplitsMatch(host, lead, t);
    hide ParseTail, LastMatch, Splits;
  }

  lemma OctetsFit(t: Tail, a: nat, b: nat, c: nat, d: nat, port: nat, default: int)
    requires a < 256 && b < 256 && c < 256 && d < 256 && 1 <= port <= 65535 && WellFormed(t)
    requires t.a == Digits(a) && t.b == Digits(b) && t.c == Digits(c) && t.d == Digits(d)
             && t.port == Some(Digits(port))
    ensures DecodeTail(t, default) == Ok(Target(Dotted(t.a, t.b, t.c, t.d), port, t.token))
  {
    NumberOfDigits(a);
    NumberOfDigits(b);
    NumberOfDigits(c);
    NumberOfDigits(d);
    NumberOfDigits(port);
    hide Number, Digits;
  }

  lemma LeadHasNoNewline(hostPrefix: string)
    ensures All(hostPrefix, NotNewline) ==> All(Lead(hostPrefix), NotNewline)
  {
  }

  lemma WrittenIsCaptured(lead: string, t: Tail, rest: string, host: string)
    requires All(t.token, TokenChar) && (t.port.Some? ==> AllDigits(t.port.value))
    requires All(Dashed(t.a, t.b, t.c, t.d), DigitOrDash)
    requires host == Head(lead, Dashed(t.a, t.b, t.c, t.d), t.token, Optional('-', t.port)) + rest
    requires Splits(host, lead, t)
    ensures Encodes(host) && Captured(host) == if Encodes(rest) then Captured(rest) else t
  {
    PortMarks(t.port);
    SplitsMatch(host, lead, t);
    WhoseMatch(lead, Dashed(t.a, t.b, t.c, t.d), t.token, Optional('-', t.port), rest);
    hide Splits, Head, Dashed, LastMatch, MatchesAt, All, AllDigits, Optional;
    if !Encodes(rest) {
      CapturedIs(host, lead, t);
    }
  }

  lemma WrittenDecodes(hostPrefix: string, a: nat, b: nat, c: nat, d: nat, pod: string, port: nat,
                       domain: string, outer: Option<string>)
    requires WellFormed(Written(a, b, c, d, pod, port, domain, outer)) && All(hostPrefix, NotNewline)
    ensures var t := Written(a, b, c, d, pod, port, domain, outer);
            var rest := domain + Optional(':', outer);
            var host := PageHost(hostPrefix, Dotted(t.a, t.b, t.c, t.d), pod, Digits(port), rest);
            Encodes(host) && Captured(host) == if Encodes(rest) then Captured(rest) else t
  {
    var t := Written(a, b, c, d, pod, port, domain, outer);
    var rest := domain + Optional(':', outer);
    var host := PageHost(hostPrefix, Dotted(t.a, t.b, t.c, t.d), pod, Digits(port), rest);
    hide Text, PageHost, WellFormed, Encodes, Head, All, Dotted, Dashed, Captured, Optional, Lead, Digits, PageToken,
         AllDigits;
    Marked('-', t.port);
    PageHostShape(hostPrefix, a, b, c, d, pod, port, domain, outer);
    LeadHasNoNewline(hostPrefix);
    WrittenIsCaptured(Lead(hostPrefix), t, rest, host);
  }

  /** The host round trip. Whatever newline-free prefix an author chooses, the name the page writes
      for an instance decodes to that instance, unless the router's own host encodes one, which then
      is what every name under it decodes to. */
  lemma HostRoundTrip(hostPrefix: string, a: nat, b: nat, c: nat, d: nat, pod: string, port: nat,
                      domain: string, outer: Option<string>, default: int)
    requires a < 256 && b < 256 && c < 256 && d < 256 && 1 <= port <= 65535
    requires RouterHost(domain + Optional(':', outer), domain, outer) && All(hostPrefix, NotNewline)
    ensures var routerHost := domain + Optional(':', outer);
            var ip := Dotted(Digits(a), Digits(b), Digits(c), Digits(d));
            Decode(PageHost(hostPrefix, ip, pod, Digits(port), routerHost), default) ==
            if Encodes(routerHost) then Decode(routerHost, default) else Ok(Target(ip, port, PageToken(pod)))
  {
    var t := Written(a, b, c, d, pod, port, domain, outer);
    WrittenIsWellFormed(a, b, c, d, pod, port, domain, outer);
    OctetsFit(t, a, b, c, d, port, default);
    hide PageHost, WellFormed, Encodes, DecodeTail, Dotted, Captured, Optional, Digits, PageToken;
    WrittenDecodes(hostPrefix, a, b, c, d, pod, port, domain, outer);
  }

  /** A host written out: whatever comes before "ip", four groups of digits, a token, perhaps a port, and a
      router host. */
  function WrittenHost(lead: string, a: string, b: string, c: string, d: string, token: string, port: Option<string>,
                       routerHost: string): string {
    lead + "ip" + a + "-" + b + "-" + c + "-" + d + "-" + token
    + (if port.Some? then "-" + port.value else "") + "." + routerHost
  }

  predicate IsGroup(s: string, most: nat) {
    1 <= |s| <= most && forall i | 0 <= i < |s| :: '0' <= s[i] <= '9'
  }

  predicate IsToken(token: string) {
    token != "" && forall i | 0 <= i < |token| :: '0' <= token[i] <= '9' || 'a' <= token[i] <= 'z'
  }

  /** Groups of one to three digits, a token of digits and small letters, a port of one to five digits. */
  predicate Spellable(a: string, b: string, c: string, d: string, token: string, port: Option<string>) {
    && IsGroup(a, 3) && IsGroup(b, 3) && IsGroup(c, 3) && IsGroup(d, 3)
    && IsToken(token) && (port.Some? ==> IsGroup(port.value, 5))
  }

  lemma SpelledTail(a: string, b: string, c: string, d: string, token: string, port: Option<string>, domain: string,
                    outer: Option<string>)
    requires Spellable(a, b, c, d, token, port) && RouterHost(domain + Optional(':', outer), domain, outer)
    ensures WellFormed(Tail(a, b, c, d, token, port, Some(domain), outer))
    ensures AllDigits(a) && AllDigits(b) && AllDigits(c) && AllDigits(d) && All(Dashed(a, b, c, d), DigitOrDash)
    ensures port.Some? ==> AllDigits(port.value)
  {
  }

  lemma WrittenHostShape(lead: string, t: Tail)
    requires t.domain.Some?
    ensures var rest := t.domain.value + Optional(':', t.outer);
            WrittenHost(lead, t.a, t.b, t.c, t.d, t.token, t.port, rest)
            == Head(lead, Dashed(t.a, t.b, t.c, t.d), t.token, Optional('-', t.port)) + rest
  {
    Marked('-', t.port);
    var rest, mid := t.domain.value + Optional(':', t.outer), Optional('-', t.port);
    assert mid == if t.port.Some? then "-" + t.port.value else "";
    hide Optional;
    assert lead + "ip" + t.a + "-" + t.b + "-" + t.c + "-" + t.d + "-" + t.token + mid + "."
        == lead + "ip" + (t.a + "-" + t.b + "-" + t.c + "-" + t.d) + "-" + t.token + mid + ".";
  }

  lemma WrittenHostCaptured(lead: string, t: Tail)
    requires WellFormed(t) && t.domain.Some? && All(lead, NotNewline) && All(Dashed(t.a, t.b, t.c, t.d), DigitOrDash)
    requires !Encodes(t.domain.value + Optional(':', t.outer))
    ensures var host := WrittenHost(lead, t.a, t.b, t.c, t.d, t.token, t.port, t.domain.value + Optional(':', t.outer));
            Encodes(host) && Captured(host) == t
  {
    var rest := t.domain.value + Optional(':', t.outer);
    assert All(t.token, TokenChar) && (t.port.Some? ==> AllDigits(t.port.value));
    hide WellFormed, Dashed, Text, Optional, Encodes, Captured, Head, WrittenHost;
    WrittenHostShape(lead, t);
    TailShape(lead, t);
    WrittenIsCaptured(lead, t, rest, WrittenHost(lead, t.a, t.b, t.c, t.d, t.token, t.port, rest));
  }

  /** Under a router host that encodes nothing of its own, whatever its lead. */
  predicate UnderPlainRouter(lead: string, domain: string, outer: Option<string>) {
    && All(lead, NotNewline)
    && RouterHost(domain + Optional(':', outer), domain, outer) && !Encodes(domain + Optional(':', outer))
  }

  predicate IsDomain(domain: string) {
    domain != "" && forall i | 0 <= i < |domain| ::
      || 'a' <= domain[i] <= 'z' || 'A' <= domain[i] <= 'Z' || '0' <= domain[i] <= '9'
      || domain[i] == '_' || domain[i] == '-' || domain[i] == '.'
  }

  /** The parts of a host that encodes an instance. */
  predicate IsTail(t: Tail) {
    && Spellable(t.a, t.b, t.c, t.d, t.token, t.port)
    && (t.domain.Some? ==> IsDomain(t.domain.value)) && (t.outer.Some? ==> IsGroup(t.outer.value, 5))
  }

  function WrittenTail(t: Tail): string {
    t.a + "-" + t.b + "-" + t.c + "-" + t.d + "-" + t.token
    + (if t.port.Some? then "-" + t.port.value else "") + (if t.domain.Some? then "." + t.domain.value else "")
    + (if t.outer.Some? then ":" + t.outer.value else "")
  }

  lemma TailIs(t: Tail)
    ensures WellFormed(t) <==> IsTail(t)
  {
  }

  lemma TextIs(t: Tail)
    ensures Text(t) == WrittenTail(t)
  {
    var w := t.a + "-" + t.b + "-" + t.c + "-" + t.d + "-";
    var o, p, q := Optional('-', t.port), Optional('.', t.domain), Optional(':', t.outer);
    assert Text(t) == w + (t.token + (o + (p + q)));
    assert w + (t.token + (o + (p + q))) == w + t.token + o + p + q;
  }

  /** A host encodes an instance exactly if it is some text without a newline, "ip", and such parts. */
  lemma EncodesIff(host: string)
    ensures Encodes(host) <==>
            exists lead: string, t: Tail ::
              (forall i | 0 <= i < |lead| :: lead[i] != '\n') && IsTail(t) && host == lead + "ip" + WrittenTail(t)
  {
    hide WellFormed, IsTail, Text, WrittenTail, LastMatch, ParseTail;
    if Encodes(host) {
      LastMatchIs(host, |host|);
      MatchesSplit(host, LastMatch(host, |host|).value);
      var i := LastMatch(host, |host|).value;
      var t := ParseTail(host[i + 2..]).value;
      TailIs(t);
      TextIs(t);
    }
    forall lead: string, t: Tail |
      (forall i | 0 <= i < |lead| :: lead[i] != '\n') && IsTail(t) && host == lead + "ip" + WrittenTail(t)
      ensures Encodes(host)
    {
      TailIs(t);
      TextIs(t);
      GreedyMatch(host, lead, t);
    }
  }

  /** Every written host, decoded. Under a router host that encodes nothing of its own, a group above 255 is
      refused, and else a port outside 1 to 65535; otherwise the host means the dotted groups, the port or, without
      one, the default, and the token. */
  lemma WrittenHostDecodes(lead: string, a: string, b: string, c: string, d: string, token: string,
                           port: Option<string>, domain: string, outer: Option<string>, default: int)
    requires Spellable(a, b, c, d, token, port) && UnderPlainRouter(lead, domain, outer)
    ensures AllDigits(a) && AllDigits(b) && AllDigits(c) && AllDigits(d) && (port.Some? ==> AllDigits(port.value))
    ensures Decode(WrittenHost(lead, a, b, c, d, token, port, domain + Optional(':', outer)), default)
         == if Number(a) > 255 || Number(b) > 255 || Number(c) > 255 || Number(d) > 255 then BadOctet
            else if port.None? then Ok(Target(a + "." + b + "." + c + "." + d, default, token))
            else if Number(port.value) == 0 || Number(port.value) > 65535 then BadPort
            else Ok(Target(a + "." + b + "." + c + "." + d, Number(port.value), token))
  {
    var t := Tail(a, b, c, d, token, port, Some(domain), outer);
    SpelledTail(a, b, c, d, token, port, domain, outer);
    TailDecodes(t, default);
    hide WellFormed, Dashed, Encodes, Captured, WrittenHost, DecodeTail, Optional, Number, AllDigits, RouterHost,
         Spellable;
    WrittenHostCaptured(lead, t);
  }

  lemma TailDecodes(t: Tail, default: int)
    requires WellFormed(t)
    ensures DecodeTail(t, default)
         == if Number(t.a) > 255 || Number(t.b) > 255 || Number(t.c) > 255 || Number(t.d) > 255 then BadOctet
            else if t.port.None? then Ok(Target(t.a + "." + t.b + "." + t.c + "." + t.d, default, t.token))
            else if Number(t.port.value) == 0 || Number(t.port.value) > 65535 then BadPort
            else Ok(Target(t.a + "." + t.b + "." + t.c + "." + t.d, Number(t.port.value), t.token))
  {
    hide Number;
    var o := Octets(t);
    assert o[0] == t.a && o[1] == t.b && o[2] == t.c && o[3] == t.d;
  }

  lemma ThreeDigits(n: nat)
    requires n < 1000
    ensures IsGroup(Digits(n), 3) && AllDigits(Digits(n)) && Number(Digits(n)) == n
  {
    assert Power(1) == 10 && Power(2) == 100 && Power(3) == 1000;
    DigitCount(n, 3, 1000);
    NumberOfDigits(n);
    hide Digits, Number;
  }

  lemma FiveDigits(n: nat)
    requires n < 100000
    ensures IsGroup(Digits(n), 5) && AllDigits(Digits(n)) && Number(Digits(n)) == n
  {
    assert Power(1) == 10 && Power(2) == 100 && Power(3) == 1000 && Power(4) == 10000 && Power(5) == 100000;
    DigitCount(n, 5, 100000);
    NumberOfDigits(n);
    hide Digits, Number;
  }

  lemma NumbersSpellable(a: nat, b: nat, c: nat, d: nat, token: string, port: Option<string>)
    requires a < 1000 && b < 1000 && c < 1000 && d < 1000 && IsToken(token)
    requires port.Some? ==> IsGroup(port.value, 5)
    ensures Spellable(Digits(a), Digits(b), Digits(c), Digits(d), token, port)
    ensures AllDigits(Digits(a)) && AllDigits(Digits(b)) && AllDigits(Digits(c)) && AllDigits(Digits(d))
    ensures Number(Digits(a)) == a && Number(Digits(b)) == b && Number(Digits(c)) == c && Number(Digits(d)) == d
  {
    ThreeDigits(a);
    ThreeDigits(b);
    ThreeDigits(c);
    ThreeDigits(d);
    hide Digits, Number, AllDigits, IsGroup, IsToken;
  }

  /** A host written for four numbers. */
  function NumberedHost(lead: string, a: nat, b: nat, c: nat, d: nat, token: string, port: Option<string>,
                        domain: string, outer: Option<string>): string {
    WrittenHost(lead, Digits(a), Digits(b), Digits(c), Digits(d), token, port, domain + Optional(':', outer))
  }

  /** A host without a port means the default. */
  lemma HostWithoutPort(lead: string, a: nat, b: nat, c: nat, d: nat, token: string, domain: string,
                        outer: Option<string>, default: int)
    requires a < 256 && b < 256 && c < 256 && d < 256 && IsToken(token) && UnderPlainRouter(lead, domain, outer)
    ensures Decode(NumberedHost(lead, a, b, c, d, token, None, domain, outer), default)
         == Ok(Target(Digits(a) + "." + Digits(b) + "." + Digits(c) + "." + Digits(d), default, token))
  {
    NumbersSpellable(a, b, c, d, token, None);
    hide UnderPlainRouter, WrittenHost, Decode, Digits, Spellable, Number, Optional, AllDigits, IsGroup, IsToken;
    WrittenHostDecodes(lead, Digits(a), Digits(b), Digits(c), Digits(d), token, None, domain, outer, default);
  }

  /** An octet above 255 is refused, wherever it stands and whatever else is written. */
  lemma LargeOctetRefused(lead: string, a: nat, b: nat, c: nat, d: nat, token: string, port: Option<nat>,
                          domain: string, outer: Option<string>, default: int)
    requires a < 1000 && b < 1000 && c < 1000 && d < 1000 && (a > 255 || b > 255 || c > 255 || d > 255)
    requires (port.Some? ==> port.value < 100000) && IsToken(token) && UnderPlainRouter(lead, domain, outer)
    ensures var text := if port.Some? then Some(Digits(port.value)) else None;
            Decode(NumberedHost(lead, a, b, c, d, token, text, domain, outer), default) == BadOctet
  {
    var text := if port.Some? then Some(Digits(port.value)) else None;
    if port.Some? {
      FiveDigits(port.value);
    }
    NumbersSpellable(a, b, c, d, token, text);
    hide UnderPlainRouter, WrittenHost, Decode, Digits, Spellable, Number, Optional, AllDigits, IsGroup, IsToken;
    WrittenHostDecodes(lead, Digits(a), Digits(b), Digits(c), Digits(d), token, text, domain, outer, default);
  }

  /** So is a port of 0, or above 65535; any other is the port. */
  lemma PortsDecode(lead: string, a: nat, b: nat, c: nat, d: nat, token: string, port: nat, domain: string,
                    outer: Option<string>, default: int)
    requires a < 256 && b < 256 && c < 256 && d < 256 && port < 100000
    requires IsToken(token) && UnderPlainRouter(lead, domain, outer)
    ensures Decode(NumberedHost(lead, a, b, c, d, token, Some(Digits(port)), domain, outer), default)
         == if port == 0 || port > 65535 then BadPort
            else Ok(Target(Digits(a) + "." + Digits(b) + "." + Digits(c) + "." + Digits(d), port, token))
  {
    hide *;
    FiveDigits(port);
    NumbersSpellable(a, b, c, d, token, Some(Digits(port)));
    NumberedIs(lead, a, b, c, d, token, Some(Digits(port)), domain, outer);
    WrittenHostDecodes(lead, Digits(a), Digits(b), Digits(c), Digits(d), token, Some(Digits(port)), domain, outer,
                       default);
  }

  lemma NumberedIs(lead: string, a: nat, b: nat, c: nat, d: nat, token: string, port: Option<string>, domain: string,
                   outer: Option<string>)
    ensures NumberedHost(lead, a, b, c, d, token, port, domain, outer)
         == WrittenHost(lead, Digits(a), Digits(b), Digits(c), Digits(d), token, port, domain + Optional(':', outer))
  {
  }

  lemma TailHasNoNewline(t: Tail)
    requires WellFormed(t)
    ensures All(Text(t), NotNewline)
  {
    assert All(End2(t), NotNewline);
    assert All(End1(t), NotNewline);
    hide End1;
  }

  /** The condition on the prefix is exact: a host with a newline anywhere decodes to nothing. */
  lemma NewlineDefeats(host: string, i: nat)
    requires i < |host| && host[i] == '\n'
    ensures !Encodes(host)
  {
    hide LastMatch, ParseTail, Text, WellFormed;
    LastMatchIs(host, |host|);
    if Encodes(host) {
      var k := LastMatch(host, |host|).value;
      MatchesSplit(host, k);
      var t := ParseTail(host[k + 2..]).value;
      TailHasNoNewline(t);
      SplitHasNoNewline(host, host[..k], t);
    }
  }

  lemma SplitHasNoNewline(host: string, prefix: string, t: Tail)
    requires Splits(host, prefix, t) && All(Text(t), NotNewline)
    ensures All(host, NotNewline)
  {
    hide Text, WellFormed;
  }

  lemma TailStartsWithDigit(s: string)
    requires ParseTail(s).Some?
    ensures s != "" && IsDigit(s[0])
  {
    PrintsParse(s);
    hide ParseTail, End1;
    assert Text(ParseTail(s).value)[0] == ParseTail(s).value.a[0];
  }

  /** A router host without "ip" before a digit encodes nothing, so names under it always round-trip. */
  lemma PlainHostsEncodeNothing(host: string)
    requires forall i | 0 <= i < |host| - 2 :: !(host[i] == 'i' && host[i + 1] == 'p' && IsDigit(host[i + 2]))
    ensures !Encodes(host)
  {
    hide LastMatch;
    LastMatchIs(host, |host|);
    if Encodes(host) {
      var i := LastMatch(host, |host|).value;
      TailStartsWithDigit(host[i + 2..]);
    }
  }

  /** Nor does one whose only "ip" before a digit is followed by four digits or more. */
  lemma LongGroupEncodesNothing(host: string, i: nat)
    requires i + 6 <= |host| && host[i] == 'i' && host[i + 1] == 'p'
    requires forall k | i + 2 <= k < i + 6 :: '0' <= host[k] <= '9'
    requires forall j | 0 <= j < |host| - 2 && j != i :: !(host[j] == 'i' && host[j + 1] == 'p' && IsDigit(host[j + 2]))
    ensures !Encodes(host)
  {
    hide LastMatch;
    LastMatchIs(host, |host|);
    if Encodes(host) {
      var j := LastMatch(host, |host|).value;
      TailStartsWithDigit(host[j + 2..]);
      FirstGroupShort(host[j + 2..]);
    }
  }

  lemma FirstGroupShort(s: string)
    requires ParseTail(s).Some?
    ensures exists k | 0 <= k < 4 && k < |s| :: !IsDigit(s[k])
  {
    PrintsParse(s);
    hide ParseTail, End1;
    var t := ParseTail(s).value;
    assert Text(t)[|t.a|] == '-';
  }

  /** The page and the server name the same pod alike exactly when its name holds a token character. */
  lemma TokensAgree(pod: string)
    ensures PageToken(pod) == (if Keep(pod) == "" then "s0" else Keep(pod))
            <==> exists i | 0 <= i < |pod| :: TokenChar(pod[i])
  {
    KeepsSomething(pod);
  }

  lemma {:induction false} KeepsSomething(s: string)
    ensures Keep(s) != "" <==> exists i | 0 <= i < |s| :: TokenChar(s[i])
  {
    if s != "" {
      KeepsSomething(s[1..]);
      if i :| 0 <= i < |s| && TokenChar(s[i]) {
        if i > 0 {
          assert TokenChar(s[1..][i - 1]);
        }
      }
      if i :| 0 <= i < |s[1..]| && TokenChar(s[1..][i]) {
        assert TokenChar(s[i + 1]);
      }
    }
  }
}

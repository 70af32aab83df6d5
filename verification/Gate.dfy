/** The gate before the router of exposed ports. */
module Gate {
  import opened Options
  import opened Decimal
  import opened Search
  import opened Router
  import opened HostNames

  /** The host part of `net.SplitHostPort`, or None where it reports an error. */
  function SplitHostPort(s: string): Option<string> {
    match LastIndex(s, ':')
    case None => None
    case Some(i) =>
      if s[0] == '[' then
        var end := IndexOf(s, ']');
        if end + 1 != i || Has(s[1..], '[') || Has(s[end + 1..], ']') then None else Some(s[1..end])
      else if Has(s[..i], ':') || Has(s, '[') || Has(s, ']') then None
      else Some(s[..i])
  }

  function StripPort(host: string): string {
    match SplitHostPort(host)
    case Some(h) => h
    case None => host
  }

  predicate HasSuffix(s: string, t: string) {
    |t| <= |s| && s[|s| - |t|..] == t
  }

  predicate Passes(host: string, routerHost: string) {
    HasSuffix(StripPort(host), "." + StripPort(routerHost))
  }

  /** The characters that mean something to SplitHostPort. */
  predicate Special(c: char) {
    c == ':' || c == '[' || c == ']'
  }

  predicate Unmarked(s: string) {
    forall i | 0 <= i < |s| :: !Special(s[i])
  }

  lemma LastIndexIs(s: string, c: char, i: nat)
    requires i < |s| && s[i] == c && forall j | i < j < |s| :: s[j] != c
    ensures LastIndex(s, c) == Some(i)
  {
    hide LastIndex;
  }

  /** A name under a domain with a port keeps its domain exactly when nothing in front confuses the split. */
  lemma StripUnderPort(front: string, domain: string, outer: string)
    requires Unmarked(domain) && domain != "" && AllDigits(outer)
    ensures var host := front + domain + ":" + outer;
            StripPort(host) == if Unmarked(front) then front + domain else host
  {
    var host := front + domain + ":" + outer;
    var i := |front| + |domain|;
    assert forall j | i < j < |host| :: host[j] == outer[j - i - 1];
    LastIndexIs(host, ':', i);
    assert host[..i] == front + domain;
    assert forall j | 0 <= j < |front| :: host[j] == front[j];
    assert forall j | |front| <= j < i :: host[j] == domain[j - |front|];
    assert !Special(host[i - 1]);
    hide LastIndex, IndexOf;
    if Unmarked(front) {
      assert Unmarked(front + domain);
      assert forall j | 0 <= j < |host| :: host[j] != '[' && host[j] != ']';
    } else {
      var j :| 0 <= j < |front| && Special(front[j]);
      assert Special(host[j]) && host[..i][j] == host[j];
    }
  }

  lemma StripRouterHost(domain: string, outer: Option<string>)
    requires RouterHost(domain + Optional(':', outer), domain, outer)
    ensures StripPort(domain + Optional(':', outer)) == domain && Unmarked(domain)
  {
    DomainUnmarked(domain);
    assert outer.Some? ==> AllDigits(outer.value);
    hide StripPort, All, AllDigits, Unmarked;
    if outer.Some? {
      StripUnderPort("", domain, outer.value);
      NothingUnmarked();
      assert "" + domain + ":" + outer.value == domain + Optional(':', outer);
      assert "" + domain == domain;
    } else {
      assert domain + "" == domain && "" + domain == domain;
      StripPlain(domain);
    }
  }

  lemma NothingUnmarked()
    ensures Unmarked("")
  {
  }

  lemma DomainUnmarked(domain: string)
    ensures All(domain, DomainChar) ==> Unmarked(domain)
  {
  }

  lemma StripPlain(s: string)
    requires Unmarked(s)
    ensures StripPort(s) == s
  {
    hide LastIndex, IndexOf;
  }

  /** With a port on the router host the gate opens exactly for names whose front is unmarked. */
  lemma GateUnderPort(front: string, domain: string, outer: string)
    requires RouterHost(domain + Optional(':', Some(outer)), domain, Some(outer))
    ensures Passes(front + "." + domain + ":" + outer, domain + ":" + outer) <==> Unmarked(front)
  {
    hide *;
    RouterText(domain, outer);
    StripRouterHost(domain, Some(outer));
    StripUnderPort(front + ".", domain, outer);
    UnmarkedDot(front);
    PassesIs(front + "." + domain + ":" + outer, domain + ":" + outer);
    if Unmarked(front) {
      Suffixed(front, "." + domain);
      assert front + ("." + domain) == front + "." + domain;
    } else {
      SuffixStopsAtColon(front + "." + domain, outer, "." + domain);
    }
  }

  lemma RouterText(domain: string, outer: string)
    requires RouterHost(domain + Optional(':', Some(outer)), domain, Some(outer))
    ensures domain + Optional(':', Some(outer)) == domain + ":" + outer && domain != ""
    ensures AllDigits(outer) && Unmarked("." + domain) && Unmarked(domain)
  {
    DomainUnmarked(domain);
    hide Unmarked;
    assert Unmarked("." + domain) by {
      DotUnmarked(domain);
    }
  }

  lemma UnmarkedDot(s: string)
    ensures Unmarked(s + ".") <==> Unmarked(s)
  {
    assert forall i | 0 <= i < |s| :: (s + ".")[i] == s[i];
  }

  /** A host and a port: the host plain, or in brackets, where it may have colons. */
  predicate HostAndPort(s: string, h: string, port: string) {
    && Unmarked(port)
    && ((Unmarked(h) && s == h + ":" + port)
        || ((forall i | 0 <= i < |h| :: h[i] != '[' && h[i] != ']') && s == "[" + h + "]:" + port))
  }

  /** What the split finds is such a form. */
  lemma SplitFinds(s: string)
    requires SplitHostPort(s).Some?
    ensures exists port :: HostAndPort(s, SplitHostPort(s).value, port)
  {
    hide LastIndex, IndexOf;
    var i := LastIndex(s, ':').value;
    var h, port := SplitHostPort(s).value, s[i + 1..];
    if s[0] == '[' {
      var end := IndexOf(s, ']');
      assert forall j | 0 <= j < |h| :: h[j] == s[j + 1] == s[1..][j];
      assert forall j | 0 <= j < |port| :: port[j] == s[i + 1 + j] == s[1..][i + j] == s[end + 1..][i - end + j];
      assert s == "[" + h + "]:" + port;
    } else {
      assert forall j | 0 <= j < |h| :: h[j] == s[j];
      assert forall j | 0 <= j < |port| :: port[j] == s[i + 1 + j];
      assert s == h + ":" + port;
    }
    assert HostAndPort(s, h, port);
  }

  /** And every such form is found. */
  lemma SplitOf(s: string, h: string, port: string)
    requires HostAndPort(s, h, port)
    ensures SplitHostPort(s) == Some(h)
  {
    hide LastIndex, IndexOf;
    var i := |s| - |port| - 1;
    assert s[i] == ':' && s[i + 1..] == port;
    assert forall j | i < j < |s| :: s[j] == port[j - i - 1];
    LastIndexIs(s, ':', i);
    if Unmarked(h) && s == h + ":" + port {
      assert s[..i] == h;
      assert forall j | 0 <= j < i :: s[j] == h[j];
    } else {
      var end := |h| + 1;
      assert s[0] == '[' && s[end] == ']' && s[1..end] == h;
      assert forall j | 1 <= j < end :: s[j] == h[j - 1];
      assert IndexOf(s, ']') == end;
    }
  }

  lemma SuffixMeans(s: string, t: string)
    ensures HasSuffix(s, t) <==> exists front: string :: s == front + t
  {
    if HasSuffix(s, t) {
      assert s == s[..|s| - |t|] + t;
    }
    if front: string :| s == front + t {
      Suffixed(front, t);
    }
  }

  /** The gate opens for a host, with or without a port, exactly if its name is some front, a dot, and the router
      host's name. */
  lemma GateOpensIff(name: string, port: Option<string>, domain: string, outer: Option<string>)
    requires name != "" && Unmarked(name) && (port.Some? ==> AllDigits(port.value))
    requires RouterHost(domain + Optional(':', outer), domain, outer)
    ensures Passes(name + Optional(':', port), domain + Optional(':', outer)) <==>
            exists front: string :: name == front + ("." + domain)
  {
    hide *;
    StripRouterHost(domain, outer);
    StripName(name, port);
    PassesIs(name + Optional(':', port), domain + Optional(':', outer));
    SuffixMeans(name, "." + domain);
  }

  lemma PassesIs(host: string, routerHost: string)
    ensures Passes(host, routerHost) <==> HasSuffix(StripPort(host), "." + StripPort(routerHost))
  {
  }

  lemma StripName(name: string, port: Option<string>)
    requires name != "" && Unmarked(name) && (port.Some? ==> AllDigits(port.value))
    ensures StripPort(name + Optional(':', port)) == name
  {
    hide StripPort, AllDigits, Unmarked;
    if port.Some? {
      StripUnderPort("", name, port.value);
      NothingUnmarked();
      assert "" + name + ":" + port.value == name + Optional(':', port) && "" + name == name;
    } else {
      StripPlain(name);
      assert name + "" == name;
    }
  }

  lemma Suffixed(front: string, suffix: string)
    ensures HasSuffix(front + suffix, suffix)
  {
    assert (front + suffix)[|front|..] == suffix;
  }

  /** Digits behind a colon never end in a dot and a domain. */
  lemma SuffixStopsAtColon(before: string, outer: string, suffix: string)
    requires AllDigits(outer) && suffix != "" && suffix[0] == '.' && Unmarked(suffix)
    ensures !HasSuffix(before + ":" + outer, suffix)
  {
    var s := before + ":" + outer;
    if |suffix| <= |s| {
      var k := |s| - |suffix|;
      assert forall j | |before| < j < |s| :: IsDigit(s[j]);
      if k > |before| {
        assert s[k..][0] != '.';
      } else {
        assert s[k..][|before| - k] == ':';
      }
    }
  }

  lemma LastIndexBefore(front: string, suffix: string, c: char)
    requires forall i | 0 <= i < |suffix| :: suffix[i] != c
    ensures LastIndex(front + suffix, c) == LastIndex(front, c)
  {
    var s := front + suffix;
    hide LastIndex;
    assert forall i | 0 <= i < |front| :: s[i] == front[i];
    assert forall i | |front| <= i < |s| :: s[i] == suffix[i - |front|];
    if LastIndex(front, c).Some? {
      LastIndexIs(s, c, LastIndex(front, c).value);
    }
  }

  lemma HasBefore(front: string, suffix: string, c: char, k: nat)
    requires k <= |front| && forall i | 0 <= i < |suffix| :: suffix[i] != c
    ensures Has((front + suffix)[k..], c) <==> Has(front[k..], c)
  {
    var s, t := (front + suffix)[k..], front[k..];
    assert s == t + suffix;
    if Has(t, c) {
      var i :| 0 <= i < |t| && t[i] == c;
      assert s[i] == c;
    }
    if Has(s, c) {
      var i :| 0 <= i < |s| && s[i] == c;
      assert i < |t| && t[i] == c;
    }
  }

  lemma IndexBefore(front: string, suffix: string, c: char)
    ensures IndexOf(front, c) < |front| ==> IndexOf(front + suffix, c) == IndexOf(front, c)
    ensures IndexOf(front, c) == |front| ==> |front| <= IndexOf(front + suffix, c)
  {
    var s := front + suffix;
    hide IndexOf;
    assert forall i | 0 <= i < |front| :: s[i] == front[i];
    var m, n := IndexOf(s, c), IndexOf(front, c);
    if m < |front| {
      assert s[m] == c == front[m];
    }
    if n < |front| {
      assert s[n] == c;
    }
  }

  /** What follows without a colon or bracket takes no part in the split. */
  lemma SplitIgnoresRest(front: string, suffix: string)
    requires Unmarked(suffix)
    ensures SplitHostPort(front + suffix) == SplitHostPort(front)
  {
    assert forall i | 0 <= i < |suffix| :: suffix[i] != ':' && suffix[i] != '[' && suffix[i] != ']';
    LastIndexBefore(front, suffix, ':');
    var s := front + suffix;
    hide IndexOf, LastIndex, Unmarked, Has;
    if LastIndex(front, ':').Some? {
      var i := LastIndex(front, ':').value;
      assert s[0] == front[0] && s[..i] == front[..i] && s[0..] == s && front[0..] == front;
      HasBefore(front, suffix, '[', 0);
      HasBefore(front, suffix, ']', 0);
      if front[0] == '[' {
        BracketIgnoresRest(front, suffix, i);
      }
    }
  }

  /** The bracketed form, whose colon stands at i. */
  lemma BracketIgnoresRest(front: string, suffix: string, i: nat)
    requires i < |front| && front[0] == '['
    requires forall j | 0 <= j < |suffix| :: suffix[j] != ':' && suffix[j] != '[' && suffix[j] != ']'
    ensures var s := front + suffix; var end := IndexOf(front, ']');
            && (IndexOf(s, ']') + 1 == i <==> end + 1 == i)
            && (end + 1 == i ==>
                  && s[1..end] == front[1..end]
                  && (Has(s[1..], '[') <==> Has(front[1..], '['))
                  && (Has(s[end + 1..], ']') <==> Has(front[end + 1..], ']')))
  {
    hide IndexOf, Has;
    IndexBefore(front, suffix, ']');
    HasBefore(front, suffix, '[', 1);
    if IndexOf(front, ']') + 1 == i {
      HasBefore(front, suffix, ']', i);
    }
  }

  /** A front does not keep its name from lying under the domain: it has no host-and-port form of its own, or
      the host part of that already lies under the domain. */
  predicate FrontPasses(front: string, domain: string) {
    match SplitHostPort(front)
    case None => true
    case Some(h) => HasSuffix(h, "." + domain)
  }

  /** Without a port on the router host, exactly which names pass. */
  lemma GateWithoutPort(front: string, domain: string)
    requires RouterHost(domain, domain, None)
    ensures Passes(front + "." + domain, domain) <==> FrontPasses(front, domain)
  {
    assert domain + Optional(':', None) == domain;
    StripRouterHost(domain, None);
    var suffix := "." + domain;
    assert front + "." + domain == front + suffix;
    DotUnmarked(domain);
    hide SplitHostPort, Unmarked, RouterHost;
    SplitIgnoresRest(front, suffix);
    Suffixed(front, suffix);
  }

  lemma DotUnmarked(s: string)
    requires Unmarked(s)
    ensures Unmarked("." + s)
  {
  }

  // ------------------------------------------------------------------------------ Page and gate

  /** The front of the page's host is marked as its lead is, and splits as its lead does. */
  lemma FrontMarks(lead: string, dashed: string, token: string, mid: string)
    requires All(dashed, DigitOrDash) && All(token, TokenChar) && PortMark(mid)
    ensures var front := lead + "ip" + dashed + "-" + token + mid;
            && Head(lead, dashed, token, mid) == front + "."
            && (Unmarked(front) <==> Unmarked(lead))
            && SplitHostPort(front) == SplitHostPort(lead)
  {
    var front := lead + "ip" + dashed + "-" + token + mid;
    var rest := "ip" + dashed + "-" + token + mid;
    assert forall k | 1 <= k < |mid| :: mid[k] == mid[1..][k - 1];
    assert Unmarked(rest);
    assert front == lead + rest;
    assert forall i | 0 <= i < |lead| :: front[i] == lead[i];
    assert Unmarked(front) <==> Unmarked(lead);
    hide SplitHostPort, Unmarked;
    SplitIgnoresRest(lead, rest);
  }

  lemma DashedPort(port: string)
    requires AllDigits(port)
    ensures PortMark("-" + port)
  {
    assert ("-" + port)[1..] == port;
  }

  lemma LeadMarks(hostPrefix: string)
    ensures Unmarked(Lead(hostPrefix)) <==> Unmarked(hostPrefix)
    ensures SplitHostPort(Lead(hostPrefix)) == SplitHostPort(hostPrefix)
  {
    assert forall i | 0 <= i < |hostPrefix| :: Lead(hostPrefix)[i] == hostPrefix[i];
    assert Unmarked("-");
    hide SplitHostPort;
    if hostPrefix != "" {
      SplitIgnoresRest(hostPrefix, "-");
    }
  }

  /** What a page's prefix must be for its host to get through. */
  predicate PrefixPasses(hostPrefix: string, domain: string, outer: Option<string>) {
    if outer.Some? then Unmarked(hostPrefix) else FrontPasses(hostPrefix, domain)
  }

  /** The way in is whole: for every newline-free prefix and every router host that encodes no instance of
      its own, the name the page writes decodes to the instance it was written for, and it gets to the
      decoder exactly if its prefix passes. */
  lemma PageHostIsRouted(hostPrefix: string, a: nat, b: nat, c: nat, d: nat, pod: string, port: nat,
                         domain: string, outer: Option<string>, default: int)
    requires a < 256 && b < 256 && c < 256 && d < 256 && 1 <= port <= 65535
    requires RouterHost(domain + Optional(':', outer), domain, outer) && !Encodes(domain + Optional(':', outer))
    requires All(hostPrefix, NotNewline)
    ensures var routerHost := domain + Optional(':', outer);
            var ip := Dotted(Digits(a), Digits(b), Digits(c), Digits(d));
            var host := PageHost(hostPrefix, ip, pod, Digits(port), routerHost);
            && Decode(host, default) == Ok(Target(ip, port, PageToken(pod)))
            && (Passes(host, routerHost) <==> PrefixPasses(hostPrefix, domain, outer))
  {
    hide *;
    HostRoundTrip(hostPrefix, a, b, c, d, pod, port, domain, outer, default);
    PageHostPasses(hostPrefix, a, b, c, d, pod, port, domain, outer);
  }

  lemma PageHostPasses(hostPrefix: string, a: nat, b: nat, c: nat, d: nat, pod: string, port: nat,
                       domain: string, outer: Option<string>)
    requires RouterHost(domain + Optional(':', outer), domain, outer)
    ensures var routerHost := domain + Optional(':', outer);
            var host := PageHost(hostPrefix, Dotted(Digits(a), Digits(b), Digits(c), Digits(d)), pod, Digits(port),
                                 routerHost);
            Passes(host, routerHost) <==> PrefixPasses(hostPrefix, domain, outer)
  {
    hide Digits, PageToken, Dashed, Dotted, Head, PageHost, Text, Passes, DigitOrDash, Optional, RouterHost, Lead,
         Unmarked, SplitHostPort, All, AllDigits, HasSuffix;
    PageHostShape(hostPrefix, a, b, c, d, pod, port, domain, outer);
    var dashed := Dashed(Digits(a), Digits(b), Digits(c), Digits(d));
    DashedPort(Digits(port));
    FrontMarks(Lead(hostPrefix), dashed, PageToken(pod), "-" + Digits(port));
    LeadMarks(hostPrefix);
    GateOpens(Lead(hostPrefix) + "ip" + dashed + "-" + PageToken(pod) + ("-" + Digits(port)), domain, outer);
  }

  lemma GateOpens(front: string, domain: string, outer: Option<string>)
    requires RouterHost(domain + Optional(':', outer), domain, outer)
    ensures Passes(front + "." + (domain + Optional(':', outer)), domain + Optional(':', outer))
            <==> PrefixPasses(front, domain, outer)
  {
    hide Passes, Unmarked, SplitHostPort;
    if outer.Some? {
      GateUnderPort(front, domain, outer.value);
      assert domain + Optional(':', outer) == domain + ":" + outer.value;
      assert front + "." + (domain + ":" + outer.value) == front + "." + domain + ":" + outer.value;
    } else {
      assert domain + Optional(':', outer) == domain;
      GateWithoutPort(front, domain);
    }
  }
}

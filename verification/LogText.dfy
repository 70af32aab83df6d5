/** What a record looks like: its text, and the text of its fields. */
module LogText {
  import opened Json
  import opened RecordCodec

  // ------------------------------------------------------------------------------- What is UTF-8

  /** A Unicode scalar value. */
  type CodePoint = r: nat | r < 0x110000 && !(0xD800 <= r < 0xE000)

  /** The UTF-8 form of a text. */
  function Utf8(points: seq<CodePoint>): Bytes {
    if points == [] then [] else EncodeRune(points[0]) + Utf8(points[1..])
  }

  /** Every code point's form is a sequence of its own, whatever follows. */
  lemma RuneOfPoint(r: CodePoint, rest: Bytes)
    ensures EncodeRune(r) != [] && RuneLen(EncodeRune(r) + rest) == |EncodeRune(r)|
  {
    var s := EncodeRune(r) + rest;
    assert forall i | 0 <= i < |EncodeRune(r)| :: s[i] == EncodeRune(r)[i];
    if r < 0x80 {
    } else if r < 0x800 {
      TwoBytes(r);
    } else if r < 0x10000 {
      ThreeBytes(r);
    } else {
      FourBytes(r);
    }
  }

  lemma TwoBytes(r: CodePoint)
    requires 0x80 <= r < 0x800
    ensures var e := EncodeRune(r);
            |e| == 2 && Between(e[0], 0xC2, 0xDF) && Continuation(e[1])
  {
  }

  lemma ThreeBytes(r: CodePoint)
    requires 0x800 <= r < 0x10000
    ensures var e := EncodeRune(r);
            && |e| == 3 && Between(e[0], 0xE0, 0xEF) && Continuation(e[1]) && Continuation(e[2])
            && (e[0] as int == 0xE0 ==> e[1] as int >= 0xA0) && (e[0] as int == 0xED ==> e[1] as int <= 0x9F)
  {
  }

  lemma FourBytes(r: CodePoint)
    requires 0x10000 <= r
    ensures var e := EncodeRune(r);
            && |e| == 4 && Between(e[0], 0xF0, 0xF4) && Continuation(e[1]) && Continuation(e[2]) && Continuation(e[3])
            && (e[0] as int == 0xF0 ==> e[1] as int >= 0x90) && (e[0] as int == 0xF4 ==> e[1] as int <= 0x8F)
  {
  }

  /** The code point that a sequence is the form of. */
  function PointOf(s: Bytes): CodePoint
    requires s != [] && RuneLen(s) > 0
  {
    if RuneLen(s) == 1 then s[0] as int
    else if RuneLen(s) == 2 then (s[0] as int - 0xC0) * 0x40 + (s[1] as int - 0x80)
    else if RuneLen(s) == 3 then (s[0] as int - 0xE0) * 0x1000 + (s[1] as int - 0x80) * 0x40 + (s[2] as int - 0x80)
    else
      (s[0] as int - 0xF0) * 0x40000 + (s[1] as int - 0x80) * 0x1000 + (s[2] as int - 0x80) * 0x40
      + (s[3] as int - 0x80)
  }

  lemma SixBits(x: nat, a: nat, b: nat)
    requires x == a * 0x40 + b && b < 0x40
    ensures x / 0x40 == a && x % 0x40 == b
  {
  }

  lemma PointOfTwo(s: Bytes)
    requires s != [] && RuneLen(s) == 2
    ensures EncodeRune(PointOf(s)) == s[..2]
  {
    var a, b := s[0] as int - 0xC0, s[1] as int - 0x80;
    SixBits(PointOf(s), a, b);
  }

  lemma PointOfThree(s: Bytes)
    requires s != [] && RuneLen(s) == 3
    ensures EncodeRune(PointOf(s)) == s[..3]
  {
    var a, b, c := s[0] as int - 0xE0, s[1] as int - 0x80, s[2] as int - 0x80;
    var r := PointOf(s);
    assert r == (a * 0x40 + b) * 0x40 + c;
    SixBits(r, a * 0x40 + b, c);
    SixBits(a * 0x40 + b, a, b);
    assert r / 0x1000 == a;
  }

  lemma PointOfFour(s: Bytes)
    requires s != [] && RuneLen(s) == 4
    ensures EncodeRune(PointOf(s)) == s[..4]
  {
    var a, b, c, d := s[0] as int - 0xF0, s[1] as int - 0x80, s[2] as int - 0x80, s[3] as int - 0x80;
    var r := PointOf(s);
    assert r == ((a * 0x40 + b) * 0x40 + c) * 0x40 + d;
    SixBits(r, (a * 0x40 + b) * 0x40 + c, d);
    SixBits((a * 0x40 + b) * 0x40 + c, a * 0x40 + b, c);
    SixBits(a * 0x40 + b, a, b);
    assert r / 0x1000 == a * 0x40 + b && r / 0x40000 == a;
  }

  lemma PointOfRune(s: Bytes)
    requires s != [] && RuneLen(s) > 0
    ensures EncodeRune(PointOf(s)) == s[..RuneLen(s)]
  {
    if RuneLen(s) == 2 {
      PointOfTwo(s);
    } else if RuneLen(s) == 3 {
      PointOfThree(s);
    } else if RuneLen(s) == 4 {
      PointOfFour(s);
    }
  }

  /** A form stands for its own code point only. */
  lemma RuneReads(r: CodePoint)
    ensures RuneLen(EncodeRune(r)) > 0 && PointOf(EncodeRune(r)) == r
  {
    RuneOfPoint(r, []);
    assert EncodeRune(r) + [] == EncodeRune(r);
    if 0x80 <= r < 0x800 {
      assert r == r / 0x40 * 0x40 + r % 0x40;
    } else if 0x800 <= r < 0x10000 {
      assert r / 0x1000 == r / 0x40 / 0x40 && r / 0x40 == r / 0x1000 * 0x40 + r / 0x40 % 0x40;
    } else if r >= 0x10000 {
      assert r / 0x1000 == r / 0x40 / 0x40 && r / 0x40000 == r / 0x1000 / 0x40;
      assert r / 0x1000 == r / 0x40000 * 0x40 + r / 0x1000 % 0x40 && r / 0x40 == r / 0x1000 * 0x40 + r / 0x40 % 0x40;
    }
  }

  /** Valid text is the UTF-8 form of some code points, and nothing else is. */
  lemma {:induction false} ValidIsUtf8(s: Bytes)
    ensures ValidUtf8(s) ==> exists points :: Utf8(points) == s
    decreases |s|
  {
    if s == [] {
      assert Utf8([]) == s;
    } else if ValidUtf8(s) {
      hide EncodeRune, RuneLen;
      ValidIsUtf8(s[RuneLen(s)..]);
      var points :| Utf8(points) == s[RuneLen(s)..];
      FirstPoint(s, points);
    }
  }

  lemma FirstPoint(s: Bytes, points: seq<CodePoint>)
    requires s != [] && RuneLen(s) > 0 && Utf8(points) == s[RuneLen(s)..]
    ensures Utf8([PointOf(s)] + points) == s
  {
    PointOfRune(s);
    hide EncodeRune, RuneLen, PointOf;
    assert ([PointOf(s)] + points)[1..] == points && s == s[..RuneLen(s)] + s[RuneLen(s)..];
  }

  lemma {:induction false} Utf8IsValid(points: seq<CodePoint>)
    ensures ValidUtf8(Utf8(points))
  {
    if points != [] {
      var rest := Utf8(points[1..]);
      RuneOfPoint(points[0], rest);
      Utf8IsValid(points[1..]);
      assert Utf8(points)[|EncodeRune(points[0])|..] == rest;
      hide EncodeRune, RuneLen;
    }
  }

  /** The writer leaves no character that means something to HTML. */
  lemma {:induction false} QuoteIsSafe(s: Bytes)
    ensures forall i | 0 <= i < |Quote(s)| :: Quote(s)[i] != '<' && Quote(s)[i] != '>' && Quote(s)[i] != '&'
    decreases |s|
  {
    if s != [] {
      PieceIsSafe(s);
      hide QuotePiece, QuoteTake;
      QuoteIsSafe(s[QuoteTake(s)..]);
    }
  }

  lemma PieceIsSafe(s: Bytes)
    requires s != []
    ensures var p := QuotePiece(s); forall i | 0 <= i < |p| :: p[i] != '<' && p[i] != '>' && p[i] != '&'
  {
    if RuneLen(s) > 1 {
      RuneIsHigh(s);
    }
  }

  lemma RuneIsHigh(s: Bytes)
    requires s != [] && RuneLen(s) > 1
    ensures forall i | 0 <= i < RuneLen(s) :: s[i] as int >= 0x80
  {
  }

  /** Nor one of the two line separators. */
  lemma SeparatorsEscaped()
    ensures Quote(EncodeRune(0x2028)) == "\\u2028" && Quote(EncodeRune(0x2029)) == "\\u2029"
  {
    var a, b := EncodeRune(0x2028), EncodeRune(0x2029);
    assert RuneLen(a) == 3 && RuneLen(b) == 3 && a[3..] == [] && b[3..] == [];
    assert LineSeparator(a) && LineSeparator(b);
    assert QuotePiece(a) == "\\u2028" && QuotePiece(b) == "\\u2029";
  }

  // ------------------------------------------------------------------------------- A record, written out

  /** Bytes that the writer leaves as they are. */
  predicate Unescaped(s: Bytes) {
    forall i | 0 <= i < |s| :: 0x20 <= s[i] as int < 0x80 && s[i] !in "\"\\<>&"
  }

  lemma {:induction false} QuoteSame(s: Bytes)
    requires Unescaped(s)
    ensures Quote(s) == s
    decreases |s|
  {
    if s != [] {
      assert s[0] !in "\"\\<>&" && 0x20 <= s[0] as int < 0x80;
      QuoteSame(s[1..]);
      assert QuotePiece(s) == [s[0]] && QuoteTake(s) == 1;
    }
  }

  lemma MemberText(name: Bytes, text: Bytes)
    requires Unescaped(text)
    ensures Member(name, text) == "\"" + name + "\":\"" + text + "\""
  {
    QuoteSame(text);
    hide Quote;
  }

  lemma SixParts(u: Bytes, c: Bytes, t: Bytes)
    ensures "{" + ("\"" + "user" + "\":\"" + u + "\"") + "," + ("\"" + "challenge" + "\":\"" + c + "\"")
            + "," + ("\"" + "at" + "\":\"" + t + "\"") + "}"
         == "{\"user\":\"" + u + "\",\"challenge\":\"" + c + "\",\"at\":\"" + t + "\"}"
  {
    var a, b, d := "\"" + "user" + "\":\"", "\"" + "challenge" + "\":\"", "\"" + "at" + "\":\"";
    assert "{" + a == "{\"user\":\"" && "\"" + "," + b == "\",\"challenge\":\"" && "\"" + "," + d == "\",\"at\":\"";
    assert "\"" + "}" == "\"}";
    PartsRegroup("{", a, u, "\"", ",", b, c, d, t, "}");
  }

  lemma PartsRegroup(o: Bytes, a: Bytes, u: Bytes, q: Bytes, m: Bytes, b: Bytes, c: Bytes, d: Bytes, t: Bytes, e: Bytes)
    ensures o + (a + u + q) + m + (b + c + q) + m + (d + t + q) + e
         == (o + a) + u + (q + m + b) + c + (q + m + d) + t + (q + e)
  {
  }

  /** The record of plain texts, written out. */
  lemma RecordText(r: Record)
    requires Unescaped(r.user) && Unescaped(r.challenge) && Unescaped(r.at)
    ensures Encode(r) == "{\"user\":\"" + r.user + "\",\"challenge\":\"" + r.challenge + "\",\"at\":\"" + r.at + "\"}"
  {
    hide *;
    EncodeIs(r);
    MemberText("user", r.user);
    MemberText("challenge", r.challenge);
    MemberText("at", r.at);
    SixParts(r.user, r.challenge, r.at);
  }

  lemma EncodeIs(r: Record)
    ensures Encode(r)
         == "{" + Member("user", r.user) + "," + Member("challenge", r.challenge) + "," + Member("at", r.at) + "}"
  {
  }

  // ------------------------------------------------------------------------------- Escapes

  /** The hexadecimal digits, of either case. */
  lemma HexValues(c: char)
    ensures IsHex(c) <==> c in "0123456789abcdef" || c in "0123456789ABCDEF"
    ensures forall n | 0 <= n < 16 && (c == "0123456789abcdef"[n] || c == "0123456789ABCDEF"[n]) ::
              IsHex(c) && HexValue(c) == n
  {
  }

  /** An escape with this number, its digits of either case. */
  predicate Escapes(e: Bytes, n: nat) {
    && |e| == 6 && e[..2] == "\\u" && (forall i | 2 <= i < 6 :: IsHex(e[i]))
    && HexValue(e[2]) * 0x1000 + HexValue(e[3]) * 0x100 + HexValue(e[4]) * 0x10 + HexValue(e[5]) == n
  }

  lemma EscapeIs(e: Bytes, n: nat, rest: Bytes)
    requires Escapes(e, n)
    ensures UnicodeEscape(e + rest) && UnicodeValue(e + rest) == n && (e + rest)[6..] == rest && (e + rest)[0] == '\\'
    ensures e + rest != []
  {
    var s := e + rest;
    assert e[0] == e[..2][0] && e[1] == e[..2][1];
    assert s[0] == e[0] && s[1] == e[1] && s[2] == e[2] && s[3] == e[3] && s[4] == e[4] && s[5] == e[5];
    hide HexValue, IsHex;
  }

  /** Two escapes that are a surrogate pair are one code point. */
  lemma PairReads(e: Bytes, f: Bytes, r: CodePoint, rest: Bytes)
    requires r >= 0x10000
    requires Escapes(e, 0xD800 + (r - 0x10000) / 0x400) && Escapes(f, 0xDC00 + (r - 0x10000) % 0x400)
    ensures Unquote(e + f + rest) == EncodeRune(r) + Unquote(rest)
  {
    var s := e + f + rest;
    assert s == e + (f + rest) && s[12..] == rest;
    EscapeIs(e, 0xD800 + (r - 0x10000) / 0x400, f + rest);
    EscapeIs(f, 0xDC00 + (r - 0x10000) % 0x400, rest);
    hide Escapes, UnicodeEscape, UnicodeValue, EncodeRune;
    assert SurrogatePair(s) && UnquoteTake(s) == 12;
    assert r == (r - 0x10000) / 0x400 * 0x400 + (r - 0x10000) % 0x400 + 0x10000;
  }

  /** Any other escape is its own code point, and a surrogate on its own the replacement character. */
  lemma EscapeReads(e: Bytes, n: nat, rest: Bytes)
    requires Escapes(e, n)
    requires 0xD800 <= n < 0xDC00 ==>
               forall f, m, later | 0xDC00 <= m < 0xE000 && Escapes(f, m) :: rest != f + later
    ensures n < 0x10000
    ensures Unquote(e + rest) == (if 0xD800 <= n < 0xE000 then EncodeRune(0xFFFD) else EncodeRune(n)) + Unquote(rest)
  {
    EscapeIs(e, n, rest);
    ReplacementIs();
    if UnicodeEscape(rest) {
      EscapeOf(rest);
    }
    hide Escapes, UnicodeEscape, UnicodeValue, EncodeRune;
    assert !SurrogatePair(e + rest);
  }

  lemma ReplacementIs()
    ensures EncodeRune(0xFFFD) == REPLACEMENT
  {
  }

  lemma EscapeOf(rest: Bytes)
    requires UnicodeEscape(rest)
    ensures Escapes(rest[..6], UnicodeValue(rest)) && rest == rest[..6] + rest[6..]
  {
    var e := rest[..6];
    assert e[..2] == "\\u";
  }
}

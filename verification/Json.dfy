/** The JSON layer of the log (RFC 8259): a scanner, the writer's quoting, and its inverse. */
module Json {
  /** A byte is a `char`; codes above 255 never occur in a file, and nothing relies on that. */
  type Bytes = string

  // ---------------------------------------------------------------- UTF-8 (RFC 3629, section 4)

  predicate Between(c: char, lo: int, hi: int) {
    lo <= c as int <= hi
  }

  predicate Continuation(c: char) {
    Between(c, 0x80, 0xBF)
  }

  /** The length of the well-formed UTF-8 sequence at the head of s, or 0 if there is none. */
  function RuneLen(s: Bytes): (n: nat)
    requires s != []
    ensures n <= |s| && n <= 4
    ensures (n == 1) == (s[0] as int < 0x80)
  {
    if s[0] as int < 0x80 then 1
    else if |s| >= 2 && Between(s[0], 0xC2, 0xDF) && Continuation(s[1]) then 2
    else if |s| >= 3 && Between(s[0], 0xE0, 0xEF) && Continuation(s[2])
            && Between(s[1], if s[0] as int == 0xE0 then 0xA0 else 0x80, if s[0] as int == 0xED then 0x9F else 0xBF)
               then 3
    else if |s| >= 4 && Between(s[0], 0xF0, 0xF4) && Continuation(s[2]) && Continuation(s[3])
            && Between(s[1], if s[0] as int == 0xF0 then 0x90 else 0x80, if s[0] as int == 0xF4 then 0x8F else 0xBF)
               then 4
    else 0
  }

  predicate ValidUtf8(s: Bytes) {
    s == [] || (RuneLen(s) > 0 && ValidUtf8(s[RuneLen(s)..]))
  }

  /** U+FFFD, which stands in for every byte that is not part of a well-formed sequence. */
  const REPLACEMENT: Bytes := [0xEF as char, 0xBF as char, 0xBD as char]

  function Sanitize(s: Bytes): Bytes {
    if s == [] then []
    else if RuneLen(s) == 0 then REPLACEMENT + Sanitize(s[1..])
    else s[..RuneLen(s)] + Sanitize(s[RuneLen(s)..])
  }

  /** Sanitising changes nothing exactly when there is nothing to repair. */
  lemma {:induction false} SanitizeFixes(s: Bytes)
    ensures Sanitize(s) == s <==> ValidUtf8(s)
    ensures Sanitize(s) == [] <==> s == []
  {
    if s != [] {
      var n := RuneLen(s);
      if n > 0 {
        SanitizeFixes(s[n..]);
        assert s == s[..n] + s[n..];
        if Sanitize(s) == s {
          assert Sanitize(s)[n..] == Sanitize(s[n..]);
        }
      } else {
        var t := Sanitize(s);
        assert t[0] == REPLACEMENT[0] && t[1] == REPLACEMENT[1] && t[2] == REPLACEMENT[2];
        assert RuneLen(t) == 3;
      }
    }
  }

  /** What was repaired needs no more repair. */
  lemma {:induction false} SanitizeTwice(s: Bytes)
    ensures Sanitize(Sanitize(s)) == Sanitize(s)
  {
    if s != [] {
      var n := RuneLen(s);
      var head, rest := if n > 0 then s[..n] else REPLACEMENT, Sanitize(if n > 0 then s[n..] else s[1..]);
      SanitizeTwice(if n > 0 then s[n..] else s[1..]);
      if n > 0 {
        RuneLenLocal(s, rest);
      }
      assert Sanitize(s) == head + rest && RuneLen(head + rest) == |head|;
      assert (head + rest)[..|head|] == head && (head + rest)[|head|..] == rest;
    }
  }

  /** Only the bytes of the sequence itself decide where it ends. */
  lemma RuneLenLocal(s: Bytes, rest: Bytes)
    requires s != [] && RuneLen(s) > 0
    ensures RuneLen(s[..RuneLen(s)] + rest) == RuneLen(s)
  {
  }

  // ------------------------------------------------------------------------------- Quoting

  function HexDigit(n: nat): char
    requires n < 16
  {
    "0123456789abcdef"[n]
  }

  predicate IsHex(c: char) {
    '0' <= c <= '9' || 'a' <= c <= 'f' || 'A' <= c <= 'F'
  }

  function HexValue(c: char): (n: nat)
    requires IsHex(c)
    ensures n < 16
  {
    if '0' <= c <= '9' then c as int - '0' as int
    else if 'a' <= c <= 'f' then c as int - 'a' as int + 10
    else c as int - 'A' as int + 10
  }

  /** How the writer spells the ASCII byte c inside a string. */
  function QuoteAscii(c: char): Bytes
    requires c as int < 0x80
  {
    if c == '"' || c == '\\' then ['\\', c]
    else if c as int == 8 then "\\b"
    else if c as int == 12 then "\\f"
    else if c == '\n' then "\\n"
    else if c == '\r' then "\\r"
    else if c == '\t' then "\\t"
    else if c as int < 0x20 || c == '<' || c == '>' || c == '&' then
      ['\\', 'u', '0', '0', HexDigit(c as int / 16), HexDigit(c as int % 16)]
    else [c]
  }

  /** How many bytes of s the next piece of output stands for. */
  function QuoteTake(s: Bytes): (n: nat)
    requires s != []
    ensures 0 < n <= |s|
  {
    if RuneLen(s) == 0 then 1 else RuneLen(s)
  }

  /** U+2028 and U+2029, which the writer escapes although JSON does not ask for it. */
  predicate LineSeparator(s: Bytes) {
    |s| >= 3 && s[0] as int == 0xE2 && s[1] as int == 0x80 && (s[2] as int == 0xA8 || s[2] as int == 0xA9)
  }

  function QuotePiece(s: Bytes): Bytes
    requires s != []
  {
    if RuneLen(s) == 0 then "\\ufffd"
    else if RuneLen(s) == 1 then QuoteAscii(s[0])
    else if LineSeparator(s) then "\\u202" + [HexDigit(s[2] as int % 16)]
    else s[..RuneLen(s)]
  }

  function Quote(s: Bytes): Bytes {
    if s == [] then [] else QuotePiece(s) + Quote(s[QuoteTake(s)..])
  }

  /** The UTF-8 form of a code point. */
  function EncodeRune(r: nat): Bytes
    requires r < 0x110000 && !(0xD800 <= r < 0xE000)
  {
    if r < 0x80 then [r as char]
    else if r < 0x800 then [(0xC0 + r / 0x40) as char, (0x80 + r % 0x40) as char]
    else if r < 0x10000 then
      [(0xE0 + r / 0x1000) as char, (0x80 + r / 0x40 % 0x40) as char, (0x80 + r % 0x40) as char]
    else
      [(0xF0 + r / 0x40000) as char, (0x80 + r / 0x1000 % 0x40) as char,
       (0x80 + r / 0x40 % 0x40) as char, (0x80 + r % 0x40) as char]
  }

  predicate UnicodeEscape(b: Bytes) {
    |b| >= 6 && b[0] == '\\' && b[1] == 'u' && IsHex(b[2]) && IsHex(b[3]) && IsHex(b[4]) && IsHex(b[5])
  }

  function UnicodeValue(b: Bytes): (n: nat)
    requires UnicodeEscape(b)
    ensures n < 0x10000
  {
    HexValue(b[2]) * 0x1000 + HexValue(b[3]) * 0x100 + HexValue(b[4]) * 0x10 + HexValue(b[5])
  }

  /** A high surrogate escape followed by a low one: one code point above U+FFFF. */
  predicate SurrogatePair(b: Bytes) {
    && UnicodeEscape(b) && 0xD800 <= UnicodeValue(b) < 0xDC00
    && UnicodeEscape(b[6..]) && 0xDC00 <= UnicodeValue(b[6..]) < 0xE000
  }

  function UnquoteTake(b: Bytes): (n: nat)
    requires b != []
    ensures 0 < n <= |b|
  {
    if b[0] != '\\' then (if RuneLen(b) == 0 then 1 else RuneLen(b))
    else if SurrogatePair(b) then 12
    else if UnicodeEscape(b) then 6
    else if |b| >= 2 then 2 else 1
  }

  function UnquotePiece(b: Bytes): Bytes
    requires b != []
  {
    if b[0] != '\\' then (if RuneLen(b) == 0 then REPLACEMENT else b[..RuneLen(b)])
    else if SurrogatePair(b) then
      EncodeRune((UnicodeValue(b) - 0xD800) * 0x400 + (UnicodeValue(b[6..]) - 0xDC00) + 0x10000)
    else if UnicodeEscape(b) then
      (if 0xD800 <= UnicodeValue(b) < 0xE000 then REPLACEMENT else EncodeRune(UnicodeValue(b)))
    else if |b| < 2 then []
    else if b[1] == 'b' then [8 as char]
    else if b[1] == 'f' then [12 as char]
    else if b[1] == 'n' then "\n"
    else if b[1] == 'r' then "\r"
    else if b[1] == 't' then "\t"
    else [b[1]]
  }

  /** The text a string literal with body b stands for. */
  function Unquote(b: Bytes): Bytes {
    if b == [] then [] else UnquotePiece(b) + Unquote(b[UnquoteTake(b)..])
  }

  lemma HexRoundTrip(n: nat)
    ensures n < 16 ==> IsHex(HexDigit(n)) && HexValue(HexDigit(n)) == n
  {
  }

  lemma UnicodeEscapeReads(p: Bytes, rest: Bytes)
    requires |p| == 6 && UnicodeEscape(p) && !(0xD800 <= UnicodeValue(p) < 0xE000)
    ensures UnquoteTake(p + rest) == 6 && UnquotePiece(p + rest) == EncodeRune(UnicodeValue(p))
  {
    assert forall i | 0 <= i < 6 :: (p + rest)[i] == p[i];
    assert UnicodeValue(p + rest) == UnicodeValue(p);
  }

  lemma UnquoteInvertsAscii(c: char, rest: Bytes)
    requires c as int < 0x80
    ensures QuoteAscii(c) != []
    ensures UnquoteTake(QuoteAscii(c) + rest) == |QuoteAscii(c)|
    ensures UnquotePiece(QuoteAscii(c) + rest) == [c]
  {
    var p := QuoteAscii(c);
    if |p| == 6 {
      HexRoundTrip(c as int / 16);
      HexRoundTrip(c as int % 16);
      assert UnicodeValue(p) == c as int;
      UnicodeEscapeReads(p, rest);
    }
  }

  lemma UnquoteInvertsPiece(s: Bytes, rest: Bytes)
    requires s != []
    ensures QuotePiece(s) != []
    ensures UnquoteTake(QuotePiece(s) + rest) == |QuotePiece(s)|
    ensures UnquotePiece(QuotePiece(s) + rest) == if RuneLen(s) == 0 then REPLACEMENT else s[..RuneLen(s)]
  {
    var n, p := RuneLen(s), QuotePiece(s);
    if n == 0 {
      assert UnicodeValue(p) == 0xFFFD;
      UnicodeEscapeReads(p, rest);
    } else if n == 1 {
      UnquoteInvertsAscii(s[0], rest);
    } else if LineSeparator(s) {
      HexRoundTrip(s[2] as int % 16);
      assert UnicodeValue(p) == 0x2020 + s[2] as int % 16;
      UnicodeEscapeReads(p, rest);
    } else {
      RuneLenLocal(s, rest);
      assert (p + rest)[..n] == p;
    }
  }

  /** Reading back what was written gives the text with its ill-formed bytes replaced. */
  lemma {:induction false} UnquoteInvertsQuote(s: Bytes)
    ensures Unquote(Quote(s)) == Sanitize(s)
  {
    if s != [] {
      var rest := Quote(s[QuoteTake(s)..]);
      UnquoteInvertsPiece(s, rest);
      assert Quote(s)[|QuotePiece(s)|..] == rest;
      UnquoteInvertsQuote(s[QuoteTake(s)..]);
    }
  }

  // ------------------------------------------------------------------------------- Scanner

  /** What an open bracket on the stack is waiting for. */
  datatype Context = Key | Value | Element

  datatype Mode =
    | BeginValue
    | BeginValueOrEmpty
    | BeginKeyOrEmpty
    | BeginKey
    | InString
    | InEscape
    | InUnicode(left: nat)
    | Minus | Zero | Digits | Point | Fraction | Exponent | ExponentSign | ExponentDigits
    | InLiteral(rest: Bytes)
    | EndValue
    | EndTop
    | Error

  /** The scanner's whole state; the innermost open bracket is last on the stack. */
  datatype Scanner = Scanner(mode: Mode, stack: seq<Context>) {
    function To(m: Mode): Scanner {
      this.(mode := m)
    }

    function Open(c: Context, m: Mode): Scanner {
      Scanner(m, stack + [c])
    }

    function Turn(c: Context, m: Mode): Scanner
      requires stack != []
    {
      Scanner(m, stack[..|stack| - 1] + [c])
    }

    function Close(): Scanner
      requires stack != []
    {
      Scanner(if |stack| == 1 then EndTop else EndValue, stack[..|stack| - 1])
    }

    predicate InText() {
      mode.InString? || mode.InEscape? || mode.InUnicode?
    }
  }

  const START := Scanner(BeginValue, [])

  predicate Space(c: char) {
    c == ' ' || c == '\t' || c == '\r' || c == '\n'
  }

  predicate Digit(c: char) {
    '0' <= c <= '9'
  }

  function AfterValue(s: Scanner, c: char): Scanner {
    if s.stack == [] then s.To(if Space(c) then EndTop else Error)
    else if Space(c) then s.To(EndValue)
    else
      match s.stack[|s.stack| - 1]
      case Key => if c == ':' then s.Turn(Value, BeginValue) else s.To(Error)
      case Value => if c == ',' then s.Turn(Key, BeginKey) else if c == '}' then s.Close() else s.To(Error)
      case Element => if c == ',' then s.To(BeginValue) else if c == ']' then s.Close() else s.To(Error)
  }

  function AtValue(s: Scanner, c: char): Scanner {
    if Space(c) then s
    else if c == '{' then s.Open(Key, BeginKeyOrEmpty)
    else if c == '[' then s.Open(Element, BeginValueOrEmpty)
    else if c == '"' then s.To(InString)
    else if c == '-' then s.To(Minus)
    else if c == '0' then s.To(Zero)
    else if Digit(c) then s.To(Digits)
    else if c == 't' then s.To(InLiteral("rue"))
    else if c == 'f' then s.To(InLiteral("alse"))
    else if c == 'n' then s.To(InLiteral("ull"))
    else s.To(Error)
  }

  function InNumber(s: Scanner, c: char): Scanner {
    match s.mode
    case Minus => s.To(if c == '0' then Zero else if Digit(c) then Digits else Error)
    case Point => s.To(if Digit(c) then Fraction else Error)
    case Exponent => s.To(if c == '+' || c == '-' then ExponentSign else if Digit(c) then ExponentDigits else Error)
    case ExponentSign => s.To(if Digit(c) then ExponentDigits else Error)
    case _ =>
      if Digit(c) && !s.mode.Zero? then s
      else if c == '.' && (s.mode.Zero? || s.mode.Digits?) then s.To(Point)
      else if (c == 'e' || c == 'E') && !s.mode.ExponentDigits? then s.To(Exponent)
      else AfterValue(s, c)
  }

  function Step(s: Scanner, c: char): Scanner {
    match s.mode
    case BeginValue => AtValue(s, c)
    case BeginValueOrEmpty =>
      if Space(c) then s
      else if c == ']' then AfterValue(s, c)
      else AtValue(s, c)
    case BeginKeyOrEmpty =>
      if Space(c) then s
      else if c == '}' && s.stack != [] then s.Close()
      else s.To(if c == '"' then InString else Error)
    case BeginKey =>
      if Space(c) then s else s.To(if c == '"' then InString else Error)
    case InString =>
      if c == '"' then s.To(EndValue)
      else if c == '\\' then s.To(InEscape)
      else if c as int < 0x20 then s.To(Error)
      else s
    case InEscape =>
      if c == 'u' then s.To(InUnicode(4))
      else if c in "bfnrt\\/\"" then s.To(InString)
      else s.To(Error)
    case InUnicode(left) =>
      if !IsHex(c) then s.To(Error) else if left <= 1 then s.To(InString) else s.To(InUnicode(left - 1))
    case InLiteral(rest) =>
      if rest == [] || c != rest[0] then s.To(Error)
      else if |rest| == 1 then s.To(EndValue)
      else s.To(InLiteral(rest[1..]))
    case EndValue => AfterValue(s, c)
    case EndTop => s.To(if Space(c) then EndTop else Error)
    case Error => s
    case _ => InNumber(s, c)
  }

  function Scan(s: Scanner, b: Bytes): Scanner
    decreases b
  {
    if b == [] then s else Scan(Step(s, b[0]), b[1..])
  }

  /** The text read so far is one complete value. */
  predicate Complete(s: Scanner) {
    s.mode.EndTop? || Step(s, ' ').mode.EndTop?
  }

  lemma {:induction false} ScanAppend(s: Scanner, a: Bytes, b: Bytes)
    ensures Scan(s, a + b) == Scan(Scan(s, a), b)
    decreases a
  {
    if a == [] {
      assert a + b == b;
    } else {
      assert (a + b)[1..] == a[1..] + b;
      ScanAppend(Step(s, a[0]), a[1..], b);
    }
  }

  /** From inside an object on: a bracket is open, or the value is over, or the text is wrong. */
  predicate Inside(s: Scanner) {
    || s.mode.Error?
    || ((s.stack == [] <==> s.mode.EndTop?) && (s.mode.InLiteral? ==> Letters(s.mode.rest)))
  }

  predicate Letters(b: Bytes) {
    forall i | 0 <= i < |b| :: 'a' <= b[i] <= 'z'
  }

  lemma StepStaysInside(s: Scanner, c: char)
    ensures Inside(s) ==> Inside(Step(s, c))
  {
  }

  lemma {:induction false} ScanStaysInside(s: Scanner, b: Bytes)
    requires Inside(s)
    ensures Inside(Scan(s, b))
    decreases b
  {
    if b != [] {
      StepStaysInside(s, b[0]);
      ScanStaysInside(Step(s, b[0]), b[1..]);
    }
  }

  lemma {:induction false} ScanStuck(s: Scanner, b: Bytes)
    requires s.mode.Error?
    ensures Scan(s, b) == s
    decreases b
  {
    if b != [] {
      ScanStuck(s, b[1..]);
    }
  }

  /** After a complete value only white space may follow. */
  lemma {:induction false} ScanPastEnd(s: Scanner, b: Bytes, i: nat)
    requires s.mode.EndTop? && i < |b| && !Space(b[i])
    ensures Scan(s, b).mode.Error?
    decreases b
  {
    if Space(b[0]) {
      ScanPastEnd(Step(s, b[0]), b[1..], i - 1);
    } else {
      ScanStuck(Step(s, b[0]), b[1..]);
    }
  }
}

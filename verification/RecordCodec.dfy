/** One line of the solve log, written and read. */
module RecordCodec {
  import opened Json
  import opened Options

  datatype Pair = Pair(user: Bytes, challenge: Bytes)

  /** A log record; `at` is the time stamp, which replay ignores. */
  datatype Record = Record(user: Bytes, challenge: Bytes, at: Bytes) {
    function Solve(): Pair {
      Pair(user, challenge)
    }
  }

  /** A member whose value is a string. */
  function Member(name: Bytes, text: Bytes): Bytes {
    "\"" + name + "\":\"" + Quote(text) + "\""
  }

  function Encode(r: Record): Bytes {
    "{" + Member("user", r.user) + "," + Member("challenge", r.challenge) + "," + Member("at", r.at) + "}"
  }

  // ------------------------------------------------------------------------------- Reading

  /** A scanner with what the record's decoder has picked up: the raw bytes of the string it is in,
      the last member name, and the fields so far. */
  datatype Reader = Reader(sc: Scanner, raw: Bytes, key: Bytes, user: Bytes, challenge: Bytes, mistyped: bool)

  const FRESH := Reader(START, [], [], [], [], false)

  function Upper(c: char): char {
    if 'a' <= c <= 'z' then c - ('a' - 'A') else c
  }

  /** Member names match without regard to case; of the letters in play only s has a second
      lower-case form, U+017F. */
  function Fold(name: Bytes): Bytes {
    if name == [] then []
    else if |name| >= 2 && name[0] as int == 0xC5 && name[1] as int == 0xBF then "S" + Fold(name[2..])
    else [Upper(name[0])] + Fold(name[1..])
  }

  predicate Known(name: Bytes) {
    Fold(name) in {"USER", "CHALLENGE", "AT"}
  }

  function Store(r: Reader, text: Bytes): Reader {
    if Fold(r.key) == "USER" then r.(user := text)
    else if Fold(r.key) == "CHALLENGE" then r.(challenge := text)
    else r
  }

  /** Consumes one byte. Only members of the outermost object are looked at; null leaves a field
      alone and any other value that is not a string is a type error for a field of the record. */
  function Read(r: Reader, c: char): Reader {
    var next := r.(sc := Step(r.sc, c));
    if |r.sc.stack| != 1 then next
    else if r.sc.InText() then
      if r.sc.mode.InString? && c == '"' then
        if r.sc.stack[0].Key? then next.(key := Unquote(r.raw), raw := [])
        else if r.sc.stack[0].Value? then Store(next, Unquote(r.raw)).(raw := [])
        else next.(raw := [])
      else next.(raw := r.raw + [c])
    else if r.sc.mode.BeginValue? && r.sc.stack[0].Value? && !Space(c) && c != '"' && c != 'n' then
      next.(mistyped := r.mistyped || Known(r.key))
    else next
  }

  function ReadAll(r: Reader, b: Bytes): Reader
    decreases b
  {
    if b == [] then r else ReadAll(Read(r, b[0]), b[1..])
  }

  /** What replay makes of a line: the solve it records, or nothing. */
  function Decode(line: Bytes): Option<Pair> {
    var r := ReadAll(FRESH, line);
    if Complete(r.sc) && !r.mistyped && r.user != [] && r.challenge != [] then Some(Pair(r.user, r.challenge))
    else None
  }

  lemma {:induction false} ReadAppend(r: Reader, a: Bytes, b: Bytes)
    ensures ReadAll(r, a + b) == ReadAll(ReadAll(r, a), b)
    decreases a
  {
    if a == [] {
      assert a + b == b;
    } else {
      assert (a + b)[1..] == a[1..] + b;
      ReadAppend(Read(r, a[0]), a[1..], b);
    }
  }

  lemma {:induction false} ReadScans(r: Reader, b: Bytes)
    ensures ReadAll(r, b).sc == Scan(r.sc, b)
    decreases b
  {
    if b != [] {
      ReadScans(Read(r, b[0]), b[1..]);
    }
  }

  // ------------------------------------------------------------------------- Inside a string

  predicate Plain(c: char) {
    c as int >= 0x20 && c != '"' && c != '\\'
  }

  predicate AllPlain(b: Bytes) {
    forall i | 0 <= i < |b| :: Plain(b[i])
  }

  /** The reader is in a string of the outermost object. */
  predicate InField(r: Reader) {
    r.sc.mode.InString? && |r.sc.stack| == 1
  }

  lemma {:induction false} ReadPlain(r: Reader, b: Bytes)
    requires InField(r) && AllPlain(b)
    ensures ReadAll(r, b) == r.(raw := r.raw + b)
    decreases b
  {
    if b == [] {
      assert r.raw + b == r.raw;
    } else {
      ReadPlain(Read(r, b[0]), b[1..]);
      assert r.raw + [b[0]] + b[1..] == r.raw + b;
    }
  }

  lemma ReadOne(r: Reader, c: char)
    ensures ReadAll(r, [c]) == Read(r, c)
  {
    hide Read;
    assert [c][1..] == [];
  }

  lemma ReadTwo(r: Reader, b: Bytes)
    requires |b| == 2
    ensures ReadAll(r, b) == Read(Read(r, b[0]), b[1])
  {
    assert ReadAll(r, b) == ReadAll(Read(r, b[0]), b[1..]);
    assert b[1..][1..] == [];
  }

  lemma {:induction false} ReadHexDigits(r: Reader, b: Bytes)
    requires b != [] && r.sc.mode == InUnicode(|b|) && |r.sc.stack| == 1
    requires forall i | 0 <= i < |b| :: IsHex(b[i])
    ensures ReadAll(r, b) == r.(sc := r.sc.To(InString), raw := r.raw + b)
    decreases b
  {
    var r1 := Read(r, b[0]);
    assert r1 == r.(sc := r1.sc, raw := r.raw + [b[0]]);
    if |b| == 1 {
      ReadOne(r, b[0]);
      assert b == [b[0]];
    } else {
      assert r1.sc == r.sc.To(InUnicode(|b| - 1));
      assert r.raw + [b[0]] + b[1..] == r.raw + b;
      hide Read;
      ReadHexDigits(r1, b[1..]);
    }
  }

  lemma ReadSix(r: Reader, b: Bytes)
    requires InField(r) && UnicodeEscape(b) && |b| == 6
    ensures ReadAll(r, b) == r.(raw := r.raw + b)
  {
    var r1 := r.(sc := r.sc.To(InEscape), raw := r.raw + [b[0]]);
    var r2 := r.(sc := r.sc.To(InUnicode(4)), raw := r.raw + b[..2]);
    assert Read(r, b[0]) == r1;
    assert r.raw + [b[0]] + [b[1]] == r.raw + b[..2];
    assert Read(r1, b[1]) == r2;
    hide Read;
    assert b == b[..2] + b[2..];
    assert r.raw + b[..2] + b[2..] == r.raw + b;
    ReadAppend(r, b[..2], b[2..]);
    ReadTwo(r, b[..2]);
    ReadHexDigits(r2, b[2..]);
  }

  /** A backslash and the letter of a short escape. */
  predicate ShortEscape(b: Bytes) {
    |b| == 2 && b[0] == '\\' && b[1] in "bfnrt\\/\""
  }

  lemma PieceShape(s: Bytes)
    requires s != []
    ensures var p := QuotePiece(s); (UnicodeEscape(p) && |p| == 6) || ShortEscape(p) || AllPlain(p)
  {
  }

  lemma ReadShort(r: Reader, b: Bytes)
    requires InField(r) && ShortEscape(b)
    ensures ReadAll(r, b) == r.(raw := r.raw + b)
  {
    assert Read(r, b[0]) == r.(sc := r.sc.To(InEscape), raw := r.raw + [b[0]]);
    assert r.raw + [b[0]] + [b[1]] == r.raw + b;
    assert Read(Read(r, b[0]), b[1]) == r.(raw := r.raw + b);
    hide Read;
    ReadTwo(r, b);
  }

  lemma ReadPiece(r: Reader, s: Bytes)
    requires InField(r) && s != []
    ensures ReadAll(r, QuotePiece(s)) == r.(raw := r.raw + QuotePiece(s))
  {
    hide Read, QuotePiece;
    var p := QuotePiece(s);
    PieceShape(s);
    if UnicodeEscape(p) && |p| == 6 {
      ReadSix(r, p);
    } else if ShortEscape(p) {
      ReadShort(r, p);
    } else {
      ReadPlain(r, p);
    }
  }

  lemma {:induction false} ReadQuoted(r: Reader, s: Bytes)
    requires InField(r)
    ensures ReadAll(r, Quote(s)) == r.(raw := r.raw + Quote(s))
    decreases |s|
  {
    hide Read, QuotePiece, QuoteTake;
    if s == [] {
      assert r.raw + [] == r.raw;
    } else {
      hide ReadAll;
      var p, rest := QuotePiece(s), s[QuoteTake(s)..];
      ReadAppend(r, p, Quote(rest));
      ReadPiece(r, s);
      ReadQuoted(ReadAll(r, p), rest);
      assert r.raw + p + Quote(rest) == r.raw + Quote(s);
    }
  }

  // ----------------------------------------------------------------------------- Whole records

  /** Member names here are plain ASCII. */
  predicate Name(b: Bytes) {
    AllPlain(b) && forall i | 0 <= i < |b| :: b[i] as int < 0x80
  }

  lemma {:induction false} UnquotePlain(b: Bytes)
    requires Name(b)
    ensures Unquote(b) == b
  {
    if b != [] {
      UnquotePlain(b[1..]);
    }
  }

  lemma CloseKey(r: Reader, name: Bytes)
    requires InField(r) && r.sc.stack[0].Key? && r.raw == name && Name(name)
    ensures Read(r, '"') == r.(sc := Scanner(EndValue, [Key]), key := name, raw := [])
  {
    UnquotePlain(name);
    hide Unquote, Fold;
  }

  lemma CloseText(r: Reader)
    requires InField(r) && r.sc.stack[0].Value?
    ensures Read(r, '"') == Store(r.(sc := Scanner(EndValue, [Value]), raw := []), Unquote(r.raw))
  {
    hide Unquote, Fold;
  }

  lemma ReadColon(r: Reader)
    requires r.sc == Scanner(EndValue, [Key])
    ensures Read(Read(r, ':'), '"') == r.(sc := Scanner(InString, [Value]))
  {
    hide Unquote, Fold;
    assert Read(r, ':') == r.(sc := Scanner(BeginValue, [Value]));
  }

  lemma ReadName(r: Reader, name: Bytes)
    requires r.sc == Scanner(BeginKey, [Key]) || r.sc == Scanner(BeginKeyOrEmpty, [Key])
    requires r.raw == [] && Name(name)
    ensures ReadAll(r, "\"" + name + "\":\"") == r.(sc := Scanner(InString, [Value]), key := name)
  {
    hide Unquote, Fold, ReadAll;
    var r1 := r.(sc := Scanner(InString, [Key]));
    assert Read(r, '"') == r1;
    hide Read;
    CloseKey(r1.(raw := name), name);
    ReadColon(r.(sc := Scanner(EndValue, [Key]), key := name));
    ReadAppend(r, "\"" + name, "\":\"");
    ReadAppend(r, "\"", name);
    ReadOne(r, '"');
    ReadPlain(r1, name);
    assert [] + name == name;
    ReadThree(r1.(raw := name), "\":\"");
  }

  lemma ReadThree(r: Reader, b: Bytes)
    requires |b| == 3
    ensures ReadAll(r, b) == Read(Read(Read(r, b[0]), b[1]), b[2])
  {
    hide Read;
    ReadTwo(Read(r, b[0]), b[1..]);
  }

  lemma ReadText(r: Reader, text: Bytes)
    requires r.sc == Scanner(InString, [Value]) && r.raw == []
    ensures ReadAll(r, Quote(text) + "\"") == Store(r.(sc := Scanner(EndValue, [Value])), Sanitize(text))
  {
    hide Read, Quote, Unquote, Fold, ReadAll;
    ReadAppend(r, Quote(text), "\"");
    ReadQuoted(r, text);
    UnquoteInvertsQuote(text);
    CloseText(r.(raw := Quote(text)));
    assert [] + Quote(text) == Quote(text);
    ReadOne(r.(raw := Quote(text)), '"');
  }

  lemma ReadMember(r: Reader, name: Bytes, text: Bytes)
    requires r.sc == Scanner(BeginKey, [Key]) || r.sc == Scanner(BeginKeyOrEmpty, [Key])
    requires r.raw == [] && Name(name)
    ensures ReadAll(r, Member(name, text)) == Store(r.(sc := Scanner(EndValue, [Value]), key := name), Sanitize(text))
  {
    var head, tail := "\"" + name + "\":\"", Quote(text) + "\"";
    assert Member(name, text) == head + tail;
    ReadAppend(r, head, tail);
    ReadName(r, name);
    ReadText(ReadAll(r, head), text);
  }

  lemma ReadFramed(r: Reader, b: Bytes, c: char, rest: Bytes)
    ensures ReadAll(r, b + [c] + rest) == ReadAll(Read(ReadAll(r, b), c), rest)
  {
    hide Read;
    ReadAppend(r, b + [c], rest);
    ReadAppend(r, b, [c]);
    ReadOne(ReadAll(r, b), c);
  }

  lemma ReadObject(r: Reader, u: Bytes, c: Bytes, a: Bytes)
    ensures ReadAll(r, "{" + u + "," + c + "," + a + "}") ==
            Read(ReadAll(Read(ReadAll(Read(ReadAll(Read(r, '{'), u), ','), c), ','), a), '}')
  {
    hide Read;
    var r0 := Read(r, '{');
    var r1 := Read(ReadAll(r0, u), ',');
    var r2 := Read(ReadAll(r1, c), ',');
    assert "{" + u + "," + c + "," + a + "}" == [] + ['{'] + (u + [','] + (c + [','] + (a + ['}'] + [])));
    ReadFramed(r, [], '{', u + [','] + (c + [','] + (a + ['}'] + [])));
    ReadFramed(r0, u, ',', c + [','] + (a + ['}'] + []));
    ReadFramed(r1, c, ',', a + ['}'] + []);
    ReadFramed(r2, a, '}', []);
  }

  lemma ReadRecord(r: Record)
    ensures var x := ReadAll(FRESH, Encode(r));
            && x.sc == Scanner(EndTop, []) && !x.mistyped
            && x.user == Sanitize(r.user) && x.challenge == Sanitize(r.challenge)
  {
    hide Quote, Sanitize, Fold, Unquote, ReadAll;
    FoldNames();
    var r0 := FRESH.(sc := Scanner(BeginKeyOrEmpty, [Key]));
    var r1 := r0.(sc := Scanner(EndValue, [Value]), key := "user", user := Sanitize(r.user));
    var r2 := r1.(sc := Scanner(BeginKey, [Key]));
    var r3 := r2.(sc := Scanner(EndValue, [Value]), key := "challenge", challenge := Sanitize(r.challenge));
    var r4 := r3.(sc := Scanner(BeginKey, [Key]));
    var r5 := r4.(sc := Scanner(EndValue, [Value]), key := "at");
    assert Read(FRESH, '{') == r0;
    assert Read(r1, ',') == r2;
    assert Read(r3, ',') == r4;
    assert Read(r5, '}') == r5.(sc := Scanner(EndTop, []));
    hide Read, Member;
    ReadMember(r0, "user", r.user);
    ReadMember(r2, "challenge", r.challenge);
    ReadMember(r4, "at", r.at);
    ReadObject(FRESH, Member("user", r.user), Member("challenge", r.challenge), Member("at", r.at));
  }

  lemma {:induction false} FoldAscii(b: Bytes)
    requires forall i | 0 <= i < |b| :: b[i] as int < 0x80
    ensures |Fold(b)| == |b| && forall i | 0 <= i < |b| :: Fold(b)[i] == Upper(b[i])
  {
    if b != [] {
      FoldAscii(b[1..]);
    }
  }

  lemma FoldNames()
    ensures Fold("user") == "USER" && Fold("challenge") == "CHALLENGE" && Fold("at") == "AT"
  {
    hide Fold;
    FoldAscii("user");
    FoldAscii("challenge");
    FoldAscii("at");
    assert Fold("user") == "USER";
    assert Fold("challenge") == "CHALLENGE";
    assert Fold("at") == "AT";
  }

  /** Replay reads a record back as its own user and challenge exactly when both are non-empty,
      well-formed UTF-8. */
  lemma DecodeInvertsEncode(r: Record)
    ensures Decode(Encode(r)) == Some(r.Solve()) <==>
            r.user != [] && r.challenge != [] && ValidUtf8(r.user) && ValidUtf8(r.challenge)
    ensures Decode(Encode(r)) ==
            if r.user == [] || r.challenge == [] then None else Some(Pair(Sanitize(r.user), Sanitize(r.challenge)))
  {
    ReadRecord(r);
    SanitizeFixes(r.user);
    SanitizeFixes(r.challenge);
  }

  // ------------------------------------------------------------------------------ Damaged lines

  predicate OneLine(b: Bytes) {
    forall i | 0 <= i < |b| :: b[i] as int >= 0x20
  }

  lemma {:induction false} QuoteIsOneLine(s: Bytes)
    ensures OneLine(Quote(s))
    decreases |s|
  {
    if s != [] {
      assert OneLine(QuotePiece(s));
      QuoteIsOneLine(s[QuoteTake(s)..]);
    }
  }

  lemma MemberIsOneLine(name: Bytes, text: Bytes)
    requires OneLine(name)
    ensures OneLine(Member(name, text))
  {
    QuoteIsOneLine(text);
    hide Quote;
  }

  lemma MemberStarts(name: Bytes, text: Bytes)
    requires name != []
    ensures var m := Member(name, text); |m| > 3 && m[0] == '"' && m[1] == name[0]
  {
    hide Quote;
    assert Member(name, text) == "\"" + (name + ("\":\"" + Quote(text) + "\""));
  }

  /** An encoded record holds no control byte, so no newline and no carriage return. */
  lemma EncodeIsOneLine(r: Record)
    ensures OneLine(Encode(r)) && |Encode(r)| > 3
    ensures Encode(r)[0] == '{' && Encode(r)[1] == '"' && Encode(r)[2] == 'u' && Encode(r)[|Encode(r)| - 1] == '}'
  {
    MemberIsOneLine("user", r.user);
    MemberIsOneLine("challenge", r.challenge);
    MemberIsOneLine("at", r.at);
    MemberStarts("user", r.user);
    hide Member;
  }

  /** x is what a write of r's line leaves when it stops after n bytes. */
  predicate Torn(x: Bytes, r: Record) {
    x != [] && x <= Encode(r)
  }

  lemma OpenBrace(b: Bytes)
    requires b != [] && b[0] == '{'
    ensures Inside(Scan(START, b))
  {
    ScanStaysInside(Step(START, '{'), b[1..]);
  }

  lemma InsideCompletes(s: Scanner)
    ensures Inside(s) ==> (Complete(s) ==> s.mode.EndTop?)
  {
  }

  /** A record cut short never parses: its last brace would have to follow a finished value. */
  lemma TornScan(x: Bytes, r: Record)
    requires Torn(x, r) && x != Encode(r)
    ensures var s := Scan(START, x); Inside(s) && s.stack != [] && !Complete(s)
  {
    var e := Encode(r);
    EncodeIsOneLine(r);
    OpenBrace(x);
    var s, rest := Scan(START, x), e[|x|..];
    assert e == x + rest;
    ScanAppend(START, x, rest);
    ReadRecord(r);
    ReadScans(FRESH, e);
    if s.mode.EndTop? {
      ScanPastEnd(s, rest, |rest| - 1);
    } else if s.mode.Error? {
      ScanStuck(s, rest);
    }
    InsideCompletes(s);
  }

  /** The scanner with its open brackets placed on top of others. */
  function Over(base: seq<Context>, s: Scanner): Scanner {
    Scanner(s.mode, base + s.stack)
  }

  lemma OverMoves(base: seq<Context>, s: Scanner, c: Context, m: Mode)
    requires s.stack != []
    ensures Over(base, s.Open(c, m)) == Over(base, s).Open(c, m)
    ensures Over(base, s.Turn(c, m)) == Over(base, s).Turn(c, m)
    ensures Over(base, s).stack[|base| + |s.stack| - 1] == s.stack[|s.stack| - 1]
    ensures |s.stack| > 1 ==> Over(base, s.Close()) == Over(base, s).Close()
  {
    assert (base + s.stack)[..|base| + |s.stack| - 1] == base + s.stack[..|s.stack| - 1];
  }

  lemma AfterValueOver(base: seq<Context>, s: Scanner, c: char)
    requires s.stack != [] && AfterValue(s, c).stack != []
    ensures AfterValue(Over(base, s), c) == Over(base, AfterValue(s, c))
  {
    OverMoves(base, s, Value, BeginValue);
    OverMoves(base, s, Key, BeginKey);
  }

  lemma AtValueOver(base: seq<Context>, s: Scanner, c: char)
    requires s.stack != []
    ensures AtValue(Over(base, s), c) == Over(base, AtValue(s, c))
  {
    OverMoves(base, s, Key, BeginKeyOrEmpty);
    OverMoves(base, s, Element, BeginValueOrEmpty);
    hide Scanner.Open, Scanner.Turn, Scanner.Close;
  }

  lemma StepOver(base: seq<Context>, s: Scanner, c: char)
    requires s.stack != [] && Step(s, c).stack != []
    ensures Step(Over(base, s), c) == Over(base, Step(s, c))
  {
    hide AfterValue, AtValue, Scanner.Open, Scanner.Turn;
    if s.mode.BeginKeyOrEmpty? {
      OverMoves(base, s, Key, BeginKey);
    } else {
      hide Scanner.Close;
      AtValueOver(base, s, c);
      if AfterValue(s, c).stack != [] {
        AfterValueOver(base, s, c);
      }
    }
  }

  /** A torn record read as a nested value never closes a bracket below its own. */
  lemma {:induction false} TornNested(base: seq<Context>, x: Bytes, r: Record)
    requires Torn(x, r) && x != Encode(r)
    ensures Scan(Scanner(BeginValue, base), x) == Over(base, Scan(START, x))
    decreases |x|
  {
    EncodeIsOneLine(r);
    hide Encode;
    var k := |x| - 1;
    var y := x[..k];
    if k == 0 {
      assert x == ['{'];
      assert base + [Key] == base + ([] + [Key]);
    } else {
      TornScan(x, r);
      TornScan(y, r);
      TornNested(base, y, r);
      hide Scan, Step;
      ScanLast(START, x);
      ScanLast(Scanner(BeginValue, base), x);
      StepOver(base, Scan(START, y), x[k]);
    }
  }

  lemma ScanLast(s: Scanner, x: Bytes)
    requires x != []
    ensures Scan(s, x) == Step(Scan(s, x[..|x| - 1]), x[|x| - 1])
  {
    hide Step;
    var k := |x| - 1;
    assert x == x[..k] + [x[k]];
    ScanAppend(s, x[..k], [x[k]]);
    assert [x[k]][1..] == [];
  }

  /** Whatever line beginning with a brace precedes it, a torn or whole record glued on leaves a
      bracket open or the text wrong. */
  lemma GluedScan(s: Scanner, x: Bytes, r: Record)
    requires Inside(s) && Torn(x, r)
    ensures var t := Scan(s, x); t.mode.Error? || (t.stack != [] && !t.mode.EndTop?)
  {
    EncodeIsOneLine(r);
    hide Encode;
    var s1 := Step(s, x[0]);
    assert Scan(s, x) == Scan(s1, x[1..]);
    StepStaysInside(s, x[0]);
    if s1.mode.Error? {
      ScanStuck(s1, x[1..]);
    } else if s.mode.InString? {
      GluedInString(s, x);
    } else {
      assert s.mode.BeginValue? || s.mode.BeginValueOrEmpty?;
      assert s1 == Step(Scanner(BeginValue, s.stack), x[0]);
      assert Scan(s, x) == Scan(Scanner(BeginValue, s.stack), x);
      NestedRecord(s.stack, x, r);
    }
  }

  /** Inside a string the opening quote of the glued record ends that string, and no value may
      follow it. */
  lemma GluedInString(s: Scanner, x: Bytes)
    requires s.mode.InString? && s.stack != [] && x != [] && x[0] == '{'
    requires (|x| > 1 ==> x[1] == '"') && (|x| > 2 ==> x[2] == 'u')
    ensures var t := Scan(s, x); t.mode.Error? || (t.stack != [] && !t.mode.EndTop?)
  {
    var s2 := s.To(EndValue);
    assert Step(s, '{') == s && Step(s, '"') == s2 && Step(s2, 'u') == s.To(Error);
    hide Step;
    assert Scan(s, x) == Scan(s, x[1..]);
    if |x| > 1 {
      assert Scan(s, x[1..]) == Scan(s2, x[1..][1..]);
      if |x| > 2 {
        assert Scan(s2, x[1..][1..]) == Scan(s.To(Error), x[1..][1..][1..]);
        ScanStuck(s.To(Error), x[1..][1..][1..]);
      }
    }
  }

  lemma NestedRecord(base: seq<Context>, x: Bytes, r: Record)
    requires base != [] && Torn(x, r)
    ensures var t := Scan(Scanner(BeginValue, base), x); t.mode.Error? || (t.stack != [] && !t.mode.EndTop?)
  {
    hide Scan;
    if x != Encode(r) {
      TornNested(base, x, r);
      TornScan(x, r);
    } else {
      EncodeIsOneLine(r);
      hide Encode;
      var y := x[..|x| - 1];
      ScanLast(Scanner(BeginValue, base), x);
      TornNested(base, y, r);
      TornScan(y, r);
      CloseNested(Over(base, Scan(START, y)), x[|x| - 1]);
    }
  }

  /** One byte closes at most one bracket. */
  lemma CloseNested(s: Scanner, c: char)
    ensures |s.stack| > 1 && !s.mode.EndTop? ==>
              (var t := Step(s, c); t.mode.Error? || (t.stack != [] && !t.mode.EndTop?))
  {
  }

  /** A record cut short is not a solve. */
  lemma TornNeverDecodes(x: Bytes, r: Record)
    requires Torn(x, r) && x != Encode(r)
    ensures Decode(x) == None
  {
    TornScan(x, r);
    ReadScans(FRESH, x);
  }

  /** A record, or part of one, glued onto a line that already began is not a solve, and the line
      it damaged is none either. */
  lemma GluedNeverDecodes(head: Bytes, x: Bytes, r: Record)
    requires head != [] && head[0] == '{' && Torn(x, r)
    ensures Decode(head + x) == None
  {
    OpenBrace(head);
    ScanAppend(START, head, x);
    GluedScan(Scan(START, head), x, r);
    ReadScans(FRESH, head + x);
    OpenBrace(head + x);
    InsideCompletes(Scan(START, head + x));
  }
}

/** The scanner accepts exactly the texts of the grammar: what the parser by recursive descent finds, the scanner
    runs through, and what it leaves unfinished or refuses, the scanner does too. */
module JsonScan {
  import opened Json
  import opened JsonText
  import opened Options

  // ------------------------------------------------------------------------------- What the parser finds

  lemma GapSpaces(s: Bytes)
    ensures IsGap(s) <==> forall i | 0 <= i < |s| :: Space(s[i])
  {
  }

  lemma {:induction false} ValueParsed(b: Bytes)
    requires b != [] && !Space(b[0]) && ParseValue(b).Got?
    ensures Proper(ParseValue(b).part) && b == Text(ParseValue(b).part) + ParseValue(b).rest
    decreases |b|, 0
  {
    if b[0] == '[' {
      var n := GapLength(b[1..]);
      if n < |b[1..]| && b[1..][n] != ']' && ParseItems(b[1..]).Got? {
        ItemsParsed(b[1..]);
      }
      hide *;
      ArrayParsed(b);
    } else if b[0] == '{' {
      var n := GapLength(b[1..]);
      if n < |b[1..]| && b[1..][n] != '}' && ParseMembers(b[1..]).Got? {
        MembersParsed(b[1..]);
      }
      hide *;
      ObjectParsed(b);
    } else {
      hide *;
      ScalarParsed(b);
    }
  }

  lemma ScalarParsed(b: Bytes)
    requires b != [] && !Space(b[0]) && ParseValue(b).Got? && b[0] != '[' && b[0] != '{'
    ensures Proper(ParseValue(b).part) && b == Text(ParseValue(b).part) + ParseValue(b).rest
  {
    if b[0] == '"' {
      StringParsed(b);
    } else if b[0] == '-' || Digit(b[0]) {
      hide *;
      NumberIs(b);
    } else {
      hide IsBody, ParseNumber, ParseBody, ParseItems, ParseMembers;
    }
  }

  lemma StringParsed(b: Bytes)
    requires b != [] && b[0] == '"' && ParseValue(b).Got?
    ensures Proper(ParseValue(b).part) && b == Text(ParseValue(b).part) + ParseValue(b).rest
  {
    StringIs(b);
    hide IsBody, ParseBody, ParseValue, Proper, Text;
    var r := ParseBody(b[1..]);
    ProperString(r.part);
    TextOfString(r.part);
    QuoteOpens(b, r.part, r.rest);
  }

  lemma TextOfString(body: Bytes)
    ensures Text(Str(body)) == "\"" + body + "\""
  {
  }

  lemma QuoteOpens(b: Bytes, body: Bytes, rest: Bytes)
    requires b != [] && b[0] == '"' && b[1..] == body + "\"" + rest
    ensures b == "\"" + body + "\"" + rest
  {
    Enclosed(b, "\"", body, "\"", rest);
  }

  lemma ArrayParsed(b: Bytes)
    requires b != [] && !Space(b[0]) && ParseValue(b).Got? && b[0] == '['
    requires var d := b[1..];
             var n, r := GapLength(d), ParseItems(d);
             n < |d| && d[n] != ']' && r.Got? ==>
               r.part.Item? && ProperItems(r.part) && d == ItemsText(r.part) + "]" + r.rest
    ensures Proper(ParseValue(b).part) && b == Text(ParseValue(b).part) + ParseValue(b).rest
  {
    ArrayIs(b);
    hide *;
    var d := b[1..];
    var n := GapLength(d);
    var r := ParseItems(d);
    if n < |d| && d[n] == ']' {
      EmptyArray(d[..n]);
      CutAt(d, n);
      Enclosed(b, "[", d[..n], "]", d[n + 1..]);
    } else if n < |d| && r.Got? {
      FullArray(r.part);
      Enclosed(b, "[", ItemsText(r.part), "]", r.rest);
    }
  }

  lemma EmptyArray(gap: Bytes)
    ensures (Proper(EmptyArr(gap)) <==> IsGap(gap)) && Text(EmptyArr(gap)) == "[" + gap + "]"
  {
  }

  lemma FullArray(items: Items)
    ensures Proper(Arr(items)) <==> items.Item? && ProperItems(items)
    ensures Text(Arr(items)) == "[" + ItemsText(items) + "]"
  {
  }

  lemma EmptyObject(gap: Bytes)
    ensures (Proper(EmptyObj(gap)) <==> IsGap(gap)) && Text(EmptyObj(gap)) == "{" + gap + "}"
  {
  }

  lemma FullObject(members: Members)
    ensures Proper(Obj(members)) <==> members.Member? && ProperMembers(members)
    ensures Text(Obj(members)) == "{" + MembersText(members) + "}"
  {
  }

  lemma CutAt(d: Bytes, n: nat)
    requires n < |d|
    ensures d == d[..n] + [d[n]] + d[n + 1..]
  {
  }

  lemma Enclosed(b: Bytes, open: Bytes, inner: Bytes, close: Bytes, rest: Bytes)
    requires b != [] && open == [b[0]] && b[1..] == inner + close + rest
    ensures b == open + inner + close + rest
  {
    assert b == [b[0]] + b[1..];
    assert [b[0]] + (inner + close + rest) == [b[0]] + inner + close + rest;
  }

  lemma ObjectParsed(b: Bytes)
    requires b != [] && !Space(b[0]) && ParseValue(b).Got? && b[0] == '{'
    requires var d := b[1..];
             var n, r := GapLength(d), ParseMembers(d);
             n < |d| && d[n] != '}' && r.Got? ==>
               r.part.Member? && ProperMembers(r.part) && d == MembersText(r.part) + "}" + r.rest
    ensures Proper(ParseValue(b).part) && b == Text(ParseValue(b).part) + ParseValue(b).rest
  {
    ObjectIs(b);
    hide *;
    var d := b[1..];
    var n := GapLength(d);
    var r := ParseMembers(d);
    if n < |d| && d[n] == '}' {
      EmptyObject(d[..n]);
      CutAt(d, n);
      Enclosed(b, "{", d[..n], "}", d[n + 1..]);
    } else if n < |d| && r.Got? {
      FullObject(r.part);
      Enclosed(b, "{", MembersText(r.part), "}", r.rest);
    }
  }

  lemma {:induction false} ItemsParsed(b: Bytes)
    requires ParseItems(b).Got?
    ensures var r := ParseItems(b); r.part.Item? && ProperItems(r.part) && b == ItemsText(r.part) + "]" + r.rest
    decreases |b|, 1
  {
    hide IsBody, IsGap, GapLength, ParseValue, Proper, Text;
    var n := GapLength(b);
    ValueParsed(b[n..]);
    var v, d := ParseValue(b[n..]).part, ParseValue(b[n..]).rest;
    var k := GapLength(d);
    assert b == b[..n] + b[n..];
    assert d == d[..k] + [d[k]] + d[k + 1..];
    if d[k] == ',' {
      ItemsParsed(d[k + 1..]);
      var more, rest := ParseItems(d[k + 1..]).part, ParseItems(d[k + 1..]).rest;
      assert d == d[..k] + ("," + ItemsText(more)) + "]" + rest;
      MemberJoined(b[..n], Text(v), d[..k], "," + ItemsText(more), "]", rest);
    } else {
      MemberJoined(b[..n], Text(v), d[..k], "", "]", d[k + 1..]);
      assert d[..k] + "" == d[..k];
    }
  }

  lemma {:induction false} KeyParsed(b: Bytes)
    requires ParseKey(b).Got?
    ensures var Label(before, name, left, right) := ParseKey(b).part;
            && IsGap(before) && IsBody(name) && IsGap(left) && IsGap(right)
            && b == before + "\"" + name + "\"" + left + ":" + right + ParseKey(b).rest
  {
    hide IsBody, IsGap, GapLength, ParseBody;
    var n := GapLength(b);
    var name, d := ParseBody(b[n + 1..]).part, ParseBody(b[n + 1..]).rest;
    var k := GapLength(d);
    var e := d[k + 1..];
    var m := GapLength(e);
    assert e == e[..m] + e[m..];
    assert d == d[..k] + ":" + e;
    assert b == b[..n] + "\"" + b[n + 1..];
    KeyJoined(b[..n], name, d[..k], e[..m], e[m..]);
  }

  lemma KeyJoined(a: Bytes, name: Bytes, left: Bytes, right: Bytes, rest: Bytes)
    ensures a + "\"" + (name + "\"" + (left + ":" + (right + rest)))
            == a + "\"" + name + "\"" + left + ":" + right + rest
  {
  }

  lemma {:induction false} MembersParsed(b: Bytes)
    requires ParseMembers(b).Got?
    ensures var r := ParseMembers(b);
            r.part.Member? && ProperMembers(r.part) && b == MembersText(r.part) + "}" + r.rest
    decreases |b|, 1
  {
    hide IsBody, IsGap, GapLength, ParseValue, Proper, Text, ParseKey;
    KeyParsed(b);
    var Label(before, name, left, right) := ParseKey(b).part;
    var e := ParseKey(b).rest;
    ValueParsed(e);
    var v, d := ParseValue(e).part, ParseValue(e).rest;
    var k := GapLength(d);
    var front := before + "\"" + name + "\"" + left + ":" + right;
    assert d == d[..k] + [d[k]] + d[k + 1..];
    if d[k] == ',' {
      MembersParsed(d[k + 1..]);
      var more, rest := ParseMembers(d[k + 1..]).part, ParseMembers(d[k + 1..]).rest;
      assert d == d[..k] + ("," + MembersText(more)) + "}" + rest;
      MemberJoined(front, Text(v), d[..k], "," + MembersText(more), "}", rest);
    } else {
      MemberJoined(front, Text(v), d[..k], "", "}", d[k + 1..]);
      assert d[..k] + "" == d[..k];
    }
  }

  lemma MemberJoined(front: Bytes, text: Bytes, gap: Bytes, more: Bytes, close: Bytes, rest: Bytes)
    ensures front + (text + (gap + more + close + rest)) == front + text + gap + more + close + rest
  {
  }

  // ------------------------------------------------------------------------------- What the scanner does

  predicate IsDone(m: Mode) {
    m.EndValue? || m.Zero? || m.Digits? || m.Fraction? || m.ExponentDigits?
  }

  /** A value is over and the scanner goes on from there with the rest. */
  predicate Ended(s: Scanner, stack: seq<Context>, rest: Bytes) {
    && s.stack == stack && (IsDone(s.mode) || (stack == [] && s.mode.EndTop?))
    && (rest != [] ==> Step(s, rest[0]) == AfterValue(Scanner(EndValue, stack), rest[0]))
  }

  /** A value is not over. */
  predicate Open(s: Scanner, stack: seq<Context>) {
    && !s.mode.Error? && !s.mode.EndTop? && stack <= s.stack && (|s.stack| > |stack| || !IsDone(s.mode))
  }

  lemma OpenInside(s: Scanner, stack: seq<Context>, c: Context)
    requires Open(s, stack + [c])
    ensures Open(s, stack)
  {
    assert stack <= stack + [c];
  }

  lemma EndedInside(s: Scanner, stack: seq<Context>, c: Context)
    requires Ended(s, stack + [c], [])
    ensures Open(s, stack)
  {
  }

  lemma OpenIncomplete(s: Scanner)
    requires Open(s, [])
    ensures !Complete(s)
  {
  }

  lemma ScanFirst(s: Scanner, b: Bytes)
    requires b != []
    ensures Scan(s, b) == Scan(Step(s, b[0]), b[1..])
  {
  }

  lemma ScanNone(s: Scanner)
    ensures Scan(s, []) == s
  {
  }

  lemma ScanPart(s: Scanner, b: Bytes, n: nat)
    requires n <= |b|
    ensures Scan(s, b) == Scan(Scan(s, b[..n]), b[n..])
  {
    ScanAppend(s, b[..n], b[n..]);
    assert b[..n] + b[n..] == b;
  }

  /** White space before a value or a name. */
  lemma {:induction false} ScanGap(s: Scanner, b: Bytes)
    requires s.mode.BeginValue? || s.mode.BeginValueOrEmpty? || s.mode.BeginKey? || s.mode.BeginKeyOrEmpty?
    ensures Scan(s, b) == Scan(s, b[GapLength(b)..])
  {
    if b != [] && Space(b[0]) {
      ScanGap(s, b[1..]);
      assert b[1..][GapLength(b[1..])..] == b[GapLength(b)..];
    } else {
      assert b[0..] == b;
    }
  }

  /** White space after a value that is inside brackets. */
  lemma {:induction false} ScanGapAfter(s: Scanner, stack: seq<Context>, b: Bytes) returns (t: Scanner)
    requires stack != [] && Ended(s, stack, b)
    ensures Ended(t, stack, b[GapLength(b)..]) && Scan(s, b) == Scan(t, b[GapLength(b)..])
    decreases |b|
  {
    if b != [] && Space(b[0]) {
      t := ScanGapAfter(Scanner(EndValue, stack), stack, b[1..]);
      assert b[1..][GapLength(b[1..])..] == b[GapLength(b)..];
    } else {
      assert b[0..] == b;
      t := s;
    }
  }

  /** A string: up to its quote, or cut off inside it, or wrong. */
  predicate BodyScans(s: Scanner, b: Bytes) {
    match ParseBody(b)
    case Got(_, rest) => Scan(s, b) == Scan(s.To(EndValue), rest)
    case Unfinished => Scan(s, b).stack == s.stack && Scan(s, b).InText()
    case Wrong => Scan(s, b).mode.Error?
  }

  lemma {:induction false} ScanBody(s: Scanner, b: Bytes)
    requires s.mode.InString?
    ensures BodyScans(s, b)
    decreases |b|
  {
    if b == [] || b[0] == '"' {
    } else if b[0] as int < 0x20 {
      ScanStuck(Step(s, b[0]), b[1..]);
    } else if b[0] != '\\' {
      ScanBody(s, b[1..]);
    } else {
      ScanEscape(s, b);
      var n := if |b| >= 2 && b[1] == 'u' then 6 else 2;
      if EscapeSound(b) && n <= |b| {
        ScanBody(s, b[n..]);
      }
    }
  }

  /** The escape that starts here. */
  lemma ScanEscape(s: Scanner, b: Bytes)
    requires s.mode.InString? && b != [] && b[0] == '\\'
    ensures var n := if |b| >= 2 && b[1] == 'u' then 6 else 2;
            && (!EscapeSound(b) ==> Scan(s, b).mode.Error?)
            && (EscapeSound(b) && n > |b| ==> Scan(s, b).stack == s.stack && Scan(s, b).InText())
            && (EscapeSound(b) && n <= |b| ==> Scan(s, b) == Scan(s, b[n..]))
  {
    var t := s.To(InEscape);
    if |b| >= 2 {
      assert b[1..][1..] == b[2..];
      if b[1] == 'u' {
        ScanHex(s, b[2..], 4);
      } else if b[1] !in "\"\\/bfnrt" {
        ScanStuck(Step(t, b[1]), b[2..]);
      }
    }
  }

  lemma {:induction false} ScanHex(s: Scanner, b: Bytes, left: nat)
    requires s.mode.InString? && 1 <= left <= 4
    ensures var t, sound := s.To(InUnicode(left)), forall i | 0 <= i < left && i < |b| :: IsHexDigit(b[i]);
            && (!sound ==> Scan(t, b).mode.Error?)
            && (sound && left > |b| ==> Scan(t, b).stack == s.stack && Scan(t, b).InText())
            && (sound && left <= |b| ==> Scan(t, b) == Scan(s, b[left..]))
    decreases left
  {
    var t := s.To(InUnicode(left));
    if b != [] {
      if !IsHex(b[0]) {
        ScanStuck(Step(t, b[0]), b[1..]);
      } else if left > 1 {
        ScanHex(s, b[1..], left - 1);
        if left <= |b| {
          assert b[1..][left - 1..] == b[left..];
        }
      }
    }
  }

  // ------------------------------------------------------------------------------- Numbers

  lemma {:induction false} ScanDigits(s: Scanner, b: Bytes)
    requires s.mode.Digits? || s.mode.Fraction? || s.mode.ExponentDigits?
    ensures Scan(s, b) == Scan(s, b[DigitsLength(b)..])
    decreases |b|
  {
    if b != [] && Digit(b[0]) {
      ScanDigits(s, b[1..]);
      assert b[1..][DigitsLength(b[1..])..] == b[DigitsLength(b)..];
    } else {
      assert b[0..] == b;
    }
  }

  predicate NoDigit(b: Bytes) {
    b != [] ==> !Digit(b[0])
  }

  lemma FractionIs(b: Bytes)
    ensures b == [] || b[0] != '.' ==> ParseFraction(b) == Got(None, b)
    ensures b != [] && b[0] == '.' ==>
              var d, n := b[1..], DigitsLength(b[1..]);
              ParseFraction(b) == if n > 0 then Got(Some(d[..n]), d[n..]) else if d == [] then Unfinished else Wrong
  {
    hide DigitsLength;
  }

  /** Digits where one must come. */
  lemma ScanSome(u: Scanner, t: Scanner, d: Bytes)
    requires u.mode.Point? && t == u.To(Fraction)
    ensures DigitsLength(d) > 0 ==> Scan(u, d) == Scan(t, d[DigitsLength(d)..])
    ensures d == [] ==> Scan(u, d) == u
    ensures d != [] && DigitsLength(d) == 0 ==> Scan(u, d).mode.Error?
  {
    if d != [] {
      ScanFirst(u, d);
      if Digit(d[0]) {
        ScanDigits(t, d);
        ScanFirst(t, d);
      } else {
        ScanStuck(Step(u, d[0]), d[1..]);
      }
    }
  }

  lemma PointStep(s: Scanner, b: Bytes)
    requires (s.mode.Zero? || s.mode.Digits?) && b != [] && b[0] == '.'
    ensures Scan(s, b) == Scan(s.To(Point), b[1..])
  {
    ScanFirst(s, b);
    hide Scan;
  }

  lemma AfterDigits(d: Bytes)
    ensures DigitsLength(d) > 0 ==> NoDigit(d[DigitsLength(d)..])
  {
  }

  lemma ScanFraction(s: Scanner, b: Bytes) returns (t: Scanner)
    requires s.mode.Zero? || (s.mode.Digits? && NoDigit(b))
    ensures var o := ParseFraction(b);
            && (o.Got? ==>
                  && Scan(s, b) == Scan(t, o.rest)
                  && (if o.part.Some? then t == s.To(Fraction) && NoDigit(o.rest) else t == s && o.rest == b))
            && (o.Unfinished? ==> Scan(s, b) == s.To(Point)) && (o.Wrong? ==> Scan(s, b).mode.Error?)
  {
    t := s;
    hide Scan, Step, DigitsLength, ParseFraction, NoDigit;
    FractionIs(b);
    if b != [] && b[0] == '.' {
      PointStep(s, b);
      ScanSome(s.To(Point), s.To(Fraction), b[1..]);
      AfterDigits(b[1..]);
      t := if DigitsLength(b[1..]) > 0 then s.To(Fraction) else s;
    }
  }

  lemma PowerIs(b: Bytes)
    ensures !StartsPower(b) ==> ParsePower(b) == Got(None, b)
    ensures StartsPower(b) ==>
              var d := b[1 + |SignOf(b)|..];
              var n := DigitsLength(d);
              ParsePower(b) == if n > 0 then Got(Some(Power(b[0], SignOf(b), d[..n])), d[n..])
                               else if d == [] then Unfinished else Wrong
  {
    hide DigitsLength;
  }

  predicate StartsPower(b: Bytes) {
    b != [] && (b[0] == 'e' || b[0] == 'E')
  }

  function SignOf(b: Bytes): (sign: Bytes)
    ensures 1 + |sign| <= |b| || b == []
  {
    if |b| >= 2 && (b[1] == '+' || b[1] == '-') then b[1..2] else ""
  }

  lemma ScanPower(s: Scanner, b: Bytes) returns (t: Scanner)
    requires s.mode.Zero? || s.mode.Digits? || s.mode.Fraction?
    requires !s.mode.Zero? ==> NoDigit(b)
    ensures var o := ParsePower(b);
            && (o.Got? ==>
                  && Scan(s, b) == Scan(t, o.rest)
                  && (if o.part.Some? then t == s.To(ExponentDigits) && NoDigit(o.rest) else t == s && o.rest == b))
            && (o.Unfinished? ==> Scan(s, b) == s.To(Exponent) || Scan(s, b) == s.To(ExponentSign))
            && (o.Wrong? ==> Scan(s, b).mode.Error?)
  {
    t := s;
    PowerIs(b);
    hide Scan, Step, DigitsLength, ParsePower, NoDigit, IsPower, PowerText;
    if StartsPower(b) {
      var d := b[1 + |SignOf(b)|..];
      ScanMark(s, b, SignOf(b));
      ScanExponent(s.To(if SignOf(b) == "" then Exponent else ExponentSign), d);
      AfterDigits(d);
      t := if DigitsLength(d) > 0 then s.To(ExponentDigits) else s;
    }
  }

  lemma ScanMark(s: Scanner, b: Bytes, sign: Bytes)
    requires (s.mode.Zero? || s.mode.Digits? || s.mode.Fraction?) && b != [] && (b[0] == 'e' || b[0] == 'E')
    requires sign == if |b| >= 2 && (b[1] == '+' || b[1] == '-') then b[1..2] else ""
    ensures Scan(s, b) == Scan(s.To(if sign == "" then Exponent else ExponentSign), b[1 + |sign|..])
  {
    ScanFirst(s, b);
    assert Step(s, b[0]) == s.To(Exponent);
    hide Scan;
    if sign != "" {
      ScanFirst(s.To(Exponent), b[1..]);
      assert b[1..][1..] == b[1 + |sign|..];
    }
  }

  lemma ScanExponent(u: Scanner, d: Bytes)
    requires u.mode.ExponentSign? || (u.mode.Exponent? && (d != [] ==> d[0] != '+' && d[0] != '-'))
    ensures DigitsLength(d) > 0 ==> Scan(u, d) == Scan(u.To(ExponentDigits), d[DigitsLength(d)..])
    ensures d == [] ==> Scan(u, d) == u
    ensures d != [] && DigitsLength(d) == 0 ==> Scan(u, d).mode.Error?
  {
    var t := u.To(ExponentDigits);
    if d != [] {
      ScanFirst(u, d);
      if Digit(d[0]) {
        ScanDigits(t, d);
        ScanFirst(t, d);
      } else {
        ScanStuck(Step(u, d[0]), d[1..]);
      }
    }
  }

  /** A value: over, with the scanner going on from there, or cut off, or wrong. */
  predicate Follows<T>(stack: seq<Context>, s: Scanner, b: Bytes, t: Scanner, o: Outcome<T>) {
    match o
    case Got(_, rest) => Ended(t, stack, rest) && Scan(s, b) == Scan(t, rest)
    case Unfinished => Open(Scan(s, b), stack)
    case Wrong => Scan(s, b).mode.Error?
  }


  lemma ScanWhole(u: Scanner, d: Bytes) returns (w: Scanner)
    requires d != [] && Digit(d[0]) && (u.mode.BeginValue? || u.mode.Minus?)
    ensures var n := if d[0] == '0' then 1 else DigitsLength(d);
            && w.stack == u.stack && (w.mode.Zero? || (w.mode.Digits? && NoDigit(d[n..])))
            && Scan(u, d) == Scan(w, d[n..])
  {
    ScanFirst(u, d);
    w := u.To(if d[0] == '0' then Zero else Digits);
    assert Step(u, d[0]) == w;
    if d[0] != '0' {
      ScanDigits(w, d);
      ScanFirst(w, d);
    }
  }

  lemma NumberEnded(t: Scanner, rest: Bytes)
    requires t.mode.Zero? || t.mode.Digits? || t.mode.Fraction? || t.mode.ExponentDigits?
    requires !t.mode.Zero? ==> NoDigit(rest)
    requires !t.mode.ExponentDigits? ==> rest != [] ==> rest[0] != 'e' && rest[0] != 'E'
    requires t.mode.Zero? || t.mode.Digits? ==> rest != [] ==> rest[0] != '.'
    ensures Ended(t, t.stack, rest)
  {
  }

  /** What follows the whole part. */
  function ParseTail(b: Bytes): Outcome<Option<Power>> {
    match ParseFraction(b)
    case Got(_, more) => ParsePower(more)
    case Unfinished => Unfinished
    case Wrong => Wrong
  }

  lemma ScanTail(w: Scanner, b: Bytes) returns (t: Scanner)
    requires w.mode.Zero? || (w.mode.Digits? && NoDigit(b))
    ensures Follows(w.stack, w, b, t, ParseTail(b))
  {
    var x := ScanFraction(w, b);
    t := x;
    hide Step, Scan, AfterValue, DigitsLength, Ended, ParseFraction, ParsePower, ParseTail, NoDigit, AreDigits, IsPower,
         FractionText, PowerText, Follows, Open;
    TailIs(b);
    if ParseFraction(b).Got? {
      var more := ParseFraction(b).rest;
      FractionRest(w, b, x);
      t := ScanPower(x, more);
      PowerRest(w, b, x, t);
      PowerFollows(w, b, x, more, t);
    } else {
      PointFollows(w, b, t);
    }
  }

  lemma PowerFollows(w: Scanner, b: Bytes, x: Scanner, more: Bytes, t: Scanner)
    requires Scan(w, b) == Scan(x, more) && ParseTail(b) == ParsePower(more) && x.stack == w.stack
    requires ParsePower(more).Got? ==>
               Ended(t, w.stack, ParsePower(more).rest) && Scan(x, more) == Scan(t, ParsePower(more).rest)
    requires ParsePower(more).Unfinished? ==> Scan(x, more) == x.To(Exponent) || Scan(x, more) == x.To(ExponentSign)
    requires ParsePower(more).Wrong? ==> Scan(x, more).mode.Error?
    ensures Follows(w.stack, w, b, t, ParseTail(b))
  {
    hide Scan, Ended, ParsePower, ParseTail;
  }

  lemma PointFollows(w: Scanner, b: Bytes, t: Scanner)
    requires ParseTail(b).Unfinished? ==> Scan(w, b) == w.To(Point)
    requires ParseTail(b).Wrong? ==> Scan(w, b).mode.Error?
    requires !ParseTail(b).Got?
    ensures Follows(w.stack, w, b, t, ParseTail(b))
  {
    hide Scan, Ended, ParseTail;
  }

  lemma TailIs(b: Bytes)
    ensures var f := ParseFraction(b);
            && (f.Got? ==> ParseTail(b) == ParsePower(f.rest))
            && (f.Unfinished? ==> ParseTail(b) == Unfinished) && (f.Wrong? ==> ParseTail(b) == Wrong)
  {
    hide ParseFraction, ParsePower;
  }

  lemma FractionRest(w: Scanner, b: Bytes, x: Scanner)
    requires (w.mode.Zero? || (w.mode.Digits? && NoDigit(b))) && ParseFraction(b).Got?
    requires var Got(f, rest) := ParseFraction(b);
             if f.Some? then x == w.To(Fraction) && NoDigit(rest) else x == w && rest == b
    ensures x.mode.Zero? || x.mode.Digits? || x.mode.Fraction?
    ensures !x.mode.Zero? ==> NoDigit(ParseFraction(b).rest)
  {
    hide ParseFraction, NoDigit;
  }

  lemma PowerRest(w: Scanner, b: Bytes, x: Scanner, t: Scanner)
    requires (w.mode.Zero? || (w.mode.Digits? && NoDigit(b))) && ParseFraction(b).Got?
    requires var Got(f, more) := ParseFraction(b);
             && (if f.Some? then x == w.To(Fraction) && NoDigit(more) else x == w && more == b)
             && (ParsePower(more).Got? ==>
                   var Got(p, rest) := ParsePower(more);
                   if p.Some? then t == x.To(ExponentDigits) && NoDigit(rest) else t == x && rest == more)
    ensures var more := ParseFraction(b).rest;
            ParsePower(more).Got? ==> Ended(t, w.stack, ParsePower(more).rest)
  {
    var more := ParseFraction(b).rest;
    if ParsePower(more).Got? {
      FractionIs(b);
      hide ParseFraction, ParsePower, Ended, DigitsLength;
      NumberEnded(t, ParsePower(more).rest);
    }
  }

  /** Where the digits of a number start. */
  function Unsigned(b: Bytes): Bytes {
    if b != [] && b[0] == '-' then b[1..] else b
  }

  function WholeLength(d: Bytes): (n: nat)
    ensures n <= |d|
  {
    if d == [] then 0 else if d[0] == '0' then 1 else DigitsLength(d)
  }

  lemma NumberOutcome(b: Bytes)
    ensures var d := Unsigned(b);
            && (d == [] ==> ParseNumber(b) == Unfinished)
            && (d != [] && !Digit(d[0]) ==> ParseNumber(b) == Wrong)
    ensures var d := Unsigned(b);
            var r := ParseTail(d[WholeLength(d)..]);
            d != [] && Digit(d[0]) ==>
              SameOutcome(r, ParseNumber(b))
  {
    hide DigitsLength, ParseFraction, ParsePower, IsPower, AreDigits;
    var d := Unsigned(b);
    if d != [] && Digit(d[0]) {
      assert d[WholeLength(d)..] == d[if d[0] == '0' then 1 else DigitsLength(d)..];
    }
  }

  predicate SameOutcome<T, U>(o: Outcome<T>, p: Outcome<U>) {
    && (o.Unfinished? <==> p.Unfinished?) && (o.Wrong? <==> p.Wrong?)
    && (o.Got? && p.Got? ==> o.rest == p.rest)
  }

  lemma FollowsVia<T, U>(stack: seq<Context>, s: Scanner, b: Bytes, u: Scanner, d: Bytes, t: Scanner, o: Outcome<T>,
                         p: Outcome<U>)
    requires Scan(s, b) == Scan(u, d) && Follows(stack, u, d, t, o) && SameOutcome(o, p)
    ensures Follows(stack, s, b, t, p)
  {
    hide Scan, Ended, Open;
  }

  lemma ScanNumber(stack: seq<Context>, b: Bytes) returns (t: Scanner)
    requires b != [] && (b[0] == '-' || Digit(b[0]))
    ensures Follows(stack, Scanner(BeginValue, stack), b, t, ParseNumber(b))
  {
    var s := Scanner(BeginValue, stack);
    var u := Scanner(if b[0] == '-' then Minus else BeginValue, stack);
    var d := Unsigned(b);
    t := u;
    ScanSign(stack, b);
    NumberOutcome(b);
    if d == [] {
      ScanNone(u);
      hide *;
      NumberShort(stack, b, u);
    } else if !Digit(d[0]) {
      NotANumber(u, d);
      hide *;
      NumberWrong(stack, b, u);
    } else {
      hide *;
      var w := ScanWhole(u, d);
      WholeIs(d);
      t := ScanTail(w, d[WholeLength(d)..]);
      FollowsVia(stack, s, b, w, d[WholeLength(d)..], t, ParseTail(d[WholeLength(d)..]), ParseNumber(b));
    }
  }

  lemma NumberShort(stack: seq<Context>, b: Bytes, u: Scanner)
    requires ParseNumber(b).Unfinished? && Scan(Scanner(BeginValue, stack), b) == Scanner(Minus, stack)
    ensures Follows(stack, Scanner(BeginValue, stack), b, u, ParseNumber(b))
  {
    hide Scan, ParseNumber, Ended;
  }

  lemma NumberWrong(stack: seq<Context>, b: Bytes, u: Scanner)
    requires ParseNumber(b).Wrong? && Scan(Scanner(BeginValue, stack), b).mode.Error?
    ensures Follows(stack, Scanner(BeginValue, stack), b, u, ParseNumber(b))
  {
    hide Scan, ParseNumber, Ended, Open;
  }

  lemma WholeIs(d: Bytes)
    ensures d != [] ==> WholeLength(d) == if d[0] == '0' then 1 else DigitsLength(d)
  {
  }

  lemma ScanSign(stack: seq<Context>, b: Bytes)
    requires b != []
    ensures b[0] == '-' ==> Scan(Scanner(BeginValue, stack), b) == Scan(Scanner(Minus, stack), b[1..])
  {
  }

  lemma NotANumber(u: Scanner, d: Bytes)
    requires u.mode.Minus? && d != [] && !Digit(d[0])
    ensures Scan(u, d).mode.Error?
  {
    ScanFirst(u, d);
    ScanStuck(Step(u, d[0]), d[1..]);
  }

  // ------------------------------------------------------------------------------- Words

  lemma {:induction false} ScanLetters(stack: seq<Context>, word: Bytes, b: Bytes)
    requires word != []
    ensures var s := Scanner(InLiteral(word), stack);
            && (|word| <= |b| && b[..|word|] == word ==> Scan(s, b) == Scan(Scanner(EndValue, stack), b[|word|..]))
            && (|b| < |word| && b == word[..|b|] ==> Open(Scan(s, b), stack))
            && ((|word| <= |b| && b[..|word|] != word) || (|b| < |word| && b != word[..|b|]) ==> Scan(s, b).mode.Error?)
    decreases |b|
  {
    var s := Scanner(InLiteral(word), stack);
    if b != [] {
      ScanFirst(s, b);
      if b[0] != word[0] {
        ScanStuck(Step(s, b[0]), b[1..]);
        assert b[..1][0] != word[..1][0];
      } else if |word| > 1 {
        ScanLetters(stack, word[1..], b[1..]);
        assert |word| <= |b| ==> (b[..|word|] == word <==> b[1..][..|word| - 1] == word[1..]) by {
          SameStart(b, word);
        }
        assert |b| < |word| ==> (b == word[..|b|] <==> b[1..] == word[1..][..|b| - 1]) by {
          SameStart(word, b);
        }
      }
    }
  }

  lemma SameStart(b: Bytes, word: Bytes)
    requires b != [] && word != [] && b[0] == word[0]
    ensures |word| <= |b| ==> (b[..|word|] == word <==> b[1..][..|word| - 1] == word[1..])
  {
    if |word| <= |b| {
      assert b[..|word|] == [b[0]] + b[1..][..|word| - 1];
      assert word == [word[0]] + word[1..];
    }
  }

  lemma ScanWord(stack: seq<Context>, word: Bytes, b: Bytes) returns (t: Scanner)
    requires |word| >= 2 && b != [] && b[0] == word[0]
    requires Step(Scanner(BeginValue, stack), b[0]) == Scanner(InLiteral(word[1..]), stack)
    ensures Follows(stack, Scanner(BeginValue, stack), b, t, ParseWord(word, b))
  {
    t := Scanner(EndValue, stack);
    ScanFirst(Scanner(BeginValue, stack), b);
    ScanLetters(stack, word[1..], b[1..]);
    SameStart(b, word);
    SameStart(word, b);
    hide Scan, Step;
    if |word| <= |b| {
      assert b[1..][|word| - 1..] == b[|word|..];
      EndedAt(stack, b[|word|..]);
    }
  }

  lemma EndedAt(stack: seq<Context>, rest: Bytes)
    ensures Ended(Scanner(EndValue, stack), stack, rest)
  {
  }

  // ------------------------------------------------------------------------------- Values

  /** A bracket has been closed. */
  function Closed(stack: seq<Context>): Scanner {
    Scanner(if stack == [] then EndTop else EndValue, stack)
  }

  predicate Closes<T>(stack: seq<Context>, s: Scanner, b: Bytes, o: Outcome<T>) {
    match o
    case Got(_, rest) => Scan(s, b) == Scan(Closed(stack), rest)
    case Unfinished => Open(Scan(s, b), stack)
    case Wrong => Scan(s, b).mode.Error?
  }

  lemma ClosedEnds(stack: seq<Context>, rest: Bytes)
    ensures Ended(Closed(stack), stack, rest)
  {
  }

  lemma StringStep(stack: seq<Context>, b: Bytes)
    requires b != [] && b[0] == '"'
    ensures Follows(stack, Scanner(BeginValue, stack), b, Scanner(EndValue, stack), ParseBody(b[1..]))
  {
    var s := Scanner(InString, stack);
    ScanFirst(Scanner(BeginValue, stack), b);
    ScanBody(s, b[1..]);
    hide Scan, ParseBody;
    if ParseBody(b[1..]).Got? {
      EndedAt(stack, ParseBody(b[1..]).rest);
    }
  }

  /** The first byte in a bracket. */
  lemma InBracket(c: Context, stack: seq<Context>, d: Bytes)
    requires c.Element? || c.Key?
    ensures var s := Scanner(if c.Element? then BeginValueOrEmpty else BeginKeyOrEmpty, stack + [c]);
            var t := Scanner(if c.Element? then BeginValue else BeginKey, stack + [c]);
            var n, close := GapLength(d), if c.Element? then ']' else '}';
            && (n == |d| ==> Open(Scan(s, d), stack))
            && (n < |d| && d[n] == close ==> Scan(s, d) == Scan(Closed(stack), d[n + 1..]))
            && (n < |d| && d[n] != close ==> Scan(s, d) == Scan(t, d))
  {
    var s := Scanner(if c.Element? then BeginValueOrEmpty else BeginKeyOrEmpty, stack + [c]);
    var t := Scanner(if c.Element? then BeginValue else BeginKey, stack + [c]);
    var n := GapLength(d);
    ScanGap(s, d);
    ScanGap(t, d);
    if n < |d| {
      FirstIn(c, stack, d[n]);
      ScanFirst(s, d[n..]);
      ScanFirst(t, d[n..]);
      assert d[n..][1..] == d[n + 1..];
    } else {
      ScanNone(s);
    }
  }

  lemma FirstIn(c: Context, stack: seq<Context>, x: char)
    requires (c.Element? || c.Key?) && !Space(x)
    ensures var s := Scanner(if c.Element? then BeginValueOrEmpty else BeginKeyOrEmpty, stack + [c]);
            var t := Scanner(if c.Element? then BeginValue else BeginKey, stack + [c]);
            Step(s, x) == if x == (if c.Element? then ']' else '}') then Closed(stack) else Step(t, x)
  {
    assert (stack + [c])[..|stack|] == stack;
  }

  lemma {:induction false} ScanValue(stack: seq<Context>, b: Bytes) returns (t: Scanner)
    requires b != [] && !Space(b[0])
    ensures Follows(stack, Scanner(BeginValue, stack), b, t, ParseValue(b))
    decreases |b|, 0
  {
    var c, d := b[0], b[1..];
    t := Scanner(EndValue, stack);
    if c == '"' {
      hide *;
      StringStep(stack, b);
      StringOutcome(stack, b, t);
    } else if c == '-' || Digit(c) {
      hide *;
      t := ScanNumber(stack, b);
      NumberIs(b);
    } else if c == 't' {
      t := ScanWord(stack, "true", b);
    } else if c == 'f' {
      t := ScanWord(stack, "false", b);
    } else if c == 'n' {
      t := ScanWord(stack, "null", b);
    } else if c == '[' {
      var n := GapLength(d);
      if n < |d| && d[n] != ']' {
        ScanItems(stack, d);
      }
      hide *;
      ArrayStep(stack, b);
      t := Closed(stack);
    } else if c == '{' {
      var n := GapLength(d);
      if n < |d| && d[n] != '}' {
        ScanMembers(stack, d);
      }
      hide *;
      ObjectStep(stack, b);
      t := Closed(stack);
    } else {
      ScanStuck(Step(Scanner(BeginValue, stack), c), d);
    }
  }

  lemma StringOutcome(stack: seq<Context>, b: Bytes, t: Scanner)
    requires b != [] && b[0] == '"' && Follows(stack, Scanner(BeginValue, stack), b, t, ParseBody(b[1..]))
    ensures Follows(stack, Scanner(BeginValue, stack), b, t, ParseValue(b))
  {
    var s := Scanner(BeginValue, stack);
    hide Scan, ParseBody, ParseValue, Ended, Open, Follows, SameOutcome;
    StringIs(b);
    FollowsVia(stack, s, b, s, b, t, ParseBody(b[1..]), ParseValue(b));
  }

  lemma NumberIs(b: Bytes)
    requires b != [] && (b[0] == '-' || Digit(b[0]))
    ensures !Space(b[0]) && ParseValue(b) == ParseNumber(b)
  {
    hide ParseNumber;
  }

  lemma ArrayIs(b: Bytes)
    requires b != [] && b[0] == '['
    ensures var d := b[1..];
            var n, r, v := GapLength(d), ParseItems(d), ParseValue(b);
            && (n == |d| ==> v == Unfinished)
            && (n < |d| && d[n] == ']' ==> v == Got(EmptyArr(d[..n]), d[n + 1..]))
            && (n < |d| && d[n] != ']' ==>
                  && (r.Unfinished? ==> v == Unfinished) && (r.Wrong? ==> v == Wrong)
                  && (r.Got? ==> v == Got(Arr(r.part), r.rest)))
  {
    hide ParseItems, GapLength;
  }

  lemma ObjectIs(b: Bytes)
    requires b != [] && b[0] == '{'
    ensures var d := b[1..];
            var n, r, v := GapLength(d), ParseMembers(d), ParseValue(b);
            && (n == |d| ==> v == Unfinished)
            && (n < |d| && d[n] == '}' ==> v == Got(EmptyObj(d[..n]), d[n + 1..]))
            && (n < |d| && d[n] != '}' ==>
                  && (r.Unfinished? ==> v == Unfinished) && (r.Wrong? ==> v == Wrong)
                  && (r.Got? ==> v == Got(Obj(r.part), r.rest)))
  {
    hide ParseMembers, GapLength;
  }

  lemma OpenBracket(stack: seq<Context>, b: Bytes)
    requires b != [] && (b[0] == '[' || b[0] == '{')
    ensures Scan(Scanner(BeginValue, stack), b)
            == Scan(if b[0] == '[' then Scanner(BeginValueOrEmpty, stack + [Element])
                    else Scanner(BeginKeyOrEmpty, stack + [Context.Key]), b[1..])
  {
    ScanFirst(Scanner(BeginValue, stack), b);
    hide Scan;
  }

  lemma ArrayStep(stack: seq<Context>, b: Bytes)
    requires b != [] && b[0] == '['
    requires var d := b[1..];
             var n := GapLength(d);
             n < |d| && d[n] != ']' ==> Closes(stack, Scanner(BeginValue, stack + [Element]), d, ParseItems(d))
    ensures Follows(stack, Scanner(BeginValue, stack), b, Closed(stack), ParseValue(b))
  {
    ArrayIs(b);
    OpenBracket(stack, b);
    InBracket(Element, stack, b[1..]);
    hide Scan, Step, ParseItems, ParseValue, GapLength, Ended, Open, Closed;
    if ParseValue(b).Got? {
      ClosedEnds(stack, ParseValue(b).rest);
    }
  }

  lemma ObjectStep(stack: seq<Context>, b: Bytes)
    requires b != [] && b[0] == '{'
    requires var d := b[1..];
             var n := GapLength(d);
             n < |d| && d[n] != '}' ==> Closes(stack, Scanner(BeginKey, stack + [Context.Key]), d, ParseMembers(d))
    ensures Follows(stack, Scanner(BeginValue, stack), b, Closed(stack), ParseValue(b))
  {
    ObjectIs(b);
    OpenBracket(stack, b);
    InBracket(Context.Key, stack, b[1..]);
    hide Scan, Step, ParseMembers, ParseValue, GapLength, Ended, Open, Closed;
    if ParseValue(b).Got? {
      ClosedEnds(stack, ParseValue(b).rest);
    }
  }

  /** After a value in a bracket: the end of the text, or the byte that follows. */
  lemma Between(stack: seq<Context>, c: Context, t: Scanner, d: Bytes)
    requires Ended(t, stack + [c], d)
    ensures var k := GapLength(d);
            && (k == |d| ==> Open(Scan(t, d), stack))
            && (k < |d| ==> Scan(t, d) == Scan(AfterValue(Scanner(EndValue, stack + [c]), d[k]), d[k + 1..]))
  {
    var k := GapLength(d);
    var u := ScanGapAfter(t, stack + [c], d);
    if k < |d| {
      ScanFirst(u, d[k..]);
      assert d[k..][1..] == d[k + 1..];
    } else {
      ScanNone(u);
      EndedInside(u, stack, c);
    }
  }

  lemma AfterItem(stack: seq<Context>, x: char)
    requires !Space(x)
    ensures var s := AfterValue(Scanner(EndValue, stack + [Element]), x);
            if x == ']' then s == Closed(stack) else if x == ',' then s == Scanner(BeginValue, stack + [Element])
            else s.mode.Error?
  {
    assert (stack + [Element])[..|stack|] == stack;
  }

  lemma AfterMember(stack: seq<Context>, x: char)
    requires !Space(x)
    ensures var s := AfterValue(Scanner(EndValue, stack + [Context.Value]), x);
            if x == '}' then s == Closed(stack) else if x == ',' then s == Scanner(BeginKey, stack + [Context.Key])
            else s.mode.Error?
  {
    assert (stack + [Context.Value])[..|stack|] == stack;
  }

  lemma AfterName(stack: seq<Context>, x: char)
    requires !Space(x)
    ensures var s := AfterValue(Scanner(EndValue, stack + [Context.Key]), x);
            if x == ':' then s == Scanner(BeginValue, stack + [Context.Value]) else s.mode.Error?
  {
    assert (stack + [Context.Key])[..|stack|] == stack;
  }

  /** After an item: a comma and further items, or the closing bracket. */
  lemma AfterItems(stack: seq<Context>, t: Scanner, d: Bytes)
    requires Ended(t, stack + [Element], d)
    ensures var k, s := GapLength(d), Scan(t, d);
            && (k == |d| ==> Open(s, stack))
            && (k < |d| && d[k] == ']' ==> s == Scan(Closed(stack), d[k + 1..]))
            && (k < |d| && d[k] == ',' ==> s == Scan(Scanner(BeginValue, stack + [Element]), d[k + 1..]))
            && (k < |d| && d[k] != ']' && d[k] != ',' ==> s.mode.Error?)
  {
    var k := GapLength(d);
    hide *;
    Between(stack, Element, t, d);
    if k < |d| {
      AfterItem(stack, d[k]);
      if d[k] != ']' && d[k] != ',' {
        ScanStuck(AfterValue(Scanner(EndValue, stack + [Element]), d[k]), d[k + 1..]);
      }
    }
  }

  lemma AfterMembers(stack: seq<Context>, t: Scanner, d: Bytes)
    requires Ended(t, stack + [Context.Value], d)
    ensures var k, s := GapLength(d), Scan(t, d);
            && (k == |d| ==> Open(s, stack))
            && (k < |d| && d[k] == '}' ==> s == Scan(Closed(stack), d[k + 1..]))
            && (k < |d| && d[k] == ',' ==> s == Scan(Scanner(BeginKey, stack + [Context.Key]), d[k + 1..]))
            && (k < |d| && d[k] != '}' && d[k] != ',' ==> s.mode.Error?)
  {
    var k := GapLength(d);
    hide *;
    Between(stack, Context.Value, t, d);
    if k < |d| {
      AfterMember(stack, d[k]);
      if d[k] != '}' && d[k] != ',' {
        ScanStuck(AfterValue(Scanner(EndValue, stack + [Context.Value]), d[k]), d[k + 1..]);
      }
    }
  }

  lemma {:induction false} ScanItems(stack: seq<Context>, b: Bytes)
    ensures Closes(stack, Scanner(BeginValue, stack + [Element]), b, ParseItems(b))
    decreases |b|, 1
  {
    var s := Scanner(BeginValue, stack + [Element]);
    var n := GapLength(b);
    hide Scan, Step, AfterValue, GapLength, ParseValue, Ended, Open, Closed;
    ScanGap(s, b);
    if n == |b| {
      assert b[n..] == [];
      ScanNone(s);
      BracketOpen(stack, s);
    } else {
      var t := ScanValue(stack + [Element], b[n..]);
      match ParseValue(b[n..])
      case Unfinished =>
        OpenInside(Scan(s, b[n..]), stack, Element);
      case Wrong =>
      case Got(_, d) =>
        AfterItems(stack, t, d);
        if GapLength(d) < |d| && d[GapLength(d)] == ',' {
          ScanItems(stack, d[GapLength(d) + 1..]);
        }
    }
  }

  lemma BracketOpen(stack: seq<Context>, s: Scanner)
    requires |s.stack| > |stack| && stack <= s.stack && !s.mode.Error? && !s.mode.EndTop?
    ensures Open(s, stack)
  {
  }

  predicate KeyScans(stack: seq<Context>, b: Bytes) {
    var s := Scan(Scanner(BeginKey, stack + [Context.Key]), b);
    match ParseKey(b)
    case Got(_, rest) => s == Scan(Scanner(BeginValue, stack + [Context.Value]), rest)
    case Unfinished => Open(s, stack)
    case Wrong => s.mode.Error?
  }

  lemma KeyIs(b: Bytes)
    ensures var n, r := GapLength(b), ParseKey(b);
            && (n == |b| ==> r == Unfinished)
            && (n < |b| && b[n] != '"' ==> r == Wrong)
            && (n < |b| && b[n] == '"' ==>
                  var c := ParseBody(b[n + 1..]);
                  && (c.Unfinished? ==> r == Unfinished) && (c.Wrong? ==> r == Wrong)
                  && (c.Got? ==> SameOutcome(ParseColon(c.rest), r)))
  {
    hide GapLength, ParseBody;
  }

  /** From a name to the value after its colon. */
  function ParseColon(d: Bytes): Outcome<Bytes> {
    var k := GapLength(d);
    if k == |d| then Unfinished
    else if d[k] != ':' then Wrong
    else
      var e := d[k + 1..];
      var m := GapLength(e);
      if m == |e| then Unfinished else Got(e[..m], e[m..])
  }

  lemma ScanKey(stack: seq<Context>, b: Bytes)
    ensures KeyScans(stack, b)
  {
    var s := Scanner(BeginKey, stack + [Context.Key]);
    var n := GapLength(b);
    ScanGap(s, b);
    hide Scan, Step, GapLength, ParseBody, ParseKey, ParseColon, Ended, Open, KeyScans, BodyScans, SameOutcome;
    KeyIs(b);
    if n == |b| {
      assert b[n..] == [];
      ScanNone(s);
      BracketOpen(stack, s);
      KeyEnds(stack, b);
    } else if b[n] != '"' {
      NoName(s, b[n..]);
      KeyEnds(stack, b);
    } else {
      assert b[n..][1..] == b[n + 1..];
      ScanName(stack, b, n);
    }
  }

  lemma KeyEnds(stack: seq<Context>, b: Bytes)
    requires ParseKey(b).Unfinished? ==> Open(Scan(Scanner(BeginKey, stack + [Context.Key]), b), stack)
    requires ParseKey(b).Wrong? ==> Scan(Scanner(BeginKey, stack + [Context.Key]), b).mode.Error?
    requires ParseKey(b).Got? ==>
               Scan(Scanner(BeginKey, stack + [Context.Key]), b)
               == Scan(Scanner(BeginValue, stack + [Context.Value]), ParseKey(b).rest)
    ensures KeyScans(stack, b)
  {
    hide Scan, ParseKey, Open;
  }

  lemma NoName(s: Scanner, b: Bytes)
    requires s.mode.BeginKey? && b != [] && b[0] != '"' && !Space(b[0])
    ensures Scan(s, b).mode.Error?
  {
    ScanFirst(s, b);
    ScanStuck(Step(s, b[0]), b[1..]);
  }

  lemma ScanName(stack: seq<Context>, b: Bytes, n: nat)
    requires n == GapLength(b) < |b| && b[n] == '"'
    requires Scan(Scanner(BeginKey, stack + [Context.Key]), b) == Scan(Scanner(BeginKey, stack + [Context.Key]), b[n..])
    ensures KeyScans(stack, b)
  {
    var s, t := Scanner(BeginKey, stack + [Context.Key]), Scanner(InString, stack + [Context.Key]);
    assert b[n..][1..] == b[n + 1..];
    ScanFirst(s, b[n..]);
    assert Step(s, b[n]) == t;
    KeyIs(b);
    ScanBody(t, b[n + 1..]);
    hide Scan, Step, GapLength, ParseBody, ParseKey, ParseColon, Ended, Open, KeyScans;
    if ParseBody(b[n + 1..]).Got? {
      var d := ParseBody(b[n + 1..]).rest;
      ColonScans(stack, d);
    } else {
      if ParseBody(b[n + 1..]).Unfinished? {
        TextOpen(stack, Scan(t, b[n + 1..]));
      }
    }
    KeyEnds(stack, b);
  }

  lemma TextOpen(stack: seq<Context>, s: Scanner)
    requires s.stack == stack + [Context.Key] && s.InText()
    ensures Open(s, stack)
  {
  }

  lemma ColonScans(stack: seq<Context>, d: Bytes)
    ensures var s, r := Scan(Scanner(EndValue, stack + [Context.Key]), d), ParseColon(d);
            && (r.Unfinished? ==> Open(s, stack)) && (r.Wrong? ==> s.mode.Error?)
            && (r.Got? ==> s == Scan(Scanner(BeginValue, stack + [Context.Value]), r.rest))
  {
    hide Scan, Step, AfterValue, GapLength, Ended, Open;
    EndedAt(stack + [Context.Key], d);
    Between(stack, Context.Key, Scanner(EndValue, stack + [Context.Key]), d);
    ScanColon(stack, d);
  }

  lemma ScanColon(stack: seq<Context>, d: Bytes)
    ensures var k := GapLength(d);
            k < |d| ==>
              var s := Scan(AfterValue(Scanner(EndValue, stack + [Context.Key]), d[k]), d[k + 1..]);
              var e := d[k + 1..];
              && (d[k] != ':' ==> s.mode.Error?)
              && (d[k] == ':' && GapLength(e) == |e| ==> Open(s, stack))
              && (d[k] == ':' ==> s == Scan(Scanner(BeginValue, stack + [Context.Value]), e[GapLength(e)..]))
  {
    var k := GapLength(d);
    if k < |d| {
      var e := d[k + 1..];
      AfterName(stack, d[k]);
      hide AfterValue, GapLength, Step;
      if d[k] == ':' {
        ScanGap(Scanner(BeginValue, stack + [Context.Value]), e);
      } else {
        ScanStuck(AfterValue(Scanner(EndValue, stack + [Context.Key]), d[k]), e);
      }
    }
  }

  lemma {:induction false} ScanMembers(stack: seq<Context>, b: Bytes)
    ensures Closes(stack, Scanner(BeginKey, stack + [Context.Key]), b, ParseMembers(b))
    decreases |b|, 1
  {
    hide Scan, Step, AfterValue, GapLength, ParseValue, ParseKey, Ended, Open, Closed;
    ScanKey(stack, b);
    match ParseKey(b)
    case Unfinished =>
    case Wrong =>
    case Got(_, e) =>
      var t := ScanValue(stack + [Context.Value], e);
      match ParseValue(e)
      case Unfinished =>
        OpenInside(Scan(Scanner(BeginValue, stack + [Context.Value]), e), stack, Context.Value);
      case Wrong =>
      case Got(_, d) =>
        AfterMembers(stack, t, d);
        if GapLength(d) < |d| && d[GapLength(d)] == ',' {
          ScanMembers(stack, d[GapLength(d) + 1..]);
        }
  }

  // ------------------------------------------------------------------------------- Texts are parsed

  lemma {:induction false} GapTaken(gap: Bytes, rest: Bytes)
    requires IsGap(gap) && (rest != [] ==> !Space(rest[0]))
    ensures GapLength(gap + rest) == |gap| && (gap + rest)[..|gap|] == gap && (gap + rest)[|gap|..] == rest
  {
    var s := gap + rest;
    var n := GapLength(s);
    GapSpaces(gap);
    GapSpaces(s[..n]);
    hide GapLength, Space, IsGap;
    assert forall i | 0 <= i < |gap| :: s[i] == gap[i];
    assert rest != [] ==> s[|gap|] == rest[0];
    assert forall i | 0 <= i < n :: s[..n][i] == s[i];
  }

  lemma {:induction false} DigitsTaken(digits: Bytes, rest: Bytes)
    requires AreDigits(digits) && NoDigit(rest)
    ensures DigitsLength(digits + rest) == |digits|
    ensures (digits + rest)[..|digits|] == digits && (digits + rest)[|digits|..] == rest
  {
    var s := digits + rest;
    var n := DigitsLength(s);
    hide DigitsLength;
    assert forall i | 0 <= i < |digits| :: s[i] == digits[i];
    assert rest != [] ==> s[|digits|] == rest[0];
    assert forall i | 0 <= i < n :: s[..n][i] == s[i];
  }

  lemma {:induction false} BodyPrinted(body: Bytes, rest: Bytes)
    requires IsBody(body)
    ensures ParseBody(body + "\"" + rest) == Got(body, rest)
    decreases |body|
  {
    var b := body + "\"" + rest;
    if body == [] {
      assert b == "\"" + rest;
    } else {
      var n := BodyUnit(body);
      BodyPrinted(body[n..], rest);
      hide *;
      BodySlices(body, rest, n);
      UnitParsed(b, n);
    }
  }

  lemma BodySlices(body: Bytes, rest: Bytes, n: nat)
    requires n <= |body|
    ensures var b := body + "\"" + rest;
            && b[n..] == body[n..] + "\"" + rest && b[..n] == body[..n] && body == body[..n] + body[n..]
            && (IsUnit(body, n) ==> IsUnit(b[..n], n))
  {
    var b := body + "\"" + rest;
    assert b[n..] == body[n..] + "\"" + rest && b[..n] == body[..n];
    assert forall i | 0 <= i < n :: b[..n][i] == body[i];
  }

  /** A plain byte or an escape, whole. */
  predicate IsUnit(b: Bytes, n: nat) {
    && 1 <= n <= |b| && b[0] != '"' && b[0] as int >= 0x20
    && (b[0] != '\\' ==> n == 1) && (b[0] == '\\' ==> n == 2 || n == 6)
    && (n == 6 ==> b[1] == 'u' && forall i | 2 <= i < 6 :: IsHexDigit(b[i])) && (n == 2 ==> b[1] in "\"\\/bfnrt")
  }

  lemma BodyUnit(body: Bytes) returns (n: nat)
    requires IsBody(body) && body != []
    ensures n <= |body| && IsBody(body[n..]) && IsUnit(body, n)
  {
    n := if body[0] != '\\' then 1 else if body[1] == 'u' then 6 else 2;
  }

  lemma UnitParsed(b: Bytes, n: nat)
    requires 1 <= n <= |b| && IsUnit(b[..n], n) && ParseBody(b[n..]).Got?
    ensures ParseBody(b) == Got(b[..n] + ParseBody(b[n..]).part, ParseBody(b[n..]).rest)
  {
    UnitWhole(b, n);
    hide IsUnit, EscapeSound;
    BodyStep(b, n);
  }

  lemma UnitWhole(b: Bytes, n: nat)
    requires 1 <= n <= |b| && IsUnit(b[..n], n)
    ensures b[0] != '"' && b[0] as int >= 0x20 && (b[0] == '\\' ==> EscapeSound(b))
    ensures n == if b[0] != '\\' then 1 else if |b| >= 2 && b[1] == 'u' then 6 else 2
  {
    var u := b[..n];
    assert forall i | 0 <= i < n :: u[i] == b[i];
  }

  lemma {:induction false} BodyStep(b: Bytes, n: nat)
    requires b != [] && b[0] != '"' && b[0] as int >= 0x20 && (b[0] == '\\' ==> EscapeSound(b)) && n <= |b|
    requires n == if b[0] != '\\' then 1 else if |b| >= 2 && b[1] == 'u' then 6 else 2
    requires ParseBody(b[n..]).Got?
    ensures ParseBody(b) == Got(b[..n] + ParseBody(b[n..]).part, ParseBody(b[n..]).rest)
  {
    hide EscapeSound, IsBody;
  }

  /** After a number, its text must not go on. */
  predicate Ends(v: Value, rest: Bytes) {
    v.Num? && rest != [] ==> !Digit(rest[0]) && rest[0] != '.' && rest[0] != 'e' && rest[0] != 'E'
  }

  lemma FractionPrinted(fraction: Option<Bytes>, rest: Bytes)
    requires (fraction.Some? ==> AreDigits(fraction.value)) && NoDigit(rest) && (rest != [] ==> rest[0] != '.')
    ensures ParseFraction(FractionText(fraction) + rest) == Got(fraction, rest)
    ensures NoDigit(FractionText(fraction) + rest)
  {
    var b := FractionText(fraction) + rest;
    if fraction.Some? {
      PointText(fraction.value, rest);
      DigitsTaken(fraction.value, rest);
      hide DigitsLength, ParseFraction, FractionText, AreDigits;
      FractionIs(b);
    } else {
      hide DigitsLength, ParseFraction;
      assert b == rest;
      FractionIs(b);
    }
  }

  lemma PointText(digits: Bytes, rest: Bytes)
    requires AreDigits(digits)
    ensures var b := FractionText(Some(digits)) + rest;
            b != [] && b[0] == '.' && b[1..] == digits + rest && digits != []
  {
    hide AreDigits;
    Unwrapped(".", digits, "", rest);
    assert "." + digits + "" == "." + digits && "" + rest == rest;
    SomeDigits(digits);
  }

  lemma SomeDigits(digits: Bytes)
    requires AreDigits(digits)
    ensures digits != []
  {
  }

  lemma PowerPrinted(exponent: Option<Power>, rest: Bytes)
    requires (exponent.Some? ==> IsPower(exponent.value)) && NoDigit(rest)
    requires rest != [] ==> rest[0] != 'e' && rest[0] != 'E'
    ensures ParsePower(PowerText(exponent) + rest) == Got(exponent, rest)
  {
    if exponent.Some? {
      var Power(mark, sign, digits) := exponent.value;
      DigitsTaken(digits, rest);
      PowerSliced(mark, sign, digits + rest);
      PowerRegroups(exponent.value, rest);
      hide DigitsLength, AreDigits;
      PowerParses(PowerText(exponent) + rest, exponent.value, rest);
    } else {
      assert PowerText(exponent) + rest == rest;
    }
  }

  lemma PowerRegroups(p: Power, rest: Bytes)
    ensures PowerText(Some(p)) + rest == [p.mark] + p.sign + (p.digits + rest)
  {
  }

  lemma PowerSliced(mark: char, sign: Bytes, d: Bytes)
    requires (sign == "" || sign == "+" || sign == "-") && d != [] && Digit(d[0])
    ensures var b := [mark] + sign + d;
            && b[0] == mark && b[1 + |sign|..] == d && |b| >= 2
            && (sign == "" ==> b[1] != '+' && b[1] != '-') && (sign != "" ==> b[1] == sign[0] && b[1..2] == sign)
  {
    var b := [mark] + sign + d;
    assert b[1 + |sign|..] == d;
    assert b[1] == if sign == "" then d[0] else sign[0];
  }

  lemma PowerParses(b: Bytes, p: Power, rest: Bytes)
    requires b == [p.mark] + p.sign + (p.digits + rest) && (p.mark == 'e' || p.mark == 'E')
    requires p.sign == "" || p.sign == "+" || p.sign == "-"
    requires |b| >= 2 && b[0] == p.mark && b[1 + |p.sign|..] == p.digits + rest
    requires if p.sign == "" then b[1] != '+' && b[1] != '-' else b[1] == p.sign[0] && b[1..2] == p.sign
    requires p.digits != [] && DigitsLength(p.digits + rest) == |p.digits|
    requires (p.digits + rest)[..|p.digits|] == p.digits && (p.digits + rest)[|p.digits|..] == rest
    ensures ParsePower(b) == Got(Some(p), rest)
  {
    hide DigitsLength, AreDigits;
  }

  lemma PowerStart(exponent: Option<Power>, rest: Bytes)
    requires (exponent.Some? ==> IsPower(exponent.value)) && NoDigit(rest) && (rest != [] ==> rest[0] != '.')
    ensures var b := PowerText(exponent) + rest; NoDigit(b) && (b != [] ==> b[0] != '.')
  {
    if exponent.None? {
      assert PowerText(exponent) + rest == rest;
    }
  }

  lemma NumberPrinted(v: Value, rest: Bytes)
    requires v.Num? && Proper(v) && Ends(v, rest)
    ensures ParseNumber(Text(v) + rest) == Got(v, rest)
    ensures (Text(v) + rest)[0] == '-' || Digit((Text(v) + rest)[0])
  {
    var Num(minus, whole, fraction, exponent) := v;
    var more := PowerText(exponent) + rest;
    var tail := FractionText(fraction) + more;
    NumberParts(v);
    NoDigitThen(v, rest);
    hide *;
    PowerStart(exponent, rest);
    FractionPrinted(fraction, more);
    PowerPrinted(exponent, rest);
    WholePrinted(whole, tail);
    NumberText(minus, whole, FractionText(fraction), PowerText(exponent), rest);
    SignPrinted(Text(v) + rest, minus, whole + tail);
    NumberBuilt(Text(v) + rest, minus, whole + tail, |whole|, fraction, more, exponent, rest);
  }

  lemma NumberParts(v: Value)
    requires v.Num? && Proper(v)
    ensures AreDigits(v.whole) && (v.whole[0] == '0' ==> v.whole == "0")
    ensures (v.fraction.Some? ==> AreDigits(v.fraction.value)) && (v.exponent.Some? ==> IsPower(v.exponent.value))
    ensures Text(v) == (if v.minus then "-" else "") + v.whole + FractionText(v.fraction) + PowerText(v.exponent)
  {
    hide AreDigits, IsPower, FractionText, PowerText;
  }

  lemma NoDigitThen(v: Value, rest: Bytes)
    requires v.Num? && Ends(v, rest)
    ensures NoDigit(rest) && (rest != [] ==> rest[0] != '.' && rest[0] != 'e' && rest[0] != 'E')
  {
  }

  lemma SignPrinted(b: Bytes, minus: bool, d: Bytes)
    requires b == (if minus then "-" else "") + d && d != [] && Digit(d[0])
    ensures b != [] && (minus ==> b[0] == '-' && b[1..] == d) && (!minus ==> b == d && Digit(b[0]))
  {
  }

  lemma NumberBuilt(b: Bytes, minus: bool, d: Bytes, n: nat, fraction: Option<Bytes>, more: Bytes,
                    exponent: Option<Power>, rest: Bytes)
    requires b != [] && (minus ==> b[0] == '-' && b[1..] == d) && (!minus ==> b == d && Digit(b[0]))
    requires d != [] && Digit(d[0]) && n == (if d[0] == '0' then 1 else DigitsLength(d))
    requires ParseFraction(d[n..]) == Got(fraction, more) && ParsePower(more) == Got(exponent, rest)
    ensures ParseNumber(b) == Got(Num(minus, d[..n], fraction, exponent), rest)
  {
    hide DigitsLength, ParseFraction, ParsePower;
  }

  lemma NumberText(minus: bool, whole: Bytes, point: Bytes, raised: Bytes, rest: Bytes)
    ensures (if minus then "-" else "") + whole + point + raised + rest
            == (if minus then "-" else "") + (whole + (point + (raised + rest)))
  {
  }

  lemma WholePrinted(whole: Bytes, tail: Bytes)
    requires AreDigits(whole) && (whole[0] == '0' ==> whole == "0") && NoDigit(tail)
    ensures var d := whole + tail;
            var n := if d[0] == '0' then 1 else DigitsLength(d);
            Digit(d[0]) && n == |whole| && d[..n] == whole && d[n..] == tail && d[0] == whole[0]
  {
    DigitsTaken(whole, tail);
    hide DigitsLength;
    assert (whole + tail)[0] == whole[0];
  }

  lemma WordPrinted(word: Bytes, rest: Bytes)
    ensures ParseWord(word, word + rest) == Got(Word(word), rest)
  {
    assert (word + rest)[..|word|] == word && (word + rest)[|word|..] == rest;
  }


  /** The text of a value is parsed as that value, whatever follows that it does not go on with. */
  lemma {:induction false} ValuePrinted(v: Value, rest: Bytes)
    requires Proper(v) && Ends(v, rest)
    ensures var b := Text(v) + rest; b != [] && !Space(b[0]) && b[0] != ']' && ParseValue(b) == Got(v, rest)
    decreases v, 0
  {
    match v
    case Str(body) =>
      hide *;
      StringPrinted(body, rest);
    case Num(_, _, _, _) =>
      hide *;
      NumberPrinted(v, rest);
      NumberIs(Text(v) + rest);
      TextStarts(v, rest);
    case Word(word) =>
      TextStarts(v, rest);
      WordPrinted(word, rest);
      hide ParseWord;
    case EmptyArr(gap) =>
      hide *;
      EmptyPrinted(v, gap, rest);
    case EmptyObj(gap) =>
      hide *;
      EmptyPrinted(v, gap, rest);
    case Arr(items) =>
      ItemsPrinted(items, rest);
      hide *;
      ArrayPrinted(items, rest);
    case Obj(members) =>
      MembersPrinted(members, rest);
      hide *;
      ObjectPrinted(members, rest);
  }

  lemma TextStarts(v: Value, rest: Bytes)
    requires Proper(v) && (v.Num? || v.Word?)
    ensures var b, c := Text(v) + rest, Text(v)[0];
            b != [] && b[0] == c && (if v.Num? then c == '-' || Digit(c) else c == v.word[0]) && Text(v) != []
  {
  }

  lemma StringIs(b: Bytes)
    requires b != [] && b[0] == '"'
    ensures var r, v := ParseBody(b[1..]), ParseValue(b);
            SameOutcome(r, v) && (r.Got? ==> v == Got(Str(r.part), r.rest))
  {
    hide ParseBody;
  }

  lemma StringPrinted(body: Bytes, rest: Bytes)
    requires Proper(Str(body))
    ensures var b := Text(Str(body)) + rest; b != [] && b[0] == '"' && ParseValue(b) == Got(Str(body), rest)
  {
    StringText(body, rest);
    ProperString(body);
    hide *;
    BodyPrinted(body, rest);
    StringIs(Text(Str(body)) + rest);
  }

  lemma ProperString(body: Bytes)
    ensures Proper(Str(body)) <==> IsBody(body)
  {
  }

  lemma StringText(body: Bytes, rest: Bytes)
    ensures var b := Text(Str(body)) + rest; b != [] && b[0] == '"' && b[1..] == body + "\"" + rest
  {
  }

  lemma EmptyPrinted(v: Value, gap: Bytes, rest: Bytes)
    requires (v == EmptyArr(gap) || v == EmptyObj(gap)) && Proper(v)
    ensures var b := Text(v) + rest; b != [] && (b[0] == '[' || b[0] == '{') && ParseValue(b) == Got(v, rest)
  {
    var b := Text(v) + rest;
    EmptyArray(gap);
    EmptyObject(gap);
    hide IsGap, GapLength, Text, Proper, ParseValue, ParseItems, ParseMembers;
    if v.EmptyArr? {
      Unwrapped("[", gap, "]", rest);
      GapTaken(gap, "]" + rest);
      MarkAt(b[1..], |gap|, "]", rest);
      ArrayIs(b);
    } else {
      Unwrapped("{", gap, "}", rest);
      GapTaken(gap, "}" + rest);
      MarkAt(b[1..], |gap|, "}", rest);
      ObjectIs(b);
    }
  }

  lemma Unwrapped(open: Bytes, inner: Bytes, close: Bytes, rest: Bytes)
    requires |open| == 1
    ensures var b := open + inner + close + rest; b != [] && b[0] == open[0] && b[1..] == inner + (close + rest)
  {
  }

  lemma ArrayPrinted(items: Items, rest: Bytes)
    requires items.Item?
    requires var d := ItemsText(items) + "]" + rest;
             ParseItems(d) == Got(items, rest) && GapLength(d) < |d| && d[GapLength(d)] != ']'
    ensures var b := Text(Arr(items)) + rest; b != [] && b[0] == '[' && ParseValue(b) == Got(Arr(items), rest)
  {
    hide ParseItems, GapLength, ItemsText;
    assert (Text(Arr(items)) + rest)[1..] == ItemsText(items) + "]" + rest;
  }

  lemma ObjectPrinted(members: Members, rest: Bytes)
    requires members.Member?
    requires var d := MembersText(members) + "}" + rest;
             ParseMembers(d) == Got(members, rest) && GapLength(d) < |d| && d[GapLength(d)] != '}'
    ensures var b := Text(Obj(members)) + rest; b != [] && b[0] == '{' && ParseValue(b) == Got(Obj(members), rest)
  {
    hide ParseMembers, GapLength, MembersText;
    assert (Text(Obj(members)) + rest)[1..] == MembersText(members) + "}" + rest;
  }

  lemma {:induction false} ItemsPrinted(items: Items, rest: Bytes)
    requires items.Item? && ProperItems(items)
    ensures var d := ItemsText(items) + "]" + rest;
            ParseItems(d) == Got(items, rest) && GapLength(d) < |d| && d[GapLength(d)] != ']'
    decreases items, 1
  {
    var Item(before, v, after, more) := items;
    var next := if more.Item? then "," + ItemsText(more) else "";
    if more.Item? {
      ItemsPrinted(more, rest);
    }
    var b, d := ItemsText(items) + "]" + rest, after + (next + "]" + rest);
    Afterwards(v, after, next + "]" + rest);
    ValuePrinted(v, d);
    ItemPrinted(before, v, after, next, rest);
    hide *;
    GapTaken(before, Text(v) + d);
    GapTaken(after, next + "]" + rest);
    ItemsBuilt(b, before, v, d, after, next, more, rest);
  }

  lemma Afterwards(v: Value, after: Bytes, rest: Bytes)
    requires IsGap(after) && rest != [] && rest[0] in ",]}"
    ensures Ends(v, after + rest) && !Space(rest[0])
  {
    assert (after + rest)[0] == if after == [] then rest[0] else after[0];
  }

  lemma ItemPrinted(before: Bytes, v: Value, after: Bytes, next: Bytes, rest: Bytes)
    ensures before + Text(v) + after + next + "]" + rest == before + (Text(v) + (after + (next + "]" + rest)))
  {
    hide Text;
  }

  lemma ItemsBuilt(b: Bytes, before: Bytes, v: Value, d: Bytes, after: Bytes, next: Bytes, more: Items, rest: Bytes)
    requires GapLength(b) == |before| && |before| <= |b| && b[..|before|] == before && b[|before|..] == Text(v) + d
    requires Text(v) + d != [] && !Space((Text(v) + d)[0]) && (Text(v) + d)[0] != ']'
    requires ParseValue(Text(v) + d) == Got(v, d)
    requires GapLength(d) == |after| && d[..|after|] == after && d[|after|..] == next + "]" + rest
    requires if more.Item? then
               next == "," + ItemsText(more) && ParseItems(ItemsText(more) + "]" + rest) == Got(more, rest)
             else next == "" && more == NoItems
    ensures ParseItems(b) == Got(Item(before, v, after, more), rest) && GapLength(b) < |b| && b[GapLength(b)] != ']'
  {
    hide *;
    NextByte(d, |after|, next, "]", rest, if more.Item? then ItemsText(more) else "");
    FirstOf(b, |before|, Text(v) + d);
    ItemsStep(b, v, d);
  }

  lemma FirstOf(b: Bytes, n: nat, e: Bytes)
    requires n <= |b| && b[n..] == e && e != []
    ensures n < |b| && b[n] == e[0]
  {
  }

  lemma ItemsStep(b: Bytes, v: Value, d: Bytes)
    requires GapLength(b) < |b| && ParseValue(b[GapLength(b)..]) == Got(v, d) && GapLength(d) < |d|
    ensures var n, k := GapLength(b), GapLength(d);
            && (d[k] == ']' ==> ParseItems(b) == Got(Item(b[..n], v, d[..k], NoItems), d[k + 1..]))
            && (d[k] == ',' && ParseItems(d[k + 1..]).Got? ==>
                  ParseItems(b)
                  == Got(Item(b[..n], v, d[..k], ParseItems(d[k + 1..]).part), ParseItems(d[k + 1..]).rest))
  {
    hide ParseValue, GapLength;
  }

  lemma KeyPrinted(before: Bytes, key: Bytes, left: Bytes, right: Bytes, rest: Bytes)
    requires IsGap(before) && IsBody(key) && IsGap(left) && IsGap(right) && rest != [] && !Space(rest[0])
    ensures var b := before + ("\"" + (key + "\"" + (left + (":" + (right + rest)))));
            && ParseKey(b) == Got(Label(before, key, left, right), rest)
            && GapLength(b) < |b| && b[GapLength(b)] == '"'
  {
    var e := right + rest;
    var d := left + (":" + e);
    var c := key + "\"" + d;
    var b := before + ("\"" + c);
    hide GapLength, ParseBody, ParseKey, IsBody, IsGap;
    GapTaken(before, "\"" + c);
    BodyPrinted(key, d);
    GapTaken(left, ":" + e);
    GapTaken(right, rest);
    MarkAt(b, |before|, "\"", c);
    MarkAt(d, |left|, ":", e);
    FirstOf(e, |right|, rest);
    KeyStep(b, key, d);
  }

  lemma MarkAt(b: Bytes, n: nat, mark: Bytes, rest: Bytes)
    requires n <= |b| && b[n..] == mark + rest && |mark| == 1
    ensures n < |b| && b[n] == mark[0] && b[n + 1..] == rest
  {
    assert b[n + 1..] == b[n..][1..];
  }

  lemma KeyStep(b: Bytes, name: Bytes, d: Bytes)
    requires GapLength(b) < |b| && b[GapLength(b)] == '"' && ParseBody(b[GapLength(b) + 1..]) == Got(name, d)
    requires GapLength(d) < |d| && d[GapLength(d)] == ':'
    requires var e := d[GapLength(d) + 1..]; GapLength(e) < |e|
    ensures var n, k, e := GapLength(b), GapLength(d), d[GapLength(d) + 1..];
            ParseKey(b) == Got(Label(b[..n], name, d[..k], e[..GapLength(e)]), e[GapLength(e)..])
  {
    hide GapLength, ParseBody;
  }

  lemma {:induction false} MembersPrinted(members: Members, rest: Bytes)
    requires members.Member? && ProperMembers(members)
    ensures var d := MembersText(members) + "}" + rest;
            ParseMembers(d) == Got(members, rest) && GapLength(d) < |d| && d[GapLength(d)] != '}'
    decreases members, 1
  {
    var Member(before, key, left, right, v, after, more) := members;
    var next := if more.Member? then "," + MembersText(more) else "";
    if more.Member? {
      MembersPrinted(more, rest);
    }
    var b, d := MembersText(members) + "}" + rest, after + (next + "}" + rest);
    Afterwards(v, after, next + "}" + rest);
    ValuePrinted(v, d);
    MemberPrinted(before, key, left, right, Text(v), after, next, rest);
    hide *;
    KeyPrinted(before, key, left, right, Text(v) + d);
    GapTaken(after, next + "}" + rest);
    MembersBuilt(b, before, key, left, right, v, d, after, next, more, rest);
  }

  lemma MemberPrinted(before: Bytes, key: Bytes, left: Bytes, right: Bytes, text: Bytes, after: Bytes, next: Bytes,
                      rest: Bytes)
    ensures before + "\"" + key + "\"" + left + ":" + right + text + after + next + "}" + rest
            == before + ("\"" + (key + "\"" + (left + (":" + (right + (text + (after + (next + "}" + rest))))))))
  {
    var d := text + (after + (next + "}" + rest));
    var front := before + "\"" + key + "\"" + left + ":" + right;
    assert front + text + after + next + "}" + rest == front + d;
    assert front + d == before + "\"" + key + "\"" + left + (":" + (right + d));
  }

  lemma MembersBuilt(b: Bytes, before: Bytes, key: Bytes, left: Bytes, right: Bytes, v: Value, d: Bytes, after: Bytes,
                     next: Bytes, more: Members, rest: Bytes)
    requires ParseKey(b) == Got(Label(before, key, left, right), Text(v) + d)
    requires GapLength(b) < |b| && b[GapLength(b)] == '"'
    requires Text(v) + d != [] && !Space((Text(v) + d)[0]) && ParseValue(Text(v) + d) == Got(v, d)
    requires GapLength(d) == |after| && d[..|after|] == after && d[|after|..] == next + "}" + rest
    requires if more.Member? then
               next == "," + MembersText(more) && ParseMembers(MembersText(more) + "}" + rest) == Got(more, rest)
             else next == "" && more == NoMembers
    ensures ParseMembers(b) == Got(Member(before, key, left, right, v, after, more), rest)
    ensures b[GapLength(b)] != '}'
  {
    hide *;
    NextByte(d, |after|, next, "}", rest, if more.Member? then MembersText(more) else "");
    MembersStep(b, Label(before, key, left, right), Text(v) + d, v, d);
  }

  /** What follows the white space after a value. */
  lemma NextByte(d: Bytes, k: nat, next: Bytes, close: Bytes, rest: Bytes, more: Bytes)
    requires k <= |d| && d[k..] == next + close + rest && |close| == 1 && (next == "" || next == "," + more)
    ensures k < |d|
    ensures next == "" ==> d[k] == close[0] && d[k + 1..] == rest
    ensures next != "" ==> d[k] == ',' && d[k + 1..] == more + close + rest
  {
    var t := next + close + rest;
    assert d[k] == t[0] && d[k + 1..] == t[1..];
    if next != "" {
      assert t[1..] == more + close + rest;
    } else {
      assert t == close + rest;
    }
  }

  lemma MembersStep(b: Bytes, key: Label, e: Bytes, v: Value, d: Bytes)
    requires ParseKey(b) == Got(key, e) && e != [] && !Space(e[0]) && ParseValue(e) == Got(v, d)
    requires GapLength(d) < |d|
    ensures var k := GapLength(d);
            && (d[k] == '}' ==>
                  ParseMembers(b) == Got(Member(key.before, key.name, key.left, key.right, v, d[..k], NoMembers),
                                         d[k + 1..]))
            && (d[k] == ',' && ParseMembers(d[k + 1..]).Got? ==>
                  ParseMembers(b)
                  == Got(Member(key.before, key.name, key.left, key.right, v, d[..k],
                                ParseMembers(d[k + 1..]).part),
                         ParseMembers(d[k + 1..]).rest))
  {
    hide ParseValue, GapLength, ParseKey;
  }

  // ------------------------------------------------------------------------------- Complete texts

  /** After the outermost value only white space is accepted. */
  lemma {:induction false} EndsInGap(t: Scanner, rest: Bytes)
    requires Ended(t, [], rest)
    ensures Complete(Scan(t, rest)) <==> IsGap(rest)
    decreases |rest|
  {
    GapSpaces(rest);
    if rest != [] {
      ScanFirst(t, rest);
      if Space(rest[0]) {
        GapSpaces(rest[1..]);
        var u := Scanner(EndTop, []);
        assert Ended(u, [], rest[1..]);
        EndsInGap(u, rest[1..]);
        assert forall i | 1 <= i < |rest| :: rest[i] == rest[1..][i - 1];
      } else {
        ScanStuck(Step(t, rest[0]), rest[1..]);
      }
    }
  }

  /** The scanner accepts a text if and only if it is a value of the grammar with white space around it. */
  lemma CompleteIff(b: Bytes)
    ensures Complete(Scan(START, b)) <==>
            exists v, before, after ::
              Proper(v) && IsGap(before) && IsGap(after) && b == before + Text(v) + after
  {
    if Complete(Scan(START, b)) {
      var v, before, after := CompleteParses(b);
    }
    forall v, before, after | Proper(v) && IsGap(before) && IsGap(after) && b == before + Text(v) + after
      ensures Complete(Scan(START, b))
    {
      TextComplete(v, before, after);
    }
  }

  lemma CompleteParses(b: Bytes) returns (v: Value, before: Bytes, after: Bytes)
    requires Complete(Scan(START, b))
    ensures Proper(v) && IsGap(before) && IsGap(after) && b == before + Text(v) + after
  {
    hide Proper, Text, IsGap, Scan, Step, ParseValue, GapLength, Ended, Open, Complete;
    var n := GapLength(b);
    ScanGap(START, b);
    if n == |b| {
      assert b[n..] == [];
      ScanNone(START);
      StartIncomplete();
    } else {
      var t := ScanValue([], b[n..]);
      match ParseValue(b[n..])
      case Unfinished =>
        OpenIncomplete(Scan(START, b));
      case Wrong =>
        WrongIncomplete(Scan(START, b));
      case Got(part, rest) =>
        ValueParsed(b[n..]);
        EndsInGap(t, rest);
        v, before, after := part, b[..n], rest;
        assert b == b[..n] + b[n..];
    }
  }

  lemma StartIncomplete()
    ensures !Complete(START)
  {
  }

  lemma WrongIncomplete(s: Scanner)
    requires s.mode.Error?
    ensures !Complete(s)
  {
  }

  lemma TextComplete(v: Value, before: Bytes, after: Bytes)
    requires Proper(v) && IsGap(before) && IsGap(after)
    ensures Complete(Scan(START, before + Text(v) + after))
  {
    GapEnds(v, after);
    hide *;
    ValuePrinted(v, after);
    Grouped(before, Text(v), after);
    GapTaken(before, Text(v) + after);
    StartIs();
    ScanGap(START, before + Text(v) + after);
    var t := ScanValue([], Text(v) + after);
    FollowsGot(t, Text(v) + after, v, after);
    EndsInGap(t, after);
  }

  lemma Grouped(a: Bytes, b: Bytes, c: Bytes)
    ensures a + b + c == a + (b + c)
  {
  }

  lemma StartIs()
    ensures START == Scanner(BeginValue, [])
  {
  }

  lemma GapEnds(v: Value, after: Bytes)
    requires IsGap(after)
    ensures Ends(v, after)
  {
  }

  lemma FollowsGot(t: Scanner, b: Bytes, v: Value, rest: Bytes)
    requires b != [] && !Space(b[0]) && ParseValue(b) == Got(v, rest)
    requires Follows([], Scanner(BeginValue, []), b, t, ParseValue(b))
    ensures Ended(t, [], rest) && Scan(Scanner(BeginValue, []), b) == Scan(t, rest)
  {
  }
}

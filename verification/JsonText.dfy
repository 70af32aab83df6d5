/** The grammar of RFC 8259, as trees and their text, and a parser for it by recursive descent. */
module JsonText {
  import opened Json
  import opened Options

  /** A value with its white space: what is between brackets, around commas and around colons. */
  datatype Value =
    | Str(body: Bytes)
    | Num(minus: bool, whole: Bytes, fraction: Option<Bytes>, exponent: Option<Power>)
    | Word(word: Bytes)
    | EmptyArr(gap: Bytes)
    | Arr(items: Items)
    | EmptyObj(gap: Bytes)
    | Obj(members: Members)

  datatype Power = Power(mark: char, sign: Bytes, digits: Bytes)

  datatype Items = Item(before: Bytes, value: Value, after: Bytes, more: Items) | NoItems

  datatype Members =
    | Member(before: Bytes, key: Bytes, left: Bytes, right: Bytes, value: Value, after: Bytes, more: Members)
    | NoMembers

  // ------------------------------------------------------------------------------- Text

  predicate IsGap(s: Bytes) {
    forall i | 0 <= i < |s| :: s[i] == ' ' || s[i] == '\t' || s[i] == '\n' || s[i] == '\r'
  }

  predicate AreDigits(s: Bytes) {
    s != [] && forall i | 0 <= i < |s| :: '0' <= s[i] <= '9'
  }

  predicate IsHexDigit(c: char) {
    '0' <= c <= '9' || 'a' <= c <= 'f' || 'A' <= c <= 'F'
  }

  /** The inside of a string: plain bytes and escapes. */
  predicate IsBody(s: Bytes)
    decreases |s|
  {
    || s == []
    || (s[0] as int >= 0x20 && s[0] != '"' && s[0] != '\\' && IsBody(s[1..]))
    || (|s| >= 2 && s[0] == '\\' && s[1] in "\"\\/bfnrt" && IsBody(s[2..]))
    || (|s| >= 6 && s[0] == '\\' && s[1] == 'u' && IsHexDigit(s[2]) && IsHexDigit(s[3]) && IsHexDigit(s[4])
        && IsHexDigit(s[5]) && IsBody(s[6..]))
  }

  function FractionText(fraction: Option<Bytes>): Bytes {
    if fraction.Some? then "." + fraction.value else ""
  }

  function PowerText(exponent: Option<Power>): Bytes {
    if exponent.Some? then [exponent.value.mark] + exponent.value.sign + exponent.value.digits else ""
  }

  function Text(v: Value): Bytes {
    match v
    case Str(body) => "\"" + body + "\""
    case Num(minus, whole, fraction, exponent) =>
      (if minus then "-" else "") + whole + FractionText(fraction) + PowerText(exponent)
    case Word(word) => word
    case EmptyArr(gap) => "[" + gap + "]"
    case Arr(items) => "[" + ItemsText(items) + "]"
    case EmptyObj(gap) => "{" + gap + "}"
    case Obj(members) => "{" + MembersText(members) + "}"
  }

  function ItemsText(items: Items): Bytes {
    match items
    case NoItems => ""
    case Item(before, v, after, more) =>
      before + Text(v) + after + (if more.Item? then "," + ItemsText(more) else "")
  }

  function MembersText(members: Members): Bytes {
    match members
    case NoMembers => ""
    case Member(before, key, left, right, v, after, more) =>
      before + "\"" + key + "\"" + left + ":" + right + Text(v) + after
      + (if more.Member? then "," + MembersText(more) else "")
  }

  predicate IsPower(p: Power) {
    (p.mark == 'e' || p.mark == 'E') && (p.sign == "" || p.sign == "+" || p.sign == "-") && AreDigits(p.digits)
  }

  predicate Proper(v: Value) {
    match v
    case Str(body) => IsBody(body)
    case Num(_, whole, fraction, exponent) =>
      && AreDigits(whole) && (whole[0] == '0' ==> whole == "0")
      && (fraction.Some? ==> AreDigits(fraction.value)) && (exponent.Some? ==> IsPower(exponent.value))
    case Word(word) => word == "true" || word == "false" || word == "null"
    case EmptyArr(gap) => IsGap(gap)
    case Arr(items) => items.Item? && ProperItems(items)
    case EmptyObj(gap) => IsGap(gap)
    case Obj(members) => members.Member? && ProperMembers(members)
  }

  predicate ProperItems(items: Items) {
    items.Item? ==> IsGap(items.before) && Proper(items.value) && IsGap(items.after) && ProperItems(items.more)
  }

  predicate ProperMembers(members: Members) {
    members.Member? ==>
      && IsGap(members.before) && IsBody(members.key) && IsGap(members.left) && IsGap(members.right)
      && Proper(members.value) && IsGap(members.after) && ProperMembers(members.more)
  }

  // ------------------------------------------------------------------------------- Parsing

  /** What a parser makes of some text: a part and the text after it, too little text, or an error. */
  datatype Outcome<T> = Got(part: T, rest: Bytes) | Unfinished | Wrong

  function GapLength(b: Bytes): (n: nat)
    ensures n <= |b| && (n < |b| ==> !Space(b[n])) && IsGap(b[..n])
  {
    if b != [] && Space(b[0]) then
      var n := 1 + GapLength(b[1..]);
      assert b[..n] == [b[0]] + b[1..][..n - 1];
      n
    else 0
  }

  function DigitsLength(b: Bytes): (n: nat)
    ensures n <= |b| && (n < |b| ==> !Digit(b[n])) && (n > 0 ==> AreDigits(b[..n]))
  {
    if b != [] && Digit(b[0]) then
      var n := 1 + DigitsLength(b[1..]);
      assert b[..n] == [b[0]] + b[1..][..n - 1];
      n
    else 0
  }

  /** A string's body, up to its closing quote. */
  function ParseBody(b: Bytes): (r: Outcome<Bytes>)
    ensures r.Got? ==> IsBody(r.part) && b == r.part + "\"" + r.rest
    decreases |b|
  {
    if b == [] then Unfinished
    else if b[0] == '"' then Got("", b[1..])
    else if b[0] as int < 0x20 then Wrong
    else
      var n := if b[0] != '\\' then 1 else if |b| >= 2 && b[1] == 'u' then 6 else 2;
      if b[0] == '\\' && !EscapeSound(b) then Wrong
      else if n > |b| then Unfinished
      else
        match ParseBody(b[n..])
        case Got(body, rest) =>
          assert (b[..n] + body)[n..] == body;
          assert b == b[..n] + b[n..];
          Got(b[..n] + body, rest)
        case Unfinished => Unfinished
        case Wrong => Wrong
  }

  /** No byte of the escape that starts here is wrong, as far as it goes. */
  predicate EscapeSound(b: Bytes)
    requires b != []
  {
    |b| >= 2 ==>
      || b[1] in "\"\\/bfnrt"
      || (b[1] == 'u' && forall i | 2 <= i < 6 && i < |b| :: IsHexDigit(b[i]))
  }

  function ParseFraction(b: Bytes): (r: Outcome<Option<Bytes>>)
    ensures r.Got? ==> (r.part.Some? ==> AreDigits(r.part.value)) && b == FractionText(r.part) + r.rest
    ensures r.Got? ==> (if r.part.Some? then r.rest != [] ==> !Digit(r.rest[0]) else r.rest != [] ==> r.rest[0] != '.')
  {
    if b == [] || b[0] != '.' then Got(None, b)
    else
      var n := DigitsLength(b[1..]);
      if n > 0 then Got(Some(b[1..][..n]), b[1..][n..])
      else if |b| == 1 then Unfinished
      else Wrong
  }

  function ParsePower(b: Bytes): (r: Outcome<Option<Power>>)
    ensures r.Got? ==> (r.part.Some? ==> IsPower(r.part.value)) && b == PowerText(r.part) + r.rest
    ensures r.Got? ==>
              if r.part.Some? then r.rest != [] ==> !Digit(r.rest[0])
              else r.rest != [] ==> r.rest[0] != 'e' && r.rest[0] != 'E'
  {
    if b == [] || (b[0] != 'e' && b[0] != 'E') then Got(None, b)
    else
      var sign := if |b| >= 2 && (b[1] == '+' || b[1] == '-') then b[1..2] else "";
      var d := b[1 + |sign|..];
      var n := DigitsLength(d);
      if n > 0 then
        PowerSpelled(b, sign, n);
        Got(Some(Power(b[0], sign, d[..n])), d[n..])
      else if d == [] then Unfinished
      else Wrong
  }

  lemma PowerSpelled(b: Bytes, sign: Bytes, n: nat)
    requires b != [] && (b[0] == 'e' || b[0] == 'E')
    requires sign == if |b| >= 2 && (b[1] == '+' || b[1] == '-') then b[1..2] else ""
    requires var d := b[1 + |sign|..]; 0 < n == DigitsLength(d)
    ensures var d := b[1 + |sign|..];
            var p := Power(b[0], sign, d[..n]);
            IsPower(p) && b == PowerText(Some(p)) + d[n..]
  {
    var d := b[1 + |sign|..];
    assert b == [b[0]] + sign + d && d == d[..n] + d[n..];
    hide AreDigits, DigitsLength;
    assert sign == "" || sign == "+" || sign == "-";
    assert [b[0]] + sign + (d[..n] + d[n..]) == [b[0]] + sign + d[..n] + d[n..];
  }

  function ParseNumber(b: Bytes): (r: Outcome<Value>)
    ensures r.Got? ==> r.part.Num? && Proper(r.part) && b == Text(r.part) + r.rest
  {
    var minus := b != [] && b[0] == '-';
    var d := if minus then b[1..] else b;
    if d == [] then Unfinished
    else if !Digit(d[0]) then Wrong
    else
      var n := if d[0] == '0' then 1 else DigitsLength(d);
      match ParseFraction(d[n..])
      case Unfinished => Unfinished
      case Wrong => Wrong
      case Got(fraction, more) =>
        match ParsePower(more)
        case Unfinished => Unfinished
        case Wrong => Wrong
        case Got(exponent, rest) =>
          NumberSpelled(b, minus, d, n, fraction, more, exponent, rest);
          Got(Num(minus, d[..n], fraction, exponent), rest)
  }

  lemma NumberSpelled(b: Bytes, minus: bool, d: Bytes, n: nat, fraction: Option<Bytes>, more: Bytes,
                      exponent: Option<Power>, rest: Bytes)
    requires b == (if minus then "-" else "") + d && d != [] && Digit(d[0])
    requires n == if d[0] == '0' then 1 else DigitsLength(d)
    requires d[n..] == FractionText(fraction) + more && more == PowerText(exponent) + rest
    requires (fraction.Some? ==> AreDigits(fraction.value)) && (exponent.Some? ==> IsPower(exponent.value))
    ensures var v := Num(minus, d[..n], fraction, exponent); Proper(v) && b == Text(v) + rest
  {
    WholeProper(d, n);
    hide FractionText, PowerText, AreDigits, IsPower, DigitsLength;
    Spelled(if minus then "-" else "", d[..n], FractionText(fraction), PowerText(exponent), rest);
    assert d == d[..n] + d[n..];
  }

  lemma WholeProper(d: Bytes, n: nat)
    requires d != [] && Digit(d[0]) && n == if d[0] == '0' then 1 else DigitsLength(d)
    ensures n <= |d| && AreDigits(d[..n]) && (d[..n][0] == '0' ==> d[..n] == "0")
  {
  }

  lemma Spelled(sign: Bytes, whole: Bytes, fraction: Bytes, power: Bytes, rest: Bytes)
    ensures sign + (whole + (fraction + (power + rest))) == sign + whole + fraction + power + rest
  {
    assert fraction + (power + rest) == fraction + power + rest;
    assert whole + (fraction + power + rest) == whole + fraction + power + rest;
    assert sign + (whole + fraction + power + rest) == sign + whole + fraction + power + rest;
  }

  /** One of the three words, letter by letter. */
  function ParseWord(word: Bytes, b: Bytes): (r: Outcome<Value>)
    ensures r.Got? ==> r.part == Word(word) && b == word + r.rest
  {
    if |b| < |word| then (if b == word[..|b|] then Unfinished else Wrong)
    else if b[..|word|] == word then Got(Word(word), b[|word|..])
    else Wrong
  }

  /** A value that starts here. */
  function ParseValue(b: Bytes): (r: Outcome<Value>)
    requires b != [] && !Space(b[0])
    ensures r.Got? ==> |r.rest| < |b|
    decreases |b|, 0
  {
    var c, d := b[0], b[1..];
    if c == '"' then
      match ParseBody(d)
      case Got(body, rest) => Got(Str(body), rest)
      case Unfinished => Unfinished
      case Wrong => Wrong
    else if c == '-' || Digit(c) then ParseNumber(b)
    else if c == 't' then ParseWord("true", b)
    else if c == 'f' then ParseWord("false", b)
    else if c == 'n' then ParseWord("null", b)
    else if c == '[' then
      var n := GapLength(d);
      if n == |d| then Unfinished
      else if d[n] == ']' then Got(EmptyArr(d[..n]), d[n + 1..])
      else
        match ParseItems(d)
        case Got(items, rest) => Got(Arr(items), rest)
        case Unfinished => Unfinished
        case Wrong => Wrong
    else if c == '{' then
      var n := GapLength(d);
      if n == |d| then Unfinished
      else if d[n] == '}' then Got(EmptyObj(d[..n]), d[n + 1..])
      else
        match ParseMembers(d)
        case Got(members, rest) => Got(Obj(members), rest)
        case Unfinished => Unfinished
        case Wrong => Wrong
    else Wrong
  }

  /** Items up to the bracket that closes them. */
  function ParseItems(b: Bytes): (r: Outcome<Items>)
    ensures r.Got? ==> |r.rest| < |b|
    decreases |b|, 1
  {
    var n := GapLength(b);
    if n == |b| then Unfinished
    else
      match ParseValue(b[n..])
      case Unfinished => Unfinished
      case Wrong => Wrong
      case Got(v, d) =>
        var k := GapLength(d);
        if k == |d| then Unfinished
        else if d[k] == ']' then Got(Item(b[..n], v, d[..k], NoItems), d[k + 1..])
        else if d[k] != ',' then Wrong
        else
          match ParseItems(d[k + 1..])
          case Got(more, rest) => Got(Item(b[..n], v, d[..k], more), rest)
          case Unfinished => Unfinished
          case Wrong => Wrong
  }

  /** A member's name and the colon after it, as name, space on both sides of the colon, and what follows. */
  datatype Label = Label(before: Bytes, name: Bytes, left: Bytes, right: Bytes)

  function ParseKey(b: Bytes): (r: Outcome<Label>)
    ensures r.Got? ==> |r.rest| < |b|
    ensures r.Got? ==> r.rest != [] && !Space(r.rest[0])
  {
    var n := GapLength(b);
    if n == |b| then Unfinished
    else if b[n] != '"' then Wrong
    else
      match ParseBody(b[n + 1..])
      case Unfinished => Unfinished
      case Wrong => Wrong
      case Got(name, d) =>
        var k := GapLength(d);
        if k == |d| then Unfinished
        else if d[k] != ':' then Wrong
        else
          var e := d[k + 1..];
          var m := GapLength(e);
          if m == |e| then Unfinished else Got(Label(b[..n], name, d[..k], e[..m]), e[m..])
  }

  /** Members up to the brace that closes them. */
  function ParseMembers(b: Bytes): (r: Outcome<Members>)
    ensures r.Got? ==> |r.rest| < |b|
    decreases |b|, 1
  {
    match ParseKey(b)
    case Unfinished => Unfinished
    case Wrong => Wrong
    case Got(key, e) =>
      match ParseValue(e)
      case Unfinished => Unfinished
      case Wrong => Wrong
      case Got(v, d) =>
        var k := GapLength(d);
        if k == |d| then Unfinished
        else if d[k] == '}' then
          Got(Member(key.before, key.name, key.left, key.right, v, d[..k], NoMembers), d[k + 1..])
        else if d[k] != ',' then Wrong
        else
          match ParseMembers(d[k + 1..])
          case Got(more, rest) => Got(Member(key.before, key.name, key.left, key.right, v, d[..k], more), rest)
          case Unfinished => Unfinished
          case Wrong => Wrong
  }
}

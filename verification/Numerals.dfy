/** Printed numbers are the usual numerals, and each number has one. */
module Numerals {
  import opened Decimal
  import opened Options

  /** Digits without a leading zero, except for zero itself. */
  predicate IsNumeral(s: string) {
    s != "" && AllDigits(s) && (s[0] == '0' ==> s == "0")
  }

  lemma {:induction false} NumeralIs(s: string)
    requires IsNumeral(s)
    ensures Digits(Number(s)) == s && (Number(s) == 0 <==> s == "0")
  {
    var front, last := s[..|s| - 1], s[|s| - 1];
    NumberEnds(s);
    assert s == front + [last];
    if front == "" {
      OneDigit(last);
    } else {
      FrontIs(s);
      NumeralIs(front);
      hide Number;
      DigitsEnd(Number(front), last);
    }
  }

  lemma NumberEnds(s: string)
    requires s != "" && AllDigits(s)
    ensures Number(s) == 10 * Number(s[..|s| - 1]) + (s[|s| - 1] as int - '0' as int) && Number("") == 0
  {
  }

  lemma OneDigit(c: char)
    requires IsDigit(c)
    ensures var n := c as int - '0' as int; Digits(n) == [c] && (n == 0 <==> [c] == "0")
  {
  }

  lemma FrontIs(s: string)
    requires IsNumeral(s) && |s| > 1
    ensures var front := s[..|s| - 1]; IsNumeral(front) && front != "0"
  {
    assert s[0] == s[..|s| - 1][0];
  }

  lemma DigitsEnd(n: nat, c: char)
    requires n > 0 && IsDigit(c)
    ensures Digits(10 * n + (c as int - '0' as int)) == Digits(n) + [c]
  {
  }

  /** What `%d` prints for a number is its numeral, after a minus sign if it is negative. */
  lemma PrintIff(n: int, s: string)
    ensures Print(n) == s <==>
            if n >= 0 then IsNumeral(s) && Number(s) == n
            else s != "" && s[0] == '-' && IsNumeral(s[1..]) && Number(s[1..]) == -n
  {
    hide *;
    if n >= 0 {
      DigitsIff(n, s);
      PrintsPlain(n);
    } else {
      PrintsMinus(n);
      if s != "" && s[0] == '-' {
        DigitsIff(-n, s[1..]);
        assert s == "-" + s[1..];
      }
    }
  }

  lemma DigitsIff(n: nat, s: string)
    ensures Digits(n) == s <==> IsNumeral(s) && Number(s) == n
  {
    NumberOfDigits(n);
    if IsNumeral(s) {
      NumeralIs(s);
    }
    hide Number, Digits;
  }

  lemma PrintsPlain(n: nat)
    ensures Print(n) == Digits(n)
  {
  }

  lemma PrintsMinus(n: int)
    requires n < 0
    ensures Print(n) == "-" + Digits(-n) && Print(n)[0] == '-' && Print(n)[1..] == Digits(-n)
  {
    hide Digits;
  }

  predicate IsSign(sign: string) {
    sign == "" || sign == "+" || sign == "-"
  }

  function Signed(sign: string, n: nat): int {
    if sign == "-" then -(n as int) else n
  }

  /** A text is a number exactly if it is digits, after at most one sign, and fits 64 bits. */
  lemma AtoiIff(sign: string, text: string)
    requires IsSign(sign) && (text != "" ==> text[0] != '-' && text[0] != '+')
    ensures Atoi(sign + text) ==
            if text != "" && AllDigits(text)
               && -9_223_372_036_854_775_808 <= Signed(sign, Number(text)) <= 9_223_372_036_854_775_807
            then Some(Signed(sign, Number(text))) else None
  {
    hide Number, AllDigits;
    if sign == "" {
      assert sign + text == text;
    } else {
      assert (sign + text)[1..] == text;
    }
  }

  /** Scanning reads the number a text begins with, and gives 0 if there is none or it does not fit. */
  lemma ScanIs(sign: string, digits: string, rest: string)
    requires IsSign(sign) && AllDigits(digits) && (rest != "" ==> !IsDigit(rest[0]))
    requires digits == "" ==> sign != "" || rest == "" || (rest[0] != '-' && rest[0] != '+')
    ensures Scan(sign + digits + rest) ==
            if digits != ""
               && -9_223_372_036_854_775_808 <= Signed(sign, Number(digits)) <= 9_223_372_036_854_775_807
            then Signed(sign, Number(digits)) else 0
  {
    var s, body := sign + digits + rest, digits + rest;
    LeadingDigits(digits, rest);
    Behind(sign, body);
    assert s == sign + body && body[..|digits|] == digits;
    assert body != "" ==> body[0] == if digits != "" then digits[0] else rest[0];
    assert digits != "" ==> IsDigit(digits[0]);
    hide Number, AllDigits, Leading, Scan;
    ScanFrom(s, sign, body, digits);
  }

  lemma Behind(sign: string, body: string)
    ensures (sign + body)[|sign|..] == body && (sign != "" ==> (sign + body)[0] == sign[0])
  {
  }

  lemma ScanFrom(s: string, sign: string, body: string, digits: string)
    requires IsSign(sign) && |sign| <= |s| && s[|sign|..] == body && (sign != "" ==> s[0] == sign[0])
    requires sign == "" && body != "" ==> body[0] != '-' && body[0] != '+'
    requires AllDigits(digits) && Leading(body) == |digits| && body[..|digits|] == digits
    ensures Scan(s) ==
            if digits != ""
               && -9_223_372_036_854_775_808 <= Signed(sign, Number(digits)) <= 9_223_372_036_854_775_807
            then Signed(sign, Number(digits)) else 0
  {
    hide Number, AllDigits, Leading;
  }

  lemma LeadingDigits(digits: string, rest: string)
    requires AllDigits(digits) && (rest != "" ==> !IsDigit(rest[0]))
    ensures Leading(digits + rest) == |digits|
  {
    var s := digits + rest;
    assert (rest != "" ==> s[|digits|] == rest[0]) && forall i | 0 <= i < |digits| :: s[i] == digits[i];
    hide Leading, IsDigit;
    assert forall i | 0 <= i < Leading(s) :: s[..Leading(s)][i] == s[i];
  }
}

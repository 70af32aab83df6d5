/** Decimal numerals: printing with `%d`, reading with `strconv.Atoi`. */
module Decimal {
  import opened Options

  predicate IsDigit(c: char) {
    '0' <= c <= '9'
  }

  predicate AllDigits(s: string) {
    forall i | 0 <= i < |s| :: IsDigit(s[i])
  }

  function Digit(n: nat): (c: char)
    requires n < 10
    ensures IsDigit(c) && c as int - '0' as int == n
  {
    '0' + n as char
  }

  function Digits(n: nat): (s: string)
    ensures s != [] && AllDigits(s)
    ensures n < 10 <==> |s| == 1
    ensures s[0] == '0' <==> n == 0
  {
    if n < 10 then [Digit(n)] else Digits(n / 10) + [Digit(n % 10)]
  }

  /** The number a row of digits stands for; an empty row stands for 0. */
  function Number(s: string): nat
    requires AllDigits(s)
  {
    if s == [] then 0 else 10 * Number(s[..|s| - 1]) + (s[|s| - 1] as int - '0' as int)
  }

  lemma {:induction false} NumberOfDigits(n: nat)
    ensures Number(Digits(n)) == n
  {
    if n >= 10 {
      NumberOfDigits(n / 10);
      assert Digits(n)[..|Digits(n)| - 1] == Digits(n / 10);
    } else {
      assert Digits(n)[..0] == [];
    }
  }

  /** Short numbers have few digits. */
  lemma {:induction false} DigitCount(n: nat, k: nat, bound: nat)
    requires k >= 1 && n < bound && bound == Power(k)
    ensures |Digits(n)| <= k
    decreases k
  {
    if n >= 10 {
      DigitCount(n / 10, k - 1, Power(k - 1));
    }
  }

  function Power(k: nat): nat {
    if k == 0 then 1 else 10 * Power(k - 1)
  }

  function Print(n: int): string {
    if n < 0 then "-" + Digits(-n) else Digits(n)
  }

  const MAX_INT := 0x7FFF_FFFF_FFFF_FFFF

  predicate InRange(n: int) {
    -MAX_INT - 1 <= n <= MAX_INT
  }

  /** An optional sign, at least one digit, and a value that fits 64 bits; anything else is an error. */
  function Atoi(s: string): Option<int> {
    var body := if s != [] && (s[0] == '-' || s[0] == '+') then s[1..] else s;
    if body == [] || !AllDigits(body) then None
    else
      var n: int := if s[0] == '-' then -(Number(body) as int) else Number(body);
      if InRange(n) then Some(n) else None
  }

  lemma AtoiOfPrint(n: int)
    requires InRange(n)
    ensures Atoi(Print(n)) == Some(n)
  {
    hide Number, Digits;
    if n < 0 {
      NumberOfDigits(-n);
      assert Print(n)[1..] == Digits(-n);
    } else {
      NumberOfDigits(n);
    }
  }

  /** How many digits s begins with. */
  function Leading(s: string): (n: nat)
    ensures n <= |s| && AllDigits(s[..n]) && (n < |s| ==> !IsDigit(s[n]))
  {
    if s == [] || !IsDigit(s[0]) then 0
    else
      var n := 1 + Leading(s[1..]);
      assert s[..n] == [s[0]] + s[1..][..n - 1];
      n
  }

  /** `fmt.Sscanf(s, "%d", &n)` into a variable that held 0: whatever number s begins with, or 0. */
  function Scan(s: string): int {
    var negative := s != [] && s[0] == '-';
    var body := if s != [] && (s[0] == '-' || s[0] == '+') then s[1..] else s;
    var digits := body[..Leading(body)];
    var n: int := if negative then -(Number(digits) as int) else Number(digits);
    if digits != [] && InRange(n) then n else 0
  }

  lemma LeadingAll(s: string)
    requires AllDigits(s)
    ensures Leading(s) == |s|
  {
    hide Leading;
  }

  lemma ScanOfPrint(n: int)
    requires InRange(n)
    ensures Scan(Print(n)) == n
    ensures Scan("") == 0
  {
    var m: nat := if n < 0 then -n else n;
    var d := Digits(m);
    NumberOfDigits(m);
    LeadingAll(d);
    assert d[..|d|] == d;
    hide Number, Digits, Leading;
    if n < 0 {
      assert Print(n)[1..] == d;
    }
  }
}

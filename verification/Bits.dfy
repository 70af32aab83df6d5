/** 64-bit words: their bits and distance. */
module Bits {
  import opened Arithmetic
  import opened Options
  import opened Json

  const WIDTH := 64

  function Pow2(n: nat): (p: nat)
    ensures p > 0
  {
    if n == 0 then 1 else 2 * Pow2(n - 1)
  }

  predicate Bit(h: nat, i: nat) {
    if i == 0 then h % 2 == 1 else Bit(h / 2, i - 1)
  }

  /** `h |= 1 << i`. */
  function SetBit(h: nat, i: nat): nat {
    if Bit(h, i) then h else h + Pow2(i)
  }

  /** The word whose bits, lowest first, are s. */
  function FromBits(s: seq<bool>): nat {
    if s == [] then 0 else (if s[0] then 1 else 0) + 2 * FromBits(s[1..])
  }

  lemma {:induction false} FromBitsReads(s: seq<bool>, i: nat)
    ensures Bit(FromBits(s), i) <==> i < |s| && s[i]
    ensures FromBits(s) < Pow2(|s|)
    decreases |s|, i
  {
    if s != [] {
      FromBitsReads(s[1..], if i == 0 then 0 else i - 1);
    } else if i > 0 {
      FromBitsReads(s, i - 1);
    }
  }

  /** Setting the next bit appends it. */
  lemma {:induction false} FromBitsAppend(s: seq<bool>, b: bool)
    ensures FromBits(s + [b]) == FromBits(s) + if b then Pow2(|s|) else 0
  {
    if s == [] {
      assert [b][1..] == [];
    } else {
      assert (s + [b])[1..] == s[1..] + [b];
      FromBitsAppend(s[1..], b);
    }
  }

  /** Bitwise exclusive or, and the number of bits set, over the low n bits. */
  function Xor(a: nat, b: nat, n: nat): nat {
    if n == 0 then 0 else (if a % 2 != b % 2 then 1 else 0) + 2 * Xor(a / 2, b / 2, n - 1)
  }

  function OnesCount(h: nat, n: nat): nat {
    if n == 0 then 0 else h % 2 + OnesCount(h / 2, n - 1)
  }

  function Distance(a: nat, b: nat, n: nat): nat {
    OnesCount(Xor(a, b, n), n)
  }

  /** The number of differing bits of two 64-bit words. */
  function Hamming(a: nat, b: nat): nat {
    Distance(a, b, WIDTH)
  }

  lemma DistanceStep(a: nat, b: nat, n: nat)
    requires n > 0
    ensures Distance(a, b, n) == (if a % 2 != b % 2 then 1 else 0) + Distance(a / 2, b / 2, n - 1)
  {
    assert Xor(a, b, n) / 2 == Xor(a / 2, b / 2, n - 1);
  }

  /** A metric: zero exactly on equal words, symmetric, and no shorter by way of a third. */
  lemma {:induction false} DistanceIsMetric(a: nat, b: nat, c: nat, n: nat)
    requires a < Pow2(n) && b < Pow2(n)
    ensures Distance(a, b, n) == 0 <==> a == b
    ensures Distance(a, b, n) == Distance(b, a, n) <= n
    ensures Distance(a, b, n) <= Distance(a, c, n) + Distance(c, b, n)
    decreases n
  {
    if n > 0 {
      DistanceStep(a, b, n);
      DistanceStep(b, a, n);
      DistanceStep(a, c, n);
      DistanceStep(c, b, n);
      hide Distance;
      DistanceIsMetric(a / 2, b / 2, c / 2, n - 1);
    }
  }

  lemma HammingIsMetric(a: nat, b: nat, c: nat)
    requires a < Pow2(WIDTH) && b < Pow2(WIDTH)
    ensures Hamming(a, b) == 0 <==> a == b
    ensures Hamming(a, b) == Hamming(b, a) <= WIDTH
    ensures Hamming(a, b) <= Hamming(a, c) + Hamming(c, b)
  {
    hide Distance, Pow2;
    DistanceIsMetric(a, b, c, WIDTH);
  }

  /** The places below n where the two differ. */
  ghost function Differing(a: nat, b: nat, n: nat): set<nat> {
    set i: nat | i < n && Bit(a, i) != Bit(b, i)
  }

  lemma {:induction false} DistanceTop(a: nat, b: nat, n: nat)
    requires n > 0
    ensures Distance(a, b, n) == Distance(a, b, n - 1) + if Bit(a, n - 1) != Bit(b, n - 1) then 1 else 0
    decreases n
  {
    DistanceStep(a, b, n);
    if n > 1 {
      DistanceStep(a, b, n - 1);
      hide Distance;
      DistanceTop(a / 2, b / 2, n - 1);
    }
  }

  lemma {:induction false} DistanceCounts(a: nat, b: nat, n: nat)
    ensures Distance(a, b, n) == |Differing(a, b, n)|
  {
    if n > 0 {
      DistanceTop(a, b, n);
      hide Distance, Bit;
      DistanceCounts(a, b, n - 1);
      var fewer := Differing(a, b, n - 1);
      assert Differing(a, b, n) == if Bit(a, n - 1) != Bit(b, n - 1) then fewer + {n - 1} else fewer;
    } else {
      assert Differing(a, b, n) == {};
    }
  }

  /** The places, of 64, where two words differ. */
  ghost function DifferingBits(a: nat, b: nat): set<nat> {
    set i: nat | i < 64 && Bit(a, i) != Bit(b, i)
  }

  /** The distance is their number. */
  lemma HammingCounts(a: nat, b: nat)
    ensures Hamming(a, b) == |DifferingBits(a, b)|
  {
    DistanceCounts(a, b, 64);
    assert Differing(a, b, 64) == DifferingBits(a, b);
  }

  /** What the i-th bit of a number is. */
  lemma {:induction false} BitIs(h: nat, i: nat)
    ensures Bit(h, i) <==> h / Pow2(i) % 2 == 1
    decreases i
  {
    if i > 0 {
      BitIs(h / 2, i - 1);
      HalfFirst(h, Pow2(i - 1));
    }
  }

  lemma HalfFirst(h: nat, m: nat)
    requires m > 0
    ensures h / 2 / m == h / (2 * m)
  {
    var q, r := h / (2 * m), h % (2 * m);
    assert h == q * (2 * m) + r;
    assert h / 2 == q * m + r / 2 by {
      assert q * (2 * m) == 2 * (q * m);
    }
    assert 0 <= r / 2 < m;
    QuotientOf(h / 2, m, q, r / 2);
  }

  // ------------------------------------------------------------------------------- Hexadecimal

  /** The low n hexadecimal digits of h, highest first, as `%016x` prints them for n = 16. */
  function Hex(h: nat, n: nat): (s: string)
    ensures |s| == n && AllHex(s)
  {
    if n == 0 then "" else Hex(h / 16, n - 1) + [HexDigit(h % 16)]
  }

  predicate AllHex(s: string) {
    forall i | 0 <= i < |s| :: IsHex(s[i])
  }

  function HexNumber(s: string): nat
    requires AllHex(s)
  {
    if s == [] then 0 else 16 * HexNumber(s[..|s| - 1]) + HexValue(s[|s| - 1])
  }

  /** `strconv.ParseUint(s, 16, 64)`. */
  function ParseHex(s: string): Option<nat> {
    if s == [] || !AllHex(s) || HexNumber(s) >= Pow2(WIDTH) then None else Some(HexNumber(s))
  }

  lemma {:induction false} HexNumberOfHex(h: nat, n: nat)
    requires h < Pow2(4 * n)
    ensures HexNumber(Hex(h, n)) == h
    decreases n
  {
    if n > 0 {
      var s := Hex(h, n);
      var m := 4 * n;
      assert Pow2(m) == 2 * Pow2(m - 1) && Pow2(m - 1) == 2 * Pow2(m - 2);
      assert Pow2(m - 2) == 2 * Pow2(m - 3) && Pow2(m - 3) == 2 * Pow2(m - 4);
      HexRoundTrip(h % 16);
      HexNumberOfHex(h / 16, n - 1);
      assert s[..n - 1] == Hex(h / 16, n - 1);
    }
  }
}

/** The perceptual hash of a picture. */
module Phash {
  import opened Arithmetic
  import opened Options
  import opened Decimal
  import opened Bits
  import opened Grading
  import opened Search

  type Grey = g: int | 0 <= g < 256

  /** A picture is cut into 9 by 8 boxes, each is averaged, and every bit says whether a box is darker than its
      right neighbour. */
  const COLUMNS := 9
  const ROWS := 8

  /** A picture: its bounds, and its grey level at each point inside them. */
  datatype Picture = Picture(minX: int, minY: int, dx: nat, dy: nat, level: (int, int) -> Grey)

  /** The grey level at column i and row j counted from the corner; outside it is black. */
  function At(img: Picture, i: int, j: int): Grey {
    if 0 <= i < img.dx && 0 <= j < img.dy then img.level(img.minX + i, img.minY + j) else 0
  }

  // --------------------------------------------------------------------------------- The boxes

  function Max1(n: nat): nat {
    if n < 1 then 1 else n
  }

  /** Where the k-th of n boxes along a side of length d starts and ends. */
  function Start(d: nat, n: nat, k: nat): nat
    requires n > 0
  {
    k * Max1(d) / n
  }

  function End(d: nat, n: nat, k: nat): nat
    requires n > 0
  {
    if Start(d, n, k + 1) <= Start(d, n, k) then Start(d, n, k) + 1 else Start(d, n, k + 1)
  }

  /** A side of no length counts as one point, which every box shares. */
  lemma EmptySide(n: nat, k: nat)
    requires k < n
    ensures Start(0, n, k) == 0 && End(0, n, k) == 1
  {
    Quotient(k, n);
    if k + 1 < n {
      Quotient(k + 1, n);
    }
  }

  lemma Quotient(k: nat, n: nat)
    requires k < n
    ensures k * 1 / n == 0
  {
  }

  /** A row of boxes along a side of at least n points is a partition of it: end meets start. */
  lemma BoxesMeet(d: nat, n: nat, k: nat)
    requires n == COLUMNS || n == ROWS
    requires d >= n
    ensures Start(d, n, k) < End(d, n, k) == Start(d, n, k + 1)
    ensures Start(d, n, 0) == 0 && Start(d, n, n) == d
  {
    ProductStep(k, d);
  }

  /** On any non-empty side every box holds a point and lies within it. */
  lemma BoxesInside(d: nat, n: nat, k: nat)
    requires n == COLUMNS || n == ROWS
    requires d > 0 && k < n
    ensures 0 <= Start(d, n, k) < End(d, n, k) <= d
  {
    ProductStep(k, d);
    ProductStep(n - 1, d);
    Monotone(k, n - 1, d);
  }

  predicate InBox(d: nat, n: nat, k: nat, p: int)
    requires n > 0
  {
    Start(d, n, k) <= p < End(d, n, k)
  }

  lemma {:induction false} FindBox(d: nat, n: nat, k: nat, p: int)
    requires n == COLUMNS || n == ROWS
    requires d >= n && k <= n && 0 <= p < Start(d, n, k)
    ensures exists j | 0 <= j < k :: InBox(d, n, j, p)
    decreases k
  {
    BoxesMeet(d, n, 0);
    BoxesMeet(d, n, k - 1);
    hide Start;
    if p < Start(d, n, k - 1) {
      FindBox(d, n, k - 1, p);
    } else {
      assert InBox(d, n, k - 1, p);
    }
  }

  lemma BoxesOrdered(d: nat, n: nat, j: nat, k: nat)
    requires n == COLUMNS || n == ROWS
    requires d >= n && j < k <= n
    ensures End(d, n, j) <= Start(d, n, k)
  {
    BoxesMeet(d, n, j);
    Monotone(j + 1, k, d);
  }

  /** Box tiling: of a picture at least 9 by 8 every point lies in exactly one of the 72 boxes. */
  lemma BoxesTile(img: Picture, i: int, j: int)
    requires img.dx >= COLUMNS && img.dy >= ROWS && 0 <= i < img.dx && 0 <= j < img.dy
    ensures exists x, y | 0 <= x < COLUMNS && 0 <= y < ROWS ::
              InBox(img.dx, COLUMNS, x, i) && InBox(img.dy, ROWS, y, j)
    ensures forall x, x' | 0 <= x < COLUMNS && 0 <= x' < COLUMNS ::
              InBox(img.dx, COLUMNS, x, i) && InBox(img.dx, COLUMNS, x', i) ==> x == x'
    ensures forall y, y' | 0 <= y < ROWS && 0 <= y' < ROWS ::
              InBox(img.dy, ROWS, y, j) && InBox(img.dy, ROWS, y', j) ==> y == y'
  {
    BoxesMeet(img.dx, COLUMNS, 0);
    BoxesMeet(img.dy, ROWS, 0);
    hide Start, End;
    FindBox(img.dx, COLUMNS, COLUMNS, i);
    FindBox(img.dy, ROWS, ROWS, j);
    forall x, x' | 0 <= x < x' < COLUMNS
      ensures End(img.dx, COLUMNS, x) <= Start(img.dx, COLUMNS, x')
    {
      BoxesOrdered(img.dx, COLUMNS, x, x');
    }
    forall y, y' | 0 <= y < y' < ROWS
      ensures End(img.dy, ROWS, y) <= Start(img.dy, ROWS, y')
    {
      BoxesOrdered(img.dy, ROWS, y, y');
    }
  }

  // ------------------------------------------------------------------------------ The averages

  function RowSum(img: Picture, j: int, a: int, b: int): nat
    decreases b - a
  {
    if b <= a then 0 else RowSum(img, j, a, b - 1) + At(img, b - 1, j)
  }

  function BoxSum(img: Picture, a: int, b: int, c: int, d: int): nat
    decreases d - c
  {
    if d <= c then 0 else BoxSum(img, a, b, c, d - 1) + RowSum(img, d - 1, a, b)
  }

  /** The average of a box, rounded down. */
  function Average(img: Picture, x: nat, y: nat): Grey {
    var a, b := Start(img.dx, COLUMNS, x), End(img.dx, COLUMNS, x);
    var c, d := Start(img.dy, ROWS, y), End(img.dy, ROWS, y);
    BoxSumBound(img, a, b, c, d);
    Positive(b - a, d - c);
    BoxSum(img, a, b, c, d) / ((b - a) * (d - c))
  }

  lemma {:induction false} RowSumBound(img: Picture, j: int, a: int, b: int)
    requires a <= b
    ensures RowSum(img, j, a, b) <= 255 * (b - a)
    decreases b - a
  {
    if a < b {
      RowSumBound(img, j, a, b - 1);
    }
  }

  lemma {:induction false} BoxSumBound(img: Picture, a: int, b: int, c: int, d: int)
    requires a < b && c < d
    ensures BoxSum(img, a, b, c, d) <= 255 * ((b - a) * (d - c))
    ensures (b - a) * (d - c) > 0 ==> 0 <= BoxSum(img, a, b, c, d) / ((b - a) * (d - c)) < 256
    decreases d - c
  {
    RowSumBound(img, d - 1, a, b);
    if c < d - 1 {
      BoxSumBound(img, a, b, c, d - 1);
    } else {
      assert BoxSum(img, a, b, c, c) == 0;
    }
    assert (b - a) * (d - c) == (b - a) * (d - 1 - c) + (b - a);
    QuotientBound(BoxSum(img, a, b, c, d), (b - a) * (d - c));
  }

  method SumBox(img: Picture, a: int, b: int, c: int, d: int) returns (sum: nat, n: nat)
    requires a <= b && c <= d
    ensures sum == BoxSum(img, a, b, c, d) && n == (b - a) * (d - c)
  {
    sum, n := 0, 0;
    var j := c;
    while j < d
      invariant c <= j <= d
      invariant sum == BoxSum(img, a, b, c, j) && n == (b - a) * (j - c)
    {
      var i := a;
      while i < b
        invariant a <= i <= b
        invariant sum == BoxSum(img, a, b, c, j) + RowSum(img, j, a, i) && n == (b - a) * (j - c) + (i - a)
      {
        sum := sum + At(img, i, j);
        n := n + 1;
        i := i + 1;
      }
      assert (b - a) * (j + 1 - c) == (b - a) * (j - c) + (b - a);
      j := j + 1;
    }
  }

  /** Shrinks a picture to 9 by 8 averages. */
  method ResizeGray(img: Picture) returns (out: array2<Grey>)
    ensures fresh(out) && out.Length0 == ROWS && out.Length1 == COLUMNS
    ensures forall y, x | 0 <= y < ROWS && 0 <= x < COLUMNS :: out[y, x] == Average(img, x, y)
  {
    out := new Grey[ROWS, COLUMNS];
    for y := 0 to ROWS
      invariant forall y', x | 0 <= y' < y && 0 <= x < COLUMNS :: out[y', x] == Average(img, x, y')
    {
      for x := 0 to COLUMNS
        invariant forall y', x' | 0 <= y' < y && 0 <= x' < COLUMNS :: out[y', x'] == Average(img, x', y')
        invariant forall x' | 0 <= x' < x :: out[y, x'] == Average(img, x', y)
      {
        out[y, x] := BoxAverage(img, x, y);
      }
    }
  }

  method BoxAverage(img: Picture, x: nat, y: nat) returns (g: Grey)
    ensures g == Average(img, x, y)
  {
    var x0, x1 := Start(img.dx, COLUMNS, x), Start(img.dx, COLUMNS, x + 1);
    var y0, y1 := Start(img.dy, ROWS, y), Start(img.dy, ROWS, y + 1);
    if x1 <= x0 {
      x1 := x0 + 1;
    }
    if y1 <= y0 {
      y1 := y0 + 1;
    }
    var sum, n := SumBox(img, x0, x1, y0, y1);
    BoxSumBound(img, x0, x1, y0, y1);
    Positive(x1 - x0, y1 - y0);
    g := 0;
    if n > 0 {
      g := sum / n;
    }
  }

  // ---------------------------------------------------------------------------------- The hash

  /** A box is darker than its right neighbour. */
  predicate Darker(img: Picture, x: nat, y: nat) {
    Average(img, x, y) < Average(img, x + 1, y)
  }

  /** The comparisons in bit order. */
  function Comparisons(img: Picture): (s: seq<bool>)
    ensures |s| == WIDTH
  {
    seq(WIDTH, k requires 0 <= k < WIDTH => Darker(img, k % (COLUMNS - 1), k / (COLUMNS - 1)))
  }

  function HashOf(img: Picture): nat {
    FromBits(Comparisons(img))
  }

  /** Bit 8y+x of the hash is set exactly when box (x, y) is darker than box (x+1, y), and no other is. */
  lemma HashBits(img: Picture, k: nat)
    ensures Bit(HashOf(img), k) <==> k < WIDTH && Darker(img, k % (COLUMNS - 1), k / (COLUMNS - 1))
    ensures HashOf(img) < Pow2(WIDTH)
  {
    hide Darker, Bit, FromBits, Pow2;
    FromBitsReads(Comparisons(img), k);
  }

  /** Packs the comparisons one by one. */
  method DHash(img: Picture) returns (hash: nat)
    ensures hash == HashOf(img)
  {
    hide Bit, FromBits, Pow2, Average;
    var small := ResizeGray(img);
    ghost var bits := Comparisons(img);
    hash := 0;
    var bit := 0;
    assert FromBits(bits[..0]) == 0 by {
      NoBits();
    }
    for y := 0 to ROWS
      invariant forall y, x | 0 <= y < ROWS && 0 <= x < COLUMNS :: small[y, x] == Average(img, x, y)
      invariant bit == y * (COLUMNS - 1)
      invariant hash == FromBits(bits[..bit])
    {
      for x := 0 to COLUMNS - 1
        invariant forall y, x | 0 <= y < ROWS && 0 <= x < COLUMNS :: small[y, x] == Average(img, x, y)
        invariant bit == y * (COLUMNS - 1) + x
        invariant hash == FromBits(bits[..bit])
      {
        FromBitsReads(bits[..bit], bit);
        FromBitsAppend(bits[..bit], bits[bit]);
        assert bits[..bit + 1] == bits[..bit] + [bits[bit]];
        assert bit % (COLUMNS - 1) == x && bit / (COLUMNS - 1) == y;
        assert bits[bit] == Darker(img, x, y);
        assert !Bit(hash, bit);
        if small[y, x] < small[y, x + 1] {
          hash := SetBit(hash, bit);
        }
        assert hash == FromBits(bits[..bit] + [bits[bit]]);
        bit := bit + 1;
      }
    }
    assert bits[..WIDTH] == bits;
  }

  lemma NoBits()
    ensures FromBits([]) == 0
  {
  }

  lemma SameHash(img: Picture, other: Picture)
    requires forall x: nat, y: nat | x < COLUMNS - 1 && y < ROWS :: Darker(img, x, y) == Darker(other, x, y)
    ensures HashOf(img) == HashOf(other)
  {
    hide Darker;
    assert Comparisons(img) == Comparisons(other);
  }

  // --------------------------------------------------------------------------------- Invariance

  /** `other` is the picture with every grey level moved by c, none clipped. */
  ghost predicate Shifted(img: Picture, other: Picture, c: int) {
    && other.dx == img.dx && other.dy == img.dy
    && forall i, j | 0 <= i < img.dx && 0 <= j < img.dy :: At(other, i, j) == At(img, i, j) + c
  }

  lemma {:induction false} ShiftRow(img: Picture, other: Picture, c: int, j: int, a: int, b: int)
    requires Shifted(img, other, c) && 0 <= j < img.dy && 0 <= a <= b <= img.dx
    ensures RowSum(other, j, a, b) == RowSum(img, j, a, b) + c * (b - a)
    decreases b - a
  {
    if a < b {
      ShiftRow(img, other, c, j, a, b - 1);
    }
  }

  lemma {:induction false} ShiftBox(img: Picture, other: Picture, k: int, a: int, b: int, c: int, d: int)
    requires Shifted(img, other, k) && 0 <= a <= b <= img.dx && 0 <= c <= d <= img.dy
    ensures BoxSum(other, a, b, c, d) == BoxSum(img, a, b, c, d) + k * ((b - a) * (d - c))
    decreases d - c
  {
    if c < d {
      ShiftBox(img, other, k, a, b, c, d - 1);
      ShiftRow(img, other, k, d - 1, a, b);
      Spread(k, b - a, d - 1 - c);
    }
  }

  lemma Spread(k: int, m: int, n: int)
    ensures k * (m * (n + 1)) == k * (m * n) + k * m
  {
    assert m * (n + 1) == m * n + m;
  }

  lemma ShiftAverage(img: Picture, other: Picture, k: int, x: nat, y: nat)
    requires Shifted(img, other, k) && img.dx > 0 && img.dy > 0 && x < COLUMNS && y < ROWS
    ensures Average(other, x, y) as int == Average(img, x, y) as int + k
  {
    var a, b := Start(img.dx, COLUMNS, x), End(img.dx, COLUMNS, x);
    var c, d := Start(img.dy, ROWS, y), End(img.dy, ROWS, y);
    BoxesInside(img.dx, COLUMNS, x);
    BoxesInside(img.dy, ROWS, y);
    hide Start, End, BoxSum;
    ShiftBox(img, other, k, a, b, c, d);
    Positive(b - a, d - c);
    QuotientShift(BoxSum(img, a, b, c, d), k, (b - a) * (d - c));
  }

  lemma {:induction false} NoRow(img: Picture, j: int, a: int, b: int)
    requires img.dx == 0 || img.dy == 0
    ensures RowSum(img, j, a, b) == 0
    decreases b - a
  {
    if a < b {
      NoRow(img, j, a, b - 1);
    }
  }

  lemma {:induction false} NoBox(img: Picture, a: int, b: int, c: int, d: int)
    requires img.dx == 0 || img.dy == 0
    ensures BoxSum(img, a, b, c, d) == 0
    decreases d - c
  {
    if c < d {
      NoRow(img, d - 1, a, b);
      NoBox(img, a, b, c, d - 1);
    }
  }

  /** A picture with no points averages to black everywhere. */
  lemma NoPoints(img: Picture, x: nat, y: nat)
    requires img.dx == 0 || img.dy == 0
    ensures Average(img, x, y) == 0
  {
    var a, b := Start(img.dx, COLUMNS, x), End(img.dx, COLUMNS, x);
    var c, d := Start(img.dy, ROWS, y), End(img.dy, ROWS, y);
    NoBox(img, a, b, c, d);
    Positive(b - a, d - c);
    hide Start, End, BoxSum;
    QuotientOf(0, (b - a) * (d - c), 0, 0);
  }

  lemma SameBounds(img: Picture, other: Picture, k: int)
    ensures Shifted(img, other, k) ==> other.dx == img.dx && other.dy == img.dy
  {
  }

  /** Brightening or darkening the whole picture never changes its hash, at any size. */
  lemma HashIgnoresBrightness(img: Picture, other: Picture, k: int)
    requires Shifted(img, other, k)
    ensures HashOf(other) == HashOf(img)
  {
    hide Shifted, Average, HashOf;
    forall x: nat, y: nat | x < COLUMNS - 1 && y < ROWS
      ensures Darker(img, x, y) == Darker(other, x, y)
    {
      if img.dx > 0 && img.dy > 0 {
        ShiftAverage(img, other, k, x, y);
        ShiftAverage(img, other, k, x + 1, y);
      } else {
        assert other.dx == 0 || other.dy == 0 by {
          SameBounds(img, other, k);
        }
        NoPoints(img, x, y);
        NoPoints(img, x + 1, y);
        NoPoints(other, x, y);
        NoPoints(other, x + 1, y);
      }
    }
    SameHash(img, other);
  }

  /** `big` is the picture with every point drawn as a k by k block. */
  ghost predicate Enlarged(img: Picture, big: Picture, k: nat)
    requires k > 0
  {
    && big.dx == k * img.dx && big.dy == k * img.dy
    && forall i, j | 0 <= i < big.dx && 0 <= j < big.dy :: At(big, i, j) == At(img, i / k, j / k)
  }

  lemma BlockPoint(img: Picture, big: Picture, k: nat, i: nat, r: nat, j: int)
    requires k > 0 && Enlarged(img, big, k) && 0 <= j < big.dy && i < img.dx && r < k
    ensures At(big, k * i + r, j) == At(img, i, j / k)
  {
    BlockSide(k, i, r, img.dx);
    hide At;
  }

  lemma BlockSide(k: nat, i: nat, r: nat, d: nat)
    requires k > 0 && i < d && r < k
    ensures 0 <= k * i + r < k * d && (k * i + r) / k == i
  {
    QuotientOf(k * i + r, k, i, r);
    Monotone(i, d, k);
  }

  /** Inside one block a row of the large picture repeats a point. */
  lemma {:induction false} BlockRow(img: Picture, big: Picture, k: nat, j: int, a: int, i: nat, n: nat)
    requires k > 0 && Enlarged(img, big, k) && 0 <= j < big.dy
    requires 0 <= a <= k * i && i < img.dx && n <= k
    ensures RowSum(big, j, a, k * i + n) == RowSum(big, j, a, k * i) + n * At(img, i, j / k)
    decreases n
  {
    hide Enlarged, At;
    if n > 0 {
      BlockRow(img, big, k, j, a, i, n - 1);
      BlockPoint(img, big, k, i, n - 1, j);
      ProductStep(n - 1, At(img, i, j / k));
    }
  }

  lemma {:induction false} EnlargeRow(img: Picture, big: Picture, k: nat, j: int, a: nat, b: nat)
    requires k > 0 && Enlarged(img, big, k) && 0 <= j < big.dy && a <= b <= img.dx
    ensures RowSum(big, j, k * a, k * b) == k * RowSum(img, j / k, a, b)
    decreases b - a
  {
    hide Enlarged, At;
    if a < b {
      EnlargeRow(img, big, k, j, a, b - 1);
      Monotone(a, b - 1, k);
      Distribute(k, b - 1, 1);
      BlockRow(img, big, k, j, k * a, b - 1, k);
      Distribute(k, RowSum(img, j / k, a, b - 1), At(img, b - 1, j / k));
    }
  }

  lemma BlockLine(img: Picture, big: Picture, k: nat, a: nat, b: nat, j: nat, r: nat)
    requires k > 0 && Enlarged(img, big, k) && a <= b <= img.dx && j < img.dy && r < k
    ensures RowSum(big, k * j + r, k * a, k * b) == k * RowSum(img, j, a, b)
  {
    QuotientOf(k * j + r, k, j, r);
    Monotone(j, img.dy, k);
    EnlargeRow(img, big, k, k * j + r, a, b);
  }

  lemma {:induction false} BlockBox(img: Picture, big: Picture, k: nat, a: nat, b: nat, c: int, j: nat, n: nat)
    requires k > 0 && Enlarged(img, big, k) && a <= b <= img.dx
    requires 0 <= c <= k * j && j < img.dy && n <= k
    ensures BoxSum(big, k * a, k * b, c, k * j + n)
            == BoxSum(big, k * a, k * b, c, k * j) + n * (k * RowSum(img, j, a, b))
    decreases n
  {
    hide Enlarged, RowSum;
    if n > 0 {
      BlockBox(img, big, k, a, b, c, j, n - 1);
      BlockLine(img, big, k, a, b, j, n - 1);
      ProductStep(n - 1, k * RowSum(img, j, a, b));
    }
  }

  lemma {:induction false} EnlargeBox(img: Picture, big: Picture, k: nat, a: nat, b: nat, c: nat, d: nat)
    requires k > 0 && Enlarged(img, big, k) && a <= b <= img.dx && c <= d <= img.dy
    ensures BoxSum(big, k * a, k * b, k * c, k * d) == k * (k * BoxSum(img, a, b, c, d))
    decreases d - c
  {
    hide Enlarged, RowSum, At;
    if c < d {
      assert BoxSum(img, a, b, c, d) == BoxSum(img, a, b, c, d - 1) + RowSum(img, d - 1, a, b);
      hide BoxSum;
      EnlargeBox(img, big, k, a, b, c, d - 1);
      Monotone(c, d - 1, k);
      Distribute(k, d - 1, 1);
      BlockBox(img, big, k, a, b, k * c, d - 1, k);
      Distribute(k, BoxSum(img, a, b, c, d - 1), RowSum(img, d - 1, a, b));
      Distribute(k, k * BoxSum(img, a, b, c, d - 1), k * RowSum(img, d - 1, a, b));
    }
  }

  /** Along a side that n divides, the boxes of the large picture are the boxes, enlarged. */
  lemma EnlargeSide(d: nat, n: nat, k: nat, x: nat)
    requires n == COLUMNS || n == ROWS
    requires k > 0 && d > 0 && d % n == 0
    ensures Start(k * d, n, x) == k * Start(d, n, x) && End(k * d, n, x) == k * End(d, n, x)
  {
    EnlargeStart(d, n, k, x);
    EnlargeStart(d, n, k, x + 1);
    BoxesMeet(d, n, x);
    Monotone(1, k, d);
    BoxesMeet(k * d, n, x);
  }

  lemma EnlargeStart(d: nat, n: nat, k: nat, x: nat)
    requires n == COLUMNS || n == ROWS
    requires k > 0 && d > 0 && d % n == 0
    ensures Start(k * d, n, x) == k * Start(d, n, x)
  {
    var m := d / n;
    Positive(k, d);
    Regroup(x, m, n);
    Regroup(k, x * m, n);
    Swap(x, k, d);
    QuotientOf(x * d, n, x * m, 0);
    QuotientOf(x * (k * d), n, k * (x * m), 0);
  }

  lemma Regroup(x: nat, m: nat, n: nat)
    ensures x * (m * n) == (x * m) * n
  {
  }

  lemma Swap(x: nat, k: nat, d: nat)
    ensures x * (k * d) == k * (x * d)
  {
  }

  lemma EnlargeAverage(img: Picture, big: Picture, k: nat, x: nat, y: nat)
    requires k > 0 && Enlarged(img, big, k) && img.dx > 0 && img.dy > 0
    requires img.dx % COLUMNS == 0 && img.dy % ROWS == 0 && x < COLUMNS && y < ROWS
    ensures Average(big, x, y) == Average(img, x, y)
  {
    var a, b := Start(img.dx, COLUMNS, x), End(img.dx, COLUMNS, x);
    var c, d := Start(img.dy, ROWS, y), End(img.dy, ROWS, y);
    EnlargeSide(img.dx, COLUMNS, k, x);
    EnlargeSide(img.dy, ROWS, k, y);
    BoxesInside(img.dx, COLUMNS, x);
    BoxesInside(img.dy, ROWS, y);
    hide Start, End, BoxSum;
    EnlargeBox(img, big, k, a, b, c, d);
    Positive(b - a, d - c);
    AreaScale(k, a, b, c, d);
    QuotientScaleTwice(BoxSum(img, a, b, c, d), k, (b - a) * (d - c));
  }

  /** Enlarging every point to a block never changes the hash when the boxes divide the sides. */
  lemma HashIgnoresScale(img: Picture, big: Picture, k: nat)
    requires k > 0 && Enlarged(img, big, k) && img.dx % COLUMNS == 0 && img.dy % ROWS == 0
    ensures HashOf(big) == HashOf(img)
  {
    hide Enlarged, Average, HashOf;
    forall x: nat, y: nat | x < COLUMNS - 1 && y < ROWS
      ensures Darker(img, x, y) == Darker(big, x, y)
    {
      if img.dx > 0 && img.dy > 0 {
        EnlargeAverage(img, big, k, x, y);
        EnlargeAverage(img, big, k, x + 1, y);
      } else {
        EmptyStaysEmpty(img, big, k);
        NoPoints(img, x, y);
        NoPoints(img, x + 1, y);
        NoPoints(big, x, y);
        NoPoints(big, x + 1, y);
      }
    }
    SameHash(img, big);
  }

  lemma EmptyStaysEmpty(img: Picture, big: Picture, k: nat)
    ensures (k > 0 && Enlarged(img, big, k) && (img.dx == 0 || img.dy == 0)) ==> (big.dx == 0 || big.dy == 0)
  {
  }

  // ------------------------------------------------------------------------------------- Flags

  function PhashFlag(hash: nat, threshold: int): string {
    "phash$" + Hex(hash, 16) + ":" + Print(threshold)
  }

  datatype Parsed = Parsed(hash: nat, threshold: int)

  /** Reads a flag: a threshold that is missing or no number is the default, a hash that is none is
      an error. */
  function ParsePhashFlag(flag: string, default: int): Option<Parsed> {
    if !("phash$" <= flag) then None
    else
      var s := flag[6..];
      var n := IndexOf(s, ':');
      var threshold := if n == |s| then default else match Atoi(s[n + 1..]) case Some(t) => t case None => default;
      match ParseHex(s[..n])
      case Some(h) => Some(Parsed(h, threshold))
      case None => None
  }

  /** Grades a capture by its distance from the flag's hash; `decode` turns a submission into a picture. */
  function PhashGrader(default: int, decode: string -> Option<Picture>): Grader {
    (flag, submitted) =>
      match (ParsePhashFlag(flag, default), decode(submitted))
      case (Some(ref), Some(img)) => Hamming(ref.hash, HashOf(img)) <= ref.threshold
      case _ => false
  }

  lemma FlagParts(h: string, t: string)
    requires forall i | 0 <= i < |h| :: h[i] != ':'
    ensures var flag := "phash$" + h + ":" + t;
            var s := flag[6..];
            && "phash$" <= flag && IndexOf(s, ':') == |h| && s[..|h|] == h && s[|h| + 1..] == t && |s| > |h|
            && |flag| > 6 && flag[..6] == "phash$"
  {
    var flag := "phash$" + h + ":" + t;
    var s := flag[6..];
    assert s == h + ":" + t;
    assert s[|h|] == ':' && forall i | 0 <= i < |h| :: s[i] == h[i];
  }

  /** A printed flag is recognised as one and reads back as it was, whatever the default. */
  lemma FlagRoundTrip(hash: nat, threshold: int, default: int)
    requires hash < Pow2(WIDTH) && InRange(threshold)
    ensures IsPhashFlag(PhashFlag(hash, threshold))
    ensures ParsePhashFlag(PhashFlag(hash, threshold), default) == Some(Parsed(hash, threshold))
  {
    hide Hex, Print, Atoi, Pow2, IndexOf;
    FlagParts(Hex(hash, 16), Print(threshold));
    HexNumberOfHex(hash, 16);
    AtoiOfPrint(threshold);
  }

  /** So grading against a flag, whether computed or written by hand, accepts exactly the captures whose hash
      differs from its hash in at most so many of the 64 bits. */
  lemma GradesByDistance(hash: nat, threshold: int, default: int, decode: string -> Option<Picture>, submitted: string)
    requires hash < Pow2(WIDTH) && InRange(threshold)
    ensures Accepts([PhashFlag(hash, threshold)], submitted, Some(PhashGrader(default, decode))) <==>
            decode(submitted).Some? && |DifferingBits(hash, HashOf(decode(submitted).value))| <= threshold
  {
    FlagRoundTrip(hash, threshold, default);
    GradesParsed(PhashFlag(hash, threshold), Parsed(hash, threshold), default, decode, submitted);
  }

  lemma GradesParsed(flag: string, parsed: Parsed, default: int, decode: string -> Option<Picture>, submitted: string)
    requires IsPhashFlag(flag) && ParsePhashFlag(flag, default) == Some(parsed)
    ensures Accepts([flag], submitted, Some(PhashGrader(default, decode))) <==>
            decode(submitted).Some? && |DifferingBits(parsed.hash, HashOf(decode(submitted).value))| <= parsed.threshold
  {
    if decode(submitted).Some? {
      HammingCounts(parsed.hash, HashOf(decode(submitted).value));
    }
    hide ParsePhashFlag, HashOf, Hamming, IsPhashFlag, DifferingBits;
    assert Accepts([flag], submitted, Some(PhashGrader(default, decode))) <==>
           FlagAccepts([flag][0], submitted, Some(PhashGrader(default, decode)));
  }

  /** A flag written by hand, without a threshold or with one after a colon. */
  function HandFlag(h: string, t: Option<string>): string {
    "phash$" + h + (if t.Some? then ":" + t.value else "")
  }

  /** It grades by the number before the colon, in hexadecimal and below 2^64, or not at all; and by the threshold,
      or the default where that is absent or no number. */
  lemma HandFlagGrades(h: string, t: Option<string>, default: int, decode: string -> Option<Picture>, submitted: string)
    requires (forall i | 0 <= i < |h| :: h[i] != ':') && (h != "" || t.Some?)
    ensures var threshold := if t.Some? && Atoi(t.value).Some? then Atoi(t.value).value else default;
            Accepts([HandFlag(h, t)], submitted, Some(PhashGrader(default, decode))) <==>
            && h != "" && AllHex(h) && HexNumber(h) < 0x1_0000_0000_0000_0000 && decode(submitted).Some?
            && |DifferingBits(HexNumber(h), HashOf(decode(submitted).value))| <= threshold
  {
    HandFlagParses(h, t, default);
    hide *;
    var flag := HandFlag(h, t);
    if ParsePhashFlag(flag, default).Some? {
      GradesParsed(flag, ParsePhashFlag(flag, default).value, default, decode, submitted);
    } else {
      UnparsedRefuses(flag, default, decode, submitted);
    }
  }

  /** Any other flag must be met exactly, whatever grades captures. */
  lemma OtherFlagsExact(flag: string, submitted: string, grade: Option<Grader>)
    requires forall rest | rest != "" :: flag != "phash$" + rest
    ensures Accepts([flag], submitted, grade) <==> flag == submitted
  {
    PhashFlagIs(flag);
    assert Accepts([flag], submitted, grade) <==> FlagAccepts([flag][0], submitted, grade);
  }

  lemma PhashFlagIs(flag: string)
    ensures IsPhashFlag(flag) ==> flag[6..] != "" && flag == "phash$" + flag[6..]
  {
  }

  lemma UnparsedRefuses(flag: string, default: int, decode: string -> Option<Picture>, submitted: string)
    requires IsPhashFlag(flag) && ParsePhashFlag(flag, default).None?
    ensures !Accepts([flag], submitted, Some(PhashGrader(default, decode)))
  {
    hide ParsePhashFlag, HashOf, Hamming, IsPhashFlag;
  }

  lemma HandFlagParses(h: string, t: Option<string>, default: int)
    requires (forall i | 0 <= i < |h| :: h[i] != ':') && (h != "" || t.Some?)
    ensures IsPhashFlag(HandFlag(h, t))
    ensures ParsePhashFlag(HandFlag(h, t), default) ==
            if h != "" && AllHex(h) && HexNumber(h) < 0x1_0000_0000_0000_0000 then
              Some(Parsed(HexNumber(h), if t.Some? && Atoi(t.value).Some? then Atoi(t.value).value else default))
            else None
  {
    hide *;
    ParseHexIs(h);
    HandFlagIs(h, t);
    if t.Some? {
      FlagParts(h, t.value);
      WithThreshold("phash$" + h + ":" + t.value, h, t.value, default);
    } else {
      BareFlag(h);
      WithoutThreshold("phash$" + h, h, default);
    }
  }

  lemma HandFlagIs(h: string, t: Option<string>)
    ensures t.Some? ==> HandFlag(h, t) == "phash$" + h + ":" + t.value
    ensures t.None? ==> HandFlag(h, t) == "phash$" + h
  {
    if t.Some? {
      assert "phash$" + h + (":" + t.value) == "phash$" + h + ":" + t.value;
    } else {
      assert "phash$" + h + "" == "phash$" + h;
    }
  }

  lemma ParseHexIs(s: string)
    ensures ParseHex(s) ==
            if s != "" && AllHex(s) && HexNumber(s) < 0x1_0000_0000_0000_0000 then Some(HexNumber(s)) else None
  {
    WordLimit();
    hide Pow2, HexNumber, AllHex;
  }

  lemma WithThreshold(flag: string, h: string, t: string, default: int)
    requires "phash$" <= flag && |flag| > 6 && flag[..6] == "phash$"
    requires var s := flag[6..]; |s| > |h| && IndexOf(s, ':') == |h| && s[..|h|] == h && s[|h| + 1..] == t
    ensures IsPhashFlag(flag)
    ensures ParsePhashFlag(flag, default) ==
            if ParseHex(h).Some? then
              Some(Parsed(ParseHex(h).value, if Atoi(t).Some? then Atoi(t).value else default))
            else None
  {
    hide ParseHex, IndexOf, Atoi;
  }

  lemma WithoutThreshold(flag: string, h: string, default: int)
    requires "phash$" <= flag && flag[6..] == h && IndexOf(h, ':') == |h| && h[..|h|] == h
    ensures ParsePhashFlag(flag, default) ==
            if ParseHex(h).Some? then Some(Parsed(ParseHex(h).value, default)) else None
  {
    hide ParseHex, IndexOf, Atoi;
  }

  lemma WordLimit()
    ensures Pow2(WIDTH) == 0x1_0000_0000_0000_0000
  {
    ByteLimit();
    hide Pow2;
    Pow2Doubles(8);
    Pow2Doubles(16);
    Pow2Doubles(32);
  }

  lemma ByteLimit()
    ensures Pow2(8) == 0x100
  {
  }

  lemma {:induction false} Pow2Doubles(n: nat)
    ensures Pow2(n + n) == Pow2(n) * Pow2(n)
  {
    Pow2Adds(n, n);
  }

  lemma {:induction false} Pow2Adds(m: nat, n: nat)
    ensures Pow2(m + n) == Pow2(m) * Pow2(n)
  {
    if n > 0 {
      Pow2Adds(m, n - 1);
      assert Pow2(m) * (2 * Pow2(n - 1)) == 2 * (Pow2(m) * Pow2(n - 1));
    }
  }

  lemma BareFlag(h: string)
    requires h != "" && forall i | 0 <= i < |h| :: h[i] != ':'
    ensures var flag := "phash$" + h;
            "phash$" <= flag && flag[6..] == h && IndexOf(flag[6..], ':') == |h| && h[..|h|] == h && IsPhashFlag(flag)
  {
    hide IndexOf;
    assert ("phash$" + h)[..6] == "phash$";
  }

  // ------------------------------------------------------------------------------ What the hash sees

  /** An average is the sum divided by the number of points, rounded down. */
  lemma AverageIsFloor(img: Picture, x: nat, y: nat)
    requires img.dx > 0 && img.dy > 0 && x < COLUMNS && y < ROWS
    ensures var a, b := Start(img.dx, COLUMNS, x), End(img.dx, COLUMNS, x);
            var c, d := Start(img.dy, ROWS, y), End(img.dy, ROWS, y);
            var n := (b - a) * (d - c);
            n > 0 && Average(img, x, y) * n <= BoxSum(img, a, b, c, d) < (Average(img, x, y) + 1) * n
  {
    BoxesInside(img.dx, COLUMNS, x);
    BoxesInside(img.dy, ROWS, y);
    var a, b := Start(img.dx, COLUMNS, x), End(img.dx, COLUMNS, x);
    var c, d := Start(img.dy, ROWS, y), End(img.dy, ROWS, y);
    Positive(b - a, d - c);
    hide BoxSum, Start, End;
    FloorBounds(BoxSum(img, a, b, c, d), (b - a) * (d - c));
  }

  lemma FloorBounds(s: nat, n: nat)
    requires n > 0
    ensures s / n * n <= s < (s / n + 1) * n
  {
    assert s == s / n * n + s % n;
  }

  /** On a picture of 9 by 8 points the bits are comparisons of neighbouring points: bit 8y+x is set exactly if
      the point at column x of row y is darker than the one to its right. */
  lemma NineByEight(img: Picture, x: nat, y: nat)
    requires img.dx == 9 && img.dy == 8 && x < 8 && y < 8
    ensures Bit(HashOf(img), 8 * y + x) <==>
            img.level(img.minX + x, img.minY + y) < img.level(img.minX + x + 1, img.minY + y)
  {
    hide *;
    HashBits(img, 8 * y + x);
    EightThen(x, y);
    DarkerIs(img, x, y);
    PointAverage(img, x, y);
    PointAverage(img, x + 1, y);
  }

  lemma EightThen(x: nat, y: nat)
    requires x < 8 && y < 8
    ensures (8 * y + x) % (COLUMNS - 1) == x && (8 * y + x) / (COLUMNS - 1) == y && 8 * y + x < WIDTH
  {
  }

  lemma DarkerIs(img: Picture, x: nat, y: nat)
    ensures Darker(img, x, y) <==> Average(img, x, y) < Average(img, x + 1, y)
  {
    hide Average;
  }

  lemma UnitSide(n: nat, k: nat)
    requires (n == COLUMNS || n == ROWS) && k < n
    ensures Start(n, n, k) == k && End(n, n, k) == k + 1
  {
  }

  lemma PointSum(img: Picture, x: nat, y: nat)
    ensures BoxSum(img, x, x + 1, y, y + 1) == At(img, x, y)
  {
    assert RowSum(img, y, x, x) == 0;
    assert RowSum(img, y, x, x + 1) == At(img, x, y);
    hide RowSum, At;
    assert BoxSum(img, x, x + 1, y, y) == 0;
  }

  lemma UnitAverage(img: Picture, x: nat, y: nat)
    requires Start(img.dx, COLUMNS, x) == x && End(img.dx, COLUMNS, x) == x + 1
    requires Start(img.dy, ROWS, y) == y && End(img.dy, ROWS, y) == y + 1
    ensures Average(img, x, y) == BoxSum(img, x, x + 1, y, y + 1)
  {
    hide Start, End, BoxSum;
    assert (x + 1 - x) * (y + 1 - y) == 1;
  }

  lemma PointAverage(img: Picture, x: nat, y: nat)
    requires img.dx == 9 && img.dy == 8 && x < 9 && y < 8
    ensures Average(img, x, y) == img.level(img.minX + x, img.minY + y)
  {
    assert At(img, x, y) == img.level(img.minX + x, img.minY + y);
    assert COLUMNS == 9 && ROWS == 8;
    hide *;
    UnitSide(9, x);
    UnitSide(8, y);
    UnitAverage(img, x, y);
    PointSum(img, x, y);
  }
}

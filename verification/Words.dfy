/** 32-bit words as the numbers 0 to 2^32 - 1, the C operations on them, and what these mean for the signed
    values that the words stand for. */
module Words {
  import opened Arith
  import opened Bits

  const TWO31: int := 0x8000_0000
  const TWO32: int := 0x1_0000_0000
  const TWO64: int := 0x1_0000_0000_0000_0000

  type U32 = w: nat | w < TWO32

  /** The word that a number wraps around to. */
  function Wrap(x: int): U32 { x % TWO32 }

  /** The value of a word as an int32_t. */
  function Signed(w: U32): int { if w < TWO31 then w else w - TWO32 }

  /** The signed value that a number wraps around to. */
  function SignedWrap(x: int): int { (x + TWO31) % TWO32 - TWO31 }

  lemma WrapShift(x: int, k: int)
    ensures Wrap(x + k * TWO32) == Wrap(x)
  {
    var q := x / TWO32;
    assert x == q * TWO32 + x % TWO32;
    ModUnique(x + k * TWO32, q + k, x % TWO32, TWO32);
  }

  /** How far a word is from its signed value. */
  function Turns(w: U32): int { if w < TWO31 then 0 else 1 }

  lemma SignedIs(w: U32)
    ensures w == Signed(w) + Turns(w) * TWO32 && -TWO31 <= Signed(w) < TWO31
    ensures Wrap(Signed(w)) == w
  {
    WrapShift(Signed(w), Turns(w));
  }

  /** Wrapping and then reading the sign is wrapping around the signed values. */
  lemma SignedOfWrap(x: int)
    ensures Signed(Wrap(x)) == SignedWrap(x)
    ensures -TWO31 <= x < TWO31 ==> Signed(Wrap(x)) == x
  {
    var q, r := x / TWO32, x % TWO32;
    assert x == q * TWO32 + r;
    if r < TWO31 {
      ModUnique(x + TWO31, q, r + TWO31, TWO32);
    } else {
      ModUnique(x + TWO31, q + 1, r - TWO31, TWO32);
    }
    if -TWO31 <= x < 0 {
      ModUnique(x, -1, x + TWO32, TWO32);
    } else if 0 <= x < TWO31 {
      ModUnique(x, 0, x, TWO32);
    }
  }

  // ---- Sums and products ----

  function Add(a: U32, b: U32): U32 { Wrap(a + b) }

  function Sub(a: U32, b: U32): U32 { Wrap(a - b) }

  function Mul(a: U32, b: U32): U32 { Wrap(a * b) }

  /** Sums, differences and products are those of the signed values, wrapped around. */
  lemma AddMeaning(a: U32, b: U32)
    ensures Signed(Add(a, b)) == SignedWrap(Signed(a) + Signed(b)) && Add(a, b) == Wrap(Signed(a) + Signed(b))
  {
    hide Wrap, Signed, SignedWrap;
    SignedIs(a);
    SignedIs(b);
    assert Turns(a) * TWO32 + Turns(b) * TWO32 == (Turns(a) + Turns(b)) * TWO32;
    WrapShift(Signed(a) + Signed(b), Turns(a) + Turns(b));
    SignedOfWrap(Signed(a) + Signed(b));
  }

  lemma SubMeaning(a: U32, b: U32)
    ensures Signed(Sub(a, b)) == SignedWrap(Signed(a) - Signed(b)) && Sub(a, b) == Wrap(Signed(a) - Signed(b))
  {
    hide Wrap, Signed, SignedWrap;
    SignedIs(a);
    SignedIs(b);
    assert Turns(a) * TWO32 - Turns(b) * TWO32 == (Turns(a) - Turns(b)) * TWO32;
    WrapShift(Signed(a) - Signed(b), Turns(a) - Turns(b));
    SignedOfWrap(Signed(a) - Signed(b));
  }

  /** The product of two words, by their signed values. */
  function Excess(a: U32, b: U32): int {
    Signed(a) * Turns(b) + Signed(b) * Turns(a) + Turns(a) * Turns(b) * TWO32
  }

  lemma ProductIs(a: U32, b: U32)
    ensures a * b == Signed(a) * Signed(b) + Excess(a, b) * TWO32
  {
    SignedIs(a);
    SignedIs(b);
  }

  lemma MulMeaning(a: U32, b: U32)
    ensures Signed(Mul(a, b)) == SignedWrap(Signed(a) * Signed(b)) && Mul(a, b) == Wrap(Signed(a) * Signed(b))
  {
    hide Wrap, Signed, SignedWrap, Excess;
    ProductIs(a, b);
    WrapShift(Signed(a) * Signed(b), Excess(a, b));
    SignedOfWrap(Signed(a) * Signed(b));
  }

  // ---- Comparisons ----

  function Flag(b: bool): U32 { if b then 1 else 0 }

  /** a < b as int32_t: the unsigned order with the sign bits flipped. */
  predicate LessSigned(a: U32, b: U32) { FlipSign(a) < FlipSign(b) }

  function FlipSign(w: U32): U32 { if w < TWO31 then w + TWO31 else w - TWO31 }

  lemma LessMeaning(a: U32, b: U32)
    ensures LessSigned(a, b) <==> Signed(a) < Signed(b)
  {
  }

  // ---- Shifts ----

  /** The lowest five bits of the second operand count. */
  function ShiftLeft(a: U32, b: U32): U32 { Wrap(a * Pow2(b % 32)) }

  /** n divided by the k-th power of two. */
  function Shifted(n: nat, k: nat): (q: nat)
    ensures q <= n
  {
    AtMost(n, Pow2(k));
    n / Pow2(k)
  }

  lemma AtMost(n: nat, p: nat)
    requires p > 0
    ensures 0 <= n / p <= n
  {
    var q := n / p;
    assert n == q * p + n % p;
    MulLe(1, p, q);
  }

  function ShiftRight(a: U32, b: U32): U32 { Shifted(a, b % 32) }

  /** Zeros are shifted into the complement of a negative number. */
  function ShiftRightSigned(a: U32, b: U32): U32 {
    if a < TWO31 then ShiftRight(a, b) else TWO32 - 1 - Shifted(TWO32 - 1 - a, b % 32)
  }

  /** A shift to the left multiplies the signed value and wraps around. */
  lemma ShiftLeftMeaning(a: U32, b: U32)
    ensures ShiftLeft(a, b) == Wrap(Signed(a) * Pow2(b % 32))
  {
    var p := Pow2(b % 32);
    hide Wrap, Signed, Pow2;
    SignedIs(a);
    assert a * p == Signed(a) * p + (Turns(a) * p) * TWO32 by { Spread(Signed(a), Turns(a), p); }
    WrapShift(Signed(a) * p, Turns(a) * p);
  }

  lemma Spread(s: int, t: int, p: int)
    ensures (s + t * TWO32) * p == s * p + (t * p) * TWO32
  {
  }

  /** An arithmetic shift to the right divides the signed value and rounds down. */
  lemma ShiftRightMeaning(a: U32, b: U32)
    ensures Signed(ShiftRightSigned(a, b)) == Signed(a) / Pow2(b % 32)
    ensures ShiftRightSigned(a, b) == Wrap(Signed(a) / Pow2(b % 32))
  {
    var p: int := Pow2(b % 32);
    hide Pow2;
    if a >= TWO31 {
      var c := TWO32 - 1 - a;
      var q: int, r: int := c / p, c % p;
      assert c == q * p + r && Signed(a) == -1 - c;
      assert (-1 - q) * p == -p - q * p;
      ModUnique(Signed(a), -1 - q, p - 1 - r, p);
    }
    SignedIs(ShiftRightSigned(a, b));
  }

  // ---- The upper half of a product ----

  /** The word as an int64_t, in 64 bits. */
  function Extend64(a: U32): nat { if a < TWO31 then a else a + (TWO64 - TWO32) }

  /** mulh; the casts of mulhsu and mulhu extend the sign as well, so they give the same word. */
  function MulHigh(a: U32, b: U32): U32 {
    Upper(Extend64(a) * Extend64(b))
  }

  /** The upper half of the lower 64 bits. */
  function Upper(x: int): U32 {
    UpperIs(x);
    x % TWO64 / TWO32
  }

  lemma UpperIs(x: int)
    ensures x % TWO64 / TWO32 == x / TWO32 % TWO32
  {
    var h, l := x / TWO32, x % TWO32;
    var k, h' := h / TWO32, h % TWO32;
    assert x == h * TWO32 + l && h == k * TWO32 + h';
    ModUnique(x, k, h' * TWO32 + l, TWO64);
    ModUnique(h' * TWO32 + l, h', l, TWO32);
  }

  lemma Extend64Is(a: U32)
    ensures Extend64(a) == Signed(a) + Turns(a) * TWO64
  {
  }

  lemma UpperShift(x: int, k: int)
    ensures Upper(x + k * TWO64) == Upper(x)
  {
    var q := x / TWO64;
    assert x == q * TWO64 + x % TWO64;
    ModUnique(x + k * TWO64, q + k, x % TWO64, TWO64);
  }

  function Excess64(a: U32, b: U32): int {
    Signed(a) * Turns(b) + Signed(b) * Turns(a) + Turns(a) * Turns(b) * TWO64
  }

  lemma Product64(a: U32, b: U32)
    ensures Extend64(a) * Extend64(b) == Signed(a) * Signed(b) + Excess64(a, b) * TWO64
  {
    Extend64Is(a);
    Extend64Is(b);
  }

  /** The signed product divided by 2^32 and rounded down. */
  lemma MulHighMeaning(a: U32, b: U32)
    ensures MulHigh(a, b) == Wrap(Signed(a) * Signed(b) / TWO32)
    ensures Signed(MulHigh(a, b)) == Signed(a) * Signed(b) / TWO32
  {
    var x := Signed(a) * Signed(b);
    Product64(a, b);
    UpperShift(x, Excess64(a, b));
    UpperIs(x);
    assert Upper(x) == Wrap(x / TWO32);
    ProductBound(a, b);
    SignedOfWrap(x / TWO32);
  }

  lemma ProductBound(a: U32, b: U32)
    ensures -TWO31 <= Signed(a) * Signed(b) / TWO32 < TWO31
  {
    SignedIs(a);
    SignedIs(b);
    var x, y := Signed(a), Signed(b);
    AbsProduct(x, y, TWO31);
    assert -TWO31 * TWO31 <= x * y <= TWO31 * TWO31;
  }

  lemma AbsProduct(x: int, y: int, m: int)
    requires 0 <= m && -m <= x <= m && -m <= y <= m
    ensures -m * m <= x * y <= m * m
  {
    assert (m - x) * (m + y) >= 0 && (m + x) * (m - y) >= 0;
    assert (m - x) * (m - y) >= 0 && (m + x) * (m + y) >= 0;
  }

  /** The upper half of the product of two words, taken as unsigned: this is what mulhu should give. */
  function UnsignedHigh(a: U32, b: U32): int { a * b / TWO32 }

  /** The upper half of the product of a signed and an unsigned word: this is what mulhsu should give. */
  function MixedHigh(a: U32, b: U32): int { Signed(a) * b / TWO32 }

  lemma DivideShifted(x: int, k: int)
    ensures (x + k * TWO32) / TWO32 == x / TWO32 + k
  {
    var q, r := x / TWO32, x % TWO32;
    assert x == q * TWO32 + r;
    ModUnique(x + k * TWO32, q + k, r, TWO32);
  }

  /** The source's mulhu is right only for words below 2^31, for a zero, and for 2^31 times 2^31. */
  lemma MulhuRightIff(a: U32, b: U32)
    ensures MulHigh(a, b) == Wrap(UnsignedHigh(a, b)) <==>
      (a < TWO31 && b < TWO31) || a == 0 || b == 0 || (a == TWO31 && b == TWO31)
  {
    var x := Signed(a) * Signed(b);
    ProductIs(a, b);
    DivideShifted(x, Excess(a, b));
    MulHighMeaning(a, b);
    SameWrap(x / TWO32, Excess(a, b));
    ExcessIsMultiple(a, b);
  }

  lemma SameWrap(x: int, k: int)
    ensures Wrap(x) == Wrap(x + k) <==> k % TWO32 == 0
  {
    var q, r, p, s := x / TWO32, x % TWO32, k / TWO32, k % TWO32;
    assert x == q * TWO32 + r && k == p * TWO32 + s;
    if r + s < TWO32 {
      ModUnique(x + k, q + p, r + s, TWO32);
    } else {
      ModUnique(x + k, q + p + 1, r + s - TWO32, TWO32);
    }
  }

  lemma ExcessIsMultiple(a: U32, b: U32)
    ensures Excess(a, b) % TWO32 == 0 <==> (a < TWO31 && b < TWO31) || a == 0 || b == 0 || (a == TWO31 && b == TWO31)
  {
  }

  /** The source's mulhsu is right only for a second word below 2^31, and for zero times anything. */
  lemma MulhsuRightIff(a: U32, b: U32)
    ensures MulHigh(a, b) == Wrap(MixedHigh(a, b)) <==> b < TWO31 || a == 0
  {
    var x, k := Signed(a) * Signed(b), Signed(a) * Turns(b);
    SignedIs(b);
    Distribute(Signed(a), Signed(b), Turns(b) * TWO32);
    assert Signed(a) * b == x + k * TWO32;
    DivideShifted(x, k);
    MulHighMeaning(a, b);
    SameWrap(x / TWO32, k);
    assert k == if b < TWO31 then 0 else Signed(a);
  }

  // ---- Division, rounded towards zero ----

  function Magnitude(a: U32): U32 { if a < TWO31 then a else TWO32 - a }

  function DivSigned(a: U32, b: U32): U32
    requires b != 0
  {
    var q := Magnitude(a) / Magnitude(b);
    if (a < TWO31) == (b < TWO31) then Wrap(q) else Wrap(-q)
  }

  function RemSigned(a: U32, b: U32): U32
    requires b != 0
  {
    var r := Magnitude(a) % Magnitude(b);
    if a < TWO31 then Wrap(r) else Wrap(-r)
  }

  function DivUnsigned(a: U32, b: U32): U32
    requires b != 0
  {
    AtMost(a, b);
    a / b
  }

  function Abs(x: int): nat { if x < 0 then -x else x }

  /** q and r are quotient and remainder of a division that rounds towards zero. */
  predicate Truncates(x: int, y: int, q: int, r: int) {
    x == q * y + r && Abs(r) < Abs(y) && (r > 0 ==> x > 0) && (r < 0 ==> x < 0)
  }

  /** There is one such division. */
  lemma TruncatesOnce(x: int, y: int, q: int, r: int, q': int, r': int)
    requires Truncates(x, y, q, r) && Truncates(x, y, q', r')
    ensures q == q' && r == r'
  {
    assert (q - q') * y == r' - r;
    if q != q' {
      NoMultiple(q - q', y);
    }
  }

  lemma NoMultiple(k: int, y: int)
    requires k != 0
    ensures Abs(k * y) >= Abs(y)
  {
    if k > 0 {
      MulLe(1, k, Abs(y));
    } else {
      MulLe(1, -k, Abs(y));
    }
  }

  /** The division of the source, on signed values. */
  lemma DivMeaning(a: U32, b: U32) returns (q: int, r: int)
    requires b != 0
    ensures Truncates(Signed(a), Signed(b), q, r) && DivSigned(a, b) == Wrap(q) && RemSigned(a, b) == Wrap(r)
  {
    var x, y := Signed(a), Signed(b);
    assert Magnitude(a) == Abs(x) && Magnitude(b) == Abs(y) && y != 0;
    q, r := SignQuotient(x, y);
  }

  lemma SignQuotient(x: int, y: int) returns (q: int, r: int)
    requires y != 0
    ensures Truncates(x, y, q, r)
    ensures q == (if (x >= 0) == (y >= 0) then Abs(x) / Abs(y) else -(Abs(x) / Abs(y)))
    ensures r == (if x >= 0 then Abs(x) % Abs(y) else -(Abs(x) % Abs(y)))
  {
    hide Truncates;
    var d, e, p := DivParts(Abs(x), Abs(y));
    q := if (x >= 0) == (y >= 0) then d else -d;
    r := if x >= 0 then e else -e;
    SignParts(x, y, Abs(y), d, e, p);
  }

  lemma DivParts(m: int, n: int) returns (d: int, e: int, p: int)
    requires m >= 0 && n > 0
    ensures d == m / n && e == m % n && p == d * n >= 0 && m == p + e && 0 <= e < n
  {
    d, e := m / n, m % n;
    p := d * n;
    MulLe(0, d, n);
  }

  lemma SignParts(x: int, y: int, n: int, d: int, e: int, p: int)
    requires n == Abs(y) > e >= 0 && p == d * n >= 0 && Abs(x) == p + e
    ensures Truncates(x, y, if (x >= 0) == (y >= 0) then d else -d, if x >= 0 then e else -e)
  {
    if y < 0 {
      NegateRight(d, n);
      NegateBoth(d, n);
    } else {
      NegateLeft(d, n);
    }
  }

  lemma NegateBoth(d: int, n: int) ensures -d * -n == d * n { }
  lemma NegateLeft(d: int, n: int) ensures -d * n == -(d * n) { }
  lemma NegateRight(d: int, n: int) ensures d * -n == -(d * n) { }

  // ---- Bitwise ----

  lemma Pow32()
    ensures Pow2(32) == TWO32
  {
    assert Pow2(8) == 256 && Pow2(16) == 65536 && Pow2(24) == 0x100_0000;
  }

  function XorWords(a: U32, b: U32): U32 { Pow32(); WithinWidth(a, b, 32); Xor(a, b) }

  function AndWords(a: U32, b: U32): U32 { Pow32(); WithinWidth(a, b, 32); And(a, b) }

  function OrWords(a: U32, b: U32): U32 { Pow32(); WithinWidth(a, b, 32); Or(a, b) }
}

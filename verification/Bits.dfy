/** Binary digits of natural numbers, and the bitwise operations on them. */
module Bits {
  import opened Arith

  function Pow2(k: nat): (p: nat)
    ensures p > 0
  {
    if k == 0 then 1 else 2 * Pow2(k - 1)
  }

  /** Digit k of n. */
  predicate BitOf(n: nat, k: nat)
    decreases k
  {
    if k == 0 then n % 2 == 1 else BitOf(n / 2, k - 1)
  }

  /** It is the one that division by a power of two brings to the end. */
  lemma {:induction false} BitIsQuotient(n: nat, k: nat)
    ensures BitOf(n, k) <==> n / Pow2(k) % 2 == 1
    decreases k
  {
    if k > 0 {
      BitIsQuotient(n / 2, k - 1);
      DivideTwice(n, 2, Pow2(k - 1));
    }
  }

  /** Dividing by a and then by b is dividing by their product. */
  lemma DivideTwice(n: nat, a: nat, b: nat)
    requires a > 0 && b > 0
    ensures a * b > 0 && n / (a * b) == n / a / b
  {
    var q, r := n / a, n % a;
    var q', r' := q / b, q % b;
    assert n == a * q + r && q == b * q' + r';
    Product(a, b);
    assert a * q == a * (b * q') + a * r' by { Distribute(a, b * q', r'); }
    assert a * (b * q') == q' * (a * b) by { Regroup(a, b, q'); }
    assert 0 <= a * r' + r < a * b by { Below(a, b, r, r'); }
    ModUnique(n, q', a * r' + r, a * b);
  }

  lemma Product(a: nat, b: nat)
    requires a > 0 && b > 0
    ensures a * b > 0
  {
  }

  lemma Distribute(a: int, b: int, c: int)
    ensures a * (b + c) == a * b + a * c
  {
  }

  lemma Regroup(a: int, b: int, c: int)
    ensures a * (b * c) == c * (a * b)
  {
  }

  lemma Below(a: nat, b: nat, r: nat, s: nat)
    requires r < a && s < b
    ensures 0 <= a * s + r < a * b
  {
    Distribute(a, s, 1);
    Grows(a, s + 1, b);
  }

  lemma Grows(a: nat, b: nat, c: nat)
    requires b <= c
    ensures a * b <= a * c
  {
    Distribute(a, b, c - b);
  }

  /** Digits determine the number. */
  lemma {:induction false} SameDigits(a: nat, b: nat)
    requires forall k: nat :: BitOf(a, k) == BitOf(b, k)
    ensures a == b
    decreases a + b
  {
    assert BitOf(a, 0) == BitOf(b, 0);
    if a > 0 || b > 0 {
      forall k: nat ensures BitOf(a / 2, k) == BitOf(b / 2, k) {
        assert BitOf(a, k + 1) == BitOf(b, k + 1);
      }
      SameDigits(a / 2, b / 2);
      assert a == 2 * (a / 2) + a % 2 && b == 2 * (b / 2) + b % 2;
    }
  }

  function Digit(b: bool): nat { if b then 1 else 0 }

  function Xor(a: nat, b: nat): nat
    decreases a + b
  {
    if a == 0 && b == 0 then 0 else Digit(a % 2 != b % 2) + 2 * Xor(a / 2, b / 2)
  }

  function And(a: nat, b: nat): nat
    decreases a + b
  {
    if a == 0 && b == 0 then 0 else Digit(a % 2 == 1 && b % 2 == 1) + 2 * And(a / 2, b / 2)
  }

  function Or(a: nat, b: nat): nat
    decreases a + b
  {
    if a == 0 && b == 0 then 0 else Digit(a % 2 == 1 || b % 2 == 1) + 2 * Or(a / 2, b / 2)
  }

  lemma {:induction false} ZeroDigits(k: nat)
    ensures !BitOf(0, k)
  {
    if k > 0 {
      ZeroDigits(k - 1);
    }
  }

  /** A digit of the exclusive or is set exactly where the digits differ: the second number flips the
      digits that it has. */
  lemma {:induction false} XorDigit(a: nat, b: nat, k: nat)
    ensures BitOf(Xor(a, b), k) <==> BitOf(a, k) != BitOf(b, k)
    decreases k
  {
    ZeroDigits(k);
    if k > 0 && (a > 0 || b > 0) {
      XorDigit(a / 2, b / 2, k - 1);
      assert Xor(a, b) / 2 == Xor(a / 2, b / 2);
    }
  }

  lemma {:induction false} AndDigit(a: nat, b: nat, k: nat)
    ensures BitOf(And(a, b), k) <==> BitOf(a, k) && BitOf(b, k)
    decreases k
  {
    ZeroDigits(k);
    if k > 0 && (a > 0 || b > 0) {
      AndDigit(a / 2, b / 2, k - 1);
      assert And(a, b) / 2 == And(a / 2, b / 2);
    }
  }

  lemma {:induction false} OrDigit(a: nat, b: nat, k: nat)
    ensures BitOf(Or(a, b), k) <==> BitOf(a, k) || BitOf(b, k)
    decreases k
  {
    ZeroDigits(k);
    if k > 0 && (a > 0 || b > 0) {
      OrDigit(a / 2, b / 2, k - 1);
      assert Or(a, b) / 2 == Or(a / 2, b / 2);
    }
  }

  /** The operations stay within a width. */
  lemma {:induction false} WithinWidth(a: nat, b: nat, n: nat)
    requires a < Pow2(n) && b < Pow2(n)
    ensures Xor(a, b) < Pow2(n) && And(a, b) < Pow2(n) && Or(a, b) < Pow2(n)
    decreases n
  {
    if n > 0 {
      WithinWidth(a / 2, b / 2, n - 1);
    }
  }

  /** Halving a remainder of a power of two. */
  lemma ModHalves(n: nat, w: nat)
    requires w > 0
    ensures n % Pow2(w) % 2 == n % 2 && n % Pow2(w) / 2 == n / 2 % Pow2(w - 1)
  {
    var h, b, p := n / 2, n % 2, Pow2(w - 1);
    var q, r := h / p, h % p;
    assert n == 2 * h + b && h == q * p + r;
    assert 2 * (q * p) == q * Pow2(w) by { Regroup(2, p, q); Regroup(q, 2, p); }
    ModUnique(n, q, 2 * r + b, Pow2(w));
  }

  /** Cutting off the higher digits keeps the lower ones. */
  lemma {:induction false} LowDigits(n: nat, w: nat, k: nat)
    ensures BitOf(n % Pow2(w), k) <==> k < w && BitOf(n, k)
    decreases k, w
  {
    if w == 0 {
      ZeroDigits(k);
    } else {
      ModHalves(n, w);
      if k > 0 {
        LowDigits(n / 2, w - 1, k - 1);
      }
    }
  }
}

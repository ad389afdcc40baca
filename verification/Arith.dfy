/** Facts about multiplication, division and remainder that the other modules share. */
module Arith {

  lemma MulLe(a: int, b: int, c: nat)
    requires a <= b
    ensures a * c <= b * c
  {
  }

  /** Quotient and remainder are the only way to write a number. */
  lemma ModUnique(x: int, q: int, r: int, c: int)
    requires c > 0 && x == q * c + r && 0 <= r < c
    ensures x % c == r && x / c == q
  {
    var q', r' := x / c, x % c;
    assert x == q' * c + r' && 0 <= r' < c;
    assert (q' + 1) * c == q' * c + c && (q + 1) * c == q * c + c;
    if q' < q {
      MulLe(q' + 1, q, c);
    } else if q < q' {
      MulLe(q + 1, q', c);
    }
  }

  lemma ModSucc(a: nat, c: nat)
    requires c > 0
    ensures (a % c + 1) % c == (a + 1) % c
  {
    var q, r := a / c, a % c;
    assert a == q * c + r;
    if r + 1 == c {
      assert (q + 1) * c == q * c + c;
      ModUnique(a + 1, q + 1, 0, c);
      ModUnique(c, 1, 0, c);
    } else {
      ModUnique(a + 1, q, r + 1, c);
      ModUnique(r + 1, 0, r + 1, c);
    }
  }

  /** Within a window shorter than c, remainders modulo c do not repeat. */
  lemma ModWindow(a: nat, b: nat, c: nat)
    requires a < b < a + c
    ensures a % c != b % c
  {
    var q, p := a / c, b / c;
    assert a == q * c + a % c && b == p * c + b % c;
    assert (q + 1) * c == q * c + c;
    if p <= q {
      MulLe(p, q, c);
    } else {
      MulLe(q + 1, p, c);
    }
  }
}

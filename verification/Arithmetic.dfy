/** Facts about products and truncating quotients of natural numbers. */
module Arithmetic {

  lemma {:induction false} MulMonotone(a: int, b: int, c: int)
    requires a <= b && c >= 0
    ensures a * c <= b * c
  {
  }

  /** The quotient is the one number whose remainder fits. */
  lemma {:induction false} QuotientIs(x: int, d: int, q: int, r: int)
    requires d > 0 && x == q * d + r && 0 <= r < d
    ensures x / d == q
  {
    var p := x / d;
    var s := x % d;
    assert x == p * d + s;
    assert (p - q) * d == r - s;
    if p > q {
      MulMonotone(1, p - q, d);
    } else if p < q {
      MulMonotone(1, q - p, d);
    }
  }

  lemma {:induction false} Distribute(a: int, b: int, c: int)
    ensures (a + b) * c == a * c + b * c
  {
  }

  lemma {:induction false} MulAssociative(a: int, b: int, c: int)
    ensures (a * b) * c == a * (b * c)
  {
  }

  lemma {:induction false} Regroup(q: int, b: int, a: int)
    ensures (q * b) * a == q * (a * b)
  {
  }

  /** A mixed-radix digit pair stays below the product of the radices. */
  lemma {:induction false} DigitsFit(s: nat, b: nat, r: nat, a: nat)
    requires s < b && r < a
    ensures 0 <= s * a + r < a * b
  {
    MulMonotone(0, s, a);
    MulMonotone(s + 1, b, a);
    Distribute(s, 1, a);
  }

  /** Truncating twice is truncating once by the product. */
  lemma {:induction false} NestedFloor(x: nat, a: int, b: int)
    requires a > 0 && b > 0
    ensures a * b > 0 && (x / a) / b == x / (a * b)
  {
    var y, r := x / a, x % a;
    var q, s := y / b, y % b;
    DigitsFit(s, b, r, a);
    Distribute(q * b, s, a);
    Regroup(q, b, a);
    QuotientIs(x, a * b, q, s * a + r);
  }

  lemma {:induction false} DivisionLaw(x: nat, d: int)
    requires d > 0
    ensures x == (x / d) * d + x % d && 0 <= x % d < d
  {
  }

  lemma {:induction false} QuotientBounds(x: nat, d: int)
    requires d > 0
    ensures 0 <= x / d <= x
    ensures (x / d) * d <= x < (x / d) * d + d
  {
    DivisionLaw(x, d);
    var q := x / d;
    if q < 0 {
      MulMonotone(q, -1, d);
    } else {
      MulMonotone(1, d, q);
    }
  }

  lemma {:induction false} QuotientMonotone(x: nat, y: nat, d: int)
    requires d > 0 && x <= y
    ensures x / d <= y / d
  {
    QuotientBounds(x, d);
    QuotientBounds(y, d);
    if y / d < x / d { MulMonotone(y / d + 1, x / d, d); }
  }
}

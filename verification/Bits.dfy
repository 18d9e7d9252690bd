/** C's bitwise operators on unsigned numbers, and what they mean arithmetically. */
module Bits {
  function Pow2(n: nat): (r: nat)
    ensures r > 0
  {
    if n == 0 then 1 else 2 * Pow2(n - 1)
  }

  function Shl(a: nat, n: nat): (r: nat) { a * Pow2(n) }

  function Shr(a: nat, n: nat): (r: nat) {
    if n == 0 then a else Shr(a / 2, n - 1)
  }

  function Or(a: nat, b: nat): (r: nat) {
    if a == 0 && b == 0 then 0
    else 2 * Or(a / 2, b / 2) + (if a % 2 == 1 || b % 2 == 1 then 1 else 0)
  }

  function And(a: nat, b: nat): (r: nat) {
    if a == 0 || b == 0 then 0
    else 2 * And(a / 2, b / 2) + (if a % 2 == 1 && b % 2 == 1 then 1 else 0)
  }

  lemma {:induction false} OrZero(a: nat)
    ensures Or(a, 0) == a && Or(0, a) == a
  {
    if a > 0 {
      OrZero(a / 2);
    }
  }

  lemma {:induction false} OrFits(a: nat, b: nat, n: nat)
    requires a < Pow2(n) && b < Pow2(n)
    ensures Or(a, b) < Pow2(n)
  {
    if n > 0 {
      OrFits(a / 2, b / 2, n - 1);
    }
  }

  /** OR adds when the right operand fits below the lowest set bit of the left one. */
  lemma {:induction false} OrAdds(a: nat, b: nat, n: nat)
    requires b < Pow2(n)
    ensures Or(Shl(a, n), b) == a * Pow2(n) + b
  {
    if n == 0 {
      OrZero(a);
    } else {
      OrAdds(a, b / 2, n - 1);
      ShlDoubles(a, n);
      hide Shl;
      OrEven(Shl(a, n - 1), b);
    }
  }

  lemma ShlDoubles(a: nat, n: nat)
    requires n > 0
    ensures Shl(a, n) == 2 * Shl(a, n - 1) && Shl(a, n) == a * Pow2(n) && Shl(a, n - 1) == a * Pow2(n - 1)
  {
    assert a * (2 * Pow2(n - 1)) == 2 * (a * Pow2(n - 1));
  }

  /** OR with an even number keeps the last bit of the other one. */
  lemma OrEven(h: nat, b: nat)
    ensures Or(2 * h, b) == 2 * Or(h, b / 2) + b % 2
  {
  }

  lemma MulMonotone(d: nat, x: nat, y: nat)
    requires x <= y
    ensures d * x <= d * y
  {
  }

  lemma DivModUnique(a: nat, d: nat, q: nat, r: nat)
    requires d > 0 && a == d * q + r && r < d
    ensures a / d == q && a % d == r
  {
    var q', r' := a / d, a % d;
    assert a == d * q' + r' && 0 <= r' < d;
    if q' < q {
      MulMonotone(d, q' + 1, q);
    } else if q < q' {
      MulMonotone(d, q + 1, q');
    }
  }

  lemma ModHalf(a: nat, p: nat)
    requires p > 0
    ensures a % (2 * p) == 2 * ((a / 2) % p) + a % 2
  {
    var q, r := (a / 2) / p, (a / 2) % p;
    assert a / 2 == p * q + r;
    assert a == (2 * p) * q + (2 * r + a % 2) by {
      assert 2 * (p * q) == (2 * p) * q;
    }
    DivModUnique(a, 2 * p, q, 2 * r + a % 2);
  }

  lemma DivHalf(a: nat, p: nat)
    requires p > 0
    ensures a / (2 * p) == (a / 2) / p
  {
    var q, r := (a / 2) / p, (a / 2) % p;
    assert a / 2 == p * q + r;
    assert a == (2 * p) * q + (2 * r + a % 2) by {
      assert 2 * (p * q) == (2 * p) * q;
    }
    DivModUnique(a, 2 * p, q, 2 * r + a % 2);
  }

  /** A right shift is a division. */
  lemma {:induction false} ShrDivides(a: nat, n: nat)
    ensures Shr(a, n) == a / Pow2(n)
  {
    if n > 0 {
      ShrDivides(a / 2, n - 1);
      DivHalf(a, Pow2(n - 1));
    }
  }

  /** AND with a mask of n ones is the remainder modulo 2^n. */
  lemma {:induction false} AndMask(a: nat, n: nat)
    ensures And(a, Pow2(n) - 1) == a % Pow2(n)
  {
    if n > 0 && a > 0 {
      AndMask(a / 2, n - 1);
      var p := Pow2(n - 1);
      var mask := 2 * p - 1;
      assert mask / 2 == p - 1 && mask % 2 == 1;
      ModHalf(a, p);
    } else if a == 0 {
      DivModUnique(0, Pow2(n), 0, 0);
    }
  }

  /** What was shifted in and ORed together comes apart again. */
  lemma SplitPacked(a: nat, b: nat, n: nat)
    requires b < Pow2(n)
    ensures Shr(Or(Shl(a, n), b), n) == a
    ensures And(Or(Shl(a, n), b), Pow2(n) - 1) == b
  {
    OrAdds(a, b, n);
    assert a * Pow2(n) == Pow2(n) * a;
    DivModUnique(a * Pow2(n) + b, Pow2(n), a, b);
    ShrDivides(a * Pow2(n) + b, n);
    AndMask(a * Pow2(n) + b, n);
  }
}

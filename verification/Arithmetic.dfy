/** Multiplication and remainders of natural numbers. */
module Arithmetic {

  lemma Scale(m: nat, a: nat, b: nat)
    requires a <= b
    ensures m * a <= m * b
  {
  }

  lemma Distribute(m: nat, a: nat, b: nat)
    ensures m * (a + b) == m * a + m * b
  {
  }

  lemma OneMoreTime(n: nat, a: nat)
    requires n > 0
    ensures n * a == (n - 1) * a + a
  {
  }

  lemma Commute(a: nat, b: nat)
    ensures a * b == b * a
  {
  }

  lemma Reassociate(a: nat, b: nat, c: nat)
    ensures (a * b) * c == a * (b * c)
  {
  }

  /** Quotient and remainder are unique. */
  lemma SameDigit(a: nat, p: nat, b: nat, q: nat, m: nat)
    requires a < m && b < m && a + m * p == b + m * q
    ensures a == b && p == q
  {
    if p < q {
      Scale(m, p + 1, q);
      assert false;
    } else if q < p {
      Scale(m, q + 1, p);
      assert false;
    }
  }

  lemma Divide(a: nat, m: nat) returns (q: nat, r: nat)
    requires m > 0
    ensures a == m * q + r && r < m && r == a % m && q == a / m
  {
    q, r := a / m, a % m;
  }

  lemma SmallWraps(v: nat, m: nat)
    requires v < m
    ensures v % m == v
  {
  }

  /** Multiples of the modulus do not matter. */
  lemma ModDrop(a: nat, k: nat, m: nat)
    requires m > 0
    ensures (a + m * k) % m == a % m
  {
    var q, r := Divide(a, m);
    var p, s := Divide(a + m * k, m);
    Distribute(m, q, k);
    SameDigit(r, q + k, s, p, m);
  }

  lemma ModAdd(a: nat, b: nat, m: nat)
    requires m > 0
    ensures (a % m + b) % m == (a + b) % m
  {
    var q, r := Divide(a, m);
    ModDrop(r + b, q, m);
  }

  lemma ModMul(a: nat, b: nat, m: nat)
    requires m > 0
    ensures ((a % m) * b) % m == (a * b) % m
  {
    var q, r := Divide(a, m);
    Expand(m, q, r, b);
    ModDrop(r * b, q * b, m);
  }

  lemma Expand(m: nat, q: nat, r: nat, b: nat)
    ensures (m * q + r) * b == r * b + m * (q * b)
  {
    Reassociate(m, q, b);
    Distribute(b, m * q, r);
    Commute(b, m * q + r);
    Commute(b, m * q);
    Commute(b, r);
  }

  lemma ModAddSums(p: nat, c: nat, q: nat, a: nat, m: nat)
    requires m > 0 && p + c == q + a
    ensures (p % m + c) % m == (a + q % m) % m
  {
    ModAdd(p, c, m);
    ModAdd(q, a, m);
    var r := q % m;
    assert r + a == a + r;
  }

  lemma AddAssociative(a: nat, b: nat, c: nat, m: nat)
    requires m > 0
    ensures ((a + b) % m + c) % m == (a + (b + c) % m) % m
  {
    ModAddSums(a + b, c, b + c, a, m);
  }

  lemma MulAssociative(a: nat, b: nat, c: nat, m: nat)
    requires m > 0
    ensures (((a * b) % m) * c) % m == (a * ((b * c) % m)) % m
  {
    ModMul(a * b, c, m);
    ModMul(b * c, a, m);
    Reassociate(a, b, c);
    Commute(b * c, a);
    Commute((b * c) % m, a);
  }

  lemma QuotientBound(n: nat, a: nat, b: nat)
    requires b > 0 && n * b <= a
    ensures n <= a / b
  {
    var q, r := Divide(a, b);
    Commute(n, b);
    if q < n {
      Scale(b, q + 1, n);
      assert false;
    }
  }
}

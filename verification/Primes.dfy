/** Modular arithmetic behind the consistent hash table.

    The repository states the first-order facts below as assumptions; here they are proved,
    starting from the definition of a prime number.
  */
module Primes {

  ghost predicate IsPrime(p: int) {
    p >= 2 && forall d :: 2 <= d < p ==> p % d != 0
  }

  lemma {:induction false} ProductAtLeast(m: int, x: int)
    requires 0 < m && 0 < x
    ensures m <= m * x
    decreases x
  {
    if x > 1 {
      ProductAtLeast(m, x - 1);
      assert m * x == m * (x - 1) + m;
    }
  }

  lemma {:induction false} ProductGrows(a: nat, x: int, y: int)
    ensures x <= y ==> a * x <= a * y
  {
    assert a * (y - x) == a * y - a * x;
  }

  lemma {:induction false} RemainderIsUnique(a: int, m: int, q: int, r: int)
    requires 0 < m && 0 <= r < m && a == m * q + r
    ensures a % m == r && a / m == q
  {
    var q', r' := a / m, a % m;
    assert a == m * q' + r' && 0 <= r' < m;
    assert m * (q - q') == m * q - m * q';
    assert m * (q' - q) == m * q' - m * q;
    if q > q' {
      ProductAtLeast(m, q - q');
    } else if q < q' {
      ProductAtLeast(m, q' - q);
    }
  }

  /** A multiple of `m` leaves no remainder. */
  lemma {:induction false} MultipleHasNoRemainder(m: int, x: int)
    requires 0 < m
    ensures (m * x) % m == 0
  {
    RemainderIsUnique(m * x, m, x, 0);
  }

  /** Two numbers have the same remainder exactly when the modulus divides their difference. */
  lemma {:induction false} SameRemainder(a: int, b: int, m: int)
    requires 0 < m
    ensures a % m == b % m <==> (a - b) % m == 0
  {
    if a % m == b % m {
      assert a - b == m * (a / m - b / m);
      MultipleHasNoRemainder(m, a / m - b / m);
    }
    if (a - b) % m == 0 {
      var c := (a - b) / m;
      assert a == m * (b / m + c) + b % m;
      RemainderIsUnique(a, m, b / m + c, b % m);
    }
  }

  /** No common divisor but one. */
  ghost predicate Coprime(a: int, b: int) {
    forall d {:trigger Divides(d, a)} {:trigger Divides(d, b)} :: d >= 2 ==> !(Divides(d, a) && Divides(d, b))
  }

  predicate Divides(d: int, a: int)
    requires d >= 2
  {
    a % d == 0
  }

  lemma {:induction false} DividesSum(d: int, x: int, y: int, q: int)
    requires d >= 2 && Divides(d, x) && Divides(d, y)
    ensures Divides(d, x * q + y)
  {
    assert x == d * (x / d) && y == d * (y / d);
    assert x * q + y == d * ((x / d) * q + y / d) by {
      assert (d * (x / d)) * q == d * ((x / d) * q);
    }
    MultipleHasNoRemainder(d, (x / d) * q + y / d);
  }

  lemma {:induction false} CommonDivisor(d: int, a: int, b: int)
    requires d >= 2 && b > 0 && Divides(d, b) && Divides(d, a % b)
    ensures Divides(d, a)
  {
    DividesSum(d, b, a % b, a / b);
    assert a == b * (a / b) + a % b;
  }

  /** One step of Euclid's algorithm keeps numbers coprime. */
  lemma {:induction false} CoprimeRemainder(a: int, b: int)
    requires b > 0 && Coprime(a, b)
    ensures Coprime(b, a % b)
  {
    if d :| d >= 2 && Divides(d, b) && Divides(d, a % b) {
      CommonDivisor(d, a, b);
    }
  }

  /** Coprime numbers combine to one. */
  lemma {:induction false} Bezout(a: int, b: int) returns (x: int, y: int)
    requires a > 0 && b >= 0 && Coprime(a, b)
    ensures a * x + b * y == 1
    decreases b
  {
    if b == 0 {
      if a >= 2 {
        assert Divides(a, a) && Divides(a, b);
      }
      x, y := 1, 0;
    } else {
      CoprimeRemainder(a, b);
      var u, v := Bezout(b, a % b);
      x, y := v, u - (a / b) * v;
      Recombine(a, b, u, v);
    }
  }

  lemma {:induction false} Recombine(a: int, b: int, u: int, v: int)
    requires b > 0
    ensures a * v + b * (u - (a / b) * v) == b * u + (a % b) * v
  {
    var q, r := a / b, a % b;
    assert a == b * q + r;
    assert (b * q + r) * v == b * (q * v) + r * v;
    assert b * (u - q * v) == b * u - b * (q * v);
  }

  /** Multiplying by a number coprime to the modulus makes no new multiples of it. The repository's blanket assumption
      that a prime is coprime to every positive number fails exactly on the multiples of the prime. */
  lemma {:induction false} EuclidExactly(m: int, k: int, s: int)
    requires m > 0 && s > 0 && Coprime(s, m)
    ensures (k * s) % m != 0 <==> k % m != 0
  {
    if k % m == 0 {
      var c := k / m;
      assert k * s == m * (c * s) by {
        assert (m * c) * s == m * (c * s);
      }
      MultipleHasNoRemainder(m, c * s);
    }
    if (k * s) % m == 0 {
      var x, y := Bezout(s, m);
      var c := (k * s) / m;
      assert k * s == m * c;
      Cancel(k, s, m, x, y, c);
      MultipleHasNoRemainder(m, c * x + k * y);
    }
  }

  lemma {:induction false} Cancel(k: int, s: int, m: int, x: int, y: int, c: int)
    requires s * x + m * y == 1 && k * s == m * c
    ensures k == m * (c * x + k * y)
  {
    calc {
      k;
      k * (s * x + m * y);
      k * (s * x) + k * (m * y);
      { assert k * (s * x) == (k * s) * x; assert k * (m * y) == m * (k * y); }
      (m * c) * x + m * (k * y);
      { assert (m * c) * x == m * (c * x); }
      m * (c * x) + m * (k * y);
      m * (c * x + k * y);
    }
  }

  /** The product of a number below the modulus and one coprime to the modulus is not a multiple of it. */
  lemma {:induction false} EuclidLemma(m: int, k: int, s: int)
    requires 0 < k < m && 0 < s && Coprime(s, m)
    ensures (k * s) % m != 0
  {
    EuclidExactly(m, k, s);
  }

  /** A prime is coprime to exactly those numbers that it does not divide. */
  lemma {:induction false} PrimeCoprimeExactly(p: int, n: int)
    requires IsPrime(p) && n > 0
    ensures Coprime(n, p) <==> n % p != 0
  {
    if n % p == 0 {
      assert Divides(p, n) && Divides(p, p);
    } else if d :| d >= 2 && Divides(d, n) && Divides(d, p) {
      DivisorOfPrime(p, d);
    }
  }

  lemma {:induction false} DivisorOfPrime(p: int, d: int)
    requires IsPrime(p) && d >= 2 && Divides(d, p)
    ensures d == p
  {
    if d > p {
      RemainderIsUnique(p, d, 0, p);
    }
  }

  /** Multiplying by a number coprime to the modulus maps distinct residues to distinct residues, whatever constant is
      added. */
  lemma {:induction false} AffineIsInjective(offset: int, mul: int, m: int, a: int, b: int)
    requires 0 < mul && Coprime(mul, m) && 0 <= a < m && 0 <= b < m && a != b
    ensures (offset + mul * a) % m != (offset + mul * b) % m
  {
    var hi, lo := if a < b then b else a, if a < b then a else b;
    EuclidLemma(m, hi - lo, mul);
    assert (offset + mul * hi) - (offset + mul * lo) == (hi - lo) * mul;
    SameRemainder(offset + mul * hi, offset + mul * lo, m);
  }

  /** The same for a prime modulus, and any multiplier below it. */
  lemma {:induction false} PrimeAffineIsInjective(offset: int, mul: int, p: int, a: int, b: int)
    requires IsPrime(p) && 0 < mul < p && 0 <= a < p && 0 <= b < p && a != b
    ensures (offset + mul * a) % p != (offset + mul * b) % p
  {
    PrimeCoprimeExactly(p, mul);
    AffineIsInjective(offset, mul, p, a, b);
  }

  lemma {:induction false} PrimeEuclidExactly(p: int, k: int, s: int)
    requires IsPrime(p) && 0 < s < p
    ensures (k * s) % p != 0 <==> k % p != 0
  {
    PrimeCoprimeExactly(p, s);
    EuclidExactly(p, k, s);
  }
}

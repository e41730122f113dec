/** Powers of two, and masking with one less than a power of two in place of a remainder. */
module PowerOfTwo {
  import P = Primes

  function Pow2(m: nat): (r: nat)
    ensures r > 0
  {
    if m == 0 then 1 else 2 * Pow2(m - 1)
  }

  ghost predicate IsPowerOfTwo(x: nat) { exists m: nat :: x == Pow2(m) }

  /** Bit `i` of a number, counted from the lowest. */
  function Bit(x: nat, i: nat): (b: bool) {
    if i == 0 then x % 2 == 1 else Bit(x / 2, i - 1)
  }

  function BitAnd(x: nat, y: nat): (r: nat) {
    if x == 0 || y == 0 then 0
    else 2 * BitAnd(x / 2, y / 2) + if x % 2 == 1 && y % 2 == 1 then 1 else 0
  }

  lemma {:induction false} ZeroBits(i: nat)
    ensures !Bit(0, i)
  {
    if i > 0 {
      ZeroBits(i - 1);
    }
  }

  /** The bits of the conjunction. */
  lemma {:induction false} BitOfAnd(x: nat, y: nat, i: nat)
    ensures Bit(BitAnd(x, y), i) <==> Bit(x, i) && Bit(y, i)
  {
    if x == 0 || y == 0 {
      ZeroBits(i);
    } else if i > 0 {
      BitOfAnd(x / 2, y / 2, i - 1);
    }
  }

  lemma {:induction false} HalvesOfRemainder(k: nat, c: nat)
    requires c > 0
    ensures k % (2 * c) == 2 * ((k / 2) % c) + k % 2
  {
    var q, r := (k / 2) / c, (k / 2) % c;
    assert k / 2 == q * c + r;
    assert k == q * (2 * c) + (2 * r + k % 2);
    P.RemainderIsUnique(k, 2 * c, q, 2 * r + k % 2);
  }

  ghost predicate Masks(k: nat, c: nat)
    requires c > 0
  {
    BitAnd(k, c - 1) == k % c
  }

  lemma {:induction false} MasksDouble(k: nat, c: nat)
    requires c > 0 && Masks(k / 2, c)
    ensures Masks(k, 2 * c)
  {
    HalvesOfRemainder(k, c);
    if k > 0 {
      assert (2 * c - 1) / 2 == c - 1 && (2 * c - 1) % 2 == 1;
    }
  }

  /** Masking with one less than a power of two is the remainder. */
  lemma {:induction false} MaskIsRemainder(k: nat, m: nat)
    ensures Masks(k, Pow2(m))
  {
    if m > 0 {
      MaskIsRemainder(k / 2, m - 1);
      MasksDouble(k, Pow2(m - 1));
    }
  }

  lemma {:induction false} DoubleIsPower(x: nat)
    ensures IsPowerOfTwo(2 * x) <==> IsPowerOfTwo(x)
  {
    if m: nat :| x == Pow2(m) {
      assert 2 * x == Pow2(m + 1);
    }
    if m: nat :| 2 * x == Pow2(m) {
      assert m > 0 && x == Pow2(m - 1);
    }
  }

  lemma {:induction false} OddPower(x: nat)
    requires x % 2 == 1
    ensures IsPowerOfTwo(x) <==> x == 1
  {
    assert Pow2(0) == 1;
  }

  /** A positive number has no bit in common with its predecessor exactly when it is a power of two. */
  lemma {:induction false} PowerExactly(x: nat)
    requires x > 0
    ensures BitAnd(x, x - 1) == 0 <==> IsPowerOfTwo(x)
  {
    if x % 2 == 1 {
      OddPower(x);
      if x > 1 {
        assert (x - 1) / 2 == x / 2;
        SelfAnd(x / 2);
      }
    } else {
      PowerExactly(x / 2);
      DoubleIsPower(x / 2);
      assert (x - 1) / 2 == x / 2 - 1;
    }
  }

  lemma {:induction false} SelfAnd(x: nat)
    ensures BitAnd(x, x) == x
  {
    if x > 0 {
      SelfAnd(x / 2);
    }
  }

  /** Masking with `c - 1` is the remainder by `c`, for every number, if and only if `c` is a power of two. */
  lemma {:induction false} MaskExactly(c: nat)
    requires c > 0
    ensures (forall k: nat :: Masks(k, c)) <==> IsPowerOfTwo(c)
  {
    if m: nat :| c == Pow2(m) {
      forall k: nat
        ensures Masks(k, c)
      {
        MaskIsRemainder(k, m);
      }
    } else {
      PowerExactly(c);
      assert c % c == 0 && !Masks(c, c);
    }
  }

  method IsPowerOf2(number: nat) returns (yes: bool)
    ensures yes <==> IsPowerOfTwo(number)
  {
    if number == 0 {
      return false;
    }
    var d := number;
    while d != 1
      invariant d > 0 && (IsPowerOfTwo(d) <==> IsPowerOfTwo(number))
    {
      if d % 2 != 0 {
        OddPower(d);
        return false;
      }
      DoubleIsPower(d / 2);
      d := d / 2;
    }
    assert Pow2(0) == 1;
    return true;
  }
}

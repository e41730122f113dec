/** The order in which a hash bucket prefers its backends, as the consistent hash table defines it,
    and what that order promises when backends come and go. */
module ConsistentHash {
  import opened Primes
  import opened Counting
  import opened Preference

  const UINT32_RANGE: nat := 0x1_0000_0000

  /** Offset of a backend's list of buckets: 32-bit product, then reduced to a bucket. */
  function Offset(height: nat, backend: nat): (r: nat)
    requires 0 < height
    ensures r < height
  {
    (backend * 31) % UINT32_RANGE % height
  }

  /** Step of a backend's list of buckets: between 1 and height - 1. */
  function Shift(height: nat, backend: nat): (r: nat)
    requires 2 <= height
    ensures 0 < r < height
  {
    backend % (height - 1) + 1
  }

  /** The bucket a backend names at position `rank` of its list. */
  function Bucket(height: nat, backend: nat, rank: nat): (r: nat)
    requires 2 <= height
    ensures r < height
  {
    (Offset(height, backend) + Shift(height, backend) * rank) % height
  }

  /** A backend's list of buckets, most preferred first. */
  function List(height: nat, backend: nat): (list: seq<nat>)
    requires 2 <= height
    ensures |list| == height && forall r :: 0 <= r < height ==> list[r] == Bucket(height, backend, r)
  {
    seq(height, r requires 0 <= r < height => Bucket(height, backend, r))
  }

  /** For a prime height a backend's list names every bucket exactly once. */
  lemma {:induction false} ListIsPermutation(height: nat, backend: nat)
    requires IsPrime(height)
    ensures Distinct(List(height, backend))
    ensures forall k: nat :: k < height ==> k in List(height, backend)
  {
    var list := List(height, backend);
    forall i, j | 0 <= i < j < height
      ensures list[i] != list[j]
    {
      PrimeAffineIsInjective(Offset(height, backend), Shift(height, backend), height, i, j);
    }
    Pigeonhole(list, height);
  }

  lemma {:induction false} RankExists(height: nat, backend: nat, bucket: nat)
    requires IsPrime(height) && bucket < height
    ensures exists r: nat :: r < height && Bucket(height, backend, r) == bucket
  {
    ListIsPermutation(height, backend);
    var list := List(height, backend);
    assert bucket in list;
    var r :| 0 <= r < |list| && list[r] == bucket;
    assert Bucket(height, backend, r) == bucket;
  }

  /** The position of a bucket in a backend's list. */
  ghost function Rank(height: nat, backend: nat, bucket: nat): (r: nat)
    requires IsPrime(height) && bucket < height
    ensures r < height && Bucket(height, backend, r) == bucket
  {
    RankExists(height, backend, bucket);
    var r: nat :| r < height && Bucket(height, backend, r) == bucket;
    r
  }

  lemma {:induction false} RankIsUnique(height: nat, backend: nat, rank: nat)
    requires IsPrime(height) && rank < height
    ensures Rank(height, backend, Bucket(height, backend, rank)) == rank
  {
    var r := Rank(height, backend, Bucket(height, backend, rank));
    if r != rank {
      PrimeAffineIsInjective(Offset(height, backend), Shift(height, backend), height, r, rank);
    }
  }

  /** How a bucket ranks the backends: by the position it has in their lists. */
  ghost function RankIn(height: nat, bucket: nat): (rank: nat -> nat)
    requires IsPrime(height) && bucket < height
    ensures forall b :: rank(b) == Rank(height, b, bucket)
  {
    (b: nat) => Rank(height, b, bucket)
  }

  /** No active backend is left without a bucket, whichever backends are active. */
  ghost predicate NobodyStarves(height: nat, capacity: nat)
    requires IsPrime(height)
  {
    forall active: set<nat>, b: nat :: active <= Below(capacity) && b in active ==> Served(height, active, b)
  }

  ghost predicate Served(height: nat, active: set<nat>, b: nat)
    requires IsPrime(height)
  {
    exists k: nat :: k < height && IsChoice(RankIn(height, k), active, b)
  }

  lemma {:induction false} ThirtyOneIsPrime()
    ensures IsPrime(31)
  {
  }

  lemma {:induction false} NotAMultipleOf31(height: nat)
    requires IsPrime(height) && height != 31
    ensures 31 % height != 0
  {
    ThirtyOneIsPrime();
  }

  lemma {:induction false} OffsetsDiffer(height: nat, a: nat, b: nat)
    requires IsPrime(height) && height != 31 && a < b < height && b * 31 < UINT32_RANGE
    ensures Offset(height, a) != Offset(height, b)
  {
    NotAMultipleOf31(height);
    PrimeEuclidExactly(height, 31, b - a);
    MultiplesOf31Differ(height, a, b);
    OffsetBelow32Bits(height, a);
    OffsetBelow32Bits(height, b);
  }

  lemma {:induction false} MultiplesOf31Differ(height: nat, a: nat, b: nat)
    requires 0 < height && a < b && (31 * (b - a)) % height != 0
    ensures (b * 31) % height != (a * 31) % height
  {
    SameRemainder(b * 31, a * 31, height);
    assert b * 31 - a * 31 == 31 * (b - a);
  }

  lemma {:induction false} OffsetBelow32Bits(height: nat, b: nat)
    requires 0 < height && b * 31 < UINT32_RANGE
    ensures Offset(height, b) == (b * 31) % height
  {
    assert (b * 31) % UINT32_RANGE == b * 31;
  }

  lemma {:induction false} HeadsItsOffset(height: nat, capacity: nat, a: nat, b: nat)
    requires IsPrime(height) && height != 31 && capacity <= height && capacity * 31 <= UINT32_RANGE
    requires a < capacity && b < capacity && a != b
    ensures Before(RankIn(height, Offset(height, b)), b, a)
  {
    var k := Offset(height, b);
    FirstBucket(height, b);
    FirstBucket(height, a);
    RankIsUnique(height, b, 0);
    if a < b { OffsetsDiffer(height, a, b); } else { OffsetsDiffer(height, b, a); }
  }

  lemma {:induction false} FirstBucket(height: nat, b: nat)
    requires 2 <= height
    ensures Bucket(height, b, 0) == Offset(height, b)
  {
    assert Offset(height, b) + Shift(height, b) * 0 == height * 0 + Offset(height, b);
    RemainderIsUnique(Offset(height, b), height, 0, Offset(height, b));
  }

  lemma {:induction false} ListAtHeight31(b: nat)
    requires b < 30
    ensures Bucket(31, b, 0) == 0 && Bucket(31, b, 1) == b + 1
  {
    FirstBucket(31, b);
    assert Shift(31, b) == b + 1;
  }

  lemma {:induction false} WinsAtRankOne(height: nat, a: nat, b: nat, k: nat)
    requires IsPrime(height) && k < height && Bucket(height, b, 1) == k
    requires Bucket(height, a, 0) != k && Bucket(height, a, 1) != k
    ensures Before(RankIn(height, k), b, a)
  {
    RankIsUnique(height, b, 1);
    var r := Rank(height, a, k);
    assert r != 0 && r != 1;
  }

  lemma {:induction false} HeadsAtHeight31(height: nat, a: nat, b: nat)
    requires IsPrime(height) && height == 31 && a < 30 && b < 30 && a != b
    ensures Before(RankIn(height, b + 1), b, a)
  {
    ListAtHeight31(a);
    ListAtHeight31(b);
    WinsAtRankOne(height, a, b, b + 1);
  }

  lemma {:induction false} Serves(height: nat, capacity: nat, active: set<nat>, b: nat)
    requires IsPrime(height) && capacity <= height && capacity * 31 <= UINT32_RANGE
    requires !(height == 31 && capacity == 31)
    requires active <= Below(capacity) && b in active
    ensures Served(height, active, b)
  {
    assert b in Below(capacity);
    var k := if height == 31 then b + 1 else Offset(height, b);
    forall a | a in active && a != b
      ensures Before(RankIn(height, k), b, a)
    {
      assert a in Below(capacity);
      if height == 31 {
        HeadsAtHeight31(height, a, b);
      } else {
        HeadsItsOffset(height, capacity, a, b);
      }
    }
    assert IsChoice(RankIn(height, k), active, b);
  }

  /** Of two backends with the same list the one with the lower number always wins. */
  lemma {:induction false} TwinStarves(height: nat, a: nat, b: nat)
    requires IsPrime(height) && a < b
    requires Offset(height, a) == Offset(height, b) && Shift(height, a) == Shift(height, b)
    ensures !Served(height, {a, b}, b)
  {
    forall k: nat | k < height
      ensures !IsChoice(RankIn(height, k), {a, b}, b)
    {
      TwinRank(height, a, b, k);
      assert !Before(RankIn(height, k), b, a);
    }
  }

  /** At height 31 backend 30 has the very list of backend 0. */
  lemma {:induction false} StarvesAtHeight31(height: nat)
    requires IsPrime(height) && height == 31
    ensures !Served(height, {0, 30}, 30)
  {
    assert Offset(31, 0) == 0 && Offset(31, 30) == 0 && Shift(31, 0) == 1 && Shift(31, 30) == 1;
    TwinStarves(height, 0, 30);
  }

  lemma {:induction false} TwinRank(height: nat, a: nat, b: nat, k: nat)
    requires IsPrime(height) && k < height
    requires Offset(height, a) == Offset(height, b) && Shift(height, a) == Shift(height, b)
    ensures Rank(height, a, k) == Rank(height, b, k)
  {
    RankIsUnique(height, a, Rank(height, b, k));
  }

  /** With more backends than buckets somebody must starve. */
  lemma {:induction false} TooManyBackends(height: nat, capacity: nat)
    requires IsPrime(height) && NobodyStarves(height, capacity)
    ensures capacity <= height
  {
    var all := Below(capacity);
    forall b: nat | b < capacity
      ensures Served(height, all, b)
    {
      assert IsNat(b);
    }
    var home := seq(capacity, b requires 0 <= b < capacity => Home(height, all, b));
    forall i, j | 0 <= i < j < capacity
      ensures home[i] != home[j]
    {
      assert IsChoice(RankIn(height, home[i]), all, i) && IsChoice(RankIn(height, home[j]), all, j);
    }
    Pigeonhole(home, height);
  }

  ghost function Home(height: nat, active: set<nat>, b: nat): (k: nat)
    requires IsPrime(height) && Served(height, active, b)
    ensures k < height && IsChoice(RankIn(height, k), active, b)
  {
    var k: nat :| k < height && IsChoice(RankIn(height, k), active, b);
    k
  }

  lemma {:induction false} CapacityBelow32Bits(height: nat, capacity: nat)
    requires capacity <= height && height * capacity <= 0x7fff_ffff
    ensures capacity * 31 <= UINT32_RANGE
  {
    assert capacity * capacity <= height * capacity;
  }

  /** Exactly when no backend can starve: there are no more backends than buckets, and the table is
      not the one of height and capacity 31. */
  lemma {:induction false} StarvationExactly(height: nat, capacity: nat)
    requires IsPrime(height) && height * capacity <= 0x7fff_ffff
    ensures NobodyStarves(height, capacity) <==> capacity <= height && !(height == 31 && capacity == 31)
  {
    if capacity <= height && !(height == 31 && capacity == 31) {
      CapacityBelow32Bits(height, capacity);
      forall active: set<nat>, b: nat | active <= Below(capacity) && b in active
        ensures Served(height, active, b)
      {
        Serves(height, capacity, active, b);
      }
    } else if capacity > height {
      if NobodyStarves(height, capacity) { TooManyBackends(height, capacity); }
    } else {
      StarvesAtHeight31(height);
      var both: set<nat> := {0, 30};
      assert both <= Below(capacity);
    }
  }
}

/** The consistent hash table: one row per bucket, listing the backends the bucket prefers, best first. */
module HashTable {
  import opened Stamps
  import D = DoubleChain
  import opened Primes
  import opened Counting
  import opened Preference
  import opened ConsistentHash

  ghost predicate Ordered(row: seq<nat>, rank: nat -> nat) {
    forall p, q :: 0 <= p < q < |row| ==> Before(rank, row[p], row[q])
  }

  /** A finished row: all backends below the capacity, each once, in the order of the ranking. */
  ghost predicate IsRow(row: seq<nat>, rank: nat -> nat, capacity: nat) {
    && |row| == capacity
    && (forall b: nat :: b in row <==> b < capacity)
    && Ordered(row, rank)
  }

  lemma {:induction false} OrderedIsDistinct(row: seq<nat>, rank: nat -> nat)
    requires Ordered(row, rank)
    ensures Distinct(row)
  {
    forall p, q | 0 <= p < q < |row|
      ensures row[p] != row[q]
    {
      assert Before(rank, row[p], row[q]);
    }
  }

  /** A ranking leaves no freedom: two finished rows are equal. */
  lemma {:induction false} RowIsUnique(r: seq<nat>, s: seq<nat>, rank: nat -> nat)
    requires Ordered(r, rank) && Ordered(s, rank) && forall b: nat :: b in r <==> b in s
    ensures r == s
    decreases |r|
  {
    assert r == [] || r[0] in r;
    assert s == [] || s[0] in s;
    if r != [] && s != [] {
      HeadIsFirst(r, rank, s[0]);
      HeadIsFirst(s, rank, r[0]);
      assert r == [r[0]] + r[1..] && s == [s[0]] + s[1..];
      OrderedIsDistinct(r, rank);
      OrderedIsDistinct(s, rank);
      TailElements(r);
      TailElements(s);
      RowIsUnique(r[1..], s[1..], rank);
    }
  }

  lemma {:induction false} HeadIsFirst(r: seq<nat>, rank: nat -> nat, b: nat)
    requires Ordered(r, rank) && b in r
    ensures b == r[0] || Before(rank, r[0], b)
  {
    var q :| 0 <= q < |r| && r[q] == b;
  }

  lemma {:induction false} TailElements(r: seq<nat>)
    requires Distinct(r) && r != []
    ensures forall b: nat :: b in r[1..] <==> b in r && b != r[0]
  {
    assert r == [r[0]] + r[1..];
  }

  ghost predicate Earlier(rank: nat -> nat, b: nat, i: nat, j: nat) {
    rank(b) < i || (rank(b) == i && b < j)
  }

  /** A row as the filling loops leave it before they look at rank `i` of backend `j`. */
  ghost predicate RowSoFar(row: seq<nat>, rank: nat -> nat, capacity: nat, i: nat, j: nat) {
    && (forall b: nat :: b in row <==> b < capacity && Earlier(rank, b, i, j))
    && Ordered(row, rank)
  }

  lemma {:induction false} RowAppend(row: seq<nat>, rank: nat -> nat, capacity: nat, i: nat, j: nat)
    requires RowSoFar(row, rank, capacity, i, j) && rank(j) == i && j < capacity
    ensures |row| < capacity
    ensures RowSoFar(row + [j], rank, capacity, i, j + 1)
  {
    OrderedIsDistinct(row, rank);
    PigeonholeMissing(row, capacity, j);
    forall p, q | 0 <= p < q < |row + [j]|
      ensures Before(rank, (row + [j])[p], (row + [j])[q])
    {
      if q == |row| { assert row[p] in row; }
    }
    forall b: nat
      ensures b in row + [j] <==> b < capacity && Earlier(rank, b, i, j + 1)
    {
      assert b in row + [j] <==> b in row || b == j;
    }
  }

  lemma {:induction false} RowSkip(row: seq<nat>, rank: nat -> nat, capacity: nat, i: nat, j: nat)
    requires RowSoFar(row, rank, capacity, i, j) && rank(j) != i
    ensures RowSoFar(row, rank, capacity, i, j + 1)
  {
    forall b: nat
      ensures Earlier(rank, b, i, j) <==> Earlier(rank, b, i, j + 1)
    {
    }
  }

  lemma {:induction false} RowNextRank(row: seq<nat>, rank: nat -> nat, capacity: nat, i: nat)
    requires RowSoFar(row, rank, capacity, i, capacity)
    ensures RowSoFar(row, rank, capacity, i + 1, 0)
  {
    forall b: nat | b < capacity
      ensures Earlier(rank, b, i, capacity) <==> Earlier(rank, b, i + 1, 0)
    {
    }
  }

  lemma {:induction false} RowDone(row: seq<nat>, rank: nat -> nat, capacity: nat, height: nat)
    requires RowSoFar(row, rank, capacity, height, 0) && forall b :: rank(b) < height
    ensures IsRow(row, rank, capacity)
  {
    forall b: nat
      ensures Earlier(rank, b, height, 0)
    {
    }
    OrderedIsDistinct(row, rank);
    FullLength(row, capacity);
  }

  // ----- Cells of the table

  function Cell(capacity: nat, bucket: nat, priority: nat): (c: nat) {
    capacity * bucket + priority
  }

  lemma {:induction false} CellInBounds(height: nat, capacity: nat, bucket: nat, priority: nat)
    requires bucket < height && priority < capacity
    ensures Cell(capacity, bucket, priority) < height * capacity
  {
    ProductGrows(capacity, bucket + 1, height);
    assert capacity * (bucket + 1) == capacity * bucket + capacity;
    assert height * capacity == capacity * height;
  }

  lemma {:induction false} CellDecodes(capacity: nat, bucket: nat, priority: nat)
    requires priority < capacity
    ensures Cell(capacity, bucket, priority) / capacity == bucket
    ensures Cell(capacity, bucket, priority) % capacity == priority
  {
    RemainderIsUnique(Cell(capacity, bucket, priority), capacity, bucket, priority);
  }

  /** The table holds, for each bucket, the given rows at the start of the bucket's cells. */
  ghost predicate Holds(cht: seq<nat>, capacity: nat, rows: seq<seq<nat>>) {
    && |cht| == |rows| * capacity
    && forall k, p :: 0 <= k < |rows| && 0 <= p < |rows[k]| ==>
         Cell(capacity, k, p) < |cht| && cht[Cell(capacity, k, p)] == rows[k][p]
  }

  /** What filling promises: every bucket's row is the complete preference list of that bucket. */
  ghost predicate IsTable(cht: seq<nat>, height: nat, capacity: nat)
    requires IsPrime(height)
  {
    exists rows: seq<seq<nat>> :: |rows| == height && Holds(cht, capacity, rows) && AllRows(rows, height, capacity)
  }

  ghost predicate AllRows(rows: seq<seq<nat>>, height: nat, capacity: nat)
    requires IsPrime(height) && |rows| == height
  {
    forall k :: 0 <= k < height ==> IsRow(rows[k], RankIn(height, k), capacity)
  }

  /** The promise determines the table: there is only one way to fill it. */
  lemma {:induction false} TableIsUnique(c: seq<nat>, d: seq<nat>, height: nat, capacity: nat)
    requires IsPrime(height) && IsTable(c, height, capacity) && IsTable(d, height, capacity)
    ensures c == d
  {
    var rc :| |rc| == height && Holds(c, capacity, rc) && AllRows(rc, height, capacity);
    var rd :| |rd| == height && Holds(d, capacity, rd) && AllRows(rd, height, capacity);
    forall k | 0 <= k < height
      ensures rc[k] == rd[k]
    {
      RowIsUnique(rc[k], rd[k], RankIn(height, k));
    }
    assert rc == rd;
    SameRowsSameTable(c, d, capacity, rc);
  }

  lemma {:induction false} SameRowsSameTable(c: seq<nat>, d: seq<nat>, capacity: nat, rows: seq<seq<nat>>)
    requires Holds(c, capacity, rows) && Holds(d, capacity, rows)
    requires forall k :: 0 <= k < |rows| ==> |rows[k]| == capacity
    ensures c == d
  {
    forall x | 0 <= x < |c|
      ensures c[x] == d[x]
    {
      RowOfCell(|rows|, capacity, x);
      var k, p := x / capacity, x % capacity;
      assert c[Cell(capacity, k, p)] == rows[k][p] == d[Cell(capacity, k, p)];
    }
  }

  lemma {:induction false} RowOfCell(height: nat, capacity: nat, x: nat)
    requires x < height * capacity
    ensures 0 < capacity && x / capacity < height && x % capacity < capacity
    ensures x == Cell(capacity, x / capacity, x % capacity)
  {
    assert 0 < capacity by { assert height * 0 == 0; }
    ProductGrows(capacity, height, x / capacity);
  }

  // ----- Filling

  ghost predicate AllSoFar(rows: seq<seq<nat>>, height: nat, capacity: nat, i: nat, j: nat)
    requires IsPrime(height) && |rows| == height
  {
    forall k :: 0 <= k < height ==> RowSoFar(rows[k], RankIn(height, k), capacity, i, j)
  }

  ghost predicate Counts(next: seq<nat>, rows: seq<seq<nat>>) {
    |next| == |rows| && forall k :: 0 <= k < |rows| ==> next[k] == |rows[k]|
  }

  lemma {:induction false} HoldsAppend(cht: seq<nat>, capacity: nat, rows: seq<seq<nat>>, k: nat, b: nat)
    requires Holds(cht, capacity, rows) && k < |rows| && |rows[k]| < capacity
    requires forall x :: 0 <= x < |rows| ==> |rows[x]| <= capacity
    ensures Cell(capacity, k, |rows[k]|) < |cht|
    ensures Holds(cht[Cell(capacity, k, |rows[k]|) := b], capacity, rows[k := rows[k] + [b]])
  {
    CellInBounds(|rows|, capacity, k, |rows[k]|);
    var c := Cell(capacity, k, |rows[k]|);
    var rows' := rows[k := rows[k] + [b]];
    CellDecodes(capacity, k, |rows[k]|);
    forall x, p | 0 <= x < |rows'| && 0 <= p < |rows'[x]|
      ensures Cell(capacity, x, p) < |cht| && cht[c := b][Cell(capacity, x, p)] == rows'[x][p]
    {
      CellDecodes(capacity, x, p);
      CellInBounds(|rows|, capacity, x, p);
    }
  }

  lemma {:induction false} RowsAppend(rows: seq<seq<nat>>, height: nat, capacity: nat, i: nat, j: nat)
    requires IsPrime(height) && |rows| == height && i < height && j < capacity
    requires AllSoFar(rows, height, capacity, i, j)
    ensures
      var k := Bucket(height, j, i);
      |rows[k]| < capacity && AllSoFar(rows[k := rows[k] + [j]], height, capacity, i, j + 1)
  {
    var k := Bucket(height, j, i);
    RankIsUnique(height, j, i);
    RowAppend(rows[k], RankIn(height, k), capacity, i, j);
    forall x | 0 <= x < height && x != k
      ensures RowSoFar(rows[x], RankIn(height, x), capacity, i, j + 1)
    {
      assert RankIn(height, x)(j) != i;
      RowSkip(rows[x], RankIn(height, x), capacity, i, j);
    }
  }

  lemma {:induction false} RowsNextRank(rows: seq<seq<nat>>, height: nat, capacity: nat, i: nat)
    requires IsPrime(height) && |rows| == height && AllSoFar(rows, height, capacity, i, capacity)
    ensures AllSoFar(rows, height, capacity, i + 1, 0)
  {
    forall x | 0 <= x < height
      ensures RowSoFar(rows[x], RankIn(height, x), capacity, i + 1, 0)
    {
      RowNextRank(rows[x], RankIn(height, x), capacity, i);
    }
  }

  lemma {:induction false} RowsDone(rows: seq<seq<nat>>, height: nat, capacity: nat)
    requires IsPrime(height) && |rows| == height && AllSoFar(rows, height, capacity, height, 0)
    ensures AllRows(rows, height, capacity)
  {
    forall x | 0 <= x < height
      ensures IsRow(rows[x], RankIn(height, x), capacity)
    {
      RowDone(rows[x], RankIn(height, x), capacity, height);
    }
  }

  lemma {:induction false} RowsBounded(rows: seq<seq<nat>>, height: nat, capacity: nat, i: nat, j: nat)
    requires IsPrime(height) && |rows| == height && AllSoFar(rows, height, capacity, i, j)
    ensures forall x :: 0 <= x < height ==> |rows[x]| <= capacity
  {
    forall x | 0 <= x < height
      ensures |rows[x]| <= capacity
    {
      OrderedIsDistinct(rows[x], RankIn(height, x));
      Pigeonhole(rows[x], capacity);
    }
  }

  lemma {:induction false} RowsEmpty(height: nat, capacity: nat)
    requires IsPrime(height)
    ensures AllSoFar(seq(height, _ => []), height, capacity, 0, 0)
  {
  }

  /** The lists of the first `n` backends, and the first `m` entries of the next one, are in place. */
  ghost predicate Listed(permutations: seq<nat>, height: nat, n: nat, m: nat)
    requires 2 <= height
  {
    forall b: nat, r: nat :: r < height && (b < n || (b == n && r < m)) ==>
      Cell(height, b, r) < |permutations| && permutations[Cell(height, b, r)] == Bucket(height, b, r)
  }

  lemma {:induction false} ListedAppend(permutations: seq<nat>, height: nat, capacity: nat, i: nat, j: nat)
    requires 2 <= height && |permutations| == height * capacity && i < capacity && j < height
    requires Listed(permutations, height, i, j)
    ensures Cell(height, i, j) < |permutations|
    ensures Listed(permutations[Cell(height, i, j) := Bucket(height, i, j)], height, i, j + 1)
  {
    CellInBounds(capacity, height, i, j);
    CellIsAlone(height, i, j);
  }

  lemma {:induction false} ListedNext(permutations: seq<nat>, height: nat, i: nat)
    requires 2 <= height && Listed(permutations, height, i, height)
    ensures Listed(permutations, height, i + 1, 0)
  {
  }

  /** First phase: every backend's list of buckets, one after the other. */
  method Permutations(height: nat, capacity: nat) returns (permutations: array<nat>)
    requires IsPrime(height)
    ensures fresh(permutations) && permutations.Length == height * capacity
    ensures Listed(permutations[..], height, capacity, 0)
  {
    permutations := new nat[height * capacity];
    var i: nat := 0;
    while i < capacity
      invariant i <= capacity
      invariant Listed(permutations[..], height, i, 0)
    {
      var offset := Offset(height, i);
      var shift := Shift(height, i);
      var j: nat := 0;
      while j < height
        invariant j <= height
        invariant Listed(permutations[..], height, i, j)
      {
        ListedAppend(permutations[..], height, capacity, i, j);
        ghost var before := permutations[..];
        var permut := (offset + shift * j) % height;
        permutations[Cell(height, i, j)] := permut;
        assert permutations[..] == before[Cell(height, i, j) := Bucket(height, i, j)];
        j := j + 1;
      }
      ListedNext(permutations[..], height, i);
      i := i + 1;
    }
  }

  ghost predicate OnlyCell(width: nat, i: nat, j: nat) {
    forall b: nat, r: nat :: r < width && Cell(width, b, r) == Cell(width, i, j) ==> b == i && r == j
  }

  lemma {:induction false} CellIsAlone(width: nat, i: nat, j: nat)
    requires j < width
    ensures OnlyCell(width, i, j)
  {
    CellDecodes(width, i, j);
    forall b: nat, r: nat | r < width && Cell(width, b, r) == Cell(width, i, j)
      ensures b == i && r == j
    {
      CellDecodes(width, b, r);
    }
  }

  /** Cells written so far, in order: no cell twice, and only cells already counted by `next`. */
  ghost predicate Logged(writes: seq<nat>, rows: seq<seq<nat>>, capacity: nat) {
    && Distinct(writes)
    && forall w :: w in writes ==> 0 < capacity && w / capacity < |rows| && w % capacity < |rows[w / capacity]|
  }

  lemma {:induction false} LogAppend(writes: seq<nat>, rows: seq<seq<nat>>, capacity: nat, k: nat, b: nat)
    requires Logged(writes, rows, capacity) && k < |rows| && |rows[k]| < capacity
    ensures Logged(writes + [Cell(capacity, k, |rows[k]|)], rows[k := rows[k] + [b]], capacity)
  {
    var c, rows' := Cell(capacity, k, |rows[k]|), rows[k := rows[k] + [b]];
    CellDecodes(capacity, k, |rows[k]|);
    assert c !in writes;
    forall w | w in writes + [c]
      ensures 0 < capacity && w / capacity < |rows'| && w % capacity < |rows'[w / capacity]|
    {
      assert w == c || w in writes;
    }
  }

  lemma {:induction false} LogInBounds(writes: seq<nat>, rows: seq<seq<nat>>, capacity: nat)
    requires Logged(writes, rows, capacity) && forall x :: 0 <= x < |rows| ==> |rows[x]| <= capacity
    ensures forall w :: w in writes ==> w < |rows| * capacity
  {
    forall w | w in writes
      ensures w < |rows| * capacity
    {
      CellInBounds(|rows|, capacity, w / capacity, w % capacity);
      assert w == Cell(capacity, w / capacity, w % capacity);
    }
  }

  /** The state of the filling loops before they look at rank `i` of backend `j`. */
  ghost predicate Filled(cht: seq<nat>, next: seq<nat>, rows: seq<seq<nat>>, writes: seq<nat>,
                         height: nat, capacity: nat, i: nat, j: nat)
    requires IsPrime(height)
  {
    && |rows| == height
    && Holds(cht, capacity, rows)
    && Counts(next, rows)
    && Logged(writes, rows, capacity)
    && AllSoFar(rows, height, capacity, i, j)
    && |writes| == i * capacity + j
  }

  lemma {:induction false} FilledAppend(cht: seq<nat>, next: seq<nat>, rows: seq<seq<nat>>, writes: seq<nat>,
                     height: nat, capacity: nat, i: nat, j: nat)
    requires IsPrime(height) && i < height && j < capacity
    requires Filled(cht, next, rows, writes, height, capacity, i, j)
    ensures
      var k := Bucket(height, j, i);
      var c := Cell(capacity, k, next[k]);
      c < |cht| &&
      Filled(cht[c := j], next[k := next[k] + 1], rows[k := rows[k] + [j]], writes + [c], height, capacity, i, j + 1)
  {
    var k := Bucket(height, j, i);
    RowsAppend(rows, height, capacity, i, j);
    RowsBounded(rows, height, capacity, i, j);
    HoldsAppend(cht, capacity, rows, k, j);
    LogAppend(writes, rows, capacity, k, j);
  }

  lemma {:induction false} FilledNext(cht: seq<nat>, next: seq<nat>, rows: seq<seq<nat>>, writes: seq<nat>,
                   height: nat, capacity: nat, i: nat)
    requires IsPrime(height) && Filled(cht, next, rows, writes, height, capacity, i, capacity)
    ensures Filled(cht, next, rows, writes, height, capacity, i + 1, 0)
  {
    RowsNextRank(rows, height, capacity, i);
    assert i * capacity + capacity == (i + 1) * capacity;
  }

  lemma {:induction false} FilledDone(cht: seq<nat>, next: seq<nat>, rows: seq<seq<nat>>, writes: seq<nat>,
                   height: nat, capacity: nat)
    requires IsPrime(height) && Filled(cht, next, rows, writes, height, capacity, height, 0)
    ensures IsTable(cht, height, capacity)
    ensures forall k :: 0 <= k < |next| ==> next[k] == capacity
    ensures |writes| == |cht| && Distinct(writes) && forall w :: w in writes ==> w < |cht|
  {
    RowsDone(rows, height, capacity);
    RowsBounded(rows, height, capacity, height, 0);
    LogInBounds(writes, rows, capacity);
  }

  /** Fills the table. `writes` records the cells in the order they are written: every cell once. */
  method Fill(cht: array<nat>, height: nat, capacity: nat) returns (ghost writes: seq<nat>)
    requires IsPrime(height) && height * capacity <= 0x7fff_ffff
    requires cht.Length == height * capacity
    modifies cht
    ensures IsTable(cht[..], height, capacity)
    ensures |writes| == cht.Length && Distinct(writes) && forall w :: w in writes ==> w < cht.Length
  {
    var permutations := Permutations(height, capacity);
    var next := new nat[height](_ => 0);
    ghost var rows: seq<seq<nat>> := seq(height, _ => []);
    writes := [];
    RowsEmpty(height, capacity);
    var i: nat := 0;
    while i < height
      invariant i <= height
      invariant Filled(cht[..], next[..], rows, writes, height, capacity, i, 0)
      invariant Listed(permutations[..], height, capacity, 0)
    {
      var j: nat := 0;
      while j < capacity
        invariant j <= capacity
        invariant Filled(cht[..], next[..], rows, writes, height, capacity, i, j)
        invariant Listed(permutations[..], height, capacity, 0)
      {
        FilledAppend(cht[..], next[..], rows, writes, height, capacity, i, j);
        ghost var cht0, next0 := cht[..], next[..];
        assert permutations[..][Cell(height, j, i)] == Bucket(height, j, i);
        var bucket := permutations[Cell(height, j, i)];
        var priority := next[bucket];
        next[bucket] := priority + 1;
        assert next[..] == next0[bucket := priority + 1];
        cht[Cell(capacity, bucket, priority)] := j;
        assert cht[..] == cht0[Cell(capacity, bucket, priority) := j];
        writes := writes + [Cell(capacity, bucket, priority)];
        rows := rows[bucket := rows[bucket] + [j]];
        j := j + 1;
      }
      FilledNext(cht[..], next[..], rows, writes, height, capacity, i);
      i := i + 1;
    }
    FilledDone(cht[..], next[..], rows, writes, height, capacity);
  }

  // ----- Looking up

  /** The first active backend in the row of the hash's bucket. */
  method FindPreferred(hash: nat, cht: array<nat>, active: D.DoubleChain, height: nat, capacity: nat)
    returns (found: bool, chosen: nat)
    requires IsPrime(height) && IsTable(cht[..], height, capacity)
    requires active.Valid() && active.times.Length == capacity
    ensures found <==> Indexes(active.stamps) != {}
    ensures found ==> chosen == Choice(RankIn(height, hash % height), Indexes(active.stamps))
  {
    var start := hash % height;
    ghost var rows: seq<seq<nat>> :|
      |rows| == height && Holds(cht[..], capacity, rows) && AllRows(rows, height, capacity);
    ghost var row, rank := rows[start], RankIn(height, start);
    ghost var alive := Indexes(active.stamps);
    active.IndexesBelow();
    found, chosen := false, 0;
    var i: nat := 0;
    while i < capacity
      invariant i <= capacity
      invariant forall p :: 0 <= p < i ==> row[p] !in alive
    {
      assert cht[..][Cell(capacity, start, i)] == row[i];
      var candidate := cht[start * capacity + i];
      assert row[i] in row;
      var taken := active.IsIndexAllocated(candidate);
      if taken {
        FirstIsChoice(row, rank, capacity, alive, i);
        ChoiceIsUnique(rank, alive, candidate, Choice(rank, alive));
        return true, candidate;
      }
      i := i + 1;
    }
    assert forall b :: b in alive ==> b in Below(capacity) && b in row;
  }

  lemma {:induction false} FirstIsChoice(row: seq<nat>, rank: nat -> nat, capacity: nat, active: set<nat>, i: nat)
    requires IsRow(row, rank, capacity) && active <= Below(capacity)
    requires i < |row| && row[i] in active && forall p :: 0 <= p < i ==> row[p] !in active
    ensures IsChoice(rank, active, row[i])
  {
    forall a | a in active && a != row[i]
      ensures Before(rank, row[i], a)
    {
      assert a in Below(capacity);
      assert a in row;
      var p :| 0 <= p < |row| && row[p] == a;
      assert i < p;
    }
  }
}

/** Open addressing: keys in a circle of cells, each as near after its hash as room allowed, and for every cell a
    count of the keys that were placed by passing over it. */
module Probing {
  import opened Options
  import P = Primes

  function Wrap(x: nat, n: nat): (r: nat)
    requires x < 2 * n
    ensures r < n
  {
    if x < n then x else x - n
  }

  lemma {:induction false} WrapIsRemainder(x: nat, n: nat)
    requires x < 2 * n
    ensures x % n == Wrap(x, n)
  {
    P.RemainderIsUnique(x, n, if x < n then 0 else 1, Wrap(x, n));
  }

  /** How far cell `j` lies after `start`, going round. */
  function Dist(start: nat, j: nat, n: nat): (d: nat)
    requires start < n && j < n
    ensures d < n && Wrap(start + d, n) == j
  {
    if j >= start then j - start else j + n - start
  }

  lemma {:induction false} DistOfWrap(start: nat, p: nat, n: nat)
    requires start < n && p < n
    ensures Dist(start, Wrap(start + p, n), n) == p
  {
  }

  function Start<K>(hash: K -> nat, k: K, n: nat): (s: nat)
    requires n > 0
    ensures s < n
  {
    hash(k) % n
  }

  /** The key in cell `i` was placed by passing over cell `j`. */
  ghost predicate Passes<K>(hash: K -> nat, cells: seq<Option<K>>, i: nat, j: nat)
    requires i < |cells| && j < |cells|
  {
    cells[i].Some? &&
    var s := Start(hash, cells[i].value, |cells|);
    Dist(s, j, |cells|) < Dist(s, i, |cells|)
  }

  ghost function Passing<K>(hash: K -> nat, cells: seq<Option<K>>, j: nat): (r: set<nat>)
    requires j < |cells|
  {
    set i: nat | i < |cells| && Passes(hash, cells, i, j)
  }

  /** The counts are the numbers of keys that passed over the cells. */
  ghost predicate Counted<K>(hash: K -> nat, cells: seq<Option<K>>, chains: seq<nat>) {
    |chains| == |cells| && forall j :: 0 <= j < |cells| ==> chains[j] == |Passing(hash, cells, j)|
  }

  ghost predicate NoDuplicates<K>(cells: seq<Option<K>>) {
    forall i, j :: 0 <= i < j < |cells| && cells[i].Some? ==> cells[i] != cells[j]
  }

  /** The cells hold exactly the keys of a map, and the values theirs. */
  ghost predicate Holds<K>(cells: seq<Option<K>>, vals: seq<nat>, m: map<K, nat>) {
    && |vals| == |cells|
    && (forall i :: 0 <= i < |cells| && cells[i].Some? ==> cells[i].value in m && m[cells[i].value] == vals[i])
    && (forall k :: k in m ==> Some(k) in cells)
  }

  lemma {:induction false} PassingPut<K>(hash: K -> nat, cells: seq<Option<K>>, e: nat, k: K, j: nat)
    requires e < |cells| && cells[e].None? && j < |cells|
    ensures |Passing(hash, cells[e := Some(k)], j)|
         == |Passing(hash, cells, j)| + if Passes(hash, cells[e := Some(k)], e, j) then 1 else 0
  {
    var cells' := cells[e := Some(k)];
    var before, after := Passing(hash, cells, j), Passing(hash, cells', j);
    forall i: nat | i < |cells| && i != e
      ensures Passes(hash, cells', i, j) <==> Passes(hash, cells, i, j)
    {
    }
    assert e !in before;
    if Passes(hash, cells', e, j) {
      assert after == before + {e};
    } else {
      assert after == before;
    }
  }

  /** A cell that a present key passed over has a positive count. */
  lemma {:induction false} PassedIsCounted<K>(hash: K -> nat, cells: seq<Option<K>>, chains: seq<nat>, i: nat, j: nat)
    requires Counted(hash, cells, chains) && i < |cells| && j < |cells| && Passes(hash, cells, i, j)
    ensures chains[j] > 0
  {
    assert i in Passing(hash, cells, j);
  }

  /** Placing a key counts it on every cell it passes over. */
  lemma {:induction false} PutCounts<K>(hash: K -> nat, cells: seq<Option<K>>, chains: seq<nat>, chains': seq<nat>,
                                        e: nat, k: K)
    requires Counted(hash, cells, chains) && e < |cells| && cells[e].None? && |chains'| == |chains|
    requires var s, n := Start(hash, k, |cells|), |cells|;
             forall j :: 0 <= j < n ==> chains'[j] == chains[j] + if Dist(s, j, n) < Dist(s, e, n) then 1 else 0
    ensures Counted(hash, cells[e := Some(k)], chains')
  {
    var cells' := cells[e := Some(k)];
    forall j | 0 <= j < |cells'|
      ensures chains'[j] == |Passing(hash, cells', j)|
    {
      PassingPut(hash, cells, e, k, j);
    }
  }

  /** Taking a key away uncounts it on every cell it passed over. */
  lemma {:induction false} EraseCounts<K>(hash: K -> nat, cells: seq<Option<K>>, chains: seq<nat>, chains': seq<nat>,
                                          e: nat, k: K)
    requires Counted(hash, cells, chains) && e < |cells| && cells[e] == Some(k) && |chains'| == |chains|
    requires var s, n := Start(hash, k, |cells|), |cells|;
             forall j :: 0 <= j < n ==> chains[j] == chains'[j] + if Dist(s, j, n) < Dist(s, e, n) then 1 else 0
    ensures Counted(hash, cells[e := None], chains')
  {
    var cells' := cells[e := None];
    assert cells'[e := Some(k)] == cells;
    forall j | 0 <= j < |cells'|
      ensures chains'[j] == |Passing(hash, cells', j)|
    {
      PassingPut(hash, cells', e, k, j);
    }
  }

  lemma {:induction false} EmptyCounts<K>(hash: K -> nat, cells: seq<Option<K>>, chains: seq<nat>)
    requires |chains| == |cells| && (forall i :: 0 <= i < |cells| ==> cells[i].None? && chains[i] == 0)
    ensures Counted(hash, cells, chains)
  {
    forall j | 0 <= j < |cells|
      ensures |Passing(hash, cells, j)| == 0
    {
      assert Passing(hash, cells, j) == {};
    }
  }

  lemma {:induction false} PutHolds<K>(cells: seq<Option<K>>, vals: seq<nat>, m: map<K, nat>, e: nat, k: K, v: nat)
    requires Holds(cells, vals, m) && NoDuplicates(cells) && e < |cells| && cells[e].None? && k !in m
    ensures Holds(cells[e := Some(k)], vals[e := v], m[k := v]) && NoDuplicates(cells[e := Some(k)])
  {
    var cells', m' := cells[e := Some(k)], m[k := v];
    forall x | x in m'
      ensures Some(x) in cells'
    {
      if x == k {
        assert cells'[e] == Some(x);
      } else {
        var i :| 0 <= i < |cells| && cells[i] == Some(x);
        assert cells'[i] == Some(x);
      }
    }
  }

  lemma {:induction false} EraseHolds<K>(cells: seq<Option<K>>, vals: seq<nat>, m: map<K, nat>, e: nat, k: K)
    requires Holds(cells, vals, m) && NoDuplicates(cells) && e < |cells| && cells[e] == Some(k)
    ensures Holds(cells[e := None], vals, m - {k}) && NoDuplicates(cells[e := None])
  {
    var cells', m' := cells[e := None], m - {k};
    forall x | x in m'
      ensures Some(x) in cells'
    {
      var i :| 0 <= i < |cells| && cells[i] == Some(x);
      assert cells'[i] == Some(x);
    }
    forall i | 0 <= i < |cells'| && cells'[i].Some?
      ensures cells'[i].value in m' && m'[cells'[i].value] == vals[i]
    {
      assert cells[i] != cells[e];
    }
  }

  // ----- Looking for a key

  /** The cell that a search for a key comes to after `q` steps. */
  ghost function Probe<K>(hash: K -> nat, k: K, n: nat, q: nat): (i: nat)
    requires q < n
    ensures i < n && Dist(Start(hash, k, n), i, n) == q
  {
    DistOfWrap(Start(hash, k, n), q, n);
    Wrap(Start(hash, k, n) + q, n)
  }

  lemma {:induction false} ProbeReaches<K>(hash: K -> nat, k: K, n: nat, i: nat)
    requires i < n
    ensures Probe(hash, k, n, Dist(Start(hash, k, n), i, n)) == i
  {
  }

  /** The first `p` cells that a search for a key comes to do not hold it. */
  ghost predicate NotYet<K>(hash: K -> nat, cells: seq<Option<K>>, k: K, p: nat) {
    p <= |cells| && forall q: nat :: q < p ==> cells[Probe(hash, k, |cells|, q)] != Some(k)
  }

  /** A search that has gone all the way round has missed nothing. */
  lemma {:induction false} AllRound<K>(hash: K -> nat, cells: seq<Option<K>>, k: K)
    requires NotYet(hash, cells, k, |cells|)
    ensures Some(k) !in cells
  {
    forall i | 0 <= i < |cells|
      ensures cells[i] != Some(k)
    {
      ProbeReaches(hash, k, |cells|, i);
    }
  }

  /** A present key that has not been met yet has passed over the cells so far. */
  lemma {:induction false} StillAhead<K>(hash: K -> nat, cells: seq<Option<K>>, k: K, p: nat, i: nat)
    requires p < |cells| && NotYet(hash, cells, k, p + 1) && i < |cells| && cells[i] == Some(k)
    ensures Passes(hash, cells, i, Probe(hash, k, |cells|, p))
  {
    ProbeReaches(hash, k, |cells|, i);
  }

  /** A cell with count zero that does not hold the key ends the search. */
  lemma {:induction false} ChainEnds<K>(hash: K -> nat, cells: seq<Option<K>>, chains: seq<nat>, k: K, p: nat)
    requires Counted(hash, cells, chains) && p < |cells| && NotYet(hash, cells, k, p + 1)
    requires chains[Probe(hash, k, |cells|, p)] == 0
    ensures Some(k) !in cells
  {
    forall i: nat | i < |cells|
      ensures cells[i] != Some(k)
    {
      if cells[i] == Some(k) {
        StillAhead(hash, cells, k, p, i);
        PassedIsCounted(hash, cells, chains, i, Probe(hash, k, |cells|, p));
      }
    }
  }

  // ----- Sizes

  ghost function KeysIn<K>(cells: seq<Option<K>>, n: nat): (r: set<K>)
    requires n <= |cells|
  {
    set i | 0 <= i < n && cells[i].Some? :: cells[i].value
  }

  /** As many keys as occupied cells. */
  lemma {:induction false} KeysCount<K>(cells: seq<Option<K>>, n: nat)
    requires n <= |cells| && NoDuplicates(cells)
    ensures |KeysIn(cells, n)| == Occupied(cells, n)
  {
    if n > 0 {
      KeysCount(cells, n - 1);
      if cells[n - 1].Some? {
        assert KeysIn(cells, n) == KeysIn(cells, n - 1) + {cells[n - 1].value};
        assert cells[n - 1].value !in KeysIn(cells, n - 1);
      } else {
        assert KeysIn(cells, n) == KeysIn(cells, n - 1);
      }
    }
  }

  function Occupied<K>(cells: seq<Option<K>>, n: nat): (r: nat)
    requires n <= |cells|
    ensures r <= n
  {
    if n == 0 then 0 else Occupied(cells, n - 1) + if cells[n - 1].Some? then 1 else 0
  }

  lemma {:induction false} MapSize<K>(cells: seq<Option<K>>, vals: seq<nat>, m: map<K, nat>)
    requires NoDuplicates(cells) && Holds(cells, vals, m)
    ensures |m| == Occupied(cells, |cells|)
  {
    KeysCount(cells, |cells|);
    forall k | k in m
      ensures k in KeysIn(cells, |cells|)
    {
      var i :| 0 <= i < |cells| && cells[i] == Some(k);
    }
    assert KeysIn(cells, |cells|) == m.Keys && |m| == |m.Keys|;
  }

  lemma {:induction false} AllOccupied<K>(cells: seq<Option<K>>, n: nat)
    requires n <= |cells| && forall i :: 0 <= i < n ==> cells[i].Some?
    ensures Occupied(cells, n) == n
  {
    if n > 0 {
      AllOccupied(cells, n - 1);
    }
  }
}

/** The hash map: open addressing over parallel arrays, with chain counters that tell a search when to stop. */
module HashMap {
  import opened Options
  import opened Probing

  /** The remainder, taken twice. */
  method Loop(k: nat, capacity: nat) returns (r: nat)
    requires capacity > 0
    ensures r == k % capacity < capacity
  {
    var g := k % capacity;
    WrapIsRemainder(g + capacity, capacity);
    r := (g + capacity) % capacity;
  }

  /** What the arrays say about one cell. */
  ghost predicate IsCell<K>(hash: K -> nat, cell: Option<K>, busy: bool, key: K, keyHash: nat) {
    busy == cell.Some? && (busy ==> cell.value == key && keyHash == hash(key))
  }

  ghost predicate AreCells<K>(hash: K -> nat, cells: seq<Option<K>>, busy: seq<bool>, keys: seq<K>, hashes: seq<nat>) {
    && |busy| == |keys| == |hashes| == |cells|
    && forall i :: 0 <= i < |cells| ==> IsCell(hash, cells[i], busy[i], keys[i], hashes[i])
  }

  /** Every cell from `start` on, up to cell `e`, has been counted down by one. */
  ghost predicate Uncounted(chains: seq<nat>, chains': seq<nat>, start: nat, e: nat) {
    && |chains| == |chains'| && start < |chains| && e < |chains|
    && forall j :: 0 <= j < |chains| ==>
         chains[j] == chains'[j] + if Dist(start, j, |chains|) < Dist(start, e, |chains|) then 1 else 0
  }

  /** The first `n` cells from `start` are in use. */
  ghost predicate BusyUpTo(busy: seq<bool>, start: nat, n: nat) {
    start < |busy| && forall j :: 0 <= j < |busy| && Dist(start, j, |busy|) < n ==> busy[j]
  }

  /** On the first `i` cells from `start`, and on no others, the first counters are one more than the second. */
  ghost predicate OneMore(chains: seq<nat>, chains': seq<nat>, start: nat, i: nat) {
    && |chains| == |chains'| && start < |chains|
    && forall j :: 0 <= j < |chains| ==> chains[j] == chains'[j] + if Dist(start, j, |chains|) < i then 1 else 0
  }

  lemma {:induction false} CountUp(chains: seq<nat>, chains': seq<nat>, busy: seq<bool>, start: nat, i: nat, index: nat)
    requires OneMore(chains, chains', start, i) && BusyUpTo(busy, start, i) && |busy| == |chains| && i < |chains|
    requires index == Wrap(start + i, |chains|) && busy[index]
    ensures OneMore(chains[index := chains[index] + 1], chains', start, i + 1) && BusyUpTo(busy, start, i + 1)
  {
    DistOfWrap(start, i, |chains|);
  }

  lemma {:induction false} CountDown(chains: seq<nat>, chains': seq<nat>, start: nat, i: nat, index: nat)
    requires OneMore(chains, chains', start, i) && i < |chains| && index == Wrap(start + i, |chains|)
    requires chains[index] > 0
    ensures chains'[index] > 0 && OneMore(chains, chains'[index := chains'[index] - 1], start, i + 1)
  {
    DistOfWrap(start, i, |chains|);
  }

  /** A present key that has not been met yet is counted on the cell just passed. */
  lemma {:induction false} KeyIsAhead<K>(hash: K -> nat, cells: seq<Option<K>>, chains: seq<nat>, k: K, i: nat)
    requires Counted(hash, cells, chains) && i < |cells| && NotYet(hash, cells, k, i) && Some(k) in cells
    requires cells[Probe(hash, k, |cells|, i)] != Some(k)
    ensures NotYet(hash, cells, k, i + 1) && chains[Probe(hash, k, |cells|, i)] > 0
  {
    var home: nat :| home < |cells| && cells[home] == Some(k);
    StillAhead(hash, cells, k, i, home);
    PassedIsCounted(hash, cells, chains, home, Probe(hash, k, |cells|, i));
  }

  lemma {:induction false} PlaceKey<K>(hash: K -> nat, cells: seq<Option<K>>, busy: seq<bool>, keys: seq<K>,
                                       hashes: seq<nat>, chains: seq<nat>, chains': seq<nat>, vals: seq<nat>,
                                       m: map<K, nat>, e: nat, k: K, v: nat)
    requires AreCells(hash, cells, busy, keys, hashes) && Counted(hash, cells, chains)
    requires NoDuplicates(cells) && Holds(cells, vals, m)
    requires e < |cells| && !busy[e] && k !in m && Uncounted(chains', chains, Start(hash, k, |cells|), e)
    ensures var cells' := cells[e := Some(k)];
            && AreCells(hash, cells', busy[e := true], keys[e := k], hashes[e := hash(k)])
            && Counted(hash, cells', chains') && NoDuplicates(cells') && Holds(cells', vals[e := v], m[k := v])
  {
    assert IsCell(hash, cells[e], busy[e], keys[e], hashes[e]);
    PutCounts(hash, cells, chains, chains', e, k);
    PutHolds(cells, vals, m, e, k, v);
  }

  lemma {:induction false} RemoveKey<K>(hash: K -> nat, cells: seq<Option<K>>, busy: seq<bool>, keys: seq<K>,
                                        hashes: seq<nat>, chains: seq<nat>, chains': seq<nat>, vals: seq<nat>,
                                        m: map<K, nat>, e: nat, k: K)
    requires AreCells(hash, cells, busy, keys, hashes) && Counted(hash, cells, chains)
    requires NoDuplicates(cells) && Holds(cells, vals, m)
    requires e < |cells| && cells[e] == Some(k) && Uncounted(chains, chains', Start(hash, k, |cells|), e)
    ensures var cells' := cells[e := None];
            && AreCells(hash, cells', busy[e := false], keys, hashes)
            && Counted(hash, cells', chains') && NoDuplicates(cells') && Holds(cells', vals, m - {k})
  {
    EraseCounts(hash, cells, chains, chains', e, k);
    EraseHolds(cells, vals, m, e, k);
  }

  /** The cell that lies `i` cells after `start`. */
  method CellAfter(start: nat, i: nat, capacity: nat) returns (index: nat)
    requires start < capacity && i < capacity
    ensures index == Wrap(start + i, capacity)
  {
    WrapIsRemainder(start + i, capacity);
    index := Loop(start + i, capacity);
  }

  class HashMap<K(==)> {
    const capacity: nat
    const hash: K -> nat
    const busy: array<bool>
    const keys: array<K>
    const hashes: array<nat>
    const chains: array<nat>
    const vals: array<nat>
    ghost var cells: seq<Option<K>>
    ghost var contents: map<K, nat>

    /** The objects a map is made of. */
    ghost const repr: set<object>

    /** No two of the arrays are the same one, whatever the type of keys. */
    ghost predicate Separate() {
      var k: object := keys;
      && k != busy && k != hashes && k != chains && k != vals
      && chains != hashes && chains != vals && hashes != vals
    }

    /** The arrays are the cells, and the counts are right. */
    ghost predicate Searchable()
      reads this, busy, keys, hashes, chains
    {
      && capacity > 0 && |cells| == capacity && Separate()
      && busy.Length == keys.Length == hashes.Length == chains.Length == capacity
      && AreCells(hash, cells, busy[..], keys[..], hashes[..]) && Counted(hash, cells, chains[..])
    }

    /** The cells have no duplicates, and hold the contents. */
    ghost predicate Linked()
      reads this, busy, keys, hashes, chains, vals
    {
      && repr == {this, busy, keys, hashes, chains, vals}
      && Searchable() && vals.Length == capacity && NoDuplicates(cells) && Holds(cells, vals[..], contents)
    }

    ghost predicate Valid()
      reads this, repr
    {
      && this in repr && busy in repr && keys in repr && hashes in repr && chains in repr && vals in repr
      && forall u {:trigger Show(u)} :: Show(u) ==> Linked()
    }

    // Always true. It keeps the arrays out of sight of the verifier until it is mentioned.
    ghost predicate Show(u: int) { true }

    constructor (capacity: nat, blank: K, hash: K -> nat)
      requires capacity > 0
      ensures Valid() && fresh(repr) && contents == map[] && this.capacity == capacity && this.hash == hash
    {
      this.capacity, this.hash := capacity, hash;
      busy := new bool[capacity](_ => false);
      keys := new K[capacity](_ => blank);
      hashes := new nat[capacity](_ => 0);
      chains := new nat[capacity](_ => 0);
      vals := new nat[capacity](_ => 0);
      cells := seq(capacity, _ => None);
      contents := map[];
      repr := {this, busy, keys, hashes, chains, vals};
      new;
      EmptyCounts(hash, cells, chains[..]);
    }

    /** Walks the cells from the start of a key's hash until it is found or its chain ends. */
    method FindKey(k: K) returns (found: bool, index: nat)
      requires Searchable()
      ensures found ==> index < capacity && cells[index] == Some(k)
      ensures !found ==> Some(k) !in cells
    {
      var keyHash := hash(k);
      var start := Loop(keyHash, capacity);
      var i := 0;
      while i < capacity
        invariant i <= capacity && NotYet(hash, cells, k, i)
      {
        index := CellAfter(start, i, capacity);
        assert index == Probe(hash, k, capacity, i);
        assert IsCell(hash, cells[index], busy[index], keys[index], hashes[index]);
        if busy[index] && hashes[index] == keyHash {
          if keys[index] == k {
            return true, index;
          }
        } else if chains[index] == 0 {
          ChainEnds(hash, cells, chains[..], k, i);
          return false, 0;
        }
        i := i + 1;
      }
      AllRound(hash, cells, k);
      return false, 0;
    }

    method Get(k: K) returns (found: bool, value: nat)
      requires Valid()
      ensures found <==> k in contents
      ensures found ==> value == contents[k]
    {
      assert Show(0);
      var index;
      found, index := FindKey(k);
      value := if found then vals[index] else 0;
    }

    /** Walks the cells from `start` to the first empty one, counting itself on every cell it passes over. */
    method FindEmpty(start: nat) returns (index: nat)
      requires busy.Length == chains.Length == capacity && start < capacity
      requires exists i :: 0 <= i < capacity && !busy[i]
      modifies chains
      ensures index < capacity && !busy[index]
      ensures BusyUpTo(busy[..], start, Dist(start, index, capacity))
      ensures Uncounted(chains[..], old(chains[..]), start, index)
    {
      index := 0;
      ghost var was := chains[..];
      var i := 0;
      while i < capacity
        invariant i <= capacity && BusyUpTo(busy[..], start, i) && OneMore(chains[..], was, start, i)
      {
        index := CellAfter(start, i, capacity);
        if !busy[index] {
          DistOfWrap(start, i, capacity);
          return index;
        }
        ghost var now := chains[..];
        CountUp(now, was, busy[..], start, i, index);
        chains[index] := chains[index] + 1;
        assert chains[..] == now[index := now[index] + 1];
        i := i + 1;
      }
      assert false;
    }

    method Put(k: K, value: nat)
      requires Valid() && k !in contents && |contents| < capacity
      modifies repr
      ensures Valid() && contents == old(contents)[k := value]
    {
      assert Show(0);
      RoomLeft();
      ghost var bs, ks, hs, cs, vs := busy[..], keys[..], hashes[..], chains[..], vals[..];
      var keyHash := hash(k);
      var start := Loop(keyHash, capacity);
      var index := FindEmpty(start);
      PlaceKey(hash, cells, bs, ks, hs, cs, chains[..], vs, contents, index, k, value);
      busy[index] := true;
      keys[index] := k;
      hashes[index] := keyHash;
      vals[index] := value;
      cells, contents := cells[index := Some(k)], contents[k := value];
      assert busy[..] == bs[index := true] && keys[..] == ks[index := k];
      assert hashes[..] == hs[index := keyHash] && vals[..] == vs[index := value];
    }

    /** A map that is not full has an empty cell. */
    lemma {:induction false} RoomLeft()
      requires Linked() && |contents| < capacity
      ensures exists i :: 0 <= i < capacity && !busy[i]
    {
      MapSize(cells, vals[..], contents);
      if forall i :: 0 <= i < capacity ==> busy[i] {
        forall i | 0 <= i < capacity
          ensures cells[i].Some?
        {
          assert IsCell(hash, cells[i], busy[..][i], keys[..][i], hashes[..][i]);
        }
        AllOccupied(cells, capacity);
      }
    }

    /** Walks the cells from the start of a present key to its cell, taking it off the counts on the way. */
    method FindKeyRemoveChain(k: K) returns (index: nat)
      requires Searchable() && Some(k) in cells
      modifies chains, busy
      ensures index < capacity && cells[index] == Some(k) && busy[..] == old(busy[..])[index := false]
      ensures Uncounted(old(chains[..]), chains[..], Start(hash, k, capacity), index)
      ensures keys[..] == old(keys[..]) && hashes[..] == old(hashes[..]) && vals[..] == old(vals[..])
    {
      index := 0;
      var keyHash := hash(k);
      var start := Loop(keyHash, capacity);
      ghost var was, bs := chains[..], busy[..];
      var i := 0;
      while i < capacity
        invariant i <= capacity && NotYet(hash, cells, k, i) && busy[..] == bs && OneMore(was, chains[..], start, i)
      {
        index := CellAfter(start, i, capacity);
        assert index == Probe(hash, k, capacity, i);
        assert IsCell(hash, cells[index], bs[index], keys[index], hashes[index]);
        if busy[index] && hashes[index] == keyHash && keys[index] == k {
          busy[index] := false;
          assert busy[..] == bs[index := false];
          return index;
        }
        ghost var now := chains[..];
        KeyIsAhead(hash, cells, was, k, i);
        CountDown(was, now, start, i, index);
        chains[index] := chains[index] - 1;
        assert chains[..] == now[index := now[index] - 1];
        i := i + 1;
      }
      AllRound(hash, cells, k);
      assert false;
    }

    method Erase(k: K)
      requires Valid() && k in contents
      modifies repr
      ensures Valid() && contents == old(contents) - {k}
    {
      assert Show(0);
      ghost var bs, cs := busy[..], chains[..];
      assert Some(k) in cells;
      var index := FindKeyRemoveChain(k);
      RemoveKey(hash, cells, bs, keys[..], hashes[..], cs, chains[..], vals[..], contents, index, k);
      cells, contents := cells[index := None], contents - {k};
    }

    /** Counts the occupied cells. */
    method Size() returns (n: nat)
      requires Valid()
      ensures n == |contents|
    {
      assert Show(0);
      MapSize(cells, vals[..], contents);
      n := 0;
      for i := 0 to capacity
        invariant n == Occupied(cells, i)
      {
        assert IsCell(hash, cells[i], busy[..][i], keys[..][i], hashes[..][i]);
        if busy[i] {
          n := n + 1;
        }
      }
    }
  }
}

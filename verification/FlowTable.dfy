/** The expiring table all network functions rest on: a map from keys to indexes, the keys by index,
    and the index allocator with its time chain. */
module FlowTable {
  import opened Stamps
  import opened Coherence
  import D = DoubleChain
  import M = HashMap

  /** A coherent table: map, keys (stale outside the engaged cells) and allocator, and its view. */
  ghost predicate Table<K>(m: map<K, nat>, keys: seq<K>, v: seq<Slot<K>>, ch: seq<Stamp>, capacity: nat,
                           w: map<K, Entry>) {
    && |keys| == |v| == capacity
    && (forall i :: 0 <= i < |v| && v[i].engaged ==> keys[i] == v[i].key)
    && Coherent(m, v, ch)
    && w == View(m, ch)
  }

  // Always true. A quantifier triggered by it keeps its body out of sight until it is mentioned.
  ghost predicate Unfold(u: int, ch: seq<Stamp>) { true }

  ghost predicate Sealed<K>(m: map<K, nat>, keys: seq<K>, v: seq<Slot<K>>, ch: seq<Stamp>, capacity: nat,
                            w: map<K, Entry>) {
    forall u {:trigger Unfold(u, ch)} :: Unfold(u, ch) ==> Table(m, keys, v, ch, capacity, w)
  }

  lemma {:induction false} PlaceStep<K>(m: map<K, nat>, keys: seq<K>, v: seq<Slot<K>>, ch: seq<Stamp>, capacity: nat,
                     w: map<K, Entry>, k: K, i: nat, now: int)
    requires Sealed(m, keys, v, ch, capacity, w) && k !in w && UpTo(w, now) && i < capacity && !Has(ch, i)
    ensures !Used(w, i) && i < |keys| && i < |v|
    ensures Sealed(m[k := i], keys[i := k], v[i := Slot(k, true)], ch + [Stamp(i, now)], capacity,
                   w[k := Entry(i, now)])
  {
    assert Unfold(0, ch);
    ViewTimes(m, v, ch, now);
    ViewUses(m, v, ch, i);
    AppendStamps(ch, capacity, i, now);
    CoherentPut(m, v, ch, ch + [Stamp(i, now)], i, now, k);
    ViewPut(m, v, ch, ch + [Stamp(i, now)], i, now, k);
  }

  lemma {:induction false} RejuvenateStep<K>(m: map<K, nat>, keys: seq<K>, v: seq<Slot<K>>, ch: seq<Stamp>,
                                             capacity: nat, w: map<K, Entry>, k: K, now: int)
    requires Sealed(m, keys, v, ch, capacity, w) && k in w && UpTo(w, now)
    ensures Has(ch, w[k].index) && w[k].index < capacity
    ensures Sealed(m, keys, v, Removed(ch, w[k].index) + [Stamp(w[k].index, now)], capacity,
                   w[k := Entry(w[k].index, now)])
  {
    assert Unfold(0, ch);
    ViewTimes(m, v, ch, now);
    MapGet(m, v, ch, k);
    RemoveDrops(ch, capacity, m[k]);
    var ch' := Removed(ch, m[k]) + [Stamp(m[k], now)];
    TouchStamps(Removed(ch, m[k]), ch, capacity, m[k], now);
    CoherentRejuvenate(m, v, ch, ch', m[k], now);
    ViewRejuvenate(m, v, ch, ch', k, now);
  }

  lemma {:induction false} EraseStep<K>(m: map<K, nat>, keys: seq<K>, v: seq<Slot<K>>, ch: seq<Stamp>, capacity: nat,
                                        w: map<K, Entry>, k: K)
    requires Sealed(m, keys, v, ch, capacity, w) && k in w
    ensures Has(ch, w[k].index) && w[k].index < |v| == capacity
    ensures Sealed(m - {k}, keys, v[w[k].index := Slot(k, false)], Removed(ch, w[k].index), capacity, w - {k})
  {
    assert Unfold(0, ch);
    MapGet(m, v, ch, k);
    RemoveDrops(ch, capacity, m[k]);
    CoherentErase(m, v, ch, Removed(ch, m[k]), k);
    ViewErase(m, v, ch, Removed(ch, m[k]), k);
  }

  /** What the parts of a table say about a key. */
  lemma {:induction false} Lookup<K>(m: map<K, nat>, keys: seq<K>, v: seq<Slot<K>>, ch: seq<Stamp>, capacity: nat,
                  w: map<K, Entry>, k: K)
    requires Sealed(m, keys, v, ch, capacity, w)
    ensures k in m <==> k in w
    ensures k in w ==> m[k] == w[k].index < capacity
  {
    assert Unfold(0, ch);
    if k in w {
      MapGet(m, v, ch, k);
    }
  }

  /** What the parts of a table say about an index. */
  lemma {:induction false} LookupIndex<K>(m: map<K, nat>, keys: seq<K>, v: seq<Slot<K>>, ch: seq<Stamp>,
                                          capacity: nat,
                       w: map<K, Entry>, i: nat)
    requires Sealed(m, keys, v, ch, capacity, w) && i < capacity
    ensures |keys| == capacity
    ensures Has(ch, i) <==> Used(w, i)
    ensures Used(w, i) ==> keys[i] in w && w[keys[i]].index == i
  {
    assert Unfold(0, ch);
    ViewUses(m, v, ch, i);
    if Has(ch, i) {
      IndexBusy(m, v, ch, i);
    }
  }

  lemma {:induction false} Room<K>(m: map<K, nat>, keys: seq<K>, v: seq<Slot<K>>, ch: seq<Stamp>, capacity: nat,
                                   w: map<K, Entry>)
    requires Sealed(m, keys, v, ch, capacity, w)
    ensures |ch| == |m| == |w| && GoodView(w, capacity)
  {
    assert Unfold(0, ch);
    ViewSize(m, v, ch);
    ViewIsGood(m, v, ch);
  }

  lemma {:induction false} Times<K>(m: map<K, nat>, keys: seq<K>, v: seq<Slot<K>>, ch: seq<Stamp>, capacity: nat,
                                    w: map<K, Entry>, now: int)
    requires Sealed(m, keys, v, ch, capacity, w) && UpTo(w, now)
    ensures NoLaterThan(ch, now)
  {
    assert Unfold(0, ch);
    ViewTimes(m, v, ch, now);
  }

  /** What the parts of a table say before a new key is put. */
  lemma {:induction false} ReadyFor<K>(m: map<K, nat>, keys: seq<K>, v: seq<Slot<K>>, ch: seq<Stamp>, capacity: nat,
                                       w: map<K, Entry>, k: K, now: int)
    requires Sealed(m, keys, v, ch, capacity, w) && UpTo(w, now) && k !in w
    ensures |ch| == |m| == |w| && NoLaterThan(ch, now) && k !in m
  {
    Room(m, keys, v, ch, capacity, w);
    Times(m, keys, v, ch, capacity, w, now);
    Lookup(m, keys, v, ch, capacity, w, k);
  }

  lemma {:induction false} InUse<K>(m: map<K, nat>, keys: seq<K>, v: seq<Slot<K>>, ch: seq<Stamp>, capacity: nat,
                                    w: map<K, Entry>)
    requires Sealed(m, keys, v, ch, capacity, w)
    ensures forall i :: Has(ch, i) <==> Used(w, i)
  {
    assert Unfold(0, ch);
    forall i: nat
      ensures Has(ch, i) <==> Used(w, i)
    {
      ViewUses(m, v, ch, i);
    }
  }

  lemma {:induction false} Oldest<K>(m: map<K, nat>, keys: seq<K>, v: seq<Slot<K>>, ch: seq<Stamp>, capacity: nat,
                                     w: map<K, Entry>, threshold: int)
    requires Sealed(m, keys, v, ch, capacity, w)
    ensures ch == [] || ch[0].time >= threshold ==> Expire(w, threshold) == w
    ensures ch != [] ==>
              var i := ch[0].index;
              i < |keys| && keys[i] in w && w[keys[i]] == Entry(i, ch[0].time) && Removed(ch, i) == ch[1..]
  {
    assert Unfold(0, ch);
    if ch != [] {
      OldestEntry(m, v, ch);
      IndexBusy(m, v, ch, ch[0].index);
      DropOldest(ch);
    }
    if ch == [] || ch[0].time >= threshold {
      NothingLeftToExpire(m, v, ch, threshold);
    }
  }

  class FlowTable<K(==)> {
    const capacity: nat
    const index: M.HashMap<K>   // the hash map
    var keys: seq<K>            // the vector of keys
    const chain: D.DoubleChain  // the index allocator
    ghost var slots: seq<Slot<K>>
    ghost var view: map<K, Entry>

    /** The objects a table is made of. */
    ghost const repr: set<object>

    ghost predicate Linked()
      reads this, repr
    {
      && chain in repr && index in repr && this in repr && chain.repr <= repr && index.repr <= repr
      && this !in chain.repr && this !in index.repr && chain.repr !! index.repr
      && chain.Valid() && chain.times.Length == capacity && index.Valid() && index.capacity == capacity
    }

    /** The parts are coherent, and `view` is the table they make up. */
    ghost predicate Valid()
      reads this, repr
    {
      this in repr && forall u {:trigger Show(u)} :: Show(u) ==>
        Linked() && Sealed(index.contents, keys, slots, chain.stamps, capacity, view)
    }

    // Always true. It keeps the parts out of sight of the verifier until it is mentioned.
    ghost predicate Show(u: int) { true }

    lemma {:induction false} Good()
      requires Valid()
      ensures GoodView(view, capacity)
    {
      assert Show(0);
      Room(index.contents, keys, slots, chain.stamps, capacity, view);
    }

    /** The allocator and the view have the same indexes. */
    lemma {:induction false} Allocated()
      requires Valid()
      ensures forall i :: Has(chain.stamps, i) <==> Used(view, i)
      ensures chain.Valid() && chain.times.Length == capacity && (chain.stamps == [] <==> view == map[])
    {
      assert Show(0);
      InUse(index.contents, keys, slots, chain.stamps, capacity, view);
      Room(index.contents, keys, slots, chain.stamps, capacity, view);
    }

    constructor (capacity: nat, blank: K, hash: K -> nat)
      requires capacity > 0
      ensures Valid() && fresh(repr) && this.capacity == capacity && view == map[]
    {
      this.capacity := capacity;
      keys := seq(capacity, _ => blank);
      slots := seq(capacity, _ => Slot(blank, false));
      var allocator := new D.DoubleChain(capacity);
      var hashMap := new M.HashMap<K>(capacity, blank, hash);
      chain, index, repr := allocator, hashMap, {this} + allocator.repr + hashMap.repr;
      view := map[];
      new;
      CoherentEmpty(slots);
    }

    method Get(k: K) returns (present: bool, i: nat)
      requires Valid()
      ensures present <==> k in view
      ensures present ==> i == view[k].index
    {
      assert Show(0);
      Lookup(index.contents, keys, slots, chain.stamps, capacity, view, k);
      present, i := index.Get(k);
    }

    method KeyAt(i: nat) returns (k: K)
      requires Valid() && i < capacity
      ensures Used(view, i) ==> k in view && view[k].index == i
    {
      assert Show(0);
      LookupIndex(index.contents, keys, slots, chain.stamps, capacity, view, i);
      k := keys[i];
    }

    method IsIndexAllocated(i: nat) returns (used: bool)
      requires Valid() && i < capacity
      ensures used <==> Used(view, i)
    {
      assert Show(0);
      LookupIndex(index.contents, keys, slots, chain.stamps, capacity, view, i);
      used := chain.IsIndexAllocated(i);
    }

    /** Takes an index from the allocator, and puts a key into the hash map at it. */
    method Acquire(k: K, now: int) returns (ok: bool, i: nat)
      requires Linked() && k !in index.contents && |index.contents| == |chain.stamps| && NoLaterThan(chain.stamps, now)
      modifies chain.repr, index.repr
      ensures Linked() && (ok <==> |old(chain.stamps)| < capacity)
      ensures ok ==> i < capacity && !Has(old(chain.stamps), i)
      ensures chain.stamps == if ok then old(chain.stamps) + [Stamp(i, now)] else old(chain.stamps)
      ensures index.contents == if ok then old(index.contents)[k := i] else old(index.contents)
    {
      ok, i := chain.AllocateNewIndex(now);
      if ok {
        index.Put(k, i);
      }
    }

    /** Writes a key into the vector of keys. */
    method Settle(k: K, i: nat, ghost now: int)
      requires Linked() && i < |keys| && i < |slots|
      modifies this`keys, this`slots, this`view
      ensures Linked() && index.contents == old(index.contents) && chain.stamps == old(chain.stamps)
      ensures keys == old(keys)[i := k] && slots == old(slots)[i := Slot(k, true)]
      ensures view == old(view)[k := Entry(i, now)]
    {
      keys, slots, view := keys[i := k], slots[i := Slot(k, true)], view[k := Entry(i, now)];
    }

    ghost method Unsettle(k: K, i: nat)
      requires Linked() && i < |slots|
      modifies this`slots, this`view
      ensures Linked() && index.contents == old(index.contents) && chain.stamps == old(chain.stamps)
      ensures slots == old(slots)[i := Slot(k, false)] && view == old(view) - {k}
    {
      slots, view := slots[i := Slot(k, false)], view - {k};
    }

    /** Allocates an index for a new key; fails exactly when the table is full. */
    method Insert(k: K, now: int) returns (ok: bool, i: nat)
      requires Valid() && k !in view && UpTo(view, now)
      modifies repr
      ensures Valid()
      ensures ok <==> |old(view)| < capacity
      ensures ok ==> i < capacity && !Used(old(view), i)
      ensures view == if ok then old(view)[k := Entry(i, now)] else old(view)
    {
      assert Show(0);
      ghost var m, ch := index.contents, chain.stamps;
      ReadyFor(m, keys, slots, ch, capacity, view, k, now);
      ok, i := Acquire(k, now);
      if ok {
        PlaceStep(m, keys, slots, ch, capacity, view, k, i, now);
        Settle(k, i, now);
      }
    }

    /** Moves the entry of a key to the young end. */
    method Rejuvenate(i: nat, now: int, ghost k: K)
      requires Valid() && k in view && view[k].index == i && UpTo(view, now)
      modifies repr
      ensures Valid() && view == old(view)[k := Entry(i, now)]
    {
      assert Show(0);
      Times(index.contents, keys, slots, chain.stamps, capacity, view, now);
      RejuvenateStep(index.contents, keys, slots, chain.stamps, capacity, view, k, now);
      view := view[k := Entry(i, now)];
      var _ := chain.RejuvenateIndex(i, now);
    }

    /** Takes a key out of the hash map, and its index out of the allocator. */
    method Release(k: K, i: nat)
      requires Linked() && k in index.contents && i < capacity && Has(chain.stamps, i)
      modifies chain.repr, index.repr
      ensures Linked() && index.contents == old(index.contents) - {k} && chain.stamps == Removed(old(chain.stamps), i)
    {
      index.Erase(k);
      var _ := chain.FreeIndex(i);
    }

    method Erase(k: K)
      requires Valid() && k in view
      modifies repr
      ensures Valid() && view == old(view) - {k}
    {
      assert Show(0);
      ghost var m, v, ch, w := index.contents, slots, chain.stamps, view;
      Lookup(m, keys, v, ch, capacity, w, k);
      EraseStep(m, keys, v, ch, capacity, w, k);
      var _, i := index.Get(k);
      Release(k, i);
      Unsettle(k, i);
    }

    /** Removes the oldest entry if it is older than the threshold. */
    method ExpireOne(threshold: int) returns (ok: bool)
      requires Valid()
      modifies repr
      ensures Valid()
      ensures Expire(view, threshold) == Expire(old(view), threshold)
      ensures if ok then |view| == |old(view)| - 1 else view == old(view) == Expire(view, threshold)
    {
      assert Show(0);
      ghost var m, v, ch, w := index.contents, slots, chain.stamps, view;
      Oldest(m, keys, v, ch, capacity, w, threshold);
      var i;
      ok, i := chain.ExpireOneIndex(threshold);
      if ok {
        var key := keys[i];
        ExpireOnce(w, key, threshold);
        EraseStep(m, keys, v, ch, capacity, w, key);
        Lookup(m, keys, v, ch, capacity, w, key);
        index.Erase(key);
        Unsettle(key, i);
      }
    }

    /** Removes the entries older than the threshold, and nothing else; returns how many there were. */
    method ExpireAll(threshold: int) returns (count: nat)
      requires Valid()
      modifies repr
      ensures Valid() && view == Expire(old(view), threshold)
      ensures count == |old(view)| - |view|
    {
      count := 0;
      var more := ExpireOne(threshold);
      while more
        invariant Valid()
        invariant Expire(view, threshold) == Expire(old(view), threshold)
        invariant !more ==> view == Expire(view, threshold)
        invariant |old(view)| - |view| == if more then count + 1 else count
        decreases |view|, more
      {
        count := count + 1;
        more := ExpireOne(threshold);
      }
    }
  }
}

/** Coherence of a hash map, a vector of keys and an index allocator, and the one table they make up. */
module Coherence {
  import opened Stamps
  import C = Counting

  /** A cell of the key vector; it is engaged while the map refers to it. */
  datatype Slot<K> = Slot(key: K, engaged: bool)

  ghost predicate ConsistentPair<K>(m: map<K, nat>, ch: seq<Stamp>, i: nat, slot: Slot<K>) {
    if slot.engaged then slot.key in m && m[slot.key] == i && Has(ch, i) else !Has(ch, i)
  }

  ghost predicate Coherent<K>(m: map<K, nat>, v: seq<Slot<K>>, ch: seq<Stamp>) {
    && WellFormed(ch, |v|)
    && (forall i :: 0 <= i < |v| ==> ConsistentPair(m, ch, i, v[i]))
    && (forall k :: k in m ==> exists i :: 0 <= i < |v| && v[i].engaged && v[i].key == k)
    && |m| == |ch|
  }

  /** The map and the engaged cells are inverse to each other, onto the allocated indexes. */
  lemma {:induction false} MapGet<K>(m: map<K, nat>, v: seq<Slot<K>>, ch: seq<Stamp>, k: K)
    requires Coherent(m, v, ch) && k in m
    ensures m[k] < |v| && v[m[k]] == Slot(k, true) && Has(ch, m[k])
  {
    var i :| 0 <= i < |v| && v[i].engaged && v[i].key == k;
    assert ConsistentPair(m, ch, i, v[i]);
  }

  lemma {:induction false} IndexBusy<K>(m: map<K, nat>, v: seq<Slot<K>>, ch: seq<Stamp>, i: nat)
    requires Coherent(m, v, ch) && Has(ch, i)
    ensures i < |v| && v[i].engaged && v[i].key in m && m[v[i].key] == i
  {
    assert ch[At(ch, i)].index == i;
    assert ConsistentPair(m, ch, i, v[i]);
  }

  lemma {:induction false} CoherentEmpty<K>(v: seq<Slot<K>>)
    requires forall i :: 0 <= i < |v| ==> !v[i].engaged
    ensures Coherent(map[], v, [])
  {
  }

  lemma {:induction false} CoherentPut<K>(m: map<K, nat>, v: seq<Slot<K>>, ch: seq<Stamp>, ch': seq<Stamp>, i: nat,
                                          t: int, k: K)
    requires Coherent(m, v, ch) && i < |v| && !Has(ch, i) && k !in m && Stamped(ch', ch, i, t, |v|)
    ensures Coherent(m[k := i], v[i := Slot(k, true)], ch')
  {
    var m', v' := m[k := i], v[i := Slot(k, true)];
    forall j | 0 <= j < |v'|
      ensures ConsistentPair(m', ch', j, v'[j])
    {
      assert ConsistentPair(m, ch, j, v[j]);
    }
    forall x | x in m'
      ensures exists j :: 0 <= j < |v'| && v'[j].engaged && v'[j].key == x
    {
      if x == k {
        assert v'[i].key == x;
      } else {
        MapGet(m, v, ch, x);
        assert v'[m[x]].key == x;
      }
    }
  }

  lemma {:induction false} CoherentRejuvenate<K>(m: map<K, nat>, v: seq<Slot<K>>, ch: seq<Stamp>, ch': seq<Stamp>,
                                                 i: nat, t: int)
    requires Coherent(m, v, ch) && Has(ch, i) && Stamped(ch', ch, i, t, |v|)
    ensures Coherent(m, v, ch')
  {
    forall j | 0 <= j < |v|
      ensures ConsistentPair(m, ch', j, v[j])
    {
      assert ConsistentPair(m, ch, j, v[j]);
    }
  }

  lemma {:induction false} CoherentErase<K>(m: map<K, nat>, v: seq<Slot<K>>, ch: seq<Stamp>, ch': seq<Stamp>, k: K)
    requires Coherent(m, v, ch) && k in m && Dropped(ch', ch, m[k], |v|)
    ensures m[k] < |v|
    ensures Coherent(m - {k}, v[m[k] := Slot(k, false)], ch')
  {
    MapGet(m, v, ch, k);
    var i := m[k];
    var m', v' := m - {k}, v[i := Slot(k, false)];
    assert m'.Keys == m.Keys - {k} && |m'| == |m'.Keys| && |m| == |m.Keys|;
    forall j | 0 <= j < |v'|
      ensures ConsistentPair(m', ch', j, v'[j])
    {
      assert ConsistentPair(m, ch, j, v[j]);
    }
    forall x | x in m'
      ensures exists j :: 0 <= j < |v'| && v'[j].engaged && v'[j].key == x
    {
      MapGet(m, v, ch, x);
      assert v'[m[x]].key == x;
    }
  }

  // ----- The abstract view: key -> index and time of last touch

  datatype Entry = Entry(index: nat, time: int)

  ghost function View<K>(m: map<K, nat>, ch: seq<Stamp>): (w: map<K, Entry>) {
    map k | k in m :: Entry(m[k], TimeOf(ch, m[k]))
  }

  ghost predicate Used<K>(w: map<K, Entry>, i: nat) {
    exists k :: k in w && w[k].index == i
  }

  ghost function KeyOf<K>(w: map<K, Entry>, i: nat): (k: K)
    requires Used(w, i)
    ensures k in w && w[k].index == i
  {
    var k :| k in w && w[k].index == i;
    k
  }

  /** Indexes of a view are below the capacity, and no two keys share one. */
  ghost predicate GoodView<K>(w: map<K, Entry>, capacity: nat) {
    && |w| <= capacity
    && (forall k :: k in w ==> w[k].index < capacity)
    && (forall u {:trigger Peek(u, w)} :: Peek(u, w) ==> NoSharing(w))
  }

  // Always true. It keeps `NoSharing` out of sight of the verifier until it is mentioned.
  ghost predicate Peek<K>(u: int, w: map<K, Entry>) { true }

  ghost predicate NoSharing<K>(w: map<K, Entry>) {
    forall k, l :: k in w && l in w && k != l ==> w[k].index != w[l].index
  }

  lemma {:induction false} DifferentIndexes<K>(w: map<K, Entry>, capacity: nat, k: K, l: K)
    requires GoodView(w, capacity) && k in w && l in w && k != l
    ensures w[k].index != w[l].index
  {
    assert Peek(0, w);
  }

  lemma {:induction false} KeyIsUnique<K>(w: map<K, Entry>, capacity: nat, k: K)
    requires GoodView(w, capacity) && k in w
    ensures Used(w, w[k].index) && KeyOf(w, w[k].index) == k
  {
    assert Peek(0, w);
  }

  ghost predicate UpTo<K>(w: map<K, Entry>, now: int) {
    forall k :: k in w ==> w[k].time <= now
  }

  /** What expiry leaves: exactly the entries not older than the threshold, unchanged. */
  ghost function Expire<K>(w: map<K, Entry>, threshold: int): (r: map<K, Entry>) {
    map k | k in w && w[k].time >= threshold :: w[k]
  }

  lemma {:induction false} ViewSize<K>(m: map<K, nat>, v: seq<Slot<K>>, ch: seq<Stamp>)
    requires Coherent(m, v, ch)
    ensures |View(m, ch)| == |ch| <= |v|
  {
    var w := View(m, ch);
    assert w.Keys == m.Keys && |w| == |w.Keys| && |m| == |m.Keys|;
    ChainFits(ch, |v|);
  }

  lemma {:induction false} ViewIsGood<K>(m: map<K, nat>, v: seq<Slot<K>>, ch: seq<Stamp>)
    requires Coherent(m, v, ch)
    ensures GoodView(View(m, ch), |v|)
  {
    ViewSize(m, v, ch);
    var w := View(m, ch);
    forall k | k in m
      ensures m[k] < |v| && v[m[k]] == Slot(k, true)
    {
      MapGet(m, v, ch, k);
    }
  }

  lemma {:induction false} ViewUses<K>(m: map<K, nat>, v: seq<Slot<K>>, ch: seq<Stamp>, i: nat)
    requires Coherent(m, v, ch)
    ensures Used(View(m, ch), i) <==> Has(ch, i)
  {
    var w := View(m, ch);
    if Has(ch, i) {
      IndexBusy(m, v, ch, i);
      assert w[v[i].key].index == i;
    }
    if Used(w, i) {
      var k :| k in w && w[k].index == i;
      MapGet(m, v, ch, k);
    }
  }

  lemma {:induction false} ChainFits(ch: seq<Stamp>, n: nat)
    requires WellFormed(ch, n)
    ensures |ch| <= n
  {
    var s := seq(|ch|, p requires 0 <= p < |ch| => ch[p].index);
    C.Pigeonhole(s, n);
  }

  lemma {:induction false} ViewTimes<K>(m: map<K, nat>, v: seq<Slot<K>>, ch: seq<Stamp>, t: int)
    requires Coherent(m, v, ch)
    ensures UpTo(View(m, ch), t) <==> NoLaterThan(ch, t)
  {
    var w := View(m, ch);
    forall k | k in m
      ensures Has(ch, m[k])
    {
      MapGet(m, v, ch, k);
    }
    if UpTo(w, t) {
      forall p | 0 <= p < |ch|
        ensures ch[p].time <= t
      {
        AtIsUnique(ch, |v|, p);
        IndexBusy(m, v, ch, ch[p].index);
        assert w[v[ch[p].index].key].time <= t;
      }
    }
  }

  lemma {:induction false} ViewPut<K>(m: map<K, nat>, v: seq<Slot<K>>, ch: seq<Stamp>, ch': seq<Stamp>, i: nat,
                                      t: int, k: K)
    requires Coherent(m, v, ch) && !Has(ch, i) && k !in m && Stamped(ch', ch, i, t, |v|)
    ensures View(m[k := i], ch') == View(m, ch)[k := Entry(i, t)]
  {
    forall x | x in m
      ensures TimeOf(ch', m[x]) == TimeOf(ch, m[x])
    {
      MapGet(m, v, ch, x);
    }
  }

  lemma {:induction false} ViewRejuvenate<K>(m: map<K, nat>, v: seq<Slot<K>>, ch: seq<Stamp>, ch': seq<Stamp>,
                                             k: K, t: int)
    requires Coherent(m, v, ch) && k in m && Stamped(ch', ch, m[k], t, |v|)
    ensures View(m, ch') == View(m, ch)[k := Entry(m[k], t)]
  {
    MapGet(m, v, ch, k);
    forall x | x in m && x != k
      ensures TimeOf(ch', m[x]) == TimeOf(ch, m[x])
    {
      MapGet(m, v, ch, x);
    }
  }

  lemma {:induction false} ViewErase<K>(m: map<K, nat>, v: seq<Slot<K>>, ch: seq<Stamp>, ch': seq<Stamp>, k: K)
    requires Coherent(m, v, ch) && k in m && Dropped(ch', ch, m[k], |v|)
    ensures View(m - {k}, ch') == View(m, ch) - {k}
  {
    var w, w' := View(m - {k}, ch'), View(m, ch) - {k};
    forall x | x in m && x != k
      ensures w[x] == w'[x]
    {
      TimeStays(m, v, ch, ch', k, x);
    }
    assert w.Keys == w'.Keys;
  }

  lemma {:induction false} TimeStays<K>(m: map<K, nat>, v: seq<Slot<K>>, ch: seq<Stamp>, ch': seq<Stamp>, k: K, x: K)
    requires Coherent(m, v, ch) && k in m && Dropped(ch', ch, m[k], |v|) && x in m && x != k
    ensures TimeOf(ch', m[x]) == TimeOf(ch, m[x])
  {
    MapGet(m, v, ch, k);
    MapGet(m, v, ch, x);
  }

  lemma {:induction false} OldestEntry<K>(m: map<K, nat>, v: seq<Slot<K>>, ch: seq<Stamp>)
    requires Coherent(m, v, ch) && ch != []
    ensures var i := ch[0].index;
            && i < |v| && v[i].engaged
            && v[i].key in View(m, ch) && View(m, ch)[v[i].key].time == ch[0].time
  {
    AtIsUnique(ch, |v|, 0);
    IndexBusy(m, v, ch, ch[0].index);
  }

  lemma {:induction false} ExpireOnce<K>(w: map<K, Entry>, k: K, threshold: int)
    requires k in w && w[k].time < threshold
    ensures Expire(w - {k}, threshold) == Expire(w, threshold)
    ensures |w - {k}| == |w| - 1
  {
    var r := w - {k};
    assert r.Keys == w.Keys - {k} && |r| == |r.Keys| && |w| == |w.Keys|;
  }

  /** Once the oldest entry is young enough, all are. */
  lemma {:induction false} NothingLeftToExpire<K>(m: map<K, nat>, v: seq<Slot<K>>, ch: seq<Stamp>, threshold: int)
    requires Coherent(m, v, ch) && (ch == [] || ch[0].time >= threshold)
    ensures Expire(View(m, ch), threshold) == View(m, ch)
  {
    forall x | x in m
      ensures TimeOf(ch, m[x]) >= threshold
    {
      MapGet(m, v, ch, x);
    }
  }


  ghost function Touch<K>(w: map<K, Entry>, k: K, time: int): (r: map<K, Entry>)
    requires k in w
  {
    w[k := Entry(w[k].index, time)]
  }

  lemma {:induction false} ExpireIsGood<K>(w: map<K, Entry>, capacity: nat, threshold: int)
    requires GoodView(w, capacity)
    ensures GoodView(Expire(w, threshold), capacity)
  {
    var r := Expire(w, threshold);
    assert r.Keys <= w.Keys && |r| == |r.Keys| && |w| == |w.Keys|;
    assert w.Keys == r.Keys + (w.Keys - r.Keys);
    assert Peek(0, w);
  }

  lemma {:induction false} OpenIsGood<K>(w: map<K, Entry>, capacity: nat, k: K, i: nat, time: int)
    requires GoodView(w, capacity) && UpTo(w, time) && k !in w && i < capacity && !Used(w, i) && |w| < capacity
    ensures GoodView(w[k := Entry(i, time)], capacity) && UpTo(w[k := Entry(i, time)], time)
  {
    var w' := w[k := Entry(i, time)];
    assert w'.Keys == w.Keys + {k} && |w'| == |w'.Keys| && |w| == |w.Keys|;
    assert Peek(0, w);
  }

  lemma {:induction false} TouchIsGood<K>(w: map<K, Entry>, capacity: nat, k: K, time: int)
    requires GoodView(w, capacity) && UpTo(w, time) && k in w
    ensures GoodView(Touch(w, k, time), capacity) && UpTo(Touch(w, k, time), time)
  {
    var w' := Touch(w, k, time);
    assert w'.Keys == w.Keys && |w'| == |w'.Keys| && |w| == |w.Keys|;
    assert Peek(0, w);
  }
}

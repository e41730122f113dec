/** The age order of an index allocator: pairs of an index and the time it was last touched,
    oldest first. */
module Stamps {

  datatype Stamp = Stamp(index: nat, time: int)

  predicate Has(s: seq<Stamp>, i: nat) {
    exists p :: 0 <= p < |s| && s[p].index == i
  }

  /** The indexes that have a stamp. */
  ghost function Indexes(s: seq<Stamp>): (r: set<nat>)
    ensures forall i :: i in r <==> Has(s, i)
  {
    set p | 0 <= p < |s| :: s[p].index
  }

  /** Indexes are distinct and below `n`; times never decrease. */
  ghost predicate WellFormed(s: seq<Stamp>, n: nat) {
    && (forall p :: 0 <= p < |s| ==> s[p].index < n)
    && (forall p, q :: 0 <= p < q < |s| ==> s[p].index != s[q].index && s[p].time <= s[q].time)
  }

  ghost predicate NoLaterThan(s: seq<Stamp>, t: int) {
    forall p :: 0 <= p < |s| ==> s[p].time <= t
  }

  /** The position of an index. */
  ghost function At(s: seq<Stamp>, i: nat): (p: nat)
    requires Has(s, i)
    ensures p < |s| && s[p].index == i
  {
    var p: nat :| p < |s| && s[p].index == i;
    p
  }

  /** The time an index was last touched (0 for an index that is not there). */
  ghost function TimeOf(s: seq<Stamp>, i: nat): (t: int) {
    if Has(s, i) then s[At(s, i)].time else 0
  }

  /** The order without an index. */
  function Removed(s: seq<Stamp>, i: nat): (r: seq<Stamp>) {
    if s == [] then [] else if s[0].index == i then s[1..] else [s[0]] + Removed(s[1..], i)
  }

  lemma {:induction false} AtIsUnique(s: seq<Stamp>, n: nat, p: nat)
    requires WellFormed(s, n) && p < |s|
    ensures Has(s, s[p].index) && At(s, s[p].index) == p
  {
  }

  lemma {:induction false} RemovedAt(s: seq<Stamp>, i: nat, p: nat)
    requires p < |s| && s[p].index == i && forall q :: 0 <= q < p ==> s[q].index != i
    ensures Removed(s, i) == s[..p] + s[p + 1..]
  {
    if p == 0 {
      assert s[..0] + s[1..] == s[1..];
    } else {
      var t := s[1..];
      RemovedAt(t, i, p - 1);
      assert s[0].index != i;
      assert [s[0]] + (t[..p - 1] + t[p..]) == s[..p] + s[p + 1..];
    }
  }

  /** Two orders agree about every index but one. */
  ghost predicate SameExcept(r: seq<Stamp>, s: seq<Stamp>, i: nat) {
    forall j {:trigger Has(r, j)} {:trigger Has(s, j)} :: j != i ==>
      (Has(r, j) <==> Has(s, j)) && TimeOf(r, j) == TimeOf(s, j)
  }

  /** `r` is `s` without index `i`. */
  ghost predicate Dropped(r: seq<Stamp>, s: seq<Stamp>, i: nat, n: nat) {
    WellFormed(r, n) && |r| == |s| - 1 && !Has(r, i) && SameExcept(r, s, i)
  }

  /** `r` is `s` with index `i`, new or moved, at its young end. */
  ghost predicate Stamped(r: seq<Stamp>, s: seq<Stamp>, i: nat, t: int, n: nat) {
    && WellFormed(r, n) && NoLaterThan(r, t)
    && |r| == (if Has(s, i) then |s| else |s| + 1)
    && Has(r, i) && TimeOf(r, i) == t && SameExcept(r, s, i)
  }

  function Cut(s: seq<Stamp>, p: nat): (r: seq<Stamp>)
    requires p < |s|
    ensures |r| == |s| - 1 && forall q :: 0 <= q < |r| ==> r[q] == if q < p then s[q] else s[q + 1]
  {
    s[..p] + s[p + 1..]
  }

  lemma {:induction false} CutOthers(s: seq<Stamp>, n: nat, p: nat, j: nat)
    requires WellFormed(s, n) && p < |s| && s[p].index != j
    ensures (Has(Cut(s, p), j) <==> Has(s, j)) && TimeOf(Cut(s, p), j) == TimeOf(s, j)
  {
    var r := Cut(s, p);
    if Has(s, j) {
      var q := At(s, j);
      var q' := if q < p then q else q - 1;
      assert r[q'] == s[q];
      AtIsUnique(r, n, q');
    }
  }

  lemma {:induction false} CutDrops(s: seq<Stamp>, n: nat, p: nat)
    requires WellFormed(s, n) && p < |s|
    ensures Dropped(Cut(s, p), s, s[p].index, n)
    ensures forall t :: NoLaterThan(s, t) ==> NoLaterThan(Cut(s, p), t)
  {
    forall j: nat | j != s[p].index
      ensures (Has(Cut(s, p), j) <==> Has(s, j)) && TimeOf(Cut(s, p), j) == TimeOf(s, j)
    {
      CutOthers(s, n, p, j);
    }
  }

  /** Removing an index keeps everything about the others. */
  lemma {:induction false} RemoveDrops(s: seq<Stamp>, n: nat, i: nat)
    requires WellFormed(s, n) && Has(s, i)
    ensures Dropped(Removed(s, i), s, i, n)
    ensures forall t :: NoLaterThan(s, t) ==> NoLaterThan(Removed(s, i), t)
  {
    var p := At(s, i);
    RemovedAt(s, i, p);
    CutDrops(s, n, p);
    assert Removed(s, i) == Cut(s, p);
  }

  /** Appending a fresh index with the latest time keeps everything about the others. */
  lemma {:induction false} AppendStamps(s: seq<Stamp>, n: nat, i: nat, t: int)
    requires WellFormed(s, n) && NoLaterThan(s, t) && i < n && !Has(s, i)
    ensures Stamped(s + [Stamp(i, t)], s, i, t, n)
  {
    var r := s + [Stamp(i, t)];
    assert r[|s|] == Stamp(i, t);
    AtIsUnique(r, n, |s|);
    forall j: nat | j != i
      ensures (Has(r, j) <==> Has(s, j)) && TimeOf(r, j) == TimeOf(s, j)
    {
      if Has(s, j) {
        assert r[At(s, j)] == s[At(s, j)];
        AtIsUnique(r, n, At(s, j));
      }
    }
  }

  /** Dropping an index and appending it again is touching it. */
  lemma {:induction false} TouchStamps(r: seq<Stamp>, s: seq<Stamp>, n: nat, i: nat, t: int)
    requires Dropped(r, s, i, n) && NoLaterThan(r, t) && i < n && Has(s, i)
    ensures Stamped(r + [Stamp(i, t)], s, i, t, n)
  {
    AppendStamps(r, n, i, t);
  }

  /** Dropping the oldest entry is removing its index. */
  lemma {:induction false} DropOldest(s: seq<Stamp>)
    requires s != []
    ensures Has(s, s[0].index) && Removed(s, s[0].index) == s[1..]
  {
  }
}

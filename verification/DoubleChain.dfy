/** The index allocator with time stamps: the cells give the order of age, an array the times. */
module DoubleChain {
  import opened Counting
  import opened CellRings
  import C = CellChain
  import opened Stamps

  function Zipped(order: seq<nat>, times: seq<int>): (s: seq<Stamp>)
    requires forall p :: 0 <= p < |order| ==> order[p] < |times|
    ensures |s| == |order| && forall p :: 0 <= p < |s| ==> s[p] == Stamp(order[p], times[order[p]])
  {
    seq(|order|, p requires 0 <= p < |order| => Stamp(order[p], times[order[p]]))
  }

  lemma {:induction false} ZippedWithout(order: seq<nat>, times: seq<int>, i: nat)
    requires forall p :: 0 <= p < |order| ==> order[p] < |times|
    ensures forall p :: 0 <= p < |C.Without(order, i)| ==> C.Without(order, i)[p] < |times|
    ensures Zipped(C.Without(order, i), times) == Removed(Zipped(order, times), i)
  {
    if order != [] {
      ZippedWithout(order[1..], times, i);
      assert Zipped(order, times)[1..] == Zipped(order[1..], times);
    }
  }

  /** Writing the time of an index outside the order changes nothing. */
  lemma {:induction false} ZippedFrame(order: seq<nat>, times: seq<int>, i: nat, t: int)
    requires (forall p :: 0 <= p < |order| ==> order[p] < |times|) && i < |times| && i !in order
    ensures Zipped(order, times[i := t]) == Zipped(order, times)
  {
  }

  lemma {:induction false} ZippedAppend(order: seq<nat>, times: seq<int>, i: nat, t: int)
    requires (forall p :: 0 <= p < |order| ==> order[p] < |times|) && i < |times| && i !in order
    ensures Zipped(order + [i], times[i := t]) == Zipped(order, times) + [Stamp(i, t)]
  {
    ZippedFrame(order, times, i, t);
  }

  lemma {:induction false} HasZipped(order: seq<nat>, times: seq<int>, i: nat)
    requires forall p :: 0 <= p < |order| ==> order[p] < |times|
    ensures Has(Zipped(order, times), i) <==> i in order
  {
    if i in order {
      var p :| 0 <= p < |order| && order[p] == i;
      assert Zipped(order, times)[p].index == i;
    }
  }

  /** Moving an index to the end of the order, with a new time, in both forms. */
  lemma {:induction false} RejuvenatedStamps(order: seq<nat>, times: seq<int>, s: seq<Stamp>, n: nat, i: nat, t: int)
    requires n == |times| && (forall p :: 0 <= p < |order| ==> order[p] < n) && s == Zipped(order, times)
    requires WellFormed(s, n) && Has(s, i) && i < n && NoLaterThan(s, t)
    ensures var o := C.Without(order, i) + [i];
            && (forall p :: 0 <= p < |o| ==> o[p] < n)
            && Zipped(o, times[i := t]) == Removed(s, i) + [Stamp(i, t)]
    ensures WellFormed(Removed(s, i) + [Stamp(i, t)], n)
  {
    ZippedWithout(order, times, i);
    RemoveDrops(s, n, i);
    HasZipped(C.Without(order, i), times, i);
    ZippedAppend(C.Without(order, i), times, i, t);
    AppendStamps(Removed(s, i), n, i, t);
  }

  class DoubleChain {
    const cells: C.CellChain
    const times: array<int>
    ghost var stamps: seq<Stamp>     // indexes with their times, oldest first

    /** The objects an allocator is made of. */
    ghost const repr: set<object>

    /** The cells give the order and the array the times of the stamps. */
    ghost predicate Linked()
      reads this, cells, cells.cells, times
    {
      && repr == {this, cells, cells.cells, times}
      && cells.Valid()
      && times.Length == cells.Range()
      && stamps == Zipped(cells.Order(), times[..])
      && WellFormed(stamps, times.Length)
    }

    ghost predicate Valid()
      reads this, repr
    {
      && this in repr && cells in repr && cells.cells in repr && times in repr
      && forall u {:trigger Show(u)} :: Show(u) ==> Linked()
    }

    // Always true. It keeps the cells out of sight of the verifier until it is mentioned.
    ghost predicate Show(u: int) { true }

    lemma {:induction false} IndexesBelow()
      requires Valid()
      ensures Indexes(stamps) <= Below(times.Length)
    {
      assert Show(0);
      forall i | i in Indexes(stamps)
        ensures i in Below(times.Length)
      {
        assert IsNat(i);
      }
    }

    constructor (range: nat)
      requires 0 < range
      ensures Valid() && fresh(repr) && times.Length == range && stamps == []
    {
      var order := new C.CellChain(range);
      cells := order;
      times := new int[range];
      stamps := [];
      repr := {this, order, order.cells, times};
    }

    method AllocateNewIndex(time: int) returns (ok: bool, index: nat)
      requires Valid() && NoLaterThan(stamps, time)
      modifies repr
      ensures Valid()
      ensures ok <==> |old(stamps)| < times.Length
      ensures ok ==> index < times.Length && !Has(old(stamps), index)
      ensures stamps == if ok then old(stamps) + [Stamp(index, time)] else old(stamps)
    {
      assert Show(0);
      ghost var order, was := cells.Order(), times[..];
      ok, index := cells.AllocateNewIndex();
      assert times[..] == was;
      if ok {
        HasZipped(order, was, index);
        ZippedAppend(order, was, index, time);
        AppendStamps(Zipped(order, was), times.Length, index, time);
        times[index] := time;
        assert times[..] == was[index := time];
        stamps := stamps + [Stamp(index, time)];
      }
    }

    method RejuvenateIndex(index: nat, time: int) returns (ok: bool)
      requires Valid() && index < times.Length && NoLaterThan(stamps, time)
      modifies repr
      ensures Valid()
      ensures ok <==> Has(old(stamps), index)
      ensures stamps == if ok then Removed(old(stamps), index) + [Stamp(index, time)] else old(stamps)
    {
      assert Show(0);
      ghost var order, was, n := cells.Order(), times[..], times.Length;
      HasZipped(order, was, index);
      if Has(stamps, index) {
        RejuvenatedStamps(order, was, stamps, n, index, time);
      }
      ok := cells.RejuvenateIndex(index);
      if ok {
        times[index] := time;
        assert times[..] == was[index := time];
        stamps := Removed(stamps, index) + [Stamp(index, time)];
      }
    }

    /** Releases the oldest index if it is older than the threshold. */
    method ExpireOneIndex(threshold: int) returns (ok: bool, index: nat)
      requires Valid()
      modifies repr
      ensures Valid()
      ensures ok <==> old(stamps) != [] && old(stamps)[0].time < threshold
      ensures ok ==> index == old(stamps)[0].index && stamps == old(stamps)[1..]
      ensures !ok ==> stamps == old(stamps)
    {
      assert Show(0);
      var has;
      has, index := cells.GetOldestIndex();
      ok := false;
      if has && times[index] < threshold {
        ghost var order, was := cells.Order(), times[..];
        ZippedWithout(order, was, index);
        DropOldest(Zipped(order, was));
        ok := cells.FreeIndex(index);
        assert times[..] == was;
        stamps := stamps[1..];
      }
    }

    method FreeIndex(index: nat) returns (ok: bool)
      requires Valid() && index < times.Length
      modifies repr
      ensures Valid()
      ensures ok <==> Has(old(stamps), index)
      ensures stamps == if ok then Removed(old(stamps), index) else old(stamps)
    {
      assert Show(0);
      ghost var order, was := cells.Order(), times[..];
      HasZipped(order, was, index);
      ZippedWithout(order, was, index);
      if Has(Zipped(order, was), index) {
        RemoveDrops(Zipped(order, was), times.Length, index);
      } else {
        C.WithoutAbsent(order, index);
      }
      ok := cells.FreeIndex(index);
      assert times[..] == was;
      stamps := if ok then Removed(stamps, index) else stamps;
    }

    method IsIndexAllocated(index: nat) returns (taken: bool)
      requires Valid() && index < times.Length
      ensures taken <==> Has(stamps, index)
    {
      assert Show(0);
      HasZipped(cells.Order(), times[..], index);
      taken := cells.IsIndexAllocated(index);
    }
  }
}

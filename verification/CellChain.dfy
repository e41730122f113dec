/** The index allocator over an array of cells: allocation, release, ageing and the order of age. */
module CellChain {
  import opened Counting
  import opened CellRings

  // ----- Each operation, on values, keeps the layout

  lemma {:induction false} AllocateKeepsLayout(c: seq<Cell>, alloc: seq<nat>, free: seq<nat>)
    requires Layout(c, alloc, free) && free != []
    ensures c[FREE_HEAD].next == free[0] < |c| && |Popped(c)| == |c|
    ensures var t := Popped(c)[ALLOC_HEAD].prev;
            && t < |c| && Popped(c)[t].next == ALLOC_HEAD
            && Layout(Inserted(Popped(c), t, free[0]), alloc + [free[0]], free[1..])
  {
    PopKeepsRing(c, free);
    var c1, x := Popped(c), free[0];
    AllocRingFrame(c, c1, alloc);
    assert x !in alloc by { OneOfTwo(c, alloc, free, x); }
    InsertKeepsRing(c1, alloc, |alloc|, x);
    InsertFrame(c1, alloc, |alloc|, x);
    var t := Closed(ALLOC_HEAD, alloc)[|alloc|];
    assert InsertAt(alloc, |alloc|, x) == alloc + [x];
    FreeRingFrame(c1, Inserted(c1, t, x), free[1..]);
  }

  lemma {:induction false} FreeKeepsLayout(c: seq<Cell>, alloc: seq<nat>, free: seq<nat>, k: nat)
    requires Layout(c, alloc, free) && k < |alloc|
    ensures alloc[k] < |c| && c[alloc[k]].prev < |c| && c[alloc[k]].next < |c|
    ensures Layout(Pushed(Unlinked(c, alloc[k]), alloc[k]), RemoveAt(alloc, k), [alloc[k]] + free)
  {
    UnlinkKeepsRing(c, alloc, k);
    UnlinkFrame(c, alloc, k);
    var x := alloc[k];
    var c1 := Unlinked(c, x);
    FreeRingFrame(c, c1, free);
    PushKeepsRing(c1, free, x);
    AllocRingFrame(c1, Pushed(c1, x), RemoveAt(alloc, k));
    assert IsList(RemoveAt(alloc, k), |c|) && IsList([x] + free, |c|) && Apart(RemoveAt(alloc, k), [x] + free);
  }

  lemma {:induction false} MovedList(alloc: seq<nat>, free: seq<nat>, n: nat, k: nat, j: nat)
    requires IsList(alloc, n) && Apart(alloc, free) && k < |alloc| && j < |alloc|
    ensures var rest := RemoveAt(alloc, k);
            && IsList(rest, n) && alloc[k] !in rest
            && IsList(InsertAt(rest, j, alloc[k]), n) && Apart(InsertAt(rest, j, alloc[k]), free)
  {
    var x, rest := alloc[k], RemoveAt(alloc, k);
    assert IsList(rest, n) && x !in rest;
    var moved := InsertAt(rest, j, x);
    assert Distinct(moved);
    assert forall y :: y in moved ==> y in alloc;
    assert forall i :: 0 <= i < |moved| ==> moved[i] in alloc;
  }

  lemma {:induction false} MoveKeepsLayout(c: seq<Cell>, alloc: seq<nat>, free: seq<nat>, k: nat, j: nat)
    requires Layout(c, alloc, free) && k < |alloc| && j < |alloc|
    ensures alloc[k] < |c| && c[alloc[k]].prev < |c| && c[alloc[k]].next < |c|
    ensures var c1, rest := Unlinked(c, alloc[k]), RemoveAt(alloc, k);
            var t := Closed(ALLOC_HEAD, rest)[j];
            && t < |c| && c1[t].next < |c|
            && Layout(Inserted(c1, t, alloc[k]), InsertAt(rest, j, alloc[k]), free)
  {
    UnlinkKeepsRing(c, alloc, k);
    UnlinkFrame(c, alloc, k);
    var x, rest := alloc[k], RemoveAt(alloc, k);
    var c1 := Unlinked(c, x);
    FreeRingFrame(c, c1, free);
    MovedList(alloc, free, |c|, k, j);
    InsertKeepsRing(c1, rest, j, x);
    InsertFrame(c1, rest, j, x);
    FreeRingFrame(c1, Inserted(c1, Closed(ALLOC_HEAD, rest)[j], x), free);
  }

  /** Moving a cell to the young end of the alloc ring. */
  lemma {:induction false} RejuvenateKeepsLayout(c: seq<Cell>, alloc: seq<nat>, free: seq<nat>, k: nat)
    requires Layout(c, alloc, free) && k < |alloc|
    ensures alloc[k] < |c| && c[alloc[k]].prev < |c| && c[alloc[k]].next < |c|
    ensures var c1 := Unlinked(c, alloc[k]);
            var last := c1[ALLOC_HEAD].prev;
            && last < |c| && c1[last].next == ALLOC_HEAD
            && Layout(Inserted(c1, last, alloc[k]), RemoveAt(alloc, k) + [alloc[k]], free)
  {
    MoveKeepsLayout(c, alloc, free, k, |alloc| - 1);
    UnlinkKeepsRing(c, alloc, k);
    var rest := RemoveAt(alloc, k);
    assert InsertAt(rest, |rest|, alloc[k]) == rest + [alloc[k]];
    assert Unlinked(c, alloc[k])[ALLOC_HEAD].prev == Closed(ALLOC_HEAD, rest)[|rest|];
  }

  // ----- The order of age

  function Lower(x: nat): nat {
    if x < INDEX_SHIFT then 0 else x - INDEX_SHIFT
  }

  function Lowered(list: seq<nat>): (r: seq<nat>)
    ensures |r| == |list| && forall i :: 0 <= i < |r| ==> r[i] == Lower(list[i])
  {
    seq(|list|, i requires 0 <= i < |list| => Lower(list[i]))
  }

  lemma {:induction false} LoweredMember(list: seq<nat>, n: nat, x: nat)
    requires IsList(list, n)
    ensures x in Lowered(list) <==> x + INDEX_SHIFT in list
  {
    if x + INDEX_SHIFT in list {
      var k :| 0 <= k < |list| && list[k] == x + INDEX_SHIFT;
      assert Lowered(list)[k] == x;
    }
    if x in Lowered(list) {
      var k :| 0 <= k < |list| && Lowered(list)[k] == x;
      assert list[k] in list;
    }
  }

  lemma {:induction false} LoweredDistinct(list: seq<nat>, n: nat)
    requires IsList(list, n) && n >= INDEX_SHIFT
    ensures Distinct(Lowered(list))
    ensures forall i :: 0 <= i < |list| ==> Lowered(list)[i] < n - INDEX_SHIFT
  {
    forall i | 0 <= i < |list|
      ensures INDEX_SHIFT <= list[i] < n
    {
      assert list[i] in list;
    }
  }

  /** A sequence without the first occurrence of a value. */
  function Without(s: seq<nat>, x: nat): (r: seq<nat>) {
    if s == [] then [] else if s[0] == x then s[1..] else [s[0]] + Without(s[1..], x)
  }

  lemma {:induction false} WithoutAt(s: seq<nat>, k: nat)
    requires Distinct(s) && k < |s|
    ensures Without(s, s[k]) == s[..k] + s[k + 1..]
  {
    if k > 0 {
      var t := s[1..];
      WithoutAt(t, k - 1);
      assert t[k - 1] == s[k] && s[0] != s[k];
      assert [s[0]] + (t[..k - 1] + t[k..]) == s[..k] + s[k + 1..];
    }
  }

  lemma {:induction false} LoweredRemove(list: seq<nat>, n: nat, k: nat)
    requires IsList(list, n) && k < |list|
    ensures Lowered(RemoveAt(list, k)) == Without(Lowered(list), Lower(list[k]))
  {
    LoweredDistinct(list, if n < INDEX_SHIFT then INDEX_SHIFT else n);
    WithoutAt(Lowered(list), k);
  }

  lemma {:induction false} RejuvenatedOrder(list: seq<nat>, n: nat, k: nat)
    requires IsList(list, n) && k < |list|
    ensures Lowered(RemoveAt(list, k) + [list[k]]) == Without(Lowered(list), Lower(list[k])) + [Lower(list[k])]
  {
    LoweredRemove(list, n, k);
    assert Lowered(RemoveAt(list, k) + [list[k]]) == Lowered(RemoveAt(list, k)) + [Lower(list[k])];
  }

  lemma {:induction false} InitialLayout(c: seq<Cell>, size: nat)
    requires 0 < size && |c| == size + INDEX_SHIFT
    requires c[ALLOC_HEAD] == Cell(0, 0) && c[FREE_HEAD] == Cell(INDEX_SHIFT, INDEX_SHIFT)
    requires forall x :: INDEX_SHIFT <= x < |c| - 1 ==> c[x] == Cell(x + 1, x + 1)
    requires c[|c| - 1] == Cell(FREE_HEAD, FREE_HEAD)
    ensures Layout(c, [], InitialFree(size))
  {
    var ring := Closed(FREE_HEAD, InitialFree(size));
    assert forall i :: 0 < i <= size ==> ring[i] == i + 1;
  }

  function InitialFree(size: nat): (r: seq<nat>)
    ensures |r| == size && forall i :: 0 <= i < size ==> r[i] == i + INDEX_SHIFT
  {
    seq(size, i requires 0 <= i < size => i + INDEX_SHIFT)
  }

  class CellChain {
    const cells: array<Cell>
    ghost var alloc: seq<nat>
    ghost var free: seq<nat>

    ghost predicate Valid()
      reads this, cells
    {
      Layout(cells[..], alloc, free)
    }

    ghost function Range(): (n: nat)
      requires cells.Length >= INDEX_SHIFT
    {
      cells.Length - INDEX_SHIFT
    }

    /** The allocated indexes, least recently allocated or rejuvenated first. */
    ghost function Order(): (s: seq<nat>)
      reads this, cells
      requires Valid()
      ensures Distinct(s)
      ensures forall i :: 0 <= i < |s| ==> s[i] < Range()
    {
      LoweredDistinct(alloc, cells.Length);
      Lowered(alloc)
    }

    constructor (size: nat)
      requires 0 < size
      ensures Valid() && fresh(cells) && Range() == size
      ensures Order() == []
    {
      cells := new Cell[size + INDEX_SHIFT](_ => Cell(0, 0));
      alloc := [];
      free := InitialFree(size);
      new;
      cells[FREE_HEAD] := Cell(INDEX_SHIFT, INDEX_SHIFT);
      var i: nat := INDEX_SHIFT;
      while i < size + INDEX_SHIFT - 1
        invariant INDEX_SHIFT <= i <= size + INDEX_SHIFT - 1
        invariant alloc == [] && free == InitialFree(size)
        invariant cells[ALLOC_HEAD] == Cell(0, 0) && cells[FREE_HEAD] == Cell(INDEX_SHIFT, INDEX_SHIFT)
        invariant forall x :: INDEX_SHIFT <= x < i ==> cells[x] == Cell(x + 1, x + 1)
      {
        cells[i] := Cell(i + 1, i + 1);
        i := i + 1;
      }
      cells[i] := Cell(FREE_HEAD, FREE_HEAD);
      InitialLayout(cells[..], size);
    }

    method AllocateNewIndex() returns (ok: bool, index: nat)
      requires Valid()
      modifies this, cells
      ensures Valid()
      ensures ok <==> |old(Order())| < Range()
      ensures ok ==> index < Range() && index !in old(Order()) && Order() == old(Order()) + [index]
      ensures !ok ==> Order() == old(Order())
    {
      var taken := cells[FREE_HEAD].next;
      assert Closed(FREE_HEAD, free)[1] == taken && (free == [] || free[0] in free);
      if taken == FREE_HEAD {
        return false, 0;
      }
      AllocateKeepsLayout(cells[..], alloc, free);
      LoweredMember(alloc, cells.Length, taken - INDEX_SHIFT);
      ghost var c := cells[..];
      var following := cells[taken].next;
      cells[FREE_HEAD] := Cell(following, following);
      assert cells[..] == Popped(c);
      var last := cells[ALLOC_HEAD].prev;
      cells[taken] := Cell(last, ALLOC_HEAD);
      cells[last] := cells[last].(next := taken);
      cells[ALLOC_HEAD] := cells[ALLOC_HEAD].(prev := taken);
      assert cells[..] == Inserted(Popped(c), last, taken);
      alloc, free := alloc + [taken], free[1..];
      return true, taken - INDEX_SHIFT;
    }

    method FreeIndex(index: nat) returns (ok: bool)
      requires Valid() && index < Range()
      modifies this, cells
      ensures Valid()
      ensures ok <==> index in old(Order())
      ensures Order() == Without(old(Order()), index)
    {
      var freed := index + INDEX_SHIFT;
      AllocatedTest(cells[..], alloc, free, freed);
      LoweredMember(alloc, cells.Length, index);
      var prev, next := cells[freed].prev, cells[freed].next;
      if next == prev && prev != ALLOC_HEAD {
        WithoutAbsent(Lowered(alloc), index);
        return false;
      }
      ghost var k :| 0 <= k < |alloc| && alloc[k] == freed;
      FreeKeepsLayout(cells[..], alloc, free, k);
      LoweredRemove(alloc, cells.Length, k);
      ghost var c := cells[..];
      cells[prev] := cells[prev].(next := next);
      cells[next] := cells[next].(prev := prev);
      assert cells[..] == Unlinked(c, freed);
      var first := cells[FREE_HEAD].next;
      cells[freed] := Cell(first, first);
      cells[FREE_HEAD] := Cell(freed, freed);
      assert cells[..] == Pushed(Unlinked(c, freed), freed);
      alloc, free := RemoveAt(alloc, k), [freed] + free;
      return true;
    }

    method RejuvenateIndex(index: nat) returns (ok: bool)
      requires Valid() && index < Range()
      modifies this, cells
      ensures Valid()
      ensures ok <==> index in old(Order())
      ensures Order() == if ok then Without(old(Order()), index) + [index] else old(Order())
    {
      var lifted := index + INDEX_SHIFT;
      AllocatedTest(cells[..], alloc, free, lifted);
      LoweredMember(alloc, cells.Length, index);
      var prev, next := cells[lifted].prev, cells[lifted].next;
      if next == prev && next != ALLOC_HEAD {
        return false;
      }
      ghost var k :| 0 <= k < |alloc| && alloc[k] == lifted;
      RejuvenatedOrder(alloc, cells.Length, k);
      if next == prev {
        OnlyOne(cells[..], alloc, k);
        return true;
      }
      RejuvenateKeepsLayout(cells[..], alloc, free, k);
      ghost var c := cells[..];
      cells[prev] := cells[prev].(next := next);
      cells[next] := cells[next].(prev := prev);
      assert cells[..] == Unlinked(c, lifted);
      var last := cells[ALLOC_HEAD].prev;
      cells[lifted] := Cell(last, ALLOC_HEAD);
      cells[last] := cells[last].(next := lifted);
      cells[ALLOC_HEAD] := cells[ALLOC_HEAD].(prev := lifted);
      assert cells[..] == Inserted(Unlinked(c, lifted), last, lifted);
      alloc := RemoveAt(alloc, k) + [lifted];
      return true;
    }

    method GetOldestIndex() returns (ok: bool, index: nat)
      requires Valid()
      ensures ok <==> Order() != []
      ensures ok ==> index == Order()[0]
    {
      assert Closed(ALLOC_HEAD, alloc)[1] == cells[ALLOC_HEAD].next && (alloc == [] || alloc[0] in alloc);
      var first := cells[ALLOC_HEAD].next;
      if first == cells[ALLOC_HEAD].prev && first == ALLOC_HEAD {
        return false, 0;
      }
      return true, first - INDEX_SHIFT;
    }

    method IsIndexAllocated(index: nat) returns (taken: bool)
      requires Valid() && index < Range()
      ensures taken <==> index in Order()
    {
      AllocatedTest(cells[..], alloc, free, index + INDEX_SHIFT);
      var cell := cells[index + INDEX_SHIFT];
      taken := if cell.next == cell.prev then cell.next == ALLOC_HEAD else true;
      LoweredMember(alloc, cells.Length, index);
    }
  }

  lemma {:induction false} WithoutAbsent(s: seq<nat>, x: nat)
    requires x !in s
    ensures Without(s, x) == s
  {
    if s != [] {
      WithoutAbsent(s[1..], x);
    }
  }

  lemma {:induction false} OnlyOne(c: seq<Cell>, alloc: seq<nat>, k: nat)
    requires AllocRing(c, alloc) && IsList(alloc, |c|) && k < |alloc|
    requires alloc[k] < |c| && c[alloc[k]] == Cell(ALLOC_HEAD, ALLOC_HEAD)
    ensures alloc == [alloc[k]]
  {
    var ring := Closed(ALLOC_HEAD, alloc);
    assert ring[k + 1] == alloc[k];
    assert ring[k] == ALLOC_HEAD && ring[k + 2] == ALLOC_HEAD;
    ClosedDistinct(ALLOC_HEAD, alloc, |c|);
  }
}

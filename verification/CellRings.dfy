/** Two closed lists inside one array of cells: the ordered, doubly linked list of allocated cells
    through head cell 0, and the list of free cells through head cell 1. */
module CellRings {
  import opened Counting

  const ALLOC_HEAD: nat := 0
  const FREE_HEAD: nat := 1
  const INDEX_SHIFT: nat := 2

  datatype Cell = Cell(prev: nat, next: nat)

  /** A list with its head written at both ends, so that neighbours are neighbours. */
  function Closed(head: nat, list: seq<nat>): (r: seq<nat>)
    ensures |r| == |list| + 2 && r[0] == head && r[|r| - 1] == head
    ensures forall i :: 0 < i < |r| - 1 ==> r[i] == list[i - 1]
  {
    [head] + list + [head]
  }

  ghost predicate AllocRing(c: seq<Cell>, alloc: seq<nat>) {
    DoublyLinked(c, Closed(ALLOC_HEAD, alloc))
  }

  ghost predicate DoublyLinked(c: seq<Cell>, ring: seq<nat>) {
    && |c| >= INDEX_SHIFT
    && (forall i :: 0 <= i < |ring| ==> ring[i] < |c|)
    && (forall i :: 0 <= i < |ring| - 1 ==> c[ring[i]].next == ring[i + 1])
    && (forall i :: 0 < i < |ring| ==> c[ring[i]].prev == ring[i - 1])
  }

  ghost predicate FreeRing(c: seq<Cell>, free: seq<nat>) {
    SinglyLinked(c, Closed(FREE_HEAD, free))
  }

  ghost predicate SinglyLinked(c: seq<Cell>, ring: seq<nat>) {
    && |c| >= INDEX_SHIFT
    && (forall i :: 0 <= i < |ring| ==> ring[i] < |c|)
    && (forall i :: 0 <= i < |ring| - 1 ==> c[ring[i]].next == ring[i + 1] && c[ring[i]].prev == ring[i + 1])
  }

  /** Distinct cells of an array of length `n`, no head among them. */
  ghost predicate IsList(list: seq<nat>, n: nat) {
    && Distinct(list)
    && (forall i :: 0 <= i < |list| ==> INDEX_SHIFT <= list[i] < n)
    && (forall x :: x in list ==> INDEX_SHIFT <= x < n)
  }

  ghost predicate Apart(a: seq<nat>, b: seq<nat>) {
    && (forall i :: 0 <= i < |a| ==> a[i] !in b)
    && (forall i :: 0 <= i < |b| ==> b[i] !in a)
  }

  /** The layout: the two rings share no cell and between them hold all cells. */
  ghost predicate Layout(c: seq<Cell>, alloc: seq<nat>, free: seq<nat>) {
    && |c| >= INDEX_SHIFT
    && IsList(alloc, |c|) && IsList(free, |c|) && Apart(alloc, free)
    && |alloc| + |free| + INDEX_SHIFT == |c|
    && AllocRing(c, alloc)
    && FreeRing(c, free)
  }

  // ----- Linking and unlinking cells of the alloc ring

  function SetNext(c: seq<Cell>, i: nat, x: nat): (r: seq<Cell>)
    requires i < |c|
    ensures |r| == |c|
  {
    c[i := c[i].(next := x)]
  }

  function SetPrev(c: seq<Cell>, i: nat, x: nat): (r: seq<Cell>)
    requires i < |c|
    ensures |r| == |c|
  {
    c[i := c[i].(prev := x)]
  }

  /** Takes cell `x` out from between its neighbours. */
  function Unlinked(c: seq<Cell>, x: nat): (r: seq<Cell>)
    requires x < |c| && c[x].prev < |c| && c[x].next < |c|
    ensures |r| == |c|
  {
    SetPrev(SetNext(c, c[x].prev, c[x].next), c[x].next, c[x].prev)
  }

  /** Puts cell `x` between `t` and its successor. */
  function Inserted(c: seq<Cell>, t: nat, x: nat): (r: seq<Cell>)
    requires t < |c| && x < |c| && c[t].next < |c|
    ensures |r| == |c|
  {
    SetNext(SetPrev(c[x := Cell(t, c[t].next)], c[t].next, x), t, x)
  }

  function RemoveAt(s: seq<nat>, k: nat): (r: seq<nat>)
    requires k < |s|
    ensures |r| == |s| - 1 && forall i :: 0 <= i < |r| ==> r[i] == if i < k then s[i] else s[i + 1]
    ensures forall x :: x in r ==> x in s
  {
    s[..k] + s[k + 1..]
  }

  function InsertAt(s: seq<nat>, k: nat, x: nat): (r: seq<nat>)
    requires k <= |s|
    ensures |r| == |s| + 1
    ensures forall i :: 0 <= i < |r| ==> r[i] == if i < k then s[i] else if i == k then x else s[i - 1]
    ensures forall y :: y in r ==> y in s || y == x
  {
    s[..k] + [x] + s[k..]
  }

  /** Ring positions of different cells differ, except that both ends are the head. */
  ghost predicate RingDistinct(ring: seq<nat>) {
    && |ring| >= 2 && ring[0] == ring[|ring| - 1]
    && forall i, j :: 0 <= i < j < |ring| && !(i == 0 && j == |ring| - 1) ==> ring[i] != ring[j]
  }

  lemma {:induction false} ClosedDistinct(head: nat, list: seq<nat>, n: nat)
    requires head < INDEX_SHIFT && IsList(list, n)
    ensures RingDistinct(Closed(head, list))
  {
  }

  lemma {:induction false} UnlinkRing(c: seq<Cell>, ring: seq<nat>, k: nat)
    requires DoublyLinked(c, ring) && RingDistinct(ring) && 0 < k < |ring| - 1
    ensures c[ring[k]] == Cell(ring[k - 1], ring[k + 1])
    ensures DoublyLinked(Unlinked(c, ring[k]), RemoveAt(ring, k))
  {
    var d := SetNext(c, ring[k - 1], ring[k + 1]);
    assert Unlinked(c, ring[k]) == SetPrev(d, ring[k + 1], ring[k - 1]);
    assert forall i :: 0 <= i < |ring| - 1 && i != k - 1 ==> d[ring[i]].next == ring[i + 1];
  }

  lemma {:induction false} InsertFields(c: seq<Cell>, ring: seq<nat>, k: nat, x: nat)
    requires DoublyLinked(c, ring) && RingDistinct(ring) && k < |ring| - 1
    requires x < |c| && x !in ring
    ensures c[ring[k]].next == ring[k + 1]
    ensures var d := Inserted(c, ring[k], x);
            && d[x] == Cell(ring[k], ring[k + 1])
            && (forall i :: 0 <= i < |ring| - 1 ==> d[ring[i]].next == if i == k then x else ring[i + 1])
            && (forall i :: 0 < i < |ring| ==> d[ring[i]].prev == if i == k + 1 then x else ring[i - 1])
  {
    assert c[ring[k]].next == ring[k + 1] < |c|;
    var d := Inserted(c, ring[k], x);
    forall i | 0 <= i < |ring| - 1
      ensures d[ring[i]].next == if i == k then x else ring[i + 1]
    {
      assert ring[i] != x;
    }
    forall i | 0 < i < |ring|
      ensures d[ring[i]].prev == if i == k + 1 then x else ring[i - 1]
    {
      assert ring[i] != x;
    }
  }

  lemma {:induction false} InsertRing(c: seq<Cell>, ring: seq<nat>, k: nat, x: nat)
    requires DoublyLinked(c, ring) && RingDistinct(ring) && k < |ring| - 1
    requires x < |c| && x !in ring
    ensures c[ring[k]].next == ring[k + 1]
    ensures DoublyLinked(Inserted(c, ring[k], x), InsertAt(ring, k + 1, x))
  {
    InsertFields(c, ring, k, x);
    LinkedByFields(Inserted(c, ring[k], x), ring, k, x);
  }

  lemma {:induction false} LinkedByFields(d: seq<Cell>, ring: seq<nat>, k: nat, x: nat)
    requires |d| >= INDEX_SHIFT && (forall i :: 0 <= i < |ring| ==> ring[i] < |d|) && k < |ring| - 1 && x < |d|
    requires d[x] == Cell(ring[k], ring[k + 1])
    requires forall i :: 0 <= i < |ring| - 1 ==> d[ring[i]].next == if i == k then x else ring[i + 1]
    requires forall i :: 0 < i < |ring| ==> d[ring[i]].prev == if i == k + 1 then x else ring[i - 1]
    ensures DoublyLinked(d, InsertAt(ring, k + 1, x))
  {
  }

  lemma {:induction false} UnlinkKeepsRing(c: seq<Cell>, alloc: seq<nat>, k: nat)
    requires AllocRing(c, alloc) && IsList(alloc, |c|) && k < |alloc|
    ensures alloc[k] < |c| && c[alloc[k]].prev < |c| && c[alloc[k]].next < |c|
    ensures AllocRing(Unlinked(c, alloc[k]), RemoveAt(alloc, k))
  {
    ClosedDistinct(ALLOC_HEAD, alloc, |c|);
    UnlinkRing(c, Closed(ALLOC_HEAD, alloc), k + 1);
    assert RemoveAt(Closed(ALLOC_HEAD, alloc), k + 1) == Closed(ALLOC_HEAD, RemoveAt(alloc, k));
  }

  lemma {:induction false} InsertKeepsRing(c: seq<Cell>, alloc: seq<nat>, k: nat, x: nat)
    requires AllocRing(c, alloc) && IsList(alloc, |c|) && k <= |alloc|
    requires INDEX_SHIFT <= x < |c| && x !in alloc
    ensures var t := Closed(ALLOC_HEAD, alloc)[k];
            t < |c| && c[t].next < |c| && AllocRing(Inserted(c, t, x), InsertAt(alloc, k, x))
  {
    ClosedDistinct(ALLOC_HEAD, alloc, |c|);
    InsertRing(c, Closed(ALLOC_HEAD, alloc), k, x);
    assert InsertAt(Closed(ALLOC_HEAD, alloc), k + 1, x) == Closed(ALLOC_HEAD, InsertAt(alloc, k, x));
  }

  /** Surgery on the alloc ring touches only cells of that ring (and the inserted cell). */
  lemma {:induction false} UnlinkFrame(c: seq<Cell>, alloc: seq<nat>, k: nat)
    requires AllocRing(c, alloc) && k < |alloc|
    ensures alloc[k] < |c| && c[alloc[k]].prev < |c| && c[alloc[k]].next < |c|
    ensures forall y: nat :: y < |c| && y != ALLOC_HEAD && y !in alloc ==> Unlinked(c, alloc[k])[y] == c[y]
  {
    var ring := Closed(ALLOC_HEAD, alloc);
    assert ring[k + 1] == alloc[k];
    assert forall i :: 0 <= i < |ring| ==> ring[i] == ALLOC_HEAD || ring[i] in alloc;
    assert c[alloc[k]] == Cell(ring[k], ring[k + 2]);
  }

  lemma {:induction false} InsertFrame(c: seq<Cell>, alloc: seq<nat>, k: nat, x: nat)
    requires AllocRing(c, alloc) && k <= |alloc| && x < |c|
    ensures var t := Closed(ALLOC_HEAD, alloc)[k];
            && t < |c| && c[t].next < |c|
            && forall y: nat :: y < |c| && y != ALLOC_HEAD && y !in alloc && y != x ==> Inserted(c, t, x)[y] == c[y]
  {
    var ring := Closed(ALLOC_HEAD, alloc);
    assert forall i :: 0 <= i < |ring| ==> ring[i] == ALLOC_HEAD || ring[i] in alloc;
    assert c[ring[k]].next == ring[k + 1];
  }

  /** A ring depends only on its own cells. */
  lemma {:induction false} FreeRingFrame(c: seq<Cell>, d: seq<Cell>, free: seq<nat>)
    requires FreeRing(c, free) && |c| == |d|
    requires d[FREE_HEAD] == c[FREE_HEAD]
    requires forall x :: x in free ==> x < |c| && d[x] == c[x]
    ensures FreeRing(d, free)
  {
    var ring := Closed(FREE_HEAD, free);
    assert forall i :: 0 <= i < |ring| ==> ring[i] == FREE_HEAD || ring[i] in free;
  }

  lemma {:induction false} AllocRingFrame(c: seq<Cell>, d: seq<Cell>, alloc: seq<nat>)
    requires AllocRing(c, alloc) && |c| == |d|
    requires d[ALLOC_HEAD] == c[ALLOC_HEAD]
    requires forall x :: x in alloc ==> x < |c| && d[x] == c[x]
    ensures AllocRing(d, alloc)
  {
    var ring := Closed(ALLOC_HEAD, alloc);
    assert forall i :: 0 <= i < |ring| ==> ring[i] == ALLOC_HEAD || ring[i] in alloc;
  }

  // ----- Surgery on the free ring

  /** Takes the first free cell off the free ring. */
  function Popped(c: seq<Cell>): (r: seq<Cell>)
    requires |c| >= INDEX_SHIFT && c[FREE_HEAD].next < |c|
    ensures |r| == |c|
  {
    var n := c[c[FREE_HEAD].next].next;
    c[FREE_HEAD := Cell(n, n)]
  }

  /** Puts cell `x` at the front of the free ring. */
  function Pushed(c: seq<Cell>, x: nat): (r: seq<Cell>)
    requires |c| >= INDEX_SHIFT && x < |c|
    ensures |r| == |c|
  {
    var n := c[FREE_HEAD].next;
    c[x := Cell(n, n)][FREE_HEAD := Cell(x, x)]
  }

  lemma {:induction false} PopKeepsRing(c: seq<Cell>, free: seq<nat>)
    requires FreeRing(c, free) && IsList(free, |c|) && free != [] && |c| >= INDEX_SHIFT
    ensures c[FREE_HEAD].next == free[0] && free[0] < |c|
    ensures FreeRing(Popped(c), free[1..])
  {
    var ring, ring' := Closed(FREE_HEAD, free), Closed(FREE_HEAD, free[1..]);
    ClosedDistinct(FREE_HEAD, free, |c|);
    assert ring[0] == FREE_HEAD && ring[1] == free[0];
    assert forall i :: 0 < i < |ring'| ==> ring'[i] == ring[i + 1];
    assert Popped(c)[FREE_HEAD] == Cell(ring[2], ring[2]);
  }

  lemma {:induction false} PushKeepsRing(c: seq<Cell>, free: seq<nat>, x: nat)
    requires FreeRing(c, free) && IsList(free, |c|) && |c| >= INDEX_SHIFT
    requires INDEX_SHIFT <= x < |c| && x !in free
    ensures FreeRing(Pushed(c, x), [x] + free)
  {
    var ring, ring' := Closed(FREE_HEAD, free), Closed(FREE_HEAD, [x] + free);
    ClosedDistinct(FREE_HEAD, free, |c|);
    assert ring[0] == FREE_HEAD;
    assert forall i :: 1 < i < |ring'| ==> ring'[i] == ring[i - 1];
    assert ring'[1] == x && ring'[0] == FREE_HEAD;
  }

  // ----- What the layout says about single cells

  /** Every cell but the heads is on exactly one of the lists. */
  lemma {:induction false} OneOfTwo(c: seq<Cell>, alloc: seq<nat>, free: seq<nat>, x: nat)
    requires Layout(c, alloc, free) && INDEX_SHIFT <= x < |c|
    ensures x in alloc <==> x !in free
  {
    var all := alloc + free;
    assert Distinct(all) && forall i :: 0 <= i < |all| ==> all[i] in alloc || all[i] in free;
    var lowered := seq(|all|, i requires 0 <= i < |all| => all[i] - INDEX_SHIFT);
    Pigeonhole(lowered, |c| - INDEX_SHIFT);
    assert x - INDEX_SHIFT in lowered;
  }

  /** The allocation test of the code: the two fields differ, or both name the alloc head. */
  predicate LooksAllocated(cell: Cell) {
    cell.prev != cell.next || cell.next == ALLOC_HEAD
  }

  lemma {:induction false} AllocatedTest(c: seq<Cell>, alloc: seq<nat>, free: seq<nat>, x: nat)
    requires Layout(c, alloc, free) && INDEX_SHIFT <= x < |c|
    ensures LooksAllocated(c[x]) <==> x in alloc
  {
    OneOfTwo(c, alloc, free, x);
    if x in alloc {
      var k :| 0 <= k < |alloc| && alloc[k] == x;
      var ring := Closed(ALLOC_HEAD, alloc);
      assert ring[k + 1] == x;
      ClosedDistinct(ALLOC_HEAD, alloc, |c|);
      assert c[x].prev == ring[k] && c[x].next == ring[k + 2];
    } else {
      var k :| 0 <= k < |free| && free[k] == x;
      var ring := Closed(FREE_HEAD, free);
      assert ring[k + 1] == x;
      assert ring[k + 2] != ALLOC_HEAD;
    }
  }

  /** The fields alone determine both lists: there is only one way to read an array of cells. */
  lemma {:induction false} LayoutIsUnique(c: seq<Cell>, a1: seq<nat>, f1: seq<nat>, a2: seq<nat>, f2: seq<nat>)
    requires Layout(c, a1, f1) && Layout(c, a2, f2)
    ensures a1 == a2 && f1 == f2
  {
    AllocRingIsUnique(c, a1, a2);
    FreeRingIsUnique(c, f1, f2);
  }

  lemma {:induction false} AllocRingIsUnique(c: seq<Cell>, a: seq<nat>, b: seq<nat>)
    requires AllocRing(c, a) && AllocRing(c, b) && IsList(a, |c|) && IsList(b, |c|)
    ensures a == b
  {
    if |a| <= |b| { AllocPrefix(c, a, b, |a| + 1); } else { AllocPrefix(c, b, a, |b| + 1); }
  }

  lemma {:induction false} FreeRingIsUnique(c: seq<Cell>, a: seq<nat>, b: seq<nat>)
    requires FreeRing(c, a) && FreeRing(c, b) && IsList(a, |c|) && IsList(b, |c|)
    ensures a == b
  {
    if |a| <= |b| { FreePrefix(c, a, b, |a| + 1); } else { FreePrefix(c, b, a, |b| + 1); }
  }

  lemma {:induction false} AllocPrefix(c: seq<Cell>, a: seq<nat>, b: seq<nat>, n: nat)
    requires AllocRing(c, a) && AllocRing(c, b) && IsList(a, |c|) && IsList(b, |c|) && |a| <= |b| && n <= |a| + 1
    ensures forall i :: 0 <= i <= n ==> Closed(ALLOC_HEAD, a)[i] == Closed(ALLOC_HEAD, b)[i]
    ensures n == |a| + 1 ==> a == b
    decreases n
  {
    var ra, rb := Closed(ALLOC_HEAD, a), Closed(ALLOC_HEAD, b);
    if n > 0 {
      AllocPrefix(c, a, b, n - 1);
      assert ra[n] == c[ra[n - 1]].next == c[rb[n - 1]].next == rb[n];
    }
    if n == |a| + 1 {
      RingsAgree(ALLOC_HEAD, a, b, |c|);
    }
  }

  lemma {:induction false} FreePrefix(c: seq<Cell>, a: seq<nat>, b: seq<nat>, n: nat)
    requires FreeRing(c, a) && FreeRing(c, b) && IsList(a, |c|) && IsList(b, |c|) && |a| <= |b| && n <= |a| + 1
    ensures forall i :: 0 <= i <= n ==> Closed(FREE_HEAD, a)[i] == Closed(FREE_HEAD, b)[i]
    ensures n == |a| + 1 ==> a == b
    decreases n
  {
    var ra, rb := Closed(FREE_HEAD, a), Closed(FREE_HEAD, b);
    if n > 0 {
      FreePrefix(c, a, b, n - 1);
      assert ra[n] == c[ra[n - 1]].next == c[rb[n - 1]].next == rb[n];
    }
    if n == |a| + 1 {
      RingsAgree(FREE_HEAD, a, b, |c|);
    }
  }

  lemma {:induction false} RingsAgree(head: nat, a: seq<nat>, b: seq<nat>, n: nat)
    requires head < INDEX_SHIFT && IsList(a, n) && IsList(b, n) && |a| <= |b|
    requires forall i :: 0 <= i <= |a| + 1 ==> Closed(head, a)[i] == Closed(head, b)[i]
    ensures a == b
  {
    var ra, rb := Closed(head, a), Closed(head, b);
    assert ra[|a| + 1] == head;
    ClosedDistinct(head, b, n);
    assert |a| == |b|;
    forall i | 0 <= i < |a|
      ensures a[i] == b[i]
    {
      assert a[i] == ra[i + 1] && b[i] == rb[i + 1];
    }
  }
}

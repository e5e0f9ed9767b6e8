/** The binary heap of libevent/minheap-internal.h, which holds the events that
    wait for a point in time. Every event knows its own place in it. */
module MinHeap {

  /** An event in the heap with its time. */
  datatype Item = Item(id: int, key: int)

  function Parent(i: nat): nat
    requires i > 0
  {
    (i - 1) / 2
  }

  /** No item is earlier than its parent. */
  ghost predicate Ordered(p: seq<Item>, n: nat)
    requires n <= |p|
  {
    forall i :: 0 < i < n ==> p[Parent(i)].key <= p[i].key
  }

  /** Ordered, except that the item at `h` may be earlier than its parent. */
  ghost predicate OrderedAbove(p: seq<Item>, n: nat, h: nat)
    requires n <= |p|
  {
    && (forall i :: 0 < i < n && i != h ==> p[Parent(i)].key <= p[i].key)
    && (forall i :: 0 < i < n && Parent(i) == h && 0 < h < n ==> p[Parent(h)].key <= p[i].key)
  }

  /** Ordered, except that the item at `h` may be later than its children. */
  ghost predicate OrderedBelow(p: seq<Item>, n: nat, h: nat)
    requires n <= |p|
  {
    && (forall i :: 0 < i < n && Parent(i) != h ==> p[Parent(i)].key <= p[i].key)
    && (forall i :: 0 < i < n && Parent(i) == h && 0 < h < n ==> p[Parent(h)].key <= p[i].key)
  }

  /** Every item in the heap knows its place (min_heap_idx), and no other does. */
  ghost predicate Linked(p: seq<Item>, n: nat, idx: map<int, nat>) {
    && n <= |p|
    && (forall i :: 0 <= i < n ==> p[i].id in idx && idx[p[i].id] == i)
    && (forall id :: id in idx ==> idx[id] < n && p[idx[id]].id == id)
  }

  /** The events in the heap with their times. */
  ghost function Contents(p: seq<Item>, idx: map<int, nat>): map<int, int> {
    map id | id in idx :: KeyAt(p, idx[id])
  }

  function KeyAt(p: seq<Item>, i: nat): int {
    if i < |p| then p[i].key else 0
  }

  lemma EqualMaps(a: map<int, int>, b: map<int, int>)
    requires forall id :: id in a <==> id in b
    requires forall id :: id in a && id in b ==> a[id] == b[id]
    ensures a == b
  {
    assert forall id :: id in a.Keys <==> id in b.Keys;
    forall id | id in a ensures id in b && a[id] == b[id] {
    }
  }

  function Swap(p: seq<Item>, i: nat, j: nat): seq<Item>
    requires i < |p| && j < |p|
  {
    p[i := p[j]][j := p[i]]
  }

  lemma SameContents(p: seq<Item>, idx: map<int, nat>, q: seq<Item>, m: map<int, nat>)
    requires m.Keys == idx.Keys && |p| == |q|
    requires forall id :: id in idx ==> idx[id] < |p| && m[id] < |p| && q[m[id]] == p[idx[id]]
    ensures Contents(q, m) == Contents(p, idx)
  {
    EqualMaps(Contents(q, m), Contents(p, idx));
  }

  /** Exchanging two items, with their places, changes nothing outside. */
  lemma SwapLinked(p: seq<Item>, n: nat, idx: map<int, nat>, i: nat, j: nat)
    requires Linked(p, n, idx) && i < n && j < n && i != j
    ensures Linked(Swap(p, i, j), n, idx[p[i].id := j][p[j].id := i])
    ensures Contents(Swap(p, i, j), idx[p[i].id := j][p[j].id := i]) == Contents(p, idx)
  {
    var q, m := Swap(p, i, j), idx[p[i].id := j][p[j].id := i];
    assert m.Keys == idx.Keys;
    forall id | id in idx ensures m[id] < n && q[m[id]] == p[idx[id]] {
    }
    SameContents(p, idx, q, m);
  }

  /** An early item moves one level up. */
  lemma SwapUp(p: seq<Item>, n: nat, h: nat)
    requires n <= |p| && 0 < h < n && OrderedAbove(p, n, h) && p[Parent(h)].key > p[h].key
    ensures OrderedAbove(Swap(p, h, Parent(h)), n, Parent(h))
  {
    var g := Parent(h);
    var q := Swap(p, h, g);
    forall i | 0 < i < n && i != g ensures q[Parent(i)].key <= q[i].key {
      if i != h && Parent(i) == h {
        assert p[g].key <= p[i].key;
      }
    }
    forall i | 0 < i < n && Parent(i) == g && 0 < g ensures q[Parent(g)].key <= q[i].key {
      assert p[Parent(g)].key <= p[g].key;
    }
  }

  /** A late item moves one level down, to the place of its earlier child. */
  lemma SwapDown(p: seq<Item>, n: nat, h: nat, c: nat)
    requires n <= |p| && h < n && 0 < c < n && Parent(c) == h && OrderedBelow(p, n, h)
    requires forall i :: 0 < i < n && Parent(i) == h ==> p[c].key <= p[i].key
    requires p[h].key > p[c].key
    ensures OrderedBelow(Swap(p, h, c), n, c)
  {
    var q := Swap(p, h, c);
    forall i | 0 < i < n && Parent(i) != c ensures q[Parent(i)].key <= q[i].key {
      if i == h {
        assert p[Parent(h)].key <= p[c].key;
      }
    }
    forall i | 0 < i < n && Parent(i) == c ensures q[Parent(c)].key <= q[i].key {
      assert p[Parent(i)].key <= p[i].key;
    }
  }

  lemma TopIsOrdered(p: seq<Item>, n: nat, h: nat)
    requires h < n <= |p| && OrderedAbove(p, n, h)
    requires h == 0 || p[Parent(h)].key <= p[h].key
    ensures Ordered(p, n)
  {
  }

  lemma BottomIsOrdered(p: seq<Item>, n: nat, h: nat)
    requires h < n <= |p| && OrderedBelow(p, n, h)
    requires 2 * h + 1 < n ==> p[h].key <= p[2 * h + 1].key
    requires 2 * h + 2 < n ==> p[h].key <= p[2 * h + 2].key
    ensures Ordered(p, n)
  {
    forall i | 0 < i < n ensures p[Parent(i)].key <= p[i].key {
      if Parent(i) == h {
        assert i == 2 * h + 1 || i == 2 * h + 2;
      }
    }
  }

  /** The child that min_heap_shift_down_ chooses is the earlier one. */
  lemma Earlier(p: seq<Item>, n: nat, h: nat, c: nat)
    requires h < n <= |p| && 0 < c < n && (c == 2 * h + 1 || c == 2 * h + 2)
    requires c == 2 * h + 1 && 2 * h + 2 < n ==> p[c].key <= p[2 * h + 2].key
    requires c == 2 * h + 2 ==> p[c].key <= p[2 * h + 1].key
    ensures Parent(c) == h
    ensures forall i :: 0 < i < n && Parent(i) == h ==> p[c].key <= p[i].key
  {
    forall i | 0 < i < n && Parent(i) == h ensures p[c].key <= p[i].key {
      assert i == 2 * h + 1 || i == 2 * h + 2;
    }
  }

  /** Filling the hole at `h` with `e` gives a heap with contents `c`, but for the
      order between `e` and its parent. */
  ghost predicate Rising(p: seq<Item>, idx: map<int, nat>, n: nat, h: nat, e: Item, c: map<int, int>) {
    && h < n <= |p|
    && Linked(p[h := e], n, idx[e.id := h])
    && OrderedAbove(p[h := e], n, h)
    && Contents(p[h := e], idx[e.id := h]) == c
  }

  /** Filling the hole at `h` with `e` gives a heap with contents `c`, but for the
      order between `e` and its children. */
  ghost predicate Sinking(p: seq<Item>, idx: map<int, nat>, n: nat, h: nat, e: Item, c: map<int, int>) {
    && h < n <= |p|
    && Linked(p[h := e], n, idx[e.id := h])
    && OrderedBelow(p[h := e], n, h)
    && Contents(p[h := e], idx[e.id := h]) == c
  }

  lemma HoleMoves(p: seq<Item>, idx: map<int, nat>, n: nat, h: nat, e: Item, g: nat)
    requires h < n <= |p| && g < n && g != h && Linked(p[h := e], n, idx[e.id := h])
    ensures p[g].id != e.id && p[h := p[g]][g := e] == Swap(p[h := e], h, g)
    ensures idx[p[g].id := h][e.id := g] == idx[e.id := h][p[h := e][h].id := g][p[h := e][g].id := h]
  {
    assert p[h := e][g].id in idx[e.id := h];
  }

  lemma RisingStep(p: seq<Item>, idx: map<int, nat>, n: nat, h: nat, e: Item, c: map<int, int>)
    requires Rising(p, idx, n, h, e, c) && h > 0 && p[Parent(h)].key > e.key
    ensures Rising(p[h := p[Parent(h)]], idx[p[Parent(h)].id := h], n, Parent(h), e, c)
  {
    hide Linked, Contents, Swap, OrderedAbove;
    HoleMoves(p, idx, n, h, e, Parent(h));
    SwapUp(p[h := e], n, h);
    SwapLinked(p[h := e], n, idx[e.id := h], h, Parent(h));
  }

  lemma SinkingStep(p: seq<Item>, idx: map<int, nat>, n: nat, h: nat, e: Item, c: map<int, int>, k: nat)
    requires Sinking(p, idx, n, h, e, c) && 0 < k < n && Parent(k) == h && p[k].key < e.key
    requires forall i :: 0 < i < n && Parent(i) == h ==> p[k].key <= p[i].key
    ensures Sinking(p[h := p[k]], idx[p[k].id := h], n, k, e, c)
  {
    hide Linked, Contents, Swap, OrderedBelow;
    HoleMoves(p, idx, n, h, e, k);
    SwapDown(p[h := e], n, h, k);
    SwapLinked(p[h := e], n, idx[e.id := h], h, k);
  }

  /** min_heap_shift_up_, and min_heap_shift_up_unconditional_, whose first step
      the caller has checked: an item goes up from a hole to its place. */
  method ShiftUp(p0: seq<Item>, idx0: map<int, nat>, n: nat, hole0: nat, e: Item, ghost c: map<int, int>)
    returns (p: seq<Item>, idx: map<int, nat>)
    requires Rising(p0, idx0, n, hole0, e, c)
    ensures |p| == |p0| && Linked(p, n, idx) && Ordered(p, n) && Contents(p, idx) == c
  {
    hide Linked, Contents, OrderedAbove;
    var hole: nat := hole0;
    p, idx := p0, idx0;
    while hole > 0 && p[Parent(hole)].key > e.key
      invariant Rising(p, idx, n, hole, e, c) && |p| == |p0|
    {
      RisingStep(p, idx, n, hole, e, c);
      p, idx, hole := p[hole := p[Parent(hole)]], idx[p[Parent(hole)].id := hole], Parent(hole);
    }
    TopIsOrdered(p[hole := e], n, hole);
    p, idx := p[hole := e], idx[e.id := hole];
  }

  /** min_heap_shift_down_: an item goes down from a hole to its place. */
  method ShiftDown(p0: seq<Item>, idx0: map<int, nat>, n: nat, hole0: nat, e: Item, ghost c: map<int, int>)
    returns (p: seq<Item>, idx: map<int, nat>)
    requires Sinking(p0, idx0, n, hole0, e, c)
    ensures |p| == |p0| && Linked(p, n, idx) && Ordered(p, n) && Contents(p, idx) == c
  {
    hide Linked, Contents, OrderedBelow;
    var hole: nat := hole0;
    p, idx := p0, idx0;
    var child: nat := 2 * (hole + 1);
    while child <= n
      invariant Sinking(p, idx, n, hole, e, c) && |p| == |p0| && child == 2 * (hole + 1)
    {
      if child == n || p[child].key > p[child - 1].key {
        child := child - 1;
      }
      Earlier(p, n, hole, child);
      if e.key <= p[child].key {
        break;
      }
      SinkingStep(p, idx, n, hole, e, c, child);
      p, idx, hole := p[hole := p[child]], idx[p[child].id := hole], child;
      child := 2 * (hole + 1);
    }
    BottomIsOrdered(p[hole := e], n, hole);
    p, idx := p[hole := e], idx[e.id := hole];
  }

  /** A new item may be put in the hole behind the last one. */
  lemma PushHole(p: seq<Item>, idx: map<int, nat>, n: nat, e: Item)
    requires n < |p| && Linked(p, n, idx) && Ordered(p, n) && e.id !in idx
    ensures Rising(p, idx, n + 1, n, e, Contents(p, idx)[e.id := e.key])
  {
    var q, m := p[n := e], idx[e.id := n];
    assert Linked(q, n + 1, m);
    assert OrderedAbove(q, n + 1, n);
    EqualMaps(Contents(q, m), Contents(p, idx)[e.id := e.key]);
  }

  /** The last item may be put in the hole that another one leaves. */
  lemma EraseHole(p: seq<Item>, idx: map<int, nat>, n: nat, id: int)
    requires 0 < n <= |p| && Linked(p, n, idx) && Ordered(p, n) && id in idx && idx[id] < n - 1
    ensures var h, last := idx[id], p[n - 1];
            if h > 0 && p[Parent(h)].key > last.key
            then Rising(p, idx - {id}, n - 1, h, last, Contents(p, idx) - {id})
            else Sinking(p, idx - {id}, n - 1, h, last, Contents(p, idx) - {id})
  {
    var h, last := idx[id], p[n - 1];
    var q, m := p[h := last], (idx - {id})[last.id := h];
    EraseLinked(p, idx, n, id);
    if h > 0 && p[Parent(h)].key > last.key {
      EraseAbove(p, n, h);
    } else {
      EraseBelow(p, n, h);
    }
  }

  lemma EraseLinked(p: seq<Item>, idx: map<int, nat>, n: nat, id: int)
    requires 0 < n <= |p| && Linked(p, n, idx) && id in idx && idx[id] < n - 1
    ensures var h, last := idx[id], p[n - 1];
            var q, m := p[h := last], (idx - {id})[last.id := h];
            Linked(q, n - 1, m) && Contents(q, m) == Contents(p, idx) - {id}
  {
    var h, last := idx[id], p[n - 1];
    var q, m := p[h := last], (idx - {id})[last.id := h];
    assert last.id != id;
    EqualMaps(Contents(q, m), Contents(p, idx) - {id});
  }

  lemma EraseAbove(p: seq<Item>, n: nat, h: nat)
    requires 0 < n <= |p| && Ordered(p, n) && 0 < h < n - 1 && p[Parent(h)].key > p[n - 1].key
    ensures OrderedAbove(p[h := p[n - 1]], n - 1, h)
  {
    forall i | 0 < i < n - 1 && Parent(i) == h ensures p[Parent(h)].key <= p[i].key {
      assert p[h].key <= p[i].key;
    }
  }

  lemma EraseBelow(p: seq<Item>, n: nat, h: nat)
    requires 0 < n <= |p| && Ordered(p, n) && h < n - 1 && (h > 0 ==> p[Parent(h)].key <= p[n - 1].key)
    ensures OrderedBelow(p[h := p[n - 1]], n - 1, h)
  {
    forall i | 0 < i < n - 1 && Parent(i) == h && 0 < h ensures p[Parent(h)].key <= p[i].key {
      assert p[h].key <= p[i].key;
    }
  }

  /** Without the last item. */
  lemma EraseLast(p: seq<Item>, idx: map<int, nat>, n: nat, id: int)
    requires 0 < n <= |p| && Linked(p, n, idx) && Ordered(p, n) && id in idx && idx[id] == n - 1
    ensures Linked(p, n - 1, idx - {id}) && Ordered(p, n - 1)
    ensures Contents(p, idx - {id}) == Contents(p, idx) - {id}
  {
    EqualMaps(Contents(p, idx - {id}), Contents(p, idx) - {id});
  }

  /** The first item is the earliest. */
  lemma {:induction false} TopIsLeast(p: seq<Item>, n: nat, i: nat)
    requires i < n <= |p| && Ordered(p, n)
    ensures p[0].key <= p[i].key
  {
    if i > 0 {
      TopIsLeast(p, n, Parent(i));
    }
  }

  class Heap {
    var p: seq<Item>
    var n: nat
    var idx: map<int, nat>

    ghost predicate Valid() reads this {
      Linked(p, n, idx) && Ordered(p, n)
    }

    ghost function Items(): map<int, int> reads this {
      Contents(p, idx)
    }

    constructor ()
      ensures Valid() && Items() == map[]
    {
      p, n, idx := [], 0, map[];
    }

    /** min_heap_push_. */
    method Push(id: int, key: int)
      requires Valid() && id !in Items()
      modifies this
      ensures Valid() && Items() == old(Items())[id := key]
    {
      var e := Item(id, key);
      if n == |p| {
        p := p + [e];
        GrownContents(old(p), n, idx, e);
      }
      PushHole(p, idx, n, e);
      ghost var c := Contents(p, idx)[id := key];
      var q, m := ShiftUp(p, idx, n + 1, n, e, c);
      p, n, idx := q, n + 1, m;
    }

    /** min_heap_erase_. */
    method Erase(id: int) returns (r: int)
      requires Valid()
      modifies this
      ensures Valid() && Items() == old(Items()) - {id}
      ensures r == if id in old(Items()) then 0 else -1
    {
      hide Contents, Ordered, Rising, Sinking;
      LinkedDomain(p, n, idx);
      if id !in idx {
        RemoveAbsent(Items(), id);
        return -1;
      }
      var h, last := idx[id], p[n - 1];
      ghost var c := Contents(p, idx) - {id};
      if h == n - 1 {
        // shifting the last item into the place behind the end changes nothing
        EraseLast(p, idx, n, id);
        n, idx := n - 1, idx - {id};
        return 0;
      }
      EraseHole(p, idx, n, id);
      var q, m;
      if h > 0 && p[Parent(h)].key > last.key {
        q, m := ShiftUp(p, idx - {id}, n - 1, h, last, c);
      } else {
        q, m := ShiftDown(p, idx - {id}, n - 1, h, last, c);
      }
      p, n, idx := q, n - 1, m;
      return 0;
    }

    /** min_heap_top_. */
    method Top() returns (found: bool, top: Item)
      requires Valid()
      ensures found <==> Items() != map[]
      ensures found ==> top.id in Items() && Items()[top.id] == top.key
      ensures found ==> forall id :: id in Items() ==> top.key <= Items()[id]
    {
      LinkedDomain(p, n, idx);
      if n == 0 {
        return false, Item(0, 0);
      }
      assert p[0].id in idx;
      forall id | id in idx ensures p[0].key <= p[idx[id]].key {
        TopIsLeast(p, n, idx[id]);
      }
      return true, p[0];
    }
  }

  lemma RemoveAbsent(m: map<int, int>, id: int)
    requires id !in m
    ensures m - {id} == m
  {
  }

  lemma GrownContents(p: seq<Item>, n: nat, idx: map<int, nat>, e: Item)
    requires n == |p| && Linked(p, n, idx) && Ordered(p, n)
    ensures Linked(p + [e], n, idx) && Ordered(p + [e], n) && Contents(p + [e], idx) == Contents(p, idx)
  {
    EqualMaps(Contents(p + [e], idx), Contents(p, idx));
  }

  lemma LinkedDomain(p: seq<Item>, n: nat, idx: map<int, nat>)
    requires Linked(p, n, idx)
    ensures Contents(p, idx).Keys == idx.Keys
    ensures n == 0 <==> Contents(p, idx) == map[]
  {
    if n > 0 {
      assert p[0].id in Contents(p, idx);
    } else {
      EqualMaps(Contents(p, idx), map[]);
    }
  }
}

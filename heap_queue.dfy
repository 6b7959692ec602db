/**
 * The priority queues of the data-structures lab: `HeapQueue` keeps its
 * items in a list arranged as a binary heap (through `heapq`),
 * `AdvHeapQueue` adds truthiness, `extend` and a draining iterator, and
 * `RevHeapQueue` wraps every item in `_Reverse`, whose `<` is `>=`, so the
 * largest item comes out first.
 *
 * One class stands for all three: `reversed` is true for `RevHeapQueue`.
 * The list is a `seq<int>` field that the methods reassign; `heappush` and
 * `heappop` are the module-level methods `HeapPush` and `HeapPop`, proved
 * against the heap invariant and the multiset of items.
 */
module Heaps {
  import opened Wrappers

  /**
   * The `<` that `heapq` applies to two stored items: plain `<` on the
   * items, or `_Reverse.__lt__`, which is `>=`, in a reversed queue.
   */
  predicate Before(reversed: bool, a: int, b: int) {
    if reversed then a >= b else a < b
  }

  /** `a` may come out no later than `b`: ascending order, or descending when reversed. */
  predicate Le(reversed: bool, a: int, b: int) {
    if reversed then a >= b else a <= b
  }

  /** What `heapq` compares with is one of the two orders, and it is total. */
  lemma BeforeIsOrder(reversed: bool, a: int, b: int)
    ensures Before(reversed, a, b) ==> Le(reversed, a, b)
    ensures !Before(reversed, a, b) ==> Le(reversed, b, a)
    ensures Le(reversed, a, b) && Le(reversed, b, a) ==> a == b
    ensures reversed ==> (Before(reversed, a, b) <==> !(a < b))
  {
  }

  /** The position of the parent of position `j` in the list. */
  function Parent(j: nat): (p: nat)
    requires j > 0
    ensures p < j
    ensures j == 2 * p + 1 || j == 2 * p + 2
  {
    (j - 1) / 2
  }

  /** The heap invariant of `heapq`: no item comes before its parent. */
  ghost predicate IsHeap(reversed: bool, h: seq<int>) {
    forall j :: 0 < j < |h| ==> Le(reversed, h[Parent(j)], h[j])
  }

  /** The invariant everywhere except between position `i` and its parent. */
  ghost predicate HeapAbove(reversed: bool, h: seq<int>, i: nat) {
    forall j :: 0 < j < |h| && j != i ==> Le(reversed, h[Parent(j)], h[j])
  }

  /** The invariant everywhere except between position `i` and its children. */
  ghost predicate HeapBelow(reversed: bool, h: seq<int>, i: nat) {
    forall j :: 0 < j < |h| && Parent(j) != i ==> Le(reversed, h[Parent(j)], h[j])
  }

  /** The children of `i` come no earlier than the parent of `i`. */
  ghost predicate Bridge(reversed: bool, h: seq<int>, i: nat)
    requires i < |h|
  {
    i > 0 ==> forall j :: 0 < j < |h| && Parent(j) == i ==> Le(reversed, h[Parent(i)], h[j])
  }

  /** The items at positions `i` and `j` trade places. */
  function Swap(h: seq<int>, i: nat, j: nat): (r: seq<int>)
    requires i < |h| && j < |h|
    ensures |r| == |h| && r[i] == h[j] && r[j] == h[i]
    ensures forall k :: 0 <= k < |h| && k != i && k != j ==> r[k] == h[k]
    ensures multiset(r) == multiset(h)
  {
    h[i := h[j]][j := h[i]]
  }

  /** In a heap, the item at the root comes no later than any other. */
  lemma {:induction false} HeapRoot(reversed: bool, h: seq<int>, k: nat)
    requires IsHeap(reversed, h) && k < |h|
    ensures Le(reversed, h[0], h[k])
  {
    if k > 0 {
      HeapRoot(reversed, h, Parent(k));
    }
  }

  /**
   * The item at the front of a heap comes no later than every item it
   * holds: the smallest, or the largest when reversed.
   */
  lemma HeapFront(reversed: bool, h: seq<int>)
    requires IsHeap(reversed, h) && h != []
    ensures forall y | y in multiset(h) :: Le(reversed, h[0], y)
    ensures !reversed ==> forall y | y in multiset(h) :: h[0] <= y
    ensures reversed ==> forall y | y in multiset(h) :: h[0] >= y
  {
    forall y | y in multiset(h)
      ensures Le(reversed, h[0], y)
    {
      var k :| 0 <= k < |h| && h[k] == y;
      HeapRoot(reversed, h, k);
    }
  }

  /** One step of sift-up: the item at `i` moves above its parent. */
  lemma SiftUpStep(reversed: bool, h: seq<int>, i: nat)
    requires 0 < i < |h| && HeapAbove(reversed, h, i) && Bridge(reversed, h, i)
    requires Le(reversed, h[i], h[Parent(i)])
    ensures HeapAbove(reversed, Swap(h, i, Parent(i)), Parent(i))
    ensures Bridge(reversed, Swap(h, i, Parent(i)), Parent(i))
  {
  }

  /**
   * `heapq.heappush`: add `x` at the end of the list and move it up past
   * every parent it comes before.
   */
  method HeapPush(reversed: bool, h: seq<int>, x: int) returns (r: seq<int>)
    requires IsHeap(reversed, h)
    ensures IsHeap(reversed, r)
    ensures multiset(r) == multiset(h) + multiset{x}
    ensures |r| == |h| + 1
  {
    r := h + [x];
    var i: nat := |h|;
    while i > 0 && Before(reversed, r[i], r[Parent(i)])
      invariant i < |r| == |h| + 1
      invariant multiset(r) == multiset(h) + multiset{x}
      invariant HeapAbove(reversed, r, i) && Bridge(reversed, r, i)
      decreases i
    {
      BeforeIsOrder(reversed, r[i], r[Parent(i)]);
      SiftUpStep(reversed, r, i);
      r, i := Swap(r, i, Parent(i)), Parent(i);
    }
    if i > 0 {
      BeforeIsOrder(reversed, r[i], r[Parent(i)]);
    }
  }

  /** One step of sift-down: the item at `i` trades places with the child `c` that comes first. */
  lemma SiftDownStep(reversed: bool, h: seq<int>, i: nat, c: nat)
    requires c < |h| && c > 0 && Parent(c) == i && HeapBelow(reversed, h, i) && Bridge(reversed, h, i)
    requires forall j :: 0 < j < |h| && Parent(j) == i ==> Le(reversed, h[c], h[j])
    requires Le(reversed, h[c], h[i])
    ensures HeapBelow(reversed, Swap(h, i, c), c) && Bridge(reversed, Swap(h, i, c), c)
  {
  }

  /**
   * Of the children of `i`, the one `heapq` moves up: the right one when
   * it comes before the left one.
   */
  function FirstChild(reversed: bool, h: seq<int>, i: nat): (c: nat)
    requires 2 * i + 1 < |h|
    ensures c < |h| && c > i && Parent(c) == i
    ensures forall j :: 0 < j < |h| && Parent(j) == i ==> Le(reversed, h[c], h[j])
  {
    var left := 2 * i + 1;
    if left + 1 < |h| then
      BeforeIsOrder(reversed, h[left + 1], h[left]);
      if Before(reversed, h[left + 1], h[left]) then left + 1 else left
    else left
  }

  /** Once no child of `i` comes before it, the whole list is a heap. */
  lemma SiftDownDone(reversed: bool, h: seq<int>, i: nat)
    requires HeapBelow(reversed, h, i)
    requires forall j :: 0 < j < |h| && Parent(j) == i ==> Le(reversed, h[i], h[j])
    ensures IsHeap(reversed, h)
  {
  }

  /**
   * One round of `heapq`'s sift from the root: the item at `i` trades
   * places with the child that comes first, unless that child does not
   * come before it, and then the list is a heap.
   */
  method SiftDownRound(reversed: bool, h: seq<int>, i: nat) returns (r: seq<int>, c: nat, done: bool)
    requires 2 * i + 1 < |h| && HeapBelow(reversed, h, i) && Bridge(reversed, h, i)
    ensures |r| == |h| && multiset(r) == multiset(h) && i < c < |r|
    ensures done ==> IsHeap(reversed, r)
    ensures !done ==> HeapBelow(reversed, r, c) && Bridge(reversed, r, c)
  {
    c := FirstChild(reversed, h, i);
    BeforeIsOrder(reversed, h[c], h[i]);
    if !Before(reversed, h[c], h[i]) {
      SiftDownDone(reversed, h, i);
      return h, c, true;
    }
    SiftDownStep(reversed, h, i, c);
    return Swap(h, i, c), c, false;
  }

  /**
   * `heapq`'s sift from the root: the item at the root moves down past
   * every child that comes before it, trading places with the child that
   * comes first.
   */
  method SiftDown(reversed: bool, h: seq<int>) returns (r: seq<int>)
    requires HeapBelow(reversed, h, 0)
    ensures IsHeap(reversed, r)
    ensures multiset(r) == multiset(h) && |r| == |h|
  {
    r := h;
    if r == [] {
      return;
    }
    var i: nat := 0;
    var done := false;
    while !done && 2 * i + 1 < |r|
      invariant |r| == |h| && i < |r|
      invariant multiset(r) == multiset(h)
      invariant done ==> IsHeap(reversed, r)
      invariant !done ==> HeapBelow(reversed, r, i) && Bridge(reversed, r, i)
      decreases |r| - i
    {
      r, i, done := SiftDownRound(reversed, r, i);
    }
    if !done {
      SiftDownDone(reversed, r, i);
    }
  }

  /**
   * `heapq.heappop`: IndexError on an empty list; otherwise the front
   * item, with the last item moved to the front and sifted down.
   */
  method HeapPop(reversed: bool, h: seq<int>) returns (item: Result<int>, r: seq<int>)
    requires IsHeap(reversed, h)
    ensures h == [] ==> item == Err(IndexError) && r == []
    ensures h != [] ==> item == Ok(h[0])
    ensures IsHeap(reversed, r)
    ensures h != [] ==> multiset(r) == multiset(h) - multiset{h[0]} && |r| == |h| - 1
  {
    if h == [] {
      return Err(IndexError), [];
    }
    var last := h[|h| - 1];
    r := h[..|h| - 1];
    assert h == r + [last];
    if r == [] {
      return Ok(last), [];
    }
    assert h[0] == r[0];
    var moved := r[0 := last];
    assert multiset(moved) == multiset(r) - multiset{h[0]} + multiset{last};
    r := SiftDown(reversed, moved);
    item := Ok(h[0]);
  }

  /** `heapq.heapify`: arrange the items of a list as a heap. */
  method Heapify(reversed: bool, items: seq<int>) returns (h: seq<int>)
    ensures IsHeap(reversed, h)
    ensures multiset(h) == multiset(items)
  {
    h := [];
    for k := 0 to |items|
      invariant IsHeap(reversed, h)
      invariant multiset(h) == multiset(items[..k])
    {
      assert items[..k + 1] == items[..k] + [items[k]];
      h := HeapPush(reversed, h, items[k]);
    }
    assert items[..|items|] == items;
  }

  /** Every item of `s` comes no later than the items after it. */
  ghost predicate Sorted(reversed: bool, s: seq<int>) {
    forall i, j :: 0 <= i < j < |s| ==> Le(reversed, s[i], s[j])
  }

  /** The items after the first are the items less the first. */
  lemma Uncons(s: seq<int>)
    requires s != []
    ensures multiset(s[1..]) == multiset(s) - multiset{s[0]}
  {
    assert s == [s[0]] + s[1..];
  }

  /** What follows the first item of a sorted sequence is sorted. */
  lemma SortedTail(reversed: bool, s: seq<int>)
    requires Sorted(reversed, s) && s != []
    ensures Sorted(reversed, s[1..])
  {
    forall i, j | 0 <= i < j < |s| - 1
      ensures Le(reversed, s[1..][i], s[1..][j])
    {
      assert s[1..][i] == s[i + 1] && s[1..][j] == s[j + 1];
    }
  }

  /** The first item of a sorted sequence comes no later than any item of it. */
  lemma SortedFirst(reversed: bool, s: seq<int>, y: int)
    requires Sorted(reversed, s) && y in multiset(s)
    ensures Le(reversed, s[0], y)
  {
    var k :| 0 <= k < |s| && s[k] == y;
    if k > 0 {
      assert Le(reversed, s[0], s[k]);
    }
  }

  /**
   * There is one sorted arrangement of a multiset of numbers: what the
   * queue gives out is `sorted(items)`, or `sorted(items, reverse=True)`.
   */
  lemma {:induction false} SortedUnique(reversed: bool, s: seq<int>, t: seq<int>)
    requires Sorted(reversed, s) && Sorted(reversed, t) && multiset(s) == multiset(t)
    ensures s == t
    decreases |s|
  {
    if s == [] {
      assert |multiset(t)| == 0;
    } else {
      assert s[0] in multiset(t) && t[0] in multiset(s);
      SortedFirst(reversed, s, t[0]);
      SortedFirst(reversed, t, s[0]);
      BeforeIsOrder(reversed, s[0], t[0]);
      assert s[0] == t[0];
      Uncons(s);
      Uncons(t);
      SortedTail(reversed, s);
      SortedTail(reversed, t);
      SortedUnique(reversed, s[1..], t[1..]);
    }
  }

  /** What has come out is sorted and comes no later than anything still held. */
  ghost predicate Drained(reversed: bool, out: seq<int>, rest: multiset<int>) {
    && Sorted(reversed, out)
    && forall i, y | 0 <= i < |out| && y in rest :: Le(reversed, out[i], y)
  }

  /** Taking out an item that comes no later than any other still held keeps the output sorted. */
  lemma DrainStep(reversed: bool, out: seq<int>, rest: multiset<int>, x: int)
    requires Drained(reversed, out, rest) && x in rest
    requires forall y | y in rest :: Le(reversed, x, y)
    ensures Drained(reversed, out + [x], rest - multiset{x})
  {
    var next := out + [x];
    forall i, j | 0 <= i < j < |next|
      ensures Le(reversed, next[i], next[j])
    {
      if j < |out| {
        assert next[i] == out[i] && next[j] == out[j];
      } else {
        assert next[i] == out[i] && next[j] == x;
      }
    }
    forall i, y | 0 <= i < |next| && y in rest - multiset{x}
      ensures Le(reversed, next[i], y)
    {
      if i < |out| {
        assert next[i] == out[i];
      }
    }
  }

  /** The queue: its list of items, kept as a heap. */
  class HeapQueue {
    /** True for `RevHeapQueue`, whose items are wrapped in `_Reverse`. */
    const reversed: bool
    var heap: seq<int>

    ghost predicate Valid()
      reads this
    {
      IsHeap(reversed, heap)
    }

    /** The items in the queue, in no particular order. */
    function Contents(): multiset<int>
      reads this
    {
      multiset(heap)
    }

    /**
     * `HeapQueue(heap)` and `RevHeapQueue(heap)`: heapify the given list;
     * no list stands for the empty one.
     */
    constructor (items: seq<int>, reversed: bool)
      ensures Valid() && this.reversed == reversed
      ensures Contents() == multiset(items)
    {
      this.reversed := reversed;
      var h := Heapify(reversed, items);
      heap := h;
    }

    /** `__len__`: the number of items held. */
    function Len(): (n: nat)
      reads this
      ensures n == |Contents()|
    {
      |heap|
    }

    /** `__bool__`: whether any item is held. */
    function Bool(): (b: bool)
      reads this
      ensures b <==> Contents() != multiset{}
    {
      Len() > 0
    }

    /** `push`: one more item, and one more in the count. */
    method Push(item: int)
      requires Valid()
      modifies this
      ensures Valid()
      ensures Contents() == old(Contents()) + multiset{item}
      ensures Len() == old(Len()) + 1
    {
      heap := HeapPush(reversed, heap, item);
    }

    /**
     * `pop`: IndexError on an empty queue, which stays empty; otherwise the
     * first item in the queue's order, which leaves the queue.
     */
    method Pop() returns (item: Result<int>)
      requires Valid()
      modifies this
      ensures Valid()
      ensures old(Len()) == 0 ==> item == Err(IndexError) && Len() == 0
      ensures old(Len()) > 0 ==> item.Ok? && item.value in old(Contents())
      ensures old(Len()) > 0 ==> forall y | y in old(Contents()) :: Le(reversed, item.value, y)
      ensures old(Len()) > 0 ==> Contents() == old(Contents()) - multiset{item.value}
    {
      if heap != [] {
        HeapFront(reversed, heap);
      }
      item, heap := HeapPop(reversed, heap);
    }

    /** `extend`: push every item of `items`, in order. */
    method Extend(items: seq<int>)
      requires Valid()
      modifies this
      ensures Valid()
      ensures Contents() == old(Contents()) + multiset(items)
    {
      for k := 0 to |items|
        invariant Valid()
        invariant Contents() == old(Contents()) + multiset(items[..k])
      {
        assert items[..k + 1] == items[..k] + [items[k]];
        Push(items[k]);
      }
      assert items[..|items|] == items;
    }

    /**
     * `__iter__`: pop until the queue is empty.  The items come out sorted
     * in the queue's order and are exactly the items it held.
     */
    method Drain() returns (out: seq<int>)
      requires Valid()
      modifies this
      ensures Valid() && Contents() == multiset{}
      ensures multiset(out) == old(Contents())
      ensures Sorted(reversed, out)
    {
      out := [];
      while Bool()
        invariant Valid()
        invariant multiset(out) + Contents() == old(Contents())
        invariant Drained(reversed, out, Contents())
        decreases Len()
      {
        ghost var before := Contents();
        var item := Pop();
        DrainStep(reversed, out, before, item.value);
        out := out + [item.value];
      }
    }
  }
}

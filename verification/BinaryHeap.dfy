/**
 The binary heap that both transaction heaps of the pool rely on: an implicit tree in a
 sequence, kept in order by sifting elements up and down.  The nonce heap of a transaction
 list and the price heap of the pool are instances of it with different `less` relations.
 */
module BinaryHeap {

  /** `less` is a strict weak order: the relation a heap can be sorted by. */
  ghost predicate StrictWeakOrder<T(!new)>(less: (T, T) -> bool) {
    && (forall x, y :: less(x, y) ==> !less(y, x))
    && (forall x, y, z :: less(x, z) ==> less(x, y) || less(y, z))
  }

  function Parent(i: nat): nat
    requires i > 0
  {
    (i - 1) / 2
  }

  ghost predicate IsHeap<T(!new)>(less: (T, T) -> bool, h: seq<T>) {
    forall i :: 0 < i < |h| ==> !less(h[i], h[Parent(i)])
  }

  /** The heap relation for all links whose upper end is at `lo` or later, except the links of node `hole`. */
  ghost predicate OrderedBut<T(!new)>(less: (T, T) -> bool, h: seq<T>, lo: nat, hole: nat) {
    forall i :: 0 < i < |h| && lo <= Parent(i) && Parent(i) != hole && i != hole ==> !less(h[i], h[Parent(i)])
  }

  /** The heap relation for all links whose upper end is at `lo` or later. */
  ghost predicate OrderedFrom<T(!new)>(less: (T, T) -> bool, h: seq<T>, lo: nat) {
    forall i :: 0 < i < |h| && lo <= Parent(i) ==> !less(h[i], h[Parent(i)])
  }

  /** The heap relation for all links except the one from `hole` to its parent. */
  ghost predicate OrderedButAbove<T(!new)>(less: (T, T) -> bool, h: seq<T>, hole: nat) {
    forall i :: 0 < i < |h| && i != hole ==> !less(h[i], h[Parent(i)])
  }

  /** The children of `hole` are in order with the parent of `hole`. */
  ghost predicate Bridged<T(!new)>(less: (T, T) -> bool, h: seq<T>, lo: nat, hole: nat) {
    hole > 0 && lo <= Parent(hole) ==>
      forall i :: 0 < i < |h| && Parent(i) == hole && Parent(hole) < |h| ==> !less(h[i], h[Parent(hole)])
  }

  /** The root of a heap is minimal. */
  lemma {:induction false} RootIsMinimal<T(!new)>(less: (T, T) -> bool, h: seq<T>, i: nat)
    requires StrictWeakOrder(less) && IsHeap(less, h) && i < |h|
    ensures !less(h[i], h[0])
  {
    if i > 0 {
      RootIsMinimal(less, h, Parent(i));
    }
  }

  lemma SwapKeepsMultiset<T>(h: seq<T>, i: nat, j: nat)
    requires i < |h| && j < |h|
    ensures multiset(h[i := h[j]][j := h[i]]) == multiset(h)
  {
  }

  lemma DropLastMultiset<T>(h: seq<T>)
    requires |h| > 0
    ensures multiset(h) == multiset(h[..|h| - 1]) + multiset{h[|h| - 1]}
  {
    assert h == h[..|h| - 1] + [h[|h| - 1]];
  }

  method Up<T(!new)>(less: (T, T) -> bool, h: seq<T>, start: nat) returns (r: seq<T>)
    requires StrictWeakOrder(less) && start < |h|
    requires OrderedButAbove(less, h, start) && Bridged(less, h, 0, start)
    ensures IsHeap(less, r) && multiset(r) == multiset(h)
  {
    hide StrictWeakOrder;
    r := h;
    var j: nat := start;
    while j > 0 && less(r[j], r[Parent(j)])
      invariant j < |r| == |h| && multiset(r) == multiset(h)
      invariant OrderedButAbove(less, r, j) && Bridged(less, r, 0, j)
    {
      var i := Parent(j);
      SwapKeepsMultiset(r, i, j);
      ghost var g := r;
      r := r[i := r[j]][j := r[i]];
      SiftUp(less, g, j, r);
      j := i;
    }
  }

  /** The child `j` picked by comparing both children of `i` is minimal among them. */
  lemma SmallerChild<T(!new)>(less: (T, T) -> bool, h: seq<T>, i: nat, j: nat)
    requires StrictWeakOrder(less) && 2 * i + 1 < |h|
    requires j == if 2 * i + 2 < |h| && less(h[2 * i + 2], h[2 * i + 1]) then 2 * i + 2 else 2 * i + 1
    ensures forall k :: 0 < k < |h| && Parent(k) == i ==> !less(h[k], h[j])
    ensures !less(h[j], h[i]) ==> forall k :: 0 < k < |h| && Parent(k) == i ==> !less(h[k], h[i])
  {
  }

  /** One step of sifting up: swapping `j` with its parent `i` moves the hole to `i`. */
  lemma SiftUp<T(!new)>(less: (T, T) -> bool, h: seq<T>, j: nat, g: seq<T>)
    requires StrictWeakOrder(less) && 0 < j < |h|
    requires OrderedButAbove(less, h, j) && Bridged(less, h, 0, j)
    requires less(h[j], h[Parent(j)])
    requires g == h[Parent(j) := h[j]][j := h[Parent(j)]]
    ensures OrderedButAbove(less, g, Parent(j)) && Bridged(less, g, 0, Parent(j))
  {
  }

  /** One step of sifting down: swapping `i` with its smaller child `j` moves the hole to `j`. */
  lemma SiftDown<T(!new)>(less: (T, T) -> bool, h: seq<T>, lo: nat, i: nat, j: nat, g: seq<T>)
    requires StrictWeakOrder(less)
    requires i < j < |h| && (j == 2 * i + 1 || j == 2 * i + 2)
    requires OrderedBut(less, h, lo, i) && Bridged(less, h, lo, i)
    requires forall k :: 0 < k < |h| && Parent(k) == i ==> !less(h[k], h[j])
    requires less(h[j], h[i])
    requires g == h[i := h[j]][j := h[i]]
    ensures OrderedBut(less, g, lo, j) && Bridged(less, g, lo, j)
    ensures !less(g[j], g[Parent(j)])
  {
  }

  /** Where sifting down stops, the links below `lo` are in order again, except possibly above the starting node. */
  lemma SiftedDown<T(!new)>(less: (T, T) -> bool, h: seq<T>, lo: nat, i: nat)
    requires OrderedBut(less, h, lo, i) && i <= |h|
    requires forall k :: 0 < k < |h| && Parent(k) == i ==> !less(h[k], h[i])
    ensures forall k :: 0 < k < |h| && lo <= Parent(k) && k != i ==> !less(h[k], h[Parent(k)])
  {
  }

  /** The heap after sifting down from `i`, as a function of the heap before. */
  function Sunk<T(!new)>(less: (T, T) -> bool, h: seq<T>, i: nat): (r: seq<T>)
    ensures |r| == |h|
    decreases |h| - i
  {
    if 2 * i + 1 >= |h| then h
    else
      var j := if 2 * i + 2 < |h| && less(h[2 * i + 2], h[2 * i + 1]) then 2 * i + 2 else 2 * i + 1;
      if less(h[j], h[i]) then Sunk(less, h[i := h[j]][j := h[i]], j) else h
  }

  lemma SunkStep<T(!new)>(less: (T, T) -> bool, h: seq<T>, i: nat, j: nat)
    requires 2 * i + 1 < |h|
    requires j == if 2 * i + 2 < |h| && less(h[2 * i + 2], h[2 * i + 1]) then 2 * i + 2 else 2 * i + 1
    ensures Sunk(less, h, i) == if less(h[j], h[i]) then Sunk(less, h[i := h[j]][j := h[i]], j) else h
  {
  }

  lemma SunkAtLeaf<T(!new)>(less: (T, T) -> bool, h: seq<T>, i: nat)
    requires 2 * i + 1 >= |h|
    ensures Sunk(less, h, i) == h
  {
  }

  /** The heap after heap.Pop. */
  function Popped<T(!new)>(less: (T, T) -> bool, h: seq<T>): (r: seq<T>)
    requires |h| > 0
    ensures |r| == |h| - 1
  {
    Sunk(less, h[0 := h[|h| - 1]][..|h| - 1], 0)
  }

  lemma {:induction false} SunkKeeps<T(!new)>(less: (T, T) -> bool, h: seq<T>, i: nat)
    ensures multiset(Sunk(less, h, i)) == multiset(h)
    decreases |h| - i
  {
    if 2 * i + 1 < |h| {
      var j := if 2 * i + 2 < |h| && less(h[2 * i + 2], h[2 * i + 1]) then 2 * i + 2 else 2 * i + 1;
      SunkStep(less, h, i, j);
      if less(h[j], h[i]) {
        SwapKeepsMultiset(h, i, j);
        SunkKeeps(less, h[i := h[j]][j := h[i]], j);
      }
    }
  }

  /** Popping takes the root and nothing else. */
  lemma PoppedLosesRoot<T(!new)>(less: (T, T) -> bool, h: seq<T>)
    requires |h| > 0
    ensures multiset(h) == multiset(Popped(less, h)) + multiset{h[0]}
  {
    var n := |h| - 1;
    var g := h[0 := h[n]][n := h[0]];
    SwapKeepsMultiset(h, 0, n);
    DropLastMultiset(g);
    assert g[..n] == h[0 := h[n]][..n];
    SunkKeeps(less, g[..n], 0);
  }

  /** Sifting down into a heap that is in order but for the node `i` gives a heap. */
  lemma {:induction false} SunkIsHeap<T(!new)>(less: (T, T) -> bool, h: seq<T>, i: nat)
    requires StrictWeakOrder(less) && i <= |h| && (i > 0 ==> i < |h| && !less(h[i], h[Parent(i)]))
    requires OrderedBut(less, h, 0, i) && Bridged(less, h, 0, i)
    ensures IsHeap(less, Sunk(less, h, i))
    decreases |h| - i
  {
    hide StrictWeakOrder, OrderedBut, Bridged, Sunk;
    if 2 * i + 1 >= |h| {
      SunkAtLeaf(less, h, i);
      SiftedDown(less, h, 0, i);
    } else {
      var j := if 2 * i + 2 < |h| && less(h[2 * i + 2], h[2 * i + 1]) then 2 * i + 2 else 2 * i + 1;
      SmallerChild(less, h, i, j);
      SunkStep(less, h, i, j);
      if less(h[j], h[i]) {
        var g := h[i := h[j]][j := h[i]];
        SiftDown(less, h, 0, i, j, g);
        SunkIsHeap(less, g, j);
      } else {
        SiftedDown(less, h, 0, i);
      }
    }
  }

  /** Popping leaves a heap. */
  lemma PoppedIsHeap<T(!new)>(less: (T, T) -> bool, h: seq<T>)
    requires StrictWeakOrder(less) && IsHeap(less, h) && |h| > 0
    ensures IsHeap(less, Popped(less, h))
  {
    SunkIsHeap(less, h[0 := h[|h| - 1]][..|h| - 1], 0);
  }

  method Down<T(!new)>(less: (T, T) -> bool, h: seq<T>, start: nat, ghost lo: nat) returns (r: seq<T>, moved: bool)
    requires StrictWeakOrder(less) && start <= |h|
    requires OrderedBut(less, h, lo, start) && Bridged(less, h, lo, start)
    ensures multiset(r) == multiset(h) && |r| == |h| && r == Sunk(less, h, start)
    ensures moved ==> OrderedFrom(less, r, lo)
    ensures !moved ==> r == h && forall i :: 0 < i < |h| && lo <= Parent(i) && i != start ==> !less(h[i], h[Parent(i)])
  {
    hide StrictWeakOrder, OrderedBut, Bridged, Sunk;
    r := h;
    var i: nat := start;
    while 2 * i + 1 < |r|
      invariant start <= i <= |r| == |h| && multiset(r) == multiset(h)
      invariant OrderedBut(less, r, lo, i) && Bridged(less, r, lo, i)
      invariant i == start ==> r == h
      invariant Sunk(less, r, i) == Sunk(less, h, start)
      invariant i > start ==> i < |r| && !less(r[i], r[Parent(i)])
      decreases |r| - i
    {
      var j := 2 * i + 1;
      if j + 1 < |r| && less(r[j + 1], r[j]) {
        j := j + 1;
      }
      SmallerChild(less, r, i, j);
      SunkStep(less, r, i, j);
      if !less(r[j], r[i]) {
        break;
      }
      SwapKeepsMultiset(r, i, j);
      ghost var g := r;
      r := r[i := r[j]][j := r[i]];
      SiftDown(less, g, lo, i, j, r);
      i := j;
    }
    SiftedDown(less, r, lo, i);
    if 2 * i + 1 >= |r| {
      SunkAtLeaf(less, r, i);
    }
    moved := i > start;
  }

  /** heap.Push */
  method Push<T(!new)>(less: (T, T) -> bool, h: seq<T>, x: T) returns (r: seq<T>)
    requires StrictWeakOrder(less) && IsHeap(less, h)
    ensures IsHeap(less, r) && multiset(r) == multiset(h) + multiset{x}
  {
    r := Up(less, h + [x], |h|);
  }

  /** heap.Pop */
  method Pop<T(!new)>(less: (T, T) -> bool, h: seq<T>) returns (x: T, r: seq<T>)
    requires StrictWeakOrder(less) && IsHeap(less, h) && |h| > 0
    ensures IsHeap(less, r) && multiset(h) == multiset(r) + multiset{x}
    ensures x == h[0] && forall y :: y in h ==> !less(y, x)
    ensures r == Popped(less, h)
  {
    var n := |h| - 1;
    var g := h[0 := h[n]][n := h[0]];
    SwapKeepsMultiset(h, 0, n);
    DropLastMultiset(g);
    x := g[n];
    var moved;
    r, moved := Down(less, g[..n], 0, 0);
    assert g[..n] == h[0 := h[n]][..n];
    forall y | y in h ensures !less(y, x) {
      var i :| 0 <= i < |h| && h[i] == y;
      RootIsMinimal(less, h, i);
    }
  }

  /** heap.Remove */
  method Remove<T(!new)>(less: (T, T) -> bool, h: seq<T>, i: nat) returns (r: seq<T>)
    requires StrictWeakOrder(less) && IsHeap(less, h) && i < |h|
    ensures IsHeap(less, r) && multiset(h) == multiset(r) + multiset{h[i]}
  {
    var n := |h| - 1;
    DropLastMultiset(h);
    if n == i {
      r := h[..n];
    } else {
      var g := h[i := h[n]][n := h[i]];
      SwapKeepsMultiset(h, i, n);
      DropLastMultiset(g);
      HoleIsBridged(less, h, i, g[..n]);
      var moved;
      r, moved := Down(less, g[..n], i, 0);
      if !moved {
        r := Up(less, r, i);
      }
    }
  }

  lemma HoleIsBridged<T(!new)>(less: (T, T) -> bool, h: seq<T>, i: nat, g: seq<T>)
    requires StrictWeakOrder(less) && IsHeap(less, h) && i < |h| - 1 == |g|
    requires forall k :: 0 <= k < |g| && k != i ==> g[k] == h[k]
    ensures OrderedBut(less, g, 0, i) && Bridged(less, g, 0, i)
  {
  }

  /** heap.Init */
  method Init<T(!new)>(less: (T, T) -> bool, h: seq<T>) returns (r: seq<T>)
    requires StrictWeakOrder(less)
    ensures IsHeap(less, r) && multiset(r) == multiset(h)
  {
    r := h;
    var i := |h| / 2;
    while i > 0
      invariant 0 <= i <= |r| == |h| && multiset(r) == multiset(h)
      invariant OrderedFrom(less, r, i)
    {
      i := i - 1;
      var moved;
      r, moved := Down(less, r, i, i);
    }
  }
}

/**
 The nonce-sorted transaction map: a hash map, a binary heap of its nonces and a lazily built,
 sorted cache that some operations cut instead of rebuilding.
 */
module TxSortedMaps {
  import opened Options
  import opened Transactions
  import BinaryHeap

  predicate NonceLess(a: nat, b: nat) {
    a < b
  }

  /** `s` holds every key of the map once, and nothing else. */
  ghost predicate Counts(s: seq<nat>, items: Items) {
    forall n :: multiset(s)[n] == if n in items then 1 else 0
  }

  /** The heap holds every key of the map, once. */
  ghost predicate Indexes(index: seq<nat>, items: Items) {
    BinaryHeap.IsHeap(NonceLess, index) && Counts(index, items)
  }

  lemma IndexMembers(index: seq<nat>, items: Items)
    requires Counts(index, items)
    ensures forall n :: n in index <==> n in items
  {
    forall n ensures n in index <==> n in items {
      assert n in index <==> n in multiset(index);
    }
  }

  /** The root of the heap is the lowest nonce. */
  lemma RootIsLowest(index: seq<nat>, items: Items)
    requires Indexes(index, items) && |index| > 0
    ensures index[0] in items && forall n :: n in items ==> index[0] <= n
  {
    IndexMembers(index, items);
    forall n | n in items ensures index[0] <= n {
      var i :| 0 <= i < |index| && index[i] == n;
      BinaryHeap.RootIsMinimal(NonceLess, index, i);
    }
  }

  /** Taking one nonce out of the heap and out of the map keeps them in step. */
  lemma IndexWithout(index: seq<nat>, items: Items, n: nat, rest: seq<nat>)
    requires Indexes(index, items) && n in items
    requires BinaryHeap.IsHeap(NonceLess, rest) && multiset(index) == multiset(rest) + multiset{n}
    ensures Indexes(rest, items - {n})
  {
    forall m ensures multiset(rest)[m] == if m in items - {n} then 1 else 0 {
      assert multiset(index)[m] == if m in items then 1 else 0;
    }
  }

  /** heap.Pop on the nonce heap of `items`. */
  method PopLowest(index: seq<nat>, ghost items: Items) returns (nonce: nat, rest: seq<nat>)
    requires Indexes(index, items) && |index| > 0
    ensures nonce == index[0] && nonce in items && Indexes(rest, items - {nonce})
    ensures forall n :: n in items ==> nonce <= n
  {
    RootIsLowest(index, items);
    nonce, rest := BinaryHeap.Pop(NonceLess, index);
    IndexWithout(index, items, nonce, rest);
  }

  /** What the heap says about the lowest nonce, also when it is empty. */
  lemma RootBounds(index: seq<nat>, items: Items)
    requires Indexes(index, items)
    ensures index == [] <==> items == map[]
    ensures index != [] ==> index[0] in items && forall n :: n in items ==> index[0] <= n
  {
    IndexMembers(index, items);
    if index != [] {
      RootIsLowest(index, items);
    } else {
      assert items == map[];
    }
  }

  ghost predicate Sorted(s: seq<nat>) {
    forall i, j :: 0 <= i < j < |s| ==> s[i] <= s[j]
  }

  lemma InsertAt(s: seq<nat>, p: nat, x: nat)
    requires p <= |s|
    ensures multiset(s[..p] + [x] + s[p..]) == multiset(s) + multiset{x}
  {
    assert s == s[..p] + s[p..];
  }

  /** sort.Sort on a slice of nonces. */
  method SortNonces(s: seq<nat>) returns (r: seq<nat>)
    ensures multiset(r) == multiset(s) && Sorted(r)
  {
    r := [];
    for k := 0 to |s|
      invariant multiset(r) == multiset(s[..k]) && Sorted(r)
    {
      var p := |r|;
      while p > 0 && r[p - 1] > s[k]
        invariant 0 <= p <= |r|
        invariant forall i :: p <= i < |r| ==> s[k] < r[i]
      {
        p := p - 1;
      }
      assert s[..k + 1] == s[..k] + [s[k]];
      InsertAt(r, p, s[k]);
      r := r[..p] + [s[k]] + r[p..];
    }
    assert s[..|s|] == s;
  }

  /** Takes the transactions at the end of the sorted index out of the map, down to `threshold` of them. */
  method DropHighest(was: Items, sorted: seq<nat>, threshold: nat) returns (kept: Items, drops: seq<Tx>)
    requires Ascending(sorted) && (forall n :: n in sorted <==> n in was) && threshold <= |sorted|
    ensures kept == Lowest(was, threshold)
    ensures |drops| == |sorted| - threshold
    ensures forall i :: 0 <= i < |drops| ==>
              sorted[|sorted| - 1 - i] in was && drops[i] == was[sorted[|sorted| - 1 - i]]
  {
    hide Lowest, Dropping, Ascending;
    var size := |sorted|;
    kept, drops := was, [];
    DroppingBegins(was, sorted);
    while size > threshold
      invariant threshold <= size <= |sorted| && Dropping(was, sorted, size, kept, drops)
    {
      DroppingStep(was, sorted, size, kept, drops);
      drops := drops + [kept[sorted[size - 1]]];
      kept := kept - {sorted[size - 1]};
      size := size - 1;
    }
    DroppingEnds(was, sorted, threshold, kept, drops);
  }

  /** The transactions at the nonces from position `size` on have been dropped, the last one first. */
  ghost predicate Dropping(was: Items, sorted: seq<nat>, size: nat, kept: Items, drops: seq<Tx>) {
    && size <= |sorted| && |drops| == |sorted| - size
    && kept == (map n | n in was && n !in sorted[size..] :: was[n])
    && forall i :: 0 <= i < |drops| ==> sorted[|sorted| - 1 - i] in was && drops[i] == was[sorted[|sorted| - 1 - i]]
  }

  lemma DroppingBegins(was: Items, sorted: seq<nat>)
    ensures Dropping(was, sorted, |sorted|, was, [])
  {
  }

  lemma DroppingStep(was: Items, sorted: seq<nat>, size: nat, kept: Items, drops: seq<Tx>)
    requires Ascending(sorted) && (forall n :: n in sorted <==> n in was) && size > 0
    requires Dropping(was, sorted, size, kept, drops)
    ensures sorted[size - 1] in kept
    ensures Dropping(was, sorted, size - 1, kept - {sorted[size - 1]}, drops + [kept[sorted[size - 1]]])
  {
    var last, rest := sorted[size - 1], sorted[size..];
    assert sorted[size - 1..] == [last] + rest;
    assert last in sorted;
    assert last !in rest by {
      assert forall i :: 0 <= i < |rest| ==> rest[i] == sorted[size + i];
    }
  }

  lemma DroppingEnds(was: Items, sorted: seq<nat>, threshold: nat, kept: Items, drops: seq<Tx>)
    requires Ascending(sorted) && (forall n :: n in sorted <==> n in was)
    requires Dropping(was, sorted, threshold, kept, drops)
    ensures kept == Lowest(was, threshold) && |drops| == |sorted| - threshold
    ensures forall i :: 0 <= i < |drops| ==>
              sorted[|sorted| - 1 - i] in was && drops[i] == was[sorted[|sorted| - 1 - i]]
  {
    hide Lowest;
    CapKeepsLowest(was, sorted, threshold, kept);
  }

  lemma CountedTwice(s: seq<nat>, i: nat, j: nat)
    requires i < j < |s| && s[i] == s[j]
    ensures multiset(s)[s[i]] >= 2
  {
    assert s == s[..i] + [s[i]] + s[i + 1..j] + [s[j]] + s[j + 1..];
  }

  /** A sorted permutation of the keys is strictly ascending. */
  lemma SortedKeysAscend(s: seq<nat>, items: Items)
    requires Counts(s, items)
    requires Sorted(s)
    ensures Ascending(s) && forall n :: n in s <==> n in items
  {
    IndexMembers(s, items);
    forall i, j | 0 <= i < j < |s| ensures s[i] < s[j] {
      if s[i] == s[j] {
        CountedTwice(s, i, j);
      }
    }
  }

  /** Goes through the map in any order and takes out what `drop` selects. */
  method Partition(items: Items, drop: Tx -> bool) returns (left: Items, removed: seq<Tx>)
    requires Keyed(items)
    ensures left == Without(items, drop) && (removed == [] ==> left == items)
    ensures forall tx :: tx in removed <==> Holds(items, tx) && drop(tx)
    ensures NoDuplicates(removed)
  {
    left, removed := items, [];
    var todo := items.Keys;
    while todo != {}
      invariant todo <= items.Keys && left == map n | n in items && (n in todo || !drop(items[n])) :: items[n]
      invariant forall tx :: tx in removed <==> Holds(items, tx) && tx.nonce !in todo && drop(tx)
      invariant NoDuplicates(removed)
      invariant removed == [] ==> left == items
      decreases |todo|
    {
      var nonce :| nonce in todo;
      var tx := items[nonce];
      if drop(tx) {
        removed := removed + [tx];
        left := left - {nonce};
      }
      todo := todo - {nonce};
    }
  }

  class TxSortedMap {
    var items: Items
    var index: seq<nat>
    var cache: Option<seq<Tx>>

    ghost predicate Valid()
      reads this
    {
      && Keyed(items)
      && Indexes(index, items)
      && (cache.Some? ==> Listing(items, cache.value))
    }

    constructor ()
      ensures Valid() && items == map[]
    {
      items, index, cache := map[], [], None;
    }

    method Put(tx: Tx)
      requires Valid()
      modifies this
      ensures Valid() && items == old(items)[tx.nonce := tx]
    {
      if tx.nonce !in items {
        index := BinaryHeap.Push(NonceLess, index, tx.nonce);
      }
      items, cache := items[tx.nonce := tx], None;
    }

    /** Removes and returns, lowest nonce first, the transactions below `threshold`. */
    method Forward(threshold: nat) returns (removed: seq<Tx>)
      requires Valid()
      modifies this
      ensures Valid() && items == From(old(items), threshold)
      ensures Listing(Below(old(items), threshold), removed)
    {
      hide Indexes, Listing, From, Below;
      removed := [];
      ghost var was, bound: nat := items, 0;
      NothingDrained(was);
      while |index| > 0 && index[0] < threshold
        invariant Indexes(index, items) && bound <= threshold
        invariant items == From(was, bound) && Listing(Below(was, bound), removed)
        invariant cache == old(cache)
        decreases items.Keys
      {
        ghost var removed0 := removed;
        var nonce;
        nonce, index := PopLowest(index, items);
        removed := removed + [items[nonce]];
        DrainStep(was, bound, removed0, nonce);
        items := items - {nonce};
        bound := nonce + 1;
      }
      RootBounds(index, items);
      DrainedAll(was, bound, threshold);
      if cache.Some? {
        FrontCut(was, cache.value, removed, threshold);
        cache := Some(cache.value[|removed|..]);
      }
    }

    /** Removes, in no particular order, the transactions that `drop` selects. */
    method FilterItems(drop: Tx -> bool) returns (removed: seq<Tx>)
      requires Keyed(items)
      modifies this
      ensures items == Without(old(items), drop)
      ensures forall tx :: tx in removed <==> Holds(old(items), tx) && drop(tx)
      ensures NoDuplicates(removed)
      ensures index == old(index) && (removed == [] ==> cache == old(cache) && items == old(items))
      ensures removed != [] ==> cache == None
    {
      var left;
      left, removed := Partition(items, drop);
      items := left;
      if |removed| > 0 {
        cache := None;
      }
    }

    method Reheap()
      requires Keyed(items)
      modifies this
      ensures Valid() && items == old(items) && cache == None
    {
      var keys: seq<nat> := [];
      var todo := items.Keys;
      while todo != {}
        invariant todo <= items.Keys && Counts(keys, items - todo) && items == old(items)
        decreases |todo|
      {
        var nonce :| nonce in todo;
        keys := keys + [nonce];
        todo := todo - {nonce};
      }
      index := BinaryHeap.Init(NonceLess, keys);
      assert items - {} == items;
      cache := None;
    }

    /** Removes the transactions that `drop` selects and rebuilds the heap if there were any. */
    method Filter(drop: Tx -> bool) returns (removed: seq<Tx>)
      requires Valid()
      modifies this
      ensures Valid() && items == Without(old(items), drop)
      ensures forall tx :: tx in removed <==> Holds(old(items), tx) && drop(tx)
      ensures NoDuplicates(removed)
    {
      removed := FilterItems(drop);
      if |removed| > 0 {
        Reheap();
      }
    }

    /** Keeps the `threshold` lowest nonces and returns the other transactions, highest nonce first. */
    method Cap(threshold: nat) returns (drops: seq<Tx>)
      requires Valid()
      modifies this
      ensures Valid() && items == Lowest(old(items), threshold)
      ensures forall tx :: tx in drops <==> Holds(old(items), tx) && !Holds(items, tx)
      ensures forall i, j :: 0 <= i < j < |drops| ==> drops[i].nonce > drops[j].nonce
      ensures |drops| == |old(items)| - |items|
    {
      drops := [];
      ghost var was := items;
      if |items| <= threshold {
        AllLowest(items, threshold);
        return;
      }
      var sorted := SortNonces(index);
      SortedKeysAscend(sorted, items);
      KeysInOrder(items, sorted);
      items, drops := DropHighest(items, sorted, threshold);
      CappedDrops(was, sorted, threshold, drops);
      IndexOfLowest(was, sorted, threshold);
      index := BinaryHeap.Init(NonceLess, sorted[..threshold]);
      if cache.Some? {
        ListingNonces(was, cache.value);
        KeysInOrder(was, Nonces(cache.value));
        ListingPrefix(was, cache.value, threshold);
        cache := Some(cache.value[..|cache.value| - |drops|]);
      }
    }

    method Remove(nonce: nat) returns (found: bool)
      requires Valid()
      modifies this
      ensures Valid() && found == (nonce in old(items)) && items == old(items) - {nonce}
    {
      if nonce !in items {
        assert items - {nonce} == items;
        return false;
      }
      IndexMembers(index, items);
      var i := 0;
      while index[i] != nonce
        invariant 0 <= i < |index| && nonce in index[i..]
        decreases |index| - i
      {
        i := i + 1;
      }
      ghost var index0 := index;
      index := BinaryHeap.Remove(NonceLess, index, i);
      IndexWithout(index0, items, nonce, index);
      items := items - {nonce};
      cache := None;
      return true;
    }

    /**
     Removes and returns, lowest nonce first, the gapless run that starts at the lowest nonce, if that is at most
     `start`.
     */
    method Ready(start: nat) returns (ready: seq<Tx>)
      requires Valid()
      modifies this
      ensures Valid() && items == NotReady(old(items), start)
      ensures NonceSorted(ready) && forall tx :: tx in ready <==> Holds(old(items), tx) && !Holds(items, tx)
    {
      hide Indexes, NotReady, Taken;
      ghost var was := items;
      ready := [];
      RootBounds(index, items);
      if |index| == 0 || index[0] > start {
        NothingReady(was, start);
        return;
      }
      ghost var low := index[0];
      var next: nat := index[0];
      NothingTaken(was, low);
      while |index| > 0 && index[0] == next
        invariant Indexes(index, items) && Taken(was, items, low, next, ready)
        decreases items.Keys
      {
        RootBounds(index, items);
        ghost var items0, ready0 := items, ready;
        ready := ready + [items[next]];
        items := items - {next};
        var popped;
        popped, index := PopLowest(index, items0);
        TakeStep(was, items0, low, next, ready0);
        next := next + 1;
      }
      RootBounds(index, items);
      RunEnds(was, items, low, next, ready);
      RunTaken(was, items, low, next, start, ready);
      cache := None;
    }

    /** The nonce-sorted content; builds and keeps the cache. */
    method Flatten() returns (txs: seq<Tx>)
      requires Valid()
      modifies this
      ensures Valid() && items == old(items) && Listing(items, txs)
    {
      if cache == None {
        var keys := SortKeys();
        var sorted: seq<Tx> := [];
        for i := 0 to |keys|
          invariant |sorted| == i && forall k :: 0 <= k < i ==> keys[k] in items && sorted[k] == items[keys[k]]
        {
          assert keys[i] in keys;
          sorted := sorted + [items[keys[i]]];
        }
        ListingOfKeys(items, keys, sorted);
        cache := Some(sorted);
      }
      txs := cache.value;
    }

    method SortKeys() returns (keys: seq<nat>)
      ensures Ascending(keys) && forall n :: n in keys <==> n in items
    {
      var all: seq<nat> := [];
      var todo := items.Keys;
      while todo != {}
        invariant todo <= items.Keys && Counts(all, items - todo)
        decreases |todo|
      {
        var nonce :| nonce in todo;
        all := all + [nonce];
        todo := todo - {nonce};
      }
      keys := SortNonces(all);
      assert items - {} == items;
      SortedKeysAscend(keys, items);
    }

    /** The transaction with the highest nonce. */
    method LastElement() returns (tx: Tx)
      requires Valid() && items != map[]
      modifies this
      ensures Valid() && items == old(items)
      ensures Holds(items, tx) && forall n :: n in items ==> n <= tx.nonce
    {
      var txs := Flatten();
      ListingNonces(items, txs);
      var any :| any in items;
      assert any in Nonces(txs);
      tx := txs[|txs| - 1];
      assert tx in txs;
      forall n | n in items ensures n <= tx.nonce {
        assert n in Nonces(txs);
      }
    }
  }

  ghost predicate NoDuplicates(s: seq<Tx>) {
    forall i, j :: 0 <= i < j < |s| ==> s[i] != s[j]
  }

  lemma NothingDrained(was: Items)
    ensures From(was, 0) == was && Listing(Below(was, 0), [])
  {
  }

  /** Popping the lowest nonce moves the boundary between what is gone and what is left just past it. */
  lemma DrainStep(was: Items, bound: nat, removed: seq<Tx>, nonce: nat)
    requires Keyed(was) && Listing(Below(was, bound), removed)
    requires nonce in From(was, bound) && forall n :: n in From(was, bound) ==> nonce <= n
    ensures From(was, bound)[nonce] == was[nonce] && From(was, bound) - {nonce} == From(was, nonce + 1)
    ensures Listing(Below(was, nonce + 1), removed + [was[nonce]])
  {
    var next := removed + [was[nonce]];
    forall i | 0 <= i < |removed| ensures removed[i].nonce < bound {
      assert removed[i] in removed;
    }
    forall tx ensures tx in next <==> Holds(Below(was, nonce + 1), tx) {
      assert tx in next <==> tx in removed || tx == was[nonce];
      if Holds(was, tx) && tx.nonce >= bound {
        assert tx.nonce in From(was, bound);
      }
    }
  }

  lemma DrainedAll(was: Items, bound: nat, threshold: nat)
    requires Keyed(was) && bound <= threshold
    requires forall n :: n in From(was, bound) ==> n >= threshold
    ensures Keyed(From(was, threshold))
    ensures From(was, bound) == From(was, threshold) && Below(was, bound) == Below(was, threshold)
  {
    forall n | n in was && n >= bound ensures n >= threshold {
      assert n in From(was, bound);
    }
  }

  /** Where a nonce-sorted sequence crosses `threshold`. */
  lemma CrossingPoint(s: seq<Tx>, threshold: nat) returns (k: nat)
    requires NonceSorted(s)
    ensures k <= |s| && forall i :: 0 <= i < |s| ==> (s[i].nonce < threshold <==> i < k)
  {
    k := 0;
    while k < |s| && s[k].nonce < threshold
      invariant k <= |s| && forall i :: 0 <= i < k ==> s[i].nonce < threshold
    {
      k := k + 1;
    }
  }

  /**
   The removed transactions are the front of the cached order, so cutting as many off leaves the order of the rest.
   */
  lemma FrontCut(was: Items, cache: seq<Tx>, removed: seq<Tx>, threshold: nat)
    requires Keyed(was) && Listing(was, cache)
    requires Listing(Below(was, threshold), removed)
    ensures |removed| <= |cache| && Listing(From(was, threshold), cache[|removed|..])
  {
    var k := CrossingPoint(cache, threshold);
    ListingSuffix(was, cache, k, threshold);
    var front := cache[..k];
    forall tx ensures tx in front <==> Holds(Below(was, threshold), tx) {
      if tx in front {
        assert tx in cache;
      }
      if Holds(Below(was, threshold), tx) {
        assert tx in cache;
        var i :| 0 <= i < |cache| && cache[i] == tx;
        assert front[i] == tx;
      }
    }
    ListingNonces(Below(was, threshold), front);
    ListingNonces(Below(was, threshold), removed);
    AscendingIsUnique(Nonces(front), Nonces(removed));
  }

  lemma CapKeepsLowest(was: Items, index: seq<nat>, threshold: nat, items: Items)
    requires Ascending(index) && (forall n :: n in index <==> n in was) && threshold <= |index|
    requires items == map n | n in was && n !in index[threshold..] :: was[n]
    ensures items == Lowest(was, threshold)
  {
    forall n | n in was ensures n in index[threshold..] <==> |Lower(was, n)| >= threshold {
      var i :| 0 <= i < |index| && index[i] == n;
      RankOfPosition(was, index, i);
      if i >= threshold {
        assert index[threshold..][i - threshold] == n;
      }
    }
  }

  lemma CappedDrops(was: Items, sorted: seq<nat>, threshold: nat, drops: seq<Tx>)
    requires Keyed(was) && Ascending(sorted) && (forall n :: n in sorted <==> n in was)
    requires threshold <= |sorted| && |drops| == |sorted| - threshold
    requires forall i :: 0 <= i < |drops| ==>
               sorted[|sorted| - 1 - i] in was && drops[i] == was[sorted[|sorted| - 1 - i]]
    ensures forall tx :: tx in drops <==> Holds(was, tx) && !Holds(Lowest(was, threshold), tx)
    ensures forall i, j :: 0 <= i < j < |drops| ==> drops[i].nonce > drops[j].nonce
    ensures |Lowest(was, threshold)| == threshold
  {
    forall tx ensures tx in drops <==> Holds(was, tx) && !Holds(Lowest(was, threshold), tx) {
      InDrops(was, sorted, threshold, drops, tx);
    }
    LowestKeys(was, sorted, threshold);
    KeysInOrder(Lowest(was, threshold), sorted[..threshold]);
  }

  lemma InDrops(was: Items, sorted: seq<nat>, threshold: nat, drops: seq<Tx>, tx: Tx)
    requires Keyed(was) && Ascending(sorted) && (forall n :: n in sorted <==> n in was)
    requires threshold <= |sorted| && |drops| == |sorted| - threshold
    requires forall i :: 0 <= i < |drops| ==>
               sorted[|sorted| - 1 - i] in was && drops[i] == was[sorted[|sorted| - 1 - i]]
    ensures tx in drops <==> Holds(was, tx) && !Holds(Lowest(was, threshold), tx)
  {
    hide Ascending;
    if Holds(was, tx) {
      var i :| 0 <= i < |sorted| && sorted[i] == tx.nonce;
      RankOfPosition(was, sorted, i);
      if i >= threshold {
        assert drops[|sorted| - 1 - i] == tx;
      }
    }
    if tx in drops {
      var k :| 0 <= k < |drops| && drops[k] == tx;
      RankOfPosition(was, sorted, |sorted| - 1 - k);
    }
  }

  lemma LowestKeys(was: Items, index: seq<nat>, threshold: nat)
    requires Ascending(index) && (forall n :: n in index <==> n in was) && threshold <= |index|
    ensures forall n :: n in index[..threshold] <==> n in Lowest(was, threshold)
  {
    forall n ensures n in index[..threshold] <==> n in Lowest(was, threshold) {
      if n in was {
        var i :| 0 <= i < |index| && index[i] == n;
        RankOfPosition(was, index, i);
        if i < threshold {
          assert index[..threshold][i] == n;
        }
      }
      assert n in index[..threshold] ==> n in index;
    }
  }

  lemma IndexOfLowest(was: Items, index: seq<nat>, threshold: nat)
    requires Ascending(index) && (forall n :: n in index <==> n in was) && threshold <= |index|
    ensures Counts(index[..threshold], Lowest(was, threshold))
  {
    LowestKeys(was, index, threshold);
    AscendingCounts(index[..threshold]);
  }

  lemma {:induction false} AscendingCounts(s: seq<nat>)
    requires Ascending(s)
    ensures forall n :: multiset(s)[n] == if n in s then 1 else 0
  {
    if s != [] {
      var t, last := s[..|s| - 1], s[|s| - 1];
      AscendingCounts(t);
      assert s == t + [last];
    }
  }

  /** State of taking the first run: the nonces from `low` to `next` went, in order, into `ready`. */
  ghost predicate Taken(was: Items, items: Items, low: nat, next: nat, ready: seq<Tx>) {
    && low <= next && items == From(was, next)
    && (forall m :: low <= m < next ==> m in was)
    && |ready| == next - low && forall i :: 0 <= i < |ready| ==> ready[i] == was[low + i]
  }

  lemma NothingTaken(was: Items, low: nat)
    requires forall n :: n in was ==> low <= n
    ensures Taken(was, was, low, low, [])
  {
    assert From(was, low) == was;
  }

  lemma TakeStep(was: Items, items: Items, low: nat, next: nat, ready: seq<Tx>)
    requires Taken(was, items, low, next, ready) && next in items
    ensures Taken(was, items - {next}, low, next + 1, ready + [items[next]])
  {
  }

  lemma NothingReady(was: Items, start: nat)
    requires forall n :: n in was ==> n > start
    ensures NotReady(was, start) == was
  {
  }

  /** The run ends when nothing is left or the lowest nonce left is not the next one. */
  lemma RunEnds(was: Items, items: Items, low: nat, next: nat, ready: seq<Tx>)
    requires Taken(was, items, low, next, ready)
    requires items == map[] || exists n :: n in items && n != next && forall m :: m in items ==> n <= m
    ensures next !in items
  {
  }

  lemma RunTaken(was: Items, items: Items, low: nat, next: nat, start: nat, ready: seq<Tx>)
    requires Keyed(was) && Taken(was, items, low, next, ready) && next !in items
    requires low in was && low <= start && (forall n :: n in was ==> low <= n)
    ensures Keyed(items) && items == NotReady(was, start)
    ensures NonceSorted(ready) && forall tx :: tx in ready <==> Holds(was, tx) && !Holds(items, tx)
  {
    NothingLess(was, low, next, start);
    forall tx ensures tx in ready <==> Holds(was, tx) && !Holds(items, tx) {
      if Holds(was, tx) && !Holds(items, tx) {
        assert ready[tx.nonce - low] == tx;
      }
    }
  }

  lemma NothingLess(was: Items, low: nat, next: nat, start: nat)
    requires low in was && low <= start && (forall n :: n in was ==> low <= n)
    requires low <= next && next !in From(was, next) && forall m :: low <= m < next ==> m in was
    ensures From(was, next) == NotReady(was, start)
  {
    assert next !in was;
    assert SomeReady(was, start);
    forall n | n in was ensures InFirstRun(was, n) <==> n < next {
      InRunFromLowest(was, low, n);
    }
  }

  lemma InRunFromLowest(was: Items, low: nat, n: nat)
    requires low in was && (forall m :: m in was ==> low <= m)
    ensures InFirstRun(was, n) <==> low <= n && forall m :: low <= m <= n ==> m in was
  {
    assert Lower(was, low) == {};
    if InFirstRun(was, n) {
      var l :| l in was && Lower(was, l) == {} && l <= n && forall m :: l <= m <= n ==> m in was;
      assert low !in Lower(was, l);
    }
  }

  lemma ListingOfKeys(items: Items, keys: seq<nat>, s: seq<Tx>)
    requires Keyed(items) && Ascending(keys) && (forall n :: n in keys <==> n in items)
    requires |s| == |keys| && forall i :: 0 <= i < |s| ==> s[i] == items[keys[i]]
    ensures Listing(items, s)
  {
    forall tx ensures tx in s <==> Holds(items, tx) {
      if Holds(items, tx) {
        var i :| 0 <= i < |keys| && keys[i] == tx.nonce;
        assert s[i] == tx;
      }
    }
  }

  /** The operations on a sorted map, for stating what any sequence of them does. */
  datatype Operation =
    | Put(tx: Tx)
    | Forward(threshold: nat)
    | Filter(drop: Tx -> bool)
    | Cap(limit: nat)
    | Remove(nonce: nat)
    | Ready(start: nat)
    | Flatten

  ghost function Meaning(items: Items, op: Operation): Items {
    match op
    case Put(tx) => items[tx.nonce := tx]
    case Forward(threshold) => From(items, threshold)
    case Filter(drop) => Without(items, drop)
    case Cap(limit) => Lowest(items, limit)
    case Remove(nonce) => items - {nonce}
    case Ready(start) => NotReady(items, start)
    case Flatten => items
  }

  ghost function MeaningOfRun(items: Items, ops: seq<Operation>): Items {
    if ops == [] then items else Meaning(MeaningOfRun(items, ops[..|ops| - 1]), ops[|ops| - 1])
  }

  /** Any sequence of operations keeps map, heap and cache in step and does what it would do to a plain map. */
  method Run(m: TxSortedMap, ops: seq<Operation>)
    requires m.Valid()
    modifies m
    ensures m.Valid() && m.items == MeaningOfRun(old(m.items), ops)
  {
    hide TxSortedMap.Valid, Meaning;
    for k := 0 to |ops|
      invariant m.Valid() && m.items == MeaningOfRun(old(m.items), ops[..k])
    {
      assert ops[..k + 1][..k] == ops[..k];
      Apply(m, ops[k]);
    }
    assert ops[..|ops|] == ops;
  }

  method Apply(m: TxSortedMap, op: Operation)
    requires m.Valid()
    modifies m
    ensures m.Valid() && m.items == Meaning(old(m.items), op)
  {
    hide TxSortedMap.Valid, From, Below, Without, Lowest, NotReady, Listing, NoDuplicates, NonceSorted;
    match op {
      case Put(tx) => m.Put(tx);
      case Forward(threshold) => var _ := m.Forward(threshold);
      case Filter(drop) => var _ := m.Filter(drop);
      case Cap(limit) => var _ := m.Cap(limit);
      case Remove(nonce) => var _ := m.Remove(nonce);
      case Ready(start) => var _ := m.Ready(start);
      case Flatten => var _ := m.Flatten();
    }
  }
}

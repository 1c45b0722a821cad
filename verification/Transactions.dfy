/**
 Transactions as the pool sees them, and the value of one account's transaction list.
 */
module Transactions {

  type Address = nat

  /**
   A transaction is immutable.  Its hash identifies it, so two transactions with the same hash
   are the same value; `id` stands for the fields the pool does not look at.  `cost` is the value plus
   the price of the gas limit, `intrinsic` the gas that the data alone takes.
   */
  datatype Tx = Tx(id: nat, from: Address, nonce: nat, price: nat, gas: nat, cost: nat, size: Size, intrinsic: nat)

  /** The size of an encoded transaction, which is never empty. */
  type Size = n: nat | n > 0 witness 1

  const TX_SLOT_SIZE: nat := 32 * 1024

  /** The number of data slots a transaction takes. */
  function NumSlots(tx: Tx): nat {
    (tx.size + TX_SLOT_SIZE - 1) / TX_SLOT_SIZE
  }

  /** A transaction takes as many slots of 32768 bytes as its size needs. */
  lemma SlotsHoldSize(tx: Tx)
    ensures NumSlots(tx) > 0 && (NumSlots(tx) - 1) * 32768 < tx.size <= NumSlots(tx) * 32768
  {
  }

  /** A nonce-indexed set of transactions. */
  type Items = map<nat, Tx>

  ghost predicate Keyed(items: Items) {
    forall n :: n in items ==> items[n].nonce == n
  }

  /** `tx` itself, not just some transaction with its nonce, is stored in `items`. */
  predicate Holds(items: Items, tx: Tx) {
    tx.nonce in items && items[tx.nonce] == tx
  }

  ghost predicate Ascending(s: seq<nat>) {
    forall i, j :: 0 <= i < j < |s| ==> s[i] < s[j]
  }

  ghost predicate NonceSorted(s: seq<Tx>) {
    forall i, j :: 0 <= i < j < |s| ==> s[i].nonce < s[j].nonce
  }

  /** `s` lists the transactions of `items`, each once, in the order of their nonces. */
  ghost predicate Listing(items: Items, s: seq<Tx>) {
    NonceSorted(s) && forall tx :: tx in s <==> Holds(items, tx)
  }

  /** The nonces of `items` below `n`. */
  function Lower(items: Items, n: nat): set<nat> {
    set m | m in items && m < n
  }

  // ----- what the list operations leave behind, stated without heaps and caches -----

  /** The transactions with a nonce of at least `threshold`. */
  function From(items: Items, threshold: nat): Items {
    map n | n in items && n >= threshold :: items[n]
  }

  /** The transactions with a nonce below `threshold`. */
  function Below(items: Items, threshold: nat): Items {
    map n | n in items && n < threshold :: items[n]
  }

  /** The transactions that `drop` does not select. */
  function Without(items: Items, drop: Tx -> bool): Items {
    map n | n in items && !drop(items[n]) :: items[n]
  }

  /** The `limit` transactions with the lowest nonces. */
  function Lowest(items: Items, limit: nat): Items {
    map n | n in items && |Lower(items, n)| < limit :: items[n]
  }

  /** `n` can be reached from the lowest nonce of `items` without a gap. */
  predicate InFirstRun(items: Items, n: nat) {
    exists low :: low in items && Lower(items, low) == {} && low <= n && forall m :: low <= m <= n ==> m in items
  }

  /** The lowest nonce is at most `start`, so that something is ready. */
  predicate SomeReady(items: Items, start: nat) {
    exists n :: n in items && n <= start
  }

  /** What stays when the ready transactions for `start` are taken out. */
  function NotReady(items: Items, start: nat): Items {
    if SomeReady(items, start) then map n | n in items && !InFirstRun(items, n) :: items[n] else items
  }

  /**
   What a scan over all transactions keeps when `drop` selects the ones to remove: a strict list also
   gives up every transaction above a removed one.
   */
  function Scanned(strict: bool, items: Items, drop: Tx -> bool): Items {
    map n | n in items && !drop(items[n]) && (strict ==> forall m :: m in items && drop(items[m]) ==> n < m) :: items[n]
  }

  /** The nonces of `items` are exactly those from `lo` up to, but not including, `hi`. */
  ghost predicate Contiguous(items: Items, lo: nat, hi: nat) {
    lo <= hi && forall n :: n in items <==> lo <= n < hi
  }

  // ----- facts about listings -----

  /** Two ascending sequences with the same elements are equal. */
  lemma {:induction false} AscendingIsUnique(a: seq<nat>, b: seq<nat>)
    requires Ascending(a) && Ascending(b)
    requires forall x :: x in a <==> x in b
    ensures a == b
  {
    assert a != [] ==> a[0] in b;
    assert b != [] ==> b[0] in a;
    if a != [] {
      forall x ensures x in a[1..] <==> x in b[1..] {
        assert x in a <==> x == a[0] || x in a[1..];
        assert x in b <==> x == b[0] || x in b[1..];
      }
      AscendingIsUnique(a[1..], b[1..]);
    }
  }

  ghost function Nonces(s: seq<Tx>): (r: seq<nat>)
    ensures |r| == |s| && forall i :: 0 <= i < |s| ==> r[i] == s[i].nonce
  {
    seq(|s|, i requires 0 <= i < |s| => s[i].nonce)
  }

  /** The nonces of a listing are the keys, in ascending order. */
  lemma ListingNonces(items: Items, s: seq<Tx>)
    requires Keyed(items) && Listing(items, s)
    ensures Ascending(Nonces(s)) && forall n :: n in Nonces(s) <==> n in items
  {
    forall n ensures n in Nonces(s) <==> n in items {
      if n in Nonces(s) {
        var i :| 0 <= i < |s| && Nonces(s)[i] == n;
        assert s[i] in s;
      }
      if n in items {
        assert items[n] in s;
        var i :| 0 <= i < |s| && s[i] == items[n];
        assert Nonces(s)[i] == n;
      }
    }
  }

  /** In an ascending sequence of the keys, the element at position `i` has `i` keys below it. */
  lemma RankOfPosition(items: Items, s: seq<nat>, i: nat)
    requires Ascending(s) && (forall n :: n in s <==> n in items) && i < |s|
    ensures |Lower(items, s[i])| == i
  {
    var low := s[..i];
    assert Lower(items, s[i]) == Elements(low) by {
      forall m | m in Lower(items, s[i]) ensures m in low {
        var k :| 0 <= k < |s| && s[k] == m;
        assert k < i;
        assert low[k] == m;
      }
    }
    SizeOfAscending(low);
  }

  ghost function Elements(s: seq<nat>): set<nat> {
    set m | m in s
  }

  lemma {:induction false} SizeOfAscending(s: seq<nat>)
    requires Ascending(s)
    ensures |Elements(s)| == |s|
  {
    if s == [] {
      assert Elements(s) == {};
    } else {
      var t, last := s[..|s| - 1], s[|s| - 1];
      SizeOfAscending(t);
      assert s == t + [last];
      assert Elements(s) == Elements(t) + {last};
    }
  }

  /** An ascending sequence of the keys is as long as the map. */
  lemma KeysInOrder(items: Items, s: seq<nat>)
    requires Ascending(s) && (forall n :: n in s <==> n in items)
    ensures |s| == |items|
  {
    SizeOfAscending(s);
    assert items.Keys == Elements(s);
  }

  /** Cutting the front of a listing lists what is left. */
  lemma ListingSuffix(items: Items, s: seq<Tx>, k: nat, threshold: nat)
    requires Keyed(items) && Listing(items, s) && k <= |s|
    requires forall i :: 0 <= i < |s| ==> (s[i].nonce < threshold <==> i < k)
    ensures Listing(From(items, threshold), s[k..])
  {
    forall tx ensures tx in s[k..] <==> Holds(From(items, threshold), tx) {
      if tx in s[k..] {
        assert tx in s && Holds(items, tx);
      }
      if Holds(From(items, threshold), tx) {
        assert tx in s;
        var i :| 0 <= i < |s| && s[i] == tx;
        assert i >= k && s[k..][i - k] == tx;
      }
    }
  }

  /** Cutting the back of a listing lists what is left. */
  lemma ListingPrefix(items: Items, s: seq<Tx>, k: nat)
    requires Keyed(items) && Listing(items, s) && k <= |s|
    ensures Listing(Lowest(items, k), s[..k])
  {
    ListingNonces(items, s);
    forall tx ensures tx in s[..k] <==> Holds(Lowest(items, k), tx) {
      if tx in s {
        var i :| 0 <= i < |s| && s[i] == tx;
        RankOfPosition(items, Nonces(s), i);
        if i < k {
          assert s[..k][i] == tx;
        }
      }
      assert tx in s[..k] ==> tx in s;
    }
  }

  lemma {:induction false} HighestKey(items: Items) returns (high: nat)
    requires items != map[]
    ensures high in items && forall n :: n in items ==> n <= high
    decreases |items|
  {
    var any :| any in items;
    var rest := items - {any};
    if rest == map[] {
      assert forall n :: n in items ==> n == any || n in rest;
      high := any;
    } else {
      var h := HighestKey(rest);
      assert forall n :: n in items ==> n == any || n in rest;
      high := if h < any then any else h;
    }
  }

  /** The keys in ascending order exist. */
  lemma {:induction false} AscendingKeys(items: Items) returns (s: seq<nat>)
    ensures Ascending(s) && forall n :: n in s <==> n in items
    decreases |items|
  {
    if items == map[] {
      s := [];
    } else {
      var high := HighestKey(items);
      var t := AscendingKeys(items - {high});
      forall i | 0 <= i < |t| ensures t[i] < high {
        assert t[i] in t;
      }
      s := t + [high];
    }
  }

  /** The `limit` lowest transactions are `limit` in number, if there are as many. */
  lemma LowestSize(items: Items, limit: nat)
    ensures |Lowest(items, limit)| == if |items| < limit then |items| else limit
  {
    var s := AscendingKeys(items);
    KeysInOrder(items, s);
    var k := if |items| < limit then |items| else limit;
    var low := s[..k];
    forall n ensures n in low <==> n in Lowest(items, limit) {
      if n in items {
        var i :| 0 <= i < |s| && s[i] == n;
        RankOfPosition(items, s, i);
        if i < k {
          assert low[i] == n;
        }
      }
      assert n in low ==> n in s;
    }
    KeysInOrder(Lowest(items, limit), low);
  }

  /** Cutting a list twice is cutting it to the smaller size. */
  lemma LowestOfLowest(items: Items, k: nat, j: nat)
    requires j <= k
    ensures Lowest(Lowest(items, k), j) == Lowest(items, j)
  {
    forall n | n in Lowest(items, k)
      ensures Lower(Lowest(items, k), n) == Lower(items, n)
    {
      forall m | m in Lower(items, n)
        ensures m in Lowest(items, k)
      {
        LowerIsFewer(items, m, n);
      }
    }
  }

  lemma LowerIsFewer(items: Items, m: nat, n: nat)
    requires m in items && m < n
    ensures |Lower(items, m)| < |Lower(items, n)|
  {
    assert Lower(items, n) == Lower(items, m) + {m} + (Lower(items, n) - Lower(items, m) - {m});
  }

  lemma AllLowest(items: Items, threshold: nat)
    requires |items| <= threshold
    ensures Lowest(items, threshold) == items
  {
    forall n | n in items ensures |Lower(items, n)| < threshold {
      Smaller(Lower(items, n), items.Keys);
    }
  }

  lemma Smaller(a: set<nat>, b: set<nat>)
    requires a < b
    ensures |a| < |b|
  {
    assert b == a + (b - a);
  }

  lemma SubsetSize<T>(a: set<T>, b: set<T>)
    requires a <= b
    ensures |a| <= |b|
  {
    assert b == a + (b - a);
  }
}

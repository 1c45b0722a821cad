/**
 One account's transaction list.  A pending list is strict: it must stay gapless, so removing a
 transaction takes the later ones with it.  The list caches upper bounds on the cost and gas of its
 transactions to skip scans.
 */
module TxLists {
  import opened Options
  import opened Transactions
  import opened TxSortedMaps

  /** The value of a list: what the pool relies on, without heap and cache. */
  datatype ListValue = ListValue(strict: bool, items: Items, costcap: nat, gascap: nat)

  const EMPTY_PENDING := ListValue(true, map[], 0, 0)
  const EMPTY_QUEUED := ListValue(false, map[], 0, 0)

  ghost predicate Bounded(items: Items, costcap: nat, gascap: nat) {
    forall n :: n in items ==> items[n].cost <= costcap && items[n].gas <= gascap
  }

  ghost predicate WellFormed(l: ListValue) {
    Keyed(l.items) && Bounded(l.items, l.costcap, l.gascap)
  }

  /** `tx` offers enough more than `prev` to take its place. */
  predicate Outbids(tx: Tx, prev: Tx, priceBump: nat) {
    tx.price > prev.price && tx.price >= prev.price * (100 + priceBump) / 100
  }

  /** A replacement pays more, and by the price bump in percent more, up to rounding down. */
  lemma OutbidsByPercent(tx: Tx, prev: Tx, priceBump: nat)
    ensures Outbids(tx, prev, priceBump) <==>
              tx.price > prev.price && 100 * (tx.price + 1) > prev.price * (100 + priceBump)
  {
    var wanted := prev.price * (100 + priceBump);
    assert wanted == 100 * (wanted / 100) + wanted % 100;
  }

  /** `tx` may enter the list. */
  predicate Accepts(l: ListValue, tx: Tx, priceBump: nat) {
    tx.nonce in l.items ==> Outbids(tx, l.items[tx.nonce], priceBump)
  }

  function Max(a: nat, b: nat): nat {
    if a < b then b else a
  }

  /** The list after an attempt to add `tx`. */
  function Added(l: ListValue, tx: Tx, priceBump: nat): ListValue {
    if Accepts(l, tx, priceBump)
    then l.(items := l.items[tx.nonce := tx], costcap := Max(l.costcap, tx.cost), gascap := Max(l.gascap, tx.gas))
    else l
  }

  /** What a transaction at the given nonce is, if any. */
  function Lookup(items: Items, nonce: nat): Option<Tx> {
    if nonce in items then Some(items[nonce]) else None
  }

  function TooCostly(costLimit: nat, gasLimit: nat): Tx -> bool {
    (tx: Tx) => tx.gas > gasLimit || tx.cost > costLimit
  }

  /** The list after dropping everything beyond the limits, by a full scan. */
  function Filtered(l: ListValue, costLimit: nat, gasLimit: nat): ListValue {
    if l.costcap <= costLimit && l.gascap <= gasLimit then
      l.(items := Scanned(l.strict, l.items, TooCostly(costLimit, gasLimit)))
    else
      l.(items := Scanned(l.strict, l.items, TooCostly(costLimit, gasLimit)), costcap := costLimit, gascap := gasLimit)
  }

  /** What is left when the transaction at `nonce` is removed. */
  function Removed(l: ListValue, nonce: nat): ListValue {
    if nonce !in l.items then l
    else if l.strict then l.(items := Below(l.items, nonce))
    else l.(items := l.items - {nonce})
  }

  /** The caps bound every transaction, so when they are within the limits a full scan removes nothing. */
  lemma CapsDecide(l: ListValue, costLimit: nat, gasLimit: nat)
    requires WellFormed(l) && l.costcap <= costLimit && l.gascap <= gasLimit
    ensures Scanned(l.strict, l.items, TooCostly(costLimit, gasLimit)) == l.items
  {
  }

  /** Removing the costly transactions and then, in strict mode, those above the lowest removed nonce is a full scan. */
  lemma TwoPassesScan(items: Items, drop: Tx -> bool, lowest: nat)
    requires Keyed(items) && lowest in items && drop(items[lowest])
    requires forall m :: m in items && drop(items[m]) ==> lowest <= m
    ensures Without(Without(items, drop), (tx: Tx) => tx.nonce > lowest) == Scanned(true, items, drop)
  {
  }

  /** Filtering a gapless strict list leaves a gapless list with the same start. */
  lemma FilterKeepsGapless(l: ListValue, lo: nat, hi: nat, costLimit: nat, gasLimit: nat) returns (mid: nat)
    requires l.strict && Contiguous(l.items, lo, hi)
    ensures lo <= mid <= hi && Contiguous(Filtered(l, costLimit, gasLimit).items, lo, mid)
    ensures mid < hi ==> TooCostly(costLimit, gasLimit)(l.items[mid])
  {
    var drop := TooCostly(costLimit, gasLimit);
    mid := lo;
    while mid < hi && !drop(l.items[mid])
      invariant lo <= mid <= hi && forall m :: lo <= m < mid ==> !drop(l.items[m])
    {
      mid := mid + 1;
    }
  }

  /** Removing from a gapless strict list leaves the part below. */
  lemma RemoveKeepsGapless(l: ListValue, lo: nat, hi: nat, nonce: nat)
    requires l.strict && Contiguous(l.items, lo, hi) && nonce in l.items
    ensures Contiguous(Removed(l, nonce).items, lo, nonce)
  {
  }

  class TxList {
    const strict: bool
    const txs: TxSortedMap
    var costcap: nat
    var gascap: nat

    ghost predicate Valid()
      reads this, txs
    {
      txs.Valid() && Bounded(txs.items, costcap, gascap)
    }

    ghost function Value(): ListValue
      reads this, txs
    {
      ListValue(strict, txs.items, costcap, gascap)
    }

    constructor (strict: bool)
      ensures Valid() && fresh(txs) && Value() == if strict then EMPTY_PENDING else EMPTY_QUEUED
    {
      this.strict := strict;
      txs := new TxSortedMap();
      costcap, gascap := 0, 0;
    }

    method Add(tx: Tx, priceBump: nat) returns (inserted: bool, prev: Option<Tx>)
      requires Valid()
      modifies this, txs
      ensures Valid() && Value() == Added(old(Value()), tx, priceBump)
      ensures inserted == Accepts(old(Value()), tx, priceBump)
      ensures prev == if inserted then Lookup(old(txs.items), tx.nonce) else None
    {
      prev := Lookup(txs.items, tx.nonce);
      if prev.Some? {
        var threshold := (100 + priceBump) * prev.value.price / 100;
        if prev.value.price >= tx.price || tx.price < threshold {
          return false, None;
        }
      }
      txs.Put(tx);
      if costcap < tx.cost {
        costcap := tx.cost;
      }
      if gascap < tx.gas {
        gascap := tx.gas;
      }
      inserted := true;
    }

    method Forward(threshold: nat) returns (removed: seq<Tx>)
      requires Valid()
      modifies this, txs
      ensures Valid() && Value() == old(Value()).(items := From(old(txs.items), threshold))
      ensures Listing(Below(old(txs.items), threshold), removed)
    {
      removed := txs.Forward(threshold);
    }

    /** Short-circuits on the caps, yet removes what a full scan would. */
    method Filter(costLimit: nat, gasLimit: nat) returns (removed: seq<Tx>, invalids: seq<Tx>)
      requires Valid()
      modifies this, txs
      ensures Valid() && Value() == Filtered(old(Value()), costLimit, gasLimit)
      ensures forall tx :: tx in removed <==> Holds(old(txs.items), tx) && TooCostly(costLimit, gasLimit)(tx)
      ensures forall tx :: tx in invalids <==>
                Holds(old(txs.items), tx) && !TooCostly(costLimit, gasLimit)(tx) && !Holds(txs.items, tx)
      ensures NoDuplicates(removed) && NoDuplicates(invalids)
    {
      ghost var was := Value();
      if costcap <= costLimit && gascap <= gasLimit {
        CapsDecide(was, costLimit, gasLimit);
        return [], [];
      }
      costcap, gascap := costLimit, gasLimit;
      removed := txs.Filter(TooCostly(costLimit, gasLimit));
      invalids := [];
      if |removed| == 0 {
        NothingScanned(was, costLimit, gasLimit);
        return;
      }
      if strict {
        invalids := DropAbove(removed, was.items, TooCostly(costLimit, gasLimit));
      }
      txs.Reheap();
    }

    /** Drops what lies above the lowest removed nonce. */
    method DropAbove(removed: seq<Tx>, ghost was: Items, ghost drop: Tx -> bool) returns (invalids: seq<Tx>)
      requires Keyed(was) && txs.items == Without(was, drop) && removed != []
      requires forall tx :: tx in removed <==> Holds(was, tx) && drop(tx)
      modifies txs
      ensures Keyed(txs.items) && txs.items == Scanned(true, was, drop)
      ensures forall tx :: tx in invalids <==> Holds(was, tx) && !drop(tx) && !Holds(txs.items, tx)
      ensures NoDuplicates(invalids)
    {
      var lowest := LowestNonce(removed);
      invalids := txs.FilterItems((tx: Tx) => tx.nonce > lowest);
      assert was[lowest] in removed;
      TwoPassesScan(was, drop, lowest);
    }

    method Cap(threshold: nat) returns (drops: seq<Tx>)
      requires Valid()
      modifies this, txs
      ensures Valid() && Value() == old(Value()).(items := Lowest(old(txs.items), threshold))
      ensures forall tx :: tx in drops <==> Holds(old(txs.items), tx) && !Holds(txs.items, tx)
      ensures |drops| == |old(txs.items)| - |txs.items|
    {
      drops := txs.Cap(threshold);
    }

    method Remove(tx: Tx) returns (found: bool, invalids: seq<Tx>)
      requires Valid()
      modifies this, txs
      ensures Valid() && Value() == Removed(old(Value()), tx.nonce)
      ensures found == (tx.nonce in old(txs.items))
      ensures forall t :: t in invalids <==>
                Holds(old(txs.items), t) && t.nonce != tx.nonce && !Holds(txs.items, t)
    {
      var nonce := tx.nonce;
      ghost var was := txs.items;
      found := txs.Remove(nonce);
      invalids := [];
      if found && strict {
        invalids := txs.Filter((t: Tx) => t.nonce > nonce);
        assert Below(was, nonce) == Without(was - {nonce}, (t: Tx) => t.nonce > nonce);
      }
    }

    method Ready(start: nat) returns (ready: seq<Tx>)
      requires Valid()
      modifies this, txs
      ensures Valid() && Value() == old(Value()).(items := NotReady(old(txs.items), start))
      ensures NonceSorted(ready) && forall tx :: tx in ready <==> Holds(old(txs.items), tx) && !Holds(txs.items, tx)
    {
      ready := txs.Ready(start);
    }
  }

  lemma NothingScanned(l: ListValue, costLimit: nat, gasLimit: nat)
    requires Keyed(l.items)
    requires forall tx :: Holds(l.items, tx) ==> !TooCostly(costLimit, gasLimit)(tx)
    ensures Scanned(l.strict, l.items, TooCostly(costLimit, gasLimit)) == l.items
    ensures Without(l.items, TooCostly(costLimit, gasLimit)) == l.items
    ensures Bounded(l.items, costLimit, gasLimit)
  {
    forall n | n in l.items ensures !TooCostly(costLimit, gasLimit)(l.items[n]) {
      assert Holds(l.items, l.items[n]);
    }
  }

  method LowestNonce(txs: seq<Tx>) returns (lowest: nat)
    requires |txs| > 0
    ensures (exists tx :: tx in txs && tx.nonce == lowest) && forall tx :: tx in txs ==> lowest <= tx.nonce
  {
    lowest := txs[0].nonce;
    for i := 1 to |txs|
      invariant exists k :: 0 <= k < i && txs[k].nonce == lowest
      invariant forall k :: 0 <= k < i ==> lowest <= txs[k].nonce
    {
      if lowest > txs[i].nonce {
        lowest := txs[i].nonce;
      }
    }
  }
}

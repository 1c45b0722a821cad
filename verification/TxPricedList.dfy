/**
 The pool's two whole-pool structures: the lookup of all transactions, which also counts their data
 slots, and the price heap, which is told about removals only by number and cleans up lazily.
 */
module TxPricedLists {
  import opened Transactions
  import BinaryHeap

  // ----- txLookup -----

  ghost function SumSlots(txs: set<Tx>): nat {
    if txs == {} then 0 else var tx :| tx in txs; NumSlots(tx) + SumSlots(txs - {tx})
  }

  lemma {:induction false} SumSlotsWithout(txs: set<Tx>, tx: Tx)
    requires tx in txs
    ensures SumSlots(txs) == NumSlots(tx) + SumSlots(txs - {tx})
    decreases |txs|
  {
    var first :| first in txs && SumSlots(txs) == NumSlots(first) + SumSlots(txs - {first});
    if first != tx {
      SumSlotsWithout(txs - {first}, tx);
      SumSlotsWithout(txs - {tx}, first);
      assert txs - {first} - {tx} == txs - {tx} - {first};
    }
  }

  lemma {:induction false} SumSlotsMinus(txs: set<Tx>, gone: set<Tx>)
    requires gone <= txs
    ensures SumSlots(txs - gone) == SumSlots(txs) - SumSlots(gone)
    decreases |gone|
  {
    if gone == {} {
      assert txs - gone == txs;
    } else {
      var tx :| tx in gone;
      SumSlotsWithout(txs, tx);
      SumSlotsWithout(gone, tx);
      SumSlotsMinus(txs - {tx}, gone - {tx});
      assert txs - {tx} - (gone - {tx}) == txs - gone;
    }
  }

  /** Every transaction takes a slot at least. */
  lemma {:induction false} SlotsOfMany(txs: set<Tx>)
    ensures SumSlots(txs) >= |txs|
    ensures (forall tx :: tx in txs ==> NumSlots(tx) == 1) ==> SumSlots(txs) == |txs|
    decreases |txs|
  {
    if txs != {} {
      var tx :| tx in txs;
      SumSlotsWithout(txs, tx);
      SlotsOfMany(txs - {tx});
    }
  }

  /** The transactions of the pool, looked up by hash; equal hashes mean equal transactions, so this is a set. */
  class TxLookup {
    var all: set<Tx>
    var slots: int

    ghost predicate Valid()
      reads this
    {
      slots == SumSlots(all)
    }

    constructor ()
      ensures Valid() && all == {}
    {
      all, slots := {}, 0;
    }

    method Add(tx: Tx)
      requires Valid() && tx !in all
      modifies this
      ensures Valid() && all == old(all) + {tx} && slots == old(slots) + NumSlots(tx) && |all| == |old(all)| + 1
    {
      SumSlotsWithout(all + {tx}, tx);
      assert all + {tx} - {tx} == all;
      slots := slots + NumSlots(tx);
      all := all + {tx};
    }

    method Remove(tx: Tx)
      requires Valid() && tx in all
      modifies this
      ensures Valid() && all == old(all) - {tx} && slots == old(slots) - NumSlots(tx) && |all| == |old(all)| - 1
    {
      SumSlotsWithout(all, tx);
      slots := slots - NumSlots(tx);
      all := all - {tx};
    }
  }

  // ----- txPricedList -----

  /** Cheaper first; of equally priced transactions the one with the higher nonce is worse. */
  predicate PriceLess(a: Tx, b: Tx) {
    a.price < b.price || (a.price == b.price && a.nonce > b.nonce)
  }

  lemma PriceOrder()
    ensures BinaryHeap.StrictWeakOrder(PriceLess)
  {
  }

  ghost function Members(s: seq<Tx>): set<Tx> {
    set tx | tx in s
  }

  lemma MembersOf(s: seq<Tx>, m: multiset<Tx>)
    requires multiset(s) == m
    ensures forall tx :: tx in Members(s) <==> tx in m
  {
    forall tx ensures tx in s <==> tx in m {
      assert tx in s <==> tx in multiset(s);
    }
  }

  lemma {:induction false} NoMoreMembers(s: seq<Tx>)
    ensures |Members(s)| <= |s|
  {
    if s == [] {
      assert Members(s) == {};
    } else {
      NoMoreMembers(s[1..]);
      assert Members(s) == Members(s[1..]) + {s[0]};
    }
  }

  /** heap.Pop on the price heap: a cheapest entry leaves. */
  method PopCheapest(items: seq<Tx>) returns (tx: Tx, rest: seq<Tx>)
    requires |items| > 0 && BinaryHeap.IsHeap(PriceLess, items)
    ensures BinaryHeap.IsHeap(PriceLess, rest) && rest == BinaryHeap.Popped(PriceLess, items)
    ensures multiset(items) == multiset(rest) + multiset{tx} && tx == items[0]
    ensures forall t :: t in items ==> !PriceLess(t, tx)
  {
    PriceOrder();
    tx, rest := BinaryHeap.Pop(PriceLess, items);
  }

  /** heap.Push on the price heap. */
  method PushPriced(items: seq<Tx>, tx: Tx) returns (more: seq<Tx>)
    requires BinaryHeap.IsHeap(PriceLess, items)
    ensures BinaryHeap.IsHeap(PriceLess, more) && multiset(more) == multiset(items) + multiset{tx}
    ensures |more| == |items| + 1
  {
    PriceOrder();
    more := BinaryHeap.Push(PriceLess, items, tx);
    assert |multiset(more)| == |items| + 1;
  }

  method PushAll(items: seq<Tx>, txs: seq<Tx>) returns (more: seq<Tx>)
    requires BinaryHeap.IsHeap(PriceLess, items)
    ensures BinaryHeap.IsHeap(PriceLess, more) && multiset(more) == multiset(items) + multiset(txs)
    ensures |more| == |items| + |txs|
  {
    more := items;
    for i := 0 to |txs|
      invariant BinaryHeap.IsHeap(PriceLess, more) && multiset(more) == multiset(items) + multiset(txs[..i])
      invariant |more| == |items| + i
    {
      more := PushPriced(more, txs[i]);
      assert txs[..i + 1] == txs[..i] + [txs[i]];
    }
    assert txs[..|txs|] == txs;
  }

  /** heap.Init on the price heap. */
  method HeapifyPriced(txs: seq<Tx>) returns (items: seq<Tx>)
    ensures BinaryHeap.IsHeap(PriceLess, items) && multiset(items) == multiset(txs)
  {
    PriceOrder();
    items := BinaryHeap.Init(PriceLess, txs);
  }

  /** The transactions of a set in some order. */
  method ListAll(all: set<Tx>) returns (live: seq<Tx>)
    ensures multiset(live) == multiset(all)
  {
    live := [];
    var todo := all;
    while todo != {}
      invariant todo <= all && multiset(live) == multiset(all - todo)
      decreases |todo|
    {
      var tx :| tx in todo;
      assert all - (todo - {tx}) == all - todo + {tx};
      live := live + [tx];
      todo := todo - {tx};
    }
    assert all - {} == all;
  }

  /** The heap after its stale roots are popped. */
  function Cleaned(items: seq<Tx>, all: set<Tx>): (r: seq<Tx>)
    ensures |r| <= |items|
    decreases |items|
  {
    if items != [] && items[0] !in all then Cleaned(BinaryHeap.Popped(PriceLess, items), all) else items
  }

  /** Popping stale roots leaves an entry for every live transaction. */
  lemma {:induction false} CleanedCovers(items: seq<Tx>, all: set<Tx>)
    requires all <= Members(items)
    ensures |all| <= |Cleaned(items, all)| && all <= Members(Cleaned(items, all))
    decreases |items|
  {
    if items != [] && items[0] !in all {
      var rest := BinaryHeap.Popped(PriceLess, items);
      BinaryHeap.PoppedLosesRoot(PriceLess, items);
      OneMoreMember(rest, items[0], items);
      CleanedCovers(rest, all);
    } else {
      NoMoreMembers(items);
      SubsetSize(all, Members(items));
    }
  }

  ghost function SlotsOf(txs: seq<Tx>): nat {
    if txs == [] then 0 else SlotsOf(txs[..|txs| - 1]) + NumSlots(txs[|txs| - 1])
  }

  lemma SlotsOfMore(txs: seq<Tx>, tx: Tx)
    ensures SlotsOf(txs + [tx]) == SlotsOf(txs) + NumSlots(tx)
  {
    assert (txs + [tx])[..|txs|] == txs;
  }

  ghost predicate NoRepeats(txs: seq<Tx>) {
    forall tx :: multiset(txs)[tx] <= 1
  }

  /** The slots of a sequence, entry by entry, are those of its transactions if and only if none is listed twice. */
  lemma {:induction false} SlotsCountRepeats(txs: seq<Tx>)
    ensures SumSlots(Members(txs)) <= SlotsOf(txs)
    ensures SumSlots(Members(txs)) == SlotsOf(txs) <==> NoRepeats(txs)
  {
    if txs != [] {
      var rest, last := txs[..|txs| - 1], txs[|txs| - 1];
      assert txs == rest + [last];
      SlotsCountRepeats(rest);
      RepeatsLast(rest, last);
      SumSlotsWithout(Members(txs), last);
      if last in rest {
        assert Members(txs) == Members(rest);
      } else {
        assert Members(txs) - {last} == Members(rest);
      }
    }
  }

  lemma RepeatsLast(txs: seq<Tx>, tx: Tx)
    ensures NoRepeats(txs + [tx]) <==> NoRepeats(txs) && tx !in txs
  {
    assert multiset(txs + [tx]) == multiset(txs) + multiset{tx};
    assert tx in txs <==> tx in multiset(txs);
    if NoRepeats(txs + [tx]) {
      assert multiset(txs + [tx])[tx] == multiset(txs)[tx] + 1;
      assert forall t :: multiset(txs)[t] <= multiset(txs + [tx])[t];
    } else {
      var t :| multiset(txs + [tx])[t] > 1;
    }
  }

  /**
   What Discard takes off the heap: live remote entries in the order in which they are popped, until they fill `want`
   slots.
   */
  ghost function Discarded(items: seq<Tx>, all: set<Tx>, local: set<Address>, want: int): seq<Tx>
    decreases |items|
  {
    if items == [] || want <= 0 then
      []
    else
      var tx, rest := items[0], BinaryHeap.Popped(PriceLess, items);
      if tx in all && tx.from !in local then [tx] + Discarded(rest, all, local, want - NumSlots(tx))
      else Discarded(rest, all, local, want)
  }

  /** Only live remote entries of the heap go. */
  lemma {:induction false} DiscardedFromHeap(items: seq<Tx>, all: set<Tx>, local: set<Address>, want: int)
    ensures multiset(Discarded(items, all, local, want)) <= multiset(items)
    ensures forall tx :: tx in Discarded(items, all, local, want) ==> tx in all && tx.from !in local
    decreases |items|
  {
    hide Discarded, BinaryHeap.Popped, NumSlots, PriceLess;
    DiscardStops(items, all, local, want, []);
    if items != [] && want > 0 {
      var tx, rest := items[0], BinaryHeap.Popped(PriceLess, items);
      var taken := tx in all && tx.from !in local;
      var left := if taken then want - NumSlots(tx) else want;
      BinaryHeap.PoppedLosesRoot(PriceLess, items);
      DiscardStep(items, all, local, want, []);
      DiscardedFromHeap(rest, all, local, left);
      OneMore(tx, Discarded(rest, all, local, left), multiset(rest), multiset(items));
    }
  }

  lemma OneMore(tx: Tx, more: seq<Tx>, rest: multiset<Tx>, entries: multiset<Tx>)
    requires entries == rest + multiset{tx} && multiset(more) <= rest
    ensures multiset([] + more) <= entries && multiset([] + [tx] + more) <= entries
  {
    assert [] + more == more;
    assert multiset([] + [tx] + more) == multiset{tx} + multiset(more);
  }

  /** Nothing goes twice if every live transaction has one entry. */
  lemma DiscardedOnce(items: seq<Tx>, all: set<Tx>, local: set<Address>, want: int)
    requires forall tx :: tx in all ==> multiset(items)[tx] <= 1
    ensures NoRepeats(Discarded(items, all, local, want))
  {
    DiscardedFromHeap(items, all, local, want);
    hide Discarded;
    var drop := Discarded(items, all, local, want);
    forall tx
      ensures multiset(drop)[tx] <= 1
    {
      assert tx in multiset(drop) ==> tx in drop;
    }
  }

  lemma DiscardStep(items: seq<Tx>, all: set<Tx>, local: set<Address>, want: int, drop: seq<Tx>)
    requires items != [] && want > 0
    ensures
      var tx, rest := items[0], BinaryHeap.Popped(PriceLess, items);
      drop + Discarded(items, all, local, want) ==
      if tx in all && tx.from !in local then drop + [tx] + Discarded(rest, all, local, want - NumSlots(tx))
      else drop + Discarded(rest, all, local, want)
  {
    var tx, rest := items[0], BinaryHeap.Popped(PriceLess, items);
    assert drop + ([tx] + Discarded(rest, all, local, want - NumSlots(tx))) ==
           drop + [tx] + Discarded(rest, all, local, want - NumSlots(tx));
  }

  lemma DiscardStops(items: seq<Tx>, all: set<Tx>, local: set<Address>, want: int, drop: seq<Tx>)
    ensures items == [] || want <= 0 ==> drop + Discarded(items, all, local, want) == drop
    ensures [] + Discarded(items, all, local, want) == Discarded(items, all, local, want)
  {
  }

  /** State of taking entries off the heap: live ones are left, dropped or saved, each once; stale ones are gone. */
  ghost predicate Sifted(all: set<Tx>, was: multiset<Tx>, left: multiset<Tx>, drop: seq<Tx>, save: seq<Tx>,
                         local: set<Address>) {
    && left + multiset(drop) + multiset(save) <= was
    && (forall tx :: tx in all ==> was[tx] == left[tx] + multiset(drop)[tx] + multiset(save)[tx])
    && (forall tx :: tx in drop ==> tx in all && tx.from !in local)
    && (forall tx :: tx in save ==> tx in all)
  }

  lemma SiftBegins(all: set<Tx>, items: seq<Tx>, local: set<Address>)
    ensures Sifted(all, multiset(items), multiset(items), [], [], local)
  {
  }

  lemma SiftEntry(all: set<Tx>, was: multiset<Tx>, left: multiset<Tx>, drop: seq<Tx>, save: seq<Tx>,
                  local: set<Address>, tx: Tx, rest: multiset<Tx>)
    requires Sifted(all, was, left, drop, save, local) && left == rest + multiset{tx}
    ensures tx !in all ==> Sifted(all, was, rest, drop, save, local)
    ensures tx in all ==> Sifted(all, was, rest, drop, save + [tx], local)
    ensures tx in all && tx.from !in local ==> Sifted(all, was, rest, drop + [tx], save, local)
  {
    assert multiset(drop + [tx]) == multiset(drop) + multiset{tx};
    assert multiset(save + [tx]) == multiset(save) + multiset{tx};
  }

  /** What the sifting means for the entries once the saved ones are back in the heap. */
  lemma SiftEnds(all: set<Tx>, was: seq<Tx>, left: seq<Tx>, drop: seq<Tx>, save: seq<Tx>, local: set<Address>,
                 items: seq<Tx>)
    requires Sifted(all, multiset(was), multiset(left), drop, save, local)
    requires multiset(items) == multiset(left) + multiset(save)
    ensures KeepsEntries(all, was, items, drop)
  {
    forall tx | tx in items
      ensures tx in was
    {
      assert tx in multiset(items) && tx in multiset(was);
    }
  }

  /** Every live entry is still in the heap or dropped, and nothing has come in. */
  ghost predicate KeepsEntries(all: set<Tx>, was: seq<Tx>, items: seq<Tx>, drop: seq<Tx>) {
    && (forall tx :: tx in all ==> multiset(was)[tx] == multiset(items)[tx] + multiset(drop)[tx])
    && (forall tx :: tx in items ==> tx in was)
    && multiset(drop) <= multiset(was)
  }

  class TxPricedList {
    const lookup: TxLookup
    var items: seq<Tx>
    var stales: int

    ghost predicate Valid()
      reads this
    {
      BinaryHeap.IsHeap(PriceLess, items)
    }

    /** Every transaction of the pool, except possibly those in `out`, has an entry in the heap. */
    ghost predicate Covers(out: set<Tx>)
      reads this, lookup
    {
      forall tx :: tx in lookup.all ==> tx in Members(items) || tx in out
    }

    constructor (lookup: TxLookup)
      ensures Valid() && this.lookup == lookup && items == [] && stales == 0
    {
      this.lookup, items, stales := lookup, [], 0;
    }

    method Put(tx: Tx)
      requires Valid()
      modifies `items
      ensures Valid() && multiset(items) == multiset(old(items)) + multiset{tx}
      ensures Members(items) == Members(old(items)) + {tx} && |items| == |old(items)| + 1
    {
      items := PushPriced(items, tx);
      OneMoreMember(old(items), tx, items);
    }

    /**
     Counts `count` more stale entries, and rebuilds the heap from the lookup when more than a quarter of it is stale.
     */
    method Removed(count: nat)
      requires Valid()
      modifies this
      ensures Valid()
      ensures old(stales) + count <= |old(items)| / 4 ==> items == old(items) && stales == old(stales) + count
      ensures old(stales) + count > |old(items)| / 4 ==>
                multiset(items) == multiset(lookup.all) && |items| == |lookup.all| && stales == 0
      ensures Members(items) == if old(stales) + count <= |old(items)| / 4 then Members(old(items)) else lookup.all
    {
      stales := stales + count;
      if stales <= |items| / 4 {
        return;
      }
      var live := ListAll(lookup.all);
      stales := 0;
      items := HeapifyPriced(live);
      MembersOf(items, multiset(lookup.all));
      assert |multiset(items)| == |lookup.all|;
    }

    /** Takes every live transaction of a remote account priced below `threshold` off the heap. */
    method Cap(threshold: nat, local: set<Address>) returns (drop: seq<Tx>)
      requires Valid()
      modifies this
      ensures Valid() && KeepsEntries(lookup.all, old(items), items, drop)
      ensures stales == old(stales) - (|old(items)| - |items| - |drop|)
      ensures forall tx :: tx in drop <==>
                tx in lookup.all && tx in Members(old(items)) && tx.from !in local && tx.price < threshold
    {
      hide Sifted, KeepsEntries, SumSlots;
      var all, left := lookup.all, items;
      drop := [];
      var save: seq<Tx> := [];
      SiftBegins(all, items, local);
      while |left| > 0
        invariant items == old(items) && BinaryHeap.IsHeap(PriceLess, left)
        invariant Sifted(all, multiset(items), multiset(left), drop, save, local)
        invariant forall tx :: tx in drop ==> tx.price < threshold
        invariant forall tx :: tx in save ==> tx.from in local || tx.price >= threshold
        invariant stales == old(stales) - (|items| - |left| - |drop| - |save|)
        decreases |left|
      {
        ghost var before := left;
        var tx;
        tx, left := PopCheapest(left);
        SiftEntry(all, multiset(items), multiset(before), drop, save, local, tx, multiset(left));
        if tx !in all {
          stales := stales - 1;
        } else if tx.price >= threshold {
          save := save + [tx];
          NoneBelow(before, tx, left, threshold);
          break;
        } else if tx.from in local {
          save := save + [tx];
        } else {
          drop := drop + [tx];
        }
      }
      var back := PushAll(left, save);
      SiftEnds(all, items, left, drop, save, local, back);
      DroppedExactly(all, items, left, drop, save, local, threshold);
      items := back;
    }

    /** Whether `tx` is remote and not dearer than anything in the pool; pops stale roots on the way. */
    method Underpriced(tx: Tx, local: set<Address>) returns (under: bool)
      requires Valid() && Covers({})
      modifies this
      ensures Valid() && Covers({})
      ensures under <==> tx.from !in local && lookup.all != {} && forall t :: t in lookup.all ==> t.price >= tx.price
      ensures items == if tx.from in local then old(items) else Cleaned(old(items), lookup.all)
      ensures stales == old(stales) - (|old(items)| - |items|)
    {
      if tx.from in local {
        return false;
      }
      while |items| > 0 && items[0] !in lookup.all
        invariant Valid() && Covers({})
        invariant Cleaned(items, lookup.all) == Cleaned(old(items), lookup.all)
        invariant stales == old(stales) - (|old(items)| - |items|)
        decreases |items|
      {
        var head;
        ghost var before := items;
        stales := stales - 1;
        head, items := PopCheapest(items);
        OneLessMember(before, head, items);
      }
      if |items| == 0 {
        return false;
      }
      var cheapest := items[0];
      forall t | t in lookup.all ensures t.price >= cheapest.price {
        var i :| 0 <= i < |items| && items[i] == t;
        PriceOrder();
        BinaryHeap.RootIsMinimal(PriceLess, items, i);
      }
      return cheapest.price >= tx.price;
    }

    /**
     Takes remote transactions off the heap, cheapest first, until they free `slots` slots or none is left.
     When there are local accounts, no more slots are asked for than there are remote entries in the heap.
     `ok` is false where the source panics, because it allocates a slice with a negative capacity.
     */
    method Discard(slots: int, local: set<Address>) returns (drop: seq<Tx>, ok: bool)
      requires Valid()
      modifies this
      ensures Valid() && KeepsEntries(lookup.all, old(items), items, drop)
      ensures ok <==> Allocates(slots, |old(items)|, local)
      ensures !ok ==> items == old(items)
      ensures stales == old(stales) - (|old(items)| - |items| - |drop|)
      ensures drop == if ok then Discarded(old(items), lookup.all, local, Asked(slots, old(items), local)) else []
      ensures forall tx :: tx in drop ==> tx in lookup.all && tx.from !in local
      ensures forall d, tx :: d in drop && tx in lookup.all && tx in items && tx.from !in local ==> !PriceLess(tx, d)
      ensures ok ==>
                || SlotsOf(drop) >= Asked(slots, old(items), local)
                || forall tx :: tx in lookup.all && tx in items ==> tx.from in local
      ensures drop != [] ==> SlotsOf(drop[..|drop| - 1]) < Asked(slots, old(items), local)
    {
      var want := slots;
      if local != {} {
        var discardable := CountRemote(items, slots, local);
        if want > discardable {
          want := discardable;
        }
      }
      NoMoreThanEntries(items, local);
      ok := true;
      drop := [];
      if want == 0 {
        return;
      }
      if want < 0 || |items| - want < 0 {
        return [], false;
      }
      drop := Take(want, local);
    }

    /** The loop of Discard, which takes `asked` slots. */
    method Take(asked: nat, local: set<Address>) returns (drop: seq<Tx>)
      requires Valid()
      modifies this
      ensures Valid() && KeepsEntries(lookup.all, old(items), items, drop)
      ensures drop == Discarded(old(items), lookup.all, local, asked)
      ensures stales == old(stales) - (|old(items)| - |items| - |drop|)
      ensures forall tx :: tx in drop ==> tx in lookup.all && tx.from !in local
      ensures forall d, tx :: d in drop && tx in lookup.all && tx in items && tx.from !in local ==> !PriceLess(tx, d)
      ensures SlotsOf(drop) >= asked || forall tx :: tx in lookup.all && tx in items ==> tx.from in local
      ensures drop != [] ==> SlotsOf(drop[..|drop| - 1]) < asked
    {
      hide Taking, Sifted, SumSlots, SlotsOf, KeepsEntries, Discarded, BinaryHeap.IsHeap, BinaryHeap.Popped, NumSlots;
      var left, save, want;
      left, drop, save, want := Sift(asked, local);
      var back := PushAll(left, save);
      DiscardStops(left, lookup.all, local, want, drop);
      TakingEnds(lookup.all, items, left, drop, save, local, asked, want, back);
      items := back;
    }

    /** Takes entries off the heap, cheapest first, until none is left or `asked` slots are dropped. */
    method Sift(asked: nat, local: set<Address>) returns (left: seq<Tx>, drop: seq<Tx>, save: seq<Tx>, want: int)
      requires Valid()
      modifies `stales
      ensures Valid() && BinaryHeap.IsHeap(PriceLess, left) && (left == [] || want <= 0)
      ensures Taking(lookup.all, items, left, drop, save, local, asked, want)
      ensures drop + Discarded(left, lookup.all, local, want) == Discarded(items, lookup.all, local, asked)
      ensures stales == old(stales) - (|items| - |left| - |drop| - |save|)
    {
      hide Taking, Sifted, SumSlots, SlotsOf, KeepsEntries, Discarded, BinaryHeap.IsHeap, BinaryHeap.Popped, NumSlots;
      var all := lookup.all;
      left, drop, save, want := items, [], [], asked;
      TakingBegins(all, items, local, asked);
      DiscardStops(items, all, local, asked, []);
      while |left| > 0 && want > 0
        invariant BinaryHeap.IsHeap(PriceLess, left)
        invariant Taking(all, items, left, drop, save, local, asked, want)
        invariant drop + Discarded(left, all, local, want) == Discarded(items, all, local, asked)
        invariant stales == old(stales) - (|items| - |left| - |drop| - |save|)
        decreases |left|
      {
        ghost var before := left;
        var tx;
        tx, left := PopCheapest(left);
        DiscardStep(before, all, local, want, drop);
        TakingStep(all, items, before, drop, save, local, asked, want, tx, left);
        if tx !in all {
          stales := stales - 1;
        } else if tx.from in local {
          save := save + [tx];
        } else {
          drop := drop + [tx];
          want := want - NumSlots(tx);
        }
      }
    }
  }

  /** State of the loop of Discard: cheapest entries first, and no more than needed. */
  ghost predicate Taking(all: set<Tx>, was: seq<Tx>, left: seq<Tx>, drop: seq<Tx>, save: seq<Tx>, local: set<Address>,
                         asked: nat, want: int) {
    && Sifted(all, multiset(was), multiset(left), drop, save, local)
    && (forall d, tx :: d in drop && tx in left ==> !PriceLess(tx, d))
    && (forall tx :: tx in save ==> tx.from in local)
    && SlotsOf(drop) == asked - want
    && (drop != [] ==> SlotsOf(drop[..|drop| - 1]) < asked)
  }

  lemma TakingBegins(all: set<Tx>, items: seq<Tx>, local: set<Address>, asked: nat)
    ensures Taking(all, items, items, [], [], local, asked, asked)
  {
  }

  lemma TakingStep(all: set<Tx>, was: seq<Tx>, left: seq<Tx>, drop: seq<Tx>, save: seq<Tx>, local: set<Address>,
                   asked: nat, want: int, tx: Tx, rest: seq<Tx>)
    requires Taking(all, was, left, drop, save, local, asked, want) && want > 0
    requires multiset(left) == multiset(rest) + multiset{tx} && tx in left
    requires forall t :: t in left ==> !PriceLess(t, tx)
    ensures tx !in all ==> Taking(all, was, rest, drop, save, local, asked, want)
    ensures tx in all && tx.from in local ==> Taking(all, was, rest, drop, save + [tx], local, asked, want)
    ensures tx in all && tx.from !in local ==>
              Taking(all, was, rest, drop + [tx], save, local, asked, want - NumSlots(tx))
  {
    StillIn(left, tx, rest);
    SiftEntry(all, multiset(was), multiset(left), drop, save, local, tx, multiset(rest));
    SlotsOfMore(drop, tx);
    assert (drop + [tx])[..|drop|] == drop;
    hide Sifted, SlotsOf, NumSlots;
  }

  lemma TakingEnds(all: set<Tx>, was: seq<Tx>, left: seq<Tx>, drop: seq<Tx>, save: seq<Tx>, local: set<Address>,
                   asked: nat, want: int, items: seq<Tx>)
    requires Taking(all, was, left, drop, save, local, asked, want) && (left == [] || want <= 0)
    requires multiset(items) == multiset(left) + multiset(save)
    ensures KeepsEntries(all, was, items, drop)
    ensures forall tx :: tx in drop ==> tx in all && tx.from !in local
    ensures forall d, tx :: d in drop && tx in all && tx in items && tx.from !in local ==> !PriceLess(tx, d)
    ensures SlotsOf(drop) >= asked || forall tx :: tx in all && tx in items ==> tx.from in local
    ensures drop != [] ==> SlotsOf(drop[..|drop| - 1]) < asked
  {
    SiftEnds(all, was, left, drop, save, local, items);
    PushedBack(left, save, items);
    hide KeepsEntries, SlotsOf;
  }

  function Min(a: int, b: int): int {
    if a < b then a else b
  }

  /** The slots that Discard tries to free. */
  ghost function Asked(slots: int, items: seq<Tx>, local: set<Address>): int {
    if local == {} then slots else Min(slots, RemoteEntries(items, local))
  }

  /** Whether the capacities of the two slices that Discard allocates are not negative. */
  predicate Allocates(slots: int, entries: nat, local: set<Address>) {
    slots == 0 || (slots > 0 && (local != {} || slots <= entries))
  }

  ghost function RemoteEntries(items: seq<Tx>, local: set<Address>): nat {
    if items == [] then 0
    else RemoteEntries(items[..|items| - 1], local) + if items[|items| - 1].from in local then 0 else 1
  }

  lemma {:induction false} NoMoreThanEntries(items: seq<Tx>, local: set<Address>)
    ensures RemoteEntries(items, local) <= |items|
  {
    if items != [] {
      NoMoreThanEntries(items[..|items| - 1], local);
    }
  }

  lemma OneMoreMember(items: seq<Tx>, tx: Tx, more: seq<Tx>)
    requires multiset(more) == multiset(items) + multiset{tx}
    ensures Members(more) == Members(items) + {tx} && |more| == |items| + 1
  {
    MembersOf(more, multiset(items) + multiset{tx});
    MembersOf(items, multiset(items));
    assert |multiset(more)| == |more| && |multiset(items)| == |items|;
  }

  lemma OneLessMember(items: seq<Tx>, tx: Tx, rest: seq<Tx>)
    requires multiset(items) == multiset(rest) + multiset{tx}
    ensures Members(items) == Members(rest) + {tx}
  {
    OneMoreMember(rest, tx, items);
  }

  lemma StillIn(left: seq<Tx>, tx: Tx, items: seq<Tx>)
    requires multiset(left) == multiset(items) + multiset{tx}
    ensures forall t :: t in items ==> t in left
  {
    forall t | t in items
      ensures t in left
    {
      assert t in multiset(items) && t in multiset(left);
    }
  }

  lemma NoneBelow(left: seq<Tx>, tx: Tx, items: seq<Tx>, threshold: nat)
    requires multiset(left) == multiset(items) + multiset{tx} && tx.price >= threshold
    requires forall t :: t in left ==> !PriceLess(t, tx)
    ensures forall t :: t in items ==> t.price >= threshold
  {
    StillIn(left, tx, items);
  }

  lemma PushedBack(left: seq<Tx>, save: seq<Tx>, items: seq<Tx>)
    requires multiset(items) == multiset(left) + multiset(save)
    ensures forall t :: t in items ==> t in left || t in save
  {
    forall t | t in items
      ensures t in left || t in save
    {
      assert t in multiset(items);
    }
  }

  lemma DroppedExactly(all: set<Tx>, was: seq<Tx>, left: seq<Tx>, drop: seq<Tx>, save: seq<Tx>, local: set<Address>,
                       threshold: nat)
    requires Sifted(all, multiset(was), multiset(left), drop, save, local)
    requires forall tx :: tx in left ==> tx.price >= threshold
    requires forall tx :: tx in drop ==> tx.price < threshold
    requires forall tx :: tx in save ==> tx.from in local || tx.price >= threshold
    ensures forall tx :: tx in drop <==> tx in all && tx in Members(was) && tx.from !in local && tx.price < threshold
  {
    forall tx
      ensures tx in drop <==> tx in all && tx in Members(was) && tx.from !in local && tx.price < threshold
    {
      assert tx in drop ==> tx in multiset(drop) && tx in multiset(was);
      if tx in all && tx in was && tx.from !in local && tx.price < threshold {
        assert tx in multiset(was);
        assert tx !in multiset(left) && tx !in multiset(save);
      }
    }
  }

  /** Counts the remote entries of the heap, but stops counting at `slots`. */
  method CountRemote(items: seq<Tx>, slots: int, local: set<Address>) returns (n: nat)
    ensures Min(slots, n) == Min(slots, RemoteEntries(items, local))
  {
    n := 0;
    for i := 0 to |items|
      invariant n == RemoteEntries(items[..i], local)
    {
      assert items[..i + 1][..i] == items[..i];
      if items[i].from !in local {
        n := n + 1;
      }
      if n >= slots {
        RemotePrefix(items, i + 1, local);
        return;
      }
    }
    assert items[..|items|] == items;
  }

  lemma {:induction false} RemotePrefix(items: seq<Tx>, k: nat, local: set<Address>)
    requires k <= |items|
    ensures RemoteEntries(items[..k], local) <= RemoteEntries(items, local)
    decreases |items|
  {
    if k < |items| {
      RemotePrefix(items[..|items| - 1], k, local);
      assert items[..|items| - 1][..k] == items[..k];
    } else {
      assert items[..k] == items;
    }
  }
}

/**
 Two runs of the transaction pool in which making room does not do what it is for.
 */
module TxPoolExamples {
  import opened Admission
  import opened Options
  import opened Transactions
  import opened TxLists
  import opened TxPoolSpec
  import opened TxPools
  import opened TxPricedLists
  import BinaryHeap

  /** Adds a remote transaction of a new account to a pool that is not full and has no local accounts. */
  method AddToSmall(pool: TxPool, tx: Tx, now: int)
    requires pool.Valid() && !Full(pool.config, pool.Now()) && pool.locals == {}
    requires ValidateTx(pool.Law(), {}, tx, false) == None
    requires forall t :: t in pool.lookup.all ==> t.from != tx.from
    modifies pool, pool.lookup, pool.priced, pool.noncer
    ensures pool.Valid() && pool.locals == {} && pool.Law() == old(pool.Law())
    ensures pool.lookup.all == old(pool.lookup.all) + {tx}
    ensures pool.Joined(tx, now, old(pool.queue), old(pool.priced.items), old(pool.beats))
    ensures pool.pending == old(pool.pending) && pool.priced.stales == old(pool.priced.stales)
  {
    hide Outbids, SumSlots, NumSlots, Cleaned, NoncesOk, Agree, CheapestWent, TxPool.Joined;
    NoRivals(pool.lookup.all, tx);
    ghost var evicted;
    var replaced, err;
    replaced, err, evicted := pool.Add(tx, false, now);
  }

  lemma NoRivals(all: set<Tx>, tx: Tx)
    requires forall t :: t in all ==> t.from != tx.from
    ensures Rivals(all, tx) == {} && Members([]) == {} && all - {} == all && tx !in all
  {
  }

  // ----- a panic -----

  /**
   A pool for two transactions holds two of four slots each, and a dearer one of four slots arrives: ten slots must
   be freed, but the heap has two entries.
   */
  method CapacityPanicExample() returns (pool: TxPool, err: Option<Error>)
    ensures err == Some(CapacityPanic) && pool.Valid() && |pool.lookup.all| == 2
  {
    hide Handled, SumSlots, NumSlots, RoomFor, TxPool.Inv, OnlyReplaces, TxPool.KeepsLimits, TxPool.Joined, Full;
    var a, b, c := Tx(1, 1, 0, 1, 0, 0, TX_MAX_SIZE, 0), Tx(2, 2, 0, 1, 0, 0, TX_MAX_SIZE, 0),
      Tx(3, 3, 0, 5, 0, 0, TX_MAX_SIZE, 0);
    pool := TwoLarge(a, b);
    TooManySlots(pool, a, b, c);
    ghost var v := pool.Now();
    ghost var evicted;
    var replaced;
    replaced, err, evicted := pool.Add(c, false, 0);
    RoomCrashes(pool.Law(), v, c, Outcome(err, replaced, evicted, pool.Now()));
  }

  lemma RoomCrashes(r: Rules, v: View, tx: Tx, o: Outcome)
    requires Handled(r, v, tx, false, o) && RoomFor(r.config, v, tx, false) == Crashed
    requires tx !in v.all && ValidateTx(r, v.locals, tx, false) == None
    ensures o.err == Some(CapacityPanic) && o.after.all == v.all
  {
    hide CheapestWent, Evicted, AskedFor, HeapFor, Sound, RoomFor, ValidateTx;
    PanicLeaves(r, v, tx, false, o);
    PanickedMeans(r, v, tx, false, o.after);
  }

  method TwoLarge(a: Tx, b: Tx) returns (pool: TxPool)
    requires a.from != b.from && a.price == b.price == 1 && a.size == b.size == TX_MAX_SIZE
    requires a.nonce == b.nonce == a.gas == b.gas == a.cost == b.cost == a.intrinsic == b.intrinsic == 0
    ensures fresh(pool) && fresh(pool.lookup) && fresh(pool.priced) && fresh(pool.noncer) && pool.Valid()
    ensures pool.lookup.all == {a, b} && |pool.priced.items| == 2 && pool.locals == {}
    ensures pool.Law() == Rules(Config(1, 10, 1, 1, 1, 1), ChainState(map[], map[]), 1, 0)
  {
    hide SumSlots, NumSlots, Cleaned, Agree, TxPool.Inv;
    pool := new TxPool(Config(1, 10, 1, 1, 1, 1), ChainState(map[], map[]), 0, {});
    AddToSmall(pool, a, 0);
    AddToSmall(pool, b, 0);
    assert |multiset(pool.priced.items)| == 2;
  }

  lemma TooManySlots(pool: TxPool, a: Tx, b: Tx, c: Tx)
    requires pool.Valid() && pool.lookup.all == {a, b} && |pool.priced.items| == 2 && pool.locals == {}
    requires pool.config.globalSlots == pool.config.globalQueue == 1 && a.price < c.price
    requires a != b && a.size == b.size == c.size == TX_MAX_SIZE
    ensures RoomFor(pool.config, pool.Now(), c, false) == Crashed
  {
    hide SumSlots, NumSlots, Cleaned;
    pool.SlotsAreCounted();
    FourSlotsEach(a, b, c);
    pool.EnoughEntries(c, false);
  }

  lemma FourSlotsEach(a: Tx, b: Tx, c: Tx)
    requires a != b && a.size == b.size == c.size == TX_MAX_SIZE
    ensures SumSlots({a, b}) == 8 && NumSlots(c) == 4 && |{a, b}| == 2
  {
    SumSlotsWithout({a, b}, a);
    assert {a, b} - {a} == {b};
    SumSlotsWithout({b}, b);
    assert {b} - {b} == {};
  }

  // ----- a transaction that counts twice -----

  const FOUR := Config(1, 10, 1, 2, 1, 2)
  const NOBODY := ChainState(map[], map[])

  /** The first transaction of an account, of one slot. */
  function OneSlot(from: Address, price: nat): (tx: Tx)
    ensures NumSlots(tx) == 1
  {
    Tx(from, from, 0, price, 0, 0, 1, 0)
  }

  const CHEAP := OneSlot(1, 1)
  const LARGE := Tx(5, 5, 0, 5, 0, 0, TX_SLOT_SIZE + 1, 0)

  /** Transactions of other accounts that are dearer than `CHEAP`, of one slot each. */
  ghost predicate Dearer(others: set<Tx>) {
    forall t :: t in others ==> t == OneSlot(t.from, 2) && t.from !in {1, 5}
  }

  /**
   A pool of four with queued transactions only, without stale entries; the account of `CHEAP` is the least active.
   */
  ghost predicate Holding(pool: TxPool, all: set<Tx>)
    reads pool, pool.lookup, pool.priced, pool.noncer
  {
    && pool.Valid() && pool.locals == {} && pool.Law() == Rules(FOUR, NOBODY, 1, 0) && pool.pending == map[]
    && pool.lookup.all == all && multiset(pool.priced.items) == multiset(all) && pool.priced.stales == 0
    && (forall t :: t in all ==> t.from in pool.beats && pool.beats[t.from] == if t.from == 1 then 0 else 10)
    && (forall a :: a in pool.beats ==> exists t :: t in all && t.from == a)
  }

  method Offer(pool: TxPool, tx: Tx, ghost all: set<Tx>)
    requires Holding(pool, all) && |all| < 4 && tx == OneSlot(tx.from, tx.price) && tx.price > 0
    requires forall t :: t in all ==> t.from != tx.from
    modifies pool, pool.lookup, pool.priced, pool.noncer
    ensures Holding(pool, all + {tx})
  {
    hide SumSlots, NumSlots, Agree, TxPool.Inv;
    AddToSmall(pool, tx, if tx.from == 1 then 0 else 10);
    assert multiset(all + {tx}) == multiset(all) + multiset{tx};
  }

  /** The least active account loses its transaction, whose entry stays in the heap. */
  method LoseCheap(pool: TxPool, ghost others: set<Tx>)
    requires Holding(pool, {CHEAP} + others) && Dearer(others) && |others| == 3
    modifies pool, pool.lookup, pool.priced, pool.noncer
    ensures pool.Valid() && pool.locals == {} && pool.Law() == Rules(FOUR, NOBODY, 1, 0) && pool.lookup.all == others
    ensures multiset(pool.priced.items) == multiset(others) + multiset{CHEAP}
  {
    hide SumSlots, NumSlots, Agree, TxPool.Inv, Dearer, Beat, InLists;
    ghost var all := {CHEAP} + others;
    AllQueued(pool);
    FourEntries(pool.priced.items, others);
    pool.EvictInactive(5, 12);
    OthersStay(all, pool.lookup.all, others, old(pool.queue), old(pool.beats));
  }

  lemma AllQueued(pool: TxPool)
    requires pool.Valid() && pool.pending == map[]
    ensures forall t :: t in pool.lookup.all ==> InLists(pool.queue, t)
  {
    pool.Agreement();
  }

  lemma FourEntries(items: seq<Tx>, others: set<Tx>)
    requires multiset(items) == multiset({CHEAP} + others) && Dearer(others) && |others| == 3
    ensures |items| == |{CHEAP} + others| == 4 && multiset({CHEAP} + others) == multiset(others) + multiset{CHEAP}
  {
    assert |multiset(items)| == |{CHEAP} + others|;
  }

  /** It sends its transaction again. */
  method SendAgain(pool: TxPool, ghost others: set<Tx>)
    requires Holding(pool, {CHEAP} + others) && Dearer(others) && |others| == 3
    modifies pool, pool.lookup, pool.priced, pool.noncer
    ensures pool.Valid() && pool.locals == {} && pool.Law() == Rules(FOUR, NOBODY, 1, 0)
    ensures pool.lookup.all == others + {CHEAP}
    ensures multiset(pool.priced.items) == multiset(others) + multiset{CHEAP, CHEAP}
  {
    hide SumSlots, NumSlots, Agree, TxPool.Inv, Holding;
    LoseCheap(pool, others);
    AddToSmall(pool, CHEAP, 12);
  }

  lemma OthersStay(all: set<Tx>, left: set<Tx>, others: set<Tx>, queue: Lists, beats: map<Address, int>)
    requires all == {CHEAP} + others && Dearer(others) && forall t :: t in all ==> InLists(queue, t)
    requires forall t :: t in all ==> t.from in beats && beats[t.from] == if t.from == 1 then 0 else 10
    requires forall t :: t in left <==>
               t in all && !(InLists(queue, t) && t.from !in {} && 12 - Beat(beats, t.from) > 5)
    ensures left == others
  {
    hide InLists;
  }

  /** The root is the transaction that is cheaper than all others. */
  lemma CheapestIsRoot(items: seq<Tx>, others: set<Tx>, n: nat)
    requires BinaryHeap.IsHeap(PriceLess, items) && Dearer(others) && n > 0
    requires multiset(items) == multiset(others)[CHEAP := n]
    ensures items != [] && items[0] == CHEAP
  {
    assert CHEAP in multiset(items);
    var i :| 0 <= i < |items| && items[i] == CHEAP;
    PriceOrder();
    BinaryHeap.RootIsMinimal(PriceLess, items, i);
    assert items[0] in multiset(items);
  }

  /** Both entries of `CHEAP` are popped before any other one. */
  lemma PoppedTwice(items: seq<Tx>, others: set<Tx>)
    requires BinaryHeap.IsHeap(PriceLess, items) && Dearer(others) && multiset(items) == multiset(others)[CHEAP := 2]
    ensures Cleaned(items, others + {CHEAP}) == items && Discarded(items, others + {CHEAP}, {}, 2) == [CHEAP, CHEAP]
  {
    hide Dearer, BinaryHeap.IsHeap, BinaryHeap.Popped;
    PriceOrder();
    CheapestIsRoot(items, others, 2);
    BinaryHeap.PoppedLosesRoot(PriceLess, items);
    BinaryHeap.PoppedIsHeap(PriceLess, items);
    var rest := BinaryHeap.Popped(PriceLess, items);
    assert multiset(rest) == multiset(others)[CHEAP := 1] by {
      assert multiset(rest) == multiset(items) - multiset{CHEAP};
    }
    CheapestIsRoot(rest, others, 1);
    assert Discarded(rest, others + {CHEAP}, {}, 1) == [CHEAP];
  }

  /** Two slots are asked for, and the same transaction goes twice. */
  lemma GoesTwice(v: View, others: set<Tx>)
    requires v.all == others + {CHEAP} && v.locals == {} && Dearer(others) && |others| == 3
    requires BinaryHeap.IsHeap(PriceLess, v.items) && multiset(v.items) == multiset(others)[CHEAP := 2]
    ensures Full(FOUR, v) && RoomFor(FOUR, v, LARGE, false) == Made && Evicted(FOUR, v, LARGE, false) == [CHEAP, CHEAP]
  {
    hide SumSlots, Discarded, BinaryHeap.IsHeap;
    SlotsOfMany(v.all);
    PoppedTwice(v.items, others);
    assert |multiset(v.items)| == |v.items| && CHEAP in v.all;
    assert multiset(v.items) == multiset(others) + multiset{CHEAP, CHEAP};
  }

  /** One of the counted slots is not freed. */
  lemma FiveSlots(others: set<Tx>)
    requires Dearer(others) && |others| == 3
    ensures others + {CHEAP} - Members([CHEAP, CHEAP]) == others && |others + {LARGE}| == 4
    ensures SumSlots(others + {LARGE}) == 5
    ensures SlotsOf([CHEAP, CHEAP]) == 2 && SumSlots(Members([CHEAP, CHEAP])) == 1
  {
    SlotsOfMany(others);
    SumSlotsWithout(others + {LARGE}, LARGE);
    assert others + {LARGE} - {LARGE} == others;
    SlotsOfMore([CHEAP], CHEAP);
    SlotsOfMore([], CHEAP);
    assert Members([CHEAP, CHEAP]) == {CHEAP};
    SlotsOfMany({CHEAP});
  }

  /** Offers the large transaction to a pool in which the cheap one has two entries. */
  method OfferLarge(pool: TxPool, ghost others: set<Tx>) returns (err: Option<Error>, ghost evicted: seq<Tx>)
    requires pool.Valid() && pool.locals == {} && pool.Law() == Rules(FOUR, NOBODY, 1, 0)
    requires pool.lookup.all == others + {CHEAP}
    requires Dearer(others) && |others| == 3 && multiset(pool.priced.items) == multiset(others) + multiset{CHEAP, CHEAP}
    modifies pool, pool.lookup, pool.priced, pool.noncer
    ensures pool.Valid() && err == None && evicted == [CHEAP, CHEAP] && pool.lookup.all == others + {LARGE}
  {
    hide SumSlots, NumSlots, Agree, Handled, TxPool.Inv, TxPool.Joined, Dearer;
    ghost var v := pool.Now();
    HeapIsOrdered(pool);
    var replaced;
    replaced, err, evicted := pool.Add(LARGE, false, 12);
    LargeEnters(v, others, Outcome(err, replaced, evicted, pool.Now()));
  }

  lemma HeapIsOrdered(pool: TxPool)
    requires pool.Valid()
    ensures BinaryHeap.IsHeap(PriceLess, pool.priced.items)
  {
  }

  lemma LargeEnters(v: View, others: set<Tx>, o: Outcome)
    requires v.all == others + {CHEAP} && v.locals == {} && Dearer(others) && |others| == 3
    requires BinaryHeap.IsHeap(PriceLess, v.items) && multiset(v.items) == multiset(others) + multiset{CHEAP, CHEAP}
    requires Handled(Rules(FOUR, NOBODY, 1, 0), v, LARGE, false, o)
    ensures o.err == None && o.evicted == [CHEAP, CHEAP] && o.after.all == others + {LARGE}
  {
    hide SumSlots, SlotsOf, NumSlots, Outbids, CheapestWent, RoomFor, Evicted, HeapFor, Members, Rivals;
    TwoEntries(v.items, others);
    GoesTwice(v, others);
    FiveSlots(others);
    NoRivals(others, LARGE);
    assert LARGE !in v.all;
  }

  lemma TwoEntries(items: seq<Tx>, others: set<Tx>)
    requires Dearer(others) && multiset(items) == multiset(others) + multiset{CHEAP, CHEAP}
    ensures multiset(items) == multiset(others)[CHEAP := 2]
  {
  }

  method NewPool() returns (pool: TxPool)
    ensures fresh(pool) && fresh(pool.lookup) && fresh(pool.priced) && fresh(pool.noncer) && Holding(pool, {})
  {
    pool := new TxPool(FOUR, NOBODY, 0, {});
  }

  method FullPool() returns (pool: TxPool, ghost others: set<Tx>)
    ensures fresh(pool) && fresh(pool.lookup) && fresh(pool.priced) && fresh(pool.noncer)
    ensures Holding(pool, {CHEAP} + others) && Dearer(others) && |others| == 3
  {
    hide Holding;
    var b, c, d := OneSlot(2, 2), OneSlot(3, 2), OneSlot(4, 2);
    pool := NewPool();
    Offer(pool, CHEAP, {});
    assert {} + {CHEAP} == {CHEAP};
    Offer(pool, b, {CHEAP});
    assert {CHEAP} + {b} == {CHEAP, b};
    Offer(pool, c, {CHEAP, b});
    assert {CHEAP, b} + {c} == {CHEAP, b, c};
    Offer(pool, d, {CHEAP, b, c});
    others := {b, c, d};
    assert {CHEAP, b, c} + {d} == {CHEAP} + others;
    assert |others| == 3;
  }

  /**
   A pool for four transactions, full of four of one slot each.  The cheapest is evicted because its sender is inactive,
   which leaves its entry in the price heap, and comes back with a second one.  When a dearer transaction of two slots
   arrives, both entries are taken off and counted, but only one slot is freed: the pool holds five slots.
   */
  method CountsTwiceExample() returns (pool: TxPool, err: Option<Error>, ghost evicted: seq<Tx>)
    ensures err == None && pool.Valid() && Capacity(pool.config) == 4 && |pool.lookup.all| == 4
    ensures pool.lookup.slots == 5
    ensures evicted == [CHEAP, CHEAP] && SlotsOf(evicted) == 2 && SumSlots(Members(evicted)) == 1
  {
    hide SumSlots, SlotsOf, NumSlots, TxPool.Inv, Holding, Dearer;
    ghost var others;
    pool, others := FullPool();
    SendAgain(pool, others);
    err, evicted := OfferLarge(pool, others);
    pool.SlotsAreCounted();
    FiveSlots(others);
  }
}

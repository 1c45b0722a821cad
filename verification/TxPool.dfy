/**
 The transaction pool.  Pending and queued lists, the lookup of all transactions, the price heap and the
 noncer are five structures that every operation changes together.
 */
module TxPools {
  import opened Options
  import opened Admission
  import opened Totals
  import opened Transactions
  import opened TxSortedMaps
  import opened TxLists
  import opened TxPoolSpec
  import opened TxPricedLists
  import opened TxNoncers
  import opened WaterFilling

  /**
   A new chain head: its state, its gas limit and the transactions to take back from abandoned blocks; or one whose
   state, or a block on the way to it, cannot be read.
   */
  datatype HeadChange = HeadChange(state: ChainState, maxGas: nat, reinject: seq<Tx>) | Unreadable

  /** The steps that other goroutines make the pool take, each under its lock. */
  datatype Step =
    | AddTx(tx: Tx, local: bool, now: int)
    | AddBatch(txs: seq<Tx>, local: bool, now: int)
    | NewGasPrice(price: nat, now: int)
    | Maintain(reset: Option<HeadChange>, dirty: set<Address>, now: int)
    | Evict(lifetime: int, now: int)

  predicate ChangesHead(step: Step) {
    step.Maintain? && step.reset.Some?
  }

  class TxPool {
    const config: Config
    const lookup: TxLookup
    const priced: TxPricedList
    const noncer: TxNoncer
    var gasPrice: nat
    var state: ChainState
    var currentMaxGas: nat
    var locals: set<Address>
    var pending: Lists
    var queue: Lists
    var beats: map<Address, int>
    ghost var debt: int             // transactions that are gone and that the price heap has not been told of

    /** The structures agree, up to transactions in `limbo` and price heap entries missing for `out`. */
    ghost predicate Inv(limbo: set<Tx>, out: set<Tx>)
      reads `pending, `queue, `state, `beats, `debt, lookup, priced, noncer
    {
      && Sane(config)
      && priced.lookup == lookup
      && noncer.fallback == state
      && lookup.Valid() && priced.Valid() && priced.Covers(out)
      && Agree(pending, true, queue, false, lookup.all, limbo)
      && queue.Keys <= beats.Keys
      && Tallied(priced.items, lookup.all, priced.stales, debt)
    }

    ghost predicate Valid()
      reads `pending, `queue, `state, `beats, `debt, lookup, priced, noncer
    {
      Inv({}, {}) && debt >= 0
    }

    /** The pending nonces of every account run from its nonce in the chain state to its virtual nonce. */
    ghost predicate Gapless()
      reads `pending, `queue, `state, noncer
    {
      NoncesOk(pending, queue, state, noncer.nonces)
    }

    /** What transactions are measured by. */
    function Law(): Rules
      reads `gasPrice, `state, `currentMaxGas
    {
      Rules(config, state, gasPrice, currentMaxGas)
    }

    /** What the pool holds. */
    ghost function Now(): View
      reads `locals, lookup, priced
    {
      View(lookup.all, priced.items, locals)
    }

    /** Every transaction keeps to the limits of the pool, and no more remote ones are in it than it has room for. */
    ghost predicate KeepsLimits()
      reads `gasPrice, `locals, lookup
    {
      AllDecent(gasPrice, locals, lookup.all) && |Remote(lookup.all, locals)| <= Capacity(config)
    }

    constructor (config: Config, state: ChainState, maxGas: nat, locals: set<Address>)
      ensures Valid() && Gapless() && KeepsLimits() && fresh(lookup) && fresh(priced) && fresh(noncer)
      ensures this.config == Sanitized(config) && this.state == state && currentMaxGas == maxGas
      ensures this.locals == locals
      ensures pending == map[] && queue == map[] && beats == map[] && gasPrice == this.config.priceLimit
      ensures lookup.all == {} && priced.items == [] && priced.stales == debt == 0
    {
      var sane := Sanitized(config);
      this.config := sane;
      var all := new TxLookup();
      lookup := all;
      priced := new TxPricedList(all);
      noncer := new TxNoncer(state);
      gasPrice, this.state, currentMaxGas, this.locals := sane.priceLimit, state, maxGas, locals;
      pending, queue, beats, debt := map[], map[], map[], 0;
    }

    /** What every step keeps: the five structures tell the same story. */
    lemma Agreement()
      requires Valid()
      ensures forall tx :: tx in lookup.all <==> InLists(pending, tx) || InLists(queue, tx)
      ensures forall a, n :: !(Occupied(pending, a, n) && Occupied(queue, a, n))
      ensures |lookup.all| == Total(Lens(pending)) + Total(Lens(queue)) && lookup.slots == SumSlots(lookup.all)
      ensures forall tx :: tx in lookup.all ==> tx in Members(priced.items)
      ensures forall a :: a in queue ==> a in beats
      ensures |priced.items| <= |lookup.all| + priced.stales + debt
    {
      assert Tallied(priced.items, lookup.all, priced.stales, debt);
      CountsAgree(pending, true, queue, false, lookup.all);
    }

    lemma ConfigIsSane()
      requires Valid()
      ensures Sane(config)
    {
    }

    /** Puts `tx` into the queue.  Transactions from limbo always fit; new ones may have to outbid another. */
    method EnqueueTx(tx: Tx, now: int, ghost limbo: set<Tx>, ghost out: set<Tx>) returns (replaced: bool, ok: bool)
      requires Inv(limbo, out) && !Occupied(pending, tx.from, tx.nonce)
      requires tx in limbo || (tx !in lookup.all && limbo == {})
      requires tx in limbo || debt >= 0
      modifies `queue, `beats, lookup, priced
      ensures ok == Accepts(ListOf(old(queue), tx.from, false), tx, config.priceBump)
      ensures !ok ==> Inv(limbo, out) && queue == old(queue) && lookup.all == old(lookup.all) && !replaced
      ensures ok ==>
                && Inv(limbo - {tx}, out)
                && queue == old(queue)[tx.from := Added(ListOf(old(queue), tx.from, false), tx, config.priceBump)]
      ensures ok ==> replaced == Occupied(old(queue), tx.from, tx.nonce)
      ensures ok ==>
                lookup.all == old(lookup.all) - (if replaced then {old(queue)[tx.from].items[tx.nonce]} else {}) + {tx}
      ensures tx in limbo ==> ok && !replaced && lookup.all == old(lookup.all)
      ensures ok && !replaced && tx !in limbo ==>
                && multiset(priced.items) == multiset(old(priced.items)) + multiset{tx}
                && priced.stales == old(priced.stales)
      ensures ok ==> beats == if tx.from in old(beats) then old(beats) else old(beats)[tx.from := now]
      ensures tx in limbo ==> priced.items == old(priced.items) && priced.stales == old(priced.stales)
    {
      hide Agree, Accepts, Added, Tallied;
      var l := ListOf(queue, tx.from, false);
      ghost var all := lookup.all;
      EnqueueAgrees(pending, queue, all, limbo, tx, config.priceBump);
      if !Accepts(l, tx, config.priceBump) {
        return false, false;
      }
      var prev := Lookup(l.items, tx.nonce);
      queue := queue[tx.from := Added(l, tx, config.priceBump)];
      if tx !in lookup.all {
        Exchange(prev, tx, out);
      }
      if tx.from !in beats {
        beats := beats[tx.from := now];
      }
      assert prev.None? ==> lookup.all == all + {tx};
      assert lookup.all == all - (if prev.Some? then {l.items[tx.nonce]} else {}) + {tx};
      return prev.Some?, true;
    }

    /** Takes `prev`, if there is one, out of the lookup and puts `tx` in; the price heap is told of both. */
    method Exchange(prev: Option<Tx>, tx: Tx, ghost out: set<Tx>)
      requires priced.lookup == lookup && lookup.Valid() && priced.Valid() && priced.Covers(out) && tx !in lookup.all
      requires prev.Some? ==> prev.value in lookup.all && debt >= 0
      requires Tallied(priced.items, lookup.all, priced.stales, debt)
      modifies lookup, priced
      ensures lookup.Valid() && priced.Valid() && priced.Covers(out)
      ensures Tallied(priced.items, lookup.all, priced.stales, debt)
      ensures lookup.all == old(lookup.all) - (if prev.Some? then {prev.value} else {}) + {tx}
      ensures prev == None ==>
                && multiset(priced.items) == multiset(old(priced.items)) + multiset{tx}
                && priced.stales == old(priced.stales)
    {
      hide Tallied, SumSlots;
      ghost var items, stales := priced.items, priced.stales;
      if prev.Some? {
        TallyForgets(items, lookup.all, prev.value, stales, debt);
        lookup.Remove(prev.value);
        priced.Removed(1);
        TallyTells(items, stales, priced.items, priced.stales, lookup.all, 1, debt + 1);
      }
      ghost var others := lookup.all;
      items := priced.items;
      lookup.Add(tx);
      priced.Put(tx);
      TallyPuts(items, priced.items, others, tx, priced.stales, debt);
    }

    /** Removes `tx`; later pending transactions of its sender go back to the queue. */
    method RemoveTx(tx: Tx, outOfBound: bool, now: int, ghost out: set<Tx>)
      requires Inv({}, out)
      requires outOfBound ==> debt >= 0
      modifies `debt, `pending, `queue, `beats, lookup, priced, noncer`nonces
      ensures Inv({}, out - {tx}) && lookup.all == old(lookup.all) - {tx}
      ensures tx !in old(lookup.all) ==> pending == old(pending) && queue == old(queue)
      ensures InLists(old(queue), tx) ==>
                pending == old(pending) && queue == SetList(old(queue), tx.from, Removed(old(queue)[tx.from], tx.nonce))
      ensures InLists(old(pending), tx) ==>
                pending == SetList(old(pending), tx.from, Removed(old(pending)[tx.from], tx.nonce))
      ensures InLists(old(queue), tx) && outOfBound ==>
                Deferred(old(priced.items), old(priced.stales), priced.items, priced.stales, 1)
      ensures old(Gapless()) ==> Gapless()
      ensures OnlyReplaces(old(pending), pending, {})
      ensures debt == old(debt) + (if !outOfBound && tx in old(lookup.all) then 1 else 0)
      ensures !outOfBound ==> priced.items == old(priced.items) && priced.stales == old(priced.stales)
      ensures InLists(old(queue), tx) ==> beats == if tx.from in queue then old(beats) else old(beats) - {tx.from}
    {
      hide Agree, SetList, NoncesOk, Removed, Virtual, Tallied;
      ghost var all := lookup.all;
      RemoveAgrees(pending, queue, all, tx);
      if tx !in lookup.all {
        assert all - {tx} == all;
        return;
      }
      ghost var items, stales := priced.items, priced.stales;
      TallyForgets(items, lookup.all, tx, stales, debt);
      lookup.Remove(tx);
      if outOfBound {
        priced.Removed(1);
        TallyTells(items, stales, priced.items, priced.stales, lookup.all, 1, debt + 1);
      } else {
        debt := debt + 1;
      }
      if Occupied(pending, tx.from, tx.nonce) {
        RemovalReplacesNone(pending, tx.from, tx.nonce);
        var invalids := Later(pending[tx.from].items, tx.nonce);
        pending := SetList(pending, tx.from, Removed(pending[tx.from], tx.nonce));
        EnqueueAll(tx.from, invalids, now, out - {tx});
        noncer.SetIfLower(tx.from, tx.nonce);
        assert noncer.fallback == state;
        if old(Gapless()) {
          NoncesAfterRemoval(old(pending), old(queue), state, old(noncer.nonces), tx, queue, noncer.nonces);
        }
      } else {
        SetListKeys(queue, tx.from, Removed(queue[tx.from], tx.nonce));
        queue := SetList(queue, tx.from, Removed(queue[tx.from], tx.nonce));
        ForgetBeat(tx.from, out - {tx});
        if old(Gapless()) {
          NoncesAfterDequeue(pending, old(queue), state, noncer.nonces, tx.from, queue);
        }
      }
    }

    /** Puts transactions of one account, all in limbo, into its queue. */
    method EnqueueAll(addr: Address, txs: set<Tx>, now: int, ghost out: set<Tx>)
      requires Inv(txs, out) && forall t :: t in txs ==> t.from == addr
      modifies `queue, `beats, lookup, priced
      ensures Inv({}, out) && lookup.all == old(lookup.all) && SameBut(queue, old(queue), addr)
      ensures forall n :: n in ItemsOf(queue, addr) <==>
                n in ItemsOf(old(queue), addr) || exists t :: t in txs && t.nonce == n
      ensures priced.items == old(priced.items) && priced.stales == old(priced.stales)
    {
      hide Agree, Tallied;
      var todo := txs;
      while todo != {}
        invariant todo <= txs && Inv(todo, out) && lookup.all == old(lookup.all)
        invariant SameBut(queue, old(queue), addr)
        invariant forall n :: n in ItemsOf(queue, addr) <==>
                    n in ItemsOf(old(queue), addr) || exists t :: t in txs && t !in todo && t.nonce == n
        invariant priced.items == old(priced.items) && priced.stales == old(priced.stales)
        decreases |todo|
      {
        var t :| t in todo;
        LimboIsFree(pending, queue, lookup.all, todo, t);
        ghost var before := queue;
        var _, _ := EnqueueTx(t, now, todo, out);
        assert ItemsOf(queue, addr) == ItemsOf(before, addr)[t.nonce := t];
        todo := todo - {t};
      }
    }

    /** Removes transactions whose price heap entries are already gone. */
    method RemoveDropped(drop: seq<Tx>, now: int)
      requires Inv({}, Members(drop)) && debt >= 0
      requires Tallied(priced.items, lookup.all, priced.stales, debt - |drop|)
      modifies `debt, `pending, `queue, `beats, lookup, priced, noncer`nonces
      ensures Valid() && lookup.all == old(lookup.all) - Members(drop)
      ensures old(Gapless()) ==> Gapless()
      ensures OnlyReplaces(old(pending), pending, {})
      ensures debt == old(debt)
      ensures priced.items == old(priced.items) && priced.stales == old(priced.stales)
    {
      hide Inv, Gapless, OnlyReplaces, Tallied;
      NothingReplaced(pending, {});
      Owe(debt - |drop|, Members(drop));
      for i := 0 to |drop|
        invariant Inv({}, Members(drop[i..])) && lookup.all == old(lookup.all) - Members(drop[..i])
        invariant debt <= old(debt) - |drop| + i
        invariant priced.items == old(priced.items) && priced.stales == old(priced.stales)
        invariant (old(Gapless()) ==> Gapless()) && OnlyReplaces(old(pending), pending, {})
      {
        assert drop[i..] == [drop[i]] + drop[i + 1..];
        assert drop[..i + 1] == drop[..i] + [drop[i]];
        ghost var before := pending;
        assert Members(drop[i..]) - {drop[i]} <= Members(drop[i + 1..]);
        RemoveTx(drop[i], false, now, Members(drop[i..]));
        CoversMore(Members(drop[i..]) - {drop[i]}, Members(drop[i + 1..]));
        ReplacesThen(old(pending), before, pending, {}, {});
      }
      assert drop[..|drop|] == drop;
      assert drop[|drop|..] == [] && Members([]) == {};
      SettleAt(old(debt));
    }

    lemma CoversMore(out: set<Tx>, more: set<Tx>)
      requires Inv({}, out) && out <= more
      ensures Inv({}, more)
    {
      hide Agree, Tallied;
    }

    /** Counts on transactions that will go without the heap being told, because their entries are gone already. */
    ghost method Owe(debt': int, out: set<Tx>)
      requires Inv({}, out) && Tallied(priced.items, lookup.all, priced.stales, debt')
      modifies `debt
      ensures Inv({}, out) && debt == debt'
    {
      hide Agree, Tallied;
      debt := debt';
    }

    ghost method SettleAt(debt': int)
      requires Inv({}, {}) && debt <= debt' && debt' >= 0
      modifies `debt
      ensures Valid() && debt == debt'
    {
      hide Agree, Tallied;
      TallyLater(priced.items, lookup.all, priced.stales, debt, debt');
      debt := debt';
    }

    /** Raises or lowers the price threshold; below it, exactly the remote transactions leave. */
    method SetGasPrice(price: nat, now: int)
      requires Valid()
      modifies `debt, `gasPrice, `pending, `queue, `beats, lookup, priced, noncer`nonces
      ensures Valid() && gasPrice == price
      ensures lookup.all == set tx | tx in old(lookup.all) && (tx.from in locals || tx.price >= price)
      ensures old(Gapless()) ==> Gapless()
      ensures old(KeepsLimits()) ==> KeepsLimits()
      ensures debt == old(debt)
    {
      hide Agree, Gapless, Tallied;
      gasPrice := price;
      ghost var heap, stales := priced.items, priced.stales;
      var drop := priced.Cap(price, locals);
      EntriesCover(lookup.all, heap, priced.items, drop);
      TallyDrops(heap, stales, priced.items, priced.stales, lookup.all, |drop|, debt);
      TallyLater(priced.items, lookup.all, priced.stales, debt - |drop|, debt);
      RemoveDropped(drop, now);
      FewerKeepLimits(old(gasPrice), locals, old(lookup.all), gasPrice, lookup.all);
    }

    /**
     Adds a transaction.  It replaces a pending or queued one with its nonce if it outbids it, and evicts
     cheaper remote transactions from a full pool; transactions of local accounts are never evicted.
     */
    method Add(tx: Tx, local: bool, now: int) returns (replaced: bool, err: Option<Error>, ghost evicted: seq<Tx>)
      requires Valid()
      modifies `debt, `pending, `queue, `beats, `locals, lookup, priced, noncer`nonces
      ensures Valid() && (old(Gapless()) ==> Gapless())
      ensures Handled(Law(), old(Now()), tx, local, Outcome(err, replaced, evicted, Now()))
      ensures old(Refusal(Law(), Now(), tx, local)).Some? ==> pending == old(pending) && queue == old(queue)
      ensures old(lookup.slots) + NumSlots(tx) <= |old(lookup.all)| + Capacity(config) ==> err != Some(CapacityPanic)
      ensures err == None && !replaced && !Full(config, old(Now())) ==>
                Joined(tx, now, old(queue), old(priced.items), old(beats))
      ensures err == None && !replaced && !Full(config, old(Now())) ==>
                pending == old(pending) && priced.stales == old(priced.stales)
      ensures old(KeepsLimits()) ==> KeepsLimits()
      ensures && tx !in old(lookup.all) && !Full(config, old(Now()))
              && tx.size <= 131072 && tx.gas <= currentMaxGas && tx.intrinsic <= tx.gas
              && (local || tx.from in old(locals) || tx.price >= gasPrice)
              && StateNonce(state, tx.from) <= tx.nonce && tx.cost <= Balance(state, tx.from) ==>
                err == None || err == Some(ReplaceUnderpriced)
      ensures err == None ==>
                forall t | t in old(lookup.all) && t.from == tx.from && t.nonce == tx.nonce && t !in evicted ::
                  tx.price > t.price && 100 * (tx.price + 1) > t.price * (100 + config.priceBump)
      ensures OnlyReplaces(old(pending), pending, {tx})
      ensures debt == old(debt)
    {
      hide Inv, Gapless, Joined, HeapFor, SumSlots, NumSlots, Evicted, CheapestWent, Rivals, Wins, Sound;
      replaced, evicted := false, [];
      NothingWent(lookup.all, locals);
      HeapIsSound();
      EnoughEntries(tx, local);
      ValidExactly(Law(), locals, tx, local);
      ConfigIsSane();
      NothingReplaced(pending, {tx});
      if tx in lookup.all {
        err := Some(AlreadyKnown);
        return;
      }
      err := ValidateTx(Law(), locals, tx, local);
      if err.Some? {
        return;
      }
      replaced, err, evicted := Admit(tx, local, now);
      StaysWithinLimits(old(Now()), tx, local, Outcome(err, replaced, evicted, Now()));
    }

    /** What the outcome of an addition says about limits and prices. */
    lemma StaysWithinLimits(v: View, tx: Tx, local: bool, o: Outcome)
      requires Handled(Law(), v, tx, local, o) && Sound(v) && Sane(config)
      ensures AllDecent(gasPrice, v.locals, v.all) && |Remote(v.all, v.locals)| <= Capacity(config) ==>
                AllDecent(gasPrice, o.after.locals, o.after.all)
                && |Remote(o.after.all, o.after.locals)| <= Capacity(config)
      ensures o.err == None ==>
                forall t | t in v.all && t.from == tx.from && t.nonce == tx.nonce && t !in o.evicted ::
                  tx.price > t.price && 100 * (tx.price + 1) > t.price * (100 + config.priceBump)
    {
      if AllDecent(gasPrice, v.locals, v.all) && |Remote(v.all, v.locals)| <= Capacity(config) {
        HandledIsDecent(Law(), v, tx, local, o);
        HandledIsLimited(Law(), v, tx, local, o);
      }
      forall t | o.err == None && t in v.all && t.from == tx.from && t.nonce == tx.nonce && t !in o.evicted
        ensures tx.price > t.price && 100 * (tx.price + 1) > t.price * (100 + config.priceBump)
      {
        OutbidsByPercent(tx, t, config.priceBump);
        assert t in Rivals(v.all - Members(o.evicted), tx);
      }
    }

    /** A transaction that replaces nothing has entered the queue of its sender and the price heap. */
    ghost predicate Joined(tx: Tx, now: int, queue0: Lists, items0: seq<Tx>, beats0: map<Address, int>)
      reads `queue, `beats, priced
    {
      && queue == queue0[tx.from := Added(ListOf(queue0, tx.from, false), tx, config.priceBump)]
      && multiset(priced.items) == multiset(items0) + multiset{tx}
      && beats == if tx.from in beats0 then beats0 else beats0[tx.from := now]
    }

    /** Adds a valid new transaction. */
    method Admit(tx: Tx, local: bool, now: int) returns (replaced: bool, err: Option<Error>, ghost evicted: seq<Tx>)
      requires Valid() && tx !in lookup.all && ValidateTx(Law(), locals, tx, local) == None
      modifies `debt, `pending, `queue, `beats, `locals, lookup, priced, noncer`nonces
      ensures Valid() && (old(Gapless()) ==> Gapless())
      ensures Handled(Law(), old(Now()), tx, local, Outcome(err, replaced, evicted, Now()))
      ensures old(Refusal(Law(), Now(), tx, local)).Some? ==> pending == old(pending) && queue == old(queue)
      ensures err == None && !replaced && !Full(config, old(Now())) ==>
                Joined(tx, now, old(queue), old(priced.items), old(beats))
      ensures err == None && !replaced && !Full(config, old(Now())) ==>
                pending == old(pending) && priced.stales == old(priced.stales)
      ensures OnlyReplaces(old(pending), pending, {tx})
      ensures debt == old(debt)
    {
      hide Inv, Gapless, Joined, HeapFor, SlotsOf, AskedFor, Full, RoomFor, Evicted, CheapestWent, Rivals, Wins, Sound,
           OnlyReplaces, Handled, Refusal, ValidateTx, Members, SumSlots, NumSlots;
      ValidExactly(Law(), locals, tx, local);
      var room;
      room, evicted := TryRoom(tx, local, now);
      if room != Made {
        return false, Some(if room == Refused then Underpriced else CapacityPanic), evicted;
      }
      var ok;
      replaced, ok := Finish(tx, local, now, old(Now()), evicted, old(pending), old(queue), old(beats),
                             old(priced.stales));
      err := if ok then None else Some(ReplaceUnderpriced);
    }

    /** Makes room for a valid new transaction; if that fails, the outcome is known. */
    method TryRoom(tx: Tx, local: bool, now: int) returns (room: Room, ghost evicted: seq<Tx>)
      requires Valid() && tx !in lookup.all && ValidateTx(Law(), locals, tx, local) == None
      modifies `debt, `pending, `queue, `beats, lookup, priced, noncer`nonces
      ensures Valid() && (old(Gapless()) ==> Gapless()) && debt == old(debt)
      ensures room == RoomFor(config, old(Now()), tx, local) && evicted == Evicted(config, old(Now()), tx, local)
      ensures CheapestWent(old(lookup.all), locals, evicted, AskedFor(config, old(Now()), tx, local))
      ensures lookup.all == old(lookup.all) - Members(evicted) && OnlyReplaces(old(pending), pending, {})
      ensures room != Made ==>
                && Handled(Law(), old(Now()), tx, local,
                           Outcome(Some(if room == Refused then Underpriced else CapacityPanic), false, evicted, Now()))
                && pending == old(pending) && queue == old(queue) && OnlyReplaces(old(pending), pending, {tx})
      ensures room == Made ==> old(Refusal(Law(), Now(), tx, local)) == None
      ensures !Full(config, old(Now())) ==>
                && pending == old(pending) && queue == old(queue) && beats == old(beats)
                && priced.items == old(priced.items) && priced.stales == old(priced.stales)
    {
      hide Inv, Gapless, HeapFor, SlotsOf, AskedFor, Full, RoomFor, Evicted, CheapestWent, Sound, OnlyReplaces, Handled,
           ValidateTx, Members, NoRepeats, SumSlots, NumSlots;
      ghost var v := Now();
      NoneEvicted(config, v, tx, local);
      NothingWent(lookup.all, locals);
      NothingReplaced(pending, {tx});
      room, evicted := MakeRoom(tx, local, now);
      if room != Made {
        HeapIsSound();
        DeniedIsHandled(Law(), v, tx, local, if room == Refused then Underpriced else CapacityPanic, Now());
      }
    }

    /** Places a transaction that room has been made for; `v` and the other ghosts are from before that. */
    method Finish(tx: Tx, local: bool, now: int, ghost v: View, ghost evicted: seq<Tx>, ghost pending0: Lists,
                  ghost queue0: Lists, ghost beats0: map<Address, int>, ghost stales0: int)
      returns (replaced: bool, ok: bool)
      requires Valid() && tx !in v.all && StateNonce(state, tx.from) <= tx.nonce && locals == v.locals
      requires ValidateTx(Law(), v.locals, tx, local) == None && RoomFor(config, v, tx, local) == Made
      requires evicted == Evicted(config, v, tx, local) && lookup.all == v.all - Members(evicted)
      requires CheapestWent(v.all, v.locals, evicted, AskedFor(config, v, tx, local))
      requires OnlyReplaces(pending0, pending, {})
      requires !Full(config, v) ==>
                 && pending == pending0 && queue == queue0 && beats == beats0
                 && priced.items == v.items && priced.stales == stales0
      modifies `pending, `queue, `beats, `locals, lookup, priced
      ensures Valid() && (old(Gapless()) ==> Gapless()) && OnlyReplaces(pending0, pending, {tx})
      ensures Handled(Law(), v, tx, local,
                      Outcome(if ok then None else Some(ReplaceUnderpriced), replaced, evicted, Now()))
      ensures ok && !replaced && !Full(config, v) ==>
                Joined(tx, now, queue0, v.items, beats0) && pending == pending0 && priced.stales == stales0
    {
      hide Inv, Gapless, Joined, HeapFor, SlotsOf, AskedFor, Full, RoomFor, Evicted, CheapestWent, Rivals, Wins, Sound,
           OnlyReplaces, Handled, ValidateTx, Members, Occupied;
      ghost var pending1 := pending;
      replaced, ok := Settle(tx, local, now);
      ReplacesThen(pending0, pending1, pending, {}, {tx});
      HeapIsSound();
      JoinedMeans(tx, now, queue0, v.items, beats0);
      PlacedIsHandled(Law(), v, tx, local, evicted, replaced, ok, Now());
    }

    /** Places a new transaction; an account whose local transaction was queued is local from then on. */
    method Settle(tx: Tx, local: bool, now: int) returns (replaced: bool, ok: bool)
      requires Valid() && tx !in lookup.all && StateNonce(state, tx.from) <= tx.nonce
      modifies `pending, `queue, `beats, `locals, lookup, priced
      ensures Valid() && (old(Gapless()) ==> Gapless()) && OnlyReplaces(old(pending), pending, {tx})
      ensures ok <==> Wins(old(lookup.all), tx, config.priceBump)
      ensures replaced <==> ok && Rivals(old(lookup.all), tx) != {}
      ensures lookup.all == if ok then old(lookup.all) - Rivals(old(lookup.all), tx) + {tx} else old(lookup.all)
      ensures locals == old(locals) +
                if ok && local && !Occupied(old(pending), tx.from, tx.nonce) then {tx.from} else {}
      ensures ok && !replaced ==> !Occupied(old(pending), tx.from, tx.nonce)
      ensures ok && !replaced ==> Joined(tx, now, old(queue), old(priced.items), old(beats))
      ensures ok && !replaced ==> pending == old(pending) && priced.stales == old(priced.stales)
    {
      hide Inv, Gapless, Joined, Accepts, Rivals, Wins, OnlyReplaces, Added, ListOf, Occupied;
      var queued;
      replaced, ok, queued := Place(tx, now);
      if ok && local && queued {
        locals := locals + {tx.from};
      }
    }

    lemma HeapIsSound()
      requires Valid()
      ensures Sound(Now())
    {
    }

    lemma JoinedMeans(tx: Tx, now: int, queue0: Lists, items0: seq<Tx>, beats0: map<Address, int>)
      ensures Joined(tx, now, queue0, items0, beats0) ==> multiset(priced.items) == multiset(items0) + multiset{tx}
    {
    }

    /** The heap has an entry for every transaction, so a caller who knows the number of transactions knows enough. */
    lemma EnoughEntries(tx: Tx, local: bool)
      requires Valid()
      ensures |HeapFor(Now(), tx, local)| >= |lookup.all|
      ensures lookup.slots + NumSlots(tx) <= |lookup.all| + Capacity(config) ==>
                RoomFor(config, Now(), tx, local) != Crashed
    {
      CleanedCovers(priced.items, lookup.all);
    }

    /**
     Evicts the cheapest remote transactions from a full pool, unless `tx` is no better than any of the pool.  The slots
     that were counted are freed if and only if no transaction is taken off the heap twice.
     */
    method MakeRoom(tx: Tx, local: bool, now: int) returns (room: Room, ghost drop: seq<Tx>)
      requires Valid()
      modifies `debt, `pending, `queue, `beats, lookup, priced, noncer`nonces
      ensures Valid() && (old(Gapless()) ==> Gapless())
      ensures room == RoomFor(config, old(Now()), tx, local) && drop == Evicted(config, old(Now()), tx, local)
      ensures lookup.all == old(lookup.all) - Members(drop)
      ensures CheapestWent(old(lookup.all), locals, drop, AskedFor(config, old(Now()), tx, local))
      ensures lookup.slots == old(lookup.slots) - SlotsOf(drop) <==> NoRepeats(Evicted(config, old(Now()), tx, local))
      ensures room != Made || !Full(config, old(Now())) ==> pending == old(pending) && queue == old(queue)
      ensures !Full(config, old(Now())) ==>
                priced.items == old(priced.items) && priced.stales == old(priced.stales) && beats == old(beats)
      ensures room != Made ==> priced.items == HeapFor(old(Now()), tx, local)
      ensures OnlyReplaces(old(pending), pending, {})
      ensures debt == old(debt)
    {
      hide Agree, Gapless, Cleaned, Discarded, SumSlots, SlotsOf, Asked, CheapestWent, NoRepeats, Tallied;
      drop := [];
      NothingWent(lookup.all, locals);
      NothingRepeats();
      NoneDiscarded(HeapFor(Now(), tx, local), lookup.all, locals);
      if |lookup.all| < config.globalSlots + config.globalQueue {
        return Made, drop;
      }
      if !local {
        ghost var heap, stales := priced.items, priced.stales;
        var under := priced.Underpriced(tx, locals);
        TallyDrops(heap, stales, priced.items, priced.stales, lookup.all, 0, debt);
        if under {
          return Refused, drop;
        }
      }
      room, drop := EvictFor(tx, now);
    }

    /**
     Evicts the cheapest remote transactions, as many as the slots for `tx` take, unless the allocation for them panics.
     */
    method EvictFor(tx: Tx, now: int) returns (room: Room, ghost drop: seq<Tx>)
      requires Valid() && Full(config, Now())
      modifies `debt, `pending, `queue, `beats, lookup, priced, noncer`nonces
      ensures Valid() && (old(Gapless()) ==> Gapless())
      ensures room == if Overdrawn(config, old(Now()), tx) then Crashed else Made
      ensures room == Crashed ==>
                pending == old(pending) && queue == old(queue) && priced.items == old(priced.items) && drop == []
      ensures lookup.all == old(lookup.all) - Members(drop)
      ensures room == Made ==>
                var asked := Asked(SlotsFor(config, old(lookup.all), tx), old(priced.items), locals);
                && drop == Discarded(old(priced.items), old(lookup.all), locals, asked)
                && CheapestWent(old(lookup.all), locals, drop, asked)
      ensures lookup.slots == old(lookup.slots) - SlotsOf(drop) <==> NoRepeats(drop)
      ensures OnlyReplaces(old(pending), pending, {})
      ensures debt == old(debt)
    {
      hide Agree, Gapless, SumSlots, SlotsOf, Asked, KeepsEntries, PriceLess, Discarded, CheapestWent, NoRepeats,
           Tallied;
      ghost var heap, all, stales := priced.items, lookup.all, priced.stales;
      SlotsOfMany(all);
      NothingWent(all, locals);
      NothingRepeats();
      var taken, ok := priced.Discard(lookup.slots - (config.globalSlots + config.globalQueue) + NumSlots(tx), locals);
      drop := taken;
      if !ok {
        TallyDrops(heap, stales, priced.items, priced.stales, all, 0, debt);
        return Crashed, drop;
      }
      EntriesCover(all, heap, priced.items, drop);
      CheapestWentOut(all, heap, priced.items, locals, drop, Asked(SlotsFor(config, all, tx), heap, locals));
      FreedSlots(all, drop);
      TallyDrops(heap, stales, priced.items, priced.stales, all, |drop|, debt);
      TallyLater(priced.items, lookup.all, priced.stales, debt - |drop|, debt);
      RemoveDropped(taken, now);
      room := Made;
    }

    /** Puts a new transaction in place of a pending one with its nonce, or else into the queue. */
    method Place(tx: Tx, now: int) returns (replaced: bool, ok: bool, queued: bool)
      requires Valid() && tx !in lookup.all && StateNonce(state, tx.from) <= tx.nonce
      modifies `pending, `queue, `beats, lookup, priced
      ensures Valid() && (old(Gapless()) ==> Gapless())
      ensures queued <==> !Occupied(old(pending), tx.from, tx.nonce)
      ensures var l := if queued then ListOf(old(queue), tx.from, false) else old(pending)[tx.from];
              ok == Accepts(l, tx, config.priceBump)
      ensures ok <==> Wins(old(lookup.all), tx, config.priceBump)
      ensures lookup.all == if ok then old(lookup.all) - Rivals(old(lookup.all), tx) + {tx} else old(lookup.all)
      ensures queued ==> pending == old(pending) && replaced == (ok && Occupied(old(queue), tx.from, tx.nonce))
      ensures queued ==>
                var l := Added(ListOf(old(queue), tx.from, false), tx, config.priceBump);
                queue == if ok then old(queue)[tx.from := l] else old(queue)
      ensures !queued ==> queue == old(queue) && replaced == ok
      ensures !queued ==>
                var l := Added(old(pending)[tx.from], tx, config.priceBump);
                pending == if ok then old(pending)[tx.from := l] else old(pending)
      ensures ok && !replaced ==>
                && queued && Joined(tx, now, old(queue), old(priced.items), old(beats))
                && priced.stales == old(priced.stales)
      ensures replaced <==> ok && Rivals(old(lookup.all), tx) != {}
      ensures OnlyReplaces(old(pending), pending, {tx})
    {
      hide Inv, Agree, NoncesOk, Added, Accepts, Outbids, Rivals, OnlyReplaces;
      Agrees();
      RivalsDecide(pending, queue, lookup.all, tx, config.priceBump);
      NothingReplaced(pending, {tx});
      queued := !Occupied(pending, tx.from, tx.nonce);
      if !queued {
        ok := ReplacePending(tx, now);
        return ok, ok, queued;
      }
      ghost var before := queue;
      replaced, ok := EnqueueTx(tx, now, {}, {});
      assert {} - {tx} == {};
      NoncesAfterEnqueue(pending, before, state, noncer.nonces, tx, config.priceBump);
    }

    /** Replaces the pending transaction with the nonce of `tx` if `tx` offers enough. */
    method ReplacePending(tx: Tx, now: int) returns (ok: bool)
      requires Valid() && tx !in lookup.all && Occupied(pending, tx.from, tx.nonce)
      modifies `pending, `beats, lookup, priced
      ensures Valid() && (old(Gapless()) ==> Gapless())
      ensures ok == Accepts(old(pending)[tx.from], tx, config.priceBump)
      ensures ok ==> lookup.all == old(lookup.all) - {old(pending)[tx.from].items[tx.nonce]} + {tx}
      ensures !ok ==> lookup.all == old(lookup.all)
      ensures !ok ==> pending == old(pending)
      ensures ok ==> pending == old(pending)[tx.from := Added(old(pending)[tx.from], tx, config.priceBump)]
      ensures old(pending)[tx.from].items[tx.nonce].nonce == tx.nonce
      ensures old(pending)[tx.from].items[tx.nonce].from == tx.from
      ensures OnlyReplaces(old(pending), pending, {tx})
      ensures if ok then Refreshed(old(beats), beats, tx.from, now) else beats == old(beats)
    {
      hide Agree, NoncesOk, Tallied;
      var l := pending[tx.from];
      OwnEntry(pending, queue, lookup.all, tx.from, tx.nonce);
      if !Accepts(l, tx, config.priceBump) {
        return false;
      }
      SwapIn(pending, true, queue, false, lookup.all, tx, config.priceBump);
      NoncesAfterReplacement(pending, queue, state, noncer.nonces, tx, config.priceBump);
      pending := pending[tx.from := Added(l, tx, config.priceBump)];
      Exchange(Some(l.items[tx.nonce]), tx, {});
      beats := beats[tx.from := now];
      return true;
    }

    /** Forgets transactions in limbo. */
    method ForgetAll(txs: set<Tx>, ghost limbo: set<Tx>, ghost out: set<Tx>)
      requires Inv(limbo, out) && txs <= limbo
      modifies `debt, lookup
      ensures Inv(limbo - txs, out) && lookup.all == old(lookup.all) - txs
      ensures debt == old(debt) + |txs|
    {
      hide Inv;
      var todo := txs;
      assert limbo - (txs - todo) == limbo;
      while todo != {}
        invariant todo <= txs && Inv(limbo - (txs - todo), out) && lookup.all == old(lookup.all) - (txs - todo)
        invariant debt == old(debt) + |txs| - |todo|
        decreases |todo|
      {
        var t :| t in todo;
        ForgetOne(t, limbo - (txs - todo), out);
        assert limbo - (txs - todo) - {t} == limbo - (txs - (todo - {t}));
        todo := todo - {t};
      }
      assert limbo - (txs - todo) == limbo - txs;
    }

    /** Forgets a transaction in limbo; the price heap has to be told. */
    method ForgetOne(tx: Tx, ghost limbo: set<Tx>, ghost out: set<Tx>)
      requires Inv(limbo, out) && tx in limbo
      modifies `debt, lookup
      ensures Inv(limbo - {tx}, out) && lookup.all == old(lookup.all) - {tx} && debt == old(debt) + 1
    {
      hide Agree, Tallied;
      Forget(pending, true, queue, false, lookup.all, limbo, tx);
      TallyForgets(priced.items, lookup.all, tx, priced.stales, debt);
      lookup.Remove(tx);
      debt := debt + 1;
    }

    /** Shrinks a queued list to `rest` and forgets what is gone; returns how many transactions are gone. */
    method ShrinkQueued(addr: Address, rest: ListValue) returns (count: nat)
      requires Valid() && addr in queue
      requires Sub(rest.items, queue[addr].items) && !rest.strict && Bounded(rest.items, rest.costcap, rest.gascap)
      modifies `debt, `queue, lookup
      ensures Valid() && (old(Gapless()) ==> Gapless())
      ensures queue == SetList(old(queue), addr, rest)
      ensures lookup.all == old(lookup.all) - Gone(old(queue)[addr].items, rest.items)
      ensures debt == old(debt) + count
    {
      hide Agree, NoncesOk, Bounded, Tallied;
      var gone := Gone(queue[addr].items, rest.items);
      ghost var before := queue;
      ShrinkQueuedAgrees(pending, queue, lookup.all, addr, rest);
      queue := SetList(queue, addr, rest);
      ForgetAll(gone, gone, {});
      assert gone - gone == {};
      if old(Gapless()) {
        SetListFacts(before, addr, rest);
        NoncesAfterDequeue(pending, before, state, noncer.nonces, addr, queue);
      }
      count := |gone|;
    }

    /** Moves one transaction from limbo into its sender's pending list, where its nonce is always free. */
    method PromoteTx(tx: Tx, now: int, ghost limbo: set<Tx>)
      requires Inv(limbo, {}) && tx in limbo
      modifies `pending, `beats, noncer`nonces
      ensures Inv(limbo - {tx}, {})
      ensures SameBut(pending, old(pending), tx.from)
      ensures ItemsOf(pending, tx.from) == ItemsOf(old(pending), tx.from)[tx.nonce := tx]
      ensures forall b :: Virtual(noncer.nonces, state, b) ==
                if b == tx.from then tx.nonce + 1 else Virtual(old(noncer.nonces), state, b)
      ensures Refreshed(old(beats), beats, tx.from, now)
    {
      hide Agree, Tallied;
      var l := ListOf(pending, tx.from, true);
      PutIn(pending, true, queue, false, lookup.all, limbo, tx, config.priceBump);
      pending := pending[tx.from := Added(l, tx, config.priceBump)];
      noncer.Set(tx.from, tx.nonce + 1);
      beats := beats[tx.from := now];
    }

    /** Moves the ready transactions of one account from its queue to its pending list. */
    method PromoteReady(addr: Address, now: int) returns (promoted: seq<Tx>)
      requires Valid()
      modifies `pending, `queue, `beats, noncer`nonces
      ensures Valid() && (old(Gapless()) ==> Gapless())
      ensures SameBut(queue, old(queue), addr) && SameBut(pending, old(pending), addr)
      ensures
        var items := ItemsOf(old(queue), addr);
        var left := NotReady(items, Virtual(old(noncer.nonces), state, addr));
        && ItemsOf(queue, addr) == left
        && ItemsOf(pending, addr) == ItemsOf(old(pending), addr) + ReadyPart(items, left)
        && Listing(ReadyPart(items, left), promoted)
      ensures NextFree(queue, state, noncer.nonces, addr) && SameNonces(state, old(noncer.nonces), noncer.nonces, addr)
    {
      hide Agree, NoncesOk, NotReady, ReadyPart, Listing, SetList, Separate, Stretch, Tallied;
      if addr !in queue {
        NothingQueued(ItemsOf(pending, addr), Virtual(noncer.nonces, state, addr));
        SameButTrans(queue, queue, queue, addr);
        SameButTrans(pending, pending, pending, addr);
        return [];
      }
      ghost var pending0, queue0, nonces0 := pending, queue, noncer.nonces;
      var l := queue[addr];
      var start := noncer.Get(addr);
      var left := NotReady(l.items, start);
      SoundQueue(pending, queue, lookup.all, addr);
      var low, next := FirstRun(l.items, start);
      ReadyAgrees(pending, queue, lookup.all, addr, left, low, next);
      SetOne(queue, addr, l.(items := left));
      SetListKeys(queue, addr, l.(items := left));
      queue := SetList(queue, addr, l.(items := left));
      promoted := PromoteRun(addr, l.items, low, next, now);
      RunDone(l.items, low, next, left, promoted);
      if old(Gapless()) {
        NoncesAfterPromotion(pending0, queue0, state, nonces0, addr, pending, left, noncer.nonces, low, next);
      }
    }

    /** Promotes transactions in limbo with consecutive nonces, lowest first. */
    method PromoteRun(addr: Address, items: Items, low: nat, next: nat, now: int) returns (promoted: seq<Tx>)
      requires low <= next && Inv(Stretch(items, low, next), {})
      requires Keyed(items) && (forall m :: low <= m < next ==> m in items)
      requires forall m :: m in items ==> items[m].from == addr
      requires debt >= 0
      modifies `pending, `beats, noncer`nonces
      ensures Valid() && SameBut(pending, old(pending), addr)
      ensures ItemsOf(pending, addr) ==
                ItemsOf(old(pending), addr) + (map m | low <= m < next && m in items :: items[m])
      ensures forall b :: Virtual(noncer.nonces, state, b) ==
                if b == addr && low < next then next else Virtual(old(noncer.nonces), state, b)
      ensures |promoted| == next - low
      ensures forall i :: 0 <= i < |promoted| ==> low + i in items && promoted[i] == items[low + i]
    {
      hide Inv, Stretch, Virtual, SameBut, ItemsOf, Refreshed;
      SameButTrans(pending, pending, pending, addr);
      promoted := [];
      var n: nat := low;
      while n < next
        invariant low <= n <= next && Inv(Stretch(items, n, next), {}) && SameBut(pending, old(pending), addr)
        invariant ItemsOf(pending, addr) ==
                    ItemsOf(old(pending), addr) + (map m | low <= m < n && m in items :: items[m])
        invariant forall b :: Virtual(noncer.nonces, state, b) ==
                    if b == addr && low < n then n else Virtual(old(noncer.nonces), state, b)
        invariant |promoted| == n - low
        invariant forall i :: 0 <= i < |promoted| ==> low + i in items && promoted[i] == items[low + i]
      {
        RunStep(items, n, next, addr);
        ghost var before := pending;
        PromoteTx(items[n], now, Stretch(items, n, next));
        SameButTrans(pending, before, old(pending), addr);
        promoted := promoted + [items[n]];
        n := n + 1;
      }
      RunStep0(items, next);
    }

    /** How many transactions an account may queue, unless it is local. */
    function QueueLimit(a: Address): Option<nat>
      reads `locals
    {
      if a in locals then None else Some(config.accountQueue)
    }

    /** Drops what has become stale or unpayable in one account's queue and promotes what is ready. */
    method PromoteUsable(addr: Address, now: int) returns (promoted: seq<Tx>, dropped: nat)
      requires Valid() && addr in queue
      modifies `debt, `pending, `queue, `beats, lookup, noncer`nonces
      ensures Valid() && (old(Gapless()) ==> Gapless())
      ensures SameBut(queue, old(queue), addr) && SameBut(pending, old(pending), addr)
      ensures lookup.all <= old(lookup.all)
      ensures
        var items, next := ItemsOf(old(queue), addr), Virtual(old(noncer.nonces), state, addr);
        && ItemsOf(queue, addr) == StillQueued(items, state, currentMaxGas, addr, next)
        && ItemsOf(pending, addr) == ItemsOf(old(pending), addr) + Promotable(items, state, currentMaxGas, addr, next)
        && Listing(Promotable(items, state, currentMaxGas, addr, next), promoted)
      ensures NextFree(queue, state, noncer.nonces, addr) && SameNonces(state, old(noncer.nonces), noncer.nonces, addr)
      ensures debt == old(debt) + dropped
    {
      hide Inv, Gapless, NotReady, ReadyPart, Listing, Payable, Virtual, SameBut, ItemsOf, NextFree, SameNonces;
      dropped := DropUnusable(addr);
      ghost var queue1 := queue;
      promoted := PromoteReady(addr, now);
      SameButTrans(queue, queue1, old(queue), addr);
    }

    /** Drops what has become stale or unpayable in one account's queue, promotes what is ready and caps the rest. */
    method PromoteAccount(addr: Address, now: int) returns (promoted: seq<Tx>)
      requires Valid() && addr in queue
      modifies `debt, `pending, `queue, `beats, lookup, priced, noncer`nonces
      ensures Valid() && (old(Gapless()) ==> Gapless())
      ensures SameBut(queue, old(queue), addr) && SameBut(pending, old(pending), addr)
      ensures lookup.all <= old(lookup.all)
      ensures Promoted(old(queue), old(pending), Virtual(old(noncer.nonces), state, addr), queue, pending, state,
                currentMaxGas, addr, QueueLimit(addr))
      ensures Listing(Promotable(ItemsOf(old(queue), addr), state, currentMaxGas, addr,
                Virtual(old(noncer.nonces), state, addr)), promoted)
      ensures NextFree(queue, state, noncer.nonces, addr) && SameNonces(state, old(noncer.nonces), noncer.nonces, addr)
      ensures addr !in locals ==> |ItemsOf(queue, addr)| <= config.accountQueue
      ensures Announces(promoted, old(pending), pending)
      ensures debt == old(debt)
    {
      hide *;
      Agrees();
      DebtIsSettled();
      var dropped;
      promoted, dropped := PromoteUsable(addr, now);
      ghost var queue1 := queue;
      var caps := CapQueued(addr);
      CappedIsPromoted(old(queue), old(pending), Virtual(old(noncer.nonces), state, addr), queue1, queue, pending,
                       state, currentMaxGas, addr, QueueLimit(addr));
      SameButTrans(queue, queue1, old(queue), addr);
      AnnouncedByListing(old(pending), old(queue), old(lookup.all), pending, state, currentMaxGas, addr,
                         Virtual(old(noncer.nonces), state, addr), promoted);
      CloseAccount(dropped + caps, addr);
    }

    /** An account without a queue has no heartbeat. */
    method ForgetBeat(addr: Address, ghost out: set<Tx>)
      requires Inv({}, out)
      modifies `beats
      ensures Inv({}, out)
      ensures beats == if addr in queue then old(beats) else old(beats) - {addr}
    {
      hide Agree, Tallied;
      if addr !in queue {
        beats := beats - {addr};
      }
    }

    /** Drops the pending transactions below the account's nonce. */
    method DropStale(addr: Address) returns (count: nat)
      requires Valid()
      modifies `debt, `pending, lookup
      ensures Valid() && SameBut(pending, old(pending), addr)
      ensures ItemsOf(pending, addr) == From(ItemsOf(old(pending), addr), StateNonce(state, addr))
      ensures lookup.all == old(lookup.all) - Gone(ItemsOf(old(pending), addr), ItemsOf(pending, addr))
      ensures count == |Gone(ItemsOf(old(pending), addr), ItemsOf(pending, addr))|
      ensures debt == old(debt) + count
    {
      hide Agree, SetList, Bounded, SameBut, Tallied;
      if addr !in pending {
        SameButTrans(pending, pending, pending, addr);
        assert Gone(map[], map[]) == {};
        return 0;
      }
      var l := pending[addr];
      var rest := l.(items := From(l.items, StateNonce(state, addr)));
      var gone := Gone(l.items, rest.items);
      SoundPending(pending, queue, lookup.all, addr);
      ShrunkIsBounded(l, rest.items);
      ShrinkPendingAgrees(pending, queue, lookup.all, addr, rest);
      SetOne(pending, addr, rest);
      pending := SetList(pending, addr, rest);
      ForgetAll(gone, gone, {});
      assert gone - gone == {};
      count := |gone|;
    }

    /**
     Drops the pending transactions beyond the account's means and sends those after them back to the queue.  The
     price heap is told about these and the `olds` stale ones together.
     */
    method FilterPending(addr: Address, olds: nat, now: int)
      requires Valid()
      requires debt >= olds
      modifies `debt, `pending, `queue, `beats, lookup, priced
      ensures Valid() && SameBut(pending, old(pending), addr) && SameBut(queue, old(queue), addr)
      ensures
        var items, drop := ItemsOf(old(pending), addr), TooCostly(Balance(state, addr), currentMaxGas);
        && ItemsOf(pending, addr) == Scanned(true, items, drop)
        && lookup.all == old(lookup.all) - Selected(items, drop)
        && forall n :: n in ItemsOf(queue, addr) <==>
             n in ItemsOf(old(queue), addr) || (n in items && !drop(items[n]) && n !in ItemsOf(pending, addr))
      ensures debt == old(debt) - olds
    {
      hide Inv, SetList, SameBut, Gone, Selected, Scanned, TooCostly;
      SameButTrans(queue, queue, queue, addr);
      var drop := TooCostly(Balance(state, addr), currentMaxGas);
      if addr !in pending {
        SameButTrans(pending, pending, pending, addr);
        NothingScannedOut(drop);
        assert lookup.all - {} == lookup.all;
        NoteRemoved(olds);
        return;
      }
      var rest := TakeCostly(addr, olds);
      EnqueueAll(addr, rest, now, {});
    }

    /** Takes the transactions beyond the account's means and those after them out, and forgets the former. */
    method TakeCostly(addr: Address, olds: nat) returns (rest: set<Tx>)
      requires Valid() && addr in pending
      requires debt >= olds
      modifies `debt, `pending, lookup, priced
      ensures Inv(rest, {}) && SameBut(pending, old(pending), addr)
      ensures
        var items, drop := old(pending)[addr].items, TooCostly(Balance(state, addr), currentMaxGas);
        && ItemsOf(pending, addr) == Scanned(true, items, drop)
        && lookup.all == old(lookup.all) - Selected(items, drop)
        && (forall t :: t in rest ==> t.from == addr)
        && (forall n :: (exists t :: t in rest && t.nonce == n) <==>
              n in items && !drop(items[n]) && n !in ItemsOf(pending, addr))
      ensures debt == old(debt) - olds
    {
      hide Agree, SetList, SameBut, Gone, Selected, Scanned, Tallied;
      var drop := TooCostly(Balance(state, addr), currentMaxGas);
      var l := pending[addr];
      var left := Filtered(l, Balance(state, addr), currentMaxGas);
      SoundPending(pending, queue, lookup.all, addr);
      FilteredIsBounded(l, Balance(state, addr), currentMaxGas);
      var gone, costly := Gone(l.items, left.items), Selected(l.items, drop);
      CostlyAreGone(l.items, drop, addr);
      ShrinkPendingAgrees(pending, queue, lookup.all, addr, left);
      SetOne(pending, addr, left);
      pending := SetList(pending, addr, left);
      ForgetAll(costly, gone, {});
      Tell(olds + |costly|, gone - costly);
      rest := gone - costly;
    }

    /** Sends a pending list with a gap in front back to the queue. */
    method RequeueGapped(addr: Address, now: int)
      requires Valid()
      modifies `pending, `queue, `beats, lookup, priced
      ensures Valid() && SameBut(pending, old(pending), addr) && SameBut(queue, old(queue), addr)
      ensures lookup.all == old(lookup.all)
      ensures
        var items := ItemsOf(old(pending), addr);
        && ItemsOf(pending, addr) == (if StateNonce(state, addr) in items then items else map[])
        && forall n :: n in ItemsOf(queue, addr) <==>
             n in ItemsOf(old(queue), addr) || (n in items && n !in ItemsOf(pending, addr))
    {
      hide Agree, SetList, SameBut, Gone, Tallied;
      SameButTrans(queue, queue, queue, addr);
      SameButTrans(pending, pending, pending, addr);
      if addr in pending && StateNonce(state, addr) !in pending[addr].items {
        var l := pending[addr];
        var rest := l.(items := map[]);
        SoundPending(pending, queue, lookup.all, addr);
        var gone := Gone(l.items, map[]);
        AllGone(l.items, addr);
        ShrinkPendingAgrees(pending, queue, lookup.all, addr, rest);
        SetOne(pending, addr, rest);
        pending := SetList(pending, addr, rest);
        EnqueueAll(addr, gone, now, {});
      }
    }

    /** Demotes or drops what one account can no longer execute. */
    method DemoteAccount(addr: Address, now: int)
      requires Valid()
      modifies `debt, `pending, `queue, `beats, lookup, priced
      ensures Valid() && SameBut(pending, old(pending), addr) && SameBut(queue, old(queue), addr)
      ensures lookup.all == old(lookup.all) - Unusable(state, currentMaxGas, ItemsOf(old(pending), addr))
      ensures Executable(ItemsOf(pending, addr), StateNonce(state, addr), Balance(state, addr), currentMaxGas)
      ensures Sub(ItemsOf(pending, addr), ItemsOf(old(pending), addr))
      ensures debt == old(debt)
    {
      hide Inv, Agree, SameBut, Unusable, Gone, Selected, Tallied;
      Agrees();
      UnusableInTwo(pending, queue, lookup.all, state, currentMaxGas, addr);
      var olds := DropStale(addr);
      ghost var pending1 := pending;
      FilterPending(addr, olds, now);
      SameButTrans(pending, pending1, old(pending), addr);
      ghost var pending2, queue2 := pending, queue;
      RequeueGapped(addr, now);
      SameButTrans(pending, pending2, old(pending), addr);
      SameButTrans(queue, queue2, old(queue), addr);
    }

    /**
     Demotes or drops what the accounts can no longer execute, after a new head.  Exactly the unusable pending
     transactions leave the pool; the others are still pending or go to the queue.
     */
    method DemoteUnexecutables(now: int)
      requires Valid()
      modifies `debt, `pending, `queue, `beats, lookup, priced
      ensures Valid()
      ensures lookup.all ==
                set t | t in old(lookup.all) && (InLists(old(pending), t) ==> Usable(state, currentMaxGas, t))
      ensures forall t :: InLists(old(pending), t) && Usable(state, currentMaxGas, t) ==>
                InLists(pending, t) || InLists(queue, t)
      ensures forall t :: InLists(old(queue), t) ==> InLists(queue, t)
      ensures forall a :: Sub(ItemsOf(pending, a), ItemsOf(old(pending), a))
      ensures forall a :: Executable(ItemsOf(pending, a), StateNonce(state, a), Balance(state, a), currentMaxGas)
      ensures debt == old(debt)
    {
      hide Inv, Agree, SameBut, Executable, Sub, Usable, Unusable, Demoted, Tallied;
      Agrees();
      var todo := pending.Keys;
      NothingDemoted(pending, state, currentMaxGas);
      while todo != {}
        invariant debt == old(debt)
        invariant Valid()
        invariant Demoted(old(pending), pending, state, currentMaxGas, todo)
        invariant forall t :: t in lookup.all <==>
                    && t in old(lookup.all)
                    && (InLists(old(pending), t) && t.from !in todo ==> Usable(state, currentMaxGas, t))
        decreases |todo|
      {
        var addr :| addr in todo;
        ghost var before := pending;
        DemoteAccount(addr, now);
        DemotedOne(old(pending), before, pending, state, currentMaxGas, todo, addr);
        UnusableOfOne(old(pending), old(queue), old(lookup.all), state, currentMaxGas, addr);
        todo := todo - {addr};
      }
      DemotedMeans(old(pending), pending, state, currentMaxGas);
      Agrees();
      StillListed(old(pending), old(queue), old(lookup.all), pending, queue, lookup.all);
    }

    /** Drops the pending transaction of `addr` with the highest nonce. */
    method DropHighestPending(addr: Address)
      requires Valid() && addr in pending && |pending[addr].items| > 1
      modifies `debt, `pending, lookup, priced, noncer`nonces
      ensures Valid() && (old(Gapless()) ==> Gapless())
      ensures Lens(pending) == Lens(old(pending))[addr := |old(pending)[addr].items| - 1]
      ensures SameBut(pending, old(pending), addr)
      ensures ItemsOf(pending, addr) == Lowest(old(pending)[addr].items, |old(pending)[addr].items| - 1)
      ensures lookup.all <= old(lookup.all)
      ensures debt == old(debt)
    {
      hide Agree, NoncesOk, Bounded, Virtual, SetList, Lens, Lowest, Gone, SameBut, Tallied;
      var l := pending[addr];
      var size := |l.items| - 1;
      var rest := l.(items := Lowest(l.items, size));
      SoundPending(pending, queue, lookup.all, addr);
      LowestIsSub(l, size);
      ShrinkPendingAgrees(pending, queue, lookup.all, addr, rest);
      ShrunkLens(pending, addr, size);
      SetOne(pending, addr, rest);
      var high := HighestOf(l.items);
      OneDropped(l.items, high);
      pending := SetList(pending, addr, rest);
      ForgetAll({l.items[high]}, {l.items[high]}, {});
      assert {l.items[high]} - {l.items[high]} == {};
      noncer.SetIfLower(addr, high);
      Tell(1, {});
      assert noncer.fallback == state;
      if old(Gapless()) {
        NoncesAfterCap(old(pending), queue, state, old(noncer.nonces), addr, high, noncer.nonces);
      }
    }

    /** Drops the highest pending transaction of each of the given accounts, which all have `c` of them. */
    method Shave(accounts: seq<Address>, ghost c: nat)
      requires Valid() && c > 1
      requires forall i, j :: 0 <= i < j < |accounts| ==> accounts[i] != accounts[j]
      requires forall i :: 0 <= i < |accounts| ==> accounts[i] in pending && Lens(pending)[accounts[i]] == c
      modifies `debt, `pending, lookup, priced, noncer`nonces
      ensures Valid() && (old(Gapless()) ==> Gapless()) && lookup.all <= old(lookup.all)
      ensures pending.Keys == old(pending).Keys && Lens(pending) == Shaved(Lens(old(pending)), accounts, c)
      ensures Total(Lens(pending)) == Total(Lens(old(pending))) - |accounts| && CutFrom(pending, old(pending))
      ensures debt == old(debt)
    {
      hide Inv, Gapless, SameBut, Lowest, Total, Shaved, Lens, CutFrom, ItemsOf, SumSlots;
      Uncut(pending);
      ghost var lens := Lens(pending);
      LensAt(pending);
      NoneShaved(lens, c);
      assert accounts[..0] == [];
      for i := 0 to |accounts|
        invariant debt == old(debt)
        invariant Valid() && (old(Gapless()) ==> Gapless()) && lookup.all <= old(lookup.all)
        invariant Lens(pending) == Shaved(lens, accounts[..i], c) && Total(Lens(pending)) == Total(lens) - i
        invariant CutFrom(pending, old(pending))
      {
        ShaveStep(lens, accounts, i, c);
        LensAt(pending);
        TotalUpdate(Lens(pending), accounts[i], c - 1);
        ghost var before := pending;
        ItemsAt(pending, accounts[i]);
        DropHighestPending(accounts[i]);
        CutOne(pending, before, old(pending), accounts[i], c - 1);
      }
      assert accounts[..|accounts|] == accounts;
      LensAt(pending);
      NoneShaved(lens, c);
    }

    /**
     Cuts the pending lists of remote accounts to a common level until all pending transactions fit, but no
     list below what every account is granted.  `level` is that level: one higher would still have been too much.
     */
    method TruncatePending() returns (ghost level: nat)
      requires Valid()
      modifies `debt, `pending, lookup, priced, noncer`nonces
      ensures Valid() && (old(Gapless()) ==> Gapless()) && lookup.all <= old(lookup.all)
      ensures level >= config.accountSlots
      ensures Lens(pending) == Fill(Lens(old(pending)), Spammers(old(pending), locals, config.accountSlots), level)
      ensures Total(Lens(pending)) <= config.globalSlots || level == config.accountSlots
                || Spammers(old(pending), locals, config.accountSlots) == {}
      ensures Lens(pending) != Lens(old(pending)) ==>
                var spammers := Spammers(old(pending), locals, config.accountSlots);
                Total(Lens(pending)) + |Above(Lens(old(pending)), spammers, level)| > config.globalSlots
      ensures CutFrom(pending, old(pending))
      ensures Total(Lens(old(pending))) <= config.globalSlots ==> pending == old(pending)
      ensures debt == old(debt)
    {
      hide Inv, Gapless, Total, Fill, Round, AboveOthers, Leveled, Lens, Spammers, CutFrom, Above;
      Uncut(pending);
      ConfigIsSane();
      var lens, spammers := Lens(pending), Spammers(pending, locals, config.accountSlots);
      ghost var s := spammers;
      var total := SumLengths(lens);
      level := StartLevel(lens, s, config.accountSlots, config.globalSlots);
      if total <= config.globalSlots {
        LevelMeans(lens, s, lens, level, config.accountSlots, config.globalSlots);
        return;
      }
      FirstRound(lens, s, level, config.accountSlots, locals, pending);
      var offenders;
      offenders, total, level := Equalize(lens, spammers, total, level);
      if total > config.globalSlots && |offenders| > 0 {
        LastRound(lens, s, offenders, level, config.accountSlots);
        LevelMeans(lens, s, Lens(pending), level, config.accountSlots, config.globalSlots);
        ghost var before := pending;
        total, level := LowerTo(offenders, config.accountSlots, total, lens, s, level);
        CutAgain(pending, before, old(pending));
      }
      LevelMeans(lens, s, Lens(pending), level, config.accountSlots, config.globalSlots);
    }

    /**
     Cuts the longest lists to the length of the next longest, one after the other, until all pending transactions fit.
     */
    method Equalize(lens: Lengths, s: set<Address>, total0: nat, ghost level0: nat)
      returns (offenders: seq<Address>, total: nat, ghost level: nat)
      requires Valid() && lens == Lens(pending) && total0 == Total(lens) && s <= lens.Keys
      requires Leveled(lens, s, lens, level0, config.accountSlots, config.globalSlots) && Round(lens, s, [], s, level0)
      requires 0 < config.accountSlots && forall a :: a in s ==> lens[a] > config.accountSlots
      modifies `debt, `pending, lookup, priced, noncer`nonces
      ensures Valid() && (old(Gapless()) ==> Gapless()) && lookup.all <= old(lookup.all)
      ensures total == Total(Lens(pending))
      ensures Leveled(lens, s, Lens(pending), level, config.accountSlots, config.globalSlots)
      ensures total > config.globalSlots ==> Round(lens, s, offenders, {}, level) && (offenders == [] ==> s == {})
      ensures CutFrom(pending, old(pending))
      ensures debt == old(debt)
    {
      hide Inv, Gapless, Total, Fill, Round, AboveOthers, Leveled, CutFrom;
      Uncut(pending);
      offenders, total, level := [], total0, level0;
      var spammers := s;
      while total > config.globalSlots && spammers != {}
        invariant debt == old(debt)
        invariant Valid() && (old(Gapless()) ==> Gapless()) && lookup.all <= old(lookup.all)
        invariant Leveled(lens, s, Lens(pending), level, config.accountSlots, config.globalSlots)
        invariant total == Total(Lens(pending)) && spammers <= s
        invariant total > config.globalSlots ==> Round(lens, s, offenders, spammers, level)
        invariant offenders == [] ==> Lens(pending) == lens && spammers == s
        invariant CutFrom(pending, old(pending))
        decreases |spammers|
      {
        var offender := PopLongest(lens, spammers);
        NextOffender(lens, s, offenders, spammers, level, offender);
        if |offenders| > 0 {
          ghost var before := pending;
          total, level := LowerTo(offenders, lens[offender], total, lens, s, level);
          CutAgain(pending, before, old(pending));
        } else {
          FirstLevel(lens, s, level, lens[offender], config.accountSlots, config.globalSlots);
          level := lens[offender];
        }
        spammers := spammers - {offender};
        offenders := offenders + [offender];
      }
    }

    /**
     Takes one transaction after another off all the given accounts until all pending ones fit or `floor` is reached.
     */
    method LowerTo(accounts: seq<Address>, floor: nat, total0: nat, ghost lens: Lengths, ghost s: set<Address>,
                   ghost c0: nat)
      returns (total: nat, ghost c: nat)
      requires Valid() && |accounts| > 0 && 0 < config.accountSlots <= floor <= c0 && total0 == Total(Lens(pending))
      requires Leveled(lens, s, Lens(pending), c0, config.accountSlots, config.globalSlots)
      requires AboveOthers(lens, s, accounts, c0, floor)
      modifies `debt, `pending, lookup, priced, noncer`nonces
      ensures Valid() && (old(Gapless()) ==> Gapless()) && lookup.all <= old(lookup.all)
      ensures total == Total(Lens(pending)) && floor <= c <= c0 && pending.Keys == old(pending).Keys
      ensures Leveled(lens, s, Lens(pending), c, config.accountSlots, config.globalSlots)
      ensures (total <= config.globalSlots || c == floor) && CutFrom(pending, old(pending))
      ensures debt == old(debt)
    {
      hide Inv, Gapless, Total, AboveOthers, Leveled, Shaved, CutFrom;
      Uncut(pending);
      total, c := total0, c0;
      var last := accounts[|accounts| - 1];
      AtLevel(lens, s, Lens(pending), c, config.accountSlots, config.globalSlots, accounts, floor);
      while total > config.globalSlots && |pending[last].items| > floor
        invariant debt == old(debt)
        invariant Valid() && (old(Gapless()) ==> Gapless()) && lookup.all <= old(lookup.all)
        invariant total == Total(Lens(pending)) && floor <= c <= c0 && pending.Keys == old(pending).Keys
        invariant Leveled(lens, s, Lens(pending), c, config.accountSlots, config.globalSlots)
        invariant AboveOthers(lens, s, accounts, c, floor)
        invariant last in pending && Lens(pending)[last] == c && CutFrom(pending, old(pending))
        decreases c
      {
        PassLowersLevel(lens, s, Lens(pending), c, config.accountSlots, config.globalSlots, accounts, floor);
        ghost var before := pending;
        Shave(accounts, c);
        CutAgain(pending, before, old(pending));
        total := total - |accounts|;
        c := c - 1;
        AtLevel(lens, s, Lens(pending), c, config.accountSlots, config.globalSlots, accounts, floor);
      }
    }

    /** Removes the `count` queued transactions of `addr` with the highest nonces. */
    method DropQueued(addr: Address, count: nat, now: int)
      requires Valid() && count <= |ItemsOf(queue, addr)|
      modifies `debt, `pending, `queue, `beats, lookup, priced, noncer`nonces
      ensures Valid() && (old(Gapless()) ==> Gapless())
      ensures pending == old(pending) && SameBut(queue, old(queue), addr) && lookup.all <= old(lookup.all)
      ensures ItemsOf(queue, addr) == Lowest(ItemsOf(old(queue), addr), |ItemsOf(old(queue), addr)| - count)
      ensures Total(Lens(queue)) == Total(Lens(old(queue))) - count
      ensures Deferred(old(priced.items), old(priced.stales), priced.items, priced.stales, count)
      ensures debt == old(debt)
    {
      hide Inv, Gapless, Lowest, SetList, SameBut, Total, Lens, Removed, InLists;
      ghost var items := ItemsOf(queue, addr);
      AllLowest(items, |items|);
      SameButTrans(queue, queue, queue, addr);
      for i := 0 to count
        invariant debt == old(debt)
        invariant Valid() && (old(Gapless()) ==> Gapless())
        invariant pending == old(pending) && SameBut(queue, old(queue), addr) && lookup.all <= old(lookup.all)
        invariant ItemsOf(queue, addr) == Lowest(items, |items| - i)
        invariant Total(Lens(queue)) == Total(Lens(old(queue))) - i
        invariant Deferred(old(priced.items), old(priced.stales), priced.items, priced.stales, i)
      {
        LowestSize(items, |items| - i);
        ghost var before := queue;
        SoundQueueHere(addr);
        var high := HighestOf(queue[addr].items);
        LowestAgain(items, |items| - i, high);
        DequeuedOne(queue, addr, high);
        RemoveTx(queue[addr].items[high], true, now, {});
        assert {} - {before[addr].items[high]} == {};
        SameButTrans(queue, before, old(queue), addr);
      }
    }

    lemma SoundQueueHere(addr: Address)
      requires Valid() && addr in queue
      ensures ListOk(queue[addr], addr, false) && queue[addr].items != map[]
    {
    }

    /**
     Brings the queue down to its limit by removing transactions of remote accounts, those with the latest
     heartbeat first.
     */
    method TruncateQueue(now: int)
      requires Valid()
      modifies `debt, `pending, `queue, `beats, lookup, priced, noncer`nonces
      ensures Valid() && (old(Gapless()) ==> Gapless())
      ensures pending == old(pending) && lookup.all <= old(lookup.all)
      ensures Total(Lens(old(queue))) <= config.globalQueue ==> queue == old(queue)
      ensures Total(Lens(old(queue))) > config.globalQueue ==>
                Total(Lens(queue)) >= config.globalQueue
                && (Total(Lens(queue)) == config.globalQueue || forall a :: a in queue ==> a in locals)
      ensures forall a :: a in locals ==> ItemsOf(queue, a) == ItemsOf(old(queue), a)
      ensures forall a, b :: b in old(queue) - locals && LaterBeat(old(beats), a, b) ==>
                ItemsOf(queue, a) == ItemsOf(old(queue), a) || b !in queue
      ensures CutFrom(queue, old(queue))
      ensures debt == old(debt)
    {
      hide Inv, Gapless, Total, Lens, Lowest, SameBut, Cutting, LaterBeat, ItemsOf, SumSlots, CutFrom;
      EmptyListsLeave();
      Uncut(queue);
      var queued := SumLengths(Lens(queue));
      if queued <= config.globalQueue {
        return;
      }
      var order := ByHeartbeat((set a | a in queue && a !in locals), beats);
      var drop: nat := queued - config.globalQueue;
      var k: nat := |order|;
      NothingCut(order, queue, drop);
      while drop > 0 && k > 0
        invariant debt == old(debt)
        invariant 0 <= k <= |order|
        invariant Valid() && (old(Gapless()) ==> Gapless())
        invariant pending == old(pending) && lookup.all <= old(lookup.all)
        invariant Total(Lens(queue)) == config.globalQueue + drop
        invariant Cutting(order, k, old(queue), queue, drop) && CutFrom(queue, old(queue))
      {
        k := k - 1;
        drop := CutNext(order, k, drop, now, old(queue));
      }
      LatestWentFirst(order, k, old(queue), queue, locals, old(beats), drop);
    }

    /** Removes up to `drop0` transactions of the account at position `k`. */
    method CutNext(order: seq<Address>, k: nat, drop0: nat, now: int, ghost queue0: Lists) returns (drop: nat)
      requires Valid() && k < |order| && drop0 > 0
      requires Cutting(order, k + 1, queue0, queue, drop0) && CutFrom(queue, queue0)
      modifies `debt, `pending, `queue, `beats, lookup, priced, noncer`nonces
      ensures Valid() && (old(Gapless()) ==> Gapless())
      ensures pending == old(pending) && lookup.all <= old(lookup.all)
      ensures drop <= drop0 && Total(Lens(queue)) == Total(Lens(old(queue))) - (drop0 - drop)
      ensures Cutting(order, k, queue0, queue, drop) && CutFrom(queue, queue0)
      ensures debt == old(debt)
    {
      hide Inv, Gapless, Total, Lens, Lowest, SameBut, Cutting, CutFrom, ItemsOf, SumSlots, Least;
      var addr := order[k];
      NextCut(order, k, queue0, queue, drop0);
      var size := |queue[addr].items|;
      var count := Least(size, drop0);
      ghost var before := queue;
      DropQueued(addr, count, now);
      EmptyListsLeave();
      CutStep(order, k, queue0, before, queue, drop0, count);
      CutOne(queue, before, queue0, addr, size - count);
      drop := drop0 - count;
    }

    lemma EmptyListsLeave()
      requires Valid()
      ensures forall a :: a in queue <==> ItemsOf(queue, a) != map[]
    {
    }

    /**
     Adds a batch of transactions, each to what the ones before it have left; accounts that gained one without replacing
     another are dirty.  If adding one panics, the rest is not tried.
     */
    method AddTxs(txs: seq<Tx>, local: bool, now: int)
      returns (errs: seq<Option<Error>>, dirty: set<Address>, crashed: bool, ghost log: seq<Outcome>)
      requires Valid()
      modifies `debt, `pending, `queue, `beats, `locals, lookup, priced, noncer`nonces
      ensures Valid() && (old(Gapless()) ==> Gapless())
      ensures Batch(Law(), old(Now()), txs, local, log) && (crashed <==> |log| < |txs|)
      ensures !crashed ==> Now() == End(old(Now()), log)
      ensures crashed ==> Panicked(Law(), End(old(Now()), log), txs[|log|], local, Now())
      ensures Recorded(errs, log) && forall a :: a in dirty <==> Dirtied(txs, log, a)
      ensures old(locals) != {} || (OneSlotEach(old(lookup.all)) && OneSlotEach(Members(txs))) ==> !crashed
      ensures old(KeepsLimits()) ==> KeepsLimits()
      ensures OnlyReplaces(old(pending), pending, Members(txs))
      ensures debt == old(debt)
    {
      hide Inv, Gapless, Handled, Batch, Dirtied, Recorded, OneSlotEach, SumSlots, NumSlots, Full, Joined, Refusal,
           Panicked, OnlyReplaces, AllDecent, Remote, Sound;
      NothingReplaced(pending, Members(txs));
      HeapIsSound();
      ConfigIsSane();
      NoneDirtied(Law(), Now(), txs, local);
      errs, dirty, crashed, log := [], {}, false, [];
      while |errs| < |txs|
        invariant debt == old(debt)
        invariant |errs| == |log| <= |txs| && Valid() && (old(Gapless()) ==> Gapless())
        invariant Batch(Law(), old(Now()), txs, local, log) && Now() == End(old(Now()), log)
        invariant Recorded(errs, log) && forall a :: a in dirty <==> Dirtied(txs, log, a)
        invariant OnlyReplaces(old(pending), pending, Members(txs)) && (old(KeepsLimits()) ==> KeepsLimits())
        decreases |txs| - |errs|
      {
        var tx := txs[|errs|];
        ghost var before := Now();
        SlotsAreCounted();
        BatchIsSmall(Law(), old(Now()), txs, local, log);
        ghost var evicted;
        var replaced, err;
        ghost var pending1 := pending;
        replaced, err, evicted := Add(tx, local, now);
        OneOfMany(old(pending), pending1, pending, txs, |errs|);
        ghost var o := Outcome(err, replaced, evicted, Now());
        if err == Some(CapacityPanic) {
          PanicLeaves(Law(), before, tx, local, o);
          crashed := true;
          return;
        }
        if err == None && !replaced {
          dirty := dirty + {tx.from};
        }
        BatchMore(Law(), old(Now()), txs, local, log, o);
        OneMoreRecorded(txs, errs, log, o);
        errs, log := errs + [err], log + [o];
      }
    }

    lemma SlotsAreCounted()
      requires Valid()
      ensures lookup.slots == SumSlots(lookup.all) && Sane(config)
    {
    }

    /**
     Moves the pool to another chain state, unless that cannot be read, and puts transactions of abandoned blocks back
     in.
     */
    method Reset(change: HeadChange, now: int) returns (crashed: bool, ghost log: seq<Outcome>)
      requires Valid()
      modifies `debt, `state, `currentMaxGas, `pending, `queue, `beats, `locals, lookup, priced, noncer
      ensures Valid() && locals == old(locals)
      ensures change.Unreadable? ==>
                && !crashed && log == [] && Law() == old(Law()) && Now() == old(Now())
                   && noncer.nonces == old(noncer.nonces)
                && pending == old(pending) && queue == old(queue)
      ensures change.HeadChange? ==> Law() == old(Law()).(state := change.state, maxGas := change.maxGas)
      ensures Batch(Law(), old(Now()), Reinjected(change), false, log) && (crashed <==> |log| < |Reinjected(change)|)
      ensures !crashed ==> Now() == End(old(Now()), log)
      ensures crashed ==> Panicked(Law(), End(old(Now()), log), Reinjected(change)[|log|], false, Now())
      ensures old(locals) != {} || (OneSlotEach(old(lookup.all)) && OneSlotEach(Members(Reinjected(change)))) ==>
                !crashed
      ensures old(KeepsLimits()) ==> KeepsLimits()
      ensures OnlyReplaces(old(pending), pending, Members(Reinjected(change)))
      ensures debt == old(debt)
    {
      hide OnlyReplaces, KeepsLimits, Agree, Batch, Handled, Dirtied, Recorded, OneSlotEach, SumSlots, NumSlots,
           Panicked, Tallied;
      NoneDirtied(Law(), Now(), [], false);
      NothingReplaced(pending, Members(Reinjected(change)));
      crashed, log := false, [];
      if change.Unreadable? {
        return;
      }
      state := change.state;
      noncer.Reset(change.state);
      currentMaxGas := change.maxGas;
      var errs, dirty;
      errs, dirty, crashed, log := AddTxs(change.reinject, false, now);
      BatchKeeps(Law(), old(Now()), change.reinject, false, log);
      if crashed {
        PanickedMeans(Law(), End(old(Now()), log), change.reinject[|log|], false, Now());
      }
    }

    lemma DebtIsSettled()
      requires Valid()
      ensures debt >= 0
    {
    }

    lemma Agrees()
      requires Valid()
      ensures Agree(pending, true, queue, false, lookup.all, {})
    {
    }

    /** Brings the noncer up to the end of every pending list. */
    method RefreshNonces()
      requires Valid()
      modifies noncer`nonces
      ensures Valid() && (old(Gapless()) ==> Gapless())
      ensures forall a :: a in pending ==> NextAfterAll(pending[a].items, Virtual(noncer.nonces, state, a))
    {
      hide Agree, Virtual, NextAfterAll, Tallied;
      var todo := pending.Keys;
      while todo != {}
        invariant todo <= pending.Keys && Inv({}, {}) && (old(Gapless()) ==> Gapless())
        invariant forall a :: a in pending && a !in todo ==>
                    NextAfterAll(pending[a].items, Virtual(noncer.nonces, state, a))
        decreases |todo|
      {
        var addr :| addr in todo;
        SoundPending(pending, queue, lookup.all, addr);
        var high := HighestOf(pending[addr].items);
        PastHighest(pending[addr].items, high);
        ghost var nonces := noncer.nonces;
        noncer.Set(addr, high + 1);
        assert noncer.fallback == state;
        NoncesAfterRefresh(pending, queue, state, nonces, addr, high, noncer.nonces);
        todo := todo - {addr};
      }
    }

    /** The accounts of a set, one after the other. */
    method Flattened(members: set<Address>) returns (accounts: seq<Address>)
      ensures Distinct(accounts) && forall a :: a in accounts <==> a in members
    {
      accounts := [];
      var todo := members;
      while todo != {}
        invariant todo <= members && Distinct(accounts) && forall a :: a in accounts <==> a in members && a !in todo
        decreases |todo|
      {
        var a :| a in todo;
        accounts := accounts + [a];
        todo := todo - {a};
      }
    }

    /**
     One maintenance run: move to a new head if there is one, promote, demote, and enforce all limits.  Of a local
     account, and of any account within the limits, exactly the transactions leave that are looked at and not usable.
     */
    method RunReorg(reset: Option<HeadChange>, dirty: set<Address>, now: int)
      returns (promoted: seq<Tx>, crashed: bool, ghost log: seq<Outcome>, ghost first: Lists, ghost ready: Lists)
      requires Valid()
      modifies `debt, `state, `currentMaxGas, `pending, `queue, `beats, `locals, lookup, priced, noncer
      ensures Valid() && (reset.None? && old(Gapless()) ==> Gapless())
      ensures Law() == LawAfter(old(Law()), reset) && locals == old(locals)
      ensures Batch(Law(), old(Now()), Returned(reset), false, log) && (crashed <==> |log| < |Returned(reset)|)
      ensures crashed ==> Panicked(Law(), End(old(Now()), log), Returned(reset)[|log|], false, Now())
      ensures old(locals) != {} || (OneSlotEach(old(lookup.all)) && OneSlotEach(Members(Returned(reset)))) ==> !crashed
      ensures !crashed ==>
                lookup.all <= End(old(Now()), log).all && (reset.Some? ==> AllUsable(state, currentMaxGas, lookup.all))
      ensures !crashed && reset.None? ==>
                var all := old(lookup.all);
                forall t | t in all && SparedNow(config, locals, t.from, all, old(queue), false) ::
                  t in lookup.all <==> !(InLists(old(queue), t) && t.from in dirty && !Usable(state, currentMaxGas, t))
      ensures !crashed && reset.Some? ==>
                var all := End(old(Now()), log).all;
                forall t | t in all && Spared(config, locals, t.from, all) ::
                  t in lookup.all <==> Usable(state, currentMaxGas, t)
      ensures reset.None? ==>
                forall a :: |ItemsOf(pending, a)| >= Least(|ItemsOf(old(pending), a)|, config.accountSlots)
      ensures !crashed ==> forall a :: a in pending ==> NextAfterAll(pending[a].items, Virtual(noncer.nonces, state, a))
      ensures !crashed ==> Total(Lens(queue)) <= config.globalQueue || forall a :: a in queue ==> a in locals
      ensures !crashed ==>
                || Total(Lens(pending)) <= config.globalSlots
                || forall a :: a in pending && a !in locals ==> |pending[a].items| <= config.accountSlots
      ensures !crashed && reset.Some? ==>
                forall a :: Executable(ItemsOf(pending, a), StateNonce(state, a), Balance(state, a), currentMaxGas)
      ensures old(KeepsLimits()) ==> KeepsLimits()
      ensures Announces(promoted, first, ready) && forall a :: Sub(ItemsOf(pending, a), ItemsOf(ready, a))
      ensures OnlyReplaces(old(pending), first, Members(Returned(reset))) && (reset.None? ==> first == old(pending))
      ensures reset.None? ==>
                forall a | a in locals || |old(lookup.all)| <= config.globalSlots ::
                  ItemsOf(pending, a) == ItemsOf(ready, a)
      ensures forall t :: InLists(pending, t) ==>
                || InLists(old(pending), t) || t in promoted
                || (t in Returned(reset) && Occupied(old(pending), t.from, t.nonce))
      ensures debt == old(debt)
    {
      hide Inv, Gapless, Virtual, Total, Lens, NextAfterAll, Executable, OneSlotEach, SumSlots, NumSlots, Batch,
           Handled, Panicked, Usable, AllUsable, Spared, SparedNow, Announces, Sub, OnlyReplaces, AllDecent, Remote;
      crashed, log, first, ready := false, [], pending, pending;
      NothingAnnounced(pending);
      NothingReplaced(pending, Members(Returned(reset)));
      NoneDirtied(Law(), Now(), [], false);
      if reset.None? {
        promoted, ready := Update(dirty, false, now);
        NewOnesAreAnnounced(old(pending), first, ready, pending, Members(Returned(reset)), promoted);
        FewerKeepLimits(gasPrice, locals, old(lookup.all), gasPrice, lookup.all);
        return;
      }
      crashed, log := Reset(reset.value, now);
      first, ready := pending, pending;
      ghost var all := lookup.all;
      NothingAnnounced(pending);
      SubOfItself(pending);
      if crashed {
        NewOnesAreAnnounced(old(pending), first, ready, pending, Members(Returned(reset)), []);
        return [], true, log, first, ready;
      }
      Agrees();
      SparedInLists(config, locals, pending, queue, lookup.all);
      promoted, ready := Update(queue.Keys, true, now);
      NewOnesAreAnnounced(old(pending), first, ready, pending, Members(Returned(reset)), promoted);
      FewerKeepLimits(gasPrice, locals, all, gasPrice, lookup.all);
    }

    /** Promotes what is ready of the given accounts, demotes if asked to, and enforces all limits. */
    method Update(addrs: set<Address>, demote: bool, now: int) returns (promoted: seq<Tx>, ghost ready: Lists)
      requires Valid() && (demote ==> addrs == queue.Keys)
      modifies `debt, `pending, `queue, `beats, lookup, priced, noncer`nonces
      ensures Valid() && (!demote && old(Gapless()) ==> Gapless())
      ensures lookup.all <= old(lookup.all) && (demote ==> AllUsable(state, currentMaxGas, lookup.all))
      ensures var all := old(lookup.all);
              forall t | t in all && SparedNow(config, locals, t.from, all, old(queue), demote) ::
                t in lookup.all <==>
                !((demote || (InLists(old(queue), t) && t.from in addrs)) && !Usable(state, currentMaxGas, t))
      ensures !demote ==> forall a :: |ItemsOf(pending, a)| >= Least(|ItemsOf(old(pending), a)|, config.accountSlots)
      ensures forall a :: a in pending ==> NextAfterAll(pending[a].items, Virtual(noncer.nonces, state, a))
      ensures Total(Lens(queue)) <= config.globalQueue || forall a :: a in queue ==> a in locals
      ensures Total(Lens(pending)) <= config.globalSlots
                || forall a :: a in pending && a !in locals ==> |pending[a].items| <= config.accountSlots
      ensures demote ==>
                forall a :: Executable(ItemsOf(pending, a), StateNonce(state, a), Balance(state, a), currentMaxGas)
      ensures Announces(promoted, old(pending), ready) && forall a :: Sub(ItemsOf(pending, a), ItemsOf(ready, a))
      ensures !demote ==>
                forall a | a in locals || |old(lookup.all)| <= config.globalSlots ::
                  ItemsOf(pending, a) == ItemsOf(ready, a)
      ensures debt == old(debt)
    {
      hide Inv, Agree, Gapless, Virtual, Total, Lens, Fill, Above, Spammers, CutFrom, NextAfterAll, Executable, Usable,
           SparedNow, ItemsOf, InLists, Sub, Announces, Tallied;
      promoted, ready := Shift(addrs, demote, now);
      Agrees();
      ghost var pending1, queue1, all1 := pending, queue, lookup.all;
      ghost var level := Enforce(now, demote);
      Agrees();
      CutOfSub(pending, pending1, ready);
      PendingAreFew(pending1, queue1, all1, old(lookup.all));
      forall t | t in old(lookup.all) && SparedNow(config, locals, t.from, old(lookup.all), old(queue), demote)
        ensures NotTooLong(t.from, old(queue))
        ensures t in lookup.all <==> t in all1
      {
        SparedMeans(config, locals, t.from, old(lookup.all), old(queue), demote, pending1, queue1, all1);
        SameListsKeep(pending1, queue1, all1, pending, queue, lookup.all, t);
      }
    }

    /** An account is local, or its queue is within the limit. */
    ghost predicate NotTooLong(a: Address, queue0: Lists)
      reads `locals
    {
      a in locals || |ItemsOf(queue0, a)| <= config.accountQueue
    }

    /** Promotes what is ready of the given accounts, and demotes if asked to. */
    method Shift(addrs: set<Address>, demote: bool, now: int) returns (promoted: seq<Tx>, ghost ready: Lists)
      requires Valid() && (demote ==> addrs == queue.Keys)
      modifies `debt, `pending, `queue, `beats, lookup, priced, noncer`nonces
      ensures Valid() && (!demote && old(Gapless()) ==> Gapless())
      ensures lookup.all <= old(lookup.all) && (demote ==> AllUsable(state, currentMaxGas, lookup.all))
      ensures forall t | t in old(lookup.all) && NotTooLong(t.from, old(queue)) ::
                t in lookup.all <==>
                !((demote || (InLists(old(queue), t) && t.from in addrs)) && !Usable(state, currentMaxGas, t))
      ensures !demote ==> Total(Lens(queue)) <= Total(Lens(old(queue)))
      ensures !demote ==> forall a :: |ItemsOf(pending, a)| >= |ItemsOf(old(pending), a)|
      ensures demote ==>
                forall a :: Executable(ItemsOf(pending, a), StateNonce(state, a), Balance(state, a), currentMaxGas)
      ensures Announces(promoted, old(pending), ready) && (!demote ==> pending == ready)
      ensures forall a :: Sub(ItemsOf(pending, a), ItemsOf(ready, a))
      ensures debt == old(debt)
    {
      hide Inv, Agree, Gapless, Virtual, Total, Lens, Executable, Usable, AllUsable, Promoted, InLists, Separate,
           ItemsOf, Sub, NextFree, Announces, Tallied;
      Agrees();
      var accounts := Flattened(addrs);
      promoted := PromoteExecutables(accounts, now);
      ready := pending;
      SubOfItself(pending);
      Agrees();
      ghost var pending1, queue1, all1 := pending, queue, lookup.all;
      forall t | t in old(lookup.all) && NotTooLong(t.from, old(queue))
        ensures t in all1 <==> !(InLists(old(queue), t) && t.from in addrs && !Usable(state, currentMaxGas, t))
      {
        PromotedKeeps(old(pending), old(queue), old(lookup.all), pending, queue, all1, state, currentMaxGas, t,
                      t.from in accounts, Virtual(old(noncer.nonces), state, t.from), QueueLimit(t.from));
      }
      forall t | InLists(queue, t)
        ensures InLists(old(queue), t) && t.from in old(queue) && (t.from in addrs ==> Usable(state, currentMaxGas, t))
      {
        PromotedUsable(old(pending), old(queue), old(lookup.all), pending, queue, state, currentMaxGas, t,
                       t.from in accounts, Virtual(old(noncer.nonces), state, t.from), QueueLimit(t.from));
      }
      forall a
        ensures |ItemsOf(pending, a)| >= |ItemsOf(old(pending), a)|
      {
        PromotedGrows(old(pending), old(queue), pending, queue, state, currentMaxGas, a, a in accounts,
                      Virtual(old(noncer.nonces), state, a), QueueLimit(a));
      }
      FewerListed(old(pending), old(queue), old(lookup.all), pending, queue, all1);
      if demote {
        DemoteUnexecutables(now);
        UsableAfterAll(pending1, queue1, all1, lookup.all, state, currentMaxGas);
      }
    }

    /** Enforces the limits and brings the noncer up to date; lists that were executable stay so. */
    method Enforce(now: int, ghost executable: bool) returns (ghost level: nat)
      requires Valid()
      requires executable ==>
                 forall a :: Executable(ItemsOf(pending, a), StateNonce(state, a), Balance(state, a), currentMaxGas)
      modifies `debt, `pending, `queue, `beats, lookup, priced, noncer`nonces
      ensures Valid() && (old(Gapless()) ==> Gapless()) && lookup.all <= old(lookup.all)
      ensures level >= config.accountSlots
      ensures Lens(pending) == Fill(Lens(old(pending)), Spammers(old(pending), locals, config.accountSlots), level)
      ensures Lens(pending) != Lens(old(pending)) ==>
                var spammers := Spammers(old(pending), locals, config.accountSlots);
                Total(Lens(pending)) + |Above(Lens(old(pending)), spammers, level)| > config.globalSlots
      ensures Total(Lens(old(queue))) > config.globalQueue ==> Total(Lens(queue)) >= config.globalQueue
      ensures CutFrom(pending, old(pending)) && CutFrom(queue, old(queue))
      ensures forall a :: |ItemsOf(pending, a)| >= Least(|ItemsOf(old(pending), a)|, config.accountSlots)
      ensures forall a :: a in locals || Total(Lens(old(pending))) <= config.globalSlots ==>
                ItemsOf(pending, a) == ItemsOf(old(pending), a)
      ensures forall a :: a in locals || Total(Lens(old(queue))) <= config.globalQueue ==>
                ItemsOf(queue, a) == ItemsOf(old(queue), a)
      ensures forall a :: a in pending ==> NextAfterAll(pending[a].items, Virtual(noncer.nonces, state, a))
      ensures Total(Lens(queue)) <= config.globalQueue || forall a :: a in queue ==> a in locals
      ensures Total(Lens(pending)) <= config.globalSlots
                || forall a :: a in pending && a !in locals ==> |pending[a].items| <= config.accountSlots
      ensures executable ==>
                forall a :: Executable(ItemsOf(pending, a), StateNonce(state, a), Balance(state, a), currentMaxGas)
      ensures debt == old(debt)
    {
      hide Inv, Gapless, Virtual, Total, Lens, Fill, Above, Spammers, NextAfterAll, Executable, LaterBeat, CutFrom,
           SumSlots, NumSlots;
      ghost var before := pending;
      level := TruncatePending();
      LevelBinds(before, pending, locals, config.accountSlots, level);
      LocalsAreNotCut(before, pending, locals, config.accountSlots, level);
      SlotsAreGranted(before, pending, locals, config.accountSlots, level);
      TruncateQueue(now);
      RefreshNonces();
      if executable {
        forall a
          ensures Executable(ItemsOf(pending, a), StateNonce(state, a), Balance(state, a), currentMaxGas)
        {
          CutStaysExecutable(before, pending, a, StateNonce(state, a), Balance(state, a), currentMaxGas);
        }
      }
    }

    /** Removes the queued transactions of remote accounts that have been inactive for longer than `lifetime`. */
    method EvictInactive(lifetime: int, now: int)
      requires Valid()
      modifies `debt, `pending, `queue, `beats, lookup, priced, noncer`nonces
      ensures Valid() && (old(Gapless()) ==> Gapless())
      ensures pending == old(pending) && lookup.all <= old(lookup.all)
      ensures forall a :: ItemsOf(queue, a) ==
                if a in old(queue) && a !in locals && now - Beat(old(beats), a) > lifetime then map[]
                else ItemsOf(old(queue), a)
      ensures forall t :: t in lookup.all <==>
                && t in old(lookup.all)
                && !(InLists(old(queue), t) && t.from !in locals && now - Beat(old(beats), t.from) > lifetime)
      ensures Deferred(old(priced.items), old(priced.stales), priced.items, priced.stales,
                |old(lookup.all)| - |lookup.all|)
      ensures old(KeepsLimits()) ==> KeepsLimits()
      ensures debt == old(debt)
    {
      hide Inv, Agree, Gapless, Total, Lens, Lowest, SameBut, Beat, Tallied;
      Agrees();
      var victims := set a | a in queue && a !in locals && now - Beat(beats, a) > lifetime;
      EmptyQueues(victims, now);
      Agrees();
      FewerKeepLimits(gasPrice, locals, old(lookup.all), gasPrice, lookup.all);
      WhoseQueueWent(pending, old(queue), old(lookup.all), queue, lookup.all, victims);
    }

    /** Removes all queued transactions of the given accounts. */
    method EmptyQueues(victims: set<Address>, now: int)
      requires Valid()
      modifies `debt, `pending, `queue, `beats, lookup, priced, noncer`nonces
      ensures Valid() && (old(Gapless()) ==> Gapless())
      ensures pending == old(pending) && lookup.all <= old(lookup.all)
      ensures forall a :: ItemsOf(queue, a) == if a in victims then map[] else ItemsOf(old(queue), a)
      ensures Deferred(old(priced.items), old(priced.stales), priced.items, priced.stales,
                Total(Lens(old(queue))) - Total(Lens(queue)))
      ensures debt == old(debt)
    {
      hide Inv, Gapless, Total, Lens, Lowest, SameBut, ItemsOf, Deferred;
      NoneDeferred(priced.items, priced.stales);
      var todo := victims;
      while todo != {}
        invariant debt == old(debt)
        invariant todo <= victims && Valid() && (old(Gapless()) ==> Gapless())
        invariant pending == old(pending) && lookup.all <= old(lookup.all)
        invariant forall a :: ItemsOf(queue, a) == if a in victims && a !in todo then map[] else ItemsOf(old(queue), a)
        invariant Total(Lens(queue)) <= Total(Lens(old(queue)))
        invariant Deferred(old(priced.items), old(priced.stales), priced.items, priced.stales,
                    Total(Lens(old(queue))) - Total(Lens(queue)))
        decreases |todo|
      {
        var addr :| addr in todo;
        ghost var before, items1, stales1, gone := queue, priced.items, priced.stales, Total(Lens(queue));
        DropQueued(addr, |ItemsOf(queue, addr)|, now);
        DeferredMore(old(priced.items), old(priced.stales), items1, stales1, priced.items, priced.stales,
                     Total(Lens(old(queue))) - gone, gone - Total(Lens(queue)));
        SameElsewhere(queue, before, addr);
        NoneLowest(ItemsOf(before, addr));
        todo := todo - {addr};
      }
    }

    /**
     Any run of pool steps keeps all five structures in agreement, and without a change of the chain head also
     the pending lists gapless.  Every transaction stays usable, and one of a local account stays in the pool unless
     it is outbid or a new head makes it unusable.
     */
    method Run(steps: seq<Step>) returns (done: nat)
      requires Valid()
      modifies `debt, `gasPrice, `state, `currentMaxGas, `pending, `queue, `beats, `locals, lookup, priced, noncer
      ensures Valid()
      ensures old(Gapless()) && (forall i :: 0 <= i < |steps| ==> !ChangesHead(steps[i])) ==> Gapless()
      ensures done <= |steps|
      ensures done < |steps| ==> exists tx :: tx in Submitted(steps[done]) && Overdrawn(config, Now(), tx)
      ensures old(locals) != {} ==> done == |steps|
      ensures OneSlotEach(old(lookup.all)) && (forall i :: 0 <= i < |steps| ==> OneSlotEach(Submitted(steps[i]))) ==>
                done == |steps|
      ensures done == |steps| && old(AllUsable(state, currentMaxGas, lookup.all)) ==>
                AllUsable(state, currentMaxGas, lookup.all)
      ensures forall t :: t in old(lookup.all) && t.from in old(locals) && Usable(old(state), old(currentMaxGas), t) ==>
                t in lookup.all || exists i :: 0 <= i < |steps| && Displaced(steps[i], t, config.priceBump)
      ensures old(KeepsLimits()) ==> KeepsLimits()
      ensures debt == old(debt)
    {
      hide Inv, Gapless, OneSlotEach, Submitted, Overdrawn, AllUsable, Usable, Displaced, KeepsLimits;
      done := 0;
      while done < |steps|
        invariant debt == old(debt)
        invariant done <= |steps| && Valid() && old(locals) <= locals && (old(KeepsLimits()) ==> KeepsLimits())
        invariant old(Gapless()) && (forall k :: 0 <= k < done ==> !ChangesHead(steps[k])) ==> Gapless()
        invariant OneSlotEach(old(lookup.all)) && (forall k :: 0 <= k < done ==> OneSlotEach(Submitted(steps[k]))) ==>
                    OneSlotEach(lookup.all)
        invariant old(AllUsable(state, currentMaxGas, lookup.all)) ==> AllUsable(state, currentMaxGas, lookup.all)
        invariant forall t | t in old(lookup.all) && t.from in old(locals) && old(Usable(state, currentMaxGas, t)) ::
                    || (t in lookup.all && Usable(state, currentMaxGas, t))
                    || exists i :: 0 <= i < done && Displaced(steps[i], t, config.priceBump)
      {
        var crashed := Take(steps[done]);
        if crashed {
          return;
        }
        done := done + 1;
      }
    }

    /**
     One step; it panics only if it adds a transaction that more slots must be freed for than the heap has entries.
     */
    method Take(step: Step) returns (crashed: bool)
      requires Valid()
      modifies `debt, `gasPrice, `state, `currentMaxGas, `pending, `queue, `beats, `locals, lookup, priced, noncer
      ensures Valid() && old(locals) <= locals
      ensures old(Gapless()) && !ChangesHead(step) ==> Gapless()
      ensures crashed ==> exists tx :: tx in Submitted(step) && Overdrawn(config, Now(), tx)
      ensures old(locals) != {} || (OneSlotEach(old(lookup.all)) && OneSlotEach(Submitted(step))) ==> !crashed
      ensures lookup.all <= old(lookup.all) + Submitted(step)
      ensures OneSlotEach(old(lookup.all)) && OneSlotEach(Submitted(step)) ==> OneSlotEach(lookup.all)
      ensures !crashed && (ChangesHead(step) || old(AllUsable(state, currentMaxGas, lookup.all))) ==>
                AllUsable(state, currentMaxGas, lookup.all)
      ensures forall t :: t in old(lookup.all) && t.from in old(locals) && Usable(old(state), old(currentMaxGas), t) ==>
                (t in lookup.all && Usable(state, currentMaxGas, t)) || Displaced(step, t, config.priceBump)
      ensures old(KeepsLimits()) ==> KeepsLimits()
      ensures debt == old(debt)
    {
      hide Inv, Gapless, Handled, Batch, Dirtied, Recorded, SumSlots, NumSlots, Refusal, Joined, Usable, AllUsable,
           OutbidBy, OneSlotEach, Overdrawn, KeepsLimits;
      crashed := false;
      match step {
        case AddTx(tx, local, now) => crashed := TakeOne(tx, local, now);
        case AddBatch(txs, local, now) => crashed := TakeBatch(txs, local, now);
        case NewGasPrice(price, now) => SetGasPrice(price, now);
        case Maintain(reset, dirty, now) => crashed := TakeReorg(reset, dirty, now);
        case Evict(lifetime, now) => EvictInactive(lifetime, now);
      }
      FewOrSmall(lookup.all, old(lookup.all), Submitted(step));
      UsableFewer(state, currentMaxGas, old(lookup.all), lookup.all);
    }

    /** Adding one transaction is adding a batch of one. */
    method TakeOne(tx: Tx, local: bool, now: int) returns (crashed: bool)
      requires Valid()
      modifies `debt, `pending, `queue, `beats, `locals, lookup, priced, noncer`nonces
      ensures Valid() && old(locals) <= locals && (old(Gapless()) ==> Gapless())
      ensures crashed ==> Overdrawn(config, Now(), tx)
      ensures old(locals) != {} || (OneSlotEach(old(lookup.all)) && OneSlotEach({tx})) ==> !crashed
      ensures lookup.all <= old(lookup.all) + {tx}
      ensures old(AllUsable(state, currentMaxGas, lookup.all)) ==> AllUsable(state, currentMaxGas, lookup.all)
      ensures forall t :: t in old(lookup.all) && t.from in old(locals) ==>
                t in lookup.all || OutbidBy({tx}, t, config.priceBump)
      ensures old(KeepsLimits()) ==> KeepsLimits()
      ensures debt == old(debt)
    {
      crashed := TakeBatch([tx], local, now);
      assert Members([tx]) == {tx};
    }

    method TakeBatch(txs: seq<Tx>, local: bool, now: int) returns (crashed: bool)
      requires Valid()
      modifies `debt, `pending, `queue, `beats, `locals, lookup, priced, noncer`nonces
      ensures Valid() && old(locals) <= locals && (old(Gapless()) ==> Gapless())
      ensures crashed ==> exists tx :: tx in Members(txs) && Overdrawn(config, Now(), tx)
      ensures old(locals) != {} || (OneSlotEach(old(lookup.all)) && OneSlotEach(Members(txs))) ==> !crashed
      ensures lookup.all <= old(lookup.all) + Members(txs)
      ensures old(AllUsable(state, currentMaxGas, lookup.all)) ==> AllUsable(state, currentMaxGas, lookup.all)
      ensures forall t :: t in old(lookup.all) && t.from in old(locals) ==>
                t in lookup.all || OutbidBy(Members(txs), t, config.priceBump)
      ensures old(KeepsLimits()) ==> KeepsLimits()
      ensures debt == old(debt)
    {
      hide Inv, Gapless, Batch, Dirtied, Recorded, SumSlots, NumSlots, Panicked, OneSlotEach, OutbidBy, AllUsable,
           Overdrawn, KeepsLimits;
      ghost var log;
      var errs, dirty;
      errs, dirty, crashed, log := AddTxs(txs, local, now);
      BatchKeeps(Law(), old(Now()), txs, local, log);
      if crashed {
        PanickedMeans(Law(), End(old(Now()), log), txs[|log|], local, Now());
        assert txs[|log|] in Members(txs);
      }
    }

    method TakeReorg(reset: Option<HeadChange>, dirty: set<Address>, now: int) returns (crashed: bool)
      requires Valid()
      modifies `debt, `state, `currentMaxGas, `pending, `queue, `beats, `locals, lookup, priced, noncer
      ensures Valid() && locals == old(locals) && (reset.None? && old(Gapless()) ==> Gapless())
      ensures Law() == LawAfter(old(Law()), reset)
      ensures crashed ==> exists tx :: tx in Members(Returned(reset)) && Overdrawn(config, Now(), tx)
      ensures old(locals) != {} || (OneSlotEach(old(lookup.all)) && OneSlotEach(Members(Returned(reset)))) ==> !crashed
      ensures lookup.all <= old(lookup.all) + Members(Returned(reset))
      ensures !crashed && reset.Some? ==> AllUsable(state, currentMaxGas, lookup.all)
      ensures forall t :: t in old(lookup.all) && t.from in locals && Usable(state, currentMaxGas, t) ==>
                t in lookup.all || OutbidBy(Members(Returned(reset)), t, config.priceBump)
      ensures old(KeepsLimits()) ==> KeepsLimits()
      ensures debt == old(debt)
    {
      hide Inv, Gapless, Batch, SumSlots, NumSlots, Panicked, OneSlotEach, OutbidBy, AllUsable, Usable, Overdrawn,
           Executable, NextAfterAll, Virtual, Total, Lens, KeepsLimits, Announces, OnlyReplaces, Sub;
      ghost var log;
      var promoted;
      ghost var first, ready;
      promoted, crashed, log, first, ready := RunReorg(reset, dirty, now);
      BatchKeeps(Law(), old(Now()), Returned(reset), false, log);
      if crashed {
        PanickedMeans(Law(), End(old(Now()), log), Returned(reset)[|log|], false, Now());
        assert Returned(reset)[|log|] in Members(Returned(reset));
      }
    }

    /** Tells the price heap how many transactions are gone. */
    method Tell(count: nat, ghost limbo: set<Tx>)
      requires Inv(limbo, {}) && debt >= count
      modifies `debt, priced
      ensures Inv(limbo, {}) && debt == old(debt) - count
    {
      hide Agree, Tallied;
      ghost var items, stales := priced.items, priced.stales;
      priced.Removed(count);
      TallyTells(items, stales, priced.items, priced.stales, lookup.all, count, debt);
      debt := debt - count;
    }

    /** Tells the price heap how many transactions are gone, when none is in limbo. */
    method NoteRemoved(count: nat)
      requires Valid()
      requires debt >= count
      modifies `debt, priced
      ensures Valid()
      ensures debt == old(debt) - count
    {
      hide Inv;
      Tell(count, {});
    }

    /** Tells the price heap how many transactions are gone, and drops the heartbeat if nothing is queued. */
    method CloseAccount(count: nat, addr: Address)
      requires Valid()
      requires debt >= count
      modifies `debt, `beats, priced
      ensures Valid() && beats == if addr in queue then old(beats) else old(beats) - {addr}
      ensures debt == old(debt) - count
    {
      hide Inv;
      NoteRemoved(count);
      ForgetBeat(addr, {});
    }

    /** Caps the queue of a remote account. */
    method CapQueued(addr: Address) returns (dropped: nat)
      requires Valid() && NextFree(queue, state, noncer.nonces, addr)
      modifies `debt, `queue, lookup
      ensures Valid() && (old(Gapless()) ==> Gapless())
      ensures NextFree(queue, state, noncer.nonces, addr)
      ensures SameBut(queue, old(queue), addr) && lookup.all <= old(lookup.all)
      ensures ItemsOf(queue, addr) ==
                var limit := QueueLimit(addr);
                if limit == None then ItemsOf(old(queue), addr) else Lowest(ItemsOf(old(queue), addr), limit.value)
      ensures addr !in locals ==> |ItemsOf(queue, addr)| <= config.accountQueue
      ensures debt == old(debt) + dropped
    {
      hide Agree, Gapless, SetList, Bounded, Virtual, Tallied;
      dropped := 0;
      LowestSize(ItemsOf(queue, addr), config.accountQueue);
      if addr in queue && addr !in locals {
        var l := queue[addr];
        SoundQueue(pending, queue, lookup.all, addr);
        LowestIsSub(l, config.accountQueue);
        SetOne(queue, addr, l.(items := Lowest(l.items, config.accountQueue)));
        dropped := ShrinkQueued(addr, l.(items := Lowest(l.items, config.accountQueue)));
      }
    }

    /** Drops the queued transactions of one account that are below its nonce or beyond its means. */
    method DropUnusable(addr: Address) returns (dropped: nat)
      requires Valid() && addr in queue
      modifies `debt, `queue, lookup
      ensures Valid() && (old(Gapless()) ==> Gapless())
      ensures SameBut(queue, old(queue), addr) && lookup.all <= old(lookup.all)
      ensures ItemsOf(queue, addr) == Payable(ItemsOf(old(queue), addr), state, currentMaxGas, addr)
      ensures debt == old(debt) + dropped
    {
      hide Agree, Gapless, SetList, Tallied;
      var l := queue[addr];
      SoundQueue(pending, queue, lookup.all, addr);
      var live := l.(items := From(l.items, StateNonce(state, addr)));
      SetOne(queue, addr, live);
      dropped := ShrinkQueued(addr, live);
      if addr in queue {
        var drops := ShrinkQueued(addr, Filtered(live, Balance(state, addr), currentMaxGas));
        SetOne(old(queue), addr, live);
        SetOne(SetList(old(queue), addr, live), addr, Filtered(live, Balance(state, addr), currentMaxGas));
        dropped := dropped + drops;
      }
    }

    /** Promotes what is ready in the queues of the given accounts and leaves the other accounts alone. */
    method PromoteExecutables(accounts: seq<Address>, now: int) returns (promoted: seq<Tx>)
      requires Valid() && Distinct(accounts)
      modifies `debt, `pending, `queue, `beats, lookup, priced, noncer`nonces
      ensures Valid() && (old(Gapless()) ==> Gapless()) && lookup.all <= old(lookup.all)
      ensures forall a :: a in accounts ==>
                Promoted(old(queue), old(pending), Virtual(old(noncer.nonces), state, a), queue, pending, state,
                  currentMaxGas, a, QueueLimit(a))
      ensures forall a :: a in accounts ==> NextFree(queue, state, noncer.nonces, a)
      ensures forall a :: a !in accounts ==>
                ItemsOf(queue, a) == ItemsOf(old(queue), a) && ItemsOf(pending, a) == ItemsOf(old(pending), a)
      ensures Announces(promoted, old(pending), pending)
      ensures debt == old(debt)
    {
      hide Inv, Gapless, Promoted, NextFree, ItemsOf, Announces;
      promoted := [];
      NothingAnnounced(pending);
      for i := 0 to |accounts|
        invariant debt == old(debt)
        invariant Valid() && (old(Gapless()) ==> Gapless()) && lookup.all <= old(lookup.all)
        invariant forall a :: a in accounts[..i] ==>
                    Promoted(old(queue), old(pending), Virtual(old(noncer.nonces), state, a), queue, pending, state,
                      currentMaxGas, a, QueueLimit(a))
        invariant forall a :: a in accounts[..i] ==> NextFree(queue, state, noncer.nonces, a)
        invariant forall a :: a !in accounts[..i] ==>
                    Untouched(old(queue), old(pending), old(noncer.nonces), queue, pending, noncer.nonces, state, a)
        invariant Announces(promoted, old(pending), pending)
      {
        assert accounts[..i + 1] == accounts[..i] + [accounts[i]];
        assert accounts[i] !in accounts[..i];
        ghost var before := pending;
        var more := PromoteNext(accounts[i], now, old(queue), old(pending), old(noncer.nonces), accounts[..i]);
        AnnouncedTogether(promoted, more, old(pending), before, pending, accounts[i]);
        promoted := promoted + more;
      }
      assert accounts[..|accounts|] == accounts;
    }

    method PromoteNext(addr: Address, now: int, ghost queue0: Lists, ghost pending0: Lists,
                       ghost nonces0: map<Address, nat>, ghost done: seq<Address>)
      returns (promoted: seq<Tx>)
      requires Valid() && addr !in done
      requires forall a :: a in done ==>
                 Promoted(queue0, pending0, Virtual(nonces0, state, a), queue, pending, state, currentMaxGas, a,
                   QueueLimit(a))
      requires forall a :: a in done ==> NextFree(queue, state, noncer.nonces, a)
      requires forall a :: a !in done ==> Untouched(queue0, pending0, nonces0, queue, pending, noncer.nonces, state, a)
      modifies `debt, `pending, `queue, `beats, lookup, priced, noncer`nonces
      ensures Valid() && (old(Gapless()) ==> Gapless()) && lookup.all <= old(lookup.all)
      ensures forall a :: a in done + [addr] ==>
                Promoted(queue0, pending0, Virtual(nonces0, state, a), queue, pending, state, currentMaxGas, a,
                  QueueLimit(a))
      ensures forall a :: a in done + [addr] ==> NextFree(queue, state, noncer.nonces, a)
      ensures forall a :: a !in done + [addr] ==>
                Untouched(queue0, pending0, nonces0, queue, pending, noncer.nonces, state, a)
      ensures Announces(promoted, old(pending), pending) && SameBut(pending, old(pending), addr)
      ensures ItemsOf(old(pending), addr) == ItemsOf(pending0, addr)
      ensures debt == old(debt)
    {
      hide Inv, Gapless, NotReady, Lowest, Payable, Listing, Virtual, SameBut, ReadyPart, Announces;
      promoted := [];
      NothingAnnounced(pending);
      SameButTrans(pending, pending, pending, addr);
      if addr in queue {
        promoted := PromoteAccount(addr, now);
        SameElsewhere(queue, old(queue), addr);
        SameElsewhere(pending, old(pending), addr);
      } else {
        NothingToPromote(ItemsOf(pending, addr), Virtual(noncer.nonces, state, addr), state, currentMaxGas, addr,
                         config.accountQueue);
      }
    }
  }

  /**
   What promotion makes of one account: the ready transactions move, what is stale, unpayable or beyond the limit goes.
   */
  ghost predicate Promoted(queue0: Lists, pending0: Lists, next: nat, queue: Lists, pending: Lists, s: ChainState,
                           maxGas: nat, a: Address, limit: Option<nat>) {
    var left := StillQueued(ItemsOf(queue0, a), s, maxGas, a, next);
    && ItemsOf(queue, a) == (if limit == None then left else Lowest(left, limit.value))
    && ItemsOf(pending, a) == ItemsOf(pending0, a) + Promotable(ItemsOf(queue0, a), s, maxGas, a, next)
  }

  /** Exactly the transactions that became pending are announced, each once and in nonce order for every account. */
  ghost predicate Announces(promoted: seq<Tx>, before: Lists, after: Lists) {
    && (forall t :: t in promoted <==> InLists(after, t) && !InLists(before, t))
    && (forall t :: InLists(before, t) ==> InLists(after, t))
    && (forall i, j | 0 <= i < j < |promoted| && promoted[i].from == promoted[j].from ::
          promoted[i].nonce < promoted[j].nonce)
  }

  lemma NothingAnnounced(pending: Lists)
    ensures Announces([], pending, pending)
  {
  }

  /** The listing of what became ready announces what became pending, since its nonces were free there. */
  lemma AnnouncedByListing(pending0: Lists, queue0: Lists, all0: set<Tx>, pending: Lists, s: ChainState, maxGas: nat,
                           a: Address, next: nat, promoted: seq<Tx>)
    requires Agree(pending0, true, queue0, false, all0, {}) && SameBut(pending, pending0, a)
    requires
      var ready := Promotable(ItemsOf(queue0, a), s, maxGas, a, next);
      ItemsOf(pending, a) == ItemsOf(pending0, a) + ready && Listing(ready, promoted)
    ensures Announces(promoted, pending0, pending)
  {
    var items, ready := ItemsOf(queue0, a), Promotable(ItemsOf(queue0, a), s, maxGas, a, next);
    SameElsewhere(pending, pending0, a);
    ReadyIsQueued(items, s, maxGas, a, next);
    OwnersAndNonces(pending0, queue0, all0, a);
    hide Promotable, ListsOk, Accounted;
    forall t
      ensures t in promoted <==> InLists(pending, t) && !InLists(pending0, t)
      ensures InLists(pending0, t) ==> InLists(pending, t)
    {
      InItems(pending, t);
      InItems(pending0, t);
      assert t in promoted <==> Holds(ready, t);
      assert !(Occupied(pending0, a, t.nonce) && Occupied(queue0, a, t.nonce));
    }
  }

  /** What is pending in the end was before, or took the place of another one, or was announced. */
  lemma NewOnesAreAnnounced(pending0: Lists, first: Lists, ready: Lists, pending: Lists, txs: set<Tx>,
                            promoted: seq<Tx>)
    requires OnlyReplaces(pending0, first, txs) && Announces(promoted, first, ready)
    requires forall a :: Sub(ItemsOf(pending, a), ItemsOf(ready, a))
    ensures forall t :: InLists(pending, t) ==>
              InLists(pending0, t) || t in promoted || (t in txs && Occupied(pending0, t.from, t.nonce))
  {
    forall t | InLists(pending, t)
      ensures InLists(pending0, t) || t in promoted || (t in txs && Occupied(pending0, t.from, t.nonce))
    {
      InItems(pending, t);
      InItems(ready, t);
      assert Sub(ItemsOf(pending, t.from), ItemsOf(ready, t.from));
      if InLists(first, t) {
        assert Occupied(first, t.from, t.nonce);
      }
    }
  }

  lemma InItems(m: Lists, t: Tx)
    ensures InLists(m, t) <==> Holds(ItemsOf(m, t.from), t)
  {
  }

  lemma ReadyIsQueued(items: Items, s: ChainState, maxGas: nat, a: Address, next: nat)
    ensures Sub(Promotable(items, s, maxGas, a, next), items)
  {
  }

  lemma OwnersAndNonces(pending: Lists, queue: Lists, all: set<Tx>, a: Address)
    requires Agree(pending, true, queue, false, all, {})
    ensures forall n :: n in ItemsOf(queue, a) ==> ItemsOf(queue, a)[n].from == a && ItemsOf(queue, a)[n].nonce == n
  {
    if a in queue {
      assert ListOk(queue[a], a, false);
    }
  }

  lemma AnnouncedTogether(first: seq<Tx>, more: seq<Tx>, pending0: Lists, pending1: Lists, pending: Lists, a: Address)
    requires Announces(first, pending0, pending1) && Announces(more, pending1, pending)
    requires SameBut(pending, pending1, a) && ItemsOf(pending1, a) == ItemsOf(pending0, a)
    ensures Announces(first + more, pending0, pending)
  {
    SameElsewhere(pending, pending1, a);
    forall t: Tx
      ensures t.from == a ==> (InLists(pending1, t) <==> InLists(pending0, t))
      ensures t.from != a ==> (InLists(pending1, t) <==> InLists(pending, t))
    {
      InItems(pending0, t);
      InItems(pending1, t);
      InItems(pending, t);
    }
    forall t | t in first
      ensures t.from != a
    {
    }
    forall t | t in more
      ensures t.from == a
    {
    }
  }

  lemma CappedIsPromoted(queue0: Lists, pending0: Lists, next: nat, queue1: Lists, queue: Lists, pending: Lists,
                         s: ChainState, maxGas: nat, a: Address, limit: Option<nat>)
    requires ItemsOf(queue1, a) == StillQueued(ItemsOf(queue0, a), s, maxGas, a, next)
    requires ItemsOf(pending, a) == ItemsOf(pending0, a) + Promotable(ItemsOf(queue0, a), s, maxGas, a, next)
    requires ItemsOf(queue, a) == if limit == None then ItemsOf(queue1, a) else Lowest(ItemsOf(queue1, a), limit.value)
    ensures Promoted(queue0, pending0, next, queue, pending, s, maxGas, a, limit)
  {
    hide ItemsOf, StillQueued, Promotable, Lowest;
  }

  /** The usable transactions of a queue that are not ready. */
  ghost function StillQueued(items: Items, s: ChainState, maxGas: nat, a: Address, next: nat): Items {
    NotReady(Payable(items, s, maxGas, a), next)
  }

  /** The usable transactions of a queue that are ready. */
  ghost function Promotable(items: Items, s: ChainState, maxGas: nat, a: Address, next: nat): Items {
    ReadyPart(Payable(items, s, maxGas, a), StillQueued(items, s, maxGas, a, next))
  }

  ghost predicate Untouched(queue0: Lists, pending0: Lists, nonces0: map<Address, nat>, queue: Lists, pending: Lists,
                            nonces: map<Address, nat>, s: ChainState, a: Address) {
    && ItemsOf(queue, a) == ItemsOf(queue0, a)
    && ItemsOf(pending, a) == ItemsOf(pending0, a)
    && Virtual(nonces, s, a) == Virtual(nonces0, s, a)
  }

  ghost predicate Distinct(accounts: seq<Address>) {
    forall i, j :: 0 <= i < j < |accounts| ==> accounts[i] != accounts[j]
  }

  lemma NothingToPromote(pending: Items, start: nat, s: ChainState, maxGas: nat, a: Address, limit: nat)
    ensures Payable(map[], s, maxGas, a) == map[] && NotReady(map[], start) == map[] && Lowest(map[], limit) == map[]
    ensures pending + ReadyPart(map[], map[]) == pending
  {
  }

  /** There is at most one rival, in the list that `tx` would go to, and it decides. */
  lemma RivalsDecide(pending: Lists, queue: Lists, all: set<Tx>, tx: Tx, bump: nat)
    requires Agree(pending, true, queue, false, all, {})
    ensures Occupied(pending, tx.from, tx.nonce) ==> Rivals(all, tx) == {pending[tx.from].items[tx.nonce]}
    ensures !Occupied(pending, tx.from, tx.nonce) && Occupied(queue, tx.from, tx.nonce) ==>
              Rivals(all, tx) == {queue[tx.from].items[tx.nonce]}
    ensures !Occupied(pending, tx.from, tx.nonce) && !Occupied(queue, tx.from, tx.nonce) ==> Rivals(all, tx) == {}
    ensures var l := if Occupied(pending, tx.from, tx.nonce) then pending[tx.from] else ListOf(queue, tx.from, false);
            Wins(all, tx, bump) <==> Accepts(l, tx, bump)
  {
    hide Outbids;
    QueuedEntry(pending, queue, all, tx.from, tx.nonce);
    if Occupied(pending, tx.from, tx.nonce) {
      OwnEntry(pending, queue, all, tx.from, tx.nonce);
      assert !Occupied(queue, tx.from, tx.nonce);
    }
    forall t | t in Rivals(all, tx)
      ensures InLists(pending, t) || InLists(queue, t)
    {
    }
    hide ListsOk;
  }

  /** The heap has no more entries than live transactions, stale ones it was told of, and those it will be told of. */
  ghost predicate Tallied(items: seq<Tx>, all: set<Tx>, stales: int, debt: int) {
    |items| <= |all| + stales + debt
  }

  lemma TallyForgets(items: seq<Tx>, all: set<Tx>, tx: Tx, stales: int, debt: int)
    requires Tallied(items, all, stales, debt) && tx in all
    ensures Tallied(items, all - {tx}, stales, debt + 1)
  {
  }

  lemma TallyPuts(items: seq<Tx>, more: seq<Tx>, all: set<Tx>, tx: Tx, stales: int, debt: int)
    requires Tallied(items, all, stales, debt) && tx !in all && |more| == |items| + 1
    ensures Tallied(more, all + {tx}, stales, debt)
  {
  }

  /** Telling the heap settles the debt, whether it counts or is rebuilt. */
  lemma TallyTells(items: seq<Tx>, stales: int, items': seq<Tx>, stales': int, all: set<Tx>, count: nat, debt: int)
    requires Tallied(items, all, stales, debt) && debt >= count
    requires (items' == items && stales' == stales + count) || (|items'| == |all| && stales' == 0)
    ensures Tallied(items', all, stales', debt - count)
  {
  }

  /** Taking entries off the heap: the stale ones are counted down, the others are owed. */
  lemma TallyDrops(items: seq<Tx>, stales: int, items': seq<Tx>, stales': int, all: set<Tx>, dropped: nat, debt: int)
    requires Tallied(items, all, stales, debt) && stales' == stales - (|items| - |items'| - dropped)
    ensures Tallied(items', all, stales', debt - dropped)
  {
  }

  lemma TallyLater(items: seq<Tx>, all: set<Tx>, stales: int, debt: int, more: int)
    requires Tallied(items, all, stales, debt) && debt <= more
    ensures Tallied(items, all, stales, more)
  {
  }

  /** Nonces only leave the pending lists, and only one of `txs` may have taken the place of another one. */
  ghost predicate OnlyReplaces(before: Lists, after: Lists, txs: set<Tx>) {
    && (forall a, n :: Occupied(after, a, n) ==> Occupied(before, a, n))
    && (forall t :: InLists(after, t) ==> InLists(before, t) || t in txs)
  }

  lemma NothingReplaced(pending: Lists, txs: set<Tx>)
    ensures OnlyReplaces(pending, pending, txs)
  {
  }

  lemma ReplacesThen(p0: Lists, p1: Lists, p2: Lists, txs: set<Tx>, more: set<Tx>)
    requires OnlyReplaces(p0, p1, txs) && OnlyReplaces(p1, p2, more)
    ensures OnlyReplaces(p0, p2, txs + more) && (txs <= more ==> OnlyReplaces(p0, p2, more))
  {
  }

  lemma OneOfMany(p0: Lists, p1: Lists, p2: Lists, txs: seq<Tx>, i: nat)
    requires i < |txs| && OnlyReplaces(p0, p1, Members(txs)) && OnlyReplaces(p1, p2, {txs[i]})
    ensures OnlyReplaces(p0, p2, Members(txs))
  {
    hide OnlyReplaces;
    ReplacesThen(p0, p1, p2, Members(txs), {txs[i]});
    assert Members(txs) + {txs[i]} == Members(txs);
  }

  lemma RemovalReplacesNone(pending: Lists, a: Address, n: nat)
    requires a in pending
    ensures OnlyReplaces(pending, SetList(pending, a, Removed(pending[a], n)), {})
  {
    SetListFacts(pending, a, Removed(pending[a], n));
    hide SetList;
  }

  lemma FewerKeepLimits(price0: nat, locals: set<Address>, all0: set<Tx>, price: nat, all: set<Tx>)
    requires all <= all0 && (price == price0 || forall t :: t in all ==> t.from in locals || t.price >= price)
    ensures AllDecent(price0, locals, all0) ==> AllDecent(price, locals, all)
    ensures |Remote(all, locals)| <= |Remote(all0, locals)|
  {
    FewerRemote(all0, locals, all, locals);
  }

  lemma EntriesCover(all: set<Tx>, was: seq<Tx>, items: seq<Tx>, drop: seq<Tx>)
    requires KeepsEntries(all, was, items, drop) && forall tx :: tx in all ==> tx in Members(was)
    ensures forall tx :: tx in all ==> tx in Members(items) || tx in Members(drop)
  {
    forall tx | tx in all
      ensures tx in items || tx in drop
    {
      assert tx in multiset(was);
      assert tx in multiset(items) || tx in multiset(drop);
    }
  }

  lemma NoneDiscarded(items: seq<Tx>, all: set<Tx>, local: set<Address>)
    ensures Discarded(items, all, local, 0) == []
  {
  }

  lemma NothingRepeats()
    ensures NoRepeats([]) && SlotsOf([]) == 0
  {
  }

  /** What Discard says about the heap means the same for the pool, all of whose transactions have entries. */
  lemma CheapestWentOut(all: set<Tx>, heap: seq<Tx>, items: seq<Tx>, locals: set<Address>, drop: seq<Tx>, asked: int)
    requires KeepsEntries(all, heap, items, drop) && (forall tx :: tx in all ==> tx in Members(heap))
    requires forall tx :: tx in drop ==> tx in all && tx.from !in locals
    requires forall d, tx :: d in drop && tx in all && tx in items && tx.from !in locals ==> !PriceLess(tx, d)
    requires SlotsOf(drop) >= asked || forall tx :: tx in all && tx in items ==> tx.from in locals
    requires drop != [] ==> SlotsOf(drop[..|drop| - 1]) < asked
    ensures CheapestWent(all, locals, drop, asked)
  {
    EntriesCover(all, heap, items, drop);
    hide KeepsEntries, PriceLess, SlotsOf;
    NothingRepeats();
  }

  /** The dropped transactions free the slots that were counted if and only if none was dropped twice. */
  lemma FreedSlots(all: set<Tx>, drop: seq<Tx>)
    requires forall tx :: tx in drop ==> tx in all
    ensures SumSlots(all - Members(drop)) == SumSlots(all) - SlotsOf(drop) <==> NoRepeats(drop)
  {
    SlotsCountRepeats(drop);
    SumSlotsMinus(all, Members(drop));
  }

  /** Every transaction takes one slot. */
  ghost predicate OneSlotEach(txs: set<Tx>) {
    forall tx :: tx in txs ==> NumSlots(tx) == 1
  }

  ghost function Reinjected(change: HeadChange): seq<Tx> {
    if change.HeadChange? then change.reinject else []
  }

  /** The transactions of abandoned blocks, if there is a new head. */
  ghost function Returned(reset: Option<HeadChange>): seq<Tx> {
    if reset.Some? then Reinjected(reset.value) else []
  }

  /** The rules after a new head, if there is one and it can be read. */
  ghost function LawAfter(r: Rules, reset: Option<HeadChange>): Rules {
    if reset.Some? && reset.value.HeadChange? then r.(state := reset.value.state, maxGas := reset.value.maxGas) else r
  }

  /** The transactions that a step tries to add. */
  ghost function Submitted(step: Step): set<Tx> {
    match step
    case AddTx(tx, _, _) => {tx}
    case AddBatch(txs, _, _) => Members(txs)
    case Maintain(reset, _, _) => Members(Returned(reset))
    case _ => {}
  }

  /** The step outbids `t`, or moves the pool to a head where `t` is not usable. */
  ghost predicate Displaced(step: Step, t: Tx, bump: nat) {
    || OutbidBy(Submitted(step), t, bump)
    || (&& step.Maintain? && step.reset.Some? && step.reset.value.HeadChange?
        && !Usable(step.reset.value.state, step.reset.value.maxGas, t))
  }

  lemma FewOrSmall(all: set<Tx>, all0: set<Tx>, txs: set<Tx>)
    requires all <= all0 + txs
    ensures OneSlotEach(all0) && OneSlotEach(txs) ==> OneSlotEach(all)
  {
  }

  lemma UsableFewer(s: ChainState, maxGas: nat, all0: set<Tx>, all: set<Tx>)
    ensures all <= all0 && AllUsable(s, maxGas, all0) ==> AllUsable(s, maxGas, all)
  {
  }

  // ----- the record of a batch -----

  /** The errors are those of the outcomes, and none of them is a panic. */
  ghost predicate Recorded(errs: seq<Option<Error>>, log: seq<Outcome>) {
    |errs| == |log| && forall i :: 0 <= i < |errs| ==> errs[i] == log[i].err && errs[i] != Some(CapacityPanic)
  }

  /** Account `a` has gained a transaction that replaces no other one. */
  ghost predicate Dirtied(txs: seq<Tx>, log: seq<Outcome>, a: Address)
    requires |log| <= |txs|
  {
    exists i :: 0 <= i < |log| && log[i].err == None && !log[i].replaced && txs[i].from == a
  }

  lemma NoneDirtied(r: Rules, v: View, txs: seq<Tx>, local: bool)
    ensures Batch(r, v, txs, local, []) && End(v, []) == v && Recorded([], []) && forall a :: !Dirtied(txs, [], a)
  {
  }

  lemma OneMoreRecorded(txs: seq<Tx>, errs: seq<Option<Error>>, log: seq<Outcome>, o: Outcome)
    requires |log| < |txs| && Recorded(errs, log) && o.err != Some(CapacityPanic)
    ensures Recorded(errs + [o.err], log + [o])
    ensures forall a :: Dirtied(txs, log + [o], a) <==>
              Dirtied(txs, log, a) || (o.err == None && !o.replaced && a == txs[|log|].from)
  {
    var n, more := |log|, log + [o];
    assert more[n] == o;
    forall a | Dirtied(txs, log, a)
      ensures Dirtied(txs, more, a)
    {
      var i :| 0 <= i < n && log[i].err == None && !log[i].replaced && txs[i].from == a;
      assert more[i] == log[i];
    }
  }

  /** As long as every transaction takes one slot, no more than the count has to be freed. */
  lemma BatchIsSmall(r: Rules, v: View, txs: seq<Tx>, local: bool, log: seq<Outcome>)
    requires Batch(r, v, txs, local, log) && |log| < |txs|
    ensures v.locals <= End(v, log).locals
    ensures OneSlotEach(v.all) && OneSlotEach(Members(txs)) ==>
              SumSlots(End(v, log).all) + NumSlots(txs[|log|]) <= |End(v, log).all| + 1
  {
    BatchKeeps(r, v, txs, local, log);
    SlotsOfMany(End(v, log).all);
    assert txs[|log|] in Members(txs);
  }

  // ----- what maintenance keeps -----

  ghost function OwnedBy(all: set<Tx>, a: Address): set<Tx> {
    set t | t in all && t.from == a
  }

  /** Accounts that no limit concerns: local ones, and any as long as the transactions given are few enough. */
  ghost predicate Spared(c: Config, locals: set<Address>, a: Address, all: set<Tx>) {
    || a in locals
    || (|all| <= c.globalSlots && |all| <= c.globalQueue && |OwnedBy(all, a)| <= c.accountQueue)
  }

  /** Accounts that no limit concerns, seen from the lists; demotion may send everything to the queue. */
  ghost predicate SparedNow(c: Config, locals: set<Address>, a: Address, all: set<Tx>, queue: Lists, demote: bool) {
    || a in locals
    || (&& |all| <= c.globalSlots && |ItemsOf(queue, a)| <= c.accountQueue
        && (if demote then |all| else Total(Lens(queue))) <= c.globalQueue)
  }

  lemma SparedInLists(c: Config, locals: set<Address>, pending: Lists, queue: Lists, all: set<Tx>)
    requires Agree(pending, true, queue, false, all, {})
    ensures forall a :: Spared(c, locals, a, all) ==> SparedNow(c, locals, a, all, queue, true)
  {
    forall a
      ensures |ItemsOf(queue, a)| <= |OwnedBy(all, a)|
    {
      if a in queue {
        assert ListOk(queue[a], a, false);
        AsManyValues(queue[a].items);
        forall t | t in Values(queue[a].items)
          ensures t in OwnedBy(all, a)
        {
          assert InLists(queue, t);
        }
        SubsetSize(Values(queue[a].items), OwnedBy(all, a));
      }
    }
  }

  /** What it means for the lists in the middle of maintenance that no limit concerns an account. */
  lemma SparedMeans(c: Config, locals: set<Address>, a: Address, all0: set<Tx>, queue0: Lists, demote: bool,
                    pending: Lists, queue: Lists, all: set<Tx>)
    requires SparedNow(c, locals, a, all0, queue0, demote)
    requires Agree(pending, true, queue, false, all, {}) && all <= all0
    requires !demote ==> Total(Lens(queue)) <= Total(Lens(queue0))
    ensures a in locals || |ItemsOf(queue0, a)| <= c.accountQueue
    ensures a in locals || Total(Lens(pending)) <= c.globalSlots
    ensures a in locals || Total(Lens(queue)) <= c.globalQueue
  {
    CountsAgree(pending, true, queue, false, all);
    SubsetSize(all, all0);
    hide Agree, Total, Lens;
  }

  /** Account `a` has a new heartbeat. */
  ghost predicate Refreshed(before: map<Address, int>, after: map<Address, int>, a: Address, now: int) {
    after == before[a := now]
  }

  /** As long as the stale entries are no more than a quarter, the heap keeps them and only counts. */
  ghost predicate Deferred(items0: seq<Tx>, stales0: int, items: seq<Tx>, stales: int, count: int) {
    stales0 + count <= |items0| / 4 ==> items == items0 && stales == stales0 + count
  }

  lemma NoneDeferred(items: seq<Tx>, stales: int)
    ensures Deferred(items, stales, items, stales, 0)
  {
  }

  lemma DeferredMore(items0: seq<Tx>, stales0: int, items1: seq<Tx>, stales1: int, items: seq<Tx>, stales: int, n: int,
                     m: int)
    requires Deferred(items0, stales0, items1, stales1, n) && Deferred(items1, stales1, items, stales, m) && m >= 0
    ensures Deferred(items0, stales0, items, stales, n + m)
  {
  }

  lemma SubOfItself(m: Lists)
    ensures forall a :: Sub(ItemsOf(m, a), ItemsOf(m, a))
  {
  }

  lemma CutOfSub(m: Lists, m1: Lists, m0: Lists)
    requires CutFrom(m, m1) && forall a :: Sub(ItemsOf(m1, a), ItemsOf(m0, a))
    ensures forall a :: Sub(ItemsOf(m, a), ItemsOf(m0, a))
  {
    forall a
      ensures Sub(ItemsOf(m, a), ItemsOf(m0, a))
    {
      assert ItemsOf(m, a) == Lowest(ItemsOf(m1, a), |ItemsOf(m, a)|);
      assert Sub(ItemsOf(m1, a), ItemsOf(m0, a));
    }
  }

  lemma PendingAreFew(pending: Lists, queue: Lists, all: set<Tx>, all0: set<Tx>)
    requires Agree(pending, true, queue, false, all, {}) && all <= all0
    ensures Total(Lens(pending)) <= |all0|
  {
    CountsAgree(pending, true, queue, false, all);
    SubsetSize(all, all0);
  }

  lemma SameListsKeep(pending: Lists, queue: Lists, all: set<Tx>, pending': Lists, queue': Lists, all': set<Tx>, t: Tx)
    requires Agree(pending, true, queue, false, all, {}) && Agree(pending', true, queue', false, all', {})
    requires ItemsOf(pending', t.from) == ItemsOf(pending, t.from) && ItemsOf(queue', t.from) == ItemsOf(queue, t.from)
    ensures t in all' <==> t in all
  {
  }

  /** Of an account whose queue is not too long, promotion loses exactly the queued transactions that are not usable. */
  lemma PromotedKeeps(pending0: Lists, queue0: Lists, all0: set<Tx>, pending: Lists, queue: Lists, all: set<Tx>,
                      s: ChainState, maxGas: nat, t: Tx, touched: bool, next: nat, limit: Option<nat>)
    requires Agree(pending0, true, queue0, false, all0, {}) && Agree(pending, true, queue, false, all, {})
    requires touched ==> Promoted(queue0, pending0, next, queue, pending, s, maxGas, t.from, limit)
    requires !touched ==>
               && ItemsOf(queue, t.from) == ItemsOf(queue0, t.from)
               && ItemsOf(pending, t.from) == ItemsOf(pending0, t.from)
    requires t in all0 && (limit.None? || |ItemsOf(queue0, t.from)| <= limit.value)
    ensures t in all <==> !(InLists(queue0, t) && touched && !Usable(s, maxGas, t))
  {
    if !touched {
      SameListsKeep(pending0, queue0, all0, pending, queue, all, t);
    } else {
      var items, first := ItemsOf(queue0, t.from), ItemsOf(pending0, t.from);
      assert !(t.nonce in items && t.nonce in first) by {
        assert !(Occupied(pending0, t.from, t.nonce) && Occupied(queue0, t.from, t.nonce));
      }
      PromotedHolds(first, items, s, maxGas, t, next, limit);
      assert t in all <==> Holds(ItemsOf(pending, t.from), t) || Holds(ItemsOf(queue, t.from), t);
      assert Holds(first, t) || Holds(items, t);
    }
  }

  lemma PromotedHolds(pending: Items, items: Items, s: ChainState, maxGas: nat, t: Tx, next: nat, limit: Option<nat>)
    requires !(t.nonce in items && t.nonce in pending) && (limit.None? || |items| <= limit.value)
    ensures
      var payable := Payable(items, s, maxGas, t.from);
      var left := NotReady(payable, next);
      var queue := if limit == None then left else Lowest(left, limit.value);
      Holds(pending + ReadyPart(payable, left), t) || Holds(queue, t) <==>
        Holds(pending, t) || (Holds(items, t) && Usable(s, maxGas, t))
  {
    hide NotReady, Payable, Lowest, Usable, ReadyPart;
    var payable := Payable(items, s, maxGas, t.from);
    PayableHolds(items, s, maxGas, t);
    LeftOrReady(payable, next, t);
    if limit.Some? {
      AllLowest(NotReady(payable, next), limit.value);
    }
  }

  lemma PayableHolds(items: Items, s: ChainState, maxGas: nat, t: Tx)
    ensures
      var payable := Payable(items, s, maxGas, t.from);
      && |payable| <= |items| && (t.nonce in payable ==> t.nonce in items)
      && (Holds(payable, t) <==> Holds(items, t) && Usable(s, maxGas, t))
  {
    var payable := Payable(items, s, maxGas, t.from);
    assert payable.Keys <= items.Keys;
    SubsetSize(payable.Keys, items.Keys);
  }

  lemma LeftOrReady(items: Items, next: nat, t: Tx)
    ensures
      var left := NotReady(items, next);
      && |left| <= |items|
      && (t.nonce in left || t.nonce in ReadyPart(items, left) <==> t.nonce in items)
      && (Holds(items, t) <==> Holds(left, t) || Holds(ReadyPart(items, left), t))
  {
    var left := NotReady(items, next);
    assert left.Keys <= items.Keys;
    SubsetSize(left.Keys, items.Keys);
  }

  /** What is queued after promotion was queued before, and is usable if its account was looked at. */
  lemma PromotedUsable(pending0: Lists, queue0: Lists, all0: set<Tx>, pending: Lists, queue: Lists,
                       s: ChainState, maxGas: nat, t: Tx, touched: bool, next: nat, limit: Option<nat>)
    requires Agree(pending0, true, queue0, false, all0, {})
    requires touched ==> Promoted(queue0, pending0, next, queue, pending, s, maxGas, t.from, limit)
    requires !touched ==> ItemsOf(queue, t.from) == ItemsOf(queue0, t.from)
    requires InLists(queue, t)
    ensures InLists(queue0, t) && t.from in queue0 && (touched ==> Usable(s, maxGas, t))
  {
  }

  lemma PromotedGrows(pending0: Lists, queue0: Lists, pending: Lists, queue: Lists, s: ChainState, maxGas: nat,
                      a: Address, touched: bool, next: nat, limit: Option<nat>)
    requires touched ==> Promoted(queue0, pending0, next, queue, pending, s, maxGas, a, limit)
    requires !touched ==> ItemsOf(pending, a) == ItemsOf(pending0, a)
    ensures |ItemsOf(pending, a)| >= |ItemsOf(pending0, a)|
  {
    assert ItemsOf(pending0, a).Keys <= ItemsOf(pending, a).Keys;
    SubsetSize(ItemsOf(pending0, a).Keys, ItemsOf(pending, a).Keys);
  }

  lemma FewerListed(pending0: Lists, queue0: Lists, all0: set<Tx>, pending: Lists, queue: Lists, all: set<Tx>)
    requires Agree(pending0, true, queue0, false, all0, {}) && Agree(pending, true, queue, false, all, {})
    requires forall t :: InLists(queue, t) ==> InLists(queue0, t)
    ensures Total(Lens(queue)) <= Total(Lens(queue0))
  {
    AsManyListed(queue0, false);
    AsManyListed(queue, false);
    forall t | t in Listed(queue)
      ensures t in Listed(queue0)
    {
      InListed(queue, false, t);
      InListed(queue0, false, t);
    }
    SubsetSize(Listed(queue), Listed(queue0));
  }

  /** Without the queue of `victims`, the pool holds what it held but for their queued transactions. */
  lemma WhoseQueueWent(pending: Lists, queue0: Lists, all0: set<Tx>, queue: Lists, all: set<Tx>, victims: set<Address>)
    requires Agree(pending, true, queue0, false, all0, {}) && Agree(pending, true, queue, false, all, {})
    requires forall a :: ItemsOf(queue, a) == if a in victims then map[] else ItemsOf(queue0, a)
    ensures forall t :: t in all <==> t in all0 && !(InLists(queue0, t) && t.from in victims)
    ensures |all0| - |all| == Total(Lens(queue0)) - Total(Lens(queue))
  {
    hide Agree, Total, Lens, InLists, ItemsOf;
    CountsAgree(pending, true, queue0, false, all0);
    CountsAgree(pending, true, queue, false, all);
    forall t
      ensures t in all <==> t in all0 && !(InLists(queue0, t) && t.from in victims)
    {
      QueueWent(pending, queue0, all0, queue, all, t.from in victims, t);
    }
  }

  lemma QueueWent(pending: Lists, queue0: Lists, all0: set<Tx>, queue: Lists, all: set<Tx>, gone: bool, t: Tx)
    requires Agree(pending, true, queue0, false, all0, {}) && Agree(pending, true, queue, false, all, {})
    requires ItemsOf(queue, t.from) == if gone then map[] else ItemsOf(queue0, t.from)
    ensures t in all <==> t in all0 && !(InLists(queue0, t) && gone)
  {
    assert !(Occupied(pending, t.from, t.nonce) && Occupied(queue0, t.from, t.nonce));
  }

  /** The transactions of one account that are not usable. */
  ghost function Unusable(s: ChainState, maxGas: nat, items: Items): set<Tx> {
    set n | n in items && !Usable(s, maxGas, items[n]) :: items[n]
  }

  /** First the stale ones go, then those beyond the account's means: together the unusable ones. */
  lemma UnusableInTwo(pending: Lists, queue: Lists, all: set<Tx>, s: ChainState, maxGas: nat, a: Address)
    requires Agree(pending, true, queue, false, all, {})
    ensures
      var items := ItemsOf(pending, a);
      var live := From(items, StateNonce(s, a));
      all - Gone(items, live) - Selected(live, TooCostly(Balance(s, a), maxGas)) == all - Unusable(s, maxGas, items)
  {
    var items := ItemsOf(pending, a);
    if a in pending {
      assert ListOk(pending[a], a, true);
    }
    var live := From(items, StateNonce(s, a));
    var drop := TooCostly(Balance(s, a), maxGas);
    forall t
      ensures t in Gone(items, live) || t in Selected(live, drop) <==> t in Unusable(s, maxGas, items)
    {
      if t in Unusable(s, maxGas, items) {
        assert Holds(items, t);
        if t.nonce >= StateNonce(s, a) {
          assert live[t.nonce] == t && drop(t);
        }
      }
    }
  }

  lemma UnusableOfOne(pending: Lists, queue: Lists, all: set<Tx>, s: ChainState, maxGas: nat, a: Address)
    requires Agree(pending, true, queue, false, all, {})
    ensures forall t :: t in Unusable(s, maxGas, ItemsOf(pending, a)) <==>
              InLists(pending, t) && t.from == a && !Usable(s, maxGas, t)
  {
    if a in pending {
      assert ListOk(pending[a], a, true);
    }
  }

  /** State of demoting account after account: those in `todo` are as before, the others executable. */
  ghost predicate Demoted(pending0: Lists, pending: Lists, s: ChainState, maxGas: nat, todo: set<Address>) {
    && (forall a :: a in todo ==> ItemsOf(pending, a) == ItemsOf(pending0, a))
    && (forall a :: a !in todo ==> Executable(ItemsOf(pending, a), StateNonce(s, a), Balance(s, a), maxGas))
    && (forall a :: Sub(ItemsOf(pending, a), ItemsOf(pending0, a)))
  }

  lemma NothingDemoted(pending: Lists, s: ChainState, maxGas: nat)
    ensures Demoted(pending, pending, s, maxGas, pending.Keys)
  {
  }

  lemma DemotedOne(pending0: Lists, before: Lists, pending: Lists, s: ChainState, maxGas: nat, todo: set<Address>,
                   addr: Address)
    requires Demoted(pending0, before, s, maxGas, todo) && addr in todo && SameBut(pending, before, addr)
    requires Executable(ItemsOf(pending, addr), StateNonce(s, addr), Balance(s, addr), maxGas)
    requires Sub(ItemsOf(pending, addr), ItemsOf(before, addr))
    ensures Demoted(pending0, pending, s, maxGas, todo - {addr}) && ItemsOf(before, addr) == ItemsOf(pending0, addr)
  {
    hide Executable, Sub;
    SameElsewhere(pending, before, addr);
  }

  lemma DemotedMeans(pending0: Lists, pending: Lists, s: ChainState, maxGas: nat)
    requires Demoted(pending0, pending, s, maxGas, {})
    ensures forall a :: Executable(ItemsOf(pending, a), StateNonce(s, a), Balance(s, a), maxGas)
    ensures forall a :: Sub(ItemsOf(pending, a), ItemsOf(pending0, a))
  {
  }

  /** What is still in the pool is listed, and what was queued did not become pending. */
  lemma StillListed(pending0: Lists, queue0: Lists, all0: set<Tx>, pending: Lists, queue: Lists, all: set<Tx>)
    requires Agree(pending0, true, queue0, false, all0, {}) && Agree(pending, true, queue, false, all, {})
    requires (forall a :: Sub(ItemsOf(pending, a), ItemsOf(pending0, a)))
    requires forall t :: t in all0 && !InLists(pending0, t) ==> t in all
    ensures forall t :: t in all ==> InLists(pending, t) || InLists(queue, t)
    ensures forall t :: InLists(pending0, t) ==> t in all0
    ensures forall t :: InLists(queue0, t) ==> InLists(queue, t)
  {
    hide ListsOk;
    forall t | InLists(queue0, t)
      ensures InLists(queue, t)
    {
      assert !Occupied(pending0, t.from, t.nonce);
      assert Sub(ItemsOf(pending, t.from), ItemsOf(pending0, t.from));
      assert t in all;
    }
  }

  /** When everything queued is usable and demotion has dropped what was not, everything is usable. */
  lemma UsableAfterAll(pending: Lists, queue: Lists, all: set<Tx>, all': set<Tx>, s: ChainState, maxGas: nat)
    requires Agree(pending, true, queue, false, all, {}) && (forall t :: InLists(queue, t) ==> Usable(s, maxGas, t))
    requires forall t :: t in all' <==> t in all && (InLists(pending, t) ==> Usable(s, maxGas, t))
    ensures AllUsable(s, maxGas, all') && forall t :: t in all' <==> t in all && Usable(s, maxGas, t)
  {
    hide ListsOk, Usable;
  }

  /** Truncation leaves every account as many transactions as it is granted. */
  lemma SlotsAreGranted(before: Lists, pending: Lists, locals: set<Address>, slots: nat, level: nat)
    requires Lens(pending) == Fill(Lens(before), Spammers(before, locals, slots), level) && level >= slots
    ensures forall a :: |ItemsOf(pending, a)| >= Least(|ItemsOf(before, a)|, slots)
  {
    LensAt(pending);
    LensAt(before);
    forall a
      ensures |ItemsOf(pending, a)| >= Least(|ItemsOf(before, a)|, slots)
    {
      assert a in pending <==> a in Lens(before);
      assert a in pending ==> Lens(pending)[a] >= Least(Lens(before)[a], slots);
    }
  }

  /** Truncation leaves the lists of local accounts, and all lists that keep their length. */
  lemma LocalsAreNotCut(before: Lists, pending: Lists, locals: set<Address>, slots: nat, level: nat)
    requires Lens(pending) == Fill(Lens(before), Spammers(before, locals, slots), level) && CutFrom(pending, before)
    ensures forall a :: a in locals ==> ItemsOf(pending, a) == ItemsOf(before, a)
  {
    LensAt(pending);
    LensAt(before);
    forall a | a in locals
      ensures ItemsOf(pending, a) == ItemsOf(before, a)
    {
      assert a in pending <==> a in Lens(before);
      assert a in pending ==> Lens(pending)[a] == Lens(before)[a];
      assert |ItemsOf(pending, a)| == |ItemsOf(before, a)|;
      AllLowest(ItemsOf(before, a), |ItemsOf(before, a)|);
    }
  }

  /** Cutting an executable list from the top leaves it executable. */
  lemma CutStaysExecutable(before: Lists, pending: Lists, a: Address, nonce: nat, balance: nat, maxGas: nat)
    requires CutFrom(pending, before) && Executable(ItemsOf(before, a), nonce, balance, maxGas)
    ensures Executable(ItemsOf(pending, a), nonce, balance, maxGas)
  {
    var items, k := ItemsOf(before, a), |ItemsOf(pending, a)|;
    assert ItemsOf(pending, a) == Lowest(items, k);
    if items != map[] {
      assert Lower(items, nonce) == {};
    }
  }

  /** The queued transactions of an account that are neither stale nor beyond its means. */
  function Payable(items: Items, s: ChainState, maxGas: nat, a: Address): Items {
    Without(From(items, StateNonce(s, a)), TooCostly(Balance(s, a), maxGas))
  }

  /** What leaves the queue when only `left` stays. */
  function ReadyPart(items: Items, left: Items): Items {
    items - left.Keys
  }

  lemma NothingQueued(pending: Items, start: nat)
    ensures NotReady(map[], start) == map[] && ReadyPart(map[], map[]) == map[]
    ensures Listing(map[], []) && pending + map[] == pending
  {
  }

  lemma LowestIsSub(l: ListValue, limit: nat)
    requires WellFormed(l)
    ensures Sub(Lowest(l.items, limit), l.items) && Bounded(Lowest(l.items, limit), l.costcap, l.gascap)
  {
  }

  /**
   A pending list after demotion: it starts at the account's nonce, and the account can pay for each transaction alone.
   */
  ghost predicate Executable(items: Items, nonce: nat, balance: nat, maxGas: nat) {
    items == map[]
      || (nonce in items && forall n :: n in items ==> n >= nonce && items[n].cost <= balance && items[n].gas <= maxGas)
  }

  lemma NothingIsExecutable(nonce: nat, balance: nat, maxGas: nat)
    ensures Executable(map[], nonce, balance, maxGas)
  {
  }

  method HighestOf(items: Items) returns (high: nat)
    requires items != map[]
    ensures high in items && forall n :: n in items ==> n <= high
  {
    high :| high in items;
    var todo := items.Keys;
    while todo != {}
      invariant todo <= items.Keys && high in items && forall n :: n in items && n !in todo ==> n <= high
      decreases |todo|
    {
      var n :| n in todo;
      if n > high {
        high := n;
      }
      todo := todo - {n};
    }
  }

  lemma ShrunkLens(m: Lists, a: Address, size: nat)
    requires a in m && 0 < size < |m[a].items|
    ensures Lens(SetList(m, a, m[a].(items := Lowest(m[a].items, size)))) == Lens(m)[a := size]
  {
    LowestSize(m[a].items, size);
  }

  /** The remote accounts with more pending transactions than every account is granted. */
  function Spammers(pending: Lists, locals: set<Address>, slots: nat): set<Address> {
    set a | a in pending && a !in locals && |pending[a].items| > slots
  }

  lemma ItemsAt(m: Lists, a: Address)
    requires a in m
    ensures ItemsOf(m, a) == m[a].items
  {
  }

  lemma LensAt(m: Lists)
    ensures Lens(m).Keys == m.Keys && forall a :: a in m ==> Lens(m)[a] == |m[a].items|
  {
  }

  lemma NoneShaved(lens: Lengths, c: nat)
    ensures Shaved(lens, [], c) == lens && forall cut :: Shaved(lens, cut, c).Keys == lens.Keys
  {
  }

  lemma ShaveStep(lens: Lengths, accounts: seq<Address>, i: nat, c: nat)
    requires i < |accounts| && c > 0 && accounts[i] in lens && lens[accounts[i]] == c
    requires forall k :: 0 <= k < i ==> accounts[k] != accounts[i]
    ensures accounts[i] in Shaved(lens, accounts[..i], c) && Shaved(lens, accounts[..i], c)[accounts[i]] == c
    ensures Shaved(lens, accounts[..i], c)[accounts[i] := c - 1] == Shaved(lens, accounts[..i + 1], c)
  {
    assert accounts[..i + 1] == accounts[..i] + [accounts[i]];
  }

  /** `next` is one past the highest nonce. */
  ghost predicate NextAfterAll(items: Items, next: nat) {
    (exists n :: n in items && n + 1 == next) && forall n :: n in items ==> n < next
  }

  lemma PastHighest(items: Items, high: nat)
    requires high in items && forall n :: n in items ==> n <= high
    ensures NextAfterAll(items, high + 1)
  {
  }

  lemma NoncesAfterRefresh(pending: Lists, queue: Lists, s: ChainState, nonces: map<Address, nat>, a: Address,
                           high: nat, nonces': map<Address, nat>)
    requires a in pending && high in pending[a].items && forall n :: n in pending[a].items ==> n <= high
    requires forall b :: Virtual(nonces', s, b) == if b == a then high + 1 else Virtual(nonces, s, b)
    ensures NoncesOk(pending, queue, s, nonces) ==> NoncesOk(pending, queue, s, nonces')
  {
    hide Virtual;
    if NoncesOk(pending, queue, s, nonces) {
      forall b ensures NoncesFit(ItemsOf(pending, b), ItemsOf(queue, b), StateNonce(s, b), Virtual(nonces', s, b)) {
        assert NoncesFit(ItemsOf(pending, b), ItemsOf(queue, b), StateNonce(s, b), Virtual(nonces, s, b));
        if b == a {
          assert Virtual(nonces, s, a) - 1 in pending[a].items;
        }
      }
    }
  }

  /**
   When the level reached is the guaranteed one, or there was nobody to cut, no remote account exceeds the guarantee.
   */
  lemma LevelBinds(before: Lists, pending: Lists, locals: set<Address>, slots: nat, level: nat)
    requires Lens(pending) == Fill(Lens(before), Spammers(before, locals, slots), level)
    ensures level == slots || Spammers(before, locals, slots) == {} ==>
              forall a :: a in pending && a !in locals ==> |pending[a].items| <= slots
  {
    forall a | a in pending && a !in locals && (level == slots || Spammers(before, locals, slots) == {})
      ensures |pending[a].items| <= slots
    {
      LensAt(pending);
      LensAt(before);
      assert Lens(pending)[a] == |pending[a].items|;
      assert a in Lens(before);
      assert a in Spammers(before, locals, slots) <==> Lens(before)[a] > slots;
    }
  }

  /**
   State of cutting queues in `order`, from its end: the accounts from `k` on are cut, all but the last of them to
   nothing.
   */
  ghost predicate Cutting(order: seq<Address>, k: nat, queue0: Lists, queue: Lists, drop: nat) {
    && k <= |order|
    && (forall i, j :: 0 <= i < j < |order| ==> order[i] != order[j])
    && (forall a :: a !in order[k..] ==> ItemsOf(queue, a) == ItemsOf(queue0, a))
    && (forall i :: k < i < |order| ==> order[i] !in queue)
    && (k < |order| ==> order[k] !in queue || drop == 0)
    && (forall a :: a in queue <==> ItemsOf(queue, a) != map[])
    && (forall a :: a in queue0 <==> ItemsOf(queue0, a) != map[])
    && (forall a :: a in order ==> a in queue0)
  }

  lemma NothingCut(order: seq<Address>, queue: Lists, drop: nat)
    requires forall i, j :: 0 <= i < j < |order| ==> order[i] != order[j]
    requires forall a :: a in queue <==> ItemsOf(queue, a) != map[]
    requires forall a :: a in order ==> a in queue
    ensures Cutting(order, |order|, queue, queue, drop)
  {
  }

  lemma NextCut(order: seq<Address>, k: nat, queue0: Lists, queue: Lists, drop: nat)
    requires k < |order| && Cutting(order, k + 1, queue0, queue, drop)
    ensures order[k] in queue && order[k] !in order[k + 1..] && ItemsOf(queue, order[k]) == queue[order[k]].items
  {
    assert order[k] in order && order[k] !in order[k + 1..];
  }

  lemma CutStep(order: seq<Address>, k: nat, queue0: Lists, queue: Lists, queue': Lists, drop: nat, count: nat)
    requires k < |order| && drop > 0 && Cutting(order, k + 1, queue0, queue, drop) && order[k] in queue
    requires SameBut(queue', queue, order[k])
    requires count == Least(|queue[order[k]].items|, drop)
    requires ItemsOf(queue', order[k]) == Lowest(queue[order[k]].items, |queue[order[k]].items| - count)
    requires forall a :: a in queue' <==> ItemsOf(queue', a) != map[]
    ensures Cutting(order, k, queue0, queue', drop - count)
  {
    var addr := order[k];
    assert order[k..] == [addr] + order[k + 1..];
    SameElsewhere(queue', queue, addr);
    NoneLowest(queue[addr].items);
  }

  function Least(a: nat, b: nat): (r: nat)
    ensures r <= a && r <= b
  {
    if a <= b then a else b
  }

  lemma NoneLowest(items: Items)
    ensures Lowest(items, 0) == map[]
  {
  }

  ghost predicate LaterBeat(beats: map<Address, int>, a: Address, b: Address) {
    Beat(beats, a) < Beat(beats, b)
  }

  /** What it means that the accounts from position `k` of the heartbeat order on have lost transactions. */
  lemma LatestWentFirst(order: seq<Address>, k: nat, queue0: Lists, queue: Lists, locals: set<Address>,
                        beats: map<Address, int>, drop: nat)
    requires Cutting(order, k, queue0, queue, drop) && (drop == 0 || k == 0)
    requires forall a :: a in order <==> a in queue0 && a !in locals
    requires forall i, j :: 0 <= i < j < |order| ==>
               order[i] != order[j] && Beat(beats, order[i]) <= Beat(beats, order[j])
    ensures drop > 0 ==> forall a :: a in queue ==> a in locals
    ensures forall a :: a in locals ==> ItemsOf(queue, a) == ItemsOf(queue0, a)
    ensures forall a, b :: ItemsOf(queue, a) != ItemsOf(queue0, a) && b in queue0 - locals && LaterBeat(beats, a, b) ==>
              b !in queue
  {
    forall a | a in order[k..] ensures a in order && a !in locals {
    }
    forall a, b | ItemsOf(queue, a) != ItemsOf(queue0, a) && b in queue0 - locals && LaterBeat(beats, a, b)
      ensures b !in queue
    {
      assert a in order[k..];
      var i :| k <= i < |order| && order[i] == a;
      var j :| 0 <= j < |order| && order[j] == b;
    }
  }

  function Beat(beats: map<Address, int>, a: Address): int {
    if a in beats then beats[a] else 0
  }

  /** sort.Sort on the accounts, by their last heartbeat. */
  method ByHeartbeat(accounts: set<Address>, beats: map<Address, int>) returns (order: seq<Address>)
    ensures forall a :: a in order <==> a in accounts
    ensures forall i, j :: 0 <= i < j < |order| ==>
              order[i] != order[j] && Beat(beats, order[i]) <= Beat(beats, order[j])
  {
    order := [];
    var todo := accounts;
    while todo != {}
      invariant todo <= accounts && forall a :: a in order <==> a in accounts && a !in todo
      invariant forall i, j :: 0 <= i < j < |order| ==>
                  order[i] != order[j] && Beat(beats, order[i]) <= Beat(beats, order[j])
      decreases |todo|
    {
      var a :| a in todo;
      var p := |order|;
      while p > 0 && Beat(beats, order[p - 1]) > Beat(beats, a)
        invariant 0 <= p <= |order| && forall i :: p <= i < |order| ==> Beat(beats, order[i]) > Beat(beats, a)
      {
        p := p - 1;
      }
      order := InsertBeat(order, p, a, beats);
      todo := todo - {a};
    }
  }

  method InsertBeat(order: seq<Address>, p: nat, a: Address, beats: map<Address, int>) returns (r: seq<Address>)
    requires p <= |order| && a !in order
    requires forall i, j :: 0 <= i < j < |order| ==>
               order[i] != order[j] && Beat(beats, order[i]) <= Beat(beats, order[j])
    requires forall i :: p <= i < |order| ==> Beat(beats, order[i]) > Beat(beats, a)
    requires p > 0 ==> Beat(beats, order[p - 1]) <= Beat(beats, a)
    ensures forall b :: b in r <==> b in order || b == a
    ensures forall i, j :: 0 <= i < j < |r| ==> r[i] != r[j] && Beat(beats, r[i]) <= Beat(beats, r[j])
  {
    hide Beat;
    r := order[..p] + [a] + order[p..];
    forall b ensures b in r <==> b in order || b == a {
      assert order == order[..p] + order[p..];
    }
  }

  /** Of the `k` lowest transactions, dropping the highest leaves the `k - 1` lowest. */
  lemma LowestAgain(items: Items, k: nat, high: nat)
    requires 0 < k <= |items| && high in Lowest(items, k) && forall n :: n in Lowest(items, k) ==> n <= high
    ensures Lowest(items, k) - {high} == Lowest(items, k - 1)
  {
    var s := AscendingKeys(items);
    KeysInOrder(items, s);
    LastOfLowest(items, s, k, high);
    forall n | n in items ensures |Lower(items, n)| < k && n != high <==> |Lower(items, n)| < k - 1 {
      var i :| 0 <= i < |s| && s[i] == n;
      RankOfPosition(items, s, i);
      assert i != k - 1 ==> s[i] != s[k - 1];
    }
  }

  lemma LastOfLowest(items: Items, s: seq<nat>, k: nat, high: nat)
    requires Ascending(s) && (forall n :: n in s <==> n in items) && 0 < k <= |s|
    requires high in Lowest(items, k) && forall n :: n in Lowest(items, k) ==> n <= high
    ensures high == s[k - 1]
  {
    var j :| 0 <= j < |s| && s[j] == high;
    RankOfPosition(items, s, j);
    RankOfPosition(items, s, k - 1);
    assert s[k - 1] in Lowest(items, k) by {
      assert s[k - 1] in s;
    }
  }

  /** Taking one transaction out of a queue. */
  lemma DequeuedOne(queue: Lists, a: Address, n: nat)
    requires a in queue && ListOk(queue[a], a, false) && n in queue[a].items
    ensures
      var tx := queue[a].items[n];
      var queue' := SetList(queue, tx.from, Removed(queue[tx.from], tx.nonce));
      && tx.from == a && InLists(queue, tx) && SameBut(queue', queue, a)
      && ItemsOf(queue', a) == ItemsOf(queue, a) - {n}
      && Total(Lens(queue')) == Total(Lens(queue)) - 1
  {
    var rest := Removed(queue[a], n);
    assert rest.items == queue[a].items - {n};
    hide SetList, SameBut;
    SetOne(queue, a, rest);
    LensAfterSet(queue, a, rest);
  }

  lemma LensAfterSet(m: Lists, a: Address, l: ListValue)
    requires a in m && |l.items| < |m[a].items|
    ensures Total(Lens(SetList(m, a, l))) == Total(Lens(m)) - |m[a].items| + |l.items|
  {
    hide Total;
    if l.items == map[] {
      assert Lens(SetList(m, a, l)) == Lens(m) - {a};
      TotalWithout(Lens(m), a);
    } else {
      assert Lens(SetList(m, a, l)) == Lens(m)[a := |l.items|];
      TotalUpdate(Lens(m), a, |l.items|);
    }
  }

  /** A level that cuts nothing. */
  lemma StartLevel(lens: Lengths, s: set<Address>, atLeast: nat, limit: nat) returns (level: nat)
    ensures Leveled(lens, s, lens, level, atLeast, limit) && forall a :: a in lens ==> lens[a] <= level
  {
    level := Total(lens) + atLeast;
    forall a | a in lens ensures lens[a] <= level {
      BelowTotal(lens, a);
    }
    FillAbove(lens, s, level);
  }

  lemma LevelMeans(lens: Lengths, s: set<Address>, now: Lengths, c: nat, atLeast: nat, limit: nat)
    requires Leveled(lens, s, now, c, atLeast, limit)
    ensures c >= atLeast && now == Fill(lens, s, c) && (now != lens ==> Total(now) + |Above(lens, s, c)| > limit)
  {
    if now != lens {
      ShortByFewerThanCut(lens, s, c, limit);
    }
  }

  lemma AtLevel(lens: Lengths, s: set<Address>, now: Lengths, c: nat, atLeast: nat, limit: nat, accounts: seq<Address>,
                floor: nat)
    requires Leveled(lens, s, now, c, atLeast, limit) && AboveOthers(lens, s, accounts, c, floor)
    ensures forall i :: 0 <= i < |accounts| ==> accounts[i] in now && now[accounts[i]] == c
    ensures forall i, j :: 0 <= i < j < |accounts| ==> accounts[i] != accounts[j]
  {
    forall i | 0 <= i < |accounts| ensures accounts[i] in now && now[accounts[i]] == c {
      assert accounts[i] in accounts;
    }
  }

  lemma FirstRound(lens: Lengths, s: set<Address>, level: nat, slots: nat, locals: set<Address>, pending: Lists)
    requires lens == Lens(pending) && forall a :: a in lens ==> lens[a] <= level
    requires s == Spammers(pending, locals, slots)
    ensures Round(lens, s, [], s, level) && forall a :: a in s ==> a in lens && lens[a] > slots
  {
  }

  lemma FirstLevel(lens: Lengths, s: set<Address>, level: nat, level': nat, atLeast: nat, limit: nat)
    requires Leveled(lens, s, lens, level, atLeast, limit) && Fill(lens, s, level) == Fill(lens, s, level')
    requires level' >= atLeast
    ensures Leveled(lens, s, lens, level', atLeast, limit)
  {
  }

  lemma LastRound(lens: Lengths, s: set<Address>, offenders: seq<Address>, c: nat, slots: nat)
    requires Round(lens, s, offenders, {}, c)
    ensures AboveOthers(lens, s, offenders, c, slots)
  {
  }

  /** Keeping all but one of the lowest drops the highest. */
  lemma OneDropped(items: Items, high: nat)
    requires Keyed(items) && high in items && forall n :: n in items ==> n <= high
    ensures Lowest(items, |items| - 1) == items - {high}
    ensures Gone(items, Lowest(items, |items| - 1)) == {items[high]}
  {
    forall n | n in items ensures |Lower(items, n)| < |items| - 1 <==> n != high {
      if n == high {
        assert Lower(items, n) == items.Keys - {high};
      } else {
        assert Lower(items, n) <= items.Keys - {high} - {n};
        SubsetSize(Lower(items, n), items.Keys - {high} - {n});
      }
    }
    assert Lowest(items, |items| - 1) == items - {high};
  }

  lemma NoncesAfterCap(pending: Lists, queue: Lists, s: ChainState, nonces: map<Address, nat>, a: Address, high: nat,
                       nonces': map<Address, nat>)
    requires NoncesOk(pending, queue, s, nonces) && a in pending
    requires high in pending[a].items && forall n :: n in pending[a].items ==> n <= high
    requires Lowest(pending[a].items, |pending[a].items| - 1) == pending[a].items - {high}
    requires forall b :: Virtual(nonces', s, b) ==
               if b == a && high < Virtual(nonces, s, a) then high else Virtual(nonces, s, b)
    ensures var rest := pending[a].(items := Lowest(pending[a].items, |pending[a].items| - 1));
            NoncesOk(SetList(pending, a, rest), queue, s, nonces')
  {
    hide Virtual, Lowest;
    var pending' := SetList(pending, a, pending[a].(items := Lowest(pending[a].items, |pending[a].items| - 1)));
    forall b ensures NoncesFit(ItemsOf(pending', b), ItemsOf(queue, b), StateNonce(s, b), Virtual(nonces', s, b)) {
      assert NoncesFit(ItemsOf(pending, b), ItemsOf(queue, b), StateNonce(s, b), Virtual(nonces, s, b));
      if b == a {
        assert ItemsOf(pending', b) == pending[a].items - {high};
        assert Virtual(nonces, s, a) - 1 in pending[a].items;
      } else {
        assert ItemsOf(pending', b) == ItemsOf(pending, b);
      }
    }
  }

  /** The transactions that `drop` selects. */
  function Selected(items: Items, drop: Tx -> bool): set<Tx> {
    set n | n in items && drop(items[n]) :: items[n]
  }

  lemma SoundPending(pending: Lists, queue: Lists, all: set<Tx>, a: Address)
    requires Agree(pending, true, queue, false, all, {}) && a in pending
    ensures ListOk(pending[a], a, true) && pending[a].items != map[]
  {
  }

  lemma ShrunkIsBounded(l: ListValue, rest: Items)
    requires WellFormed(l) && Sub(rest, l.items)
    ensures Bounded(rest, l.costcap, l.gascap)
  {
  }

  lemma FilteredIsBounded(l: ListValue, costLimit: nat, gasLimit: nat)
    requires WellFormed(l) && l.strict
    ensures Filtered(l, costLimit, gasLimit).items == Scanned(true, l.items, TooCostly(costLimit, gasLimit))
    ensures Sub(Filtered(l, costLimit, gasLimit).items, l.items) && Filtered(l, costLimit, gasLimit).strict
    ensures Bounded(Filtered(l, costLimit, gasLimit).items, Filtered(l, costLimit, gasLimit).costcap,
              Filtered(l, costLimit, gasLimit).gascap)
  {
  }

  lemma NothingScannedOut(drop: Tx -> bool)
    ensures Scanned(true, map[], drop) == map[] && Selected(map[], drop) == {}
  {
  }

  /** Of what a strict scan takes out, the rest besides the selected transactions are those above them. */
  lemma CostlyAreGone(items: Items, drop: Tx -> bool, a: Address)
    requires Keyed(items) && forall n :: n in items ==> items[n].from == a
    ensures
      var rest := Scanned(true, items, drop);
      var gone := Gone(items, rest);
      && Selected(items, drop) <= gone
      && (forall t :: t in gone ==> t.from == a)
      && forall n :: (exists t :: t in gone - Selected(items, drop) && t.nonce == n) <==>
         n in items && !drop(items[n]) && n !in rest
  {
    var rest := Scanned(true, items, drop);
    var gone := Gone(items, rest);
    forall n | n in items && !drop(items[n]) && n !in rest
      ensures exists t :: t in gone - Selected(items, drop) && t.nonce == n
    {
      assert items[n] in gone - Selected(items, drop);
    }
  }

  lemma AllGone(items: Items, a: Address)
    requires Keyed(items) && forall n :: n in items ==> items[n].from == a
    ensures forall t :: t in Gone(items, map[]) ==> t.from == a
    ensures forall n :: (exists t :: t in Gone(items, map[]) && t.nonce == n) <==> n in items
  {
    forall n | n in items ensures exists t :: t in Gone(items, map[]) && t.nonce == n {
      assert items[n] in Gone(items, map[]);
    }
  }

  lemma ShrinkPendingAgrees(pending: Lists, queue: Lists, all: set<Tx>, a: Address, rest: ListValue)
    requires Agree(pending, true, queue, false, all, {}) && a in pending
    requires Sub(rest.items, pending[a].items) && rest.strict && Bounded(rest.items, rest.costcap, rest.gascap)
    ensures Agree(SetList(pending, a, rest), true, queue, false, all, Gone(pending[a].items, rest.items))
  {
    hide Agree;
    TakeOut(pending, true, queue, false, all, {}, a, rest);
    assert {} + Gone(pending[a].items, rest.items) == Gone(pending[a].items, rest.items);
  }

  lemma ShrinkQueuedAgrees(pending: Lists, queue: Lists, all: set<Tx>, a: Address, rest: ListValue)
    requires Agree(pending, true, queue, false, all, {}) && a in queue
    requires Sub(rest.items, queue[a].items) && !rest.strict && Bounded(rest.items, rest.costcap, rest.gascap)
    ensures Agree(pending, true, SetList(queue, a, rest), false, all, Gone(queue[a].items, rest.items))
  {
    hide Agree;
    var gone := Gone(queue[a].items, rest.items);
    AgreeSwap(pending, true, queue, false, all, {});
    TakeOut(queue, false, pending, true, all, {}, a, rest);
    assert {} + gone == gone;
    AgreeSwap(SetList(queue, a, rest), false, pending, true, all, gone);
  }

  /** The transactions with nonces from `n` up to `next`. */
  ghost function Stretch(items: Items, n: nat, next: nat): set<Tx> {
    set m | m in items && n <= m < next :: items[m]
  }

  lemma RunStep(items: Items, n: nat, next: nat, a: Address)
    requires Keyed(items) && n in items && n < next && forall m :: m in items ==> items[m].from == a
    ensures items[n] in Stretch(items, n, next) && Stretch(items, n, next) - {items[n]} == Stretch(items, n + 1, next)
    ensures items[n].from == a && items[n].nonce == n
  {
  }

  lemma SoundQueue(pending: Lists, queue: Lists, all: set<Tx>, a: Address)
    requires Agree(pending, true, queue, false, all, {}) && a in queue
    ensures ListOk(queue[a], a, false) && queue[a].items != map[] && Separate(pending, queue)
  {
  }

  method LowestKey(items: Items) returns (low: nat)
    requires items != map[]
    ensures low in items && forall n :: n in items ==> low <= n
  {
    low :| low in items;
    var todo := items.Keys;
    while todo != {}
      invariant todo <= items.Keys && low in items && forall n :: n in items && n !in todo ==> low <= n
      decreases |todo|
    {
      var n :| n in todo;
      if n < low {
        low := n;
      }
      todo := todo - {n};
    }
  }

  /** Where the transactions that are ready for `start` begin and end. */
  method FirstRun(items: Items, start: nat) returns (low: nat, next: nat)
    requires items != map[]
    ensures low <= next && forall m :: low <= m < next ==> m in items
    ensures low == next ==> NotReady(items, start) == items && start !in items
    ensures low < next ==>
              && low <= start && next !in items && (forall n :: n in items ==> low <= n)
              && NotReady(items, start) == From(items, next)
  {
    hide NotReady;
    low := LowestKey(items);
    next := low;
    if low > start {
      NothingReady(items, start);
      return;
    }
    while next in items
      invariant low <= next && forall m :: low <= m < next ==> m in items
      decreases From(items, next).Keys
    {
      assert next in From(items, next) && next !in From(items, next + 1);
      assert From(items, next + 1).Keys <= From(items, next).Keys;
      next := next + 1;
    }
    NothingLess(items, low, next, start);
  }

  /** What is left and what is ready, given where the first run begins and ends. */
  ghost predicate Splits(items: Items, left: Items, low: nat, next: nat) {
    && low <= next && (forall m :: low <= m < next ==> m in items)
    && left == (map n | n in items && !(low <= n < next) :: items[n])
  }

  lemma ReadyAgrees(pending: Lists, queue: Lists, all: set<Tx>, a: Address, left: Items, low: nat, next: nat)
    requires Agree(pending, true, queue, false, all, {}) && a in queue && ListOk(queue[a], a, false)
    requires Splits(queue[a].items, left, low, next)
    ensures Agree(pending, true, SetList(queue, a, queue[a].(items := left)), false, all,
              Stretch(queue[a].items, low, next))
  {
    hide Agree;
    ShrinkQueuedAgrees(pending, queue, all, a, queue[a].(items := left));
    assert Gone(queue[a].items, left) == Stretch(queue[a].items, low, next);
  }

  lemma RunStep0(items: Items, next: nat)
    ensures Stretch(items, next, next) == {}
  {
  }

  lemma SetListKeys(m: Lists, a: Address, l: ListValue)
    requires a in m
    ensures SetList(m, a, l).Keys <= m.Keys
  {
  }

  lemma SetOne(m: Lists, a: Address, l: ListValue)
    ensures SameBut(SetList(m, a, l), m, a) && ItemsOf(SetList(m, a, l), a) == l.items
    ensures l.items != map[] ==> a in SetList(m, a, l) && SetList(m, a, l)[a] == l
  {
  }

  lemma RunDone(items: Items, low: nat, next: nat, left: Items, promoted: seq<Tx>)
    requires Keyed(items) && Splits(items, left, low, next)
    requires |promoted| == next - low
    requires forall i :: 0 <= i < |promoted| ==> low + i in items && promoted[i] == items[low + i]
    ensures (map m | low <= m < next && m in items :: items[m]) == ReadyPart(items, left)
    ensures Listing(ReadyPart(items, left), promoted)
  {
    var run := ReadyPart(items, left);
    forall tx ensures tx in promoted <==> Holds(run, tx) {
      if Holds(run, tx) {
        assert promoted[tx.nonce - low] == tx;
      }
    }
  }

  /** Promoting the run that starts at the next pending nonce extends the pending run to the end of it. */
  lemma NoncesAfterPromotion(pending: Lists, queue: Lists, s: ChainState, nonces: map<Address, nat>, a: Address,
                             pending': Lists, left: Items, nonces': map<Address, nat>, low: nat, next: nat)
    requires NoncesOk(pending, queue, s, nonces) && Separate(pending, queue) && a in queue
    requires Splits(queue[a].items, left, low, next) && (low < next ==> low <= Virtual(nonces, s, a))
    requires SameBut(pending', pending, a)
    requires forall n :: n in ItemsOf(pending', a) <==> n in ItemsOf(pending, a) || low <= n < next
    requires forall b :: Virtual(nonces', s, b) == if b == a && low < next then next else Virtual(nonces, s, b)
    ensures NoncesOk(pending', SetList(queue, a, queue[a].(items := left)), s, nonces')
  {
    var queue' := SetList(queue, a, queue[a].(items := left));
    if low < next {
      assert Occupied(queue, a, low);
      QueuedBeyondPending(pending, queue, s, nonces, a, low);
    }
    forall b ensures NoncesFit(ItemsOf(pending', b), ItemsOf(queue', b), StateNonce(s, b), Virtual(nonces', s, b)) {
      assert NoncesFit(ItemsOf(pending, b), ItemsOf(queue, b), StateNonce(s, b), Virtual(nonces, s, b));
      if b != a {
        SameElsewhere(pending', pending, a);
        assert ItemsOf(queue', b) == ItemsOf(queue, b);
      }
    }
  }

  lemma OwnEntry(pending: Lists, queue: Lists, all: set<Tx>, a: Address, n: nat)
    requires Agree(pending, true, queue, false, all, {}) && Occupied(pending, a, n)
    ensures pending[a].items[n].nonce == n && pending[a].items[n].from == a
  {
    assert ListOk(pending[a], a, true);
  }

  lemma QueuedEntry(pending: Lists, queue: Lists, all: set<Tx>, a: Address, n: nat)
    requires Agree(pending, true, queue, false, all, {})
    ensures Occupied(queue, a, n) ==> queue[a].items[n].nonce == n && queue[a].items[n].from == a
  {
    if Occupied(queue, a, n) {
      assert ListOk(queue[a], a, false);
    }
  }

  lemma NoncesAfterEnqueue(pending: Lists, queue: Lists, s: ChainState, nonces: map<Address, nat>, tx: Tx, bump: nat)
    requires StateNonce(s, tx.from) <= tx.nonce
    ensures NoncesOk(pending, queue, s, nonces) ==>
              NoncesOk(pending, queue[tx.from := Added(ListOf(queue, tx.from, false), tx, bump)], s, nonces)
  {
    if NoncesOk(pending, queue, s, nonces) {
      var queue' := queue[tx.from := Added(ListOf(queue, tx.from, false), tx, bump)];
      forall b ensures NoncesFit(ItemsOf(pending, b), ItemsOf(queue', b), StateNonce(s, b), Virtual(nonces, s, b)) {
        assert NoncesFit(ItemsOf(pending, b), ItemsOf(queue, b), StateNonce(s, b), Virtual(nonces, s, b));
        assert b != tx.from ==> ItemsOf(queue', b) == ItemsOf(queue, b);
      }
    }
  }

  lemma NoncesAfterReplacement(pending: Lists, queue: Lists, s: ChainState, nonces: map<Address, nat>, tx: Tx,
                               bump: nat)
    requires Occupied(pending, tx.from, tx.nonce)
    ensures NoncesOk(pending, queue, s, nonces) ==>
              NoncesOk(pending[tx.from := Added(pending[tx.from], tx, bump)], queue, s, nonces)
  {
    if NoncesOk(pending, queue, s, nonces) {
      var pending' := pending[tx.from := Added(pending[tx.from], tx, bump)];
      forall b ensures NoncesFit(ItemsOf(pending', b), ItemsOf(queue, b), StateNonce(s, b), Virtual(nonces, s, b)) {
        assert NoncesFit(ItemsOf(pending, b), ItemsOf(queue, b), StateNonce(s, b), Virtual(nonces, s, b));
        assert forall n :: n in ItemsOf(pending', b) <==> n in ItemsOf(pending, b);
      }
    }
  }

  /** The next pending nonce of account `a` is not waiting in its queue. */
  ghost predicate NextFree(queue: Lists, s: ChainState, nonces: map<Address, nat>, a: Address) {
    Virtual(nonces, s, a) !in ItemsOf(queue, a)
  }

  /** The noncer answers as before for all accounts but `a`. */
  ghost predicate SameNonces(s: ChainState, before: map<Address, nat>, after: map<Address, nat>, a: Address) {
    forall b :: b != a ==> Virtual(after, s, b) == Virtual(before, s, b)
  }

  /** The transactions after `nonce`. */
  function Later(items: Items, nonce: nat): set<Tx> {
    set n | n in items && n > nonce :: items[n]
  }

  lemma LimboIsFree(pending: Lists, queue: Lists, all: set<Tx>, limbo: set<Tx>, tx: Tx)
    requires Agree(pending, true, queue, false, all, limbo) && tx in limbo
    ensures !Occupied(pending, tx.from, tx.nonce) && !Occupied(queue, tx.from, tx.nonce)
  {
  }

  /** What removing `tx` does to the agreement of the lists with the lookup. */
  lemma RemoveAgrees(pending: Lists, queue: Lists, all: set<Tx>, tx: Tx)
    requires Agree(pending, true, queue, false, all, {})
    ensures tx !in all ==> !InLists(pending, tx) && !InLists(queue, tx)
    ensures tx in all && Occupied(pending, tx.from, tx.nonce) ==>
              && InLists(pending, tx) && !InLists(queue, tx) && pending[tx.from].strict && Keyed(pending[tx.from].items)
              && (forall t :: t in Later(pending[tx.from].items, tx.nonce) ==> t.from == tx.from)
              && Agree(SetList(pending, tx.from, Removed(pending[tx.from], tx.nonce)), true, queue, false, all - {tx},
                       Later(pending[tx.from].items, tx.nonce))
    ensures tx in all && !Occupied(pending, tx.from, tx.nonce) ==>
              && InLists(queue, tx) && !InLists(pending, tx)
              && (forall b, n :: Occupied(SetList(queue, tx.from, Removed(queue[tx.from], tx.nonce)), b, n) ==>
                    Occupied(queue, b, n))
              && Agree(pending, true, SetList(queue, tx.from, Removed(queue[tx.from], tx.nonce)), false, all - {tx}, {})
  {
    if tx in all && Occupied(pending, tx.from, tx.nonce) {
      assert !Occupied(queue, tx.from, tx.nonce);
      RemovePending(pending, queue, all, tx);
    } else if tx in all {
      RemoveQueued(pending, queue, all, tx);
      SetListFacts(queue, tx.from, Removed(queue[tx.from], tx.nonce));
    }
  }

  lemma RemovePending(pending: Lists, queue: Lists, all: set<Tx>, tx: Tx)
    requires Agree(pending, true, queue, false, all, {}) && InLists(pending, tx)
    ensures pending[tx.from].strict && Keyed(pending[tx.from].items)
    ensures forall t :: t in Later(pending[tx.from].items, tx.nonce) ==> t.from == tx.from
    ensures Agree(SetList(pending, tx.from, Removed(pending[tx.from], tx.nonce)), true, queue, false, all - {tx},
                  Later(pending[tx.from].items, tx.nonce))
  {
    var a := tx.from;
    assert ListOk(pending[a], a, true);
    var l, rest := pending[a].items, Removed(pending[a], tx.nonce);
    hide Agree;
    TakeOut(pending, true, queue, false, all, {}, a, rest);
    var gone := Gone(l, rest.items);
    Forget(SetList(pending, a, rest), true, queue, false, all, {} + gone, tx);
    forall t ensures t in gone && t != tx <==> t in Later(l, tx.nonce) {
      InGone(l, rest.items, t);
    }
    assert {} + gone - {tx} == Later(l, tx.nonce);
  }

  lemma RemoveQueued(pending: Lists, queue: Lists, all: set<Tx>, tx: Tx)
    requires Agree(pending, true, queue, false, all, {}) && InLists(queue, tx)
    ensures Agree(pending, true, SetList(queue, tx.from, Removed(queue[tx.from], tx.nonce)), false, all - {tx}, {})
  {
    var a := tx.from;
    assert ListOk(queue[a], a, false);
    AgreeSwap(pending, true, queue, false, all, {});
    hide Agree;
    var l, rest := queue[a].items, Removed(queue[a], tx.nonce);
    TakeOut(queue, false, pending, true, all, {}, a, rest);
    assert Gone(l, rest.items) == {tx};
    Forget(SetList(queue, a, rest), false, pending, true, all, {} + {tx}, tx);
    assert {} + {tx} - {tx} == {};
    AgreeSwap(SetList(queue, a, rest), false, pending, true, all - {tx}, {});
  }

  /** After a pending transaction and its successors are gone, the account's run ends before it. */
  lemma NoncesAfterRemoval(pending: Lists, queue: Lists, s: ChainState, nonces: map<Address, nat>, tx: Tx,
                           queue': Lists, nonces': map<Address, nat>)
    requires NoncesOk(pending, queue, s, nonces) && InLists(pending, tx)
    requires pending[tx.from].strict && Keyed(pending[tx.from].items)
    requires SameBut(queue', queue, tx.from)
    requires forall n :: n in ItemsOf(queue', tx.from) <==>
               n in ItemsOf(queue, tx.from) || exists t :: t in Later(pending[tx.from].items, tx.nonce) && t.nonce == n
    requires forall b :: Virtual(nonces', s, b) ==
               if b == tx.from && tx.nonce < Virtual(nonces, s, tx.from) then tx.nonce else Virtual(nonces, s, b)
    ensures NoncesOk(SetList(pending, tx.from, Removed(pending[tx.from], tx.nonce)), queue', s, nonces')
  {
    var rest := Removed(pending[tx.from], tx.nonce);
    forall b
      ensures NoncesFit(ItemsOf(SetList(pending, tx.from, rest), b), ItemsOf(queue', b), StateNonce(s, b),
                Virtual(nonces', s, b))
    {
      assert NoncesFit(ItemsOf(pending, b), ItemsOf(queue, b), StateNonce(s, b), Virtual(nonces, s, b));
      if b == tx.from {
        RemoveKeepsGapless(pending[b], StateNonce(s, b), Virtual(nonces, s, b), tx.nonce);
        assert ItemsOf(SetList(pending, b, rest), b) == rest.items;
      } else {
        SameElsewhere(queue', queue, tx.from);
      }
    }
  }

  /** Taking transactions out of a queue keeps the nonces in order. */
  lemma NoncesAfterDequeue(pending: Lists, queue: Lists, s: ChainState, nonces: map<Address, nat>, a: Address,
                           queue': Lists)
    requires NoncesOk(pending, queue, s, nonces)
    requires forall b, n :: Occupied(queue', b, n) ==> Occupied(queue, b, n)
    ensures NoncesOk(pending, queue', s, nonces)
  {
    forall b ensures NoncesFit(ItemsOf(pending, b), ItemsOf(queue', b), StateNonce(s, b), Virtual(nonces, s, b)) {
      assert NoncesFit(ItemsOf(pending, b), ItemsOf(queue, b), StateNonce(s, b), Virtual(nonces, s, b));
      forall n | n in ItemsOf(queue', b) ensures n in ItemsOf(queue, b) {
        assert Occupied(queue', b, n);
      }
    }
  }

  /** What putting `tx` into the queue does to the agreement of the lists with the lookup. */
  lemma EnqueueAgrees(pending: Lists, queue: Lists, all: set<Tx>, limbo: set<Tx>, tx: Tx, bump: nat)
    requires Agree(pending, true, queue, false, all, limbo) && !Occupied(pending, tx.from, tx.nonce)
    requires tx in limbo || (tx !in all && limbo == {})
    ensures
      var l := ListOf(queue, tx.from, false);
      var queue' := queue[tx.from := Added(l, tx, bump)];
      && (tx in limbo ==> tx in all && tx.nonce !in l.items && Accepts(l, tx, bump))
      && (Occupied(queue, tx.from, tx.nonce) <==> tx.nonce in l.items)
      && (tx.nonce !in l.items ==>
         Accepts(l, tx, bump) && Agree(pending, true, queue', false, all + {tx}, limbo - {tx}))
      && (tx.nonce in l.items && Accepts(l, tx, bump) ==>
            && l.items[tx.nonce] in all
            && Agree(pending, true, queue', false, all - {l.items[tx.nonce]} + {tx}, limbo - {tx}))
  {
    AgreeSwap(pending, true, queue, false, all, limbo);
    var l := ListOf(queue, tx.from, false);
    var queue' := queue[tx.from := Added(l, tx, bump)];
    if tx in limbo {
      PutIn(queue, false, pending, true, all, limbo, tx, bump);
      assert all + {tx} == all;
      AgreeSwap(queue', false, pending, true, all, limbo - {tx});
    } else if tx.nonce !in l.items {
      Learn(queue, false, pending, true, all, limbo, tx);
      PutIn(queue, false, pending, true, all + {tx}, limbo + {tx}, tx, bump);
      assert limbo + {tx} - {tx} == limbo - {tx};
      AgreeSwap(queue', false, pending, true, all + {tx}, limbo - {tx});
    } else if Accepts(l, tx, bump) {
      SwapIn(queue, false, pending, true, all, tx, bump);
      assert limbo - {tx} == {};
      AgreeSwap(queue', false, pending, true, all - {l.items[tx.nonce]} + {tx}, {});
    }
  }
}

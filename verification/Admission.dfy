/**
 What becomes of a transaction that is offered to the pool, as a function of the pool's rules and of what it holds:
 whether it is refused, which transactions are evicted for it, and whether it takes the place of another one.
 */
module Admission {
  import opened Options
  import opened Transactions
  import opened TxLists
  import opened TxPoolSpec
  import opened TxPricedLists
  import BinaryHeap

  datatype Config = Config(priceLimit: nat, priceBump: nat, accountSlots: nat, globalSlots: nat, accountQueue: nat,
                           globalQueue: nat)

  const DEFAULT_CONFIG := Config(1, 10, 16, 4096, 64, 1024)

  /** Zero limits are replaced by their defaults when the pool is created. */
  function Sanitized(c: Config): (r: Config)
    ensures Sane(r) && (Sane(c) ==> r == c)
    ensures Repaired(c.priceLimit, 1, r.priceLimit) && Repaired(c.priceBump, 10, r.priceBump)
    ensures Repaired(c.accountSlots, 16, r.accountSlots) && Repaired(c.globalSlots, 4096, r.globalSlots)
    ensures Repaired(c.accountQueue, 64, r.accountQueue) && Repaired(c.globalQueue, 1024, r.globalQueue)
  {
    Config(
      if c.priceLimit < 1 then DEFAULT_CONFIG.priceLimit else c.priceLimit,
      if c.priceBump < 1 then DEFAULT_CONFIG.priceBump else c.priceBump,
      if c.accountSlots < 1 then DEFAULT_CONFIG.accountSlots else c.accountSlots,
      if c.globalSlots < 1 then DEFAULT_CONFIG.globalSlots else c.globalSlots,
      if c.accountQueue < 1 then DEFAULT_CONFIG.accountQueue else c.accountQueue,
      if c.globalQueue < 1 then DEFAULT_CONFIG.globalQueue else c.globalQueue)
  }

  predicate Sane(c: Config) {
    && c.priceLimit > 0 && c.priceBump > 0 && c.accountSlots > 0
    && c.globalSlots > 0 && c.accountQueue > 0 && c.globalQueue > 0
  }

  /** A limit is kept if it is positive, whatever the other limits are, and else gets its default. */
  ghost predicate Repaired(given: nat, default: nat, limit: nat) {
    (given > 0 && limit == given) || (given == 0 && limit == default)
  }

  /** The transactions the pool may hold; from this number on it makes room first. */
  function Capacity(c: Config): nat {
    c.globalSlots + c.globalQueue
  }

  /** The errors of the source, and as the last one the panic of a slice allocation with negative capacity. */
  datatype Error =
    | AlreadyKnown | OversizedData | GasLimit | Underpriced | NonceTooLow | InsufficientFunds | IntrinsicGas
    | ReplaceUnderpriced | CapacityPanic

  datatype Room = Made | Refused | Crashed

  const TX_MAX_SIZE := 4 * TX_SLOT_SIZE

  /** What a transaction is measured by. */
  datatype Rules = Rules(config: Config, state: ChainState, gasPrice: nat, maxGas: nat)

  /** What the pool holds: its transactions, the entries of the price heap and the local accounts. */
  datatype View = View(all: set<Tx>, items: seq<Tx>, locals: set<Address>)

  /** The price heap is one, and has an entry for every transaction. */
  ghost predicate Sound(v: View) {
    BinaryHeap.IsHeap(PriceLess, v.items) && v.all <= Members(v.items)
  }

  /** Checks a transaction against the chain state and the limits of the pool. */
  function ValidateTx(r: Rules, locals: set<Address>, tx: Tx, local: bool): Option<Error> {
    if tx.size > TX_MAX_SIZE then Some(OversizedData)
    else if r.maxGas < tx.gas then Some(GasLimit)
    else if !local && tx.from !in locals && tx.price < r.gasPrice then Some(Underpriced)
    else if StateNonce(r.state, tx.from) > tx.nonce then Some(NonceTooLow)
    else if Balance(r.state, tx.from) < tx.cost then Some(InsufficientFunds)
    else if tx.gas < tx.intrinsic then Some(IntrinsicGas)
    else None
  }

  /** As many transactions as the limits allow. */
  ghost predicate Full(c: Config, v: View) {
    |v.all| >= Capacity(c)
  }

  /** A remote transaction that is not dearer than anything in the pool. */
  ghost predicate Outpriced(v: View, tx: Tx, local: bool) {
    !local && tx.from !in v.locals && forall t :: t in v.all ==> t.price >= tx.price
  }

  /** The price heap when room is made for `tx`: looking for the cheapest transaction has popped stale roots. */
  ghost function HeapFor(v: View, tx: Tx, local: bool): seq<Tx> {
    if local || tx.from in v.locals then v.items else Cleaned(v.items, v.all)
  }

  /** The slots that must be freed for `tx`. */
  ghost function SlotsFor(c: Config, all: set<Tx>, tx: Tx): int {
    SumSlots(all) - Capacity(c) + NumSlots(tx)
  }

  /** More slots must be freed for `tx` than the heap has entries, and no account is local. */
  ghost predicate Overdrawn(c: Config, v: View, tx: Tx) {
    Full(c, v) && v.locals == {} && SlotsFor(c, v.all, tx) > |v.items|
  }

  /** Whether room can be made for `tx`. */
  ghost function RoomFor(c: Config, v: View, tx: Tx, local: bool): Room {
    if Full(c, v) && Outpriced(v, tx, local) then Refused
    else if Overdrawn(c, v.(items := HeapFor(v, tx, local)), tx) then Crashed
    else Made
  }

  /** The slots that Discard is asked for, if the pool is full and room can be made. */
  ghost function AskedFor(c: Config, v: View, tx: Tx, local: bool): int {
    if Full(c, v) && RoomFor(c, v, tx, local) == Made
    then Asked(SlotsFor(c, v.all, tx), HeapFor(v, tx, local), v.locals)
    else 0
  }

  /** What is evicted for `tx`, entry by entry. */
  ghost function Evicted(c: Config, v: View, tx: Tx, local: bool): seq<Tx> {
    Discarded(HeapFor(v, tx, local), v.all, v.locals, AskedFor(c, v, tx, local))
  }

  lemma NoneEvicted(c: Config, v: View, tx: Tx, local: bool)
    ensures !Full(c, v) || RoomFor(c, v, tx, local) != Made ==>
              AskedFor(c, v, tx, local) == 0 && Evicted(c, v, tx, local) == []
  {
    hide Full, RoomFor;
  }

  /** Why `tx` is turned away before it is compared with a transaction of the same nonce, if so. */
  ghost function Refusal(r: Rules, v: View, tx: Tx, local: bool): Option<Error> {
    if tx in v.all then Some(AlreadyKnown)
    else if ValidateTx(r, v.locals, tx, local).Some? then ValidateTx(r, v.locals, tx, local)
    else
      match RoomFor(r.config, v, tx, local)
      case Refused => Some(Underpriced)
      case Crashed => Some(CapacityPanic)
      case Made => None
  }

  /** The transactions with the sender and the nonce of `tx`. */
  ghost function Rivals(all: set<Tx>, tx: Tx): set<Tx> {
    set t | t in all && t.from == tx.from && t.nonce == tx.nonce
  }

  /** Whether `tx` outbids all its rivals. */
  ghost predicate Wins(all: set<Tx>, tx: Tx, bump: nat) {
    forall t :: t in Rivals(all, tx) ==> Outbids(tx, t, bump)
  }

  /**
   Remote transactions went, none of them dearer than a remote one that stays, and no more than needed for `asked`
   slots.
   */
  ghost predicate CheapestWent(all: set<Tx>, locals: set<Address>, gone: seq<Tx>, asked: int) {
    && (forall t :: t in gone ==> t in all && t.from !in locals)
    && (forall t, u | t in gone && u in all && u !in gone && u.from !in locals ::
          t.price < u.price || (t.price == u.price && t.nonce >= u.nonce))
    && (SlotsOf(gone) >= asked || forall t :: t in all && t !in gone ==> t.from in locals)
    && (gone != [] ==> SlotsOf(gone[..|gone| - 1]) < asked)
  }

  lemma NothingWent(all: set<Tx>, locals: set<Address>)
    ensures CheapestWent(all, locals, [], 0) && Members([]) == {} && all - Members([]) == all
  {
  }

  /** What adding a transaction returned, what was evicted for it, and what the pool holds afterwards. */
  datatype Outcome = Outcome(err: Option<Error>, replaced: bool, evicted: seq<Tx>, after: View)

  /** The outcome of offering `tx` to a pool that holds `v`. */
  ghost predicate Handled(r: Rules, v: View, tx: Tx, local: bool, o: Outcome) {
    var refusal, left := Refusal(r, v, tx, local), v.all - Members(o.evicted);
    && o.evicted == (if refusal.None? then Evicted(r.config, v, tx, local) else [])
    && CheapestWent(v.all, v.locals, o.evicted, if refusal.None? then AskedFor(r.config, v, tx, local) else 0)
    && (refusal.Some? ==> o.err == refusal)
    && (refusal.None? ==> o.err == if Wins(left, tx, r.config.priceBump) then None else Some(ReplaceUnderpriced))
    && (o.replaced <==> o.err == None && Rivals(left, tx) != {})
    && o.after.all == (if o.err == None then left - Rivals(left, tx) + {tx} else left)
    && v.locals <= o.after.locals <= v.locals + {tx.from}
    && (!local || o.err.Some? ==> o.after.locals == v.locals)
    && (local && o.err == None && !o.replaced ==> tx.from in o.after.locals)
    && Sound(o.after)
    && (refusal.Some? ==> o.after.items == v.items || o.after.items == HeapFor(v, tx, local))
    && (refusal == Some(CapacityPanic) ==> o.after.items == HeapFor(v, tx, local))
    && (o.err == None && !o.replaced && !Full(r.config, v) ==>
          multiset(o.after.items) == multiset(v.items) + multiset{tx})
  }

  /** The outcome when no room can be made for a valid new transaction. */
  lemma DeniedIsHandled(r: Rules, v: View, tx: Tx, local: bool, err: Error, after: View)
    requires tx !in v.all && ValidateTx(r, v.locals, tx, local) == None && RoomFor(r.config, v, tx, local) != Made
    requires err == if RoomFor(r.config, v, tx, local) == Refused then Underpriced else CapacityPanic
    requires after.all == v.all && after.locals == v.locals && after.items == HeapFor(v, tx, local) && Sound(after)
    ensures Handled(r, v, tx, local, Outcome(Some(err), false, [], after))
  {
    hide ValidateTx, RoomFor, HeapFor, Sound, AskedFor, CheapestWent, Evicted, Full;
    NothingWent(v.all, v.locals);
  }

  /** The outcome when room has been made and the transaction was compared with its rivals. */
  lemma PlacedIsHandled(r: Rules, v: View, tx: Tx, local: bool, evicted: seq<Tx>, replaced: bool, ok: bool, after: View)
    requires tx !in v.all && ValidateTx(r, v.locals, tx, local) == None && RoomFor(r.config, v, tx, local) == Made
    requires evicted == Evicted(r.config, v, tx, local)
    requires CheapestWent(v.all, v.locals, evicted, AskedFor(r.config, v, tx, local))
    requires
      var left := v.all - Members(evicted);
      && (ok <==> Wins(left, tx, r.config.priceBump)) && (replaced <==> ok && Rivals(left, tx) != {})
      && after.all == if ok then left - Rivals(left, tx) + {tx} else left
    requires v.locals <= after.locals <= v.locals + {tx.from} && (!local || !ok ==> after.locals == v.locals)
    requires local && ok && !replaced ==> tx.from in after.locals
    requires Sound(after)
    requires ok && !replaced && !Full(r.config, v) ==> multiset(after.items) == multiset(v.items) + multiset{tx}
    ensures Handled(r, v, tx, local, Outcome(if ok then None else Some(ReplaceUnderpriced), replaced, evicted, after))
    ensures Refusal(r, v, tx, local) == None
  {
    hide ValidateTx, RoomFor, HeapFor, Sound, AskedFor, CheapestWent, Evicted, Full, Wins, Rivals, Members;
  }

  /** A transaction is current and its sender can pay for it alone. */
  ghost predicate Usable(s: ChainState, maxGas: nat, tx: Tx) {
    StateNonce(s, tx.from) <= tx.nonce && tx.cost <= Balance(s, tx.from) && tx.gas <= maxGas
  }

  ghost predicate AllUsable(s: ChainState, maxGas: nat, all: set<Tx>) {
    forall t :: t in all ==> Usable(s, maxGas, t)
  }

  /** One of `txs` offers enough more than `t` to take its place. */
  ghost predicate OutbidBy(txs: set<Tx>, t: Tx, bump: nat) {
    exists u :: u in txs && u.from == t.from && u.nonce == t.nonce && Outbids(u, t, bump)
  }

  /**
   What the pool asks of every transaction: the price floor for remote ones, gas for its data, and at most four slots.
   */
  ghost predicate AllDecent(gasPrice: nat, locals: set<Address>, all: set<Tx>) {
    forall t :: t in all ==> (t.from in locals || t.price >= gasPrice) && t.gas >= t.intrinsic && NumSlots(t) <= 4
  }

  /** The transactions that are not of local accounts. */
  ghost function Remote(all: set<Tx>, locals: set<Address>): set<Tx> {
    set t | t in all && t.from !in locals
  }

  /** The six limits, one by one. */
  lemma ValidExactly(r: Rules, locals: set<Address>, tx: Tx, local: bool)
    ensures ValidateTx(r, locals, tx, local) == None <==>
              && tx.size <= 131072 && tx.gas <= r.maxGas && (local || tx.from in locals || tx.price >= r.gasPrice)
              && StateNonce(r.state, tx.from) <= tx.nonce && tx.cost <= Balance(r.state, tx.from)
              && tx.intrinsic <= tx.gas
  {
  }

  /** What each error blames. */
  lemma RefusedRightly(r: Rules, v: View, tx: Tx, local: bool, o: Outcome)
    requires Handled(r, v, tx, local, o) && o.err.Some?
    ensures
      match o.err.value
      case AlreadyKnown => tx in v.all
      case OversizedData => tx.size > 131072
      case GasLimit => tx.gas > r.maxGas
      case Underpriced =>
        && !local && tx.from !in v.locals
        && (tx.price < r.gasPrice || (|v.all| >= Capacity(r.config) && forall t :: t in v.all ==> tx.price <= t.price))
      case NonceTooLow => tx.nonce < StateNonce(r.state, tx.from)
      case InsufficientFunds => tx.cost > Balance(r.state, tx.from)
      case IntrinsicGas => tx.gas < tx.intrinsic
      case ReplaceUnderpriced =>
        exists t :: t in v.all && t.from == tx.from && t.nonce == tx.nonce
          && (tx.price <= t.price || 100 * (tx.price + 1) <= t.price * (100 + r.config.priceBump))
      case CapacityPanic =>
        |v.all| >= Capacity(r.config) && v.locals == {} && SumSlots(v.all) + NumSlots(tx) > Capacity(r.config)
  {
    hide CheapestWent, SumSlots, NumSlots, Sound, HeapFor, Evicted, AskedFor;
    if o.err == Some(ReplaceUnderpriced) && Refusal(r, v, tx, local).None? {
      var left := v.all - Members(o.evicted);
      var t :| t in Rivals(left, tx) && !Outbids(tx, t, r.config.priceBump);
      OutbidsByPercent(tx, t, r.config.priceBump);
      assert t in v.all;
    }
  }

  /**
   Every transaction keeps to the limits of the pool; a local one that replaces a remote one does because it pays more.
   */
  lemma HandledIsDecent(r: Rules, v: View, tx: Tx, local: bool, o: Outcome)
    requires Handled(r, v, tx, local, o) && AllDecent(r.gasPrice, v.locals, v.all)
    ensures AllDecent(r.gasPrice, o.after.locals, o.after.all)
  {
    ValidExactly(r, v.locals, tx, local);
    SlotsHoldSize(tx);
    hide CheapestWent, Evicted, RoomFor, AskedFor, Sound, Full, HeapFor, ValidateTx, NumSlots;
    var left := v.all - Members(o.evicted);
    if o.err == None && tx.from !in o.after.locals && local {
      var t :| t in Rivals(left, tx);
      assert Outbids(tx, t, r.config.priceBump);
    }
  }

  /** Remote transactions never exceed the capacity of the pool. */
  lemma HandledIsLimited(r: Rules, v: View, tx: Tx, local: bool, o: Outcome)
    requires Handled(r, v, tx, local, o) && Sound(v) && Capacity(r.config) > 0
    requires |Remote(v.all, v.locals)| <= Capacity(r.config)
    ensures |Remote(o.after.all, o.after.locals)| <= Capacity(r.config)
  {
    HandledKeeps(r, v, tx, local, o);
    EvictedIsGone(r, v, tx, local, o);
    hide Handled, Remote, Sound;
    RemoteAreFew(v.all, v.locals);
    if o.err != None {
      FewerRemote(v.all, v.locals, o.after.all, o.after.locals);
    } else {
      OneMoreRemote(v.all, v.locals, o.after.all, o.after.locals, tx);
      if Full(r.config, v) && Remote(v.all, v.locals) != {} {
        SomeoneGoes(r, v, tx, local, o);
        assert o.evicted[0] in o.evicted;
        OneForOther(v.all, v.locals, o.after.all, o.after.locals, tx, o.evicted[0]);
      }
    }
  }

  lemma RemoteAreFew(all: set<Tx>, locals: set<Address>)
    ensures |Remote(all, locals)| <= |all|
  {
    SubsetSize(Remote(all, locals), all);
  }

  lemma FewerRemote(all: set<Tx>, locals: set<Address>, all': set<Tx>, locals': set<Address>)
    requires all' <= all && locals <= locals'
    ensures |Remote(all', locals')| <= |Remote(all, locals)|
  {
    SubsetSize(Remote(all', locals'), Remote(all, locals));
  }

  lemma OneMoreRemote(all: set<Tx>, locals: set<Address>, all': set<Tx>, locals': set<Address>, tx: Tx)
    requires all' <= all + {tx} && locals <= locals'
    ensures |Remote(all', locals')| <= |Remote(all, locals)| + 1
  {
    SubsetSize(Remote(all', locals'), Remote(all, locals) + {tx});
  }

  lemma OneForOther(all: set<Tx>, locals: set<Address>, all': set<Tx>, locals': set<Address>, tx: Tx, t: Tx)
    requires all' <= all + {tx} && locals <= locals' && t in Remote(all, locals) && (t !in all' || t == tx)
    ensures |Remote(all', locals')| <= |Remote(all, locals)|
  {
    SubsetSize(Remote(all', locals'), Remote(all, locals) - {t} + {tx});
  }

  lemma EvictedIsGone(r: Rules, v: View, tx: Tx, local: bool, o: Outcome)
    requires Handled(r, v, tx, local, o)
    ensures v.locals <= o.after.locals && forall t :: t in o.evicted ==> t !in o.after.all || t == tx
  {
    hide CheapestWent, Evicted, AskedFor, RoomFor, HeapFor, Sound, ValidateTx, Full, Outbids;
  }

  /** For a transaction that is taken into a full pool with remote transactions, one of these goes. */
  lemma SomeoneGoes(r: Rules, v: View, tx: Tx, local: bool, o: Outcome)
    requires Handled(r, v, tx, local, o) && Sound(v) && o.err == None && Full(r.config, v)
    requires Remote(v.all, v.locals) != {}
    ensures o.evicted != [] && o.evicted[0] in Remote(v.all, v.locals)
  {
    var t :| t in Remote(v.all, v.locals);
    SlotsOfMany(v.all);
    SlotsHoldSize(tx);
    CleanedCovers(v.items, v.all);
    assert t in HeapFor(v, tx, local);
    RemoteIsCounted(HeapFor(v, tx, local), v.locals, t);
    assert AskedFor(r.config, v, tx, local) > 0;
    hide Evicted, AskedFor, HeapFor, SumSlots;
    assert o.evicted != [] ==> o.evicted[0] in o.evicted;
  }

  lemma {:induction false} RemoteIsCounted(items: seq<Tx>, locals: set<Address>, t: Tx)
    requires t in items && t.from !in locals
    ensures RemoteEntries(items, locals) > 0
    decreases |items|
  {
    var n := |items| - 1;
    if items[n] != t {
      var i :| 0 <= i < |items| && items[i] == t;
      assert items[..n][i] == t;
      RemoteIsCounted(items[..n], locals, t);
    }
  }

  /** Only what is offered comes in, and it is usable; a local transaction leaves only if it is outbid. */
  lemma HandledKeeps(r: Rules, v: View, tx: Tx, local: bool, o: Outcome)
    requires Handled(r, v, tx, local, o)
    ensures o.after.all <= v.all + {tx} && (o.err == None ==> tx in o.after.all)
    ensures o.err != None ==> o.after.all <= v.all
    ensures AllUsable(r.state, r.maxGas, v.all) ==> AllUsable(r.state, r.maxGas, o.after.all)
    ensures forall t :: t in v.all && (t.from in v.locals || o.evicted == []) ==>
              t in o.after.all || OutbidBy({tx}, t, r.config.priceBump)
  {
    hide Outbids, CheapestWent, Evicted, RoomFor, AskedFor, Sound, Full, HeapFor, ValidateTx, Usable;
    ValidIsUsable(r, v.locals, tx, local);
    var asked := if Refusal(r, v, tx, local).None? then AskedFor(r.config, v, tx, local) else 0;
    OnlyRemoteWent(v.all, v.locals, o.evicted, asked);
    var left := v.all - Members(o.evicted);
    forall t | t in v.all && (t.from in v.locals || o.evicted == []) && t !in o.after.all
      ensures OutbidBy({tx}, t, r.config.priceBump)
    {
      assert t in left && t in Rivals(left, tx);
      assert Outbids(tx, t, r.config.priceBump);
      assert tx in {tx};
    }
  }

  lemma ValidIsUsable(r: Rules, locals: set<Address>, tx: Tx, local: bool)
    ensures ValidateTx(r, locals, tx, local) == None ==> Usable(r.state, r.maxGas, tx)
  {
  }

  lemma OnlyRemoteWent(all: set<Tx>, locals: set<Address>, gone: seq<Tx>, asked: int)
    requires CheapestWent(all, locals, gone, asked)
    ensures forall t :: t in gone ==> t in all && t.from !in locals
  {
  }

  /** Making room for `tx` has panicked: the pool is as it was, but for stale entries. */
  ghost predicate Panicked(r: Rules, v: View, tx: Tx, local: bool, after: View) {
    && Refusal(r, v, tx, local) == Some(CapacityPanic)
    && after == v.(items := HeapFor(v, tx, local)) && Overdrawn(r.config, after, tx)
  }

  lemma PanickedMeans(r: Rules, v: View, tx: Tx, local: bool, after: View)
    requires Panicked(r, v, tx, local, after)
    ensures after.all == v.all && after.locals == v.locals && Overdrawn(r.config, after, tx)
  {
  }

  lemma PanicLeaves(r: Rules, v: View, tx: Tx, local: bool, o: Outcome)
    requires Handled(r, v, tx, local, o) && o.err == Some(CapacityPanic)
    ensures Panicked(r, v, tx, local, o.after) && o.evicted == [] && o.after.locals == v.locals == {}
  {
    hide Outbids, CheapestWent, Evicted, SumSlots, SlotsFor, HeapFor;
    assert v.all - Members([]) == v.all;
  }

  // ----- a batch -----

  /** What the pool holds after the outcomes of `log`. */
  ghost function End(v: View, log: seq<Outcome>): View {
    if log == [] then v else log[|log| - 1].after
  }

  /** The outcomes of offering the first of `txs` one after the other. */
  ghost predicate Batch(r: Rules, v: View, txs: seq<Tx>, local: bool, log: seq<Outcome>) {
    |log| <= |txs| && forall i :: 0 <= i < |log| ==> Handled(r, End(v, log[..i]), txs[i], local, log[i])
  }

  lemma BatchMore(r: Rules, v: View, txs: seq<Tx>, local: bool, log: seq<Outcome>, o: Outcome)
    requires Batch(r, v, txs, local, log) && |log| < |txs| && Handled(r, End(v, log), txs[|log|], local, o)
    ensures Batch(r, v, txs, local, log + [o]) && End(v, log + [o]) == o.after
  {
    hide Handled;
    var more := log + [o];
    forall i | 0 <= i < |more|
      ensures Handled(r, End(v, more[..i]), txs[i], local, more[i])
    {
      assert more[..i] == log[..i];
      assert log[..|log|] == log;
    }
  }

  lemma BatchFewer(r: Rules, v: View, txs: seq<Tx>, local: bool, log: seq<Outcome>)
    requires Batch(r, v, txs, local, log) && log != []
    ensures
      var n := |log| - 1;
      Batch(r, v, txs, local, log[..n]) && Handled(r, End(v, log[..n]), txs[n], local, log[n])
  {
    hide Handled;
    var n := |log| - 1;
    forall i | 0 <= i < n
      ensures Handled(r, End(v, log[..n][..i]), txs[i], local, log[..n][i])
    {
      assert log[..n][..i] == log[..i];
    }
  }

  /** A batch takes in only what is offered, usable, and drops a local transaction only for one that outbids it. */
  lemma {:induction false} BatchKeeps(r: Rules, v: View, txs: seq<Tx>, local: bool, log: seq<Outcome>)
    requires Batch(r, v, txs, local, log)
    ensures End(v, log).all <= v.all + Members(txs)
    ensures v.locals <= End(v, log).locals && (!local ==> End(v, log).locals == v.locals)
    ensures AllUsable(r.state, r.maxGas, v.all) ==> AllUsable(r.state, r.maxGas, End(v, log).all)
    ensures forall t :: t in v.all && t.from in v.locals ==>
              t in End(v, log).all || OutbidBy(Members(txs), t, r.config.priceBump)
    decreases |log|
  {
    if log != [] {
      hide Outbids, Batch, AllUsable;
      var n := |log| - 1;
      BatchFewer(r, v, txs, local, log);
      BatchKeeps(r, v, txs, local, log[..n]);
      var mid := End(v, log[..n]);
      HandledKeeps(r, mid, txs[n], local, log[n]);
      assert mid.locals <= log[n].after.locals && (!local ==> log[n].after.locals == mid.locals);
      hide Handled;
      assert txs[n] in Members(txs);
      forall t | t in v.all && t.from in v.locals && t in mid.all && t !in log[n].after.all
        ensures OutbidBy(Members(txs), t, r.config.priceBump)
      {
        assert OutbidBy({txs[n]}, t, r.config.priceBump);
      }
    }
  }

  /** A batch keeps to the limits of the pool. */
  lemma {:induction false} BatchIsDecent(r: Rules, v: View, txs: seq<Tx>, local: bool, log: seq<Outcome>)
    requires Batch(r, v, txs, local, log)
    ensures AllDecent(r.gasPrice, v.locals, v.all) ==> AllDecent(r.gasPrice, End(v, log).locals, End(v, log).all)
    ensures Sound(v) && Capacity(r.config) > 0 && |Remote(v.all, v.locals)| <= Capacity(r.config) ==>
              |Remote(End(v, log).all, End(v, log).locals)| <= Capacity(r.config)
    ensures Sound(v) ==> Sound(End(v, log))
    decreases |log|
  {
    if log != [] {
      hide Batch, AllDecent, Remote, Capacity, Sound;
      var n := |log| - 1;
      BatchFewer(r, v, txs, local, log);
      BatchIsDecent(r, v, txs, local, log[..n]);
      var mid := End(v, log[..n]);
      assert Sound(log[n].after);
      hide Handled;
      if AllDecent(r.gasPrice, mid.locals, mid.all) {
        HandledIsDecent(r, mid, txs[n], local, log[n]);
      }
      if Sound(mid) && Capacity(r.config) > 0 && |Remote(mid.all, mid.locals)| <= Capacity(r.config) {
        HandledIsLimited(r, mid, txs[n], local, log[n]);
      }
    }
  }

  /** As long as everything fits, nothing is evicted: what is not outbid stays. */
  lemma {:induction false} BatchEvictsNone(r: Rules, v: View, txs: seq<Tx>, local: bool, log: seq<Outcome>)
    requires Batch(r, v, txs, local, log) && |v.all + Members(txs)| <= Capacity(r.config)
    ensures forall t :: t in v.all ==> t in End(v, log).all || OutbidBy(Members(txs), t, r.config.priceBump)
    decreases |log|
  {
    if log != [] {
      hide Outbids, Batch;
      var n := |log| - 1;
      var mid := End(v, log[..n]);
      BatchFewer(r, v, txs, local, log);
      BatchEvictsNone(r, v, txs, local, log[..n]);
      BatchKeeps(r, v, txs, local, log[..n]);
      assert txs[n] in Members(txs);
      StillRoom(r, mid, v.all + Members(txs), txs[n], local, log[n]);
      HandledKeeps(r, mid, txs[n], local, log[n]);
      hide Handled;
      forall t | t in mid.all && t !in log[n].after.all
        ensures OutbidBy(Members(txs), t, r.config.priceBump)
      {
        assert OutbidBy({txs[n]}, t, r.config.priceBump);
      }
    }
  }

  /** As long as everything fits, a valid transaction without rivals enters and stays. */
  lemma {:induction false} BatchTakesIn(r: Rules, v: View, txs: seq<Tx>, local: bool, log: seq<Outcome>, all: set<Tx>,
                                        i: nat)
    requires Batch(r, v, txs, local, log) && v.all <= all && Members(txs) <= all && |all| <= Capacity(r.config)
    requires i < |log| && ValidateTx(r, v.locals, txs[i], local) == None && Rivals(all, txs[i]) == {txs[i]}
    ensures txs[i] in End(v, log).all
    decreases |log|
  {
    hide *;
    var n := |log| - 1;
    TakesInLast(r, v, txs, local, log, all);
    EndsWith(v, log);
    if i < n {
      BatchTakesIn(r, v, txs, local, log[..n], all, i);
      StaysUnrivalled(r, End(v, log[..n]), all, txs[n], local, log[n], txs[i]);
    } else {
      UnrivalledEnters(r, v.locals, End(v, log[..n]), all, txs[n], local, log[n]);
    }
  }

  lemma EndsWith(v: View, log: seq<Outcome>)
    requires log != []
    ensures End(v, log) == log[|log| - 1].after
  {
  }

  /** What the last outcome of a batch starts from, as long as everything fits. */
  lemma TakesInLast(r: Rules, v: View, txs: seq<Tx>, local: bool, log: seq<Outcome>, all: set<Tx>)
    requires Batch(r, v, txs, local, log) && v.all <= all && Members(txs) <= all && |all| <= Capacity(r.config)
    requires log != []
    ensures
      var n := |log| - 1;
      var mid := End(v, log[..n]);
      && |log| <= |txs| && Batch(r, v, txs, local, log[..n]) && Handled(r, mid, txs[n], local, log[n])
      && mid.all <= all && txs[n] in all && v.locals <= mid.locals && log[n].evicted == []
      && (txs[n] !in mid.all ==> RoomFor(r.config, mid, txs[n], local) == Made)
  {
    var n := |log| - 1;
    assert |log| <= |txs| && txs[n] in Members(txs);
    BatchFewer(r, v, txs, local, log);
    BatchKeeps(r, v, txs, local, log[..n]);
    hide Batch, Handled, Capacity, RoomFor;
    StillRoom(r, End(v, log[..n]), all, txs[n], local, log[n]);
  }

  lemma StillRoom(r: Rules, v: View, all: set<Tx>, tx: Tx, local: bool, o: Outcome)
    requires Handled(r, v, tx, local, o) && v.all <= all && tx in all && |all| <= Capacity(r.config)
    ensures o.evicted == [] && (tx !in v.all ==> RoomFor(r.config, v, tx, local) == Made)
  {
    hide Outbids, CheapestWent, Discarded, SumSlots, SlotsFor, HeapFor;
    DiscardStops(HeapFor(v, tx, local), v.all, v.locals, 0, []);
    if tx !in v.all {
      SubsetSize(v.all + {tx}, all);
      assert |v.all + {tx}| == |v.all| + 1;
    }
  }

  lemma UnrivalledEnters(r: Rules, locals: set<Address>, v: View, all: set<Tx>, tx: Tx, local: bool, o: Outcome)
    requires Handled(r, v, tx, local, o) && v.all <= all && tx in all && locals <= v.locals
    requires o.evicted == [] && (tx !in v.all ==> RoomFor(r.config, v, tx, local) == Made)
    requires ValidateTx(r, locals, tx, local) == None
    ensures tx in o.after.all || Rivals(all, tx) != {tx}
  {
    hide Outbids, CheapestWent, Evicted, RoomFor;
    assert v.all - Members([]) == v.all;
    if tx in v.all {
      assert tx in o.after.all;
    } else if Rivals(all, tx) == {tx} {
      forall t
        ensures t !in Rivals(v.all, tx)
      {
        assert t in Rivals(v.all, tx) ==> t in Rivals(all, tx) && t != tx;
      }
      assert Wins(v.all, tx, r.config.priceBump);
    }
  }

  lemma StaysUnrivalled(r: Rules, v: View, all: set<Tx>, tx: Tx, local: bool, o: Outcome, t: Tx)
    requires Handled(r, v, tx, local, o) && v.all <= all && tx in all && o.evicted == []
    ensures t in v.all ==> t in o.after.all || Rivals(all, t) != {t}
  {
    hide Outbids, CheapestWent, Evicted, RoomFor;
    assert v.all - Members([]) == v.all;
    if t in v.all && t !in o.after.all {
      assert t in Rivals(v.all, tx) && tx !in v.all;
      assert tx in Rivals(all, t) && tx != t;
    }
  }
}

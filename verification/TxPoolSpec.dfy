/**
 What the pool's structures must agree on, stated on their values: the per-account pending and queued
 lists against the lookup of all transactions, and the pending nonces against the chain state.
 */
module TxPoolSpec {
  import opened Totals
  import opened Transactions
  import opened TxLists

  type Lists = map<Address, ListValue>

  /** `tx` is in its sender's list. */
  predicate InLists(m: Lists, tx: Tx) {
    tx.from in m && Holds(m[tx.from].items, tx)
  }

  /** Some transaction of account `a` with nonce `n` is listed. */
  predicate Occupied(m: Lists, a: Address, n: nat) {
    a in m && n in m[a].items
  }

  /** The list of account `a`; a new one if there is none. */
  function ListOf(m: Lists, a: Address, strict: bool): ListValue {
    if a in m then m[a] else if strict then EMPTY_PENDING else EMPTY_QUEUED
  }

  function ItemsOf(m: Lists, a: Address): Items {
    if a in m then m[a].items else map[]
  }

  /** Account `a` gets list `l`; empty lists are not kept. */
  function SetList(m: Lists, a: Address, l: ListValue): Lists {
    if l.items == map[] then m - {a} else m[a := l]
  }

  lemma SetListFacts(m: Lists, a: Address, l: ListValue)
    ensures forall tx :: InLists(SetList(m, a, l), tx) <==> if tx.from == a then Holds(l.items, tx) else InLists(m, tx)
    ensures forall b, n :: Occupied(SetList(m, a, l), b, n) <==> if b == a then n in l.items else Occupied(m, b, n)
  {
  }

  /** `m` and `m0` differ at most in the list of account `a`. */
  ghost predicate SameBut(m: Lists, m0: Lists, a: Address) {
    m - {a} == m0 - {a}
  }

  lemma SameElsewhere(m: Lists, m0: Lists, a: Address)
    requires SameBut(m, m0, a)
    ensures forall b :: b != a ==> ItemsOf(m, b) == ItemsOf(m0, b)
  {
    forall b | b != a ensures ItemsOf(m, b) == ItemsOf(m0, b) {
      assert b in m <==> b in m - {a};
      assert b in m0 <==> b in m0 - {a};
    }
  }

  lemma SameButTrans(m: Lists, m1: Lists, m0: Lists, a: Address)
    ensures SameBut(m, m, a)
    ensures SameBut(m, m1, a) && SameBut(m1, m0, a) ==> SameBut(m, m0, a)
  {
  }

  /** One account's list is sound: keyed by nonce, bounded by its caps, its owner's only. */
  ghost predicate ListOk(l: ListValue, a: Address, strict: bool) {
    l.strict == strict && WellFormed(l) && forall n :: n in l.items ==> l.items[n].from == a
  }

  ghost predicate ListsOk(m: Lists, strict: bool) {
    forall a :: a in m ==> ListOk(m[a], a, strict) && m[a].items != map[]
  }

  /** No account has one nonce in both. */
  ghost predicate Separate(m: Lists, k: Lists) {
    forall a, n :: !(Occupied(m, a, n) && Occupied(k, a, n))
  }

  /**
   The transactions of `all` are those in the lists, except that the ones in `limbo` have just been
   taken out of a list and not yet been put into another one or forgotten.
   */
  ghost predicate Accounted(m: Lists, k: Lists, all: set<Tx>, limbo: set<Tx>) {
    && (forall tx :: tx in all <==> InLists(m, tx) || InLists(k, tx) || tx in limbo)
    && (forall tx :: tx in limbo ==> !Occupied(m, tx.from, tx.nonce) && !Occupied(k, tx.from, tx.nonce))
    && (forall t, u :: t in limbo && u in limbo && t.from == u.from && t.nonce == u.nonce ==> t == u)
  }

  /** Lists `m` and `k`, whose strictness is `sm` and `sk`, agree with `all`. */
  ghost predicate Agree(m: Lists, sm: bool, k: Lists, sk: bool, all: set<Tx>, limbo: set<Tx>) {
    ListsOk(m, sm) && ListsOk(k, sk) && Separate(m, k) && Accounted(m, k, all, limbo)
  }

  lemma AgreeSwap(m: Lists, sm: bool, k: Lists, sk: bool, all: set<Tx>, limbo: set<Tx>)
    requires Agree(m, sm, k, sk, all, limbo)
    ensures Agree(k, sk, m, sm, all, limbo)
  {
  }

  /** The transactions that `l` has and `rest` has not. */
  function Gone(l: Items, rest: Items): set<Tx> {
    set n | n in l && !Holds(rest, l[n]) :: l[n]
  }

  lemma InGone(l: Items, rest: Items, tx: Tx)
    requires Keyed(l)
    ensures tx in Gone(l, rest) <==> Holds(l, tx) && !Holds(rest, tx)
  {
  }

  ghost predicate Sub(rest: Items, l: Items) {
    forall n :: n in rest ==> n in l && rest[n] == l[n]
  }

  /** Shrinking a list sends what is gone into limbo. */
  lemma TakeOut(m: Lists, sm: bool, k: Lists, sk: bool, all: set<Tx>, limbo: set<Tx>, a: Address, rest: ListValue)
    requires Agree(m, sm, k, sk, all, limbo) && a in m
    requires Sub(rest.items, m[a].items) && rest.strict == sm && Bounded(rest.items, rest.costcap, rest.gascap)
    ensures Agree(SetList(m, a, rest), sm, k, sk, all, limbo + Gone(m[a].items, rest.items))
  {
    hide WellFormed, Bounded;
    var gone := Gone(m[a].items, rest.items);
    var m' := SetList(m, a, rest);
    SetListFacts(m, a, rest);
    assert ListOk(m[a], a, sm);
    RestIsSound(m[a], rest, a, sm);
    forall tx ensures tx in gone <==> Holds(m[a].items, tx) && !Holds(rest.items, tx) {
      InGone(m[a].items, rest.items, tx);
    }
    forall tx | tx in gone ensures InLists(m, tx) && Occupied(m, tx.from, tx.nonce) {
    }
    assert ListsOk(m', sm);
    assert Separate(m', k);
    assert Accounted(m', k, all, limbo + gone) by {
      TakenIsAccounted(m, k, all, limbo, a, rest.items, m', gone);
    }
  }

  lemma RestIsSound(l: ListValue, rest: ListValue, a: Address, strict: bool)
    requires ListOk(l, a, strict) && Sub(rest.items, l.items) && rest.strict == strict
    requires Bounded(rest.items, rest.costcap, rest.gascap)
    ensures Keyed(l.items) && ListOk(rest, a, strict)
    ensures forall n :: n in l.items ==> l.items[n].from == a
  {
  }

  lemma TakenIsAccounted(m: Lists, k: Lists, all: set<Tx>, limbo: set<Tx>, a: Address, rest: Items, m': Lists,
                         gone: set<Tx>)
    requires Separate(m, k) && Accounted(m, k, all, limbo) && a in m
    requires forall tx :: InLists(m', tx) <==> if tx.from == a then Holds(rest, tx) else InLists(m, tx)
    requires forall b, n :: Occupied(m', b, n) <==> if b == a then n in rest else Occupied(m, b, n)
    requires forall tx :: tx in gone <==> Holds(m[a].items, tx) && !Holds(rest, tx)
    requires Sub(rest, m[a].items) && forall n :: n in m[a].items ==> m[a].items[n].from == a
    ensures Accounted(m', k, all, limbo + gone)
  {
    forall tx | tx in gone ensures tx.from == a && Occupied(m, a, tx.nonce) && tx.nonce !in rest {
    }
  }

  /** A transaction in limbo can be forgotten. */
  lemma Forget(m: Lists, sm: bool, k: Lists, sk: bool, all: set<Tx>, limbo: set<Tx>, tx: Tx)
    requires Agree(m, sm, k, sk, all, limbo) && tx in limbo
    ensures tx in all && Agree(m, sm, k, sk, all - {tx}, limbo - {tx})
  {
  }

  /** A transaction whose nonce is free can enter, by way of limbo. */
  lemma Learn(m: Lists, sm: bool, k: Lists, sk: bool, all: set<Tx>, limbo: set<Tx>, tx: Tx)
    requires Agree(m, sm, k, sk, all, limbo) && tx !in all
    requires !Occupied(m, tx.from, tx.nonce) && !Occupied(k, tx.from, tx.nonce)
    requires forall t :: t in limbo ==> t.from != tx.from || t.nonce != tx.nonce
    ensures Agree(m, sm, k, sk, all + {tx}, limbo + {tx})
  {
  }

  /** A transaction in limbo can enter a list: nothing is in its way. */
  lemma PutIn(m: Lists, sm: bool, k: Lists, sk: bool, all: set<Tx>, limbo: set<Tx>, tx: Tx, bump: nat)
    requires Agree(m, sm, k, sk, all, limbo) && tx in limbo
    ensures tx.nonce !in ListOf(m, tx.from, sm).items && Accepts(ListOf(m, tx.from, sm), tx, bump)
    ensures Agree(m[tx.from := Added(ListOf(m, tx.from, sm), tx, bump)], sm, k, sk, all, limbo - {tx})
  {
    hide WellFormed, Bounded, Added;
    var a, l := tx.from, ListOf(m, tx.from, sm);
    var added := Added(l, tx, bump);
    var m' := m[a := added];
    assert tx.nonce !in l.items by { assert !Occupied(m, a, tx.nonce); }
    AddedIsSound(l, tx, bump, a, sm);
    SetListFacts(m, a, added);
    assert m' == SetList(m, a, added);
    assert ListsOk(m', sm);
    assert forall t: Tx :: t.from == a ==> (InLists(m, t) <==> Holds(l.items, t));
    assert forall n :: Occupied(m, a, n) <==> n in l.items;
    hide ListsOk, ListOk;
    EnteredIsAccounted(m, k, all, limbo, tx, l.items, m');
  }

  lemma EnteredIsAccounted(m: Lists, k: Lists, all: set<Tx>, limbo: set<Tx>, tx: Tx, items: Items, m': Lists)
    requires Separate(m, k) && Accounted(m, k, all, limbo) && tx in limbo && tx.nonce !in items
    requires forall t: Tx :: t.from == tx.from ==> (InLists(m, t) <==> Holds(items, t))
    requires forall n :: Occupied(m, tx.from, n) <==> n in items
    requires forall t :: InLists(m', t) <==>
               if t.from == tx.from then Holds(items[tx.nonce := tx], t) else InLists(m, t)
    requires forall b, n :: Occupied(m', b, n) <==>
               if b == tx.from then n in items[tx.nonce := tx] else Occupied(m, b, n)
    ensures Separate(m', k) && Accounted(m', k, all, limbo - {tx})
  {
    hide InLists, Occupied;
    forall t: Tx | t.from == tx.from ensures Holds(items[tx.nonce := tx], t) <==> Holds(items, t) || t == tx {
    }
  }

  lemma AddedIsSound(l: ListValue, tx: Tx, bump: nat, a: Address, strict: bool)
    requires tx.from == a && tx.nonce !in l.items && (ListOk(l, a, strict) || l == ListValue(strict, map[], 0, 0))
    ensures ListOk(Added(l, tx, bump), a, strict) && Added(l, tx, bump).items == l.items[tx.nonce := tx]
  {
  }

  /** A transaction that outbids a listed one with its nonce can take its place. */
  lemma SwapIn(m: Lists, sm: bool, k: Lists, sk: bool, all: set<Tx>, tx: Tx, bump: nat)
    requires Agree(m, sm, k, sk, all, {}) && tx !in all && Occupied(m, tx.from, tx.nonce)
    requires Accepts(m[tx.from], tx, bump)
    ensures m[tx.from].items[tx.nonce] in all
    ensures Agree(m[tx.from := Added(m[tx.from], tx, bump)], sm, k, sk, all - {m[tx.from].items[tx.nonce]} + {tx}, {})
  {
    hide WellFormed, Bounded;
    var a, l := tx.from, m[tx.from];
    var prev := l.items[tx.nonce];
    var added := Added(l, tx, bump);
    var m' := m[a := added];
    assert ListOk(l, a, sm);
    SwappedIsSound(l, tx, bump, a, sm);
    SetListFacts(m, a, added);
    assert m' == SetList(m, a, added);
    assert InLists(m, prev);
    forall t: Tx | t.from == a ensures Holds(added.items, t) <==> (Holds(l.items, t) && t != prev) || t == tx {
    }
    assert ListsOk(m', sm);
    assert Separate(m', k);
    forall t ensures t in all - {prev} + {tx} <==> InLists(m', t) || InLists(k, t) {
      if t == prev {
        assert Occupied(m, a, tx.nonce) && !Occupied(k, a, tx.nonce);
      }
    }
    assert Accounted(m', k, all - {prev} + {tx}, {});
  }

  lemma SwappedIsSound(l: ListValue, tx: Tx, bump: nat, a: Address, strict: bool)
    requires tx.from == a && tx.nonce in l.items && ListOk(l, a, strict) && Accepts(l, tx, bump)
    ensures ListOk(Added(l, tx, bump), a, strict) && Added(l, tx, bump).items == l.items[tx.nonce := tx]
    ensures l.items[tx.nonce].from == a && l.items[tx.nonce].nonce == tx.nonce
  {
  }

  // ----- the chain state and the nonces derived from it -----

  datatype ChainState = ChainState(nonces: map<Address, nat>, balances: map<Address, nat>)

  function StateNonce(s: ChainState, a: Address): nat {
    if a in s.nonces then s.nonces[a] else 0
  }

  function Balance(s: ChainState, a: Address): nat {
    if a in s.balances then s.balances[a] else 0
  }

  /** The next nonce of account `a` with all its pending transactions applied, as the noncer answers it. */
  function Virtual(nonces: map<Address, nat>, s: ChainState, a: Address): nat {
    if a in nonces then nonces[a] else StateNonce(s, a)
  }

  /** Pending is a gapless run from `base` to `next`; nothing queued is below `base`. */
  ghost predicate NoncesFit(pending: Items, queue: Items, base: nat, next: nat) {
    Contiguous(pending, base, next) && forall n :: n in queue ==> base <= n
  }

  ghost predicate NoncesOk(pending: Lists, queue: Lists, s: ChainState, nonces: map<Address, nat>) {
    forall a :: NoncesFit(ItemsOf(pending, a), ItemsOf(queue, a), StateNonce(s, a), Virtual(nonces, s, a))
  }

  /** With gapless pending nonces, everything queued lies beyond the pending run. */
  lemma QueuedBeyondPending(m: Lists, k: Lists, s: ChainState, nonces: map<Address, nat>, a: Address, n: nat)
    requires Separate(m, k) && NoncesOk(m, k, s, nonces) && Occupied(k, a, n)
    ensures n >= Virtual(nonces, s, a)
  {
    assert NoncesFit(ItemsOf(m, a), ItemsOf(k, a), StateNonce(s, a), Virtual(nonces, s, a));
    assert n in ItemsOf(k, a);
    assert n !in ItemsOf(m, a) by { assert !Occupied(m, a, n); }
  }

  // ----- sizes -----

  /** The length of every account's list. */
  function Lens(m: Lists): map<Address, nat> {
    map a | a in m :: |m[a].items|
  }

  /** Every list of `m` is the list of `m0` cut to some size, keeping the lowest nonces. */
  ghost predicate CutFrom(m: Lists, m0: Lists) {
    forall a :: ItemsOf(m, a) == Lowest(ItemsOf(m0, a), |ItemsOf(m, a)|)
  }

  lemma Uncut(m: Lists)
    ensures CutFrom(m, m)
  {
    forall a
      ensures ItemsOf(m, a) == Lowest(ItemsOf(m, a), |ItemsOf(m, a)|)
    {
      AllLowest(ItemsOf(m, a), |ItemsOf(m, a)|);
    }
  }

  /** Cutting one more list. */
  lemma CutOne(m: Lists, m1: Lists, m0: Lists, a: Address, size: nat)
    requires CutFrom(m1, m0) && SameBut(m, m1, a) && size <= |ItemsOf(m1, a)|
    requires ItemsOf(m, a) == Lowest(ItemsOf(m1, a), size)
    ensures CutFrom(m, m0)
  {
    SameElsewhere(m, m1, a);
    LowestSize(ItemsOf(m1, a), size);
    LowestOfLowest(ItemsOf(m0, a), |ItemsOf(m1, a)|, size);
  }

  lemma CutAgain(m: Lists, m1: Lists, m0: Lists)
    requires CutFrom(m, m1) && CutFrom(m1, m0)
    ensures CutFrom(m, m0)
  {
    forall a
      ensures ItemsOf(m, a) == Lowest(ItemsOf(m0, a), |ItemsOf(m, a)|)
    {
      LowestSize(ItemsOf(m1, a), |ItemsOf(m, a)|);
      LowestOfLowest(ItemsOf(m0, a), |ItemsOf(m1, a)|, |ItemsOf(m, a)|);
    }
  }

  // ----- counting -----

  ghost function Values(items: Items): set<Tx> {
    set n | n in items :: items[n]
  }

  lemma {:induction false} AsManyValues(items: Items)
    requires Keyed(items)
    ensures |Values(items)| == |items|
    decreases |items|
  {
    if items == map[] {
      assert Values(items) == {};
    } else {
      var n :| n in items;
      AsManyValues(items - {n});
      forall tx
        ensures tx in Values(items) <==> tx in Values(items - {n}) + {items[n]}
      {
        if tx in Values(items) {
          var k :| k in items && items[k] == tx;
          assert k != n ==> k in items - {n};
        }
      }
      assert Values(items) == Values(items - {n}) + {items[n]};
      assert items.Keys == (items - {n}).Keys + {n};
    }
  }

  ghost function Listed(m: Lists): set<Tx> {
    set a, n | a in m && n in m[a].items :: m[a].items[n]
  }

  lemma {:induction false} AsManyListed(m: Lists, strict: bool)
    requires ListsOk(m, strict)
    ensures |Listed(m)| == Total(Lens(m))
    decreases |m|
  {
    if m == map[] {
      assert Listed(m) == {} && Lens(m) == map[];
    } else {
      hide Listed, Values, Total, ListsOk;
      var a :| a in m;
      FewerListsOk(m, strict, a);
      AsManyListed(m - {a}, strict);
      AsManyValues(m[a].items);
      TotalWithout(Lens(m), a);
      assert Lens(m) - {a} == Lens(m - {a});
      ListedWithout(m, strict, a);
    }
  }

  lemma FewerListsOk(m: Lists, strict: bool, a: Address)
    requires ListsOk(m, strict) && a in m
    ensures ListsOk(m - {a}, strict) && Keyed(m[a].items)
  {
    assert ListOk(m[a], a, strict);
  }

  lemma ListedWithout(m: Lists, strict: bool, a: Address)
    requires ListsOk(m, strict) && a in m
    ensures |Listed(m)| == |Listed(m - {a})| + |Values(m[a].items)|
  {
    hide WellFormed, Bounded;
    var rest, own := Listed(m - {a}), Values(m[a].items);
    forall tx
      ensures tx in Listed(m) <==> tx in rest + own
      ensures !(tx in rest && tx in own)
    {
      ListedApart(m, strict, a, tx);
    }
    assert Listed(m) == rest + own;
  }

  lemma ListedApart(m: Lists, strict: bool, a: Address, tx: Tx)
    requires ListsOk(m, strict) && a in m
    ensures tx in Listed(m) <==> tx in Listed(m - {a}) || tx in Values(m[a].items)
    ensures tx in Listed(m - {a}) ==> tx.from != a
    ensures tx in Values(m[a].items) ==> tx.from == a
  {
    hide WellFormed, Bounded;
    if tx in Listed(m) {
      var b, n :| b in m && n in m[b].items && m[b].items[n] == tx;
      assert b != a ==> b in m - {a} && (m - {a})[b] == m[b];
    }
    if tx in Listed(m - {a}) {
      var b, n :| b in m - {a} && n in (m - {a})[b].items && (m - {a})[b].items[n] == tx;
      assert ListOk(m[b], b, strict);
    }
    assert ListOk(m[a], a, strict);
  }

  lemma InListed(m: Lists, strict: bool, tx: Tx)
    requires ListsOk(m, strict)
    ensures tx in Listed(m) <==> InLists(m, tx)
  {
    hide Bounded;
    if tx in Listed(m) {
      var a, n :| a in m && n in m[a].items && m[a].items[n] == tx;
      assert ListOk(m[a], a, strict);
    }
  }

  /** The pool holds as many transactions as its lists together. */
  lemma CountsAgree(m: Lists, sm: bool, k: Lists, sk: bool, all: set<Tx>)
    requires Agree(m, sm, k, sk, all, {})
    ensures |all| == Total(Lens(m)) + Total(Lens(k))
  {
    AsManyListed(m, sm);
    AsManyListed(k, sk);
    hide Agree, Total, Lens, Listed;
    forall tx
      ensures tx in all <==> tx in Listed(m) || tx in Listed(k)
      ensures !(tx in Listed(m) && tx in Listed(k))
    {
      ListedOnce(m, sm, k, sk, all, tx);
    }
    assert all == Listed(m) + Listed(k);
  }

  lemma ListedOnce(m: Lists, sm: bool, k: Lists, sk: bool, all: set<Tx>, tx: Tx)
    requires Agree(m, sm, k, sk, all, {})
    ensures tx in all <==> tx in Listed(m) || tx in Listed(k)
    ensures !(tx in Listed(m) && tx in Listed(k))
  {
    InListed(m, sm, tx);
    InListed(k, sk, tx);
    hide ListsOk, Listed;
    assert !(Occupied(m, tx.from, tx.nonce) && Occupied(k, tx.from, tx.nonce));
  }
}

/**
 The noncer: virtual account nonces on top of a chain state, filled in lazily.
 */
module TxNoncers {
  import opened Transactions
  import opened TxPoolSpec

  class TxNoncer {
    var fallback: ChainState
    var nonces: map<Address, nat>

    constructor (state: ChainState)
      ensures fallback == state && nonces == map[]
    {
      fallback, nonces := state, map[];
    }

    /** A new noncer for another chain state. */
    method Reset(state: ChainState)
      modifies this
      ensures fallback == state && nonces == map[]
    {
      fallback, nonces := state, map[];
    }

    /** Reading remembers the answer but changes no answer. */
    method Get(a: Address) returns (n: nat)
      modifies `nonces
      ensures n == Virtual(old(nonces), fallback, a)
      ensures forall b :: Virtual(nonces, fallback, b) == Virtual(old(nonces), fallback, b)
    {
      if a !in nonces {
        nonces := nonces[a := StateNonce(fallback, a)];
      }
      n := nonces[a];
    }

    method Set(a: Address, nonce: nat)
      modifies `nonces
      ensures forall b :: Virtual(nonces, fallback, b) == if b == a then nonce else Virtual(old(nonces), fallback, b)
    {
      nonces := nonces[a := nonce];
    }

    method SetIfLower(a: Address, nonce: nat)
      modifies `nonces
      ensures forall b :: Virtual(nonces, fallback, b) ==
                if b == a && nonce < Virtual(old(nonces), fallback, a) then nonce else Virtual(old(nonces), fallback, b)
    {
      if a !in nonces {
        nonces := nonces[a := StateNonce(fallback, a)];
      }
      if nonces[a] <= nonce {
        return;
      }
      nonces := nonces[a := nonce];
    }
  }
}

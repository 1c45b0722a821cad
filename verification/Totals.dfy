/** Sums over all accounts. */
module Totals {
  import opened Transactions

  ghost function Total(amounts: map<Address, nat>): nat {
    if amounts == map[] then 0 else var a :| a in amounts; amounts[a] + Total(amounts - {a})
  }

  /** The sum does not depend on the order in which the accounts are taken. */
  lemma {:induction false} TotalWithout(amounts: map<Address, nat>, a: Address)
    requires a in amounts
    ensures Total(amounts) == amounts[a] + Total(amounts - {a})
    decreases |amounts|
  {
    var b :| b in amounts && Total(amounts) == amounts[b] + Total(amounts - {b});
    if b != a {
      TotalWithout(amounts - {b}, a);
      TotalWithout(amounts - {a}, b);
      assert amounts - {b} - {a} == amounts - {a} - {b};
    }
  }

  lemma TotalUpdate(amounts: map<Address, nat>, a: Address, v: nat)
    ensures Total(amounts[a := v]) == Total(amounts) + v - if a in amounts then amounts[a] else 0
  {
    TotalWithout(amounts[a := v], a);
    assert amounts[a := v] - {a} == amounts - {a};
    if a in amounts {
      TotalWithout(amounts, a);
    } else {
      assert amounts - {a} == amounts;
    }
  }
}

/**
 Gas and value accounting of a block: buying, using, refunding and paying for gas, with the virtual machine abstract.
 Gas amounts are 64-bit; where the source adds or subtracts them, the model does so in a type that has no room for a
 wrong result, so none of these operations wraps around.
 */
module Gas {
  import opened Options
  import opened Totals
  import opened Transactions

  const MAX_UINT64: nat := 0xFFFF_FFFF_FFFF_FFFF
  type uint64 = x: nat | x <= MAX_UINT64
  type byte = x: nat | x < 256

  // ----- intrinsic gas -----

  const TX_GAS: uint64 := 21000
  const TX_GAS_CONTRACT_CREATION: uint64 := 53000
  const TX_DATA_ZERO_GAS: uint64 := 4
  const TX_DATA_NON_ZERO_GAS_FRONTIER: uint64 := 68
  const TX_DATA_NON_ZERO_GAS_EIP2028: uint64 := 16

  /** The price of the data, byte by byte. */
  function DataGas(data: seq<byte>, eip2028: bool): nat {
    if data == [] then 0 else DataGas(data[..|data| - 1], eip2028) + ByteGas(data[|data| - 1], eip2028)
  }

  function ByteGas(b: byte, eip2028: bool): uint64 {
    if b == 0 then TX_DATA_ZERO_GAS else if eip2028 then TX_DATA_NON_ZERO_GAS_EIP2028 else TX_DATA_NON_ZERO_GAS_FRONTIER
  }

  function BaseGas(creation: bool, homestead: bool): uint64 {
    if creation && homestead then TX_GAS_CONTRACT_CREATION else TX_GAS
  }

  /** The intrinsic gas without regard to the width of the number. */
  function TrueIntrinsicGas(data: seq<byte>, creation: bool, homestead: bool, eip2028: bool): nat {
    BaseGas(creation, homestead) + DataGas(data, eip2028)
  }

  /** Where the zero bytes are, or the other ones. */
  ghost function Places(data: seq<byte>, zero: bool): set<int> {
    set i | 0 <= i < |data| && (data[i] == 0 <==> zero)
  }

  lemma PlacesGrow(data: seq<byte>, zero: bool)
    requires data != []
    ensures
      var n := |data| - 1;
      |Places(data, zero)| == |Places(data[..n], zero)| + if data[n] == 0 <==> zero then 1 else 0
  {
    var n := |data| - 1;
    var before := Places(data[..n], zero);
    assert n !in before;
    if data[n] == 0 <==> zero {
      assert Places(data, zero) == before + {n};
    } else {
      assert Places(data, zero) == before;
    }
  }

  /** The intrinsic gas from the numbers of bytes: 4 for a zero byte, 16 or before Istanbul 68 for another one. */
  lemma {:induction false} IntrinsicCounts(data: seq<byte>, creation: bool, homestead: bool, eip2028: bool)
    ensures TrueIntrinsicGas(data, creation, homestead, eip2028) ==
              (if creation && homestead then 53000 else 21000) +
              4 * |Places(data, true)| + (if eip2028 then 16 else 68) * |Places(data, false)|
    decreases |data|
  {
    if data == [] {
      assert Places(data, true) == {} && Places(data, false) == {};
    } else {
      IntrinsicCounts(data[..|data| - 1], creation, homestead, eip2028);
      PlacesGrow(data, true);
      PlacesGrow(data, false);
      hide Places;
    }
  }

  /** Reports an overflow exactly when the intrinsic gas does not fit, and computes it otherwise. */
  method IntrinsicGas(data: seq<byte>, creation: bool, homestead: bool, eip2028: bool) returns (r: Option<uint64>)
    requires |data| < 0x8000_0000_0000_0000
    ensures r.Some? <==> TrueIntrinsicGas(data, creation, homestead, eip2028) <= MAX_UINT64
    ensures r.Some? ==> r.value == TrueIntrinsicGas(data, creation, homestead, eip2028)
  {
    var gas: uint64 := if creation && homestead then TX_GAS_CONTRACT_CREATION else TX_GAS;
    if |data| > 0 {
      var nonZeroGas: uint64 := if eip2028 then TX_DATA_NON_ZERO_GAS_EIP2028 else TX_DATA_NON_ZERO_GAS_FRONTIER;
      var nz: uint64 := 0;
      for i := 0 to |data|
        invariant nz <= i && DataGas(data[..i], eip2028) == nz * nonZeroGas + (i - nz) * TX_DATA_ZERO_GAS
      {
        assert data[..i + 1][..i] == data[..i];
        if data[i] != 0 {
          nz := nz + 1;
        }
      }
      assert data[..|data|] == data;
      if (MAX_UINT64 - gas) / nonZeroGas < nz {
        return None;
      }
      gas := gas + nz * nonZeroGas;
      var z: uint64 := |data| - nz;
      if (MAX_UINT64 - gas) / TX_DATA_ZERO_GAS < z {
        return None;
      }
      gas := gas + z * TX_DATA_ZERO_GAS;
    }
    r := Some(gas);
  }

  // ----- the pool of gas of a block -----

  class GasPool {
    var gas: uint64

    constructor (limit: uint64)
      ensures gas == limit
    {
      gas := limit;
    }

    /** Panics in the source if the pool would exceed 64 bits. */
    method AddGas(amount: uint64)
      requires gas + amount <= MAX_UINT64
      modifies this
      ensures gas == old(gas) + amount
    {
      gas := gas + amount;
    }

    method SubGas(amount: uint64) returns (ok: bool)
      modifies this
      ensures ok <==> amount <= old(gas)
      ensures gas == if ok then old(gas) - amount else old(gas)
    {
      ok := gas >= amount;
      if ok {
        gas := gas - amount;
      }
    }
  }

  // ----- balances -----

  type Balances = map<Address, nat>

  function BalanceOf(b: Balances, a: Address): nat {
    if a in b then b[a] else 0
  }

  function Credit(b: Balances, a: Address, amount: nat): Balances {
    b[a := BalanceOf(b, a) + amount]
  }

  function Debit(b: Balances, a: Address, amount: nat): Balances
    requires amount <= BalanceOf(b, a)
  {
    b[a := BalanceOf(b, a) - amount]
  }

  lemma CreditAdds(b: Balances, a: Address, amount: nat)
    ensures Total(Credit(b, a, amount)) == Total(b) + amount
  {
    TotalUpdate(b, a, BalanceOf(b, a) + amount);
  }

  lemma DebitSubtracts(b: Balances, a: Address, amount: nat)
    requires amount <= BalanceOf(b, a)
    ensures Total(Debit(b, a, amount)) + amount == Total(b)
  {
    TotalUpdate(b, a, BalanceOf(b, a) - amount);
  }

  predicate CanTransfer(b: Balances, sender: Address, amount: nat) {
    BalanceOf(b, sender) >= amount
  }

  /** Takes the amount from the sender and gives it to the recipient. */
  function Transfer(b: Balances, sender: Address, recipient: Address, amount: nat): Balances
    requires CanTransfer(b, sender, amount)
  {
    Credit(Debit(b, sender, amount), recipient, amount)
  }

  /** A transfer moves value and neither makes nor loses any, also from an account to itself. */
  lemma TransferConserves(b: Balances, sender: Address, recipient: Address, amount: nat)
    requires CanTransfer(b, sender, amount)
    ensures Total(Transfer(b, sender, recipient, amount)) == Total(b)
    ensures sender == recipient ==> forall a :: BalanceOf(Transfer(b, sender, recipient, amount), a) == BalanceOf(b, a)
  {
    DebitSubtracts(b, sender, amount);
    CreditAdds(Debit(b, sender, amount), recipient, amount);
  }

  // ----- state transition -----

  function Fee(gas: nat, price: nat): nat {
    gas * price
  }

  lemma FeesAdd(a: nat, b: nat, price: nat)
    ensures Fee(a, price) + Fee(b, price) == Fee(a + b, price)
  {
  }

  datatype World = World(balances: Balances, nonces: map<Address, uint64>)

  datatype Message = Message(from: Address, to: Option<Address>, gasPrice: nat, gas: uint64, value: nat,
                             nonce: uint64, checkNonce: bool, data: seq<byte>)

  /** What a call or a creation by the virtual machine leaves. */
  datatype Execution = Execution(world: World, gas: uint64, refund: uint64, failed: bool)

  type Evm = (Message, uint64, World) -> Execution

  /** The machine does not return more gas than it was given. */
  ghost predicate SpendsGas(evm: Evm) {
    forall msg, gas, world :: evm(msg, gas, world).gas <= gas
  }

  /** The machine neither makes nor burns value. */
  ghost predicate Conserves(evm: Evm) {
    forall msg, gas, world :: Total(evm(msg, gas, world).world.balances) == Total(world.balances)
  }

  datatype Error = NonceTooHigh | NonceTooLow | InsufficientFunds | GasLimitReached | GasUintOverflow | IntrinsicTooLow
    | InsufficientFundsForTransfer

  datatype Result = Applied(usedGas: uint64, failed: bool) | Rejected(error: Error)

  datatype Rules = Rules(homestead: bool, istanbul: bool, coinbase: Address)

  function NonceOf(w: World, a: Address): uint64 {
    if a in w.nonces then w.nonces[a] else 0
  }

  /** Why a message cannot be bought gas for, if so. */
  function PreCheck(msg: Message, w: World, pool: uint64): Option<Error> {
    if msg.checkNonce && NonceOf(w, msg.from) < msg.nonce then Some(NonceTooHigh)
    else if msg.checkNonce && NonceOf(w, msg.from) > msg.nonce then Some(NonceTooLow)
    else if BalanceOf(w.balances, msg.from) < Fee(msg.gas, msg.gasPrice) then Some(InsufficientFunds)
    else if pool < msg.gas then Some(GasLimitReached)
    else None
  }

  /** Why a message that gas has been bought for cannot be executed, if so. */
  function MainCheck(msg: Message, rules: Rules, b: Balances): Option<Error> {
    var intrinsic := TrueIntrinsicGas(msg.data, msg.to == None, rules.homestead, rules.istanbul);
    if intrinsic > MAX_UINT64 then Some(GasUintOverflow)
    else if msg.gas < intrinsic then Some(IntrinsicTooLow)
    else if msg.value > 0 && !CanTransfer(b, msg.from, msg.value) then Some(InsufficientFundsForTransfer)
    else None
  }

  /** The gas charged when `left` comes back unused: the refund is capped by half of the used gas. */
  function Charged(bought: uint64, left: uint64, refund: uint64): (used: uint64)
    requires left <= bought
    ensures used <= bought - left <= 2 * used && bought - left <= used + refund
  {
    var used := bought - left;
    used - if used / 2 > refund then refund else used / 2
  }

  class StateTransition {
    const gp: GasPool
    const msg: Message
    const rules: Rules
    const evm: Evm
    var gas: uint64
    var initialGas: uint64
    var refund: uint64
    var state: World

    constructor (msg: Message, rules: Rules, evm: Evm, gp: GasPool, state: World)
      ensures this.msg == msg && this.rules == rules && this.evm == evm && this.gp == gp && this.state == state
      ensures gas == 0 && initialGas == 0 && refund == 0
    {
      this.msg, this.rules, this.evm, this.gp, this.state := msg, rules, evm, gp, state;
      gas, initialGas, refund := 0, 0, 0;
    }

    /** Pays for the gas of the message in advance and takes it from the pool, or changes nothing. */
    method BuyGas() returns (err: Option<Error>)
      requires gas == 0
      modifies this, gp
      ensures err == if BalanceOf(old(state.balances), msg.from) < Fee(msg.gas, msg.gasPrice)
                then Some(InsufficientFunds)
                     else if old(gp.gas) < msg.gas then Some(GasLimitReached) else None
      ensures err.Some? ==> unchanged(this) && gp.gas == old(gp.gas)
      ensures err.None? ==> gas == initialGas == msg.gas && refund == old(refund) && gp.gas == old(gp.gas) - msg.gas
      ensures err.None? ==>
                state == old(state).(balances := Debit(old(state.balances), msg.from, Fee(msg.gas, msg.gasPrice)))
    {
      var mgval := Fee(msg.gas, msg.gasPrice);
      if BalanceOf(state.balances, msg.from) < mgval {
        return Some(InsufficientFunds);
      }
      var ok := gp.SubGas(msg.gas);
      if !ok {
        return Some(GasLimitReached);
      }
      gas := gas + msg.gas;
      initialGas := msg.gas;
      state := state.(balances := Debit(state.balances, msg.from, mgval));
      err := None;
    }

    method CheckAndBuy() returns (err: Option<Error>)
      requires gas == 0
      modifies this, gp
      ensures err == PreCheck(msg, old(state), old(gp.gas))
      ensures err.Some? ==> unchanged(this) && gp.gas == old(gp.gas)
      ensures err.None? ==> gas == initialGas == msg.gas && refund == old(refund) && gp.gas == old(gp.gas) - msg.gas
      ensures err.None? ==>
                state == old(state).(balances := Debit(old(state.balances), msg.from, Fee(msg.gas, msg.gasPrice)))
    {
      if msg.checkNonce {
        var nonce := NonceOf(state, msg.from);
        if nonce < msg.nonce {
          return Some(NonceTooHigh);
        } else if nonce > msg.nonce {
          return Some(NonceTooLow);
        }
      }
      err := BuyGas();
    }

    function GasUsed(): uint64
      requires gas <= initialGas
      reads this
    {
      initialGas - gas
    }

    /** Gives back what is left of the gas, and of the refunds at most half of what was used. */
    method RefundGas()
      requires gas <= initialGas && gp.gas + initialGas <= MAX_UINT64
      modifies this, gp
      ensures gas <= initialGas == old(initialGas) && GasUsed() == Charged(initialGas, old(gas), old(refund))
      ensures gp.gas == old(gp.gas) + gas
      ensures state == old(state).(balances := Credit(old(state.balances), msg.from, Fee(gas, msg.gasPrice)))
    {
      var r := GasUsed() / 2;
      if r > refund {
        r := refund;
      }
      gas := gas + r;
      var remaining := Fee(gas, msg.gasPrice);
      state := state.(balances := Credit(state.balances, msg.from, remaining));
      gp.AddGas(gas);
    }

    /**
     Applies the message. The pool loses exactly the used gas, the sender pays it to the coinbase, and what else
     happens to the balances is the machine's doing.
     */
    method TransitionDb() returns (r: Result)
      requires gas == 0 && refund == 0 && SpendsGas(evm) && |msg.data| < 0x8000_0000_0000_0000
      modifies this, gp
      ensures r == Verdict(msg, rules, evm, old(state), old(gp.gas))
      ensures r.Applied? ==> gp.gas + r.usedGas == old(gp.gas)
      ensures r.Applied? ==> state == Settled(msg, rules, evm, old(state))
      ensures r.Rejected? && PreCheck(msg, old(state), old(gp.gas)).Some? ==>
                state == old(state) && gp.gas == old(gp.gas)
      ensures r.Rejected? && PreCheck(msg, old(state), old(gp.gas)).None? ==> gp.gas == old(gp.gas) - msg.gas
    {
      hide Fee, TrueIntrinsicGas, Credit, Debit, Bumped, Charged, NonceOf, BalanceOf;
      var err := CheckAndBuy();
      if err.Some? {
        return Rejected(err.value);
      }
      var intrinsic := IntrinsicGas(msg.data, msg.to == None, rules.homestead, rules.istanbul);
      if intrinsic == None {
        return Rejected(GasUintOverflow);
      }
      if gas < intrinsic.value {
        return Rejected(IntrinsicTooLow);
      }
      gas := gas - intrinsic.value;
      if msg.value > 0 && !CanTransfer(state.balances, msg.from, msg.value) {
        return Rejected(InsufficientFundsForTransfer);
      }
      if msg.to.Some? {
        state := Bumped(state, msg.from);
      }
      var out := evm(msg, gas, state);
      state, gas, refund := out.world, out.gas, out.refund;
      RefundGas();
      state := state.(balances := Credit(state.balances, rules.coinbase, Fee(GasUsed(), msg.gasPrice)));
      r := Applied(GasUsed(), out.failed);
    }
  }

  /** The sender's nonce goes up by one, in 64 bits. */
  function Bumped(w: World, a: Address): World {
    w.(nonces := w.nonces[a := (NonceOf(w, a) + 1) % (MAX_UINT64 + 1)])
  }

  /** What the machine makes of a message whose gas has been bought. */
  function Executed(msg: Message, rules: Rules, evm: Evm, w: World): Execution
    requires TrueIntrinsicGas(msg.data, msg.to == None, rules.homestead, rules.istanbul) <= msg.gas
    requires Fee(msg.gas, msg.gasPrice) <= BalanceOf(w.balances, msg.from)
  {
    var paid := w.(balances := Debit(w.balances, msg.from, Fee(msg.gas, msg.gasPrice)));
    evm(msg, msg.gas - TrueIntrinsicGas(msg.data, msg.to == None, rules.homestead, rules.istanbul),
        if msg.to.Some? then Bumped(paid, msg.from) else paid)
  }

  /** The result of applying a message. */
  ghost function Verdict(msg: Message, rules: Rules, evm: Evm, w: World, pool: uint64): Result
    requires SpendsGas(evm)
  {
    if PreCheck(msg, w, pool).Some? then Rejected(PreCheck(msg, w, pool).value)
    else
      var paid := Debit(w.balances, msg.from, Fee(msg.gas, msg.gasPrice));
      if MainCheck(msg, rules, paid).Some? then Rejected(MainCheck(msg, rules, paid).value)
      else
        var out := Executed(msg, rules, evm, w);
        Applied(Charged(msg.gas, out.gas, out.refund), out.failed)
  }

  /** The world after an applied message. */
  ghost function Settled(msg: Message, rules: Rules, evm: Evm, w: World): World
    requires SpendsGas(evm)
    requires TrueIntrinsicGas(msg.data, msg.to == None, rules.homestead, rules.istanbul) <= msg.gas
    requires Fee(msg.gas, msg.gasPrice) <= BalanceOf(w.balances, msg.from)
  {
    var out := Executed(msg, rules, evm, w);
    var used := Charged(msg.gas, out.gas, out.refund);
    var refunded := Credit(out.world.balances, msg.from, Fee(msg.gas - used, msg.gasPrice));
    out.world.(balances := Credit(refunded, rules.coinbase, Fee(used, msg.gasPrice)))
  }

  /** Buying gas, the refund and the payment to the coinbase cancel out: only the machine could change the total. */
  lemma SettledConserves(msg: Message, rules: Rules, evm: Evm, w: World)
    requires SpendsGas(evm) && Conserves(evm)
    requires TrueIntrinsicGas(msg.data, msg.to == None, rules.homestead, rules.istanbul) <= msg.gas
    requires Fee(msg.gas, msg.gasPrice) <= BalanceOf(w.balances, msg.from)
    ensures Total(Settled(msg, rules, evm, w).balances) == Total(w.balances)
  {
    hide Fee, Total, Credit, Debit, Charged;
    DebitSubtracts(w.balances, msg.from, Fee(msg.gas, msg.gasPrice));
    var out := Executed(msg, rules, evm, w);
    var used := Charged(msg.gas, out.gas, out.refund);
    var refunded := Credit(out.world.balances, msg.from, Fee(msg.gas - used, msg.gasPrice));
    CreditAdds(out.world.balances, msg.from, Fee(msg.gas - used, msg.gasPrice));
    CreditAdds(refunded, rules.coinbase, Fee(used, msg.gasPrice));
    FeesAdd(msg.gas - used, used, msg.gasPrice);
  }

  /** An applied message uses no more gas than it bought, and at least half of its intrinsic gas. */
  lemma UsedGasIsBounded(msg: Message, rules: Rules, evm: Evm, w: World, pool: uint64)
    requires SpendsGas(evm) && Verdict(msg, rules, evm, w, pool).Applied?
    ensures Verdict(msg, rules, evm, w, pool).usedGas <= msg.gas <= pool
    ensures 2 * Verdict(msg, rules, evm, w, pool).usedGas >= TrueIntrinsicGas(msg.data, msg.to == None, rules.homestead,
              rules.istanbul)
    ensures Fee(msg.gas, msg.gasPrice) <= BalanceOf(w.balances, msg.from)
    ensures TrueIntrinsicGas(msg.data, msg.to == None, rules.homestead, rules.istanbul) <= msg.gas
  {
    hide Fee, DataGas, Credit, Debit, Bumped, Charged;
  }

  /** A message is applied exactly if its nonce is the sender's, and funds, pool and gas suffice. */
  lemma AppliedExactly(msg: Message, rules: Rules, evm: Evm, w: World, pool: uint64)
    requires SpendsGas(evm)
    ensures Verdict(msg, rules, evm, w, pool).Applied? <==>
              && (msg.checkNonce ==> NonceOf(w, msg.from) == msg.nonce)
              && msg.gas * msg.gasPrice + msg.value <= BalanceOf(w.balances, msg.from)
              && TrueIntrinsicGas(msg.data, msg.to == None, rules.homestead, rules.istanbul) <= msg.gas <= pool
  {
    hide DataGas, Charged;
  }

  /** What each error blames. */
  lemma RejectedRightly(msg: Message, rules: Rules, evm: Evm, w: World, pool: uint64)
    requires SpendsGas(evm) && Verdict(msg, rules, evm, w, pool).Rejected?
    ensures
      var intrinsic := TrueIntrinsicGas(msg.data, msg.to == None, rules.homestead, rules.istanbul);
      match Verdict(msg, rules, evm, w, pool).error
      case NonceTooHigh => msg.checkNonce && msg.nonce > NonceOf(w, msg.from)
      case NonceTooLow => msg.checkNonce && msg.nonce < NonceOf(w, msg.from)
      case InsufficientFunds => msg.gas * msg.gasPrice > BalanceOf(w.balances, msg.from)
      case GasLimitReached => msg.gas > pool
      case GasUintOverflow => intrinsic > MAX_UINT64
      case IntrinsicTooLow => msg.gas < intrinsic <= MAX_UINT64
      case InsufficientFundsForTransfer => msg.gas * msg.gasPrice + msg.value > BalanceOf(w.balances, msg.from)
  {
    hide DataGas, Charged;
  }

  /** The machine takes `spent` gas when it has as much, and asks for the refund `refund`. */
  ghost predicate Costs(evm: Evm, spent: nat, refund: nat) {
    forall msg, gas: uint64, world | gas >= spent ::
      evm(msg, gas, world).gas == gas - spent && evm(msg, gas, world).refund == refund
  }

  /** What is charged is the intrinsic gas and what the machine takes, less a refund of at most half of that. */
  lemma UsedExactly(msg: Message, rules: Rules, evm: Evm, w: World, pool: uint64, spent: nat, refund: nat)
    requires SpendsGas(evm) && Costs(evm, spent, refund) && Verdict(msg, rules, evm, w, pool).Applied?
    requires TrueIntrinsicGas(msg.data, msg.to == None, rules.homestead, rules.istanbul) + spent <= msg.gas
    ensures
      var all := TrueIntrinsicGas(msg.data, msg.to == None, rules.homestead, rules.istanbul) + spent;
      Verdict(msg, rules, evm, w, pool).usedGas == all - if refund <= all / 2 then refund else all / 2
  {
    hide Fee, DataGas, Credit, Debit, Bumped;
  }

  /** The machine changes the balance of every account by `shift`, whatever it was. */
  ghost predicate Shifts(evm: Evm, shift: (Message, Address) -> int) {
    forall msg, gas, world, a ::
      BalanceOf(evm(msg, gas, world).world.balances, a) == BalanceOf(world.balances, a) + shift(msg, a)
  }

  /**
   Beside what the machine does, the sender loses the price of the used gas, the coinbase gains it, and all others keep
   theirs.
   */
  lemma WhoPays(msg: Message, rules: Rules, evm: Evm, w: World, pool: uint64, shift: (Message, Address) -> int,
                a: Address)
    requires SpendsGas(evm) && Shifts(evm, shift) && Verdict(msg, rules, evm, w, pool).Applied?
    requires TrueIntrinsicGas(msg.data, msg.to == None, rules.homestead, rules.istanbul) <= msg.gas
    requires Fee(msg.gas, msg.gasPrice) <= BalanceOf(w.balances, msg.from)
    ensures
      var price := Verdict(msg, rules, evm, w, pool).usedGas * msg.gasPrice;
      var change := (if a == rules.coinbase then price else 0) - (if a == msg.from then price else 0);
      BalanceOf(Settled(msg, rules, evm, w).balances, a) == BalanceOf(w.balances, a) + shift(msg, a) + change
  {
    var used := Verdict(msg, rules, evm, w, pool).usedGas;
    var out := Executed(msg, rules, evm, w);
    assert used == Charged(msg.gas, out.gas, out.refund);
    FeesAdd(msg.gas - used, used, msg.gasPrice);
    FeeIs(used, msg.gasPrice);
    hide Fee, DataGas, Charged;
    var paid := Debit(w.balances, msg.from, Fee(msg.gas, msg.gasPrice));
    assert BalanceOf(out.world.balances, a) == BalanceOf(paid, a) + shift(msg, a);
    var refunded := Credit(out.world.balances, msg.from, Fee(msg.gas - used, msg.gasPrice));
    assert Settled(msg, rules, evm, w).balances == Credit(refunded, rules.coinbase, Fee(used, msg.gasPrice));
  }

  lemma FeeIs(gas: nat, price: nat)
    ensures Fee(gas, price) == gas * price
  {
  }

  // ----- nonces -----

  /** Number `n` and one more, in 64 bits. */
  function Successor(n: uint64): uint64 {
    if n == MAX_UINT64 then 0 else n + 1
  }

  /**
   What the machine does to nonces: a call keeps the sender's, a creation raises it by one, and no other one falls.
   */
  ghost predicate MindsNonces(evm: Evm) {
    && (forall msg: Message, gas, world | msg.to.Some? ::
          NonceOf(evm(msg, gas, world).world, msg.from) == NonceOf(world, msg.from))
    && (forall msg: Message, gas, world | msg.to.None? ::
          NonceOf(evm(msg, gas, world).world, msg.from) == Successor(NonceOf(world, msg.from)))
    && (forall msg: Message, gas, world, a | a != msg.from ::
          NonceOf(evm(msg, gas, world).world, a) >= NonceOf(world, a))
  }

  /** An applied message raises the nonce of its sender by one and lowers that of nobody else. */
  lemma NonceIsSpent(msg: Message, rules: Rules, evm: Evm, w: World, pool: uint64)
    requires SpendsGas(evm) && MindsNonces(evm) && Verdict(msg, rules, evm, w, pool).Applied?
    requires TrueIntrinsicGas(msg.data, msg.to == None, rules.homestead, rules.istanbul) <= msg.gas
    requires Fee(msg.gas, msg.gasPrice) <= BalanceOf(w.balances, msg.from)
    ensures NonceOf(Settled(msg, rules, evm, w), msg.from) == Successor(NonceOf(w, msg.from))
    ensures msg.checkNonce ==> NonceOf(Settled(msg, rules, evm, w), msg.from) == Successor(msg.nonce)
    ensures forall a :: a != msg.from ==> NonceOf(Settled(msg, rules, evm, w), a) >= NonceOf(w, a)
  {
    hide Fee, DataGas, Credit, Debit, Charged;
    var out := Executed(msg, rules, evm, w);
    assert forall a :: NonceOf(Settled(msg, rules, evm, w), a) == NonceOf(out.world, a);
  }

  // ----- a whole block -----

  datatype Receipt = Receipt(cumulativeGasUsed: uint64, gasUsed: uint64, failed: bool)

  function SumUsed(receipts: seq<Receipt>): nat {
    if receipts == [] then 0 else SumUsed(receipts[..|receipts| - 1]) + receipts[|receipts| - 1].gasUsed
  }

  /** The cumulative gas of every receipt is the sum up to there. */
  ghost predicate Cumulative(receipts: seq<Receipt>) {
    forall i :: 0 <= i < |receipts| ==> receipts[i].cumulativeGasUsed == SumUsed(receipts[..i + 1])
  }

  lemma CumulativeExtends(receipts: seq<Receipt>, r: Receipt)
    requires Cumulative(receipts) && r.cumulativeGasUsed == SumUsed(receipts) + r.gasUsed
    ensures Cumulative(receipts + [r]) && SumUsed(receipts + [r]) == r.cumulativeGasUsed
  {
    var all := receipts + [r];
    assert all[..|receipts|] == receipts && all[..|all|] == all;
    forall i | 0 <= i < |receipts|
      ensures all[i].cumulativeGasUsed == SumUsed(all[..i + 1])
    {
      assert all[..i + 1] == receipts[..i + 1];
    }
  }

  lemma {:induction false} CumulativeRises(receipts: seq<Receipt>, i: nat, j: nat)
    requires Cumulative(receipts) && i <= j < |receipts|
    ensures receipts[i].cumulativeGasUsed <= receipts[j].cumulativeGasUsed
    decreases j
  {
    if i < j {
      CumulativeRises(receipts, i, j - 1);
      assert receipts[..j + 1][..j] == receipts[..j];
    }
  }

  /** The world and the pool after the messages, unless one is rejected. */
  ghost function Replay(msgs: seq<Message>, rules: Rules, evm: Evm, w: World, pool: uint64): Option<(World, uint64)>
    requires SpendsGas(evm)
  {
    if msgs == [] then Some((w, pool)) else
      var before := Replay(msgs[..|msgs| - 1], rules, evm, w, pool);
      if before == None then None else Next(msgs[|msgs| - 1], rules, evm, before.value.0, before.value.1)
  }

  ghost function Next(msg: Message, rules: Rules, evm: Evm, w: World, pool: uint64): Option<(World, uint64)>
    requires SpendsGas(evm)
  {
    var verdict := Verdict(msg, rules, evm, w, pool);
    if verdict.Rejected? then None else
      UsedGasIsBounded(msg, rules, evm, w, pool);
      Some((Settled(msg, rules, evm, w), pool - verdict.usedGas))
  }

  /** A rejected message spoils the whole block. */
  lemma {:induction false} OneSpoilsAll(msgs: seq<Message>, n: nat, rules: Rules, evm: Evm, w: World, pool: uint64)
    requires SpendsGas(evm) && n <= |msgs| && Replay(msgs[..n], rules, evm, w, pool) == None
    ensures Replay(msgs, rules, evm, w, pool) == None
    decreases |msgs|
  {
    if n < |msgs| {
      assert msgs[..|msgs| - 1][..n] == msgs[..n];
      OneSpoilsAll(msgs[..|msgs| - 1], n, rules, evm, w, pool);
    } else {
      assert msgs[..n] == msgs;
    }
  }

  /** All messages of account `a` are checked, and none has the last nonce there is. */
  ghost predicate Checked(msgs: seq<Message>, a: Address) {
    forall k :: 0 <= k < |msgs| && msgs[k].from == a ==> msgs[k].checkNonce && msgs[k].nonce < MAX_UINT64
  }

  /** After the first messages of a block, the nonce of a sender is beyond all those it has used. */
  lemma {:induction false} NonceIsBeyond(msgs: seq<Message>, rules: Rules, evm: Evm, w: World, pool: uint64, i: nat,
                                         k: nat)
    requires SpendsGas(evm) && MindsNonces(evm) && i < k <= |msgs| && Checked(msgs, msgs[i].from)
    requires Replay(msgs[..k], rules, evm, w, pool).Some?
    ensures NonceOf(Replay(msgs[..k], rules, evm, w, pool).value.0, msgs[i].from) > msgs[i].nonce
    decreases k
  {
    hide MindsNonces, Checked, Verdict, Settled;
    var n := k - 1;
    assert msgs[..k][..n] == msgs[..n] && msgs[..k][n] == msgs[n];
    var before := Replay(msgs[..n], rules, evm, w, pool).value;
    NonceMoves(msgs[n], rules, evm, before.0, before.1);
    if i < n {
      NonceIsBeyond(msgs, rules, evm, w, pool, i, n);
    }
    CheckedMeans(msgs, i, n);
  }

  lemma CheckedMeans(msgs: seq<Message>, i: nat, k: nat)
    requires i <= k < |msgs| && Checked(msgs, msgs[i].from)
    ensures msgs[k].from == msgs[i].from ==> msgs[k].checkNonce && msgs[k].nonce < MAX_UINT64
    ensures msgs[i].checkNonce && msgs[i].nonce < MAX_UINT64
  {
  }

  lemma NonceMoves(msg: Message, rules: Rules, evm: Evm, w: World, pool: uint64)
    requires SpendsGas(evm) && MindsNonces(evm) && Next(msg, rules, evm, w, pool).Some?
    ensures msg.checkNonce ==> NonceOf(w, msg.from) == msg.nonce
    ensures NonceOf(Next(msg, rules, evm, w, pool).value.0, msg.from) == Successor(NonceOf(w, msg.from))
    ensures forall a :: a != msg.from ==> NonceOf(Next(msg, rules, evm, w, pool).value.0, a) >= NonceOf(w, a)
  {
    UsedGasIsBounded(msg, rules, evm, w, pool);
    NonceIsSpent(msg, rules, evm, w, pool);
    AppliedExactly(msg, rules, evm, w, pool);
    hide MindsNonces, Verdict, Settled;
  }

  /** Two messages of one sender in a block that was processed have different nonces, in the order of the block. */
  lemma NoReplay(msgs: seq<Message>, rules: Rules, evm: Evm, w: World, pool: uint64, i: nat, j: nat)
    requires SpendsGas(evm) && MindsNonces(evm) && i < j < |msgs| && msgs[i].from == msgs[j].from
    requires Checked(msgs, msgs[i].from) && Replay(msgs, rules, evm, w, pool).Some?
    ensures msgs[i].nonce < msgs[j].nonce
  {
    hide MindsNonces, Checked, Verdict, Settled;
    PrefixApplies(msgs, j + 1, rules, evm, w, pool);
    assert msgs[..j + 1][..j] == msgs[..j] && msgs[..j + 1][j] == msgs[j];
    NonceIsBeyond(msgs, rules, evm, w, pool, i, j);
    var before := Replay(msgs[..j], rules, evm, w, pool).value;
    NonceMoves(msgs[j], rules, evm, before.0, before.1);
    CheckedMeans(msgs, i, j);
  }

  lemma PrefixApplies(msgs: seq<Message>, n: nat, rules: Rules, evm: Evm, w: World, pool: uint64)
    requires SpendsGas(evm) && n <= |msgs| && Replay(msgs, rules, evm, w, pool).Some?
    ensures Replay(msgs[..n], rules, evm, w, pool).Some?
  {
    if Replay(msgs[..n], rules, evm, w, pool) == None {
      OneSpoilsAll(msgs, n, rules, evm, w, pool);
    }
  }

  /** Applies one transaction: the pool and the used gas together stay at the block's gas limit. */
  method ApplyTransaction(msg: Message, rules: Rules, evm: Evm, gp: GasPool, state0: World, usedGas0: uint64)
    returns (receipt: Option<Receipt>, state: World, usedGas: uint64)
    requires SpendsGas(evm) && |msg.data| < 0x8000_0000_0000_0000 && gp.gas + usedGas0 <= MAX_UINT64
    modifies gp
    ensures receipt.Some? <==> Next(msg, rules, evm, state0, old(gp.gas)).Some?
    ensures receipt.Some? ==> Next(msg, rules, evm, state0, old(gp.gas)) == Some((state, gp.gas))
    ensures receipt.Some? ==> gp.gas + usedGas == old(gp.gas) + usedGas0 && usedGas == usedGas0 + receipt.value.gasUsed
    ensures receipt.Some? ==> receipt.value.cumulativeGasUsed == usedGas
    ensures receipt.Some? ==>
              Applied(receipt.value.gasUsed, receipt.value.failed) == Verdict(msg, rules, evm, state0, old(gp.gas))
    ensures receipt.Some? && Conserves(evm) ==> Total(state.balances) == Total(state0.balances)
  {
    hide Fee, DataGas, Total, Conserves, Settled;
    receipt, state, usedGas := None, state0, usedGas0;
    var st := new StateTransition(msg, rules, evm, gp, state0);
    var result := st.TransitionDb();
    if result.Applied? {
      state := st.state;
      usedGas := usedGas0 + result.usedGas;
      receipt := Some(Receipt(usedGas, result.usedGas, result.failed));
      UsedGasIsBounded(msg, rules, evm, state0, old(gp.gas));
      if Conserves(evm) {
        SettledConserves(msg, rules, evm, state0);
      }
    }
  }

  /**
   Runs the transactions of a block. If all apply, what is left in the pool and what was used are the gas limit, the
   receipts add up and tell what became of each, the total balance is what it was, and nobody's nonce was used twice.
   */
  method Process(msgs: seq<Message>, rules: Rules, evm: Evm, gasLimit: uint64, state0: World)
    returns (ok: bool, receipts: seq<Receipt>, usedGas: uint64, state: World, left: uint64)
    requires SpendsGas(evm) && forall m :: m in msgs ==> |m.data| < 0x8000_0000_0000_0000
    ensures ok ==> |receipts| == |msgs| && Cumulative(receipts) && usedGas == SumUsed(receipts)
    ensures ok ==> left + usedGas == gasLimit
    ensures ok <==> Replay(msgs, rules, evm, state0, gasLimit).Some?
    ensures ok ==> Replay(msgs, rules, evm, state0, gasLimit) == Some((state, left))
    ensures ok && Conserves(evm) ==> Total(state.balances) == Total(state0.balances)
    ensures ok ==> Told(receipts, msgs, rules, evm, state0, gasLimit)
    ensures ok && MindsNonces(evm) ==>
              forall i, j | 0 <= i < j < |msgs| && msgs[i].from == msgs[j].from && Checked(msgs, msgs[i].from) ::
                msgs[i].nonce < msgs[j].nonce
  {
    hide Total, Conserves, Next, SumUsed, Cumulative, Verdict, MindsNonces, Checked, Told;
    var gp := new GasPool(gasLimit);
    ok, receipts, usedGas, state, left := true, [], 0, state0, gasLimit;
    NoReceipts();
    NothingTold(msgs, rules, evm, state0, gasLimit);
    for i := 0 to |msgs|
      invariant |receipts| == i && Cumulative(receipts) && usedGas == SumUsed(receipts)
      invariant gp.gas + usedGas == gasLimit
      invariant Replay(msgs[..i], rules, evm, state0, gasLimit) == Some((state, gp.gas))
      invariant Conserves(evm) ==> Total(state.balances) == Total(state0.balances)
      invariant Told(receipts, msgs, rules, evm, state0, gasLimit)
    {
      assert msgs[..i + 1][..i] == msgs[..i];
      var receipt;
      receipt, state, usedGas := ApplyTransaction(msgs[i], rules, evm, gp, state, usedGas);
      if receipt == None {
        OneSpoilsAll(msgs, i + 1, rules, evm, state0, gasLimit);
        return false, [], 0, state, 0;
      }
      CumulativeExtends(receipts, receipt.value);
      ToldMore(receipts, receipt.value, msgs, rules, evm, state0, gasLimit);
      receipts := receipts + [receipt.value];
    }
    left := gp.gas;
    assert msgs[..|msgs|] == msgs;
    forall i, j | MindsNonces(evm) && 0 <= i < j < |msgs| && msgs[i].from == msgs[j].from && Checked(msgs, msgs[i].from)
      ensures msgs[i].nonce < msgs[j].nonce
    {
      NoReplay(msgs, rules, evm, state0, gasLimit, i, j);
    }
  }

  /** Every receipt tells the gas and the fate of its message in the world that the ones before have left. */
  ghost predicate Told(receipts: seq<Receipt>, msgs: seq<Message>, rules: Rules, evm: Evm, w: World, pool: uint64)
    requires SpendsGas(evm)
  {
    && |receipts| <= |msgs|
    && forall i :: 0 <= i < |receipts| ==>
         var before := Replay(msgs[..i], rules, evm, w, pool);
         && before.Some?
         && Verdict(msgs[i], rules, evm, before.value.0, before.value.1) ==
            Applied(receipts[i].gasUsed, receipts[i].failed)
  }

  lemma NothingTold(msgs: seq<Message>, rules: Rules, evm: Evm, w: World, pool: uint64)
    requires SpendsGas(evm)
    ensures Told([], msgs, rules, evm, w, pool)
  {
  }

  lemma ToldMore(receipts: seq<Receipt>, r: Receipt, msgs: seq<Message>, rules: Rules, evm: Evm, w: World, pool: uint64)
    requires SpendsGas(evm) && Told(receipts, msgs, rules, evm, w, pool) && |receipts| < |msgs|
    requires Replay(msgs[..|receipts|], rules, evm, w, pool).Some?
    requires
      var before := Replay(msgs[..|receipts|], rules, evm, w, pool).value;
      Applied(r.gasUsed, r.failed) == Verdict(msgs[|receipts|], rules, evm, before.0, before.1)
    ensures Told(receipts + [r], msgs, rules, evm, w, pool)
  {
    hide Verdict, Replay;
  }

  lemma NoReceipts()
    ensures Cumulative([]) && SumUsed([]) == 0
  {
  }
}

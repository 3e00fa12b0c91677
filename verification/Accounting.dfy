/** Gas and money over a message and over a block (blockchain/state_transition.go,
    blockchain/state_processor.go, hvm/gaspool.go). The virtual machine is a parameter: it may move
    balances as it likes, but returns no more gas than it was given. */
module Accounting {
  import opened Options

  type Address = nat
  type Balances = map<Address, nat>

  const TWO_64: nat := 0x1_0000_0000_0000_0000

  datatype Msg = Msg(from: Address, to: Option<Address>, gas: nat, price: nat, value: nat,
                     nonce: nat, checkNonce: bool, intrinsic: nat)

  datatype EvmResult = EvmResult(balances: Balances, gasLeft: nat, insufficient: bool, failed: bool)

  /** What the message meets: the sender's account, the refund counter, the virtual machine, and who
      gets the fees. */
  datatype Env = Env(stateNonce: nat, codeSize: nat, refund: nat, coinbase: Address, evm: (Balances, nat) -> EvmResult)

  ghost predicate EnvOk(env: Env) {
    forall b, g :: env.evm(b, g).gasLeft <= g
  }

  datatype Error =
    | NonceTooHigh
    | NonceTooLow
    | OutOfGas
    | InsufficientForGas
    | GasLimitReached
    | InsufficientBalance

  datatype Outcome = Used(gas: nat, failed: bool) | Failed(error: Error)

  // Balances.

  function Get(b: Balances, a: Address): nat {
    if a in b then b[a] else 0
  }

  function Credit(b: Balances, a: Address, amount: nat): Balances {
    b[a := Get(b, a) + amount]
  }

  function Debit(b: Balances, a: Address, amount: nat): Balances
    requires Get(b, a) >= amount
  {
    b[a := Get(b, a) - amount]
  }

  /** The sum of all balances. */
  ghost function Sum(b: Balances): nat
    decreases |b|
  {
    if b == map[] then 0 else
      var a :| a in b;
      b[a] + Sum(b - {a})
  }

  lemma {:induction false} SumRemove(b: Balances, a: Address)
    requires a in b
    ensures Sum(b) == b[a] + Sum(b - {a})
    decreases |b|
  {
    var k :| k in b && Sum(b) == b[k] + Sum(b - {k});
    if k != a {
      SumRemove(b - {k}, a);
      SumRemove(b - {a}, k);
      assert b - {k} - {a} == b - {a} - {k};
    }
  }

  lemma SumUpdate(b: Balances, a: Address, v: nat)
    ensures Sum(b[a := v]) == Sum(b) - Get(b, a) + v
  {
    var b' := b[a := v];
    SumRemove(b', a);
    if a in b {
      SumRemove(b, a);
      assert b' - {a} == b - {a};
    } else {
      assert b' - {a} == b;
    }
  }

  /** What an amount of gas costs. */
  function Fee(gas: nat, price: nat): nat {
    gas * price
  }

  lemma Distribute(a: nat, b: nat, p: nat)
    ensures Fee(a + b, p) == Fee(a, p) + Fee(b, p)
  {
  }

  // One message.

  /** The effect of a message on the balances: the sender pays value and fee, the recipient gets the
      value, the beneficiary the fee; any of them may coincide. */
  ghost predicate Settled(b: Balances, b': Balances, from: Address, to: Address, coinbase: Address, value: nat,
      fee: nat)
  {
    forall a :: Get(b', a) == Get(b, a)
      - (if a == from then value + fee else 0)
      + (if a == to then value else 0)
      + (if a == coinbase then fee else 0)
  }

  /** The refund: what the counter says, but at most half of the gas used. */
  function Refund(used: nat, counter: nat): (r: nat)
    ensures r <= used / 2 && r <= counter && (r == used / 2 || r == counter)
  {
    if used / 2 <= counter then used / 2 else counter
  }

  class StateTransition {
    const msg: Msg
    var gas: nat
    var initialGas: nat
    var balances: Balances
    var pool: nat

    /** The gas left never exceeds the gas bought. */
    predicate Valid()
      reads this
    {
      gas <= initialGas
    }

    function GasUsed(): nat
      requires Valid()
      reads this
    {
      initialGas - gas
    }

    constructor (msg: Msg, balances: Balances, pool: nat)
      ensures Valid() && this.msg == msg && this.balances == balances && this.pool == pool && gas == initialGas == 0
    {
      this.msg, this.balances, this.pool, gas, initialGas := msg, balances, pool, 0, 0;
    }

    method UseGas(amount: nat) returns (e: Option<Error>)
      requires Valid()
      modifies `gas
      ensures Valid()
      ensures e == if old(gas) < amount then Some(OutOfGas) else None
      ensures gas == if e == None then old(gas) - amount else old(gas)
    {
      if gas < amount {
        return Some(OutOfGas);
      }
      gas := gas - amount;
      return None;
    }

    method SubGas(amount: nat) returns (e: Option<Error>)
      modifies `pool
      ensures e == if old(pool) < amount then Some(GasLimitReached) else None
      ensures pool == if e == None then old(pool) - amount else old(pool)
    {
      if pool < amount {
        return Some(GasLimitReached);
      }
      pool := pool - amount;
      return None;
    }

    method BuyGas() returns (e: Option<Error>)
      requires Valid() && gas == 0
      modifies `gas, `initialGas, `balances, `pool
      ensures Valid()
      ensures e == Purchase(msg, old(balances), old(pool))
      ensures e == None ==>
        && gas == initialGas == msg.gas && pool == old(pool) - msg.gas
        && balances == Debit(old(balances), msg.from, Fee(msg.gas, msg.price))
      ensures e != None ==> gas == old(gas) && balances == old(balances) && pool == old(pool)
    {
      if msg.gas >= TWO_64 {
        return Some(OutOfGas);
      }
      var cost := Fee(msg.gas, msg.price);
      if Get(balances, msg.from) < cost {
        return Some(InsufficientForGas);
      }
      e := SubGas(msg.gas);
      if e != None {
        return;
      }
      gas, initialGas := gas + msg.gas, msg.gas;
      balances := Debit(balances, msg.from, cost);
    }

    method PreCheck(stateNonce: nat) returns (e: Option<Error>)
      requires Valid() && gas == 0
      modifies `gas, `initialGas, `balances, `pool
      ensures Valid()
      ensures e == Check(msg, stateNonce, old(balances), old(pool))
      ensures e == None ==>
        && gas == initialGas == msg.gas && pool == old(pool) - msg.gas
        && balances == Debit(old(balances), msg.from, Fee(msg.gas, msg.price))
      ensures e != None ==> gas == old(gas) && balances == old(balances) && pool == old(pool)
    {
      if msg.checkNonce {
        if stateNonce < msg.nonce {
          return Some(NonceTooHigh);
        } else if stateNonce > msg.nonce {
          return Some(NonceTooLow);
        }
      }
      e := BuyGas();
    }

    /** Returns unused gas, and the refund, to the sender and to the pool. */
    method RefundGas(counter: nat)
      requires Valid()
      modifies `gas, `balances, `pool
      ensures Valid()
      ensures gas == old(gas) + Refund(old(GasUsed()), counter) && pool == old(pool) + gas
      ensures balances == Credit(old(balances), msg.from, Fee(gas, msg.price))
    {
      balances := Credit(balances, msg.from, Fee(gas, msg.price));
      var refund := Refund(GasUsed(), counter);
      Distribute(gas, refund, msg.price);
      gas := gas + refund;
      balances := Credit(balances, msg.from, Fee(refund, msg.price));
      pool := pool + gas;
    }

    /** Returns what is left and pays the fee. */
    method Settle(counter: nat, coinbase: Address)
      requires Valid()
      modifies `gas, `balances, `pool
      ensures Valid()
      ensures gas == old(gas) + Refund(old(GasUsed()), counter) && pool == old(pool) + gas
      ensures balances
        == Credit(Credit(old(balances), msg.from, Fee(gas, msg.price)), coinbase, Fee(GasUsed(), msg.price))
    {
      RefundGas(counter);
      balances := Credit(balances, coinbase, Fee(GasUsed(), msg.price));
    }

    method TransitionOnNative(counter: nat, coinbase: Address) returns (r: Outcome)
      requires Valid() && msg.to.Some?
      modifies `gas, `balances, `pool
      ensures Valid()
      ensures r == Failed(InsufficientBalance) <==> Get(old(balances), msg.from) < msg.value
      ensures r.Failed? ==> r == Failed(InsufficientBalance) && balances == old(balances) && pool == old(pool)
      ensures r.Used? ==>
        && r.gas == GasUsed() == old(GasUsed()) - Refund(old(GasUsed()), counter)
        && !r.failed && pool == old(pool) + gas
        && balances == Paid(old(balances), msg, Fee(gas, msg.price), coinbase, Fee(r.gas, msg.price))
    {
      if Get(balances, msg.from) < msg.value {
        return Failed(InsufficientBalance);
      }
      balances := Debit(balances, msg.from, msg.value);
      balances := Credit(balances, msg.to.value, msg.value);
      Settle(counter, coinbase);
      return Used(GasUsed(), false);
    }

    method TransitionOnEvm(env: Env) returns (r: Outcome)
      requires Valid() && EnvOk(env)
      modifies `gas, `balances, `pool
      ensures Valid()
      ensures
        var result := env.evm(old(balances), old(gas));
        if result.insufficient then r == Failed(InsufficientBalance) && pool == old(pool) && balances == result.balances
        else
          var used := old(initialGas) - result.gasLeft;
          && r == Used(used - Refund(used, env.refund), result.failed)
          && pool == old(pool) + old(initialGas) - r.gas
          && balances
            == Credit(Credit(result.balances, msg.from, Fee(old(initialGas) - r.gas, msg.price)),
                      env.coinbase, Fee(r.gas, msg.price))
    {
      var result := env.evm(balances, gas);
      gas, balances := result.gasLeft, result.balances;
      if result.insufficient {
        return Failed(InsufficientBalance);
      }
      Settle(env.refund, env.coinbase);
      return Used(GasUsed(), result.failed);
    }
  }

  /** The reasons not to sell the gas, in the order in which they are looked at. */
  function Purchase(msg: Msg, balances: Balances, pool: nat): Option<Error> {
    if msg.gas >= TWO_64 then Some(OutOfGas)
    else if Get(balances, msg.from) < Fee(msg.gas, msg.price) then Some(InsufficientForGas)
    else if pool < msg.gas then Some(GasLimitReached)
    else None
  }

  function Check(msg: Msg, stateNonce: nat, balances: Balances, pool: nat): Option<Error> {
    if msg.checkNonce && stateNonce < msg.nonce then Some(NonceTooHigh)
    else if msg.checkNonce && stateNonce > msg.nonce then Some(NonceTooLow)
    else Purchase(msg, balances, pool)
  }

  /** The four movements of a transfer: value out, value in, unused gas back, fee. */
  function Paid(b: Balances, msg: Msg, back: nat, coinbase: Address, fee: nat): Balances
    requires msg.to.Some? && Get(b, msg.from) >= msg.value
  {
    Credit(Credit(Transferred(b, msg.from, msg.to.value, msg.value), msg.from, back), coinbase, fee)
  }

  function Transferred(b: Balances, from: Address, to: Address, value: nat): Balances
    requires Get(b, from) >= value
  {
    Credit(Debit(b, from, value), to, value)
  }

  lemma CreditAll(b: Balances, a: Address, amount: nat)
    ensures Sum(Credit(b, a, amount)) == Sum(b) + amount
    ensures forall x :: Get(Credit(b, a, amount), x) == Get(b, x) + if x == a then amount else 0
  {
    SumUpdate(b, a, Get(b, a) + amount);
  }

  lemma DebitAll(b: Balances, a: Address, amount: nat)
    requires Get(b, a) >= amount
    ensures Sum(Debit(b, a, amount)) == Sum(b) - amount
    ensures forall x :: Get(Debit(b, a, amount), x) == Get(b, x) - if x == a then amount else 0
  {
    SumUpdate(b, a, Get(b, a) - amount);
  }

  /** With the gas paid for in advance, the four movements settle the message, whoever coincides,
      and the sum of all balances is what it was. */
  lemma PaidSettles(b: Balances, msg: Msg, cost: nat, back: nat, fee: nat, coinbase: Address)
    requires msg.to.Some? && cost == back + fee && Get(b, msg.from) >= cost + msg.value
    ensures
      var b' := Paid(Debit(b, msg.from, cost), msg, back, coinbase, fee);
      && Settled(b, b', msg.from, msg.to.value, coinbase, msg.value, fee)
      && Sum(b') == Sum(b)
  {
    hide Sum, Get, Credit, Debit;
    DebitAll(b, msg.from, cost);
    var b1 := Debit(b, msg.from, cost);
    DebitAll(b1, msg.from, msg.value);
    var b2 := Debit(b1, msg.from, msg.value);
    CreditAll(b2, msg.to.value, msg.value);
    var b3 := Credit(b2, msg.to.value, msg.value);
    CreditAll(b3, msg.from, back);
    CreditAll(Credit(b3, msg.from, back), coinbase, fee);
  }

  /** A message from an account without code to some recipient is a plain transfer. */
  predicate Native(msg: Msg, env: Env) {
    msg.to.Some? && env.codeSize == 0
  }

  /** The message is rejected before anything changes; otherwise the gas is bought. */
  function Bought(msg: Msg, balances: Balances): Balances
    requires Get(balances, msg.from) >= Fee(msg.gas, msg.price)
  {
    Debit(balances, msg.from, Fee(msg.gas, msg.price))
  }

  datatype Effect = Effect(balances: Balances, pool: nat, outcome: Outcome)

  /** What a message does to the balances and to the gas pool. */
  function Applied(balances: Balances, pool: nat, msg: Msg, env: Env): Effect
    requires EnvOk(env)
  {
    var check := Check(msg, env.stateNonce, balances, pool);
    if check.Some? then Effect(balances, pool, Failed(check.value))
    else if msg.gas < msg.intrinsic then Effect(Bought(msg, balances), pool - msg.gas, Failed(OutOfGas))
    else if Native(msg, env) then Transfer(Bought(msg, balances), pool, msg, env)
    else Execute(Bought(msg, balances), pool, msg, env)
  }

  function Transfer(b: Balances, pool: nat, msg: Msg, env: Env): Effect
    requires Native(msg, env) && msg.intrinsic <= msg.gas <= pool
  {
    if Get(b, msg.from) < msg.value then Effect(b, pool - msg.gas, Failed(InsufficientBalance))
    else
      var used := msg.intrinsic - Refund(msg.intrinsic, env.refund);
      Effect(Paid(b, msg, Fee(msg.gas - used, msg.price), env.coinbase, Fee(used, msg.price)),
             pool - used, Used(used, false))
  }

  function Execute(b: Balances, pool: nat, msg: Msg, env: Env): Effect
    requires EnvOk(env) && msg.intrinsic <= msg.gas <= pool
  {
    var result := env.evm(b, msg.gas - msg.intrinsic);
    if result.insufficient then Effect(result.balances, pool - msg.gas, Failed(InsufficientBalance))
    else
      var used := msg.gas - result.gasLeft - Refund(msg.gas - result.gasLeft, env.refund);
      Effect(Credit(Credit(result.balances, msg.from, Fee(msg.gas - used, msg.price)),
                    env.coinbase, Fee(used, msg.price)),
             pool - used, Used(used, result.failed))
  }

  /** The gas can be sold: the nonce is right if it is looked at, the amount fits 64 bits, the sender
      can pay for it, and the block has that much left. */
  predicate Sold(balances: Balances, pool: nat, msg: Msg, env: Env) {
    && (msg.checkNonce ==> env.stateNonce == msg.nonce)
    && msg.gas < 0x1_0000_0000_0000_0000 && Get(balances, msg.from) >= msg.gas * msg.price && pool >= msg.gas
  }

  /** Which error a message ends with, and when. */
  lemma ErrorsExactly(balances: Balances, pool: nat, msg: Msg, env: Env)
    requires EnvOk(env)
    ensures
      var r, sold := Applied(balances, pool, msg, env).outcome, Sold(balances, pool, msg, env);
      var nonceOk, small := !msg.checkNonce || env.stateNonce == msg.nonce, msg.gas < 0x1_0000_0000_0000_0000;
      var paid := Get(balances, msg.from) >= msg.gas * msg.price;
      && (r == Failed(NonceTooHigh) <==> msg.checkNonce && env.stateNonce < msg.nonce)
      && (r == Failed(NonceTooLow) <==> msg.checkNonce && env.stateNonce > msg.nonce)
      && (r == Failed(OutOfGas) <==> (nonceOk && !small) || (sold && msg.gas < msg.intrinsic))
      && (r == Failed(InsufficientForGas) <==> nonceOk && small && !paid)
      && (r == Failed(GasLimitReached) <==> nonceOk && small && paid && pool < msg.gas)
      && (r == Failed(InsufficientBalance) <==>
            && sold && msg.intrinsic <= msg.gas
            && var given := balances[msg.from := Get(balances, msg.from) - msg.gas * msg.price];
               if msg.to.Some? && env.codeSize == 0 then given[msg.from] < msg.value
               else env.evm(given, msg.gas - msg.intrinsic).insufficient)
  {
    hide Paid, Credit;
  }

  lemma NonceErrors(balances: Balances, pool: nat, msg: Msg, env: Env)
    requires EnvOk(env)
    ensures var r := Applied(balances, pool, msg, env).outcome;
      && (r == Failed(NonceTooHigh) <==> msg.checkNonce && env.stateNonce < msg.nonce)
      && (r == Failed(NonceTooLow) <==> msg.checkNonce && env.stateNonce > msg.nonce)
  {
    hide Applied, Get, Sold;
    ErrorsExactly(balances, pool, msg, env);
  }

  /** Applies a message, step by step. */
  method ApplyMessage(balances: Balances, pool: nat, msg: Msg, env: Env)
      returns (balances': Balances, pool': nat, r: Outcome)
    requires EnvOk(env)
    ensures Effect(balances', pool', r) == Applied(balances, pool, msg, env)
    ensures r == Failed(NonceTooHigh) <==> msg.checkNonce && env.stateNonce < msg.nonce
    ensures r == Failed(NonceTooLow) <==> msg.checkNonce && env.stateNonce > msg.nonce
  {
    hide Get, Credit, Debit, Paid, Refund, Fee, Check;
    NonceErrors(balances, pool, msg, env);
    var st := new StateTransition(msg, balances, pool);
    var e := st.PreCheck(env.stateNonce);
    if e != None {
      return st.balances, st.pool, Failed(e.value);
    }
    e := st.UseGas(msg.intrinsic);
    if e != None {
      return st.balances, st.pool, Failed(e.value);
    }
    if Native(msg, env) {
      r := st.TransitionOnNative(env.refund, env.coinbase);
    } else {
      r := st.TransitionOnEvm(env);
    }
    balances', pool' := st.balances, st.pool;
  }

  /** Used gas is what the pool loses, never more than was bought, and at least half of the
      intrinsic gas. */
  lemma GasConserved(balances: Balances, pool: nat, msg: Msg, env: Env)
    requires EnvOk(env)
    ensures
      var effect := Applied(balances, pool, msg, env);
      effect.outcome.Used? ==>
        && effect.pool + effect.outcome.gas == pool
        && msg.intrinsic <= 2 * effect.outcome.gas && effect.outcome.gas <= msg.gas
  {
    hide Get, Credit, Debit, Paid, Fee;
  }

  lemma FeeIs(gas: nat, price: nat)
    ensures Fee(gas, price) == gas * price
  {
  }

  lemma SoldExactly(balances: Balances, pool: nat, msg: Msg, env: Env)
    ensures Check(msg, env.stateNonce, balances, pool).None? <==> Sold(balances, pool, msg, env)
  {
  }

  /** A plain transfer goes through exactly if the checks pass, the gas covers the intrinsic gas, and
      the sender can pay for gas and value together. Then it is settled and the sum of all balances
      is unchanged. */
  lemma TransferConserves(balances: Balances, pool: nat, msg: Msg, env: Env)
    requires EnvOk(env) && msg.to.Some? && env.codeSize == 0
    ensures
      var effect := Applied(balances, pool, msg, env);
      && (effect.outcome.Used? <==>
            && Sold(balances, pool, msg, env) && msg.intrinsic <= msg.gas
            && Get(balances, msg.from) >= msg.gas * msg.price + msg.value)
      && (effect.outcome.Used? ==>
            && effect.outcome.gas
                 == msg.intrinsic - (if msg.intrinsic / 2 <= env.refund then msg.intrinsic / 2 else env.refund)
            && !effect.outcome.failed
            && Settled(balances, effect.balances, msg.from, msg.to.value, env.coinbase, msg.value,
                       effect.outcome.gas * msg.price)
            && Sum(effect.balances) == Sum(balances))
  {
    hide Sum, Credit, Settled, Paid, Fee;
    SoldExactly(balances, pool, msg, env);
    FeeIs(msg.gas, msg.price);
    if Check(msg, env.stateNonce, balances, pool).None? && msg.intrinsic <= msg.gas
       && Get(balances, msg.from) >= Fee(msg.gas, msg.price) + msg.value {
      FeeIs(Applied(balances, pool, msg, env).outcome.gas, msg.price);
      var used := msg.intrinsic - Refund(msg.intrinsic, env.refund);
      Distribute(msg.gas - used, used, msg.price);
      PaidSettles(balances, msg, Fee(msg.gas, msg.price), Fee(msg.gas - used, msg.price), Fee(used, msg.price),
        env.coinbase);
    }
  }

  /** A plain transfer that fails keeps the sum of all balances, unless the gas was already bought:
      then exactly its price is gone. */
  lemma FailureCosts(balances: Balances, pool: nat, msg: Msg, env: Env)
    requires EnvOk(env) && msg.to.Some? && env.codeSize == 0 && Applied(balances, pool, msg, env).outcome.Failed?
    ensures
      var cost := if Sold(balances, pool, msg, env) then msg.gas * msg.price else 0;
      Sum(Applied(balances, pool, msg, env).balances) == Sum(balances) - cost
  {
    hide Sum, Credit, Paid, Debit, Fee;
    SoldExactly(balances, pool, msg, env);
    FeeIs(msg.gas, msg.price);
    if Check(msg, env.stateNonce, balances, pool).None? {
      DebitAll(balances, msg.from, Fee(msg.gas, msg.price));
    }
  }

  /** A transfer that can pay for its gas but not for its value: the price of the gas is gone. */
  lemma ShortTransfer(env: Env)
    requires EnvOk(env) && env.codeSize == 0
    ensures var msg, before := Msg(1, Some(2), 100, 2, 50, 0, false, 21), map[1 := 210];
      && Applied(before, 1000, msg, env).outcome == Failed(InsufficientBalance)
      && Sum(Applied(before, 1000, msg, env).balances) == Sum(before) - 200
  {
    hide Sum, Paid;
    FailureCosts(map[1 := 210], 1000, Msg(1, Some(2), 100, 2, 50, 0, false, 21), env);
  }

  /** A message that runs on the virtual machine changes the sum of all balances by exactly what the
      machine itself makes of it. */
  lemma ExecuteConserves(balances: Balances, pool: nat, msg: Msg, env: Env)
    requires EnvOk(env) && (msg.to.None? || env.codeSize != 0) && Applied(balances, pool, msg, env).outcome.Used?
    ensures Get(balances, msg.from) >= msg.gas * msg.price && msg.intrinsic <= msg.gas
    ensures
      var given := balances[msg.from := Get(balances, msg.from) - msg.gas * msg.price];
      Sum(Applied(balances, pool, msg, env).balances) - Sum(balances)
        == Sum(env.evm(given, msg.gas - msg.intrinsic).balances) - Sum(given)
  {
    hide Sum, Credit, Execute, Fee;
    FeeIs(msg.gas, msg.price);
    DebitAll(balances, msg.from, Fee(msg.gas, msg.price));
    ExecuteSum(Bought(msg, balances), pool, msg, env);
  }

  /** A message that runs on the virtual machine pays for the gas it used, less the refund, and what is
      left of the gas comes back; everything else is the machine's doing. */
  lemma ExecuteSettles(balances: Balances, pool: nat, msg: Msg, env: Env)
    requires EnvOk(env) && (msg.to.None? || env.codeSize != 0) && Applied(balances, pool, msg, env).outcome.Used?
    ensures Get(balances, msg.from) >= msg.gas * msg.price && msg.intrinsic <= msg.gas
    ensures
      var given := balances[msg.from := Get(balances, msg.from) - msg.gas * msg.price];
      var result := env.evm(given, msg.gas - msg.intrinsic);
      var effect, spent := Applied(balances, pool, msg, env), msg.gas - result.gasLeft;
      && effect.outcome == Used(spent - (if spent / 2 <= env.refund then spent / 2 else env.refund), result.failed)
      && forall a :: Get(effect.balances, a) == Get(result.balances, a)
           + (if a == msg.from then (msg.gas - effect.outcome.gas) * msg.price else 0)
           + (if a == env.coinbase then effect.outcome.gas * msg.price else 0)
  {
    hide Sum, Credit, Get;
    var given := balances[msg.from := Get(balances, msg.from) - msg.gas * msg.price];
    var result, gas := env.evm(given, msg.gas - msg.intrinsic), Applied(balances, pool, msg, env).outcome.gas;
    CreditAll(result.balances, msg.from, Fee(msg.gas - gas, msg.price));
    CreditAll(Credit(result.balances, msg.from, Fee(msg.gas - gas, msg.price)), env.coinbase, Fee(gas, msg.price));
  }

  lemma ExecuteSum(b: Balances, pool: nat, msg: Msg, env: Env)
    requires EnvOk(env) && msg.intrinsic <= msg.gas <= pool && Execute(b, pool, msg, env).outcome.Used?
    ensures Sum(Execute(b, pool, msg, env).balances)
      == Sum(env.evm(b, msg.gas - msg.intrinsic).balances) + Fee(msg.gas, msg.price)
  {
    hide Sum, Credit, Fee;
    var moved, used := env.evm(b, msg.gas - msg.intrinsic).balances, Execute(b, pool, msg, env).outcome.gas;
    Distribute(msg.gas - used, used, msg.price);
    CreditAll(moved, msg.from, Fee(msg.gas - used, msg.price));
    CreditAll(Credit(moved, msg.from, Fee(msg.gas - used, msg.price)), env.coinbase, Fee(used, msg.price));
  }

  // One block.

  datatype Tx = Tx(msg: Msg, env: Env)

  datatype Receipt = Receipt(cumulative: int, gasUsed: int, failed: bool)

  datatype BlockResult = Accepted(receipts: seq<Receipt>, totalUsed: nat, balances: Balances, pool: nat)
    | Rejected(error: Error)

  function PrefixSum(used: seq<int>, k: nat): int
    requires k <= |used|
  {
    if k == 0 then 0 else PrefixSum(used, k - 1) + used[k - 1]
  }

  function UsedGas(receipts: seq<Receipt>): (used: seq<int>)
    ensures |used| == |receipts| && forall j :: 0 <= j < |used| ==> used[j] == receipts[j].gasUsed
  {
    seq(|receipts|, j requires 0 <= j < |receipts| => receipts[j].gasUsed)
  }

  function Cumulative(receipts: seq<Receipt>): (c: seq<int>)
    ensures |c| == |receipts| && forall j :: 0 <= j < |c| ==> c[j] == receipts[j].cumulative
  {
    seq(|receipts|, j requires 0 <= j < |receipts| => receipts[j].cumulative)
  }

  /** Each receipt holds the sum of the gas used up to and including it. */
  ghost predicate PrefixSums(receipts: seq<Receipt>) {
    forall j :: 0 <= j < |receipts| ==> receipts[j].cumulative == PrefixSum(UsedGas(receipts), j + 1)
  }

  lemma {:induction false} PrefixOfLonger(used: seq<int>, more: seq<int>, k: nat)
    requires k <= |used|
    ensures PrefixSum(used + more, k) == PrefixSum(used, k)
  {
    if k > 0 {
      PrefixOfLonger(used, more, k - 1);
    }
  }

  lemma NextReceipt(receipts: seq<Receipt>, gas: nat, failed: bool)
    requires PrefixSums(receipts)
    ensures
      var total := PrefixSum(UsedGas(receipts), |receipts|);
      var receipts' := receipts + [Receipt(total + gas, gas, failed)];
      PrefixSums(receipts') && PrefixSum(UsedGas(receipts'), |receipts'|) == total + gas
  {
    var total := PrefixSum(UsedGas(receipts), |receipts|);
    var receipts' := receipts + [Receipt(total + gas, gas, failed)];
    assert UsedGas(receipts') == UsedGas(receipts) + [gas];
    forall k: nat | k <= |receipts|
      ensures PrefixSum(UsedGas(receipts'), k) == PrefixSum(UsedGas(receipts), k)
    {
      PrefixOfLonger(UsedGas(receipts), [gas], k);
    }
  }

  ghost predicate EnvsOk(txs: seq<Tx>) {
    forall i :: 0 <= i < |txs| ==> EnvOk(txs[i].env)
  }

  datatype Progress = At(balances: Balances, pool: nat) | Stopped(error: Error)

  /** Where the first `k` messages lead: each one applied to what the one before has left. */
  ghost function After(balances: Balances, gasLimit: nat, txs: seq<Tx>, k: nat): Progress
    requires EnvsOk(txs) && k <= |txs|
  {
    if k == 0 then At(balances, gasLimit) else
      match After(balances, gasLimit, txs, k - 1)
      case Stopped(e) => Stopped(e)
      case At(b, pool) =>
        var effect := Applied(b, pool, txs[k - 1].msg, txs[k - 1].env);
        if effect.outcome.Failed? then Stopped(effect.outcome.error) else At(effect.balances, effect.pool)
  }

  /** The receipt says what the message did to the state it met. */
  ghost predicate Receipted(met: Progress, tx: Tx, receipt: Receipt)
    requires EnvOk(tx.env)
  {
    && met.At?
    && var outcome := Applied(met.balances, met.pool, tx.msg, tx.env).outcome;
    outcome.Used? && outcome.gas == receipt.gasUsed && outcome.failed == receipt.failed
  }

  lemma AfterNone(balances: Balances, gasLimit: nat, txs: seq<Tx>)
    requires EnvsOk(txs)
    ensures After(balances, gasLimit, txs, 0) == At(balances, gasLimit)
  {
  }

  /** One more message, if the ones before went through. */
  lemma AfterOne(balances: Balances, gasLimit: nat, txs: seq<Tx>, k: nat)
    requires EnvsOk(txs) && k < |txs| && After(balances, gasLimit, txs, k).At?
    ensures
      var met, tx := After(balances, gasLimit, txs, k), txs[k];
      var effect := Applied(met.balances, met.pool, tx.msg, tx.env);
      && After(balances, gasLimit, txs, k + 1) ==
           (if effect.outcome.Failed? then Stopped(effect.outcome.error) else At(effect.balances, effect.pool))
      && forall total: int :: effect.outcome.Used? ==>
           Receipted(met, tx, Receipt(total, effect.outcome.gas, effect.outcome.failed))
  {
    hide Applied;
  }

  lemma {:induction false} StaysStopped(balances: Balances, gasLimit: nat, txs: seq<Tx>, j: nat, k: nat)
    requires EnvsOk(txs) && j <= k <= |txs| && After(balances, gasLimit, txs, j).Stopped?
    ensures After(balances, gasLimit, txs, k) == After(balances, gasLimit, txs, j)
    decreases k
  {
    hide Applied;
    if j < k {
      StaysStopped(balances, gasLimit, txs, j, k - 1);
    }
  }

  /** Processes a block. If it is accepted, what is left in the gas pool and what was used make up
      the gas limit, the receipts hold the running totals, and a block of plain transfers leaves the
      sum of all balances as it was. One failing message rejects the block. */
  method Process(balances: Balances, gasLimit: nat, txs: seq<Tx>) returns (r: BlockResult)
    requires EnvsOk(txs)
    ensures After(balances, gasLimit, txs, |txs|) == if r.Accepted? then At(r.balances, r.pool) else Stopped(r.error)
    ensures r.Accepted? ==>
      && |r.receipts| == |txs| && PrefixSums(r.receipts)
      && r.totalUsed == PrefixSum(UsedGas(r.receipts), |txs|)
      && r.pool + r.totalUsed == gasLimit
      && ((forall i :: 0 <= i < |txs| ==> txs[i].msg.to.Some? && txs[i].env.codeSize == 0) ==>
            Sum(r.balances) == Sum(balances))
    ensures r.Accepted? ==> forall i :: 0 <= i < |txs| ==>
      txs[i].msg.intrinsic <= 2 * r.receipts[i].gasUsed && r.receipts[i].gasUsed <= txs[i].msg.gas
    ensures r.Accepted? ==> forall i :: 0 <= i < |txs| ==>
      Receipted(After(balances, gasLimit, txs, i), txs[i], r.receipts[i])
  {
    hide Sum, EnvOk, PrefixSums, Settled, Check, Get, Applied, Sold, After, Receipted, UsedGas, PrefixSum;
    AfterNone(balances, gasLimit, txs);
    var receipts: seq<Receipt>, totalUsed: nat := [], 0;
    var state: Balances, pool: nat := balances, gasLimit;
    NoReceipts();
    for i := 0 to |txs|
      invariant After(balances, gasLimit, txs, i) == At(state, pool)
      invariant |receipts| == i && PrefixSums(receipts) && totalUsed == PrefixSum(UsedGas(receipts), i)
      invariant pool + totalUsed == gasLimit
      invariant (forall j :: 0 <= j < i ==> txs[j].msg.to.Some? && txs[j].env.codeSize == 0) ==>
        Sum(state) == Sum(balances)
      invariant forall j :: 0 <= j < i ==>
        txs[j].msg.intrinsic <= 2 * receipts[j].gasUsed && receipts[j].gasUsed <= txs[j].msg.gas
      invariant forall j :: 0 <= j < i ==> Receipted(After(balances, gasLimit, txs, j), txs[j], receipts[j])
    {
      var outcome;
      ghost var effect := Applied(state, pool, txs[i].msg, txs[i].env);
      AfterOne(balances, gasLimit, txs, i);
      GasConserved(state, pool, txs[i].msg, txs[i].env);
      if txs[i].msg.to.Some? && txs[i].env.codeSize == 0 {
        TransferConserves(state, pool, txs[i].msg, txs[i].env);
      }
      state, pool, outcome := ApplyMessage(state, pool, txs[i].msg, txs[i].env);
      if outcome.Failed? {
        StaysStopped(balances, gasLimit, txs, i + 1, |txs|);
        return Rejected(outcome.error);
      }
      NextReceipt(receipts, outcome.gas, outcome.failed);
      assert effect == Effect(state, pool, outcome);
      totalUsed := totalUsed + outcome.gas;
      receipts := receipts + [Receipt(totalUsed, outcome.gas, outcome.failed)];
    }
    return Accepted(receipts, totalUsed, state, pool);
  }

  lemma NoReceipts()
    ensures PrefixSums([]) && PrefixSum(UsedGas([]), 0) == 0
  {
  }

  // Deriving the gas used from the running totals.

  function Difference(c: seq<int>, j: nat): int
    requires j < |c|
  {
    if j == 0 then c[j] else c[j] - c[j - 1]
  }

  /** Recomputes the gas used of each receipt, in place. */
  method SetReceiptsData(receipts: array<Receipt>)
    modifies receipts
    ensures forall j :: 0 <= j < receipts.Length ==>
      receipts[j] == old(receipts[j]).(gasUsed := Difference(Cumulative(old(receipts[..])), j))
  {
    for j := 0 to receipts.Length
      invariant forall k :: 0 <= k < j ==>
        receipts[k] == old(receipts[k]).(gasUsed := Difference(Cumulative(old(receipts[..])), k))
      invariant forall k :: j <= k < receipts.Length ==> receipts[k] == old(receipts[k])
    {
      var used := if j == 0 then receipts[j].cumulative else receipts[j].cumulative - receipts[j - 1].cumulative;
      receipts[j] := receipts[j].(gasUsed := used);
    }
  }

  /** The derivation inverts the running totals: it gives back exactly the gas used. */
  lemma DifferencesInvert(receipts: seq<Receipt>, j: nat)
    requires PrefixSums(receipts) && j < |receipts|
    ensures Derived(receipts, j)
  {
    assert receipts[j].cumulative == PrefixSum(UsedGas(receipts), j + 1);
    if j > 0 {
      assert receipts[j - 1].cumulative == PrefixSum(UsedGas(receipts), j);
    }
  }

  ghost predicate Derived(receipts: seq<Receipt>, j: nat)
    requires j < |receipts|
  {
    Difference(Cumulative(receipts), j) == receipts[j].gasUsed
  }

  /** And only running totals are inverted: receipts whose derived gas agrees with theirs hold
      prefix sums. */
  lemma {:induction false} OnlyPrefixSums(receipts: seq<Receipt>, j: nat)
    requires j < |receipts|
    requires forall k :: 0 <= k < |receipts| ==> Derived(receipts, k)
    ensures receipts[j].cumulative == PrefixSum(UsedGas(receipts), j + 1)
  {
    assert Derived(receipts, j);
    if j > 0 {
      OnlyPrefixSums(receipts, j - 1);
    }
  }
}

/** Gas accounting: the intrinsic gas of a message, buying and refunding gas, and the
    gas pool of a block (section 6 of the Ethereum Yellow Paper). */
module Gas {
  import opened Options

  type Address = nat
  type Byte = b: int | 0 <= b < 256

  const MAX_UINT64 := 0xFFFF_FFFF_FFFF_FFFF
  const TX_GAS := 21000
  const TX_GAS_CONTRACT_CREATION := 53000
  const TX_DATA_ZERO_GAS := 4
  const TX_DATA_NON_ZERO_GAS := 68

  datatype Error = NonceTooHigh | NonceTooLow | InsufficientBalanceForGas | GasLimitReached | OutOfGas
    | InsufficientBalance | InvalidType | DposFailed

  datatype Result<+T> = Ok(value: T) | Failed(error: Error)

  /** A message; gas and nonce are 64-bit, and no slice is longer than a signed 64-bit number. */
  datatype Message = Message(from: Address, to: Option<Address>, nonce: nat, checkNonce: bool,
                             price: nat, gas: nat, data: seq<Byte>, binary: bool)

  ghost predicate InRange(m: Message) { m.gas <= MAX_UINT64 && m.nonce <= MAX_UINT64 && |m.data| <= MAX_UINT64 / 2 }

  // Intrinsic gas.

  ghost function CountNonZero(data: seq<Byte>): (n: nat)
    ensures n <= |data|
  {
    if data == [] then 0 else CountNonZero(data[..|data| - 1]) + if data[|data| - 1] != 0 then 1 else 0
  }

  function BaseGas(creation: bool, homestead: bool): nat {
    if creation && homestead then TX_GAS_CONTRACT_CREATION else TX_GAS
  }

  /** The gas a message costs before it runs, as an unbounded number. */
  ghost function TrueGas(data: seq<Byte>, creation: bool, homestead: bool): nat {
    BaseGas(creation, homestead) + TX_DATA_NON_ZERO_GAS * CountNonZero(data) +
      TX_DATA_ZERO_GAS * (|data| - CountNonZero(data))
  }

  /** The intrinsic gas in 64-bit arithmetic, which fails exactly when the true number
      does not fit. */
  method IntrinsicGas(data: seq<Byte>, creation: bool, homestead: bool) returns (r: Result<nat>)
    requires |data| <= MAX_UINT64 / 2
    ensures r == if TrueGas(data, creation, homestead) <= MAX_UINT64 then Ok(TrueGas(data, creation, homestead))
      else Failed(OutOfGas)
  {
    var gas := BaseGas(creation, homestead);
    if |data| > 0 {
      var nz := 0;
      for i := 0 to |data|
        invariant nz == CountNonZero(data[..i])
      {
        assert data[..i + 1][..i] == data[..i];
        if data[i] != 0 {
          nz := nz + 1;
        }
      }
      assert data[..|data|] == data;
      if (MAX_UINT64 - gas) / TX_DATA_NON_ZERO_GAS < nz {
        return Failed(OutOfGas);
      }
      gas := gas + nz * TX_DATA_NON_ZERO_GAS;
      var z := |data| - nz;
      if (MAX_UINT64 - gas) / TX_DATA_ZERO_GAS < z {
        return Failed(OutOfGas);
      }
      gas := gas + z * TX_DATA_ZERO_GAS;
    }
    return Ok(gas);
  }

  // The block's gas pool.

  class GasPool {
    var gas: nat

    ghost predicate Valid()
      reads this
    {
      gas <= MAX_UINT64
    }

    constructor ()
      ensures Valid() && gas == 0
    {
      gas := 0;
    }

    /** Adding beyond 64 bits would be a panic. */
    method AddGas(amount: nat)
      requires Valid() && gas + amount <= MAX_UINT64
      modifies this
      ensures Valid() && gas == old(gas) + amount
    {
      gas := gas + amount;
    }

    method SubGas(amount: nat) returns (ok: bool)
      requires Valid()
      modifies this
      ensures Valid() && (ok <==> old(gas) >= amount) && gas == if ok then old(gas) - amount else old(gas)
    {
      ok := gas >= amount;
      if ok {
        gas := gas - amount;
      }
    }
  }

  // The state.

  function Balance(balances: map<Address, nat>, a: Address): nat {
    if a in balances then balances[a] else 0
  }

  function Nonce(nonces: map<Address, nat>, a: Address): nat {
    if a in nonces then nonces[a] else 0
  }

  datatype VmError = NoVmError | VmInsufficientBalance | OtherVmError

  /** What the virtual machine makes of a message: the gas it returns, its error, and the
      state it leaves behind. */
  datatype Run = Run(left: nat, err: VmError, balances: map<Address, nat>, nonces: map<Address, nat>, refund: nat)

  /** What the virtual machine was given: whom to call, or nobody to create a contract, with
      what and how much gas, and the state. */
  datatype Call = Call(to: Option<Address>, data: seq<Byte>, supplied: nat, balances: map<Address, nat>,
                       nonces: map<Address, nat>)

  class StateDb {
    var balances: map<Address, nat>
    var nonces: map<Address, nat>
    var refund: nat
    /** Every call of the virtual machine so far. */
    var calls: seq<Call>

    constructor (balances: map<Address, nat>, nonces: map<Address, nat>)
      ensures this.balances == balances && this.nonces == nonces && refund == 0 && calls == []
    {
      this.balances, this.nonces, refund, calls := balances, nonces, 0, [];
    }

    method AddBalance(a: Address, amount: nat)
      modifies this`balances
      ensures balances == old(balances)[a := Balance(old(balances), a) + amount]
    {
      balances := balances[a := Balance(balances, a) + amount];
    }

    method SubBalance(a: Address, amount: nat)
      requires Balance(balances, a) >= amount
      modifies this`balances
      ensures balances == old(balances)[a := Balance(old(balances), a) - amount]
    {
      balances := balances[a := Balance(balances, a) - amount];
    }

    /** Runs the virtual machine, which may leave any state behind but returns no more
        gas than it was given. */
    method Execute(to: Option<Address>, data: seq<Byte>, supplied: nat, run: Run)
      requires run.left <= supplied
      modifies this
      ensures balances == run.balances && nonces == run.nonces && refund == run.refund
      ensures calls == old(calls) + [Call(to, data, supplied, old(balances), old(nonces))]
    {
      calls := calls + [Call(to, data, supplied, balances, nonces)];
      balances, nonces, refund := run.balances, run.nonces, run.refund;
    }
  }

  // State transitions.

  function Min(a: nat, b: nat): nat { if a <= b then a else b }

  /** The balances after the sender has paid for all the gas. */
  ghost function Debited(b: map<Address, nat>, m: Message): map<Address, nat>
    requires Balance(b, m.from) >= m.gas * m.price
  {
    b[m.from := Balance(b, m.from) - m.gas * m.price]
  }

  function Credited(b: map<Address, nat>, a: Address, amount: nat): map<Address, nat> {
    b[a := Balance(b, a) + amount]
  }

  /** The gas a message pays for: what was spent, less a refund of at most half of it. */
  ghost function Charged(m: Message, run: Run): nat
    requires run.left <= m.gas
  {
    var spent := m.gas - run.left;
    spent - Min(spent / 2, run.refund)
  }

  /** The balances at the end: the sender gets back what is not charged, the coinbase
      gets the rest. */
  ghost function Paid(m: Message, run: Run, coinbase: Address): map<Address, nat>
    requires run.left <= m.gas
  {
    Credited(Credited(run.balances, m.from, (m.gas - Charged(m, run)) * m.price), coinbase, Charged(m, run) * m.price)
  }

  /** The virtual machine returns no more gas than the message has left for it. */
  ghost predicate WithinGas(m: Message, run: Run, homestead: bool) {
    run.left <= m.gas && (TrueGas(m.data, m.to.None?, homestead) <= m.gas ==>
      run.left + TrueGas(m.data, m.to.None?, homestead) <= m.gas)
  }

  /** Why a message does not get to run, if so: the first of the checks that fails. */
  ghost function Refusal(m: Message, balances: map<Address, nat>, nonces: map<Address, nat>, pool: int,
                         homestead: bool): Option<Error> {
    if m.checkNonce && Nonce(nonces, m.from) < m.nonce then Some(NonceTooHigh)
    else if m.checkNonce && Nonce(nonces, m.from) > m.nonce then Some(NonceTooLow)
    else if Balance(balances, m.from) < m.gas * m.price then Some(InsufficientBalanceForGas)
    else if pool < m.gas then Some(GasLimitReached)
    else if TrueGas(m.data, m.to.None?, homestead) > m.gas then Some(OutOfGas)
    else None
  }

  /** Why a transaction does not pass, if so. */
  ghost function Verdict(tx: Transaction, balances: map<Address, nat>, nonces: map<Address, nat>, pool: int,
                         homestead: bool): Option<Error> {
    var refusal := Refusal(tx.msg, balances, nonces, pool, homestead);
    if tx.msg.to.None? && !tx.msg.binary then Some(InvalidType)
    else if refusal.Some? then refusal
    else if tx.run.err.VmInsufficientBalance? then Some(InsufficientBalance)
    else if !tx.msg.binary && !tx.dposOk then Some(DposFailed)
    else None
  }

  /** A transaction that passes: its type is known, its nonce is the sender's, the sender can pay
      for all the gas, the block has that gas left, it covers the intrinsic gas, the value can be
      transferred and the consensus engine agrees. */
  ghost predicate Passing(tx: Transaction, balances: map<Address, nat>, nonces: map<Address, nat>, pool: int,
                          homestead: bool) {
    var m := tx.msg;
    && (m.to.Some? || m.binary) && (m.checkNonce ==> Nonce(nonces, m.from) == m.nonce)
    && Balance(balances, m.from) >= m.gas * m.price && pool >= m.gas >= TrueGas(m.data, m.to.None?, homestead)
    && tx.run.err != VmInsufficientBalance && (m.binary || tx.dposOk)
  }

  /** The verdict is an error exactly if the transaction does not pass, and names the first check
      that fails. */
  lemma VerdictMeans(tx: Transaction, b: map<Address, nat>, n: map<Address, nat>, pool: int, homestead: bool)
    ensures Verdict(tx, b, n, pool, homestead).None? <==> Passing(tx, b, n, pool, homestead)
    ensures var m, v := tx.msg, Verdict(tx, b, n, pool, homestead);
      && (v == Some(InvalidType) <==> m.to.None? && !m.binary)
      && (v == Some(NonceTooHigh) ==> m.nonce > Nonce(n, m.from))
      && (v == Some(NonceTooLow) ==> m.nonce < Nonce(n, m.from))
      && (v == Some(InsufficientBalanceForGas) ==> Balance(b, m.from) < m.gas * m.price)
      && (v == Some(GasLimitReached) ==> pool < m.gas && Balance(b, m.from) >= m.gas * m.price)
      && (v == Some(OutOfGas) ==>
           TrueGas(m.data, m.to.None?, homestead) > m.gas && pool >= m.gas && Balance(b, m.from) >= m.gas * m.price)
      && (v == Some(InsufficientBalance) ==> tx.run.err == VmInsufficientBalance && pool >= m.gas)
      && (v == Some(DposFailed) ==> !m.binary && !tx.dposOk && tx.run.err != VmInsufficientBalance)
    // an unknown account has no balance, and starts with nonce zero
    ensures var m, v := tx.msg, Verdict(tx, b, n, pool, homestead);
      && (m.from !in b && m.gas * m.price > 0 ==> v != None)
      && (m.from !in n && m.checkNonce && m.nonce > 0 && (m.to.Some? || m.binary) ==> v == Some(NonceTooHigh))
  {
  }

  /** What the virtual machine is given for a message: the gas that is left once the intrinsic gas
      is paid, the balances after the sender paid, and for a call the sender's next nonce. */
  ghost function Given(m: Message, b: map<Address, nat>, n: map<Address, nat>, homestead: bool): Call
    requires Balance(b, m.from) >= m.gas * m.price && TrueGas(m.data, m.to.None?, homestead) <= m.gas
  {
    Call(m.to, m.data, m.gas - TrueGas(m.data, m.to.None?, homestead), Debited(b, m),
         if m.to.None? then n else n[m.from := Nonce(n, m.from) + 1])
  }

  /** Apart from what the virtual machine does to the balances, the fee is debited from the
      sender and the same fee credited to the coinbase. */
  ghost predicate FeeMoved(start: map<Address, nat>, m: Message, run: Run, coinbase: Address)
    requires Balance(start, m.from) >= m.gas * m.price && run.left <= m.gas
  {
    var fee := Charged(m, run) * m.price;
    forall a :: Balance(Paid(m, run, coinbase), a) - Balance(start, a) ==
      Balance(run.balances, a) - Balance(Debited(start, m), a) - (if a == m.from then fee else 0) +
        if a == coinbase then fee else 0
  }

  lemma FeeAlwaysMoves(start: map<Address, nat>, m: Message, run: Run, coinbase: Address)
    requires Balance(start, m.from) >= m.gas * m.price && run.left <= m.gas
    ensures FeeMoved(start, m, run, coinbase)
  {
    FeeAdds(m.gas, m.gas - Charged(m, run), m.price);
  }

  lemma FeeAdds(bought: nat, returned: nat, price: nat)
    requires returned <= bought
    ensures bought * price - returned * price == (bought - returned) * price
  {
  }

  /** The refund is at most half of the gas spent, so that at least half of the intrinsic
      gas is charged, and never more than the message offers. */
  lemma ChargedBounds(m: Message, run: Run, homestead: bool)
    requires WithinGas(m, run, homestead)
    ensures Charged(m, run) <= m.gas && m.gas - run.left <= 2 * Charged(m, run)
    ensures TrueGas(m.data, m.to.None?, homestead) <= m.gas ==>
      TrueGas(m.data, m.to.None?, homestead) <= 2 * Charged(m, run)
  {
  }

  /** The charge: what was spent less the refund, but no less than half of it, rounded up. */
  lemma ChargedMeans(m: Message, run: Run)
    requires run.left <= m.gas
    ensures var spent := m.gas - run.left;
      Charged(m, run) == if 2 * run.refund <= spent then spent - run.refund else (spent + 1) / 2
  {
  }

  /** The intrinsic gas: 21000, or 53000 for a creation since Homestead, and 68 for each byte of
      data, but 4 for a zero. */
  lemma IntrinsicMeans(data: seq<Byte>, creation: bool, homestead: bool)
    ensures TrueGas(data, creation, homestead) ==
      (if creation && homestead then 53000 else 21000) + 68 * |data| - 64 * multiset(data)[0]
  {
    NonZeros(data);
  }

  lemma {:induction false} NonZeros(data: seq<Byte>)
    ensures CountNonZero(data) + multiset(data)[0] == |data|
  {
    if data != [] {
      var n := |data| - 1;
      NonZeros(data[..n]);
      assert data == data[..n] + [data[n]];
    }
  }

  datatype Receipt = Receipt(cumulative: nat, gasUsed: nat, failed: bool)

  datatype Outcome = Outcome(used: nat, failed: bool)

  class StateTransition {
    const pool: GasPool
    const state: StateDb
    const msg: Message
    var gas: nat
    var initialGas: nat

    constructor (pool: GasPool, state: StateDb, msg: Message)
      ensures this.pool == pool && this.state == state && this.msg == msg && gas == 0 && initialGas == 0
    {
      this.pool, this.state, this.msg, gas, initialGas := pool, state, msg, 0, 0;
    }

    /** Buys all the gas up front: from the block's pool, and with the sender's balance. */
    method BuyGas() returns (r: Result<()>)
      requires pool.Valid() && gas == 0 && InRange(msg)
      modifies this, pool, state`balances
      ensures pool.Valid()
      ensures r.Failed? <==> Balance(old(state.balances), msg.from) < msg.gas * msg.price || old(pool.gas) < msg.gas
      ensures r.Failed? ==>
        && pool.gas == old(pool.gas) && state.balances == old(state.balances)
        && r.error == if Balance(old(state.balances), msg.from) < msg.gas * msg.price then InsufficientBalanceForGas
                      else GasLimitReached
      ensures r.Ok? ==>
        && pool.gas == old(pool.gas) - msg.gas && gas == initialGas == msg.gas
        && state.balances == Debited(old(state.balances), msg)
    {
      var mgval := msg.gas * msg.price;
      if Balance(state.balances, msg.from) < mgval {
        return Failed(InsufficientBalanceForGas);
      }
      var ok := pool.SubGas(msg.gas);
      if !ok {
        return Failed(GasLimitReached);
      }
      gas := gas + msg.gas;
      initialGas := msg.gas;
      state.SubBalance(msg.from, mgval);
      return Ok(());
    }

    method PreCheck(ghost homestead: bool) returns (r: Result<()>)
      requires pool.Valid() && gas == 0 && InRange(msg)
      modifies this, pool, state`balances
      ensures pool.Valid()
      ensures r.Failed? ==>
        && Refusal(msg, old(state.balances), old(state.nonces), old(pool.gas), homestead) == Some(r.error)
        && r.error != OutOfGas && pool.gas == old(pool.gas) && state.balances == old(state.balances)
      ensures r.Ok? ==>
        && (msg.checkNonce ==> Nonce(state.nonces, msg.from) == msg.nonce)
        && Balance(old(state.balances), msg.from) >= msg.gas * msg.price && old(pool.gas) >= msg.gas
        && pool.gas == old(pool.gas) - msg.gas && gas == initialGas == msg.gas
        && state.balances == Debited(old(state.balances), msg)
    {
      if msg.checkNonce {
        var nonce := Nonce(state.nonces, msg.from);
        if nonce < msg.nonce {
          return Failed(NonceTooHigh);
        } else if nonce > msg.nonce {
          return Failed(NonceTooLow);
        }
      }
      r := BuyGas();
    }

    function GasUsed(): int
      reads this
    {
      initialGas - gas
    }

    /** Returns the unused gas, and a refund of at most half of what was used, to the sender
        and to the pool. */
    method RefundGas()
      requires pool.Valid() && gas <= initialGas <= MAX_UINT64 && pool.gas + initialGas <= MAX_UINT64
      modifies this`gas, pool, state`balances
      ensures pool.Valid() && old(gas) <= gas <= initialGas && pool.gas == old(pool.gas) + gas
      ensures gas == old(gas) + Min((initialGas - old(gas)) / 2, state.refund)
        && initialGas - old(gas) <= 2 * (initialGas - gas)
      ensures state.balances == Credited(old(state.balances), msg.from, gas * msg.price)
    {
      var refund := GasUsed() / 2;
      if refund > state.refund {
        refund := state.refund;
      }
      gas := gas + refund;
      state.AddBalance(msg.from, gas * msg.price);
      pool.AddGas(gas);
    }

    /** Refunds gas and credits the coinbase with the rest. */
    method Settle(coinbase: Address, ghost run: Run) returns (used: nat)
      requires pool.Valid() && gas == run.left <= initialGas == msg.gas <= MAX_UINT64
        && pool.gas + initialGas <= MAX_UINT64
      requires state.balances == run.balances && state.refund == run.refund
      modifies this`gas, pool, state`balances
      ensures pool.Valid() && used == Charged(msg, run) && pool.gas + used == old(pool.gas) + initialGas
      ensures state.balances == Paid(msg, run, coinbase)
    {
      RefundGas();
      used := GasUsed();
      state.AddBalance(coinbase, used * msg.price);
    }

    /** Applies the message: buys gas, pays the intrinsic gas, runs, refunds and pays the fee.
        `run` is what the virtual machine makes of it. */
    method TransitionDb(coinbase: Address, homestead: bool, run: Run) returns (r: Result<Outcome>)
      requires pool.Valid() && gas == 0 && InRange(msg) && WithinGas(msg, run, homestead)
      modifies this, pool, state
      ensures pool.Valid()
      ensures var refusal := Refusal(msg, old(state.balances), old(state.nonces), old(pool.gas), homestead);
        if refusal.Some? then
          r == Failed(refusal.value) && state.calls == old(state.calls) && state.nonces == old(state.nonces)
        else
          && state.calls == old(state.calls) + [Given(msg, old(state.balances), old(state.nonces), homestead)]
          && r == if run.err.VmInsufficientBalance? then Failed(InsufficientBalance)
                  else Ok(Outcome(Charged(msg, run), run.err != NoVmError))
      // an error before the gas is bought changes nothing; later ones leave it bought
      ensures r.Failed? && r.error !in {OutOfGas, InsufficientBalance} ==>
        pool.gas == old(pool.gas) && state.balances == old(state.balances)
      ensures r.Failed? && r.error in {OutOfGas, InsufficientBalance} ==>
        && pool.gas == old(pool.gas) - msg.gas
        && state.balances == if r.error == OutOfGas then Debited(old(state.balances), msg) else run.balances
      ensures r.Ok? ==>
        && pool.gas + r.value.used == old(pool.gas) && r.value.used <= msg.gas
        && state.balances == Paid(msg, run, coinbase) && state.nonces == run.nonces
        && Balance(old(state.balances), msg.from) >= msg.gas * msg.price
           && FeeMoved(old(state.balances), msg, run, coinbase)
    {
      hide FeeMoved, TrueGas, Charged, Paid, Debited, Credited;
      var pre := PreCheck(homestead);
      if pre.Failed? {
        return Failed(pre.error);
      }
      var creation := msg.to.None?;
      var intrinsic := IntrinsicGas(msg.data, creation, homestead);
      if intrinsic.Failed? {
        return Failed(intrinsic.error);
      }
      if gas < intrinsic.value {
        return Failed(OutOfGas);
      }
      gas := gas - intrinsic.value;
      if !creation {
        state.nonces := state.nonces[msg.from := Nonce(state.nonces, msg.from) + 1];
      }
      state.Execute(msg.to, msg.data, gas, run);
      gas := run.left;
      if run.err == VmInsufficientBalance {
        return Failed(InsufficientBalance);
      }
      ChargedBounds(msg, run, homestead);
      FeeAlwaysMoves(old(state.balances), msg, run, coinbase);
      var used := Settle(coinbase, run);
      return Ok(Outcome(used, run.err != NoVmError));
    }
  }

  // Blocks.

  /** A transaction of a block, with what the virtual machine makes of it and whether its
      message to the consensus engine is accepted. */
  datatype Transaction = Transaction(msg: Message, run: Run, dposOk: bool)

  ghost predicate Possible(tx: Transaction, homestead: bool) { InRange(tx.msg) && WithinGas(tx.msg, tx.run, homestead) }

  ghost predicate Returns(txs: seq<Transaction>) { forall k :: 0 <= k < |txs| ==> txs[k].run.left <= txs[k].msg.gas }

  ghost function Sum(receipts: seq<Receipt>): nat {
    if receipts == [] then 0 else Sum(receipts[..|receipts| - 1]) + receipts[|receipts| - 1].gasUsed
  }

  /** The balances before the i-th transaction of a block that passes. */
  ghost function Before(start: map<Address, nat>, txs: seq<Transaction>, coinbase: Address, i: nat): map<Address, nat>
    requires i <= |txs| && Returns(txs)
  {
    if i == 0 then start else Paid(txs[i - 1].msg, txs[i - 1].run, coinbase)
  }

  /** The nonces before the i-th transaction of a block that passes. */
  ghost function NoncesBefore(start: map<Address, nat>, txs: seq<Transaction>, i: nat): map<Address, nat>
    requires i <= |txs|
  {
    if i == 0 then start else txs[i - 1].run.nonces
  }

  /** The gas that the transactions before the i-th are charged. */
  ghost function ChargedBefore(txs: seq<Transaction>, i: nat): nat
    requires i <= |txs| && Returns(txs)
  {
    if i == 0 then 0 else ChargedBefore(txs, i - 1) + Charged(txs[i - 1].msg, txs[i - 1].run)
  }

  /** What a block starts from. */
  datatype Start = Start(balances: map<Address, nat>, nonces: map<Address, nat>, coinbase: Address, gasLimit: nat,
                         homestead: bool)

  /** The i-th transaction passes on the balances, the nonces and the gas that those before it
      leave. */
  ghost predicate PassesAt(start: Start, txs: seq<Transaction>, i: nat)
    requires i < |txs| && Returns(txs)
  {
    Passing(txs[i], Before(start.balances, txs, start.coinbase, i), NoncesBefore(start.nonces, txs, i),
            start.gasLimit - ChargedBefore(txs, i), start.homestead)
  }

  /** The i-th transaction of a block: its receipt counts the gas charged so far and says whether
      the virtual machine failed, which got what the message gives it, and the fee that was
      debited is the fee that was credited. */
  ghost predicate Applied(start: Start, txs: seq<Transaction>, receipts: seq<Receipt>, calls: seq<Call>, i: nat)
    requires Returns(txs)
  {
    && i < |receipts| == |calls| <= |txs| && PassesAt(start, txs, i)
    && var m, b, n := txs[i].msg, Before(start.balances, txs, start.coinbase, i), NoncesBefore(start.nonces, txs, i);
       && receipts[i].gasUsed == Charged(m, txs[i].run) && receipts[i].failed == (txs[i].run.err != NoVmError)
       && receipts[i].cumulative == Sum(receipts[..i + 1]) == ChargedBefore(txs, i + 1) <= start.gasLimit
       && calls[i] == Given(m, b, n, start.homestead) && FeeMoved(b, m, txs[i].run, start.coinbase)
  }

  ghost predicate AllApplied(start: Start, txs: seq<Transaction>, receipts: seq<Receipt>, calls: seq<Call>)
    requires Returns(txs)
  {
    |receipts| == |calls| <= |txs| && forall i: nat :: i < |receipts| ==> Applied(start, txs, receipts, calls, i)
  }

  lemma NoneApplied(start: Start, txs: seq<Transaction>)
    requires Returns(txs)
    ensures AllApplied(start, txs, [], []) && Sum([]) == 0 == ChargedBefore(txs, 0)
    ensures Before(start.balances, txs, start.coinbase, 0) == start.balances
      && NoncesBefore(start.nonces, txs, 0) == start.nonces
  {
  }

  lemma {:induction false} AppliedMore(start: Start, txs: seq<Transaction>, receipts: seq<Receipt>, calls: seq<Call>,
                                       r: Receipt, c: Call)
    requires Returns(txs) && AllApplied(start, txs, receipts, calls) && |receipts| < |txs|
    requires Sum(receipts) == ChargedBefore(txs, |receipts|) && PassesAt(start, txs, |receipts|)
    requires var k := |receipts|;
      var m, b, n := txs[k].msg, Before(start.balances, txs, start.coinbase, k), NoncesBefore(start.nonces, txs, k);
      && r.gasUsed == Charged(m, txs[k].run) && r.cumulative == Sum(receipts) + r.gasUsed <= start.gasLimit
      && r.failed == (txs[k].run.err != NoVmError)
      && c == Given(m, b, n, start.homestead) && FeeMoved(b, m, txs[k].run, start.coinbase)
    ensures AllApplied(start, txs, receipts + [r], calls + [c])
    ensures Sum(receipts + [r]) == r.cumulative == ChargedBefore(txs, |receipts| + 1)
    ensures var k := |receipts|;
      && Before(start.balances, txs, start.coinbase, k + 1) == Paid(txs[k].msg, txs[k].run, start.coinbase)
      && NoncesBefore(start.nonces, txs, k + 1) == txs[k].run.nonces
  {
    hide FeeMoved, Charged, Paid, PassesAt, Given;
    var rs, cs := receipts + [r], calls + [c];
    assert rs[..|receipts|] == receipts && rs[..|rs|] == rs;
    forall i: nat | i < |rs| ensures Applied(start, txs, rs, cs, i) {
      if i < |receipts| {
        assert Applied(start, txs, receipts, calls, i);
        assert rs[..i + 1] == receipts[..i + 1];
      }
    }
  }

  /** Applies a transaction and adds its gas to the cumulative count. */
  method ApplyTransaction(pool: GasPool, state: StateDb, tx: Transaction, coinbase: Address, homestead: bool,
                          usedGas: nat)
    returns (r: Result<Receipt>)
    requires pool.Valid() && Possible(tx, homestead) && usedGas + pool.gas <= MAX_UINT64
    modifies pool, state
    ensures pool.Valid()
    ensures r.Failed? ==> Verdict(tx, old(state.balances), old(state.nonces), old(pool.gas), homestead) == Some(r.error)
    ensures r.Ok? <==> Passing(tx, old(state.balances), old(state.nonces), old(pool.gas), homestead)
    ensures r.Ok? ==>
      && r.value.gasUsed == Charged(tx.msg, tx.run) <= tx.msg.gas && r.value.failed == (tx.run.err != NoVmError)
      && r.value.cumulative == usedGas + r.value.gasUsed && r.value.cumulative + pool.gas == usedGas + old(pool.gas)
      && state.calls == old(state.calls) + [Given(tx.msg, old(state.balances), old(state.nonces), homestead)]
      && state.balances == Paid(tx.msg, tx.run, coinbase) && FeeMoved(old(state.balances), tx.msg, tx.run, coinbase)
      && state.nonces == tx.run.nonces
  {
    hide FeeMoved, TrueGas, Charged, Paid;
    if tx.msg.to.None? && !tx.msg.binary {
      return Failed(InvalidType);
    }
    var st := new StateTransition(pool, state, tx.msg);
    var out := st.TransitionDb(coinbase, homestead, tx.run);
    if out.Failed? {
      return Failed(out.error);
    }
    if !tx.msg.binary && !tx.dposOk {
      return Failed(DposFailed);
    }
    var cumulative := usedGas + out.value.used;
    return Ok(Receipt(cumulative, out.value.used, out.value.failed));
  }

  /** Processes a block, which passes exactly if each transaction does on what those before it leave;
      otherwise the error is that of the first which does not. On success the gas used and the gas
      left in the pool make up the block's limit, and every transaction's fee moves from its
      sender to the coinbase. */
  method Process(txs: seq<Transaction>, gasLimit: nat, state: StateDb, coinbase: Address, homestead: bool)
    returns (err: Option<Error>, receipts: seq<Receipt>, usedGas: nat, remaining: nat, ghost first: nat)
    requires gasLimit <= MAX_UINT64 && Returns(txs) && forall i :: 0 <= i < |txs| ==> Possible(txs[i], homestead)
    modifies state
    ensures var start := Start(old(state.balances), old(state.nonces), coinbase, gasLimit, homestead);
      && first <= |txs| && (forall i: nat :: i < first ==> PassesAt(start, txs, i))
      && (err.None? <==> first == |txs|)
      && (err.Some? ==>
           && !PassesAt(start, txs, first) && receipts == [] && usedGas == 0
           && err == Verdict(txs[first], Before(start.balances, txs, coinbase, first),
                             NoncesBefore(start.nonces, txs, first), gasLimit - ChargedBefore(txs, first), homestead))
      && (err.None? ==>
           && usedGas + remaining == gasLimit && usedGas == Sum(receipts) == ChargedBefore(txs, |txs|)
           && |receipts| == |txs| && old(state.calls) <= state.calls
           && AllApplied(start, txs, receipts, state.calls[|old(state.calls)|..])
           && state.balances == Before(start.balances, txs, coinbase, |txs|)
           && state.nonces == NoncesBefore(start.nonces, txs, |txs|))
  {
    hide AllApplied, Sum, FeeMoved, Charged, Paid, TrueGas, Refusal, Verdict, Passing, Given;
    hide Before, NoncesBefore, ChargedBefore;
    ghost var start := Start(state.balances, state.nonces, coinbase, gasLimit, homestead);
    NoneApplied(start, txs);
    var pool := new GasPool();
    pool.AddGas(gasLimit);
    receipts, usedGas := [], 0;
    assert state.calls[|old(state.calls)|..] == [];
    for k := 0 to |txs|
      invariant pool.Valid() && fresh(pool) && usedGas + pool.gas == gasLimit && |receipts| == k
      invariant usedGas == Sum(receipts) == ChargedBefore(txs, k) && forall i: nat :: i < k ==> PassesAt(start, txs, i)
      invariant old(state.calls) <= state.calls && state.balances == Before(start.balances, txs, coinbase, k)
      invariant state.nonces == NoncesBefore(start.nonces, txs, k)
      invariant AllApplied(start, txs, receipts, state.calls[|old(state.calls)|..])
    {
      ghost var calls := state.calls;
      var r := ApplyTransaction(pool, state, txs[k], coinbase, homestead, usedGas);
      if r.Failed? {
        return Some(r.error), [], 0, pool.gas, k;
      }
      usedGas := r.value.cumulative;
      ghost var n := |old(state.calls)|;
      assert state.calls[n..] == calls[n..] + [state.calls[|calls|]];
      AppliedMore(start, txs, receipts, calls[n..], r.value, state.calls[|calls|]);
      receipts := receipts + [r.value];
    }
    return None, receipts, usedGas, pool.gas, |txs|;
  }
}

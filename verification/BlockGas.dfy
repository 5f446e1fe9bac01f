/**
 Gas of a block (evmcore/state_transition.go, evmcore/state_processor.go,
 evmcore/gaspool.go, inter/block.go): what is taken from the pool and from the senders is
 what the receipts say, except for transactions refused after they have paid.
 */
module BlockGas {
  import opened Common
  import opened Words

  const TX_GAS: nat := 21000
  const TX_GAS_CONTRACT_CREATION: nat := 53000
  const TX_DATA_NON_ZERO_GAS: nat := 16
  const TX_DATA_ZERO_GAS: nat := 4
  const TX_ACCESS_LIST_ADDRESS_GAS: nat := 2400
  const TX_ACCESS_LIST_STORAGE_KEY_GAS: nat := 1900
  const REFUND_QUOTIENT: nat := 2
  const REFUND_QUOTIENT_EIP3529: nat := 5

  const ZERO_ADDRESS: Addr := 0

  datatype AccessList = AccessList(addresses: nat, storageKeys: nat)

  datatype Message = Message(
    from: Addr, creation: bool, gas: uint64, gasPrice: nat, nonce: nat, fake: bool, data: seq<bv8>, accessList: AccessList)

  /** The part of the state that gas accounting touches. */
  datatype World = World(balances: map<Addr, nat>, nonces: map<Addr, nat>, contracts: set<Addr>) {
    function Balance(a: Addr): nat {
      if a in balances then balances[a] else 0
    }

    function Nonce(a: Addr): nat {
      if a in nonces then nonces[a] else 0
    }
  }

  /** What an execution leaves: the gas it did not use, its refund counter, whether it failed, any new state. */
  datatype Outcome = Outcome(gas: nat, refund: nat, failed: bool, world: World)

  type Evm = (World, Message, nat) -> Outcome

  /** The only thing assumed of an execution: it returns no more gas than it was given. */
  ghost predicate Frugal(evm: Evm) {
    forall w: World, m: Message, gas: nat :: evm(w, m, gas).gas <= gas
  }

  datatype Error =
    | NonceTooHigh | NonceTooLow | SenderNoEOA | InsufficientFunds | GasLimitReached
    | OutOfGas | GasUintOverflow | IntrinsicGasTooLow

  // ---------- intrinsic gas ----------

  function NonZero(data: seq<bv8>): (n: nat)
    ensures n <= |data|
  {
    if data == [] then 0 else NonZero(data[..|data| - 1]) + if data[|data| - 1] != 0 then 1 else 0
  }

  /** Base price plus data, before any machine word is involved. */
  function DataPrice(m: Message): nat {
    var nz := NonZero(m.data);
    (if m.creation then TX_GAS_CONTRACT_CREATION else TX_GAS) + nz * TX_DATA_NON_ZERO_GAS + (|m.data| - nz) * TX_DATA_ZERO_GAS
  }

  function Price(m: Message): nat {
    DataPrice(m) + m.accessList.addresses * TX_ACCESS_LIST_ADDRESS_GAS + m.accessList.storageKeys * TX_ACCESS_LIST_STORAGE_KEY_GAS
  }

  datatype Intrinsic = Gas(gas: uint64) | Overflow(error: Error)

  /** Fails exactly when base and data do not fit a word; the access list is added without a check. */
  method IntrinsicGas(m: Message) returns (r: Intrinsic)
    ensures r.Gas? <==> DataPrice(m) <= MAX_UINT64
    ensures r.Gas? ==> r.gas == Wrap64(Price(m))
  {
    var gas: nat := if m.creation then TX_GAS_CONTRACT_CREATION else TX_GAS;
    if |m.data| > 0 {
      var nz: nat := 0;
      for i := 0 to |m.data|
        invariant nz == NonZero(m.data[..i])
      {
        assert m.data[..i + 1][..i] == m.data[..i];
        if m.data[i] != 0 {
          nz := nz + 1;
        }
      }
      assert m.data[..|m.data|] == m.data;
      Fits(MAX_UINT64 - gas, TX_DATA_NON_ZERO_GAS, nz);
      if (MAX_UINT64 - gas) / TX_DATA_NON_ZERO_GAS < nz {
        return Overflow(OutOfGas);
      }
      gas := gas + nz * TX_DATA_NON_ZERO_GAS;
      var z := |m.data| - nz;
      Fits(MAX_UINT64 - gas, TX_DATA_ZERO_GAS, z);
      if (MAX_UINT64 - gas) / TX_DATA_ZERO_GAS < z {
        return Overflow(GasUintOverflow);
      }
      gas := gas + z * TX_DATA_ZERO_GAS;
    }
    assert gas == DataPrice(m);
    WrapTwice(gas + m.accessList.addresses * TX_ACCESS_LIST_ADDRESS_GAS, m.accessList.storageKeys * TX_ACCESS_LIST_STORAGE_KEY_GAS);
    gas := Wrap64(gas + m.accessList.addresses * TX_ACCESS_LIST_ADDRESS_GAS);
    gas := Wrap64(gas + m.accessList.storageKeys * TX_ACCESS_LIST_STORAGE_KEY_GAS);
    return Gas(gas);
  }

  /** The intrinsic gas in plain numbers. */
  lemma IntrinsicIs(m: Message)
    ensures var nz := |set i | 0 <= i < |m.data| && m.data[i] != 0|;
      && DataPrice(m) == (if m.creation then 53000 else 21000) + 16 * nz + 4 * (|m.data| - nz)
      && Price(m) == DataPrice(m) + 2400 * m.accessList.addresses + 1900 * m.accessList.storageKeys
      && (CoversIntrinsic(m) && Price(m) <= MAX_UINT64 ==> Budget(m) == m.gas - Price(m))
      && (Price(m) <= MAX_UINT64 ==> (CoversIntrinsic(m) <==> Price(m) <= m.gas))
  {
    NonZeroCounts(m.data);
  }

  lemma {:induction false} NonZeroCounts(data: seq<bv8>)
    ensures NonZero(data) == |set i | 0 <= i < |data| && data[i] != 0|
  {
    var here := set i | 0 <= i < |data| && data[i] != 0;
    if data != [] {
      var last := |data| - 1;
      var front := data[..last];
      NonZeroCounts(front);
      var before := set i | 0 <= i < |front| && front[i] != 0;
      assert here == before + if data[last] != 0 then {last} else {};
    }
  }

  lemma Fits(room: nat, price: nat, n: nat)
    requires price in {4, 16}
    ensures room / price < n <==> room < n * price
  {
  }

  lemma WrapTwice(a: nat, b: nat)
    ensures Wrap64(Wrap64(a) + b) == Wrap64(a + b)
  {
  }

  /** The gas limit covers what the message costs before it runs. */
  ghost predicate CoversIntrinsic(m: Message) {
    DataPrice(m) <= MAX_UINT64 && Wrap64(Price(m)) <= m.gas
  }

  // ---------- the gas pool and the state ----------

  class GasPool {
    var gas: uint64

    constructor (gas: uint64)
      ensures this.gas == gas
    {
      this.gas := gas;
    }

    /** Panics when the sum does not fit a word. */
    method AddGas(amount: nat)
      requires gas + amount <= MAX_UINT64
      modifies this
      ensures gas == old(gas) + amount
    {
      gas := gas + amount;
    }

    method SubGas(amount: nat) returns (ok: bool)
      modifies this
      ensures ok <==> amount <= old(gas)
      ensures gas == if ok then old(gas) - amount else old(gas)
    {
      if gas < amount {
        return false;
      }
      gas := gas - amount;
      return true;
    }
  }

  class StateDB {
    var world: World

    constructor (world: World)
      ensures this.world == world
    {
      this.world := world;
    }
  }

  // ---------- one message ----------

  function Fee(gas: nat, price: nat): nat {
    gas * price
  }

  lemma FeeSplits(a: nat, b: nat, price: nat)
    ensures Fee(a + b, price) == Fee(a, price) + Fee(b, price)
  {
  }

  /** What preCheck demands, clause by clause. */
  ghost predicate MayBuy(m: Message, w: World, pool: nat) {
    && (!m.fake ==> w.Nonce(m.from) == m.nonce && m.from !in w.contracts)
    && Fee(m.gas, m.gasPrice) <= w.Balance(m.from)
    && m.gas <= pool
  }

  function Charged(w: World, a: Addr, amount: nat): World
    requires amount <= w.Balance(a)
  {
    w.(balances := w.balances[a := w.Balance(a) - amount])
  }

  function Credited(w: World, a: Addr, amount: nat): World {
    w.(balances := w.balances[a := w.Balance(a) + amount])
  }

  /** The state in which the execution starts: gas bought, and for calls the nonce increased. */
  function AtStart(w: World, m: Message): World
    requires Fee(m.gas, m.gasPrice) <= w.Balance(m.from)
  {
    var bought := Charged(w, m.from, Fee(m.gas, m.gasPrice));
    if m.creation then bought else bought.(nonces := bought.nonces[m.from := bought.Nonce(m.from) + 1])
  }

  /** Gas left after the execution and the tenth kept from ordinary senders. */
  function Unspent(m: Message, gas: nat): nat {
    if m.from == ZERO_ADDRESS then gas else gas - gas / 10
  }

  function Quotient(london: bool): nat {
    if london then REFUND_QUOTIENT_EIP3529 else REFUND_QUOTIENT
  }

  /** The refund: all of the counter, or the capped share of the gas spent. */
  ghost predicate IsRefund(spent: nat, counter: nat, quotient: nat, refund: nat) {
    && refund <= counter && refund * quotient <= spent
    && (refund == counter || (refund + 1) * quotient > spent)
  }

  datatype Result = Executed(usedGas: nat, failed: bool) | Refused(error: Error)

  /** The gas handed to the execution. */
  function Budget(m: Message): int {
    m.gas - Wrap64(Price(m))
  }

  /** The gas used is what the execution and the tenth took, less the refund; the rest is paid back. */
  ghost predicate Executes(evm: Evm, london: bool, m: Message, w: World, r: Result, w': World) {
    && Fee(m.gas, m.gasPrice) <= w.Balance(m.from) && Budget(m) >= 0 && r.Executed? && r.usedGas <= m.gas
    && var out := evm(AtStart(w, m), m, Budget(m));
      && r.failed == out.failed && Unspent(m, out.gas) <= m.gas
      && w' == Credited(out.world, m.from, Fee(m.gas - r.usedGas, m.gasPrice))
      && var spent := m.gas - Unspent(m, out.gas);
        r.usedGas <= spent && IsRefund(spent, out.refund, Quotient(london), spent - r.usedGas)
  }

  /** The sender pays the gas used at its price: bought before, paid back after, whatever the execution moved. */
  lemma ChargeIsUsed(evm: Evm, london: bool, m: Message, w: World, r: Result, w': World)
    requires Executes(evm, london, m, w, r, w')
    ensures var start := AtStart(w, m);
      var done := evm(start, m, Budget(m)).world;
      (w.Balance(m.from) - start.Balance(m.from)) - (w'.Balance(m.from) - done.Balance(m.from)) == Fee(r.usedGas, m.gasPrice)
  {
    hide Fee, IsRefund, Wrap64;
    FeeSplits(m.gas - r.usedGas, r.usedGas, m.gasPrice);
  }

  /** The state in which an execution starts, in balances and nonces. */
  lemma StartIs(w: World, m: Message)
    requires m.gas * m.gasPrice <= w.Balance(m.from)
    ensures var start := AtStart(w, m);
      && start.Balance(m.from) == w.Balance(m.from) - m.gas * m.gasPrice
      && start.Nonce(m.from) == w.Nonce(m.from) + (if m.creation then 0 else 1)
      && start.contracts == w.contracts
      && forall a | a != m.from :: start.Balance(a) == w.Balance(a) && start.Nonce(a) == w.Nonce(a)
  {
  }

  /** What an execution costs: the gas it took and a tenth of what it returned, except from the zero address, less the refund. */
  lemma UsedGasIs(evm: Evm, london: bool, m: Message, w: World, r: Result, w': World)
    requires Executes(evm, london, m, w, r, w')
    ensures var out := evm(AtStart(w, m), m, Budget(m));
      var spent := m.gas - out.gas + (if m.from == 0 then 0 else out.gas / 10);
      && (!london ==> r.usedGas == spent - if out.refund < spent / 2 then out.refund else spent / 2)
      && (london ==> r.usedGas == spent - if out.refund < spent / 5 then out.refund else spent / 5)
  {
    hide AtStart, Budget, Fee;
  }

  /** The refund leaves at least one half of the gas spent used, since London four fifths. */
  lemma UsedIsAtLeast(evm: Evm, london: bool, m: Message, w: World, r: Result, w': World)
    requires Executes(evm, london, m, w, r, w')
    ensures var left := evm(AtStart(w, m), m, Budget(m)).gas;
      var spent := m.gas - Unspent(m, left);
      r.usedGas * Quotient(london) >= spent * (Quotient(london) - 1)
  {
  }

  class StateTransition {
    const gp: GasPool
    const db: StateDB
    const msg: Message
    var gas: nat
    var initialGas: nat

    constructor (gp: GasPool, db: StateDB, msg: Message)
      ensures this.gp == gp && this.db == db && this.msg == msg && gas == 0 && initialGas == 0
    {
      this.gp, this.db, this.msg, gas, initialGas := gp, db, msg, 0, 0;
    }

    method BuyGas() returns (err: Option<Error>)
      requires gas == 0
      modifies this, gp, db
      ensures err.None? <==> msg.gas * msg.gasPrice <= old(db.world).Balance(msg.from) && msg.gas <= old(gp.gas)
      ensures err == Some(InsufficientFunds) <==> old(db.world).Balance(msg.from) < msg.gas * msg.gasPrice
      ensures err.Some? ==> err == Some(InsufficientFunds) || err == Some(GasLimitReached)
      ensures err.None? ==>
        && gp.gas == old(gp.gas) - msg.gas && gas == initialGas == msg.gas
        && db.world == Charged(old(db.world), msg.from, Fee(msg.gas, msg.gasPrice))
      ensures err.Some? ==> gp.gas == old(gp.gas) && db.world == old(db.world)
    {
      var mgval := Fee(msg.gas, msg.gasPrice);
      if db.world.Balance(msg.from) < mgval {
        return Some(InsufficientFunds);
      }
      var ok := gp.SubGas(msg.gas);
      if !ok {
        return Some(GasLimitReached);
      }
      gas := gas + msg.gas;
      initialGas := msg.gas;
      db.world := Charged(db.world, msg.from, mgval);
      return None;
    }

    method PreCheck() returns (err: Option<Error>)
      requires gas == 0
      modifies this, gp, db
      ensures err.None? <==> MayBuy(msg, old(db.world), old(gp.gas))
      ensures err == Some(NonceTooHigh) <==> !msg.fake && old(db.world).Nonce(msg.from) < msg.nonce
      ensures err == Some(NonceTooLow) <==> !msg.fake && old(db.world).Nonce(msg.from) > msg.nonce
      ensures err == Some(SenderNoEOA) <==>
        !msg.fake && old(db.world).Nonce(msg.from) == msg.nonce && msg.from in old(db.world).contracts
      ensures err == Some(InsufficientFunds) <==>
        && (msg.fake || (old(db.world).Nonce(msg.from) == msg.nonce && msg.from !in old(db.world).contracts))
        && old(db.world).Balance(msg.from) < msg.gas * msg.gasPrice
      ensures err == Some(GasLimitReached) <==>
        && (msg.fake || (old(db.world).Nonce(msg.from) == msg.nonce && msg.from !in old(db.world).contracts))
        && msg.gas * msg.gasPrice <= old(db.world).Balance(msg.from) && old(gp.gas) < msg.gas
      ensures err.None? ==>
        && gp.gas == old(gp.gas) - msg.gas && gas == initialGas == msg.gas
        && db.world == Charged(old(db.world), msg.from, Fee(msg.gas, msg.gasPrice))
      ensures err.Some? ==> gp.gas == old(gp.gas) && db.world == old(db.world)
    {
      if !msg.fake {
        var stNonce := db.world.Nonce(msg.from);
        if stNonce < msg.nonce {
          return Some(NonceTooHigh);
        } else if stNonce > msg.nonce {
          return Some(NonceTooLow);
        }
        if msg.from in db.world.contracts {
          return Some(SenderNoEOA);
        }
      }
      err := BuyGas();
    }

    /** Returns what is left, refund included, to the sender and to the pool. */
    method RefundGas(quotient: nat, counter: nat) returns (ghost refund: nat)
      requires quotient > 0 && gas <= initialGas && gp.gas + initialGas <= MAX_UINT64
      modifies this`gas, gp, db
      ensures IsRefund(initialGas - old(gas), counter, quotient, refund) && gas == old(gas) + refund <= initialGas
      ensures gp.gas == old(gp.gas) + gas
      ensures db.world == Credited(old(db.world), msg.from, Fee(gas, msg.gasPrice))
    {
      var spent := initialGas - gas;
      var r := spent / quotient;
      Share(spent, quotient);
      if r > counter {
        r := counter;
      }
      refund := r;
      assert r * quotient <= spent && r <= spent by { Smaller(r, spent / quotient, quotient); }
      gas := gas + r;
      db.world := Credited(db.world, msg.from, Fee(gas, msg.gasPrice));
      gp.AddGas(gas);
    }

    /**
     Runs exactly the messages that may buy their gas and cover the intrinsic gas.  A
     message refused before buying changes nothing; one refused after it has paid for all of
     its gas, and the pool has lost it too.
     */
    method TransitionDb(evm: Evm, london: bool) returns (r: Result)
      requires Frugal(evm) && gas == 0
      modifies this, gp, db
      ensures r.Executed? <==> MayBuy(msg, old(db.world), old(gp.gas)) && CoversIntrinsic(msg)
      ensures r.Executed? ==>
        && r.usedGas <= msg.gas && gp.gas == old(gp.gas) - r.usedGas
        && Executes(evm, london, msg, old(db.world), r, db.world)
      ensures r.Refused? && !MayBuy(msg, old(db.world), old(gp.gas)) ==> gp.gas == old(gp.gas) && db.world == old(db.world)
      ensures r.Refused? && MayBuy(msg, old(db.world), old(gp.gas)) ==>
        gp.gas == old(gp.gas) - msg.gas && db.world == Charged(old(db.world), msg.from, Fee(msg.gas, msg.gasPrice))
    {
      hide Fee, Executes, DataPrice, Price, Wrap64;
      ghost var w := db.world;
      var err := PreCheck();
      if err.Some? {
        return Refused(err.value);
      }
      var intrinsic := IntrinsicGas(msg);
      if intrinsic.Overflow? {
        return Refused(intrinsic.error);
      }
      if gas < intrinsic.gas {
        return Refused(IntrinsicGasTooLow);
      }
      gas := gas - intrinsic.gas;
      if !msg.creation {
        db.world := db.world.(nonces := db.world.nonces[msg.from := db.world.Nonce(msg.from) + 1]);
      }
      r := Execute(evm, london, w);
    }

    /** The execution and what follows it, once the gas is bought. */
    method Execute(evm: Evm, london: bool, ghost w: World) returns (r: Result)
      requires Frugal(evm) && Fee(msg.gas, msg.gasPrice) <= w.Balance(msg.from)
      requires db.world == AtStart(w, msg) && gas == Budget(msg) && initialGas == msg.gas && gp.gas + msg.gas <= MAX_UINT64
      modifies this`gas, gp, db
      ensures r.Executed? && r.usedGas <= msg.gas && gp.gas == old(gp.gas) + msg.gas - r.usedGas
      ensures Executes(evm, london, msg, w, r, db.world)
    {
      hide Fee, IsRefund, Price, Wrap64, AtStart;
      var out := evm(db.world, msg, gas);
      db.world := out.world;
      gas := out.gas;
      if msg.from != ZERO_ADDRESS {
        gas := gas - gas / 10;
      }
      ghost var refund := RefundGas(Quotient(london), out.refund);
      return Executed(initialGas - gas, out.failed);
    }

    static lemma Share(spent: nat, quotient: nat)
      requires quotient > 0
      ensures spent / quotient * quotient <= spent < (spent / quotient + 1) * quotient
    {
    }

    static lemma Smaller(r: nat, s: nat, quotient: nat)
      requires r <= s && quotient > 0
      ensures r * quotient <= s * quotient && r <= r * quotient
    {
    }
  }

  // ---------- a block ----------

  /** A transaction; whether its sender can be recovered. */
  datatype Tx = Tx(msg: Message, signed: bool)

  datatype Receipt = Receipt(tx: Tx, gasUsed: nat, cumulativeGasUsed: uint64, failed: bool)

  function TotalUsed(receipts: seq<Receipt>): nat {
    if receipts == [] then 0 else TotalUsed(receipts[..|receipts| - 1]) + receipts[|receipts| - 1].gasUsed
  }

  /** The transactions whose index is not listed, in order. */
  function Without(txs: seq<Tx>, skipped: set<nat>): seq<Tx> {
    if txs == [] then [] else
      var last := |txs| - 1;
      Without(txs[..last], skipped) + if last in skipped then [] else [txs[last]]
  }

  ghost predicate Ascending(s: seq<nat>) {
    forall i, j | 0 <= i < j < |s| :: s[i] < s[j]
  }

  ghost function Indexes(s: seq<nat>): set<nat> {
    set i | i in s
  }

  lemma {:induction false} WithoutHigher(txs: seq<Tx>, a: set<nat>, b: set<nat>)
    requires forall i: nat | i < |txs| :: i in a <==> i in b
    ensures Without(txs, a) == Without(txs, b)
  {
    if txs != [] { WithoutHigher(txs[..|txs| - 1], a, b); }
  }

  /** The 32-bit index of a transaction is its index. */
  predicate Indexable(txs: seq<Tx>) {
    |txs| <= 0x1_0000_0000
  }

  /** With the ascending indexes of a block, filters out exactly those transactions. */
  method FilterSkippedTxs(txs: seq<Tx>, skipped: seq<nat>) returns (filtered: seq<Tx>)
    ensures Indexable(txs) && Ascending(skipped) ==> filtered == Without(txs, Indexes(skipped))
  {
    if |skipped| == 0 {
      NoneSkipped(txs);
      assert Indexes(skipped) == {};
      return txs;
    }
    var skipCount := 0;
    filtered := [];
    for i := 0 to |txs|
      invariant 0 <= skipCount <= |skipped|
      invariant Indexable(txs) && Ascending(skipped) ==> filtered == Without(txs[..i], Indexes(skipped))
      invariant Indexable(txs) && Ascending(skipped) ==> forall k | 0 <= k < skipCount :: skipped[k] < i
      invariant Indexable(txs) && Ascending(skipped) ==> forall k | skipCount <= k < |skipped| :: skipped[k] >= i
    {
      assert txs[..i + 1][..i] == txs[..i];
      if skipCount < |skipped| && skipped[skipCount] == Wrap32(i) {
        skipCount := skipCount + 1;
      } else {
        assert Indexable(txs) && Ascending(skipped) ==> i !in Indexes(skipped);
        filtered := filtered + [txs[i]];
      }
    }
    assert txs[..|txs|] == txs;
  }

  lemma {:induction false} NoneSkipped(txs: seq<Tx>)
    ensures Without(txs, {}) == txs
  {
    if txs != [] { NoneSkipped(txs[..|txs| - 1]); }
  }

  /** What the next transaction finds. */
  datatype Stage = Stage(world: World, pool: nat)

  ghost predicate Runs(m: Message, s: Stage) {
    MayBuy(m, s.world, s.pool) && CoversIntrinsic(m)
  }

  /** What a refused message takes from the pool all the same. */
  ghost function Lost(m: Message, s: Stage): (g: nat)
    ensures g <= s.pool || g == 0
  {
    if MayBuy(m, s.world, s.pool) && !CoversIntrinsic(m) then m.gas else 0
  }

  /** A transaction with a receipt: executed, with the gas used taken from the pool. */
  ghost predicate Receipted(evm: Evm, london: bool, tx: Tx, s: Stage, s': Stage, r: Receipt) {
    && Runs(tx.msg, s) && r.tx == tx && s'.pool == s.pool - r.gasUsed
    && Executes(evm, london, tx.msg, s.world, Executed(r.gasUsed, r.failed), s'.world)
  }

  /** A skipped transaction: nothing changes, unless it has bought its gas. */
  ghost predicate Skipped(tx: Tx, s: Stage, s': Stage) {
    && !Runs(tx.msg, s) && s'.pool == s.pool - Lost(tx.msg, s)
    && s'.world == if MayBuy(tx.msg, s.world, s.pool) then Charged(s.world, tx.msg.from, Fee(tx.msg.gas, tx.msg.gasPrice)) else s.world
  }

  /** A receipt exactly for a message that runs. */
  method ApplyTransaction(tx: Tx, gp: GasPool, db: StateDB, evm: Evm, london: bool, usedGas: uint64)
    returns (receipt: Option<Receipt>, used: uint64)
    requires Frugal(evm)
    modifies gp, db
    ensures var before, after := Stage(old(db.world), old(gp.gas)), Stage(db.world, gp.gas);
      if receipt.Some? then Receipted(evm, london, tx, before, after, receipt.value) else Skipped(tx, before, after)
    ensures receipt.Some? ==> used == receipt.value.cumulativeGasUsed == Wrap64(usedGas + receipt.value.gasUsed)
    ensures receipt.None? ==> used == usedGas
  {
    hide Executes, Fee, CoversIntrinsic;
    var st := new StateTransition(gp, db, tx.msg);
    var r := st.TransitionDb(evm, london);
    if r.Refused? {
      return None, usedGas;
    }
    used := Wrap64(usedGas + r.usedGas);
    return Some(Receipt(tx, r.usedGas, used, r.failed)), used;
  }

  datatype BlockResult = Processed(receipts: seq<Receipt>, skipped: seq<nat>) | Unsigned(index: nat)

  /** Cumulative gas is the running sum, in a machine word. */
  ghost predicate RunningSum(receipts: seq<Receipt>, before: nat) {
    forall k | 0 <= k < |receipts| :: receipts[k].cumulativeGasUsed == Wrap64(before + TotalUsed(receipts[..k + 1]))
  }

  /** Receipts and skipped indexes share out the first n transactions. */
  ghost predicate SharesOut(txs: seq<Tx>, n: nat, receipts: seq<Receipt>, skipped: seq<nat>)
    requires n <= |txs|
  {
    && Ascending(skipped) && (forall i | i in skipped :: i < n)
    && Senders(receipts) == Without(txs[..n], Indexes(skipped))
  }

  function Senders(receipts: seq<Receipt>): seq<Tx> {
    seq(|receipts|, i requires 0 <= i < |receipts| => receipts[i].tx)
  }

  lemma SharesOutReceipt(txs: seq<Tx>, n: nat, receipts: seq<Receipt>, skipped: seq<nat>, r: Receipt)
    requires n < |txs| && SharesOut(txs, n, receipts, skipped) && r.tx == txs[n]
    ensures SharesOut(txs, n + 1, receipts + [r], skipped)
  {
    assert txs[..n + 1][..n] == txs[..n];
    assert Senders(receipts + [r]) == Senders(receipts) + [r.tx];
  }

  lemma SharesOutSkip(txs: seq<Tx>, n: nat, receipts: seq<Receipt>, skipped: seq<nat>)
    requires n < |txs| && SharesOut(txs, n, receipts, skipped)
    ensures SharesOut(txs, n + 1, receipts, skipped + [n])
  {
    assert txs[..n + 1][..n] == txs[..n];
    WithoutHigher(txs[..n], Indexes(skipped), Indexes(skipped + [n]));
    assert forall k | 0 <= k < |skipped| :: skipped[k] in skipped;
  }

  lemma RunningSumStep(receipts: seq<Receipt>, before: nat, r: Receipt)
    requires RunningSum(receipts, before) && r.cumulativeGasUsed == Wrap64(Wrap64(before + TotalUsed(receipts)) + r.gasUsed)
    ensures RunningSum(receipts + [r], before) && TotalUsed(receipts + [r]) == TotalUsed(receipts) + r.gasUsed
  {
    hide Wrap64;
    var more := receipts + [r];
    assert more[..|receipts|] == receipts;
    WrapTwice(before + TotalUsed(receipts), r.gasUsed);
    forall k | 0 <= k < |more|
      ensures more[k].cumulativeGasUsed == Wrap64(before + TotalUsed(more[..k + 1]))
    {
      if k < |receipts| {
        assert more[..k + 1] == receipts[..k + 1];
      } else {
        assert more[..k + 1] == more;
      }
    }
  }

  /**
   The first n transactions of a block, one after the other: each leaves a receipt or its
   index, according to what it finds.
   */
  ghost predicate Ran(evm: Evm, london: bool, txs: seq<Tx>, n: nat, trace: seq<Stage>, receipts: seq<Receipt>, skipped: seq<nat>)
    requires n <= |txs| && n < |trace|
  {
    if n == 0 then receipts == [] && skipped == []
    else
      var tx, s, s' := txs[n - 1], trace[n - 1], trace[n];
      if Runs(tx.msg, s) then
        && receipts != [] && Receipted(evm, london, tx, s, s', receipts[|receipts| - 1])
        && Ran(evm, london, txs, n - 1, trace, receipts[..|receipts| - 1], skipped)
      else
        && skipped != [] && Skipped(tx, s, s') && skipped[|skipped| - 1] == Wrap32(n - 1)
        && Ran(evm, london, txs, n - 1, trace, receipts, skipped[..|skipped| - 1])
  }

  lemma {:induction false} RanLonger(evm: Evm, london: bool, txs: seq<Tx>, n: nat, trace: seq<Stage>, s: Stage,
                                     receipts: seq<Receipt>, skipped: seq<nat>)
    requires n <= |txs| && n < |trace| && Ran(evm, london, txs, n, trace, receipts, skipped)
    ensures Ran(evm, london, txs, n, trace + [s], receipts, skipped)
    decreases n
  {
    hide Receipted, Skipped, Runs;
    if n > 0 {
      if Runs(txs[n - 1].msg, trace[n - 1]) {
        RanLonger(evm, london, txs, n - 1, trace, s, receipts[..|receipts| - 1], skipped);
      } else {
        RanLonger(evm, london, txs, n - 1, trace, s, receipts, skipped[..|skipped| - 1]);
      }
    }
  }

  lemma RanReceipt(evm: Evm, london: bool, txs: seq<Tx>, trace: seq<Stage>, s: Stage, receipts: seq<Receipt>, skipped: seq<nat>, r: Receipt)
    requires 0 < |trace| <= |txs| && Ran(evm, london, txs, |trace| - 1, trace, receipts, skipped)
    requires Receipted(evm, london, txs[|trace| - 1], trace[|trace| - 1], s, r)
    ensures Ran(evm, london, txs, |trace|, trace + [s], receipts + [r], skipped)
  {
    hide Executes, MayBuy, CoversIntrinsic;
    RanLonger(evm, london, txs, |trace| - 1, trace, s, receipts, skipped);
    assert (receipts + [r])[..|receipts|] == receipts;
  }

  lemma RanSkip(evm: Evm, london: bool, txs: seq<Tx>, trace: seq<Stage>, s: Stage, receipts: seq<Receipt>, skipped: seq<nat>)
    requires 0 < |trace| <= |txs| && Ran(evm, london, txs, |trace| - 1, trace, receipts, skipped)
    requires Skipped(txs[|trace| - 1], trace[|trace| - 1], s)
    ensures Ran(evm, london, txs, |trace|, trace + [s], receipts, skipped + [Wrap32(|trace| - 1)])
  {
    hide MayBuy, CoversIntrinsic;
    RanLonger(evm, london, txs, |trace| - 1, trace, s, receipts, skipped);
    var more := skipped + [Wrap32(|trace| - 1)];
    assert more[..|skipped|] == skipped;
  }

  /**
   A block: its transactions one after the other, from the state and gas limit it starts with
   to the ones it ends with; or the first one whose sender is unknown.
   */
  method Process(txs: seq<Tx>, gasLimit: uint64, db: StateDB, evm: Evm, london: bool, usedGas: uint64)
    returns (r: BlockResult, pool: uint64, ghost trace: seq<Stage>)
    requires Frugal(evm)
    modifies db
    ensures r.Unsigned? ==> r.index < |txs| && !txs[r.index].signed && forall k | 0 <= k < r.index :: txs[k].signed
    ensures r.Processed? ==>
      && (forall tx | tx in txs :: tx.signed)
      && |trace| == |txs| + 1 && trace[0] == Stage(old(db.world), gasLimit) && trace[|txs|] == Stage(db.world, pool)
      && Ran(evm, london, txs, |txs|, trace, r.receipts, r.skipped) && RunningSum(r.receipts, usedGas)
  {
    hide MayBuy, CoversIntrinsic, Executes, RunningSum, TotalUsed, Ran, Receipted, Skipped;
    var gp := new GasPool(gasLimit);
    var receipts, skipped: seq<nat> := [], [];
    var used := usedGas;
    trace := [Stage(db.world, gasLimit)];
    NothingYet(evm, london, txs, trace, usedGas);
    for i := 0 to |txs|
      invariant fresh(gp) && |trace| == i + 1 && trace[0] == Stage(old(db.world), gasLimit) && trace[i] == Stage(db.world, gp.gas)
      invariant Ran(evm, london, txs, i, trace, receipts, skipped) && RunningSum(receipts, usedGas)
      invariant used == Wrap64(usedGas + TotalUsed(receipts))
      invariant forall k | 0 <= k < i :: txs[k].signed
    {
      var tx := txs[i];
      if !tx.signed {
        return Unsigned(i), gp.gas, trace;
      }
      var receipt;
      receipt, used := ApplyTransaction(tx, gp, db, evm, london, used);
      ghost var s := Stage(db.world, gp.gas);
      if receipt.None? {
        RanSkip(evm, london, txs, trace, s, receipts, skipped);
        skipped := skipped + [Wrap32(i)];
        trace := trace + [s];
        continue;
      }
      RanReceipt(evm, london, txs, trace, s, receipts, skipped, receipt.value);
      RunningSumStep(receipts, usedGas, receipt.value);
      WrapTwice(usedGas + TotalUsed(receipts), receipt.value.gasUsed);
      receipts := receipts + [receipt.value];
      trace := trace + [s];
    }
    return Processed(receipts, skipped), gp.gas, trace;
  }

  lemma NothingYet(evm: Evm, london: bool, txs: seq<Tx>, trace: seq<Stage>, usedGas: uint64)
    requires trace != []
    ensures Ran(evm, london, txs, 0, trace, [], []) && RunningSum([], usedGas) && TotalUsed([]) == 0 && Wrap64(usedGas) == usedGas
  {
  }

  // ---------- what a block adds up to ----------

  /** Receipts and skipped indexes share out the block. */
  lemma {:induction false} BlockSharesOut(evm: Evm, london: bool, txs: seq<Tx>, n: nat, trace: seq<Stage>,
                                          receipts: seq<Receipt>, skipped: seq<nat>)
    requires n <= |txs| && n < |trace| && Ran(evm, london, txs, n, trace, receipts, skipped) && Indexable(txs)
    ensures SharesOut(txs, n, receipts, skipped)
    decreases n
  {
    hide Executes, MayBuy, CoversIntrinsic, SharesOut;
    if n == 0 {
      NothingShared(txs);
    } else if Runs(txs[n - 1].msg, trace[n - 1]) {
      var last := |receipts| - 1;
      BlockSharesOut(evm, london, txs, n - 1, trace, receipts[..last], skipped);
      SharesOutReceipt(txs, n - 1, receipts[..last], skipped, receipts[last]);
      assert receipts[..last] + [receipts[last]] == receipts;
    } else {
      var last := |skipped| - 1;
      BlockSharesOut(evm, london, txs, n - 1, trace, receipts, skipped[..last]);
      SharesOutSkip(txs, n - 1, receipts, skipped[..last]);
      assert skipped[..last] + [skipped[last]] == skipped;
    }
  }

  lemma NothingShared(txs: seq<Tx>)
    ensures SharesOut(txs, 0, [], [])
  {
    assert txs[..0] == [];
  }

  /** Skipped are exactly the transactions that may not buy their gas, or do not cover the intrinsic gas, where they stand. */
  lemma {:induction false} SkippedIff(evm: Evm, london: bool, txs: seq<Tx>, n: nat, trace: seq<Stage>,
                                      receipts: seq<Receipt>, skipped: seq<nat>)
    requires n <= |txs| && n < |trace| && Ran(evm, london, txs, n, trace, receipts, skipped) && Indexable(txs)
    ensures forall i: nat :: i in skipped <==> i < n && !Runs(txs[i].msg, trace[i])
    decreases n
  {
    hide Runs, Receipted, Skipped;
    if n > 0 {
      if Runs(txs[n - 1].msg, trace[n - 1]) {
        SkippedIff(evm, london, txs, n - 1, trace, receipts[..|receipts| - 1], skipped);
      } else {
        var last := |skipped| - 1;
        SkippedIff(evm, london, txs, n - 1, trace, receipts, skipped[..last]);
        assert skipped == skipped[..last] + [skipped[last]];
      }
    }
  }

  /** What refused transactions took with them. */
  ghost function LostIn(txs: seq<Tx>, n: nat, trace: seq<Stage>): nat
    requires n <= |txs| && n < |trace|
  {
    if n == 0 then 0 else LostIn(txs, n - 1, trace) + Lost(txs[n - 1].msg, trace[n - 1])
  }

  /**
   The pool drops by the gas of the receipts plus what refused transactions took with them, and by
   no more when every transaction covers its intrinsic gas.
   */
  lemma {:induction false} BlockGasAddsUp(evm: Evm, london: bool, txs: seq<Tx>, n: nat, trace: seq<Stage>,
                                          receipts: seq<Receipt>, skipped: seq<nat>)
    requires n <= |txs| && n < |trace| && Ran(evm, london, txs, n, trace, receipts, skipped)
    ensures trace[n].pool + TotalUsed(receipts) + LostIn(txs, n, trace) == trace[0].pool
    ensures (forall tx | tx in txs :: CoversIntrinsic(tx.msg)) ==> LostIn(txs, n, trace) == 0
    decreases n
  {
    hide Executes, MayBuy, CoversIntrinsic;
    if n > 0 {
      assert txs[n - 1] in txs;
      if Runs(txs[n - 1].msg, trace[n - 1]) {
        BlockGasAddsUp(evm, london, txs, n - 1, trace, receipts[..|receipts| - 1], skipped);
      } else {
        BlockGasAddsUp(evm, london, txs, n - 1, trace, receipts, skipped[..|skipped| - 1]);
      }
    }
  }

  /** What a transaction costs its sender, apart from what the execution moves. */
  ghost function Charge(evm: Evm, m: Message, s: Stage, s': Stage): int {
    if Runs(m, s) then
      var start := AtStart(s.world, m);
      var done := evm(start, m, if Budget(m) >= 0 then Budget(m) else 0).world;
      (s.world.Balance(m.from) - start.Balance(m.from)) - (s'.world.Balance(m.from) - done.Balance(m.from))
    else s.world.Balance(m.from) - s'.world.Balance(m.from)
  }

  ghost function ChargesIn(evm: Evm, txs: seq<Tx>, n: nat, trace: seq<Stage>): int
    requires n <= |txs| && n < |trace|
  {
    if n == 0 then 0 else ChargesIn(evm, txs, n - 1, trace) + Charge(evm, txs[n - 1].msg, trace[n - 1], trace[n])
  }

  function FeesOf(receipts: seq<Receipt>): nat {
    if receipts == [] then 0
    else
      var r := receipts[|receipts| - 1];
      FeesOf(receipts[..|receipts| - 1]) + Fee(r.gasUsed, r.tx.msg.gasPrice)
  }

  ghost function FeesLostIn(txs: seq<Tx>, n: nat, trace: seq<Stage>): nat
    requires n <= |txs| && n < |trace|
  {
    if n == 0 then 0
    else FeesLostIn(txs, n - 1, trace) + Fee(Lost(txs[n - 1].msg, trace[n - 1]), txs[n - 1].msg.gasPrice)
  }

  lemma ChargeOfReceipt(evm: Evm, london: bool, tx: Tx, s: Stage, s': Stage, r: Receipt)
    requires Receipted(evm, london, tx, s, s', r)
    ensures Charge(evm, tx.msg, s, s') == Fee(r.gasUsed, tx.msg.gasPrice) && Lost(tx.msg, s) == 0
  {
    ChargeIsUsed(evm, london, tx.msg, s.world, Executed(r.gasUsed, r.failed), s'.world);
    hide Fee, AtStart, IsRefund, Budget, CoversIntrinsic;
  }

  lemma ChargeOfSkipped(evm: Evm, tx: Tx, s: Stage, s': Stage)
    requires Skipped(tx, s, s')
    ensures Charge(evm, tx.msg, s, s') == Fee(Lost(tx.msg, s), tx.msg.gasPrice)
  {
  }

  lemma NoFee(price: nat)
    ensures Fee(0, price) == 0
  {
  }

  /** The senders pay for the gas of their receipts, and for the gas that refused transactions took with them. */
  lemma {:induction false} ChargesAddUp(evm: Evm, london: bool, txs: seq<Tx>, n: nat, trace: seq<Stage>,
                                        receipts: seq<Receipt>, skipped: seq<nat>)
    requires n <= |txs| && n < |trace| && Ran(evm, london, txs, n, trace, receipts, skipped)
    ensures ChargesIn(evm, txs, n, trace) == FeesOf(receipts) + FeesLostIn(txs, n, trace)
    decreases n
  {
    hide Runs, Receipted, Skipped, Charge, Fee, Lost;
    if n > 0 {
      var tx, s, s' := txs[n - 1], trace[n - 1], trace[n];
      if Runs(tx.msg, s) {
        ChargesAddUp(evm, london, txs, n - 1, trace, receipts[..|receipts| - 1], skipped);
        ChargeOfReceipt(evm, london, tx, s, s', receipts[|receipts| - 1]);
        NoFee(tx.msg.gasPrice);
        ReceiptIsOf(evm, london, tx, s, s', receipts[|receipts| - 1]);
      } else {
        ChargesAddUp(evm, london, txs, n - 1, trace, receipts, skipped[..|skipped| - 1]);
        ChargeOfSkipped(evm, tx, s, s');
      }
    }
  }

  lemma ReceiptIsOf(evm: Evm, london: bool, tx: Tx, s: Stage, s': Stage, r: Receipt)
    requires Receipted(evm, london, tx, s, s', r)
    ensures r.tx == tx
  {
  }

  /** Filtering a processed block by its skipped indexes gives back the transactions with receipts, in order. */
  method KeptTransactions(txs: seq<Tx>, receipts: seq<Receipt>, skipped: seq<nat>) returns (kept: seq<Tx>)
    requires SharesOut(txs, |txs|, receipts, skipped)
    ensures Indexable(txs) ==> kept == Senders(receipts)
  {
    kept := FilterSkippedTxs(txs, skipped);
    assert txs[..|txs|] == txs;
  }

  /** Conservation fails exactly for a message that may buy gas without covering its intrinsic gas. */
  method Leak(m: Message, w: World, gasLimit: uint64, evm: Evm, london: bool) returns (pool: uint64, used: nat)
    requires Frugal(evm) && MayBuy(m, w, gasLimit) && m.gas > 0
    ensures pool + used == gasLimit <==> CoversIntrinsic(m)
  {
    var gp := new GasPool(gasLimit);
    var db := new StateDB(w);
    var st := new StateTransition(gp, db, m);
    var r := st.TransitionDb(evm, london);
    return gp.gas, if r.Executed? then r.usedGas else 0;
  }
}

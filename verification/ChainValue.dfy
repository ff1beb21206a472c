/** Value over whole blocks and chains: the UTXO set, the chain value pools, fees and the supply. */
module ChainValue {
  import opened Amounts
  import opened Networks
  import opened Options
  import opened ValuePools

  predicate TransactionsOk(txs: seq<Transaction>, spent: Utxos) {
    forall i {:trigger TxOk(txs[i], spent)} :: 0 <= i < |txs| ==> TxOk(txs[i], spent)
  }

  function Balances(txs: seq<Transaction>, spent: Utxos): seq<CheckedBalance>
    requires TransactionsOk(txs, spent)
  {
    seq(|txs|, i requires 0 <= i < |txs| && TxOk(txs[i], spent) => Balance(txs[i], spent))
  }

  /** The balances that there are: errors are dropped. */
  function OkOnly(items: seq<CheckedBalance>): seq<ValueBalance> {
    if items == [] then []
    else (if items[0].Ok? then [items[0].value] else []) + OkOnly(items[1..])
  }

  function OrZero(amount: Option<int>): int {
    if amount.Some? then amount.value else 0
  }

  /** The opposite of a sum of transaction balances, with the deferred pool's own change. */
  function ChangeOf(items: seq<ValueBalance>, deferred: Option<int>): CheckedBalance {
    match SumFrom(ZERO, items)
    case Ok(sum) =>
      Ok(ValueBalance(-sum.transparent, -sum.sprout, -sum.sapling, -sum.orchard, OrZero(deferred)))
    case Err(e) => Err(e)
  }

  /** The change in the chain value pools, which have the opposite sign to transaction balances. */
  function PoolChange(txs: seq<Transaction>, spent: Utxos, deferred: Option<int>): CheckedBalance
    requires TransactionsOk(txs, spent)
  {
    ChangeOf(OkOnly(Balances(txs, spent)), deferred)
  }

  function AddChange(pools: ValueBalance, change: ValueBalance): CheckedBalance {
    match AddBalances(NegativeAllowed, pools, change)
    case Ok(sum) => Constrain(NonNegative, sum)
    case Err(e) => Err(e)
  }

  /** Pools after a change are exact and in range, and taking the change back restores them. */
  lemma {:induction false} AddChangeReverts(pools: ValueBalance, change: ValueBalance)
    requires Each(NonNegative, pools) && Each(NegativeAllowed, change)
    requires AddChange(pools, change).Ok?
    ensures var after := AddChange(pools, change).value;
            && after == Plus(pools, change) && Each(NonNegative, after)
            && AddChange(after, Neg(change)) == Ok(pools)
  {
  }

  /** A change is refused exactly if a pool would go below zero or above the maximum. */
  lemma {:induction false} AddChangeRefuses(pools: ValueBalance, change: ValueBalance)
    requires Each(NonNegative, pools) && Each(NegativeAllowed, change)
    ensures AddChange(pools, change).Ok? <==> Each(NonNegative, Plus(pools, change))
  {
  }

  // The change of a block.

  /** What each transaction takes from the pools, less what it adds, without bounds. */
  ghost function Nets(txs: seq<Transaction>, spent: Utxos): seq<ValueBalance>
    requires TransactionsOk(txs, spent)
  {
    seq(|txs|, i requires 0 <= i < |txs| && TxOk(txs[i], spent) => Net(txs[i], spent))
  }

  lemma {:induction false} RestOk(txs: seq<Transaction>, spent: Utxos)
    requires txs != [] && TransactionsOk(txs, spent)
    ensures TxOk(txs[0], spent) && TransactionsOk(txs[1..], spent)
  {
    forall i | 0 <= i < |txs[1..]|
      ensures TxOk(txs[1..][i], spent)
    {
      assert TxOk(txs[i + 1], spent);
    }
  }

  /** The nets of those transactions that have a balance, or of those that have none. */
  ghost function NetsWhere(txs: seq<Transaction>, spent: Utxos, balanced: bool): seq<ValueBalance>
    requires TransactionsOk(txs, spent)
    decreases |txs|
  {
    if txs == [] then []
    else
      RestOk(txs, spent);
      (if Balance(txs[0], spent).Ok? == balanced then [Net(txs[0], spent)] else [])
      + NetsWhere(txs[1..], spent, balanced)
  }

  /** What the transactions without a balance take from each pool, less what they add. */
  ghost function Skipped(txs: seq<Transaction>, spent: Utxos): ValueBalance
    requires TransactionsOk(txs, spent)
  {
    Totals(NetsWhere(txs, spent, false))
  }

  ghost predicate AllBalanced(txs: seq<Transaction>, spent: Utxos)
    requires TransactionsOk(txs, spent)
  {
    forall i {:trigger TxOk(txs[i], spent)} ::
      0 <= i < |txs| ==> TxOk(txs[i], spent) && Balance(txs[i], spent).Ok?
  }

  /** What is summed are the nets of the transactions that have a balance. */
  lemma {:induction false} SummedAreNets(txs: seq<Transaction>, spent: Utxos)
    requires TransactionsOk(txs, spent)
    ensures OkOnly(Balances(txs, spent)) == NetsWhere(txs, spent, true)
    decreases |txs|
  {
    if txs != [] {
      RestOk(txs, spent);
      if Balance(txs[0], spent).Ok? {
        BalanceIsNet(txs[0], spent);
      }
      assert Balances(txs, spent)[0] == Balance(txs[0], spent);
      assert Balances(txs, spent)[1..] == Balances(txs[1..], spent);
      SummedAreNets(txs[1..], spent);
    }
  }

  lemma {:induction false} TotalsFirst(v: ValueBalance, items: seq<ValueBalance>)
    ensures Totals([v] + items) == Plus(v, Totals(items))
  {
    assert ([v] + items)[1..] == items;
  }

  lemma {:induction false} NetsWhereFirst(txs: seq<Transaction>, spent: Utxos, balanced: bool)
    requires txs != [] && TransactionsOk(txs, spent)
    ensures TxOk(txs[0], spent) && TransactionsOk(txs[1..], spent)
    ensures Totals(NetsWhere(txs, spent, balanced))
         == (var rest := Totals(NetsWhere(txs[1..], spent, balanced));
             if Balance(txs[0], spent).Ok? == balanced then Plus(Net(txs[0], spent), rest)
             else rest)
  {
    RestOk(txs, spent);
    var rest := NetsWhere(txs[1..], spent, balanced);
    TotalsFirst(Net(txs[0], spent), rest);
    assert [] + rest == rest;
  }

  /** Every net is that of a transaction with a balance, or of one without. */
  lemma {:induction false} NetsSplit(txs: seq<Transaction>, spent: Utxos)
    requires TransactionsOk(txs, spent)
    ensures var all, summed, skipped :=
              Totals(Nets(txs, spent)), Totals(NetsWhere(txs, spent, true)), Skipped(txs, spent);
            && all.transparent == summed.transparent + skipped.transparent
            && all.sprout == summed.sprout + skipped.sprout
            && all.sapling == summed.sapling + skipped.sapling
            && all.orchard == summed.orchard + skipped.orchard
    decreases |txs|
  {
    if txs != [] {
      NetsWhereFirst(txs, spent, true);
      NetsWhereFirst(txs, spent, false);
      NetsFirst(txs, spent);
      NetsSplit(txs[1..], spent);
    }
  }

  lemma {:induction false} NoneSkipped(txs: seq<Transaction>, spent: Utxos)
    requires TransactionsOk(txs, spent) && AllBalanced(txs, spent)
    ensures NetsWhere(txs, spent, false) == []
    decreases |txs|
  {
    if txs != [] {
      RestOk(txs, spent);
      forall i | 0 <= i < |txs[1..]|
        ensures TxOk(txs[1..][i], spent) && Balance(txs[1..][i], spent).Ok?
      {
        assert TxOk(txs[i + 1], spent);
      }
      NoneSkipped(txs[1..], spent);
    }
  }

  /** The change of each pool but the deferred one is the opposite of what is taken from it. */
  ghost predicate Opposite(change: ValueBalance, taken: ValueBalance, deferred: int) {
    && change.transparent == -taken.transparent && change.sprout == -taken.sprout
    && change.sapling == -taken.sapling && change.orchard == -taken.orchard
    && change.deferred == deferred
  }

  lemma {:induction false} ChangeExact(items: seq<ValueBalance>, deferred: Option<int>)
    requires ChangeOf(items, deferred).Ok? && InRange(NegativeAllowed, OrZero(deferred))
    ensures Opposite(ChangeOf(items, deferred).value, Totals(items), OrZero(deferred))
    ensures Each(NegativeAllowed, ChangeOf(items, deferred).value)
  {
    if items != [] {
      SumFromExact(ZERO, items);
      SumFromInRange(ZERO, items);
    }
  }

  /**
   The change of a block is what its transactions add to each pool, less what they take, without
   those that have no balance, and with the given change of the deferred pool.
   */
  lemma {:induction false} PoolChangeSkips(
      txs: seq<Transaction>, spent: Utxos, deferred: Option<int>)
    requires TransactionsOk(txs, spent) && InRange(NegativeAllowed, OrZero(deferred))
    requires PoolChange(txs, spent, deferred).Ok?
    ensures var change, all, skipped :=
              PoolChange(txs, spent, deferred).value, Totals(Nets(txs, spent)), Skipped(txs, spent);
            && change.transparent == skipped.transparent - all.transparent
            && change.sprout == skipped.sprout - all.sprout
            && change.sapling == skipped.sapling - all.sapling
            && change.orchard == skipped.orchard - all.orchard
            && change.deferred == OrZero(deferred)
    ensures Each(NegativeAllowed, PoolChange(txs, spent, deferred).value)
  {
    ChangeExact(OkOnly(Balances(txs, spent)), deferred);
    SummedAreNets(txs, spent);
    NetsSplit(txs, spent);
  }

  /** A block has a change exactly if, however many of the balances are summed, the sum is in range. */
  lemma {:induction false} PoolChangeWhen(
      txs: seq<Transaction>, spent: Utxos, deferred: Option<int>, items: seq<ValueBalance>)
    requires TransactionsOk(txs, spent) && items == NetsWhere(txs, spent, true)
    ensures PoolChange(txs, spent, deferred).Ok?
       <==> forall k: nat :: 1 <= k <= |items| ==> PrefixEach(ZERO, items, k)
  {
    SummedAreNets(txs, spent);
    SumFromExact(ZERO, items);
  }

  /**
   If every transaction has a balance, then the change of a block is what its transactions add to
   each pool, less what they take, with the given change of the deferred pool.
   */
  lemma {:induction false} PoolChangeExact(
      txs: seq<Transaction>, spent: Utxos, deferred: Option<int>)
    requires TransactionsOk(txs, spent) && AllBalanced(txs, spent)
    requires InRange(NegativeAllowed, OrZero(deferred))
    requires PoolChange(txs, spent, deferred).Ok?
    ensures Opposite(PoolChange(txs, spent, deferred).value, Totals(Nets(txs, spent)),
                     OrZero(deferred))
    ensures Each(NegativeAllowed, PoolChange(txs, spent, deferred).value)
  {
    PoolChangeSkips(txs, spent, deferred);
    NoneSkipped(txs, spent);
  }

  lemma {:induction false} NoDeferred(txs: seq<Transaction>, spent: Utxos, balanced: bool)
    requires TransactionsOk(txs, spent)
    ensures Totals(NetsWhere(txs, spent, balanced)).deferred == 0
    decreases |txs|
  {
    if txs != [] {
      NetsWhereFirst(txs, spent, balanced);
      NoDeferred(txs[1..], spent, balanced);
    }
  }

  /** The deferred part of the sum of balances, which is overwritten, is zero. */
  lemma {:induction false} OverwrittenIsZero(txs: seq<Transaction>, spent: Utxos)
    requires TransactionsOk(txs, spent)
    ensures var sum := SumFrom(ZERO, OkOnly(Balances(txs, spent)));
            sum.Ok? ==> sum.value.deferred == 0
  {
    SummedAreNets(txs, spent);
    SumFromExact(ZERO, OkOnly(Balances(txs, spent)));
    NoDeferred(txs, spent, true);
  }

  // The UTXO set.

  ghost function SumValues(utxos: Utxos): int {
    if utxos == map[] then 0
    else
      var o :| o in utxos;
      utxos[o] + SumValues(utxos - {o})
  }

  lemma {:induction false} SumValuesRemove(utxos: Utxos, o: OutPoint)
    requires o in utxos
    ensures SumValues(utxos) == utxos[o] + SumValues(utxos - {o})
    decreases |utxos|
  {
    var p :| p in utxos && SumValues(utxos) == utxos[p] + SumValues(utxos - {p});
    if p != o {
      SumValuesRemove(utxos - {p}, o);
      SumValuesRemove(utxos - {o}, p);
      assert utxos - {p} - {o} == utxos - {o} - {p};
    }
  }

  lemma {:induction false} SumValuesInsert(utxos: Utxos, o: OutPoint, value: int)
    requires o !in utxos
    ensures SumValues(utxos[o := value]) == SumValues(utxos) + value
  {
    SumValuesRemove(utxos[o := value], o);
    assert utxos[o := value] - {o} == utxos;
  }

  /** What is left of the UTXO set after the inputs have spent theirs. */
  function Spend(utxos: Utxos, inputs: seq<Input>): Utxos
    decreases |inputs|
  {
    if inputs == [] then utxos
    else Spend(if inputs[0].PrevOut? then utxos - {inputs[0].outpoint} else utxos, inputs[1..])
  }

  /** The UTXO set with the outputs of a transaction from index `k` on. */
  function Create(utxos: Utxos, id: nat, outputs: seq<int>, k: nat): Utxos
    requires k <= |outputs|
    decreases |outputs| - k
  {
    if k == |outputs| then utxos
    else Create(utxos[OutPoint(id, k) := outputs[k]], id, outputs, k + 1)
  }

  function AfterTransaction(utxos: Utxos, tx: Transaction): Utxos {
    Create(Spend(utxos, tx.inputs), tx.id, tx.outputs, 0)
  }

  /** Every input spends a different output of the set, with the value in `spent`. */
  ghost predicate Spendable(utxos: Utxos, spent: Utxos, inputs: seq<Input>) {
    && (forall i :: 0 <= i < |inputs| && inputs[i].PrevOut? ==>
          && inputs[i].outpoint in utxos && inputs[i].outpoint in spent
          && spent[inputs[i].outpoint] == utxos[inputs[i].outpoint])
    && (forall i, j :: 0 <= i < j < |inputs| && inputs[i].PrevOut? && inputs[j].PrevOut? ==>
          inputs[i].outpoint != inputs[j].outpoint)
  }

  /** The transaction spends unspent outputs, and its own are new. */
  ghost predicate Applies(utxos: Utxos, spent: Utxos, tx: Transaction) {
    && Spendable(utxos, spent, tx.inputs)
    && forall k: nat :: k < |tx.outputs| ==> OutPoint(tx.id, k) !in utxos
  }

  function SpentValue(inputs: seq<Input>, spent: Utxos): int
    requires forall i :: 0 <= i < |inputs| && inputs[i].PrevOut? ==> inputs[i].outpoint in spent
  {
    if inputs == [] then 0 else InputValue(inputs[0], spent) + SpentValue(inputs[1..], spent)
  }

  lemma {:induction false} SpendSum(utxos: Utxos, spent: Utxos, inputs: seq<Input>)
    requires Spendable(utxos, spent, inputs)
    ensures SumValues(Spend(utxos, inputs)) == SumValues(utxos) - SpentValue(inputs, spent)
    ensures Spend(utxos, inputs).Keys <= utxos.Keys
    decreases |inputs|
  {
    if inputs != [] {
      var rest := inputs[1..];
      if inputs[0].PrevOut? {
        var left := utxos - {inputs[0].outpoint};
        SumValuesRemove(utxos, inputs[0].outpoint);
        SpendSum(left, spent, rest);
      } else {
        SpendSum(utxos, spent, rest);
      }
    }
  }

  lemma {:induction false} CreateSum(utxos: Utxos, id: nat, outputs: seq<int>, k: nat)
    requires k <= |outputs|
    requires forall j: nat :: k <= j < |outputs| ==> OutPoint(id, j) !in utxos
    ensures SumValues(Create(utxos, id, outputs, k)) == SumValues(utxos) + Total(outputs[k..])
    decreases |outputs| - k
  {
    if k < |outputs| {
      SumValuesInsert(utxos, OutPoint(id, k), outputs[k]);
      CreateSum(utxos[OutPoint(id, k) := outputs[k]], id, outputs, k + 1);
      assert outputs[k..][1..] == outputs[k + 1..];
    }
  }

  lemma {:induction false} SpentIsInputs(tx: Transaction, spent: Utxos, i: nat)
    requires Provides(spent, tx) && i <= |tx.inputs|
    ensures SpentValue(tx.inputs[i..], spent) == Total(InputValues(tx, spent)[i..])
    decreases |tx.inputs| - i
  {
    if i < |tx.inputs| {
      SpentIsInputs(tx, spent, i + 1);
      assert tx.inputs[i..][1..] == tx.inputs[i + 1..];
      assert InputValues(tx, spent)[i..][1..] == InputValues(tx, spent)[i + 1..];
    }
  }

  /** A transaction moves its transparent balance out of the UTXO set. */
  lemma {:induction false} TransactionConserves(utxos: Utxos, spent: Utxos, tx: Transaction)
    requires TxOk(tx, spent) && Applies(utxos, spent, tx)
    ensures SumValues(AfterTransaction(utxos, tx))
         == SumValues(utxos) - Net(tx, spent).transparent
  {
    SpendSum(utxos, spent, tx.inputs);
    CreateSum(Spend(utxos, tx.inputs), tx.id, tx.outputs, 0);
    SpentIsInputs(tx, spent, 0);
    assert tx.inputs[0..] == tx.inputs && tx.outputs[0..] == tx.outputs;
    assert InputValues(tx, spent)[0..] == InputValues(tx, spent);
  }

  /** The transactions apply one after the other, so that each may spend outputs of those before. */
  ghost predicate AllApply(utxos: Utxos, spent: Utxos, txs: seq<Transaction>)
    decreases |txs|
  {
    txs == [] ||
    (Applies(utxos, spent, txs[0]) && AllApply(AfterTransaction(utxos, txs[0]), spent, txs[1..]))
  }

  function AfterTransactions(utxos: Utxos, txs: seq<Transaction>): Utxos
    decreases |txs|
  {
    if txs == [] then utxos else AfterTransactions(AfterTransaction(utxos, txs[0]), txs[1..])
  }

  lemma {:induction false} NetsFirst(txs: seq<Transaction>, spent: Utxos)
    requires txs != [] && TransactionsOk(txs, spent)
    requires TxOk(txs[0], spent) && TransactionsOk(txs[1..], spent)
    ensures Totals(Nets(txs, spent)) == Plus(Net(txs[0], spent), Totals(Nets(txs[1..], spent)))
    ensures Nets(txs, spent)[1..] == Nets(txs[1..], spent)
  {
    assert Nets(txs, spent)[1..] == Nets(txs[1..], spent);
  }

  lemma {:induction false} BlockConserves(utxos: Utxos, spent: Utxos, txs: seq<Transaction>)
    requires TransactionsOk(txs, spent) && AllApply(utxos, spent, txs)
    ensures SumValues(AfterTransactions(utxos, txs))
         == SumValues(utxos) - Totals(Nets(txs, spent)).transparent
    decreases |txs|
  {
    if txs != [] {
      RestOk(txs, spent);
      TransactionConserves(utxos, spent, txs[0]);
      BlockConserves(AfterTransaction(utxos, txs[0]), spent, txs[1..]);
      NetsFirst(txs, spent);
    }
  }

  // Fees and the coinbase.

  datatype FeeError = IncorrectFee

  /** The miner fee of a transaction: none for a coinbase, an error if it has no remaining value. */
  function MinerFee(tx: Transaction, spent: Utxos): Result<Option<int>, FeeError>
    requires TxOk(tx, spent)
  {
    if IsCoinbase(tx) then Ok(None)
    else
      match Balance(tx, spent)
      case Err(_) => Err(IncorrectFee)
      case Ok(v) =>
        BalanceExact(tx, spent);
        match RemainingValue(v)
        case Ok(fee) => Ok(Some(fee))
        case Err(_) => Err(IncorrectFee)
  }

  predicate FeesOk(txs: seq<Transaction>, spent: Utxos)
    requires TransactionsOk(txs, spent)
  {
    forall i {:trigger TxOk(txs[i], spent)} ::
      0 <= i < |txs| ==> TxOk(txs[i], spent) && MinerFee(txs[i], spent).Ok?
  }

  function Response(tx: Transaction, spent: Utxos): Option<int>
    requires TxOk(tx, spent)
  {
    var fee := MinerFee(tx, spent);
    if fee.Ok? then fee.value else None
  }

  /** The responses of the transaction verifier, in block order. */
  function FeeResponses(txs: seq<Transaction>, spent: Utxos): seq<Option<int>>
    requires TransactionsOk(txs, spent)
  {
    seq(|txs|, i requires 0 <= i < |txs| && TxOk(txs[i], spent) => Response(txs[i], spent))
  }

  function BlockFees(txs: seq<Transaction>, spent: Utxos): int
    requires TransactionsOk(txs, spent)
  {
    Total(Charges(FeeResponses(txs, spent)))
  }

  /** In whatever order the transactions finish, their fees sum to those of the block. */
  lemma {:induction false} FeesInAnyOrder(
      txs: seq<Transaction>, spent: Utxos, responses: seq<Option<int>>)
    requires TransactionsOk(txs, spent) && FeesOk(txs, spent)
    requires multiset(responses) == multiset(FeeResponses(txs, spent))
    ensures FeesInRange(responses) && Total(Charges(responses)) == BlockFees(txs, spent)
  {
    FeesPermuted(responses, FeeResponses(txs, spent));
    forall i | 0 <= i < |responses| && responses[i].Some?
      ensures InRange(NonNegative, responses[i].value)
    {
      assert responses[i] in multiset(FeeResponses(txs, spent));
      var k :| 0 <= k < |txs| && FeeResponses(txs, spent)[k] == responses[i];
      assert TxOk(txs[k], spent);
      FeeExact(txs[k], spent);
    }
  }

  /**
   Only a coinbase has no fee; another transaction has one exactly if its inputs, its outputs and its
   join splits can be summed, and its pools from left to right, and if they leave something over.
   */
  lemma {:induction false} MinerFeeWhen(tx: Transaction, spent: Utxos)
    requires TxOk(tx, spent)
    ensures MinerFee(tx, spent) == Ok(None) <==> IsCoinbase(tx)
    ensures !IsCoinbase(tx) ==>
              var v := Net(tx, spent);
              MinerFee(tx, spent).Ok? <==>
              && Total(InputValues(tx, spent)) <= MAX_MONEY && Total(tx.outputs) <= MAX_MONEY
              && PrefixesOk(JoinSplits(tx))
              && InRange(NegativeAllowed, v.transparent + v.sprout)
              && InRange(NegativeAllowed, v.transparent + v.sprout + v.sapling)
              && InRange(NonNegative, FourPools(v))
  {
    BalanceExact(tx, spent);
    if Balance(tx, spent).Ok? {
      RemainingExact(Net(tx, spent));
    }
  }

  /** A fee is what the four pools leave over. */
  lemma {:induction false} FeeExact(tx: Transaction, spent: Utxos)
    requires TxOk(tx, spent) && MinerFee(tx, spent).Ok? && !IsCoinbase(tx)
    ensures MinerFee(tx, spent) == Ok(Some(FourPools(Net(tx, spent))))
    ensures Balance(tx, spent).Ok? && InRange(NonNegative, FourPools(Net(tx, spent)))
  {
    BalanceExact(tx, spent);
    RemainingExact(Net(tx, spent));
  }

  lemma {:induction false} FourPoolsTotal(items: seq<ValueBalance>, charges: seq<int>)
    requires |items| == |charges|
    requires forall i :: 0 <= i < |items| ==> charges[i] == FourPools(items[i])
    ensures Total(charges) == FourPools(Totals(items))
  {
    if items != [] {
      FourPoolsTotal(items[1..], charges[1..]);
    }
  }

  /** The fees of a block are what all its transactions but the coinbase leave over. */
  lemma {:induction false} FeesExact(txs: seq<Transaction>, spent: Utxos)
    requires txs != [] && TransactionsOk(txs, spent) && FeesOk(txs, spent)
    requires IsCoinbase(txs[0])
    requires forall i :: 0 < i < |txs| ==> !IsCoinbase(txs[i])
    ensures BlockFees(txs, spent) == FourPools(Totals(Nets(txs, spent)[1..]))
  {
    var charges := Charges(FeeResponses(txs, spent));
    forall i | 0 <= i < |txs|
      ensures charges[i] == if i == 0 then 0 else FourPools(Nets(txs, spent)[i])
    {
      ChargeIsNet(txs, spent, i);
    }
    FourPoolsTotal(Nets(txs, spent)[1..], charges[1..]);
  }

  lemma {:induction false} ChargeIsNet(txs: seq<Transaction>, spent: Utxos, i: nat)
    requires i < |txs| && TransactionsOk(txs, spent) && FeesOk(txs, spent)
    ensures Charges(FeeResponses(txs, spent))[i]
         == if IsCoinbase(txs[i]) then 0 else FourPools(Nets(txs, spent)[i])
  {
    assert TxOk(txs[i], spent);
    if !IsCoinbase(txs[i]) {
      FeeExact(txs[i], spent);
    }
  }

  /** The coinbase creates no more than the subsidy and the fees, and from NU6 exactly that. */
  predicate MinerFeesAreValid(
      coinbase: Transaction, fees: int, subsidy: int, deferred: int, upgrade: Upgrade)
    requires AmountsOk(coinbase) && InRange(NonNegative, fees) && InRange(NonNegative, subsidy)
    requires InRange(NegativeAllowed, deferred)
  {
    var transparent := Sum(NonNegative, coinbase.outputs);
    SumNonNegative(coinbase.outputs);
    TotalBounds(coinbase.outputs);
    transparent.Ok? &&
    var lessSapling := Sub(NegativeAllowed, transparent.value, SaplingBalance(coinbase));
    lessSapling.Ok? &&
    var lessOrchard := Sub(NegativeAllowed, lessSapling.value, OrchardBalance(coinbase));
    lessOrchard.Ok? &&
    var output := Add(NegativeAllowed, lessOrchard.value, deferred);
    var input := Add(NonNegative, subsidy, fees);
    output.Ok? && input.Ok? &&
    if Rank(upgrade) < Rank(Nu6) then output.value <= input.value else output.value == input.value
  }

  ghost function Created(coinbase: Transaction): int {
    Total(coinbase.outputs) - SaplingNet(coinbase) - OrchardNet(coinbase)
  }

  lemma {:induction false} MinerFeesExact(
      coinbase: Transaction, fees: int, subsidy: int, deferred: int, upgrade: Upgrade)
    requires AmountsOk(coinbase) && InRange(NonNegative, fees) && InRange(NonNegative, subsidy)
    requires InRange(NegativeAllowed, deferred)
    ensures MinerFeesAreValid(coinbase, fees, subsidy, deferred, upgrade) <==>
            && Total(coinbase.outputs) <= MAX_MONEY
            && InRange(NegativeAllowed, Total(coinbase.outputs) - SaplingNet(coinbase))
            && InRange(NegativeAllowed, Created(coinbase))
            && InRange(NegativeAllowed, Created(coinbase) + deferred)
            && subsidy + fees <= MAX_MONEY
            && Created(coinbase) + deferred <= subsidy + fees
            && (Rank(Nu6) <= Rank(upgrade) ==> Created(coinbase) + deferred == subsidy + fees)
  {
    SumNonNegative(coinbase.outputs);
    TotalBounds(coinbase.outputs);
    NetIsOfFields(coinbase);
  }

  // Blocks and chains.

  datatype Block = Block(
    transactions: seq<Transaction>, spent: Utxos, deferred: Option<int>, subsidy: int,
    upgrade: Upgrade)

  datatype ChainState = ChainState(utxos: Utxos, pools: ValueBalance)

  /** The amounts of a block are amounts, and what it spends is known. */
  predicate BlockOk(b: Block) {
    TransactionsOk(b.transactions, b.spent) && InRange(NegativeAllowed, OrZero(b.deferred))
  }

  function ChangeBy(b: Block): CheckedBalance
    requires BlockOk(b)
  {
    PoolChange(b.transactions, b.spent, b.deferred)
  }

  /** The state accepts a block that spends unspent outputs and keeps the pools in range. */
  ghost predicate Accepts(s: ChainState, b: Block) {
    && BlockOk(b) && AllApply(s.utxos, b.spent, b.transactions)
    && ChangeBy(b).Ok? && AddChange(s.pools, ChangeBy(b).value).Ok?
  }

  function After(s: ChainState, b: Block): ChainState
    requires BlockOk(b) && ChangeBy(b).Ok? && AddChange(s.pools, ChangeBy(b).value).Ok?
  {
    ChainState(AfterTransactions(s.utxos, b.transactions),
               AddChange(s.pools, ChangeBy(b).value).value)
  }

  /** How far the transparent pool is ahead of the UTXO set. */
  ghost function Drift(s: ChainState): int {
    s.pools.transparent - SumValues(s.utxos)
  }

  /** A block moves the pool away from the UTXO set by exactly what its skipped transactions net. */
  lemma {:induction false} BlockDrifts(s: ChainState, b: Block)
    requires Accepts(s, b) && Each(NonNegative, s.pools)
    ensures Drift(After(s, b)) == Drift(s) + Skipped(b.transactions, b.spent).transparent
    ensures Each(NonNegative, After(s, b).pools)
  {
    PoolChangeSkips(b.transactions, b.spent, b.deferred);
    AddChangeReverts(s.pools, ChangeBy(b).value);
    BlockConserves(s.utxos, b.spent, b.transactions);
  }

  /** An accepted block all of whose transactions have a balance keeps the pool at the UTXO set. */
  lemma {:induction false} BlockKeepsTransparentPool(s: ChainState, b: Block)
    requires Accepts(s, b) && Each(NonNegative, s.pools) && AllBalanced(b.transactions, b.spent)
    requires s.pools.transparent == SumValues(s.utxos)
    ensures After(s, b).pools.transparent == SumValues(After(s, b).utxos)
    ensures Each(NonNegative, After(s, b).pools)
  {
    BlockDrifts(s, b);
    NoneSkipped(b.transactions, b.spent);
  }

  /** Reverting the tip restores the pools from before it. */
  lemma {:induction false} BlockReverts(s: ChainState, b: Block)
    requires Accepts(s, b) && Each(NonNegative, s.pools)
    ensures AddChange(After(s, b).pools, Neg(ChangeBy(b).value)) == Ok(s.pools)
  {
    PoolChangeSkips(b.transactions, b.spent, b.deferred);
    AddChangeReverts(s.pools, ChangeBy(b).value);
  }

  /** The state after a chain of blocks on an empty state, if every block is accepted. */
  ghost function Run(blocks: seq<Block>): Option<ChainState> {
    if blocks == [] then Some(ChainState(map[], ZERO))
    else
      var n := |blocks| - 1;
      match Run(blocks[..n])
      case None => None
      case Some(s) => if Accepts(s, blocks[n]) then Some(After(s, blocks[n])) else None
  }

  lemma {:induction false} RunLast(blocks: seq<Block>, n: nat) returns (s: ChainState)
    requires Run(blocks).Some? && |blocks| == n + 1
    ensures Run(blocks[..n]) == Some(s)
    ensures Accepts(s, blocks[n]) && Run(blocks) == Some(After(s, blocks[n]))
  {
    s := Run(blocks[..n]).value;
  }

  /** What the skipped transactions of a block net in the transparent pool. */
  ghost function SkippedByBlock(b: Block): int {
    if BlockOk(b) then Skipped(b.transactions, b.spent).transparent else 0
  }

  ghost function SkippedByChain(blocks: seq<Block>): int {
    if blocks == [] then 0
    else SkippedByChain(blocks[..|blocks| - 1]) + SkippedByBlock(blocks[|blocks| - 1])
  }

  /**
   Over any chain of accepted blocks every pool is in range, and the transparent pool differs from
   the sum of the UTXO set by exactly what the transactions without a balance net.
   */
  lemma {:induction false} ChainDrifts(blocks: seq<Block>)
    requires Run(blocks).Some?
    ensures Drift(Run(blocks).value) == SkippedByChain(blocks)
    ensures Each(NonNegative, Run(blocks).value.pools)
  {
    if blocks != [] {
      var n := |blocks| - 1;
      var s := RunLast(blocks, n);
      ChainDrifts(blocks[..n]);
      BlockDrifts(s, blocks[n]);
    }
  }

  ghost predicate Balanced(b: Block) {
    BlockOk(b) && AllBalanced(b.transactions, b.spent)
  }

  lemma {:induction false} ChainSkipsNone(blocks: seq<Block>)
    requires forall i :: 0 <= i < |blocks| ==> Balanced(blocks[i])
    ensures SkippedByChain(blocks) == 0
  {
    if blocks != [] {
      var n := |blocks| - 1;
      ChainSkipsNone(blocks[..n]);
      assert Balanced(blocks[n]);
      NoneSkipped(blocks[n].transactions, blocks[n].spent);
    }
  }

  /**
   Over any chain of accepted blocks whose transactions all have a balance, the transparent pool is
   the sum of the UTXO set, and every pool is in range.
   */
  lemma {:induction false} ChainConserves(blocks: seq<Block>)
    requires Run(blocks).Some? && forall i :: 0 <= i < |blocks| ==> Balanced(blocks[i])
    ensures var s := Run(blocks).value;
            s.pools.transparent == SumValues(s.utxos) && Each(NonNegative, s.pools)
  {
    ChainDrifts(blocks);
    ChainSkipsNone(blocks);
  }

  // A transaction without a balance.

  // The shielded pools.

  /** What the join splits of some transactions add to the sprout pool. */
  ghost function Shielded(txs: seq<Transaction>): int {
    if txs == [] then 0 else TotalOld(JoinSplits(txs[0])) + Shielded(txs[1..])
  }

  /** What they take from it. */
  ghost function Deshielded(txs: seq<Transaction>): int {
    if txs == [] then 0 else TotalNew(JoinSplits(txs[0])) + Deshielded(txs[1..])
  }

  ghost function SaplingBalances(txs: seq<Transaction>): int {
    if txs == [] then 0 else SaplingNet(txs[0]) + SaplingBalances(txs[1..])
  }

  ghost function OrchardBalances(txs: seq<Transaction>): int {
    if txs == [] then 0 else OrchardNet(txs[0]) + OrchardBalances(txs[1..])
  }

  lemma {:induction false} ShieldedNets(txs: seq<Transaction>, spent: Utxos)
    requires TransactionsOk(txs, spent)
    ensures Totals(Nets(txs, spent)).sprout == Deshielded(txs) - Shielded(txs)
    ensures Totals(Nets(txs, spent)).sapling == SaplingBalances(txs)
    ensures Totals(Nets(txs, spent)).orchard == OrchardBalances(txs)
    decreases |txs|
  {
    if txs != [] {
      RestOk(txs, spent);
      ShieldedNets(txs[1..], spent);
      NetsFirst(txs, spent);
      NetIsOfFields(txs[0]);
    }
  }

  /** All transactions of a chain, in order. */
  ghost function AllTransactions(blocks: seq<Block>): seq<Transaction> {
    if blocks == [] then []
    else AllTransactions(blocks[..|blocks| - 1]) + blocks[|blocks| - 1].transactions
  }

  lemma {:induction false} ShieldedAppend(a: seq<Transaction>, b: seq<Transaction>)
    ensures Shielded(a + b) == Shielded(a) + Shielded(b)
    ensures Deshielded(a + b) == Deshielded(a) + Deshielded(b)
    ensures SaplingBalances(a + b) == SaplingBalances(a) + SaplingBalances(b)
    ensures OrchardBalances(a + b) == OrchardBalances(a) + OrchardBalances(b)
    decreases |a|
  {
    if a == [] {
      assert a + b == b;
    } else {
      ShieldedAppend(a[1..], b);
      assert (a + b)[0] == a[0] && (a + b)[1..] == a[1..] + b;
    }
  }

  lemma {:induction false} BlockShields(s: ChainState, b: Block)
    requires Accepts(s, b) && Each(NonNegative, s.pools) && Balanced(b)
    ensures After(s, b).pools.sprout
         == s.pools.sprout + Shielded(b.transactions) - Deshielded(b.transactions)
    ensures After(s, b).pools.sapling == s.pools.sapling - SaplingBalances(b.transactions)
    ensures After(s, b).pools.orchard == s.pools.orchard - OrchardBalances(b.transactions)
  {
    PoolChangeExact(b.transactions, b.spent, b.deferred);
    AddChangeReverts(s.pools, ChangeBy(b).value);
    ShieldedNets(b.transactions, b.spent);
  }

  /**
   Over any chain of accepted blocks whose transactions all have a balance, the sprout pool is what all
   join splits have shielded less what they have deshielded, and the sapling and orchard pools are the
   opposite of the balances of all transactions.
   */
  lemma {:induction false} ChainShields(blocks: seq<Block>)
    requires Run(blocks).Some? && forall i :: 0 <= i < |blocks| ==> Balanced(blocks[i])
    ensures var pools, txs := Run(blocks).value.pools, AllTransactions(blocks);
            && pools.sprout == Shielded(txs) - Deshielded(txs)
            && pools.sapling == -SaplingBalances(txs) && pools.orchard == -OrchardBalances(txs)
  {
    if blocks != [] {
      var n := |blocks| - 1;
      var s := RunLast(blocks, n);
      ChainShields(blocks[..n]);
      ChainDrifts(blocks[..n]);
      BlockShields(s, blocks[n]);
      ShieldedAppend(AllTransactions(blocks[..n]), blocks[n].transactions);
    }
  }

  /** A coinbase whose outputs sum to more than the maximum. */
  function Overflowing(id: nat): Transaction {
    V1(id, [Coinbase], [MAX_MONEY, MAX_MONEY])
  }

  lemma {:induction false} OverflowingHasNoBalance(id: nat, spent: Utxos)
    ensures TxOk(Overflowing(id), spent) && Balance(Overflowing(id), spent).Err?
    ensures Net(Overflowing(id), spent).transparent == -2 * MAX_MONEY
  {
    var tx := Overflowing(id);
    BalanceExact(tx, spent);
    TotalOne(tx.outputs[1..]);
    TotalOne(InputValues(tx, spent));
  }

  /** Alone in a block, it is left out of the change, which is zero. */
  lemma {:induction false} OverflowingIsSkipped(id: nat, spent: Utxos, deferred: Option<int>)
    ensures TransactionsOk([Overflowing(id)], spent)
    ensures PoolChange([Overflowing(id)], spent, deferred)
         == Ok(ValueBalance(0, 0, 0, 0, OrZero(deferred)))
    ensures Skipped([Overflowing(id)], spent).transparent == -2 * MAX_MONEY
  {
    OverflowingHasNoBalance(id, spent);
    var tx := Overflowing(id);
    assert TransactionsOk([tx], spent);
    assert Balances([tx], spent) == [Balance(tx, spent)];
    assert OkOnly(Balances([tx], spent)) == [];
    NetsWhereFirst([tx], spent, false);
    assert [tx][1..] == [];
  }

  /** The state accepts that block, and no pool has the outputs that it adds to the UTXO set. */
  lemma {:induction false} SkippedBreaksPool(id: nat, s: ChainState, b: Block)
    requires b.transactions == [Overflowing(id)] && Each(NonNegative, s.pools)
    requires InRange(NonNegative, s.pools.deferred + OrZero(b.deferred))
    requires OutPoint(id, 0) !in s.utxos && OutPoint(id, 1) !in s.utxos
    ensures Accepts(s, b) && After(s, b).pools.transparent == s.pools.transparent
    ensures SumValues(After(s, b).utxos) == SumValues(s.utxos) + 2 * MAX_MONEY
  {
    OverflowingIsSkipped(id, b.spent, b.deferred);
    assert b.transactions[1..] == [];
    assert Applies(s.utxos, b.spent, Overflowing(id));
    AddChangeRefuses(s.pools, ChangeBy(b).value);
    BlockDrifts(s, b);
    AddChangeReverts(s.pools, ChangeBy(b).value);
  }

  // Verified blocks.

  /** The first transaction is the only coinbase, and has no join splits. */
  predicate CoinbaseIsFirst(txs: seq<Transaction>) {
    && txs != [] && IsCoinbase(txs[0]) && JoinSplits(txs[0]) == []
    && forall i :: 0 < i < |txs| ==> IsValidNonCoinbase(txs[i])
  }

  /** What the transaction and block verifiers check about the values of a block. */
  predicate Verified(b: Block) {
    && BlockOk(b) && CoinbaseIsFirst(b.transactions) && FeesOk(b.transactions, b.spent)
    && InRange(NonNegative, b.subsidy)
    && InRange(NonNegative, BlockFees(b.transactions, b.spent))
    && TxOk(b.transactions[0], b.spent)
    && MinerFeesAreValid(b.transactions[0], BlockFees(b.transactions, b.spent), b.subsidy,
                         OrZero(b.deferred), b.upgrade)
  }

  lemma {:induction false} CoinbaseExact(tx: Transaction, spent: Utxos)
    requires TxOk(tx, spent) && IsCoinbase(tx) && JoinSplits(tx) == []
    requires Total(tx.outputs) <= MAX_MONEY
    ensures Balance(tx, spent).Ok? && FourPools(Net(tx, spent)) == -Created(tx)
  {
    assert PrefixOk(JoinSplits(tx), 0) && PrefixesOk(JoinSplits(tx));
    TotalOne(InputValues(tx, spent));
    BalanceExact(tx, spent);
    NetIsOfFields(tx);
  }

  /** Every transaction of a verified block has a balance, so none is left out of the change. */
  lemma {:induction false} VerifiedIsBalanced(b: Block)
    requires Verified(b)
    ensures Balanced(b)
  {
    var txs := b.transactions;
    forall i | 0 <= i < |txs|
      ensures TxOk(txs[i], b.spent) && Balance(txs[i], b.spent).Ok?
    {
      assert TxOk(txs[i], b.spent);
      if i == 0 {
        MinerFeesExact(txs[0], BlockFees(txs, b.spent), b.subsidy, OrZero(b.deferred), b.upgrade);
        CoinbaseExact(txs[0], b.spent);
      } else {
        FeeExact(txs[i], b.spent);
      }
    }
  }

  /** The four pools grow by what the coinbase creates, less the fees that the block collects. */
  lemma {:induction false} FourPoolsGrow(b: Block)
    requires Verified(b) && ChangeBy(b).Ok?
    ensures FourPools(ChangeBy(b).value) ==
            Created(b.transactions[0]) - BlockFees(b.transactions, b.spent)
    ensures ChangeBy(b).value.deferred == OrZero(b.deferred)
  {
    var txs := b.transactions;
    VerifiedIsBalanced(b);
    PoolChangeExact(txs, b.spent, b.deferred);
    RestOk(txs, b.spent);
    NetsFirst(txs, b.spent);
    FeesExact(txs, b.spent);
    MinerFeesExact(txs[0], BlockFees(txs, b.spent), b.subsidy, OrZero(b.deferred), b.upgrade);
    CoinbaseExact(txs[0], b.spent);
  }

  /** An accepted block adds at most its subsidy to the supply, and from NU6 exactly that. */
  lemma {:induction false} BlockAddsSubsidy(s: ChainState, b: Block)
    requires Accepts(s, b) && Verified(b) && Each(NonNegative, s.pools)
    ensures Supply(After(s, b).pools) <= Supply(s.pools) + b.subsidy
    ensures Rank(Nu6) <= Rank(b.upgrade) ==>
              Supply(After(s, b).pools) == Supply(s.pools) + b.subsidy
  {
    PoolChangeSkips(b.transactions, b.spent, b.deferred);
    AddChangeReverts(s.pools, ChangeBy(b).value);
    FourPoolsGrow(b);
    MinerFeesExact(b.transactions[0], BlockFees(b.transactions, b.spent), b.subsidy,
                   OrZero(b.deferred), b.upgrade);
  }

  function Subsidies(blocks: seq<Block>): int {
    if blocks == [] then 0
    else Subsidies(blocks[..|blocks| - 1]) + blocks[|blocks| - 1].subsidy
  }

  /** A chain of accepted blocks went through a state after each of them. */
  lemma {:induction false} PrefixRuns(blocks: seq<Block>, k: nat) returns (s: ChainState)
    requires Run(blocks).Some? && k <= |blocks|
    ensures Run(blocks[..k]) == Some(s)
    decreases |blocks| - k
  {
    if k == |blocks| {
      assert blocks[..k] == blocks;
      s := Run(blocks).value;
    } else {
      var t := PrefixRuns(blocks, k + 1);
      assert blocks[..k + 1][..k] == blocks[..k];
      s := RunLast(blocks[..k + 1], k);
    }
  }

  /** The blocks from the `k`-th on are verified. */
  ghost predicate VerifiedFrom(blocks: seq<Block>, k: nat) {
    forall i {:trigger Verified(blocks[i])} :: k <= i < |blocks| ==> Verified(blocks[i])
  }

  /** The blocks from the `k`-th on are of NU6 or a later upgrade. */
  ghost predicate Nu6From(blocks: seq<Block>, k: nat) {
    forall i :: k <= i < |blocks| ==> Rank(Nu6) <= Rank(blocks[i].upgrade)
  }

  lemma {:induction false} VerifiedNext(blocks: seq<Block>, k: nat)
    requires VerifiedFrom(blocks, k)
    ensures VerifiedFrom(blocks, k + 1)
  {
    forall i | k + 1 <= i < |blocks|
      ensures Verified(blocks[i])
    {
      assert Verified(blocks[i]);
    }
  }

  lemma {:induction false} StepAddsSubsidy(blocks: seq<Block>, n: nat, s: ChainState, t: ChainState)
    requires n < |blocks| && VerifiedFrom(blocks, n)
    requires Run(blocks[..n]) == Some(s) && Run(blocks[..n + 1]) == Some(t)
    ensures Supply(t.pools) <= Supply(s.pools) + blocks[n].subsidy
    ensures Nu6From(blocks, n) ==> Supply(t.pools) == Supply(s.pools) + blocks[n].subsidy
  {
    assert blocks[..n + 1][..n] == blocks[..n] && Verified(blocks[n]);
    var r := RunLast(blocks[..n + 1], n);
    ChainDrifts(blocks[..n]);
    BlockAddsSubsidy(s, blocks[n]);
  }

  lemma {:induction false} SubsidiesNext(blocks: seq<Block>, n: nat)
    requires n < |blocks|
    ensures Subsidies(blocks[..n + 1]) == Subsidies(blocks[..n]) + blocks[n].subsidy
  {
    assert blocks[..n + 1][..n] == blocks[..n];
  }

  lemma {:induction false} SupplyGrows(blocks: seq<Block>, k: nat, s: ChainState, t: ChainState)
    requires k <= |blocks| && VerifiedFrom(blocks, k)
    requires Run(blocks[..k]) == Some(s) && Run(blocks) == Some(t)
    ensures Supply(t.pools) - Supply(s.pools) <= Subsidies(blocks) - Subsidies(blocks[..k])
    ensures Nu6From(blocks, k) ==>
              Supply(t.pools) - Supply(s.pools) == Subsidies(blocks) - Subsidies(blocks[..k])
    decreases |blocks| - k
  {
    if k == |blocks| {
      assert blocks[..k] == blocks;
    } else {
      var m := PrefixRuns(blocks, k + 1);
      StepAddsSubsidy(blocks, k, s, m);
      SubsidiesNext(blocks, k);
      VerifiedNext(blocks, k);
      SupplyGrows(blocks, k + 1, m, t);
    }
  }

  /** How far the supply is ahead of the subsidies. */
  ghost function Excess(blocks: seq<Block>): int
    requires Run(blocks).Some?
  {
    Supply(Run(blocks).value.pools) - Subsidies(blocks)
  }

  /** As far as blocks are verified, the supply grows by at most the subsidies. */
  lemma {:induction false} SupplyBounded(blocks: seq<Block>, k: nat)
    requires Run(blocks).Some? && k <= |blocks| && VerifiedFrom(blocks, k)
    ensures Run(blocks[..k]).Some? && Excess(blocks) <= Excess(blocks[..k])
  {
    var s := PrefixRuns(blocks, k);
    SupplyGrows(blocks, k, s, Run(blocks).value);
  }

  /** From NU6 on the supply grows by exactly the subsidies. */
  lemma {:induction false} SupplySinceNu6(blocks: seq<Block>, k: nat)
    requires Run(blocks).Some? && k <= |blocks| && VerifiedFrom(blocks, k) && Nu6From(blocks, k)
    ensures Run(blocks[..k]).Some? && Excess(blocks) == Excess(blocks[..k])
  {
    var s := PrefixRuns(blocks, k);
    SupplyGrows(blocks, k, s, Run(blocks).value);
  }
}

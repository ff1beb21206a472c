/** Which error a balance is refused with. */
module BalanceErrors {
  import opened Amounts
  import opened ChainValue
  import opened Options
  import opened ValuePools

  ghost function AmountIn(v: ValueBalance, pool: Pool): int {
    match pool
    case Transparent => v.transparent
    case Sprout => v.sprout
    case Sapling => v.sapling
    case Orchard => v.orchard
    case Deferred => v.deferred
  }

  /** The pools are looked at in this order. */
  ghost function Turn(pool: Pool): nat {
    match pool
    case Transparent => 0
    case Sprout => 1
    case Sapling => 2
    case Orchard => 3
    case Deferred => 4
  }

  /** The error is about the first pool whose amount is out of range, and has that amount. */
  ghost predicate IsFirstOut(c: Constraint, v: ValueBalance, e: BalanceError) {
    && !InRange(c, AmountIn(v, e.pool)) && e.error == OutOfRange(AmountIn(v, e.pool), c)
    && forall pool :: Turn(pool) < Turn(e.pool) ==> InRange(c, AmountIn(v, pool))
  }

  lemma {:induction false} ConstrainExact(c: Constraint, v: ValueBalance)
    ensures match Constrain(c, v)
            case Ok(w) => w == v && forall pool :: InRange(c, AmountIn(v, pool))
            case Err(e) => IsFirstOut(c, v, e)
  {
  }

  /** A refused change of the pools: the first sum out of bounds, or else the first negative one. */
  lemma {:induction false} AddChangeFails(pools: ValueBalance, change: ValueBalance)
    requires AddChange(pools, change).Err?
    ensures var e, sum := AddChange(pools, change).error, Plus(pools, change);
            if Each(NegativeAllowed, sum) then IsFirstOut(NonNegative, sum, e)
            else IsFirstOut(NegativeAllowed, sum, e)
  {
    var sum := Plus(pools, change);
    ConstrainExact(NegativeAllowed, sum);
    if Each(NegativeAllowed, sum) {
      ConstrainExact(NonNegative, sum);
    }
  }

  /** A refused sum of balances: the first sum on the way that is out of range. */
  lemma {:induction false} SumFromFails(sum: ValueBalance, items: seq<ValueBalance>) returns (k: nat)
    requires SumFrom(sum, items).Err?
    ensures 1 <= k <= |items| && forall j: nat :: 1 <= j < k ==> PrefixEach(sum, items, j)
    ensures IsFirstOut(NegativeAllowed, Plus(sum, Totals(items[..k])), SumFrom(sum, items).error)
    decreases |items|
  {
    var next := Plus(sum, items[0]);
    PrefixEachShift(sum, items, 0);
    assert items[1..][..0] == [];
    if Each(NegativeAllowed, next) {
      var m := SumFromFails(next, items[1..]);
      k := m + 1;
      assert items[..k][1..] == items[1..][..m];
      forall j: nat | 1 <= j < k
        ensures PrefixEach(sum, items, j)
      {
        PrefixEachShift(sum, items, j - 1);
      }
    } else {
      k := 1;
      assert items[..1][1..] == [];
      ConstrainExact(NegativeAllowed, next);
    }
  }

  lemma {:induction false} ChangeFails(items: seq<ValueBalance>, deferred: Option<int>)
      returns (k: nat)
    requires ChangeOf(items, deferred).Err?
    ensures 1 <= k <= |items| && forall j: nat :: 1 <= j < k ==> PrefixEach(ZERO, items, j)
    ensures IsFirstOut(
              NegativeAllowed, Plus(ZERO, Totals(items[..k])), ChangeOf(items, deferred).error)
  {
    k := SumFromFails(ZERO, items);
  }

  /** A refused change of a block: the first sum of balances on the way that is out of range. */
  lemma {:induction false} PoolChangeFails(
      txs: seq<Transaction>, spent: Utxos, deferred: Option<int>, items: seq<ValueBalance>)
      returns (k: nat)
    requires TransactionsOk(txs, spent) && items == NetsWhere(txs, spent, true)
    requires PoolChange(txs, spent, deferred).Err?
    ensures 1 <= k <= |items| && forall j: nat :: 1 <= j < k ==> PrefixEach(ZERO, items, j)
    ensures IsFirstOut(NegativeAllowed, Plus(ZERO, Totals(items[..k])),
                       PoolChange(txs, spent, deferred).error)
  {
    SummedAreNets(txs, spent);
    k := ChangeFails(items, deferred);
  }

  /** Amounts were summed up to the first sum above the maximum, with the rest still to come. */
  ghost predicate IsFirstAbove(items: seq<int>, e: AmountError) {
    match e
    case SumOverflow(value, remaining) =>
      && remaining < |items| && value == Total(items[..|items| - remaining])
      && Total(items[..|items| - remaining - 1]) <= MAX_MONEY < value
    case _ => false
  }

  lemma {:induction false} SumFails(items: seq<int>)
    requires AllInRange(NonNegative, items) && Sum(NonNegative, items).Err?
    ensures IsFirstAbove(items, Sum(NonNegative, items).error)
  {
    SumExact(NonNegative, items);
    var e := Sum(NonNegative, items).error;
    assert PrefixInRange(NonNegative, 0, items, |items| - e.remainingItems - 1);
    TotalNonNegative(items, |items| - e.remainingItems);
  }

  /** Join splits were summed up to the first sum that is out of range. */
  ghost predicate IsFirstSproutOut(joinSplits: seq<JoinSplit>, e: AmountError) {
    exists k :: 0 < k <= |joinSplits| && IsSproutOutAt(joinSplits, e, k)
  }

  ghost predicate IsSproutOutAt(joinSplits: seq<JoinSplit>, e: AmountError, k: nat)
    requires k <= |joinSplits|
  {
    && !PrefixOk(joinSplits, k) && (forall j: nat :: j < k ==> PrefixOk(joinSplits, j))
    && e == OutOfRange(TotalNew(joinSplits[..k]) - TotalOld(joinSplits[..k]), NegativeAllowed)
  }

  lemma {:induction false} SproutTotals(joinSplits: seq<JoinSplit>)
    ensures Totals(SproutBalances(SproutAmounts(joinSplits)))
         == FromSprout(TotalNew(joinSplits) - TotalOld(joinSplits))
  {
    if joinSplits != [] {
      SproutTotals(joinSplits[1..]);
      var all := SproutBalances(SproutAmounts(joinSplits));
      assert all[1..] == SproutBalances(SproutAmounts(joinSplits[1..]));
    }
  }

  lemma {:induction false} SproutPrefix(joinSplits: seq<JoinSplit>, k: nat)
    requires k <= |joinSplits|
    ensures var items := SproutBalances(SproutAmounts(joinSplits));
            && Plus(FromSprout(0), Totals(items[..k]))
               == FromSprout(TotalNew(joinSplits[..k]) - TotalOld(joinSplits[..k]))
            && (PrefixEach(FromSprout(0), items, k) <==> PrefixOk(joinSplits, k))
  {
    SproutTotals(joinSplits[..k]);
    var items := SproutBalances(SproutAmounts(joinSplits));
    assert items[..k] == SproutBalances(SproutAmounts(joinSplits[..k]));
  }

  lemma {:induction false} SproutFails(tx: Transaction)
    requires SproutBalance(tx).Err?
    ensures SproutBalance(tx).error.pool == Sprout
    ensures IsFirstSproutOut(JoinSplits(tx), SproutBalance(tx).error.error)
  {
    var js, e := JoinSplits(tx), SproutBalance(tx).error;
    var items := SproutBalances(SproutAmounts(js));
    var k := SumFromFails(FromSprout(0), items);
    SproutPrefix(js, k);
    forall j: nat | j < k
      ensures PrefixOk(js, j)
    {
      SproutPrefix(js, j);
      if j == 0 {
        assert js[..0] == [];
      }
    }
    assert IsSproutOutAt(js, e.error, k);
  }

  /**
   A refused balance of a transaction: its inputs are above the maximum, or else its outputs are, or
   else its join splits are out of range; the error has the first sum that is.
   */
  lemma {:induction false} BalanceFails(tx: Transaction, utxos: Utxos)
    requires TxOk(tx, utxos) && Balance(tx, utxos).Err?
    ensures var e, inputs := Balance(tx, utxos).error, InputValues(tx, utxos);
            if Total(inputs) > MAX_MONEY then e.pool == Transparent && IsFirstAbove(inputs, e.error)
            else if Total(tx.outputs) > MAX_MONEY then
              e.pool == Transparent && IsFirstAbove(tx.outputs, e.error)
            else e.pool == Sprout && IsFirstSproutOut(JoinSplits(tx), e.error)
  {
    var inputs := InputValues(tx, utxos);
    BalanceExact(tx, utxos);
    SumNonNegative(inputs);
    SumNonNegative(tx.outputs);
    TransparentExact(tx, utxos);
    SproutExact(tx);
    if Total(inputs) > MAX_MONEY {
      SumFails(inputs);
    } else if Total(tx.outputs) > MAX_MONEY {
      SumFails(tx.outputs);
    } else {
      SproutFails(tx);
    }
  }

  /** A refused remaining value: the first sum of pools out of range, or else what they leave over. */
  lemma {:induction false} RemainingFails(v: ValueBalance)
    requires Each(NegativeAllowed, v) && RemainingValue(v).Err?
    ensures match RemainingValue(v).error
            case OutOfRange(value, NonNegative) =>
              && value == FourPools(v) < 0 && InRange(NegativeAllowed, v.transparent + v.sprout)
              && InRange(NegativeAllowed, FourPools(v) - v.orchard)
            case OutOfRange(value, NegativeAllowed) =>
              && !InRange(NegativeAllowed, value)
              && (|| value == v.transparent + v.sprout
                  || (&& InRange(NegativeAllowed, v.transparent + v.sprout)
                      && (|| value == FourPools(v) - v.orchard
                          || (&& InRange(NegativeAllowed, FourPools(v) - v.orchard)
                              && value == FourPools(v)))))
            case _ => false
  {
  }
}

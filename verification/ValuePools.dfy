/** Value balances of transactions, and the chain value pools that they change. */
module ValuePools {
  import opened Amounts
  import opened Options

  datatype Pool = Transparent | Sprout | Sapling | Orchard | Deferred

  datatype ValueBalance = ValueBalance(
    transparent: int, sprout: int, sapling: int, orchard: int, deferred: int)

  datatype BalanceError = BalanceError(pool: Pool, error: AmountError)

  type CheckedBalance = Result<ValueBalance, BalanceError>

  const ZERO: ValueBalance := ValueBalance(0, 0, 0, 0, 0)

  predicate Each(c: Constraint, v: ValueBalance) {
    && InRange(c, v.transparent) && InRange(c, v.sprout) && InRange(c, v.sapling)
    && InRange(c, v.orchard) && InRange(c, v.deferred)
  }

  /** The first pool, in the order of the fields, whose amount is out of range. */
  function FirstOutOfRange(c: Constraint, v: ValueBalance): (e: BalanceError)
    requires !Each(c, v)
  {
    if !InRange(c, v.transparent) then BalanceError(Transparent, OutOfRange(v.transparent, c))
    else if !InRange(c, v.sprout) then BalanceError(Sprout, OutOfRange(v.sprout, c))
    else if !InRange(c, v.sapling) then BalanceError(Sapling, OutOfRange(v.sapling, c))
    else if !InRange(c, v.orchard) then BalanceError(Orchard, OutOfRange(v.orchard, c))
    else BalanceError(Deferred, OutOfRange(v.deferred, c))
  }

  function Constrain(c: Constraint, v: ValueBalance): CheckedBalance {
    if Each(c, v) then Ok(v) else Err(FirstOutOfRange(c, v))
  }

  /** Adds pool by pool; the first sum that is out of range is the error. */
  function AddBalances(c: Constraint, a: ValueBalance, b: ValueBalance): CheckedBalance {
    Constrain(c, Plus(a, b))
  }

  function Neg(v: ValueBalance): ValueBalance {
    ValueBalance(-v.transparent, -v.sprout, -v.sapling, -v.orchard, -v.deferred)
  }

  function SumFrom(sum: ValueBalance, items: seq<ValueBalance>): CheckedBalance
    decreases |items|
  {
    if items == [] then Ok(sum)
    else
      match AddBalances(NegativeAllowed, sum, items[0])
      case Ok(next) => SumFrom(next, items[1..])
      case Err(e) => Err(e)
  }

  // What the arithmetic means without bounds.

  function Plus(a: ValueBalance, b: ValueBalance): ValueBalance {
    ValueBalance(a.transparent + b.transparent, a.sprout + b.sprout, a.sapling + b.sapling,
                 a.orchard + b.orchard, a.deferred + b.deferred)
  }

  function Totals(items: seq<ValueBalance>): ValueBalance {
    if items == [] then ZERO else Plus(items[0], Totals(items[1..]))
  }

  /** The value in the four pools that transactions move value between. */
  function FourPools(v: ValueBalance): int {
    v.transparent + v.sprout + v.sapling + v.orchard
  }

  function Supply(v: ValueBalance): int {
    FourPools(v) + v.deferred
  }

  /** The sum with the first `k` items is in range in every pool. */
  ghost predicate PrefixEach(sum: ValueBalance, items: seq<ValueBalance>, k: nat)
    requires k <= |items|
  {
    Each(NegativeAllowed, Plus(sum, Totals(items[..k])))
  }

  lemma {:induction false} PrefixEachShift(sum: ValueBalance, items: seq<ValueBalance>, k: nat)
    requires k < |items|
    ensures PrefixEach(sum, items, k + 1) <==> PrefixEach(Plus(sum, items[0]), items[1..], k)
  {
    assert items[..k + 1][1..] == items[1..][..k];
  }

  /** A sum of balances is Ok exactly if every prefix is in range in every pool; then it is exact. */
  lemma {:induction false} SumFromExact(sum: ValueBalance, items: seq<ValueBalance>)
    ensures SumFrom(sum, items).Ok? <==> forall k: nat :: 1 <= k <= |items| ==> PrefixEach(sum, items, k)
    ensures SumFrom(sum, items).Ok? ==> SumFrom(sum, items).value == Plus(sum, Totals(items))
    decreases |items|
  {
    if items != [] {
      var next := Plus(sum, items[0]);
      SumFromExact(next, items[1..]);
      assert PrefixEach(sum, items, 1) <==> Each(NegativeAllowed, next) by {
        PrefixEachShift(sum, items, 0);
        assert items[1..][..0] == [];
      }
      forall k: nat | k < |items|
        ensures PrefixEach(sum, items, k + 1) <==> PrefixEach(next, items[1..], k)
      {
        PrefixEachShift(sum, items, k);
      }
      if forall k: nat :: 1 <= k <= |items| ==> PrefixEach(sum, items, k) {
        forall k: nat | 1 <= k <= |items[1..]|
          ensures PrefixEach(next, items[1..], k)
        {
          assert PrefixEach(sum, items, k + 1);
        }
      }
      if SumFrom(sum, items).Ok? {
        forall k: nat | 1 <= k <= |items|
          ensures PrefixEach(sum, items, k)
        {
          assert k > 1 ==> PrefixEach(next, items[1..], k - 1);
        }
      }
    }
  }

  lemma {:induction false} SumFromInRange(sum: ValueBalance, items: seq<ValueBalance>)
    requires items != [] && SumFrom(sum, items).Ok?
    ensures Each(NegativeAllowed, SumFrom(sum, items).value)
    decreases |items|
  {
    if items[1..] != [] {
      SumFromInRange(Plus(sum, items[0]), items[1..]);
    }
  }

  // Transactions.

  datatype OutPoint = OutPoint(txid: nat, index: nat)
  datatype Input = PrevOut(outpoint: OutPoint) | Coinbase
  datatype JoinSplit = JoinSplit(vpubOld: int, vpubNew: int)

  /** What a version 1 to 5 transaction holds that moves value. */
  datatype Transaction =
    | V1(id: nat, inputs: seq<Input>, outputs: seq<int>)
    | V2(id: nat, inputs: seq<Input>, outputs: seq<int>, joinSplits: seq<JoinSplit>)
    | V3(id: nat, inputs: seq<Input>, outputs: seq<int>, joinSplits: seq<JoinSplit>)
    | V4(id: nat, inputs: seq<Input>, outputs: seq<int>, joinSplits: seq<JoinSplit>,
         saplingBalance: Option<int>)
    | V5(id: nat, inputs: seq<Input>, outputs: seq<int>, saplingBalance: Option<int>,
         orchardBalance: Option<int>)

  type Utxos = map<OutPoint, int>

  function JoinSplits(tx: Transaction): seq<JoinSplit> {
    match tx
    case V2(_, _, _, joinSplits) => joinSplits
    case V3(_, _, _, joinSplits) => joinSplits
    case V4(_, _, _, joinSplits, _) => joinSplits
    case _ => []
  }

  predicate AmountsOk(tx: Transaction) {
    && AllInRange(NonNegative, tx.outputs)
    && (forall i :: 0 <= i < |JoinSplits(tx)| ==>
          && InRange(NonNegative, JoinSplits(tx)[i].vpubOld)
          && InRange(NonNegative, JoinSplits(tx)[i].vpubNew))
    && InRange(NegativeAllowed, SaplingBalance(tx)) && InRange(NegativeAllowed, OrchardBalance(tx))
  }

  /** The outputs hold what every input spends. */
  predicate Provides(utxos: Utxos, tx: Transaction) {
    forall i :: 0 <= i < |tx.inputs| && tx.inputs[i].PrevOut? ==>
      tx.inputs[i].outpoint in utxos && InRange(NonNegative, utxos[tx.inputs[i].outpoint])
  }

  /** The amounts of a transaction are in range, and what it spends is known. */
  predicate TxOk(tx: Transaction, utxos: Utxos) {
    AmountsOk(tx) && Provides(utxos, tx)
  }

  predicate IsCoinbase(tx: Transaction) {
    |tx.inputs| == 1 && tx.inputs[0].Coinbase?
  }

  predicate IsValidNonCoinbase(tx: Transaction) {
    forall i :: 0 <= i < |tx.inputs| ==> tx.inputs[i].PrevOut?
  }

  function InputValue(i: Input, utxos: Utxos): int
    requires i.PrevOut? ==> i.outpoint in utxos
  {
    if i.PrevOut? then utxos[i.outpoint] else 0
  }

  function InputValues(tx: Transaction, utxos: Utxos): (r: seq<int>)
    requires Provides(utxos, tx)
    ensures AllInRange(NonNegative, r)
  {
    seq(|tx.inputs|, i requires 0 <= i < |tx.inputs| => InputValue(tx.inputs[i], utxos))
  }

  function TransparentBalance(tx: Transaction, utxos: Utxos): CheckedBalance
    requires AmountsOk(tx) && Provides(utxos, tx)
  {
    var input := Sum(NonNegative, InputValues(tx, utxos));
    var output := Sum(NonNegative, tx.outputs);
    if input.Err? then Err(BalanceError(Transparent, input.error))
    else if output.Err? then Err(BalanceError(Transparent, output.error))
    else
      match Validate(NegativeAllowed, input.value - output.value)
      case Ok(v) => Ok(ZERO.(transparent := v))
      case Err(e) => Err(BalanceError(Transparent, e))
  }

  function FromSprout(amount: int): ValueBalance {
    ValueBalance(0, amount, 0, 0, 0)
  }

  /** What each join split takes from the sprout pool, less what it adds. */
  function SproutAmounts(joinSplits: seq<JoinSplit>): seq<int> {
    seq(|joinSplits|, i requires 0 <= i < |joinSplits| =>
      joinSplits[i].vpubNew - joinSplits[i].vpubOld)
  }

  function SproutBalances(amounts: seq<int>): seq<ValueBalance> {
    seq(|amounts|, i requires 0 <= i < |amounts| => FromSprout(amounts[i]))
  }

  function SproutBalance(tx: Transaction): CheckedBalance {
    SumFrom(FromSprout(0), SproutBalances(SproutAmounts(JoinSplits(tx))))
  }

  function SaplingBalance(tx: Transaction): int {
    if (tx.V4? || tx.V5?) && tx.saplingBalance.Some? then tx.saplingBalance.value else 0
  }

  function OrchardBalance(tx: Transaction): int {
    if tx.V5? && tx.orchardBalance.Some? then tx.orchardBalance.value else 0
  }

  /** Adds up the balances of a transaction, of which the first two may be errors. */
  function Assemble(t: CheckedBalance, s: CheckedBalance, sapling: int, orchard: int): CheckedBalance
  {
    if t.Err? then t
    else if s.Err? then s
    else
      var ts := AddBalances(NegativeAllowed, t.value, s.value);
      if ts.Err? then ts
      else
        var tsa := AddBalances(NegativeAllowed, ts.value, ZERO.(sapling := sapling));
        if tsa.Err? then tsa
        else AddBalances(NegativeAllowed, tsa.value, ZERO.(orchard := orchard))
  }

  /** The change in the transaction value pool, by chain pool. */
  function Balance(tx: Transaction, utxos: Utxos): CheckedBalance
    requires TxOk(tx, utxos)
  {
    Assemble(TransparentBalance(tx, utxos), SproutBalance(tx), SaplingBalance(tx),
             OrchardBalance(tx))
  }

  // What a transaction's balance means.

  /** What join splits add to the sprout pool. */
  function TotalOld(joinSplits: seq<JoinSplit>): int {
    if joinSplits == [] then 0 else joinSplits[0].vpubOld + TotalOld(joinSplits[1..])
  }

  /** What join splits take from the sprout pool. */
  function TotalNew(joinSplits: seq<JoinSplit>): int {
    if joinSplits == [] then 0 else joinSplits[0].vpubNew + TotalNew(joinSplits[1..])
  }

  /** What the first join splits take from the pool less what they add is in range. */
  ghost predicate PrefixOk(joinSplits: seq<JoinSplit>, k: nat)
    requires k <= |joinSplits|
  {
    InRange(NegativeAllowed, TotalNew(joinSplits[..k]) - TotalOld(joinSplits[..k]))
  }

  /** However many of the join splits are summed, the sum is in range. */
  ghost predicate PrefixesOk(joinSplits: seq<JoinSplit>) {
    forall k {:trigger PrefixOk(joinSplits, k)} :: 0 <= k <= |joinSplits| ==> PrefixOk(joinSplits, k)
  }

  /** What the transaction takes from the sprout pool, less what it adds, by its version. */
  ghost function SproutNet(tx: Transaction): int {
    match tx
    case V1(_, _, _) => 0
    case V2(_, _, _, js) => TotalNew(js) - TotalOld(js)
    case V3(_, _, _, js) => TotalNew(js) - TotalOld(js)
    case V4(_, _, _, js, _) => TotalNew(js) - TotalOld(js)
    case V5(_, _, _, _, _) => 0
  }

  /** Only versions 4 and 5 can have a sapling balance. */
  ghost function SaplingNet(tx: Transaction): int {
    match tx
    case V4(_, _, _, _, Some(balance)) => balance
    case V5(_, _, _, Some(balance), _) => balance
    case _ => 0
  }

  /** Only version 5 can have an orchard balance. */
  ghost function OrchardNet(tx: Transaction): int {
    match tx
    case V5(_, _, _, _, Some(balance)) => balance
    case _ => 0
  }

  /** What the transaction takes from each pool, less what it adds, without bounds. */
  ghost function Net(tx: Transaction, utxos: Utxos): ValueBalance
    requires TxOk(tx, utxos)
  {
    ValueBalance(Total(InputValues(tx, utxos)) - Total(tx.outputs),
                 SproutNet(tx), SaplingNet(tx), OrchardNet(tx), 0)
  }

  /** The fields that the code reads are those of the version. */
  lemma {:induction false} NetIsOfFields(tx: Transaction)
    ensures SproutNet(tx) == TotalNew(JoinSplits(tx)) - TotalOld(JoinSplits(tx))
    ensures SaplingNet(tx) == SaplingBalance(tx) && OrchardNet(tx) == OrchardBalance(tx)
  {
  }

  lemma {:induction false} SproutTotal(joinSplits: seq<JoinSplit>)
    ensures Total(SproutAmounts(joinSplits)) == TotalNew(joinSplits) - TotalOld(joinSplits)
  {
    if joinSplits != [] {
      SproutTotal(joinSplits[1..]);
      assert SproutAmounts(joinSplits)[1..] == SproutAmounts(joinSplits[1..]);
    }
  }

  lemma {:induction false} SproutPrefixes(joinSplits: seq<JoinSplit>)
    ensures PrefixesInRange(NegativeAllowed, 0, SproutAmounts(joinSplits), |joinSplits|)
       <==> PrefixesOk(joinSplits)
  {
    var amounts := SproutAmounts(joinSplits);
    forall k: nat | k <= |joinSplits|
      ensures PrefixInRange(NegativeAllowed, 0, amounts, k) <==> PrefixOk(joinSplits, k)
    {
      SproutTotal(joinSplits[..k]);
      assert amounts[..k] == SproutAmounts(joinSplits[..k]);
    }
    if PrefixesInRange(NegativeAllowed, 0, amounts, |joinSplits|) {
      forall k | 0 <= k <= |joinSplits|
        ensures PrefixOk(joinSplits, k)
      {
        assert PrefixInRange(NegativeAllowed, 0, amounts, k);
      }
    }
    if PrefixesOk(joinSplits) {
      forall k: nat | k <= |joinSplits|
        ensures PrefixInRange(NegativeAllowed, 0, amounts, k)
      {
        assert PrefixOk(joinSplits, k);
      }
    }
  }

  ghost predicate OnlyTransparent(v: ValueBalance) {
    v.sprout == v.sapling == v.orchard == v.deferred == 0
  }

  ghost predicate OnlySprout(v: ValueBalance) {
    v.transparent == v.sapling == v.orchard == v.deferred == 0
  }

  lemma {:induction false} TransparentExact(tx: Transaction, utxos: Utxos)
    requires AmountsOk(tx) && Provides(utxos, tx)
    ensures var r := TransparentBalance(tx, utxos);
            && (r.Ok? <==> Total(InputValues(tx, utxos)) <= MAX_MONEY
                           && Total(tx.outputs) <= MAX_MONEY)
            && (r.Ok? ==> && OnlyTransparent(r.value) && InRange(NegativeAllowed, r.value.transparent)
                          && r.value.transparent == Total(InputValues(tx, utxos)) - Total(tx.outputs))
  {
    SumNonNegative(InputValues(tx, utxos));
    SumNonNegative(tx.outputs);
    TotalBounds(InputValues(tx, utxos));
    TotalBounds(tx.outputs);
  }

  lemma {:induction false} TotalBounds(items: seq<int>)
    requires AllInRange(NonNegative, items)
    ensures 0 <= Total(items)
  {
    TotalNonNegative(items, |items|);
    assert items[..|items|] == items;
  }

  /** Summing balances of the sprout pool alone is summing their amounts. */
  lemma {:induction false} SproutFold(sum: int, amounts: seq<int>)
    requires InRange(NegativeAllowed, sum) && AllInRange(NegativeAllowed, amounts)
    ensures var r, fold := SumFrom(FromSprout(sum), SproutBalances(amounts)),
                           TryFold(NegativeAllowed, sum, amounts).0;
            && (r.Ok? <==> fold.Ok?)
            && (r.Ok? ==> r.value == FromSprout(fold.value))
    decreases |amounts|
  {
    if amounts != [] {
      var next := sum + amounts[0];
      assert Plus(FromSprout(sum), FromSprout(amounts[0])) == FromSprout(next);
      assert SproutBalances(amounts)[1..] == SproutBalances(amounts[1..]);
      if InRange(NegativeAllowed, next) {
        SproutFold(next, amounts[1..]);
      }
    }
  }

  /**
   The join splits of a transaction can be summed exactly if, for however many of them, what they take
   from the pool less what they add is in range; the sum is exact, and of the sprout pool alone.
   */
  lemma {:induction false} SproutExact(tx: Transaction)
    requires AmountsOk(tx)
    ensures SproutBalance(tx).Ok? <==> PrefixesOk(JoinSplits(tx))
    ensures SproutBalance(tx).Ok? ==>
              var net := TotalNew(JoinSplits(tx)) - TotalOld(JoinSplits(tx));
              SproutBalance(tx).value == FromSprout(net) && InRange(NegativeAllowed, net)
  {
    var amounts := SproutAmounts(JoinSplits(tx));
    SproutFold(0, amounts);
    SumExact(NegativeAllowed, amounts);
    SproutPrefixes(JoinSplits(tx));
    SproutTotal(JoinSplits(tx));
    if SproutBalance(tx).Ok? {
      assert PrefixInRange(NegativeAllowed, 0, amounts, |amounts|);
      assert amounts[..|amounts|] == amounts;
    }
  }

  /** Balances of different pools are put together without loss. */
  lemma {:induction false} AssembleExact(t: ValueBalance, s: ValueBalance, a: int, o: int)
    requires OnlyTransparent(t) && InRange(NegativeAllowed, t.transparent)
    requires OnlySprout(s) && InRange(NegativeAllowed, s.sprout)
    requires InRange(NegativeAllowed, a) && InRange(NegativeAllowed, o)
    ensures Assemble(Ok(t), Ok(s), a, o).Ok?
    ensures Assemble(Ok(t), Ok(s), a, o).value == ValueBalance(t.transparent, s.sprout, a, o, 0)
  {
  }

  /**
   A transaction has a balance exactly if its inputs, its outputs and its join splits can be summed;
   then the balance is exact, and its deferred part is zero.
   */
  lemma {:induction false} BalanceExact(tx: Transaction, utxos: Utxos)
    requires TxOk(tx, utxos)
    ensures Balance(tx, utxos).Ok? <==>
            && Total(InputValues(tx, utxos)) <= MAX_MONEY && Total(tx.outputs) <= MAX_MONEY
            && PrefixesOk(JoinSplits(tx))
    ensures Balance(tx, utxos).Ok? ==> Balance(tx, utxos).value == Net(tx, utxos)
    ensures Balance(tx, utxos).Ok? ==> Each(NegativeAllowed, Net(tx, utxos))
  {
    TransparentExact(tx, utxos);
    SproutExact(tx);
    NetIsOfFields(tx);
    var t, s := TransparentBalance(tx, utxos), SproutBalance(tx);
    if t.Ok? && s.Ok? {
      AssembleExact(t.value, s.value, SaplingBalance(tx), OrchardBalance(tx));
    }
  }

  /** A balance is exact. */
  lemma {:induction false} BalanceIsNet(tx: Transaction, utxos: Utxos)
    requires TxOk(tx, utxos) && Balance(tx, utxos).Ok?
    ensures Balance(tx, utxos) == Ok(Net(tx, utxos))
  {
    BalanceExact(tx, utxos);
  }

  // Remaining value.

  function RemainingValue(v: ValueBalance): Checked
    requires Each(NegativeAllowed, v)
  {
    var ts := Add(NegativeAllowed, v.transparent, v.sprout);
    if ts.Err? then ts
    else
      var tsa := Add(NegativeAllowed, ts.value, v.sapling);
      if tsa.Err? then tsa
      else
        var sum := Add(NegativeAllowed, tsa.value, v.orchard);
        if sum.Err? then sum else Validate(NonNegative, sum.value)
  }

  /**
   The remaining value is what the four pools leave over, exactly if that is in range and the sums
   of the first two and the first three pools are.
   */
  lemma {:induction false} RemainingExact(v: ValueBalance)
    requires Each(NegativeAllowed, v)
    ensures RemainingValue(v).Ok? <==>
            && InRange(NegativeAllowed, v.transparent + v.sprout)
            && InRange(NegativeAllowed, v.transparent + v.sprout + v.sapling)
            && InRange(NonNegative, FourPools(v))
    ensures RemainingValue(v).Ok? ==> RemainingValue(v).value == FourPools(v)
  {
  }

  /** Four pools that leave a valid value over, which the order of summing rejects. */
  lemma {:induction false} RemainingRejectsValid()
    ensures var v := ValueBalance(MAX_MONEY, MAX_MONEY, -MAX_MONEY, 0, 0);
            InRange(NonNegative, FourPools(v)) && RemainingValue(v).Err?
  {
    var v := ValueBalance(MAX_MONEY, MAX_MONEY, -MAX_MONEY, 0, 0);
    assert Add(NegativeAllowed, v.transparent, v.sprout).Err?;
  }
}

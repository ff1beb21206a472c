/** Looking up the outputs that a transaction spends, in the order of its inputs. */
module SpentOutputs {
  import opened Options
  import opened ValuePools

  datatype Output = Output(value: int, lockScript: nat)
  datatype Utxo = Utxo(output: Output, height: nat, fromCoinbase: bool)

  /** The state's answer to a query for an output. */
  datatype ChainAnswer = Found(utxo: Utxo) | Missing | QueryFailed

  /**
   Where outputs are looked up: those known from the block, then the chain, and for a mempool
   request then the mempool, if there is one. The mempool has no answer if waiting for it failed.
   */
  datatype Sources = Sources(
    known: map<OutPoint, Utxo>, chain: OutPoint -> ChainAnswer, isMempool: bool,
    mempool: Option<OutPoint -> Option<Output>>, height: nat)

  datatype Spent = Spent(
    utxos: map<OutPoint, Utxo>, outputs: seq<Output>, mempoolOutpoints: seq<OutPoint>)

  /** The output that is found for an outpoint, wherever it is. */
  function Lookup(s: Sources, o: OutPoint): Option<Utxo> {
    if o in s.known then Some(s.known[o])
    else
      match s.chain(o)
      case Found(utxo) => Some(utxo)
      case QueryFailed => None
      case Missing =>
        if s.isMempool && s.mempool.Some? && s.mempool.value(o).Some?
        then Some(Utxo(s.mempool.value(o).value, s.height, false)) else None
  }

  /** The output is on record: it is known from the block, or else it is in the chain. */
  ghost predicate OnRecord(s: Sources, o: OutPoint, utxo: Utxo) {
    (o, utxo) in s.known.Items || (o !in s.known.Keys && s.chain(o) == Found(utxo))
  }

  /**
   What is found is what is on record. An output that is not on record can be found for a mempool
   request, in the mempool: then it counts as one of the next block, and not of a coinbase.
   */
  lemma {:induction false} LookupExact(s: Sources, o: OutPoint, utxo: Utxo)
    ensures Lookup(s, o) == Some(utxo) <==>
            || OnRecord(s, o, utxo)
            || (&& s.isMempool && o !in s.known.Keys && s.chain(o) == Missing
                && s.mempool.Some? && s.mempool.value(o) == Some(utxo.output)
                && !utxo.fromCoinbase && utxo.height == s.height)
    ensures Lookup(s, o) == Some(utxo) && utxo.fromCoinbase ==> OnRecord(s, o, utxo)
  {
    if (o, utxo) in s.known.Items {
      assert s.known[o] == utxo;
    }
    if o in s.known {
      assert (o, s.known[o]) in s.known.Items;
    }
  }

  /** Only the mempool can have the output. */
  predicate InMempoolOnly(s: Sources, o: OutPoint) {
    o !in s.known && s.isMempool && s.chain(o).Missing?
  }

  predicate AllFound(s: Sources, inputs: seq<Input>) {
    forall i :: 0 <= i < |inputs| && inputs[i].PrevOut? ==> Lookup(s, inputs[i].outpoint).Some?
  }

  /** The output that an input spends, if it spends one. */
  function SlotOf(s: Sources, i: Input): Option<Output> {
    if i.PrevOut? && Lookup(s, i.outpoint).Some? then Some(Lookup(s, i.outpoint).value.output)
    else None
  }

  function Flatten(slots: seq<Option<Output>>): seq<Output> {
    if slots == [] then []
    else (if slots[0].Some? then [slots[0].value] else []) + Flatten(slots[1..])
  }

  lemma {:induction false} FlattenFull(slots: seq<Option<Output>>)
    requires forall i :: 0 <= i < |slots| ==> slots[i].Some?
    ensures |Flatten(slots)| == |slots|
    ensures forall i :: 0 <= i < |slots| ==> Flatten(slots)[i] == slots[i].value
  {
    if slots != [] {
      FlattenFull(slots[1..]);
    }
  }

  /** What the first pass leaves for the mempool: the inputs it did not find, by index, in order. */
  ghost function PendingBelow(s: Sources, inputs: seq<Input>, n: nat): seq<(nat, OutPoint)>
    requires n <= |inputs|
  {
    if n == 0 then []
    else
      var rest := PendingBelow(s, inputs, n - 1);
      if inputs[n - 1].PrevOut? && InMempoolOnly(s, inputs[n - 1].outpoint)
      then rest + [(n - 1, inputs[n - 1].outpoint)] else rest
  }

  ghost predicate IsPending(s: Sources, i: Input) {
    i.PrevOut? && InMempoolOnly(s, i.outpoint)
  }

  /** The slot holds what the input spends, or is empty as long as that is pending. */
  ghost predicate Filled(s: Sources, i: Input, slot: Option<Output>, pending: bool) {
    slot == if pending && IsPending(s, i) then None else SlotOf(s, i)
  }

  ghost predicate UtxosOk(s: Sources, utxos: map<OutPoint, Utxo>) {
    forall o :: o in utxos ==> Lookup(s, o) == Some(utxos[o])
  }

  /** The first pass: fills the slots of outputs that are known or in the chain. */
  method FirstPass(s: Sources, inputs: seq<Input>, slots: array<Option<Output>>)
      returns (ok: bool, utxos: map<OutPoint, Utxo>, pending: seq<(nat, OutPoint)>)
    requires slots.Length == |inputs| && forall i :: 0 <= i < |inputs| ==> slots[i] == None
    modifies slots
    ensures ok <==> forall i :: 0 <= i < |inputs| && inputs[i].PrevOut? ==>
              IsPending(s, inputs[i]) || Lookup(s, inputs[i].outpoint).Some?
    ensures ok ==> pending == PendingBelow(s, inputs, |inputs|) && UtxosOk(s, utxos)
    ensures ok ==> forall i :: 0 <= i < |inputs| ==> Filled(s, inputs[i], slots[i], true)
    ensures ok ==> forall i :: 0 <= i < |inputs| && inputs[i].PrevOut? ==>
              IsPending(s, inputs[i]) || inputs[i].outpoint in utxos
  {
    utxos, pending := map[], [];
    for i := 0 to |inputs|
      invariant pending == PendingBelow(s, inputs, i) && UtxosOk(s, utxos)
      invariant forall k :: 0 <= k < i ==> Filled(s, inputs[k], slots[k], true)
      invariant forall k :: i <= k < |inputs| ==> slots[k] == None
      invariant forall k :: 0 <= k < i && inputs[k].PrevOut? ==>
                  IsPending(s, inputs[k]) || inputs[k].outpoint in utxos
    {
      if inputs[i].PrevOut? {
        var o := inputs[i].outpoint;
        if o !in s.known && s.isMempool && s.chain(o).Missing? {
          pending := pending + [(i, o)];
        } else {
          if o !in s.known && !s.chain(o).Found? {
            return false, utxos, pending;
          }
          var utxo := if o in s.known then s.known[o] else s.chain(o).utxo;
          slots[i] := Some(utxo.output);
          utxos := utxos[o := utxo];
        }
      }
    }
    ok := true;
  }

  lemma {:induction false} PendingMember(s: Sources, inputs: seq<Input>, n: nat, k: nat)
    requires n <= |inputs| && k < |PendingBelow(s, inputs, n)|
    ensures var (i, o) := PendingBelow(s, inputs, n)[k];
            i < n && inputs[i] == PrevOut(o) && IsPending(s, inputs[i])
  {
    if k < |PendingBelow(s, inputs, n - 1)| {
      PendingMember(s, inputs, n - 1, k);
    }
  }

  lemma {:induction false} PendingCovers(s: Sources, inputs: seq<Input>, n: nat, i: nat)
      returns (k: nat)
    requires i < n <= |inputs| && IsPending(s, inputs[i])
    ensures k < |PendingBelow(s, inputs, n)|
    ensures PendingBelow(s, inputs, n)[k] == (i, inputs[i].outpoint)
  {
    if i == n - 1 {
      k := |PendingBelow(s, inputs, n - 1)|;
    } else {
      k := PendingCovers(s, inputs, n - 1, i);
    }
  }

  ghost predicate AllPendingFound(s: Sources, pending: seq<(nat, OutPoint)>) {
    forall k :: 0 <= k < |pending| ==> Lookup(s, pending[k].1).Some?
  }

  /** The second pass: fills the slots that are left, from the mempool. */
  method SecondPass(
      s: Sources, inputs: seq<Input>, slots: array<Option<Output>>, pending: seq<(nat, OutPoint)>,
      found: map<OutPoint, Utxo>, mempool: OutPoint -> Option<Output>)
      returns (ok: bool, utxos: map<OutPoint, Utxo>)
    requires slots.Length == |inputs| && s.mempool == Some(mempool) && UtxosOk(s, found)
    requires pending == PendingBelow(s, inputs, |inputs|)
    requires forall i :: 0 <= i < |inputs| ==> Filled(s, inputs[i], slots[i], true)
    modifies slots
    ensures ok <==> AllPendingFound(s, pending)
    ensures ok ==> forall i :: 0 <= i < |inputs| ==> slots[i] == SlotOf(s, inputs[i])
    ensures ok ==> UtxosOk(s, utxos) && found.Keys <= utxos.Keys
    ensures ok ==> forall k :: 0 <= k < |pending| ==> pending[k].1 in utxos
  {
    utxos := found;
    for k := 0 to |pending|
      invariant UtxosOk(s, utxos) && found.Keys <= utxos.Keys
      invariant forall j :: 0 <= j < k ==> Lookup(s, pending[j].1).Some? && pending[j].1 in utxos
      invariant forall j :: 0 <= j < k ==>
                  pending[j].0 < |inputs| && slots[pending[j].0].Some?
      invariant forall i :: 0 <= i < |inputs| ==>
                  slots[i] == SlotOf(s, inputs[i]) || (slots[i].None? && IsPending(s, inputs[i]))
    {
      PendingMember(s, inputs, |inputs|, k);
      var (i, o) := pending[k];
      if mempool(o).None? {
        return false, utxos;
      }
      slots[i] := Some(mempool(o).value);
      utxos := utxos[o := Utxo(mempool(o).value, s.height, false)];
    }
    forall i | 0 <= i < |inputs|
      ensures slots[i] == SlotOf(s, inputs[i])
    {
      if IsPending(s, inputs[i]) {
        var k := PendingCovers(s, inputs, |inputs|, i);
      }
    }
    ok := true;
  }

  function Slots(s: Sources, inputs: seq<Input>): seq<Option<Output>> {
    seq(|inputs|, i requires 0 <= i < |inputs| => SlotOf(s, inputs[i]))
  }

  function Outpoints(pending: seq<(nat, OutPoint)>): seq<OutPoint> {
    seq(|pending|, k requires 0 <= k < |pending| => pending[k].1)
  }

  /** The outpoints that only the mempool can have, in the order of the inputs. */
  ghost function MempoolOnly(s: Sources, inputs: seq<Input>): seq<OutPoint> {
    if inputs == [] then []
    else
      var last := inputs[|inputs| - 1];
      MempoolOnly(s, inputs[..|inputs| - 1]) + if IsPending(s, last) then [last.outpoint] else []
  }

  lemma {:induction false} OutpointsInOrder(s: Sources, inputs: seq<Input>, n: nat)
    requires n <= |inputs|
    ensures Outpoints(PendingBelow(s, inputs, n)) == MempoolOnly(s, inputs[..n])
  {
    if n > 0 {
      OutpointsInOrder(s, inputs, n - 1);
      assert inputs[..n][..n - 1] == inputs[..n - 1];
    }
  }

  /** Every input that spends an output has it in the map. */
  ghost predicate Covers(utxos: map<OutPoint, Utxo>, inputs: seq<Input>) {
    forall i :: 0 <= i < |inputs| && inputs[i].PrevOut? ==> inputs[i].outpoint in utxos
  }

  lemma {:induction false} PendingFound(s: Sources, inputs: seq<Input>)
    requires forall i :: 0 <= i < |inputs| && inputs[i].PrevOut? ==>
               IsPending(s, inputs[i]) || Lookup(s, inputs[i].outpoint).Some?
    ensures AllPendingFound(s, PendingBelow(s, inputs, |inputs|)) <==> AllFound(s, inputs)
  {
    var pending := PendingBelow(s, inputs, |inputs|);
    if AllPendingFound(s, pending) {
      forall i | 0 <= i < |inputs| && inputs[i].PrevOut?
        ensures Lookup(s, inputs[i].outpoint).Some?
      {
        if IsPending(s, inputs[i]) {
          var k := PendingCovers(s, inputs, |inputs|, i);
          assert Lookup(s, pending[k].1).Some?;
        }
      }
    }
    if AllFound(s, inputs) {
      forall k | 0 <= k < |pending|
        ensures Lookup(s, pending[k].1).Some?
      {
        PendingMember(s, inputs, |inputs|, k);
      }
    }
  }

  lemma {:induction false} PendingCovered(
      s: Sources, inputs: seq<Input>, utxos: map<OutPoint, Utxo>, found: map<OutPoint, Utxo>)
    requires forall i :: 0 <= i < |inputs| && inputs[i].PrevOut? ==>
               IsPending(s, inputs[i]) || inputs[i].outpoint in found
    requires found.Keys <= utxos.Keys
    requires forall k :: 0 <= k < |PendingBelow(s, inputs, |inputs|)| ==>
               PendingBelow(s, inputs, |inputs|)[k].1 in utxos
    ensures Covers(utxos, inputs)
  {
    forall i | 0 <= i < |inputs| && inputs[i].PrevOut?
      ensures inputs[i].outpoint in utxos
    {
      if IsPending(s, inputs[i]) {
        var k := PendingCovers(s, inputs, |inputs|, i);
      } else {
        assert inputs[i].outpoint in found.Keys;
      }
    }
  }

  /**
   The outputs that a transaction spends: there is a result exactly if every one is found, in the
   block, in the chain or in the mempool, and the outputs are in the order of the inputs.
   */
  method SpentUtxos(s: Sources, inputs: seq<Input>) returns (r: Option<Spent>)
    ensures r.Some? <==> AllFound(s, inputs)
    ensures r.Some? ==>
              && UtxosOk(s, r.value.utxos) && Covers(r.value.utxos, inputs)
              && r.value.outputs == Flatten(Slots(s, inputs))
              && r.value.mempoolOutpoints == MempoolOnly(s, inputs)
  {
    var slots := new Option<Output>[|inputs|](_ => None);
    var ok, utxos, pending := FirstPass(s, inputs, slots);
    if !ok {
      return None;
    }
    PendingFound(s, inputs);
    if s.mempool.Some? {
      ghost var found := utxos;
      ok, utxos := SecondPass(s, inputs, slots, pending, utxos, s.mempool.value);
      if !ok {
        return None;
      }
      PendingCovered(s, inputs, utxos, found);
    } else if pending != [] {
      assert Lookup(s, pending[0].1).None? by {
        PendingMember(s, inputs, |inputs|, 0);
      }
      return None;
    }
    assert slots[..] == Slots(s, inputs);
    OutpointsInOrder(s, inputs, |inputs|);
    assert inputs[..|inputs|] == inputs;
    r := Some(Spent(utxos, Flatten(slots[..]), Outpoints(pending)));
  }

  // What the maturity check of coinbase outputs relies on.

  const MIN_TRANSPARENT_COINBASE_MATURITY := 100

  datatype SpendError =
    | ImmatureTransparentCoinbaseSpend(outpoint: OutPoint, minSpendHeight: nat, createdHeight: nat)
    | UnshieldedTransparentCoinbaseSpend(outpoint: OutPoint)

  datatype CoinbaseSpendRestriction = CheckCoinbaseMaturity(spendHeight: nat) | DisallowCoinbaseSpend

  function SpendRestriction(hasOutputs: bool, allowsUnshielded: bool, height: nat):
      CoinbaseSpendRestriction
  {
    if !hasOutputs || allowsUnshielded then CheckCoinbaseMaturity(height) else DisallowCoinbaseSpend
  }

  function TransparentCoinbaseSpend(o: OutPoint, restriction: CoinbaseSpendRestriction, utxo: Utxo):
      Option<SpendError>
  {
    if !utxo.fromCoinbase then None
    else
      match restriction
      case CheckCoinbaseMaturity(height) =>
        var min := utxo.height + MIN_TRANSPARENT_COINBASE_MATURITY;
        if height >= min then None
        else Some(ImmatureTransparentCoinbaseSpend(o, min, utxo.height))
      case DisallowCoinbaseSpend => Some(UnshieldedTransparentCoinbaseSpend(o))
  }

  /** The block at the height is on record as having the output in its coinbase transaction. */
  ghost predicate IsCoinbaseOf(s: Sources, o: OutPoint, height: nat) {
    exists output :: if o in s.known then s.known[o] == Utxo(output, height, true)
                     else s.chain(o) == Found(Utxo(output, height, true))
  }

  /** No block has the output in a coinbase transaction, or one has that allows this spend. */
  ghost predicate MaySpend(s: Sources, o: OutPoint, shields: bool) {
    forall height :: IsCoinbaseOf(s, o, height) ==> shields && s.height - height >= 100
  }

  /** The error says why the spend is not allowed. */
  ghost predicate IsRefused(s: Sources, o: OutPoint, shields: bool, e: SpendError) {
    match e
    case ImmatureTransparentCoinbaseSpend(outpoint, min, created) =>
      outpoint == o && shields && IsCoinbaseOf(s, o, created) && s.height < min == created + 100
    case UnshieldedTransparentCoinbaseSpend(outpoint) =>
      outpoint == o && !shields && exists height :: IsCoinbaseOf(s, o, height)
  }

  ghost predicate AllMaySpend(s: Sources, inputs: seq<Input>, shields: bool) {
    forall i :: 0 <= i < |inputs| && inputs[i].PrevOut? ==> MaySpend(s, inputs[i].outpoint, shields)
  }

  /** The input is the first that is refused, with the error. */
  ghost predicate FirstRefused(
      s: Sources, inputs: seq<Input>, shields: bool, i: nat, e: SpendError)
    requires i < |inputs|
  {
    && AllMaySpend(s, inputs[..i], shields)
    && inputs[i].PrevOut? && IsRefused(s, inputs[i].outpoint, shields, e)
  }

  lemma {:induction false} SpendExact(
      s: Sources, o: OutPoint, hasOutputs: bool, allowsUnshielded: bool, utxo: Utxo)
    requires Lookup(s, o) == Some(utxo)
    ensures var shields := !hasOutputs || allowsUnshielded;
            var r := TransparentCoinbaseSpend(
                o, SpendRestriction(hasOutputs, allowsUnshielded, s.height), utxo);
            && (r.None? <==> MaySpend(s, o, shields))
            && (r.Some? ==> IsRefused(s, o, shields, r.value))
  {
    if utxo.fromCoinbase {
      assert utxo == Utxo(utxo.output, utxo.height, true);
      assert IsCoinbaseOf(s, o, utxo.height);
    }
  }

  /**
   The maturity check, on the outputs that `SpentUtxos` found: it passes exactly if no input spends
   an output of a coinbase transaction that is less than 100 blocks old, or that is not shielded
   where it must be. Outputs that are in the mempool can be spent at once.
   */
  method CheckMaturity(
      s: Sources, inputs: seq<Input>, hasOutputs: bool, allowsUnshielded: bool,
      spent: map<OutPoint, Utxo>)
      returns (r: Option<SpendError>)
    requires UtxosOk(s, spent) && Covers(spent, inputs)
    ensures var shields := !hasOutputs || allowsUnshielded;
            && (r.None? <==> AllMaySpend(s, inputs, shields))
            && (r.Some? ==> exists i :: 0 <= i < |inputs| && FirstRefused(s, inputs, shields, i, r.value))
  {
    for i := 0 to |inputs|
      invariant AllMaySpend(s, inputs[..i], !hasOutputs || allowsUnshielded)
    {
      if inputs[i].PrevOut? {
        var o := inputs[i].outpoint;
        var utxo := if o in s.known then s.known[o] else spent[o];
        var restriction := SpendRestriction(hasOutputs, allowsUnshielded, s.height);
        SpendExact(s, o, hasOutputs, allowsUnshielded, utxo);
        r := TransparentCoinbaseSpend(o, restriction, utxo);
        if r.Some? {
          assert FirstRefused(s, inputs, !hasOutputs || allowsUnshielded, i, r.value);
          return;
        }
      }
    }
    assert inputs[..|inputs|] == inputs;
    r := None;
  }

  // What signature operation counting relies on.

  /** For inputs that all spend outputs, output `i` is the one that input `i` spends. */
  lemma {:induction false} OutputsAlign(s: Sources, inputs: seq<Input>)
    requires AllFound(s, inputs) && forall i :: 0 <= i < |inputs| ==> inputs[i].PrevOut?
    ensures |Flatten(Slots(s, inputs))| == |inputs|
    ensures forall i :: 0 <= i < |inputs| ==>
              Flatten(Slots(s, inputs))[i] == Lookup(s, inputs[i].outpoint).value.output
  {
    FlattenFull(Slots(s, inputs));
  }

  /** The count over pairs of inputs and outputs, which stops at the shorter of the two. */
  function ZipCount(count: (Input, Output) -> nat, inputs: seq<Input>, outputs: seq<Output>): nat {
    if inputs == [] || outputs == [] then 0
    else count(inputs[0], outputs[0]) + ZipCount(count, inputs[1..], outputs[1..])
  }

  /** The count over all inputs, each with the output that it spends. */
  function FullCount(count: (Input, Output) -> nat, s: Sources, inputs: seq<Input>): nat
    requires AllFound(s, inputs) && forall i :: 0 <= i < |inputs| ==> inputs[i].PrevOut?
  {
    if inputs == [] then 0
    else
      count(inputs[0], Lookup(s, inputs[0].outpoint).value.output) +
      FullCount(count, s, inputs[1..])
  }

  lemma {:induction false} ZipCountsAll(
      count: (Input, Output) -> nat, s: Sources, inputs: seq<Input>, outputs: seq<Output>)
    requires AllFound(s, inputs) && forall i :: 0 <= i < |inputs| ==> inputs[i].PrevOut?
    requires |outputs| == |inputs|
    requires forall i :: 0 <= i < |inputs| ==>
               outputs[i] == Lookup(s, inputs[i].outpoint).value.output
    ensures ZipCount(count, inputs, outputs) == FullCount(count, s, inputs)
  {
    if inputs != [] {
      ZipCountsAll(count, s, inputs[1..], outputs[1..]);
    }
  }

  /** Counting over the outputs found leaves out no input. */
  lemma {:induction false} SigopsCountEveryInput(
      count: (Input, Output) -> nat, s: Sources, inputs: seq<Input>)
    requires AllFound(s, inputs) && forall i :: 0 <= i < |inputs| ==> inputs[i].PrevOut?
    ensures ZipCount(count, inputs, Flatten(Slots(s, inputs))) == FullCount(count, s, inputs)
  {
    OutputsAlign(s, inputs);
    ZipCountsAll(count, s, inputs, Flatten(Slots(s, inputs)));
  }
}

/** Amounts of money in a constrained range, and their sums. */
module Amounts {
  import opened Options

  /** 21 million coins of 100 million zatoshis each. */
  const MAX_MONEY: int := 2_100_000_000_000_000
  const I64_MAX: int := 0x7FFF_FFFF_FFFF_FFFF

  /** The range that an amount has to stay in. */
  datatype Constraint = NegativeAllowed | NonNegative | NegativeOrZero

  predicate InRange(c: Constraint, value: int) {
    match c
    case NegativeAllowed => -MAX_MONEY <= value <= MAX_MONEY
    case NonNegative => 0 <= value <= MAX_MONEY
    case NegativeOrZero => -MAX_MONEY <= value <= 0
  }

  datatype AmountError =
    | OutOfRange(value: int, range: Constraint)
    | SumOverflow(partialSum: int, remainingItems: nat)

  datatype Result<+T, +E> = Ok(value: T) | Err(error: E)

  type Checked = Result<int, AmountError>

  function Validate(c: Constraint, value: int): Checked {
    if InRange(c, value) then Ok(value) else Err(OutOfRange(value, c))
  }

  /** Sums and differences of amounts never leave the range of the machine integers. */
  function Add(c: Constraint, a: int, b: int): Checked
    requires InRange(c, a) && InRange(c, b)
  {
    assert -I64_MAX <= a + b <= I64_MAX;
    Validate(c, a + b)
  }

  function Sub(c: Constraint, a: int, b: int): Checked
    requires InRange(c, a) && InRange(c, b)
  {
    assert -I64_MAX <= a - b <= I64_MAX;
    Validate(c, a - b)
  }

  predicate AllInRange(c: Constraint, items: seq<int>) {
    forall i :: 0 <= i < |items| ==> InRange(c, items[i])
  }

  /** Adds to the fold's sum until that leaves the range; what is left of the items comes back too. */
  function TryFold(c: Constraint, sum: int, items: seq<int>): (r: (Checked, seq<int>))
    requires InRange(c, sum) && AllInRange(c, items)
    decreases |items|
  {
    if items == [] then (Ok(sum), [])
    else
      match Add(c, sum, items[0])
      case Ok(next) => TryFold(c, next, items[1..])
      case Err(e) => (Err(e), items[1..])
  }

  function Sum(c: Constraint, items: seq<int>): Checked
    requires AllInRange(c, items)
  {
    var (sum, rest) := TryFold(c, 0, items);
    match sum
    case Ok(value) => Ok(value)
    case Err(OutOfRange(value, _)) => Err(SumOverflow(value, |rest|))
    case Err(e) => Err(e)
  }

  // What a sum means.

  function Total(items: seq<int>): int {
    if items == [] then 0 else items[0] + Total(items[1..])
  }

  lemma {:induction false} TotalOne(items: seq<int>)
    requires |items| == 1
    ensures Total(items) == items[0]
  {
    assert items[1..] == [];
  }

  lemma {:induction false} TotalAppend(a: seq<int>, b: seq<int>)
    ensures Total(a + b) == Total(a) + Total(b)
  {
    if a == [] {
      assert a + b == b;
    } else {
      assert (a + b)[1..] == a[1..] + b;
      TotalAppend(a[1..], b);
    }
  }

  ghost predicate PrefixInRange(c: Constraint, start: int, items: seq<int>, k: nat)
    requires k <= |items|
  {
    InRange(c, start + Total(items[..k]))
  }

  /** The first `k` prefixes stay in range. */
  ghost predicate PrefixesInRange(c: Constraint, start: int, items: seq<int>, k: nat)
    requires k <= |items|
  {
    forall j: nat :: j <= k ==> PrefixInRange(c, start, items, j)
  }

  lemma {:induction false} HeadOfPrefix(items: seq<int>, j: nat)
    requires j < |items|
    ensures Total(items[..j + 1]) == items[0] + Total(items[1..][..j])
  {
    assert items[..j + 1][1..] == items[1..][..j];
  }

  /** Taking the first item into the start shifts the prefixes by one. */
  lemma {:induction false} ShiftPrefixes(c: Constraint, start: int, items: seq<int>, k: nat)
    requires items != [] && k < |items| && InRange(c, start)
    requires PrefixesInRange(c, start + items[0], items[1..], k)
    ensures PrefixesInRange(c, start, items, k + 1)
  {
    forall j: nat | j <= k + 1
      ensures PrefixInRange(c, start, items, j)
    {
      if j == 0 {
        assert items[..0] == [];
      } else {
        assert PrefixInRange(c, start + items[0], items[1..], j - 1);
        HeadOfPrefix(items, j - 1);
      }
    }
  }

  /** The fold gives the exact sum if every prefix is in range, else it stops at the first not. */
  lemma {:induction false} FoldExact(c: Constraint, start: int, items: seq<int>)
    requires InRange(c, start) && AllInRange(c, items)
    ensures var (sum, rest) := TryFold(c, start, items);
            match sum
            case Ok(v) => v == start + Total(items) && PrefixesInRange(c, start, items, |items|)
            case Err(OutOfRange(v, _)) =>
              && |rest| < |items| && !InRange(c, v)
              && v == start + Total(items[..|items| - |rest|])
              && PrefixesInRange(c, start, items, |items| - |rest| - 1)
            case Err(_) => false
    decreases |items|
  {
    if items == [] {
      assert items[..0] == [];
    } else if InRange(c, start + items[0]) {
      FoldExact(c, start + items[0], items[1..]);
      var (sum, rest) := TryFold(c, start + items[0], items[1..]);
      assert items[1..][..|items| - 1] == items[1..] && items[..|items|] == items;
      if sum.Ok? {
        ShiftPrefixes(c, start, items, |items| - 1);
      } else {
        HeadOfPrefix(items, |items| - 1 - |rest|);
        ShiftPrefixes(c, start, items, |items| - 2 - |rest|);
      }
    } else {
      assert items[..1] == [items[0]] && items[..0] == [];
      assert Total(items[..1]) == items[0];
    }
  }

  /**
   A sum is Ok exactly if every prefix sum is in range, and then it is exact; otherwise the error
   reports the first prefix that is not, and how many items come after it.
   */
  lemma {:induction false} SumExact(c: Constraint, items: seq<int>)
    requires AllInRange(c, items)
    ensures match Sum(c, items)
            case Ok(v) => v == Total(items) && PrefixesInRange(c, 0, items, |items|)
            case Err(SumOverflow(v, remaining)) =>
              && remaining < |items| && !InRange(c, v)
              && v == Total(items[..|items| - remaining])
              && PrefixesInRange(c, 0, items, |items| - remaining - 1)
            case Err(_) => false
    ensures Sum(c, items).Ok? <==> PrefixesInRange(c, 0, items, |items|)
  {
    FoldExact(c, 0, items);
    var (sum, rest) := TryFold(c, 0, items);
    if sum.Err? {
      assert !PrefixInRange(c, 0, items, |items| - |rest|);
    }
  }

  // Sums of non-negative amounts do not depend on their order.

  lemma {:induction false} TotalNonNegative(items: seq<int>, k: nat)
    requires AllInRange(NonNegative, items) && k <= |items|
    ensures 0 <= Total(items[..k]) <= Total(items)
    decreases |items|
  {
    if items == [] {
      assert items[..k] == [];
    } else if k == 0 {
      assert items[..0] == [];
      TotalNonNegative(items[1..], 0);
      assert items[1..][..0] == [];
    } else {
      TotalNonNegative(items[1..], k - 1);
      assert items[..k][1..] == items[1..][..k - 1];
    }
  }

  /** For non-negative amounts the total alone decides. */
  lemma {:induction false} SumNonNegative(items: seq<int>)
    requires AllInRange(NonNegative, items)
    ensures Sum(NonNegative, items).Ok? <==> Total(items) <= MAX_MONEY
    ensures Sum(NonNegative, items).Ok? ==> Sum(NonNegative, items) == Ok(Total(items))
  {
    SumExact(NonNegative, items);
    forall k: nat | k <= |items|
      ensures PrefixInRange(NonNegative, 0, items, k) || Total(items) > MAX_MONEY
    {
      TotalNonNegative(items, k);
    }
    if PrefixesInRange(NonNegative, 0, items, |items|) {
      assert PrefixInRange(NonNegative, 0, items, |items|);
      assert items[..|items|] == items;
    }
  }

  lemma {:induction false} TotalRemove(items: seq<int>, i: nat)
    requires i < |items|
    ensures Total(items) == items[i] + Total(items[..i] + items[i + 1..])
  {
    TotalAppend(items[..i], items[i..]);
    TotalAppend(items[..i], items[i + 1..]);
    assert items == items[..i] + items[i..];
  }

  /** A permutation stays one when its first item is taken out of both sides. */
  lemma {:induction false} TakeFirst<T>(a: seq<T>, b: seq<T>) returns (i: nat)
    requires multiset(a) == multiset(b) && a != []
    ensures i < |b| && b[i] == a[0]
    ensures multiset(a[1..]) == multiset(b[..i] + b[i + 1..])
  {
    i := Find(b, a[0]);
    RemoveOne(b, i);
    RemoveFirst(a);
  }

  lemma {:induction false} Find<T>(s: seq<T>, x: T) returns (i: nat)
    requires x in multiset(s)
    ensures i < |s| && s[i] == x
  {
    i :| 0 <= i < |s| && s[i] == x;
  }

  lemma {:induction false} RemoveFirst<T>(s: seq<T>)
    requires s != []
    ensures multiset(s[1..]) == multiset(s) - multiset{s[0]}
  {
    assert s == [s[0]] + s[1..];
  }

  lemma {:induction false} RemoveOne<T>(s: seq<T>, i: nat)
    requires i < |s|
    ensures multiset(s[..i] + s[i + 1..]) == multiset(s) - multiset{s[i]}
  {
    assert s == s[..i] + ([s[i]] + s[i + 1..]);
  }

  lemma {:induction false} TotalPermuted(a: seq<int>, b: seq<int>)
    requires multiset(a) == multiset(b)
    ensures Total(a) == Total(b)
    decreases |a|
  {
    if a == [] {
      assert |multiset(a)| == |multiset(b)|;
    } else {
      var i := TakeFirst(a, b);
      TotalRemove(b, i);
      TotalPermuted(a[1..], b[..i] + b[i + 1..]);
    }
  }

  /** The verdict and the value of a sum of non-negative amounts are those of any other order. */
  lemma {:induction false} SumPermuted(a: seq<int>, b: seq<int>)
    requires AllInRange(NonNegative, a) && AllInRange(NonNegative, b) && multiset(a) == multiset(b)
    ensures Sum(NonNegative, a).Ok? <==> Sum(NonNegative, b).Ok?
    ensures Sum(NonNegative, a).Ok? ==> Sum(NonNegative, a) == Sum(NonNegative, b)
  {
    TotalPermuted(a, b);
    SumNonNegative(a);
    SumNonNegative(b);
  }

  /** With amounts of both signs the order matters: only one of these two sums is Ok. */
  lemma {:induction false} SignedSumDependsOnOrder()
    ensures Sum(NegativeAllowed, [MAX_MONEY, MAX_MONEY, -MAX_MONEY]).Err?
    ensures Sum(NegativeAllowed, [MAX_MONEY, -MAX_MONEY, MAX_MONEY]) == Ok(MAX_MONEY)
  {
    var a, b := [MAX_MONEY, MAX_MONEY, -MAX_MONEY], [MAX_MONEY, -MAX_MONEY, MAX_MONEY];
    assert TryFold(NegativeAllowed, MAX_MONEY, a[1..]).0.Err?;
    assert b[1..] == [-MAX_MONEY, MAX_MONEY] && b[1..][1..] == [MAX_MONEY];
    assert TryFold(NegativeAllowed, 0, [MAX_MONEY]) == TryFold(NegativeAllowed, MAX_MONEY, []);
    assert TryFold(NegativeAllowed, MAX_MONEY, b[1..]) == TryFold(NegativeAllowed, 0, [MAX_MONEY]);
  }

  // Miner fees.

  /** What a transaction's response adds to the fees of its block: a coinbase has no fee. */
  function Charge(response: Option<int>): int {
    if response.Some? then response.value else 0
  }

  function Charges(responses: seq<Option<int>>): seq<int> {
    seq(|responses|, i requires 0 <= i < |responses| => Charge(responses[i]))
  }

  ghost predicate FeesInRange(responses: seq<Option<int>>) {
    forall i :: 0 <= i < |responses| && responses[i].Some? ==>
      InRange(NonNegative, responses[i].value)
  }

  /** The fees of a block, summed as its transactions finish; an overflow sticks. */
  method SumMinerFees(responses: seq<Option<int>>) returns (fees: Checked)
    requires FeesInRange(responses)
    ensures fees.Ok? <==> Total(Charges(responses)) <= MAX_MONEY
    ensures fees.Ok? ==> fees.value == Total(Charges(responses))
  {
    fees := Ok(0);
    for i := 0 to |responses|
      invariant fees.Ok? ==> fees.value == Total(Charges(responses)[..i])
      invariant fees.Ok? ==> InRange(NonNegative, fees.value)
      invariant fees.Err? ==> Total(Charges(responses)) > MAX_MONEY
    {
      TotalStep(Charges(responses), i);
      TotalNonNegative(Charges(responses), i + 1);
      if responses[i].Some? && fees.Ok? {
        fees := Add(NonNegative, fees.value, responses[i].value);
      }
    }
    assert Charges(responses)[..|responses|] == Charges(responses);
  }

  lemma {:induction false} TotalStep(items: seq<int>, i: nat)
    requires i < |items|
    ensures Total(items[..i + 1]) == Total(items[..i]) + items[i]
  {
    assert items[..i + 1] == items[..i] + [items[i]];
    TotalAppend(items[..i], [items[i]]);
  }

  /** The fees of a block do not depend on the order in which its transactions finish. */
  lemma {:induction false} FeesPermuted(a: seq<Option<int>>, b: seq<Option<int>>)
    requires multiset(a) == multiset(b)
    ensures Total(Charges(a)) == Total(Charges(b))
    decreases |a|
  {
    if a == [] {
      assert |multiset(a)| == |multiset(b)|;
    } else {
      var i := TakeFirst(a, b);
      var rest := b[..i] + b[i + 1..];
      FeesPermuted(a[1..], rest);
      TotalRemove(Charges(b), i);
      assert Charges(rest) == Charges(b)[..i] + Charges(b)[i + 1..];
      assert Charges(a)[1..] == Charges(a[1..]);
    }
  }
}

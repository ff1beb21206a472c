/** The root that joins the peaks of a mountain range, and what it commits to. */
module MountainRoots {
  import opened MountainRange

  /** The left fold that joins the peaks under one root. */
  function Bag<L>(es: seq<Entry<L>>): Entry<L>
    requires es != []
  {
    if |es| == 1 then es[0] else Node(Bag(es[..|es| - 1]), es[|es| - 1])
  }

  /** The leaf data under an entry, left to right. */
  function Flat<L>(e: Entry<L>): (data: seq<L>)
    ensures |data| == LeafCount(e)
  {
    match e
    case Leaf(x) => [x]
    case Node(l, r) => Flat(l) + Flat(r)
  }

  /** The lowest set bit of a number. */
  function LowBit(n: nat): (b: nat)
    requires n > 0
    ensures 0 < b <= n
  {
    if n % 2 == 1 then 1 else 2 * LowBit(n / 2)
  }

  lemma {:induction false} LowBitTop(n: nat, k: nat)
    requires n < Pow2(k)
    ensures LowBit(n + Pow2(k)) == if n == 0 then Pow2(k) else LowBit(n)
    decreases k
  {
    if k > 0 {
      LowBitTop(n / 2, k - 1);
      assert (n + Pow2(k)) / 2 == n / 2 + Pow2(k - 1);
    }
  }

  /** Both halves of a perfect tree are perfect, and hold half of the leaves each, in order. */
  ghost predicate IsPerfect<L>(e: Entry<L>, leaves: seq<L>)
    requires leaves != []
    decreases |leaves|
  {
    var half := |leaves| / 2;
    if |leaves| == 1 then e == Leaf(leaves[0])
    else
      && e.Node? && |leaves| == 2 * half
      && IsPerfect(e.left, leaves[..half]) && IsPerfect(e.right, leaves[half..])
  }

  /**
   The root over some leaves, from scratch: a perfect tree if their number is a power of two;
   otherwise its right half is the perfect tree over the last of them, as many as the lowest set bit
   of their number says, and its left half is the root over the others.
   */
  ghost predicate IsRoot<L>(root: Entry<L>, leaves: seq<L>)
    requires leaves != []
    decreases |leaves|
  {
    var cut := |leaves| - LowBit(|leaves|);
    if cut == 0 then IsPerfect(root, leaves)
    else
      && root.Node? && IsRoot(root.left, leaves[..cut]) && IsPerfect(root.right, leaves[cut..])
  }

  /** The root commits to exactly the leaves, in order. */
  lemma {:induction false} RootIsFlat<L>(root: Entry<L>, leaves: seq<L>)
    requires leaves != []
    ensures IsPerfect(root, leaves) ==> Flat(root) == leaves
    ensures IsRoot(root, leaves) ==> Flat(root) == leaves
    decreases |leaves|
  {
    var half, cut := |leaves| / 2, |leaves| - LowBit(|leaves|);
    if |leaves| > 1 && root.Node? {
      RootIsFlat(root.left, leaves[..half]);
      RootIsFlat(root.right, leaves[half..]);
      if cut > 0 {
        RootIsFlat(root.left, leaves[..cut]);
        RootIsFlat(root.right, leaves[cut..]);
      }
    }
  }

  lemma {:induction false} JoinIsPerfect<L>(l: Entry<L>, r: Entry<L>, leaves: seq<L>, half: nat)
    requires 0 < half && |leaves| == 2 * half
    requires IsPerfect(l, leaves[..half]) && IsPerfect(r, leaves[half..])
    ensures IsPerfect(Node(l, r), leaves)
  {
    assert |leaves| / 2 == half;
  }

  lemma {:induction false} PerfectIs<L>(leaves: seq<L>, k: nat)
    requires |leaves| == Pow2(k)
    ensures IsPerfect(Perfect(leaves, k), leaves)
    decreases k
  {
    if k > 0 {
      var half := Pow2(k - 1);
      var left, right := leaves[..half], leaves[half..];
      PerfectIs(left, k - 1);
      PerfectIs(right, k - 1);
      JoinIsPerfect(Perfect(left, k - 1), Perfect(right, k - 1), leaves, half);
    }
  }

  /** The last peak is perfect over the leaves from `cut` on, and the others are the peaks before. */
  ghost predicate LastFrom<L>(leaves: seq<L>, k: nat, cut: nat)
    requires |leaves| < Pow2(k) && cut < |leaves|
  {
    var peaks, init := PeaksBelow(leaves, k), PeaksBelow(leaves[..cut], k);
    && |peaks| == |init| + 1 && peaks[..|init|] == init
    && IsPerfect(peaks[|init|], leaves[cut..])
  }

  /** The rightmost mountain covers as many leaves as the lowest set bit of their number. */
  lemma {:induction false} LastPeak<L>(leaves: seq<L>, k: nat, cut: nat)
    requires 0 < |leaves| < Pow2(k) && cut == |leaves| - LowBit(|leaves|)
    ensures LastFrom(leaves, k, cut)
    decreases k
  {
    var half := Pow2(k - 1);
    if |leaves| < half {
      LastPeak(leaves, k - 1, cut);
    } else {
      var left, rest := leaves[..half], leaves[half..];
      LowBitTop(|rest|, k - 1);
      if rest == [] {
        OnlyPeak(leaves, k);
      } else {
        LastPeak(rest, k - 1, cut - half);
        LastPeakWithBit(leaves, k, cut, left, rest);
      }
    }
  }

  lemma {:induction false} OnlyPeak<L>(leaves: seq<L>, k: nat)
    requires k > 0 && |leaves| == Pow2(k - 1)
    ensures LastFrom(leaves, k, 0)
  {
    EmptyRange<L>(k);
    EmptyRange<L>(k - 1);
    PerfectIs(leaves, k - 1);
    SplitAtBit(leaves, k, leaves, [], Perfect(leaves, k - 1));
    assert leaves[0..] == leaves && leaves[..0] == [];
  }

  lemma {:induction false} LastPeakWithBit<L>(
      leaves: seq<L>, k: nat, cut: nat, left: seq<L>, rest: seq<L>)
    requires k > 0 && leaves == left + rest && |left| == Pow2(k - 1) && 0 < |rest| < Pow2(k - 1)
    requires |left| <= cut < |leaves| && LastFrom(rest, k - 1, cut - |left|)
    ensures LastFrom(leaves, k, cut)
  {
    var first, some := Perfect(left, k - 1), rest[..cut - |left|];
    SplitAtBit(leaves, k, left, rest, first);
    assert leaves[..cut] == left + some && leaves[cut..] == rest[cut - |left|..];
    SplitAtBit(leaves[..cut], k, left, some, first);
  }

  /** Joining the peaks gives the root over all the leaves. */
  lemma {:induction false} BagIsRoot<L>(leaves: seq<L>, k: nat)
    requires 0 < |leaves| < Pow2(k)
    ensures PeaksBelow(leaves, k) != [] && IsRoot(Bag(PeaksBelow(leaves, k)), leaves)
    decreases |leaves|
  {
    var cut := |leaves| - LowBit(|leaves|);
    LastPeak(leaves, k, cut);
    if cut == 0 {
      EmptyRange<L>(k);
      assert leaves[..cut] == [] && leaves[cut..] == leaves;
    } else {
      BagIsRoot(leaves[..cut], k);
    }
  }
}

/**
 The Merkle mountain range of ZIP-221, defined from scratch over a whole sequence of leaves, and
 the incremental append that must agree with it. Node data is kept symbolic: an entry is the term
 that built it, so two equal entries have equal data under every combining function.
 */
module MountainRange {

  function Pow2(k: nat): (p: nat)
    ensures p > 0
  {
    if k == 0 then 1 else 2 * Pow2(k - 1)
  }

  /** The number of binary digits of `n`. */
  function BitLength(n: nat): (k: nat)
    ensures n < Pow2(k)
    ensures n > 0 ==> k > 0 && Pow2(k - 1) <= n
  {
    if n == 0 then 0 else 1 + BitLength(n / 2)
  }

  function Popcount(n: nat): (c: nat)
    ensures c <= n
  {
    if n == 0 then 0 else n % 2 + Popcount(n / 2)
  }

  function TrailingOnes(n: nat): nat {
    if n % 2 == 0 then 0 else 1 + TrailingOnes(n / 2)
  }

  lemma {:induction false} Pow2Monotone(a: nat, b: nat)
    requires a <= b
    ensures Pow2(a) <= Pow2(b)
    decreases b
  {
    if a < b {
      Pow2Monotone(a, b - 1);
    }
  }

  lemma {:induction false} BitLengthUnique(n: nat, k: nat)
    requires Pow2(k) <= n < Pow2(k + 1)
    ensures BitLength(n) == k + 1
  {
    var b := BitLength(n);
    if b <= k {
      Pow2Monotone(b, k);
    } else if k + 1 < b {
      Pow2Monotone(k + 1, b - 1);
    }
  }

  /** Clearing the highest set bit removes one from the population count. */
  lemma {:induction false} PopcountTop(n: nat, k: nat)
    requires n < Pow2(k)
    ensures Popcount(n + Pow2(k)) == Popcount(n) + 1
    decreases k
  {
    if k > 0 {
      PopcountTop(n / 2, k - 1);
      assert (n + Pow2(k)) / 2 == n / 2 + Pow2(k - 1);
    }
  }

  /** Clearing the highest set bit keeps the trailing ones, unless every lower bit is set. */
  lemma {:induction false} TrailingOnesTop(n: nat, k: nat)
    requires n < Pow2(k)
    ensures TrailingOnes(n + Pow2(k)) == TrailingOnes(n) + (if n + 1 == Pow2(k) then 1 else 0)
    decreases k
  {
    if k > 0 {
      TrailingOnesTop(n / 2, k - 1);
      assert (n + Pow2(k)) / 2 == n / 2 + Pow2(k - 1);
    }
  }

  datatype Entry<L> = Leaf(data: L) | Node(left: Entry<L>, right: Entry<L>)

  function LeafCount<L>(e: Entry<L>): (n: nat)
    ensures n > 0
  {
    match e
    case Leaf(_) => 1
    case Node(l, r) => LeafCount(l) + LeafCount(r)
  }

  /** The perfect binary tree over `2^k` leaves. */
  function Perfect<L>(leaves: seq<L>, k: nat): (e: Entry<L>)
    requires |leaves| == Pow2(k)
    ensures LeafCount(e) == Pow2(k)
    decreases k
  {
    if k == 0 then Leaf(leaves[0])
    else Node(Perfect(leaves[..Pow2(k - 1)], k - 1), Perfect(leaves[Pow2(k - 1)..], k - 1))
  }

  /**
   The mountains over fewer than `2^k` leaves, left to right: one of altitude `j` for every set
   bit `j` of the number of leaves, the highest bit first.
   */
  function PeaksBelow<L>(leaves: seq<L>, k: nat): seq<Entry<L>>
    requires |leaves| < Pow2(k)
    decreases k
  {
    if k == 0 then []
    else
      var half := Pow2(k - 1);
      if |leaves| < half then PeaksBelow(leaves, k - 1)
      else [Perfect(leaves[..half], k - 1)] + PeaksBelow(leaves[half..], k - 1)
  }

  function Peaks<L>(leaves: seq<L>): seq<Entry<L>> {
    PeaksBelow(leaves, BitLength(|leaves|))
  }

  /** Where the peaks of `n < 2^k` leaves sit in an array of nodes that starts at `base`. */
  function PositionsBelow(n: nat, k: nat, base: nat): seq<nat>
    requires n < Pow2(k)
    decreases k
  {
    if k == 0 then []
    else
      var half := Pow2(k - 1);
      if n < half then PositionsBelow(n, k - 1, base)
      else [base + 2 * half - 2] + PositionsBelow(n - half, k - 1, base + 2 * half - 1)
  }

  function Positions(n: nat): seq<nat> {
    PositionsBelow(n, BitLength(n), 0)
  }

  /** The number of nodes in the mountain range over `n` leaves. */
  function Size(n: nat): nat {
    2 * n - Popcount(n)
  }

  lemma {:induction false} SizeTop(n: nat, k: nat)
    requires Pow2(k) <= n < 2 * Pow2(k)
    ensures Size(n) == 2 * Pow2(k) - 1 + Size(n - Pow2(k))
  {
    PopcountTop(n - Pow2(k), k);
  }

  /** A range of fewer than `2^k` leaves ends before the peak of a mountain of altitude `k`. */
  lemma {:induction false} SizeBound(n: nat, k: nat)
    ensures n < Pow2(k) ==> Size(n) <= 2 * Pow2(k) - 2
    ensures n >= Pow2(k) ==> Size(n) >= 2 * Pow2(k) - 1
  {
    if n > Pow2(k) {
      SizeBound(n - 1, k);
      PopcountSuccessor(n - 1);
    } else if n == Pow2(k) {
      PopcountTop(0, k);
    }
  }

  lemma {:induction false} PopcountSuccessor(n: nat)
    ensures Popcount(n + 1) + TrailingOnes(n) == Popcount(n) + 1
  {
    if n % 2 == 1 {
      PopcountSuccessor(n / 2);
      assert (n + 1) / 2 == n / 2 + 1;
    }
  }

  /** The array form of one mountain: left subtree, right subtree, then the node itself. */
  function PostOrder<L>(e: Entry<L>): (s: seq<Entry<L>>)
    ensures |s| == 2 * LeafCount(e) - 1 && s[|s| - 1] == e
  {
    match e
    case Leaf(_) => [e]
    case Node(l, r) => PostOrder(l) + PostOrder(r) + [e]
  }

  /** The array form of the whole range: the mountains one after the other. */
  function NodesBelow<L>(leaves: seq<L>, k: nat): seq<Entry<L>>
    requires |leaves| < Pow2(k)
    decreases k
  {
    if k == 0 then []
    else
      var half := Pow2(k - 1);
      if |leaves| < half then NodesBelow(leaves, k - 1)
      else PostOrder(Perfect(leaves[..half], k - 1)) + NodesBelow(leaves[half..], k - 1)
  }

  function AllNodes<L>(leaves: seq<L>): seq<Entry<L>> {
    NodesBelow(leaves, BitLength(|leaves|))
  }

  /** Only the set bits count: looking at more binary digits changes nothing. */
  lemma {:induction false} Widen<L>(leaves: seq<L>, k: nat)
    requires BitLength(|leaves|) <= k
    ensures |leaves| < Pow2(k)
    ensures PeaksBelow(leaves, k) == Peaks(leaves)
    ensures NodesBelow(leaves, k) == AllNodes(leaves)
    decreases k
  {
    Pow2Monotone(BitLength(|leaves|), k);
    if BitLength(|leaves|) < k {
      Widen(leaves, k - 1);
    }
  }

  lemma {:induction false} WidenPositions(n: nat, k: nat)
    requires BitLength(n) <= k
    ensures n < Pow2(k) && PositionsBelow(n, k, 0) == Positions(n)
    decreases k
  {
    Pow2Monotone(BitLength(n), k);
    if BitLength(n) < k {
      WidenPositions(n, k - 1);
    }
  }

  lemma {:induction false} NodesBelowSize<L>(leaves: seq<L>, k: nat)
    requires |leaves| < Pow2(k)
    ensures |NodesBelow(leaves, k)| == Size(|leaves|)
    decreases k
  {
    if k > 0 {
      var half := Pow2(k - 1);
      if |leaves| < half {
        NodesBelowSize(leaves, k - 1);
      } else {
        NodesBelowSize(leaves[half..], k - 1);
        SizeTop(|leaves|, k - 1);
      }
    }
  }

  /** There is one peak, at one position, for every set bit of the number of leaves. */
  lemma {:induction false} PeakCount<L>(leaves: seq<L>, k: nat, base: nat)
    requires |leaves| < Pow2(k)
    ensures |PeaksBelow(leaves, k)| == |PositionsBelow(|leaves|, k, base)| == Popcount(|leaves|)
    decreases k
  {
    if k > 0 {
      var half := Pow2(k - 1);
      if |leaves| < half {
        PeakCount(leaves, k - 1, base);
      } else {
        PeakCount(leaves[half..], k - 1, base + 2 * half - 1);
        PopcountTop(|leaves| - half, k - 1);
      }
    }
  }

  /** The peaks sit at ascending positions of the array of all nodes that starts at `base`. */
  ghost predicate LaidOut<L>(
      peaks: seq<Entry<L>>, nodes: seq<Entry<L>>, positions: seq<nat>, base: nat)
  {
    && |peaks| == |positions|
    && (forall i :: 0 <= i < |peaks| ==> base <= positions[i] < base + |nodes|)
    && (forall i, j :: 0 <= i < j < |positions| ==> positions[i] < positions[j])
    && (forall i :: 0 <= i < |peaks| ==> nodes[positions[i] - base] == peaks[i])
  }

  lemma {:induction false} LaidOutAfter<L>(
      first: Entry<L>, peaks: seq<Entry<L>>, nodes: seq<Entry<L>>, positions: seq<nat>, base: nat)
    requires LaidOut(peaks, nodes, positions, base + 2 * LeafCount(first) - 1)
    ensures LaidOut([first] + peaks, PostOrder(first) + nodes,
                    [base + 2 * LeafCount(first) - 2] + positions, base)
  {
  }

  lemma {:induction false} PeaksLaidOut<L>(leaves: seq<L>, k: nat, base: nat)
    requires |leaves| < Pow2(k)
    ensures LaidOut(PeaksBelow(leaves, k), NodesBelow(leaves, k),
                    PositionsBelow(|leaves|, k, base), base)
    decreases k
  {
    if k > 0 {
      var half := Pow2(k - 1);
      if |leaves| < half {
        PeaksLaidOut(leaves, k - 1, base);
      } else {
        PeaksLaidOut(leaves[half..], k - 1, base + 2 * half - 1);
        PeaksLaidOutWithBit(leaves, k, base, leaves[..half], leaves[half..]);
      }
    }
  }

  lemma {:induction false} PeaksLaidOutWithBit<L>(
      leaves: seq<L>, k: nat, base: nat, left: seq<L>, rest: seq<L>)
    requires k > 0 && leaves == left + rest && |left| == Pow2(k - 1) && |rest| < Pow2(k - 1)
    requires LaidOut(PeaksBelow(rest, k - 1), NodesBelow(rest, k - 1),
                     PositionsBelow(|rest|, k - 1, base + 2 * |left| - 1), base + 2 * |left| - 1)
    ensures LaidOut(PeaksBelow(leaves, k), NodesBelow(leaves, k),
                    PositionsBelow(|leaves|, k, base), base)
  {
    var first := Perfect(left, k - 1);
    var positions := PositionsBelow(|rest|, k - 1, base + 2 * |left| - 1);
    LaidOutAfter(first, PeaksBelow(rest, k - 1), NodesBelow(rest, k - 1), positions, base);
    SplitAtBit(leaves, k, left, rest, first);
    SplitPositions(|leaves|, k, base, |left|, |rest|);
    assert [base + 2 * LeafCount(first) - 2] + positions == PositionsBelow(|leaves|, k, base);
  }

  lemma {:induction false} SplitPositions(n: nat, k: nat, base: nat, half: nat, rest: nat)
    requires k > 0 && half == Pow2(k - 1) && rest < half && n == half + rest
    ensures PositionsBelow(n, k, base)
         == [base + 2 * half - 2] + PositionsBelow(rest, k - 1, base + 2 * half - 1)
  {
    assert n - half == rest;
  }

  /** `after` is `before` with its last `t` elements replaced by `x`. */
  ghost predicate Merges<T>(before: seq<T>, t: nat, x: T, after: seq<T>) {
    t <= |before| && after == before[..|before| - t] + [x]
  }

  lemma {:induction false} MergesAfter<T>(first: T, before: seq<T>, t: nat, x: T, after: seq<T>)
    requires Merges(before, t, x, after)
    ensures Merges([first] + before, t, x, [first] + after)
  {
    var all := [first] + before;
    assert all[..|all| - t] == [first] + before[..|before| - t];
  }

  lemma {:induction false} MergesAll<T>(before: seq<T>, x: T)
    ensures Merges(before, |before|, x, [x])
  {
    assert before[..0] == [];
  }

  /** When the next leaf is the last of `2^k`, all peaks give way to the one of altitude `k`. */
  lemma {:induction false} PositionsFill(n: nat, k: nat, base: nat)
    requires n + 1 == Pow2(k)
    ensures |PositionsBelow(n, k, base)| == TrailingOnes(n)
    ensures Size(n) + TrailingOnes(n) == 2 * Pow2(k) - 2
    decreases k
  {
    if k > 0 {
      var half := Pow2(k - 1);
      PositionsFill(n - half, k - 1, base + 2 * half - 1);
      SizeTop(n, k - 1);
      TrailingOnesTop(n - half, k - 1);
    }
  }

  lemma {:induction false} NoPositions(k: nat, base: nat)
    ensures PositionsBelow(0, k, base) == []
  {
    if k > 0 {
      NoPositions(k - 1, base);
    }
  }

  /**
   With one more leaf, a peak for every trailing one bit of `n` gives way to one peak at the end
   of the longer array.
   */
  lemma {:induction false} PositionsStep(n: nat, k: nat, base: nat, t: nat, end: nat)
    requires n + 1 < Pow2(k) && t == TrailingOnes(n) && end == base + Size(n) + t
    ensures Merges(PositionsBelow(n, k, base), t, end, PositionsBelow(n + 1, k, base))
    decreases k
  {
    var half := Pow2(k - 1);
    if n + 1 < half {
      PositionsStep(n, k - 1, base, t, end);
    } else if n + 1 == half {
      PositionsStepToBit(n, k, base, t, end);
    } else {
      StepTop(n, k - 1);
      PositionsStep(n - half, k - 1, base + 2 * half - 1, t, end);
      PositionsStepWithBit(n, k, base, t, end, half, n - half);
    }
  }

  lemma {:induction false} StepTop(n: nat, k: nat)
    requires Pow2(k) <= n && n + 1 < 2 * Pow2(k)
    ensures TrailingOnes(n) == TrailingOnes(n - Pow2(k))
    ensures Size(n) == 2 * Pow2(k) - 1 + Size(n - Pow2(k))
  {
    SizeTop(n, k);
    TrailingOnesTop(n - Pow2(k), k);
  }

  lemma {:induction false} PositionsStepToBit(n: nat, k: nat, base: nat, t: nat, end: nat)
    requires k > 0 && n + 1 == Pow2(k - 1) && t == TrailingOnes(n) && end == base + Size(n) + t
    ensures Merges(PositionsBelow(n, k, base), t, end, PositionsBelow(n + 1, k, base))
  {
    PositionsFill(n, k - 1, base);
    MergesAll(PositionsBelow(n, k - 1, base), end);
    SplitPositions(n + 1, k, base, n + 1, 0);
    NoPositions(k - 1, base + 2 * n + 1);
  }

  lemma {:induction false} PositionsStepWithBit(
      n: nat, k: nat, base: nat, t: nat, end: nat, half: nat, rest: nat)
    requires k > 0 && half == Pow2(k - 1) && rest + 1 < half && n == half + rest
    requires Merges(PositionsBelow(rest, k - 1, base + 2 * half - 1), t, end,
                    PositionsBelow(rest + 1, k - 1, base + 2 * half - 1))
    ensures Merges(PositionsBelow(n, k, base), t, end, PositionsBelow(n + 1, k, base))
  {
    MergesAfter(base + 2 * half - 2, PositionsBelow(rest, k - 1, base + 2 * half - 1), t, end,
                PositionsBelow(rest + 1, k - 1, base + 2 * half - 1));
    SplitPositions(n, k, base, half, rest);
    SplitPositions(n + 1, k, base, half, rest + 1);
  }

  /** The nodes that the range over `leaves + [x]` has and the range over `leaves` has not. */
  function NewNodes<L>(leaves: seq<L>, x: L, k: nat): (added: seq<Entry<L>>)
    requires |leaves| < Pow2(k)
    ensures |added| > 0
    decreases k
  {
    if k == 0 then [Leaf(x)]
    else
      var half := Pow2(k - 1);
      if |leaves| < half then NewNodes(leaves, x, k - 1)
      else
        var added := NewNodes(leaves[half..], x, k - 1);
        if |leaves| + 1 < 2 * half then added
        else added + [Node(Perfect(leaves[..half], k - 1), added[|added| - 1])]
  }

  /** The new nodes extend the array of all nodes, and the last one is the new last peak. */
  ghost predicate Extends<L>(peaks: seq<Entry<L>>, nodes: seq<Entry<L>>, added: seq<Entry<L>>,
                             peaks': seq<Entry<L>>, nodes': seq<Entry<L>>, n: nat)
  {
    && |added| > 0
    && Merges(peaks, |added| - 1, added[|added| - 1], peaks')
    && nodes' == nodes + added
    && (|added| == |peaks| + 1 ==> LeafCount(added[|added| - 1]) == n)
  }

  /** The new nodes merge all the peaks into `whole`. */
  ghost predicate Fills<L>(
      peaks: seq<Entry<L>>, nodes: seq<Entry<L>>, added: seq<Entry<L>>, whole: Entry<L>)
  {
    && |added| == |peaks| + 1
    && added[|added| - 1] == whole
    && PostOrder(whole) == nodes + added
  }

  lemma {:induction false} ExtendsAfter<L>(
      first: Entry<L>, peaks: seq<Entry<L>>, nodes: seq<Entry<L>>, added: seq<Entry<L>>,
      peaks': seq<Entry<L>>, nodes': seq<Entry<L>>, n: nat)
    requires Extends(peaks, nodes, added, peaks', nodes', n)
    ensures Extends([first] + peaks, PostOrder(first) + nodes, added,
                    [first] + peaks', PostOrder(first) + nodes', LeafCount(first) + n)
  {
    MergesAfter(first, peaks, |added| - 1, added[|added| - 1], peaks');
  }

  lemma {:induction false} FillsAfter<L>(
      first: Entry<L>, peaks: seq<Entry<L>>, nodes: seq<Entry<L>>, added: seq<Entry<L>>,
      whole: Entry<L>)
    requires Fills(peaks, nodes, added, whole)
    ensures Fills([first] + peaks, PostOrder(first) + nodes, added + [Node(first, whole)],
                  Node(first, whole))
  {
  }

  lemma {:induction false} FillsExtends<L>(
      peaks: seq<Entry<L>>, nodes: seq<Entry<L>>, added: seq<Entry<L>>, whole: Entry<L>)
    requires Fills(peaks, nodes, added, whole)
    ensures Extends(peaks, nodes, added, [whole], PostOrder(whole) + [], LeafCount(whole))
  {
    MergesAll(peaks, whole);
  }

  lemma {:induction false} EmptyRange<L>(k: nat)
    ensures PeaksBelow<L>([], k) == [] && NodesBelow<L>([], k) == []
  {
    if k > 0 {
      EmptyRange<L>(k - 1);
    }
  }

  /** A range of at least `2^(k-1)` leaves is its first mountain, then the range over the rest. */
  lemma {:induction false} SplitAtBit<L>(
      leaves: seq<L>, k: nat, left: seq<L>, rest: seq<L>, first: Entry<L>)
    requires k > 0 && leaves == left + rest && |left| == Pow2(k - 1) && |rest| < Pow2(k - 1)
    requires first == Perfect(left, k - 1)
    ensures PeaksBelow(leaves, k) == [first] + PeaksBelow(rest, k - 1)
    ensures NodesBelow(leaves, k) == PostOrder(first) + NodesBelow(rest, k - 1)
  {
    assert leaves[..|left|] == left && leaves[|left|..] == rest;
  }

  lemma Regroup<L>(left: seq<L>, rest: seq<L>, x: L)
    ensures left + rest + [x] == left + (rest + [x])
  {
  }

  lemma {:induction false} PerfectSplit<L>(all: seq<L>, left: seq<L>, right: seq<L>, k: nat)
    requires k > 0 && |left| == |right| == Pow2(k - 1) && all == left + right
    ensures Perfect(all, k) == Node(Perfect(left, k - 1), Perfect(right, k - 1))
  {
    assert all[..|left|] == left && all[|left|..] == right;
  }

  lemma {:induction false} NewNodesAtBit<L>(
      leaves: seq<L>, x: L, k: nat, left: seq<L>, rest: seq<L>, added: seq<Entry<L>>)
    requires k > 0 && leaves == left + rest && |left| == Pow2(k - 1) && |rest| < Pow2(k - 1)
    requires added == NewNodes(rest, x, k - 1)
    ensures NewNodes(leaves, x, k)
         == if |rest| + 1 < |left| then added
            else added + [Node(Perfect(left, k - 1), added[|added| - 1])]
  {
    assert leaves[..|left|] == left && leaves[|left|..] == rest;
  }

  /** What a range with its highest bit set, and all others, is made of. */
  lemma {:induction false} SplitFull<L>(
      leaves: seq<L>, x: L, k: nat, left: seq<L>, rest: seq<L>, added: seq<Entry<L>>)
    requires k > 0 && leaves == left + rest && |left| == Pow2(k - 1) == |rest| + 1
    requires added == NewNodes(rest, x, k - 1)
    requires added[|added| - 1] == Perfect(rest + [x], k - 1)
    ensures Perfect(leaves + [x], k) == Node(Perfect(left, k - 1), added[|added| - 1])
    ensures NewNodes(leaves, x, k) == added + [Perfect(leaves + [x], k)]
  {
    NewNodesAtBit(leaves, x, k, left, rest, added);
    Regroup(left, rest, x);
    PerfectSplit(leaves + [x], left, rest + [x], k);
  }

  lemma {:induction false} NewNodesFillWithBit<L>(
      leaves: seq<L>, x: L, k: nat, left: seq<L>, rest: seq<L>, first: Entry<L>,
      peaks: seq<Entry<L>>, nodes: seq<Entry<L>>, added: seq<Entry<L>>, whole: Entry<L>)
    requires k > 0 && leaves == left + rest && |left| == Pow2(k - 1) == |rest| + 1
    requires first == Perfect(left, k - 1) && whole == Perfect(rest + [x], k - 1)
    requires peaks == PeaksBelow(rest, k - 1) && nodes == NodesBelow(rest, k - 1)
    requires added == NewNodes(rest, x, k - 1) && Fills(peaks, nodes, added, whole)
    ensures Fills(PeaksBelow(leaves, k), NodesBelow(leaves, k), NewNodes(leaves, x, k),
                  Perfect(leaves + [x], k))
  {
    SplitAtBit(leaves, k, left, rest, first);
    SplitFull(leaves, x, k, left, rest, added);
    FillsAfter(first, peaks, nodes, added, whole);
  }

  lemma {:induction false} NewNodesFill<L>(leaves: seq<L>, x: L, k: nat)
    requires |leaves| + 1 == Pow2(k)
    ensures Fills(PeaksBelow(leaves, k), NodesBelow(leaves, k), NewNodes(leaves, x, k),
                  Perfect(leaves + [x], k))
    decreases k
  {
    if k > 0 {
      var half := Pow2(k - 1);
      var left, rest := leaves[..half], leaves[half..];
      NewNodesFill(rest, x, k - 1);
      NewNodesFillWithBit(leaves, x, k, left, rest, Perfect(left, k - 1), PeaksBelow(rest, k - 1),
                          NodesBelow(rest, k - 1), NewNodes(rest, x, k - 1),
                          Perfect(rest + [x], k - 1));
    }
  }

  lemma {:induction false} NewNodesExtend<L>(leaves: seq<L>, x: L, k: nat)
    requires |leaves| + 1 < Pow2(k)
    ensures Extends(PeaksBelow(leaves, k), NodesBelow(leaves, k), NewNodes(leaves, x, k),
                    PeaksBelow(leaves + [x], k), NodesBelow(leaves + [x], k), |leaves| + 1)
    decreases k
  {
    var half := Pow2(k - 1);
    if |leaves| + 1 < half {
      NewNodesExtend(leaves, x, k - 1);
    } else if |leaves| + 1 == half {
      NewNodesExtendToBit(leaves, x, k);
    } else {
      var left, rest := leaves[..half], leaves[half..];
      NewNodesExtend(rest, x, k - 1);
      NewNodesExtendWithBit(leaves, x, k, left, rest, Perfect(left, k - 1), PeaksBelow(rest, k - 1),
                            NodesBelow(rest, k - 1), NewNodes(rest, x, k - 1),
                            PeaksBelow(rest + [x], k - 1), NodesBelow(rest + [x], k - 1));
    }
  }

  lemma {:induction false} NewNodesExtendToBit<L>(leaves: seq<L>, x: L, k: nat)
    requires k > 0 && |leaves| + 1 == Pow2(k - 1)
    ensures Extends(PeaksBelow(leaves, k), NodesBelow(leaves, k), NewNodes(leaves, x, k),
                    PeaksBelow(leaves + [x], k), NodesBelow(leaves + [x], k), |leaves| + 1)
  {
    var whole := Perfect(leaves + [x], k - 1);
    NewNodesFill(leaves, x, k - 1);
    FillsExtends(PeaksBelow(leaves, k - 1), NodesBelow(leaves, k - 1), NewNodes(leaves, x, k - 1),
                 whole);
    EmptyRange<L>(k - 1);
    SplitAtBit(leaves + [x], k, leaves + [x], [], whole);
  }

  lemma {:induction false} NewNodesExtendWithBit<L>(
      leaves: seq<L>, x: L, k: nat, left: seq<L>, rest: seq<L>, first: Entry<L>,
      peaks: seq<Entry<L>>, nodes: seq<Entry<L>>, added: seq<Entry<L>>,
      peaks': seq<Entry<L>>, nodes': seq<Entry<L>>)
    requires k > 0 && leaves == left + rest && |left| == Pow2(k - 1) && |rest| + 1 < Pow2(k - 1)
    requires first == Perfect(left, k - 1) && added == NewNodes(rest, x, k - 1)
    requires peaks == PeaksBelow(rest, k - 1) && nodes == NodesBelow(rest, k - 1)
    requires peaks' == PeaksBelow(rest + [x], k - 1) && nodes' == NodesBelow(rest + [x], k - 1)
    requires Extends(peaks, nodes, added, peaks', nodes', |rest| + 1)
    ensures Extends(PeaksBelow(leaves, k), NodesBelow(leaves, k), NewNodes(leaves, x, k),
                    PeaksBelow(leaves + [x], k), NodesBelow(leaves + [x], k), |leaves| + 1)
  {
    NewNodesAtBit(leaves, x, k, left, rest, added);
    SplitAtBit(leaves, k, left, rest, first);
    Regroup(left, rest, x);
    SplitAtBit(leaves + [x], k, left, rest + [x], first);
    ExtendsAfter(first, peaks, nodes, added, peaks', nodes', |rest| + 1);
  }

  /**
   The nodes that appending `e` to a range with the peaks `es` creates: `e` itself, then a merged
   node for as long as the rightmost remaining peak covers as many leaves as the newest node.
   */
  function Appended<L>(es: seq<Entry<L>>, e: Entry<L>): (added: seq<Entry<L>>)
    ensures 0 < |added| <= |es| + 1
    decreases |es|
  {
    if es != [] && LeafCount(es[|es| - 1]) == LeafCount(e)
    then [e] + Appended(es[..|es| - 1], Node(es[|es| - 1], e))
    else [e]
  }

  /** A peak further left joins the merge exactly when it matches what the others merged into. */
  lemma {:induction false} AppendedWithFirst<L>(p: Entry<L>, es: seq<Entry<L>>, e: Entry<L>)
    ensures var a := Appended(es, e); var last := a[|a| - 1];
            Appended([p] + es, e) ==
            if |a| == |es| + 1 && LeafCount(p) == LeafCount(last) then a + [Node(p, last)] else a
    decreases |es|
  {
    var all := [p] + es;
    if es == [] {
      assert all[..|all| - 1] == [];
    } else {
      assert all[|all| - 1] == es[|es| - 1];
      assert all[..|all| - 1] == [p] + es[..|es| - 1];
      if LeafCount(es[|es| - 1]) == LeafCount(e) {
        AppendedWithFirst(p, es[..|es| - 1], Node(es[|es| - 1], e));
      }
    }
  }

  /** Merging peaks of equal leaf counts from the right creates exactly the missing nodes. */
  lemma {:induction false} AppendedIsNewNodes<L>(leaves: seq<L>, x: L, k: nat)
    requires |leaves| < Pow2(k)
    ensures Appended(PeaksBelow(leaves, k), Leaf(x)) == NewNodes(leaves, x, k)
    decreases k
  {
    if k > 0 {
      var half := Pow2(k - 1);
      if |leaves| < half {
        AppendedIsNewNodes(leaves, x, k - 1);
      } else {
        var rest, first := leaves[half..], Perfect(leaves[..half], k - 1);
        AppendedIsNewNodes(rest, x, k - 1);
        AppendedWithBit(leaves, x, k, leaves[..half], rest, first, PeaksBelow(rest, k - 1),
                        NewNodes(rest, x, k - 1));
      }
    }
  }

  lemma {:induction false} AppendedWithBit<L>(
      leaves: seq<L>, x: L, k: nat, left: seq<L>, rest: seq<L>, first: Entry<L>,
      peaks: seq<Entry<L>>, added: seq<Entry<L>>)
    requires k > 0 && leaves == left + rest && |left| == Pow2(k - 1) && |rest| < Pow2(k - 1)
    requires first == Perfect(left, k - 1) && peaks == PeaksBelow(rest, k - 1)
    requires added == NewNodes(rest, x, k - 1) == Appended(peaks, Leaf(x))
    ensures Appended(PeaksBelow(leaves, k), Leaf(x)) == NewNodes(leaves, x, k)
  {
    LastNewNode(rest, x, k - 1, peaks, added);
    AppendedWithFirst(first, peaks, Leaf(x));
    SplitAtBit(leaves, k, left, rest, first);
    NewNodesAtBit(leaves, x, k, left, rest, added);
  }

  /** All the peaks merge into one that is as large as the next higher exactly when all bits are set. */
  lemma {:induction false} LastNewNode<L>(
      leaves: seq<L>, x: L, k: nat, peaks: seq<Entry<L>>, added: seq<Entry<L>>)
    requires |leaves| < Pow2(k)
    requires peaks == PeaksBelow(leaves, k) && added == NewNodes(leaves, x, k)
    ensures |leaves| + 1 == Pow2(k)
       <==> |added| == |peaks| + 1 && LeafCount(added[|added| - 1]) == Pow2(k)
  {
    if |leaves| + 1 < Pow2(k) {
      NewNodesExtend(leaves, x, k);
    } else {
      NewNodesFill(leaves, x, k);
    }
  }

  lemma {:induction false} BitLengthStep(n: nat)
    ensures BitLength(n + 1) <= BitLength(n) + 1
  {
    if BitLength(n) + 1 < BitLength(n + 1) {
      Pow2Monotone(BitLength(n) + 1, BitLength(n + 1) - 1);
    }
  }

  lemma {:induction false} AppendPosition(n: nat)
    ensures Merges(Positions(n), TrailingOnes(n), Size(n) + TrailingOnes(n), Positions(n + 1))
  {
    var k := BitLength(n) + 1;
    BitLengthStep(n);
    WidenPositions(n, k);
    WidenPositions(n + 1, k);
    PositionsStep(n, k, 0, TrailingOnes(n), Size(n) + TrailingOnes(n));
  }

  lemma {:induction false} AppendNodes<L>(leaves: seq<L>, x: L, added: seq<Entry<L>>)
    requires added == Appended(Peaks(leaves), Leaf(x))
    ensures Extends(Peaks(leaves), AllNodes(leaves), added,
                    Peaks(leaves + [x]), AllNodes(leaves + [x]), |leaves| + 1)
  {
    var k := BitLength(|leaves|) + 1;
    BitLengthStep(|leaves|);
    Widen(leaves, k);
    Widen(leaves + [x], k);
    AppendedIsNewNodes(leaves, x, k);
    NewNodesExtend(leaves, x, k);
  }

  lemma {:induction false} AllNodesSize<L>(leaves: seq<L>)
    ensures |AllNodes(leaves)| == Size(|leaves|)
  {
    NodesBelowSize(leaves, BitLength(|leaves|));
  }

  lemma {:induction false} AddedCount<L>(leaves: seq<L>, x: L, added: seq<Entry<L>>)
    requires added == Appended(Peaks(leaves), Leaf(x))
    ensures |added| == 1 + TrailingOnes(|leaves|)
    ensures Size(|leaves| + 1) == Size(|leaves|) + |added|
  {
    AppendNodes(leaves, x, added);
    AllNodesSize(leaves);
    AllNodesSize(leaves + [x]);
    PopcountSuccessor(|leaves|);
  }

  /**
   Appending a leaf incrementally agrees with building the range over all the leaves from
   scratch. The new nodes are the leaf and one merged node for every trailing one bit of the
   number of older leaves. They extend the array of all nodes, and the new peaks are the old ones
   with the merged ones replaced by the last new node, at the end of the array.
   */
  lemma {:induction false} AppendLeaf<L>(leaves: seq<L>, x: L, added: seq<Entry<L>>)
    requires added == Appended(Peaks(leaves), Leaf(x))
    ensures |added| == 1 + TrailingOnes(|leaves|)
    ensures AllNodes(leaves + [x]) == AllNodes(leaves) + added
    ensures Merges(Peaks(leaves), |added| - 1, added[|added| - 1], Peaks(leaves + [x]))
    ensures Merges(Positions(|leaves|), |added| - 1, Size(|leaves|) + |added| - 1,
                   Positions(|leaves| + 1))
    ensures Size(|leaves| + 1) == Size(|leaves|) + |added|
  {
    AppendNodes(leaves, x, added);
    AddedCount(leaves, x, added);
    AppendPosition(|leaves|);
  }
}

/**
 The history tree: it keeps only the peaks of the mountain range over all blocks since the last
 network upgrade, and must agree with the range built from all of them.
 */
module HistoryTree {
  import opened MountainRange
  import opened MountainRoots
  import opened Networks
  import opened Options
  import opened OrderedKeys

  newtype u32 = x: int | 0 <= x < 0x1_0000_0000

  /** The number of nodes of a tree, which the source keeps in 32 bits. */
  type NodeCount = x: nat | x < 0x1_0000_0000

  /** A block together with the note commitment roots that go into its leaf. */
  datatype Push = Push(blockHash: nat, height: nat, saplingRoot: nat, orchardRoot: nat)

  /** Leaf data of the two tree versions; the older one has no Orchard root. */
  datatype LeafData =
    | V1(upgrade: Upgrade, blockHash: nat, height: nat, saplingRoot: nat)
    | V2(upgrade: Upgrade, blockHash: nat, height: nat, saplingRoot: nat, orchardRoot: nat)

  type HistoryEntry = Entry<LeafData>

  predicate HasHistory(u: Upgrade) {
    Rank(Heartwood) <= Rank(u)
  }

  /** A leaf of the upgrade that commits to the block, with the Orchard root from NU5 on. */
  ghost predicate Commits(leaf: LeafData, u: Upgrade, p: Push) {
    && leaf.upgrade == u && leaf.blockHash == p.blockHash && leaf.height == p.height
    && leaf.saplingRoot == p.saplingRoot
    && (leaf.V2? <==> Rank(Nu5) <= Rank(u)) && (leaf.V2? ==> leaf.orchardRoot == p.orchardRoot)
  }

  function NewLeaf(u: Upgrade, p: Push): (leaf: LeafData)
    requires HasHistory(u)
    ensures Commits(leaf, u, p)
  {
    match u
    case Heartwood | Canopy => V1(u, p.blockHash, p.height, p.saplingRoot)
    case _ => V2(u, p.blockHash, p.height, p.saplingRoot, p.orchardRoot)
  }

  /** The range library's tree: the number of nodes it stands for, and its peaks. */
  datatype InnerTree = InnerTree(upgrade: Upgrade, length: nat, peaks: seq<HistoryEntry>)

  /** The values of `cache` in key order. */
  function InKeyOrder(cache: map<nat, HistoryEntry>, length: nat): (es: seq<HistoryEntry>)
    ensures |es| == |Ascending(cache.Keys, 0, length)|
  {
    var keys := Ascending(cache.Keys, 0, length);
    seq(|keys|, i requires 0 <= i < |keys| => cache[keys[i]])
  }

  function NewFromCache(u: Upgrade, length: nat, cache: map<nat, HistoryEntry>): InnerTree {
    InnerTree(u, length, InKeyOrder(cache, length))
  }

  /** The cached peaks of the range over `leaves`, by their position in the array of all nodes. */
  ghost function PeakMap(leaves: seq<LeafData>): map<nat, HistoryEntry> {
    map p: nat | p in Positions(|leaves|) && p < |AllNodes(leaves)| :: AllNodes(leaves)[p]
  }

  ghost function PositionSet(n: nat): set<nat> {
    Elements(Positions(n))
  }

  /** Every peak position is inside the array, so every peak is in the map. */
  lemma PeakMapKeys(leaves: seq<LeafData>)
    ensures PeakMap(leaves).Keys == PositionSet(|leaves|)
    ensures forall p :: p in Positions(|leaves|) ==> p < |AllNodes(leaves)| == Size(|leaves|)
  {
    PeaksLaidOut(leaves, BitLength(|leaves|), 0);
    AllNodesSize(leaves);
  }

  /** Reading the cached peaks back in key order gives the peaks of the whole range. */
  lemma CacheHoldsPeaks(leaves: seq<LeafData>)
    ensures InKeyOrder(PeakMap(leaves), Size(|leaves|)) == Peaks(leaves)
  {
    var cache, positions := PeakMap(leaves), Positions(|leaves|);
    PeaksLaidOut(leaves, BitLength(|leaves|), 0);
    PeakMapKeys(leaves);
    AscendingUnique(Ascending(cache.Keys, 0, Size(|leaves|)), positions);
  }

  lemma {:induction false} WordSizes()
    ensures Pow2(31) == 0x8000_0000 && Pow2(32) == 0x1_0000_0000
  {
    assert Pow2(8) == 0x100;
    assert Pow2(16) == 0x1_0000;
    assert Pow2(24) == 0x100_0000;
    assert Pow2(31) == 0x8000_0000;
  }

  lemma {:induction false} BitLengthAtMost(n: nat, k: nat)
    requires n < Pow2(k)
    ensures BitLength(n) <= k
  {
    if k < BitLength(n) {
      Pow2Monotone(k, BitLength(n) - 1);
    }
  }

  /** The number of leading zero bits of a 32-bit word. */
  function LeadingZeros(x: u32): (z: u32)
    ensures z as nat + BitLength(x as nat) == 32
  {
    assert BitLength(x as nat) <= 32 by {
      WordSizes();
      BitLengthAtMost(x as nat, 32);
    }
    (32 - BitLength(x as nat)) as u32
  }

  /** `1 << k` on 32 bits. */
  function ShiftOne(k: u32): (p: u32)
    requires k < 32
    ensures p as nat == Pow2(k as nat)
  {
    assert Pow2(k as nat) < 0x1_0000_0000 by {
      WordSizes();
      Pow2Monotone(k as nat, 31);
    }
    Pow2(k as nat) as u32
  }

  /** The position of the left child of a node of altitude `alt`. */
  function LeftChild(pos: u32, alt: u32): (p: u32)
    requires alt < 32 && Pow2(alt as nat) <= pos as nat
    ensures p as nat == pos as nat - Pow2(alt as nat)
  {
    pos - ShiftOne(alt)
  }

  /** The position of the right sibling of a node of altitude `alt`. */
  function RightSibling(pos: u32, alt: u32): (p: u32)
    requires alt < 31 && pos as nat + Pow2(alt as nat + 1) <= 0xFFFF_FFFF
    ensures p as nat == pos as nat + Pow2(alt as nat + 1) - 1
  {
    pos + ShiftOne(alt + 1) - 1
  }

  /** The highest peak's altitude, which the loop below starts from, fits the arithmetic it uses. */
  lemma {:induction false} TopAltitude(n: nat)
    requires n > 0 && Size(n) < 0xFFFF_FFFF
    ensures BitLength(Size(n) + 1) == BitLength(n) + 1 <= 32
    ensures 2 * Pow2(BitLength(n) - 1) - 2 < Size(n)
    ensures 4 * Pow2(BitLength(n) - 1) <= 0x1_0000_0000
  {
    var k := BitLength(n);
    SizeBound(n, k - 1);
    SizeBound(n, k);
    BitLengthUnique(Size(n) + 1, k);
    WordSizes();
    if k > 31 {
      Pow2Monotone(32, k);
    } else {
      Pow2Monotone(k, 31);
    }
  }

  /**
   A point of the walk over the peaks: the `rest` leaves from position `base` on are still to be
   covered, by mountains of at most altitude `alt`. Its candidate is where the peak of a mountain
   of altitude `alt` would be.
   */
  datatype Walk = Walk(alt: nat, half: nat, base: nat, rest: nat) {
    function Candidate(): nat {
      if half == 0 then 0 else base + 2 * half - 2
    }
  }

  ghost predicate OnTheWay(w: Walk, n: nat, limit: nat, found: set<nat>) {
    && w.half == Pow2(w.alt) && w.rest < 2 * w.half
    && w.base + Size(w.rest) == Size(n)
    && w.base + 2 * w.half <= limit
    && PositionSet(n) == found + Elements(PositionsBelow(w.rest, w.alt + 1, w.base))
  }

  lemma {:induction false} CandidateInside(w: Walk, n: nat, limit: nat, found: set<nat>)
    requires OnTheWay(w, n, limit, found)
    ensures w.Candidate() >= Size(n) <==> w.rest < w.half
  {
    SizeBound(w.rest, w.alt);
  }

  /** A candidate beyond the end of the array gives way to its left child. */
  lemma {:induction false} GoDown(w: Walk, n: nat, limit: nat, found: set<nat>, w': Walk)
    requires OnTheWay(w, n, limit, found) && w.rest < w.half && w.alt > 0
    requires w' == Walk(w.alt - 1, Pow2(w.alt - 1), w.base, w.rest)
    ensures OnTheWay(w', n, limit, found)
    ensures w'.Candidate() == w.Candidate() - Pow2(w.alt) && w'.base + 4 * w'.half <= limit
  {
    assert PositionsBelow(w.rest, w.alt + 1, w.base) == PositionsBelow(w.rest, w.alt, w.base);
  }

  lemma {:induction false} PeakAndRest(n: nat, k: nat, base: nat, half: nat, rest: nat)
    requires half == Pow2(k) && rest < half && n == half + rest
    ensures Elements(PositionsBelow(n, k + 1, base))
         == {base + 2 * half - 2} + Elements(PositionsBelow(rest, k + 1, base + 2 * half - 1))
  {
    SplitPositions(n, k + 1, base, half, rest);
    assert PositionsBelow(rest, k + 1, base + 2 * half - 1)
        == PositionsBelow(rest, k, base + 2 * half - 1);
  }

  lemma {:induction false} FoundNext(
      n: nat, k: nat, base: nat, half: nat, rest: nat, all: set<nat>, found: set<nat>)
    requires half == Pow2(k) && rest < half && n == half + rest
    requires all == found + Elements(PositionsBelow(n, k + 1, base))
    ensures all == found + {base + 2 * half - 2}
                   + Elements(PositionsBelow(rest, k + 1, base + 2 * half - 1))
  {
    PeakAndRest(n, k, base, half, rest);
  }

  /** A candidate inside the array is a peak, and what remains is a smaller range to its right. */
  lemma {:induction false} TakePeak(w: Walk, n: nat, limit: nat, found: set<nat>, w': Walk)
    requires OnTheWay(w, n, limit, found) && w.rest >= w.half && w.base + 4 * w.half - 1 <= limit
    requires w' == Walk(w.alt, w.half, w.base + 2 * w.half - 1, w.rest - w.half)
    ensures OnTheWay(w', n, limit, found + {w.Candidate()}) && w'.rest < w'.half
    ensures w'.Candidate() == w.Candidate() + Pow2(w.alt + 1) - 1
    ensures w.Candidate() + Pow2(w.alt + 1) <= limit
  {
    SizeTop(w.rest, w.alt);
    FoundNext(w.rest, w.alt, w.base, w.half, w'.rest, PositionSet(n), found);
  }

  lemma {:induction false} WalkEnds(w: Walk, n: nat, limit: nat, found: set<nat>)
    requires OnTheWay(w, n, limit, found) && w.alt == 0 && w.rest < w.half
    ensures found == PositionSet(n)
  {
    assert PositionsBelow(0, 1, w.base) == [];
  }

  /** If the candidate is out of the array, go down to its left child. */
  method LeftIfOutside(length: u32, alt: u32, peakPos: u32,
                       ghost w: Walk, ghost n: nat, ghost limit: nat, ghost found: set<nat>)
      returns (alt': u32, peakPos': u32, ghost w': Walk)
    requires OnTheWay(w, n, limit, found) && length as nat == Size(n)
    requires alt as nat == w.alt <= 30 && peakPos as nat == w.Candidate()
    requires w.rest < w.half ==> w.alt > 0
    ensures OnTheWay(w', n, limit, found)
    ensures alt' as nat == w'.alt && peakPos' as nat == w'.Candidate()
    ensures w.rest < w.half ==>
              w' == Walk(w.alt - 1, Pow2(w.alt - 1), w.base, w.rest) && w'.base + 4 * w'.half <= limit
    ensures w.rest >= w.half ==> w' == w
  {
    alt', peakPos', w' := alt, peakPos, w;
    CandidateInside(w, n, limit, found);
    if peakPos >= length {
      w' := Walk(w.alt - 1, Pow2(w.alt - 1), w.base, w.rest);
      GoDown(w, n, limit, found, w');
      peakPos' := LeftChild(peakPos, alt);
      alt' := alt - 1;
    }
  }

  /** If the candidate is in the array, it is a peak: take it and go on with its right sibling. */
  method TakeIfInside(length: u32, alt: u32, peakPos: u32, found: set<nat>,
                      ghost w: Walk, ghost n: nat, ghost limit: nat)
      returns (peakPos': u32, found': set<nat>, ghost w': Walk)
    requires OnTheWay(w, n, limit, found) && length as nat == Size(n)
    requires alt as nat == w.alt <= 30 && peakPos as nat == w.Candidate()
    requires w.base + 4 * w.half - 1 <= limit <= 0xFFFF_FFFF
    ensures OnTheWay(w', n, limit, found') && w'.rest < w'.half && w'.alt == w.alt
    ensures peakPos' as nat == w'.Candidate()
  {
    peakPos', found', w' := peakPos, found, w;
    CandidateInside(w, n, limit, found);
    if peakPos < length {
      w' := Walk(w.alt, w.half, w.base + 2 * w.half - 1, w.rest - w.half);
      TakePeak(w, n, limit, found, w');
      found' := found + {peakPos as nat};
      peakPos' := RightSibling(peakPos, alt);
    }
  }

  /**
   The peak positions of a range of `size` nodes, found by walking down from the highest peak.
   Every operation stays inside 32 bits. The first round takes the highest peak, and each later
   round goes down one altitude, so that there is a round for every binary digit of `n`.
   */
  method FindPeaks(size: NodeCount, ghost n: nat) returns (found: set<nat>, ghost rounds: nat)
    requires n > 0 && size == Size(n) < 0xFFFF_FFFF
    ensures found == PositionSet(n)
    ensures rounds == BitLength(n)
  {
    TopAltitude(n);
    var length := size as u32;
    found := {};
    var alt: u32 := (32 - LeadingZeros(length + 1) - 1) - 1;
    var peakPos: u32 := ShiftOne(alt + 1) - 2;
    ghost var top := alt as nat;
    ghost var w, limit: nat := Walk(top, Pow2(top), 0, n), 4 * Pow2(top) - 1;
    rounds := 0;
    while true
      invariant OnTheWay(w, n, limit, found)
      invariant alt as nat == w.alt <= top == BitLength(n) - 1 <= 30 && limit <= 0xFFFF_FFFF
      invariant peakPos as nat == w.Candidate()
      invariant rounds == 0 ==> w == Walk(top, Pow2(top), 0, n) && limit == 4 * w.half - 1
      invariant rounds == 0 ==> w.rest >= w.half
      invariant rounds > 0 ==> rounds == top - w.alt + 1 && w.alt > 0 && w.rest < w.half
      decreases if rounds == 0 then top + 1 else w.alt
    {
      alt, peakPos, w := LeftIfOutside(length, alt, peakPos, w, n, limit, found);
      peakPos, found, w := TakeIfInside(length, alt, peakPos, found, w, n, limit);
      rounds := rounds + 1;
      if alt == 0 {
        WalkEnds(w, n, limit, found);
        break;
      }
    }
  }

  /** The cache after inserting the entries of `added` at consecutive positions from `start` on. */
  ghost function Inserted(cache: map<nat, HistoryEntry>, start: nat, added: seq<HistoryEntry>)
    : map<nat, HistoryEntry>
  {
    if added == [] then cache
    else
      var last := |added| - 1;
      Inserted(cache, start, added[..last])[start + last := added[last]]
  }

  ghost predicate NodeAt(cache: map<nat, HistoryEntry>, nodes: seq<HistoryEntry>, p: nat) {
    p in cache ==> p < |nodes| && cache[p] == nodes[p]
  }

  /** The cache is part of the array `nodes`. */
  ghost predicate PartOf(cache: map<nat, HistoryEntry>, nodes: seq<HistoryEntry>) {
    forall p {:trigger NodeAt(cache, nodes, p)} :: NodeAt(cache, nodes, p)
  }

  /** If `cache` is part of the array `nodes`, then with `added` it is part of the longer array. */
  lemma {:induction false} InsertedInArray(
      cache: map<nat, HistoryEntry>, nodes: seq<HistoryEntry>, added: seq<HistoryEntry>)
    requires PartOf(cache, nodes)
    ensures PartOf(Inserted(cache, |nodes|, added), nodes + added)
  {
    var cache' := Inserted(cache, |nodes|, added);
    if added == [] {
      assert nodes + added == nodes;
    } else {
      var last := |added| - 1;
      InsertedInArray(cache, nodes, added[..last]);
      forall p ensures NodeAt(cache', nodes + added, p) {
        assert NodeAt(Inserted(cache, |nodes|, added[..last]), nodes + added[..last], p);
      }
    }
  }

  lemma {:induction false} InsertedKeys(
      cache: map<nat, HistoryEntry>, start: nat, added: seq<HistoryEntry>)
    ensures cache.Keys <= Inserted(cache, start, added).Keys
    ensures added != [] ==> start + |added| - 1 in Inserted(cache, start, added)
  {
    if added != [] {
      InsertedKeys(cache, start, added[..|added| - 1]);
    }
  }

  /** The cache is part of the array of all nodes, and has every peak of the range. */
  ghost predicate Covers(cache: map<nat, HistoryEntry>, leaves: seq<LeafData>) {
    && PositionSet(|leaves|) <= cache.Keys
    && PartOf(cache, AllNodes(leaves))
  }

  /**
   Pruning loses nothing: any part of the array of all nodes that has the peak positions becomes
   the peak map when everything else is dropped.
   */
  lemma PrunedIsPeakMap(cache: map<nat, HistoryEntry>, leaves: seq<LeafData>)
    requires Covers(cache, leaves)
    ensures (map p | p in cache && p in PositionSet(|leaves|) :: cache[p]) == PeakMap(leaves)
  {
    PeakMapKeys(leaves);
    forall p | p in PositionSet(|leaves|)
      ensures NodeAt(cache, AllNodes(leaves), p)
    {
    }
  }

  /**
   Before anything is pruned, the old peaks and the new nodes together already hold every peak of
   the longer range, and nothing that is not in its array of all nodes.
   */
  lemma {:induction false} CacheCoversPeaks(
      leaves: seq<LeafData>, x: LeafData, added: seq<HistoryEntry>, cache: map<nat, HistoryEntry>)
    requires added == Appended(Peaks(leaves), Leaf(x))
    requires cache == Inserted(PeakMap(leaves), Size(|leaves|), added)
    ensures Covers(cache, leaves + [x])
  {
    AllNodesSize(leaves);
    PeakMapInArray(leaves);
    InsertedInArray(PeakMap(leaves), AllNodes(leaves), added);
    InsertedKeys(PeakMap(leaves), Size(|leaves|), added);
    PeakMapKeys(leaves);
    PositionSetStep(|leaves|);
    NewNodesAdded(leaves, x, added);
  }

  lemma {:induction false} PeakMapInArray(leaves: seq<LeafData>)
    ensures PartOf(PeakMap(leaves), AllNodes(leaves))
  {
    PeakMapKeys(leaves);
  }

  lemma {:induction false} NewNodesAdded(
      leaves: seq<LeafData>, x: LeafData, added: seq<HistoryEntry>)
    requires added == Appended(Peaks(leaves), Leaf(x))
    ensures AllNodes(leaves + [x]) == AllNodes(leaves) + added
    ensures Size(|leaves + [x]|) == Size(|leaves|) + |added|
    ensures |added| == TrailingOnes(|leaves|) + 1
  {
    AppendLeaf(leaves, x, added);
  }

  lemma {:induction false} PositionSetStep(n: nat)
    ensures PositionSet(n + 1) <= PositionSet(n) + {Size(n) + TrailingOnes(n)}
  {
    AppendPosition(n);
  }

  /** No activation of a later upgrade is at height zero. */
  lemma GenesisAtZero(net: Network)
    requires WellFormed(net)
    ensures Current(net, 0) == Genesis
  {
    var a := net.activations;
    var i :| 0 <= i < |a| && a[i].height <= 0 && Current(net, 0) == a[i].upgrade;
  }

  class NonEmptyHistoryTree {
    var network: Network
    var upgrade: Upgrade
    var inner: InnerTree
    var size: NodeCount
    var peaks: map<nat, HistoryEntry>
    var currentHeight: nat
    /** All the leaves that were pushed since the tree was started, which it does not store. */
    ghost var leaves: seq<LeafData>

    /** What the tree stores is what the mountain range over all its leaves comes to. */
    ghost predicate Valid()
      reads this
    {
      && WellFormed(network) && upgrade == Current(network, currentHeight) && HasHistory(upgrade)
      && 0 < |leaves| <= currentHeight <= MAX_HEIGHT
      && size == Size(|leaves|)
      && peaks == PeakMap(leaves)
      && inner == InnerTree(upgrade, size, Peaks(leaves))
    }

    /** Start a tree with a single block. */
    constructor FromBlock(network: Network, p: Push)
      requires WellFormed(network) && p.height <= MAX_HEIGHT
      requires HasHistory(Current(network, p.height))
      ensures Valid() && this.network == network && currentHeight == p.height
      ensures leaves == [NewLeaf(Current(network, p.height), p)]
    {
      GenesisAtZero(network);
      var u := Current(network, p.height);
      var leaf := NewLeaf(u, p);
      var cache := map[0 := Leaf(leaf)];
      SingleLeaf(leaf, u);
      this.network := network;
      upgrade := u;
      peaks := cache;
      inner := NewFromCache(u, 1, cache);
      size := 1;
      currentHeight := p.height;
      leaves := [leaf];
    }

    /** Rebuild a tree from the size, peaks and height of a tree over `leaves`. */
    constructor FromCache(network: Network, size: NodeCount, peaks: map<nat, HistoryEntry>,
                          currentHeight: nat, ghost leaves: seq<LeafData>)
      requires WellFormed(network) && HasHistory(Current(network, currentHeight))
      requires 0 < |leaves| <= currentHeight <= MAX_HEIGHT
      requires size == Size(|leaves|) && peaks == PeakMap(leaves)
      ensures Valid() && this.leaves == leaves && this.network == network
      ensures this.currentHeight == currentHeight
    {
      CacheHoldsPeaks(leaves);
      var u := Current(network, currentHeight);
      this.network := network;
      upgrade := u;
      inner := NewFromCache(u, size, peaks);
      this.size := size;
      this.peaks := peaks;
      this.currentHeight := currentHeight;
      this.leaves := leaves;
    }

    /** A copy that shares no state: its inner tree is rebuilt from the peaks. */
    method Clone() returns (copy: NonEmptyHistoryTree)
      requires Valid()
      ensures fresh(copy) && copy.Valid()
      ensures copy.leaves == leaves && copy.inner == inner && copy.size == size
      ensures copy.peaks == peaks && copy.currentHeight == currentHeight && copy.network == network
    {
      copy := new NonEmptyHistoryTree.FromCache(network, size, peaks, currentHeight, leaves);
    }

    /** The root that the chain commits to, computed from the cached peaks alone. */
    function Hash(): (root: HistoryEntry)
      requires Valid()
      reads this
      ensures IsRoot(root, leaves) && Flat(root) == leaves
    {
      BagIsRoot(leaves, BitLength(|leaves|));
      RootIsFlat(Bag(inner.peaks), leaves);
      Bag(inner.peaks)
    }

    /** Add the next block: to this tree, or to a new one if the block activates an upgrade. */
    method Push(p: Push)
      requires Valid() && p.height == currentHeight + 1 <= MAX_HEIGHT
      modifies this
      ensures Valid() && network == old(network) && currentHeight == p.height
      ensures leaves == (if upgrade == old(upgrade) then old(leaves) else [])
                        + [NewLeaf(Current(network, p.height), p)]
    {
      CurrentMonotone(network, currentHeight, p.height);
      var networkUpgrade := Current(network, p.height);
      if networkUpgrade != upgrade {
        var newTree := new NonEmptyHistoryTree.FromBlock(network, p);
        upgrade, inner, size := newTree.upgrade, newTree.inner, newTree.size;
        peaks, currentHeight, leaves := newTree.peaks, newTree.currentHeight, newTree.leaves;
      } else {
        Grow(NewLeaf(networkUpgrade, p));
        currentHeight := p.height;
      }
    }

    /** Append a leaf of the current upgrade: insert the new nodes, then prune. */
    method Grow(leaf: LeafData)
      requires Valid() && |leaves| < MAX_HEIGHT
      modifies this`peaks, this`size, this`inner, this`leaves
      ensures leaves == old(leaves) + [leaf] && size == Size(|leaves|)
      ensures peaks == PeakMap(leaves) && inner == InnerTree(upgrade, size, Peaks(leaves))
    {
      var added := Appended(inner.peaks, Leaf(leaf));
      NewNodesAdded(leaves, leaf, added);
      InsertEntries(added);
      CacheCoversPeaks(leaves, leaf, added, peaks);
      leaves := leaves + [leaf];
      Prune();
    }

    /** Not every new entry is a peak: the others are pruned later. */
    method InsertEntries(added: seq<HistoryEntry>)
      requires size + |added| < 0x1_0000_0000
      modifies this`peaks, this`size
      ensures size == old(size) + |added|
      ensures peaks == Inserted(old(peaks), old(size), added)
    {
      for i := 0 to |added|
        invariant size == old(size) + i
        invariant peaks == Inserted(old(peaks), old(size), added[..i])
      {
        assert added[..i + 1][..i] == added[..i];
        peaks := peaks[size := added[i]];
        size := size + 1;
      }
      assert added[..|added|] == added;
    }

    /** Drop every entry that is not a peak, and rebuild the inner tree from the rest. */
    method Prune()
      requires 0 < |leaves| <= MAX_HEIGHT && size == Size(|leaves|)
      requires Covers(peaks, leaves)
      modifies this`peaks, this`inner
      ensures peaks == PeakMap(leaves)
      ensures inner == InnerTree(upgrade, size, Peaks(leaves))
    {
      var found, _ := FindPeaks(size, |leaves|);
      PrunedIsPeakMap(peaks, leaves);
      CacheHoldsPeaks(leaves);
      peaks := map p | p in peaks && p in found :: peaks[p];
      inner := NewFromCache(upgrade, size, peaks);
    }
  }

  lemma {:induction false} SingleLeaf(leaf: LeafData, u: Upgrade)
    ensures Size(1) == 1 && PeakMap([leaf]) == map[0 := Leaf(leaf)]
    ensures NewFromCache(u, 1, map[0 := Leaf(leaf)]) == InnerTree(u, 1, Peaks([leaf]))
  {
    assert [leaf][..1] == [leaf] && [leaf][1..] == [];
    assert Perfect([leaf], 0) == Leaf(leaf);
    assert NodesBelow([leaf], 1) == [Leaf(leaf)];
    assert PositionsBelow(1, 1, 0) == [0];
    CacheHoldsPeaks([leaf]);
  }

  /** The leaves of a chain of blocks since its last upgrade, if that has a history tree. */
  ghost function LeavesSince(net: Network, chain: seq<Push>): seq<LeafData>
    requires WellFormed(net)
  {
    if chain == [] then []
    else
      var m := |chain| - 1;
      var u := Current(net, chain[m].height);
      if !HasHistory(u) then []
      else (if m > 0 && u == Current(net, chain[m - 1].height) then LeavesSince(net, chain[..m])
            else []) + [NewLeaf(u, chain[m])]
  }

  ghost predicate Consecutive(chain: seq<Push>) {
    forall i :: 0 <= i < |chain| ==> chain[i].height == chain[0].height + i
  }

  lemma {:induction false} LeavesSinceStep(net: Network, chain: seq<Push>, p: Push)
    requires WellFormed(net)
    ensures var u := Current(net, p.height);
            LeavesSince(net, chain + [p]) ==
            if !HasHistory(u) then []
            else (if chain != [] && u == Current(net, chain[|chain| - 1].height)
                  then LeavesSince(net, chain) else []) + [NewLeaf(u, p)]
  {
    assert (chain + [p])[..|chain|] == chain;
  }

  /** The leaves are those of the blocks, which all belong to upgrade `u`. */
  ghost predicate LeavesOf(net: Network, blocks: seq<Push>, u: Upgrade, leaves: seq<LeafData>)
    requires WellFormed(net) && HasHistory(u)
  {
    && |leaves| == |blocks|
    && (forall i :: 0 <= i < |blocks| ==>
          Current(net, blocks[i].height) == u && Commits(leaves[i], u, blocks[i]))
  }

  /** The leaves are those of the blocks from `start` on, which are exactly those of upgrade `u`. */
  ghost predicate LeavesFrom(
      net: Network, chain: seq<Push>, u: Upgrade, start: nat, leaves: seq<LeafData>)
    requires WellFormed(net) && HasHistory(u)
  {
    && start <= |chain|
    && (forall i :: 0 <= i < start ==> Current(net, chain[i].height) != u)
    && LeavesOf(net, chain[start..], u, leaves)
  }

  /**
   The leaves since the last upgrade are those of exactly the blocks whose upgrade is the one in
   force at the tip, in chain order; before Heartwood there are none.
   */
  lemma {:induction false} LeavesAreOfTipUpgrade(net: Network, chain: seq<Push>, u: Upgrade)
      returns (start: nat)
    requires WellFormed(net) && chain != [] && Consecutive(chain)
    requires u == Current(net, chain[|chain| - 1].height)
    ensures HasHistory(u) ==> LeavesFrom(net, chain, u, start, LeavesSince(net, chain))
    ensures !HasHistory(u) ==> LeavesSince(net, chain) == []
  {
    var m := |chain| - 1;
    start := m;
    var init, tip := chain[..m], chain[m];
    assert chain == init + [tip];
    LeavesSinceStep(net, init, tip);
    if HasHistory(u) {
      if init != [] && u == Current(net, init[m - 1].height) {
        start := LeavesAreOfTipUpgrade(net, init, u);
        LeavesFromStep(net, init, tip, u, start, LeavesSince(net, init));
      } else {
        LeavesFromTip(net, chain, u);
      }
    }
  }

  /** If the tip activates its upgrade, then no earlier block has that upgrade. */
  lemma {:induction false} LeavesFromTip(net: Network, chain: seq<Push>, u: Upgrade)
    requires WellFormed(net) && chain != [] && Consecutive(chain) && HasHistory(u)
    requires u == Current(net, chain[|chain| - 1].height)
    requires |chain| > 1 ==> Current(net, chain[|chain| - 2].height) != u
    ensures LeavesFrom(net, chain, u, |chain| - 1, [NewLeaf(u, chain[|chain| - 1])])
  {
    var m := |chain| - 1;
    forall i | 0 <= i < m
      ensures Current(net, chain[i].height) != u
    {
      CurrentMonotone(net, chain[i].height, chain[m - 1].height);
      CurrentMonotone(net, chain[m - 1].height, chain[m].height);
    }
  }

  lemma {:induction false} LeavesFromStep(
      net: Network, init: seq<Push>, p: Push, u: Upgrade, start: nat, leaves: seq<LeafData>)
    requires WellFormed(net) && HasHistory(u) && LeavesFrom(net, init, u, start, leaves)
    requires Current(net, p.height) == u
    ensures LeavesFrom(net, init + [p], u, start, leaves + [NewLeaf(u, p)])
  {
    assert (init + [p])[start..] == init[start..] + [p];
  }

  /** What the wrapper's three cases compare the height against, in terms of upgrades. */
  lemma {:induction false} HeartwoodCases(net: Network, chain: seq<Push>, p: Push)
    requires WellFormed(net)
    requires chain != [] ==> p.height == chain[|chain| - 1].height + 1
    requires chain == [] ==>
               match ActivationHeight(net, Rank(Heartwood))
               case Some(h) => p.height <= h
               case None => true
    ensures var had := chain != [] && HasHistory(Current(net, chain[|chain| - 1].height));
            match ActivationHeight(net, Rank(Heartwood))
            case None => !had && !HasHistory(Current(net, p.height))
            case Some(h) =>
              && (HasHistory(Current(net, p.height)) <==> h <= p.height)
              && (had <==> h < p.height)
  {
    ActivationHeightSplits(net, Rank(Heartwood), p.height);
    if chain != [] {
      ActivationHeightSplits(net, Rank(Heartwood), chain[|chain| - 1].height);
    }
  }

  /** There are leaves exactly when the upgrade at the tip has a history tree. */
  lemma {:induction false} LeavesExist(net: Network, chain: seq<Push>)
    requires WellFormed(net)
    ensures LeavesSince(net, chain) != []
       <==> chain != [] && HasHistory(Current(net, chain[|chain| - 1].height))
  {
    if chain != [] {
      var m := |chain| - 1;
      assert chain == chain[..m] + [chain[m]];
      LeavesSinceStep(net, chain[..m], chain[m]);
    }
  }

  /** What the wrapper's three cases mean for its tree. */
  lemma {:induction false} PushCases(net: Network, chain: seq<Push>, p: Push)
    requires WellFormed(net) && Consecutive(chain)
    requires chain != [] ==> p.height == chain[|chain| - 1].height + 1
    requires chain == [] ==>
               match ActivationHeight(net, Rank(Heartwood))
               case Some(h) => p.height <= h
               case None => true
    ensures Consecutive(chain + [p])
    ensures var before, after := LeavesSince(net, chain), LeavesSince(net, chain + [p]);
            var u, h := Current(net, p.height), ActivationHeight(net, Rank(Heartwood));
            && (h.None? || p.height < h.value ==> before == [] && after == [])
            && (h.Some? && p.height == h.value ==>
                  before == [] && HasHistory(u) && after == [NewLeaf(u, p)])
            && (h.Some? && h.value < p.height ==> before != [])
  {
    HeartwoodCases(net, chain, p);
    LeavesExist(net, chain);
    LeavesSinceStep(net, chain, p);
  }

  /** A history tree that starts out empty, and comes to exist at Heartwood activation. */
  class HistoryTree {
    const network: Network
    var tree: NonEmptyHistoryTree?
    /** The blocks that were pushed so far. */
    ghost var chain: seq<Push>

    ghost predicate Valid()
      reads this, tree
    {
      && WellFormed(network) && Consecutive(chain)
      && (tree == null <==> LeavesSince(network, chain) == [])
      && (tree != null ==>
            && tree.Valid() && tree.network == network && chain != []
            && tree.currentHeight == chain[|chain| - 1].height
            && tree.leaves == LeavesSince(network, chain))
    }

    constructor Empty(network: Network)
      requires WellFormed(network)
      ensures Valid() && chain == [] && this.network == network
    {
      this.network := network;
      tree := null;
      chain := [];
    }

    constructor FromBlock(network: Network, p: Push)
      requires WellFormed(network) && p.height <= MAX_HEIGHT
      ensures Valid() && chain == [p] && this.network == network
      ensures tree != null ==> fresh(tree)
    {
      this.network := network;
      tree := null;
      chain := [p];
      new;
      ActivationHeightSplits(network, Rank(Heartwood), p.height);
      var heartwood := ActivationHeight(network, Rank(Heartwood));
      if heartwood.Some? && heartwood.value <= p.height {
        tree := new NonEmptyHistoryTree.FromBlock(network, p);
      }
    }

    /** The root over all blocks since the last upgrade, if there is a tree. */
    function Hash(): (root: Option<HistoryEntry>)
      requires Valid()
      reads this, tree
      ensures root.None? <==> LeavesSince(network, chain) == []
      ensures root.Some? ==> IsRoot(root.value, LeavesSince(network, chain))
      ensures root.Some? ==> Flat(root.value) == LeavesSince(network, chain)
    {
      if tree == null then None else Some(tree.Hash())
    }

    /** Push the next block of the chain; the first one may not be after Heartwood activation. */
    method Push(p: Push)
      requires Valid() && p.height <= MAX_HEIGHT
      requires chain != [] ==> p.height == chain[|chain| - 1].height + 1
      requires chain == [] ==>
                 match ActivationHeight(network, Rank(Heartwood))
                 case Some(h) => p.height <= h
                 case None => true
      modifies this, tree
      ensures Valid() && chain == old(chain) + [p]
      ensures tree != old(tree) ==> tree != null && fresh(tree)
    {
      var heartwood := ActivationHeight(network, Rank(Heartwood));
      PushCases(network, chain, p);
      if heartwood.None? {
        assert tree == null;
        chain := chain + [p];
      } else if p.height < heartwood.value {
        assert tree == null;
        chain := chain + [p];
      } else if p.height == heartwood.value {
        Start(p);
      } else {
        assert tree != null;
        Continue(p);
      }
    }

    method Start(p: Push)
      requires Valid() && tree == null && p.height <= MAX_HEIGHT && Consecutive(chain + [p])
      requires HasHistory(Current(network, p.height))
      requires LeavesSince(network, chain + [p]) == [NewLeaf(Current(network, p.height), p)]
      modifies this
      ensures Valid() && chain == old(chain) + [p] && tree != null && fresh(tree)
    {
      chain := chain + [p];
      tree := new NonEmptyHistoryTree.FromBlock(network, p);
    }

    method Continue(p: Push)
      requires Valid() && tree != null && Consecutive(chain + [p])
      requires p.height == tree.currentHeight + 1 <= MAX_HEIGHT
      modifies this`chain, tree
      ensures Valid() && chain == old(chain) + [p]
    {
      LeavesSinceStep(network, chain, p);
      CurrentMonotone(network, tree.currentHeight, p.height);
      chain := chain + [p];
      tree.Push(p);
    }
  }
}

/**
 The checkpoint verifier: it queues blocks by height and, once the queue is contiguous up to a
 checkpoint, walks the hash chain back from that checkpoint. The walk either confirms the whole
 range, or repairs the queue and waits for another block.
 */
module CheckpointVerification {
  import opened CheckpointQueue
  import Networks
  import opened Options
  import opened OrderedKeys

  datatype Progress =
    | BeforeGenesis
    | InitialTip(height: nat)
    | PreviousCheckpoint(height: nat)
    | FinalCheckpoint

  /** Chain order of progress. */
  predicate Less(a: Progress, b: Progress) {
    a != b &&
    match (a, b)
    case (BeforeGenesis, _) => true
    case (_, BeforeGenesis) => false
    case (FinalCheckpoint, _) => false
    case (_, FinalCheckpoint) => true
    case (_, _) => a.height < b.height
  }

  datatype TargetHeight = WaitingForBlocks | Checkpoint(height: nat) | FinishedVerifying

  /** Chain order of targets, in which waiting is not comparable with a checkpoint. */
  predicate TargetLess(a: TargetHeight, b: TargetHeight) {
    match (a, b)
    case (FinishedVerifying, _) => false
    case (_, FinishedVerifying) => true
    case (Checkpoint(x), Checkpoint(y)) => x < y
    case (_, _) => false
  }

  /** The last verified height, with -1 before genesis. */
  function VerifiedTo(p: Progress, max: nat): int {
    match p
    case BeforeGenesis => -1
    case InitialTip(h) => h
    case PreviousCheckpoint(h) => h
    case FinalCheckpoint => max
  }

  /** Before the last checkpoint, progress is ordered by the last verified height. */
  lemma {:induction false} ProgressIsHeightOrder(a: Progress, b: Progress, max: nat)
    requires VerifiedTo(a, max) < max || a.FinalCheckpoint?
    requires VerifiedTo(b, max) < max || b.FinalCheckpoint?
    ensures Less(a, b) <==> VerifiedTo(a, max) < VerifiedTo(b, max)
  {
  }

  // The checkpoints.

  type Checkpoints = map<nat, Hash>

  /** A list that starts at genesis, and whose checkpoints lie on the chain. */
  ghost predicate OnChain(checkpoints: Checkpoints, main: seq<Hash>) {
    && 0 in checkpoints
    && forall h :: h in checkpoints ==>
         h <= Networks.MAX_HEIGHT && h < |main| && checkpoints[h] == main[h]
  }

  function MaxHeight(checkpoints: Checkpoints): (max: nat)
    requires 0 in checkpoints
    ensures max in checkpoints
    ensures forall h :: h in checkpoints ==> h <= max
  {
    MaxKey(checkpoints.Keys)
  }

  /** The queue is contiguous from the last verified height `s` to the checkpoint `t`. */
  ghost predicate Reachable(keys: set<nat>, checkpoints: Checkpoints, s: int, t: nat) {
    && t in checkpoints && s < t
    && forall h: nat :: s < h <= t ==> h in keys
  }

  /** The highest reachable checkpoint, if there is one. */
  ghost predicate IsTarget(keys: set<nat>, checkpoints: Checkpoints, s: int, target: TargetHeight) {
    match target
    case Checkpoint(t) =>
      && Reachable(keys, checkpoints, s, t)
      && forall u: nat :: Reachable(keys, checkpoints, s, u) ==> u <= t
    case WaitingForBlocks => forall u: nat :: !Reachable(keys, checkpoints, s, u)
    case FinishedVerifying => false
  }

  /** The last height of the run that follows `start` in ascending heights: it stops at a gap. */
  method ContiguousEnd(above: seq<nat>, start: nat) returns (end: nat)
    requires forall i, j :: 0 <= i < j < |above| ==> above[i] < above[j]
    requires forall i :: 0 <= i < |above| ==> start < above[i]
    ensures start <= end && end + 1 !in above
    ensures forall h: nat :: start < h <= end ==> h in above
  {
    var i := 0;
    end := start;
    while i < |above| && above[i] == end + 1
      invariant 0 <= i <= |above| && end == start + i
      invariant forall j :: 0 <= j < i ==> above[j] == start + 1 + j
      invariant i < |above| ==> end < above[i]
    {
      end := above[i];
      i := i + 1;
    }
    forall h: nat | start < h <= end
      ensures h in above
    {
      assert above[h - start - 1] == h;
    }
  }

  lemma {:induction false} WaitingForGenesis(keys: set<nat>, checkpoints: Checkpoints)
    requires 0 !in keys
    ensures IsTarget(keys, checkpoints, -1, WaitingForBlocks)
  {
    assert forall u: nat :: Reachable(keys, checkpoints, -1, u) ==> 0 in keys;
  }

  /** The highest checkpoint within the contiguous run is the target. */
  lemma {:induction false} TargetInRun(
      keys: set<nat>, checkpoints: Checkpoints, s: int, end: nat, found: Option<nat>)
    requires -1 <= s <= end && end + 1 !in keys
    requires forall h: nat :: s < h <= end ==> h in keys
    requires found == MaxInRange(checkpoints.Keys, s + 1, end + 1)
    ensures IsTarget(keys, checkpoints, s,
                     if found.Some? then Checkpoint(found.value) else WaitingForBlocks)
  {
    forall u: nat | Reachable(keys, checkpoints, s, u)
      ensures u in checkpoints.Keys && s + 1 <= u < end + 1
    {
      assert u > end ==> end + 1 in keys;
    }
  }

  // What a walk down to height `c` from the checkpoint `t` makes of the queue.

  /** `r` is `q` with the heights above `c` up to `t` taken out. */
  ghost predicate TakenOut(r: Queue, q: Queue, c: int, t: int) {
    r == Outside(q, c, t)
  }

  ghost function Outside(q: Queue, c: int, t: int): Queue {
    map h | h in q && !(c < h <= t) :: q[h]
  }

  lemma {:induction false} TakenOutNext(r: Queue, q: Queue, s: int, h: nat)
    requires TakenOut(r, q, s, h - 1) && s < h
    ensures TakenOut(r - {h}, q, s, h)
  {
  }

  /** The heights of a range without gaps, as walking the queue yields them. */
  method RangeHeights(keys: set<nat>, from: nat, to: nat) returns (heights: seq<nat>)
    requires from <= to + 1 && forall h: nat :: from <= h <= to ==> h in keys
    ensures |heights| == to + 1 - from
    ensures forall i :: 0 <= i < |heights| ==> heights[i] == from + i
  {
    AscendingFull(keys, from, to + 1);
    heights := Ascending(keys, from, to + 1);
  }

  /** `b` is the block of this hash in the list. */
  ghost predicate IsMatch(list: seq<QueuedBlock>, hash: Hash, b: QueuedBlock) {
    b in list && b.block.hash == hash
  }

  ghost predicate NoMatch(list: seq<QueuedBlock>, hash: Hash) {
    forall i :: 0 <= i < |list| ==> list[i].block.hash != hash
  }

  /** The walk found these blocks of the chain in the queue, from the checkpoint `t` down. */
  ghost predicate Found(q: Queue, main: seq<Hash>, rev: seq<QueuedBlock>, t: nat) {
    && |rev| <= t + 1 && t < |main|
    && forall h {:trigger FoundAt(q, main, rev, t, h)} :: FoundAt(q, main, rev, t, h)
  }

  ghost predicate FoundAt(q: Queue, main: seq<Hash>, rev: seq<QueuedBlock>, t: nat, h: nat) {
    t - |rev| < h <= t < |main| ==> h in q && IsMatch(q[h], main[h], rev[t - h])
  }

  /** `r` is `q` with only the blocks found by the walk at the heights it has passed. */
  ghost predicate OnlyFound(r: Queue, q: Queue, rev: seq<QueuedBlock>, t: nat) {
    |rev| <= t + 1 && r == Sifted(q, rev, t)
  }

  ghost function Sifted(q: Queue, rev: seq<QueuedBlock>, t: nat): Queue {
    map h | h in q :: if t - |rev| < h <= t then [rev[t - h]] else q[h]
  }

  /**
   `r` is `q` without height `c` and with only the blocks found above `c`, put back up to height
   `m` of `t`: what repairing the queue after a walk that failed at `c` leads to.
   */
  ghost predicate Repaired(r: Queue, q: Queue, rev: seq<QueuedBlock>, c: nat, m: nat, t: nat) {
    |rev| == t - c && r == PutBack(q, rev, c, m, t)
  }

  ghost function PutBack(q: Queue, rev: seq<QueuedBlock>, c: nat, m: nat, t: nat): Queue
    requires |rev| == t - c
  {
    map h | h in q && h != c && !(m < h <= t) :: if c < h <= t then [rev[t - h]] else q[h]
  }

  /** The answers that confirm blocks, in this order. */
  ghost function Confirmations(blocks: seq<QueuedBlock>): seq<Sent> {
    if blocks == [] then []
    else
      var b := blocks[|blocks| - 1];
      Confirmations(blocks[..|blocks| - 1]) +
      [Sent(b.tx, Place(b.block.height, b.block.hash), Verified(b.block.hash))]
  }

  lemma {:induction false} ConfirmationsNext(log: seq<Sent>, blocks: seq<QueuedBlock>, j: nat)
    requires j < |blocks|
    ensures var b := blocks[j];
            log + Confirmations(blocks[..j + 1]) == log + Confirmations(blocks[..j]) +
            [Sent(b.tx, Place(b.block.height, b.block.hash), Verified(b.block.hash))]
  {
    assert blocks[..j + 1][..j] == blocks[..j];
  }

  /** Each block has the height after, and names as its parent, the one before it. */
  ghost predicate Linked(blocks: seq<QueuedBlock>, s: int, previous: Hash) {
    && (forall j :: 0 <= j < |blocks| ==> blocks[j].block.height == s + 1 + j)
    && (forall j :: 0 < j < |blocks| ==> blocks[j].block.previous == blocks[j - 1].block.hash)
    && (blocks != [] ==> blocks[0].block.previous == previous)
  }

  ghost predicate IsRejection(s: Sent) {
    s.answer.UnexpectedSideChain?
  }

  /** The log has grown by side-chain rejections only. */
  ghost predicate Rejections(before: seq<Sent>, after: seq<Sent>) {
    && before <= after
    && forall i {:trigger IsRejection(after[i])} ::
         |before| <= i < |after| ==> IsRejection(after[i])
  }

  ghost predicate IsDropped(s: Sent) {
    s.answer.Dropped?
  }

  /** The log has grown by answers to dropped requests only. */
  ghost predicate Drops(before: seq<Sent>, after: seq<Sent>) {
    && before <= after
    && forall i {:trigger IsDropped(after[i])} :: |before| <= i < |after| ==> IsDropped(after[i])
  }

  lemma {:induction false} DropsJoin(a: seq<Sent>, b: seq<Sent>, c: seq<Sent>)
    requires Drops(a, b) && Drops(b, c)
    ensures Drops(a, c)
  {
    forall i | |a| <= i < |c|
      ensures IsDropped(c[i])
    {
      assert i < |b| ==> c[i] == b[i] && IsDropped(b[i]);
    }
  }

  lemma {:induction false} RejectionsJoin(a: seq<Sent>, b: seq<Sent>, c: seq<Sent>)
    requires Rejections(a, b) && Rejections(b, c)
    ensures Rejections(a, c)
  {
    forall i | |a| <= i < |c|
      ensures IsRejection(c[i])
    {
      assert i < |b| ==> c[i] == b[i] && IsRejection(b[i]);
    }
  }

  lemma {:induction false} WithoutMiddle(
      kept: seq<QueuedBlock>, b: QueuedBlock, rest: seq<QueuedBlock>)
    ensures Without(kept + [b] + rest, |kept|) == kept + rest
    ensures DistinctHashes(kept + [b] + rest) ==> DistinctHashes(kept + rest)
  {
    var all, some := kept + [b] + rest, kept + rest;
    assert forall i :: 0 <= i < |some| ==> some[i] == all[if i < |kept| then i else i + 1];
    if DistinctHashes(all) {
      forall i: nat, j: nat
        ensures Differ(some, i, j)
      {
        assert Differ(all, if i < |kept| then i else i + 1, if j < |kept| then j else j + 1);
      }
    }
  }

  lemma {:induction false} SplitNext(kept: seq<QueuedBlock>, list: seq<QueuedBlock>, i: nat)
    requires i < |list|
    ensures kept + list[i..] == kept + [list[i]] + list[i + 1..]
  {
    assert list[i..] == [list[i]] + list[i + 1..];
  }

  lemma {:induction false} TakenOutStep(r: Queue, q: Queue, c: nat, t: nat)
    requires TakenOut(r, q, c, t) && c <= t
    ensures TakenOut(r - {c}, q, c - 1, t)
  {
  }

  lemma {:induction false} OnlyFoundStep(
      r: Queue, q: Queue, rev: seq<QueuedBlock>, t: nat, c: nat, b: QueuedBlock)
    requires OnlyFound(r, q, rev, t) && c == t - |rev| && c in q
    ensures OnlyFound(r[c := [b]], q, rev + [b], t)
  {
  }

  lemma {:induction false} RepairStart(r: Queue, q: Queue, rev: seq<QueuedBlock>, t: nat, c: nat)
    requires OnlyFound(r, q, rev, t) && c == t - |rev|
    ensures Repaired(r - {c}, q, rev, c, t, t)
  {
  }

  lemma {:induction false} FoundStep(
      q: Queue, main: seq<Hash>, rev: seq<QueuedBlock>, t: nat, c: nat, b: QueuedBlock)
    requires Found(q, main, rev, t) && c == t - |rev| && c in q && IsMatch(q[c], main[c], b)
    ensures Found(q, main, rev + [b], t)
  {
    forall h: nat
      ensures FoundAt(q, main, rev + [b], t, h)
    {
      assert FoundAt(q, main, rev, t, h);
    }
  }

  lemma {:induction false} RepairBegins(r: Queue, q: Queue, rev: seq<QueuedBlock>, c: nat, t: nat)
    requires TakenOut(r, q, c - 1, t) && c <= t && |rev| == t - c
    ensures Repaired(r, q, rev, c, c, t)
  {
  }

  lemma {:induction false} RepairStep(
      r: Queue, q: Queue, rev: seq<QueuedBlock>, c: nat, m: nat, t: nat)
    requires Repaired(r, q, rev, c, m, t) && c <= m < t && m + 1 in q
    ensures m + 1 !in r && Repaired(r[m + 1 := [rev[t - (m + 1)]]], q, rev, c, m + 1, t)
  {
  }

  /** What the walk finds has the height at which it was found, and links to the height below. */
  lemma {:induction false} FoundLinks(
      q: Queue, main: seq<Hash>, max: nat, rev: seq<QueuedBlock>, t: nat, h: nat)
    requires QueueOk(main, max, q) && Found(q, main, rev, t) && t - |rev| < h <= t
    ensures h in q && rev[t - h] in q[h] && rev[t - h].block == Block(h, main[h], Parent(main, h))
  {
    assert FoundAt(q, main, rev, t, h);
    assert ListOk(main, h, q[h]);
  }

  lemma {:induction false} TakenOutOk(r: Queue, q: Queue, main: seq<Hash>, max: nat, s: int, t: nat)
    requires QueueOk(main, max, q) && TakenOut(r, q, s, t)
    ensures QueueOk(main, max, r)
  {
    forall h | h in r
      ensures ListOk(main, h, r[h])
    {
      assert ListOk(main, h, q[h]);
    }
  }

  /** What a failed pass makes of the queue: nothing of the chain is lost, and `c` is cleared. */
  ghost predicate FailedPass(q: Queue, r: Queue, main: seq<Hash>, s: int, c: nat, t: nat) {
    && s < c <= t < |main| && c in q && NoMatch(q[c], main[c])
    && r.Keys == q.Keys - {c}
    && forall h: nat :: h in r ==>
         if c < h <= t then |r[h]| == 1 && IsMatch(q[h], main[h], r[h][0]) else r[h] == q[h]
  }

  lemma {:induction false} RepairedIsFailedPass(
      q: Queue, r: Queue, main: seq<Hash>, rev: seq<QueuedBlock>, s: int, c: nat, t: nat)
    requires Repaired(r, q, rev, c, t, t) && Found(q, main, rev, t)
    requires s < c <= t && c in q && NoMatch(q[c], main[c])
    ensures FailedPass(q, r, main, s, c, t)
  {
    forall h: nat | h in r && c < h <= t
      ensures IsMatch(q[h], main[h], rev[t - h])
    {
      assert FoundAt(q, main, rev, t, h);
    }
  }

  lemma {:induction false} FailedPassOk(
      q: Queue, r: Queue, main: seq<Hash>, max: nat, s: int, c: nat, t: nat)
    requires QueueOk(main, max, q) && FailedPass(q, r, main, s, c, t)
    ensures QueueOk(main, max, r)
  {
    forall h | h in r
      ensures h <= max && ListOk(main, h, r[h])
    {
      assert h in q && ListOk(main, h, q[h]);
    }
  }

  lemma {:induction false} FailedPassSides(
      q: Queue, r: Queue, main: seq<Hash>, s: int, c: nat, t: nat, h: nat)
    requires FailedPass(q, r, main, s, c, t)
    ensures SideAt(r, main, h) <= SideAt(q, main, h)
  {
    if h in r && c < h <= t {
      assert r[h] == [r[h][0]] && Sides(r[h], main[h]) == 0;
    }
  }

  /** A failed pass leaves fewer side-chain blocks in the queue. */
  lemma {:induction false} FailedPassShrinks(
      q: Queue, r: Queue, main: seq<Hash>, max: nat, s: int, c: nat, t: nat)
    requires QueueOk(main, max, q) && FailedPass(q, r, main, s, c, t)
    ensures SideCount(r, main, max + 1) < SideCount(q, main, max + 1)
  {
    assert SideAt(q, main, c) > 0 by {
      assert ListOk(main, c, q[c]);
      AllSides(q[c], main[c]);
    }
    forall h: nat
      ensures SideAt(r, main, h) <= SideAt(q, main, h)
    {
      FailedPassSides(q, r, main, s, c, t, h);
    }
    SideCountAt(q, r, main, max + 1, c);
  }

  /** After a failed pass every reachable checkpoint is below the height at which it failed. */
  lemma {:induction false} FailedPassLowers(
      q: Queue, r: Queue, main: seq<Hash>, checkpoints: Checkpoints, s: int, c: nat, t: nat, u: nat)
    requires FailedPass(q, r, main, s, c, t) && Reachable(r.Keys, checkpoints, s, u)
    ensures u < c
  {
    assert u >= c ==> c in r.Keys;
  }

  /** A block of the chain is queued after a failed pass if it was queued before. */
  lemma {:induction false} FailedPassKeepsChain(
      q: Queue, r: Queue, main: seq<Hash>, s: int, c: nat, t: nat, h: nat, b: QueuedBlock)
    requires FailedPass(q, r, main, s, c, t)
    requires h in q && h < |main| && DistinctHashes(q[h]) && IsMatch(q[h], main[h], b)
    ensures h in r && IsMatch(r[h], main[h], b)
  {
    var i :| 0 <= i < |q[h]| && q[h][i] == b;
    if c < h <= t {
      var j :| 0 <= j < |q[h]| && q[h][j] == r[h][0];
      SameHash(q[h], i, j);
    }
  }

  /**
   What a successful pass confirms: one block per height from the last verified height `s` to the
   checkpoint `t`, each linked to the one below, the first to the last verified block.
   */
  ghost predicate ConfirmedRange(
      q: Queue, blocks: seq<QueuedBlock>, s: int, t: nat, previous: Hash, checkpoint: Hash) {
    && -1 <= s < t && |blocks| == t - s
    && Linked(blocks, s, previous)
    && blocks[|blocks| - 1].block.hash == checkpoint
    && forall j :: 0 <= j < |blocks| ==> QueuedAt(q, blocks[j], s + 1 + j)
  }

  ghost predicate QueuedAt(q: Queue, b: QueuedBlock, h: nat) {
    h in q && b in q[h]
  }

  /** The blocks are those of the chain above height `s`. */
  ghost predicate OfChain(blocks: seq<QueuedBlock>, main: seq<Hash>, s: int) {
    && -1 <= s && s + |blocks| < |main|
    && forall j :: 0 <= j < |blocks| ==>
         blocks[j].block.height == s + 1 + j && blocks[j].block.hash == main[s + 1 + j]
  }

  lemma {:induction false} ChainIsLinked(blocks: seq<QueuedBlock>, main: seq<Hash>, s: int)
    requires -1 <= s && s + |blocks| < |main|
    requires forall j :: 0 <= j < |blocks| ==>
               blocks[j].block == Block(s + 1 + j, main[s + 1 + j], Parent(main, s + 1 + j))
    ensures Linked(blocks, s, Parent(main, s + 1)) && OfChain(blocks, main, s)
  {
  }

  lemma {:induction false} FoundIsConfirmed(
      q: Queue, main: seq<Hash>, max: nat, rev: seq<QueuedBlock>, blocks: seq<QueuedBlock>,
      s: int, t: nat)
    requires QueueOk(main, max, q) && Found(q, main, rev, t) && -1 <= s < t && |rev| == t - s
    requires |blocks| == |rev| && forall j :: 0 <= j < |rev| ==> blocks[j] == rev[|rev| - 1 - j]
    ensures ConfirmedRange(q, blocks, s, t, Parent(main, s + 1), main[t])
    ensures OfChain(blocks, main, s)
  {
    forall j | 0 <= j < |blocks|
      ensures QueuedAt(q, blocks[j], s + 1 + j)
      ensures blocks[j].block == Block(s + 1 + j, main[s + 1 + j], Parent(main, s + 1 + j))
    {
      FoundLinks(q, main, max, rev, t, s + 1 + j);
    }
    ChainIsLinked(blocks, main, s);
    assert blocks[|blocks| - 1].block.hash == main[t];
  }

  /** The blocks are alone at their heights. */
  ghost predicate Alone(p: Queue, blocks: seq<QueuedBlock>, s: int) {
    -1 <= s && forall j :: 0 <= j < |blocks| ==> AloneAt(p, blocks[j], s + 1 + j)
  }

  ghost predicate AloneAt(p: Queue, b: QueuedBlock, h: nat) {
    h in p && p[h] == [b]
  }

  lemma {:induction false} FoundAreAlone(
      p: Queue, q: Queue, main: seq<Hash>, rev: seq<QueuedBlock>, blocks: seq<QueuedBlock>,
      s: int, t: nat)
    requires Found(q, main, rev, t) && OnlyFound(p, q, rev, t) && -1 <= s < t && |rev| == t - s
    requires |blocks| == |rev| && forall j :: 0 <= j < |rev| ==> blocks[j] == rev[|rev| - 1 - j]
    ensures Alone(p, blocks, s)
  {
    forall j | 0 <= j < |blocks|
      ensures AloneAt(p, blocks[j], s + 1 + j)
    {
      assert FoundAt(q, main, rev, t, s + 1 + j);
    }
  }

  /** Once the range is confirmed, no checkpoint is reachable from the one confirmed last. */
  lemma {:induction false} NoneReachable(
      q: Queue, r: Queue, checkpoints: Checkpoints, s: int, t: nat, u: nat)
    requires IsTarget(q.Keys, checkpoints, s, Checkpoint(t)) && TakenOut(r, q, s, t)
    ensures !Reachable(r.Keys, checkpoints, t, u)
  {
    if Reachable(r.Keys, checkpoints, t, u) {
      forall h: nat | s < h <= u
        ensures h in q.Keys
      {
        assert t < h ==> h in r.Keys && h in r;
      }
      assert Reachable(q.Keys, checkpoints, s, u);
    }
  }

  lemma {:induction false} ConfirmedQueues(
      p: Queue, p0: Queue, r: Queue, q: Queue, rev: seq<QueuedBlock>, s: int, t: nat)
    requires OnlyFound(p0, q, rev, t) && |rev| == t - s
    requires TakenOut(p, p0, s, t) && TakenOut(r, q, s, t)
    ensures p == r
  {
    assert forall h :: h in p <==> h in r;
  }

  /** What trying to verify up to a checkpoint came to. */
  datatype Outcome =
    | Idle
    | Failed(target: nat, at: nat)
    | Confirmed(target: nat, blocks: seq<QueuedBlock>)

  lemma {:induction false} ConfirmationsLength(blocks: seq<QueuedBlock>)
    ensures |Confirmations(blocks)| == |blocks|
  {
    if blocks != [] {
      ConfirmationsLength(blocks[..|blocks| - 1]);
    }
  }

  /** The log has grown by side-chain rejections, and then by the confirmations of the blocks. */
  ghost predicate ConfirmedLog(before: seq<Sent>, after: seq<Sent>, blocks: seq<QueuedBlock>) {
    && |blocks| <= |after|
    && Rejections(before, after[..|after| - |blocks|])
    && after[|after| - |blocks|..] == Confirmations(blocks)
  }

  lemma {:induction false} ConfirmationsLast(
      before: seq<Sent>, mid: seq<Sent>, blocks: seq<QueuedBlock>)
    requires Rejections(before, mid)
    ensures ConfirmedLog(before, mid + Confirmations(blocks), blocks)
  {
    ConfirmationsLength(blocks);
    var after := mid + Confirmations(blocks);
    assert after[..|mid|] == mid && after[|mid|..] == Confirmations(blocks);
  }

  /** What one pass does, in terms of the state before and after it. */
  ghost predicate PassResult(
      outcome: Outcome, main: seq<Hash>, checkpoints: Checkpoints, q: Queue, r: Queue,
      before: Progress, after: Progress, log: seq<Sent>, log': seq<Sent>)
    requires 0 in checkpoints
  {
    var s := VerifiedTo(before, MaxHeight(checkpoints));
    match outcome
    case Idle =>
      && r == q && after == before && log' == log
      && (before.FinalCheckpoint? || IsTarget(q.Keys, checkpoints, s, WaitingForBlocks))
    case Failed(t, c) =>
      && !before.FinalCheckpoint? && IsTarget(q.Keys, checkpoints, s, Checkpoint(t))
      && FailedPass(q, r, main, s, c, t)
      && after == before && Rejections(log, log')
    case Confirmed(t, blocks) =>
      && !before.FinalCheckpoint? && IsTarget(q.Keys, checkpoints, s, Checkpoint(t))
      && s < |main| && ConfirmedRange(q, blocks, s, t, Parent(main, s + 1), checkpoints[t])
      && OfChain(blocks, main, s)
      && TakenOut(r, q, s, t)
      && Less(before, after) && VerifiedTo(after, MaxHeight(checkpoints)) == t
      && ConfirmedLog(log, log', blocks)
      && (forall u: nat :: !Reachable(r.Keys, checkpoints, t, u))
  }

  datatype Error =
    | Finished
    | TooHigh(height: nat, max: nat)
    | AlreadyVerified(height: nat, verified: nat)
    | CoinbaseHeight(hash: Hash)
    | Invalid
    | QueuedLimit

  lemma {:induction false} PassKeepsLog(
      outcome: Outcome, main: seq<Hash>, checkpoints: Checkpoints, q: Queue, r: Queue,
      before: Progress, after: Progress, log: seq<Sent>, log': seq<Sent>)
    requires 0 in checkpoints
    requires PassResult(outcome, main, checkpoints, q, r, before, after, log, log')
    ensures log <= log' && !Less(after, before)
  {
    if outcome.Confirmed? {
      assert log <= log'[..|log'| - |outcome.blocks|] <= log';
    }
  }

  // Which answers a call gives.

  /** Blocks that a pass has verified are answered so, and only these. */
  ghost predicate VerifiedIn(log: seq<Sent>, from: nat, h: nat) {
    exists i :: from <= i < |log| && log[i].answer.Verified? && log[i].place.height == h
  }

  lemma {:induction false} VerifiedLater(log: seq<Sent>, log': seq<Sent>, from: nat, h: nat)
    requires from <= |log| && log <= log'
    ensures VerifiedIn(log', from, h) <==> VerifiedIn(log, from, h) || VerifiedIn(log', |log|, h)
  {
    if VerifiedIn(log, from, h) {
      var i :| from <= i < |log| && log[i].answer.Verified? && log[i].place.height == h;
      assert log'[i] == log[i];
    }
    if VerifiedIn(log', from, h) && !VerifiedIn(log', |log|, h) {
      var i :| from <= i < |log'| && log'[i].answer.Verified? && log'[i].place.height == h;
      assert i < |log| && log[i] == log'[i];
    }
  }

  lemma {:induction false} ConfirmationsAt(blocks: seq<QueuedBlock>, j: nat)
    ensures |Confirmations(blocks)| == |blocks|
    ensures j < |blocks| ==>
              var b := blocks[j];
              Confirmations(blocks)[j] ==
              Sent(b.tx, Place(b.block.height, b.block.hash), Verified(b.block.hash))
  {
    if blocks != [] {
      ConfirmationsAt(blocks[..|blocks| - 1], j);
    }
  }

  /**
   A pass sends a verified answer for exactly the heights that it moves the progress over: none unless
   it confirms a range.
   */
  lemma {:induction false} PassVerifies(
      outcome: Outcome, main: seq<Hash>, checkpoints: Checkpoints, q: Queue, r: Queue,
      before: Progress, after: Progress, log: seq<Sent>, log': seq<Sent>, h: nat)
    requires 0 in checkpoints
    requires PassResult(outcome, main, checkpoints, q, r, before, after, log, log')
    ensures VerifiedIn(log', |log|, h) <==>
            VerifiedTo(before, MaxHeight(checkpoints)) < h <= VerifiedTo(after, MaxHeight(checkpoints))
  {
    match outcome
    case Idle =>
    case Failed(t, c) => RejectionsVerifyNone(log, log', h);
    case Confirmed(t, blocks) =>
      ConfirmedVerifies(log, log', blocks, main, VerifiedTo(before, MaxHeight(checkpoints)), h);
  }

  lemma {:induction false} RejectionsVerifyNone(log: seq<Sent>, log': seq<Sent>, h: nat)
    requires Rejections(log, log')
    ensures !VerifiedIn(log', |log|, h)
  {
    forall i | |log| <= i < |log'|
      ensures !log'[i].answer.Verified?
    {
      assert IsRejection(log'[i]);
    }
  }

  lemma {:induction false} ConfirmedVerifies(
      log: seq<Sent>, log': seq<Sent>, blocks: seq<QueuedBlock>, main: seq<Hash>, s: int, h: nat)
    requires ConfirmedLog(log, log', blocks) && OfChain(blocks, main, s)
    ensures VerifiedIn(log', |log|, h) <==> s < h <= s + |blocks|
  {
    var n := |log'| - |blocks|;
    RejectionsVerifyNone(log, log'[..n], h);
    VerifiedLater(log'[..n], log', |log|, h);
    ConfirmationsVerify(log', n, blocks, main, s, h);
  }

  lemma {:induction false} ConfirmationsVerify(
      log: seq<Sent>, n: nat, blocks: seq<QueuedBlock>, main: seq<Hash>, s: int, h: nat)
    requires n <= |log| && log[n..] == Confirmations(blocks) && OfChain(blocks, main, s)
    ensures VerifiedIn(log, n, h) <==> s < h <= s + |blocks|
  {
    ConfirmationsAt(blocks, 0);
    if s < h <= s + |blocks| {
      ConfirmationsAt(blocks, h - s - 1);
      assert log[n + (h - s - 1)] == log[n..][h - s - 1];
    }
    if VerifiedIn(log, n, h) {
      var i :| n <= i < |log| && log[i].answer.Verified? && log[i].place.height == h;
      ConfirmationsAt(blocks, i - n);
      assert log[i] == log[n..][i - n];
    }
  }

  /** No request is told that a newer one replaced it, or that it was dropped. */
  ghost predicate NoneReplaced(before: seq<Sent>, after: seq<Sent>) {
    forall i :: |before| <= i < |after| ==>
      !after[i].answer.NewerRequest? && !after[i].answer.Dropped?
  }

  lemma {:induction false} PassReplacesNone(
      outcome: Outcome, main: seq<Hash>, checkpoints: Checkpoints, q: Queue, r: Queue,
      before: Progress, after: Progress, log: seq<Sent>, log': seq<Sent>)
    requires 0 in checkpoints
    requires PassResult(outcome, main, checkpoints, q, r, before, after, log, log')
    ensures NoneReplaced(log, log')
  {
    match outcome
    case Idle =>
    case Failed(t, c) => RejectionsReplaceNone(log, log');
    case Confirmed(t, blocks) =>
      var n := |log'| - |blocks|;
      RejectionsReplaceNone(log, log'[..n]);
      forall i | n <= i < |log'|
        ensures log'[i].answer.Verified?
      {
        ConfirmationsAt(blocks, i - n);
        assert log'[i] == log'[n..][i - n];
      }
      forall i | |log| <= i < n
        ensures !log'[i].answer.NewerRequest? && !log'[i].answer.Dropped?
      {
        assert log'[i] == log'[..n][i];
      }
  }

  lemma {:induction false} RejectionsReplaceNone(log: seq<Sent>, log': seq<Sent>)
    requires Rejections(log, log')
    ensures NoneReplaced(log, log')
  {
    forall i | |log| <= i < |log'|
      ensures log'[i].answer.UnexpectedSideChain?
    {
      assert IsRejection(log'[i]);
    }
  }

  /** The part of the queue that is not above height `v`, which no pass from there looks at. */
  ghost function Stranded(q: Queue, v: int): Queue {
    map h | h in q && h <= v :: q[h]
  }

  /** A pass neither strands blocks nor answers those that are stranded. */
  lemma {:induction false} PassStrandsNone(
      outcome: Outcome, main: seq<Hash>, checkpoints: Checkpoints, q: Queue, r: Queue,
      before: Progress, after: Progress, log: seq<Sent>, log': seq<Sent>)
    requires 0 in checkpoints
    requires PassResult(outcome, main, checkpoints, q, r, before, after, log, log')
    ensures Stranded(r, VerifiedTo(after, MaxHeight(checkpoints)))
         == Stranded(q, VerifiedTo(before, MaxHeight(checkpoints)))
  {
    var s := VerifiedTo(before, MaxHeight(checkpoints));
    match outcome
    case Idle =>
    case Failed(t, c) => FailedStrandsNone(q, r, main, s, c, t);
    case Confirmed(t, blocks) => ConfirmedStrandsNone(q, r, s, t);
  }

  lemma {:induction false} FailedStrandsNone(
      q: Queue, r: Queue, main: seq<Hash>, s: int, c: nat, t: nat)
    requires FailedPass(q, r, main, s, c, t)
    ensures Stranded(r, s) == Stranded(q, s)
  {
    forall h: nat | h <= s
      ensures h in r <==> h in q
      ensures h in r ==> r[h] == q[h]
    {
    }
  }

  lemma {:induction false} ConfirmedStrandsNone(q: Queue, r: Queue, s: int, t: nat)
    requires TakenOut(r, q, s, t) && s < t
    ensures Stranded(r, t) == Stranded(q, s)
  {
    forall h: nat | h <= t
      ensures h in r <==> h in q && h <= s
      ensures h in r ==> r[h] == q[h]
    {
    }
  }

  lemma {:induction false} QueuedStrandsNone(q: Queue, r: Queue, h: nat, v: int)
    requires h in r && r == q[h := r[h]] && v < h
    ensures Stranded(r, v) == Stranded(q, v)
  {
  }

  /** Every pass leaves no more side-chain blocks in the queue, and a failed one leaves fewer. */
  lemma {:induction false} PassShrinks(
      outcome: Outcome, main: seq<Hash>, checkpoints: Checkpoints, q: Queue, r: Queue,
      before: Progress, after: Progress, log: seq<Sent>, log': seq<Sent>)
    requires 0 in checkpoints && QueueOk(main, MaxHeight(checkpoints), q)
    requires PassResult(outcome, main, checkpoints, q, r, before, after, log, log')
    ensures SideCount(r, main, MaxHeight(checkpoints) + 1) + (if outcome.Failed? then 1 else 0)
         <= SideCount(q, main, MaxHeight(checkpoints) + 1)
  {
    var max := MaxHeight(checkpoints);
    if outcome.Failed? {
      FailedPassShrinks(q, r, main, max, VerifiedTo(before, max), outcome.at, outcome.target);
    } else if outcome.Confirmed? {
      SideCountAtMost(q, r, main, max + 1);
    }
  }

  /** The tip of the state: a height and a hash. */
  datatype Tip = Tip(height: nat, hash: Hash)

  /** The state tip is on the checkpointed chain, as far as that reaches. */
  ghost predicate TipOnChain(main: seq<Hash>, tip: Option<Tip>) {
    tip.Some? && tip.value.height < |main| ==> main[tip.value.height] == tip.value.hash
  }

  /** The hash and the progress that a tip stands for. */
  function ProgressFromTip(checkpoints: Checkpoints, tip: Option<Tip>): (Option<Hash>, Progress)
    requires 0 in checkpoints
  {
    match tip
    case None => (None, BeforeGenesis)
    case Some(Tip(height, hash)) =>
      if height >= MaxHeight(checkpoints) then (None, FinalCheckpoint)
      else (Some(hash), InitialTip(height))
  }

  /**
   A call of the verifier: a reset that has arrived before it, the block's coinbase height if it
   has one, its hash and its parent's, whether the checks outside this model pass, and the channel
   for the answer.
   */
  datatype Request = Request(
    reset: Option<Option<Tip>>, height: Option<nat>, hash: Hash, previous: Hash, checks: bool, tx: Tx)

  ghost predicate RequestOk(main: seq<Hash>, r: Request) {
    && (r.reset.Some? ==> TipOnChain(main, r.reset.value))
    && (r.height.Some? ==> Bound(main, Block(r.height.value, r.hash, r.previous)))
  }

  ghost predicate HasHash(list: seq<QueuedBlock>, hash: Hash) {
    exists i :: 0 <= i < |list| && list[i].block.hash == hash
  }

  /** The block is not of the chain, and is not queued yet. */
  ghost predicate IsNewSide(main: seq<Hash>, q: Queue, r: Request) {
    && r.height.Some? && r.hash !in main
    && !HasHash(Entry(q, r.height.value), r.hash)
  }

  /** The block can be verified from this progress, passes its checks, and has a place in the queue. */
  ghost predicate IsAccepted(checkpoints: Checkpoints, q: Queue, p: Progress, r: Request)
    requires 0 in checkpoints
  {
    && IsVerifiable(checkpoints, p, r) && r.checks
    && (HasHash(Entry(q, r.height.value), r.hash)
        || |Entry(q, r.height.value)| < MAX_QUEUED_BLOCKS_PER_HEIGHT)
  }

  /** The block can be verified from this progress. */
  ghost predicate IsVerifiable(checkpoints: Checkpoints, p: Progress, r: Request)
    requires 0 in checkpoints
  {
    && !p.FinalCheckpoint? && r.height.Some?
    && VerifiedTo(p, MaxHeight(checkpoints)) < r.height.value <= MaxHeight(checkpoints)
  }

  /** Nobody is dropped, and who is told of a newer request asked for the same block as `r`. */
  ghost predicate ReplacedBy(s: Sent, r: Request) {
    && !s.answer.Dropped?
    && (s.answer.NewerRequest? ==>
          r.height == Some(s.place.height) && r.hash == s.place.hash && r.tx != s.tx)
  }

  ghost predicate AllReplacedBy(before: seq<Sent>, after: seq<Sent>, r: Request) {
    forall i {:trigger ReplacedBy(after[i], r)} ::
      |before| <= i < |after| ==> ReplacedBy(after[i], r)
  }

  lemma {:induction false} SupersededOnly(
      main: seq<Hash>, q: Queue, waiting: map<Tx, Place>, log: seq<Sent>, log': seq<Sent>, r: Request)
    requires r.height.Some? && Superseded(log, log', q, r) && r.tx !in waiting
    requires Booked(q, waiting) && (r.height.value in q ==> ListOk(main, r.height.value, q[r.height.value]))
    ensures AllReplacedBy(log, log', r)
    ensures forall h: nat :: !VerifiedIn(log', |log|, h)
  {
    var h := r.height.value;
    if log' != log {
      var i :| 0 <= i < |q[h]| && q[h][i].block.hash == r.hash && log' == log + [Newer(q[h][i])];
      assert WaitsAt(q, waiting, h, i);
    }
  }

  /** The answers of a whole call: of queueing its block, and of the pass that follows. */
  lemma {:induction false} CallAnswers(
      log: seq<Sent>, mid: seq<Sent>, log': seq<Sent>, r: Request)
    requires log <= mid <= log' && AllReplacedBy(log, mid, r) && NoneReplaced(mid, log')
    ensures AllReplacedBy(log, log', r)
  {
    forall i | |log| <= i < |log'|
      ensures ReplacedBy(log'[i], r)
    {
      assert i < |mid| ==> log'[i] == mid[i] && ReplacedBy(mid[i], r);
    }
  }

  ghost predicate NoResets(requests: seq<Request>) {
    forall i :: 0 <= i < |requests| ==> requests[i].reset.None?
  }

  /** Nobody is dropped, and who is told of a newer request was replaced by one of these. */
  ghost predicate ReplacedByOne(s: Sent, requests: seq<Request>, accepted: set<Tx>) {
    && !s.answer.Dropped?
    && (s.answer.NewerRequest? ==>
          exists k :: 0 <= k < |requests| && requests[k].tx in accepted && ReplacedBy(s, requests[k]))
  }

  ghost predicate AllReplacedByOne(
      before: seq<Sent>, after: seq<Sent>, requests: seq<Request>, accepted: set<Tx>)
  {
    forall i {:trigger ReplacedByOne(after[i], requests, accepted)} ::
      |before| <= i < |after| ==> ReplacedByOne(after[i], requests, accepted)
  }

  lemma {:induction false} NextReplaced(
      log: seq<Sent>, mid: seq<Sent>, log': seq<Sent>, requests: seq<Request>, n: nat,
      accepted: set<Tx>, accepted': set<Tx>)
    requires log <= mid <= log' && n < |requests| && accepted <= accepted'
    requires AllReplacedByOne(log, mid, requests[..n], accepted)
    requires AllReplacedBy(mid, log', requests[n]) && (log' != mid ==> requests[n].tx in accepted')
    ensures AllReplacedByOne(log, log', requests[..n + 1], accepted')
  {
    var some := requests[..n + 1];
    forall i | |log| <= i < |log'|
      ensures ReplacedByOne(log'[i], some, accepted')
    {
      if i < |mid| {
        assert log'[i] == mid[i] && ReplacedByOne(mid[i], requests[..n], accepted);
        if mid[i].answer.NewerRequest? {
          var k :| 0 <= k < n && requests[..n][k].tx in accepted && ReplacedBy(mid[i], requests[..n][k]);
          assert some[k] == requests[..n][k];
        }
      } else {
        assert ReplacedBy(log'[i], requests[n]) && some[n] == requests[n];
      }
    }
  }

  /** Verified answers were sent for exactly the heights above `v`, up to `w`. */
  ghost predicate VerifiedRange(log: seq<Sent>, from: nat, v: int, w: int) {
    v <= w && forall h: nat {:trigger VerifiedIn(log, from, h)} ::
      VerifiedIn(log, from, h) <==> v < h <= w
  }

  lemma {:induction false} RangesJoin(
      log: seq<Sent>, log': seq<Sent>, from: nat, u: int, v: int, w: int)
    requires from <= |log| && log <= log'
    requires VerifiedRange(log, from, u, v) && VerifiedRange(log', |log|, v, w)
    ensures VerifiedRange(log', from, u, w)
  {
    forall h: nat
      ensures VerifiedIn(log', from, h) <==> u < h <= w
    {
      VerifiedLater(log, log', from, h);
    }
  }

  /** What queueing a block comes to: these cases exclude each other. */
  ghost predicate Queueing(
      e: Option<Error>, checkpoints: Checkpoints, q: Queue, p: Progress, r: Request)
    requires 0 in checkpoints
  {
    var max := MaxHeight(checkpoints);
    match e
    case None => IsAccepted(checkpoints, q, p, r)
    case Some(CoinbaseHeight(hash)) => r.height.None? && hash == r.hash
    case Some(TooHigh(h, m)) => r.height == Some(h) && m == max < h
    case Some(Finished) => p.FinalCheckpoint? && r.height.Some? && r.height.value <= max
    case Some(AlreadyVerified(h, v)) =>
      !p.FinalCheckpoint? && r.height == Some(h) && h <= v == VerifiedTo(p, max) && h <= max
    case Some(Invalid) => IsVerifiable(checkpoints, p, r) && !r.checks
    case Some(QueuedLimit) =>
      && IsVerifiable(checkpoints, p, r) && r.checks
      && !HasHash(Entry(q, r.height.value), r.hash)
      && |Entry(q, r.height.value)| == MAX_QUEUED_BLOCKS_PER_HEIGHT
  }

  /** An older request for the same block is told about the newer one, and nobody else is. */
  ghost predicate Superseded(log: seq<Sent>, log': seq<Sent>, q: Queue, r: Request)
    requires r.height.Some?
  {
    var list := Entry(q, r.height.value);
    if HasHash(list, r.hash) then
      exists i :: 0 <= i < |list| && list[i].block.hash == r.hash && log' == log + [Newer(list[i])]
    else log' == log
  }

  /** What the older of two requests for a block is told. */
  ghost function Newer(b: QueuedBlock): Sent {
    Sent(b.tx, Place(b.block.height, b.block.hash), NewerRequest(b.block.height, b.block.hash))
  }

  /** The number of requests for blocks that are not of the chain. */
  ghost function SideRequests(main: seq<Hash>, requests: seq<Request>): nat {
    if requests == [] then 0
    else
      var n := |requests| - 1;
      SideRequests(main, requests[..n]) + if requests[n].hash in main then 0 else 1
  }

  lemma {:induction false} SideRequestsNext(main: seq<Hash>, requests: seq<Request>, i: nat)
    requires i < |requests|
    ensures SideRequests(main, requests[..i + 1])
         == SideRequests(main, requests[..i]) + if requests[i].hash in main then 0 else 1
  {
    assert requests[..i + 1][..i] == requests[..i];
  }

  lemma {:induction false} NoSideRequests(main: seq<Hash>, requests: seq<Request>)
    requires forall i :: 0 <= i < |requests| ==> requests[i].hash in main
    ensures SideRequests(main, requests) == 0
  {
    if requests != [] {
      NoSideRequests(main, requests[..|requests| - 1]);
    }
  }

  lemma {:induction false} NotLessJoin(a: Progress, b: Progress, c: Progress)
    requires !Less(b, a) && !Less(c, b)
    ensures !Less(c, a)
  {
  }

  /** Where a call starts from: the tip of its reset, or the progress so far. */
  function StartOf(checkpoints: Checkpoints, r: Request, progress: Progress): Progress
    requires 0 in checkpoints
  {
    if r.reset.Some? then ProgressFromTip(checkpoints, r.reset.value).1 else progress
  }

  class CheckpointVerifier {
    const checkpoints: Checkpoints
    var initialTipHash: Option<Hash>
    var queued: Queue
    var progress: Progress

    // The checkpointed chain, and the bookkeeping of every request the queue accepted.
    ghost const main: seq<Hash>
    ghost var pending: Queue          // what is queued, and what a pass has taken out to decide on
    ghost var waiting: map<Tx, Place>
    ghost var log: seq<Sent>
    ghost var accepted: set<Tx>
    ghost var sideAccepted: nat
    ghost var failedPasses: nat

    ghost predicate Ledger()
      reads this
    {
      && Booked(pending, waiting)
      && AnsweredOnce(waiting, log, accepted)
      && AllSound(main, log)
    }

    ghost predicate ProgressOk()
      reads this
    {
      && OnChain(checkpoints, main)
      && match progress
         case BeforeGenesis => true
         case InitialTip(h) => h < MaxHeight(checkpoints) && initialTipHash == Some(main[h])
         case PreviousCheckpoint(h) => h in checkpoints && h < MaxHeight(checkpoints)
         case FinalCheckpoint => true
    }

    ghost predicate Valid()
      reads this
    {
      && ProgressOk()
      && QueueOk(main, MaxHeight(checkpoints), queued)
      && pending == queued
      && Ledger()
    }

    /** The number of queued blocks that are not of the chain. */
    ghost function SideQueued(): nat
      requires 0 in checkpoints
      reads this
    {
      SideCount(queued, main, MaxHeight(checkpoints) + 1)
    }

    /** How far failed passes are ahead of the side-chain blocks that were accepted and are gone. */
    ghost function Debt(): int
      requires 0 in checkpoints
      reads this
    {
      failedPasses + SideQueued() - sideAccepted
    }

    ghost function VerifiedHeight(): int
      requires 0 in checkpoints
      reads this
    {
      VerifiedTo(progress, MaxHeight(checkpoints))
    }

    // Answering.

    /** Sends the answer for the request at index `i` of height `h`; that request waits no more. */
    method Send(tx: Tx, ghost h: nat, ghost i: nat, ghost answer: Answer)
      requires h in pending && i < |pending[h]| && DistinctHashes(pending[h])
      requires tx == pending[h][i].tx
      requires Ledger() && Sound(main, Sent(tx, Place(h, pending[h][i].block.hash), answer))
      modifies `pending, `waiting, `log
      ensures pending == old(pending)[h := Without(old(pending[h]), i)]
      ensures log == old(log) + [Sent(tx, Place(h, old(pending[h][i].block.hash)), answer)]
      ensures Ledger()
    {
      BookedAfterAnswer(pending, waiting, h, i);
      assert WaitsAt(pending, waiting, h, i);
      ghost var sent := Sent(tx, Place(h, pending[h][i].block.hash), answer);
      AnsweredOnceStep(waiting, log, accepted, sent);
      pending, waiting, log :=
        pending[h := Without(pending[h], i)], waiting - {tx}, log + [sent];
    }

    // Finding the target.

    /** The height at which the queue stops being contiguous after `start`. */
    method ContiguousHeight(start: nat) returns (end: nat)
      requires OnChain(checkpoints, main) && QueueOk(main, MaxHeight(checkpoints), queued)
      ensures start <= end && end + 1 !in queued.Keys
      ensures forall h: nat :: start < h <= end ==> h in queued.Keys
    {
      var above := Ascending(queued.Keys, start + 1, MaxHeight(checkpoints) + 1);
      end := ContiguousEnd(above, start);
      assert forall h: nat :: h in above ==> h in queued.Keys;
    }

    /** The highest checkpoint up to which the queue is contiguous, from the last verified height. */
    method TargetCheckpointHeight() returns (target: TargetHeight)
      requires ProgressOk() && QueueOk(main, MaxHeight(checkpoints), queued)
      ensures progress.FinalCheckpoint? ==> target == FinishedVerifying
      ensures !progress.FinalCheckpoint? ==> IsTarget(queued.Keys, checkpoints, VerifiedHeight(), target)
    {
      if progress.FinalCheckpoint? {
        return FinishedVerifying;
      }
      if progress.BeforeGenesis? && 0 !in queued {
        WaitingForGenesis(queued.Keys, checkpoints);
        return WaitingForBlocks;
      }
      var start := if progress.BeforeGenesis? then 0 else progress.height;
      var end := ContiguousHeight(start);
      var from := if progress.BeforeGenesis? then 0 else progress.height + 1;
      var found := MaxInRange(checkpoints.Keys, from, end + 1);
      TargetInRun(queued.Keys, checkpoints, from - 1, end, found);
      target := if found.Some? then Checkpoint(found.value) else WaitingForBlocks;
    }

    // Processing a range.

    /** The hash of the last verified block, or the parent hash of genesis before there is one. */
    function PreviousHash(): (hash: Hash)
      requires ProgressOk() && !progress.FinalCheckpoint?
      reads this
      ensures hash == Parent(main, VerifiedHeight() + 1)
    {
      match progress
      case BeforeGenesis => GENESIS_PREVIOUS_BLOCK_HASH
      case InitialTip(_) => initialTipHash.value
      case PreviousCheckpoint(h) => checkpoints[h]
    }

    /** Rejects a block that does not have the expected hash of its height. */
    method RejectSideChain(
        qblock: QueuedBlock, height: nat, expected: Hash,
        ghost kept: seq<QueuedBlock>, ghost rest: seq<QueuedBlock>)
      requires Ledger() && height < |main| && expected == main[height]
      requires qblock.block.height == height && Bound(main, qblock.block)
      requires qblock.block.hash != expected
      requires height in pending && pending[height] == kept + [qblock] + rest
      requires DistinctHashes(kept + [qblock] + rest)
      modifies `pending, `waiting, `log
      ensures pending == old(pending)[height := kept + rest] && DistinctHashes(kept + rest)
      ensures Ledger() && Rejections(old(log), log)
    {
      assert (kept + [qblock] + rest)[|kept|] == qblock;
      WithoutMiddle(kept, qblock, rest);
      Send(qblock.tx, height, |kept|, UnexpectedSideChain(expected, qblock.block.hash));
    }

    /** Rejects all blocks of a list but the one with the expected hash, which is returned. */
    method DrainList(height: nat, qblocks: seq<QueuedBlock>, expected: Hash)
        returns (valid: Option<QueuedBlock>)
      requires Ledger() && ListOk(main, height, qblocks)
      requires height < |main| && expected == main[height]
      requires height in pending && pending[height] == qblocks
      modifies `pending, `waiting, `log
      ensures valid.None? ==>
                NoMatch(qblocks, expected) && pending == old(pending)[height := []]
      ensures valid.Some? ==>
                && IsMatch(qblocks, expected, valid.value)
                && pending == old(pending)[height := [valid.value]]
      ensures Ledger() && Rejections(old(log), log)
    {
      valid := None;
      ghost var kept, rest, at: nat := [], qblocks, 0;
      assert kept + rest == qblocks;
      for i := 0 to |qblocks|
        invariant rest == qblocks[i..] && kept == if valid.Some? then [valid.value] else []
        invariant valid.None? ==> forall j :: 0 <= j < i ==> qblocks[j].block.hash != expected
        invariant valid.Some? ==>
                    at < i && valid.value == qblocks[at] && qblocks[at].block.hash == expected
        invariant DistinctHashes(kept + rest)
        invariant pending == old(pending)[height := kept + rest]
        invariant Ledger() && Rejections(old(log), log)
      {
        var qblock := qblocks[i];
        SplitNext(kept, qblocks, i);
        rest := qblocks[i + 1..];
        if qblock.block.hash == expected {
          if valid.Some? {
            SameHash(kept + [qblock] + rest, 0, 1);
            assert false;
          }
          valid, kept, at := Some(qblock), kept + [qblock], i;
        } else {
          ghost var before := log;
          RejectSideChain(qblock, height, expected, kept, rest);
          RejectionsJoin(old(log), before, log);
        }
      }
      assert kept + rest == kept;
    }

    /**
     Takes the blocks at `height` off the queue, and rejects all but the one with the expected
     hash, which is returned.
     */
    method ProcessHeight(height: nat, expected: Hash) returns (valid: Option<QueuedBlock>)
      requires OnChain(checkpoints, main) && Ledger()
      requires height in queued && ListOk(main, height, queued[height])
      requires height < |main| && expected == main[height]
      requires height in pending && pending[height] == queued[height]
      modifies `queued, `pending, `waiting, `log
      ensures queued == old(queued) - {height}
      ensures valid.None? ==>
                NoMatch(old(queued[height]), expected) && pending == old(pending) - {height}
      ensures valid.Some? ==>
                && IsMatch(old(queued[height]), expected, valid.value)
                && pending == old(pending)[height := [valid.value]]
      ensures Ledger() && Rejections(old(log), log)
    {
      var qblocks := queued[height];
      queued := queued - {height};
      assert qblocks != [];
      if height in checkpoints {
        assert expected == checkpoints[height];
      }
      valid := DrainList(height, qblocks, expected);
      if valid.None? {
        BookedAfterRemoval(pending, waiting, height);
        pending := pending - {height};
      }
    }

    /** One step of the walk: the blocks at `height`, given what was made of the queue above. */
    method StepBack(
        height: nat, expected: Hash, ghost q: Queue, ghost rev: seq<QueuedBlock>, ghost t: nat,
        ghost before: seq<Sent>)
        returns (valid: Option<QueuedBlock>)
      requires OnChain(checkpoints, main) && Ledger() && Rejections(before, log)
      requires height == t - |rev| && Found(q, main, rev, t) && expected == main[height]
      requires height in q && ListOk(main, height, q[height])
      requires TakenOut(queued, q, height, t) && OnlyFound(pending, q, rev, t)
      modifies `queued, `pending, `waiting, `log
      ensures TakenOut(queued, q, height - 1, t)
      ensures valid.Some? ==>
                && valid.value.block.previous == Parent(main, height)
                && Found(q, main, rev + [valid.value], t)
                && OnlyFound(pending, q, rev + [valid.value], t)
      ensures valid.None? ==>
                NoMatch(q[height], main[height]) && Repaired(pending, q, rev, height, t, t)
      ensures Ledger() && Rejections(before, log)
    {
      TakenOutStep(queued, q, height, t);
      RepairStart(pending, q, rev, t, height);
      valid := ProcessHeight(height, expected);
      RejectionsJoin(before, old(log), log);
      if valid.Some? {
        FoundStep(q, main, rev, t, height, valid.value);
        OnlyFoundStep(old(pending), q, rev, t, height, valid.value);
        assert Bound(main, valid.value.block);
      }
    }

    /**
     Walks the hash chain back over the heights from the checkpoint `t` down to just above `s`,
     and stops at the first height with no block of the chain.
     */
    method WalkBack(heights: seq<nat>, hash: Hash, ghost s: int, ghost t: nat)
        returns (rev: seq<QueuedBlock>, expected: Hash, failed: Option<nat>)
      requires OnChain(checkpoints, main) && -1 <= s < t < |main| && hash == main[t]
      requires |heights| == t - s && forall i :: 0 <= i < |heights| ==> heights[i] == s + 1 + i
      requires QueueOk(main, MaxHeight(checkpoints), queued)
      requires forall h: nat :: s < h <= t ==> h in queued
      requires pending == queued && Ledger()
      modifies `queued, `pending, `waiting, `log
      ensures Ledger() && Rejections(old(log), log)
      ensures Found(old(queued), main, rev, t)
      ensures failed.None? ==>
                && |rev| == t - s && expected == Parent(main, s + 1)
                && TakenOut(queued, old(queued), s, t)
                && OnlyFound(pending, old(queued), rev, t)
      ensures failed.Some? ==>
                && s < failed.value <= t && |rev| == t - failed.value
                && NoMatch(old(queued)[failed.value], main[failed.value])
                && TakenOut(queued, old(queued), failed.value - 1, t)
                && Repaired(pending, old(queued), rev, failed.value, t, t)
    {
      ghost var q := queued;
      expected, rev := hash, [];
      for k := |heights| downto 0
        invariant |rev| == t - s - k && Found(q, main, rev, t)
        invariant expected == Parent(main, s + 1 + k)
        invariant TakenOut(queued, q, s + k, t)
        invariant OnlyFound(pending, q, rev, t)
        invariant Ledger() && Rejections(old(log), log)
      {
        var height := heights[k];
        assert height == s + 1 + k;
        var valid := StepBack(height, expected, q, rev, t, old(log));
        if valid.None? {
          return rev, expected, Some(height);
        }
        expected := valid.value.block.previous;
        rev := rev + [valid.value];
      }
      failed := None;
    }

    /** Puts the blocks found above the failed height `c` back in the queue, in height order. */
    method Requeue(rev: seq<QueuedBlock>, ghost q: Queue, ghost c: nat, ghost t: nat)
      requires Repaired(queued, q, rev, c, c, t)
      requires forall h: nat :: c < h <= t ==> h in q
      requires forall k :: 0 <= k < |rev| ==> rev[k].block.height == t - k
      modifies `queued
      ensures Repaired(queued, q, rev, c, t, t)
    {
      for k := |rev| downto 0
        invariant Repaired(queued, q, rev, c, t - k, t)
      {
        var vblock := rev[k];
        var height := vblock.block.height;
        RepairStep(queued, q, rev, c, t - k - 1, t);
        assert rev[t - (t - k)] == vblock;
        assert Entry(queued, height) + [vblock] == [vblock];
        queued := queued[height := Entry(queued, height) + [vblock]];
      }
    }

    /** Sends the confirmation of a block that is alone at its height. */
    method ConfirmOne(qblock: QueuedBlock)
      requires Ledger() && qblock.block.height in pending
      requires pending[qblock.block.height] == [qblock]
      requires qblock.block.height < |main| && qblock.block.hash == main[qblock.block.height]
      modifies `pending, `waiting, `log
      ensures pending == old(pending) - {qblock.block.height}
      ensures log == old(log) + [Sent(qblock.tx, Place(qblock.block.height, qblock.block.hash),
                                      Verified(qblock.block.hash))]
      ensures Ledger()
    {
      ghost var h := qblock.block.height;
      Send(qblock.tx, h, 0, Verified(qblock.block.hash));
      assert pending[h] == [];
      BookedAfterRemoval(pending, waiting, h);
      pending := pending - {h};
    }

    /** The next block of the range, of which the first `j` have been confirmed. */
    method ConfirmNext(
        qblock: QueuedBlock, ghost blocks: seq<QueuedBlock>, ghost s: int, ghost j: nat,
        ghost start: Queue, ghost before: seq<Sent>)
      requires Ledger() && OfChain(blocks, main, s) && Alone(start, blocks, s)
      requires j < |blocks| && qblock == blocks[j]
      requires TakenOut(pending, start, s, s + j)
      requires log == before + Confirmations(blocks[..j])
      modifies `pending, `waiting, `log
      ensures TakenOut(pending, start, s, s + 1 + j)
      ensures log == before + Confirmations(blocks[..j + 1])
      ensures Ledger()
    {
      assert AloneAt(start, qblock, s + 1 + j);
      ghost var p := pending;
      ConfirmOne(qblock);
      TakenOutNext(p, start, s, s + 1 + j);
      ConfirmationsNext(before, blocks, j);
    }

    /** Confirms the blocks of the range in height order. */
    method Confirm(rev: seq<QueuedBlock>, ghost blocks: seq<QueuedBlock>, ghost s: int)
      requires Ledger() && OfChain(blocks, main, s) && Alone(pending, blocks, s)
      requires |blocks| == |rev|
      requires forall j :: 0 <= j < |rev| ==> blocks[j] == rev[|rev| - 1 - j]
      modifies `pending, `waiting, `log
      ensures TakenOut(pending, old(pending), s, s + |rev|)
      ensures log == old(log) + Confirmations(blocks)
      ensures Ledger()
    {
      for k := |rev| downto 0
        invariant TakenOut(pending, old(pending), s, s + |rev| - k)
        invariant log == old(log) + Confirmations(blocks[..|rev| - k])
        invariant Ledger()
      {
        ghost var j := |rev| - 1 - k;
        var qblock := rev[k];
        ConfirmNext(qblock, blocks, s, j, old(pending), old(log));
      }
      assert blocks[..|rev|] == blocks;
    }

    // Progress.

    /** Why a block at this height cannot be verified now, if so. */
    function CheckHeight(height: nat): (e: Option<Error>)
      requires 0 in checkpoints
      reads this
      ensures e.None? <==>
              !progress.FinalCheckpoint? && VerifiedHeight() < height <= MaxHeight(checkpoints)
      ensures e == Some(TooHigh(height, MaxHeight(checkpoints))) <==> MaxHeight(checkpoints) < height
      ensures e == Some(Finished) <==>
              progress.FinalCheckpoint? && height <= MaxHeight(checkpoints)
      ensures e.Some? && e.value.AlreadyVerified? ==>
                e.value.height == height <= e.value.verified == VerifiedHeight()
    {
      if height > MaxHeight(checkpoints) then Some(TooHigh(height, MaxHeight(checkpoints)))
      else if progress.FinalCheckpoint? then Some(Finished)
      else if progress.BeforeGenesis? then None
      else if height <= progress.height then Some(AlreadyVerified(height, progress.height))
      else None
    }

    /** Moves the progress up to a checkpoint that was verified, if it is above the old progress. */
    method UpdateProgress(verifiedHeight: nat)
      requires ProgressOk()
      modifies `progress, `initialTipHash
      ensures ProgressOk()
      ensures if verifiedHeight in checkpoints && old(CheckHeight(verifiedHeight)).None?
              then Less(old(progress), progress) && VerifiedHeight() == verifiedHeight
                   && !progress.InitialTip?
              else progress == old(progress) && initialTipHash == old(initialTipHash)
    {
      if CheckHeight(verifiedHeight).Some? {
        return;
      }
      if verifiedHeight == MaxHeight(checkpoints) {
        progress := FinalCheckpoint;
      } else if verifiedHeight in checkpoints {
        progress := PreviousCheckpoint(verifiedHeight);
        initialTipHash := None;
      }
    }

    /** Ends a pass that found no block of the chain at height `c`. */
    method GiveUp(
        rev: seq<QueuedBlock>, target: nat, ghost q: Queue, ghost c: nat)
      requires ProgressOk() && !progress.FinalCheckpoint? && Ledger()
      requires QueueOk(main, MaxHeight(checkpoints), q)
      requires IsTarget(q.Keys, checkpoints, VerifiedHeight(), Checkpoint(target))
      requires Found(q, main, rev, target) && Repaired(pending, q, rev, c, target, target)
      requires TakenOut(queued, q, c - 1, target) && c in q && VerifiedHeight() < c <= target
      requires NoMatch(q[c], main[c])
      modifies `queued, `failedPasses
      ensures Valid() && failedPasses == old(failedPasses) + 1
      ensures FailedPass(q, queued, main, VerifiedHeight(), c, target)
    {
      forall k | 0 <= k < |rev|
        ensures rev[k].block.height == target - k
      {
        FoundLinks(q, main, MaxHeight(checkpoints), rev, target, target - k);
      }
      RepairBegins(queued, q, rev, c, target);
      Requeue(rev, q, c, target);
      ghost var s := VerifiedHeight();
      RepairedIsFailedPass(q, queued, main, rev, s, c, target);
      FailedPassOk(q, queued, main, MaxHeight(checkpoints), s, c, target);
      var newTarget := TargetCheckpointHeight();
      if newTarget.Checkpoint? {
        FailedPassLowers(q, queued, main, checkpoints, s, c, target, newTarget.height);
      }
      assert newTarget == WaitingForBlocks || TargetLess(newTarget, Checkpoint(target));
      failedPasses := failedPasses + 1;
    }

    /** Moves the progress to the target of a pass, past which no checkpoint is reachable. */
    method AdvanceTo(target: nat)
      requires ProgressOk() && QueueOk(main, MaxHeight(checkpoints), queued)
      requires !progress.FinalCheckpoint? && VerifiedHeight() < target && target in checkpoints
      requires forall u: nat :: !Reachable(queued.Keys, checkpoints, target, u)
      modifies `progress, `initialTipHash
      ensures ProgressOk() && Less(old(progress), progress) && VerifiedHeight() == target
    {
      var previous := progress;
      UpdateProgress(target);
      assert Less(previous, progress);
      assert progress == FinalCheckpoint ==> target == MaxHeight(checkpoints);
      assert progress != FinalCheckpoint ==> progress == PreviousCheckpoint(target);
      var newTarget := TargetCheckpointHeight();
      assert newTarget == WaitingForBlocks || newTarget == FinishedVerifying;
    }

    /** Confirms what a pass found, which leaves the queue without the heights of the range. */
    method ConfirmFound(rev: seq<QueuedBlock>, ghost q: Queue, ghost s: int, ghost t: nat)
        returns (ghost blocks: seq<QueuedBlock>)
      requires Ledger() && 0 in checkpoints && QueueOk(main, MaxHeight(checkpoints), q)
      requires -1 <= s < t && Found(q, main, rev, t) && |rev| == t - s
      requires OnlyFound(pending, q, rev, t) && TakenOut(queued, q, s, t)
      modifies `pending, `waiting, `log
      ensures Ledger() && pending == queued
      ensures ConfirmedRange(q, blocks, s, t, Parent(main, s + 1), main[t])
      ensures OfChain(blocks, main, s) && log == old(log) + Confirmations(blocks)
    {
      ghost var n := |rev|;
      blocks := seq(n, j requires 0 <= j < n => rev[n - 1 - j]);
      FoundIsConfirmed(q, main, MaxHeight(checkpoints), rev, blocks, s, t);
      FoundAreAlone(pending, q, main, rev, blocks, s, t);
      Confirm(rev, blocks, s);
      ConfirmedQueues(pending, old(pending), queued, q, rev, s, t);
    }

    /** Ends a pass that found a block of the chain at every height. */
    method Accept(rev: seq<QueuedBlock>, target: nat, ghost q: Queue, ghost before: seq<Sent>)
        returns (ghost blocks: seq<QueuedBlock>)
      requires ProgressOk() && !progress.FinalCheckpoint? && Ledger() && Rejections(before, log)
      requires QueueOk(main, MaxHeight(checkpoints), q)
      requires IsTarget(q.Keys, checkpoints, VerifiedHeight(), Checkpoint(target))
      requires Found(q, main, rev, target) && |rev| == target - VerifiedHeight()
      requires OnlyFound(pending, q, rev, target)
      requires TakenOut(queued, q, VerifiedHeight(), target)
      modifies `pending, `waiting, `log, `progress, `initialTipHash
      ensures Valid()
      ensures PassResult(Confirmed(target, blocks), main, checkpoints, q, queued, old(progress),
                         progress, before, log)
    {
      ghost var s := VerifiedHeight();
      TakenOutOk(queued, q, main, MaxHeight(checkpoints), s, target);
      blocks := ConfirmFound(rev, q, s, target);
      ConfirmationsLast(before, old(log), blocks);
      forall u: nat
        ensures !Reachable(queued.Keys, checkpoints, target, u)
      {
        NoneReachable(q, queued, checkpoints, s, target, u);
      }
      AdvanceTo(target);
    }

    /** Walks back from the target; when that fails, repairs the queue and ends the pass. */
    method WalkOrGiveUp(target: nat)
        returns (rev: seq<QueuedBlock>, expected: Hash, failed: bool, ghost at: nat)
      requires Valid() && !progress.FinalCheckpoint?
      requires IsTarget(queued.Keys, checkpoints, VerifiedHeight(), Checkpoint(target))
      modifies `queued, `pending, `waiting, `log, `failedPasses
      ensures Rejections(old(log), log)
      ensures failed ==>
                && Valid() && failedPasses == old(failedPasses) + 1
                && FailedPass(old(queued), queued, main, VerifiedHeight(), at, target)
      ensures !failed ==>
                && Ledger() && failedPasses == old(failedPasses)
                && Found(old(queued), main, rev, target) && |rev| == target - VerifiedHeight()
                && expected == Parent(main, VerifiedHeight() + 1)
                && TakenOut(queued, old(queued), VerifiedHeight(), target)
                && OnlyFound(pending, old(queued), rev, target)
    {
      ghost var q, s := queued, VerifiedHeight();
      var from := if progress.BeforeGenesis? then 0 else progress.height + 1;
      var heights := RangeHeights(queued.Keys, from, target);
      var stopped;
      rev, expected, stopped := WalkBack(heights, checkpoints[target], s, target);
      failed, at := stopped.Some?, 0;
      if failed {
        at := stopped.value;
        GiveUp(rev, target, q, at);
      }
    }

    /** Tries to verify up to the highest reachable checkpoint. */
    method ProcessRangeTo(target: nat) returns (ghost outcome: Outcome)
      requires Valid() && !progress.FinalCheckpoint?
      requires IsTarget(queued.Keys, checkpoints, VerifiedHeight(), Checkpoint(target))
      modifies `queued, `pending, `waiting, `log, `progress, `initialTipHash, `failedPasses
      ensures Valid() && !outcome.Idle?
      ensures failedPasses == old(failedPasses) + if outcome.Failed? then 1 else 0
      ensures PassResult(outcome, main, checkpoints, old(queued), queued, old(progress), progress,
                         old(log), log)
    {
      var previous := PreviousHash();
      ghost var q := queued;
      var rev, expected, failed, at := WalkOrGiveUp(target);
      if failed {
        outcome := Failed(target, at);
      } else {
        assert expected == previous;
        ghost var blocks := Accept(rev, target, q, old(log));
        outcome := Confirmed(target, blocks);
      }
    }

    /** Tries to verify from the last verified height to the highest reachable checkpoint. */
    method ProcessCheckpointRange() returns (ghost outcome: Outcome)
      requires Valid()
      modifies `queued, `pending, `waiting, `log, `progress, `initialTipHash, `failedPasses
      ensures Valid() && Debt() <= old(Debt())
      ensures failedPasses == old(failedPasses) + if outcome.Failed? then 1 else 0
      ensures PassResult(outcome, main, checkpoints, old(queued), queued, old(progress), progress,
                         old(log), log)
    {
      outcome := Idle;
      if progress.FinalCheckpoint? {
        return;
      }
      var target := TargetCheckpointHeight();
      assert target != FinishedVerifying;
      if target.Checkpoint? {
        outcome := ProcessRangeTo(target.height);
        PassShrinks(outcome, main, checkpoints, old(queued), queued, old(progress), progress,
                    old(log), log);
      }
    }

    // Queueing.

    /** Replaces the older of two requests for the same block, and answers it. */
    method Replace(h: nat, i: nat, b: QueuedBlock)
      requires Valid() && h in queued && i < |queued[h]| && b.tx !in accepted
      requires b.block.height == h && Bound(main, b.block)
      requires b.block.hash == queued[h][i].block.hash
      modifies `queued, `pending, `waiting, `log, `accepted
      ensures Valid() && accepted == old(accepted) + {b.tx} && Debt() <= old(Debt())
      ensures h in queued && queued == old(queued)[h := queued[h]]
      ensures Upserted(queued[h], old(queued[h]), b)
      ensures log == old(log) + [Newer(old(queued[h][i]))]
    {
      assert ListOk(main, h, queued[h]);
      assert WaitsAt(queued, waiting, h, i);
      ghost var place := Place(h, b.block.hash);
      ghost var sent := Sent(queued[h][i].tx, place, NewerRequest(h, b.block.hash));
      BookedAfterReplace(queued, waiting, h, i, b);
      AnsweredOnceStep(waiting, log, accepted, sent);
      AnsweredOnceAccept(waiting - {sent.tx}, log + [sent], accepted, b.tx, place);
      Replaced(main, queued, h, i, b, MaxHeight(checkpoints) + 1);
      waiting := (waiting - {sent.tx})[b.tx := place];
      log, accepted := log + [sent], accepted + {b.tx};
      queued := queued[h := queued[h][i := b]];
      pending := queued;
    }

    /** Adds a block to the list at its height. */
    method Push(h: nat, b: QueuedBlock)
      requires Valid() && h <= MaxHeight(checkpoints) && b.tx !in accepted
      requires b.block.height == h && Bound(main, b.block)
      requires |Entry(queued, h)| < MAX_QUEUED_BLOCKS_PER_HEIGHT
      requires !HasHash(Entry(queued, h), b.block.hash)
      modifies `queued, `pending, `waiting, `accepted, `sideAccepted
      ensures Valid() && accepted == old(accepted) + {b.tx} && Debt() <= old(Debt())
      ensures h in queued && queued == old(queued)[h := queued[h]]
      ensures Upserted(queued[h], old(Entry(queued, h)), b)
      ensures sideAccepted == old(sideAccepted) + if b.block.hash == main[h] then 0 else 1
    {
      assert h in queued ==> ListOk(main, h, queued[h]);
      ghost var place := Place(h, b.block.hash);
      QueueOkPushed(main, MaxHeight(checkpoints), queued, h, b);
      BookedAfterPush(queued, waiting, h, b);
      AnsweredOnceAccept(waiting, log, accepted, b.tx, place);
      Pushed(main, queued, h, b, MaxHeight(checkpoints) + 1);
      sideAccepted := sideAccepted + if b.block.hash == main[h] then 0 else 1;
      waiting, accepted := waiting[b.tx := place], accepted + {b.tx};
      queued := queued[h := Entry(queued, h) + [b]];
      pending := queued;
    }

    /** Queues a block, unless it cannot be verified now or its height already has enough blocks. */
    method QueueBlock(r: Request) returns (e: Option<Error>)
      requires Valid() && RequestOk(main, r) && r.tx !in accepted
      modifies `queued, `pending, `waiting, `log, `accepted, `sideAccepted
      ensures Valid() && old(log) <= log && Debt() <= old(Debt())
      ensures sideAccepted == old(sideAccepted) +
              if e.None? && IsNewSide(main, old(queued), r) then 1 else 0
      ensures Queueing(e, checkpoints, old(queued), progress, r)
      ensures e.Some? ==> queued == old(queued) && log == old(log) && accepted == old(accepted)
      ensures e.Some? ==> waiting == old(waiting)
      ensures e.None? ==>
                var h := r.height.value;
                && accepted == old(accepted) + {r.tx} && h in queued
                && queued == old(queued)[h := queued[h]]
                && Upserted(queued[h], old(Entry(queued, h)),
                            QueuedBlock(Block(h, r.hash, r.previous), r.tx))
                && Superseded(old(log), log, old(queued), r)
    {
      if r.height.None? {
        return Some(CoinbaseHeight(r.hash));
      }
      var height := r.height.value;
      e := CheckHeight(height);
      if e.Some? {
        return;
      }
      if !r.checks {
        return Some(Invalid);
      }
      var newBlock := QueuedBlock(Block(height, r.hash, r.previous), r.tx);
      var qblocks := Entry(queued, height);
      for i := 0 to |qblocks|
        invariant forall j :: 0 <= j < i ==> qblocks[j].block.hash != r.hash
      {
        if qblocks[i].block.hash == r.hash {
          assert ListOk(main, height, qblocks);
          Replace(height, i, newBlock);
          return None;
        }
      }
      if |qblocks| >= MAX_QUEUED_BLOCKS_PER_HEIGHT {
        assert ListOk(main, height, queued[height]);
        return Some(QueuedLimit);
      }
      Push(height, newBlock);
      e := None;
    }

    // The service.

    constructor (checkpoints: Checkpoints, tip: Option<Tip>, ghost main: seq<Hash>)
      requires OnChain(checkpoints, main) && TipOnChain(main, tip)
      ensures this.checkpoints == checkpoints && this.main == main
      ensures Valid() && Debt() == 0 && log == [] && accepted == {} && queued == map[]
      ensures progress == ProgressFromTip(checkpoints, tip).1
    {
      var (hash, start) := ProgressFromTip(checkpoints, tip);
      this.checkpoints, this.main := checkpoints, main;
      initialTipHash, progress := hash, start;
      queued, pending, waiting := map[], map[], map[];
      log, accepted, sideAccepted, failedPasses := [], {}, 0, 0;
      new;
      NoSides(main, MaxHeight(checkpoints) + 1);
    }

    /** Moves the progress to the tip of the state. */
    method ResetProgress(tip: Option<Tip>)
      requires Valid() && TipOnChain(main, tip)
      modifies `progress, `initialTipHash
      ensures Valid() && Debt() == old(Debt())
      ensures match tip
              case None => progress == BeforeGenesis
              case Some(t) =>
                if t.height < MaxHeight(checkpoints) then progress == InitialTip(t.height)
                else progress == FinalCheckpoint
      ensures StrandedNow() == if tip.None? then map[] else Stranded(queued, tip.value.height)
    {
      var (hash, start) := ProgressFromTip(checkpoints, tip);
      initialTipHash, progress := hash, start;
    }

    /**
     One call: applies a reset, queues the block, and tries to verify a range. The queue answers the
     request later exactly if no error is returned now.
     */
    method Call(r: Request)
        returns (e: Option<Error>, ghost outcome: Outcome, ghost q: Queue, ghost l: seq<Sent>)
      requires Valid() && RequestOk(main, r) && r.tx !in accepted
      modifies this
      ensures Valid() && old(log) <= l <= log && Debt() <= old(Debt())
      ensures accepted == old(accepted) + if e.None? then {r.tx} else {}
      ensures var p := StartOf(checkpoints, r, old(progress));
              if p.FinalCheckpoint? then e == Some(Finished)
              else Queueing(e, checkpoints, old(queued), p, r)
      ensures e.Some? ==> q == old(queued) && l == old(log) && outcome == Idle
      ensures e.None? ==>
                && r.height.Some? && r.height.value in q
                && q == old(queued)[r.height.value := q[r.height.value]]
                && Upserted(q[r.height.value], Entry(old(queued), r.height.value),
                            QueuedBlock(Block(r.height.value, r.hash, r.previous), r.tx))
                && Superseded(old(log), l, old(queued), r)
      ensures e.Some? ==> queued == old(queued) && log == old(log)
                          && progress == StartOf(checkpoints, r, old(progress))
      ensures e.None? ==>
                PassResult(outcome, main, checkpoints, q, queued,
                           StartOf(checkpoints, r, old(progress)), progress, l, log)
      ensures r.reset.None? ==>
                if outcome.Confirmed? then Less(old(progress), progress)
                else progress == old(progress)
      ensures e.None? && !outcome.Failed? && !progress.FinalCheckpoint? ==>
                IsTarget(queued.Keys, checkpoints, VerifiedHeight(), WaitingForBlocks)
      ensures failedPasses == old(failedPasses) + if outcome.Failed? then 1 else 0
      ensures sideAccepted == old(sideAccepted) +
              if e.None? && IsNewSide(main, old(queued), r) then 1 else 0
    {
      outcome, q, l := Idle, queued, log;
      if r.reset.Some? {
        ResetProgress(r.reset.value);
      }
      if progress.FinalCheckpoint? {
        e := Some(Finished);
        return;
      }
      e := QueueBlock(r);
      if e.None? {
        q, l := queued, log;
        ghost var p := progress;
        outcome := ProcessCheckpointRange();
        PassKeepsLog(outcome, main, checkpoints, q, queued, p, progress, l, log);
      }
    }

    /** The queued blocks that are not above the progress, which only a reset can bring about. */
    ghost function StrandedNow(): Queue
      requires 0 in checkpoints
      reads this
    {
      Stranded(queued, VerifiedHeight())
    }

    lemma {:induction false} Answering(
        r: Request, p: Progress, outcome: Outcome, before: Queue, q: Queue,
        was: map<Tx, Place>, log0: seq<Sent>, l: seq<Sent>)
      requires 0 in checkpoints && r.height.Some? && r.tx !in was && Booked(before, was)
      requires r.height.value in before ==> ListOk(main, r.height.value, before[r.height.value])
      requires log0 <= l <= log && Superseded(log0, l, before, r)
      requires PassResult(outcome, main, checkpoints, q, queued, p, progress, l, log)
      ensures AllReplacedBy(log0, log, r)
      ensures forall h: nat :: VerifiedIn(log, |log0|, h) <==>
                VerifiedTo(p, MaxHeight(checkpoints)) < h <= VerifiedHeight()
    {
      SupersededOnly(main, before, was, log0, l, r);
      PassReplacesNone(outcome, main, checkpoints, q, queued, p, progress, l, log);
      CallAnswers(log0, l, log, r);
      forall h: nat
        ensures VerifiedIn(log, |log0|, h) <==>
                VerifiedTo(p, MaxHeight(checkpoints)) < h <= VerifiedHeight()
      {
        VerifiedLater(l, log, |log0|, h);
        PassVerifies(outcome, main, checkpoints, q, queued, p, progress, l, log, h);
      }
    }

    /** One request of a run: what `Run` needs of `Call`. */
    method Serve(r: Request)
      requires Valid() && RequestOk(main, r) && r.tx !in accepted
      modifies this
      ensures AllReplacedBy(old(log), log, r)
      ensures log != old(log) ==> r.tx in accepted
      ensures VerifiedRange(log, |old(log)|,
                            VerifiedTo(StartOf(checkpoints, r, old(progress)), MaxHeight(checkpoints)),
                            VerifiedHeight())
      ensures StrandedNow() == Stranded(old(queued), VerifiedTo(StartOf(checkpoints, r, old(progress)),
                                                                MaxHeight(checkpoints)))
      ensures Valid() && old(log) <= log && old(accepted) <= accepted <= old(accepted) + {r.tx}
      ensures Debt() <= old(Debt())
      ensures sideAccepted <= old(sideAccepted) + if r.hash in main then 0 else 1
      ensures r.reset.None? ==> !Less(progress, old(progress))
    {
      assert r.height.Some? && r.height.value in queued ==>
          ListOk(main, r.height.value, queued[r.height.value]);
      var e, outcome, q, l := Call(r);
      if e.None? {
        ghost var p := StartOf(checkpoints, r, old(progress));
        Answering(r, p, outcome, old(queued), q, old(waiting), old(log), l);
        QueuedStrandsNone(old(queued), q, r.height.value, VerifiedTo(p, MaxHeight(checkpoints)));
        PassStrandsNone(outcome, main, checkpoints, q, queued, p, progress, l, log);
      }
    }

    /** What has come of some requests since the log, the progress and the queue were these. */
    ghost predicate SoFar(
        requests: seq<Request>, log0: seq<Sent>, p: Progress, v: int, stranded: Queue)
      requires 0 in checkpoints
      reads this
    {
      && log0 <= log && AllReplacedByOne(log0, log, requests, accepted)
      && (NoResets(requests) ==>
            && !Less(progress, p) && StrandedNow() == stranded
            && VerifiedRange(log, |log0|, v, VerifiedHeight()))
    }

    method ServeNext(
        requests: seq<Request>, i: nat, ghost log0: seq<Sent>, ghost p: Progress, ghost v: int,
        ghost stranded: Queue)
      requires i < |requests| && Valid() && SoFar(requests[..i], log0, p, v, stranded)
      requires RequestOk(main, requests[i]) && requests[i].tx !in accepted
      modifies this
      ensures Valid() && SoFar(requests[..i + 1], log0, p, v, stranded)
      ensures old(accepted) <= accepted <= old(accepted) + {requests[i].tx}
      ensures Debt() <= old(Debt())
      ensures sideAccepted <= old(sideAccepted) + if requests[i].hash in main then 0 else 1
    {
      Serve(requests[i]);
      NextReplaced(log0, old(log), log, requests, i, old(accepted), accepted);
      if NoResets(requests[..i + 1]) {
        assert requests[..i + 1][i] == requests[i];
        assert NoResets(requests[..i]) by {
          assert forall j :: 0 <= j < i ==> requests[..i + 1][j] == requests[..i][j];
        }
        RangesJoin(old(log), log, |log0|, v, old(VerifiedHeight()), VerifiedHeight());
        NotLessJoin(p, old(progress), progress);
      }
    }

    /**
     Any run of calls, each of which may be preceded by a reset: the verifier stays valid, answers
     that were sent stay sent, and the failed passes of the run are at most the side-chain blocks
     that were queued before it or requested in it. Without resets progress does not go back.
     */
    method Run(requests: seq<Request>)
      requires Valid()
      requires forall i :: 0 <= i < |requests| ==>
                 RequestOk(main, requests[i]) && requests[i].tx !in accepted
      requires forall i, j :: 0 <= i < j < |requests| ==> requests[i].tx != requests[j].tx
      modifies this
      ensures Valid() && old(log) <= log && old(accepted) <= accepted
      ensures failedPasses - old(failedPasses) + SideQueued()
           <= old(SideQueued()) + SideRequests(main, requests)
      ensures (forall i :: 0 <= i < |requests| ==> requests[i].hash in main) ==>
                failedPasses - old(failedPasses) + SideQueued() <= old(SideQueued())
      ensures NoResets(requests) ==>
                && !Less(progress, old(progress)) && StrandedNow() == old(StrandedNow())
                && VerifiedRange(log, |old(log)|, old(VerifiedHeight()), VerifiedHeight())
      ensures AllReplacedByOne(old(log), log, requests, accepted)
      ensures progress.FinalCheckpoint? ==> queued == StrandedNow()
      ensures progress.FinalCheckpoint? ==> (Answered(log) == accepted <==> StrandedNow() == map[])
    {
      assert requests[..0] == [];
      for i := 0 to |requests|
        invariant Valid() && old(accepted) <= accepted && Debt() <= old(Debt())
        invariant SoFar(requests[..i], old(log), old(progress), old(VerifiedHeight()),
                        old(StrandedNow()))
        invariant sideAccepted - old(sideAccepted) <= SideRequests(main, requests[..i])
        invariant forall j :: i <= j < |requests| ==> requests[j].tx !in accepted
      {
        ServeNext(requests, i, old(log), old(progress), old(VerifiedHeight()), old(StrandedNow()));
        SideRequestsNext(main, requests, i);
      }
      assert requests[..|requests|] == requests;
      if forall i :: 0 <= i < |requests| ==> requests[i].hash in main {
        NoSideRequests(main, requests);
      }
      if progress.FinalCheckpoint? {
        FinalStrands();
      }
    }

    /** Once verification is finished, only stranded requests are not answered. */
    lemma {:induction false} FinalStrands()
      requires Valid() && progress.FinalCheckpoint?
      ensures queued == StrandedNow()
      ensures Answered(log) == accepted <==> StrandedNow() == map[]
    {
      if queued == map[] {
        NothingWaits(pending, waiting);
      } else {
        var h :| h in queued;
        assert ListOk(main, h, queued[h]) && WaitsAt(pending, waiting, h, 0);
        assert queued[h][0].tx in accepted;
      }
    }

    /** Answers the requests of one list that is taken off the queue. */
    method DropList(h: nat)
      requires Ledger() && h in queued && pending == queued && DistinctHashes(queued[h])
      modifies `queued, `pending, `waiting, `log
      ensures queued == old(queued) - {h} && pending == queued
      ensures Ledger() && Drops(old(log), log)
    {
      var qblocks := queued[h];
      queued := queued - {h};
      for i := 0 to |qblocks|
        invariant queued == old(queued) - {h}
        invariant h in pending && pending[h] == qblocks[i..]
        invariant pending == old(queued)[h := pending[h]]
        invariant Ledger() && Drops(old(log), log)
      {
        DistinctTail(qblocks, i);
        Send(qblocks[i].tx, h, 0, Dropped);
      }
      BookedAfterRemoval(pending, waiting, h);
      pending := pending - {h};
    }

    method DropLists(keys: seq<nat>)
      requires Ledger() && pending == queued
      requires forall i, j :: 0 <= i < j < |keys| ==> keys[i] < keys[j]
      requires forall h: nat :: h in queued <==> h in keys
      requires forall h: nat :: h in queued ==> DistinctHashes(queued[h])
      modifies `queued, `pending, `waiting, `log
      ensures Ledger() && pending == queued && Drops(old(log), log)
      ensures forall h: nat :: h !in queued
    {
      for i := 0 to |keys|
        invariant Ledger() && pending == queued && Drops(old(log), log)
        invariant queued == old(queued) - Elements(keys[..i])
      {
        assert keys[i] !in keys[..i];
        ghost var before := log;
        DropList(keys[i]);
        DropsJoin(old(log), before, log);
        assert keys[..i + 1] == keys[..i] + [keys[i]];
      }
      assert keys[..|keys|] == keys;
    }

    /** Dropping the verifier answers every request that is still queued. */
    method Drop()
      requires Valid()
      modifies `queued, `pending, `waiting, `log
      ensures queued == map[] && Answered(log) == accepted
      ensures Ledger() && Drops(old(log), log)
    {
      forall h | h in queued
        ensures DistinctHashes(queued[h])
      {
        assert ListOk(main, h, queued[h]);
      }
      var keys := Ascending(queued.Keys, 0, MaxHeight(checkpoints) + 1);
      DropLists(keys);
      assert queued == map[];
      NothingWaits(pending, waiting);
    }
  }

  /**
   A reset past the last checkpoint strands a request: a new verifier accepts a block that no
   checkpoint is reachable with, and is then reset by a later call.
   */
  method StrandByReset(
      checkpoints: Checkpoints, ghost main: seq<Hash>, first: Request, second: Request)
      returns (v: CheckpointVerifier)
    requires OnChain(checkpoints, main) && RequestOk(main, first) && RequestOk(main, second)
    requires first.reset.None? && first.checks && first.tx != second.tx
    requires first.height.Some? && 0 < first.height.value <= MaxHeight(checkpoints)
    requires second.reset.Some? && second.reset.value.Some?
    requires MaxHeight(checkpoints) <= second.reset.value.value.height
    ensures fresh(v) && v.Valid() && v.progress.FinalCheckpoint?
    ensures first.tx in v.accepted && first.tx !in Answered(v.log)
  {
    v := new CheckpointVerifier(checkpoints, None, main);
    var h := first.height.value;
    var e, outcome, q, l := v.Call(first);
    assert 0 !in q.Keys;
    assert outcome == Idle && v.log == [];
    var e', outcome', q', l' := v.Call(second);
  }
}

/**
 The queue of blocks that wait for checkpoint verification, the requests that wait with them, and
 the answers that were sent.
 */
module CheckpointQueue {
  const MAX_QUEUED_BLOCKS_PER_HEIGHT: nat := 4

  type Hash = nat

  /** The null hash, which the genesis block names as its parent. */
  const GENESIS_PREVIOUS_BLOCK_HASH: Hash := 0

  datatype Block = Block(height: nat, hash: Hash, previous: Hash)

  /** The sending end of a one-shot channel, by its identity. */
  type Tx = nat

  datatype QueuedBlock = QueuedBlock(block: Block, tx: Tx)

  /** A list of unverified blocks at each height. */
  type Queue = map<nat, seq<QueuedBlock>>

  datatype Answer =
    | Verified(hash: Hash)
    | NewerRequest(height: nat, hash: Hash)
    | UnexpectedSideChain(expected: Hash, found: Hash)
    | Dropped

  /** Where an unanswered request waits: no two queued blocks share a height and a hash. */
  datatype Place = Place(height: nat, hash: Hash)

  datatype Sent = Sent(tx: Tx, place: Place, answer: Answer)

  // The checkpointed chain, given by its hashes in height order.

  /** The hash that the block at height `h` of the chain names as its parent. */
  function Parent(main: seq<Hash>, h: nat): Hash
    requires h <= |main|
  {
    if h == 0 then GENESIS_PREVIOUS_BLOCK_HASH else main[h - 1]
  }

  /** A block hash commits to the block's height and to its parent. */
  ghost predicate Bound(main: seq<Hash>, b: Block) {
    b.hash in main ==>
      b.height < |main| && main[b.height] == b.hash && b.previous == Parent(main, b.height)
  }

  // The queue.

  /** The list at a height, or the empty list that is made for a height with no list. */
  function Entry(q: Queue, h: nat): seq<QueuedBlock> {
    if h in q then q[h] else []
  }

  ghost predicate Differ(list: seq<QueuedBlock>, i: nat, j: nat) {
    i < j < |list| ==> list[i].block.hash != list[j].block.hash
  }

  ghost predicate DistinctHashes(list: seq<QueuedBlock>) {
    forall i, j {:trigger Differ(list, i, j)} :: Differ(list, i, j)
  }

  lemma {:induction false} SameHash(list: seq<QueuedBlock>, i: nat, j: nat)
    requires DistinctHashes(list) && i < |list| && j < |list|
    ensures list[i].block.hash == list[j].block.hash ==> i == j
  {
    assert Differ(list, i, j) && Differ(list, j, i);
  }

  lemma {:induction false} DistinctTail(list: seq<QueuedBlock>, i: nat)
    requires DistinctHashes(list) && i <= |list|
    ensures DistinctHashes(list[i..])
  {
    forall j: nat, k: nat
      ensures Differ(list[i..], j, k)
    {
      assert Differ(list, i + j, i + k);
    }
  }

  lemma {:induction false} DistinctPushed(list: seq<QueuedBlock>, b: QueuedBlock)
    requires DistinctHashes(list)
    requires forall i :: 0 <= i < |list| ==> list[i].block.hash != b.block.hash
    ensures DistinctHashes(list + [b])
  {
    forall j: nat, k: nat
      ensures Differ(list + [b], j, k)
    {
      assert Differ(list, j, k);
    }
  }

  lemma {:induction false} DistinctReplaced(list: seq<QueuedBlock>, i: nat, b: QueuedBlock)
    requires DistinctHashes(list) && i < |list| && b.block.hash == list[i].block.hash
    ensures DistinctHashes(list[i := b])
  {
    var r := list[i := b];
    forall j: nat, k: nat
      ensures Differ(r, j, k)
    {
      assert Differ(list, j, k);
    }
  }

  /** The list is non-empty, within the limit, free of duplicates, and at its blocks' height. */
  ghost predicate ListOk(main: seq<Hash>, h: nat, list: seq<QueuedBlock>) {
    && 0 < |list| <= MAX_QUEUED_BLOCKS_PER_HEIGHT
    && DistinctHashes(list)
    && forall i :: 0 <= i < |list| ==> list[i].block.height == h && Bound(main, list[i].block)
  }

  lemma {:induction false} ListOkPushed(
      main: seq<Hash>, h: nat, list: seq<QueuedBlock>, b: QueuedBlock)
    requires list == [] || ListOk(main, h, list)
    requires |list| < MAX_QUEUED_BLOCKS_PER_HEIGHT && b.block.height == h && Bound(main, b.block)
    requires forall i :: 0 <= i < |list| ==> list[i].block.hash != b.block.hash
    ensures ListOk(main, h, list + [b])
  {
    DistinctPushed(list, b);
  }

  ghost predicate QueueOk(main: seq<Hash>, max: nat, q: Queue) {
    && (forall h :: h in q ==> h <= max)
    && (forall h {:trigger ListOk(main, h, q[h])} :: h in q ==> ListOk(main, h, q[h]))
  }

  // Requests and answers.

  ghost predicate Listed(q: Queue, tx: Tx, place: Place) {
    && place.height in q
    && exists i :: 0 <= i < |q[place.height]| && q[place.height][i].tx == tx
  }

  ghost predicate WaitsAt(q: Queue, waiting: map<Tx, Place>, h: nat, i: int) {
    h in q && 0 <= i < |q[h]| ==>
      && q[h][i].tx in waiting
      && waiting[q[h][i].tx] == Place(h, q[h][i].block.hash)
  }

  /** The waiting requests are exactly those of the blocks in the queue. */
  ghost predicate Booked(q: Queue, waiting: map<Tx, Place>) {
    && (forall h, i {:trigger WaitsAt(q, waiting, h, i)} :: WaitsAt(q, waiting, h, i))
    && (forall tx {:trigger Listed(q, tx, waiting[tx])} ::
          tx in waiting ==> Listed(q, tx, waiting[tx]))
  }

  function Without(list: seq<QueuedBlock>, i: nat): seq<QueuedBlock>
    requires i < |list|
  {
    list[..i] + list[i + 1..]
  }

  lemma {:induction false} BookedAfterAnswer(q: Queue, waiting: map<Tx, Place>, h: nat, i: nat)
    requires Booked(q, waiting) && h in q && i < |q[h]| && DistinctHashes(q[h])
    ensures Booked(q[h := Without(q[h], i)], waiting - {q[h][i].tx})
  {
    var q': Queue := q[h := Without(q[h], i)];
    var w' := waiting - {q[h][i].tx};
    assert WaitsAt(q, waiting, h, i);
    forall h', j
      ensures WaitsAt(q', w', h', j)
    {
      var k := if h' == h && i <= j then j + 1 else j;
      assert WaitsAt(q, waiting, h', k);
      if h' == h && 0 <= k < |q[h]| {
        SameHash(q[h], i, k);
      }
    }
    forall tx | tx in w'
      ensures Listed(q', tx, w'[tx])
    {
      var place := waiting[tx];
      assert Listed(q, tx, place);
      var k :| 0 <= k < |q[place.height]| && q[place.height][k].tx == tx;
      if place.height == h {
        var j := if k < i then k else k - 1;
        assert q'[h][j] == q[h][k];
      } else {
        assert q'[place.height][k].tx == tx;
      }
    }
  }

  lemma {:induction false} BookedAfterRemoval(q: Queue, waiting: map<Tx, Place>, h: nat)
    requires Booked(q, waiting) && h in q && q[h] == []
    ensures Booked(q - {h}, waiting)
  {
    forall h', j
      ensures WaitsAt(q - {h}, waiting, h', j)
    {
      assert WaitsAt(q, waiting, h', j);
    }
    forall tx | tx in waiting
      ensures Listed(q - {h}, tx, waiting[tx])
    {
      assert Listed(q, tx, waiting[tx]);
      var k :| 0 <= k < |q[waiting[tx].height]| && q[waiting[tx].height][k].tx == tx;
      assert (q - {h})[waiting[tx].height][k].tx == tx;
    }
  }

  lemma {:induction false} BookedAfterPush(
      q: Queue, waiting: map<Tx, Place>, h: nat, b: QueuedBlock)
    requires Booked(q, waiting) && b.tx !in waiting
    ensures Booked(q[h := Entry(q, h) + [b]], waiting[b.tx := Place(h, b.block.hash)])
  {
    var list := Entry(q, h);
    var q': Queue := q[h := list + [b]];
    var w' := waiting[b.tx := Place(h, b.block.hash)];
    forall h', j
      ensures WaitsAt(q', w', h', j)
    {
      assert WaitsAt(q, waiting, h', j);
    }
    forall tx | tx in w'
      ensures Listed(q', tx, w'[tx])
    {
      if tx == b.tx {
        assert q'[h][|list|].tx == tx;
      } else {
        assert Listed(q, tx, waiting[tx]);
        var k :| 0 <= k < |q[waiting[tx].height]| && q[waiting[tx].height][k].tx == tx;
        assert q'[waiting[tx].height][k].tx == tx;
      }
    }
  }

  lemma {:induction false} BookedAfterReplace(
      q: Queue, waiting: map<Tx, Place>, h: nat, i: nat, b: QueuedBlock)
    requires Booked(q, waiting) && h in q && i < |q[h]| && DistinctHashes(q[h])
    requires b.tx !in waiting && b.block.hash == q[h][i].block.hash
    ensures Booked(q[h := q[h][i := b]],
                   (waiting - {q[h][i].tx})[b.tx := Place(h, b.block.hash)])
  {
    var q': Queue := q[h := q[h][i := b]];
    var w' := (waiting - {q[h][i].tx})[b.tx := Place(h, b.block.hash)];
    assert WaitsAt(q, waiting, h, i);
    forall h', j
      ensures WaitsAt(q', w', h', j)
    {
      assert WaitsAt(q, waiting, h', j);
      if h' == h && 0 <= j < |q[h]| {
        SameHash(q[h], i, j);
      }
    }
    forall tx | tx in w'
      ensures Listed(q', tx, w'[tx])
    {
      if tx == b.tx {
        assert q'[h][i].tx == tx;
      } else {
        assert Listed(q, tx, waiting[tx]);
        var k :| 0 <= k < |q[waiting[tx].height]| && q[waiting[tx].height][k].tx == tx;
        assert q'[waiting[tx].height][k].tx == tx;
      }
    }
  }

  lemma {:induction false} NothingWaits(q: Queue, waiting: map<Tx, Place>)
    requires Booked(q, waiting) && q == map[]
    ensures waiting == map[]
  {
    assert forall tx :: tx in waiting ==> Listed(q, tx, waiting[tx]);
  }

  ghost function Answered(log: seq<Sent>): set<Tx> {
    set s | s in log :: s.tx
  }

  /** Every accepted request is waiting or was answered, never both, and never answered twice. */
  ghost predicate AnsweredOnce(waiting: map<Tx, Place>, log: seq<Sent>, accepted: set<Tx>) {
    && accepted == waiting.Keys + Answered(log)
    && waiting.Keys !! Answered(log)
    && forall i, j :: 0 <= i < j < |log| ==> log[i].tx != log[j].tx
  }

  lemma {:induction false} AnsweredOnceStep(
      waiting: map<Tx, Place>, log: seq<Sent>, accepted: set<Tx>, s: Sent)
    requires AnsweredOnce(waiting, log, accepted) && s.tx in waiting
    ensures AnsweredOnce(waiting - {s.tx}, log + [s], accepted)
  {
    assert Answered(log + [s]) == Answered(log) + {s.tx} by {
      assert forall t :: t in log + [s] <==> t in log || t == s;
      assert s in log + [s];
    }
    forall i | 0 <= i < |log|
      ensures log[i].tx != s.tx
    {
      assert log[i] in log;
    }
  }

  lemma {:induction false} AnsweredOnceAccept(
      waiting: map<Tx, Place>, log: seq<Sent>, accepted: set<Tx>, tx: Tx, place: Place)
    requires AnsweredOnce(waiting, log, accepted) && tx !in accepted
    ensures AnsweredOnce(waiting[tx := place], log, accepted + {tx})
  {
    assert waiting[tx := place].Keys == waiting.Keys + {tx};
  }

  /** What each answer says about the block it answers for. */
  ghost predicate Sound(main: seq<Hash>, s: Sent) {
    match s.answer
    case Verified(hash) =>
      hash == s.place.hash && s.place.height < |main| && hash == main[s.place.height]
    case NewerRequest(height, hash) => Place(height, hash) == s.place
    case UnexpectedSideChain(expected, found) =>
      && found == s.place.hash && found !in main
      && s.place.height < |main| && expected == main[s.place.height]
    case Dropped => true
  }

  ghost predicate AllSound(main: seq<Hash>, log: seq<Sent>) {
    forall i {:trigger Sound(main, log[i])} :: 0 <= i < |log| ==> Sound(main, log[i])
  }

  // Side-chain blocks.

  /** The number of blocks of the list that do not have this hash. */
  ghost function Sides(list: seq<QueuedBlock>, hash: Hash): nat {
    if list == [] then 0
    else
      var n := |list| - 1;
      Sides(list[..n], hash) + if list[n].block.hash == hash then 0 else 1
  }

  lemma {:induction false} AllSides(list: seq<QueuedBlock>, hash: Hash)
    requires forall i :: 0 <= i < |list| ==> list[i].block.hash != hash
    ensures Sides(list, hash) == |list|
  {
    if list != [] {
      AllSides(list[..|list| - 1], hash);
    }
  }

  lemma {:induction false} SidesReplaced(list: seq<QueuedBlock>, i: nat, b: QueuedBlock, hash: Hash)
    requires i < |list| && b.block.hash == list[i].block.hash
    ensures Sides(list[i := b], hash) == Sides(list, hash)
  {
    var n := |list| - 1;
    if i < n {
      SidesReplaced(list[..n], i, b, hash);
      assert list[i := b][..n] == list[..n][i := b];
    } else {
      assert list[i := b][..n] == list[..n];
    }
  }

  /** The number of blocks queued at `h` that are not of the chain. */
  ghost function SideAt(q: Queue, main: seq<Hash>, h: nat): nat {
    if h in q && h < |main| then Sides(q[h], main[h]) else 0
  }

  /** The number of blocks queued below `n` that are not of the chain. */
  ghost function SideCount(q: Queue, main: seq<Hash>, n: nat): nat {
    if n == 0 then 0 else SideCount(q, main, n - 1) + SideAt(q, main, n - 1)
  }

  lemma {:induction false} NoSides(main: seq<Hash>, n: nat)
    ensures SideCount(map[], main, n) == 0
  {
    if n > 0 {
      NoSides(main, n - 1);
    }
  }

  lemma {:induction false} SideCountAtMost(q: Queue, r: Queue, main: seq<Hash>, n: nat)
    requires forall h :: 0 <= h < n ==> SideAt(r, main, h) <= SideAt(q, main, h)
    ensures SideCount(r, main, n) <= SideCount(q, main, n)
  {
    if n > 0 {
      SideCountAtMost(q, r, main, n - 1);
    }
  }

  /** Changing the side-chain blocks of one height changes the count by as many. */
  lemma {:induction false} SideCountAt(q: Queue, r: Queue, main: seq<Hash>, n: nat, c: nat)
    requires c < n
    requires forall h :: 0 <= h < n && h != c ==> SideAt(r, main, h) <= SideAt(q, main, h)
    ensures SideCount(r, main, n) - SideCount(q, main, n)
         <= SideAt(r, main, c) - SideAt(q, main, c)
  {
    if c == n - 1 {
      SideCountAtMost(q, r, main, n - 1);
    } else {
      SideCountAt(q, r, main, n - 1, c);
    }
  }

  // Adding a block.

  /** `r` is the list with a block in the place of any other with the same hash. */
  ghost predicate Upserted(r: seq<QueuedBlock>, list: seq<QueuedBlock>, b: QueuedBlock) {
    forall x :: x in r <==> x == b || (x in list && x.block.hash != b.block.hash)
  }

  lemma {:induction false} Pushed(
      main: seq<Hash>, q: Queue, h: nat, b: QueuedBlock, n: nat)
    requires h in q ==> ListOk(main, h, q[h])
    requires |Entry(q, h)| < MAX_QUEUED_BLOCKS_PER_HEIGHT
    requires b.block.height == h && Bound(main, b.block) && h < n <= |main|
    requires forall i :: 0 <= i < |Entry(q, h)| ==> Entry(q, h)[i].block.hash != b.block.hash
    ensures ListOk(main, h, Entry(q, h) + [b])
    ensures Upserted(Entry(q, h) + [b], Entry(q, h), b)
    ensures SideCount(q[h := Entry(q, h) + [b]], main, n)
         <= SideCount(q, main, n) + if b.block.hash == main[h] then 0 else 1
  {
    var list := Entry(q, h);
    ListOkPushed(main, h, list, b);
    SidesPushed(list, b, main[h]);
    SideCountAt(q, q[h := list + [b]], main, n, h);
  }

  lemma {:induction false} SidesPushed(list: seq<QueuedBlock>, b: QueuedBlock, hash: Hash)
    ensures Sides(list + [b], hash)
         == Sides(list, hash) + if b.block.hash == hash then 0 else 1
  {
    assert (list + [b])[..|list|] == list && (list + [b])[|list|] == b;
  }

  lemma {:induction false} QueueOkPushed(
      main: seq<Hash>, max: nat, q: Queue, h: nat, b: QueuedBlock)
    requires QueueOk(main, max, q) && h <= max < |main| && b.block.height == h
    requires Bound(main, b.block) && |Entry(q, h)| < MAX_QUEUED_BLOCKS_PER_HEIGHT
    requires forall i :: 0 <= i < |Entry(q, h)| ==> Entry(q, h)[i].block.hash != b.block.hash
    ensures QueueOk(main, max, q[h := Entry(q, h) + [b]])
  {
    assert h in q ==> ListOk(main, h, q[h]);
    ListOkPushed(main, h, Entry(q, h), b);
    var q': Queue := q[h := Entry(q, h) + [b]];
    forall g | g in q'
      ensures ListOk(main, g, q'[g])
    {
      assert g != h ==> ListOk(main, g, q[g]);
    }
  }

  lemma {:induction false} Replaced(
      main: seq<Hash>, q: Queue, h: nat, i: nat, b: QueuedBlock, n: nat)
    requires h in q && ListOk(main, h, q[h]) && i < |q[h]|
    requires b.block.height == h && Bound(main, b.block) && h < n <= |main|
    requires b.block.hash == q[h][i].block.hash
    ensures ListOk(main, h, q[h][i := b])
    ensures Upserted(q[h][i := b], q[h], b)
    ensures SideCount(q[h := q[h][i := b]], main, n) <= SideCount(q, main, n)
  {
    DistinctReplaced(q[h], i, b);
    SidesReplaced(q[h], i, b, main[h]);
    SideCountAt(q, q[h := q[h][i := b]], main, n, h);
    UpsertedAt(q[h], i, b);
  }

  lemma {:induction false} UpsertedAt(list: seq<QueuedBlock>, i: nat, b: QueuedBlock)
    requires DistinctHashes(list) && i < |list| && b.block.hash == list[i].block.hash
    ensures Upserted(list[i := b], list, b)
  {
    var r := list[i := b];
    forall x
      ensures x in r <==> x == b || (x in list && x.block.hash != b.block.hash)
    {
      if x in r {
        var j :| 0 <= j < |r| && r[j] == x;
        assert j != i ==> x == list[j];
        SameHash(list, i, j);
      }
      if x in list && x.block.hash != b.block.hash {
        var j :| 0 <= j < |list| && list[j] == x;
        assert r[j] == x;
      }
      assert r[i] == b;
    }
  }
}

/**
 The address book as a value: entries by address, and for each IP address a copy of the entry that
 responded last, which stands in for a scan of all entries at that IP.
 */
module PeerBooks {
  import opened MetaAddresses
  import opened Options
  import opened OrderedKeys

  type Entries = map<Addr, MetaAddr>
  type Cache = map<Ip, MetaAddr>

  // The cache and what it stands for.

  /** No entry at this IP has responded recently: the answer of a scan of the whole book. */
  ghost predicate ScanIsReady(book: Entries, ip: Ip, localNow: DateTime) {
    forall a :: a in book && a.ip == ip ==> !HasRecentlyResponded(book[a].lastResponse, localNow)
  }

  /** The cached entry at this IP, if there is one, has not responded recently. */
  predicate CacheIsReady(cache: Cache, ip: Ip, localNow: DateTime) {
    ip in cache ==> !HasRecentlyResponded(cache[ip].lastResponse, localNow)
  }

  /** A cached entry is one that responded, and is in the book with the same last response. */
  ghost predicate CachedIn(cache: Cache, book: Entries, ip: Ip) {
    ip in cache ==>
      && cache[ip].addr.ip == ip && cache[ip].addr in book && cache[ip].state.Responded?
      && book[cache[ip].addr].lastResponse == cache[ip].lastResponse
  }

  function CachedResponse(cache: Cache, ip: Ip): Option<DateTime> {
    if ip in cache then cache[ip].lastResponse else None
  }

  /** No entry at this IP responded after the cached one. */
  ghost predicate IsLatest(cache: Cache, book: Entries, ip: Ip) {
    forall a :: a in book && a.ip == ip ==> AtMost(book[a].lastResponse, CachedResponse(cache, ip))
  }

  /** If the cached entry is the latest, then the cache gives the answer of the scan. */
  lemma {:induction false} CacheAgrees(cache: Cache, book: Entries, ip: Ip, localNow: DateTime)
    requires CachedIn(cache, book, ip) && IsLatest(cache, book, ip)
    ensures CacheIsReady(cache, ip, localNow) <==> ScanIsReady(book, ip, localNow)
  {
    forall a | a in book && a.ip == ip
      ensures HasRecentlyResponded(book[a].lastResponse, localNow) ==>
                HasRecentlyResponded(CachedResponse(cache, ip), localNow)
    {
      LaterIsMoreRecent(book[a].lastResponse, CachedResponse(cache, ip), localNow);
    }
  }

  /** The cache gives the answer of the scan at every time exactly if the cached entry is the latest. */
  lemma {:induction false} CacheExact(cache: Cache, book: Entries, ip: Ip)
    requires CachedIn(cache, book, ip)
    ensures IsLatest(cache, book, ip) <==>
            forall localNow :: CacheIsReady(cache, ip, localNow) <==> ScanIsReady(book, ip, localNow)
  {
    if IsLatest(cache, book, ip) {
      forall localNow
        ensures CacheIsReady(cache, ip, localNow) <==> ScanIsReady(book, ip, localNow)
      {
        CacheAgrees(cache, book, ip, localNow);
      }
    } else {
      var a :| a in book && a.ip == ip && !AtMost(book[a].lastResponse, CachedResponse(cache, ip));
      var end := book[a].lastResponse.value + MIN_PEER_RECONNECTION_DELAY;
      assert HasRecentlyResponded(book[a].lastResponse, end);
      assert CacheIsReady(cache, ip, end) && !ScanIsReady(book, ip, end);
    }
  }

  /** The entry replaces what is cached for its IP. */
  predicate ShouldCache(cache: Cache, e: MetaAddr) {
    && e.state.Responded?
    && (e.addr.ip in cache ==> !AtMost(e.lastResponse, cache[e.addr.ip].lastResponse))
  }

  function Cached(cache: Cache, e: MetaAddr): Cache {
    if ShouldCache(cache, e) then cache[e.addr.ip := e] else cache
  }

  /** The cache without the IP of the address, if that address is the cached one. */
  function Uncached(cache: Cache, a: Addr): Cache {
    if a.ip in cache && cache[a.ip].addr == a then cache - {a.ip} else cache
  }

  function ResponseBefore(book: Entries, a: Addr): Option<DateTime> {
    if a in book then book[a].lastResponse else None
  }

  /**
   The last response of a changed entry is the time of the change, and then it is the latest and the
   entry has responded; or it is as before.
   */
  ghost predicate RespondsNow(book: Entries, e: MetaAddr, localNow: DateTime) {
    || (e.lastResponse == Some(localNow) && e.state.Responded?)
    || e.lastResponse == ResponseBefore(book, e.addr)
  }

  ghost predicate AllNotAfter(book: Entries, localNow: DateTime) {
    forall a :: a in book ==> AtMost(book[a].lastResponse, Some(localNow))
  }

  /** Storing a changed entry keeps the cached entries in the book. */
  lemma {:induction false} StoreKeepsCachedIn(
      cache: Cache, book: Entries, e: MetaAddr, localNow: DateTime, ip: Ip)
    requires CachedIn(cache, book, ip) && AllNotAfter(book, localNow)
    requires RespondsNow(book, e, localNow)
    ensures CachedIn(Cached(cache, e), book[e.addr := e], ip)
  {
  }

  /** Storing a changed entry keeps the cached entry the latest. */
  lemma {:induction false} StoreKeepsLatest(
      cache: Cache, book: Entries, e: MetaAddr, localNow: DateTime, ip: Ip)
    requires CachedIn(cache, book, ip) && IsLatest(cache, book, ip) && AllNotAfter(book, localNow)
    requires RespondsNow(book, e, localNow)
    ensures IsLatest(Cached(cache, e), book[e.addr := e], ip)
  {
  }

  /** A response makes the cached entry the latest, whatever it was before. */
  lemma {:induction false} ResponseRestoresLatest(
      cache: Cache, book: Entries, e: MetaAddr, localNow: DateTime)
    requires CachedIn(cache, book, e.addr.ip) && AllNotAfter(book, localNow)
    requires e.lastResponse == Some(localNow) && e.state.Responded?
    ensures IsLatest(Cached(cache, e), book[e.addr := e], e.addr.ip)
  {
  }

  /** Another entry at the same IP has responded. */
  ghost predicate OthersResponded(book: Entries, a: Addr) {
    exists o :: o in book && o != a && o.ip == a.ip && book[o].lastResponse.Some?
  }

  /** Evicting an entry keeps cached entries in the book, also if it was cached itself. */
  lemma {:induction false} EvictKeepsCachedIn(cache: Cache, book: Entries, a: Addr, ip: Ip)
    requires CachedIn(cache, book, ip)
    ensures CachedIn(Uncached(cache, a), book - {a}, ip)
  {
  }

  /**
   After an eviction the cached entry is still the latest, except if it was the evicted one and
   another entry at its IP has responded.
   */
  lemma {:induction false} EvictLatest(cache: Cache, book: Entries, a: Addr, ip: Ip)
    requires CachedIn(cache, book, ip) && IsLatest(cache, book, ip)
    ensures IsLatest(Uncached(cache, a), book - {a}, ip) <==>
            !(a.ip == ip && ip in cache && cache[ip].addr == a && OthersResponded(book, a))
  {
    if a.ip == ip && ip in cache && cache[ip].addr == a && OthersResponded(book, a) {
      var o :| o in book && o != a && o.ip == a.ip && book[o].lastResponse.Some?;
      assert o in book - {a};
    }
  }

  /**
   Right after the cached entry of an IP is evicted, the cache takes the IP for ready, while a scan
   does so exactly if no other entry there has responded recently.
   */
  lemma {:induction false} EvictedCacheIsWrong(
      cache: Cache, book: Entries, a: Addr, localNow: DateTime)
    requires a in book && a.ip in cache && cache[a.ip].addr == a
    ensures CacheIsReady(Uncached(cache, a), a.ip, localNow)
    ensures ScanIsReady(book - {a}, a.ip, localNow) <==>
            forall o :: o in book && o != a && o.ip == a.ip ==>
              !HasRecentlyResponded(book[o].lastResponse, localNow)
  {
    forall o | o in book && o != a
      ensures o in book - {a} && (book - {a})[o] == book[o]
    {
    }
  }

  /** A change that applies to the book's entry is one of the two kinds that the cache expects. */
  lemma {:induction false} ApplyResponds(
      book: Entries, c: Change, now: Instant, localNow: DateTime)
    requires c.addr in book ==> book[c.addr].addr == c.addr && EntryOk(book[c.addr])
    requires Apply(c, Lookup(book, c.addr), now, localNow).Some?
    ensures RespondsNow(book, Apply(c, Lookup(book, c.addr), now, localNow).value, localNow)
  {
  }

  function Lookup(book: Entries, a: Addr): Option<MetaAddr> {
    if a in book then Some(book[a]) else None
  }

  ghost predicate EntryAt(book: Entries, a: Addr, now: Instant, localNow: DateTime) {
    a in book ==>
      && book[a].addr == a && EntryOk(book[a]) && NotAfter(book[a], now, localNow)
      && book[a].misbehavior < MAX_PEER_MISBEHAVIOR_SCORE
  }

  ghost predicate EntriesOk(book: Entries, now: Instant, localNow: DateTime) {
    forall a {:trigger EntryAt(book, a, now, localNow)} :: EntryAt(book, a, now, localNow)
  }

  /** The cache is in the book, and is the latest for every IP that is not stale. */
  ghost predicate CacheOk(cache: Cache, book: Entries, stale: set<Ip>) {
    && (forall ip {:trigger CachedIn(cache, book, ip)} :: CachedIn(cache, book, ip))
    && (forall ip {:trigger IsLatest(cache, book, ip)} ::
          ip !in stale ==> IsLatest(cache, book, ip))
  }

  ghost function StaleAfterStore(stale: set<Ip>, e: MetaAddr, localNow: DateTime): set<Ip> {
    if e.lastResponse == Some(localNow) && e.state.Responded? then stale - {e.addr.ip} else stale
  }

  ghost function StaleAfterEvict(stale: set<Ip>, cache: Cache, book: Entries, a: Addr): set<Ip> {
    if a.ip in cache && cache[a.ip].addr == a && OthersResponded(book, a) then stale + {a.ip}
    else stale
  }

  lemma {:induction false} EntriesLater(
      book: Entries, now: Instant, localNow: DateTime, now': Instant, localNow': DateTime)
    requires EntriesOk(book, now, localNow) && now <= now' && localNow <= localNow'
    ensures EntriesOk(book, now', localNow') && AllNotAfter(book, localNow')
  {
    forall a
      ensures EntryAt(book, a, now', localNow')
    {
      assert EntryAt(book, a, now, localNow);
    }
    forall a | a in book
      ensures AtMost(book[a].lastResponse, Some(localNow'))
    {
      assert EntryAt(book, a, now, localNow);
    }
  }

  lemma {:induction false} EntriesStore(
      book: Entries, now: Instant, localNow: DateTime, e: MetaAddr)
    requires EntriesOk(book, now, localNow) && EntryOk(e) && NotAfter(e, now, localNow)
    requires e.misbehavior < MAX_PEER_MISBEHAVIOR_SCORE
    ensures EntriesOk(book[e.addr := e], now, localNow)
  {
    var book' := book[e.addr := e];
    forall a
      ensures EntryAt(book', a, now, localNow)
    {
      assert EntryAt(book, a, now, localNow);
    }
  }

  lemma {:induction false} EntriesRemove(
      book: Entries, now: Instant, localNow: DateTime, gone: set<Addr>)
    requires EntriesOk(book, now, localNow)
    ensures EntriesOk(book - gone, now, localNow)
  {
    forall a
      ensures EntryAt(book - gone, a, now, localNow)
    {
      assert EntryAt(book, a, now, localNow);
    }
  }

  lemma {:induction false} CacheStore(
      cache: Cache, book: Entries, stale: set<Ip>, e: MetaAddr, localNow: DateTime)
    requires CacheOk(cache, book, stale) && AllNotAfter(book, localNow)
    requires RespondsNow(book, e, localNow)
    ensures CacheOk(Cached(cache, e), book[e.addr := e], StaleAfterStore(stale, e, localNow))
  {
    var stale' := StaleAfterStore(stale, e, localNow);
    var cache', book' := Cached(cache, e), book[e.addr := e];
    forall ip
      ensures CachedIn(cache', book', ip)
    {
      assert CachedIn(cache, book, ip);
      StoreKeepsCachedIn(cache, book, e, localNow, ip);
    }
    forall ip | ip !in stale'
      ensures IsLatest(cache', book', ip)
    {
      assert CachedIn(cache, book, ip);
      if ip in stale {
        ResponseRestoresLatest(cache, book, e, localNow);
      } else {
        assert IsLatest(cache, book, ip);
        StoreKeepsLatest(cache, book, e, localNow, ip);
      }
    }
  }

  lemma {:induction false} CacheEvict(cache: Cache, book: Entries, stale: set<Ip>, a: Addr)
    requires CacheOk(cache, book, stale)
    ensures CacheOk(Uncached(cache, a), book - {a}, StaleAfterEvict(stale, cache, book, a))
  {
    forall ip
      ensures CachedIn(Uncached(cache, a), book - {a}, ip)
    {
      assert CachedIn(cache, book, ip);
      EvictKeepsCachedIn(cache, book, a, ip);
    }
    forall ip | ip !in StaleAfterEvict(stale, cache, book, a)
      ensures IsLatest(Uncached(cache, a), book - {a}, ip)
    {
      assert CachedIn(cache, book, ip) && IsLatest(cache, book, ip);
      EvictLatest(cache, book, a, ip);
    }
  }

  // The book in peer order.

  /** Every entry is stored under its own address. */
  ghost predicate Keyed(book: Entries) {
    forall a :: a in book ==> book[a].addr == a
  }

  ghost predicate IsLast(book: Entries, a: Addr) {
    a in book && forall o :: o in book && o != a ==> Before(book[o], book[a])
  }

  lemma {:induction false} LastExists(book: Entries) returns (a: Addr)
    requires Keyed(book) && book != map[]
    ensures IsLast(book, a)
    decreases |book|
  {
    var x :| x in book;
    var rest := book - {x};
    if rest == map[] {
      assert forall o :: o in book ==> o == x || o in rest;
      a := x;
    } else {
      assert |rest| == |book| - 1;
      a := LastExists(rest);
      PeersCompare(book[x], book[a]);
      if Before(book[a], book[x]) {
        forall o | o in book && o != x
          ensures Before(book[o], book[x])
        {
          if o != a {
            assert o in rest;
            PeersJoin(book[o], book[a], book[x]);
          }
        }
        a := x;
      } else {
        assert forall o :: o in book && o != x ==> o in rest;
      }
    }
  }

  lemma {:induction false} LastIsUnique(book: Entries, a: Addr, b: Addr)
    requires Keyed(book) && IsLast(book, a) && IsLast(book, b)
    ensures a == b
  {
    PeersCompare(book[a], book[b]);
  }

  /** The address of the entry that comes last. */
  ghost function LastPeer(book: Entries): (a: Addr)
    requires book != map[]
    ensures a in book
  {
    if exists a :: IsLast(book, a) then
      var a :| IsLast(book, a);
      a
    else
      var a :| a in book;
      a
  }

  lemma {:induction false} LastPeerIs(book: Entries, a: Addr)
    requires Keyed(book) && book != map[]
    ensures IsLast(book, LastPeer(book))
    ensures IsLast(book, a) ==> a == LastPeer(book)
  {
    var last := LastExists(book);
    LastIsUnique(book, last, LastPeer(book));
    if IsLast(book, a) {
      LastIsUnique(book, a, LastPeer(book));
    }
  }

  /** All addresses, in the order of their entries. */
  ghost function InOrder(book: Entries): seq<Addr>
    decreases |book|
  {
    if book == map[] then []
    else
      var a := LastPeer(book);
      assert |book - {a}| == |book| - 1;
      InOrder(book - {a}) + [a]
  }

  /** The order has every address once, and entries in it only go up. */
  lemma {:induction false} InOrderIsSorted(book: Entries)
    requires Keyed(book)
    ensures forall a :: a in InOrder(book) <==> a in book
    ensures forall i, j :: 0 <= i < j < |InOrder(book)| ==>
              Before(book[InOrder(book)[i]], book[InOrder(book)[j]])
    decreases |book|
  {
    if book != map[] {
      var a := LastPeer(book);
      LastPeerIs(book, a);
      var rest := book - {a};
      assert |rest| == |book| - 1;
      InOrderIsSorted(rest);
      forall i, j | 0 <= i < j < |InOrder(book)|
        ensures Before(book[InOrder(book)[i]], book[InOrder(book)[j]])
      {
        assert InOrder(rest)[i] in InOrder(rest);
      }
    }
  }

  // Bans.

  function SkipTo(order: seq<Addr>, ip: Ip): seq<Addr> {
    if order == [] || order[0].ip == ip then order else SkipTo(order[1..], ip)
  }

  function TakeRun(order: seq<Addr>, ip: Ip): seq<Addr> {
    if order == [] || order[0].ip != ip then [] else [order[0]] + TakeRun(order[1..], ip)
  }

  /** The addresses that a ban removes: the first run of the banned IP in peer order. */
  function FirstRun(order: seq<Addr>, ip: Ip): seq<Addr> {
    TakeRun(SkipTo(order, ip), ip)
  }

  lemma {:induction false} SkipToIs(order: seq<Addr>, ip: Ip) returns (i: nat)
    ensures i <= |order| && SkipTo(order, ip) == order[i..]
    ensures forall x :: 0 <= x < i ==> order[x].ip != ip
    ensures i < |order| ==> order[i].ip == ip
  {
    if order == [] || order[0].ip == ip {
      i := 0;
    } else {
      var k := SkipToIs(order[1..], ip);
      assert order[1..][k..] == order[k + 1..];
      i := k + 1;
      forall x | 0 <= x < i
        ensures order[x].ip != ip
      {
        assert x > 0 ==> order[x] == order[1..][x - 1];
      }
    }
  }

  lemma {:induction false} TakeRunIs(order: seq<Addr>, ip: Ip) returns (n: nat)
    ensures n <= |order| && TakeRun(order, ip) == order[..n]
    ensures forall x :: 0 <= x < n ==> order[x].ip == ip
    ensures n < |order| ==> order[n].ip != ip
  {
    if order == [] || order[0].ip != ip {
      n := 0;
    } else {
      var k := TakeRunIs(order[1..], ip);
      n := k + 1;
      assert order[..n] == [order[0]] + order[1..][..k];
      forall x | 0 <= x < n
        ensures order[x].ip == ip
      {
        assert x > 0 ==> order[x] == order[1..][x - 1];
      }
    }
  }

  /** No entry of another IP comes between two of this one. */
  ghost predicate Contiguous(order: seq<Addr>, ip: Ip) {
    forall i, j, k :: 0 <= i < j < k < |order| && order[i].ip == ip && order[k].ip == ip ==>
      order[j].ip == ip
  }

  ghost predicate Distinct(order: seq<Addr>) {
    forall i, j :: 0 <= i < j < |order| ==> order[i] != order[j]
  }

  /** What a ban removes are the addresses of one stretch, the first of its IP. */
  lemma {:induction false} FirstRunIs(order: seq<Addr>, ip: Ip) returns (from: nat, to: nat)
    ensures from <= to <= |order| && FirstRun(order, ip) == order[from..to]
    ensures forall x :: 0 <= x < from ==> order[x].ip != ip
    ensures forall x :: from <= x < to ==> order[x].ip == ip
    ensures to < |order| ==> from < to && order[to].ip != ip
  {
    from := SkipToIs(order, ip);
    var rest := order[from..];
    var n := TakeRunIs(rest, ip);
    to := from + n;
    assert rest[..n] == order[from..to];
    forall x | from <= x < to
      ensures order[x].ip == ip
    {
      assert rest[x - from] == order[x];
    }
    assert to < |order| ==> rest[n] == order[to] && rest[0] == order[from];
  }

  lemma {:induction false} ContiguousIsRemoved(
      order: seq<Addr>, ip: Ip, from: nat, to: nat, k: nat)
    requires from <= to <= |order| && k < |order| && order[k].ip == ip && Contiguous(order, ip)
    requires forall x :: 0 <= x < from ==> order[x].ip != ip
    requires to < |order| ==> from < to && order[from].ip == ip && order[to].ip != ip
    ensures from <= k < to
  {
  }

  lemma {:induction false} RemovedIsContiguous(order: seq<Addr>, ip: Ip, from: nat, to: nat)
    requires Distinct(order) && from <= to <= |order|
    requires forall x :: from <= x < to ==> order[x].ip == ip
    requires forall a :: a in order && a.ip == ip ==> a in order[from..to]
    ensures Contiguous(order, ip)
  {
    forall k | 0 <= k < |order| && order[k].ip == ip
      ensures from <= k < to
    {
      assert order[k] in order[from..to];
      var y :| 0 <= y < to - from && order[from..to][y] == order[k];
      assert order[from + y] == order[k];
    }
  }

  /** A ban removes every entry at its IP exactly if they are contiguous in peer order. */
  lemma {:induction false} BanExact(order: seq<Addr>, ip: Ip)
    requires Distinct(order)
    ensures forall a :: a in FirstRun(order, ip) ==> a in order && a.ip == ip
    ensures (forall a :: a in order && a.ip == ip ==> a in FirstRun(order, ip))
       <==> Contiguous(order, ip)
  {
    var from, to := FirstRunIs(order, ip);
    if Contiguous(order, ip) {
      forall a | a in order && a.ip == ip
        ensures a in FirstRun(order, ip)
      {
        var k :| 0 <= k < |order| && order[k] == a;
        ContiguousIsRemoved(order, ip, from, to, k);
        assert order[from..to][k - from] == a;
      }
    } else if forall a :: a in order && a.ip == ip ==> a in FirstRun(order, ip) {
      RemovedIsContiguous(order, ip, from, to);
    }
  }

  /** A ban forgets the cached entry of its IP, and any of the entries there. */
  lemma {:induction false} CacheBan(
      cache: Cache, book: Entries, stale: set<Ip>, ip: Ip, gone: set<Addr>)
    requires CacheOk(cache, book, stale) && forall a :: a in gone ==> a.ip == ip
    ensures CacheOk(cache - {ip}, book - gone, stale + {ip})
  {
    forall i
      ensures CachedIn(cache - {ip}, book - gone, i)
    {
      assert CachedIn(cache, book, i);
    }
    forall i | i !in stale + {ip}
      ensures IsLatest(cache - {ip}, book - gone, i)
    {
      assert IsLatest(cache, book, i);
    }
  }

  // The book as a value.

  datatype Book = Book(
    byAddr: Entries,
    mostRecentByIp: Option<Cache>,  // only kept to limit connections to one per IP
    bans: seq<Ip>,                  // oldest first
    limit: nat)

  function EmptyBook(limit: nat, maxConnectionsPerIp: nat): Book {
    Book(map[], if maxConnectionsPerIp == 1 then Some(map[]) else None, [], limit)
  }

  /** Stores an entry, and caches it if it has the latest response of its IP. */
  function Store(b: Book, e: MetaAddr): Book {
    b.(byAddr := b.byAddr[e.addr := e],
       mostRecentByIp := if b.mostRecentByIp.Some? then Some(Cached(b.mostRecentByIp.value, e))
                         else None)
  }

  /** Removes an entry, and its copy in the cache. */
  function Evict(b: Book, a: Addr): Book {
    b.(byAddr := b.byAddr - {a},
       mostRecentByIp := if b.mostRecentByIp.Some? then Some(Uncached(b.mostRecentByIp.value, a))
                         else None)
  }

  /** Evicts the last entries until the book is within its limit. */
  ghost function EvictSurplus(b: Book): Book
    decreases |b.byAddr|
  {
    if |b.byAddr| <= b.limit then b
    else
      var a := LastPeer(b.byAddr);
      assert |b.byAddr - {a}| == |b.byAddr| - 1;
      EvictSurplus(Evict(b, a))
  }

  function Banned(bans: seq<Ip>, ip: Ip): seq<Ip> {
    if |bans + [ip]| > MAX_BANNED_IPS then (bans + [ip])[1..] else bans + [ip]
  }

  /** Bans an IP; without a cache to forget it in, nothing else happens before the panic. */
  ghost function Ban(b: Book, ip: Ip): Book {
    var r := b.(bans := Banned(b.bans, ip));
    if b.mostRecentByIp.None? then r
    else
      r.(mostRecentByIp := Some(b.mostRecentByIp.value - {ip}),
         byAddr := b.byAddr - Elements(FirstRun(InOrder(b.byAddr), ip)))
  }

  datatype UpdateResult = Ignored | Stored(entry: MetaAddr) | BannedIp | Panicked

  /**
   A change, the clocks when it is applied, and whether the address and its other information are
   valid for outbound connections.
   */
  datatype UpdateRequest = UpdateRequest(
    change: Change, now: Instant, localNow: DateTime, addressValid: bool, infoValid: bool)

  function ApplyTo(book: Entries, u: UpdateRequest): Option<MetaAddr>
    requires u.change.addr in book ==> book[u.change.addr].addr == u.change.addr
  {
    Apply(u.change, Lookup(book, u.change.addr), u.now, u.localNow)
  }

  /** Applies a change to the book. */
  ghost function Update(b: Book, u: UpdateRequest): (Book, UpdateResult)
    requires Keyed(b.byAddr)
  {
    var ip := u.change.addr.ip;
    if ip in b.bans then (b, Ignored)
    else
      var e := ApplyTo(b.byAddr, u);
      if e.None? then (b, Ignored)
      else if e.value.misbehavior >= MAX_PEER_MISBEHAVIOR_SCORE then
        (Ban(b, ip), if b.mostRecentByIp.None? then Panicked else BannedIp)
      else if !u.addressValid || (!u.infoValid && e.value.state.NeverAttemptedGossiped?) then
        (b, Ignored)
      else (EvictSurplus(Store(b, e.value)), Stored(e.value))
  }

  // What every update keeps.

  /** A book, the latest readings of the clocks, and where the cached entry may not be the latest. */
  datatype Tracked = Tracked(book: Book, now: Instant, localNow: DateTime, stale: set<Ip>)

  ghost predicate Consistent(t: Tracked) {
    && EntriesOk(t.book.byAddr, t.now, t.localNow)
    && (t.book.mostRecentByIp.Some? ==> CacheOk(t.book.mostRecentByIp.value, t.book.byAddr, t.stale))
  }

  ghost predicate Inv(t: Tracked) {
    Consistent(t) && |t.book.byAddr| <= t.book.limit && |t.book.bans| <= MAX_BANNED_IPS
  }

  lemma {:induction false} OkIsKeyed(book: Entries, now: Instant, localNow: DateTime)
    requires EntriesOk(book, now, localNow)
    ensures Keyed(book)
  {
    forall a | a in book
      ensures book[a].addr == a
    {
      assert EntryAt(book, a, now, localNow);
    }
  }

  ghost function TrackEvict(t: Tracked, a: Addr): Tracked {
    t.(book := Evict(t.book, a),
       stale := if t.book.mostRecentByIp.Some?
                then StaleAfterEvict(t.stale, t.book.mostRecentByIp.value, t.book.byAddr, a)
                else t.stale)
  }

  lemma {:induction false} EvictKeeps(t: Tracked, a: Addr)
    requires Consistent(t)
    ensures Consistent(TrackEvict(t, a))
  {
    EntriesRemove(t.book.byAddr, t.now, t.localNow, {a});
    if t.book.mostRecentByIp.Some? {
      CacheEvict(t.book.mostRecentByIp.value, t.book.byAddr, t.stale, a);
    }
  }

  ghost function TrackSurplus(t: Tracked): Tracked
    decreases |t.book.byAddr|
  {
    if |t.book.byAddr| <= t.book.limit then t
    else
      var a := LastPeer(t.book.byAddr);
      assert |t.book.byAddr - {a}| == |t.book.byAddr| - 1;
      TrackSurplus(TrackEvict(t, a))
  }

  /**
   Evicting surplus entries leaves the book within its limit, with entries as they were, every one of
   which comes before every evicted one.
   */
  lemma {:induction false} SurplusKeeps(t: Tracked)
    requires Consistent(t) && |t.book.bans| <= MAX_BANNED_IPS
    ensures Inv(TrackSurplus(t)) && TrackSurplus(t).book == EvictSurplus(t.book)
    ensures TrackSurplus(t).now == t.now && TrackSurplus(t).localNow == t.localNow
    ensures KeepsFirst(t.book.byAddr, EvictSurplus(t.book).byAddr)
    decreases |t.book.byAddr|
  {
    if |t.book.byAddr| > t.book.limit {
      var book := t.book.byAddr;
      var a := LastPeer(book);
      assert |book - {a}| == |book| - 1;
      OkIsKeyed(book, t.now, t.localNow);
      LastPeerIs(book, a);
      EvictKeeps(t, a);
      SurplusKeeps(TrackEvict(t, a));
      KeepsFirstStep(book, a, EvictSurplus(t.book).byAddr);
    }
  }

  ghost predicate KeptAt(book: Entries, kept: Entries, a: Addr) {
    a in kept ==> a in book && kept[a] == book[a]
  }

  /** Entries that stay are as they were, and come before those that do not. */
  ghost predicate KeepsFirst(book: Entries, kept: Entries) {
    && (forall a {:trigger KeptAt(book, kept, a)} :: KeptAt(book, kept, a))
    && (forall a, o {:trigger Before(book[a], book[o])} ::
          a in kept && a in book && o in book && o !in kept ==> Before(book[a], book[o]))
  }

  lemma {:induction false} KeepsFirstStep(book: Entries, last: Addr, kept: Entries)
    requires IsLast(book, last) && KeepsFirst(book - {last}, kept)
    ensures KeepsFirst(book, kept)
  {
    var rest := book - {last};
    forall a
      ensures KeptAt(book, kept, a)
    {
      assert KeptAt(rest, kept, a);
    }
    forall a, o | a in kept && a in book && o in book && o !in kept
      ensures Before(book[a], book[o])
    {
      assert KeptAt(rest, kept, a);
      if o != last {
        assert Before(rest[a], rest[o]);
      }
    }
  }

  lemma {:induction false} StoreKeeps(t: Tracked, e: MetaAddr)
    requires Consistent(t) && EntryOk(e) && NotAfter(e, t.now, t.localNow)
    requires e.misbehavior < MAX_PEER_MISBEHAVIOR_SCORE
    requires AllNotAfter(t.book.byAddr, t.localNow) && RespondsNow(t.book.byAddr, e, t.localNow)
    ensures Consistent(TrackStore(t, e))
  {
    EntriesStore(t.book.byAddr, t.now, t.localNow, e);
    if t.book.mostRecentByIp.Some? {
      CacheStore(t.book.mostRecentByIp.value, t.book.byAddr, t.stale, e, t.localNow);
    }
  }

  ghost function TrackStore(t: Tracked, e: MetaAddr): Tracked {
    t.(book := Store(t.book, e), stale := StaleAfterStore(t.stale, e, t.localNow))
  }

  ghost function TrackBan(t: Tracked, ip: Ip): Tracked {
    t.(book := Ban(t.book, ip), stale := t.stale + {ip})
  }

  lemma {:induction false} BanKeeps(t: Tracked, ip: Ip)
    requires Inv(t)
    ensures Inv(TrackBan(t, ip))
    ensures forall a :: a in Ban(t.book, ip).byAddr ==> KeptAt(t.book.byAddr, Ban(t.book, ip).byAddr, a)
  {
    var b := t.book;
    if b.mostRecentByIp.Some? {
      OkIsKeyed(b.byAddr, t.now, t.localNow);
      var order := InOrder(b.byAddr);
      var gone := Elements(FirstRun(order, ip));
      InOrderIsDistinct(b.byAddr);
      BanExact(order, ip);
      CacheBan(b.mostRecentByIp.value, b.byAddr, t.stale, ip, gone);
      EntriesRemove(b.byAddr, t.now, t.localNow, gone);
      SmallerBook(b.byAddr, gone);
    }
  }

  lemma {:induction false} InOrderIsDistinct(book: Entries)
    requires Keyed(book)
    ensures Distinct(InOrder(book))
  {
    InOrderIsSorted(book);
    var order := InOrder(book);
    forall i, j | 0 <= i < j < |order|
      ensures order[i] != order[j]
    {
      PeersCompare(book[order[i]], book[order[j]]);
    }
  }

  /** The book after an update under clocks that do not go back. */
  ghost function Track(t: Tracked, u: UpdateRequest): Tracked
    requires Keyed(t.book.byAddr)
  {
    var s := t.(now := u.now, localNow := u.localNow);
    match Update(t.book, u).1
    case Ignored => s
    case Stored(e) => TrackSurplus(TrackStore(s, e))
    case BannedIp => TrackBan(s, u.change.addr.ip)
    case Panicked => s.(book := Ban(t.book, u.change.addr.ip))
  }

  ghost predicate OnTime(t: Tracked, u: UpdateRequest) {
    t.now <= u.now && t.localNow <= u.localNow
  }

  /** Entries that stay in the book only grow. */
  ghost predicate AllGrow(before: Entries, after: Entries) {
    forall a {:trigger GrowsAt(before, after, a)} :: GrowsAt(before, after, a)
  }

  ghost predicate GrowsAt(before: Entries, after: Entries, a: Addr) {
    a in before && a in after ==> Grows(before[a], after[a])
  }

  lemma {:induction false} KeptGrow(before: Entries, stored: Entries, kept: Entries)
    requires AllGrow(before, stored) && KeepsFirst(stored, kept)
    ensures AllGrow(before, kept)
  {
    forall a
      ensures GrowsAt(before, kept, a)
    {
      assert GrowsAt(before, stored, a) && KeptAt(stored, kept, a);
    }
  }

  lemma {:induction false} SomeGrow(before: Entries, after: Entries)
    requires forall a :: a in after ==> KeptAt(before, after, a)
    ensures AllGrow(before, after)
  {
  }

  lemma {:induction false} UpdateStores(t: Tracked, u: UpdateRequest, e: MetaAddr)
    requires Inv(t) && OnTime(t, u) && Keyed(t.book.byAddr) && Update(t.book, u).1 == Stored(e)
    ensures var s := t.(now := u.now, localNow := u.localNow);
            && Consistent(TrackStore(s, e)) && EntryOk(e) && e.addr == u.change.addr
            && AllGrow(t.book.byAddr, TrackStore(s, e).book.byAddr)
  {
    var book := t.book.byAddr;
    EntriesLater(book, t.now, t.localNow, u.now, u.localNow);
    assert EntryAt(book, u.change.addr, u.now, u.localNow);
    ApplyKeeps(u.change, Lookup(book, u.change.addr), u.now, u.localNow);
    ApplyResponds(book, u.change, u.now, u.localNow);
    var s := t.(now := u.now, localNow := u.localNow);
    StoreKeeps(s, e);
  }

  /** An update keeps the book consistent, within its limit, and its entries growing. */
  lemma {:induction false} UpdateKeeps(t: Tracked, u: UpdateRequest)
    requires Inv(t) && OnTime(t, u) && Keyed(t.book.byAddr)
    ensures Inv(Track(t, u)) && Track(t, u).book == Update(t.book, u).0
    ensures Track(t, u).now == u.now && Track(t, u).localNow == u.localNow
    ensures AllGrow(t.book.byAddr, Track(t, u).book.byAddr)
  {
    var s := t.(now := u.now, localNow := u.localNow);
    EntriesLater(t.book.byAddr, t.now, t.localNow, u.now, u.localNow);
    match Update(t.book, u).1
    case Ignored =>
    case Stored(e) =>
      UpdateStores(t, u, e);
      var stored := TrackStore(s, e);
      SurplusKeeps(stored);
      KeptGrow(t.book.byAddr, stored.book.byAddr, EvictSurplus(stored.book).byAddr);
    case BannedIp =>
      BanKeeps(s, u.change.addr.ip);
      SomeGrow(t.book.byAddr, Ban(t.book, u.change.addr.ip).byAddr);
    case Panicked =>
  }

  function ScoreBefore(book: Entries, a: Addr): Score {
    if a in book then book[a].misbehavior else 0
  }

  /**
   An update reaches the misbehavior limit exactly if the score and the increment do, in 32 bits.
   */
  lemma {:induction false} LimitExact(t: Tracked, u: UpdateRequest)
    requires Inv(t) && Keyed(t.book.byAddr)
    ensures var sum := ScoreBefore(t.book.byAddr, u.change.addr) + ScoreIncrement(u.change);
            Update(t.book, u).1 in {BannedIp, Panicked} <==>
            u.change.addr.ip !in t.book.bans && MAX_PEER_MISBEHAVIOR_SCORE <= sum < SCORE_LIMIT
  {
    var book, a := t.book.byAddr, u.change.addr;
    assert EntryAt(book, a, t.now, t.localNow);
    if a in book {
      ScoreExact(u.change, book[a], u.now, u.localNow);
    }
  }

  /** A call panics exactly if a change reaches the misbehavior limit and there is no cache. */
  lemma {:induction false} PanicExact(t: Tracked, u: UpdateRequest)
    requires Inv(t) && Keyed(t.book.byAddr)
    ensures var sum := ScoreBefore(t.book.byAddr, u.change.addr) + ScoreIncrement(u.change);
            Update(t.book, u).1.Panicked? <==>
            && t.book.mostRecentByIp.None? && u.change.addr.ip !in t.book.bans
            && MAX_PEER_MISBEHAVIOR_SCORE <= sum < SCORE_LIMIT
  {
    LimitExact(t, u);
  }

  // Runs.

  ghost predicate AllOnTime(t: Tracked, updates: seq<UpdateRequest>)
    requires Inv(t)
    decreases |updates|
  {
    updates == [] ||
    (OnTime(t, updates[0]) &&
     (OkIsKeyed(t.book.byAddr, t.now, t.localNow);
      UpdateKeeps(t, updates[0]);
      AllOnTime(Track(t, updates[0]), updates[1..])))
  }

  /** The book after any run of updates under clocks that do not go back. */
  ghost function After(t: Tracked, updates: seq<UpdateRequest>): (r: Tracked)
    requires Inv(t) && AllOnTime(t, updates)
    ensures Inv(r)
    decreases |updates|
  {
    if updates == [] then t
    else
      OkIsKeyed(t.book.byAddr, t.now, t.localNow);
      UpdateKeeps(t, updates[0]);
      After(Track(t, updates[0]), updates[1..])
  }

  lemma {:induction false} AfterFirst(t: Tracked, u: UpdateRequest, rest: seq<UpdateRequest>)
    requires Inv(t) && Keyed(t.book.byAddr) && OnTime(t, u)
    requires Inv(Track(t, u)) && AllOnTime(Track(t, u), rest)
    ensures AllOnTime(t, [u] + rest) && After(t, [u] + rest) == After(Track(t, u), rest)
  {
    assert ([u] + rest)[1..] == rest;
  }

  /** The update may put the entry into the book. */
  ghost predicate Enters(u: UpdateRequest, e: MetaAddr) {
    && e.addr == u.change.addr && u.addressValid
    && (e.state.NeverAttemptedGossiped? ==> u.infoValid)
  }

  ghost predicate Sourced(updates: seq<UpdateRequest>, e: MetaAddr) {
    exists i :: 0 <= i < |updates| && Enters(updates[i], e)
  }

  lemma {:induction false} UpdateSources(t: Tracked, u: UpdateRequest, a: Addr)
    requires Inv(t) && OnTime(t, u) && Keyed(t.book.byAddr) && a in Update(t.book, u).0.byAddr
    ensures var e := Update(t.book, u).0.byAddr[a];
            (a in t.book.byAddr && e == t.book.byAddr[a]) || Enters(u, e)
  {
    match Update(t.book, u).1
    case Stored(e) =>
      UpdateStores(t, u, e);
      var stored := TrackStore(t.(now := u.now, localNow := u.localNow), e);
      SurplusKeeps(stored);
      assert KeptAt(stored.book.byAddr, EvictSurplus(stored.book).byAddr, a);
    case _ =>
  }

  /**
   In any run, an entry that was not in the book as it is was put there by an update whose address
   is valid for outbound connections, and if it was never attempted, whose other information is too.
   */
  lemma {:induction false} RunSources(t: Tracked, updates: seq<UpdateRequest>, a: Addr)
    requires Inv(t) && AllOnTime(t, updates) && a in After(t, updates).book.byAddr
    ensures var e := After(t, updates).book.byAddr[a];
            (a in t.book.byAddr && e == t.book.byAddr[a]) || Sourced(updates, e)
    decreases |updates|
  {
    if updates != [] {
      var u, rest, e := updates[0], updates[1..], After(t, updates).book.byAddr[a];
      OkIsKeyed(t.book.byAddr, t.now, t.localNow);
      UpdateKeeps(t, u);
      var next := Track(t, u);
      RunSources(next, rest, a);
      if a in next.book.byAddr && e == next.book.byAddr[a] {
        UpdateSources(t, u, a);
        assert Enters(u, e) ==> Enters(updates[0], e);
      } else {
        var i :| 0 <= i < |rest| && Enters(rest[i], e);
        assert Enters(updates[i + 1], e);
      }
    }
  }

  /** What an update does, by the state of the book and the change. */
  lemma {:induction false} UpdateExact(t: Tracked, u: UpdateRequest, e: MetaAddr)
    requires Inv(t) && OnTime(t, u) && Keyed(t.book.byAddr)
    requires ApplyTo(t.book.byAddr, u) == Some(e) && u.change.addr.ip !in t.book.bans
    ensures var sum := ScoreBefore(t.book.byAddr, u.change.addr) + ScoreIncrement(u.change);
            Update(t.book, u).1 == Stored(e) <==>
            Enters(u, e) && !(MAX_PEER_MISBEHAVIOR_SCORE <= sum < SCORE_LIMIT)
  {
    LimitExact(t, u);
    var book, a := t.book.byAddr, u.change.addr;
    EntriesLater(book, t.now, t.localNow, u.now, u.localNow);
    assert EntryAt(book, a, u.now, u.localNow);
    ApplyKeeps(u.change, Lookup(book, a), u.now, u.localNow);
  }

  /** A new book, with one connection per IP. */
  ghost function Start(limit: nat): Tracked {
    StartWith(limit, 1)
  }

  ghost function StartWith(limit: nat, maxConnectionsPerIp: nat): Tracked {
    Tracked(EmptyBook(limit, maxConnectionsPerIp), 0, 0, {})
  }

  lemma {:induction false} StartOk(limit: nat, maxConnectionsPerIp: nat)
    ensures Inv(StartWith(limit, maxConnectionsPerIp))
  {
  }

  /** In any run the cache gives the answer of a scan at every time, for every IP that is not stale. */
  lemma {:induction false} RunAgrees(t: Tracked, updates: seq<UpdateRequest>, ip: Ip, localNow: DateTime)
    requires Inv(t) && AllOnTime(t, updates)
    requires After(t, updates).book.mostRecentByIp.Some? && ip !in After(t, updates).stale
    ensures var b := After(t, updates).book;
            CacheIsReady(b.mostRecentByIp.value, ip, localNow) <==> ScanIsReady(b.byAddr, ip, localNow)
  {
    AgreesUnlessStale(After(t, updates), ip, localNow);
  }

  lemma {:induction false} AgreesUnlessStale(t: Tracked, ip: Ip, localNow: DateTime)
    requires Inv(t) && t.book.mostRecentByIp.Some?
    ensures ip !in t.stale ==>
              (CacheIsReady(t.book.mostRecentByIp.value, ip, localNow) <==>
               ScanIsReady(t.book.byAddr, ip, localNow))
  {
    var cache := t.book.mostRecentByIp.value;
    assert CachedIn(cache, t.book.byAddr, ip);
    if ip !in t.stale {
      assert IsLatest(cache, t.book.byAddr, ip);
      CacheAgrees(cache, t.book.byAddr, ip, localNow);
    }
  }

  /** The update evicts or bans. */
  ghost predicate Removes(b: Book, u: UpdateRequest)
    requires Keyed(b.byAddr)
  {
    match Update(b, u).1
    case Ignored => false
    case Stored(e) => |b.byAddr[e.addr := e]| > b.limit
    case _ => true
  }

  ghost predicate NoneRemoves(t: Tracked, updates: seq<UpdateRequest>)
    requires Inv(t) && AllOnTime(t, updates)
    decreases |updates|
  {
    updates == [] ||
    (OkIsKeyed(t.book.byAddr, t.now, t.localNow);
     UpdateKeeps(t, updates[0]);
     && !Removes(t.book, updates[0])
     && NoneRemoves(Track(t, updates[0]), updates[1..]))
  }

  lemma {:induction false} NoneStale(t: Tracked, updates: seq<UpdateRequest>)
    requires Inv(t) && AllOnTime(t, updates) && NoneRemoves(t, updates) && t.stale == {}
    ensures After(t, updates).stale == {}
    ensures After(t, updates).book.mostRecentByIp.Some? == t.book.mostRecentByIp.Some?
    decreases |updates|
  {
    if updates != [] {
      OkIsKeyed(t.book.byAddr, t.now, t.localNow);
      UpdateKeeps(t, updates[0]);
      NoneStale(Track(t, updates[0]), updates[1..]);
    }
  }

  /**
   With one connection per IP, in any run of updates that evicts and bans nobody, the cache gives the
   answer of a scan for every IP and time.
   */
  lemma {:induction false} CacheStandsForScan(
      limit: nat, updates: seq<UpdateRequest>, ip: Ip, localNow: DateTime)
    requires Inv(Start(limit)) && AllOnTime(Start(limit), updates)
    requires NoneRemoves(Start(limit), updates)
    ensures var b := After(Start(limit), updates).book;
            b.mostRecentByIp.Some? &&
            (CacheIsReady(b.mostRecentByIp.value, ip, localNow) <==>
             ScanIsReady(b.byAddr, ip, localNow))
  {
    NoneStale(Start(limit), updates);
    RunAgrees(Start(limit), updates, ip, localNow);
  }

  lemma {:induction false} AfterAppend(t: Tracked, a: seq<UpdateRequest>, b: seq<UpdateRequest>)
    requires Inv(t) && AllOnTime(t, a) && AllOnTime(After(t, a), b)
    ensures AllOnTime(t, a + b) && After(t, a + b) == After(After(t, a), b)
    decreases |a|
  {
    if a == [] {
      assert a + b == b;
    } else {
      OkIsKeyed(t.book.byAddr, t.now, t.localNow);
      UpdateKeeps(t, a[0]);
      AfterAppend(Track(t, a[0]), a[1..], b);
      AfterFirst(t, a[0], a[1..] + b);
      assert a + b == [a[0]] + (a[1..] + b);
    }
  }

  /** The run of updates leads to this book, with clocks at most these. */
  ghost predicate Reaches(
      t: Tracked, updates: seq<UpdateRequest>, b: Book, now: Instant, localNow: DateTime)
  {
    && Inv(t) && AllOnTime(t, updates) && After(t, updates).book == b
    && After(t, updates).now <= now && After(t, updates).localNow <= localNow
  }

  lemma {:induction false} ReachesNext(
      t: Tracked, updates: seq<UpdateRequest>, b: Book, u: UpdateRequest, r: Book)
    requires Reaches(t, updates, b, u.now, u.localNow)
    requires Keyed(b.byAddr) && Update(b, u).0 == r
    ensures Reaches(t, updates + [u], r, u.now, u.localNow)
  {
    var s := After(t, updates);
    UpdateKeeps(s, u);
    AfterFirst(s, u, []);
    assert [u] + [] == [u];
    AfterAppend(t, updates, [u]);
  }

  lemma {:induction false} ReachesThree(
      t: Tracked, u: UpdateRequest, v: UpdateRequest, w: UpdateRequest, b1: Book, b2: Book, b3: Book)
    requires Inv(t) && OnTime(t, u) && Keyed(t.book.byAddr) && Update(t.book, u).0 == b1
    requires u.now <= v.now <= w.now && u.localNow <= v.localNow <= w.localNow
    requires Keyed(b1.byAddr) && Update(b1, v).0 == b2 && Keyed(b2.byAddr) && Update(b2, w).0 == b3
    ensures Reaches(t, [u, v, w], b3, w.now, w.localNow)
  {
    ReachesNext(t, [], t.book, u, b1);
    ReachesNext(t, [] + [u], b1, v, b2);
    ReachesNext(t, [] + [u] + [v], b2, w, b3);
    assert [u, v, w] == [] + [u] + [v] + [w];
  }

  /** An update that the book has room for. */
  lemma {:induction false} UpdateFits(b: Book, u: UpdateRequest, e: MetaAddr)
    requires Keyed(b.byAddr) && u.change.addr.ip !in b.bans && u.addressValid && u.infoValid
    requires ApplyTo(b.byAddr, u) == Some(e) && e.misbehavior < MAX_PEER_MISBEHAVIOR_SCORE
    requires |b.byAddr[e.addr := e]| <= b.limit
    ensures Update(b, u) == (Store(b, e), Stored(e))
  {
  }

  /** An update for a new address that the book has room for. */
  lemma {:induction false} NewFits(b: Book, u: UpdateRequest, e: MetaAddr)
    requires Keyed(b.byAddr) && u.change.addr.ip !in b.bans && u.addressValid && u.infoValid
    requires u.change.addr !in b.byAddr && e == NewMetaAddr(u.change, u.now, u.localNow)
    requires e.misbehavior < MAX_PEER_MISBEHAVIOR_SCORE && |b.byAddr| < b.limit
    ensures Update(b, u) == (Store(b, e), Stored(e)) && Keyed(Store(b, e).byAddr)
    ensures |Store(b, e).byAddr| == |b.byAddr| + 1
  {
    assert |b.byAddr[e.addr := e]| == |b.byAddr| + 1;
    UpdateFits(b, u, e);
  }

  /** An update for a known address. */
  lemma {:induction false} KnownFits(b: Book, u: UpdateRequest, e: MetaAddr)
    requires Keyed(b.byAddr) && u.change.addr.ip !in b.bans && u.addressValid && u.infoValid
    requires u.change.addr in b.byAddr && ApplyTo(b.byAddr, u) == Some(e)
    requires e.addr == u.change.addr && e.misbehavior < MAX_PEER_MISBEHAVIOR_SCORE
    requires |b.byAddr| <= b.limit
    ensures Update(b, u) == (Store(b, e), Stored(e)) && Keyed(Store(b, e).byAddr)
  {
    assert b.byAddr[e.addr := e].Keys == b.byAddr.Keys;
    UpdateFits(b, u, e);
  }

  /** An update after which one entry is too many. */
  lemma {:induction false} UpdateEvicts(b: Book, u: UpdateRequest, e: MetaAddr, last: Addr)
    requires Keyed(b.byAddr) && u.change.addr.ip !in b.bans && u.addressValid && u.infoValid
    requires ApplyTo(b.byAddr, u) == Some(e) && e.misbehavior < MAX_PEER_MISBEHAVIOR_SCORE
    requires |b.byAddr[e.addr := e]| == b.limit + 1
    requires Keyed(b.byAddr[e.addr := e]) && IsLast(b.byAddr[e.addr := e], last)
    ensures Update(b, u) == (Evict(Store(b, e), last), Stored(e))
  {
    var book := b.byAddr[e.addr := e];
    LastPeerIs(book, last);
    assert |book - {last}| == |book| - 1;
    assert EvictSurplus(Evict(Store(b, e), last)) == Evict(Store(b, e), last);
  }

  /**
   A ban leaves an entry at its IP in the book exactly if an entry of another IP comes between two
   of them in peer order.
   */
  lemma {:induction false} BanLeavesSome(b: Book, ip: Ip)
    requires Keyed(b.byAddr) && b.mostRecentByIp.Some?
    ensures (exists x :: x in Ban(b, ip).byAddr && x.ip == ip) <==> Interrupted(b.byAddr, ip)
  {
    var order := InOrder(b.byAddr);
    InOrderIsSorted(b.byAddr);
    InOrderIsDistinct(b.byAddr);
    BanExact(order, ip);
    InterruptedOrder(b.byAddr, ip);
    var run := FirstRun(order, ip);
    forall x | x in b.byAddr && x.ip == ip
      ensures x in Ban(b, ip).byAddr <==> x !in run
    {
    }
  }

  ghost predicate Interrupts(book: Entries, ip: Ip, a: Addr, c: Addr, z: Addr) {
    && a in book && c in book && z in book && a.ip == z.ip == ip != c.ip
    && Before(book[a], book[c]) && Before(book[c], book[z])
  }

  ghost predicate Interrupted(book: Entries, ip: Ip) {
    exists a, c, z :: Interrupts(book, ip, a, c, z)
  }

  /** Entries come in the order in which their addresses do. */
  lemma {:induction false} OrderOfPeers(book: Entries, i: nat, j: nat)
    requires Keyed(book) && i < |InOrder(book)| && j < |InOrder(book)|
    ensures InOrder(book)[i] in book && InOrder(book)[j] in book
    ensures Before(book[InOrder(book)[i]], book[InOrder(book)[j]]) <==> i < j
  {
    InOrderIsSorted(book);
    var a, b := InOrder(book)[i], InOrder(book)[j];
    assert a in InOrder(book) && b in InOrder(book);
    PeersCompare(book[a], book[b]);
  }

  lemma {:induction false} InterruptedOrder(book: Entries, ip: Ip)
    requires Keyed(book)
    ensures Interrupted(book, ip) <==> !Contiguous(InOrder(book), ip)
  {
    var order := InOrder(book);
    if Interrupted(book, ip) {
      var a, c, z :| Interrupts(book, ip, a, c, z);
      var i, j, k := PositionOf(book, a), PositionOf(book, c), PositionOf(book, z);
      OrderOfPeers(book, i, j);
      OrderOfPeers(book, j, k);
      assert 0 <= i < j < k < |order|;
    }
    if !Contiguous(order, ip) {
      var i, j, k :| 0 <= i < j < k < |order| && order[i].ip == ip && order[k].ip == ip
                     && order[j].ip != ip;
      OrderOfPeers(book, i, j);
      OrderOfPeers(book, j, k);
      assert Interrupts(book, ip, order[i], order[j], order[k]);
    }
  }

  ghost function PositionOf(book: Entries, a: Addr): (i: nat)
    requires Keyed(book) && a in book
    ensures i < |InOrder(book)| && InOrder(book)[i] == a
  {
    InOrderIsSorted(book);
    assert a in InOrder(book);
    var i :| 0 <= i < |InOrder(book)| && InOrder(book)[i] == a;
    i
  }

  /** So it does if one peer there responded, another failed, and a third elsewhere was gossiped. */
  lemma {:induction false} StatesInterrupt(book: Entries, ip: Ip, a: Addr, c: Addr, z: Addr)
    requires a in book && c in book && z in book && a.ip == z.ip == ip != c.ip
    requires book[a].state.Responded? && book[c].state.NeverAttemptedGossiped?
    requires book[z].state.Failed?
    ensures Interrupts(book, ip, a, c, z)
  {
    StateDecides(book[a], book[c]);
    StateDecides(book[c], book[z]);
  }

  // Where the cache misleads.

  /** A valid update this many seconds after the given readings of the clocks. */
  function At(change: Change, now: Instant, localNow: DateTime, seconds: nat): UpdateRequest {
    UpdateRequest(change, now + seconds * 1_000_000_000, localNow + seconds, true, true)
  }

  /** No peer at this IP is known, nor is `c`, which is elsewhere; neither IP is banned. */
  ghost predicate Clear(b: Book, ip: Ip, c: Addr) {
    && Keyed(b.byAddr) && (forall o :: o in b.byAddr ==> o.ip != ip)
    && b.mostRecentByIp.Some? && ip !in b.mostRecentByIp.value && ip !in b.bans
    && c !in b.byAddr && c.ip != ip && c.ip !in b.bans
  }

  /** Two peers at one IP respond, and the later one fails. */
  function PairUpdates(a: Addr, b: Addr, now: Instant, localNow: DateTime): seq<UpdateRequest> {
    [At(UpdateResponded(a, None), now, localNow, 0), At(UpdateResponded(b, None), now, localNow, 10),
     At(UpdateFailed(b, None), now, localNow, 20)]
  }

  /** What these updates make of a book: the failed peer stays cached. */
  ghost predicate HasPair(r: Book, before: Book, a: Addr, b: Addr, localNow: DateTime) {
    && r.byAddr.Keys == before.byAddr.Keys + {a, b} && Keyed(r.byAddr)
    && (forall o :: o in before.byAddr ==> r.byAddr[o] == before.byAddr[o])
    && r.byAddr[a].state.Responded? && r.byAddr[a].lastResponse == Some(localNow)
    && r.byAddr[a].misbehavior == 0 && r.byAddr[b].state.Failed?
    && r.mostRecentByIp.Some? && a.ip in r.mostRecentByIp.value
    && r.mostRecentByIp.value[a.ip].addr == b
    && r.bans == before.bans && r.limit == before.limit
  }

  lemma {:induction false} PairStored(
      b0: Book, a: Addr, b: Addr, c: Addr, now: Instant, localNow: DateTime)
      returns (b1: Book, b2: Book, b3: Book)
    requires Clear(b0, a.ip, c) && a.ip == b.ip && a != b && |b0.byAddr| + 2 <= b0.limit
    ensures var us := PairUpdates(a, b, now, localNow);
            && Update(b0, us[0]).0 == b1
            && Keyed(b1.byAddr) && Update(b1, us[1]).0 == b2
            && Keyed(b2.byAddr) && Update(b2, us[2]).0 == b3
    ensures HasPair(b3, b0, a, b, localNow)
  {
    var us := PairUpdates(a, b, now, localNow);
    var eA := NewMetaAddr(us[0].change, us[0].now, us[0].localNow);
    var eB := NewMetaAddr(us[1].change, us[1].now, us[1].localNow);
    var eF := Updated(us[2].change, eB, us[2].now, us[2].localNow);
    NewFits(b0, us[0], eA);
    b1 := Store(b0, eA);
    NewFits(b1, us[1], eB);
    b2 := Store(b1, eB);
    KnownFits(b2, us[2], eF);
    b3 := Store(b2, eF);
    StoredPair(b0, eA, eB, eF, c, localNow);
  }

  lemma {:induction false} StoredPair(
      b0: Book, a: MetaAddr, b: MetaAddr, f: MetaAddr, c: Addr, localNow: DateTime)
    requires Clear(b0, a.addr.ip, c) && a.addr.ip == b.addr.ip && a.addr != b.addr == f.addr
    requires a.state.Responded? && a.lastResponse == Some(localNow) && a.misbehavior == 0
    requires b.state.Responded? && !AtMost(b.lastResponse, a.lastResponse) && f.state.Failed?
    ensures HasPair(Store(Store(Store(b0, a), b), f), b0, a.addr, b.addr, localNow)
  {
    assert Cached(b0.mostRecentByIp.value, a)[a.addr.ip] == a;
  }

  lemma {:induction false} PairReached(
      t: Tracked, a: Addr, b: Addr, c: Addr, now: Instant, localNow: DateTime) returns (r: Book)
    requires Inv(t) && t.now <= now && t.localNow <= localNow && Clear(t.book, a.ip, c)
    requires a.ip == b.ip && a != b && |t.book.byAddr| + 2 <= t.book.limit
    ensures Reaches(t, PairUpdates(a, b, now, localNow), r, now + 20_000_000_000, localNow + 20)
    ensures HasPair(r, t.book, a, b, localNow)
  {
    var us := PairUpdates(a, b, now, localNow);
    var b1, b2, b3 := PairStored(t.book, a, b, c, now, localNow);
    ReachesThree(t, us[0], us[1], us[2], b1, b2, b3);
    r := b3;
  }

  /** All peers have responded, or were gossiped and not tried. */
  ghost predicate NoneFailed(book: Entries) {
    forall o :: o in book ==> !book[o].state.Failed? && !book[o].state.AttemptPending?
  }

  /** Then a third peer is gossiped elsewhere. */
  function MisleadingUpdates(a: Addr, b: Addr, c: Addr, now: Instant, localNow: DateTime)
      : seq<UpdateRequest>
  {
    PairUpdates(a, b, now, localNow) + [Gossip(c, now, localNow)]
  }

  function Gossip(c: Addr, now: Instant, localNow: DateTime): UpdateRequest {
    At(NewGossiped(c, NODE_NETWORK, localNow), now, localNow, 30)
  }

  lemma {:induction false} PairSize(
      r: Book, before: Book, a: Addr, b: Addr, c: Addr, localNow: DateTime)
    requires HasPair(r, before, a, b, localNow) && Clear(before, a.ip, c) && a.ip == b.ip && a != b
    ensures c !in r.byAddr && c.ip !in r.bans && |r.byAddr| == |before.byAddr| + 2
  {
    assert r.byAddr.Keys == before.byAddr.Keys + {a} + {b};
    assert a !in before.byAddr && b !in before.byAddr;
  }

  lemma {:induction false} PairFailedLast(
      r: Book, before: Book, a: Addr, b: Addr, c: Addr, e: MetaAddr, localNow: DateTime)
    requires HasPair(r, before, a, b, localNow) && NoneFailed(before.byAddr) && b != c == e.addr
    requires e.state.NeverAttemptedGossiped?
    ensures Keyed(r.byAddr[c := e]) && IsLast(r.byAddr[c := e], b)
  {
    var book := r.byAddr[c := e];
    forall o | o in book && o != b
      ensures Before(book[o], book[b])
    {
      assert o in before.byAddr || o == a || o == c;
      StateDecides(book[o], book[b]);
    }
  }

  lemma {:induction false} GossipEvicts(
      r: Book, u: UpdateRequest, e: MetaAddr, a: Addr, b: Addr) returns (m: Book)
    requires Keyed(r.byAddr) && u.change.addr !in r.byAddr && u.change.addr.ip !in r.bans
    requires u.addressValid && u.infoValid && |r.byAddr| == r.limit
    requires e == NewMetaAddr(u.change, u.now, u.localNow) && e.misbehavior == 0
    requires !e.state.Responded?
    requires Keyed(r.byAddr[e.addr := e]) && IsLast(r.byAddr[e.addr := e], b)
    requires a in r.byAddr && a != b && a.ip == b.ip
    requires r.mostRecentByIp.Some? && a.ip in r.mostRecentByIp.value
    requires r.mostRecentByIp.value[a.ip].addr == b
    ensures Update(r, u).0 == m && a in m.byAddr && m.byAddr[a] == r.byAddr[a]
    ensures m.mostRecentByIp.Some? && a.ip !in m.mostRecentByIp.value
  {
    assert |r.byAddr[e.addr := e]| == |r.byAddr| + 1;
    UpdateEvicts(r, u, e, b);
    m := Evict(Store(r, e), b);
  }

  /**
   Whenever a book has room for two peers and none has failed, and two peers at a new IP respond, the
   later one fails, and a third is gossiped, the book evicts the failed one, whose copy is the cached
   one: then the cache takes the IP for ready, although the other peer there has responded recently.
   */
  lemma {:induction false} EvictionMisleadsFrom(
      t: Tracked, a: Addr, b: Addr, c: Addr, now: Instant, localNow: DateTime)
    requires Inv(t) && t.now <= now && t.localNow <= localNow && Clear(t.book, a.ip, c)
    requires a.ip == b.ip && a != b && NoneFailed(t.book.byAddr)
    requires |t.book.byAddr| + 2 == t.book.limit
    ensures AllOnTime(t, MisleadingUpdates(a, b, c, now, localNow))
    ensures Misleads(After(t, MisleadingUpdates(a, b, c, now, localNow)).book, a.ip, localNow + 30)
  {
    var r := PairReached(t, a, b, c, now, localNow);
    var u := Gossip(c, now, localNow);
    var e := NewMetaAddr(u.change, u.now, u.localNow);
    PairSize(r, t.book, a, b, c, localNow);
    PairFailedLast(r, t.book, a, b, c, e, localNow);
    var m := GossipEvicts(r, u, e, a, b);
    ReachesNext(t, PairUpdates(a, b, now, localNow), r, u, m);
    assert HasRecentlyResponded(m.byAddr[a].lastResponse, localNow + 30);
  }

  /** The cache takes the IP for ready, and a scan of the book does not. */
  ghost predicate Misleads(b: Book, ip: Ip, localNow: DateTime) {
    && b.mostRecentByIp.Some? && CacheIsReady(b.mostRecentByIp.value, ip, localNow)
    && !ScanIsReady(b.byAddr, ip, localNow)
  }

  /** Peers at `k` different IPs respond. */
  function FillUpdates(ip: Ip, k: nat, now: Instant, localNow: DateTime): seq<UpdateRequest> {
    if k == 0 then []
    else
      FillUpdates(ip, k - 1, now, localNow)
      + [At(UpdateResponded(Addr(ip + k - 1, 8233), None), now, localNow, 0)]
  }

  ghost predicate IsFilled(b: Book, limit: nat, ip: Ip, k: nat) {
    && |b.byAddr| == k && b.limit == limit && b.bans == [] && b.mostRecentByIp.Some?
    && Keyed(b.byAddr)
    && (forall o :: o in b.byAddr ==> ip <= o.ip < ip + k && b.byAddr[o].state.Responded?)
    && (forall i :: i in b.mostRecentByIp.value ==> ip <= i < ip + k)
  }

  lemma {:induction false} Fill(limit: nat, ip: Ip, k: nat, now: Instant, localNow: DateTime)
      returns (b: Book)
    requires k <= limit
    ensures Reaches(Start(limit), FillUpdates(ip, k, now, localNow), b, now, localNow)
    ensures IsFilled(b, limit, ip, k)
  {
    StartOk(limit, 1);
    if k == 0 {
      b := EmptyBook(limit, 1);
    } else {
      var before := Fill(limit, ip, k - 1, now, localNow);
      var u := At(UpdateResponded(Addr(ip + k - 1, 8233), None), now, localNow, 0);
      var e := NewMetaAddr(u.change, u.now, u.localNow);
      NewFits(before, u, e);
      b := Store(before, e);
      ReachesNext(Start(limit), FillUpdates(ip, k - 1, now, localNow), before, u, b);
    }
  }

  lemma {:induction false} FilledIsClear(
      b: Book, limit: nat, ip: Ip, k: nat, other: Ip, c: Addr)
    requires IsFilled(b, limit, ip, k) && other < ip && c.ip < ip && other != c.ip
    ensures Clear(b, other, c) && NoneFailed(b.byAddr)
  {
  }

  /** A new book is filled up to two peers, and then these updates follow. */
  function MisleadingRun(
      limit: nat, a: Addr, b: Addr, c: Addr, now: Instant, localNow: DateTime): seq<UpdateRequest>
    requires 2 <= limit
  {
    FillUpdates(a.ip + c.ip + 1, limit - 2, now, localNow)
    + MisleadingUpdates(a, b, c, now, localNow)
  }

  lemma {:induction false} MisleadsAfter(
      t: Tracked, fill: seq<UpdateRequest>, full: Book, a: Addr, b: Addr, c: Addr, now: Instant,
      localNow: DateTime)
    requires Reaches(t, fill, full, now, localNow) && Clear(full, a.ip, c) && NoneFailed(full.byAddr)
    requires a.ip == b.ip && a != b && |full.byAddr| + 2 == full.limit
    ensures Inv(t) && AllOnTime(t, fill + MisleadingUpdates(a, b, c, now, localNow))
    ensures Misleads(After(t, fill + MisleadingUpdates(a, b, c, now, localNow)).book, a.ip,
                     localNow + 30)
  {
    EvictionMisleadsFrom(After(t, fill), a, b, c, now, localNow);
    AfterAppend(t, fill, MisleadingUpdates(a, b, c, now, localNow));
  }

  /** Every book that can hold two peers can come to mislead. */
  lemma {:induction false} EvictionMisleads(
      limit: nat, a: Addr, b: Addr, c: Addr, now: Instant, localNow: DateTime)
    requires 2 <= limit && a.ip == b.ip != c.ip && a != b
    ensures Inv(Start(limit)) && AllOnTime(Start(limit), MisleadingRun(limit, a, b, c, now, localNow))
    ensures Misleads(After(Start(limit), MisleadingRun(limit, a, b, c, now, localNow)).book, a.ip,
                     localNow + 30)
  {
    var ip := a.ip + c.ip + 1;
    var full := Fill(limit, ip, limit - 2, now, localNow);
    FilledIsClear(full, limit, ip, limit - 2, a.ip, c);
    MisleadsAfter(Start(limit), FillUpdates(ip, limit - 2, now, localNow), full, a, b, c, now,
                  localNow);
  }

  // What a ban leaves.

  /** What comes after an entry of another IP in peer order stays. */
  lemma {:induction false} LaterStays(b: Book, ip: Ip, a: Addr, c: Addr, z: Addr)
    requires Keyed(b.byAddr) && Interrupts(b.byAddr, ip, a, c, z)
    ensures z in Ban(b, ip).byAddr
  {
    var order := InOrder(b.byAddr);
    var from, to := FirstRunIs(order, ip);
    var i, j, k := PositionOf(b.byAddr, a), PositionOf(b.byAddr, c), PositionOf(b.byAddr, z);
    OrderOfPeers(b.byAddr, i, j);
    OrderOfPeers(b.byAddr, j, k);
    InOrderIsDistinct(b.byAddr);
    assert from <= i && to <= j;
    assert z !in order[from..to];
  }

  /** Two peers at an IP respond, one fails, a third is gossiped elsewhere, and the first misbehaves. */
  function BanUpdates(
      a: Addr, b: Addr, c: Addr, score: Score, now: Instant, localNow: DateTime): seq<UpdateRequest>
  {
    MisleadingUpdates(a, b, c, now, localNow)
    + [At(UpdateMisbehavior(a, score), now, localNow, 40)]
  }

  /** The IP was banned last, and the peer `b` there is still in the book, but not in the cache. */
  ghost predicate Leaves(r: Book, b: Addr) {
    && r.bans != [] && r.bans[|r.bans| - 1] == b.ip && b in r.byAddr
    && r.mostRecentByIp.Some? && b.ip !in r.mostRecentByIp.value
  }

  lemma {:induction false} GossipFits(
      r: Book, before: Book, a: Addr, b: Addr, c: Addr, now: Instant, localNow: DateTime)
      returns (m: Book)
    requires HasPair(r, before, a, b, localNow) && Clear(before, a.ip, c)
    requires a.ip == b.ip && a != b && |before.byAddr| + 3 <= before.limit
    ensures Update(r, Gossip(c, now, localNow)).0 == m && Keyed(m.byAddr)
    ensures m.byAddr.Keys == r.byAddr.Keys + {c} && m.byAddr[a] == r.byAddr[a]
    ensures m.byAddr[b] == r.byAddr[b] && m.byAddr[c].state.NeverAttemptedGossiped?
    ensures m.bans == r.bans && m.mostRecentByIp.Some?
  {
    var u := Gossip(c, now, localNow);
    var eC := NewMetaAddr(u.change, u.now, u.localNow);
    PairSize(r, before, a, b, c, localNow);
    UpdateFits(r, u, eC);
    m := Store(r, eC);
  }

  lemma {:induction false} MisbehaviorLeaves(m: Book, a: Addr, b: Addr, c: Addr, u: UpdateRequest)
    requires Keyed(m.byAddr) && a in m.byAddr && b in m.byAddr && c in m.byAddr
    requires m.byAddr[a].state.Responded? && m.byAddr[a].misbehavior == 0
    requires m.byAddr[b].state.Failed? && m.byAddr[c].state.NeverAttemptedGossiped?
    requires a.ip == b.ip != c.ip && a.ip !in m.bans && m.mostRecentByIp.Some?
    requires u.change.UpdateMisbehavior? && u.change.addr == a
    requires MAX_PEER_MISBEHAVIOR_SCORE <= u.change.scoreIncrement
    ensures Update(m, u).0 == Ban(m, a.ip) && Leaves(Ban(m, a.ip), b)
  {
    StatesInterrupt(m.byAddr, a.ip, a, c, b);
    LaterStays(m, a.ip, a, c, b);
    ScoreExact(u.change, m.byAddr[a], u.now, u.localNow);
  }

  /** From any book with room for three more peers, such a ban leaves the failed peer in it. */
  lemma {:induction false} BanLeavesFailedFrom(
      t: Tracked, a: Addr, b: Addr, c: Addr, score: Score, now: Instant, localNow: DateTime)
    requires Inv(t) && t.now <= now && t.localNow <= localNow && Clear(t.book, a.ip, c)
    requires a.ip == b.ip && a != b && |t.book.byAddr| + 3 <= t.book.limit
    requires MAX_PEER_MISBEHAVIOR_SCORE <= score
    ensures AllOnTime(t, BanUpdates(a, b, c, score, now, localNow))
    ensures Leaves(After(t, BanUpdates(a, b, c, score, now, localNow)).book, b)
  {
    var r := PairReached(t, a, b, c, now, localNow);
    var m := GossipFits(r, t.book, a, b, c, now, localNow);
    ReachesNext(t, PairUpdates(a, b, now, localNow), r, Gossip(c, now, localNow), m);
    var u := At(UpdateMisbehavior(a, score), now, localNow, 40);
    MisbehaviorLeaves(m, a, b, c, u);
    ReachesNext(t, MisleadingUpdates(a, b, c, now, localNow), m, u, Ban(m, a.ip));
  }

  /** Every new book that can hold three peers can come to that. */
  lemma {:induction false} BanLeavesFailed(
      limit: nat, a: Addr, b: Addr, c: Addr, score: Score, now: Instant, localNow: DateTime)
    requires 3 <= limit && a.ip == b.ip != c.ip && a != b && MAX_PEER_MISBEHAVIOR_SCORE <= score
    ensures Inv(Start(limit))
    ensures AllOnTime(Start(limit), BanUpdates(a, b, c, score, now, localNow))
    ensures Leaves(After(Start(limit), BanUpdates(a, b, c, score, now, localNow)).book, b)
  {
    StartOk(limit, 1);
    BanLeavesFailedFrom(Start(limit), a, b, c, score, now, localNow);
  }

  // What is frozen while an IP is banned.

  /** The IP is banned, and after it `newer` others were. */
  ghost predicate BannedAt(b: Book, ip: Ip, newer: nat) {
    newer < |b.bans| && b.bans[|b.bans| - 1 - newer] == ip
  }

  /** Nothing new about the IP: its entries and its cached entry stay as they are, or go. */
  ghost predicate Frozen(b: Book, r: Book, ip: Ip) {
    && (forall a: Addr {:trigger KeptAt(b.byAddr, r.byAddr, a)} ::
          a.ip == ip ==> KeptAt(b.byAddr, r.byAddr, a))
    && r.mostRecentByIp.Some? == b.mostRecentByIp.Some?
    && (r.mostRecentByIp.Some? && ip in r.mostRecentByIp.value ==> ip in b.mostRecentByIp.value)
  }

  lemma {:induction false} FrozenJoin(a: Book, b: Book, c: Book, ip: Ip)
    requires Frozen(a, b, ip) && Frozen(b, c, ip)
    ensures Frozen(a, c, ip)
  {
    forall x: Addr | x.ip == ip
      ensures KeptAt(a.byAddr, c.byAddr, x)
    {
      assert KeptAt(a.byAddr, b.byAddr, x) && KeptAt(b.byAddr, c.byAddr, x);
    }
  }

  lemma {:induction false} SurplusFrozen(b: Book, ip: Ip)
    ensures Frozen(b, EvictSurplus(b), ip) && EvictSurplus(b).bans == b.bans
    decreases |b.byAddr|
  {
    if |b.byAddr| > b.limit {
      var a := LastPeer(b.byAddr);
      assert |b.byAddr - {a}| == |b.byAddr| - 1;
      SurplusFrozen(Evict(b, a), ip);
      FrozenJoin(b, Evict(b, a), EvictSurplus(b), ip);
    }
  }

  ghost predicate Bans(b: Book, u: UpdateRequest)
    requires Keyed(b.byAddr)
  {
    Update(b, u).1 in {BannedIp, Panicked}
  }

  /** A further ban keeps an older one, unless as many as are remembered came after it. */
  lemma {:induction false} BanRemembered(bans: seq<Ip>, ip: Ip, newer: nat, other: Ip)
    requires newer < |bans| <= MAX_BANNED_IPS && bans[|bans| - 1 - newer] == ip
    requires newer + 1 < MAX_BANNED_IPS
    ensures var r := Banned(bans, other); newer + 1 < |r| && r[|r| - 2 - newer] == ip
  {
  }

  lemma {:induction false} BanFrozen(b: Book, ip: Ip, newer: nat, other: Ip)
    requires BannedAt(b, ip, newer) && |b.bans| <= MAX_BANNED_IPS && newer + 1 < MAX_BANNED_IPS
    ensures Frozen(b, Ban(b, other), ip) && BannedAt(Ban(b, other), ip, newer + 1)
  {
    BanRemembered(b.bans, ip, newer, other);
  }

  /** While an IP is banned every change to it is ignored, and others leave it alone. */
  lemma {:induction false} UpdateFrozen(b: Book, u: UpdateRequest, ip: Ip, newer: nat)
    requires Keyed(b.byAddr) && BannedAt(b, ip, newer) && |b.bans| <= MAX_BANNED_IPS
    requires Bans(b, u) ==> newer + 1 < MAX_BANNED_IPS
    ensures u.change.addr.ip == ip ==> Update(b, u) == (b, Ignored)
    ensures Frozen(b, Update(b, u).0, ip)
    ensures BannedAt(Update(b, u).0, ip, if Bans(b, u) then newer + 1 else newer)
  {
    match Update(b, u).1
    case Stored(e) =>
      SurplusFrozen(Store(b, e), ip);
      FrozenJoin(b, Store(b, e), Update(b, u).0, ip);
    case Ignored =>
    case _ => BanFrozen(b, ip, newer, u.change.addr.ip);
  }

  ghost function BansIn(t: Tracked, updates: seq<UpdateRequest>): nat
    requires Inv(t) && AllOnTime(t, updates)
    decreases |updates|
  {
    if updates == [] then 0
    else
      OkIsKeyed(t.book.byAddr, t.now, t.localNow);
      UpdateKeeps(t, updates[0]);
      (if Bans(t.book, updates[0]) then 1 else 0) + BansIn(Track(t, updates[0]), updates[1..])
  }

  /**
   In any run with fewer further bans than are remembered, a banned IP stays banned, nothing is
   added there, and its entries are as they were, or evicted.
   */
  lemma {:induction false} RunFrozen(t: Tracked, updates: seq<UpdateRequest>, ip: Ip, newer: nat)
    requires Inv(t) && AllOnTime(t, updates) && BannedAt(t.book, ip, newer)
    requires newer + BansIn(t, updates) < MAX_BANNED_IPS
    ensures BannedAt(After(t, updates).book, ip, newer + BansIn(t, updates))
    ensures Frozen(t.book, After(t, updates).book, ip)
    decreases |updates|
  {
    if updates != [] {
      var u := updates[0];
      OkIsKeyed(t.book.byAddr, t.now, t.localNow);
      UpdateKeeps(t, u);
      var s := Track(t, u);
      UpdateFrozen(t.book, u, ip, newer);
      RunFrozen(s, updates[1..], ip, if Bans(t.book, u) then newer + 1 else newer);
      FrozenJoin(t.book, s.book, After(t, updates).book, ip);
    }
  }

  /**
   What a ban that leaves a peer costs: in any run with fewer further bans than are remembered, the
   peer's entry does not change, every change to it is ignored, and the cache takes its IP for ready.
   */
  lemma {:induction false} LeftIsReady(
      t: Tracked, updates: seq<UpdateRequest>, b: Addr, u: UpdateRequest, localNow: DateTime)
    requires Inv(t) && Leaves(t.book, b) && AllOnTime(t, updates)
    requires BansIn(t, updates) < MAX_BANNED_IPS && u.change.addr == b
    ensures var r := After(t, updates).book;
            && KeptAt(t.book.byAddr, r.byAddr, b)
            && Keyed(r.byAddr) && Update(r, u) == (r, Ignored)
            && r.mostRecentByIp.Some? && CacheIsReady(r.mostRecentByIp.value, b.ip, localNow)
  {
    RunFrozen(t, updates, b.ip, 0);
    var s := After(t, updates);
    OkIsKeyed(s.book.byAddr, s.now, s.localNow);
  }

  // Where misbehavior is not answered.

  /** Without one connection per IP, the first peer that misbehaves enough makes the book panic. */
  lemma {:induction false} PanicReached(
      limit: nat, maxConnectionsPerIp: nat, a: Addr, score: Score, now: Instant, localNow: DateTime)
    requires maxConnectionsPerIp != 1 && MAX_PEER_MISBEHAVIOR_SCORE <= score
    ensures Keyed(EmptyBook(limit, maxConnectionsPerIp).byAddr)
    ensures Update(EmptyBook(limit, maxConnectionsPerIp),
                   At(UpdateMisbehavior(a, score), now, localNow, 0)).1 == Panicked
  {
    StartOk(limit, maxConnectionsPerIp);
    PanicExact(StartWith(limit, maxConnectionsPerIp),
               At(UpdateMisbehavior(a, score), now, localNow, 0));
  }

  /** A peer that has misbehaved is forgiven by an increment that wraps its score around to zero. */
  lemma {:induction false} ForgivenByWrapping(
      limit: nat, a: Addr, score: Score, now: Instant, localNow: DateTime)
    requires 1 <= limit && 0 < score < MAX_PEER_MISBEHAVIOR_SCORE
    ensures Inv(Start(limit))
    ensures var us := [At(UpdateMisbehavior(a, score), now, localNow, 0),
                       At(UpdateMisbehavior(a, SCORE_LIMIT - score), now, localNow, 30)];
            && AllOnTime(Start(limit), us) && a in After(Start(limit), us).book.byAddr
            && After(Start(limit), us).book.byAddr[a].misbehavior == 0
  {
    StartOk(limit, 1);
    var u, v := At(UpdateMisbehavior(a, score), now, localNow, 0),
                At(UpdateMisbehavior(a, SCORE_LIMIT - score), now, localNow, 30);
    var b0 := EmptyBook(limit, 1);
    var e := NewMetaAddr(u.change, u.now, u.localNow);
    NewFits(b0, u, e);
    var b1 := Store(b0, e);
    var f := Updated(v.change, e, v.now, v.localNow);
    KnownFits(b1, v, f);
    ReachesNext(Start(limit), [], b0, u, b1);
    ReachesNext(Start(limit), [] + [u], b1, v, Store(b1, f));
    assert [u, v] == [] + [u] + [v];
  }

  lemma {:induction false} SmallerBook(book: Entries, gone: set<Addr>)
    ensures |book - gone| <= |book|
  {
    assert (book - gone).Keys <= book.Keys;
    SubsetSize((book - gone).Keys, book.Keys);
  }

  lemma {:induction false} SubsetSize<T>(a: set<T>, b: set<T>)
    requires a <= b
    ensures |a| <= |b|
  {
    if a != {} {
      var x :| x in a;
      SubsetSize(a - {x}, b - {x});
    }
  }
}

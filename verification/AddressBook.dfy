/**
 The address book as the object that it is: its methods update the map of entries, the cache and the
 bans in place, and are proved to do what the functions on books say.
 */
module AddressBooks {
  import opened MetaAddresses
  import opened Options
  import opened P = PeerBooks
  import opened OrderedKeys

  class AddressBook {
    var byAddr: Entries
    var mostRecentByIp: Option<Cache>
    var bans: seq<Ip>
    const limit: nat
    /** The clocks at the last update, and the IPs whose cached entry may not be the latest. */
    ghost var now: Instant
    ghost var localNow: DateTime
    ghost var stale: set<Ip>

    ghost function State(): Book
      reads this
    {
      Book(byAddr, mostRecentByIp, bans, limit)
    }

    ghost function Tracking(): Tracked
      reads this
    {
      Tracked(State(), now, localNow, stale)
    }

    ghost predicate Valid()
      reads this
    {
      Inv(Tracking())
    }

    constructor (limit: nat, maxConnectionsPerIp: nat)
      ensures Valid() && Tracking() == StartWith(limit, maxConnectionsPerIp)
    {
      this.limit := limit;
      byAddr, bans := map[], [];
      mostRecentByIp := if maxConnectionsPerIp == 1 then Some(map[]) else None;
      now, localNow, stale := 0, 0, {};
      new;
      StartOk(limit, maxConnectionsPerIp);
    }

    /**
     Whether this IP may be connected to: if no peer there has responded recently, or if there is no
     cache. The answer may be wrong for a stale IP.
     */
    method IsReadyForConnectionAttemptWithIp(ip: Ip, time: DateTime) returns (ready: bool)
      requires Valid()
      ensures mostRecentByIp.None? ==> ready
      ensures mostRecentByIp.Some? ==> (ready <==> CacheIsReady(mostRecentByIp.value, ip, time))
      ensures mostRecentByIp.Some? && ip !in stale ==> (ready <==> ScanIsReady(byAddr, ip, time))
    {
      if mostRecentByIp.None? {
        return true;
      }
      AgreesUnlessStale(Tracking(), ip, time);
      if ip !in mostRecentByIp.value {
        return true;
      }
      ready := !HasRecentlyResponded(mostRecentByIp.value[ip].lastResponse, time);
    }

    method StoreEntry(e: MetaAddr)
      modifies `byAddr, `mostRecentByIp
      ensures State() == Store(old(State()), e)
    {
      byAddr := byAddr[e.addr := e];
      if mostRecentByIp.Some? && ShouldCache(mostRecentByIp.value, e) {
        mostRecentByIp := Some(mostRecentByIp.value[e.addr.ip := e]);
      }
    }

    /** Finds the peer that comes last. */
    method FindLast(book: Entries) returns (last: Addr)
      requires Keyed(book) && book != map[]
      ensures last == LastPeer(book)
    {
      var rest := book.Keys;
      last :| last in rest;
      rest := rest - {last};
      while rest != {}
        invariant rest <= book.Keys && last in book && last !in rest
        invariant forall o :: o in book && o !in rest && o != last ==> Before(book[o], book[last])
        decreases rest
      {
        var a :| a in rest;
        rest := rest - {a};
        PeersCompare(book[a], book[last]);
        if Before(book[last], book[a]) {
          forall o | o in book && o !in rest && o != a
            ensures Before(book[o], book[a])
          {
            if o != last {
              PeersJoin(book[o], book[last], book[a]);
            }
          }
          last := a;
        }
      }
      LastPeerIs(book, last);
    }

    method EvictPeer(a: Addr)
      modifies `byAddr, `mostRecentByIp
      ensures State() == Evict(old(State()), a)
    {
      byAddr := byAddr - {a};
      if mostRecentByIp.Some? && a.ip in mostRecentByIp.value
         && mostRecentByIp.value[a.ip].addr == a {
        mostRecentByIp := Some(mostRecentByIp.value - {a.ip});
      }
    }

    /** Evicts the last peers while there are too many. */
    method EvictSurplusPeers()
      requires Keyed(byAddr)
      modifies `byAddr, `mostRecentByIp
      ensures State() == EvictSurplus(old(State())) && Keyed(byAddr)
    {
      while |byAddr| > limit
        invariant Keyed(byAddr) && EvictSurplus(State()) == EvictSurplus(old(State()))
        decreases |byAddr|
      {
        var surplus := FindLast(byAddr);
        assert |byAddr - {surplus}| == |byAddr| - 1;
        EvictPeer(surplus);
      }
    }

    /** The addresses of the first run of an IP in peer order. */
    method RunOf(ip: Ip) returns (run: seq<Addr>)
      requires Keyed(byAddr)
      ensures run == FirstRun(InOrder(byAddr), ip)
    {
      var order, rest := [], byAddr;
      while rest != map[]
        invariant Keyed(rest) && InOrder(rest) + order == InOrder(byAddr)
        decreases |rest|
      {
        var a := FindLast(rest);
        assert |rest - {a}| == |rest| - 1;
        assert InOrder(rest) + order == InOrder(rest - {a}) + ([a] + order);
        order, rest := [a] + order, rest - {a};
      }
      assert InOrder(rest) + order == order;
      run := FirstRun(order, ip);
    }

    method RemoveAll(run: seq<Addr>)
      modifies `byAddr
      ensures byAddr == old(byAddr) - Elements(run)
    {
      for i := 0 to |run|
        invariant byAddr == old(byAddr) - Elements(run[..i])
      {
        byAddr := byAddr - {run[i]};
        assert run[..i + 1] == run[..i] + [run[i]];
      }
      assert run[..|run|] == run;
    }

    /** Bans an IP; it panics when there is no cache to forget the IP in. */
    method BanIp(ip: Ip) returns (panicked: bool)
      requires Keyed(byAddr)
      modifies `byAddr, `mostRecentByIp, `bans
      ensures State() == Ban(old(State()), ip) && panicked == old(mostRecentByIp).None?
    {
      bans := bans + [ip];
      if |bans| > MAX_BANNED_IPS {
        bans := bans[1..];
      }
      if mostRecentByIp.None? {
        return true;
      }
      mostRecentByIp := Some(mostRecentByIp.value - {ip});
      var run := RunOf(ip);
      RemoveAll(run);
      panicked := false;
    }

    /** Applies a change to the book. */
    method ApplyUpdate(u: UpdateRequest) returns (r: UpdateResult)
      requires Keyed(byAddr)
      modifies `byAddr, `mostRecentByIp, `bans
      ensures (State(), r) == P.Update(old(State()), u)
    {
      if u.change.addr.ip in bans {
        return Ignored;
      }
      var updated := ApplyTo(byAddr, u);
      if updated.None? {
        return Ignored;
      }
      var e := updated.value;
      if e.misbehavior >= MAX_PEER_MISBEHAVIOR_SCORE {
        var panicked := BanIp(u.change.addr.ip);
        return if panicked then Panicked else BannedIp;
      }
      if !u.addressValid || (!u.infoValid && e.state.NeverAttemptedGossiped?) {
        return Ignored;
      }
      StoreEntry(e);
      EvictSurplusPeers();
      r := Stored(e);
    }

    /** An update at these clocks, which do not go back. */
    method Update(u: UpdateRequest) returns (r: UpdateResult)
      requires Valid() && OnTime(Tracking(), u)
      modifies this
      ensures Valid() && AllGrow(old(byAddr), byAddr)
      ensures Keyed(old(byAddr)) && r == P.Update(old(State()), u).1
      ensures Tracking() == Track(old(Tracking()), u)
    {
      ghost var t := Tracking();
      OkIsKeyed(byAddr, now, localNow);
      UpdateKeeps(t, u);
      r := ApplyUpdate(u);
      now, localNow, stale := u.now, u.localNow, Track(t, u).stale;
    }

    /** Any run of updates ends with the book that the functions say. */
    method Run(updates: seq<UpdateRequest>)
      requires Valid() && AllOnTime(Tracking(), updates)
      modifies this
      ensures Valid() && Tracking() == After(old(Tracking()), updates)
    {
      for i := 0 to |updates|
        invariant Valid() && AllOnTime(Tracking(), updates[i..])
        invariant After(Tracking(), updates[i..]) == After(old(Tracking()), updates)
      {
        assert updates[i..][1..] == updates[i + 1..];
        var r := Update(updates[i]);
      }
    }
  }
}

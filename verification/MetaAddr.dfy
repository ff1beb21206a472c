/** Address book entries, and how changes apply to them under two clocks. */
module MetaAddresses {
  import opened Options

  type Ip = nat

  datatype Addr = Addr(ip: Ip, port: nat)

  type Services = nat

  /** A reading of the monotonic clock, in nanoseconds. */
  type Instant = nat

  /** A reading of the wall clock, in seconds. */
  type DateTime = nat

  /** Five seconds, on either clock. */
  const CONCURRENT_CHANGE_NANOS: nat := 5_000_000_000
  const CONCURRENT_CHANGE_SECONDS: nat := 5

  const MIN_PEER_RECONNECTION_DELAY: nat := 119
  const MAX_PEER_MISBEHAVIOR_SCORE: nat := 100
  const MAX_BANNED_IPS: nat := 20_000
  const NODE_NETWORK: Services := 1

  const SCORE_LIMIT: nat := 0x1_0000_0000

  /** A misbehavior score, which has 32 bits. */
  type Score = s: nat | s < SCORE_LIMIT

  /** Scores are added without a check, so a sum that has more than 32 bits wraps around. */
  function AddScores(a: Score, b: Score): (sum: Score)
    ensures sum == (a + b) % SCORE_LIMIT
  {
    if a + b < SCORE_LIMIT then a + b else a + b - SCORE_LIMIT
  }

  datatype State = Responded | NeverAttemptedGossiped | Failed | AttemptPending

  /** How far a connection in this state has come: states later in the order have more progress. */
  function Progress(s: State): nat {
    match s
    case NeverAttemptedGossiped => 0
    case AttemptPending => 1
    case Responded => 2
    case Failed => 3
  }

  datatype MetaAddr = MetaAddr(
    addr: Addr, services: Option<Services>, untrustedLastSeen: Option<DateTime>,
    lastResponse: Option<DateTime>, rtt: Option<nat>, pingSentAt: Option<Instant>,
    lastAttempt: Option<Instant>, lastFailure: Option<Instant>, misbehavior: Score, state: State,
    isInbound: bool)

  datatype Change =
    | NewInitial(addr: Addr)
    | NewGossiped(addr: Addr, untrustedServices: Services, lastSeen: DateTime)
    | NewLocal(addr: Addr)
    | UpdateAttempt(addr: Addr)
    | UpdateConnected(addr: Addr, services: Services, inbound: bool)
    | UpdatePingSent(addr: Addr, sentAt: Instant)
    | UpdateResponded(addr: Addr, roundTrip: Option<nat>)
    | UpdateFailed(addr: Addr, knownServices: Option<Services>)
    | UpdateMisbehavior(addr: Addr, scoreIncrement: Score)

  // What a change says.

  function UntrustedServices(c: Change): Option<Services> {
    match c
    case NewGossiped(_, services, _) => Some(services)
    case NewLocal(_) => Some(NODE_NETWORK)
    case UpdateConnected(_, services, _) => Some(services)
    case UpdateFailed(_, services) => services
    case _ => None
  }

  function UntrustedLastSeen(c: Change, localNow: DateTime): Option<DateTime> {
    match c
    case NewGossiped(_, _, lastSeen) => Some(lastSeen)
    case NewLocal(_) => Some(localNow)
    case _ => None
  }

  function LastAttempt(c: Change, now: Instant): Option<Instant> {
    if c.UpdateAttempt? then Some(now) else None
  }

  function LastResponse(c: Change, localNow: DateTime): Option<DateTime> {
    if c.UpdateConnected? || c.UpdateResponded? then Some(localNow) else None
  }

  function LastFailure(c: Change, now: Instant): Option<Instant> {
    if c.UpdateFailed? || c.UpdateMisbehavior? then Some(now) else None
  }

  function PingSentAt(c: Change): Option<Instant> {
    if c.UpdatePingSent? then Some(c.sentAt) else None
  }

  function Rtt(c: Change): Option<nat> {
    if c.UpdateResponded? then c.roundTrip else None
  }

  function StateOf(c: Change): State {
    match c
    case NewInitial(_) => NeverAttemptedGossiped
    case NewGossiped(_, _, _) => NeverAttemptedGossiped
    case NewLocal(_) => NeverAttemptedGossiped
    case UpdateAttempt(_) => AttemptPending
    case UpdateFailed(_, _) => Failed
    case _ => Responded
  }

  function ScoreIncrement(c: Change): Score {
    if c.UpdateMisbehavior? then c.scoreIncrement else 0
  }

  function IsInbound(c: Change): bool {
    c.UpdateConnected? && c.inbound
  }

  function NewMetaAddr(c: Change, now: Instant, localNow: DateTime): MetaAddr {
    MetaAddr(c.addr, UntrustedServices(c), UntrustedLastSeen(c, localNow),
             LastResponse(c, localNow), Rtt(c), PingSentAt(c), LastAttempt(c, now),
             LastFailure(c, now), ScoreIncrement(c), StateOf(c), IsInbound(c))
  }

  // Applying a change to an entry.

  function Or<T>(a: Option<T>, b: Option<T>): Option<T> {
    if a.Some? then a else b
  }

  /** The later of two times, of which none comes before any. */
  function Later(a: Option<nat>, b: Option<nat>): Option<nat> {
    if AtMost(a, b) then b else a
  }

  predicate AtMost(a: Option<nat>, b: Option<nat>) {
    a.None? || (b.Some? && a.value <= b.value)
  }

  function SaturatingSub(a: nat, b: nat): nat {
    if a < b then 0 else a - b
  }

  predicate Near(a: nat, b: nat, period: nat) {
    SaturatingSub(a, b) < period && SaturatingSub(b, a) < period
  }

  /** The change may have happened at the same time as the last one to this entry. */
  predicate IsConcurrent(p: MetaAddr, now: Instant, localNow: DateTime) {
    var previous := Later(p.lastAttempt, p.lastFailure);
    || (previous.Some? && Near(previous.value, now, CONCURRENT_CHANGE_NANOS))
    || (p.lastResponse.Some? && Near(p.lastResponse.value, localNow, CONCURRENT_CHANGE_SECONDS))
  }

  predicate IsOutOfOrder(p: MetaAddr, now: Instant, localNow: DateTime) {
    var previous := Later(p.lastAttempt, p.lastFailure);
    || (previous.Some? && previous.value > now)
    || (p.lastResponse.Some? && p.lastResponse.value > localNow)
  }

  /** The changes that an entry ignores. */
  predicate IsIgnored(c: Change, p: MetaAddr, now: Instant, localNow: DateTime) {
    && ScoreIncrement(c) == 0
    && (|| (StateOf(c).NeverAttemptedGossiped? && !p.state.NeverAttemptedGossiped?)
        || (IsOutOfOrder(p, now, localNow) && !IsConcurrent(p, now, localNow))
        || (IsConcurrent(p, now, localNow) && Progress(StateOf(c)) <= Progress(p.state)))
  }

  function Updated(c: Change, p: MetaAddr, now: Instant, localNow: DateTime): MetaAddr {
    if StateOf(c).NeverAttemptedGossiped? && p.state.NeverAttemptedGossiped? then
      MetaAddr(c.addr, Or(p.services, UntrustedServices(c)),
               Or(p.untrustedLastSeen, UntrustedLastSeen(c, localNow)), None, None, None, None, None,
               AddScores(p.misbehavior, ScoreIncrement(c)), StateOf(c), p.isInbound || IsInbound(c))
    else
      MetaAddr(c.addr, Or(UntrustedServices(c), p.services), p.untrustedLastSeen,
               Or(LastResponse(c, localNow), p.lastResponse), Rtt(c), PingSentAt(c),
               Or(LastAttempt(c, now), p.lastAttempt), Or(LastFailure(c, now), p.lastFailure),
               AddScores(p.misbehavior, ScoreIncrement(c)), StateOf(c), p.isInbound || IsInbound(c))
  }

  function Apply(c: Change, previous: Option<MetaAddr>, now: Instant, localNow: DateTime)
      : Option<MetaAddr>
    requires previous.Some? ==> previous.value.addr == c.addr
  {
    if previous.None? then Some(NewMetaAddr(c, now, localNow))
    else if IsIgnored(c, previous.value, now, localNow) then None
    else Some(Updated(c, previous.value, now, localNow))
  }

  /** The order in which the code compares states agrees with their progress. */
  predicate StateBefore(a: State, b: State) {
    a != b &&
    match (a, b)
    case (NeverAttemptedGossiped, _) => true
    case (_, NeverAttemptedGossiped) => false
    case (AttemptPending, _) => true
    case (_, AttemptPending) => false
    case (Responded, _) => true
    case (_, _) => false
  }

  lemma ProgressIsOrder(a: State, b: State)
    ensures StateBefore(a, b) <==> Progress(a) < Progress(b)
  {
  }

  // Which changes apply, and what they record.

  predicate Within(a: nat, b: nat, period: nat) {
    a < b + period && b < a + period
  }

  /** The entry was attempted, failed or responded less than five seconds away from now. */
  ghost predicate Close(p: MetaAddr, now: Instant, localNow: DateTime) {
    || (p.lastAttempt.Some? && AtMost(p.lastFailure, p.lastAttempt)
        && Within(p.lastAttempt.value, now, CONCURRENT_CHANGE_NANOS))
    || (p.lastFailure.Some? && AtMost(p.lastAttempt, p.lastFailure)
        && Within(p.lastFailure.value, now, CONCURRENT_CHANGE_NANOS))
    || (p.lastResponse.Some? && Within(p.lastResponse.value, localNow, CONCURRENT_CHANGE_SECONDS))
  }

  /**
   A change applies exactly if it has a score increment, or all of these hold: gossip is only about an
   entry that was never attempted; if the last change is close, this one has more progress; and if it
   is not, it is not later than this one.
   */
  lemma {:induction false} ApplyExact(c: Change, p: MetaAddr, now: Instant, localNow: DateTime)
    requires p.addr == c.addr
    ensures Apply(c, Some(p), now, localNow).Some? <==>
            || (c.UpdateMisbehavior? && c.scoreIncrement > 0)
            || (&& (c.NewInitial? || c.NewGossiped? || c.NewLocal? ==> p.state.NeverAttemptedGossiped?)
                && if Close(p, now, localNow) then StateBefore(p.state, StateOf(c))
                   else NotAfter(p, now, localNow))
  {
    ProgressIsOrder(p.state, StateOf(c));
  }

  /**
   The steps of a connection are never ignored under clocks that do not go back, however close they
   are: an attempt on an entry that was never attempted, the response or the failure of an attempt, and
   the failure of a peer that has responded.
   */
  lemma {:induction false} TransitionsApply(c: Change, p: MetaAddr, now: Instant, localNow: DateTime)
    requires p.addr == c.addr && NotAfter(p, now, localNow)
    requires || (p.state.NeverAttemptedGossiped? && c.UpdateAttempt?)
             || (p.state.AttemptPending? && (c.UpdateConnected? || c.UpdateResponded?))
             || ((p.state.AttemptPending? || p.state.Responded?) && c.UpdateFailed?)
    ensures Apply(c, Some(p), now, localNow).Some?
  {
    ApplyExact(c, p, now, localNow);
  }

  function Either<T>(a: Option<T>, b: Option<T>): Option<T> {
    match a
    case Some(_) => a
    case None => b
  }

  /** What a change that applies makes of an entry, change by change; everything else stays. */
  lemma {:induction false} ApplyRecords(c: Change, p: MetaAddr, now: Instant, localNow: DateTime)
    requires p.addr == c.addr && EntryOk(p) && Apply(c, Some(p), now, localNow).Some?
    ensures var q := p.(rtt := None, pingSentAt := None);
            Apply(c, Some(p), now, localNow).value ==
            match c
            case NewInitial(_) => p
            case NewGossiped(_, services, lastSeen) =>
              p.(services := Either(p.services, Some(services)),
                 untrustedLastSeen := Either(p.untrustedLastSeen, Some(lastSeen)))
            case NewLocal(_) =>
              p.(services := Either(p.services, Some(NODE_NETWORK)),
                 untrustedLastSeen := Either(p.untrustedLastSeen, Some(localNow)))
            case UpdateAttempt(_) => q.(lastAttempt := Some(now), state := AttemptPending)
            case UpdateConnected(_, services, inbound) =>
              q.(services := Some(services), lastResponse := Some(localNow), state := Responded,
                 isInbound := p.isInbound || inbound)
            case UpdatePingSent(_, sentAt) => q.(pingSentAt := Some(sentAt), state := Responded)
            case UpdateResponded(_, roundTrip) =>
              q.(rtt := roundTrip, lastResponse := Some(localNow), state := Responded)
            case UpdateFailed(_, services) =>
              q.(services := Either(services, p.services), lastFailure := Some(now), state := Failed)
            case UpdateMisbehavior(_, score) =>
              q.(misbehavior := AddScores(p.misbehavior, score), lastFailure := Some(now),
                 state := Responded)
  {
    ApplyExact(c, p, now, localNow);
  }

  /** An entry of which nothing is known. */
  ghost function Blank(addr: Addr): MetaAddr {
    MetaAddr(addr, None, None, None, None, None, None, None, 0, NeverAttemptedGossiped, false)
  }

  /** A change for an address without an entry always applies, as to an entry never attempted. */
  lemma {:induction false} NewRecords(c: Change, now: Instant, localNow: DateTime)
    ensures EntryOk(Blank(c.addr)) && Apply(c, Some(Blank(c.addr)), now, localNow).Some?
    ensures Apply(c, None, now, localNow) == Apply(c, Some(Blank(c.addr)), now, localNow)
  {
    ApplyExact(c, Blank(c.addr), now, localNow);
    ApplyRecords(c, Blank(c.addr), now, localNow);
  }

  // What every entry keeps.

  /** An entry that was never attempted has no local times; one that failed knows when. */
  ghost predicate EntryOk(e: MetaAddr) {
    && (e.state.NeverAttemptedGossiped? ==>
          e.lastResponse.None? && e.rtt.None? && e.pingSentAt.None?
          && e.lastAttempt.None? && e.lastFailure.None?)
    && (e.state.Failed? ==> e.lastFailure.Some?)
  }

  /** The entry's local times are not after the clocks. */
  ghost predicate NotAfter(e: MetaAddr, now: Instant, localNow: DateTime) {
    AtMost(e.lastAttempt, Some(now)) && AtMost(e.lastFailure, Some(now))
    && AtMost(e.lastResponse, Some(localNow))
  }

  /** What a change never takes back. */
  ghost predicate Grows(p: MetaAddr, e: MetaAddr) {
    && e.addr == p.addr
    && AtMost(p.lastAttempt, e.lastAttempt) && AtMost(p.lastFailure, e.lastFailure)
    && AtMost(p.lastResponse, e.lastResponse)
    && (e.state.NeverAttemptedGossiped? ==> p.state.NeverAttemptedGossiped?)
    && (p.untrustedLastSeen.Some? ==> e.untrustedLastSeen == p.untrustedLastSeen)
    && (e.state.NeverAttemptedGossiped? && p.services.Some? ==> e.services == p.services)
    && (p.isInbound ==> e.isInbound)
  }

  /** Under clocks that do not go back, a change keeps the entry consistent and lets it only grow. */
  lemma {:induction false} ApplyKeeps(
      c: Change, previous: Option<MetaAddr>, now: Instant, localNow: DateTime)
    requires previous.Some? ==>
               && previous.value.addr == c.addr && EntryOk(previous.value)
               && NotAfter(previous.value, now, localNow)
    requires Apply(c, previous, now, localNow).Some?
    ensures var e := Apply(c, previous, now, localNow).value;
            && e.addr == c.addr && EntryOk(e) && NotAfter(e, now, localNow)
            && (previous.Some? ==> Grows(previous.value, e))
  {
  }

  /**
   A change that applies adds its increment to the score; the score goes down exactly if the sum has
   more than 32 bits. A change with an increment always applies.
   */
  lemma {:induction false} ScoreExact(c: Change, p: MetaAddr, now: Instant, localNow: DateTime)
    requires p.addr == c.addr
    ensures ScoreIncrement(c) != 0 ==> Apply(c, Some(p), now, localNow).Some?
    ensures Apply(c, Some(p), now, localNow).Some? ==>
              var e := Apply(c, Some(p), now, localNow).value;
              && (e.misbehavior < p.misbehavior <==> SCORE_LIMIT <= p.misbehavior + ScoreIncrement(c))
              && (p.misbehavior + ScoreIncrement(c) < SCORE_LIMIT ==>
                    e.misbehavior == p.misbehavior + ScoreIncrement(c))
  {
  }

  /** Over any run of changes under such clocks, an entry keeps growing. */
  lemma {:induction false} RunGrows(
      e: MetaAddr, changes: seq<Change>, instants: seq<Instant>, times: seq<DateTime>)
    requires EntryOk(e) && |changes| == |instants| == |times|
    requires forall i :: 0 <= i < |changes| ==> changes[i].addr == e.addr
    requires forall i, j :: 0 <= i < j < |changes| ==>
               instants[i] <= instants[j] && times[i] <= times[j]
    requires changes != [] ==> NotAfter(e, instants[0], times[0])
    ensures EntryOk(AfterChanges(e, changes, instants, times))
    ensures Grows(e, AfterChanges(e, changes, instants, times))
    decreases |changes|
  {
    if changes != [] {
      var next := Step(e, changes[0], instants[0], times[0]);
      if Apply(changes[0], Some(e), instants[0], times[0]).Some? {
        ApplyKeeps(changes[0], Some(e), instants[0], times[0]);
      }
      RunGrows(next, changes[1..], instants[1..], times[1..]);
      GrowsJoin(e, next, AfterChanges(next, changes[1..], instants[1..], times[1..]));
    }
  }

  function Step(e: MetaAddr, c: Change, now: Instant, localNow: DateTime): (r: MetaAddr)
    requires c.addr == e.addr
    ensures r.addr == e.addr
  {
    var next := Apply(c, Some(e), now, localNow);
    if next.Some? then next.value else e
  }

  function AfterChanges(
      e: MetaAddr, changes: seq<Change>, instants: seq<Instant>, times: seq<DateTime>): MetaAddr
    requires |changes| == |instants| == |times|
    requires forall i :: 0 <= i < |changes| ==> changes[i].addr == e.addr
    decreases |changes|
  {
    if changes == [] then e
    else AfterChanges(Step(e, changes[0], instants[0], times[0]), changes[1..], instants[1..],
                      times[1..])
  }

  function TotalIncrement(changes: seq<Change>): nat {
    if changes == [] then 0 else ScoreIncrement(changes[0]) + TotalIncrement(changes[1..])
  }

  /** Over any run of changes the score is the sum of all increments, in 32 bits. */
  lemma {:induction false} RunScore(
      e: MetaAddr, changes: seq<Change>, instants: seq<Instant>, times: seq<DateTime>)
    requires |changes| == |instants| == |times|
    requires forall i :: 0 <= i < |changes| ==> changes[i].addr == e.addr
    ensures AfterChanges(e, changes, instants, times).misbehavior
         == (e.misbehavior + TotalIncrement(changes)) % SCORE_LIMIT
    decreases |changes|
  {
    if changes != [] {
      var next := Step(e, changes[0], instants[0], times[0]);
      ScoreExact(changes[0], e, instants[0], times[0]);
      RunScore(next, changes[1..], instants[1..], times[1..]);
      assert next.misbehavior == (e.misbehavior + ScoreIncrement(changes[0])) % SCORE_LIMIT;
    }
  }

  lemma {:induction false} GrowsJoin(a: MetaAddr, b: MetaAddr, c: MetaAddr)
    requires Grows(a, b) && Grows(b, c)
    ensures Grows(a, c)
  {
  }

  /** For under five seconds after a failure, only a misbehavior change leaves the failed state. */
  lemma {:induction false} FailedIsKept(c: Change, p: MetaAddr, now: Instant, localNow: DateTime)
    requires p.addr == c.addr && EntryOk(p) && NotAfter(p, now, localNow) && p.state.Failed?
    requires now - p.lastFailure.value < CONCURRENT_CHANGE_NANOS
    ensures ScoreIncrement(c) == 0 ==> Apply(c, Some(p), now, localNow) == None
    ensures ScoreIncrement(c) != 0 ==>
              && Apply(c, Some(p), now, localNow).Some?
              && Apply(c, Some(p), now, localNow).value.state == Responded
  {
    assert Near(Later(p.lastAttempt, p.lastFailure).value, now, CONCURRENT_CHANGE_NANOS);
  }

  // Liveness.

  predicate HasRecentlyResponded(lastResponse: Option<DateTime>, localNow: DateTime) {
    lastResponse.Some? &&
    SaturatingSub(localNow, lastResponse.value) <= MIN_PEER_RECONNECTION_DELAY
  }

  lemma {:induction false} LaterIsMoreRecent(
      a: Option<DateTime>, b: Option<DateTime>, localNow: DateTime)
    requires AtMost(a, b)
    ensures HasRecentlyResponded(a, localNow) ==> HasRecentlyResponded(b, localNow)
  {
  }

  // The order of peers.

  /** Peers that responded come first, then those never attempted, those that failed, and attempts. */
  function StateRank(s: State): int {
    match s
    case Responded => 0
    case NeverAttemptedGossiped => 1
    case Failed => 2
    case AttemptPending => 3
  }

  /** Canonical ports are preferred; addresses in the book are valid, so none of them is an error. */
  function Preference(a: Addr): int {
    if a.port == 8232 || a.port == 18232 then 0 else 1
  }

  function Rank(t: Option<nat>): int {
    if t.Some? then t.value else -1
  }

  /** What peers are compared by, the most important first; gossiped times count in reverse. */
  function PeerKey(e: MetaAddr): seq<int> {
    [StateRank(e.state), Preference(e.addr), Rank(e.lastAttempt), Rank(e.lastFailure),
     Rank(e.lastResponse), -Rank(e.untrustedLastSeen), Rank(e.services), e.addr.ip, e.addr.port]
  }

  predicate KeyLess(a: seq<int>, b: seq<int>) {
    && a != [] && b != []
    && (a[0] < b[0] || (a[0] == b[0] && KeyLess(a[1..], b[1..])))
  }

  predicate Before(a: MetaAddr, b: MetaAddr) {
    KeyLess(PeerKey(a), PeerKey(b))
  }

  lemma {:induction false} KeysCompare(a: seq<int>, b: seq<int>)
    requires |a| == |b|
    ensures a == b || KeyLess(a, b) || KeyLess(b, a)
    ensures !(KeyLess(a, b) && KeyLess(b, a))
    ensures !KeyLess(a, a)
  {
    if a != [] {
      KeysCompare(a[1..], b[1..]);
      assert a == [a[0]] + a[1..] && b == [b[0]] + b[1..];
      KeysCompare(a[1..], a[1..]);
    }
  }

  lemma {:induction false} KeysJoin(a: seq<int>, b: seq<int>, c: seq<int>)
    requires KeyLess(a, b) && KeyLess(b, c)
    ensures KeyLess(a, c)
  {
    if a[0] == b[0] == c[0] {
      KeysJoin(a[1..], b[1..], c[1..]);
    }
  }

  /** Of two entries at different addresses exactly one comes first. */
  lemma {:induction false} PeersCompare(a: MetaAddr, b: MetaAddr)
    ensures a.addr != b.addr ==> (Before(a, b) <==> !Before(b, a))
    ensures !Before(a, a)
  {
    KeysCompare(PeerKey(a), PeerKey(b));
    KeysCompare(PeerKey(a), PeerKey(a));
    assert PeerKey(a)[7] == a.addr.ip && PeerKey(a)[8] == a.addr.port;
    assert PeerKey(b)[7] == b.addr.ip && PeerKey(b)[8] == b.addr.port;
  }

  lemma {:induction false} PeersJoin(a: MetaAddr, b: MetaAddr, c: MetaAddr)
    requires Before(a, b) && Before(b, c)
    ensures Before(a, c)
  {
    KeysJoin(PeerKey(a), PeerKey(b), PeerKey(c));
  }

  /** The order in which the code compares states to reconnect. */
  predicate ReconnectBefore(a: State, b: State) {
    a != b &&
    match (a, b)
    case (Responded, _) => true
    case (_, Responded) => false
    case (NeverAttemptedGossiped, _) => true
    case (_, NeverAttemptedGossiped) => false
    case (Failed, _) => true
    case (_, _) => false
  }

  /** None comes before every time. */
  predicate Earlier(a: Option<nat>, b: Option<nat>) {
    !AtMost(b, a)
  }

  predicate IsCanonical(a: Addr) {
    a.port in {8232, 18232}
  }

  /**
   Which of two entries comes first is decided by the first of these in which they differ: the state,
   a canonical port, the attempt, the failure and the response, earlier ones first, the time they were
   gossiped to be seen, later ones first, the services, the IP and the port.
   */
  predicate DecidedFirst(a: MetaAddr, b: MetaAddr) {
    if a.state != b.state then ReconnectBefore(a.state, b.state)
    else if IsCanonical(a.addr) != IsCanonical(b.addr) then IsCanonical(a.addr)
    else if a.lastAttempt != b.lastAttempt then Earlier(a.lastAttempt, b.lastAttempt)
    else if a.lastFailure != b.lastFailure then Earlier(a.lastFailure, b.lastFailure)
    else if a.lastResponse != b.lastResponse then Earlier(a.lastResponse, b.lastResponse)
    else if a.untrustedLastSeen != b.untrustedLastSeen then
      Earlier(b.untrustedLastSeen, a.untrustedLastSeen)
    else if a.services != b.services then Earlier(a.services, b.services)
    else if a.addr.ip != b.addr.ip then a.addr.ip < b.addr.ip
    else a.addr.port < b.addr.port
  }

  lemma {:induction false} KeyLessAt(a: seq<int>, b: seq<int>, i: nat)
    requires |a| == |b| && i < |a| && a[i] != b[i] && forall j :: 0 <= j < i ==> a[j] == b[j]
    ensures KeyLess(a, b) <==> a[i] < b[i]
  {
    if i > 0 {
      KeyLessAt(a[1..], b[1..], i - 1);
    }
  }

  /** The order of peers is the one that the code compares them by. */
  lemma {:induction false} BeforeIsDecided(a: MetaAddr, b: MetaAddr)
    ensures Before(a, b) <==> DecidedFirst(a, b)
  {
    var i := FirstDifference(PeerKey(a), PeerKey(b));
    if i < 9 {
      KeyLessAt(PeerKey(a), PeerKey(b), i);
      FirstOfKeys(a, b, i);
    } else {
      KeysCompare(PeerKey(a), PeerKey(a));
      EqualKeys(a, b);
    }
  }

  lemma {:induction false} FirstDifference(a: seq<int>, b: seq<int>) returns (i: nat)
    requires |a| == |b|
    ensures i <= |a| && (forall j :: 0 <= j < i ==> a[j] == b[j]) && (i < |a| ==> a[i] != b[i])
    ensures i == |a| ==> a == b
  {
    i := 0;
    while i < |a| && a[i] == b[i]
      invariant i <= |a| && forall j :: 0 <= j < i ==> a[j] == b[j]
    {
      i := i + 1;
    }
  }

  lemma {:induction false} EqualKeys(a: MetaAddr, b: MetaAddr)
    requires PeerKey(a) == PeerKey(b)
    ensures !DecidedFirst(a, b)
  {
    var x, y := PeerKey(a), PeerKey(b);
    assert x[0] == y[0] && x[1] == y[1] && x[2] == y[2] && x[3] == y[3] && x[4] == y[4];
    assert x[5] == y[5] && x[6] == y[6] && x[7] == y[7] && x[8] == y[8];
  }

  lemma {:induction false} FirstOfKeys(a: MetaAddr, b: MetaAddr, i: nat)
    requires i < 9 && PeerKey(a)[i] != PeerKey(b)[i]
    requires forall j :: 0 <= j < i ==> PeerKey(a)[j] == PeerKey(b)[j]
    ensures DecidedFirst(a, b) <==> PeerKey(a)[i] < PeerKey(b)[i]
  {
    var x, y := PeerKey(a), PeerKey(b);
    assert i > 0 ==> x[0] == y[0];
    assert i > 1 ==> x[1] == y[1];
    assert i > 2 ==> x[2] == y[2];
    assert i > 3 ==> x[3] == y[3];
    assert i > 4 ==> x[4] == y[4];
    assert i > 5 ==> x[5] == y[5];
    assert i > 6 ==> x[6] == y[6];
    assert i > 7 ==> x[7] == y[7];
  }

  /** States alone decide between entries in different states. */
  lemma {:induction false} StateDecides(a: MetaAddr, b: MetaAddr)
    requires a.state != b.state
    ensures Before(a, b) <==> ReconnectBefore(a.state, b.state)
  {
    BeforeIsDecided(a, b);
  }
}

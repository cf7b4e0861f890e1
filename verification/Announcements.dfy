/** Member-feed announcements: the bounded cache of one peer runtime, and the flood over a network of them. */
module Announcements {
  import opened Core

  const MAX_DISCOVERED_MEMBER_FEEDS: nat := 1024

  /** A validated announcement. Times are instants on the clock that the runtime reads. */
  datatype Announcement = Announcement(
    communityId: string, memberId: string, feedPublicKey: string, announcedAt: int, expiresAt: int, signature: string)

  type FeedKey = (string, string, string)

  type Cache = map<FeedKey, Announcement>

  function KeyOf(a: Announcement): FeedKey { (a.communityId, a.memberId, a.feedPublicKey) }

  predicate IsExpired(a: Announcement, now: int) { a.expiresAt <= now }

  /** Every announcement is cached under its own key, and the cache is bounded. */
  ghost predicate GoodCache(cache: Cache) {
    (forall k | k in cache :: KeyOf(cache[k]) == k) && |cache| <= MAX_DISCOVERED_MEMBER_FEEDS
  }

  /** The cache after `rememberMemberFeedAnnouncement`. */
  function Remember(cache: Cache, a: Announcement): Cache {
    var key := KeyOf(a);
    if key in cache && cache[key] == a then cache
    else if key !in cache && |cache| >= MAX_DISCOVERED_MEMBER_FEEDS then cache
    else cache[key := a]
  }

  function Unexpired(cache: Cache, now: int): Cache {
    map k | k in cache && !IsExpired(cache[k], now) :: cache[k]
  }

  lemma RememberKeepsGood(cache: Cache, a: Announcement)
    requires GoodCache(cache)
    ensures GoodCache(Remember(cache, a))
  {
    assert Remember(cache, a) == cache || Remember(cache, a).Keys == cache.Keys + {KeyOf(a)};
  }

  lemma PruneKeepsGood(cache: Cache, now: int)
    requires GoodCache(cache)
    ensures GoodCache(Unexpired(cache, now))
  {
    var pruned := Unexpired(cache, now);
    assert pruned.Keys <= cache.Keys;
    SubsetCount(pruned.Keys, cache.Keys);
  }

  // ---- one runtime ------------------------------------------------------------------------------------

  /** The announcement side of a peer runtime. Its asynchronous method is split at its await. */
  class PeerRuntime {
    var discoveredMemberFeedAnnouncements: Cache
    var memberFeedKey: string
    var extensionRegistered: bool

    ghost predicate Valid()
      reads this
    {
      GoodCache(discoveredMemberFeedAnnouncements)
    }

    constructor (memberFeedKey: string)
      ensures Valid() && discoveredMemberFeedAnnouncements == map[] && this.memberFeedKey == memberFeedKey
              && !extensionRegistered
    {
      discoveredMemberFeedAnnouncements, extensionRegistered := map[], false;
      this.memberFeedKey := memberFeedKey;
    }

    method RememberMemberFeedAnnouncement(a: Announcement) returns (changed: bool)
      requires Valid()
      modifies this`discoveredMemberFeedAnnouncements
      ensures Valid() && discoveredMemberFeedAnnouncements == Remember(old(discoveredMemberFeedAnnouncements), a)
      ensures changed <==> discoveredMemberFeedAnnouncements != old(discoveredMemberFeedAnnouncements)
      ensures var key := (a.communityId, a.memberId, a.feedPublicKey);
              var known := key in old(discoveredMemberFeedAnnouncements) && old(discoveredMemberFeedAnnouncements)[key] == a;
              var room := key in old(discoveredMemberFeedAnnouncements) || |old(discoveredMemberFeedAnnouncements)| < 1024;
              && (changed <==> !known && room)
              && (changed ==> discoveredMemberFeedAnnouncements == old(discoveredMemberFeedAnnouncements)[key := a])
    {
      RememberKeepsGood(discoveredMemberFeedAnnouncements, a);
      var key := KeyOf(a);
      if key in discoveredMemberFeedAnnouncements && discoveredMemberFeedAnnouncements[key] == a { return false; }
      if key !in discoveredMemberFeedAnnouncements && |discoveredMemberFeedAnnouncements| >= MAX_DISCOVERED_MEMBER_FEEDS { return false; }
      discoveredMemberFeedAnnouncements := discoveredMemberFeedAnnouncements[key := a];
      assert discoveredMemberFeedAnnouncements[key] == a;
      changed := true;
    }

    method PruneExpiredMemberFeedAnnouncements(now: int)
      requires Valid()
      modifies this`discoveredMemberFeedAnnouncements
      ensures Valid() && discoveredMemberFeedAnnouncements == Unexpired(old(discoveredMemberFeedAnnouncements), now)
      ensures forall k :: k in discoveredMemberFeedAnnouncements <==>
                k in old(discoveredMemberFeedAnnouncements) && old(discoveredMemberFeedAnnouncements)[k].expiresAt > now
      ensures forall k | k in discoveredMemberFeedAnnouncements :: discoveredMemberFeedAnnouncements[k] == old(discoveredMemberFeedAnnouncements)[k]
    {
      ghost var before := discoveredMemberFeedAnnouncements;
      var keys := discoveredMemberFeedAnnouncements.Keys;
      while keys != {}
        invariant keys <= before.Keys
        invariant discoveredMemberFeedAnnouncements ==
                  map k | k in before && (k in keys || !IsExpired(before[k], now)) :: before[k]
        decreases keys
      {
        var key :| key in keys;
        if IsExpired(discoveredMemberFeedAnnouncements[key], now) {
          discoveredMemberFeedAnnouncements := discoveredMemberFeedAnnouncements - {key};
        }
        keys := keys - {key};
      }
      assert discoveredMemberFeedAnnouncements == Unexpired(before, now);
      PruneKeepsGood(before, now);
    }

    /** Nothing that has expired is sent, and everything else in the cache is. */
    method BroadcastMemberFeedAnnouncements(now: int) returns (sent: set<Announcement>)
      requires Valid()
      modifies this`discoveredMemberFeedAnnouncements
      ensures Valid() && discoveredMemberFeedAnnouncements == Unexpired(old(discoveredMemberFeedAnnouncements), now)
      ensures sent == if extensionRegistered then discoveredMemberFeedAnnouncements.Values else {}
    {
      PruneExpiredMemberFeedAnnouncements(now);
      sent := if extensionRegistered then discoveredMemberFeedAnnouncements.Values else {};
    }

    method PublishMemberFeedAnnouncement(a: Announcement, now: int) returns (r: Result<set<Announcement>>)
      requires Valid()
      modifies this`discoveredMemberFeedAnnouncements
      ensures Valid()
      ensures r.Ok? <==> a.feedPublicKey == memberFeedKey && a.expiresAt > now
      ensures r.Error? ==> discoveredMemberFeedAnnouncements == old(discoveredMemberFeedAnnouncements)
      ensures r.Ok? ==> discoveredMemberFeedAnnouncements == Unexpired(Remember(old(discoveredMemberFeedAnnouncements), a), now)
      ensures r.Ok? && extensionRegistered ==> r.value == discoveredMemberFeedAnnouncements.Values
    {
      if a.feedPublicKey != memberFeedKey || IsExpired(a, now) { return Error; }
      var changed := RememberMemberFeedAnnouncement(a);
      var sent := BroadcastMemberFeedAnnouncements(now);
      r := Ok(sent);
    }

    /** `receiveMemberFeedAnnouncement` up to its await. The runtime goes on to open the feed, and to relay,
        only when its cache has changed. */
    method ReceiveMemberFeedAnnouncement(value: Option<Announcement>, now: int) returns (opens: bool)
      requires Valid()
      modifies this`discoveredMemberFeedAnnouncements
      ensures Valid()
      ensures opens <==> discoveredMemberFeedAnnouncements != old(discoveredMemberFeedAnnouncements)
      ensures opens ==> value.Some? && value.value.expiresAt > now
                        && discoveredMemberFeedAnnouncements == Remember(old(discoveredMemberFeedAnnouncements), value.value)
    {
      if value.None? { return false; }
      if IsExpired(value.value, now) { return false; }
      opens := RememberMemberFeedAnnouncement(value.value);
    }

    /** `receiveMemberFeedAnnouncement` after its await. */
    method FeedOpened(succeeded: bool, now: int) returns (sent: set<Announcement>)
      requires Valid()
      modifies this`discoveredMemberFeedAnnouncements
      ensures Valid()
      ensures !succeeded ==> sent == {} && discoveredMemberFeedAnnouncements == old(discoveredMemberFeedAnnouncements)
      ensures succeeded ==> discoveredMemberFeedAnnouncements == Unexpired(old(discoveredMemberFeedAnnouncements), now)
                            && sent == if extensionRegistered then discoveredMemberFeedAnnouncements.Values else {}
    {
      if !succeeded { return {}; }
      sent := BroadcastMemberFeedAnnouncements(now);
    }
  }

  // ---- a network of runtimes ----------------------------------------------------------------------------

  type Message = (nat, Announcement)

  /** Runtimes by number, at one instant: the feed that each owns, whom each is connected to, what each has
      cached, how many feeds each is opening, and the messages under way. */
  datatype Network = Network(now: int, feeds: seq<string>, neighbours: seq<set<nat>>, caches: seq<Cache>,
                             opening: seq<nat>, messages: multiset<Message>)

  datatype Step =
    | Publish(node: nat, announcement: Announcement)
    | Connect(node: nat, peer: nat)
    | Deliver(message: Message)
    | Opened(node: nat)
    | OpenFailed(node: nat)
    | Lose(message: Message)
    | Tick(now: int)

  predicate WellFormed(n: Network) {
    && |n.feeds| == |n.neighbours| == |n.caches| == |n.opening|
    && (forall u | 0 <= u < |n.caches| :: forall v | v in n.neighbours[u] :: v < |n.caches|)
    && (forall m | m in n.messages :: m.0 < |n.caches|)
  }

  /** One message to every neighbour for every cached announcement. */
  function Sent(neighbours: set<nat>, cache: Cache): set<Message> {
    set v, k | v in neighbours && k in cache :: (v, cache[k])
  }

  /** The runtime drops what has expired and sends the rest. */
  function Broadcast(n: Network, u: nat): (r: Network)
    requires WellFormed(n) && u < |n.caches|
    ensures WellFormed(r)
  {
    var cache := Unexpired(n.caches[u], n.now);
    n.(caches := n.caches[u := cache], messages := n.messages + multiset(Sent(n.neighbours[u], cache)))
  }

  function WithCache(n: Network, u: nat, cache: Cache): (r: Network)
    requires WellFormed(n) && u < |n.caches|
    ensures WellFormed(r)
  {
    n.(caches := n.caches[u := cache])
  }

  function WithOpening(n: Network, u: nat, count: nat): (r: Network)
    requires WellFormed(n) && u < |n.caches|
    ensures WellFormed(r)
  {
    n.(opening := n.opening[u := count])
  }

  function WithNeighbour(n: Network, u: nat, v: nat): (r: Network)
    requires WellFormed(n) && u < |n.caches| && v < |n.caches|
    ensures WellFormed(r)
  {
    n.(neighbours := n.neighbours[u := n.neighbours[u] + {v}])
  }

  function Without(n: Network, m: Message): (r: Network)
    requires WellFormed(n)
    ensures WellFormed(r)
  {
    n.(messages := n.messages - multiset{m})
  }

  predicate Enabled(n: Network, step: Step)
    requires WellFormed(n)
  {
    match step
    case Publish(u, a) => u < |n.caches| && a.feedPublicKey == n.feeds[u] && !IsExpired(a, n.now)
    case Connect(u, v) => u < |n.caches| && v < |n.caches|
    case Deliver(m) => m in n.messages
    case Opened(u) => u < |n.caches| && n.opening[u] > 0
    case OpenFailed(u) => u < |n.caches| && n.opening[u] > 0
    case Lose(m) => m in n.messages
    case Tick(now) => n.now < now
  }

  function Apply(n: Network, step: Step): (r: Network)
    requires WellFormed(n) && Enabled(n, step)
    ensures WellFormed(r)
  {
    match step
    case Publish(u, a) => Broadcast(WithCache(n, u, Remember(n.caches[u], a)), u)
    case Connect(u, v) => Broadcast(WithNeighbour(n, u, v), u)
    case Deliver(m) => Receive(Without(n, m), m.0, m.1)
    case Opened(u) => Broadcast(WithOpening(n, u, n.opening[u] - 1), u)
    case OpenFailed(u) => WithOpening(n, u, n.opening[u] - 1)
    case Lose(m) => Without(n, m)
    case Tick(now) => n.(now := now)
  }

  /** An expired or known announcement changes nothing; any other is cached, and its feed is opened. */
  function Receive(n: Network, u: nat, a: Announcement): (r: Network)
    requires WellFormed(n) && u < |n.caches|
    ensures WellFormed(r)
  {
    var cache := Remember(n.caches[u], a);
    if IsExpired(a, n.now) || cache == n.caches[u] then n
    else WithOpening(WithCache(n, u, cache), u, n.opening[u] + 1)
  }

  // ---- the network's steps, field by field --------------------------------------------------------------------

  /** The runtime has dropped what has expired, kept the rest, and sent each neighbour one message for each entry left. */
  ghost predicate Speaks(n: Network, r: Network, u: nat, heard: Cache)
    requires u < |r.caches| == |r.neighbours| == |n.caches|
  {
    && (forall k :: k in r.caches[u] <==> k in heard && heard[k].expiresAt > n.now)
    && (forall k | k in r.caches[u] :: r.caches[u][k] == heard[k])
    && (forall w | 0 <= w < |r.caches| && w != u :: r.caches[w] == n.caches[w])
    && (forall m :: r.messages[m] == n.messages[m] + if IsSentBy(r.neighbours[u], r.caches[u], m) then 1 else 0)
    && r.feeds == n.feeds && r.now == n.now
  }

  ghost predicate IsSentBy(neighbours: set<nat>, cache: Cache, m: Message) {
    m.0 in neighbours && exists k :: k in cache && cache[k] == m.1
  }

  lemma BroadcastSpeaks(n: Network, u: nat)
    requires WellFormed(n) && u < |n.caches|
    ensures Speaks(n, Broadcast(n, u), u, n.caches[u])
  {
    var sent := Sent(n.neighbours[u], Unexpired(n.caches[u], n.now));
    forall m: Message ensures m in sent <==> IsSentBy(n.neighbours[u], Unexpired(n.caches[u], n.now), m) {
      if IsSentBy(n.neighbours[u], Unexpired(n.caches[u], n.now), m) {
        var k :| k in Unexpired(n.caches[u], n.now) && Unexpired(n.caches[u], n.now)[k] == m.1;
        assert (m.0, Unexpired(n.caches[u], n.now)[k]) in sent;
      }
    }
  }

  /** Publishing needs the runtime's own feed and an unexpired announcement. The cache takes the announcement in place of its
      feed's earlier one, or as a new entry while it has room for one, and the runtime speaks. */
  lemma PublishStep(n: Network, u: nat, a: Announcement)
    requires WellFormed(n)
    ensures Enabled(n, Publish(u, a)) <==> u < |n.caches| && a.feedPublicKey == n.feeds[u] && a.expiresAt > n.now
    ensures Enabled(n, Publish(u, a)) ==>
              var r, key := Apply(n, Publish(u, a)), (a.communityId, a.memberId, a.feedPublicKey);
              && r.neighbours == n.neighbours && r.opening == n.opening
              && Speaks(n, r, u, if key in n.caches[u] || |n.caches[u]| < 1024 then n.caches[u][key := a] else n.caches[u])
  {
    if Enabled(n, Publish(u, a)) {
      Remembers(n.caches[u], a);
      BroadcastSpeaks(WithCache(n, u, Remember(n.caches[u], a)), u);
    }
  }

  lemma Remembers(cache: Cache, a: Announcement)
    ensures var key := (a.communityId, a.memberId, a.feedPublicKey);
            Remember(cache, a) == if key in cache || |cache| < 1024 then cache[key := a] else cache
  {
    var key := (a.communityId, a.memberId, a.feedPublicKey);
    if key in cache && cache[key] == a { assert cache[key := a] == cache; }
  }

  /** A new connection makes the runtime speak. */
  lemma ConnectStep(n: Network, u: nat, v: nat)
    requires WellFormed(n)
    ensures Enabled(n, Connect(u, v)) <==> u < |n.caches| && v < |n.caches|
    ensures Enabled(n, Connect(u, v)) ==>
              var r := Apply(n, Connect(u, v));
              r.neighbours == n.neighbours[u := n.neighbours[u] + {v}] && r.opening == n.opening && Speaks(n, r, u, n.caches[u])
  {
    hide Broadcast, Speaks;
    if Enabled(n, Connect(u, v)) {
      var next := WithNeighbour(n, u, v);
      BroadcastSpeaks(next, u);
      BroadcastFields(next, u);
      SpeaksAlike(n, next, Broadcast(next, u), u);
    }
  }

  /** A feed that has opened makes the runtime speak. */
  lemma OpenedStep(n: Network, u: nat)
    requires WellFormed(n)
    ensures Enabled(n, Opened(u)) <==> u < |n.caches| && n.opening[u] > 0
    ensures Enabled(n, Opened(u)) ==>
              var r := Apply(n, Opened(u));
              r.neighbours == n.neighbours && r.opening == n.opening[u := n.opening[u] - 1] && Speaks(n, r, u, n.caches[u])
  {
    hide Broadcast, Speaks;
    if Enabled(n, Opened(u)) {
      var next := WithOpening(n, u, n.opening[u] - 1);
      BroadcastSpeaks(next, u);
      BroadcastFields(next, u);
      SpeaksAlike(n, next, Broadcast(next, u), u);
    }
  }

  lemma SpeaksAlike(n: Network, next: Network, r: Network, u: nat)
    requires u < |r.caches| == |r.neighbours| == |n.caches| == |next.caches| && Speaks(next, r, u, n.caches[u])
    requires next.caches == n.caches && next.messages == n.messages && next.feeds == n.feeds && next.now == n.now
    ensures Speaks(n, r, u, n.caches[u])
  {
  }

  lemma BroadcastFields(n: Network, u: nat)
    requires WellFormed(n) && u < |n.caches|
    ensures Broadcast(n, u).neighbours == n.neighbours && Broadcast(n, u).opening == n.opening
  {
  }

  /** A delivered announcement is cached, and its feed is opened, when it has not expired, is not the one cached already, and
      there is room for it. Nothing is sent before the feed has opened. */
  lemma DeliverStep(n: Network, u: nat, a: Announcement)
    requires WellFormed(n)
    ensures Enabled(n, Deliver((u, a))) <==> (u, a) in n.messages
    ensures Enabled(n, Deliver((u, a))) ==>
              var key := (a.communityId, a.memberId, a.feedPublicKey);
              var known, room := key in n.caches[u] && n.caches[u][key] == a, key in n.caches[u] || |n.caches[u]| < 1024;
              var opens := a.expiresAt > n.now && !known && room;
              Apply(n, Deliver((u, a))) ==
                Network(n.now, n.feeds, n.neighbours, if opens then n.caches[u := n.caches[u][key := a]] else n.caches,
                        if opens then n.opening[u := n.opening[u] + 1] else n.opening, n.messages - multiset{(u, a)})
  {
    if Enabled(n, Deliver((u, a))) {
      Remembers(n.caches[u], a);
      var key := (a.communityId, a.memberId, a.feedPublicKey);
      if key in n.caches[u] && n.caches[u][key] == a { assert n.caches[u][key := a] == n.caches[u]; }
      assert n.caches[u][key := a][key] == a;
    }
  }

  /** The other steps. */
  lemma QuietSteps(n: Network, u: nat, m: Message, now: int)
    requires WellFormed(n)
    ensures Enabled(n, OpenFailed(u)) <==> u < |n.caches| && n.opening[u] > 0
    ensures Enabled(n, OpenFailed(u)) ==> Apply(n, OpenFailed(u)) == n.(opening := n.opening[u := n.opening[u] - 1])
    ensures Enabled(n, Lose(m)) <==> m in n.messages
    ensures Enabled(n, Lose(m)) ==> Apply(n, Lose(m)) == n.(messages := n.messages - multiset{m})
    ensures Enabled(n, Tick(now)) <==> n.now < now
    ensures Enabled(n, Tick(now)) ==> Apply(n, Tick(now)) == n.(now := now)
  {
  }

  // ---- reactions ------------------------------------------------------------------------------------------------

  /** What the network does by itself, apart from growing older. */
  predicate IsReaction(step: Step) { step.Deliver? || step.Opened? || step.OpenFailed? || step.Lose? }

  /** No two announcements are two versions for one key. */
  ghost predicate OneVersion(live: set<Announcement>) {
    forall a, b | a in live && b in live && KeyOf(a) == KeyOf(b) :: a == b
  }

  /** The announcements that have not expired. */
  ghost function Current(live: set<Announcement>, now: int): set<Announcement> {
    set a | a in live && !IsExpired(a, now)
  }

  /** The cache holds live announcements under their own keys. */
  ghost predicate Holds(cache: Cache, live: set<Announcement>) {
    forall k | k in cache :: cache[k] in live && KeyOf(cache[k]) == k
  }

  /** Everything cached or under way is among the live announcements. */
  ghost predicate Carries(n: Network, live: set<Announcement>) {
    && WellFormed(n)
    && (forall u | 0 <= u < |n.caches| :: Holds(n.caches[u], live))
    && (forall m | m in n.messages :: m.1 in live)
  }

  lemma BroadcastCarries(n: Network, live: set<Announcement>, u: nat)
    requires Carries(n, live) && u < |n.caches|
    ensures Carries(Broadcast(n, u), live)
  {
    assert Holds(Unexpired(n.caches[u], n.now), live);
    assert forall m | m in Sent(n.neighbours[u], Unexpired(n.caches[u], n.now)) :: m.1 in live;
  }

  lemma WithCacheCarries(n: Network, live: set<Announcement>, u: nat, a: Announcement)
    requires Carries(n, live) && u < |n.caches| && a in live
    ensures Carries(WithCache(n, u, Remember(n.caches[u], a)), live)
  {
    assert Holds(Remember(n.caches[u], a), live);
  }

  lemma WithoutCarries(n: Network, live: set<Announcement>, m: Message)
    requires Carries(n, live)
    ensures Carries(Without(n, m), live)
  {
  }

  lemma SameContentCarries(n: Network, live: set<Announcement>, r: Network)
    requires Carries(n, live) && WellFormed(r) && r.caches == n.caches && r.messages == n.messages
    ensures Carries(r, live)
  {
  }

  lemma StepCarries(n: Network, live: set<Announcement>, step: Step)
    requires Carries(n, live) && Enabled(n, step) && (step.Publish? ==> step.announcement in live)
    ensures Carries(Apply(n, step), live)
  {
    hide Broadcast, Remember, Receive, Holds;
    match step {
      case Publish(u, a) =>
        WithCacheCarries(n, live, u, a);
        BroadcastCarries(WithCache(n, u, Remember(n.caches[u], a)), live, u);
      case Connect(u, v) =>
        SameContentCarries(n, live, WithNeighbour(n, u, v));
        BroadcastCarries(WithNeighbour(n, u, v), live, u);
      case Opened(u) =>
        SameContentCarries(n, live, WithOpening(n, u, n.opening[u] - 1));
        BroadcastCarries(WithOpening(n, u, n.opening[u] - 1), live, u);
      case Deliver(m) =>
        WithoutCarries(n, live, m);
        ReceiveCarries(Without(n, m), live, m.0, m.1);
      case OpenFailed(u) => SameContentCarries(n, live, WithOpening(n, u, n.opening[u] - 1));
      case Lose(m) => WithoutCarries(n, live, m);
      case Tick(now) => SameContentCarries(n, live, n.(now := now));
    }
  }

  lemma ReceiveCarries(n: Network, live: set<Announcement>, u: nat, a: Announcement)
    requires Carries(n, live) && u < |n.caches| && a in live
    ensures Carries(Receive(n, u, a), live)
  {
    hide Carries, WellFormed, Remember;
    CarriesWellFormed(n, live);
    WithCacheCarries(n, live, u, a);
    var next := WithCache(n, u, Remember(n.caches[u], a));
    SameContentCarries(next, live, WithOpening(next, u, n.opening[u] + 1));
  }

  lemma CarriesWellFormed(n: Network, live: set<Announcement>)
    requires Carries(n, live)
    ensures WellFormed(n)
    ensures forall u | 0 <= u < |n.caches| :: Holds(n.caches[u], live)
    ensures |n.caches| == |n.opening| && forall m | m in n.messages :: m.1 in live
  {
  }

  // ---- the flood stops ------------------------------------------------------------------------------------

  /** Entries that are still missing from the caches. */
  function Missing(live: nat, caches: seq<Cache>): int {
    if caches == [] then 0 else Missing(live, caches[..|caches| - 1]) + live - |caches[|caches| - 1]|
  }

  function Total(counts: seq<nat>): nat {
    if counts == [] then 0 else Total(counts[..|counts| - 1]) + counts[|counts| - 1]
  }

  function FreshPart(now: int): Cache -> Cache { (cache: Cache) => Unexpired(cache, now) }

  /** What each cache holds that has not expired. */
  function FreshCaches(n: Network): seq<Cache> { Map(n.caches, FreshPart(n.now)) }

  /** Unexpired entries that are still missing from the caches. */
  ghost function Lacking(n: Network, live: set<Announcement>): int {
    Missing(|Current(live, n.now)|, FreshCaches(n))
  }

  lemma {:induction false} MissingUpdate(live: nat, caches: seq<Cache>, u: nat, cache: Cache)
    requires u < |caches|
    ensures Missing(live, caches[u := cache]) == Missing(live, caches) + |caches[u]| - |cache|
  {
    var front, last := caches[..|caches| - 1], |caches| - 1;
    if u < last {
      assert caches[u := cache][..last] == front[u := cache];
      MissingUpdate(live, front, u, cache);
    } else {
      assert caches[u := cache][..last] == front;
    }
  }

  lemma {:induction false} TotalUpdate(counts: seq<nat>, u: nat, count: nat)
    requires u < |counts|
    ensures Total(counts[u := count]) == Total(counts) - counts[u] + count
  {
    var front, last := counts[..|counts| - 1], |counts| - 1;
    if u < last {
      assert counts[u := count][..last] == front[u := count];
      TotalUpdate(front, u, count);
    } else {
      assert counts[u := count][..last] == front;
    }
  }

  /** A cache of live announcements is at most as large as their set. */
  lemma CacheFits(cache: Cache, live: set<Announcement>)
    requires Holds(cache, live)
    ensures |cache| <= |live|
    decreases |cache|
  {
    if cache != map[] {
      var k :| k in cache;
      var rest := cache - {k};
      assert rest.Keys == cache.Keys - {k};
      CacheFits(rest, live - {cache[k]});
    }
  }

  lemma {:induction false} MissingIsNatural(caches: seq<Cache>, live: set<Announcement>)
    requires forall u | 0 <= u < |caches| :: Holds(caches[u], live)
    ensures Missing(|live|, caches) >= 0
  {
    hide Holds;
    if caches != [] {
      CacheFits(caches[|caches| - 1], live);
      MissingIsNatural(caches[..|caches| - 1], live);
    }
  }

  lemma LackingIsNatural(n: Network, live: set<Announcement>)
    requires Carries(n, live)
    ensures Lacking(n, live) >= 0
  {
    hide Missing;
    MissingIsNatural(FreshCaches(n), Current(live, n.now));
  }

  /** With one unexpired version per key, remembering an unexpired announcement changes nothing or adds an
      unexpired entry. */
  lemma RememberAddsFresh(cache: Cache, live: set<Announcement>, a: Announcement, now: int)
    requires OneVersion(Current(live, now)) && a in live && !IsExpired(a, now) && Holds(cache, live)
    ensures Remember(cache, a) == cache || |Unexpired(Remember(cache, a), now)| == |Unexpired(cache, now)| + 1
  {
    hide OneVersion;
    if Remember(cache, a) != cache {
      OldVersionExpired(cache, live, a, now);
      AddsFresh(cache, KeyOf(a), a, now);
    }
  }

  /** Another version of an unexpired announcement in the cache has expired. */
  lemma OldVersionExpired(cache: Cache, live: set<Announcement>, a: Announcement, now: int)
    requires OneVersion(Current(live, now)) && a in live && !IsExpired(a, now) && Holds(cache, live)
    ensures KeyOf(a) in cache && cache[KeyOf(a)] != a ==> IsExpired(cache[KeyOf(a)], now)
  {
    assert a in Current(live, now);
    assert KeyOf(a) in cache ==> cache[KeyOf(a)] in live;
  }

  lemma AddsFresh(cache: Cache, key: FeedKey, a: Announcement, now: int)
    requires !IsExpired(a, now) && (key in cache ==> IsExpired(cache[key], now))
    ensures |Unexpired(cache[key := a], now)| == |Unexpired(cache, now)| + 1
  {
    assert Unexpired(cache[key := a], now).Keys == Unexpired(cache, now).Keys + {key};
    assert key !in Unexpired(cache, now);
  }

  /** Closer to rest, in the lexicographic order of missing entries, feeds being opened, and messages under way. */
  ghost predicate Closer(live: set<Announcement>, r: Network, n: Network) {
    && Lacking(r, live) <= Lacking(n, live)
    && (Lacking(r, live) == Lacking(n, live) ==>
          && Total(r.opening) <= Total(n.opening)
          && (Total(r.opening) == Total(n.opening) ==> |r.messages| < |n.messages|))
  }

  lemma FreshAfterUpdate(n: Network, u: nat, cache: Cache)
    requires WellFormed(n) && u < |n.caches|
    ensures FreshCaches(WithCache(n, u, cache)) == FreshCaches(n)[u := Unexpired(cache, n.now)]
  {
  }

  lemma ReceiveDescends(n: Network, live: set<Announcement>, u: nat, a: Announcement)
    requires Carries(n, live) && OneVersion(Current(live, n.now)) && u < |n.caches| && a in live
    ensures Receive(n, u, a) == n || Lacking(Receive(n, u, a), live) < Lacking(n, live)
  {
    hide OneVersion, Remember, Missing, Unexpired, Current;
    CarriesWellFormed(n, live);
    if Receive(n, u, a) != n {
      var cache := Remember(n.caches[u], a);
      RememberAddsFresh(n.caches[u], live, a, n.now);
      FreshAfterUpdate(n, u, cache);
      MissingUpdate(|Current(live, n.now)|, FreshCaches(n), u, Unexpired(cache, n.now));
    }
  }

  lemma BroadcastKeepsFresh(n: Network, u: nat)
    requires WellFormed(n) && u < |n.caches|
    ensures FreshCaches(Broadcast(n, u)) == FreshCaches(n)
  {
    hide Sent;
    assert Unexpired(Unexpired(n.caches[u], n.now), n.now) == Unexpired(n.caches[u], n.now);
  }

  /** Every reaction brings the network closer to rest. */
  lemma ReactionsDescend(n: Network, live: set<Announcement>, step: Step)
    requires Carries(n, live) && OneVersion(Current(live, n.now)) && Enabled(n, step) && IsReaction(step)
    ensures Lacking(Apply(n, step), live) >= 0 && Closer(live, Apply(n, step), n)
  {
    hide OneVersion, Missing, Total, Carries, Sent, Receive, WellFormed, Broadcast, Current, FreshCaches;
    CarriesWellFormed(n, live);
    StepCarries(n, live, step);
    LackingIsNatural(Apply(n, step), live);
    match step {
      case Deliver(m) => DeliverDescends(n, live, m);
      case Opened(u) => OpenedDescends(n, live, u);
      case OpenFailed(u) =>
        TotalUpdate(n.opening, u, n.opening[u] - 1);
        SameFresh(n, Apply(n, step));
      case Lose(m) => SameFresh(n, Apply(n, step));
    }
  }

  lemma SameFresh(n: Network, r: Network)
    requires r.caches == n.caches && r.now == n.now
    ensures FreshCaches(r) == FreshCaches(n)
  {
  }

  lemma DeliverDescends(n: Network, live: set<Announcement>, m: Message)
    requires Carries(n, live) && OneVersion(Current(live, n.now)) && WellFormed(n) && m in n.messages
    ensures Closer(live, Apply(n, Deliver(m)), n)
  {
    hide OneVersion, Missing, Total, Carries, Receive, WellFormed, Current, FreshCaches;
    CarriesWellFormed(n, live);
    var rest := Without(n, m);
    WithoutCarries(n, live, m);
    MessageInRange(n, m);
    SameFresh(n, rest);
    ReceiveDescends(rest, live, m.0, m.1);
  }

  lemma MessageInRange(n: Network, m: Message)
    requires WellFormed(n) && m in n.messages
    ensures m.0 < |n.caches| == |n.opening|
  {
  }

  lemma OpenedDescends(n: Network, live: set<Announcement>, u: nat)
    requires Carries(n, live) && WellFormed(n) && Enabled(n, Opened(u))
    ensures Closer(live, Apply(n, Opened(u)), n)
  {
    hide Missing, Total, Carries, Sent, Current, FreshCaches, Unexpired;
    var next := WithOpening(n, u, n.opening[u] - 1);
    SameFresh(n, next);
    BroadcastKeepsFresh(next, u);
    TotalUpdate(n.opening, u, n.opening[u] - 1);
  }

  /** Time only takes unexpired announcements away, from the caches no more than from the live ones. */
  lemma {:induction false} TimeTakesAway(caches: seq<Cache>, live: set<Announcement>, now: int, later: int)
    requires now <= later && forall u | 0 <= u < |caches| :: Holds(caches[u], live)
    ensures Missing(|Current(live, later)|, Map(caches, FreshPart(later))) <= Missing(|Current(live, now)|, Map(caches, FreshPart(now)))
  {
    hide Current, Holds, Unexpired;
    if caches != [] {
      var front, last := caches[..|caches| - 1], caches[|caches| - 1];
      assert Map(caches, FreshPart(later))[..|caches| - 1] == Map(front, FreshPart(later));
      assert Map(caches, FreshPart(now))[..|caches| - 1] == Map(front, FreshPart(now));
      TimeTakesAway(front, live, now, later);
      CacheAges(last, live, now, later);
    }
  }

  lemma CacheAges(cache: Cache, live: set<Announcement>, now: int, later: int)
    requires now <= later && Holds(cache, live)
    ensures |Unexpired(cache, now)| - |Unexpired(cache, later)| <= |Current(live, now)| - |Current(live, later)|
  {
    hide Holds, KeyOf, Unexpired, Current;
    var gone, lost := Current(live, now) - Current(live, later), Unexpired(cache, now) - Unexpired(cache, later).Keys;
    LessLater(cache, live, now, later);
    LostAreGone(cache, live, now, later);
    CacheFits(lost, gone);
    assert lost.Keys == Unexpired(cache, now).Keys - Unexpired(cache, later).Keys;
    DifferenceCount(Unexpired(cache, now).Keys, Unexpired(cache, later).Keys);
    DifferenceCount(Current(live, now), Current(live, later));
  }

  lemma LessLater(cache: Cache, live: set<Announcement>, now: int, later: int)
    requires now <= later
    ensures Current(live, later) <= Current(live, now) && Unexpired(cache, later).Keys <= Unexpired(cache, now).Keys
  {
  }

  lemma DifferenceCount<T>(larger: set<T>, smaller: set<T>)
    requires smaller <= larger
    ensures |larger - smaller| == |larger| - |smaller|
  {
    assert larger == smaller + (larger - smaller);
  }

  lemma LostAreGone(cache: Cache, live: set<Announcement>, now: int, later: int)
    requires now <= later && Holds(cache, live)
    ensures Holds(Unexpired(cache, now) - Unexpired(cache, later).Keys, Current(live, now) - Current(live, later))
  {
    hide KeyOf;
  }

  lemma TickDescends(n: Network, live: set<Announcement>, now: int)
    requires Carries(n, live) && n.now < now && OneVersion(Current(live, n.now))
    ensures OneVersion(Current(live, now)) && 0 <= Lacking(n.(now := now), live) <= Lacking(n, live)
  {
    hide Missing, Holds, Unexpired;
    TimeTakesAway(n.caches, live, n.now, now);
    LackingIsNatural(n.(now := now), live);
    assert Current(live, now) <= Current(live, n.now);
  }

  /** An unending run of reactions, while time passes or stands still. */
  ghost predicate Proceeds(run: nat -> Network, steps: nat -> Step) {
    forall i: nat :: WellFormed(run(i)) && (IsReaction(steps(i)) || steps(i).Tick?) && Enabled(run(i), steps(i))
                     && run(i + 1) == Apply(run(i), steps(i))
  }

  /** There is always another reaction to come. */
  ghost predicate ReactsForever(run: nat -> Network, steps: nat -> Step) {
    Proceeds(run, steps) && forall i: nat :: ReactsAfter(steps, i)
  }

  ghost predicate ReactsAfter(steps: nat -> Step, i: nat) {
    exists j: nat :: i <= j && IsReaction(steps(j))
  }

  lemma ReactionKeepsTime(n: Network, step: Step)
    requires WellFormed(n) && Enabled(n, step) && IsReaction(step)
    ensures Apply(n, step).now == n.now
  {
    hide Sent, Remember, Unexpired;
  }

  lemma {:induction false} NoDescentForever(run: nat -> Network, steps: nat -> Step, live: set<Announcement>, i: nat, j: nat)
    requires ReactsForever(run, steps) && Carries(run(i), live) && OneVersion(Current(live, run(i).now))
    requires i <= j && IsReaction(steps(j))
    ensures false
    decreases Lacking(run(i), live), Total(run(i).opening), |run(i).messages|, j - i
  {
    hide OneVersion, Carries, Broadcast, Receive, Lacking, Total, WellFormed, Current;
    StepCarries(run(i), live, steps(i));
    LackingIsNatural(run(i), live);
    LackingIsNatural(run(i + 1), live);
    if IsReaction(steps(i)) {
      ReactionsDescend(run(i), live, steps(i));
      ReactionKeepsTime(run(i), steps(i));
      assert ReactsAfter(steps, i + 1);
      var k: nat :| i + 1 <= k && IsReaction(steps(k));
      NoDescentForever(run, steps, live, i + 1, k);
    } else {
      TickDescends(run(i), live, steps(i).now);
      NoDescentForever(run, steps, live, i + 1, j);
    }
  }

  lemma {:induction false} RunCarries(run: nat -> Network, steps: nat -> Step, live: set<Announcement>, i: nat)
    requires Proceeds(run, steps) && Carries(run(0), live)
    ensures Carries(run(i), live)
  {
    hide Carries, Apply, Enabled, WellFormed;
    if i > 0 {
      RunCarries(run, steps, live, i - 1);
      StepCarries(run(i - 1), live, steps(i - 1));
    }
  }

  /** From the moment that at most one version per key is unexpired, the flood stops, whatever is lost,
      whichever feeds fail to open and however time passes. */
  lemma FloodStops(run: nat -> Network, steps: nat -> Step, live: set<Announcement>, i: nat)
    requires Carries(run(0), live) && OneVersion(Current(live, run(i).now))
    ensures !ReactsForever(run, steps)
  {
    hide OneVersion, Carries, Proceeds;
    if ReactsForever(run, steps) {
      RunCarries(run, steps, live, i);
      assert ReactsAfter(steps, i);
      var j: nat :| i <= j && IsReaction(steps(j));
      NoDescentForever(run, steps, live, i, j);
    }
  }

  /** Every flood stops once the clock has passed every expiry, however many versions there were. */
  lemma FloodEndsByExpiry(run: nat -> Network, steps: nat -> Step, live: set<Announcement>, i: nat)
    requires Carries(run(0), live) && forall a | a in live :: IsExpired(a, run(i).now)
    ensures !ReactsForever(run, steps)
  {
    hide Carries, ReactsForever;
    assert Current(live, run(i).now) == {};
    FloodStops(run, steps, live, i);
  }

  // ---- two versions chase each other ----------------------------------------------------------------------

  /** Two connected runtimes, the first with one version of an announcement and the second with the other,
      each about to receive the version that it does not have. */
  function Crossed(a: Announcement, b: Announcement, feeds: seq<string>, now: int): Network {
    Network(now, feeds, [{1}, {0}], [map[KeyOf(a) := a], map[KeyOf(b) := b]], [0, 0], multiset{(0, b), (1, a)})
  }

  /** The exchange from the first runtime caching `x` and the second `y` to the other way round. */
  function ChaseAt(x: Announcement, y: Announcement, feeds: seq<string>, now: int, phase: nat): Network {
    var k := KeyOf(x);
    if phase == 0 then Network(now, feeds, [{1}, {0}], [map[k := x], map[k := y]], [0, 0], multiset{(0, y), (1, x)})
    else if phase == 1 then Network(now, feeds, [{1}, {0}], [map[k := y], map[k := y]], [1, 0], multiset{(1, x)})
    else if phase == 2 then Network(now, feeds, [{1}, {0}], [map[k := y], map[k := x]], [1, 1], multiset{})
    else Network(now, feeds, [{1}, {0}], [map[k := y], map[k := x]], [0, 1], multiset{(1, y)})
  }

  function ChaseStepAt(x: Announcement, y: Announcement, phase: nat): Step {
    if phase == 0 then Deliver((0, y))
    else if phase == 1 then Deliver((1, x))
    else if phase == 2 then Opened(0)
    else Opened(1)
  }

  /** Two unexpired versions of one announcement, and two runtimes with their own feeds. */
  predicate TwoVersions(x: Announcement, y: Announcement, feeds: seq<string>, now: int) {
    x != y && KeyOf(x) == KeyOf(y) && !IsExpired(x, now) && !IsExpired(y, now) && |feeds| == 2
  }

  lemma FirstDelivers(x: Announcement, y: Announcement, feeds: seq<string>, now: int)
    requires TwoVersions(x, y, feeds, now)
    ensures Enabled(ChaseAt(x, y, feeds, now, 0), Deliver((0, y)))
    ensures Apply(ChaseAt(x, y, feeds, now, 0), Deliver((0, y))) == ChaseAt(x, y, feeds, now, 1)
  {
    hide Remember;
    Replaces(x, y);
    assert multiset{(0, y), (1, x)} - multiset{(0, y)} == multiset{(1, x)};
  }

  lemma SecondDelivers(x: Announcement, y: Announcement, feeds: seq<string>, now: int)
    requires TwoVersions(x, y, feeds, now)
    ensures Enabled(ChaseAt(x, y, feeds, now, 1), Deliver((1, x)))
    ensures Apply(ChaseAt(x, y, feeds, now, 1), Deliver((1, x))) == ChaseAt(x, y, feeds, now, 2)
  {
    hide Remember;
    Replaces(y, x);
    assert multiset{(1, x)} - multiset{(1, x)} == multiset{};
  }

  lemma Replaces(x: Announcement, y: Announcement)
    requires x != y && KeyOf(x) == KeyOf(y)
    ensures Remember(map[KeyOf(x) := x], y) == map[KeyOf(x) := y] != map[KeyOf(x) := x]
  {
    var k := KeyOf(x);
    assert map[k := x][k] == x && map[k := y][k] == y;
    assert map[k := x][k := y] == map[k := y];
  }

  lemma StaysFresh(k: FeedKey, a: Announcement, now: int)
    requires !IsExpired(a, now)
    ensures Unexpired(map[k := a], now) == map[k := a] && Unexpired(map[], now) == map[]
  {
  }

  lemma SentOnce(v: nat, k: FeedKey, a: Announcement)
    ensures Sent({v}, map[k := a]) == {(v, a)}
  {
    assert v in {v} && k in map[k := a] && map[k := a][k] == a;
    assert (v, a) in Sent({v}, map[k := a]);
  }

  lemma FirstRelays(x: Announcement, y: Announcement, feeds: seq<string>, now: int)
    requires TwoVersions(x, y, feeds, now)
    ensures Enabled(ChaseAt(x, y, feeds, now, 2), Opened(0))
    ensures Apply(ChaseAt(x, y, feeds, now, 2), Opened(0)) == ChaseAt(x, y, feeds, now, 3)
  {
    hide Sent, Unexpired;
    StaysFresh(KeyOf(x), y, now);
    SentOnce(1, KeyOf(x), y);
    assert multiset{} + multiset({(1, y)}) == multiset{(1, y)};
  }

  lemma SecondRelays(x: Announcement, y: Announcement, feeds: seq<string>, now: int)
    requires TwoVersions(x, y, feeds, now)
    ensures Enabled(ChaseAt(x, y, feeds, now, 3), Opened(1))
    ensures Apply(ChaseAt(x, y, feeds, now, 3), Opened(1)) == ChaseAt(y, x, feeds, now, 0)
  {
    hide Sent, Unexpired;
    StaysFresh(KeyOf(x), x, now);
    SentOnce(0, KeyOf(x), x);
    assert multiset{(1, y)} + multiset({(0, x)}) == multiset{(0, x), (1, y)};
  }

  /** How far the exchange has come after so many steps: the phase, and whether the caches are swapped. */
  function Turn(i: nat): (r: (nat, bool))
    ensures r.0 < 4
  {
    if i == 0 then (0, false)
    else
      var (phase, swapped) := Turn(i - 1);
      if phase == 3 then (0, !swapped) else (phase + 1, swapped)
  }

  function Chase(a: Announcement, b: Announcement, feeds: seq<string>, now: int): nat -> Network {
    (i: nat) => if Turn(i).1 then ChaseAt(b, a, feeds, now, Turn(i).0) else ChaseAt(a, b, feeds, now, Turn(i).0)
  }

  function ChaseSteps(a: Announcement, b: Announcement): nat -> Step {
    (i: nat) => if Turn(i).1 then ChaseStepAt(b, a, Turn(i).0) else ChaseStepAt(a, b, Turn(i).0)
  }

  lemma ChaseGoesOn(a: Announcement, b: Announcement, feeds: seq<string>, now: int, i: nat)
    requires TwoVersions(a, b, feeds, now)
    ensures var n, step := Chase(a, b, feeds, now)(i), ChaseSteps(a, b)(i);
            WellFormed(n) && IsReaction(step) && Enabled(n, step) && Apply(n, step) == Chase(a, b, feeds, now)(i + 1)
  {
    hide Apply, Enabled, WellFormed, ChaseAt, ChaseStepAt;
    assert Turn(i + 1) == if Turn(i).0 == 3 then (0, !Turn(i).1) else (Turn(i).0 + 1, Turn(i).1);
    if Turn(i).1 { ChaseTurn(b, a, feeds, now, Turn(i).0); } else { ChaseTurn(a, b, feeds, now, Turn(i).0); }
  }

  lemma ChaseTurn(x: Announcement, y: Announcement, feeds: seq<string>, now: int, phase: nat)
    requires TwoVersions(x, y, feeds, now) && phase < 4
    ensures var n, step := ChaseAt(x, y, feeds, now, phase), ChaseStepAt(x, y, phase);
            && WellFormed(n) && IsReaction(step) && Enabled(n, step)
            && Apply(n, step) == if phase == 3 then ChaseAt(y, x, feeds, now, 0) else ChaseAt(x, y, feeds, now, phase + 1)
  {
    hide Apply, Enabled;
    if phase == 0 { FirstDelivers(x, y, feeds, now); }
    else if phase == 1 { SecondDelivers(x, y, feeds, now); }
    else if phase == 2 { FirstRelays(x, y, feeds, now); }
    else { SecondRelays(x, y, feeds, now); }
  }

  /** While neither expires, two versions for one key are exchanged without end between two runtimes. */
  lemma TwoVersionsReactForever(a: Announcement, b: Announcement, feeds: seq<string>, now: int)
    requires TwoVersions(a, b, feeds, now)
    ensures var run := Chase(a, b, feeds, now);
            run(0) == Crossed(a, b, feeds, now) && Carries(run(0), {a, b}) && ReactsForever(run, ChaseSteps(a, b))
  {
    hide Apply, Enabled, Chase, ChaseSteps, WellFormed;
    ChaseStarts(a, b, feeds, now);
    var run, steps := Chase(a, b, feeds, now), ChaseSteps(a, b);
    forall i: nat
      ensures WellFormed(run(i)) && IsReaction(steps(i)) && Enabled(run(i), steps(i))
              && run(i + 1) == Apply(run(i), steps(i))
    {
      ChaseGoesOn(a, b, feeds, now, i);
    }
    forall i: nat
      ensures ReactsAfter(steps, i)
    {
      assert i <= i && IsReaction(steps(i));
    }
  }

  lemma ChaseStarts(a: Announcement, b: Announcement, feeds: seq<string>, now: int)
    requires TwoVersions(a, b, feeds, now)
    ensures Chase(a, b, feeds, now)(0) == Crossed(a, b, feeds, now) && Carries(Crossed(a, b, feeds, now), {a, b})
  {
  }

  /** At any instant, networks that carry these announcements come to rest exactly when at most one version
      per key is unexpired. */
  lemma FloodStopsIffOneVersion(live: set<Announcement>, now: int)
    ensures OneVersion(Current(live, now)) <==>
              forall run: nat -> Network, steps: nat -> Step | run(0).now == now && Carries(run(0), live) :: !ReactsForever(run, steps)
  {
    hide Carries, Chase, ChaseSteps, ReactsForever;
    if OneVersion(Current(live, now)) {
      forall run: nat -> Network, steps: nat -> Step | run(0).now == now && Carries(run(0), live)
        ensures !ReactsForever(run, steps)
      {
        FloodStops(run, steps, live, 0);
      }
    } else {
      var a, b :| a in Current(live, now) && b in Current(live, now) && KeyOf(a) == KeyOf(b) && a != b;
      TwoVersionsReactForever(a, b, ["", ""], now);
      var run, steps := Chase(a, b, ["", ""], now), ChaseSteps(a, b);
      CarriesMore(run(0), {a, b}, live);
      assert ReactsForever(run, steps);
    }
  }

  lemma CarriesMore(n: Network, few: set<Announcement>, many: set<Announcement>)
    requires Carries(n, few) && few <= many
    ensures Carries(n, many)
  {
  }

  // ---- runs from the start ---------------------------------------------------------------------------------

  predicate Runs(n: Network, steps: seq<Step>)
    decreases |steps|
  {
    steps == [] || (WellFormed(n) && Enabled(n, steps[0]) && Runs(Apply(n, steps[0]), steps[1..]))
  }

  function After(n: Network, steps: seq<Step>): Network
    requires Runs(n, steps)
    decreases |steps|
  {
    if steps == [] then n else After(Apply(n, steps[0]), steps[1..])
  }

  /** Runtimes that know and send nothing yet. */
  function Silent(feeds: seq<string>, now: int): Network {
    Network(now, feeds, seq(|feeds|, _ => {}), seq(|feeds|, _ => map[]), seq(|feeds|, _ => 0), multiset{})
  }

  /** Two runtimes connect, the first announces its feed, the second relays it, and the first announces it again
      while the relayed announcement is on its way back. */
  function Refresh(a: Announcement, b: Announcement, later: int): seq<Step> {
    [Connect(0, 1), Connect(1, 0), Publish(0, a), Deliver((1, a)), Opened(1), Tick(later), Publish(0, b)]
  }

  /** Where the refresh has come before each of its steps. */
  function RefreshAt(a: Announcement, feeds: seq<string>, now: int, phase: nat): Network {
    var k := KeyOf(a);
    if phase == 0 then Network(now, feeds, [{}, {}], [map[], map[]], [0, 0], multiset{})
    else if phase == 1 then Network(now, feeds, [{1}, {}], [map[], map[]], [0, 0], multiset{})
    else if phase == 2 then Network(now, feeds, [{1}, {0}], [map[], map[]], [0, 0], multiset{})
    else if phase == 3 then Network(now, feeds, [{1}, {0}], [map[k := a], map[]], [0, 0], multiset{(1, a)})
    else if phase == 4 then Network(now, feeds, [{1}, {0}], [map[k := a], map[k := a]], [0, 1], multiset{})
    else Network(now, feeds, [{1}, {0}], [map[k := a], map[k := a]], [0, 0], multiset{(0, a)})
  }

  lemma Connects(a: Announcement, feeds: seq<string>, now: int)
    requires |feeds| == 2
    ensures Enabled(RefreshAt(a, feeds, now, 0), Connect(0, 1))
    ensures Apply(RefreshAt(a, feeds, now, 0), Connect(0, 1)) == RefreshAt(a, feeds, now, 1)
    ensures Enabled(RefreshAt(a, feeds, now, 1), Connect(1, 0))
    ensures Apply(RefreshAt(a, feeds, now, 1), Connect(1, 0)) == RefreshAt(a, feeds, now, 2)
  {
    assert Unexpired(map[], now) == map[];
    assert Sent({1}, map[]) == {} && Sent({0}, map[]) == {};
    var nothing: multiset<Message> := multiset{};
    assert nothing + multiset(Sent({1}, map[])) == nothing == nothing + multiset(Sent({0}, map[]));
    var nobody: set<nat> := {};
    assert nobody + {1} == {1} && nobody + {0} == {0};
  }

  lemma FirstAnnounces(a: Announcement, feeds: seq<string>, now: int)
    requires |feeds| == 2 && a.feedPublicKey == feeds[0] && !IsExpired(a, now)
    ensures Enabled(RefreshAt(a, feeds, now, 2), Publish(0, a))
    ensures Apply(RefreshAt(a, feeds, now, 2), Publish(0, a)) == RefreshAt(a, feeds, now, 3)
  {
    hide Sent, Unexpired;
    StaysFresh(KeyOf(a), a, now);
    SentOnce(1, KeyOf(a), a);
    assert Remember(map[], a) == map[KeyOf(a) := a];
    assert multiset{} + multiset({(1, a)}) == multiset{(1, a)};
  }

  lemma SecondReceives(a: Announcement, feeds: seq<string>, now: int)
    requires |feeds| == 2 && !IsExpired(a, now)
    ensures Enabled(RefreshAt(a, feeds, now, 3), Deliver((1, a)))
    ensures Apply(RefreshAt(a, feeds, now, 3), Deliver((1, a))) == RefreshAt(a, feeds, now, 4)
  {
    assert Remember(map[], a) == map[KeyOf(a) := a] && map[KeyOf(a) := a][KeyOf(a)] == a;
    assert multiset{(1, a)} - multiset{(1, a)} == multiset{};
  }

  lemma SecondRelaysBack(a: Announcement, feeds: seq<string>, now: int)
    requires |feeds| == 2 && !IsExpired(a, now)
    ensures Enabled(RefreshAt(a, feeds, now, 4), Opened(1))
    ensures Apply(RefreshAt(a, feeds, now, 4), Opened(1)) == RefreshAt(a, feeds, now, 5)
  {
    hide Sent, Unexpired;
    StaysFresh(KeyOf(a), a, now);
    SentOnce(0, KeyOf(a), a);
    assert multiset{} + multiset({(0, a)}) == multiset{(0, a)};
  }

  lemma FirstAnnouncesAgain(a: Announcement, b: Announcement, feeds: seq<string>, later: int)
    requires TwoVersions(a, b, feeds, later) && a.feedPublicKey == feeds[0]
    ensures Enabled(RefreshAt(a, feeds, later, 5), Publish(0, b))
    ensures Apply(RefreshAt(a, feeds, later, 5), Publish(0, b)) == Crossed(b, a, feeds, later)
  {
    hide Sent, Unexpired, Remember;
    Replaces(a, b);
    StaysFresh(KeyOf(a), b, later);
    SentOnce(1, KeyOf(a), b);
    assert multiset{(0, a)} + multiset({(1, b)}) == multiset{(0, a), (1, b)};
  }

  lemma OneMoreStep(n: Network, step: Step, steps: seq<Step>)
    requires steps != [] && steps[0] == step && WellFormed(n) && Enabled(n, step) && Runs(Apply(n, step), steps[1..])
    ensures Runs(n, steps) && After(n, steps) == After(Apply(n, step), steps[1..])
  {
  }

  lemma LastStep(n: Network, step: Step)
    requires WellFormed(n) && Enabled(n, step)
    ensures Runs(n, [step]) && After(n, [step]) == Apply(n, step)
  {
    assert [step][1..] == [];
  }

  /** A member that announces its feed a second time can start the chase. */
  lemma RefreshCrosses(a: Announcement, b: Announcement, feeds: seq<string>, now: int, later: int)
    requires TwoVersions(a, b, feeds, later) && now < later && feeds[0] == a.feedPublicKey
    ensures Runs(Silent(feeds, now), Refresh(a, b, later))
    ensures After(Silent(feeds, now), Refresh(a, b, later)) == Crossed(b, a, feeds, later)
  {
    hide Apply, Enabled, After, Runs;
    var steps := Refresh(a, b, later);
    assert Silent(feeds, now) == RefreshAt(a, feeds, now, 0);
    Connects(a, feeds, now);
    FirstAnnounces(a, feeds, now);
    SecondReceives(a, feeds, now);
    SecondRelaysBack(a, feeds, now);
    TimePasses(a, feeds, now, later);
    FirstAnnouncesAgain(a, b, feeds, later);
    LastStep(RefreshAt(a, feeds, later, 5), Publish(0, b));
    assert steps[6..] == [Publish(0, b)];
    OneMoreStep(RefreshAt(a, feeds, now, 5), Tick(later), steps[5..]);
    OneMoreStep(RefreshAt(a, feeds, now, 4), Opened(1), steps[4..]);
    OneMoreStep(RefreshAt(a, feeds, now, 3), Deliver((1, a)), steps[3..]);
    OneMoreStep(RefreshAt(a, feeds, now, 2), Publish(0, a), steps[2..]);
    OneMoreStep(RefreshAt(a, feeds, now, 1), Connect(1, 0), steps[1..]);
    OneMoreStep(RefreshAt(a, feeds, now, 0), Connect(0, 1), steps);
  }

  lemma TimePasses(a: Announcement, feeds: seq<string>, now: int, later: int)
    requires |feeds| == 2 && now < later
    ensures Enabled(RefreshAt(a, feeds, now, 5), Tick(later))
    ensures Apply(RefreshAt(a, feeds, now, 5), Tick(later)) == RefreshAt(a, feeds, later, 5)
  {
  }

  // ---- the flood spreads ------------------------------------------------------------------------------------

  /** What one runtime has cached and has not expired, its neighbours have, are being sent, or will be sent when
      a feed opens. */
  ghost predicate Offered(n: Network, u: nat, v: nat, k: FeedKey)
    requires WellFormed(n) && u < |n.caches| && v in n.neighbours[u] && k in n.caches[u]
  {
    k in n.caches[v] || n.opening[u] > 0 || (v, n.caches[u][k]) in n.messages
  }

  ghost predicate Spreading(n: Network)
    requires WellFormed(n)
  {
    forall u, v, k | 0 <= u < |n.caches| && v in n.neighbours[u] && k in n.caches[u] && !IsExpired(n.caches[u][k], n.now) ::
      Offered(n, u, v, k)
  }

  /** With one live version per key, two caches agree on the keys that they share. */
  lemma SameEntry(live: set<Announcement>, cache: Cache, other: Cache, k: FeedKey)
    requires OneVersion(live) && Holds(cache, live) && Holds(other, live) && k in cache && k in other
    ensures cache[k] == other[k]
  {
  }

  /** Caches with room remember every live announcement that reaches them. */
  lemma RoomToRemember(cache: Cache, live: set<Announcement>, a: Announcement)
    requires OneVersion(live) && |live| <= MAX_DISCOVERED_MEMBER_FEEDS && a in live && Holds(cache, live)
    ensures Remember(cache, a) == cache[KeyOf(a) := a]
    ensures forall k | k in cache :: Remember(cache, a)[k] == cache[k]
  {
    hide OneVersion;
    var key := KeyOf(a);
    LiveKey(cache, live, a);
    if key !in cache {
      assert cache[key := a].Keys == cache.Keys + {key};
      CacheFits(cache[key := a], live);
    }
  }

  lemma LiveKey(cache: Cache, live: set<Announcement>, a: Announcement)
    requires OneVersion(live) && a in live && Holds(cache, live)
    ensures KeyOf(a) in cache ==> cache[KeyOf(a)] == a && cache[KeyOf(a) := a] == cache
  {
  }

  lemma ReceiveKeepsSpreading(n: Network, live: set<Announcement>, m: Message)
    requires Carries(n, live) && OneVersion(live) && |live| <= MAX_DISCOVERED_MEMBER_FEEDS
    requires Spreading(n) && m in n.messages
    ensures Spreading(Apply(n, Deliver(m)))
  {
    hide OneVersion, Remember, Holds;
    CarriesWellFormed(n, live);
    var r := Apply(n, Deliver(m));
    RoomToRemember(n.caches[m.0], live, m.1);
    forall u, v, k | 0 <= u < |r.caches| && v in r.neighbours[u] && k in r.caches[u] && !IsExpired(r.caches[u][k], r.now)
      ensures Offered(r, u, v, k)
    {
      if k in n.caches[u] {
        assert Offered(n, u, v, k);
        assert r.caches[u][k] == n.caches[u][k];
        KeyedEntry(n.caches[u], live, k);
      }
    }
  }

  lemma KeyedEntry(cache: Cache, live: set<Announcement>, k: FeedKey)
    requires Holds(cache, live) && k in cache
    ensures KeyOf(cache[k]) == k && cache[k] in live
  {
  }

  /** Dropping what has expired and sending the rest offers everything unexpired. */
  lemma BroadcastKeepsSpreading(n: Network, live: set<Announcement>, w: nat)
    requires Carries(n, live) && OneVersion(live) && w < |n.caches|
    requires forall u, v, k | 0 <= u < |n.caches| && u != w && v in n.neighbours[u] && k in n.caches[u]
                              && !IsExpired(n.caches[u][k], n.now) :: Offered(n, u, v, k)
    ensures Spreading(Broadcast(n, w))
  {
    hide OneVersion, Holds, Sent;
    CarriesWellFormed(n, live);
    var r := Broadcast(n, w);
    forall u, v, k | 0 <= u < |r.caches| && v in r.neighbours[u] && k in r.caches[u] && !IsExpired(r.caches[u][k], r.now)
      ensures Offered(r, u, v, k)
    {
      if u == w {
        SentTo(r.neighbours[w], r.caches[w], v, k);
      } else {
        assert Offered(n, u, v, k);
        if k in n.caches[v] { SameEntry(live, n.caches[u], n.caches[v], k); }
      }
    }
  }

  lemma SentTo(neighbours: set<nat>, cache: Cache, v: nat, k: FeedKey)
    requires v in neighbours && k in cache
    ensures (v, cache[k]) in Sent(neighbours, cache)
  {
  }

  lemma StepKeepsSpreading(n: Network, live: set<Announcement>, step: Step)
    requires Carries(n, live) && OneVersion(live) && |live| <= MAX_DISCOVERED_MEMBER_FEEDS
    requires Spreading(n) && Enabled(n, step) && !step.OpenFailed? && !step.Lose? && (step.Publish? ==> step.announcement in live)
    ensures Spreading(Apply(n, step))
  {
    hide OneVersion, Broadcast, Remember, Receive, Carries, Holds;
    CarriesWellFormed(n, live);
    match step {
      case Deliver(m) => ReceiveKeepsSpreading(n, live, m);
      case Publish(w, a) =>
        RoomToRemember(n.caches[w], live, a);
        WithCacheCarries(n, live, w, a);
        var next := WithCache(n, w, Remember(n.caches[w], a));
        forall u, v, k | 0 <= u < |n.caches| && u != w && v in next.neighbours[u] && k in next.caches[u]
                         && !IsExpired(next.caches[u][k], n.now)
          ensures Offered(next, u, v, k)
        {
          assert Offered(n, u, v, k);
        }
        BroadcastKeepsSpreading(next, live, w);
      case Connect(w, peer) =>
        var next := WithNeighbour(n, w, peer);
        SameContentCarries(n, live, next);
        forall u, v, k | 0 <= u < |n.caches| && u != w && v in next.neighbours[u] && k in next.caches[u]
                         && !IsExpired(next.caches[u][k], n.now)
          ensures Offered(next, u, v, k)
        {
          assert Offered(n, u, v, k);
        }
        BroadcastKeepsSpreading(next, live, w);
      case Opened(w) =>
        var next := WithOpening(n, w, n.opening[w] - 1);
        SameContentCarries(n, live, next);
        forall u, v, k | 0 <= u < |n.caches| && u != w && v in next.neighbours[u] && k in next.caches[u]
                         && !IsExpired(next.caches[u][k], n.now)
          ensures Offered(next, u, v, k)
        {
          assert Offered(n, u, v, k);
        }
        BroadcastKeepsSpreading(next, live, w);
      case Tick(now) => TickKeepsSpreading(n, now);
    }
  }

  lemma TickKeepsSpreading(n: Network, now: int)
    requires WellFormed(n) && Spreading(n) && n.now < now
    ensures Spreading(n.(now := now))
  {
    var r := n.(now := now);
    forall u, v, k | 0 <= u < |r.caches| && v in r.neighbours[u] && k in r.caches[u] && !IsExpired(r.caches[u][k], r.now)
      ensures Offered(r, u, v, k)
    {
      assert Offered(n, u, v, k);
    }
  }

  /** Nothing is lost, every feed opens, and only live announcements are published. */
  predicate Reliable(steps: seq<Step>, live: set<Announcement>) {
    forall i | 0 <= i < |steps| ::
      !steps[i].OpenFailed? && !steps[i].Lose? && (steps[i].Publish? ==> steps[i].announcement in live)
  }

  lemma {:induction false} RunKeepsSpreading(n: Network, live: set<Announcement>, steps: seq<Step>)
    requires Carries(n, live) && OneVersion(live) && |live| <= MAX_DISCOVERED_MEMBER_FEEDS
    requires Spreading(n) && Runs(n, steps) && Reliable(steps, live)
    ensures Carries(After(n, steps), live) && Spreading(After(n, steps))
    decreases |steps|
  {
    hide OneVersion, Carries, Spreading, Apply, Enabled;
    if steps != [] {
      CarriesWellFormed(n, live);
      StepCarries(n, live, steps[0]);
      StepKeepsSpreading(n, live, steps[0]);
      RunKeepsSpreading(Apply(n, steps[0]), live, steps[1..]);
    }
  }

  /** A chain of connections. */
  predicate IsPath(n: Network, path: seq<nat>)
    requires WellFormed(n)
  {
    path != [] && (forall i | 0 <= i < |path| :: path[i] < |n.caches|)
    && forall i | 0 < i < |path| :: path[i] in n.neighbours[path[i - 1]]
  }

  predicate AtRest(n: Network) {
    n.messages == multiset{} && forall u | 0 <= u < |n.opening| :: n.opening[u] == 0
  }

  lemma {:induction false} RestFollowsPath(n: Network, live: set<Announcement>, path: seq<nat>, k: FeedKey)
    requires Carries(n, live) && OneVersion(live) && Spreading(n) && AtRest(n) && IsPath(n, path)
    requires k in n.caches[path[0]] && !IsExpired(n.caches[path[0]][k], n.now)
    ensures k in n.caches[path[|path| - 1]] && n.caches[path[|path| - 1]][k] == n.caches[path[0]][k]
    decreases |path|
  {
    hide OneVersion, Holds;
    if |path| > 1 {
      CarriesWellFormed(n, live);
      assert path[1] in n.neighbours[path[0]];
      assert Offered(n, path[0], path[1], k);
      SameEntry(live, n.caches[path[0]], n.caches[path[1]], k);
      assert forall i | 0 < i < |path[1..]| :: path[1..][i] == path[i + 1] && path[1..][i - 1] == path[i];
      RestFollowsPath(n, live, path[1..], k);
    }
  }

  /** With one live version per key, room in the caches, feeds that open and connections that deliver, a
      network at rest has spread every unexpired announcement along every chain of connections. */
  lemma FloodSpreads(feeds: seq<string>, start: int, live: set<Announcement>, steps: seq<Step>, path: seq<nat>, k: FeedKey)
    requires OneVersion(live) && |live| <= MAX_DISCOVERED_MEMBER_FEEDS
    requires Runs(Silent(feeds, start), steps) && Reliable(steps, live)
    requires var n := After(Silent(feeds, start), steps);
             && WellFormed(n) && AtRest(n) && IsPath(n, path)
             && k in n.caches[path[0]] && !IsExpired(n.caches[path[0]][k], n.now)
    ensures var n := After(Silent(feeds, start), steps);
            && path[|path| - 1] < |n.caches| && k in n.caches[path[|path| - 1]]
            && n.caches[path[|path| - 1]][k] == n.caches[path[0]][k]
  {
    hide OneVersion, Runs, After;
    RunKeepsSpreading(Silent(feeds, start), live, steps);
    RestFollowsPath(After(Silent(feeds, start), steps), live, path, k);
  }
}

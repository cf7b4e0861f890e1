/** Signing keys in the plain terms of the events that establish them: when a history reduces, and every field of
    every authorization that it gives. */
module IdentitySpec {
  import opened Core
  import opened Sorting
  import opened Reduction
  import opened Types
  import opened Identity
  import opened IdentityTheorems

  // ---- single events ----------------------------------------------------------------------------

  ghost predicate SoundEvent(p: Platform, e: KeyEvent) {
    && Present(e.eventId) && Present(e.communityId) && Present(e.memberId) && Present(e.keyId)
    && Present(e.occurredAt) && p.isTimestamp(e.occurredAt)
    && (e.action.Activate? ==> Present(e.action.publicKeyPem) && p.isPublicKey(e.action.publicKeyPem))
  }

  ghost predicate SoundStatement(p: Platform, s: RootStatement) {
    && SoundEvent(p, s.event) && Present(s.rootPublicKeyPem) && p.isPublicKey(s.rootPublicKeyPem)
    && s.event.memberId == "phm_" + p.memberHash(p.fingerprint(s.rootPublicKeyPem))
    && p.verifies(StatementContent(s.event, s.rootPublicKeyPem), s.rootPublicKeyPem, s.signature)
  }

  /** The two events are about one key of one member in one community. */
  ghost predicate SameKey(e: KeyEvent, f: KeyEvent) {
    e.communityId == f.communityId && e.memberId == f.memberId && e.keyId == f.keyId
  }

  /** Earlier in time or, at one time, by event id. */
  ghost predicate Earlier(less: (string, string) -> bool, e: KeyEvent, f: KeyEvent) {
    less(e.occurredAt, f.occurredAt) || (!less(f.occurredAt, e.occurredAt) && less(e.eventId, f.eventId))
  }

  /** No later event is about the same key. */
  ghost predicate IsLast(less: (string, string) -> bool, events: seq<KeyEvent>, e: KeyEvent) {
    e in events && forall f | f in events && SameKey(e, f) :: f == e || Earlier(less, f, e)
  }

  /** No later activation is of the same key. */
  ghost predicate IsLastActivation(less: (string, string) -> bool, events: seq<KeyEvent>, e: KeyEvent) {
    && e in events && e.action.Activate?
    && forall f | f in events && SameKey(e, f) && f.action.Activate? :: f == e || Earlier(less, f, e)
  }

  /** The authorization follows from the last activation of its key and from the key's last event. */
  ghost predicate Follows(less: (string, string) -> bool, events: seq<KeyEvent>, a: Authorization) {
    exists e, l :: IsLastActivation(less, events, e) && IsLast(less, events, l) && SameKey(e, l)
                   && a == Authorization(e.communityId, e.memberId, e.keyId, e.action.publicKeyPem, l.action.Activate?)
  }

  // ---- when a history reduces ---------------------------------------------------------------------

  /** Every event is sound, and an event id names one event. */
  ghost predicate SoundOnce(p: Platform, events: seq<KeyEvent>) {
    && (forall e | e in events :: SoundEvent(p, e))
    && (forall e, f | e in events && f in events && e.eventId == f.eventId :: e == f)
  }

  /** No key id is activated with two different keys. */
  ghost predicate OneKeyPerId(p: Platform, events: seq<KeyEvent>) {
    forall e, f | e in events && f in events && e.action.Activate? && f.action.Activate? && SameKey(e, f) ::
      p.fingerprint(e.action.publicKeyPem) == p.fingerprint(f.action.publicKeyPem)
  }

  lemma NormalEvent(p: Platform, e: KeyEvent)
    ensures NormalizeEvent(p)(e) == if SoundEvent(p, e) then Ok(e) else Error
  {
  }

  lemma CoherentEvents(p: Platform, events: seq<KeyEvent>)
    ensures Coherent(events, NormalizeEvent(p), EventId) <==> SoundOnce(p, events)
  {
    hide Present, SoundEvent, ValidEvent;
    forall e ensures NormalizeEvent(p)(e) == if SoundEvent(p, e) then Ok(e) else Error { NormalEvent(p, e); }
  }

  lemma NotReassignedIff(p: Platform, deduped: seq<KeyEvent>, events: seq<KeyEvent>)
    requires forall e :: e in deduped <==> e in events
    ensures KeysNotReassigned(p, deduped) <==> OneKeyPerId(p, events)
  {
    forall e, f ensures SameKey(e, f) <==> ScopeOfEvent(e) == ScopeOfEvent(f) { }
  }

  /** A history of key events reduces exactly when its events are sound, one event has one content, and no key id is
      activated with two different keys. */
  lemma KeysReduceIff(p: Platform, less: (string, string) -> bool, events: seq<KeyEvent>)
    ensures ReducedKeys(p, less, events).Ok? <==> SoundOnce(p, events) && OneKeyPerId(p, events)
  {
    hide NormalizeEvent, Sort, Dedupe, KeysNotReassigned, Coherent, SoundOnce, OneKeyPerId, HoldsDecoded, KeysDistinct, Map,
         ApplyEvents, EventOrder, StateOrder;
    CoherentEvents(p, events);
    DedupeSpec(events, NormalizeEvent(p), EventId);
    if Dedupe(events, NormalizeEvent(p), EventId).Ok? {
      AcceptedEvents(p, events);
      NotReassignedIff(p, Dedupe(events, NormalizeEvent(p), EventId).value, events);
    }
  }

  // ---- what it gives --------------------------------------------------------------------------------

  ghost predicate LastAt(ordered: seq<KeyEvent>, i: int, scope: Scope) {
    && 0 <= i < |ordered| && ScopeOfEvent(ordered[i]) == scope
    && forall j | i < j < |ordered| :: ScopeOfEvent(ordered[j]) != scope
  }

  ghost predicate LastActivationAt(ordered: seq<KeyEvent>, i: int, scope: Scope) {
    && 0 <= i < |ordered| && ScopeOfEvent(ordered[i]) == scope && ordered[i].action.Activate?
    && forall j | i < j < |ordered| :: ScopeOfEvent(ordered[j]) == scope ==> ordered[j].action.Revoke?
  }

  ghost function StateFrom(scope: Scope, activation: KeyEvent, last: KeyEvent): KeyState
    requires activation.action.Activate?
  {
    KeyState(scope, Authorization(scope.communityId, scope.memberId, scope.keyId, activation.action.publicKeyPem, last.action.Activate?),
             last.occurredAt, last.eventId)
  }

  ghost predicate StateHolds(ordered: seq<KeyEvent>, state: Option<KeyState>, scope: Scope) {
    match state
    case None => forall e | e in ordered && ScopeOfEvent(e) == scope :: e.action.Revoke?
    case Some(s) =>
      exists i, j :: LastActivationAt(ordered, i, scope) && LastAt(ordered, j, scope) && s == StateFrom(scope, ordered[i], ordered[j])
  }

  /** Applying events in order keeps, for each key, the public key of its last activation, and what its last event says. */
  lemma {:induction false} StatesFollow(ordered: seq<KeyEvent>, scope: Scope)
    ensures StateHolds(ordered, Lookup(ApplyEvents(ordered), StateScope, scope), scope)
  {
    if ordered != [] {
      var front, e := ordered[..|ordered| - 1], ordered[|ordered| - 1];
      FrontLast(ordered);
      StatesFollow(front, scope);
      ApplyEventsSpec(front, scope);
      StateStep(front, e, scope);
    }
  }

  lemma StateStep(front: seq<KeyEvent>, e: KeyEvent, scope: Scope)
    requires StateHolds(front, Lookup(ApplyEvents(front), StateScope, scope), scope)
    ensures StateHolds(front + [e], Lookup(ApplyEvent(ApplyEvents(front), e), StateScope, scope), scope)
  {
    hide StateHolds, ApplyEvents, Put, Lookup;
    var states := ApplyEvents(front);
    var was := Lookup(states, StateScope, scope);
    match e.action {
      case Activate(pem) =>
        var s := KeyState(ScopeOfEvent(e), Authorization(e.communityId, e.memberId, e.keyId, pem, true), e.occurredAt, e.eventId);
        LookupAfterPut(states, s, scope);
        if ScopeOfEvent(e) == scope { ActivationHolds(front, e, scope, s); } else { OtherKeyHolds(front, e, was, scope); }
      case Revoke =>
        var current := Lookup(states, StateScope, ScopeOfEvent(e));
        if current.Some? {
          LookupAfterPut(states, KeyState(ScopeOfEvent(e), current.value.authorization.(active := false), e.occurredAt, e.eventId), scope);
        }
        if ScopeOfEvent(e) == scope { RevocationHolds(front, e, was, scope); } else { OtherKeyHolds(front, e, was, scope); }
    }
  }

  lemma OtherKeyHolds(front: seq<KeyEvent>, e: KeyEvent, was: Option<KeyState>, scope: Scope)
    requires StateHolds(front, was, scope) && ScopeOfEvent(e) != scope
    ensures StateHolds(front + [e], was, scope)
  {
    var all := front + [e];
    assert all[|front|] == e && forall i | 0 <= i < |front| :: all[i] == front[i];
    if was.Some? {
      var i, j :| LastActivationAt(front, i, scope) && LastAt(front, j, scope) && was.value == StateFrom(scope, front[i], front[j]);
      assert LastActivationAt(all, i, scope) && LastAt(all, j, scope);
    }
  }

  lemma ActivationHolds(front: seq<KeyEvent>, e: KeyEvent, scope: Scope, s: KeyState)
    requires ScopeOfEvent(e) == scope && e.action.Activate?
    requires s == KeyState(scope, Authorization(e.communityId, e.memberId, e.keyId, e.action.publicKeyPem, true), e.occurredAt, e.eventId)
    ensures StateHolds(front + [e], Some(s), scope)
  {
    var all := front + [e];
    assert all[|front|] == e;
    assert LastActivationAt(all, |front|, scope) && LastAt(all, |front|, scope);
  }

  lemma RevocationHolds(front: seq<KeyEvent>, e: KeyEvent, was: Option<KeyState>, scope: Scope)
    requires StateHolds(front, was, scope) && ScopeOfEvent(e) == scope && e.action.Revoke?
    ensures StateHolds(front + [e],
                       if was.None? then None
                       else Some(KeyState(scope, was.value.authorization.(active := false), e.occurredAt, e.eventId)), scope)
  {
    var all := front + [e];
    assert all[|front|] == e && forall i | 0 <= i < |front| :: all[i] == front[i];
    if was.Some? {
      var i, j :| LastActivationAt(front, i, scope) && LastAt(front, j, scope) && was.value == StateFrom(scope, front[i], front[j]);
      assert LastActivationAt(all, i, scope) && LastAt(all, |front|, scope);
    }
  }


  /** In the reducer's order, positions are times: the last position of a key holds its last event. */
  ghost predicate Chronicle(less: (string, string) -> bool, events: seq<KeyEvent>, ordered: seq<KeyEvent>) {
    && (forall e :: e in ordered <==> e in events)
    && (forall i, j | 0 <= i < j < |ordered| :: Earlier(less, ordered[i], ordered[j]))
  }

  lemma EarlierIsStrict(less: (string, string) -> bool, e: KeyEvent, f: KeyEvent)
    requires StrictTotalOrder(less)
    ensures !(Earlier(less, e, f) && Earlier(less, f, e)) && !Earlier(less, e, e)
  {
  }

  lemma OrderedEvents(p: Platform, less: (string, string) -> bool, events: seq<KeyEvent>)
    requires StrictTotalOrder(less) && Dedupe(events, NormalizeEvent(p), EventId).Ok?
    ensures Chronicle(less, events, Sort(EventOrder(less), Dedupe(events, NormalizeEvent(p), EventId).value))
  {
    hide StrictTotalOrder, TotalOn, NormalizeEvent, Dedupe, HoldsDecoded, Sort, Coherent, KeysDistinct;
    var deduped := Dedupe(events, NormalizeEvent(p), EventId).value;
    DedupeSpec(events, NormalizeEvent(p), EventId);
    AcceptedEvents(p, events);
    EventOrderTotal(less, deduped);
    SortOrdersValues(EventOrder(less), deduped, EventId);
    SortElements(EventOrder(less), deduped);
  }

  lemma LastByPosition(less: (string, string) -> bool, events: seq<KeyEvent>, ordered: seq<KeyEvent>, scope: Scope, i: nat)
    requires StrictTotalOrder(less) && Chronicle(less, events, ordered) && i < |ordered| && ScopeOfEvent(ordered[i]) == scope
    ensures LastAt(ordered, i, scope) <==> IsLast(less, events, ordered[i])
    ensures LastActivationAt(ordered, i, scope) <==> IsLastActivation(less, events, ordered[i])
  {
    hide StrictTotalOrder, Earlier;
    var e := ordered[i];
    forall j | 0 <= j < |ordered|
      ensures j < i ==> Earlier(less, ordered[j], e)
      ensures j > i ==> !Earlier(less, ordered[j], e) && ordered[j] != e
    {
      EarlierIsStrict(less, e, ordered[j]);
      EarlierIsStrict(less, e, e);
    }
    forall f | f in events && SameKey(e, f)
      ensures exists j :: 0 <= j < |ordered| && ordered[j] == f && ScopeOfEvent(f) == scope
    {
      assert f in ordered;
    }
    forall j | 0 <= j < |ordered| && ScopeOfEvent(ordered[j]) == scope
      ensures ordered[j] in events && SameKey(e, ordered[j])
    {
      assert ordered[j] in ordered;
    }
  }

  lemma OneLast(less: (string, string) -> bool, events: seq<KeyEvent>, e: KeyEvent, f: KeyEvent)
    requires StrictTotalOrder(less) && SameKey(e, f)
    ensures IsLast(less, events, e) && IsLast(less, events, f) ==> e == f
    ensures IsLastActivation(less, events, e) && IsLastActivation(less, events, f) ==> e == f
  {
    hide StrictTotalOrder, Earlier;
    EarlierIsStrict(less, e, f);
  }

  /** The state of a key is what its last activation and its last event say. */
  lemma StateFollows(less: (string, string) -> bool, events: seq<KeyEvent>, ordered: seq<KeyEvent>, s: KeyState)
    returns (e: KeyEvent, l: KeyEvent)
    requires StrictTotalOrder(less) && Chronicle(less, events, ordered) && s in ApplyEvents(ordered)
    ensures IsLastActivation(less, events, e) && IsLast(less, events, l) && SameKey(e, l) && ScopeOfEvent(e) == s.scope
    ensures s == StateFrom(s.scope, e, l)
  {
    hide StrictTotalOrder, Chronicle, ApplyEvents, Earlier;
    StatesFollow(ordered, s.scope);
    ApplyEventsSpec(ordered, s.scope);
    LookupUnique(ApplyEvents(ordered), StateScope, s);
    var i, j :| LastActivationAt(ordered, i, s.scope) && LastAt(ordered, j, s.scope) && s == StateFrom(s.scope, ordered[i], ordered[j]);
    LastByPosition(less, events, ordered, s.scope, i);
    LastByPosition(less, events, ordered, s.scope, j);
    e, l := ordered[i], ordered[j];
  }

  lemma FollowingIsHeld(less: (string, string) -> bool, events: seq<KeyEvent>, ordered: seq<KeyEvent>, a: Authorization)
    requires StrictTotalOrder(less) && Chronicle(less, events, ordered) && Follows(less, events, a)
    ensures exists s :: s in ApplyEvents(ordered) && s.authorization == a
  {
    hide StrictTotalOrder, ApplyEvents, Earlier;
    var e, l :| IsLastActivation(less, events, e) && IsLast(less, events, l) && SameKey(e, l)
                && a == Authorization(e.communityId, e.memberId, e.keyId, e.action.publicKeyPem, l.action.Activate?);
    var scope := ScopeOfEvent(e);
    StatesFollow(ordered, scope);
    assert e in ordered;
    var found := Lookup(ApplyEvents(ordered), StateScope, scope);
    var s := found.value;
    var f, m := StateFollows(less, events, ordered, s);
    OneLast(less, events, e, f);
    OneLast(less, events, l, m);
  }

  // ---- the order of the authorizations ----------------------------------------------------------------

  lemma {:induction false} LexStrict(less: (string, string) -> bool, a: seq<string>, b: seq<string>)
    requires StrictTotalOrder(less) && |a| == |b|
    ensures !LexBefore(less, a, a) && (a != b ==> LexBefore(less, a, b) || LexBefore(less, b, a))
  {
    if a != [] {
      assert a == [a[0]] + a[1..] && b == [b[0]] + b[1..];
      LexStrict(less, a[1..], b[1..]);
    }
  }

  lemma {:induction false} LexTransitive(less: (string, string) -> bool, a: seq<string>, b: seq<string>, c: seq<string>)
    requires StrictTotalOrder(less) && |a| == |b| == |c| && LexBefore(less, a, b) && LexBefore(less, b, c)
    ensures LexBefore(less, a, c)
  {
    if a[0] == b[0] == c[0] { LexTransitive(less, a[1..], b[1..], c[1..]); }
  }

  ghost function StateKey(s: KeyState): seq<string> {
    [s.occurredAt, s.eventId, s.authorization.communityId, s.authorization.memberId, s.authorization.keyId]
  }

  lemma StatesTotal(less: (string, string) -> bool, states: seq<KeyState>)
    requires StrictTotalOrder(less) && forall s, t | s in states && t in states && s != t :: s.eventId != t.eventId
    ensures TotalOn(StateOrder(less), states)
  {
    hide StrictTotalOrder, LexBefore;
    assert forall s, t :: StateOrder(less)(s, t) == LexBefore(less, StateKey(s), StateKey(t));
    forall s, t | s in states && t in states
      ensures !StateOrder(less)(s, s) && (s != t ==> StateOrder(less)(s, t) || StateOrder(less)(t, s))
    {
      LexStrict(less, StateKey(s), StateKey(t));
      assert StateKey(s)[1] == s.eventId && StateKey(t)[1] == t.eventId;
    }
    forall s, t, u | s in states && t in states && u in states && StateOrder(less)(s, t) && StateOrder(less)(t, u)
      ensures StateOrder(less)(s, u)
    {
      LexTransitive(less, StateKey(s), StateKey(t), StateKey(u));
    }
  }

  lemma StateBefore(less: (string, string) -> bool, s: KeyState, t: KeyState)
    requires StrictTotalOrder(less) && s.eventId != t.eventId && StateOrder(less)(s, t)
    ensures less(s.occurredAt, t.occurredAt) || (!less(t.occurredAt, s.occurredAt) && less(s.eventId, t.eventId))
  {
    var a, b := StateKey(s), StateKey(t);
    assert LexBefore(less, a, b);
    assert a[1..][0] == s.eventId && b[1..][0] == t.eventId;
    if !less(s.occurredAt, t.occurredAt) { assert LexBefore(less, a[1..], b[1..]); }
  }

  /** Every authorization of a reduced history follows from its key's events, every one that follows is there, no key
      has two, and they are listed by the last events of their keys. */
  ghost predicate HoldsWhatFollows(less: (string, string) -> bool, events: seq<KeyEvent>, auths: seq<Authorization>) {
    && (forall a :: a in auths <==> Follows(less, events, a))
    && (forall i, j | 0 <= i < j < |auths| ::
          (auths[i].communityId, auths[i].memberId, auths[i].keyId) != (auths[j].communityId, auths[j].memberId, auths[j].keyId))
    && (forall i, j | 0 <= i < j < |auths| :: LastComesFirst(less, events, auths[i], auths[j]))
  }

  ghost predicate LastComesFirst(less: (string, string) -> bool, events: seq<KeyEvent>, a: Authorization, b: Authorization) {
    exists l, m :: IsLast(less, events, l) && IsLast(less, events, m) && Earlier(less, l, m)
                   && (l.communityId, l.memberId, l.keyId) == (a.communityId, a.memberId, a.keyId)
                   && (m.communityId, m.memberId, m.keyId) == (b.communityId, b.memberId, b.keyId)
  }

  lemma StatesListed(less: (string, string) -> bool, events: seq<KeyEvent>, ordered: seq<KeyEvent>, sorted: seq<KeyState>)
    requires sorted == Sort(StateOrder(less), ApplyEvents(ordered))
    requires StrictTotalOrder(less) && Chronicle(less, events, ordered)
    requires forall e, f | e in events && f in events && e.eventId == f.eventId :: e == f
    ensures forall i, j | 0 <= i < j < |sorted| ::
              sorted[i].scope != sorted[j].scope && LastComesFirst(less, events, sorted[i].authorization, sorted[j].authorization)
  {
    hide StrictTotalOrder, Chronicle, ApplyEvents, Earlier, LexBefore, TotalOn, IsLast, IsLastActivation, Sort;
    var states := ApplyEvents(ordered);
    ApplyEventsSpec(ordered, Scope("", "", ""));
    forall s, t | s in states && t in states && s != t
      ensures s.eventId != t.eventId
    {
      if s.eventId == t.eventId { DifferentStates(less, events, ordered, s, t); }
    }
    StatesTotal(less, states);
    SortOrdersValues(StateOrder(less), states, StateScope);
    SortElements(StateOrder(less), states);
    forall i, j | 0 <= i < j < |sorted|
      ensures sorted[i].scope != sorted[j].scope && LastComesFirst(less, events, sorted[i].authorization, sorted[j].authorization)
    {
      var s, t := sorted[i], sorted[j];
      assert StateScope(s) != StateScope(t) && s in states && t in states && StateOrder(less)(s, t);
      ListedInOrder(less, events, ordered, s, t);
    }
  }

  lemma DifferentStates(less: (string, string) -> bool, events: seq<KeyEvent>, ordered: seq<KeyEvent>, s: KeyState, t: KeyState)
    requires StrictTotalOrder(less) && Chronicle(less, events, ordered) && s in ApplyEvents(ordered) && t in ApplyEvents(ordered)
    requires forall e, f | e in events && f in events && e.eventId == f.eventId :: e == f
    requires s.eventId == t.eventId
    ensures s == t
  {
    hide StrictTotalOrder, Chronicle, ApplyEvents, Earlier;
    var e, l := StateFollows(less, events, ordered, s);
    var f, m := StateFollows(less, events, ordered, t);
    assert l == m;
    OneLast(less, events, e, f);
  }

  lemma ListedInOrder(less: (string, string) -> bool, events: seq<KeyEvent>, ordered: seq<KeyEvent>, s: KeyState, t: KeyState)
    requires StrictTotalOrder(less) && Chronicle(less, events, ordered) && s in ApplyEvents(ordered) && t in ApplyEvents(ordered)
    requires s.eventId != t.eventId && StateOrder(less)(s, t)
    ensures LastComesFirst(less, events, s.authorization, t.authorization)
  {
    hide StrictTotalOrder, Chronicle, ApplyEvents, LexBefore, IsLast, IsLastActivation;
    var e, l := StateFollows(less, events, ordered, s);
    var f, m := StateFollows(less, events, ordered, t);
    StateBefore(less, s, t);
    assert Earlier(less, l, m);
  }

  /** What a reduced history of key events authorizes. */
  lemma KeysFollow(p: Platform, less: (string, string) -> bool, events: seq<KeyEvent>)
    requires StrictTotalOrder(less) && ReducedKeys(p, less, events).Ok?
    ensures HoldsWhatFollows(less, events, ReducedKeys(p, less, events).value)
  {
    hide StrictTotalOrder, Chronicle, ApplyEvents, Sort, Dedupe, Follows, LastComesFirst, SoundEvent, IsLast, IsLastActivation;
    var auths := ReducedKeys(p, less, events).value;
    var ordered := Sort(EventOrder(less), Dedupe(events, NormalizeEvent(p), EventId).value);
    var states := ApplyEvents(ordered);
    var sorted := Sort(StateOrder(less), states);
    OrderedEvents(p, less, events);
    KeysReduceIff(p, less, events);
    StatesListed(less, events, ordered, sorted);
    SortElements(StateOrder(less), states);
    assert auths == Map(sorted, AuthorizationOf);
    forall i | 0 <= i < |auths|
      ensures auths[i] == sorted[i].authorization && Follows(less, events, auths[i]) && ScopeOf(auths[i]) == sorted[i].scope
    {
      assert sorted[i] in sorted;
      StateIsAuthorized(less, events, ordered, sorted[i]);
    }
    forall i, j | 0 <= i < j < |auths|
      ensures (auths[i].communityId, auths[i].memberId, auths[i].keyId) != (auths[j].communityId, auths[j].memberId, auths[j].keyId)
      ensures LastComesFirst(less, events, auths[i], auths[j])
    {
      assert sorted[i].scope != sorted[j].scope;
      assert LastComesFirst(less, events, sorted[i].authorization, sorted[j].authorization);
      assert ScopeOf(auths[i]) == sorted[i].scope && ScopeOf(auths[j]) == sorted[j].scope;
    }
    forall a | Follows(less, events, a)
      ensures a in auths
    {
      FollowingIsHeld(less, events, ordered, a);
      var s :| s in states && s.authorization == a;
      MemberMap(sorted, AuthorizationOf, s);
    }
  }

  lemma StateIsAuthorized(less: (string, string) -> bool, events: seq<KeyEvent>, ordered: seq<KeyEvent>, s: KeyState)
    requires StrictTotalOrder(less) && Chronicle(less, events, ordered) && s in ApplyEvents(ordered)
    ensures Follows(less, events, s.authorization) && ScopeOf(s.authorization) == s.scope
  {
    hide StrictTotalOrder, Chronicle, ApplyEvents, IsLast, IsLastActivation;
    var e, l := StateFollows(less, events, ordered, s);
  }

  // ---- root-signed statements -------------------------------------------------------------------------

  /** Every statement is sound, and an event id names one statement. */
  ghost predicate StatedOnce(p: Platform, statements: seq<RootStatement>) {
    && (forall s | s in statements :: SoundStatement(p, s))
    && (forall s, t | s in statements && t in statements && s.event.eventId == t.event.eventId :: s == t)
  }

  /** No key is activated after it has been revoked. */
  ghost predicate NeverRevived(less: (string, string) -> bool, statements: seq<RootStatement>) {
    forall s, t | s in statements && t in statements && s.event.action.Revoke? && t.event.action.Activate?
                  && SameKey(s.event, t.event) :: !Earlier(less, s.event, t.event)
  }

  lemma NormalStatement(p: Platform, s: RootStatement)
    ensures NormalizeStatement(p)(s) == if SoundStatement(p, s) then Ok(s) else Error
  {
  }

  lemma CoherentStatements(p: Platform, statements: seq<RootStatement>)
    ensures Coherent(statements, NormalizeStatement(p), StatementId) <==> StatedOnce(p, statements)
  {
    hide Present, SoundStatement, ValidStatement;
    forall s ensures NormalizeStatement(p)(s) == if SoundStatement(p, s) then Ok(s) else Error { NormalStatement(p, s); }
  }

  lemma NeverReactivatedIff(less: (string, string) -> bool, statements: seq<RootStatement>, deduped: seq<RootStatement>)
    requires StrictTotalOrder(less) && KeysDistinct(deduped, StatementId) && forall s :: s in deduped <==> s in statements
    ensures NeverReactivated(Sort(StatementOrder(less), deduped)) <==> NeverRevived(less, statements)
  {
    hide StrictTotalOrder, TotalOn, KeysDistinct, Sort, Earlier;
    var ordered := Sort(StatementOrder(less), deduped);
    StatementOrderTotal(less, deduped);
    SortOrdersValues(StatementOrder(less), deduped, StatementId);
    SortElements(StatementOrder(less), deduped);
    forall i, j | 0 <= i < |ordered| && 0 <= j < |ordered|
      ensures Earlier(less, ordered[i].event, ordered[j].event) <==> i < j
    {
      StatementsInOrder(less, ordered, i, j);
    }
    forall i | 0 <= i < |ordered| ensures ordered[i] in statements { assert ordered[i] in ordered; }
    if NeverReactivated(ordered) {
      forall s, t | s in statements && t in statements && s.event.action.Revoke? && t.event.action.Activate? && SameKey(s.event, t.event)
        ensures !Earlier(less, s.event, t.event)
      {
        assert s in ordered && t in ordered;
        var i :| 0 <= i < |ordered| && ordered[i] == s;
        var j :| 0 <= j < |ordered| && ordered[j] == t;
      }
    }
  }

  lemma StatementsInOrder(less: (string, string) -> bool, ordered: seq<RootStatement>, i: nat, j: nat)
    requires StrictTotalOrder(less) && Ascending(StatementOrder(less), ordered) && i < |ordered| && j < |ordered|
    ensures Earlier(less, ordered[i].event, ordered[j].event) <==> i < j
  {
    EarlierIsStrict(less, ordered[i].event, ordered[j].event);
    if i < j { assert StatementOrder(less)(ordered[i], ordered[j]); }
    if j < i { assert StatementOrder(less)(ordered[j], ordered[i]); }
  }

  /** The events of the statements. */
  ghost predicate EventsOf(statements: seq<RootStatement>, events: seq<KeyEvent>) {
    forall e :: e in events <==> exists s :: s in statements && s.event == e
  }

  lemma MappedEvents(deduped: seq<RootStatement>, statements: seq<RootStatement>)
    requires forall s :: s in deduped <==> s in statements
    ensures EventsOf(statements, Map(deduped, EventOf)) && EventsOf(statements, Map(statements, EventOf))
  {
    forall e
      ensures e in Map(deduped, EventOf) <==> exists s :: s in statements && s.event == e
      ensures e in Map(statements, EventOf) <==> exists s :: s in statements && s.event == e
    {
      if e in Map(deduped, EventOf) { MapMember(deduped, EventOf, e); }
      if e in Map(statements, EventOf) { MapMember(statements, EventOf, e); }
      if s :| s in statements && s.event == e {
        MemberMap(deduped, EventOf, s);
        MemberMap(statements, EventOf, s);
      }
    }
  }

  lemma StatedEventsSound(p: Platform, statements: seq<RootStatement>, events: seq<KeyEvent>)
    requires StatedOnce(p, statements) && EventsOf(statements, events)
    ensures SoundOnce(p, events)
  {
    hide SoundEvent;
  }

  lemma SameEventsSameKeys(p: Platform, events: seq<KeyEvent>, others: seq<KeyEvent>)
    requires forall e :: e in events <==> e in others
    ensures OneKeyPerId(p, events) <==> OneKeyPerId(p, others)
  {
  }

  /** A history of root-signed statements reduces exactly when its statements are sound, one event has one statement, no
      key is activated after a revocation, and no key id is activated with two different keys. */
  lemma StatementsReduceIff(p: Platform, less: (string, string) -> bool, statements: seq<RootStatement>)
    requires StrictTotalOrder(less)
    ensures RootSignedKeys(p, less, statements).Ok? <==>
              StatedOnce(p, statements) && NeverRevived(less, statements) && OneKeyPerId(p, Map(statements, EventOf))
  {
    hide StrictTotalOrder, NormalizeStatement, Sort, Dedupe, NeverReactivated, Coherent, StatedOnce, OneKeyPerId, SoundOnce,
         NeverRevived, HoldsDecoded, KeysDistinct, Map, ReducedKeys, StatementOrder, EventsOf;
    CoherentStatements(p, statements);
    DedupeSpec(statements, NormalizeStatement(p), StatementId);
    if Dedupe(statements, NormalizeStatement(p), StatementId).Ok? {
      var deduped := Dedupe(statements, NormalizeStatement(p), StatementId).value;
      AcceptedStatements(p, statements);
      NeverReactivatedIff(less, statements, deduped);
      var events := Map(deduped, EventOf);
      MappedEvents(deduped, statements);
      StatedEventsSound(p, statements, events);
      KeysReduceIff(p, less, events);
      SameAsMapped(statements, events);
      SameEventsSameKeys(p, events, Map(statements, EventOf));
    }
  }

  lemma SameAsMapped(statements: seq<RootStatement>, events: seq<KeyEvent>)
    requires EventsOf(statements, events) && EventsOf(statements, Map(statements, EventOf))
    ensures forall e :: e in events <==> e in Map(statements, EventOf)
  {
  }

  lemma SameEventsFollow(less: (string, string) -> bool, events: seq<KeyEvent>, others: seq<KeyEvent>, auths: seq<Authorization>)
    requires (forall e :: e in events <==> e in others) && HoldsWhatFollows(less, events, auths)
    ensures HoldsWhatFollows(less, others, auths)
  {
    hide Earlier, SameKey;
    forall e
      ensures IsLast(less, events, e) <==> IsLast(less, others, e)
      ensures IsLastActivation(less, events, e) <==> IsLastActivation(less, others, e)
    {
    }
    forall a ensures Follows(less, events, a) <==> Follows(less, others, a) { }
    forall i, j | 0 <= i < j < |auths| ensures LastComesFirst(less, others, auths[i], auths[j]) {
      assert LastComesFirst(less, events, auths[i], auths[j]);
    }
  }

  /** What a reduced history of root-signed statements authorizes. */
  lemma StatementsFollow(p: Platform, less: (string, string) -> bool, statements: seq<RootStatement>)
    requires StrictTotalOrder(less) && RootSignedKeys(p, less, statements).Ok?
    ensures HoldsWhatFollows(less, Map(statements, EventOf), RootSignedKeys(p, less, statements).value)
  {
    hide StrictTotalOrder, Sort, Dedupe, NeverReactivated, Map, ReducedKeys, EventsOf, HoldsWhatFollows, ValidStatement, KeysDistinct;
    var deduped := Dedupe(statements, NormalizeStatement(p), StatementId).value;
    AcceptedStatements(p, statements);
    var events := Map(deduped, EventOf);
    KeysFollow(p, less, events);
    MappedEvents(deduped, statements);
    SameAsMapped(statements, events);
    SameEventsFollow(less, events, Map(statements, EventOf), RootSignedKeys(p, less, statements).value);
  }

  // ---- the verifier's index -----------------------------------------------------------------------------

  /** Each authorization is complete, no key id is authorized twice in a community, and no key has two owners. */
  ghost predicate Indexes(p: Platform, auths: seq<Authorization>) {
    && (forall a | a in auths ::
          Present(a.communityId) && Present(a.memberId) && Present(a.keyId) && Present(a.publicKeyPem) && p.isPublicKey(a.publicKeyPem))
    && (forall i, j | 0 <= i < j < |auths| :: !(auths[i].communityId == auths[j].communityId && auths[i].keyId == auths[j].keyId))
    && (forall i, j | 0 <= i < j < |auths| && p.fingerprint(auths[i].publicKeyPem) == p.fingerprint(auths[j].publicKeyPem) ::
          auths[i].communityId == auths[j].communityId && auths[i].memberId == auths[j].memberId)
  }

  lemma IndexIff(p: Platform, auths: seq<Authorization>)
    ensures KeyIndex(p, auths).Ok? <==> Indexes(p, auths)
  {
    hide Present;
  }

  /** A signature verifies exactly under the public key of an authorized, active key of the member. */
  lemma VerifiesIffActive(p: Platform, auths: seq<Authorization>, communityId: string, memberId: string, keyId: string,
                                             content: SignedContent, signature: string)
    requires KeyIndex(p, auths).Ok?
    ensures MemberVerifies(p, KeyIndex(p, auths).value, communityId, memberId, keyId, content, signature) <==>
              exists a :: a in auths && a.active && a.communityId == communityId && a.memberId == memberId && a.keyId == keyId
                          && p.verifies(content, a.publicKeyPem, signature)
  {
    hide AllValid, OneOwnerPerKey;
    IndexHolds(auths, Scope(communityId, memberId, keyId));
  }

  lemma {:induction false} IndexHolds(auths: seq<Authorization>, scope: Scope)
    requires IdsAuthorizedOnce(auths)
    ensures scope in ActiveKeys(auths) <==> exists a :: a in auths && a.active && ScopeOf(a) == scope
    ensures forall a | a in auths && a.active && ScopeOf(a) == scope :: ActiveKeys(auths)[scope] == a.publicKeyPem
  {
    if auths != [] {
      var front, last := auths[..|auths| - 1], auths[|auths| - 1];
      FrontLast(auths);
      assert forall i | 0 <= i < |front| :: front[i] == auths[i];
      IndexHolds(front, scope);
      forall a | a in front
        ensures AuthorizationId(a) != AuthorizationId(last)
      {
        var i :| 0 <= i < |front| && front[i] == a;
        assert AuthorizationId(auths[i]) != AuthorizationId(auths[|auths| - 1]);
      }
    }
  }
}

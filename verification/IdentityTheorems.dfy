/** What the key reducers guarantee for every history. */
module IdentityTheorems {
  import opened Core
  import opened Sorting
  import opened Reduction
  import opened Types
  import opened Identity

  // ---- convergence ----------------------------------------------------------------------------

  lemma EventOrderTotal(less: (string, string) -> bool, events: seq<KeyEvent>)
    requires StrictTotalOrder(less) && KeysDistinct(events, EventId)
    ensures TotalOn(EventOrder(less), events)
  {
    forall a, b | a in events && b in events && a != b
      ensures EventBefore(less, a, b) || EventBefore(less, b, a)
    {
      if EventId(a) == EventId(b) { SameKeySameValue(events, EventId, a, b); }
    }
  }

  /** The reduced keys depend only on which events arrived, not on their order or repetition. */
  lemma KeyEventsConverge(p: Platform, less: (string, string) -> bool, xs: seq<KeyEvent>, ys: seq<KeyEvent>)
    requires StrictTotalOrder(less) && SameContent(xs, ys, NormalizeEvent(p))
    ensures ReducedKeys(p, less, xs) == ReducedKeys(p, less, ys)
  {
    var decode := NormalizeEvent(p);
    DedupeSpec(xs, decode, EventId);
    DedupeSpec(ys, decode, EventId);
    if Coherent(xs, decode, EventId) {
      CoherenceFollowsContent(xs, ys, decode, EventId);
      var vs, ws := Dedupe(xs, decode, EventId).value, Dedupe(ys, decode, EventId).value;
      ContentGivesSameValues(xs, ys, decode, vs, ws);
      ContentGivesSameValues(ys, xs, decode, ws, vs);
      DistinctKeysDistinctValues(vs, EventId);
      DistinctKeysDistinctValues(ws, EventId);
      EventOrderTotal(less, vs);
      SortDeterminedBySet(EventOrder(less), vs, ws);
    } else if Coherent(ys, decode, EventId) {
      CoherenceFollowsContent(ys, xs, decode, EventId);
    }
  }

  lemma StatementOrderTotal(less: (string, string) -> bool, statements: seq<RootStatement>)
    requires StrictTotalOrder(less) && KeysDistinct(statements, StatementId)
    ensures TotalOn(StatementOrder(less), statements)
  {
    forall a, b | a in statements && b in statements && a != b
      ensures EventBefore(less, a.event, b.event) || EventBefore(less, b.event, a.event)
    {
      if StatementId(a) == StatementId(b) { SameKeySameValue(statements, StatementId, a, b); }
    }
  }

  lemma EventsOfSameStatements(p: Platform, vs: seq<RootStatement>, ws: seq<RootStatement>)
    requires forall s :: s in vs <==> s in ws
    ensures SameContent(Map(vs, EventOf), Map(ws, EventOf), NormalizeEvent(p))
  {
    forall e | e in Map(vs, EventOf)
      ensures e in Map(ws, EventOf)
    {
      MapMember(vs, EventOf, e);
      var s :| s in vs && EventOf(s) == e;
      MemberMap(ws, EventOf, s);
    }
    forall e | e in Map(ws, EventOf)
      ensures e in Map(vs, EventOf)
    {
      MapMember(ws, EventOf, e);
      var s :| s in ws && EventOf(s) == e;
      MemberMap(vs, EventOf, s);
    }
    SameElementsSameContent(Map(vs, EventOf), Map(ws, EventOf), NormalizeEvent(p));
  }

  /** The same for root-signed statements, including whether the history is accepted at all. */
  lemma RootStatementsConverge(p: Platform, less: (string, string) -> bool, xs: seq<RootStatement>, ys: seq<RootStatement>)
    requires StrictTotalOrder(less) && SameContent(xs, ys, NormalizeStatement(p))
    ensures RootSignedKeys(p, less, xs) == RootSignedKeys(p, less, ys)
  {
    var decode := NormalizeStatement(p);
    DedupeSpec(xs, decode, StatementId);
    DedupeSpec(ys, decode, StatementId);
    if Coherent(xs, decode, StatementId) {
      CoherenceFollowsContent(xs, ys, decode, StatementId);
      var vs, ws := Dedupe(xs, decode, StatementId).value, Dedupe(ys, decode, StatementId).value;
      ContentGivesSameValues(xs, ys, decode, vs, ws);
      ContentGivesSameValues(ys, xs, decode, ws, vs);
      DistinctKeysDistinctValues(vs, StatementId);
      DistinctKeysDistinctValues(ws, StatementId);
      StatementOrderTotal(less, vs);
      SortDeterminedBySet(StatementOrder(less), vs, ws);
      EventsOfSameStatements(p, vs, ws);
      KeyEventsConverge(p, less, Map(vs, EventOf), Map(ws, EventOf));
    } else if Coherent(ys, decode, StatementId) {
      CoherenceFollowsContent(ys, xs, decode, StatementId);
    }
  }

  // ---- last writer wins -----------------------------------------------------------------------

  /** In this order, the last event of the key is an activation. */
  ghost predicate EndsActivated(ordered: seq<KeyEvent>, scope: Scope) {
    exists i :: 0 <= i < |ordered| && ScopeOfEvent(ordered[i]) == scope && ordered[i].action.Activate?
      && forall j :: i < j < |ordered| ==> ScopeOfEvent(ordered[j]) != scope
  }

  ghost predicate Activates(events: seq<KeyEvent>, scope: Scope) {
    exists e :: e in events && ScopeOfEvent(e) == scope && e.action.Activate?
  }

  lemma {:induction false} LookupAfterPut(states: seq<KeyState>, s: KeyState, scope: Scope)
    ensures Lookup(Put(states, s), StateScope, scope) ==
              if scope == s.scope then Some(s) else Lookup(states, StateScope, scope)
  {
    if states != [] && states[0].scope != s.scope { LookupAfterPut(states[1..], s, scope); }
  }

  lemma {:induction false} PutKeepsDistinct(states: seq<KeyState>, s: KeyState)
    requires KeysDistinct(states, StateScope)
    ensures KeysDistinct(Put(states, s), StateScope)
    ensures forall t | t in Put(states, s) :: t == s || t in states
  {
    if states != [] {
      var head, tail := states[0], states[1..];
      assert states == [head] + tail;
      if head.scope == s.scope {
        forall t | t in [s] + tail ensures t == s || t in states { }
      } else {
        forall i, j | 0 <= i < j < |tail| ensures StateScope(tail[i]) != StateScope(tail[j]) {
          assert StateScope(states[i + 1]) != StateScope(states[j + 1]);
        }
        PutKeepsDistinct(tail, s);
        forall t | t in Put(tail, s) ensures t.scope != head.scope {
          if t in tail {
            var i :| 0 <= i < |tail| && tail[i] == t;
            assert StateScope(states[0]) != StateScope(states[i + 1]);
          }
        }
      }
    }
  }

  lemma EndsActivatedStep(front: seq<KeyEvent>, e: KeyEvent, scope: Scope)
    ensures EndsActivated(front + [e], scope) <==>
              if ScopeOfEvent(e) == scope then e.action.Activate? else EndsActivated(front, scope)
  {
    var all := front + [e];
    assert all[|front|] == e && forall i | 0 <= i < |front| :: all[i] == front[i];
    if ScopeOfEvent(e) == scope {
      if e.action.Activate? { assert EndsActivated(all, scope); }
    } else if EndsActivated(front, scope) {
      var i :| 0 <= i < |front| && ScopeOfEvent(front[i]) == scope && front[i].action.Activate?
               && forall j :: i < j < |front| ==> ScopeOfEvent(front[j]) != scope;
      assert ScopeOfEvent(all[i]) == scope;
    }
  }

  lemma {:induction false} ApplyEventsSpec(ordered: seq<KeyEvent>, scope: Scope)
    ensures KeysDistinct(ApplyEvents(ordered), StateScope)
    ensures forall s | s in ApplyEvents(ordered) :: ScopeOf(s.authorization) == s.scope
    ensures var state := Lookup(ApplyEvents(ordered), StateScope, scope);
            && (state.Some? <==> Activates(ordered, scope))
            && (state.Some? && state.value.authorization.active <==> EndsActivated(ordered, scope))
  {
    if ordered != [] {
      var front, e := ordered[..|ordered| - 1], ordered[|ordered| - 1];
      FrontLast(ordered);
      ApplyEventsSpec(front, scope);
      EndsActivatedStep(front, e, scope);
      ApplyEventStep(front, e, scope);
    }
  }

  lemma ApplyEventStep(front: seq<KeyEvent>, e: KeyEvent, scope: Scope)
    requires KeysDistinct(ApplyEvents(front), StateScope)
    requires forall s | s in ApplyEvents(front) :: ScopeOf(s.authorization) == s.scope
    requires Lookup(ApplyEvents(front), StateScope, scope).Some? <==> Activates(front, scope)
    ensures var after := ApplyEvent(ApplyEvents(front), e);
            && KeysDistinct(after, StateScope)
            && (forall s | s in after :: ScopeOf(s.authorization) == s.scope)
            && var was, state := Lookup(ApplyEvents(front), StateScope, scope), Lookup(after, StateScope, scope);
               && (state.Some? <==> Activates(front + [e], scope))
               && (ScopeOfEvent(e) != scope ==> state == was)
               && (ScopeOfEvent(e) == scope && state.Some? ==> state.value.authorization.active == e.action.Activate?)
               && (ScopeOfEvent(e) == scope && e.action.Activate? ==> state.Some?)
  {
    var states := ApplyEvents(front);
    assert forall f :: f in front + [e] <==> f in front || f == e;
    var k := ScopeOfEvent(e);
    match e.action {
      case Activate(pem) =>
        var s := KeyState(k, Authorization(e.communityId, e.memberId, e.keyId, pem, true), e.occurredAt, e.eventId);
        LookupAfterPut(states, s, scope);
        PutKeepsDistinct(states, s);
      case Revoke =>
        var current := Lookup(states, StateScope, k);
        if current.Some? {
          var s := KeyState(k, current.value.authorization.(active := false), e.occurredAt, e.eventId);
          LookupAfterPut(states, s, scope);
          PutKeepsDistinct(states, s);
        }
    }
  }

  /** The key is authorized and active. */
  ghost predicate HoldsActive(auths: seq<Authorization>, scope: Scope) {
    exists a :: a in auths && ScopeOf(a) == scope && a.active
  }

  ghost predicate HoldsKey(auths: seq<Authorization>, scope: Scope) {
    exists a :: a in auths && ScopeOf(a) == scope
  }

  lemma AuthorizationsOfStates(states: seq<KeyState>, sorted: seq<KeyState>, scope: Scope)
    requires KeysDistinct(states, StateScope) && forall s :: s in sorted <==> s in states
    requires forall s | s in states :: ScopeOf(s.authorization) == s.scope
    ensures var auths, state := Map(sorted, AuthorizationOf), Lookup(states, StateScope, scope);
            && (HoldsKey(auths, scope) <==> state.Some?)
            && (HoldsActive(auths, scope) <==> state.Some? && state.value.authorization.active)
  {
    var auths, state := Map(sorted, AuthorizationOf), Lookup(states, StateScope, scope);
    if state.Some? {
      MemberMap(sorted, AuthorizationOf, state.value);
    }
    forall a | a in auths && ScopeOf(a) == scope
      ensures state.Some? && state.value.authorization == a
    {
      MapMember(sorted, AuthorizationOf, a);
      var s :| s in sorted && AuthorizationOf(s) == a;
      LookupUnique(states, StateScope, s);
    }
  }

  /** Last writer wins: a key is authorized exactly when some event activates it, and active exactly
      when its last event, by time and then event id, is an activation. */
  lemma LastWriterWins(p: Platform, less: (string, string) -> bool, events: seq<KeyEvent>, scope: Scope)
    requires ReducedKeys(p, less, events).Ok?
    ensures var auths := ReducedKeys(p, less, events).value;
            var ordered := Sort(EventOrder(less), Dedupe(events, NormalizeEvent(p), EventId).value);
            && (HoldsKey(auths, scope) <==> Activates(events, scope))
            && (HoldsActive(auths, scope) <==> EndsActivated(ordered, scope))
  {
    var deduped := Dedupe(events, NormalizeEvent(p), EventId).value;
    var ordered := Sort(EventOrder(less), deduped);
    AcceptedEvents(p, events);
    SortElements(EventOrder(less), deduped);
    assert Activates(ordered, scope) <==> Activates(events, scope);
    var states := ApplyEvents(ordered);
    ApplyEventsSpec(ordered, scope);
    SortElements(StateOrder(less), states);
    AuthorizationsOfStates(states, Sort(StateOrder(less), states), scope);
  }

  lemma AcceptedEvents(p: Platform, events: seq<KeyEvent>)
    requires Dedupe(events, NormalizeEvent(p), EventId).Ok?
    ensures forall e :: e in Dedupe(events, NormalizeEvent(p), EventId).value <==> e in events
  {
    var decode := NormalizeEvent(p);
    var deduped := Dedupe(events, decode, EventId).value;
    DedupeSpec(events, decode, EventId);
    forall e
      ensures e in deduped <==> e in events
    {
      if e in events { assert decode(e).Ok? && decode(e).value in deduped; }
      if e in deduped { var d :| d in events && decode(d) == Ok(e); }
    }
  }

  // ---- permanent revocation -------------------------------------------------------------------

  ghost predicate ActivatedIn(statements: seq<RootStatement>, scope: Scope) {
    exists s :: s in statements && ScopeOfEvent(s.event) == scope && s.event.action.Activate?
  }

  ghost predicate RevokedIn(statements: seq<RootStatement>, scope: Scope) {
    exists s :: s in statements && ScopeOfEvent(s.event) == scope && s.event.action.Revoke?
  }

  /** In an order that never reactivates, a key ends activated exactly when it was never revoked. */
  lemma EndsActivatedIffUnrevoked(ordered: seq<RootStatement>, scope: Scope)
    requires NeverReactivated(ordered)
    ensures EndsActivated(Map(ordered, EventOf), scope) <==> ActivatedIn(ordered, scope) && !RevokedIn(ordered, scope)
  {
    var events := Map(ordered, EventOf);
    if EndsActivated(events, scope) {
      var i :| 0 <= i < |events| && ScopeOfEvent(events[i]) == scope && events[i].action.Activate?
               && forall j :: i < j < |events| ==> ScopeOfEvent(events[j]) != scope;
      assert ordered[i] in ordered;
      forall s | s in ordered && ScopeOfEvent(s.event) == scope
        ensures s.event.action.Activate?
      {
        var k :| 0 <= k < |ordered| && ordered[k] == s;
        assert events[k] == s.event;
      }
    } else if ActivatedIn(ordered, scope) {
      var s :| s in ordered && ScopeOfEvent(s.event) == scope && s.event.action.Activate?;
      var i :| 0 <= i < |ordered| && ordered[i] == s;
      assert events[i] == s.event;
      LastOfScope(events, scope, i);
      var j :| i <= j < |events| && ScopeOfEvent(events[j]) == scope
               && forall k :: j < k < |events| ==> ScopeOfEvent(events[k]) != scope;
      assert events[j] == ordered[j].event && ordered[j] in ordered;
    }
  }

  lemma {:induction false} LastOfScope(events: seq<KeyEvent>, scope: Scope, i: nat)
    requires i < |events| && ScopeOfEvent(events[i]) == scope
    ensures exists j :: i <= j < |events| && ScopeOfEvent(events[j]) == scope
              && forall k :: j < k < |events| ==> ScopeOfEvent(events[k]) != scope
    decreases |events| - i
  {
    if k :| i < k < |events| && ScopeOfEvent(events[k]) == scope {
      LastOfScope(events, scope, k);
    }
  }

  /** On every history the root-signed reducer accepts, in whatever order it arrived, a key is active
      exactly when some statement activates it and none revokes it. */
  lemma ActiveIffNeverRevoked(p: Platform, less: (string, string) -> bool, statements: seq<RootStatement>, scope: Scope)
    requires RootSignedKeys(p, less, statements).Ok?
    ensures HoldsActive(RootSignedKeys(p, less, statements).value, scope) <==>
              ActivatedIn(statements, scope) && !RevokedIn(statements, scope)
  {
    var decode := NormalizeStatement(p);
    var deduped := Dedupe(statements, decode, StatementId).value;
    var ordered := Sort(StatementOrder(less), deduped);
    var events := Map(deduped, EventOf);
    AcceptedStatements(p, statements);
    SortElements(StatementOrder(less), deduped);
    EndsActivatedIffUnrevoked(ordered, scope);
    SortMap(StatementOrder(less), EventOrder(less), EventOf, deduped);
    EventsPassUnchanged(p, deduped);
    LastWriterWins(p, less, events, scope);
  }

  lemma AcceptedStatements(p: Platform, statements: seq<RootStatement>)
    requires Dedupe(statements, NormalizeStatement(p), StatementId).Ok?
    ensures var deduped := Dedupe(statements, NormalizeStatement(p), StatementId).value;
            && (forall s :: s in deduped <==> s in statements)
            && (forall s | s in statements :: ValidStatement(p, s))
            && KeysDistinct(deduped, StatementId)
  {
    var decode := NormalizeStatement(p);
    var deduped := Dedupe(statements, decode, StatementId).value;
    DedupeSpec(statements, decode, StatementId);
    forall s
      ensures s in deduped <==> s in statements
      ensures s in statements ==> ValidStatement(p, s)
    {
      if s in statements { assert decode(s).Ok? && decode(s).value in deduped; }
      if s in deduped { var d :| d in statements && decode(d) == Ok(s); }
    }
  }

  lemma EventsPassUnchanged(p: Platform, deduped: seq<RootStatement>)
    requires KeysDistinct(deduped, StatementId) && forall s | s in deduped :: ValidStatement(p, s)
    ensures Dedupe(Map(deduped, EventOf), NormalizeEvent(p), EventId) == Ok(Map(deduped, EventOf))
  {
    var events := Map(deduped, EventOf);
    forall e | e in events
      ensures NormalizeEvent(p)(e) == Ok(e)
    {
      MapMember(deduped, EventOf, e);
    }
    forall i, j | 0 <= i < j < |events|
      ensures EventId(events[i]) != EventId(events[j])
    {
      assert StatementId(deduped[i]) != StatementId(deduped[j]);
    }
    DedupeOfDistinct(events, NormalizeEvent(p), EventId);
  }

  /** A key revoked in one accepted history is not active in any accepted history that extends it. */
  lemma RevocationIsPermanent(p: Platform, less: (string, string) -> bool,
                              statements: seq<RootStatement>, extended: seq<RootStatement>, scope: Scope)
    requires RootSignedKeys(p, less, statements).Ok? && RootSignedKeys(p, less, extended).Ok?
    requires Elems(statements) <= Elems(extended)
    requires HoldsKey(RootSignedKeys(p, less, statements).value, scope)
    requires !HoldsActive(RootSignedKeys(p, less, statements).value, scope)
    ensures !HoldsActive(RootSignedKeys(p, less, extended).value, scope)
  {
    ActiveIffNeverRevoked(p, less, statements, scope);
    ActiveIffNeverRevoked(p, less, extended, scope);
    KnownKeysWereActivated(p, less, statements, scope);
    var s :| s in statements && ScopeOfEvent(s.event) == scope && s.event.action.Revoke?;
    assert s in Elems(extended);
  }

  lemma KnownKeysWereActivated(p: Platform, less: (string, string) -> bool, statements: seq<RootStatement>, scope: Scope)
    requires RootSignedKeys(p, less, statements).Ok?
    ensures HoldsKey(RootSignedKeys(p, less, statements).value, scope) <==> ActivatedIn(statements, scope)
  {
    var deduped := Dedupe(statements, NormalizeStatement(p), StatementId).value;
    var events := Map(deduped, EventOf);
    AcceptedStatements(p, statements);
    LastWriterWins(p, less, events, scope);
    if Activates(events, scope) {
      var e :| e in events && ScopeOfEvent(e) == scope && e.action.Activate?;
      MapMember(deduped, EventOf, e);
    }
    if ActivatedIn(statements, scope) {
      var s :| s in statements && ScopeOfEvent(s.event) == scope && s.event.action.Activate?;
      MemberMap(deduped, EventOf, s);
    }
  }

  // ---- the desktop's one-pass view ------------------------------------------------------------

  /** The newest statement of one key id among those that concern the member. */
  ghost predicate IsNewest(less: (string, string) -> bool, statements: seq<RootStatement>, communityId: string,
                           memberId: string, rootPem: string, keyId: string, s: RootStatement)
  {
    && s in statements && Concerns(s, communityId, memberId, rootPem) && s.event.keyId == keyId
    && forall t | t in statements && Concerns(t, communityId, memberId, rootPem) && t.event.keyId == keyId ::
         t == s || StatementId(t) == StatementId(s) || Newer(less, t, s)
  }

  lemma {:induction false} NewestByKeySpec(less: (string, string) -> bool, statements: seq<RootStatement>,
                                           communityId: string, memberId: string, rootPem: string, keyId: string)
    requires StrictTotalOrder(less)
    requires forall s, t | s in statements && t in statements && StatementId(s) == StatementId(t) :: s == t
    ensures var latest := NewestByKey(less, statements, communityId, memberId, rootPem);
            && (keyId in latest <==> exists s :: s in statements && Concerns(s, communityId, memberId, rootPem) && s.event.keyId == keyId)
            && (keyId in latest ==> IsNewest(less, statements, communityId, memberId, rootPem, keyId, latest[keyId]))
  {
    if statements != [] {
      var front, s := statements[..|statements| - 1], statements[|statements| - 1];
      FrontLast(statements);
      assert s in statements && forall t | t in front :: t in statements;
      NewestByKeySpec(less, front, communityId, memberId, rootPem, keyId);
      var latest := NewestByKey(less, front, communityId, memberId, rootPem);
      if Concerns(s, communityId, memberId, rootPem) && s.event.keyId == keyId && keyId in latest {
        assert Newer(less, latest[keyId], s) || Newer(less, s, latest[keyId]) || StatementId(latest[keyId]) == StatementId(s);
      }
    }
  }

  /** A statement under this root key text activates the key. */
  ghost predicate ActivatedUnder(statements: seq<RootStatement>, scope: Scope, rootPem: string) {
    exists s :: s in statements && ScopeOfEvent(s.event) == scope && s.rootPublicKeyPem == rootPem && s.event.action.Activate?
  }

  ghost predicate RevokedUnder(statements: seq<RootStatement>, scope: Scope, rootPem: string) {
    exists s :: s in statements && ScopeOfEvent(s.event) == scope && s.rootPublicKeyPem == rootPem && s.event.action.Revoke?
  }

  /** On every history the reducer accepts, the desktop's one pass shows a device key as active exactly when
      a statement under the member's own root key text activates it and none under that text revokes it. */
  lemma DesktopShowsUnrevoked(p: Platform, less: (string, string) -> bool, statements: seq<RootStatement>,
                              communityId: string, memberId: string, rootPem: string, keyId: string)
    requires StrictTotalOrder(less)
    requires RootSignedKeys(p, less, statements).Ok?
    ensures var latest, scope := NewestByKey(less, statements, communityId, memberId, rootPem), Scope(communityId, memberId, keyId);
            keyId in latest && latest[keyId].event.action.Activate? <==>
              ActivatedUnder(statements, scope, rootPem) && !RevokedUnder(statements, scope, rootPem)
  {
    var scope := Scope(communityId, memberId, keyId);
    var deduped := Dedupe(statements, NormalizeStatement(p), StatementId).value;
    AcceptedStatements(p, statements);
    forall s, t | s in statements && t in statements && StatementId(s) == StatementId(t)
      ensures s == t
    {
      SameKeySameValue(deduped, StatementId, s, t);
    }
    NewestByKeySpec(less, statements, communityId, memberId, rootPem, keyId);
    var latest := NewestByKey(less, statements, communityId, memberId, rootPem);
    assert forall s :: Concerns(s, communityId, memberId, rootPem) && s.event.keyId == keyId <==>
                       ScopeOfEvent(s.event) == scope && s.rootPublicKeyPem == rootPem;
    if keyId in latest {
      NewestDecides(less, deduped, scope, rootPem, latest[keyId]);
      assert ActivatedUnder(deduped, scope, rootPem) == ActivatedUnder(statements, scope, rootPem);
      assert RevokedUnder(deduped, scope, rootPem) == RevokedUnder(statements, scope, rootPem);
    }
  }

  /** A statement under another text of the member's root key activates the key. */
  ghost predicate ActivatedElsewhere(statements: seq<RootStatement>, scope: Scope, rootPem: string) {
    exists s :: s in statements && ScopeOfEvent(s.event) == scope && s.rootPublicKeyPem != rootPem && s.event.action.Activate?
  }

  ghost predicate RevokedElsewhere(statements: seq<RootStatement>, scope: Scope, rootPem: string) {
    exists s :: s in statements && ScopeOfEvent(s.event) == scope && s.rootPublicKeyPem != rootPem && s.event.action.Revoke?
  }

  /** What the desktop misses under other texts: the revocation of a key that its own text only activates, or
      the activation of a key that no text revokes and its own does not activate. */
  ghost predicate MissedByDesktop(statements: seq<RootStatement>, scope: Scope, rootPem: string) {
    && !RevokedUnder(statements, scope, rootPem)
    && (if ActivatedUnder(statements, scope, rootPem) then RevokedElsewhere(statements, scope, rootPem)
        else ActivatedElsewhere(statements, scope, rootPem) && !RevokedElsewhere(statements, scope, rootPem))
  }

  lemma TextsTogether(statements: seq<RootStatement>, scope: Scope, rootPem: string)
    ensures ActivatedIn(statements, scope) <==>
              ActivatedUnder(statements, scope, rootPem) || ActivatedElsewhere(statements, scope, rootPem)
    ensures RevokedIn(statements, scope) <==>
              RevokedUnder(statements, scope, rootPem) || RevokedElsewhere(statements, scope, rootPem)
  {
    if ActivatedIn(statements, scope) {
      var s :| s in statements && ScopeOfEvent(s.event) == scope && s.event.action.Activate?;
      assert s.rootPublicKeyPem == rootPem || s.rootPublicKeyPem != rootPem;
    }
    if RevokedIn(statements, scope) {
      var s :| s in statements && ScopeOfEvent(s.event) == scope && s.event.action.Revoke?;
      assert s.rootPublicKeyPem == rootPem || s.rootPublicKeyPem != rootPem;
    }
  }

  /** On every history the reducer accepts, the desktop's one pass shows a device key as active exactly
      when the sorting reducer holds it active, unless a statement under another text of the same root key
      is what it misses. */
  lemma DesktopAgreesWithReducer(p: Platform, less: (string, string) -> bool, statements: seq<RootStatement>,
                                 communityId: string, memberId: string, rootPem: string, keyId: string)
    requires StrictTotalOrder(less)
    requires RootSignedKeys(p, less, statements).Ok?
    ensures var latest, scope := NewestByKey(less, statements, communityId, memberId, rootPem), Scope(communityId, memberId, keyId);
            ((keyId in latest && latest[keyId].event.action.Activate?) <==>
               HoldsActive(RootSignedKeys(p, less, statements).value, scope))
            <==> !MissedByDesktop(statements, scope, rootPem)
  {
    hide RootSignedKeys, NewestByKey, HoldsActive, ActivatedUnder, RevokedUnder, ActivatedElsewhere, RevokedElsewhere,
         ActivatedIn, RevokedIn;
    TextsTogether(statements, Scope(communityId, memberId, keyId), rootPem);
    DesktopShowsUnrevoked(p, less, statements, communityId, memberId, rootPem, keyId);
    ActiveIffNeverRevoked(p, less, statements, Scope(communityId, memberId, keyId));
  }

  /** With one root key text for the member, nothing is missed. */
  lemma OneRootTextMissesNothing(statements: seq<RootStatement>, scope: Scope, rootPem: string)
    requires forall s | s in statements && s.event.communityId == scope.communityId && s.event.memberId == scope.memberId ::
               s.rootPublicKeyPem == rootPem
    ensures !MissedByDesktop(statements, scope, rootPem)
  {
    TextsTogether(statements, scope, rootPem);
  }

  lemma NewerComesLater(less: (string, string) -> bool, ordered: seq<RootStatement>, i: nat, j: nat)
    requires StrictTotalOrder(less) && Ascending(StatementOrder(less), ordered)
    requires i < |ordered| && j < |ordered| && Newer(less, ordered[i], ordered[j])
    ensures i < j
  {
    assert forall k | 0 <= k < i :: StatementOrder(less)(ordered[k], ordered[i]);
  }

  lemma NothingFollowsRevocation(less: (string, string) -> bool, ordered: seq<RootStatement>, s: RootStatement,
                                 newest: RootStatement)
    requires StrictTotalOrder(less) && Ascending(StatementOrder(less), ordered) && NeverReactivated(ordered)
    requires s in ordered && newest in ordered && Newer(less, s, newest)
    requires ScopeOfEvent(s.event) == ScopeOfEvent(newest.event) && s.event.action.Revoke?
    ensures newest.event.action.Revoke?
  {
    var i :| 0 <= i < |ordered| && ordered[i] == s;
    var j :| 0 <= j < |ordered| && ordered[j] == newest;
    NewerComesLater(less, ordered, i, j);
  }

  lemma NewestDecides(less: (string, string) -> bool, deduped: seq<RootStatement>, scope: Scope, rootPem: string,
                      newest: RootStatement)
    requires StrictTotalOrder(less) && KeysDistinct(deduped, StatementId)
    requires NeverReactivated(Sort(StatementOrder(less), deduped))
    requires IsNewest(less, deduped, scope.communityId, scope.memberId, rootPem, scope.keyId, newest)
    ensures newest.event.action.Activate? <==> ActivatedUnder(deduped, scope, rootPem) && !RevokedUnder(deduped, scope, rootPem)
  {
    var ordered := Sort(StatementOrder(less), deduped);
    StatementOrderTotal(less, deduped);
    SortOrdersValues(StatementOrder(less), deduped, StatementId);
    SortElements(StatementOrder(less), deduped);
    if RevokedUnder(deduped, scope, rootPem) {
      var s :| s in deduped && ScopeOfEvent(s.event) == scope && s.rootPublicKeyPem == rootPem && s.event.action.Revoke?;
      assert Concerns(s, scope.communityId, scope.memberId, rootPem) && s.event.keyId == scope.keyId;
      if StatementId(s) == StatementId(newest) {
        SameKeySameValue(deduped, StatementId, s, newest);
      } else {
        NothingFollowsRevocation(less, ordered, s, newest);
      }
    } else {
      assert newest in deduped && ScopeOfEvent(newest.event) == scope;
    }
  }
}

/** Signing-key lifecycles: from unordered key events to the keys a member may sign with. */
module Identity {
  import opened Core
  import opened Sorting
  import opened Reduction
  import opened Types

  /** The scope of one member key. The program joins the three texts with NUL characters to index them;
      `JoinedTextDeterminesScope` shows that such a text stands for one scope only. */
  datatype Scope = Scope(communityId: string, memberId: string, keyId: string)

  const NUL: char := '\U{0000}'

  function JoinedText(s: Scope): string {
    s.communityId + [NUL] + s.memberId + [NUL] + s.keyId
  }

  lemma FirstNul(a: string, x: string)
    ensures (a + [NUL] + x)[|a|] == NUL
    ensures forall i | 0 <= i < |a| :: (a + [NUL] + x)[i] == a[i]
    ensures (a + [NUL] + x)[..|a|] == a && (a + [NUL] + x)[|a| + 1..] == x
  {
  }

  lemma FirstNulSplits(a: string, x: string, b: string, y: string)
    requires NUL !in a && NUL !in b && a + [NUL] + x == b + [NUL] + y
    ensures a == b && x == y
  {
    FirstNul(a, x);
    FirstNul(b, y);
  }

  /** Joined index keys collide only when a community or member id contains the separator. */
  lemma JoinedTextDeterminesScope(s: Scope, t: Scope)
    requires NUL !in s.communityId && NUL !in t.communityId && NUL !in s.memberId && NUL !in t.memberId
    requires JoinedText(s) == JoinedText(t)
    ensures s == t
  {
    var rs, rt := s.memberId + [NUL] + s.keyId, t.memberId + [NUL] + t.keyId;
    assert JoinedText(s) == s.communityId + [NUL] + rs && JoinedText(t) == t.communityId + [NUL] + rt;
    FirstNulSplits(s.communityId, rs, t.communityId, rt);
    FirstNulSplits(s.memberId, s.keyId, t.memberId, t.keyId);
  }

  function ScopeOfEvent(e: KeyEvent): Scope { Scope(e.communityId, e.memberId, e.keyId) }

  function ScopeOf(a: Authorization): Scope { Scope(a.communityId, a.memberId, a.keyId) }

  // ---- validation of single events ------------------------------------------------------------

  predicate ValidPublicKey(p: Platform, pem: string) { Present(pem) && p.isPublicKey(pem) }

  predicate ValidTimestamp(p: Platform, time: string) { Present(time) && p.isTimestamp(time) }

  predicate ValidEvent(p: Platform, e: KeyEvent) {
    && Present(e.eventId) && Present(e.communityId) && Present(e.memberId) && Present(e.keyId)
    && ValidTimestamp(p, e.occurredAt)
    && (e.action.Activate? ==> ValidPublicKey(p, e.action.publicKeyPem))
  }

  function NormalizeEvent(p: Platform): KeyEvent -> Result<KeyEvent> {
    (e: KeyEvent) => if ValidEvent(p, e) then Ok(e) else Error
  }

  function EventId(e: KeyEvent): string { e.eventId }

  /** The self-certifying member id of a root key. */
  function MemberIdOf(p: Platform, rootPem: string): string {
    "phm_" + p.memberHash(p.fingerprint(rootPem))
  }

  predicate ValidStatement(p: Platform, s: RootStatement) {
    && ValidEvent(p, s.event)
    && ValidPublicKey(p, s.rootPublicKeyPem)
    && s.event.memberId == MemberIdOf(p, s.rootPublicKeyPem)
    && p.verifies(StatementContent(s.event, s.rootPublicKeyPem), s.rootPublicKeyPem, s.signature)
  }

  function NormalizeStatement(p: Platform): RootStatement -> Result<RootStatement> {
    (s: RootStatement) => if ValidStatement(p, s) then Ok(s) else Error
  }

  function StatementId(s: RootStatement): string { s.event.eventId }

  function EventOf(s: RootStatement): KeyEvent { s.event }

  // ---- order ----------------------------------------------------------------------------------

  /** Chronological order, with the event id deciding between equal times. */
  predicate EventBefore(less: (string, string) -> bool, a: KeyEvent, b: KeyEvent) {
    || less(a.occurredAt, b.occurredAt)
    || (!less(b.occurredAt, a.occurredAt) && less(a.eventId, b.eventId))
  }

  function EventOrder(less: (string, string) -> bool): (KeyEvent, KeyEvent) -> bool {
    (a: KeyEvent, b: KeyEvent) => EventBefore(less, a, b)
  }

  function StatementOrder(less: (string, string) -> bool): (RootStatement, RootStatement) -> bool {
    (a: RootStatement, b: RootStatement) => EventBefore(less, a.event, b.event)
  }

  // ---- the last-writer-wins reduction ---------------------------------------------------------

  /** The state of one key, with the event that determined it. */
  datatype KeyState = KeyState(scope: Scope, authorization: Authorization, occurredAt: string, eventId: string)

  function StateScope(s: KeyState): Scope { s.scope }

  /** `Map.prototype.set`: replaces in place, or appends. */
  function Put(states: seq<KeyState>, s: KeyState): (r: seq<KeyState>)
    ensures |r| >= |states|
  {
    if states == [] then [s]
    else if states[0].scope == s.scope then [s] + states[1..]
    else [states[0]] + Put(states[1..], s)
  }

  function ApplyEvent(states: seq<KeyState>, e: KeyEvent): seq<KeyState> {
    match e.action
    case Activate(pem) =>
      Put(states, KeyState(ScopeOfEvent(e), Authorization(e.communityId, e.memberId, e.keyId, pem, true), e.occurredAt, e.eventId))
    case Revoke =>
      match Lookup(states, StateScope, ScopeOfEvent(e))
      case None => states
      case Some(current) =>
        Put(states, KeyState(ScopeOfEvent(e), current.authorization.(active := false), e.occurredAt, e.eventId))
  }

  function ApplyEvents(events: seq<KeyEvent>): seq<KeyState> {
    if events == [] then []
    else ApplyEvent(ApplyEvents(events[..|events| - 1]), events[|events| - 1])
  }

  function AuthorizationOf(s: KeyState): Authorization { s.authorization }

  /** States compare by determining event, then by the scope of the key. */
  function StateOrder(less: (string, string) -> bool): (KeyState, KeyState) -> bool {
    (a: KeyState, b: KeyState) =>
      LexBefore(less,
        [a.occurredAt, a.eventId, a.authorization.communityId, a.authorization.memberId, a.authorization.keyId],
        [b.occurredAt, b.eventId, b.authorization.communityId, b.authorization.memberId, b.authorization.keyId])
  }

  /** The chain of comparisons `x || y || ...` over paired fields. */
  predicate LexBefore(less: (string, string) -> bool, a: seq<string>, b: seq<string>)
    requires |a| == |b|
  {
    a != [] && (less(a[0], b[0]) || (!less(b[0], a[0]) && LexBefore(less, a[1..], b[1..])))
  }

  /** No key id is activated with two different public keys. */
  predicate KeysNotReassigned(p: Platform, events: seq<KeyEvent>) {
    forall e, f | e in events && f in events && e.action.Activate? && f.action.Activate? ::
      ScopeOfEvent(e) == ScopeOfEvent(f) ==> p.fingerprint(e.action.publicKeyPem) == p.fingerprint(f.action.publicKeyPem)
  }

  /** The authorizations that a history of key events determines, or failure. */
  function ReducedKeys(p: Platform, less: (string, string) -> bool, events: seq<KeyEvent>): Result<seq<Authorization>> {
    var deduped :- Dedupe(events, NormalizeEvent(p), EventId);
    if !KeysNotReassigned(p, deduped) then Error
    else Ok(Map(Sort(StateOrder(less), ApplyEvents(Sort(EventOrder(less), deduped))), AuthorizationOf))
  }

  /** A revoked key is never activated again, in this order of statements. */
  predicate NeverReactivated(ordered: seq<RootStatement>) {
    forall i, j | 0 <= i < j < |ordered| ::
      ordered[i].event.action.Revoke? && ordered[j].event.action.Activate? ==>
        ScopeOfEvent(ordered[i].event) != ScopeOfEvent(ordered[j].event)
  }

  /** The authorizations that a history of root-signed statements determines, or failure. */
  function RootSignedKeys(p: Platform, less: (string, string) -> bool,
                          statements: seq<RootStatement>): Result<seq<Authorization>> {
    var deduped :- Dedupe(statements, NormalizeStatement(p), StatementId);
    if !NeverReactivated(Sort(StatementOrder(less), deduped)) then Error
    else ReducedKeys(p, less, Map(deduped, EventOf))
  }

  // ---- the reductions as the program runs them ------------------------------------------------

  method AssertKeysNotReassigned(p: Platform, events: seq<KeyEvent>) returns (ok: bool)
    ensures ok <==> KeysNotReassigned(p, events)
  {
    var terms: map<Scope, string> := map[];
    for i := 0 to |events|
      invariant KeysNotReassigned(p, events[..i])
      invariant forall e | e in events[..i] && e.action.Activate? ::
                  ScopeOfEvent(e) in terms && terms[ScopeOfEvent(e)] == p.fingerprint(e.action.publicKeyPem)
      invariant forall k | k in terms ::
                  exists e :: e in events[..i] && e.action.Activate? && ScopeOfEvent(e) == k
                              && p.fingerprint(e.action.publicKeyPem) == terms[k]
    {
      var e := events[i];
      assert events[..i + 1] == events[..i] + [e];
      if e.action.Revoke? { continue; }
      var k, fingerprint := ScopeOfEvent(e), p.fingerprint(e.action.publicKeyPem);
      if k in terms && terms[k] != fingerprint {
        var f :| f in events[..i] && f.action.Activate? && ScopeOfEvent(f) == k
                 && p.fingerprint(f.action.publicKeyPem) == terms[k];
        assert f in events && e in events;
        return false;
      }
      terms := terms[k := fingerprint];
    }
    assert events[..|events|] == events;
    return true;
  }

  method AssertNeverReactivated(ordered: seq<RootStatement>) returns (ok: bool)
    ensures ok <==> NeverReactivated(ordered)
  {
    var retired: set<Scope> := {};
    for i := 0 to |ordered|
      invariant NeverReactivated(ordered[..i])
      invariant forall k :: k in retired <==>
                  exists j :: 0 <= j < i && ordered[j].event.action.Revoke? && ScopeOfEvent(ordered[j].event) == k
    {
      var s := ordered[i];
      if s.event.action.Revoke? {
        retired := retired + {ScopeOfEvent(s.event)};
      } else if ScopeOfEvent(s.event) in retired {
        return false;
      }
    }
    assert ordered[..|ordered|] == ordered;
    return true;
  }

  method ReduceKeyEvents(p: Platform, less: (string, string) -> bool, events: seq<KeyEvent>)
    returns (r: Result<seq<Authorization>>)
    ensures r == ReducedKeys(p, less, events)
  {
    var deduped := DedupeById(events, NormalizeEvent(p), EventId);
    if deduped.Error? { return Error; }
    var consistent := AssertKeysNotReassigned(p, deduped.value);
    if !consistent { return Error; }
    var ordered := Sort(EventOrder(less), deduped.value);
    var states: seq<KeyState> := [];
    for i := 0 to |ordered|
      invariant states == ApplyEvents(ordered[..i])
    {
      assert ordered[..i + 1][..i] == ordered[..i];
      states := ApplyEvent(states, ordered[i]);
    }
    assert ordered[..|ordered|] == ordered;
    return Ok(Map(Sort(StateOrder(less), states), AuthorizationOf));
  }

  method ReduceRootStatements(p: Platform, less: (string, string) -> bool, statements: seq<RootStatement>)
    returns (r: Result<seq<Authorization>>)
    ensures r == RootSignedKeys(p, less, statements)
  {
    var deduped := DedupeById(statements, NormalizeStatement(p), StatementId);
    if deduped.Error? { return Error; }
    var permanent := AssertNeverReactivated(Sort(StatementOrder(less), deduped.value));
    if !permanent { return Error; }
    r := ReduceKeyEvents(p, less, Map(deduped.value, EventOf));
  }

  // ---- the verifier's key index ---------------------------------------------------------------

  predicate ValidAuthorization(p: Platform, a: Authorization) {
    Present(a.communityId) && Present(a.memberId) && Present(a.keyId) && ValidPublicKey(p, a.publicKeyPem)
  }

  function AuthorizationId(a: Authorization): (string, string) { (a.communityId, a.keyId) }

  function KeyOwner(a: Authorization): (string, string) { (a.communityId, a.memberId) }

  predicate AllValid(p: Platform, auths: seq<Authorization>) {
    forall a | a in auths :: ValidAuthorization(p, a)
  }

  predicate IdsAuthorizedOnce(auths: seq<Authorization>) {
    forall i, j | 0 <= i < j < |auths| :: AuthorizationId(auths[i]) != AuthorizationId(auths[j])
  }

  predicate OneOwnerPerKey(p: Platform, auths: seq<Authorization>) {
    forall i, j | 0 <= i < j < |auths| ::
      p.fingerprint(auths[i].publicKeyPem) == p.fingerprint(auths[j].publicKeyPem) ==>
        KeyOwner(auths[i]) == KeyOwner(auths[j])
  }

  /** Each authorization is valid, no key id is authorized twice, and no key has two owners. */
  predicate Indexable(p: Platform, auths: seq<Authorization>) {
    AllValid(p, auths) && IdsAuthorizedOnce(auths) && OneOwnerPerKey(p, auths)
  }

  function ActiveKeys(auths: seq<Authorization>): map<Scope, string> {
    if auths == [] then map[]
    else
      var rest, a := ActiveKeys(auths[..|auths| - 1]), auths[|auths| - 1];
      if a.active then rest[ScopeOf(a) := a.publicKeyPem] else rest
  }

  /** The active keys by community, member and key id, or failure. */
  function KeyIndex(p: Platform, auths: seq<Authorization>): Result<map<Scope, string>> {
    if Indexable(p, auths) then Ok(ActiveKeys(auths)) else Error
  }

  /** The loop's record of the ids and owners it has seen. */
  ghost predicate IdsSeen(auths: seq<Authorization>, ids: set<(string, string)>) {
    && (forall i | 0 <= i < |auths| :: AuthorizationId(auths[i]) in ids)
    && (forall id | id in ids :: exists i :: 0 <= i < |auths| && AuthorizationId(auths[i]) == id)
  }

  ghost predicate OwnersSeen(p: Platform, auths: seq<Authorization>, owners: map<string, (string, string)>) {
    && (forall i | 0 <= i < |auths| ::
          p.fingerprint(auths[i].publicKeyPem) in owners && owners[p.fingerprint(auths[i].publicKeyPem)] == KeyOwner(auths[i]))
    && (forall f | f in owners :: exists i :: 0 <= i < |auths| && p.fingerprint(auths[i].publicKeyPem) == f)
  }

  lemma IdsStep(front: seq<Authorization>, a: Authorization, ids: set<(string, string)>)
    requires IdsSeen(front, ids) && IdsAuthorizedOnce(front)
    ensures IdsAuthorizedOnce(front + [a]) <==> AuthorizationId(a) !in ids
    ensures IdsSeen(front + [a], ids + {AuthorizationId(a)})
  {
    var all := front + [a];
    assert forall i | 0 <= i < |front| :: all[i] == front[i];
    assert all[|front|] == a;
  }

  lemma OwnersStep(p: Platform, front: seq<Authorization>, a: Authorization, owners: map<string, (string, string)>)
    requires OwnersSeen(p, front, owners) && OneOwnerPerKey(p, front)
    ensures var f := p.fingerprint(a.publicKeyPem);
            && (OneOwnerPerKey(p, front + [a]) <==> (f in owners ==> owners[f] == KeyOwner(a)))
            && (OneOwnerPerKey(p, front + [a]) ==> OwnersSeen(p, front + [a], owners[f := KeyOwner(a)]))
  {
    var all := front + [a];
    assert forall i | 0 <= i < |front| :: all[i] == front[i];
    assert all[|front|] == a;
  }

  /** What the loop holds after a prefix that it has not refused. */
  ghost predicate Indexed(p: Platform, front: seq<Authorization>, keys: map<Scope, string>,
                          ids: set<(string, string)>, owners: map<string, (string, string)>)
  {
    Indexable(p, front) && keys == ActiveKeys(front) && IdsSeen(front, ids) && OwnersSeen(p, front, owners)
  }

  predicate Admissible(p: Platform, a: Authorization, ids: set<(string, string)>, owners: map<string, (string, string)>) {
    && ValidAuthorization(p, a) && AuthorizationId(a) !in ids
    && (p.fingerprint(a.publicKeyPem) in owners ==> owners[p.fingerprint(a.publicKeyPem)] == KeyOwner(a))
  }

  lemma AllValidStep(p: Platform, front: seq<Authorization>, a: Authorization)
    ensures AllValid(p, front + [a]) <==> AllValid(p, front) && ValidAuthorization(p, a)
  {
    hide ValidAuthorization;
  }

  lemma FrontIndexable(p: Platform, front: seq<Authorization>, a: Authorization)
    ensures IdsAuthorizedOnce(front + [a]) ==> IdsAuthorizedOnce(front)
    ensures OneOwnerPerKey(p, front + [a]) ==> OneOwnerPerKey(p, front)
  {
    assert forall i | 0 <= i < |front| :: (front + [a])[i] == front[i];
  }

  lemma IndexStep(p: Platform, front: seq<Authorization>, a: Authorization, keys: map<Scope, string>,
                  ids: set<(string, string)>, owners: map<string, (string, string)>)
    requires Indexed(p, front, keys, ids, owners)
    ensures Indexable(p, front + [a]) <==> Admissible(p, a, ids, owners)
    ensures Admissible(p, a, ids, owners) ==>
              Indexed(p, front + [a], if a.active then keys[ScopeOf(a) := a.publicKeyPem] else keys,
                      ids + {AuthorizationId(a)}, owners[p.fingerprint(a.publicKeyPem) := KeyOwner(a)])
  {
    hide ValidAuthorization, IdsAuthorizedOnce, OneOwnerPerKey, IdsSeen, OwnersSeen, AuthorizationId, KeyOwner;
    assert (front + [a])[..|front + [a]| - 1] == front;
    AllValidStep(p, front, a);
    IdsStep(front, a, ids);
    OwnersStep(p, front, a, owners);
    FrontIndexable(p, front, a);
  }

  /** Once a prefix is refused, the whole list is. */
  lemma RefusedForward(p: Platform, auths: seq<Authorization>, n: nat)
    requires n <= |auths| && !Indexable(p, auths[..n])
    ensures KeyIndex(p, auths) == Error
  {
    assert forall i | 0 <= i < n :: auths[..n][i] == auths[i];
  }

  /** The body of the indexing loop. */
  method IndexOne(p: Platform, ghost front: seq<Authorization>, a: Authorization, keys: map<Scope, string>,
                  ids: set<(string, string)>, owners: map<string, (string, string)>)
    returns (ok: bool, keys': map<Scope, string>, ids': set<(string, string)>, owners': map<string, (string, string)>)
    requires Indexed(p, front, keys, ids, owners)
    ensures ok <==> Indexable(p, front + [a])
    ensures ok ==> Indexed(p, front + [a], keys', ids', owners')
  {
    IndexStep(p, front, a, keys, ids, owners);
    ok, keys', ids', owners' := false, keys, ids, owners;
    if !ValidAuthorization(p, a) || AuthorizationId(a) in ids { return; }
    ids' := ids + {AuthorizationId(a)};
    var fingerprint := p.fingerprint(a.publicKeyPem);
    if fingerprint in owners && owners[fingerprint] != KeyOwner(a) { return; }
    ok, owners' := true, owners[fingerprint := KeyOwner(a)];
    keys' := if a.active then keys[ScopeOf(a) := a.publicKeyPem] else keys;
  }

  method IndexAuthorizedKeys(p: Platform, auths: seq<Authorization>) returns (r: Result<map<Scope, string>>)
    ensures r == KeyIndex(p, auths)
  {
    var ok, keys: map<Scope, string>, ids: set<(string, string)>, owners: map<string, (string, string)> :=
      true, map[], {}, map[];
    for i := 0 to |auths|
      invariant Indexed(p, auths[..i], keys, ids, owners)
    {
      TakeNext(auths, i);
      ok, keys, ids, owners := IndexOne(p, auths[..i], auths[i], keys, ids, owners);
      if !ok {
        RefusedForward(p, auths, i + 1);
        return Error;
      }
    }
    TakeAll(auths);
    return Ok(keys);
  }

  /** Verification of one detached signature against the indexed keys. */
  predicate MemberVerifies(p: Platform, keys: map<Scope, string>, communityId: string, memberId: string,
                           keyId: string, content: SignedContent, signature: string)
  {
    var scope := Scope(communityId, memberId, keyId);
    scope in keys && p.verifies(content, keys[scope], signature)
  }

  // ---- the desktop's view of its own device keys -----------------------------------------------

  /** The statement belongs to this member, in this community, under this root key. */
  predicate Concerns(s: RootStatement, communityId: string, memberId: string, rootPem: string) {
    s.event.communityId == communityId && s.event.memberId == memberId && s.rootPublicKeyPem == rootPem
  }

  /** The desktop's comparison of statement times and ids with the `<` operator on strings. */
  predicate Newer(less: (string, string) -> bool, current: RootStatement, s: RootStatement) {
    || less(current.event.occurredAt, s.event.occurredAt)
    || (current.event.occurredAt == s.event.occurredAt && less(current.event.eventId, s.event.eventId))
  }

  function KeepNewest(less: (string, string) -> bool, latest: map<string, RootStatement>,
                      s: RootStatement): map<string, RootStatement> {
    var keyId := s.event.keyId;
    if keyId !in latest || Newer(less, latest[keyId], s) then latest[keyId := s] else latest
  }

  /** The newest statement per key id among those that concern one member, in one pass. */
  function NewestByKey(less: (string, string) -> bool, statements: seq<RootStatement>,
                       communityId: string, memberId: string, rootPem: string): map<string, RootStatement>
  {
    if statements == [] then map[]
    else
      var latest := NewestByKey(less, statements[..|statements| - 1], communityId, memberId, rootPem);
      var s := statements[|statements| - 1];
      if Concerns(s, communityId, memberId, rootPem) then KeepNewest(less, latest, s) else latest
  }

  /** The device keys the desktop shows, by key id: true for active, false for revoked. */
  method DeviceSigningKeyStatuses(less: (string, string) -> bool, statements: seq<RootStatement>,
                                  communityId: string, memberId: string, rootPem: string)
    returns (active: map<string, bool>)
    ensures var latest := NewestByKey(less, statements, communityId, memberId, rootPem);
            active == map k | k in latest :: latest[k].event.action.Activate?
  {
    var latest: map<string, RootStatement> := map[];
    for i := 0 to |statements|
      invariant latest == NewestByKey(less, statements[..i], communityId, memberId, rootPem)
    {
      var s := statements[i];
      assert statements[..i + 1][..i] == statements[..i];
      if !Concerns(s, communityId, memberId, rootPem) { continue; }
      latest := KeepNewest(less, latest, s);
    }
    assert statements[..|statements|] == statements;
    active := map k | k in latest :: latest[k].event.action.Activate?;
  }
}

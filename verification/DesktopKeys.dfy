/** The desktop's view of its member's device keys, against the keys that the resolver authorizes. */
module DesktopKeys {
  import opened Core
  import opened Sorting
  import opened Reduction
  import opened Types
  import opened Identity
  import opened Records
  import opened Resolve
  import opened IdentityTheorems
  import opened ResolveTheorems
  import opened FeedResolution

  // ---- two texts of one root key ----------------------------------------------------------------

  /** A platform on which every text is a key and all keys have one fingerprint, as two PEM texts of one key do. */
  ghost function OneKeyPlatform(): Platform {
    Platform(_ => true, _ => true, _ => "key", text => text, _ => "digest", (_, _, _) => true)
  }

  /** The member activates a device key under one text of its root key, and revokes it under another. */
  ghost function ActivatedUnderFirst(): RootStatement {
    RootStatement(KeyEvent("a", "community", "phm_key", "device", Activate("device key"), "first"), "one text", "signature")
  }

  ghost function RevokedUnderSecond(): RootStatement {
    RootStatement(KeyEvent("b", "community", "phm_key", "device", Revoke, "second"), "other text", "signature")
  }

  lemma ExampleStatementsValid()
    ensures ValidStatement(OneKeyPlatform(), ActivatedUnderFirst()) && ValidStatement(OneKeyPlatform(), RevokedUnderSecond())
  {
    hide Present;
    PresentWord("a");
    PresentWord("b");
    PresentWord("community");
    PresentWord("phm_key");
    PresentWord("device");
    PresentWord("device key");
    PresentWord("first");
    PresentWord("second");
    PresentWord("one text");
    PresentWord("other text");
  }

  lemma ExampleReduces(less: (string, string) -> bool)
    requires StrictTotalOrder(less) && less("first", "second")
    ensures RootSignedKeys(OneKeyPlatform(), less, [ActivatedUnderFirst(), RevokedUnderSecond()]).Ok?
  {
    hide Present;
    var p, s, t := OneKeyPlatform(), ActivatedUnderFirst(), RevokedUnderSecond();
    ExampleStatementsValid();
    var both := [s, t];
    assert KeysDistinct(both, StatementId);
    DedupeOfDistinct(both, NormalizeStatement(p), StatementId);
    assert both[..1] == [s] && [s][..0] == [];
    assert Sort(StatementOrder(less), [s]) == [s];
    assert Sort(StatementOrder(less), both) == both;
    EventsPassUnchanged(p, both);
  }

  /** The reducer alone accepts two texts of one root key. Then the desktop of the first text shows a key that is
      revoked, and the desktop of the second does not show a key that is active. */
  lemma TwoRootTextsDisagree(less: (string, string) -> bool)
    requires StrictTotalOrder(less) && less("first", "second")
    ensures var p, history, scope := OneKeyPlatform(), [ActivatedUnderFirst(), RevokedUnderSecond()], Scope("community", "phm_key", "device");
            var shown := NewestByKey(less, history, "community", "phm_key", "one text");
            && RootSignedKeys(p, less, history).Ok? && !HoldsActive(RootSignedKeys(p, less, history).value, scope)
            && "device" in shown && shown["device"].event.action.Activate?
    ensures var p, history, scope := OneKeyPlatform(), [ActivatedUnderFirst()], Scope("community", "phm_key", "device");
            && RootSignedKeys(p, less, history).Ok? && HoldsActive(RootSignedKeys(p, less, history).value, scope)
            && "device" !in NewestByKey(less, history, "community", "phm_key", "other text")
  {
    hide ValidStatement, RootSignedKeys;
    var p, s, t, scope := OneKeyPlatform(), ActivatedUnderFirst(), RevokedUnderSecond(), Scope("community", "phm_key", "device");
    var both := [s, t];
    ExampleReduces(less);
    ActiveIffNeverRevoked(p, less, both, scope);
    assert t in both && ScopeOfEvent(t.event) == scope;
    assert both[..1] == [s] && [s][..0] == [];
    FirstReduces(less);
    ActiveIffNeverRevoked(p, less, [s], scope);
    assert s in [s] && ScopeOfEvent(s.event) == scope;
  }

  lemma FirstReduces(less: (string, string) -> bool)
    ensures RootSignedKeys(OneKeyPlatform(), less, [ActivatedUnderFirst()]).Ok?
  {
    hide Present;
    var p, s := OneKeyPlatform(), ActivatedUnderFirst();
    ExampleStatementsValid();
    DedupeOfDistinct([s], NormalizeStatement(p), StatementId);
    assert [s][..0] == [] && Sort(StatementOrder(less), [s]) == [s];
    EventsPassUnchanged(p, [s]);
  }

  // ---- resolved histories carry one text per member -----------------------------------------------

  /** The statements that decode among these records; every other record is skipped. */
  function DecodedStatements(platform: Platform, records: seq<Record>): (r: seq<RootStatement>)
    ensures forall s :: s in r <==> exists x :: x in records && DecodeStatement(platform, x.envelope) == Ok(s)
  {
    if records == [] then []
    else
      assert records == records[..|records| - 1] + [records[|records| - 1]];
      var front, last := DecodedStatements(platform, records[..|records| - 1]), DecodeStatement(platform, records[|records| - 1].envelope);
      if last.Ok? then front + [last.value] else front
  }

  /** The stages of the authorizations of a resolved history. */
  lemma AuthorizationStages(platform: Platform, less: (string, string) -> bool, mine: seq<Envelope>)
    returns (legacy: seq<Authorization>, ds: seq<Declaration>, statements: seq<RootStatement>)
    requires ResolveAuthorizations(platform, less, mine).Ok?
    ensures Reduce(DeclarationOrder(less), OfKind(mine, FeedDeclarationKind), DecodingDeclarations(platform), FeedScope) == Ok(ds)
    ensures Traverse(Filter(mine, IsStatementKind), DecodingStatements(platform)) == Ok(statements)
    ensures RootSignedKeys(platform, less, statements).Ok?
    ensures forall s | s in statements :: exists e, d ::
              e in OfKind(mine, FeedDeclarationKind) && DecodeDeclaration(platform, e) == Ok(d) && HasDeclaredRoot([d], s)
    ensures ResolveAuthorizations(platform, less, mine).value
         == legacy + Map(ds, RootAuthorization) + RootSignedKeys(platform, less, statements).value
    ensures forall a, d | a in legacy && d in OfKind(mine, FeedDeclarationKind) :: a.memberId != d.authorId
  {
    hide Present, Reduce, RootSignedKeys, DecodeDeclaration, DecodeStatement, ReducedKeys, RootKeyId, Traverse,
         ProvenRootSignedKeys, HasDeclaredRoot;
    var declarations, keyEvents := OfKind(mine, FeedDeclarationKind), Filter(mine, IsKeyEventKind);
    ds := Reduce(DeclarationOrder(less), declarations, DecodingDeclarations(platform), FeedScope).value;
    var events := Traverse(keyEvents, DecodingKeyEvents(platform)).value;
    legacy := ReducedKeys(platform, less, events).value;
    statements := ProvenStatements(platform, less, Filter(mine, IsStatementKind), declarations);
    LegacyMembers(platform, less, keyEvents, events);
  }

  lemma ProvenStatements(platform: Platform, less: (string, string) -> bool, lifecycles: seq<Envelope>, declarations: seq<Envelope>)
    returns (statements: seq<RootStatement>)
    requires ProvenRootSignedKeys(platform, less, lifecycles, declarations).Ok?
    ensures Traverse(lifecycles, DecodingStatements(platform)) == Ok(statements)
    ensures ProvenRootSignedKeys(platform, less, lifecycles, declarations) == RootSignedKeys(platform, less, statements)
    ensures forall s | s in statements ::
              exists e, d :: e in declarations && DecodeDeclaration(platform, e) == Ok(d) && HasDeclaredRoot([d], s)
  {
    hide Present, RootSignedKeys, DecodeDeclaration, DecodeStatement;
    var all := Traverse(declarations, DecodingDeclarations(platform)).value;
    statements := Traverse(lifecycles, DecodingStatements(platform)).value;
    forall s | s in statements
      ensures exists e, d :: e in declarations && DecodeDeclaration(platform, e) == Ok(d) && HasDeclaredRoot([d], s)
    {
      assert HasDeclaredRoot(all, s);
      var d :| d in all && HasDeclaredRoot([d], s);
      var i :| 0 <= i < |all| && all[i] == d;
      assert declarations[i] in declarations && DecodingDeclarations(platform)(declarations[i]) == Ok(d);
    }
  }

  lemma LegacyMembers(platform: Platform, less: (string, string) -> bool, keyEvents: seq<Envelope>, events: seq<KeyEvent>)
    requires Traverse(keyEvents, DecodingKeyEvents(platform)) == Ok(events) && ReducedKeys(platform, less, events).Ok?
    ensures forall a | a in ReducedKeys(platform, less, events).value :: exists e :: e in keyEvents && e.authorId == a.memberId
  {
    hide Present, ReducedKeys;
    var legacy := ReducedKeys(platform, less, events).value;
    forall a | a in legacy
      ensures exists e :: e in keyEvents && e.authorId == a.memberId
    {
      assert HoldsKey(legacy, ScopeOf(a));
      LastWriterWins(platform, less, events, ScopeOf(a));
      var event :| event in events && ScopeOfEvent(event) == ScopeOf(a);
      var i :| 0 <= i < |events| && events[i] == event;
      assert DecodingKeyEvents(platform)(keyEvents[i]) == Ok(event) && keyEvents[i] in keyEvents;
    }
  }

  /** The declaration is among the records of the community. */
  ghost predicate DeclaredIn(platform: Platform, communityId: string, records: seq<Record>, d: Declaration) {
    exists r :: r in records && IsDeclaration(communityId, r) && DecodeDeclaration(platform, r.envelope) == Ok(d)
  }

  /** In a resolved history, all lifecycle statements of a member carry the root key text that it has declared. */
  lemma OneRootTextPerMember(platform: Platform, less: (string, string) -> bool, communityId: string, records: seq<Record>,
                             mine: seq<Envelope>, statements: seq<RootStatement>, d: Declaration, s: RootStatement)
    requires ResolveRecords(platform, less, communityId, records).Ok?
    requires CommunityEnvelopes(platform, less, communityId, records) == Ok(mine)
    requires Traverse(Filter(mine, IsStatementKind), DecodingStatements(platform)) == Ok(statements)
    requires DeclaredIn(platform, communityId, records, d) && s in statements && s.event.memberId == d.memberId
    ensures s.rootPublicKeyPem == d.rootPublicKeyPem
  {
    hide Present, ResolveRecords, CommunityEnvelopes, Reduce, RootSignedKeys, DecodeDeclaration, DecodeStatement, ReducedKeys,
         Traverse, RootKeyId, ResolveAuthorizations, ReducedExchange, AllMemberSigned, ResolveProgress, HoldsExchange,
         KeyIndex, ResolveLedger, IsStatementKind;
    var x := ResolvedStages(platform, less, communityId, records);
    CommunityEnvelopesSpec(platform, less, communityId, records);
    var legacy, ds, again := AuthorizationStages(platform, less, mine);
    var e, f :| e in OfKind(mine, FeedDeclarationKind) && DecodeDeclaration(platform, e) == Ok(f) && HasDeclaredRoot([f], s);
    var r :| r in records && IsDeclaration(communityId, r) && DecodeDeclaration(platform, r.envelope) == Ok(d);
    var q :| q in records && q.envelope == e;
    OneFeedPerMember(platform, less, communityId, records, r, q, d, f);
  }

  // ---- the view is what the resolver authorizes ---------------------------------------------------

  lemma StatementEnvelope(platform: Platform, e: Envelope)
    requires DecodeStatement(platform, e).Ok?
    ensures var s := DecodeStatement(platform, e).value;
            IsStatementKind(e) && s.event.communityId == e.communityId && s.event.memberId == e.authorId && StatementId(s) == e.id
  {
    hide Present, MemberIdOf, ValidStatement;
  }

  /** The records that a desktop reads: all of them belong to the history, and none of its member's lifecycle
      records is missing. */
  ghost predicate HoldsOwnLifecycle(communityId: string, records: seq<Record>, seen: seq<Record>, memberId: string) {
    && (forall r | r in seen :: r in records)
    && (forall r | r in records && r.envelope.communityId == communityId && IsStatementKind(r.envelope)
                   && r.envelope.authorId == memberId :: r in seen)
  }

  /** The statements of a community that concern one declared member, in both readings. */
  lemma SameOwnStatements(platform: Platform, less: (string, string) -> bool, communityId: string, records: seq<Record>,
                          mine: seq<Envelope>, statements: seq<RootStatement>, seen: seq<Record>, memberId: string, rootPem: string)
    requires CommunityEnvelopes(platform, less, communityId, records) == Ok(mine)
    requires Traverse(Filter(mine, IsStatementKind), DecodingStatements(platform)) == Ok(statements)
    requires HoldsOwnLifecycle(communityId, records, seen, memberId)
    ensures forall s | Concerns(s, communityId, memberId, rootPem) :: s in DecodedStatements(platform, seen) <==> s in statements
  {
    hide Present, CommunityEnvelopes, DecodeStatement;
    CommunityEnvelopesSpec(platform, less, communityId, records);
    var lifecycles := Filter(mine, IsStatementKind);
    forall s | Concerns(s, communityId, memberId, rootPem)
      ensures s in DecodedStatements(platform, seen) <==> s in statements
    {
      if s in DecodedStatements(platform, seen) {
        var r :| r in seen && DecodeStatement(platform, r.envelope) == Ok(s);
        StatementEnvelope(platform, r.envelope);
        assert r.envelope in lifecycles;
        var i :| 0 <= i < |lifecycles| && lifecycles[i] == r.envelope;
        assert DecodingStatements(platform)(lifecycles[i]) == Ok(statements[i]);
      }
      if s in statements {
        var i :| 0 <= i < |statements| && statements[i] == s;
        assert DecodingStatements(platform)(lifecycles[i]) == Ok(s) && lifecycles[i] in lifecycles;
        StatementEnvelope(platform, lifecycles[i]);
        var r :| r in records && r.envelope == lifecycles[i];
      }
    }
  }

  /** Two delivered statements with one id are one statement. */
  lemma OneStatementPerId(platform: Platform, less: (string, string) -> bool, communityId: string, records: seq<Record>,
                          seen: seq<Record>, s: RootStatement, t: RootStatement)
    requires CommunityEnvelopes(platform, less, communityId, records).Ok? && forall r | r in seen :: r in records
    requires s in DecodedStatements(platform, seen) && t in DecodedStatements(platform, seen) && StatementId(s) == StatementId(t)
    ensures s == t
  {
    hide Present, Reduce, DecodeStatement, ValidEnvelope, Sort;
    var r :| r in seen && DecodeStatement(platform, r.envelope) == Ok(s);
    var q :| q in seen && DecodeStatement(platform, q.envelope) == Ok(t);
    StatementEnvelope(platform, r.envelope);
    StatementEnvelope(platform, q.envelope);
    MemberMap(records, EnvelopeOf, r);
    MemberMap(records, EnvelopeOf, q);
    ReduceSpec(EnvelopeOrder(less), Map(records, EnvelopeOf), NormalizeEnvelope(platform), EnvelopeId);
  }

  /** What the desktop shows of a declared member's device key. */
  ghost predicate ShowsActive(platform: Platform, less: (string, string) -> bool, communityId: string, seen: seq<Record>,
                              d: Declaration, keyId: string)
  {
    var latest := NewestByKey(less, DecodedStatements(platform, seen), communityId, d.memberId, d.rootPublicKeyPem);
    keyId in latest && latest[keyId].event.action.Activate?
  }

  /** The desktop shows a key that the member's statements activate and never revoke. */
  lemma ShownIffUnrevoked(platform: Platform, less: (string, string) -> bool, communityId: string, records: seq<Record>,
                          seen: seq<Record>, statements: seq<RootStatement>, d: Declaration, keyId: string)
    requires StrictTotalOrder(less) && CommunityEnvelopes(platform, less, communityId, records).Ok?
    requires RootSignedKeys(platform, less, statements).Ok? && forall r | r in seen :: r in records
    requires forall s | Concerns(s, communityId, d.memberId, d.rootPublicKeyPem) ::
               s in DecodedStatements(platform, seen) <==> s in statements
    ensures var scope := Scope(communityId, d.memberId, keyId);
            ShowsActive(platform, less, communityId, seen, d, keyId) <==>
              ActivatedUnder(statements, scope, d.rootPublicKeyPem) && !RevokedUnder(statements, scope, d.rootPublicKeyPem)
  {
    hide Present, CommunityEnvelopes, DecodedStatements, NewestByKey, Newer;
    var own, scope, pem := DecodedStatements(platform, seen), Scope(communityId, d.memberId, keyId), d.rootPublicKeyPem;
    forall s, t | s in own && t in own && StatementId(s) == StatementId(t)
      ensures s == t
    {
      OneStatementPerId(platform, less, communityId, records, seen, s, t);
    }
    NewestByKeySpec(less, own, communityId, d.memberId, pem, keyId);
    AcceptedStatements(platform, statements);
    var deduped := Dedupe(statements, NormalizeStatement(platform), StatementId).value;
    var latest := NewestByKey(less, own, communityId, d.memberId, pem);
    assert forall s :: Concerns(s, communityId, d.memberId, pem) && s.event.keyId == keyId <==>
                       ScopeOfEvent(s.event) == scope && s.rootPublicKeyPem == pem;
    if keyId in latest {
      NewestDecides(less, deduped, scope, pem, latest[keyId]);
      assert ActivatedUnder(deduped, scope, pem) == ActivatedUnder(statements, scope, pem);
      assert RevokedUnder(deduped, scope, pem) == RevokedUnder(statements, scope, pem);
    }
  }

  /** The keys that a resolved history holds active for a declared member: its root key, and the device keys. */
  lemma KeysOfDeclaredMember(platform: Platform, less: (string, string) -> bool, mine: seq<Envelope>, e: Envelope, d: Declaration,
                             auths: seq<Authorization>, statements: seq<RootStatement>, keyId: string)
    requires ResolveAuthorizations(platform, less, mine) == Ok(auths) && KeyIndex(platform, auths).Ok?
    requires Traverse(Filter(mine, IsStatementKind), DecodingStatements(platform)) == Ok(statements)
    requires e in OfKind(mine, FeedDeclarationKind) && DecodeDeclaration(platform, e) == Ok(d)
    ensures RootSignedKeys(platform, less, statements).Ok?
    ensures var scope := Scope(d.communityId, d.memberId, keyId);
            HoldsActive(RootSignedKeys(platform, less, statements).value, scope) <==> HoldsActive(auths, scope) && keyId != RootKeyId(d.memberId)
  {
    hide Present, Reduce, RootSignedKeys, DecodeDeclaration, ResolveAuthorizations, Traverse, AllValid, OneOwnerPerKey, RootKeyId,
         ActiveKeys;
    var legacy, ds, again := AuthorizationStages(platform, less, mine);
    var roots, devices := Map(ds, RootAuthorization), RootSignedKeys(platform, less, statements).value;
    var scope := Scope(d.communityId, d.memberId, keyId);
    DeclarationFields(platform, e);
    ReduceSpec(DeclarationOrder(less), OfKind(mine, FeedDeclarationKind), DecodingDeclarations(platform), FeedScope);
    assert DecodingDeclarations(platform)(e) == Ok(d);
    MemberMap(ds, RootAuthorization, d);
    RootIdsDistinct(legacy, roots, devices, RootAuthorization(d));
    forall a | a in legacy + roots && ScopeOf(a) == scope && a.active
      ensures keyId == RootKeyId(d.memberId)
    {
      if a in roots { MapMember(ds, RootAuthorization, a); }
    }
  }

  /** No device key carries the id of an authorized root key. */
  lemma RootIdsDistinct(legacy: seq<Authorization>, roots: seq<Authorization>, devices: seq<Authorization>, root: Authorization)
    requires IdsAuthorizedOnce(legacy + roots + devices) && root in roots
    ensures forall a | a in devices :: AuthorizationId(a) != AuthorizationId(root)
  {
    var all := legacy + roots + devices;
    var i :| 0 <= i < |roots| && roots[i] == root;
    assert all[|legacy| + i] == root;
    forall a | a in devices
      ensures AuthorizationId(a) != AuthorizationId(root)
    {
      var j :| 0 <= j < |devices| && devices[j] == a;
      assert all[|legacy| + |roots| + j] == a;
    }
  }

  /** On every history that resolves, the desktop of a declared member, reading at least the member's own
      lifecycle records, shows a key as active exactly when the resolved state authorizes it as an active
      device key: under the declared text, nothing is missed. */
  lemma DesktopShowsAuthorizedKeys(platform: Platform, less: (string, string) -> bool, communityId: string,
                                   records: seq<Record>, seen: seq<Record>, d: Declaration, keyId: string)
    requires StrictTotalOrder(less) && ResolveRecords(platform, less, communityId, records).Ok?
    requires DeclaredIn(platform, communityId, records, d) && HoldsOwnLifecycle(communityId, records, seen, d.memberId)
    ensures ShowsActive(platform, less, communityId, seen, d, keyId) <==>
              HoldsActive(ResolveRecords(platform, less, communityId, records).value.authorizations, Scope(communityId, d.memberId, keyId))
              && keyId != RootKeyId(d.memberId)
  {
    hide Present, ResolveRecords, CommunityEnvelopes, Reduce, RootSignedKeys, DecodeDeclaration, Traverse, RootKeyId, ShowsActive,
         ResolveAuthorizations, ReducedExchange, AllMemberSigned, ResolveProgress, HoldsExchange, HoldsActive, HoldsOwnLifecycle,
         ActivatedIn, RevokedIn, ActivatedUnder, RevokedUnder, ActivatedElsewhere, RevokedElsewhere;
    var x := ResolvedStages(platform, less, communityId, records);
    var mine := CommunityEnvelopes(platform, less, communityId, records).value;
    var auths, scope := ResolveRecords(platform, less, communityId, records).value.authorizations, Scope(communityId, d.memberId, keyId);
    CommunityEnvelopesSpec(platform, less, communityId, records);
    var r :| r in records && IsDeclaration(communityId, r) && DecodeDeclaration(platform, r.envelope) == Ok(d);
    DeclarationFields(platform, r.envelope);
    var legacy, ds, statements := AuthorizationStages(platform, less, mine);
    forall s | s in statements && s.event.memberId == d.memberId
      ensures s.rootPublicKeyPem == d.rootPublicKeyPem
    {
      OneRootTextPerMember(platform, less, communityId, records, mine, statements, d, s);
    }
    SameOwnStatements(platform, less, communityId, records, mine, statements, seen, d.memberId, d.rootPublicKeyPem);
    SeenAreRecords(communityId, records, seen, d.memberId);
    ShownIffUnrevoked(platform, less, communityId, records, seen, statements, d, keyId);
    UnderDeclaredText(statements, scope, d.rootPublicKeyPem);
    ActiveIffNeverRevoked(platform, less, statements, scope);
    ResolvedIndex(platform, less, communityId, records);
    KeysOfDeclaredMember(platform, less, mine, r.envelope, d, auths, statements, keyId);
  }

  lemma SeenAreRecords(communityId: string, records: seq<Record>, seen: seq<Record>, memberId: string)
    requires HoldsOwnLifecycle(communityId, records, seen, memberId)
    ensures forall r | r in seen :: r in records
  {
  }

  lemma UnderDeclaredText(statements: seq<RootStatement>, scope: Scope, rootPem: string)
    requires forall s | s in statements && s.event.memberId == scope.memberId :: s.rootPublicKeyPem == rootPem
    ensures ActivatedUnder(statements, scope, rootPem) == ActivatedIn(statements, scope)
    ensures RevokedUnder(statements, scope, rootPem) == RevokedIn(statements, scope)
  {
    TextsTogether(statements, scope, rootPem);
  }

  /** The verifier's index of a resolved history. */
  lemma ResolvedIndex(platform: Platform, less: (string, string) -> bool, communityId: string, records: seq<Record>)
    requires ResolveRecords(platform, less, communityId, records).Ok?
    ensures KeyIndex(platform, ResolveRecords(platform, less, communityId, records).value.authorizations).Ok?
  {
    hide Present, ResolveRecords, CommunityEnvelopes, ReducedExchange, AllMemberSigned, ResolveProgress, HoldsExchange, KeyIndex,
         ResolveAuthorizations;
    var x := ResolvedStages(platform, less, communityId, records);
  }

  // ---- the member's own feed ----------------------------------------------------------------------

  /** Over feeds, the desktop that reads its member's own feed shows exactly the authorized device keys: the
      provenance check puts every lifecycle record of the member into that feed. */
  lemma DesktopShowsItsFeed(platform: Platform, less: (string, string) -> bool, communityId: string, histories: seq<History>,
                            h: History, d: Declaration, keyId: string)
    requires StrictTotalOrder(less) && ResolveFeeds(platform, less, communityId, histories).Ok?
    requires DeclaredIn(platform, communityId, AllRecords(histories), d)
    requires h in histories && Lower(h.feedPublicKey) == d.feedPublicKey
    requires forall g | g in histories && Lower(g.feedPublicKey) == d.feedPublicKey :: g == h
    ensures ShowsActive(platform, less, communityId, h.records, d, keyId) <==>
              HoldsActive(ResolveFeeds(platform, less, communityId, histories).value.authorizations, Scope(communityId, d.memberId, keyId))
              && keyId != RootKeyId(d.memberId)
  {
    hide Present, ResolveRecords, DecodeDeclaration, Declarations, Lower, ShowsActive, HoldsActive, RootKeyId, AllRecords,
         IsProvenanceChecked;
    var records := AllRecords(histories);
    AllRecordsSpec(histories);
    forall r | r in records && r.envelope.communityId == communityId && IsStatementKind(r.envelope) && r.envelope.authorId == d.memberId
      ensures r in h.records
    {
      var g :| g in histories && r in g.records;
      LifecycleInOwnFeed(platform, less, communityId, histories, g, r, d);
    }
    DesktopShowsAuthorizedKeys(platform, less, communityId, records, h.records, d, keyId);
  }

  lemma LifecycleInOwnFeed(platform: Platform, less: (string, string) -> bool, communityId: string, histories: seq<History>,
                           g: History, r: Record, d: Declaration)
    requires ResolveFeeds(platform, less, communityId, histories).Ok? && DeclaredIn(platform, communityId, AllRecords(histories), d)
    requires g in histories && r in g.records && r.envelope.communityId == communityId && IsStatementKind(r.envelope)
    requires r.envelope.authorId == d.memberId
    ensures Lower(g.feedPublicKey) == d.feedPublicKey
  {
    hide Present, ResolveRecords, DecodeDeclaration, Lower, AllRecords, IsDeclaration, Filter, Map;
    var records := AllRecords(histories);
    var ds := Declarations(platform, communityId, records).value;
    RecordsSitInTheirAuthorsFeed(platform, less, communityId, histories, g, r);
    var q :| q in records && IsDeclaration(communityId, q) && DecodeDeclaration(platform, q.envelope) == Ok(d);
    DeclarationFields(platform, q.envelope);
    DeclarationListed(platform, communityId, records, q, d);
    assert Declares(ds, d.memberId, Lower(d.feedPublicKey));
  }

  lemma DeclarationListed(platform: Platform, communityId: string, records: seq<Record>, q: Record, d: Declaration)
    requires Declarations(platform, communityId, records).Ok?
    requires q in records && IsDeclaration(communityId, q) && DecodeDeclaration(platform, q.envelope) == Ok(d)
    ensures d in Declarations(platform, communityId, records).value
  {
    hide Present, DecodeDeclaration, IsDeclaration;
    var chosen := Filter(records, DeclaringIn(communityId));
    var envelopes, ds := Map(chosen, EnvelopeOf), Declarations(platform, communityId, records).value;
    MemberMap(chosen, EnvelopeOf, q);
    var i :| 0 <= i < |envelopes| && envelopes[i] == q.envelope;
    assert DecodingDeclarations(platform)(envelopes[i]) == Ok(ds[i]);
  }
}

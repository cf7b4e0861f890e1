/** Record resolution in the plain terms of the delivered records: which histories resolve. */
module ResolutionSpec {
  import opened Core
  import opened Sorting
  import opened Reduction
  import opened Types
  import opened Identity
  import opened Settlement
  import opened Records
  import opened Resolve
  import opened IdentityTheorems
  import opened ResolveTheorems
  import opened IdentitySpec
  import opened LedgerSpec
  import opened RecordSpec
  import Ledger

  // ---- the delivered records ------------------------------------------------------------------------

  /** Some delivered record of the community has this envelope. */
  ghost predicate Delivers(records: seq<Record>, communityId: string, e: Envelope) {
    e.communityId == communityId && exists r :: r in records && r.envelope == e
  }

  /** Every envelope is sound, and a record id names one envelope, across all communities. */
  ghost predicate EnvelopesAgree(p: Platform, records: seq<Record>) {
    && (forall r | r in records :: SoundEnvelope(p, r.envelope))
    && (forall r, q | r in records && q in records && r.envelope.id == q.envelope.id :: r.envelope == q.envelope)
  }

  lemma EnvelopesAgreeIff(p: Platform, less: (string, string) -> bool, communityId: string, records: seq<Record>)
    ensures CommunityEnvelopes(p, less, communityId, records).Ok? <==> EnvelopesAgree(p, records)
    ensures CommunityEnvelopes(p, less, communityId, records).Ok? ==>
              forall e :: e in CommunityEnvelopes(p, less, communityId, records).value <==> Delivers(records, communityId, e)
  {
    hide Present, ValidEnvelope, SoundEnvelope, Sort, Reduce;
    var delivered := Map(records, EnvelopeOf);
    ReduceSpec(EnvelopeOrder(less), delivered, NormalizeEnvelope(p), EnvelopeId);
    EnvelopesCohere(p, records);
    if CommunityEnvelopes(p, less, communityId, records).Ok? {
      CommunityEnvelopesSpec(p, less, communityId, records);
    }
  }

  lemma EnvelopesCohere(p: Platform, records: seq<Record>)
    ensures Coherent(Map(records, EnvelopeOf), NormalizeEnvelope(p), EnvelopeId) <==> EnvelopesAgree(p, records)
  {
    hide Present, ValidEnvelope, SoundEnvelope;
    var delivered := Map(records, EnvelopeOf);
    forall e ensures ValidEnvelope(p, e) <==> SoundEnvelope(p, e) { EnvelopeIsSound(p, e); }
    forall r | r in records ensures r.envelope in delivered { MemberMap(records, EnvelopeOf, r); }
    forall e | e in delivered ensures exists r :: r in records && r.envelope == e { MapMember(records, EnvelopeOf, e); }
    if EnvelopesAgree(p, records) {
      forall d, e | d in delivered && e in delivered && d.id == e.id ensures d == e {
        var r :| r in records && r.envelope == d;
        var q :| q in records && q.envelope == e;
      }
    }
  }

  // ---- signatures -----------------------------------------------------------------------------------

  /** The record carries a signature over its whole envelope that verifies under an authorized, active key of its
      author. */
  ghost predicate SignedUnder(p: Platform, auths: seq<Authorization>, r: Record) {
    && r.proof.Some? && Present(r.proof.value.keyId) && Present(r.proof.value.signature)
    && exists a :: a in auths && a.active && a.communityId == r.envelope.communityId && a.memberId == r.envelope.authorId
                   && a.keyId == r.proof.value.keyId
                   && p.verifies(RecordContent(r.envelope), a.publicKeyPem, r.proof.value.signature)
  }

  /** The kinds of record that a member signs. */
  ghost predicate MemberKind(e: Envelope) {
    || e.kind == PublishedListingKind || e.kind == ClosedListingKind
    || e.kind == ProposedProposalKind || e.kind == AcceptedProposalKind
    || e.kind == AcknowledgementKind || e.kind == AttestationKind || e.kind == TransferKind
  }

  /** The record is what its kind says. */
  ghost predicate SoundContent(p: Platform, e: Envelope) {
    match e.kind
    case PublishedListingKind => exists l :: ListingRecord(p, e, l)
    case ClosedListingKind => exists c :: ClosureRecord(p, e, c)
    case ProposedProposalKind => exists q :: ProposedRecord(p, e, q)
    case AcceptedProposalKind => exists q :: AcceptedRecord(p, e, q)
    case AcknowledgementKind => exists a :: AcknowledgementRecord(p, e, a)
    case AttestationKind => exists s :: AttestationRecord(p, e, s)
    case TransferKind => exists t :: TransferRecord(p, e, t)
    case _ => true
  }

  ghost predicate AllSigned(p: Platform, communityId: string, auths: seq<Authorization>, records: seq<Record>) {
    forall r | r in records && r.envelope.communityId == communityId && MemberKind(r.envelope) ::
      SignedUnder(p, auths, r) && SoundContent(p, r.envelope)
  }

  lemma AuthorParticipatesIff(p: Platform, e: Envelope)
    requires MemberKind(e)
    ensures AuthorParticipates(p, e) <==> SoundContent(p, e)
  {
    hide ListingRecord, ClosureRecord, ProposedRecord, AcceptedRecord, AcknowledgementRecord, AttestationRecord, TransferRecord,
         DecodeListing, DecodeClosure, DecodeProposed, DecodeAccepted, DecodeAcknowledgement, DecodeAttestation, DecodeTransfer;
    forall l ensures DecodeListing(p, e) == Ok(l) <==> ListingRecord(p, e, l) { ListingDecodes(p, e, l); }
    forall c ensures DecodeClosure(p, e) == Ok(c) <==> ClosureRecord(p, e, c) { ClosureDecodes(p, e, c); }
    forall q ensures DecodeProposed(p, e) == Ok(q) <==> ProposedRecord(p, e, q) { ProposedDecodes(p, e, q); }
    forall q ensures DecodeAccepted(p, e) == Ok(q) <==> AcceptedRecord(p, e, q) { AcceptedDecodes(p, e, q); }
    forall a ensures DecodeAcknowledgement(p, e) == Ok(a) <==> AcknowledgementRecord(p, e, a) { AcknowledgementDecodesTo(p, e, a); }
    forall s ensures DecodeAttestation(p, e) == Ok(s) <==> AttestationRecord(p, e, s) { AttestationDecodesTo(p, e, s); }
    forall t ensures DecodeTransfer(p, e) == Ok(t) <==> TransferRecord(p, e, t) { TransferDecodesTo(p, e, t); }
    assert DecodeListing(p, e).Ok? ==> ListingRecord(p, e, DecodeListing(p, e).value);
    assert DecodeClosure(p, e).Ok? ==> ClosureRecord(p, e, DecodeClosure(p, e).value);
    assert DecodeProposed(p, e).Ok? ==> ProposedRecord(p, e, DecodeProposed(p, e).value);
    assert DecodeAccepted(p, e).Ok? ==> AcceptedRecord(p, e, DecodeAccepted(p, e).value);
    assert DecodeAcknowledgement(p, e).Ok? ==> AcknowledgementRecord(p, e, DecodeAcknowledgement(p, e).value);
    assert DecodeAttestation(p, e).Ok? ==> AttestationRecord(p, e, DecodeAttestation(p, e).value);
    assert DecodeTransfer(p, e).Ok? ==> TransferRecord(p, e, DecodeTransfer(p, e).value);
  }

  /** The admission of the delivered records accepts exactly when every record of a member kind is what its kind says
      and is signed under an authorized, active key of its author. */
  lemma AllSignedIff(p: Platform, communityId: string, auths: seq<Authorization>, records: seq<Record>)
    requires KeyIndex(p, auths).Ok? && EnvelopesAgree(p, records)
    ensures AllMemberSigned(p, communityId, auths, records) <==> AllSigned(p, communityId, auths, records)
  {
    hide KeyIndex, AuthorParticipates, SoundContent, EnvelopesAgree, Present;
    forall r | r in records && r.envelope.communityId == communityId
      ensures IsMemberAuthored(r.envelope) <==> MemberKind(r.envelope)
      ensures MemberKind(r.envelope) ==> (MemberSigned(p, communityId, auths, r) <==> SignedUnder(p, auths, r) && SoundContent(p, r.envelope))
    {
      if MemberKind(r.envelope) { AuthorParticipatesIff(p, r.envelope); }
      SignedIff(p, auths, records, r);
    }
  }

  lemma SignedIff(p: Platform, auths: seq<Authorization>, records: seq<Record>, r: Record)
    requires KeyIndex(p, auths).Ok? && EnvelopesAgree(p, records) && r in records
    ensures SignedByAuthor(p, r, auths) <==> SignedUnder(p, auths, r)
  {
    hide KeyIndex, MemberVerifies, SoundEnvelope, ValidEnvelope, Present;
    EnvelopeIsSound(p, r.envelope);
    if r.proof.Some? {
      VerifiesIffActive(p, auths, r.envelope.communityId, r.envelope.authorId, r.proof.value.keyId, RecordContent(r.envelope),
                        r.proof.value.signature);
    }
  }

  // ---- authorizations ---------------------------------------------------------------------------------

  ghost predicate CarriesEvent(p: Platform, communityId: string, records: seq<Record>, k: KeyEvent) {
    exists e :: Delivers(records, communityId, e) && KeyEventRecord(p, e, k)
  }

  ghost predicate CarriesStatement(p: Platform, communityId: string, records: seq<Record>, s: RootStatement) {
    exists e :: Delivers(records, communityId, e) && StatementRecord(p, e, s)
  }

  ghost predicate CarriesDeclaration(p: Platform, communityId: string, records: seq<Record>, d: Declaration) {
    exists e :: Delivers(records, communityId, e) && DeclarationRecord(p, e, d)
  }

  /** The identity records are what their kinds say; the older events are not about a declared member, and every
      statement's root key has been declared. */
  ghost predicate IdentitiesSound(p: Platform, communityId: string, records: seq<Record>) {
    && (forall e | Delivers(records, communityId, e) && e.kind == FeedDeclarationKind :: exists d :: DeclarationRecord(p, e, d))
    && (forall e | Delivers(records, communityId, e) && (e.kind == KeyActivationKind || e.kind == KeyRevocationKind) ::
          && (exists k :: KeyEventRecord(p, e, k))
          && forall f | Delivers(records, communityId, f) && f.kind == FeedDeclarationKind :: f.authorId != e.authorId)
    && (forall e | Delivers(records, communityId, e) && (e.kind == RootKeyActivationKind || e.kind == RootKeyRevocationKind) ::
          exists s :: StatementRecord(p, e, s))
    && (forall s | CarriesStatement(p, communityId, records, s) ::
          exists d :: CarriesDeclaration(p, communityId, records, d) && d.memberId == s.event.memberId
                      && d.rootPublicKeyPem == s.rootPublicKeyPem)
  }

  /** No key id is activated with two keys, and no device key is activated after its revocation. */
  ghost predicate KeyHistoriesSound(p: Platform, less: (string, string) -> bool, communityId: string, records: seq<Record>) {
    && (forall k, l | CarriesEvent(p, communityId, records, k) && CarriesEvent(p, communityId, records, l)
                      && k.action.Activate? && l.action.Activate? && SameKey(k, l) ::
          p.fingerprint(k.action.publicKeyPem) == p.fingerprint(l.action.publicKeyPem))
    && (forall s, t | CarriesStatement(p, communityId, records, s) && CarriesStatement(p, communityId, records, t)
                      && SameKey(s.event, t.event) ::
          && (s.event.action.Activate? && t.event.action.Activate? ==>
                p.fingerprint(s.event.action.publicKeyPem) == p.fingerprint(t.event.action.publicKeyPem))
          && (s.event.action.Revoke? && t.event.action.Activate? ==> !Earlier(less, s.event, t.event)))
  }

  lemma TraverseHolds<T(!new)>(s: seq<Envelope>, f: Envelope -> Result<T>)
    ensures Traverse(s, f).Ok? <==> forall e | e in s :: f(e).Ok?
    ensures Traverse(s, f).Ok? ==> forall v :: v in Traverse(s, f).value <==> exists e :: e in s && f(e) == Ok(v)
  {
    if Traverse(s, f).Ok? {
      var values := Traverse(s, f).value;
      forall v
        ensures v in values <==> exists e :: e in s && f(e) == Ok(v)
      {
        if v in values {
          var i :| 0 <= i < |values| && values[i] == v;
          assert s[i] in s;
        }
        if e :| e in s && f(e) == Ok(v) {
          var i :| 0 <= i < |s| && s[i] == e;
          assert values[i] == v;
        }
      }
    }
  }

  /** The envelopes of the community, as the resolver selects them. */
  ghost predicate Mine(records: seq<Record>, communityId: string, mine: seq<Envelope>) {
    forall e :: e in mine <==> Delivers(records, communityId, e)
  }

  lemma KeyEventsDecode(p: Platform, communityId: string, records: seq<Record>, mine: seq<Envelope>)
    requires Mine(records, communityId, mine)
    ensures var events := Traverse(Filter(mine, IsKeyEventKind), DecodingKeyEvents(p));
            && (events.Ok? <==> forall e | Delivers(records, communityId, e) && (e.kind == KeyActivationKind || e.kind == KeyRevocationKind) ::
                                  exists k :: KeyEventRecord(p, e, k))
            && (events.Ok? ==> forall k :: k in events.value <==> CarriesEvent(p, communityId, records, k))
  {
    hide Delivers, KeyEventRecord, DecodeKeyEvent, Traverse;
    forall e, k ensures DecodeKeyEvent(p, e) == Ok(k) <==> KeyEventRecord(p, e, k) { KeyEventDecodes(p, e, k); }
    forall e, k | KeyEventRecord(p, e, k) ensures IsKeyEventKind(e) { KeyEventKind(p, e, k); }
    TraverseHolds(Filter(mine, IsKeyEventKind), DecodingKeyEvents(p));
    assert forall e :: e in Filter(mine, IsKeyEventKind) <==> Delivers(records, communityId, e) && IsKeyEventKind(e);
    forall e | DecodeKeyEvent(p, e).Ok? ensures KeyEventRecord(p, e, DecodeKeyEvent(p, e).value) { }
  }

  lemma KeyEventKind(p: Platform, e: Envelope, k: KeyEvent)
    requires KeyEventRecord(p, e, k)
    ensures IsKeyEventKind(e)
  {
  }

  lemma StatementsDecode(p: Platform, communityId: string, records: seq<Record>, mine: seq<Envelope>)
    requires Mine(records, communityId, mine)
    ensures var statements := Traverse(Filter(mine, IsStatementKind), DecodingStatements(p));
            && (statements.Ok? <==> forall e | Delivers(records, communityId, e)
                                               && (e.kind == RootKeyActivationKind || e.kind == RootKeyRevocationKind) ::
                                      exists s :: StatementRecord(p, e, s))
            && (statements.Ok? ==> forall s :: s in statements.value <==> CarriesStatement(p, communityId, records, s))
  {
    hide Delivers, StatementRecord, DecodeStatement, Traverse;
    forall e, s ensures DecodeStatement(p, e) == Ok(s) <==> StatementRecord(p, e, s) { StatementDecodes(p, e, s); }
    forall e, s | StatementRecord(p, e, s) ensures IsStatementKind(e) { StatementKind(p, e, s); }
    TraverseHolds(Filter(mine, IsStatementKind), DecodingStatements(p));
    assert forall e :: e in Filter(mine, IsStatementKind) <==> Delivers(records, communityId, e) && IsStatementKind(e);
    forall e | DecodeStatement(p, e).Ok? ensures StatementRecord(p, e, DecodeStatement(p, e).value) { }
  }

  lemma StatementKind(p: Platform, e: Envelope, s: RootStatement)
    requires StatementRecord(p, e, s)
    ensures IsStatementKind(e)
  {
  }

  lemma DeclarationsDecode(p: Platform, communityId: string, records: seq<Record>, mine: seq<Envelope>)
    requires Mine(records, communityId, mine)
    ensures var ds := Traverse(OfKind(mine, FeedDeclarationKind), DecodingDeclarations(p));
            && (ds.Ok? <==> forall e | Delivers(records, communityId, e) && e.kind == FeedDeclarationKind :: exists d :: DeclarationRecord(p, e, d))
            && (ds.Ok? ==> forall d :: d in ds.value <==> CarriesDeclaration(p, communityId, records, d))
  {
    hide Delivers, DeclarationRecord, DecodeDeclaration, Traverse;
    var chosen := OfKind(mine, FeedDeclarationKind);
    forall e, d ensures DecodeDeclaration(p, e) == Ok(d) <==> DeclarationRecord(p, e, d) { DeclarationDecodesTo(p, e, d); }
    forall e, d | DeclarationRecord(p, e, d) ensures e.kind == FeedDeclarationKind { DeclarationKind(p, e, d); }
    TraverseHolds(chosen, DecodingDeclarations(p));
    assert forall e :: e in chosen <==> Delivers(records, communityId, e) && e.kind == FeedDeclarationKind;
    forall e | DecodeDeclaration(p, e).Ok? ensures DeclarationRecord(p, e, DecodeDeclaration(p, e).value) { }
  }

  lemma DeclarationKind(p: Platform, e: Envelope, d: Declaration)
    requires DeclarationRecord(p, e, d)
    ensures e.kind == FeedDeclarationKind
  {
  }

  /** Envelopes that agree carry one event and one statement per event id, and one declaration per declared feed. */
  lemma CarriedOnce(p: Platform, communityId: string, records: seq<Record>)
    requires EnvelopesAgree(p, records)
    ensures forall k, l | CarriesEvent(p, communityId, records, k) && CarriesEvent(p, communityId, records, l) && k.eventId == l.eventId ::
              k == l
    ensures forall s, t | CarriesStatement(p, communityId, records, s) && CarriesStatement(p, communityId, records, t)
                          && s.event.eventId == t.event.eventId :: s == t
    ensures forall e, f | Delivers(records, communityId, e) && Delivers(records, communityId, f) && e.id == f.id :: e == f
  {
    hide SoundEnvelope, SoundEvent, SoundStatement;
    forall e, f | Delivers(records, communityId, e) && Delivers(records, communityId, f) && e.id == f.id
      ensures e == f
    {
      var r :| r in records && r.envelope == e;
      var q :| q in records && q.envelope == f;
    }
    forall k, l | CarriesEvent(p, communityId, records, k) && CarriesEvent(p, communityId, records, l) && k.eventId == l.eventId
      ensures k == l
    {
      var e :| Delivers(records, communityId, e) && KeyEventRecord(p, e, k);
      var f :| Delivers(records, communityId, f) && KeyEventRecord(p, f, l);
    }
    forall s, t | CarriesStatement(p, communityId, records, s) && CarriesStatement(p, communityId, records, t)
                  && s.event.eventId == t.event.eventId
      ensures s == t
    {
      var e :| Delivers(records, communityId, e) && StatementRecord(p, e, s);
      var f :| Delivers(records, communityId, f) && StatementRecord(p, f, t);
    }
  }

  lemma CarriedSound(p: Platform, communityId: string, records: seq<Record>)
    ensures forall k | CarriesEvent(p, communityId, records, k) :: SoundEvent(p, k) && k.communityId == communityId
    ensures forall s | CarriesStatement(p, communityId, records, s) :: SoundStatement(p, s) && s.event.communityId == communityId
    ensures forall d | CarriesDeclaration(p, communityId, records, d) :: d.communityId == communityId
  {
    hide SoundEnvelope, SoundEvent, SoundStatement;
  }

  /** The reducer of declarations fails only on a malformed one: a feed that is declared twice has one record. */
  lemma DeclarationsReduce(p: Platform, less: (string, string) -> bool, communityId: string, records: seq<Record>, mine: seq<Envelope>)
    requires Mine(records, communityId, mine) && EnvelopesAgree(p, records)
    ensures var ds := Reduce(DeclarationOrder(less), OfKind(mine, FeedDeclarationKind), DecodingDeclarations(p), FeedScope);
            && (ds.Ok? <==> forall e | Delivers(records, communityId, e) && e.kind == FeedDeclarationKind :: exists d :: DeclarationRecord(p, e, d))
            && (ds.Ok? ==> KeysDistinct(ds.value, FeedScope) && forall d :: d in ds.value <==> CarriesDeclaration(p, communityId, records, d))
  {
    hide Delivers, DeclarationRecord, DecodeDeclaration, Traverse, EnvelopesAgree, Reduce;
    var chosen := OfKind(mine, FeedDeclarationKind);
    ReduceSpec(DeclarationOrder(less), chosen, DecodingDeclarations(p), FeedScope);
    DeclarationsDecode(p, communityId, records, mine);
    TraverseHolds(chosen, DecodingDeclarations(p));
    CarriedOnce(p, communityId, records);
    forall e, d ensures DecodeDeclaration(p, e) == Ok(d) <==> DeclarationRecord(p, e, d) { DeclarationDecodesTo(p, e, d); }
    forall e, f | e in chosen && f in chosen && DecodeDeclaration(p, e).Ok? && DecodeDeclaration(p, f).Ok?
                  && FeedScope(DecodeDeclaration(p, e).value) == FeedScope(DecodeDeclaration(p, f).value)
      ensures DecodeDeclaration(p, e) == DecodeDeclaration(p, f)
    {
      SameFeedSameId(p, e, DecodeDeclaration(p, e).value, f, DecodeDeclaration(p, f).value);
    }
  }

  lemma SameFeedSameId(p: Platform, e: Envelope, d: Declaration, f: Envelope, g: Declaration)
    requires DeclarationRecord(p, e, d) && DeclarationRecord(p, f, g) && FeedScope(d) == FeedScope(g)
    ensures e.id == f.id
  {
  }

  lemma EventsReduce(p: Platform, less: (string, string) -> bool, communityId: string, records: seq<Record>, events: seq<KeyEvent>)
    requires EnvelopesAgree(p, records) && forall k :: k in events <==> CarriesEvent(p, communityId, records, k)
    ensures ReducedKeys(p, less, events).Ok? <==>
              forall k, l | CarriesEvent(p, communityId, records, k) && CarriesEvent(p, communityId, records, l)
                            && k.action.Activate? && l.action.Activate? && SameKey(k, l) ::
                p.fingerprint(k.action.publicKeyPem) == p.fingerprint(l.action.publicKeyPem)
  {
    hide CarriesEvent, EnvelopesAgree, SameKey, ReducedKeys, SoundEvent;
    KeysReduceIff(p, less, events);
    CarriedOnce(p, communityId, records);
    CarriedSound(p, communityId, records);
  }

  lemma StatementsReduce(p: Platform, less: (string, string) -> bool, communityId: string, records: seq<Record>,
                         statements: seq<RootStatement>)
    requires EnvelopesAgree(p, records) && StrictTotalOrder(less)
    requires forall s :: s in statements <==> CarriesStatement(p, communityId, records, s)
    ensures RootSignedKeys(p, less, statements).Ok? <==>
              forall s, t | CarriesStatement(p, communityId, records, s) && CarriesStatement(p, communityId, records, t)
                            && SameKey(s.event, t.event) ::
                && (s.event.action.Activate? && t.event.action.Activate? ==>
                      p.fingerprint(s.event.action.publicKeyPem) == p.fingerprint(t.event.action.publicKeyPem))
                && (s.event.action.Revoke? && t.event.action.Activate? ==> !Earlier(less, s.event, t.event))
  {
    hide CarriesStatement, EnvelopesAgree, SameKey, RootSignedKeys, SoundStatement, StrictTotalOrder, Earlier;
    StatementsReduceIff(p, less, statements);
    CarriedOnce(p, communityId, records);
    CarriedSound(p, communityId, records);
    var events := Map(statements, EventOf);
    forall s | s in statements ensures s.event in events { MemberMap(statements, EventOf, s); }
    forall k | k in events ensures exists s :: s in statements && s.event == k { MapMember(statements, EventOf, k); }
  }

  lemma LegacyGuard(p: Platform, communityId: string, records: seq<Record>, mine: seq<Envelope>)
    requires Mine(records, communityId, mine)
    ensures (exists e :: e in Filter(mine, IsKeyEventKind) && exists d :: d in OfKind(mine, FeedDeclarationKind) && d.authorId == e.authorId)
       <==> exists e, f :: Delivers(records, communityId, e) && (e.kind == KeyActivationKind || e.kind == KeyRevocationKind)
                           && Delivers(records, communityId, f) && f.kind == FeedDeclarationKind && f.authorId == e.authorId
  {
    hide Delivers;
    assert forall e :: e in Filter(mine, IsKeyEventKind) <==> Delivers(records, communityId, e) && IsKeyEventKind(e);
    assert forall e :: e in OfKind(mine, FeedDeclarationKind) <==> Delivers(records, communityId, e) && e.kind == FeedDeclarationKind;
  }

  lemma RootsDeclared(p: Platform, communityId: string, records: seq<Record>, ds: seq<Declaration>, statements: seq<RootStatement>)
    requires forall d :: d in ds <==> CarriesDeclaration(p, communityId, records, d)
    requires forall s :: s in statements <==> CarriesStatement(p, communityId, records, s)
    ensures (forall s | s in statements :: HasDeclaredRoot(ds, s))
       <==> forall s | CarriesStatement(p, communityId, records, s) ::
              exists d :: CarriesDeclaration(p, communityId, records, d) && d.memberId == s.event.memberId
                          && d.rootPublicKeyPem == s.rootPublicKeyPem
  {
    CarriedSound(p, communityId, records);
    hide CarriesDeclaration, CarriesStatement, SoundStatement, SoundEvent;
  }

  /** The identity records of a community give authorizations exactly when they are sound. */
  lemma AuthorizationsIff(p: Platform, less: (string, string) -> bool, communityId: string, records: seq<Record>, mine: seq<Envelope>)
    requires StrictTotalOrder(less) && EnvelopesAgree(p, records) && Mine(records, communityId, mine)
    ensures ResolveAuthorizations(p, less, mine).Ok? <==>
              IdentitiesSound(p, communityId, records) && KeyHistoriesSound(p, less, communityId, records)
  {
    hide StrictTotalOrder, EnvelopesAgree, Mine, Delivers, KeyEventRecord, StatementRecord, DeclarationRecord, CarriesEvent,
         CarriesStatement, CarriesDeclaration, Traverse, Filter, OfKind, Reduce, ReducedKeys, RootSignedKeys, HasDeclaredRoot,
         SameKey, Earlier;
    LegacyGuard(p, communityId, records, mine);
    KeyEventsDecode(p, communityId, records, mine);
    StatementsDecode(p, communityId, records, mine);
    DeclarationsDecode(p, communityId, records, mine);
    DeclarationsReduce(p, less, communityId, records, mine);
    var events := Traverse(Filter(mine, IsKeyEventKind), DecodingKeyEvents(p));
    var statements := Traverse(Filter(mine, IsStatementKind), DecodingStatements(p));
    var ds := Traverse(OfKind(mine, FeedDeclarationKind), DecodingDeclarations(p));
    if events.Ok? && statements.Ok? && ds.Ok? {
      EventsReduce(p, less, communityId, records, events.value);
      StatementsReduce(p, less, communityId, records, statements.value);
      RootsDeclared(p, communityId, records, ds.value, statements.value);
    }
  }

  lemma DeclarationsTotal(less: (string, string) -> bool, ds: seq<Declaration>, communityId: string)
    requires StrictTotalOrder(less) && KeysDistinct(ds, FeedScope) && forall d | d in ds :: d.communityId == communityId
    ensures TotalOn(DeclarationOrder(less), ds)
  {
    hide StrictTotalOrder;
    var key := (d: Declaration) => [d.memberId, d.feedPublicKey];
    forall d, e
      ensures DeclarationOrder(less)(d, e) == LexBefore(less, key(d), key(e))
    {
      LexOfTwo(less, d.memberId, d.feedPublicKey, e.memberId, e.feedPublicKey);
    }
    forall d, e | d in ds && e in ds
      ensures !DeclarationOrder(less)(d, d) && (d != e ==> DeclarationOrder(less)(d, e) || DeclarationOrder(less)(e, d))
    {
      LexStrict(less, key(d), key(e));
      if key(d) == key(e) {
        assert key(d)[0] == key(e)[0] && key(d)[1] == key(e)[1];
        SameKeySameValue(ds, FeedScope, d, e);
      }
    }
    forall d, e, f | d in ds && e in ds && f in ds && DeclarationOrder(less)(d, e) && DeclarationOrder(less)(e, f)
      ensures DeclarationOrder(less)(d, f)
    {
      LexTransitive(less, key(d), key(e), key(f));
    }
  }

  lemma LexOfTwo(less: (string, string) -> bool, a: string, b: string, c: string, d: string)
    ensures LexBefore(less, [a, b], [c, d]) <==> less(a, c) || (!less(c, a) && less(b, d))
  {
    assert [a, b][1..] == [b] && [c, d][1..] == [d] && [b][1..] == [] && [d][1..] == [];
    assert LexBefore(less, [b], [d]) <==> less(b, d) || (!less(d, b) && LexBefore(less, [], []));
  }

  lemma DeclarationsAscend(p: Platform, less: (string, string) -> bool, communityId: string, records: seq<Record>, chosen: seq<Envelope>)
    requires StrictTotalOrder(less) && Reduce(DeclarationOrder(less), chosen, DecodingDeclarations(p), FeedScope).Ok?
    requires forall d | d in Reduce(DeclarationOrder(less), chosen, DecodingDeclarations(p), FeedScope).value ::
               CarriesDeclaration(p, communityId, records, d)
    ensures Ascending(DeclarationOrder(less), Reduce(DeclarationOrder(less), chosen, DecodingDeclarations(p), FeedScope).value)
  {
    CarriedSound(p, communityId, records);
    hide StrictTotalOrder, TotalOn, Sort, CarriesDeclaration, DeclarationOrder, SoundStatement, SoundEvent, KeysDistinct;
    var deduped := Dedupe(chosen, DecodingDeclarations(p), FeedScope).value;
    DedupeSpec(chosen, DecodingDeclarations(p), FeedScope);
    SortElements(DeclarationOrder(less), deduped);
    DeclarationsTotal(less, deduped, communityId);
    SortOrdersValues(DeclarationOrder(less), deduped, FeedScope);
  }

  /** The root key of a declared member, under its own key id. */
  ghost function RootOf(d: Declaration): Authorization {
    Authorization(d.communityId, d.memberId, "root:" + d.memberId, d.rootPublicKeyPem, true)
  }

  /** What a history authorizes: what its older events establish, then the root key of every declared member, then the
      device keys that root-signed statements establish. */
  ghost predicate AuthorizedBy(p: Platform, less: (string, string) -> bool, communityId: string, records: seq<Record>,
                               events: seq<KeyEvent>, ds: seq<Declaration>, statements: seq<RootStatement>,
                               legacy: seq<Authorization>, devices: seq<Authorization>)
  {
    && (forall k :: k in events <==> CarriesEvent(p, communityId, records, k)) && HoldsWhatFollows(less, events, legacy)
    && (forall d :: d in ds <==> CarriesDeclaration(p, communityId, records, d))
    && (forall s :: s in statements <==> CarriesStatement(p, communityId, records, s))
    && HoldsWhatFollows(less, Map(statements, EventOf), devices)
  }

  lemma AuthorizationsFollow(p: Platform, less: (string, string) -> bool, communityId: string, records: seq<Record>, mine: seq<Envelope>)
    returns (events: seq<KeyEvent>, ds: seq<Declaration>, statements: seq<RootStatement>, legacy: seq<Authorization>, devices: seq<Authorization>)
    requires StrictTotalOrder(less) && EnvelopesAgree(p, records) && Mine(records, communityId, mine)
    requires ResolveAuthorizations(p, less, mine).Ok?
    ensures AuthorizedBy(p, less, communityId, records, events, ds, statements, legacy, devices)
    ensures ResolveAuthorizations(p, less, mine).value == legacy + Map(ds, RootOf) + devices
    ensures Ascending(DeclarationOrder(less), ds)
  {
    hide StrictTotalOrder, EnvelopesAgree, Mine, Delivers, CarriesEvent, CarriesStatement, CarriesDeclaration, Traverse, Filter, OfKind,
         Reduce, ReducedKeys, RootSignedKeys, HasDeclaredRoot, HoldsWhatFollows, Map;
    KeyEventsDecode(p, communityId, records, mine);
    StatementsDecode(p, communityId, records, mine);
    DeclarationsReduce(p, less, communityId, records, mine);
    events := Traverse(Filter(mine, IsKeyEventKind), DecodingKeyEvents(p)).value;
    statements := Traverse(Filter(mine, IsStatementKind), DecodingStatements(p)).value;
    ds := Reduce(DeclarationOrder(less), OfKind(mine, FeedDeclarationKind), DecodingDeclarations(p), FeedScope).value;
    legacy := ReducedKeys(p, less, events).value;
    devices := RootSignedKeys(p, less, statements).value;
    KeysFollow(p, less, events);
    StatementsFollow(p, less, statements);
    SameRoots(ds);
    DeclarationsAscend(p, less, communityId, records, OfKind(mine, FeedDeclarationKind));
  }

  lemma SameRoots(ds: seq<Declaration>)
    ensures Map(ds, RootAuthorization) == Map(ds, RootOf)
  {
  }

  // ---- the values that records carry --------------------------------------------------------------------

  /** One kind of record reduces exactly when each record of it decodes: a value's id determines its record's id. */
  lemma KindReduces<T(!new)>(p: Platform, less: (string, string) -> bool, communityId: string, records: seq<Record>, mine: seq<Envelope>,
                             kind: Kind, decode: Envelope -> Result<T>, communityOf: T -> string, id: T -> string)
    requires Present(communityId) && EnvelopesAgree(p, records) && Mine(records, communityId, mine)
    requires forall e | decode(e).Ok? :: communityOf(decode(e).value) == e.communityId && e.kind == kind
    requires forall e, f | decode(e).Ok? && decode(f).Ok? && id(decode(e).value) == id(decode(f).value) :: e.id == f.id
    ensures var r := ReduceValues(less, communityId, OfKind(mine, kind), decode, communityOf, id);
            && (r.Ok? <==> forall e | Delivers(records, communityId, e) && e.kind == kind :: decode(e).Ok?)
            && (r.Ok? ==> KeysDistinct(r.value, id)
                          && forall v :: v in r.value <==> exists e :: Delivers(records, communityId, e) && decode(e) == Ok(v))
  {
    hide EnvelopesAgree, Reduce, Present, Delivers;
    var chosen, scoped := OfKind(mine, kind), Scoped(decode, communityOf, communityId);
    CarriedOnce(p, communityId, records);
    DeliveredHere(records, communityId);
    assert forall e :: e in chosen <==> Delivers(records, communityId, e) && e.kind == kind;
    assert forall e | e in chosen :: scoped(e) == decode(e);
    KindCoheres(chosen, scoped, id);
    ReduceSpec(OrderedBy(less, id), chosen, scoped, id);
    var r := ReduceValues(less, communityId, chosen, decode, communityOf, id);
    if r.Ok? {
      forall v
        ensures v in r.value <==> exists e :: Delivers(records, communityId, e) && decode(e) == Ok(v)
      {
        if v in r.value {
          var e :| e in chosen && scoped(e) == Ok(v);
          assert Delivers(records, communityId, e) && decode(e) == Ok(v);
        }
        if e :| Delivers(records, communityId, e) && decode(e) == Ok(v) {
          assert e in chosen && scoped(e) == Ok(v);
        }
      }
    }
  }

  lemma KindCoheres<T(!new)>(chosen: seq<Envelope>, decode: Envelope -> Result<T>, id: T -> string)
    requires forall e, f | e in chosen && f in chosen && decode(e).Ok? && decode(f).Ok? && id(decode(e).value) == id(decode(f).value) ::
               e == f
    ensures Coherent(chosen, decode, id) <==> forall e | e in chosen :: decode(e).Ok?
  {
  }

  lemma DeliveredHere(records: seq<Record>, communityId: string)
    ensures forall e | Delivers(records, communityId, e) :: e.communityId == communityId
  {
  }

  ghost predicate CarriesListing(p: Platform, communityId: string, records: seq<Record>, l: Listing) {
    exists e :: Delivers(records, communityId, e) && ListingRecord(p, e, l)
  }

  ghost predicate CarriesClosure(p: Platform, communityId: string, records: seq<Record>, c: Closure) {
    exists e :: Delivers(records, communityId, e) && ClosureRecord(p, e, c)
  }

  ghost predicate CarriesProposed(p: Platform, communityId: string, records: seq<Record>, q: Proposal) {
    exists e :: Delivers(records, communityId, e) && ProposedRecord(p, e, q)
  }

  ghost predicate CarriesAccepted(p: Platform, communityId: string, records: seq<Record>, q: Proposal) {
    exists e :: Delivers(records, communityId, e) && AcceptedRecord(p, e, q)
  }

  ghost predicate CarriesAcknowledgement(p: Platform, communityId: string, records: seq<Record>, a: Acknowledgement) {
    exists e :: Delivers(records, communityId, e) && AcknowledgementRecord(p, e, a)
  }

  ghost predicate CarriesAttestation(p: Platform, communityId: string, records: seq<Record>, s: SettlementAttestation) {
    exists e :: Delivers(records, communityId, e) && AttestationRecord(p, e, s)
  }

  ghost predicate CarriesTransfer(p: Platform, communityId: string, records: seq<Record>, t: Transfer) {
    exists e :: Delivers(records, communityId, e) && TransferRecord(p, e, t)
  }

  /** Every record of the kind is sound. */
  ghost predicate AllSound(p: Platform, communityId: string, records: seq<Record>, kind: Kind) {
    forall e | Delivers(records, communityId, e) && e.kind == kind :: SoundContent(p, e)
  }

  lemma ListingsReduce(p: Platform, less: (string, string) -> bool, communityId: string, records: seq<Record>, mine: seq<Envelope>)
    requires Present(communityId) && EnvelopesAgree(p, records) && Mine(records, communityId, mine)
    ensures var r := ReducedListings(p, less, communityId, mine);
            && (r.Ok? <==> AllSound(p, communityId, records, PublishedListingKind))
            && (r.Ok? ==> KeysDistinct(r.value, ListingId) && forall v :: v in r.value <==> CarriesListing(p, communityId, records, v))
  {
    hide EnvelopesAgree, Mine, Delivers, Present, DecodeListing, ReduceValues, OfKind;
    forall e, v ensures DecodeListing(p, e) == Ok(v) <==> ListingRecord(p, e, v) { ListingDecodes(p, e, v); }
    assert forall e | DecodeListing(p, e).Ok? :: ListingRecord(p, e, DecodeListing(p, e).value);
    KindReduces(p, less, communityId, records, mine, PublishedListingKind, DecodingListings(p), ListingCommunity, ListingId);
  }

  lemma ClosuresReduce(p: Platform, less: (string, string) -> bool, communityId: string, records: seq<Record>, mine: seq<Envelope>)
    requires Present(communityId) && EnvelopesAgree(p, records) && Mine(records, communityId, mine)
    ensures var r := ReducedClosures(p, less, communityId, mine);
            && (r.Ok? <==> AllSound(p, communityId, records, ClosedListingKind))
            && (r.Ok? ==> KeysDistinct(r.value, ClosureId) && forall v :: v in r.value <==> CarriesClosure(p, communityId, records, v))
  {
    hide EnvelopesAgree, Mine, Delivers, Present, DecodeClosure, ReduceValues, OfKind;
    forall e, v ensures DecodeClosure(p, e) == Ok(v) <==> ClosureRecord(p, e, v) { ClosureDecodes(p, e, v); }
    assert forall e | DecodeClosure(p, e).Ok? :: ClosureRecord(p, e, DecodeClosure(p, e).value);
    KindReduces(p, less, communityId, records, mine, ClosedListingKind, DecodingClosures(p), ClosureCommunity, ClosureId);
  }

  lemma ProposedReduce(p: Platform, less: (string, string) -> bool, communityId: string, records: seq<Record>, mine: seq<Envelope>)
    requires Present(communityId) && EnvelopesAgree(p, records) && Mine(records, communityId, mine)
    ensures var r := ReducedProposed(p, less, communityId, mine);
            && (r.Ok? <==> AllSound(p, communityId, records, ProposedProposalKind))
            && (r.Ok? ==> KeysDistinct(r.value, ProposalId) && forall v :: v in r.value <==> CarriesProposed(p, communityId, records, v))
  {
    hide EnvelopesAgree, Mine, Delivers, Present, DecodeProposed, ReduceValues, OfKind;
    forall e, v ensures DecodeProposed(p, e) == Ok(v) <==> ProposedRecord(p, e, v) { ProposedDecodes(p, e, v); }
    assert forall e | DecodeProposed(p, e).Ok? :: ProposedRecord(p, e, DecodeProposed(p, e).value);
    KindReduces(p, less, communityId, records, mine, ProposedProposalKind, DecodingProposed(p), ProposalCommunity, ProposalId);
  }

  lemma AcceptedReduce(p: Platform, less: (string, string) -> bool, communityId: string, records: seq<Record>, mine: seq<Envelope>)
    requires Present(communityId) && EnvelopesAgree(p, records) && Mine(records, communityId, mine)
    ensures var r := ReducedAccepted(p, less, communityId, mine);
            && (r.Ok? <==> AllSound(p, communityId, records, AcceptedProposalKind))
            && (r.Ok? ==> KeysDistinct(r.value, ProposalId) && forall v :: v in r.value <==> CarriesAccepted(p, communityId, records, v))
  {
    hide EnvelopesAgree, Mine, Delivers, Present, DecodeAccepted, ReduceValues, OfKind;
    forall e, v ensures DecodeAccepted(p, e) == Ok(v) <==> AcceptedRecord(p, e, v) { AcceptedDecodes(p, e, v); }
    assert forall e | DecodeAccepted(p, e).Ok? :: AcceptedRecord(p, e, DecodeAccepted(p, e).value);
    KindReduces(p, less, communityId, records, mine, AcceptedProposalKind, DecodingAccepted(p), ProposalCommunity, ProposalId);
  }

  lemma AcknowledgementsReduce(p: Platform, less: (string, string) -> bool, communityId: string, records: seq<Record>, mine: seq<Envelope>)
    requires Present(communityId) && EnvelopesAgree(p, records) && Mine(records, communityId, mine)
    ensures var r := ReducedAcknowledgements(p, less, communityId, mine);
            && (r.Ok? <==> AllSound(p, communityId, records, AcknowledgementKind))
            && (r.Ok? ==> KeysDistinct(r.value, AckId) && forall v :: v in r.value <==> CarriesAcknowledgement(p, communityId, records, v))
  {
    hide EnvelopesAgree, Mine, Delivers, Present, DecodeAcknowledgement, ReduceValues, OfKind;
    forall e, v ensures DecodeAcknowledgement(p, e) == Ok(v) <==> AcknowledgementRecord(p, e, v) { AcknowledgementDecodesTo(p, e, v); }
    assert forall e | DecodeAcknowledgement(p, e).Ok? :: AcknowledgementRecord(p, e, DecodeAcknowledgement(p, e).value);
    KindReduces(p, less, communityId, records, mine, AcknowledgementKind, DecodingAcknowledgements(p), AckCommunity, AckId);
  }

  lemma AttestationsReduce(p: Platform, less: (string, string) -> bool, communityId: string, records: seq<Record>, mine: seq<Envelope>)
    requires Present(communityId) && EnvelopesAgree(p, records) && Mine(records, communityId, mine)
    ensures var r := ReducedAttestations(p, less, communityId, mine);
            && (r.Ok? <==> AllSound(p, communityId, records, AttestationKind))
            && (r.Ok? ==> KeysDistinct(r.value, AttestationId) && forall v :: v in r.value <==> CarriesAttestation(p, communityId, records, v))
  {
    hide EnvelopesAgree, Mine, Delivers, Present, DecodeAttestation, ReduceValues, OfKind;
    forall e, v ensures DecodeAttestation(p, e) == Ok(v) <==> AttestationRecord(p, e, v) { AttestationDecodesTo(p, e, v); }
    assert forall e | DecodeAttestation(p, e).Ok? :: AttestationRecord(p, e, DecodeAttestation(p, e).value);
    KindReduces(p, less, communityId, records, mine, AttestationKind, DecodingAttestations(p), AttestationCommunity, AttestationId);
  }

  lemma TransfersReduce(p: Platform, less: (string, string) -> bool, communityId: string, records: seq<Record>, mine: seq<Envelope>)
    requires Present(communityId) && EnvelopesAgree(p, records) && Mine(records, communityId, mine)
    ensures var r := ReducedTransfers(p, less, communityId, mine);
            && (r.Ok? <==> AllSound(p, communityId, records, TransferKind))
            && (r.Ok? ==> KeysDistinct(r.value, Ledger.TransferId) && forall v :: v in r.value <==> CarriesTransfer(p, communityId, records, v))
  {
    hide EnvelopesAgree, Mine, Delivers, Present, DecodeTransfer, ReduceValues, OfKind;
    forall e, v ensures DecodeTransfer(p, e) == Ok(v) <==> TransferRecord(p, e, v) { TransferDecodesTo(p, e, v); }
    assert forall e | DecodeTransfer(p, e).Ok? :: TransferRecord(p, e, DecodeTransfer(p, e).value);
    KindReduces(p, less, communityId, records, mine, TransferKind, DecodingTransfers(p), TransferCommunity, Ledger.TransferId);
  }
}

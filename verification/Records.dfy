/** Envelopes and the mapping of replicated records to the values they carry. */
module Records {
  import opened Core
  import opened Sorting
  import opened Reduction
  import opened Types
  import opened Identity
  import Ledger
  import Settlement

  // ---- envelopes ------------------------------------------------------------------------------

  predicate ValidEnvelope(platform: Platform, e: Envelope) {
    && Present(e.id)
    && (e.schema.OtherSchema? ==> Present(e.schema.name))
    && e.version >= 1
    && (e.kind.OtherKind? ==> Present(e.kind.name))
    && Present(e.communityId)
    && ValidTimestamp(platform, e.occurredAt)
    && Present(e.authorId)
  }

  function NormalizeEnvelope(platform: Platform): Envelope -> Result<Envelope> {
    (e: Envelope) => if ValidEnvelope(platform, e) then Ok(e) else Error
  }

  function EnvelopeId(e: Envelope): string { e.id }

  function EnvelopeOf(r: Record): Envelope { r.envelope }

  /** Envelopes are ordered by time, then by id. */
  function EnvelopeOrder(less: (string, string) -> bool): (Envelope, Envelope) -> bool {
    (a: Envelope, b: Envelope) =>
      less(a.occurredAt, b.occurredAt) || (!less(b.occurredAt, a.occurredAt) && less(a.id, b.id))
  }

  // ---- shapes of the carried values -----------------------------------------------------------

  predicate ValidListing(l: Listing) {
    && Present(l.id) && Present(l.communityId) && Present(l.memberId)
    && Present(l.title) && Present(l.description) && l.minutes > 0 && l.status.Published?
  }

  function ClosedListingRecordId(listingId: string): string { listingId + "/closed" }

  predicate ValidClosure(c: Closure) {
    && Present(c.id) && Present(c.communityId) && Present(c.listingId) && Present(c.memberId)
    && c.id == ClosedListingRecordId(c.listingId)
  }

  function ProposedRecordId(proposalId: string): string { proposalId + "/proposed" }

  function AcceptedRecordId(proposalId: string): string { proposalId + "/accepted" }

  /** The terms that proposed and accepted proposals share. */
  predicate ValidProposalTerms(p: Proposal) {
    && Present(p.id) && Present(p.communityId) && Present(p.offerId) && Present(p.requestId)
    && Present(p.provider) && Present(p.receiver) && Present(p.creator)
    && p.minutes > 0 && p.provider != p.receiver
    && (p.creator == p.provider || p.creator == p.receiver)
  }

  predicate ValidProposed(p: Proposal) {
    ValidProposalTerms(p) && p.status.Proposed? && p.acceptedBy.None?
  }

  function Counterparty(p: Proposal): string {
    if p.creator == p.provider then p.receiver else p.provider
  }

  predicate ValidAccepted(p: Proposal) {
    ValidProposalTerms(p) && p.status.Accepted? && p.acceptedBy == Some(Counterparty(p))
  }

  predicate ValidAcknowledgementShape(a: Acknowledgement) {
    && Present(a.id) && Present(a.communityId) && Present(a.sourceProposalId)
    && Present(a.provider) && Present(a.recipient) && Present(a.acknowledgedBy)
    && a.minutes > 0 && a.provider != a.recipient
    && (a.acknowledgedBy == a.provider || a.acknowledgedBy == a.recipient)
    && a.id == Settlement.AcknowledgementId(a.sourceProposalId, a.acknowledgedBy)
  }

  predicate ValidAttestationShape(s: SettlementAttestation) {
    && Present(s.id) && Present(s.communityId) && Present(s.sourceProposalId)
    && Ledger.ValidAttestation(s.attestation)
    && s.id == Settlement.AttestationRecordId(s.sourceProposalId, s.attestation.memberId)
  }

  // ---- decoders -------------------------------------------------------------------------------

  /** A timebank envelope of this kind, carrying a value of this community. */
  predicate Carries(platform: Platform, e: Envelope, kind: Kind, recordId: string, communityId: string, author: string) {
    && ValidEnvelope(platform, e) && e.schema.TimebankSchema? && e.version == 1
    && e.kind == kind && e.id == recordId && e.communityId == communityId && e.authorId == author
  }

  function DecodeListing(platform: Platform, e: Envelope): Result<Listing> {
    if e.payload.ListingPayload? && ValidListing(e.payload.listing)
       && Carries(platform, e, PublishedListingKind, e.payload.listing.id, e.payload.listing.communityId, e.payload.listing.memberId)
    then Ok(e.payload.listing) else Error
  }

  function DecodeClosure(platform: Platform, e: Envelope): Result<Closure> {
    if e.payload.ClosurePayload? && ValidClosure(e.payload.closure)
       && Carries(platform, e, ClosedListingKind, e.payload.closure.id, e.payload.closure.communityId, e.payload.closure.memberId)
    then Ok(e.payload.closure) else Error
  }

  function DecodeProposed(platform: Platform, e: Envelope): Result<Proposal> {
    if e.payload.ProposalPayload? && ValidProposed(e.payload.proposal)
       && Carries(platform, e, ProposedProposalKind, ProposedRecordId(e.payload.proposal.id),
                  e.payload.proposal.communityId, e.payload.proposal.creator)
    then Ok(e.payload.proposal) else Error
  }

  function DecodeAccepted(platform: Platform, e: Envelope): Result<Proposal> {
    if e.payload.ProposalPayload? && ValidAccepted(e.payload.proposal)
       && Carries(platform, e, AcceptedProposalKind, AcceptedRecordId(e.payload.proposal.id),
                  e.payload.proposal.communityId, e.payload.proposal.acceptedBy.value)
    then Ok(e.payload.proposal) else Error
  }

  function DecodeAcknowledgement(platform: Platform, e: Envelope): Result<Acknowledgement> {
    if e.payload.AcknowledgementPayload? && ValidAcknowledgementShape(e.payload.acknowledgement)
       && Carries(platform, e, AcknowledgementKind, e.payload.acknowledgement.id,
                  e.payload.acknowledgement.communityId, e.payload.acknowledgement.acknowledgedBy)
    then Ok(e.payload.acknowledgement) else Error
  }

  function DecodeAttestation(platform: Platform, e: Envelope): Result<SettlementAttestation> {
    if e.payload.AttestationPayload? && ValidAttestationShape(e.payload.attestation)
       && Carries(platform, e, AttestationKind, e.payload.attestation.id,
                  e.payload.attestation.communityId, e.payload.attestation.attestation.memberId)
    then Ok(e.payload.attestation) else Error
  }

  function DecodeTransfer(platform: Platform, e: Envelope): Result<Transfer> {
    if !e.payload.TransferPayload? then Error
    else
      var t :- Ledger.CreateTransfer(e.payload.transfer);
      if Carries(platform, e, TransferKind, t.terms.id, t.terms.communityId, e.authorId)
         && (e.authorId == t.terms.provider || e.authorId == t.terms.recipient)
      then Ok(t) else Error
  }

  /** An unsigned key event of the older protocol. */
  function DecodeKeyEvent(platform: Platform, e: Envelope): Result<KeyEvent> {
    if !e.payload.KeyEventPayload? then Error
    else
      var event := e.payload.event;
      if ValidEnvelope(platform, e) && ValidEvent(platform, event) && e.schema.IdentitySchema? && e.version == 1
         && e.kind == (if event.action.Activate? then KeyActivationKind else KeyRevocationKind)
         && e.id == event.eventId && e.authorId == event.memberId
         && e.communityId == event.communityId && e.occurredAt == event.occurredAt
      then Ok(event) else Error
  }

  // ---- feed declarations ----------------------------------------------------------------------

  predicate IsLowerHex(c: char) { '0' <= c <= '9' || 'a' <= c <= 'f' }

  predicate IsHex(c: char) { IsLowerHex(c) || 'A' <= c <= 'F' }

  /** A Hypercore key as declarations carry it. */
  predicate IsDeclaredKey(text: string) {
    |text| == 64 && forall i | 0 <= i < 64 :: IsLowerHex(text[i])
  }

  /** A Hypercore key as a history names it, in either case. */
  predicate IsHistoryKey(text: string) {
    |text| == 64 && forall i | 0 <= i < 64 :: IsHex(text[i])
  }

  function LowerChar(c: char): char {
    if 'A' <= c <= 'F' then (c as int - 'A' as int + 'a' as int) as char else c
  }

  /** `toLowerCase` on hexadecimal text. */
  function Lower(text: string): (r: string)
    ensures |r| == |text|
  {
    Map(text, LowerChar)
  }

  lemma DeclaredKeyIsLower(text: string)
    requires IsDeclaredKey(text)
    ensures Lower(text) == text
  {
    assert forall i | 0 <= i < |text| :: Lower(text)[i] == text[i];
  }

  predicate ValidDeclaration(platform: Platform, d: Declaration) {
    && ValidPublicKey(platform, d.rootPublicKeyPem)
    && Present(d.communityId) && IsDeclaredKey(d.feedPublicKey) && ValidTimestamp(platform, d.occurredAt)
    && d.memberId == MemberIdOf(platform, d.rootPublicKeyPem)
    && platform.verifies(DeclarationContent(d.memberId, d.communityId, d.feedPublicKey, d.occurredAt, d.rootPublicKeyPem),
                         d.rootPublicKeyPem, d.signature)
  }

  function DeclarationRecordId(d: Declaration): string {
    "member-feed:" + d.memberId + ":" + d.communityId + ":" + d.feedPublicKey
  }

  function DecodeDeclaration(platform: Platform, e: Envelope): Result<Declaration> {
    if !e.payload.DeclarationPayload? then Error
    else
      var d := e.payload.declaration;
      if ValidEnvelope(platform, e) && ValidDeclaration(platform, d)
         && e.schema.IdentitySchema? && e.version == 1 && e.kind.FeedDeclarationKind?
         && e.authorId == d.memberId && e.communityId == d.communityId
         && e.occurredAt == d.occurredAt && e.id == DeclarationRecordId(d)
      then Ok(d) else Error
  }

  function RootKeyId(memberId: string): string { "root:" + memberId }

  /** One member and feed in one community. */
  function FeedScope(d: Declaration): (string, string, string) { (d.communityId, d.memberId, d.feedPublicKey) }

  function DeclarationOrder(less: (string, string) -> bool): (Declaration, Declaration) -> bool {
    (a: Declaration, b: Declaration) =>
      less(a.memberId, b.memberId) || (!less(b.memberId, a.memberId) && less(a.feedPublicKey, b.feedPublicKey))
  }

  function RootAuthorization(d: Declaration): Authorization {
    Authorization(d.communityId, d.memberId, RootKeyId(d.memberId), d.rootPublicKeyPem, true)
  }

  function DecodingDeclarations(platform: Platform): Envelope -> Result<Declaration> {
    (e: Envelope) => DecodeDeclaration(platform, e)
  }

  /** The root key of each declared member, as an authorization. */
  function DeclaredRootKeys(platform: Platform, less: (string, string) -> bool,
                            declarations: seq<Envelope>): Result<seq<Authorization>> {
    var ds :- Reduce(DeclarationOrder(less), declarations, DecodingDeclarations(platform), FeedScope);
    Ok(Map(ds, RootAuthorization))
  }

  // ---- root-signed key lifecycles --------------------------------------------------------------

  function DecodeStatement(platform: Platform, e: Envelope): Result<RootStatement> {
    if !e.payload.RootStatementPayload? then Error
    else
      var s := e.payload.statement;
      if ValidEnvelope(platform, e) && ValidStatement(platform, s) && e.schema.IdentitySchema? && e.version == 1
         && e.kind == (if s.event.action.Activate? then RootKeyActivationKind else RootKeyRevocationKind)
         && e.id == s.event.eventId && e.communityId == s.event.communityId
         && e.authorId == s.event.memberId && e.occurredAt == s.event.occurredAt
      then Ok(s) else Error
  }

  /** Each element through a function that may fail. */
  function Traverse<T, U>(s: seq<T>, f: T -> Result<U>): (r: Result<seq<U>>)
    ensures r.Ok? <==> forall x | x in s :: f(x).Ok?
    ensures r.Ok? ==> |r.value| == |s| && forall i | 0 <= i < |s| :: f(s[i]) == Ok(r.value[i])
  {
    if s == [] then Ok([])
    else
      assert s == s[..|s| - 1] + [s[|s| - 1]];
      var front :- Traverse(s[..|s| - 1], f);
      var last :- f(s[|s| - 1]);
      Ok(front + [last])
  }

  function DecodingStatements(platform: Platform): Envelope -> Result<RootStatement> {
    (e: Envelope) => DecodeStatement(platform, e)
  }

  predicate HasDeclaredRoot(declarations: seq<Declaration>, s: RootStatement) {
    exists d :: d in declarations && d.communityId == s.event.communityId
                && d.memberId == s.event.memberId && d.rootPublicKeyPem == s.rootPublicKeyPem
  }

  /** The device keys of members whose root has declared a feed, or failure. */
  function ProvenRootSignedKeys(platform: Platform, less: (string, string) -> bool,
                                lifecycles: seq<Envelope>, declarations: seq<Envelope>): Result<seq<Authorization>>
  {
    var ds :- Traverse(declarations, DecodingDeclarations(platform));
    var statements :- Traverse(lifecycles, DecodingStatements(platform));
    if forall s | s in statements :: HasDeclaredRoot(ds, s) then RootSignedKeys(platform, less, statements) else Error
  }

  // ---- the reducers of one community's records --------------------------------------------------

  /** Decoding that also refuses a value of another community. */
  function Scoped<T>(decode: Envelope -> Result<T>, communityOf: T -> string, communityId: string): Envelope -> Result<T> {
    (e: Envelope) =>
      match decode(e)
      case Error => Error
      case Ok(v) => if communityOf(v) == communityId then Ok(v) else Error
  }

  function OrderedBy<T>(less: (string, string) -> bool, id: T -> string): (T, T) -> bool {
    (a: T, b: T) => less(id(a), id(b))
  }

  /** `reduceRecords`: decode, scope, deduplicate by the value's id, sort by that id. */
  function ReduceValues<T(==)>(less: (string, string) -> bool, communityId: string, envelopes: seq<Envelope>,
                               decode: Envelope -> Result<T>, communityOf: T -> string, id: T -> string): Result<seq<T>>
  {
    if !Present(communityId) then Error
    else Reduce(OrderedBy(less, id), envelopes, Scoped(decode, communityOf, communityId), id)
  }

  method ReduceRecords<T(==)>(less: (string, string) -> bool, communityId: string, envelopes: seq<Envelope>,
                              decode: Envelope -> Result<T>, communityOf: T -> string, id: T -> string)
    returns (r: Result<seq<T>>)
    ensures r == ReduceValues(less, communityId, envelopes, decode, communityOf, id)
  {
    if !Present(communityId) { return Error; }
    r := ReduceById(OrderedBy(less, id), envelopes, Scoped(decode, communityOf, communityId), id);
  }

  // ---- signatures -----------------------------------------------------------------------------

  /** The author's signature over the whole envelope verifies under an active key of the author. */
  predicate SignedByAuthor(platform: Platform, r: Record, auths: seq<Authorization>) {
    && ValidEnvelope(platform, r.envelope) && r.proof.Some?
    && Present(r.proof.value.keyId) && Present(r.proof.value.signature)
    && var keys := KeyIndex(platform, auths);
       keys.Ok? && MemberVerifies(platform, keys.value, r.envelope.communityId, r.envelope.authorId,
                                  r.proof.value.keyId, RecordContent(r.envelope), r.proof.value.signature)
  }
}

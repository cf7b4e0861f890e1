/** What each kind of record must look like, field by field. */
module RecordSpec {
  import opened Core
  import opened Types
  import opened Identity
  import opened Records
  import opened IdentitySpec
  import opened LedgerSpec

  ghost predicate SoundEnvelope(p: Platform, e: Envelope) {
    && Present(e.id) && Present(e.communityId) && Present(e.authorId)
    && Present(e.occurredAt) && p.isTimestamp(e.occurredAt) && e.version >= 1
    && (e.schema.OtherSchema? ==> Present(e.schema.name)) && (e.kind.OtherKind? ==> Present(e.kind.name))
  }

  // ---- listings -----------------------------------------------------------------------------------

  /** The envelope publishes the listing, in its owner's name. */
  ghost predicate ListingRecord(p: Platform, e: Envelope, l: Listing) {
    && SoundEnvelope(p, e) && e.schema == TimebankSchema && e.version == 1 && e.kind == PublishedListingKind
    && e.payload == ListingPayload(l) && e.id == l.id && e.communityId == l.communityId && e.authorId == l.memberId
    && Present(l.title) && Present(l.description) && l.minutes > 0 && l.status == Published
  }

  /** The envelope closes a listing, in the name of the member that closes it. */
  ghost predicate ClosureRecord(p: Platform, e: Envelope, c: Closure) {
    && SoundEnvelope(p, e) && e.schema == TimebankSchema && e.version == 1 && e.kind == ClosedListingKind
    && e.payload == ClosurePayload(c) && e.id == c.id == c.listingId + "/closed" && Present(c.listingId)
    && e.communityId == c.communityId && e.authorId == c.memberId
  }

  // ---- proposals ----------------------------------------------------------------------------------

  /** Two different members, one of whom created the proposal, for a positive number of minutes. */
  ghost predicate SoundProposal(q: Proposal) {
    && Present(q.id) && Present(q.communityId) && Present(q.offerId) && Present(q.requestId)
    && Present(q.provider) && Present(q.receiver) && q.provider != q.receiver && q.minutes > 0
    && q.creator in {q.provider, q.receiver}
  }

  /** The envelope proposes, in the creator's name. */
  ghost predicate ProposedRecord(p: Platform, e: Envelope, q: Proposal) {
    && SoundEnvelope(p, e) && e.schema == TimebankSchema && e.version == 1 && e.kind == ProposedProposalKind
    && e.payload == ProposalPayload(q) && e.id == q.id + "/proposed" && e.communityId == q.communityId
    && e.authorId == q.creator && SoundProposal(q) && q.status == Proposed && q.acceptedBy == None
  }

  /** The envelope accepts, in the name of the participant that did not create the proposal. */
  ghost predicate AcceptedRecord(p: Platform, e: Envelope, q: Proposal) {
    && SoundEnvelope(p, e) && e.schema == TimebankSchema && e.version == 1 && e.kind == AcceptedProposalKind
    && e.payload == ProposalPayload(q) && e.id == q.id + "/accepted" && e.communityId == q.communityId
    && q.acceptedBy == Some(e.authorId) && SoundProposal(q) && q.status == Accepted
    && e.authorId != q.creator && e.authorId in {q.provider, q.receiver}
  }

  // ---- settlement ---------------------------------------------------------------------------------

  /** The envelope acknowledges an exchange, in the name of the participant that acknowledges. */
  ghost predicate AcknowledgementRecord(p: Platform, e: Envelope, a: Acknowledgement) {
    && SoundEnvelope(p, e) && e.schema == TimebankSchema && e.version == 1 && e.kind == AcknowledgementKind
    && e.payload == AcknowledgementPayload(a) && e.id == a.id == a.sourceProposalId + "/settlement-ack/" + a.acknowledgedBy
    && e.communityId == a.communityId && e.authorId == a.acknowledgedBy && Present(a.sourceProposalId)
    && Present(a.provider) && Present(a.recipient) && a.provider != a.recipient && a.minutes > 0
    && a.acknowledgedBy in {a.provider, a.recipient}
  }

  /** The envelope attests settlement terms, in the name of the member that attests. */
  ghost predicate AttestationRecord(p: Platform, e: Envelope, s: SettlementAttestation) {
    && SoundEnvelope(p, e) && e.schema == TimebankSchema && e.version == 1 && e.kind == AttestationKind
    && e.payload == AttestationPayload(s)
    && e.id == s.id == s.sourceProposalId + "/settlement-attestation/" + s.attestation.memberId
    && e.communityId == s.communityId && e.authorId == s.attestation.memberId && Present(s.sourceProposalId)
    && SoundAttestation(s.attestation)
  }

  /** The envelope carries a transfer, in the name of one of its two members; the attestations may be in either order. */
  ghost predicate TransferRecord(p: Platform, e: Envelope, t: Transfer) {
    && SoundEnvelope(p, e) && e.schema == TimebankSchema && e.version == 1 && e.kind == TransferKind
    && e.payload.TransferPayload? && t == InOrder(e.payload.transfer) && SoundTerms(t.terms) && BothAttest(t)
    && e.id == t.terms.id && e.communityId == t.terms.communityId && e.authorId in {t.terms.provider, t.terms.recipient}
  }

  // ---- identity -----------------------------------------------------------------------------------

  /** The envelope carries an unsigned key event of the older protocol. */
  ghost predicate KeyEventRecord(p: Platform, e: Envelope, k: KeyEvent) {
    && SoundEnvelope(p, e) && e.schema == IdentitySchema && e.version == 1 && e.payload == KeyEventPayload(k) && SoundEvent(p, k)
    && e.kind == (if k.action.Activate? then KeyActivationKind else KeyRevocationKind)
    && e.id == k.eventId && e.communityId == k.communityId && e.authorId == k.memberId && e.occurredAt == k.occurredAt
  }

  /** The envelope carries a root-signed statement about a device key. */
  ghost predicate StatementRecord(p: Platform, e: Envelope, s: RootStatement) {
    && SoundEnvelope(p, e) && e.schema == IdentitySchema && e.version == 1 && e.payload == RootStatementPayload(s)
    && SoundStatement(p, s) && e.kind == (if s.event.action.Activate? then RootKeyActivationKind else RootKeyRevocationKind)
    && e.id == s.event.eventId && e.communityId == s.event.communityId && e.authorId == s.event.memberId
    && e.occurredAt == s.event.occurredAt
  }

  /** A lower-case hexadecimal text of 32 bytes. */
  ghost predicate FeedKeyText(text: string) {
    |text| == 64 && forall c | c in text :: '0' <= c <= '9' || 'a' <= c <= 'f'
  }

  /** The envelope declares the one feed of a member, signed with the root key that its member id comes from. */
  ghost predicate DeclarationRecord(p: Platform, e: Envelope, d: Declaration) {
    && SoundEnvelope(p, e) && e.schema == IdentitySchema && e.version == 1 && e.kind == FeedDeclarationKind
    && e.payload == DeclarationPayload(d)
    && e.id == "member-feed:" + d.memberId + ":" + d.communityId + ":" + d.feedPublicKey
    && e.communityId == d.communityId && e.authorId == d.memberId && e.occurredAt == d.occurredAt && FeedKeyText(d.feedPublicKey)
    && Present(d.rootPublicKeyPem) && p.isPublicKey(d.rootPublicKeyPem)
    && d.memberId == "phm_" + p.memberHash(p.fingerprint(d.rootPublicKeyPem))
    && p.verifies(DeclarationContent(d.memberId, d.communityId, d.feedPublicKey, d.occurredAt, d.rootPublicKeyPem),
                  d.rootPublicKeyPem, d.signature)
  }

  // ---- the decoders accept exactly these -------------------------------------------------------------

  lemma EnvelopeIsSound(p: Platform, e: Envelope)
    ensures ValidEnvelope(p, e) <==> SoundEnvelope(p, e)
  {
  }

  lemma ListingDecodes(p: Platform, e: Envelope, l: Listing)
    ensures DecodeListing(p, e) == Ok(l) <==> ListingRecord(p, e, l)
  {
    hide Present;
  }

  lemma ClosureDecodes(p: Platform, e: Envelope, c: Closure)
    ensures DecodeClosure(p, e) == Ok(c) <==> ClosureRecord(p, e, c)
  {
    hide Present;
  }

  lemma ProposedDecodes(p: Platform, e: Envelope, q: Proposal)
    ensures DecodeProposed(p, e) == Ok(q) <==> ProposedRecord(p, e, q)
  {
    hide Present;
  }

  lemma AcceptedDecodes(p: Platform, e: Envelope, q: Proposal)
    ensures DecodeAccepted(p, e) == Ok(q) <==> AcceptedRecord(p, e, q)
  {
    hide Present;
  }

  lemma AcknowledgementDecodesTo(p: Platform, e: Envelope, a: Acknowledgement)
    ensures DecodeAcknowledgement(p, e) == Ok(a) <==> AcknowledgementRecord(p, e, a)
  {
    hide Present;
  }

  lemma AttestationDecodesTo(p: Platform, e: Envelope, s: SettlementAttestation)
    ensures DecodeAttestation(p, e) == Ok(s) <==> AttestationRecord(p, e, s)
  {
    hide Present;
  }

  lemma TransferDecodesTo(p: Platform, e: Envelope, t: Transfer)
    ensures DecodeTransfer(p, e) == Ok(t) <==> TransferRecord(p, e, t)
  {
    hide Present, Ledger.CreateTransfer, SoundTerms, SoundAttestation;
    if e.payload.TransferPayload? {
      NormalForm(e.payload.transfer);
      assert BothAttest(InOrder(e.payload.transfer)) <==> BothAttest(e.payload.transfer);
    }
  }

  lemma KeyEventDecodes(p: Platform, e: Envelope, k: KeyEvent)
    ensures DecodeKeyEvent(p, e) == Ok(k) <==> KeyEventRecord(p, e, k)
  {
    hide Present;
  }

  lemma StatementDecodes(p: Platform, e: Envelope, s: RootStatement)
    ensures DecodeStatement(p, e) == Ok(s) <==> StatementRecord(p, e, s)
  {
    hide Present;
  }

  lemma DeclaredKeyText(text: string)
    ensures IsDeclaredKey(text) <==> FeedKeyText(text)
  {
    assert forall i | 0 <= i < |text| :: text[i] in text;
    if IsDeclaredKey(text) {
      forall c | c in text ensures IsLowerHex(c) { var i :| 0 <= i < |text| && text[i] == c; }
    }
  }

  lemma DeclarationDecodesTo(p: Platform, e: Envelope, d: Declaration)
    ensures DecodeDeclaration(p, e) == Ok(d) <==> DeclarationRecord(p, e, d)
  {
    hide Present;
    DeclaredKeyText(d.feedPublicKey);
  }
}

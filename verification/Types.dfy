/** The immutable records that members replicate, and the platform services they are checked with. */
module Types {
  import opened Core

  /** One participant's signature over the terms of a transfer. */
  datatype Attestation = Attestation(memberId: string, keyId: string, payloadDigest: string, signature: string)

  /** Transfer terms, before any participant has attested them. Minutes are whole numbers here. */
  datatype Terms = Terms(
    id: string, communityId: string, sourceProposalId: Option<string>,
    provider: string, recipient: string, minutes: int, reverses: Option<string>)

  datatype Transfer = Transfer(terms: Terms, attestations: seq<Attestation>)

  datatype ListingKind = Offer | Request
  datatype ListingStatus = Draft | Published | Closed
  datatype Listing = Listing(
    id: string, communityId: string, memberId: string, kind: ListingKind,
    title: string, description: string, minutes: int, status: ListingStatus)

  /** An owner's withdrawal of a published listing. */
  datatype Closure = Closure(id: string, communityId: string, listingId: string, memberId: string)

  datatype ProposalStatus = Proposed | Accepted
  datatype Proposal = Proposal(
    id: string, communityId: string, offerId: string, requestId: string,
    provider: string, receiver: string, creator: string,
    acceptedBy: Option<string>, minutes: int, status: ProposalStatus)

  /** One participant's statement that an accepted exchange has been completed. */
  datatype Acknowledgement = Acknowledgement(
    id: string, communityId: string, sourceProposalId: string,
    provider: string, recipient: string, minutes: int, acknowledgedBy: string)

  /** One participant's published attestation of the settlement terms of a proposal. */
  datatype SettlementAttestation = SettlementAttestation(
    id: string, communityId: string, sourceProposalId: string, attestation: Attestation)

  datatype KeyAction = Activate(publicKeyPem: string) | Revoke
  datatype KeyEvent = KeyEvent(
    eventId: string, communityId: string, memberId: string, keyId: string,
    action: KeyAction, occurredAt: string)

  /** A key event signed by the root key that owns the member id. */
  datatype RootStatement = RootStatement(event: KeyEvent, rootPublicKeyPem: string, signature: string)

  /** A root-signed statement that one member publishes through one feed. */
  datatype Declaration = Declaration(
    memberId: string, communityId: string, feedPublicKey: string,
    occurredAt: string, rootPublicKeyPem: string, signature: string)

  /** A key that a member may sign with, in one community. */
  datatype Authorization = Authorization(
    communityId: string, memberId: string, keyId: string, publicKeyPem: string, active: bool)

  datatype Kind =
    | PublishedListingKind | ClosedListingKind
    | ProposedProposalKind | AcceptedProposalKind
    | AcknowledgementKind | AttestationKind | TransferKind
    | FeedDeclarationKind | KeyActivationKind | KeyRevocationKind
    | RootKeyActivationKind | RootKeyRevocationKind
    | OtherKind(name: string)

  datatype Schema = TimebankSchema | IdentitySchema | OtherSchema(name: string)

  datatype Payload =
    | ListingPayload(listing: Listing)
    | ClosurePayload(closure: Closure)
    | ProposalPayload(proposal: Proposal)
    | AcknowledgementPayload(acknowledgement: Acknowledgement)
    | AttestationPayload(attestation: SettlementAttestation)
    | TransferPayload(transfer: Transfer)
    | DeclarationPayload(declaration: Declaration)
    | KeyEventPayload(event: KeyEvent)
    | RootStatementPayload(statement: RootStatement)
    | OtherPayload(json: string)

  datatype Envelope = Envelope(
    id: string, schema: Schema, version: int, kind: Kind,
    communityId: string, occurredAt: string, authorId: string, payload: Payload)

  /** The author's detached signature beside an envelope. */
  datatype Proof = Proof(keyId: string, signature: string)

  /** A replicated record: an envelope, with or without its author's signature. */
  datatype Record = Record(envelope: Envelope, proof: Option<Proof>)

  /** The canonical bytes a key signs. Each constructor carries its own schema marker in the program,
      so bytes of different constructors differ. */
  datatype SignedContent =
    | TransferContent(terms: Terms)
    | RecordContent(envelope: Envelope)
    | DeclarationContent(memberId: string, communityId: string, feedPublicKey: string,
                         occurredAt: string, rootPublicKeyPem: string)
    | StatementContent(event: KeyEvent, rootPublicKeyPem: string)

  /** Services of the platform, kept uninterpreted. `verifies` also covers the decoding of the
      signature text: a malformed signature verifies nothing. */
  datatype Platform = Platform(
    isTimestamp: string -> bool,
    isPublicKey: string -> bool,
    fingerprint: string -> string,
    memberHash: string -> string,
    digest: Terms -> string,
    verifies: (SignedContent, string, string) -> bool)
}

/** Resolution of one community's record history into authorizations, proposals, settlement progress and
    the derived ledger. */
module Resolve {
  import opened Core
  import opened Sorting
  import opened Reduction
  import opened Types
  import opened Identity
  import opened Settlement
  import opened Records
  import Ledger

  datatype ResolvedState = ResolvedState(
    communityId: string,
    authorizations: seq<Authorization>,
    publishedListings: seq<Listing>,
    proposed: seq<Proposal>,
    accepted: seq<Proposal>,
    acknowledgements: seq<Acknowledgement>,
    confirmations: seq<Confirmation>,
    attestationStates: seq<AttestationState>,
    transfers: seq<Transfer>,
    ledger: Ledger.LedgerView)

  // ---- selections -----------------------------------------------------------------------------

  function InCommunity(communityId: string): Envelope -> bool { (e: Envelope) => e.communityId == communityId }

  function HasKind(kind: Kind): Envelope -> bool { (e: Envelope) => e.kind == kind }

  predicate IsKeyEventKind(e: Envelope) { e.kind.KeyActivationKind? || e.kind.KeyRevocationKind? }

  predicate IsStatementKind(e: Envelope) { e.kind.RootKeyActivationKind? || e.kind.RootKeyRevocationKind? }

  function OfKind(envelopes: seq<Envelope>, kind: Kind): seq<Envelope> { Filter(envelopes, HasKind(kind)) }

  /** The community's envelopes after deduplication, in time order. */
  function CommunityEnvelopes(platform: Platform, less: (string, string) -> bool, communityId: string,
                              records: seq<Record>): Result<seq<Envelope>> {
    var envelopes :- Reduce(EnvelopeOrder(less), Map(records, EnvelopeOf), NormalizeEnvelope(platform), EnvelopeId);
    Ok(Filter(envelopes, InCommunity(communityId)))
  }

  // ---- authorizations -------------------------------------------------------------------------

  function DecodingKeyEvents(platform: Platform): Envelope -> Result<KeyEvent> {
    (e: Envelope) => DecodeKeyEvent(platform, e)
  }

  /** Keys from the older unsigned events, from declared roots and from root-signed lifecycles; unsigned
      events may not touch a member who has declared a feed. */
  function ResolveAuthorizations(platform: Platform, less: (string, string) -> bool,
                                 mine: seq<Envelope>): Result<seq<Authorization>> {
    var declarations, keyEvents := OfKind(mine, FeedDeclarationKind), Filter(mine, IsKeyEventKind);
    if exists e :: e in keyEvents && exists d :: d in declarations && d.authorId == e.authorId then Error
    else
      var events :- Traverse(keyEvents, DecodingKeyEvents(platform));
      var legacy :- ReducedKeys(platform, less, events);
      var roots :- DeclaredRootKeys(platform, less, declarations);
      var devices :- ProvenRootSignedKeys(platform, less, Filter(mine, IsStatementKind), declarations);
      Ok(legacy + roots + devices)
  }

  // ---- member signatures ----------------------------------------------------------------------

  predicate IsMemberAuthored(e: Envelope) {
    || e.kind.PublishedListingKind? || e.kind.ClosedListingKind? || e.kind.ProposedProposalKind?
    || e.kind.AcceptedProposalKind? || e.kind.AcknowledgementKind? || e.kind.AttestationKind? || e.kind.TransferKind?
  }

  /** The record decodes, which includes that its author is the member its payload names. */
  predicate AuthorParticipates(platform: Platform, e: Envelope) {
    match e.kind
    case ProposedProposalKind => DecodeProposed(platform, e).Ok?
    case AcceptedProposalKind => DecodeAccepted(platform, e).Ok?
    case PublishedListingKind => DecodeListing(platform, e).Ok?
    case ClosedListingKind => DecodeClosure(platform, e).Ok?
    case AcknowledgementKind => DecodeAcknowledgement(platform, e).Ok?
    case AttestationKind => DecodeAttestation(platform, e).Ok?
    case _ => DecodeTransfer(platform, e).Ok?
  }

  predicate MemberSigned(platform: Platform, communityId: string, auths: seq<Authorization>, r: Record) {
    r.envelope.communityId == communityId && IsMemberAuthored(r.envelope) ==>
      SignedByAuthor(platform, r, auths) && AuthorParticipates(platform, r.envelope)
  }

  // ---- the reducers by kind -------------------------------------------------------------------

  function DecodingListings(platform: Platform): Envelope -> Result<Listing> { (e: Envelope) => DecodeListing(platform, e) }
  function DecodingClosures(platform: Platform): Envelope -> Result<Closure> { (e: Envelope) => DecodeClosure(platform, e) }
  function DecodingProposed(platform: Platform): Envelope -> Result<Proposal> {
    (e: Envelope) => DecodeProposed(platform, e)
  }
  function DecodingAccepted(platform: Platform): Envelope -> Result<Proposal> {
    (e: Envelope) => DecodeAccepted(platform, e)
  }
  function DecodingAcknowledgements(platform: Platform): Envelope -> Result<Acknowledgement> {
    (e: Envelope) => DecodeAcknowledgement(platform, e)
  }
  function DecodingAttestations(platform: Platform): Envelope -> Result<SettlementAttestation> {
    (e: Envelope) => DecodeAttestation(platform, e)
  }
  function DecodingTransfers(platform: Platform): Envelope -> Result<Transfer> {
    (e: Envelope) => DecodeTransfer(platform, e)
  }

  function ListingId(l: Listing): string { l.id }
  function ListingCommunity(l: Listing): string { l.communityId }
  function ClosureId(c: Closure): string { c.id }
  function ClosureCommunity(c: Closure): string { c.communityId }
  function ProposalId(p: Proposal): string { p.id }
  function ProposalCommunity(p: Proposal): string { p.communityId }
  function AckId(a: Acknowledgement): string { a.id }
  function AckCommunity(a: Acknowledgement): string { a.communityId }
  function AttestationId(s: SettlementAttestation): string { s.id }
  function AttestationCommunity(s: SettlementAttestation): string { s.communityId }
  function TransferCommunity(t: Transfer): string { t.terms.communityId }

  function ReducedListings(platform: Platform, less: (string, string) -> bool, communityId: string,
                           mine: seq<Envelope>): Result<seq<Listing>> {
    ReduceValues(less, communityId, OfKind(mine, PublishedListingKind), DecodingListings(platform), ListingCommunity, ListingId)
  }

  function ReducedClosures(platform: Platform, less: (string, string) -> bool, communityId: string,
                           mine: seq<Envelope>): Result<seq<Closure>> {
    ReduceValues(less, communityId, OfKind(mine, ClosedListingKind), DecodingClosures(platform), ClosureCommunity, ClosureId)
  }

  function ReducedProposed(platform: Platform, less: (string, string) -> bool, communityId: string,
                           mine: seq<Envelope>): Result<seq<Proposal>> {
    ReduceValues(less, communityId, OfKind(mine, ProposedProposalKind), DecodingProposed(platform), ProposalCommunity, ProposalId)
  }

  function ReducedAccepted(platform: Platform, less: (string, string) -> bool, communityId: string,
                           mine: seq<Envelope>): Result<seq<Proposal>> {
    ReduceValues(less, communityId, OfKind(mine, AcceptedProposalKind), DecodingAccepted(platform), ProposalCommunity, ProposalId)
  }

  function ReducedAcknowledgements(platform: Platform, less: (string, string) -> bool, communityId: string,
                                   mine: seq<Envelope>): Result<seq<Acknowledgement>> {
    ReduceValues(less, communityId, OfKind(mine, AcknowledgementKind), DecodingAcknowledgements(platform), AckCommunity, AckId)
  }

  function ReducedAttestations(platform: Platform, less: (string, string) -> bool, communityId: string,
                               mine: seq<Envelope>): Result<seq<SettlementAttestation>> {
    ReduceValues(less, communityId, OfKind(mine, AttestationKind), DecodingAttestations(platform), AttestationCommunity, AttestationId)
  }

  function ReducedTransfers(platform: Platform, less: (string, string) -> bool, communityId: string,
                            mine: seq<Envelope>): Result<seq<Transfer>> {
    ReduceValues(less, communityId, OfKind(mine, TransferKind), DecodingTransfers(platform), TransferCommunity, Ledger.TransferId)
  }

  // ---- checks between the reduced values -------------------------------------------------------

  predicate ClosureIsOwned(listings: seq<Listing>, c: Closure) {
    match Lookup(listings, ListingId, c.listingId)
    case None => false
    case Some(l) => l.memberId == c.memberId && l.communityId == c.communityId
  }

  function OpenListings(listings: seq<Listing>, closures: seq<Closure>): seq<Listing> {
    var closed := set c | c in closures :: c.listingId;
    Filter(listings, (l: Listing) => l.id !in closed)
  }

  predicate SameProposalTerms(p: Proposal, q: Proposal) {
    && p.communityId == q.communityId && p.offerId == q.offerId && p.requestId == q.requestId
    && p.provider == q.provider && p.receiver == q.receiver && p.creator == q.creator && p.minutes == q.minutes
  }

  /** An acceptance keeps every term of the pending proposal, when that proposal is known. */
  predicate PreservesTerms(proposed: seq<Proposal>, a: Proposal) {
    match Lookup(proposed, ProposalId, a.id)
    case None => true
    case Some(p) => SameProposalTerms(p, a)
  }

  predicate AcknowledgementResolves(accepted: seq<Proposal>, a: Acknowledgement) {
    match Lookup(accepted, ProposalId, a.sourceProposalId)
    case None => false
    case Some(p) => ValidAcknowledgement(p, a)
  }

  function AckProposal(a: Acknowledgement): string { a.sourceProposalId }

  function AttestationProposal(s: SettlementAttestation): string { s.sourceProposalId }

  function AcksFor(acks: seq<Acknowledgement>, proposalId: string): seq<Acknowledgement> {
    Having(acks, AckProposal, proposalId)
  }

  function AttestationsFor(attestations: seq<SettlementAttestation>, proposalId: string): seq<SettlementAttestation> {
    Having(attestations, AttestationProposal, proposalId)
  }

  /** The attestation is valid for its accepted, dual-confirmed proposal and signed by an active key. */
  predicate AttestationResolves(platform: Platform, less: (string, string) -> bool, auths: seq<Authorization>,
                                accepted: seq<Proposal>, acks: seq<Acknowledgement>, s: SettlementAttestation)
  {
    match Lookup(accepted, ProposalId, s.sourceProposalId)
    case None => false
    case Some(p) =>
      && ValidateSettlementAttestation(platform, less, p, AcksFor(acks, p.id), s).Ok?
      && KeyIndex(platform, auths).Ok?
      && MemberVerifies(platform, KeyIndex(platform, auths).value, p.communityId, s.attestation.memberId,
                        s.attestation.keyId, TransferContent(SettlementTerms(p)), s.attestation.signature)
  }

  /** An ordinary transfer is the authorized settlement of its accepted proposal. */
  predicate TransferResolves(platform: Platform, less: (string, string) -> bool, auths: seq<Authorization>,
                             accepted: seq<Proposal>, acks: seq<Acknowledgement>, t: Transfer)
  {
    t.terms.reverses.None? ==>
      match Lookup(accepted, ProposalId, if t.terms.sourceProposalId.Some? then t.terms.sourceProposalId.value else "")
      case None => false
      case Some(p) => ValidateAuthorizedSettlementTransfer(platform, less, p, AcksFor(acks, p.id), t, auths).Ok?
  }

  function Confirming(less: (string, string) -> bool, acks: seq<Acknowledgement>): Proposal -> Result<Confirmation> {
    (p: Proposal) => Confirm(less, p, AcksFor(acks, p.id))
  }

  function Attesting(platform: Platform, less: (string, string) -> bool, acks: seq<Acknowledgement>,
                     attestations: seq<SettlementAttestation>): Proposal -> Result<AttestationState>
  {
    (p: Proposal) => Attest(platform, less, p, AcksFor(acks, p.id), AttestationsFor(attestations, p.id))
  }

  // ---- the resolution -------------------------------------------------------------------------

  /** The reduced values of the exchange protocol. */
  datatype Exchange = Exchange(
    proposed: seq<Proposal>, accepted: seq<Proposal>, acks: seq<Acknowledgement>,
    transfers: seq<Transfer>, attestations: seq<SettlementAttestation>)

  function ReducedExchange(platform: Platform, less: (string, string) -> bool, communityId: string,
                           mine: seq<Envelope>): Result<Exchange> {
    var accepted :- ReducedAccepted(platform, less, communityId, mine);
    var proposed :- ReducedProposed(platform, less, communityId, mine);
    var acks :- ReducedAcknowledgements(platform, less, communityId, mine);
    var transfers :- ReducedTransfers(platform, less, communityId, mine);
    var attestations :- ReducedAttestations(platform, less, communityId, mine);
    Ok(Exchange(proposed, accepted, acks, transfers, attestations))
  }

  /** Published listings that their owners have not closed. */
  function ResolveListings(platform: Platform, less: (string, string) -> bool, communityId: string,
                           mine: seq<Envelope>): Result<seq<Listing>> {
    var listings :- ReducedListings(platform, less, communityId, mine);
    var closures :- ReducedClosures(platform, less, communityId, mine);
    if forall c | c in closures :: ClosureIsOwned(listings, c) then Ok(OpenListings(listings, closures)) else Error
  }

  /** Acceptances, acknowledgements, attestations and settlement transfers fit one another. */
  predicate ExchangeFits(platform: Platform, less: (string, string) -> bool, auths: seq<Authorization>, x: Exchange) {
    && (forall a | a in x.accepted :: PreservesTerms(x.proposed, a))
    && (forall a | a in x.acks :: AcknowledgementResolves(x.accepted, a))
    && (forall s | s in x.attestations :: AttestationResolves(platform, less, auths, x.accepted, x.acks, s))
    && (forall t | t in x.transfers :: TransferResolves(platform, less, auths, x.accepted, x.acks, t))
  }

  datatype Progress = Progress(confirmations: seq<Confirmation>, states: seq<AttestationState>)

  /** Confirmation and attestation progress of every accepted proposal. */
  function ResolveProgress(platform: Platform, less: (string, string) -> bool, auths: seq<Authorization>,
                           x: Exchange): Result<Progress> {
    if !ExchangeFits(platform, less, auths, x) then Error
    else
      var confirmations :- Traverse(x.accepted, Confirming(less, x.acks));
      var states :- Traverse(x.accepted, Attesting(platform, less, x.acks, x.attestations));
      Ok(Progress(confirmations, states))
  }

  ghost function ResolveLedger(platform: Platform, less: (string, string) -> bool, communityId: string,
                               auths: seq<Authorization>, transfers: seq<Transfer>): Result<Ledger.LedgerView>
  {
    var keys :- KeyIndex(platform, auths);
    Ledger.DeriveLedger(less, communityId, transfers, TransferVerifier(platform, keys))
  }

  /** The part of the resolution that works on the deduplicated envelopes and the authorizations. */
  ghost function ResolveValues(platform: Platform, less: (string, string) -> bool, communityId: string,
                               mine: seq<Envelope>, auths: seq<Authorization>): Result<ResolvedState>
  {
    var listings :- ResolveListings(platform, less, communityId, mine);
    var x :- ReducedExchange(platform, less, communityId, mine);
    var progress :- ResolveProgress(platform, less, auths, x);
    var ledger :- ResolveLedger(platform, less, communityId, auths, x.transfers);
    Ok(ResolvedState(communityId, auths, listings, x.proposed, x.accepted, x.acks,
                     progress.confirmations, progress.states, x.transfers, ledger))
  }

  predicate AllMemberSigned(platform: Platform, communityId: string, auths: seq<Authorization>, records: seq<Record>) {
    forall r | r in records :: MemberSigned(platform, communityId, auths, r)
  }

  /** The state that a set of records determines for one community, or failure. */
  ghost function ResolveRecords(platform: Platform, less: (string, string) -> bool, communityId: string,
                                records: seq<Record>): Result<ResolvedState>
  {
    var mine :- CommunityEnvelopes(platform, less, communityId, records);
    var auths :- ResolveAuthorizations(platform, less, mine);
    if AllMemberSigned(platform, communityId, auths, records)
    then ResolveValues(platform, less, communityId, mine, auths) else Error
  }

  // ---- the resolution as the program runs it ----------------------------------------------------

  /** The loop over closures. */
  method CloseListings(listings: seq<Listing>, closures: seq<Closure>) returns (r: Result<seq<Listing>>)
    ensures r == if forall c | c in closures :: ClosureIsOwned(listings, c) then Ok(OpenListings(listings, closures)) else Error
  {
    var closed: set<string> := {};
    for i := 0 to |closures|
      invariant forall k | 0 <= k < i :: ClosureIsOwned(listings, closures[k])
      invariant closed == set c | c in closures[..i] :: c.listingId
    {
      TakeNext(closures, i);
      if !ClosureIsOwned(listings, closures[i]) {
        assert closures[i] in closures;
        return Error;
      }
      closed := closed + {closures[i].listingId};
    }
    TakeAll(closures);
    return Ok(OpenListings(listings, closures));
  }

  /** The loop that validates acknowledgements and groups them by proposal. */
  method GroupAcknowledgements(accepted: seq<Proposal>, acks: seq<Acknowledgement>)
    returns (ok: bool, byProposal: map<string, seq<Acknowledgement>>)
    ensures ok <==> forall a | a in acks :: AcknowledgementResolves(accepted, a)
    ensures Grouped(byProposal, acks, AckProposal)
  {
    byProposal := GroupBy(acks, AckProposal);
    for i := 0 to |acks|
      invariant forall k | 0 <= k < i :: AcknowledgementResolves(accepted, acks[k])
    {
      var proposal := Lookup(accepted, ProposalId, acks[i].sourceProposalId);
      if proposal.None? || !ValidAcknowledgement(proposal.value, acks[i]) {
        assert acks[i] in acks;
        return false, byProposal;
      }
    }
    ok := true;
  }

  /** One pass of the loop over attestations. */
  method CheckAttestation(platform: Platform, less: (string, string) -> bool, auths: seq<Authorization>,
                          accepted: seq<Proposal>, ghost acks: seq<Acknowledgement>,
                          acksByProposal: map<string, seq<Acknowledgement>>, s: SettlementAttestation)
    returns (ok: bool)
    requires Grouped(acksByProposal, acks, AckProposal)
    ensures ok <==> AttestationResolves(platform, less, auths, accepted, acks, s)
  {
    var proposal := Lookup(accepted, ProposalId, s.sourceProposalId);
    if proposal.None? { return false; }
    var p := proposal.value;
    var normalized := ValidateSettlementAttestation(platform, less, p, Group(acksByProposal, p.id), s);
    if normalized.Error? { return false; }
    var keys := IndexAuthorizedKeys(platform, auths);
    if keys.Error? { return false; }
    return MemberVerifies(platform, keys.value, p.communityId, s.attestation.memberId, s.attestation.keyId,
                          TransferContent(SettlementTerms(p)), s.attestation.signature);
  }

  /** One pass of the loop over transfers. */
  method CheckTransfer(platform: Platform, less: (string, string) -> bool, auths: seq<Authorization>,
                       accepted: seq<Proposal>, ghost acks: seq<Acknowledgement>,
                       acksByProposal: map<string, seq<Acknowledgement>>, t: Transfer)
    returns (ok: bool)
    requires Grouped(acksByProposal, acks, AckProposal)
    ensures ok <==> TransferResolves(platform, less, auths, accepted, acks, t)
  {
    if t.terms.reverses.Some? { return true; }
    var proposal := Lookup(accepted, ProposalId, if t.terms.sourceProposalId.Some? then t.terms.sourceProposalId.value else "");
    if proposal.None? { return false; }
    var p := proposal.value;
    return ValidateAuthorizedSettlementTransfer(platform, less, p, Group(acksByProposal, p.id), t, auths).Ok?;
  }

  /** Settlement progress of each accepted proposal. */
  method ConfirmAll(less: (string, string) -> bool, accepted: seq<Proposal>, ghost acks: seq<Acknowledgement>,
                    acksByProposal: map<string, seq<Acknowledgement>>) returns (r: Result<seq<Confirmation>>)
    requires Grouped(acksByProposal, acks, AckProposal)
    ensures r == Traverse(accepted, Confirming(less, acks))
  {
    var done: seq<Confirmation> := [];
    for i := 0 to |accepted|
      invariant Traverse(accepted[..i], Confirming(less, acks)) == Ok(done)
    {
      TakeNext(accepted, i);
      var confirmation := ResolveSettlementAcknowledgements(less, accepted[i], Group(acksByProposal, accepted[i].id));
      assert confirmation == Confirming(less, acks)(accepted[i]);
      if confirmation.Error? { return Error; }
      done := done + [confirmation.value];
    }
    TakeAll(accepted);
    return Ok(done);
  }

  /** Attestation progress of each accepted proposal. */
  method AttestAll(platform: Platform, less: (string, string) -> bool, x: Exchange,
                   acksByProposal: map<string, seq<Acknowledgement>>) returns (r: Result<seq<AttestationState>>)
    requires Grouped(acksByProposal, x.acks, AckProposal)
    ensures r == Traverse(x.accepted, Attesting(platform, less, x.acks, x.attestations))
  {
    var byProposal := GroupBy(x.attestations, AttestationProposal);
    var done: seq<AttestationState> := [];
    for i := 0 to |x.accepted|
      invariant Traverse(x.accepted[..i], Attesting(platform, less, x.acks, x.attestations)) == Ok(done)
    {
      TakeNext(x.accepted, i);
      var p := x.accepted[i];
      var state := ResolveSettlementTransferAttestations(platform, less, p, Group(acksByProposal, p.id), Group(byProposal, p.id));
      assert state == Attesting(platform, less, x.acks, x.attestations)(p);
      if state.Error? { return Error; }
      done := done + [state.value];
    }
    TakeAll(x.accepted);
    return Ok(done);
  }

  /** The loops that check the exchange protocol and collect its progress. */
  method RunProgress(platform: Platform, less: (string, string) -> bool, auths: seq<Authorization>, x: Exchange)
    returns (r: Result<Progress>)
    ensures r == ResolveProgress(platform, less, auths, x)
  {
    hide AttestationResolves, TransferResolves, PreservesTerms, AcknowledgementResolves, Confirming, Attesting, Traverse,
         Group, Having;
    if exists a :: a in x.accepted && !PreservesTerms(x.proposed, a) { return Error; }
    var acksOk, acksByProposal := GroupAcknowledgements(x.accepted, x.acks);
    if !acksOk { return Error; }
    for i := 0 to |x.attestations|
      invariant forall k | 0 <= k < i :: AttestationResolves(platform, less, auths, x.accepted, x.acks, x.attestations[k])
    {
      var ok := CheckAttestation(platform, less, auths, x.accepted, x.acks, acksByProposal, x.attestations[i]);
      if !ok {
        assert x.attestations[i] in x.attestations;
        return Error;
      }
    }
    for i := 0 to |x.transfers|
      invariant forall k | 0 <= k < i :: TransferResolves(platform, less, auths, x.accepted, x.acks, x.transfers[k])
    {
      var ok := CheckTransfer(platform, less, auths, x.accepted, x.acks, acksByProposal, x.transfers[i]);
      if !ok {
        assert x.transfers[i] in x.transfers;
        return Error;
      }
    }
    var confirmations := ConfirmAll(less, x.accepted, x.acks, acksByProposal);
    if confirmations.Error? { return Error; }
    var states := AttestAll(platform, less, x, acksByProposal);
    if states.Error? { return Error; }
    return Ok(Progress(confirmations.value, states.value));
  }

  /** The reducers of the exchange protocol, one after another. */
  method ReduceExchange(platform: Platform, less: (string, string) -> bool, communityId: string, mine: seq<Envelope>)
    returns (r: Result<Exchange>)
    ensures r == ReducedExchange(platform, less, communityId, mine)
  {
    hide ReduceValues, Filter;
    var accepted := ReduceRecords(less, communityId, OfKind(mine, AcceptedProposalKind), DecodingAccepted(platform),
                                  ProposalCommunity, ProposalId);
    if accepted.Error? { return Error; }
    var proposed := ReduceRecords(less, communityId, OfKind(mine, ProposedProposalKind), DecodingProposed(platform),
                                  ProposalCommunity, ProposalId);
    if proposed.Error? { return Error; }
    var acks := ReduceRecords(less, communityId, OfKind(mine, AcknowledgementKind), DecodingAcknowledgements(platform),
                              AckCommunity, AckId);
    if acks.Error? { return Error; }
    var transfers := ReduceRecords(less, communityId, OfKind(mine, TransferKind), DecodingTransfers(platform),
                                   TransferCommunity, Ledger.TransferId);
    if transfers.Error? { return Error; }
    var attestations := ReduceRecords(less, communityId, OfKind(mine, AttestationKind), DecodingAttestations(platform),
                                      AttestationCommunity, AttestationId);
    if attestations.Error? { return Error; }
    return Ok(Exchange(proposed.value, accepted.value, acks.value, transfers.value, attestations.value));
  }

  /** The loops that collect the declared roots and look every statement's root up among them. */
  method AssertDeclaredRoots(ds: seq<Declaration>, statements: seq<RootStatement>) returns (ok: bool)
    ensures ok <==> forall s | s in statements :: HasDeclaredRoot(ds, s)
  {
    var roots: set<(string, string, string)> := {};
    for i := 0 to |ds|
      invariant roots == set d | d in ds[..i] :: (d.communityId, d.memberId, d.rootPublicKeyPem)
    {
      TakeNext(ds, i);
      roots := roots + {(ds[i].communityId, ds[i].memberId, ds[i].rootPublicKeyPem)};
    }
    TakeAll(ds);
    for i := 0 to |statements|
      invariant forall k | 0 <= k < i :: HasDeclaredRoot(ds, statements[k])
    {
      var s := statements[i];
      if (s.event.communityId, s.event.memberId, s.rootPublicKeyPem) !in roots {
        assert s in statements && !HasDeclaredRoot(ds, s);
        return false;
      }
    }
    ok := true;
  }

  /** `reduceProvenRootSignedMemberSigningKeyLifecycleRecords`. */
  method ReduceProvenRootStatements(platform: Platform, less: (string, string) -> bool, lifecycles: seq<Envelope>,
                                    declarations: seq<Envelope>) returns (r: Result<seq<Authorization>>)
    ensures r == ProvenRootSignedKeys(platform, less, lifecycles, declarations)
  {
    hide RootSignedKeys, HasDeclaredRoot, Traverse;
    var ds := Traverse(declarations, DecodingDeclarations(platform));
    if ds.Error? { return Error; }
    var statements := Traverse(lifecycles, DecodingStatements(platform));
    if statements.Error? { return Error; }
    var declared := AssertDeclaredRoots(ds.value, statements.value);
    if !declared { return Error; }
    r := ReduceRootStatements(platform, less, statements.value);
  }

  /** The three sources of authorizations. */
  method ReduceAuthorizations(platform: Platform, less: (string, string) -> bool, mine: seq<Envelope>)
    returns (r: Result<seq<Authorization>>)
    ensures r == ResolveAuthorizations(platform, less, mine)
  {
    hide ReducedKeys, ProvenRootSignedKeys, Reduce, Traverse, Filter;
    var declarations, keyEvents := OfKind(mine, FeedDeclarationKind), Filter(mine, IsKeyEventKind);
    if exists e :: e in keyEvents && exists d :: d in declarations && d.authorId == e.authorId { return Error; }
    var events := Traverse(keyEvents, DecodingKeyEvents(platform));
    if events.Error? { return Error; }
    var legacy := ReduceKeyEvents(platform, less, events.value);
    if legacy.Error? { return Error; }
    var ds := ReduceById(DeclarationOrder(less), declarations, DecodingDeclarations(platform), FeedScope);
    if ds.Error? { return Error; }
    var devices := ReduceProvenRootStatements(platform, less, Filter(mine, IsStatementKind), declarations);
    if devices.Error? { return Error; }
    return Ok(legacy.value + Map(ds.value, RootAuthorization) + devices.value);
  }

  method ResolveStages(platform: Platform, less: (string, string) -> bool, communityId: string,
                       mine: seq<Envelope>, auths: seq<Authorization>) returns (r: Result<ResolvedState>)
    ensures r == ResolveValues(platform, less, communityId, mine, auths)
  {
    var published := ReduceRecords(less, communityId, OfKind(mine, PublishedListingKind), DecodingListings(platform),
                                   ListingCommunity, ListingId);
    if published.Error? { return Error; }
    var closures := ReduceRecords(less, communityId, OfKind(mine, ClosedListingKind), DecodingClosures(platform),
                                  ClosureCommunity, ClosureId);
    if closures.Error? { return Error; }
    var listings := CloseListings(published.value, closures.value);
    if listings.Error? { return Error; }
    var x := ReduceExchange(platform, less, communityId, mine);
    if x.Error? { return Error; }
    var progress := RunProgress(platform, less, auths, x.value);
    if progress.Error? { return Error; }
    var keys := IndexAuthorizedKeys(platform, auths);
    if keys.Error? { return Error; }
    var ledger := Ledger.ApplyTransfers(less, communityId, x.value.transfers, TransferVerifier(platform, keys.value));
    if ledger.Error? { return Error; }
    return Ok(ResolvedState(communityId, auths, listings.value, x.value.proposed, x.value.accepted, x.value.acks,
                            progress.value.confirmations, progress.value.states, x.value.transfers, ledger.value));
  }

  /** Resolves one community's records as the program does: stage by stage, failing at the first misfit. */
  method ResolveTimebankRecords(platform: Platform, less: (string, string) -> bool, communityId: string,
                                records: seq<Record>)
    returns (r: Result<ResolvedState>)
    ensures r == ResolveRecords(platform, less, communityId, records)
  {
    var reduced := ReduceById(EnvelopeOrder(less), Map(records, EnvelopeOf), NormalizeEnvelope(platform), EnvelopeId);
    if reduced.Error? { return Error; }
    var mine := Filter(reduced.value, InCommunity(communityId));
    var auths := ReduceAuthorizations(platform, less, mine);
    if auths.Error? { return Error; }
    var signed := AssertMemberSigned(platform, communityId, auths.value, records);
    if !signed { return Error; }
    r := ResolveStages(platform, less, communityId, mine, auths.value);
  }

  /** The loop over the delivered records, signatures included. */
  method AssertMemberSigned(platform: Platform, communityId: string, auths: seq<Authorization>, records: seq<Record>)
    returns (ok: bool)
    ensures ok <==> AllMemberSigned(platform, communityId, auths, records)
  {
    for i := 0 to |records|
      invariant forall k | 0 <= k < i :: MemberSigned(platform, communityId, auths, records[k])
    {
      if !MemberSigned(platform, communityId, auths, records[i]) {
        assert records[i] in records;
        return false;
      }
    }
    return true;
  }
}

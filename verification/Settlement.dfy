/** The bridge from an accepted exchange to its one settlement transfer: acknowledgements by both
    participants, deterministic terms, and both participants' attestations of those terms. */
module Settlement {
  import opened Core
  import opened Sorting
  import opened Reduction
  import opened Types
  import opened Identity
  import Ledger

  // ---- deterministic ids ----------------------------------------------------------------------

  function AcknowledgementId(proposalId: string, memberId: string): string {
    proposalId + "/settlement-ack/" + memberId
  }

  function AttestationRecordId(proposalId: string, memberId: string): string {
    proposalId + "/settlement-attestation/" + memberId
  }

  function SettlementTransferId(proposalId: string): string {
    proposalId + "/settlement"
  }

  // ---- acknowledgements -----------------------------------------------------------------------

  predicate IsAccepted(p: Proposal) { p.status.Accepted? && p.acceptedBy.Some? }

  predicate IsParticipant(p: Proposal, memberId: string) { memberId == p.provider || memberId == p.receiver }

  function CreateAcknowledgement(p: Proposal, memberId: string): Result<Acknowledgement> {
    if IsAccepted(p) && Present(memberId) && IsParticipant(p, memberId) && Present(p.id) then
      Ok(Acknowledgement(AcknowledgementId(p.id, memberId), p.communityId, p.id, p.provider, p.receiver, p.minutes, memberId))
    else Error
  }

  predicate ValidAcknowledgement(p: Proposal, a: Acknowledgement) {
    && IsAccepted(p)
    && Present(a.id) && Present(a.communityId) && Present(a.sourceProposalId)
    && Present(a.provider) && Present(a.recipient) && Present(a.acknowledgedBy)
    && a.minutes > 0 && Present(p.id)
    && a.id == AcknowledgementId(p.id, a.acknowledgedBy)
    && a.communityId == p.communityId && a.sourceProposalId == p.id
    && a.provider == p.provider && a.recipient == p.receiver && a.minutes == p.minutes
    && IsParticipant(p, a.acknowledgedBy)
  }

  function ValidateAcknowledgement(p: Proposal): Acknowledgement -> Result<Acknowledgement> {
    (a: Acknowledgement) => if ValidAcknowledgement(p, a) then Ok(a) else Error
  }

  function Acknowledger(a: Acknowledgement): string { a.acknowledgedBy }

  function ByAcknowledger(less: (string, string) -> bool): (Acknowledgement, Acknowledgement) -> bool {
    (a: Acknowledgement, b: Acknowledgement) => less(a.acknowledgedBy, b.acknowledgedBy)
  }

  datatype Confirmation = Confirmation(proposalId: string, dualConfirmed: bool, acknowledgements: seq<Acknowledgement>)

  predicate AcknowledgedBy(acks: seq<Acknowledgement>, memberId: string) {
    exists a :: a in acks && a.acknowledgedBy == memberId
  }

  /** The confirmation state of one accepted exchange, or failure. */
  function Confirm(less: (string, string) -> bool, p: Proposal, acks: seq<Acknowledgement>): Result<Confirmation> {
    if !IsAccepted(p) then Error
    else
      var valid :- Reduce(ByAcknowledger(less), acks, ValidateAcknowledgement(p), Acknowledger);
      Ok(Confirmation(p.id, AcknowledgedBy(valid, p.provider) && AcknowledgedBy(valid, p.receiver), valid))
  }

  method ResolveSettlementAcknowledgements(less: (string, string) -> bool, p: Proposal, acks: seq<Acknowledgement>)
    returns (r: Result<Confirmation>)
    ensures r == Confirm(less, p, acks)
  {
    if !IsAccepted(p) { return Error; }
    var reduced := ReduceById(ByAcknowledger(less), acks, ValidateAcknowledgement(p), Acknowledger);
    if reduced.Error? { return Error; }
    var dual := AcknowledgedBy(reduced.value, p.provider) && AcknowledgedBy(reduced.value, p.receiver);
    return Ok(Confirmation(p.id, dual, reduced.value));
  }

  /** Every term of a valid acknowledgement follows from its proposal and its author, so no two valid
      acknowledgements of one participant conflict: confirmation fails only on an invalid one, and both
      participants are confirmed exactly when each has acknowledged. */
  lemma ConfirmSpec(less: (string, string) -> bool, p: Proposal, acks: seq<Acknowledgement>)
    ensures Confirm(less, p, acks).Ok? <==> IsAccepted(p) && forall a | a in acks :: ValidAcknowledgement(p, a)
    ensures Confirm(less, p, acks).Ok? ==>
              var c := Confirm(less, p, acks).value;
              && c.proposalId == p.id
              && (forall a :: a in c.acknowledgements <==> a in acks)
              && (c.dualConfirmed <==> AcknowledgedBy(acks, p.provider) && AcknowledgedBy(acks, p.receiver))
  {
    hide Present, Reduce;
    var decode := ValidateAcknowledgement(p);
    ReduceSpec(ByAcknowledger(less), acks, decode, Acknowledger);
    if IsAccepted(p) && forall a | a in acks :: ValidAcknowledgement(p, a) {
      assert Coherent(acks, decode, Acknowledger);
      var valid := Reduce(ByAcknowledger(less), acks, decode, Acknowledger).value;
      forall a
        ensures a in valid <==> a in acks
      {
        if a in acks { assert decode(a).Ok? && decode(a).value in valid; }
        if a in valid { var d :| d in acks && decode(d) == Ok(a); }
      }
    } else if exists a :: a in acks && !ValidAcknowledgement(p, a) {
      var a :| a in acks && !ValidAcknowledgement(p, a);
      assert decode(a).Error?;
    }
  }

  // ---- deterministic terms and their attestations ----------------------------------------------

  function SettlementTerms(p: Proposal): Terms {
    Terms(SettlementTransferId(p.id), p.communityId, Some(p.id), p.provider, p.receiver, p.minutes, None)
  }

  /** The terms both participants sign, once both have acknowledged completion. */
  function DualConfirmedTerms(less: (string, string) -> bool, p: Proposal, acks: seq<Acknowledgement>): Result<Terms> {
    var confirmation :- Confirm(less, p, acks);
    if confirmation.dualConfirmed && Present(p.id) then Ok(SettlementTerms(p)) else Error
  }

  /** One participant's attestation container for the deterministic terms. */
  function CreateSettlementAttestation(platform: Platform, less: (string, string) -> bool, p: Proposal,
                                       acks: seq<Acknowledgement>, a: Attestation): Result<SettlementAttestation>
  {
    var terms :- DualConfirmedTerms(less, p, acks);
    if (a.memberId == terms.provider || a.memberId == terms.recipient) && Present(a.memberId)
       && Ledger.ValidTerms(terms) && a.payloadDigest == platform.digest(terms)
    then Ok(SettlementAttestation(AttestationRecordId(p.id, a.memberId), terms.communityId, p.id, a))
    else Error
  }

  function ValidateSettlementAttestation(platform: Platform, less: (string, string) -> bool, p: Proposal,
                                         acks: seq<Acknowledgement>, s: SettlementAttestation): Result<SettlementAttestation>
  {
    var expected :- CreateSettlementAttestation(platform, less, p, acks, s.attestation);
    if s.id == expected.id && s.communityId == expected.communityId && s.sourceProposalId == expected.sourceProposalId
    then Ok(expected) else Error
  }

  function Validating(platform: Platform, less: (string, string) -> bool, p: Proposal, acks: seq<Acknowledgement>)
    : SettlementAttestation -> Result<SettlementAttestation>
  {
    (s: SettlementAttestation) => ValidateSettlementAttestation(platform, less, p, acks, s)
  }

  function Attester(s: SettlementAttestation): string { s.attestation.memberId }

  function ByAttester(less: (string, string) -> bool): (SettlementAttestation, SettlementAttestation) -> bool {
    (a: SettlementAttestation, b: SettlementAttestation) => less(a.attestation.memberId, b.attestation.memberId)
  }

  datatype AttestationStatus = AwaitingConfirmation | AwaitingAttestations | DualAttested
  datatype AttestationState = AttestationState(
    proposalId: string, status: AttestationStatus, attestations: seq<SettlementAttestation>)

  predicate AttestedBy(attestations: seq<SettlementAttestation>, memberId: string) {
    exists a :: a in attestations && a.attestation.memberId == memberId
  }

  /** The signature progress of one accepted exchange, or failure. */
  function Attest(platform: Platform, less: (string, string) -> bool, p: Proposal, acks: seq<Acknowledgement>,
                  attestations: seq<SettlementAttestation>): Result<AttestationState>
  {
    var confirmation :- Confirm(less, p, acks);
    if !confirmation.dualConfirmed then
      if attestations != [] then Error else Ok(AttestationState(p.id, AwaitingConfirmation, []))
    else
      var terms :- DualConfirmedTerms(less, p, acks);
      var valid :- Reduce(ByAttester(less), attestations, Validating(platform, less, p, acks), Attester);
      var dual := AttestedBy(valid, terms.provider) && AttestedBy(valid, terms.recipient);
      Ok(AttestationState(p.id, if dual then DualAttested else AwaitingAttestations, valid))
  }

  method ResolveSettlementTransferAttestations(
    platform: Platform, less: (string, string) -> bool, p: Proposal, acks: seq<Acknowledgement>,
    attestations: seq<SettlementAttestation>) returns (r: Result<AttestationState>)
    ensures r == Attest(platform, less, p, acks, attestations)
  {
    var confirmation := ResolveSettlementAcknowledgements(less, p, acks);
    if confirmation.Error? { return Error; }
    if !confirmation.value.dualConfirmed {
      if |attestations| > 0 { return Error; }
      return Ok(AttestationState(p.id, AwaitingConfirmation, []));
    }
    var terms := DualConfirmedTerms(less, p, acks);
    if terms.Error? { return Error; }
    var reduced := ReduceById(ByAttester(less), attestations, Validating(platform, less, p, acks), Attester);
    if reduced.Error? { return Error; }
    var dual := AttestedBy(reduced.value, terms.value.provider) && AttestedBy(reduced.value, terms.value.recipient);
    return Ok(AttestationState(p.id, if dual then DualAttested else AwaitingAttestations, reduced.value));
  }

  lemma ValidAttestationUnchanged(platform: Platform, less: (string, string) -> bool, p: Proposal,
                                  acks: seq<Acknowledgement>, s: SettlementAttestation)
    requires ValidateSettlementAttestation(platform, less, p, acks, s).Ok?
    ensures ValidateSettlementAttestation(platform, less, p, acks, s) == Ok(s)
  {
  }

  lemma ValidAttestationsHeld(platform: Platform, less: (string, string) -> bool, p: Proposal, acks: seq<Acknowledgement>,
                              attestations: seq<SettlementAttestation>)
    requires Reduce(ByAttester(less), attestations, Validating(platform, less, p, acks), Attester).Ok?
    ensures forall a :: a in Reduce(ByAttester(less), attestations, Validating(platform, less, p, acks), Attester).value
                   <==> a in attestations
  {
    var decode := Validating(platform, less, p, acks);
    var valid := Reduce(ByAttester(less), attestations, decode, Attester).value;
    ReduceSpec(ByAttester(less), attestations, decode, Attester);
    forall a
      ensures a in valid <==> a in attestations
    {
      if a in attestations {
        assert decode(a).Ok? && decode(a).value in valid;
        ValidAttestationUnchanged(platform, less, p, acks, a);
      }
      if a in valid {
        var d :| d in attestations && decode(d) == Ok(a);
        ValidAttestationUnchanged(platform, less, p, acks, d);
      }
    }
  }

  lemma SameAttesters(xs: seq<SettlementAttestation>, ys: seq<SettlementAttestation>, memberId: string)
    requires forall a :: a in xs <==> a in ys
    ensures AttestedBy(xs, memberId) <==> AttestedBy(ys, memberId)
  {
  }

  /** When attestation progress resolves, it holds exactly the published attestations, and it is complete
      exactly when both participants have acknowledged and both have attested. */
  lemma AttestSpec(platform: Platform, less: (string, string) -> bool, p: Proposal, acks: seq<Acknowledgement>,
                   attestations: seq<SettlementAttestation>)
    requires Attest(platform, less, p, acks, attestations).Ok?
    ensures var s := Attest(platform, less, p, acks, attestations).value;
            && s.proposalId == p.id
            && (forall a :: a in s.attestations <==> a in attestations)
            && (s.status.AwaitingConfirmation? <==> !(AcknowledgedBy(acks, p.provider) && AcknowledgedBy(acks, p.receiver)))
            && (s.status.DualAttested? <==>
                  && AcknowledgedBy(acks, p.provider) && AcknowledgedBy(acks, p.receiver)
                  && AttestedBy(attestations, p.provider) && AttestedBy(attestations, p.receiver))
  {
    ConfirmSpec(less, p, acks);
    if Confirm(less, p, acks).value.dualConfirmed {
      ValidAttestationsHeld(platform, less, p, acks, attestations);
      var s := Attest(platform, less, p, acks, attestations).value;
      SameAttesters(s.attestations, attestations, p.provider);
      SameAttesters(s.attestations, attestations, p.receiver);
    }
  }

  // ---- the settlement transfer ----------------------------------------------------------------

  /** A transfer is the exact settlement of one accepted, dual-confirmed proposal. */
  function ValidateSettlementTransfer(less: (string, string) -> bool, p: Proposal, acks: seq<Acknowledgement>,
                                      t: Transfer): Result<Transfer> {
    var confirmation :- Confirm(less, p, acks);
    var n :- Ledger.CreateTransfer(t);
    if confirmation.dualConfirmed && IsAccepted(p) && n.terms.reverses.None?
       && n.terms.sourceProposalId == Some(p.id) && n.terms.communityId == p.communityId
       && n.terms.provider == p.provider && n.terms.recipient == p.receiver && n.terms.minutes == p.minutes
       && Present(p.id) && n.terms.id == SettlementTransferId(p.id)
    then Ok(n) else Error
  }

  /** The verifier that the ledger is given: the digest names these terms and the signature verifies
      under an active key of the attesting member. */
  predicate AttestationVerifies(platform: Platform, keys: map<Scope, string>, t: Transfer, a: Attestation) {
    && a.payloadDigest == platform.digest(t.terms)
    && MemberVerifies(platform, keys, t.terms.communityId, a.memberId, a.keyId, TransferContent(t.terms), a.signature)
  }

  function TransferVerifier(platform: Platform, keys: map<Scope, string>): Ledger.Verifier {
    (t: Transfer, a: Attestation) => AttestationVerifies(platform, keys, t, a)
  }

  /** Both attestations of a transfer verify under the authorized keys. */
  function AssertAuthorizedAttestations(platform: Platform, t: Transfer, auths: seq<Authorization>): Result<Transfer> {
    var n :- Ledger.CreateTransfer(t);
    var keys :- KeyIndex(platform, auths);
    if forall a | a in n.attestations :: AttestationVerifies(platform, keys, n, a) then Ok(n) else Error
  }

  function ValidateAuthorizedSettlementTransfer(
    platform: Platform, less: (string, string) -> bool, p: Proposal, acks: seq<Acknowledgement>,
    t: Transfer, auths: seq<Authorization>): Result<Transfer>
  {
    var n :- ValidateSettlementTransfer(less, p, acks, t);
    AssertAuthorizedAttestations(platform, n, auths)
  }

  /** Composes the settlement transfer from both attestations, as its publisher does. */
  function ComposeSettlementTransfer(less: (string, string) -> bool, p: Proposal, acks: seq<Acknowledgement>,
                                     attestations: seq<Attestation>): Result<Transfer>
  {
    var terms :- DualConfirmedTerms(less, p, acks);
    var t :- Ledger.CreateTransfer(Transfer(terms, attestations));
    ValidateSettlementTransfer(less, p, acks, t)
  }

  /** What a participant acknowledges is valid for its proposal. */
  lemma CreatedAcknowledgementValid(p: Proposal, memberId: string)
    requires CreateAcknowledgement(p, memberId).Ok?
    requires Present(p.communityId) && Present(p.provider) && Present(p.receiver) && p.minutes > 0
    ensures ValidAcknowledgement(p, CreateAcknowledgement(p, memberId).value)
  {
    PresentInside("", p.id, "/settlement-ack/" + memberId);
    assert "" + p.id + ("/settlement-ack/" + memberId) == AcknowledgementId(p.id, memberId);
  }

  /** The transfer a publisher composes is accepted by the validation that replicas run. */
  lemma ComposedTransferValid(less: (string, string) -> bool, p: Proposal, acks: seq<Acknowledgement>,
                              attestations: seq<Attestation>)
    requires ComposeSettlementTransfer(less, p, acks, attestations).Ok?
    ensures var t := ComposeSettlementTransfer(less, p, acks, attestations).value;
            && t.terms == SettlementTerms(p)
            && ValidateSettlementTransfer(less, p, acks, t) == Ok(t)
  {
    var t := Ledger.CreateTransfer(Transfer(SettlementTerms(p), attestations)).value;
    Ledger.CreateTransferIdempotent(Transfer(SettlementTerms(p), attestations));
  }
}

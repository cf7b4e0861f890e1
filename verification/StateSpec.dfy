/** The exchange of a resolved history in plain terms: how acceptances, acknowledgements, attestations and transfers must
    fit together, which histories resolve, and every part of the state that they resolve to. */
module StateSpec {
  import opened Core
  import opened Sorting
  import opened Reduction
  import opened Types
  import opened Identity
  import opened Settlement
  import opened Records
  import opened Resolve
  import opened ResolveTheorems
  import opened IdentitySpec
  import opened LedgerSpec
  import opened RecordSpec
  import opened ResolutionSpec
  import Ledger
  import LedgerTheorems

  // ---- how the parts fit -------------------------------------------------------------------------------

  /** The settlement of an accepted proposal. */
  ghost function TermsOf(q: Proposal): Terms {
    Terms(q.id + "/settlement", q.communityId, Some(q.id), q.provider, q.receiver, q.minutes, None)
  }

  /** Both participants have acknowledged. */
  ghost predicate Completed(acks: seq<Acknowledgement>, q: Proposal) {
    && (exists a :: a in acks && a.sourceProposalId == q.id && a.acknowledgedBy == q.provider)
    && (exists a :: a in acks && a.sourceProposalId == q.id && a.acknowledgedBy == q.receiver)
  }

  /** The attestation names these terms by their digest and signs them under an authorized, active key of its member. */
  ghost predicate SignsTerms(p: Platform, auths: seq<Authorization>, terms: Terms, a: Attestation) {
    && a.payloadDigest == p.digest(terms)
    && exists k :: k in auths && k.active && k.communityId == terms.communityId && k.memberId == a.memberId && k.keyId == a.keyId
                   && p.verifies(TransferContent(terms), k.publicKeyPem, a.signature)
  }

  ghost predicate AcceptanceFits(proposed: seq<Proposal>, a: Proposal) {
    forall q | q in proposed && q.id == a.id ::
      && q.communityId == a.communityId && q.offerId == a.offerId && q.requestId == a.requestId && q.provider == a.provider
      && q.receiver == a.receiver && q.creator == a.creator && q.minutes == a.minutes
  }

  ghost predicate AcknowledgementFits(accepted: seq<Proposal>, a: Acknowledgement) {
    exists q :: q in accepted && q.id == a.sourceProposalId && q.communityId == a.communityId && q.provider == a.provider
                && q.receiver == a.recipient && q.minutes == a.minutes
  }

  ghost predicate AttestationFits(p: Platform, auths: seq<Authorization>, accepted: seq<Proposal>, acks: seq<Acknowledgement>,
                                  s: SettlementAttestation) {
    exists q :: q in accepted && q.id == s.sourceProposalId && q.communityId == s.communityId && Completed(acks, q)
                && s.attestation.memberId in {q.provider, q.receiver} && SignsTerms(p, auths, TermsOf(q), s.attestation)
  }

  ghost predicate SettlementFits(p: Platform, auths: seq<Authorization>, accepted: seq<Proposal>, acks: seq<Acknowledgement>, t: Transfer) {
    && (exists q :: q in accepted && t.terms == TermsOf(q) && Completed(acks, q))
    && forall a | a in t.attestations :: SignsTerms(p, auths, t.terms, a)
  }

  /** What the reduced values are by their records alone. */
  ghost predicate SoundValues(x: Exchange) {
    && KeysDistinct(x.proposed, ProposalId) && KeysDistinct(x.accepted, ProposalId) && KeysDistinct(x.transfers, Ledger.TransferId)
    && (forall q | q in x.accepted :: SoundProposal(q) && q.status == Accepted && q.acceptedBy.Some?)
    && (forall a | a in x.acks ::
          && Present(a.id) && Present(a.communityId) && Present(a.sourceProposalId) && Present(a.provider) && Present(a.recipient)
          && Present(a.acknowledgedBy) && a.minutes > 0 && a.acknowledgedBy in {a.provider, a.recipient}
          && a.id == a.sourceProposalId + "/settlement-ack/" + a.acknowledgedBy)
    && (forall s | s in x.attestations ::
          Present(s.attestation.memberId) && s.id == s.sourceProposalId + "/settlement-attestation/" + s.attestation.memberId)
    && KeysDistinct(x.attestations, AttestationId)
    && (forall t | t in x.transfers :: SoundTerms(t.terms) && BothAttest(t) && InOrder(t) == t)
  }

  lemma AcceptanceFitsIff(proposed: seq<Proposal>, a: Proposal)
    requires KeysDistinct(proposed, ProposalId)
    ensures PreservesTerms(proposed, a) <==> AcceptanceFits(proposed, a)
  {
    var found := Lookup(proposed, ProposalId, a.id);
    if found.Some? {
      forall q | q in proposed && q.id == a.id ensures q == found.value { SameKeySameValue(proposed, ProposalId, q, found.value); }
    }
  }

  lemma AcknowledgementFitsIff(x: Exchange, a: Acknowledgement)
    requires SoundValues(x) && a in x.acks
    ensures AcknowledgementResolves(x.accepted, a) <==> AcknowledgementFits(x.accepted, a)
  {
    hide Present;
    var found := Lookup(x.accepted, ProposalId, a.sourceProposalId);
    if found.Some? {
      forall q | q in x.accepted && q.id == a.sourceProposalId ensures q == found.value {
        SameKeySameValue(x.accepted, ProposalId, q, found.value);
      }
    }
  }

  /** Confirmation of a proposal whose acknowledgements all fit. */
  lemma ConfirmsWhenFitting(less: (string, string) -> bool, x: Exchange, q: Proposal)
    requires SoundValues(x) && q in x.accepted && forall a | a in x.acks :: AcknowledgementFits(x.accepted, a)
    ensures Confirm(less, q, AcksFor(x.acks, q.id)).Ok?
    ensures Confirm(less, q, AcksFor(x.acks, q.id)).value.dualConfirmed <==> Completed(x.acks, q)
    ensures DualConfirmedTerms(less, q, AcksFor(x.acks, q.id)) == if Completed(x.acks, q) then Ok(TermsOf(q)) else Error
  {
    hide Present, Confirm;
    var mine := AcksFor(x.acks, q.id);
    forall a | a in mine
      ensures ValidAcknowledgement(q, a)
    {
      HavingMember(x.acks, AckProposal, q.id, a);
      var u :| u in x.accepted && u.id == a.sourceProposalId && u.communityId == a.communityId && u.provider == a.provider
               && u.receiver == a.recipient && u.minutes == a.minutes;
      SameKeySameValue(x.accepted, ProposalId, q, u);
    }
    forall a ensures a in mine <==> a in x.acks && a.sourceProposalId == q.id { HavingMember(x.acks, AckProposal, q.id, a); }
    ConfirmSpec(less, q, mine);
  }

  lemma SettlementTermsSound(q: Proposal)
    requires SoundProposal(q)
    ensures Ledger.ValidTerms(TermsOf(q)) && SettlementTerms(q) == TermsOf(q)
  {
    hide Present;
    PresentInside("", q.id, "/settlement");
    assert "" + q.id + "/settlement" == q.id + "/settlement";
  }

  lemma SignsIff(p: Platform, auths: seq<Authorization>, terms: Terms, a: Attestation)
    requires KeyIndex(p, auths).Ok?
    ensures SignsTerms(p, auths, terms, a) <==>
              a.payloadDigest == p.digest(terms)
              && MemberVerifies(p, KeyIndex(p, auths).value, terms.communityId, a.memberId, a.keyId, TransferContent(terms), a.signature)
  {
    hide KeyIndex, MemberVerifies;
    VerifiesIffActive(p, auths, terms.communityId, a.memberId, a.keyId, TransferContent(terms), a.signature);
  }

  lemma AttestationFitsIff(p: Platform, less: (string, string) -> bool, auths: seq<Authorization>, x: Exchange, s: SettlementAttestation)
    requires SoundValues(x) && s in x.attestations && KeyIndex(p, auths).Ok?
    requires forall a | a in x.acks :: AcknowledgementFits(x.accepted, a)
    ensures AttestationResolves(p, less, auths, x.accepted, x.acks, s) <==> AttestationFits(p, auths, x.accepted, x.acks, s)
  {
    hide Present, Confirm, DualConfirmedTerms, KeyIndex, MemberVerifies, AcknowledgementFits, Completed, SignsTerms, Ledger.ValidTerms,
         SoundProposal, AcksFor;
    var found := Lookup(x.accepted, ProposalId, s.sourceProposalId);
    if found.Some? {
      var q := found.value;
      forall u | u in x.accepted && u.id == s.sourceProposalId ensures u == q { SameKeySameValue(x.accepted, ProposalId, u, q); }
      ConfirmsWhenFitting(less, x, q);
      SettlementTermsSound(q);
      SignsIff(p, auths, TermsOf(q), s.attestation);
    }
  }

  lemma SettlementFitsIff(p: Platform, less: (string, string) -> bool, auths: seq<Authorization>, x: Exchange, t: Transfer)
    requires SoundValues(x) && t in x.transfers && KeyIndex(p, auths).Ok? && t.terms.reverses.None?
    requires forall a | a in x.acks :: AcknowledgementFits(x.accepted, a)
    ensures TransferResolves(p, less, auths, x.accepted, x.acks, t) <==> SettlementFits(p, auths, x.accepted, x.acks, t)
  {
    hide Present, Confirm, KeyIndex, MemberVerifies, AcknowledgementFits, Completed, SignsTerms, Ledger.CreateTransfer,
         SoundProposal, AcksFor, BothAttest, InOrder;
    NormalForm(t);
    AcceptedTransfer(t);
    var found := Lookup(x.accepted, ProposalId, t.terms.sourceProposalId.value);
    if found.Some? {
      var q := found.value;
      forall u | u in x.accepted && u.id == q.id ensures u == q { SameKeySameValue(x.accepted, ProposalId, u, q); }
      ConfirmsWhenFitting(less, x, q);
      forall a | a in t.attestations
        ensures SignsTerms(p, auths, t.terms, a) <==> AttestationVerifies(p, KeyIndex(p, auths).value, t, a)
      {
        SignsIff(p, auths, t.terms, a);
      }
    }
  }

  lemma AcceptedTransfer(t: Transfer)
    requires SoundTerms(t.terms) && t.terms.reverses.None?
    ensures t.terms.sourceProposalId.Some?
  {
  }

  /** Acceptances keep their proposals' terms, and acknowledgements, attestations and settlements fit their acceptances. */
  ghost predicate PartsFit(p: Platform, auths: seq<Authorization>, x: Exchange) {
    && (forall a | a in x.accepted :: AcceptanceFits(x.proposed, a))
    && (forall a | a in x.acks :: AcknowledgementFits(x.accepted, a))
    && (forall s | s in x.attestations :: AttestationFits(p, auths, x.accepted, x.acks, s))
    && (forall t | t in x.transfers && t.terms.reverses.None? :: SettlementFits(p, auths, x.accepted, x.acks, t))
  }

  lemma PartsFitIff(p: Platform, less: (string, string) -> bool, auths: seq<Authorization>, x: Exchange)
    requires SoundValues(x) && KeyIndex(p, auths).Ok?
    ensures ExchangeFits(p, less, auths, x) <==> PartsFit(p, auths, x)
  {
    hide SoundValues, KeyIndex, AcceptanceFits, AcknowledgementFits, AttestationFits, SettlementFits, PreservesTerms,
         AcknowledgementResolves, AttestationResolves;
    ValuesDistinct(x);
    forall a | a in x.accepted ensures PreservesTerms(x.proposed, a) <==> AcceptanceFits(x.proposed, a) {
      AcceptanceFitsIff(x.proposed, a);
    }
    forall a | a in x.acks ensures AcknowledgementResolves(x.accepted, a) <==> AcknowledgementFits(x.accepted, a) {
      AcknowledgementFitsIff(x, a);
    }
    if forall a | a in x.acks :: AcknowledgementFits(x.accepted, a) {
      forall s | s in x.attestations
        ensures AttestationResolves(p, less, auths, x.accepted, x.acks, s) <==> AttestationFits(p, auths, x.accepted, x.acks, s)
      {
        AttestationFitsIff(p, less, auths, x, s);
      }
      forall t | t in x.transfers
        ensures TransferResolves(p, less, auths, x.accepted, x.acks, t) <==>
                  (t.terms.reverses.None? ==> SettlementFits(p, auths, x.accepted, x.acks, t))
      {
        if t.terms.reverses.None? { SettlementFitsIff(p, less, auths, x, t); }
      }
    }
  }

  lemma ValuesDistinct(x: Exchange)
    requires SoundValues(x)
    ensures KeysDistinct(x.proposed, ProposalId) && KeysDistinct(x.accepted, ProposalId)
  {
  }

  /** With fitting parts, every proposal's attestations resolve. */
  lemma AttestsWhenFitting(p: Platform, less: (string, string) -> bool, auths: seq<Authorization>, x: Exchange, q: Proposal)
    requires SoundValues(x) && KeyIndex(p, auths).Ok? && q in x.accepted && PartsFit(p, auths, x)
    ensures Attest(p, less, q, AcksFor(x.acks, q.id), AttestationsFor(x.attestations, q.id)).Ok?
  {
    hide Present, Confirm, KeyIndex, MemberVerifies, AcceptanceFits, AcknowledgementFits, SettlementFits, SignsTerms,
         Reduce, DualConfirmedTerms, Completed;
    var acks, mine := AcksFor(x.acks, q.id), AttestationsFor(x.attestations, q.id);
    ConfirmsWhenFitting(less, x, q);
    forall s | s in mine
      ensures Completed(x.acks, q) && s in x.attestations && s.sourceProposalId == q.id
      ensures ValidateSettlementAttestation(p, less, q, acks, s).Ok?
    {
      HavingMember(x.attestations, AttestationProposal, q.id, s);
      AttestationValidates(p, less, auths, x, q, s);
    }
    if Completed(x.acks, q) {
      forall s, u | s in mine && u in mine && Attester(s) == Attester(u)
        ensures s == u
      {
        SameKeySameValue(x.attestations, AttestationId, s, u);
      }
      ReduceSpec(ByAttester(less), mine, Validating(p, less, q, acks), Attester);
    } else {
      NothingHeld(mine);
    }
  }

  lemma AttestationValidates(p: Platform, less: (string, string) -> bool, auths: seq<Authorization>, x: Exchange, q: Proposal,
                             s: SettlementAttestation)
    requires SoundValues(x) && KeyIndex(p, auths).Ok? && q in x.accepted && PartsFit(p, auths, x)
    requires s in x.attestations && s.sourceProposalId == q.id
    ensures Completed(x.acks, q) && ValidateSettlementAttestation(p, less, q, AcksFor(x.acks, q.id), s).Ok?
  {
    hide Present, Confirm, KeyIndex, MemberVerifies, AcceptanceFits, AcknowledgementFits, SettlementFits, SignsTerms,
         ValidateSettlementAttestation, AcksFor, Completed;
    AttestationFitsIff(p, less, auths, x, s);
    var u :| u in x.accepted && u.id == s.sourceProposalId && Completed(x.acks, u);
    SameKeySameValue(x.accepted, ProposalId, q, u);
    var found := Lookup(x.accepted, ProposalId, s.sourceProposalId);
    SameKeySameValue(x.accepted, ProposalId, q, found.value);
  }

  lemma ProgressIff(p: Platform, less: (string, string) -> bool, auths: seq<Authorization>, x: Exchange)
    requires SoundValues(x) && KeyIndex(p, auths).Ok?
    ensures ResolveProgress(p, less, auths, x).Ok? <==> PartsFit(p, auths, x)
  {
    hide SoundValues, KeyIndex, Confirm, Attest, ExchangeFits, AcceptanceFits, AcknowledgementFits, AttestationFits, SettlementFits;
    PartsFitIff(p, less, auths, x);
    if PartsFit(p, auths, x) {
      forall q | q in x.accepted
        ensures Confirming(less, x.acks)(q).Ok? && Attesting(p, less, x.acks, x.attestations)(q).Ok?
      {
        ConfirmsWhenFitting(less, x, q);
        AttestsWhenFitting(p, less, auths, x, q);
      }
    }
  }

  // ---- the ledger's part ---------------------------------------------------------------------------------

  /** Every transfer is attested under active keys, and every reversal cancels another transfer of the community. */
  ghost predicate LedgerFits(p: Platform, auths: seq<Authorization>, transfers: seq<Transfer>) {
    forall t | t in transfers ::
      && (forall a | a in t.attestations :: SignsTerms(p, auths, t.terms, a))
      && (t.terms.reverses.Some? ==>
            exists u :: u in transfers && u.terms.id == t.terms.reverses.value && u.terms.provider == t.terms.recipient
                        && u.terms.recipient == t.terms.provider && u.terms.minutes == t.terms.minutes)
  }

  lemma LedgerIff(p: Platform, less: (string, string) -> bool, communityId: string, auths: seq<Authorization>, x: Exchange)
    requires SoundValues(x) && KeyIndex(p, auths).Ok? && Present(communityId) && PartsFit(p, auths, x)
    requires forall t | t in x.transfers :: t.terms.communityId == communityId
    ensures ResolveLedger(p, less, communityId, auths, x.transfers).Ok? <==> LedgerFits(p, auths, x.transfers)
  {
    hide Present, KeyIndex, AcceptanceFits, AcknowledgementFits, AttestationFits, SignsTerms, Completed, SoundTerms, BothAttest,
         Ledger.DeriveLedger, MemberVerifies;
    var verify := TransferVerifier(p, KeyIndex(p, auths).value);
    DerivesIff(less, communityId, x.transfers, verify);
    forall t | t in x.transfers
      ensures Acceptable(communityId, verify, t) <==> forall a | a in t.attestations :: SignsTerms(p, auths, t.terms, a)
    {
      forall a ensures SignsTerms(p, auths, t.terms, a) <==> verify(t, a) { SignsIff(p, auths, t.terms, a); }
    }
    forall t, u | t in x.transfers && u in x.transfers && t.terms.id == u.terms.id ensures t == u {
      SameKeySameValue(x.transfers, Ledger.TransferId, t, u);
    }
    forall t, u | t in x.transfers && u in x.transfers && t.terms.reverses.None? && u.terms.reverses.None?
                  && t.terms.sourceProposalId == u.terms.sourceProposalId
      ensures t.terms.id == u.terms.id
    {
      assert SettlementFits(p, auths, x.accepted, x.acks, t) && SettlementFits(p, auths, x.accepted, x.acks, u);
    }
  }

  // ---- which histories resolve ----------------------------------------------------------------------------

  /** The exchange holds exactly what the records carry. */
  ghost predicate HoldsCarried(p: Platform, communityId: string, records: seq<Record>, x: Exchange) {
    && (forall q :: q in x.proposed <==> CarriesProposed(p, communityId, records, q))
    && (forall q :: q in x.accepted <==> CarriesAccepted(p, communityId, records, q))
    && (forall a :: a in x.acks <==> CarriesAcknowledgement(p, communityId, records, a))
    && (forall s :: s in x.attestations <==> CarriesAttestation(p, communityId, records, s))
    && (forall t :: t in x.transfers <==> CarriesTransfer(p, communityId, records, t))
  }

  lemma ExchangeReduces(p: Platform, less: (string, string) -> bool, communityId: string, records: seq<Record>, mine: seq<Envelope>)
    requires Present(communityId) && EnvelopesAgree(p, records) && Mine(records, communityId, mine)
    ensures ReducedExchange(p, less, communityId, mine).Ok? <==>
              && AllSound(p, communityId, records, ProposedProposalKind) && AllSound(p, communityId, records, AcceptedProposalKind)
              && AllSound(p, communityId, records, AcknowledgementKind) && AllSound(p, communityId, records, AttestationKind)
              && AllSound(p, communityId, records, TransferKind)
    ensures ReducedExchange(p, less, communityId, mine).Ok? ==>
              HoldsCarried(p, communityId, records, ReducedExchange(p, less, communityId, mine).value)
              && SoundValues(ReducedExchange(p, less, communityId, mine).value)
  {
    hide EnvelopesAgree, Mine, Present, AllSound, SoundValues, CarriesProposed, CarriesAccepted, CarriesAcknowledgement,
         CarriesAttestation, CarriesTransfer, ReducedProposed, ReducedAccepted, ReducedAcknowledgements, ReducedAttestations,
         ReducedTransfers;
    ProposedReduce(p, less, communityId, records, mine);
    AcceptedReduce(p, less, communityId, records, mine);
    AcknowledgementsReduce(p, less, communityId, records, mine);
    AttestationsReduce(p, less, communityId, records, mine);
    TransfersReduce(p, less, communityId, records, mine);
    if ReducedExchange(p, less, communityId, mine).Ok? {
      CarriedValuesSound(p, communityId, records, ReducedExchange(p, less, communityId, mine).value);
    }
  }

  lemma CarriedValuesSound(p: Platform, communityId: string, records: seq<Record>, x: Exchange)
    requires HoldsCarried(p, communityId, records, x)
    requires KeysDistinct(x.proposed, ProposalId) && KeysDistinct(x.accepted, ProposalId) && KeysDistinct(x.transfers, Ledger.TransferId)
    requires KeysDistinct(x.attestations, AttestationId)
    ensures SoundValues(x)
  {
    hide Present, Delivers, SoundTerms, SoundAttestation;
    forall q | q in x.accepted ensures SoundProposal(q) && q.status == Accepted && q.acceptedBy.Some? {
      var e :| Delivers(records, communityId, e) && AcceptedRecord(p, e, q);
    }
    forall a | a in x.acks
      ensures Present(a.id) && Present(a.communityId) && Present(a.sourceProposalId) && Present(a.provider) && Present(a.recipient)
      ensures Present(a.acknowledgedBy) && a.minutes > 0 && a.acknowledgedBy in {a.provider, a.recipient}
      ensures a.id == a.sourceProposalId + "/settlement-ack/" + a.acknowledgedBy
    {
      var e :| Delivers(records, communityId, e) && AcknowledgementRecord(p, e, a);
    }
    forall s | s in x.attestations
      ensures Present(s.attestation.memberId) && s.id == s.sourceProposalId + "/settlement-attestation/" + s.attestation.memberId
    {
      var e :| Delivers(records, communityId, e) && AttestationRecord(p, e, s);
    }
    forall t | t in x.transfers ensures SoundTerms(t.terms) && BothAttest(t) && InOrder(t) == t {
      var e :| Delivers(records, communityId, e) && TransferRecord(p, e, t);
    }
  }

  lemma CarriedInCommunity(p: Platform, communityId: string, records: seq<Record>)
    ensures forall t | CarriesTransfer(p, communityId, records, t) :: t.terms.communityId == communityId
    ensures forall l | CarriesListing(p, communityId, records, l) :: l.communityId == communityId
    ensures forall c | CarriesClosure(p, communityId, records, c) :: c.communityId == communityId
  {
    hide Present, SoundTerms, BothAttest, InOrder, SoundEnvelope;
  }

  /** Every closure closes a listing of the member that closes it. */
  ghost predicate ClosuresOwned(p: Platform, communityId: string, records: seq<Record>) {
    forall c | CarriesClosure(p, communityId, records, c) ::
      exists l :: CarriesListing(p, communityId, records, l) && l.id == c.listingId && l.memberId == c.memberId
  }

  lemma ListingsIff(p: Platform, less: (string, string) -> bool, communityId: string, records: seq<Record>, mine: seq<Envelope>)
    requires Present(communityId) && EnvelopesAgree(p, records) && Mine(records, communityId, mine)
    ensures var r := ResolveListings(p, less, communityId, mine);
            && (r.Ok? <==>
                  && AllSound(p, communityId, records, PublishedListingKind) && AllSound(p, communityId, records, ClosedListingKind)
                  && ClosuresOwned(p, communityId, records))
            && (r.Ok? ==> forall l :: l in r.value <==>
                  && CarriesListing(p, communityId, records, l)
                  && forall c | CarriesClosure(p, communityId, records, c) :: c.listingId != l.id)
  {
    hide EnvelopesAgree, Mine, Present, AllSound, CarriesListing, CarriesClosure, ReducedListings, ReducedClosures;
    ListingsReduce(p, less, communityId, records, mine);
    ClosuresReduce(p, less, communityId, records, mine);
    CarriedInCommunity(p, communityId, records);
    var listings, closures := ReducedListings(p, less, communityId, mine), ReducedClosures(p, less, communityId, mine);
    if listings.Ok? && closures.Ok? {
      forall c | c in closures.value
        ensures ClosureIsOwned(listings.value, c) <==>
                  exists l :: CarriesListing(p, communityId, records, l) && l.id == c.listingId && l.memberId == c.memberId
      {
        OwnedIff(p, communityId, records, listings.value, c);
      }
    }
  }

  lemma OwnedIff(p: Platform, communityId: string, records: seq<Record>, listings: seq<Listing>, c: Closure)
    requires KeysDistinct(listings, ListingId) && forall l :: l in listings <==> CarriesListing(p, communityId, records, l)
    requires CarriesClosure(p, communityId, records, c)
    ensures ClosureIsOwned(listings, c) <==>
              exists l :: CarriesListing(p, communityId, records, l) && l.id == c.listingId && l.memberId == c.memberId
  {
    CarriedInCommunity(p, communityId, records);
    hide CarriesListing, CarriesClosure;
    var found := Lookup(listings, ListingId, c.listingId);
    if found.Some? {
      forall l | l in listings && l.id == c.listingId ensures l == found.value { SameKeySameValue(listings, ListingId, l, found.value); }
    }
  }

  /** Everything that a history needs to resolve, of its records, what they authorize and what they carry. */
  ghost predicate Resolvable(p: Platform, less: (string, string) -> bool, communityId: string, records: seq<Record>,
                             auths: seq<Authorization>, x: Exchange)
  {
    && Present(communityId) && EnvelopesAgree(p, records)
    && IdentitiesSound(p, communityId, records) && KeyHistoriesSound(p, less, communityId, records)
    && Indexes(p, auths) && AllSigned(p, communityId, auths, records) && ClosuresOwned(p, communityId, records)
    && PartsFit(p, auths, x) && LedgerFits(p, auths, x.transfers)
  }

  lemma SignedKindsSound(p: Platform, communityId: string, auths: seq<Authorization>, records: seq<Record>, kind: Kind)
    requires AllSigned(p, communityId, auths, records)
    requires kind == PublishedListingKind || kind == ClosedListingKind || kind == ProposedProposalKind || kind == AcceptedProposalKind
             || kind == AcknowledgementKind || kind == AttestationKind || kind == TransferKind
    ensures AllSound(p, communityId, records, kind)
  {
    hide SoundContent, SignedUnder;
    forall e | Delivers(records, communityId, e) && e.kind == kind
      ensures SoundContent(p, e)
    {
      var r :| r in records && r.envelope == e;
      assert MemberKind(r.envelope);
    }
  }

  lemma AllKindsSound(p: Platform, communityId: string, auths: seq<Authorization>, records: seq<Record>)
    requires AllSigned(p, communityId, auths, records)
    ensures AllSound(p, communityId, records, PublishedListingKind) && AllSound(p, communityId, records, ClosedListingKind)
    ensures AllSound(p, communityId, records, ProposedProposalKind) && AllSound(p, communityId, records, AcceptedProposalKind)
    ensures AllSound(p, communityId, records, AcknowledgementKind) && AllSound(p, communityId, records, AttestationKind)
    ensures AllSound(p, communityId, records, TransferKind)
  {
    hide AllSigned, AllSound;
    SignedKindsSound(p, communityId, auths, records, PublishedListingKind);
    SignedKindsSound(p, communityId, auths, records, ClosedListingKind);
    SignedKindsSound(p, communityId, auths, records, ProposedProposalKind);
    SignedKindsSound(p, communityId, auths, records, AcceptedProposalKind);
    SignedKindsSound(p, communityId, auths, records, AcknowledgementKind);
    SignedKindsSound(p, communityId, auths, records, AttestationKind);
    SignedKindsSound(p, communityId, auths, records, TransferKind);
  }

  /** The stages after admission succeed exactly when closures are owned and the exchange fits. */
  lemma StagesIff(p: Platform, less: (string, string) -> bool, communityId: string, records: seq<Record>, mine: seq<Envelope>,
                  auths: seq<Authorization>)
    requires Present(communityId) && EnvelopesAgree(p, records) && Mine(records, communityId, mine)
    requires AllSigned(p, communityId, auths, records)
    ensures ReducedExchange(p, less, communityId, mine).Ok?
    ensures ResolveValues(p, less, communityId, mine, auths).Ok? <==>
              var x := ReducedExchange(p, less, communityId, mine).value;
              && Indexes(p, auths) && ClosuresOwned(p, communityId, records) && PartsFit(p, auths, x) && LedgerFits(p, auths, x.transfers)
  {
    hide EnvelopesAgree, Mine, Present, AllSound, AllSigned, ClosuresOwned, PartsFit, LedgerFits, ResolveListings, ReducedExchange,
         ResolveProgress, ResolveLedger, KeyIndex, SoundValues, HoldsCarried, CarriesTransfer, Indexes;
    AllKindsSound(p, communityId, auths, records);
    ListingsIff(p, less, communityId, records, mine);
    ExchangeReduces(p, less, communityId, records, mine);
    IndexIff(p, auths);
    var x := ReducedExchange(p, less, communityId, mine).value;
    TransfersHere(p, communityId, records, x);
    if KeyIndex(p, auths).Ok? {
      ProgressIff(p, less, auths, x);
      if PartsFit(p, auths, x) { LedgerIff(p, less, communityId, auths, x); }
    } else {
      NoLedgerWithoutIndex(p, less, communityId, auths, x.transfers);
    }
  }

  lemma NoLedgerWithoutIndex(p: Platform, less: (string, string) -> bool, communityId: string, auths: seq<Authorization>,
                             transfers: seq<Transfer>)
    requires KeyIndex(p, auths).Error?
    ensures ResolveLedger(p, less, communityId, auths, transfers).Error?
  {
  }

  lemma TransfersHere(p: Platform, communityId: string, records: seq<Record>, x: Exchange)
    requires HoldsCarried(p, communityId, records, x)
    ensures forall t | t in x.transfers :: t.terms.communityId == communityId
  {
    hide CarriesTransfer;
    CarriedInCommunity(p, communityId, records);
  }

  /** A history of records resolves exactly when its envelopes agree, its identity records are sound, what they authorize
      can be indexed, its members' records are sound and signed, closures are owned, and the exchange fits together. */
  lemma ResolvesIff(p: Platform, less: (string, string) -> bool, communityId: string, records: seq<Record>)
    returns (events: seq<KeyEvent>, ds: seq<Declaration>, statements: seq<RootStatement>, legacy: seq<Authorization>,
             devices: seq<Authorization>, x: Exchange)
    requires StrictTotalOrder(less)
    ensures ResolveRecords(p, less, communityId, records).Ok? <==>
              Resolvable(p, less, communityId, records, legacy + Map(ds, RootOf) + devices, x)
    ensures EnvelopesAgree(p, records) && IdentitiesSound(p, communityId, records) && KeyHistoriesSound(p, less, communityId, records) ==>
              AuthorizedBy(p, less, communityId, records, events, ds, statements, legacy, devices)
    ensures Present(communityId) && EnvelopesAgree(p, records) && AllSigned(p, communityId, legacy + Map(ds, RootOf) + devices, records) ==>
              HoldsCarried(p, communityId, records, x)
  {
    hide StrictTotalOrder, EnvelopesAgree, Present, AllSigned, ClosuresOwned, PartsFit, LedgerFits, ReducedExchange, IdentitiesSound,
         KeyHistoriesSound, ResolveAuthorizations, ResolveValues, AllMemberSigned, Indexes, KeyIndex, HoldsCarried, AuthorizedBy, Map,
         CommunityEnvelopes, SoundValues, AllSound;
    EnvelopesAgreeIff(p, less, communityId, records);
    events, ds, statements, legacy, devices, x := [], [], [], [], [], Exchange([], [], [], [], []);
    if EnvelopesAgree(p, records) {
      var mine := CommunityEnvelopes(p, less, communityId, records).value;
      AuthorizationsIff(p, less, communityId, records, mine);
      if ResolveAuthorizations(p, less, mine).Ok? {
        events, ds, statements, legacy, devices := AuthorizationsFollow(p, less, communityId, records, mine);
      }
      var auths := legacy + Map(ds, RootOf) + devices;
      IndexIff(p, auths);
      if Present(communityId) {
        ExchangeReduces(p, less, communityId, records, mine);
        if ReducedExchange(p, less, communityId, mine).Ok? { x := ReducedExchange(p, less, communityId, mine).value; }
        if AllSigned(p, communityId, auths, records) {
          AllKindsSound(p, communityId, auths, records);
          StagesIff(p, less, communityId, records, mine, auths);
        }
      } else {
        BlankCommunityFails(p, less, communityId, mine, auths);
      }
      if KeyIndex(p, auths).Ok? { AllSignedIff(p, communityId, auths, records); } else { IndexNeeded(p, less, communityId, mine, auths); }
    }
  }

  lemma BlankCommunityFails(p: Platform, less: (string, string) -> bool, communityId: string, mine: seq<Envelope>, auths: seq<Authorization>)
    requires !Present(communityId)
    ensures ResolveValues(p, less, communityId, mine, auths).Error?
  {
  }

  lemma IndexNeeded(p: Platform, less: (string, string) -> bool, communityId: string, mine: seq<Envelope>, auths: seq<Authorization>)
    requires KeyIndex(p, auths).Error?
    ensures ResolveValues(p, less, communityId, mine, auths).Error?
  {
    hide KeyIndex, ResolveListings, ReducedExchange, ResolveProgress;
    if ReducedExchange(p, less, communityId, mine).Ok? {
      NoLedgerWithoutIndex(p, less, communityId, auths, ReducedExchange(p, less, communityId, mine).value.transfers);
    }
  }

  // ---- the resolved state ---------------------------------------------------------------------------------

  lemma KeyedTotal<T(!new)>(before: (T, T) -> bool, less: (string, string) -> bool, id: T -> string, values: seq<T>)
    requires StrictTotalOrder(less) && KeysDistinct(values, id) && forall a, b | a in values && b in values :: before(a, b) == less(id(a), id(b))
    ensures TotalOn(before, values)
  {
    forall a, b | a in values && b in values && a != b
      ensures id(a) != id(b)
    {
      if id(a) == id(b) { SameKeySameValue(values, id, a, b); }
    }
  }

  /** Reduced values ascend by their ids. */
  lemma ReducedAscend<R(!new), T(!new)>(before: (T, T) -> bool, less: (string, string) -> bool, id: T -> string, deliveries: seq<R>,
                                        decode: R -> Result<T>)
    requires StrictTotalOrder(less) && forall a, b :: before(a, b) == less(id(a), id(b))
    requires Reduce(before, deliveries, decode, id).Ok?
    ensures var values := Reduce(before, deliveries, decode, id).value;
            forall i, j | 0 <= i < j < |values| :: less(id(values[i]), id(values[j]))
  {
    hide StrictTotalOrder, TotalOn, Sort, Coherent, HoldsDecoded, KeysDistinct;
    var deduped := Dedupe(deliveries, decode, id).value;
    DedupeSpec(deliveries, decode, id);
    KeyedTotal(before, less, id, deduped);
    SortOrdersValues(before, deduped, id);
  }

  ghost predicate StateAscends(less: (string, string) -> bool, s: ResolvedState) {
    && (forall i, j | 0 <= i < j < |s.proposed| :: less(s.proposed[i].id, s.proposed[j].id))
    && (forall i, j | 0 <= i < j < |s.accepted| :: less(s.accepted[i].id, s.accepted[j].id))
    && (forall i, j | 0 <= i < j < |s.acknowledgements| :: less(s.acknowledgements[i].id, s.acknowledgements[j].id))
    && (forall i, j | 0 <= i < j < |s.transfers| :: less(s.transfers[i].terms.id, s.transfers[j].terms.id))
  }

  lemma ExchangeAscends(p: Platform, less: (string, string) -> bool, communityId: string, mine: seq<Envelope>)
    requires StrictTotalOrder(less) && ReducedExchange(p, less, communityId, mine).Ok?
    ensures var x := ReducedExchange(p, less, communityId, mine).value;
            && (forall i, j | 0 <= i < j < |x.proposed| :: less(x.proposed[i].id, x.proposed[j].id))
            && (forall i, j | 0 <= i < j < |x.accepted| :: less(x.accepted[i].id, x.accepted[j].id))
            && (forall i, j | 0 <= i < j < |x.acks| :: less(x.acks[i].id, x.acks[j].id))
            && (forall i, j | 0 <= i < j < |x.transfers| :: less(x.transfers[i].terms.id, x.transfers[j].terms.id))
  {
    hide StrictTotalOrder, Reduce, Present, OfKind;
    var c := communityId;
    ReducedAscend(OrderedBy(less, ProposalId), less, ProposalId, OfKind(mine, ProposedProposalKind),
                  Scoped(DecodingProposed(p), ProposalCommunity, c));
    ReducedAscend(OrderedBy(less, ProposalId), less, ProposalId, OfKind(mine, AcceptedProposalKind),
                  Scoped(DecodingAccepted(p), ProposalCommunity, c));
    ReducedAscend(OrderedBy(less, AckId), less, AckId, OfKind(mine, AcknowledgementKind),
                  Scoped(DecodingAcknowledgements(p), AckCommunity, c));
    ReducedAscend(OrderedBy(less, Ledger.TransferId), less, Ledger.TransferId, OfKind(mine, TransferKind),
                  Scoped(DecodingTransfers(p), TransferCommunity, c));
  }

  /** Published listings are those that records carry and no closure names, by ascending id. */
  ghost predicate ListsOpen(p: Platform, less: (string, string) -> bool, communityId: string, records: seq<Record>, listings: seq<Listing>) {
    && (forall l :: l in listings <==>
          CarriesListing(p, communityId, records, l) && forall c | CarriesClosure(p, communityId, records, c) :: c.listingId != l.id)
    && (forall i, j | 0 <= i < j < |listings| :: less(listings[i].id, listings[j].id))
  }

  lemma {:induction false} FilterKeepsAscent<T(!new)>(before: (T, T) -> bool, s: seq<T>, keep: T -> bool)
    requires Ascending(before, s)
    ensures Ascending(before, Filter(s, keep))
  {
    if s != [] {
      var front, last := s[..|s| - 1], s[|s| - 1];
      FilterKeepsAscent(before, front, keep);
      forall x | x in Filter(front, keep)
        ensures before(x, last)
      {
        var i :| 0 <= i < |front| && front[i] == x;
        assert s[i] == x;
      }
    }
  }

  lemma OpenListingsAscend(p: Platform, less: (string, string) -> bool, communityId: string, mine: seq<Envelope>)
    requires StrictTotalOrder(less) && ResolveListings(p, less, communityId, mine).Ok?
    ensures var listings := ResolveListings(p, less, communityId, mine).value;
            forall i, j | 0 <= i < j < |listings| :: less(listings[i].id, listings[j].id)
  {
    hide StrictTotalOrder, Reduce, Present, OfKind;
    var all, closures := ReducedListings(p, less, communityId, mine).value, ReducedClosures(p, less, communityId, mine).value;
    ReducedAscend(OrderedBy(less, ListingId), less, ListingId, OfKind(mine, PublishedListingKind),
                  Scoped(DecodingListings(p), ListingCommunity, communityId));
    var closed := set c | c in closures :: c.listingId;
    FilterKeepsAscent(OrderedBy(less, ListingId), all, (l: Listing) => l.id !in closed);
  }

  /** One confirmation for each accepted proposal, in their order: all of the proposal's acknowledgements, by ascending
      member, dual when both participants have acknowledged. */
  ghost predicate ConfirmsEach(less: (string, string) -> bool, x: Exchange, confirmations: seq<Confirmation>) {
    && |confirmations| == |x.accepted|
    && forall i | 0 <= i < |confirmations| ::
         ConfirmsOne(less, x, x.accepted[i], confirmations[i])
  }

  ghost predicate ConfirmsOne(less: (string, string) -> bool, x: Exchange, q: Proposal, c: Confirmation) {
    && c.proposalId == q.id && (c.dualConfirmed <==> Completed(x.acks, q))
    && (forall a :: a in c.acknowledgements <==> a in x.acks && a.sourceProposalId == q.id)
    && (forall j, k | 0 <= j < k < |c.acknowledgements| :: less(c.acknowledgements[j].acknowledgedBy, c.acknowledgements[k].acknowledgedBy))
  }

  /** One attestation state for each accepted proposal, in their order: all of the proposal's attestations, by ascending
      member, waiting for acknowledgements, for attestations, or for nothing. */
  ghost predicate AttestsEach(less: (string, string) -> bool, x: Exchange, states: seq<AttestationState>) {
    && |states| == |x.accepted|
    && forall i | 0 <= i < |states| ::
         AttestsOne(less, x, x.accepted[i], states[i])
  }

  ghost predicate AttestsOne(less: (string, string) -> bool, x: Exchange, q: Proposal, s: AttestationState) {
    && s.proposalId == q.id
    && (forall a :: a in s.attestations <==> a in x.attestations && a.sourceProposalId == q.id)
    && (forall j, k | 0 <= j < k < |s.attestations| :: less(s.attestations[j].attestation.memberId, s.attestations[k].attestation.memberId))
    && s.status ==
         if !Completed(x.acks, q) then AwaitingConfirmation
         else if AttestedFor(x, q, q.provider) && AttestedFor(x, q, q.receiver) then DualAttested else AwaitingAttestations
  }

  ghost predicate AttestedFor(x: Exchange, q: Proposal, memberId: string) {
    exists s :: s in x.attestations && s.sourceProposalId == q.id && s.attestation.memberId == memberId
  }

  lemma ConfirmationIs(less: (string, string) -> bool, x: Exchange, q: Proposal, c: Confirmation)
    requires StrictTotalOrder(less) && SoundValues(x) && q in x.accepted && forall a | a in x.acks :: AcknowledgementFits(x.accepted, a)
    requires Confirm(less, q, AcksFor(x.acks, q.id)) == Ok(c)
    ensures ConfirmsOne(less, x, q, c)
  {
    hide StrictTotalOrder, SoundValues, AcknowledgementFits, ValidateAcknowledgement, Completed, Reduce;
    var mine := AcksFor(x.acks, q.id);
    ConfirmsWhenFitting(less, x, q);
    ConfirmSpec(less, q, mine);
    forall a ensures a in mine <==> a in x.acks && a.sourceProposalId == q.id { HavingMember(x.acks, AckProposal, q.id, a); }
    ReducedAscend(ByAcknowledger(less), less, Acknowledger, mine, ValidateAcknowledgement(q));
  }

  lemma AttestationStateIs(p: Platform, less: (string, string) -> bool, x: Exchange, q: Proposal, s: AttestationState)
    requires StrictTotalOrder(less) && SoundValues(x) && q in x.accepted && forall a | a in x.acks :: AcknowledgementFits(x.accepted, a)
    requires Attest(p, less, q, AcksFor(x.acks, q.id), AttestationsFor(x.attestations, q.id)) == Ok(s)
    ensures AttestsOne(less, x, q, s)
  {
    hide StrictTotalOrder, SoundValues, AcknowledgementFits, ValidateSettlementAttestation, Confirm, DualConfirmedTerms, Reduce;
    var acks, mine := AcksFor(x.acks, q.id), AttestationsFor(x.attestations, q.id);
    ConfirmsWhenFitting(less, x, q);
    AttestSpec(p, less, q, acks, mine);
    forall a ensures a in mine <==> a in x.attestations && a.sourceProposalId == q.id {
      HavingMember(x.attestations, AttestationProposal, q.id, a);
    }
    forall a ensures a in acks <==> a in x.acks && a.sourceProposalId == q.id { HavingMember(x.acks, AckProposal, q.id, a); }
    if Completed(x.acks, q) {
      ReducedAscend(ByAttester(less), less, Attester, mine, Validating(p, less, q, acks));
    }
  }

  /** The declared members are listed by ascending id, once each. */
  ghost predicate MembersAscend(less: (string, string) -> bool, ds: seq<Declaration>) {
    forall i, j | 0 <= i < j < |ds| :: less(ds[i].memberId, ds[j].memberId)
  }

  lemma RootsOnce(p: Platform, legacy: seq<Authorization>, ds: seq<Declaration>, devices: seq<Authorization>, i: int, j: int)
    requires Indexes(p, legacy + Map(ds, RootOf) + devices) && 0 <= i < j < |ds| && ds[i].communityId == ds[j].communityId
    ensures ds[i].memberId != ds[j].memberId
  {
    var auths := legacy + Map(ds, RootOf) + devices;
    assert auths[|legacy| + i] == RootOf(ds[i]) && auths[|legacy| + j] == RootOf(ds[j]);
    assert !(auths[|legacy| + i].communityId == auths[|legacy| + j].communityId && auths[|legacy| + i].keyId == auths[|legacy| + j].keyId);
  }

  /** The state of a history, from what its records carry and authorize. */
  ghost predicate IsStateOf(p: Platform, less: (string, string) -> bool, communityId: string, records: seq<Record>,
                            events: seq<KeyEvent>, ds: seq<Declaration>, statements: seq<RootStatement>,
                            legacy: seq<Authorization>, devices: seq<Authorization>, x: Exchange, s: ResolvedState)
  {
    && s.communityId == communityId
    && AuthorizedBy(p, less, communityId, records, events, ds, statements, legacy, devices) && MembersAscend(less, ds)
    && s.authorizations == legacy + Map(ds, RootOf) + devices
    && ListsOpen(p, less, communityId, records, s.publishedListings)
    && x == Exchange(s.proposed, s.accepted, s.acknowledgements, s.transfers, x.attestations)
    && HoldsCarried(p, communityId, records, x) && StateAscends(less, s)
    && ConfirmsEach(less, x, s.confirmations) && AttestsEach(less, x, s.attestationStates)
    && exists ts, accepted, last :: Collects(s.transfers, ts) && IdsAscend(less, ts) && IdsAscend(less, s.ledger.transfers)
                                    && IsLedgerOf(less, communityId, ts, accepted, last, s.ledger)
  }

  lemma ProgressIs(p: Platform, less: (string, string) -> bool, auths: seq<Authorization>, x: Exchange,
                   confirmations: seq<Confirmation>, states: seq<AttestationState>)
    requires StrictTotalOrder(less) && SoundValues(x) && KeyIndex(p, auths).Ok?
    requires ResolveProgress(p, less, auths, x) == Ok(Progress(confirmations, states))
    ensures ConfirmsEach(less, x, confirmations) && AttestsEach(less, x, states)
  {
    hide StrictTotalOrder, SoundValues, KeyIndex, Confirm, Attest, ExchangeFits, AcceptanceFits, AcknowledgementFits, AttestationFits,
         SettlementFits, Completed, AttestedFor, AcksFor, AttestationsFor;
    ProgressIff(p, less, auths, x);
    forall i | 0 <= i < |x.accepted|
      ensures Confirm(less, x.accepted[i], AcksFor(x.acks, x.accepted[i].id)) == Ok(confirmations[i])
      ensures Attest(p, less, x.accepted[i], AcksFor(x.acks, x.accepted[i].id), AttestationsFor(x.attestations, x.accepted[i].id)) == Ok(states[i])
    {
      assert Confirming(less, x.acks)(x.accepted[i]) == Ok(confirmations[i]);
      assert Attesting(p, less, x.acks, x.attestations)(x.accepted[i]) == Ok(states[i]);
    }
    forall i | 0 <= i < |x.accepted|
      ensures ConfirmsOne(less, x, x.accepted[i], confirmations[i]) && AttestsOne(less, x, x.accepted[i], states[i])
    {
      assert x.accepted[i] in x.accepted;
      ConfirmationIs(less, x, x.accepted[i], confirmations[i]);
      AttestationStateIs(p, less, x, x.accepted[i], states[i]);
    }
  }

  lemma LedgerIs(p: Platform, less: (string, string) -> bool, communityId: string, auths: seq<Authorization>, transfers: seq<Transfer>)
    returns (ts: seq<Transfer>, accepted: seq<Transfer>, last: nat)
    requires StrictTotalOrder(less) && ResolveLedger(p, less, communityId, auths, transfers).Ok?
    ensures var view := ResolveLedger(p, less, communityId, auths, transfers).value;
            && Collects(transfers, ts) && IdsAscend(less, ts) && IdsAscend(less, view.transfers)
            && IsLedgerOf(less, communityId, ts, accepted, last, view)
  {
    hide KeyIndex, Collects, IsLedgerOf, Ledger.DeriveLedger;
    var verify := TransferVerifier(p, KeyIndex(p, auths).value);
    ts, accepted, last := ViewInPlainTerms(less, communityId, transfers, verify);
    assert LedgerTheorems.IdsOrdered(less, transfers);
  }

  lemma StagesOf(p: Platform, less: (string, string) -> bool, communityId: string, records: seq<Record>)
    requires ResolveRecords(p, less, communityId, records).Ok?
    ensures CommunityEnvelopes(p, less, communityId, records).Ok?
    ensures var s, mine := ResolveRecords(p, less, communityId, records).value, CommunityEnvelopes(p, less, communityId, records).value;
            && ResolveAuthorizations(p, less, mine) == Ok(s.authorizations)
            && AllMemberSigned(p, communityId, s.authorizations, records)
            && ResolveValues(p, less, communityId, mine, s.authorizations) == Ok(s)
            && ResolveListings(p, less, communityId, mine) == Ok(s.publishedListings)
  {
    hide Present, CommunityEnvelopes, ResolveAuthorizations, AllMemberSigned, ReducedExchange, ResolveListings, ResolveProgress, ResolveLedger;
  }

  lemma IndexOfResolved(p: Platform, less: (string, string) -> bool, communityId: string, auths: seq<Authorization>, transfers: seq<Transfer>)
    requires ResolveLedger(p, less, communityId, auths, transfers).Ok?
    ensures KeyIndex(p, auths).Ok? && Indexes(p, auths)
  {
    hide KeyIndex, Indexes;
    IndexIff(p, auths);
  }

  lemma MembersListed(p: Platform, less: (string, string) -> bool, communityId: string, records: seq<Record>, events: seq<KeyEvent>,
                      ds: seq<Declaration>, statements: seq<RootStatement>, legacy: seq<Authorization>, devices: seq<Authorization>)
    requires StrictTotalOrder(less) && Indexes(p, legacy + Map(ds, RootOf) + devices) && Ascending(DeclarationOrder(less), ds)
    requires AuthorizedBy(p, less, communityId, records, events, ds, statements, legacy, devices)
    ensures MembersAscend(less, ds)
  {
    CarriedSound(p, communityId, records);
    hide Indexes, CarriesDeclaration, CarriesEvent, CarriesStatement, HoldsWhatFollows, SoundEvent, SoundStatement;
    forall i, j | 0 <= i < j < |ds|
      ensures less(ds[i].memberId, ds[j].memberId)
    {
      assert ds[i] in ds && ds[j] in ds;
      RootsOnce(p, legacy, ds, devices, i, j);
      assert DeclarationOrder(less)(ds[i], ds[j]);
    }
  }

  /** Every part of every resolved state, in the terms of the delivered records. */
  lemma StateInPlainTerms(p: Platform, less: (string, string) -> bool, communityId: string, records: seq<Record>)
    returns (events: seq<KeyEvent>, ds: seq<Declaration>, statements: seq<RootStatement>, legacy: seq<Authorization>,
             devices: seq<Authorization>, x: Exchange)
    requires StrictTotalOrder(less) && ResolveRecords(p, less, communityId, records).Ok?
    ensures IsStateOf(p, less, communityId, records, events, ds, statements, legacy, devices, x,
                      ResolveRecords(p, less, communityId, records).value)
    ensures Resolvable(p, less, communityId, records, legacy + Map(ds, RootOf) + devices, x)
  {
    hide StrictTotalOrder, EnvelopesAgree, Present, AllSigned, ClosuresOwned, PartsFit, LedgerFits, ReducedExchange, IdentitiesSound,
         KeyHistoriesSound, ResolveAuthorizations, AllMemberSigned, Indexes, KeyIndex, HoldsCarried, AuthorizedBy, Map,
         CommunityEnvelopes, SoundValues, AllSound, ResolveProgress, ResolveLedger, HoldsExchange, ListsOpen, ResolveListings,
         ConfirmsEach, AttestsEach, Collects, IsLedgerOf, ResolveRecords, ResolveValues, MembersAscend, StateAscends;
    var s := ResolveRecords(p, less, communityId, records).value;
    x := ResolvedStages(p, less, communityId, records);
    StagesOf(p, less, communityId, records);
    var mine := CommunityEnvelopes(p, less, communityId, records).value;
    EnvelopesAgreeIff(p, less, communityId, records);
    events, ds, statements, legacy, devices := AuthorizationsFollow(p, less, communityId, records, mine);
    AuthorizationsIff(p, less, communityId, records, mine);
    IndexOfResolved(p, less, communityId, s.authorizations, s.transfers);
    AllSignedIff(p, communityId, s.authorizations, records);
    StagesIff(p, less, communityId, records, mine, s.authorizations);
    ExchangeReduces(p, less, communityId, records, mine);
    var ts, accepted, last := LedgerIs(p, less, communityId, s.authorizations, s.transfers);
    ProgressIs(p, less, s.authorizations, x, s.confirmations, s.attestationStates);
    PublishedIs(p, less, communityId, records, mine, s);
    ValuesAscend(p, less, communityId, mine, x, s);
    MembersListed(p, less, communityId, records, events, ds, statements, legacy, devices);
  }

  lemma PublishedIs(p: Platform, less: (string, string) -> bool, communityId: string, records: seq<Record>, mine: seq<Envelope>, s: ResolvedState)
    requires StrictTotalOrder(less) && Present(communityId) && EnvelopesAgree(p, records) && Mine(records, communityId, mine)
    requires ResolveListings(p, less, communityId, mine) == Ok(s.publishedListings)
    ensures ListsOpen(p, less, communityId, records, s.publishedListings)
  {
    hide StrictTotalOrder, EnvelopesAgree, Present, ResolveListings, CarriesListing, CarriesClosure, AllSound, ClosuresOwned;
    ListingsIff(p, less, communityId, records, mine);
    OpenListingsAscend(p, less, communityId, mine);
  }

  lemma ValuesAscend(p: Platform, less: (string, string) -> bool, communityId: string, mine: seq<Envelope>, x: Exchange, s: ResolvedState)
    requires StrictTotalOrder(less) && ReducedExchange(p, less, communityId, mine) == Ok(x)
    requires x == Exchange(s.proposed, s.accepted, s.acknowledgements, s.transfers, x.attestations)
    ensures StateAscends(less, s)
  {
    hide StrictTotalOrder, ReducedExchange;
    ExchangeAscends(p, less, communityId, mine);
  }


  /** The events are those of the history's older key events, or those of its root-signed statements. */
  ghost predicate LifecycleOf(p: Platform, communityId: string, records: seq<Record>, events: seq<KeyEvent>) {
    || (forall k :: k in events <==> CarriesEvent(p, communityId, records, k))
    || (forall k :: k in events <==> exists s :: CarriesStatement(p, communityId, records, s) && s.event == k)
  }

  /** Every key of a resolved state is the declared root key of a member, or carries the public key of the last activation
      of its key id among the older events or among the root-signed statements, also after a revocation; and it is active
      exactly when the last event of its key id activates it. */
  lemma ResolvedKeyFollows(p: Platform, less: (string, string) -> bool, communityId: string, records: seq<Record>, a: Authorization)
    returns (d: Declaration, events: seq<KeyEvent>, activation: KeyEvent, last: KeyEvent)
    requires StrictTotalOrder(less) && ResolveRecords(p, less, communityId, records).Ok?
    requires a in ResolveRecords(p, less, communityId, records).value.authorizations
    ensures || (CarriesDeclaration(p, communityId, records, d)
                && a == Authorization(d.communityId, d.memberId, "root:" + d.memberId, d.rootPublicKeyPem, true))
            || (LifecycleOf(p, communityId, records, events) && IsLastActivation(less, events, activation) && IsLast(less, events, last)
                && SameKey(activation, last)
                && a == Authorization(activation.communityId, activation.memberId, activation.keyId,
                                      activation.action.publicKeyPem, last.action.Activate?))
  {
    hide StrictTotalOrder, ResolveRecords, CarriesEvent, CarriesStatement, CarriesDeclaration, IsLastActivation, IsLast, Resolvable, Map,
         ListsOpen, HoldsCarried, StateAscends, ConfirmsEach, AttestsEach, Collects, IsLedgerOf, MembersAscend, SameKey, LifecycleOf;
    var older, ds, statements, legacy, devices, x := StateInPlainTerms(p, less, communityId, records);
    d := Declaration("", "", "", "", "", "");
    activation := KeyEvent("", "", "", "", Revoke, "");
    events, last := older, activation;
    if a in legacy + devices {
      events := if a in legacy then older else Map(statements, EventOf);
      assert Follows(less, events, a);
      activation, last := FollowsFrom(less, events, a);
      assert LifecycleOf(p, communityId, records, events) by { LifecyclesAre(p, communityId, records, older, statements); }
    } else {
      MapMember(ds, RootOf, a);
      d :| d in ds && RootOf(d) == a;
    }
  }

  lemma FollowsFrom(less: (string, string) -> bool, events: seq<KeyEvent>, a: Authorization) returns (activation: KeyEvent, last: KeyEvent)
    requires Follows(less, events, a)
    ensures IsLastActivation(less, events, activation) && IsLast(less, events, last) && SameKey(activation, last)
    ensures a == Authorization(activation.communityId, activation.memberId, activation.keyId, activation.action.publicKeyPem,
                               last.action.Activate?)
  {
    activation, last :| IsLastActivation(less, events, activation) && IsLast(less, events, last) && SameKey(activation, last)
      && a == Authorization(activation.communityId, activation.memberId, activation.keyId, activation.action.publicKeyPem, last.action.Activate?);
  }

  lemma LifecyclesAre(p: Platform, communityId: string, records: seq<Record>, older: seq<KeyEvent>, statements: seq<RootStatement>)
    requires forall k :: k in older <==> CarriesEvent(p, communityId, records, k)
    requires forall s :: s in statements <==> CarriesStatement(p, communityId, records, s)
    ensures LifecycleOf(p, communityId, records, older) && LifecycleOf(p, communityId, records, Map(statements, EventOf))
  {
    hide CarriesEvent, CarriesStatement;
    var events := Map(statements, EventOf);
    forall s | s in statements ensures s.event in events { MemberMap(statements, EventOf, s); }
    forall k | k in events ensures exists s :: s in statements && s.event == k { MapMember(statements, EventOf, k); }
  }

  // ---- admission of single records ------------------------------------------------------------------------

  /** In every resolved history, each record of the seven kinds that members sign carries a proof whose signature over
      the whole envelope verifies under an authorized, active key of the record's author. */
  lemma ResolvedRecordIsSigned(p: Platform, less: (string, string) -> bool, communityId: string, records: seq<Record>, r: Record)
    requires ResolveRecords(p, less, communityId, records).Ok? && r in records && r.envelope.communityId == communityId
    requires r.envelope.kind == PublishedListingKind || r.envelope.kind == ClosedListingKind || r.envelope.kind == ProposedProposalKind
             || r.envelope.kind == AcceptedProposalKind || r.envelope.kind == AcknowledgementKind
             || r.envelope.kind == AttestationKind || r.envelope.kind == TransferKind
    ensures r.proof.Some?
    ensures exists k :: k in ResolveRecords(p, less, communityId, records).value.authorizations && k.active
                        && k.communityId == communityId && k.memberId == r.envelope.authorId && k.keyId == r.proof.value.keyId
                        && p.verifies(RecordContent(r.envelope), k.publicKeyPem, r.proof.value.signature)
  {
    hide ResolveRecords, CommunityEnvelopes, ResolveAuthorizations, AllMemberSigned, ResolveValues, ResolveListings, ResolveLedger,
         KeyIndex, EnvelopesAgree, SoundContent, ReducedExchange, ResolveProgress, HoldsExchange, Present, Indexes;
    var x := ResolvedStages(p, less, communityId, records);
    var s := ResolveRecords(p, less, communityId, records).value;
    EnvelopesAgreeIff(p, less, communityId, records);
    IndexOfResolved(p, less, communityId, s.authorizations, s.transfers);
    AllSignedIff(p, communityId, s.authorizations, records);
    assert MemberKind(r.envelope) && SignedUnder(p, s.authorizations, r);
  }

  /** One such record without a signature that verifies under an authorized, active key of its author makes the whole
      history fail. */
  lemma UnsignedRecordRefused(p: Platform, less: (string, string) -> bool, communityId: string, records: seq<Record>, r: Record,
                              auths: seq<Authorization>)
    requires CommunityEnvelopes(p, less, communityId, records).Ok?
    requires ResolveAuthorizations(p, less, CommunityEnvelopes(p, less, communityId, records).value) == Ok(auths)
    requires r in records && r.envelope.communityId == communityId
    requires r.envelope.kind == PublishedListingKind || r.envelope.kind == ClosedListingKind || r.envelope.kind == ProposedProposalKind
             || r.envelope.kind == AcceptedProposalKind || r.envelope.kind == AcknowledgementKind
             || r.envelope.kind == AttestationKind || r.envelope.kind == TransferKind
    requires r.proof.None? || forall k | k in auths && k.active && k.communityId == communityId && k.memberId == r.envelope.authorId
                                         && k.keyId == r.proof.value.keyId ::
                                !p.verifies(RecordContent(r.envelope), k.publicKeyPem, r.proof.value.signature)
    ensures ResolveRecords(p, less, communityId, records).Error?
  {
    hide ResolveRecords, CommunityEnvelopes, ResolveAuthorizations, AllMemberSigned, ResolveValues, ResolveListings;
    if ResolveRecords(p, less, communityId, records).Ok? {
      ResolvedRecordIsSigned(p, less, communityId, records, r);
      StagesOf(p, less, communityId, records);
    }
  }
}

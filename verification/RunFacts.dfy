/** What each append of a valid run rests on, and when two appends are one. */
module RunFacts {
  import opened Core
  import opened Reduction
  import opened Types
  import opened Identity
  import opened Settlement
  import opened Records
  import opened Resolve
  import opened ResolveTheorems
  import opened ProtocolRun
  import opened RecordIds
  import Ledger

  // ---- from resolved values to appends -------------------------------------------------------------

  lemma EventCarrying<T>(w: World, run: Run, view: set<nat>, kind: Kind, decode: Envelope -> Result<T>, v: T)
    requires Carried(RecordsAt(run, view), w.communityId, kind, decode, v)
    ensures exists j :: j in view && j < |run| && run[j].record.envelope.kind == kind
              && decode(run[j].record.envelope) == Ok(v)
  {
    RecordsAtSpec(run, view);
    var r :| r in RecordsAt(run, view) && r.envelope.communityId == w.communityId && r.envelope.kind == kind
             && decode(r.envelope) == Ok(v);
    var j :| j in view && j < |run| && run[j].record == r;
    assert run[j].record.envelope.kind == kind;
  }

  ghost predicate Written(run: Run) {
    forall i | 0 <= i < |run| :: run[i].record.envelope == EnvelopeFor(run[i].author, run[i].act, run[i].time)
  }

  lemma RunIsWritten(w: World, run: Run)
    requires ValidRun(w, run)
    ensures Written(run)
  {
    hide EnvelopeFor, SignedWithRoot, Guard, HoldsView, Fresh, ResolveRecords, ValidDeclaration;
    forall i | 0 <= i < |run|
      ensures run[i].record.envelope == EnvelopeFor(run[i].author, run[i].act, run[i].time)
    {
      assert ValidAppend(w, run, i);
    }
  }

  lemma AcceptedFromEvent(w: World, run: Run, view: set<nat>, p: Proposal)
    requires Written(run)
    requires Carried(RecordsAt(run, view), w.communityId, AcceptedProposalKind, DecodingAccepted(w.platform), p)
    ensures exists j :: j in view && j < |run| && run[j].act == Act.Accept(p)
    ensures ValidAccepted(p)
  {
    hide Present, Carried, Carries;
    EventCarrying(w, run, view, AcceptedProposalKind, DecodingAccepted(w.platform), p);
    var j :| j in view && j < |run| && run[j].record.envelope.kind == AcceptedProposalKind
             && DecodingAccepted(w.platform)(run[j].record.envelope) == Ok(p);
    assert run[j].act == Act.Accept(p);
  }

  lemma ProposedFromEvent(w: World, run: Run, view: set<nat>, p: Proposal)
    requires Written(run)
    requires Carried(RecordsAt(run, view), w.communityId, ProposedProposalKind, DecodingProposed(w.platform), p)
    ensures exists j :: j in view && j < |run| && run[j].act == Propose(p)
    ensures ValidProposed(p)
  {
    hide Present, Carried, Carries;
    EventCarrying(w, run, view, ProposedProposalKind, DecodingProposed(w.platform), p);
    var j :| j in view && j < |run| && run[j].record.envelope.kind == ProposedProposalKind
             && DecodingProposed(w.platform)(run[j].record.envelope) == Ok(p);
    assert run[j].act == Propose(p);
  }

  lemma AcknowledgementFromEvent(w: World, run: Run, view: set<nat>, a: Acknowledgement)
    requires Written(run)
    requires Carried(RecordsAt(run, view), w.communityId, AcknowledgementKind, DecodingAcknowledgements(w.platform), a)
    ensures exists j :: j in view && j < |run| && run[j].act.Acknowledge? && a == AckOf(run[j].act.proposal, run[j].author)
  {
    hide Present, Carried, Carries, AcknowledgementId;
    EventCarrying(w, run, view, AcknowledgementKind, DecodingAcknowledgements(w.platform), a);
    var j :| j in view && j < |run| && run[j].record.envelope.kind == AcknowledgementKind
             && DecodingAcknowledgements(w.platform)(run[j].record.envelope) == Ok(a);
    assert run[j].act.Acknowledge?;
  }

  lemma AttestationFromEvent(w: World, run: Run, view: set<nat>, s: SettlementAttestation)
    requires Written(run)
    requires Carried(RecordsAt(run, view), w.communityId, AttestationKind, DecodingAttestations(w.platform), s)
    ensures exists j :: j in view && j < |run| && run[j].act.AttestTerms? && s == AttestationOf(run[j].act.proposal, run[j].act.attestation)
  {
    hide Present, Carried, Carries, AttestationRecordId;
    EventCarrying(w, run, view, AttestationKind, DecodingAttestations(w.platform), s);
    var j :| j in view && j < |run| && run[j].record.envelope.kind == AttestationKind
             && DecodingAttestations(w.platform)(run[j].record.envelope) == Ok(s);
    assert run[j].act.AttestTerms?;
  }

  // ---- what each append rests on -------------------------------------------------------------------

  /** The accepted proposal that an append works on has been accepted in the author's view. */
  ghost predicate RestsOnAcceptance(run: Run, i: nat)
    requires i < |run| && !run[i].act.Declare?
  {
    exists j :: j in run[i].view && j < |run| && run[j].act == Act.Accept(run[i].act.proposal)
  }

  ghost predicate RestsOnAcknowledgement(run: Run, i: nat, memberId: string)
    requires i < |run| && !run[i].act.Declare?
  {
    exists j :: j in run[i].view && j < |run| && run[j].act == Acknowledge(run[i].act.proposal) && run[j].author == memberId
  }

  ghost predicate RestsOnBothAcknowledgements(run: Run, i: nat)
    requires i < |run| && !run[i].act.Declare?
  {
    RestsOnAcknowledgement(run, i, run[i].act.proposal.provider) && RestsOnAcknowledgement(run, i, run[i].act.proposal.receiver)
  }

  /** The guard of one event, with the state it was checked against. */
  lemma GuardHeld(w: World, run: Run, i: nat)
    requires ValidRun(w, run) && i < |run| && !run[i].act.Declare?
    ensures var s := ResolveRecords(w.platform, w.less, w.communityId, RecordsAt(run, run[i].view));
            s.Ok? && Guard(w, s.value, run[i].author, run[i].act) && SignedWithRoot(w, run, i)
  {
    hide EnvelopeFor, SignedWithRoot, Guard, HoldsView, Fresh, ResolveRecords, ValidDeclaration;
    assert ValidAppend(w, run, i);
  }

  lemma AcceptRests(w: World, run: Run, i: nat)
    requires ValidRun(w, run) && i < |run| && run[i].act.Accept?
    ensures exists j, q :: j in run[i].view && j < |run| && run[j].act == Propose(q)
              && Counterparty(q) == run[i].author && run[i].act.proposal == AcceptedBy(q, run[i].author) && ValidProposed(q)
  {
    hide Present, ResolveRecords, CommunityEnvelopes, ReducedExchange, ResolveAuthorizations, AllMemberSigned,
         ResolveProgress, ResolveLedger, Carried, SignedWithRoot, ValidProposed;
    GuardHeld(w, run, i);
    RunIsWritten(w, run);
    var records := RecordsAt(run, run[i].view);
    var s := ResolveRecords(w.platform, w.less, w.communityId, records).value;
    var x := ResolvedStages(w.platform, w.less, w.communityId, records);
    var q :| q in s.proposed && Counterparty(q) == run[i].author && run[i].act.proposal == AcceptedBy(q, run[i].author);
    ProposedFromEvent(w, run, run[i].view, q);
    var j :| j in run[i].view && j < |run| && run[j].act == Propose(q);
    assert run[j].act == Propose(q) && ValidProposed(q);
  }

  lemma LaterActsRestOnAcceptance(w: World, run: Run, i: nat)
    requires ValidRun(w, run) && i < |run| && (run[i].act.Acknowledge? || run[i].act.AttestTerms? || run[i].act.Publish?)
    ensures RestsOnAcceptance(run, i) && ValidAccepted(run[i].act.proposal)
  {
    hide Present, ResolveRecords, CommunityEnvelopes, ReducedExchange, ResolveAuthorizations, AllMemberSigned,
         ResolveProgress, ResolveLedger, Carried, SignedWithRoot, ValidAccepted, CreateAcknowledgement,
         CreateSettlementAttestation, ComposeSettlementTransfer, AckOf, AttestationOf, AcksFor, Ledger.ValidAttestation, RootKeyId;
    GuardHeld(w, run, i);
    RunIsWritten(w, run);
    var records := RecordsAt(run, run[i].view);
    var x := ResolvedStages(w.platform, w.less, w.communityId, records);
    AcceptedFromEvent(w, run, run[i].view, run[i].act.proposal);
  }

  /** Dual confirmation in a resolved view comes from appended acknowledgements of both participants. */
  lemma ConfirmationFromEvents(w: World, run: Run, i: nat, s: ResolvedState, p: Proposal, memberId: string)
    requires Written(run) && i < |run| && !run[i].act.Declare? && run[i].act.proposal == p
    requires forall a | a in s.acknowledgements ::
               Carried(RecordsAt(run, run[i].view), w.communityId, AcknowledgementKind, DecodingAcknowledgements(w.platform), a)
    requires AcknowledgedBy(AcksFor(s.acknowledgements, p.id), memberId)
    requires forall j | j in run[i].view && j < |run| && run[j].act.Acknowledge? && run[j].act.proposal.id == p.id :: run[j].act.proposal == p
    ensures RestsOnAcknowledgement(run, i, memberId)
  {
    hide Carried, Written, AcknowledgementId;
    var a :| a in AcksFor(s.acknowledgements, p.id) && a.acknowledgedBy == memberId;
    HavingMember(s.acknowledgements, AckProposal, p.id, a);
    AcknowledgementFromEvent(w, run, run[i].view, a);
  }

  // ---- when two appends are one --------------------------------------------------------------------

  lemma ProposeOnce(w: World, run: Run, i: nat, j: nat)
    requires ValidRun(w, run) && i < |run| && j < |run| && run[i].act.Propose? && run[j].act.Propose?
    requires run[i].act.proposal.id == run[j].act.proposal.id
    ensures i == j
  {
    hide EnvelopeFor, SignedWithRoot, Guard, HoldsView, ResolveRecords, ValidDeclaration;
    assert ValidAppend(w, run, i) && ValidAppend(w, run, j);
  }

  lemma DeclareOnce(w: World, run: Run, i: nat, j: nat)
    requires ValidRun(w, run) && i < |run| && j < |run| && run[i].act.Declare? && run[j].act.Declare?
    requires run[i].author == run[j].author
    ensures i == j
  {
    hide EnvelopeFor, SignedWithRoot, Guard, HoldsView, ResolveRecords, ValidDeclaration;
    assert ValidAppend(w, run, i) && ValidAppend(w, run, j);
  }

  /** Acceptances under one proposal id accept the same proposal, by the counterparty of the proposal as proposed. */
  lemma SameAcceptance(w: World, run: Run, i: nat, j: nat)
    requires ValidRun(w, run) && i < |run| && j < |run| && run[i].act.Accept? && run[j].act.Accept?
    requires run[i].act.proposal.id == run[j].act.proposal.id
    ensures run[i].act == run[j].act && run[i].author == run[j].author
  {
    hide ValidRun, ValidProposed;
    AcceptRests(w, run, i);
    AcceptRests(w, run, j);
    var k, q :| k in run[i].view && k < |run| && run[k].act == Propose(q)
                && Counterparty(q) == run[i].author && run[i].act.proposal == AcceptedBy(q, run[i].author) && ValidProposed(q);
    var l, u :| l in run[j].view && l < |run| && run[l].act == Propose(u)
                && Counterparty(u) == run[j].author && run[j].act.proposal == AcceptedBy(u, run[j].author) && ValidProposed(u);
    ProposeOnce(w, run, k, l);
  }

  ghost predicate ActsOnAccepted(act: Act) { act.Accept? || act.Acknowledge? || act.AttestTerms? || act.Publish? }

  /** The acceptance behind an append on an accepted proposal. */
  lemma AcceptanceOf(w: World, run: Run, i: nat) returns (j: nat)
    requires ValidRun(w, run) && i < |run| && ActsOnAccepted(run[i].act)
    ensures j < |run| && run[j].act == Act.Accept(run[i].act.proposal) && (j == i || j in run[i].view)
  {
    hide ValidRun;
    if run[i].act.Accept? {
      j := i;
    } else {
      LaterActsRestOnAcceptance(w, run, i);
      j :| j in run[i].view && j < |run| && run[j].act == Act.Accept(run[i].act.proposal);
    }
  }

  /** Appends on accepted proposals with one id work on one and the same proposal. */
  lemma OneAcceptedProposalPerId(w: World, run: Run, i: nat, j: nat)
    requires ValidRun(w, run) && i < |run| && j < |run| && ActsOnAccepted(run[i].act) && ActsOnAccepted(run[j].act)
    requires run[i].act.proposal.id == run[j].act.proposal.id
    ensures run[i].act.proposal == run[j].act.proposal
  {
    hide ValidRun;
    var k := AcceptanceOf(w, run, i);
    var l := AcceptanceOf(w, run, j);
    SameAcceptance(w, run, k, l);
  }

  /** Every proposal in the run is well formed, belongs to the community and has a separator-free id. */
  lemma ProposalShape(w: World, run: Run, i: nat)
    requires ValidRun(w, run) && i < |run| && !run[i].act.Declare?
    ensures var p := run[i].act.proposal;
            && ValidProposalTerms(p) && p.communityId == w.communityId && SeparatorFree(p.id)
            && (ActsOnAccepted(run[i].act) ==> ValidAccepted(p))
  {
    hide ValidRun, ResolveRecords, SignedWithRoot, Present, SeparatorFree;
    if run[i].act.Propose? {
      GuardHeld(w, run, i);
    } else {
      var j := AcceptanceOf(w, run, i);
      AcceptRests(w, run, j);
      var k, q :| k in run[j].view && k < |run| && run[k].act == Propose(q)
                  && Counterparty(q) == run[j].author && run[j].act.proposal == AcceptedBy(q, run[j].author) && ValidProposed(q);
      GuardHeld(w, run, k);
    }
  }

  /** The published transfer is the normalized settlement of its proposal. */
  lemma PublishedTransfer(w: World, run: Run, i: nat)
    requires ValidRun(w, run) && i < |run| && run[i].act.Publish?
    ensures run[i].act.transfer.terms == SettlementTerms(run[i].act.proposal)
    ensures Ledger.CreateTransfer(run[i].act.transfer) == Ok(run[i].act.transfer)
    ensures IsParticipant(run[i].act.proposal, run[i].author)
  {
    hide ValidRun, ResolveRecords, SignedWithRoot, Present, ComposeSettlementTransfer, SettlementTerms, AcksFor;
    GuardHeld(w, run, i);
    var s := ResolveRecords(w.platform, w.less, w.communityId, RecordsAt(run, run[i].view)).value;
    var st :| st in s.attestationStates && st.proposalId == run[i].act.proposal.id
         && exists a, b :: a in st.attestations && b in st.attestations
              && ComposeSettlementTransfer(w.less, run[i].act.proposal, AcksFor(s.acknowledgements, run[i].act.proposal.id),
                                           [a.attestation, b.attestation]) == Ok(run[i].act.transfer);
    var a, b :| a in st.attestations && b in st.attestations
              && ComposeSettlementTransfer(w.less, run[i].act.proposal, AcksFor(s.acknowledgements, run[i].act.proposal.id),
                                           [a.attestation, b.attestation]) == Ok(run[i].act.transfer);
    ComposedNormal(w.less, run[i].act.proposal, AcksFor(s.acknowledgements, run[i].act.proposal.id), [a.attestation, b.attestation]);
  }

  lemma ComposedNormal(less: (string, string) -> bool, p: Proposal, acks: seq<Acknowledgement>,
                       attestations: seq<Attestation>)
    requires ComposeSettlementTransfer(less, p, acks, attestations).Ok?
    ensures var t := ComposeSettlementTransfer(less, p, acks, attestations).value;
            t.terms == SettlementTerms(p) && Ledger.CreateTransfer(t) == Ok(t)
  {
    hide Present;
    ComposedTransferValid(less, p, acks, attestations);
    var t := ComposeSettlementTransfer(less, p, acks, attestations).value;
    assert ValidateSettlementTransfer(less, p, acks, t) == Ok(t);
  }

  /** Two appends with one record id are the same step of the same proposal, and, unless they publish, by one
      member. Declarations and proposals with one record id are one append. */
  lemma SameRecordIdSameStep(w: World, run: Run, i: nat, j: nat)
    requires ValidRun(w, run) && i < |run| && j < |run|
    requires run[i].record.envelope.id == run[j].record.envelope.id
    ensures run[i].act.Declare? || run[i].act.Propose? ==> i == j
    ensures !run[i].act.Declare? ==> !run[j].act.Declare? && run[i].act.proposal == run[j].act.proposal
    ensures run[i].act.Accept? <==> run[j].act.Accept?
    ensures run[i].act.Acknowledge? <==> run[j].act.Acknowledge?
    ensures run[i].act.AttestTerms? <==> run[j].act.AttestTerms?
    ensures run[i].act.Publish? <==> run[j].act.Publish?
    ensures run[i].author == run[j].author || run[i].act.Publish?
  {
    hide ValidRun, EnvelopeFor, SeparatorFree, SettlementTransferId, ValidProposalTerms, ValidAccepted, ValidAppend;
    RunIsWritten(w, run);
    if !run[i].act.Declare? { ProposalShape(w, run, i); }
    if !run[j].act.Declare? { ProposalShape(w, run, j); }
    if run[i].act.Publish? { PublishedTransfer(w, run, i); }
    if run[j].act.Publish? { PublishedTransfer(w, run, j); }
    RecordIdTellsAct(run[i].author, run[i].act, run[i].time, run[j].author, run[j].act, run[j].time);
    KindsTellActs(run[i].act, run[j].act);
    AuthorsOfActs(w, run, i);
    AuthorsOfActs(w, run, j);
    if run[i].act.Declare? {
      DeclareOnce(w, run, i, j);
    } else if run[i].act.Propose? {
      ProposeOnce(w, run, i, j);
    } else {
      OneAcceptedProposalPerId(w, run, i, j);
      if run[i].act.Accept? { SameAcceptance(w, run, i, j); }
    }
  }

  lemma KindsTellActs(a: Act, b: Act)
    requires SameKind(a, b)
    ensures a.Declare? <==> b.Declare?
    ensures a.Propose? <==> b.Propose?
    ensures a.Accept? <==> b.Accept?
    ensures a.Acknowledge? <==> b.Acknowledge?
    ensures a.AttestTerms? <==> b.AttestTerms?
    ensures a.Publish? <==> b.Publish?
  {
  }

  lemma AuthorsOfActs(w: World, run: Run, i: nat)
    requires ValidRun(w, run) && i < |run|
    ensures run[i].act.Declare? ==>
              && run[i].act.declaration.memberId == run[i].author && run[i].act.declaration.communityId == w.communityId
              && |run[i].act.declaration.feedPublicKey| == 64 && ValidDeclaration(w.platform, run[i].act.declaration)
    ensures run[i].act.AttestTerms? ==> run[i].act.attestation.memberId == run[i].author
  {
    hide EnvelopeFor, SignedWithRoot, HoldsView, Fresh, ResolveRecords, Present, MemberIdOf,
         CreateSettlementAttestation, ComposeSettlementTransfer;
    assert ValidAppend(w, run, i);
  }

  // ---- confirmations and attestations behind an append ----------------------------------------------

  lemma DualConfirmedBoth(less: (string, string) -> bool, p: Proposal, acks: seq<Acknowledgement>)
    requires DualConfirmedTerms(less, p, acks).Ok?
    ensures AcknowledgedBy(acks, p.provider) && AcknowledgedBy(acks, p.receiver)
  {
    hide Present, SettlementTerms;
    ConfirmSpec(less, p, acks);
  }

  /** Attesting and publishing rest on appended acknowledgements of both participants. */
  lemma ConfirmedActsRest(w: World, run: Run, i: nat)
    requires ValidRun(w, run) && i < |run| && (run[i].act.AttestTerms? || run[i].act.Publish?)
    ensures RestsOnBothAcknowledgements(run, i)
  {
    hide Present, ValidRun, ResolveRecords, CommunityEnvelopes, ReducedExchange, ResolveAuthorizations, AllMemberSigned,
         ResolveProgress, ResolveLedger, Carried, SignedWithRoot, Written, AttestationOf, DualConfirmedTerms, AcksFor,
         Ledger.CreateTransfer, ValidateSettlementTransfer, Ledger.ValidAttestation, RootKeyId, Ledger.ValidTerms;
    GuardHeld(w, run, i);
    RunIsWritten(w, run);
    var p := run[i].act.proposal;
    var records := RecordsAt(run, run[i].view);
    var s := ResolveRecords(w.platform, w.less, w.communityId, records).value;
    var x := ResolvedStages(w.platform, w.less, w.communityId, records);
    assert DualConfirmedTerms(w.less, p, AcksFor(s.acknowledgements, p.id)).Ok?;
    DualConfirmedBoth(w.less, p, AcksFor(s.acknowledgements, p.id));
    forall j | j in run[i].view && j < |run| && run[j].act.Acknowledge? && run[j].act.proposal.id == p.id
      ensures run[j].act.proposal == p
    {
      OneAcceptedProposalPerId(w, run, i, j);
    }
    ConfirmationFromEvents(w, run, i, s, p, p.provider);
    ConfirmationFromEvents(w, run, i, s, p, p.receiver);
  }

  /** An attestation of the settlement terms, signed with the declared root of its author. */
  ghost predicate AttestedIn(w: World, run: Run, view: set<nat>, p: Proposal, a: Attestation) {
    exists j :: j in view && j < |run| && run[j].act == AttestTerms(p, a)
  }

  lemma AttestationStateFromEvents(w: World, run: Run, view: set<nat>, s: ResolvedState, x: Exchange, st: AttestationState,
                                   a: SettlementAttestation)
    requires Written(run) && HoldsExchange(w.platform, w.communityId, RecordsAt(run, view), x)
    requires ResolveProgress(w.platform, w.less, s.authorizations, x) == Ok(Progress(s.confirmations, s.attestationStates))
    requires st in s.attestationStates && a in st.attestations
    ensures a.sourceProposalId == st.proposalId
    ensures exists j :: j in view && j < |run| && run[j].act.AttestTerms? && a == AttestationOf(run[j].act.proposal, run[j].act.attestation)
  {
    hide Present, Carried, Written, ExchangeFits, Confirming, Attest, AttestationRecordId;
    var i :| 0 <= i < |s.attestationStates| && s.attestationStates[i] == st;
    var p := x.accepted[i];
    assert Attesting(w.platform, w.less, x.acks, x.attestations)(p) == Ok(st);
    AttestSpec(w.platform, w.less, p, AcksFor(x.acks, p.id), AttestationsFor(x.attestations, p.id));
    HavingMember(x.attestations, AttestationProposal, p.id, a);
    AttestationFromEvent(w, run, view, a);
  }

  /** The two attestations of a published transfer were appended by their authors for the same proposal. */
  lemma PublishRestsOnAttestations(w: World, run: Run, i: nat, a: Attestation)
    requires ValidRun(w, run) && i < |run| && run[i].act.Publish? && a in run[i].act.transfer.attestations
    ensures AttestedIn(w, run, run[i].view, run[i].act.proposal, a)
  {
    hide Present, ValidRun, ResolveRecords, CommunityEnvelopes, ReducedExchange, ResolveAuthorizations, AllMemberSigned,
         ResolveProgress, ResolveLedger, HoldsExchange, SignedWithRoot, Written, ComposeSettlementTransfer, AcksFor;
    GuardHeld(w, run, i);
    RunIsWritten(w, run);
    var p, t, view := run[i].act.proposal, run[i].act.transfer, run[i].view;
    var records := RecordsAt(run, view);
    var s := ResolveRecords(w.platform, w.less, w.communityId, records).value;
    var x := ResolvedStages(w.platform, w.less, w.communityId, records);
    var st :| st in s.attestationStates && st.proposalId == p.id
         && exists b, c :: b in st.attestations && c in st.attestations
              && ComposeSettlementTransfer(w.less, p, AcksFor(s.acknowledgements, p.id), [b.attestation, c.attestation]) == Ok(t);
    var b, c :| b in st.attestations && c in st.attestations
              && ComposeSettlementTransfer(w.less, p, AcksFor(s.acknowledgements, p.id), [b.attestation, c.attestation]) == Ok(t);
    ComposedFrom(w.less, p, AcksFor(s.acknowledgements, p.id), b.attestation, c.attestation, a);
    var source := if a == b.attestation then b else c;
    AttestationStateFromEvents(w, run, view, s, x, st, source);
    var j :| j in view && j < |run| && run[j].act.AttestTerms? && source == AttestationOf(run[j].act.proposal, run[j].act.attestation);
    OneAcceptedProposalPerId(w, run, i, j);
    assert run[j].act == AttestTerms(p, a);
  }

  lemma ComposedFrom(less: (string, string) -> bool, p: Proposal, acks: seq<Acknowledgement>, b: Attestation,
                     c: Attestation, a: Attestation)
    requires ComposeSettlementTransfer(less, p, acks, [b, c]).Ok?
    requires a in ComposeSettlementTransfer(less, p, acks, [b, c]).value.attestations
    ensures a == b || a == c
  {
    hide Present, DualConfirmedTerms, Confirm, SettlementTransferId;
  }
}

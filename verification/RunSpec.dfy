/** Runs of the exchange protocol in plain terms: what a member may append in a resolved state, and what record that is. */
module RunSpec {
  import opened Core
  import opened Reduction
  import opened Types
  import opened Identity
  import opened Settlement
  import opened Records
  import opened Resolve
  import opened ResolveTheorems
  import opened ProtocolRun
  import opened LedgerSpec
  import opened RecordSpec
  import opened ResolutionSpec
  import opened StateSpec
  import Ledger

  ghost predicate NoSeparator(text: string) { forall c | c in text :: c != '/' && c != ':' }

  /** What a member may append in a resolved state. */
  ghost predicate MayAppend(w: World, s: ResolvedState, author: string, act: Act) {
    match act
    case Declare(_) => true
    case Propose(q) =>
      && SoundProposal(q) && q.status == ProposalStatus.Proposed && q.acceptedBy == None
      && q.creator == author && q.communityId == w.communityId && NoSeparator(q.id)
    case Accept(a) =>
      exists q :: q in s.proposed && author in {q.provider, q.receiver} && author != q.creator
                  && a == Proposal(q.id, q.communityId, q.offerId, q.requestId, q.provider, q.receiver, q.creator, Some(author),
                                   q.minutes, ProposalStatus.Accepted)
    case Acknowledge(q) => q in s.accepted && author in {q.provider, q.receiver}
    case AttestTerms(q, a) =>
      && q in s.accepted && Completed(s.acknowledgements, q) && author in {q.provider, q.receiver}
      && a.memberId == author && a.keyId == "root:" + author && a.payloadDigest == w.platform.digest(TermsOf(q))
      && Present(a.payloadDigest) && Present(a.signature)
    case Publish(q, t) =>
      && q in s.accepted && Completed(s.acknowledgements, q) && author in {q.provider, q.receiver}
      && exists st, c, d :: Shows(s, q, st, c, d) && t == Transfer(TermsOf(q), [c.attestation, d.attestation])
  }

  /** The state shows the attestations of both participants. */
  ghost predicate Shows(s: ResolvedState, q: Proposal, st: AttestationState, c: SettlementAttestation, d: SettlementAttestation) {
    && st in s.attestationStates && st.proposalId == q.id && c in st.attestations && d in st.attestations
    && c.attestation.memberId == q.provider && d.attestation.memberId == q.receiver
  }

  /** The values of a resolved state are sound and fit together. */
  ghost predicate Fitting(w: World, s: ResolvedState, x: Exchange) {
    && x == Exchange(s.proposed, s.accepted, s.acknowledgements, s.transfers, x.attestations)
    && SoundValues(x) && PartsFit(w.platform, s.authorizations, x) && KeyIndex(w.platform, s.authorizations).Ok?
    && (forall q | q in s.proposed :: SoundProposal(q) && q.status == ProposalStatus.Proposed && q.acceptedBy == None)
    && (forall a | a in x.attestations :: SoundAttestation(a.attestation))
    && ResolveProgress(w.platform, w.less, s.authorizations, x) == Ok(Progress(s.confirmations, s.attestationStates))
  }

  lemma ResolvedFits(w: World, records: seq<Record>) returns (x: Exchange)
    requires ResolveRecords(w.platform, w.less, w.communityId, records).Ok?
    ensures Fitting(w, ResolveRecords(w.platform, w.less, w.communityId, records).value, x)
  {
    hide EnvelopesAgree, Present, PartsFit, ReducedExchange, ResolveAuthorizations, AllMemberSigned, KeyIndex, HoldsCarried,
         CommunityEnvelopes, SoundValues, AllSound, ResolveProgress, ResolveLedger, HoldsExchange, ResolveRecords, SoundProposal,
         SoundAttestation;
    var p, less, c := w.platform, w.less, w.communityId;
    x := ResolvedStages(p, less, c, records);
    var s := ResolveRecords(p, less, c, records).value;
    EnvelopesAgreeIff(p, less, c, records);
    ExchangeReduces(p, less, c, records, CommunityEnvelopes(p, less, c, records).value);
    IndexOfResolved(p, less, c, s.authorizations, s.transfers);
    ProgressIff(p, less, s.authorizations, x);
    CarriedAreSound(p, c, records, x);
  }

  lemma CarriedAreSound(p: Platform, communityId: string, records: seq<Record>, x: Exchange)
    requires HoldsCarried(p, communityId, records, x)
    ensures forall q | q in x.proposed :: SoundProposal(q) && q.status == ProposalStatus.Proposed && q.acceptedBy == None
    ensures forall a | a in x.attestations :: SoundAttestation(a.attestation)
  {
    hide Delivers, SoundProposal, SoundAttestation, SoundEnvelope, Present;
    forall q | q in x.proposed ensures SoundProposal(q) && q.status == ProposalStatus.Proposed && q.acceptedBy == None {
      var e :| Delivers(records, communityId, e) && ProposedRecord(p, e, q);
    }
    forall a | a in x.attestations ensures SoundAttestation(a.attestation) {
      var e :| Delivers(records, communityId, e) && AttestationRecord(p, e, a);
    }
  }

  lemma ProposeIff(w: World, s: ResolvedState, author: string, q: Proposal)
    ensures Guard(w, s, author, Propose(q)) <==> MayAppend(w, s, author, Propose(q))
  {
    hide Present;
    assert SeparatorFree(q.id) <==> NoSeparator(q.id) by {
      if NoSeparator(q.id) { assert forall i | 0 <= i < |q.id| :: q.id[i] in q.id; }
    }
  }

  lemma AcceptIff(w: World, s: ResolvedState, x: Exchange, author: string, a: Proposal)
    requires Fitting(w, s, x)
    ensures Guard(w, s, author, Act.Accept(a)) <==> MayAppend(w, s, author, Act.Accept(a))
  {
    hide Present, SoundValues, PartsFit, KeyIndex, ResolveProgress;
    forall q | q in s.proposed
      ensures Counterparty(q) == author <==> author in {q.provider, q.receiver} && author != q.creator
      ensures AcceptedBy(q, author) == Proposal(q.id, q.communityId, q.offerId, q.requestId, q.provider, q.receiver, q.creator,
                                                Some(author), q.minutes, ProposalStatus.Accepted)
    {
    }
    if Guard(w, s, author, Act.Accept(a)) {
      var q :| q in s.proposed && Counterparty(q) == author && a == AcceptedBy(q, author);
    }
  }

  /** What soundness says about an accepted proposal. */
  lemma AcceptedSound(w: World, s: ResolvedState, x: Exchange, q: Proposal)
    requires Fitting(w, s, x) && q in s.accepted
    ensures IsAccepted(q) && SoundProposal(q) && forall a | a in x.acks :: AcknowledgementFits(x.accepted, a)
  {
    hide Present, KeyIndex, ResolveProgress, SoundProposal, AcknowledgementFits;
  }

  lemma AcknowledgeIff(w: World, s: ResolvedState, x: Exchange, author: string, q: Proposal)
    requires Fitting(w, s, x)
    ensures Guard(w, s, author, Act.Acknowledge(q)) <==> MayAppend(w, s, author, Act.Acknowledge(q))
  {
    hide Present, Fitting;
    if q in s.accepted { AcceptedSound(w, s, x, q); }
  }

  lemma ConfirmedTerms(w: World, s: ResolvedState, x: Exchange, q: Proposal)
    requires Fitting(w, s, x) && q in s.accepted
    ensures IsAccepted(q) && SoundProposal(q) && SettlementTerms(q) == TermsOf(q) && Ledger.ValidTerms(TermsOf(q))
    ensures DualConfirmedTerms(w.less, q, AcksFor(s.acknowledgements, q.id)) ==
              if Completed(s.acknowledgements, q) then Ok(TermsOf(q)) else Error
    ensures Confirm(w.less, q, AcksFor(s.acknowledgements, q.id)).Ok?
            && (Confirm(w.less, q, AcksFor(s.acknowledgements, q.id)).value.dualConfirmed <==> Completed(s.acknowledgements, q))
  {
    hide Present, SoundValues, PartsFit, KeyIndex, ResolveProgress, Confirm, Completed, DualConfirmedTerms, SoundProposal,
         AcknowledgementFits, Ledger.ValidTerms, SettlementTerms, TermsOf;
    AcceptedSound(w, s, x, q);
    ConfirmsWhenFitting(w.less, x, q);
    SettlementTermsSound(q);
  }

  lemma AttestIff(w: World, s: ResolvedState, x: Exchange, author: string, q: Proposal, a: Attestation)
    requires Fitting(w, s, x)
    ensures Guard(w, s, author, AttestTerms(q, a)) <==> MayAppend(w, s, author, AttestTerms(q, a))
  {
    hide Fitting, Confirm, Completed, DualConfirmedTerms, SoundProposal, Ledger.ValidTerms, AcksFor, AttestationRecordId, SettlementTransferId,
         SettlementTerms;
    if q in s.accepted {
      ConfirmedTerms(w, s, x, q);
      if author in {q.provider, q.receiver} { ParticipantPresent(q, author); }
      KeyIdPresent(author);
    }
  }

  lemma ParticipantPresent(q: Proposal, m: string)
    requires SoundProposal(q) && m in {q.provider, q.receiver}
    ensures Present(m)
  {
  }

  lemma KeyIdPresent(author: string)
    ensures Present(RootKeyId(author)) && RootKeyId(author) == "root:" + author
  {
    assert RootKeyId(author)[0] == 'r';
  }

  lemma ComposeIff(w: World, s: ResolvedState, x: Exchange, q: Proposal, a: Attestation, b: Attestation, t: Transfer)
    requires Fitting(w, s, x) && q in s.accepted && SoundAttestation(a) && SoundAttestation(b)
    ensures ComposeSettlementTransfer(w.less, q, AcksFor(s.acknowledgements, q.id), [a, b]) == Ok(t) <==>
              && Completed(s.acknowledgements, q)
              && ((a.memberId == q.provider && b.memberId == q.receiver && t == Transfer(TermsOf(q), [a, b]))
                  || (b.memberId == q.provider && a.memberId == q.receiver && t == Transfer(TermsOf(q), [b, a])))
  {
    hide Fitting, Confirm, Completed, DualConfirmedTerms, Ledger.ValidTerms, AcksFor, SettlementTransferId, Present;
    ConfirmedTerms(w, s, x, q);
    assert Present(q.id);
    var raw := Transfer(TermsOf(q), [a, b]);
    assert raw.attestations[0] == a && raw.attestations[1] == b;
    if Completed(s.acknowledgements, q) && Ledger.CreateTransfer(raw).Ok? { Ledger.CreateTransferIdempotent(raw); }
  }

  lemma PublishIff(w: World, s: ResolvedState, x: Exchange, author: string, q: Proposal, t: Transfer)
    requires Fitting(w, s, x)
    ensures Guard(w, s, author, Publish(q, t)) <==> MayAppend(w, s, author, Publish(q, t))
  {
    hide Fitting, Completed, AcksFor, ComposeSettlementTransfer, SoundAttestation, TermsOf;
    if q in s.accepted {
      forall st, c | st in s.attestationStates && st.proposalId == q.id && c in st.attestations
        ensures SoundAttestation(c.attestation)
      {
        StateHoldsSound(w, s, x, st, c);
      }
      forall st, c, d | st in s.attestationStates && st.proposalId == q.id && c in st.attestations && d in st.attestations
        ensures ComposeSettlementTransfer(w.less, q, AcksFor(s.acknowledgements, q.id), [c.attestation, d.attestation]) == Ok(t) <==>
                  Completed(s.acknowledgements, q)
                  && ((Shows(s, q, st, c, d) && t == Transfer(TermsOf(q), [c.attestation, d.attestation]))
                      || (Shows(s, q, st, d, c) && t == Transfer(TermsOf(q), [d.attestation, c.attestation])))
      {
        ComposeIff(w, s, x, q, c.attestation, d.attestation, t);
      }
    }
  }

  lemma StateHoldsSound(w: World, s: ResolvedState, x: Exchange, st: AttestationState, c: SettlementAttestation)
    requires Fitting(w, s, x) && st in s.attestationStates && c in st.attestations
    ensures SoundAttestation(c.attestation)
  {
    hide Present, SoundValues, PartsFit, KeyIndex, Attest, Confirm, ExchangeFits, SoundAttestation, SoundProposal;
    var i :| 0 <= i < |s.attestationStates| && s.attestationStates[i] == st;
    var q := x.accepted[i];
    assert Attesting(w.platform, w.less, x.acks, x.attestations)(q) == Ok(st);
    AttestSpec(w.platform, w.less, q, AcksFor(x.acks, q.id), AttestationsFor(x.attestations, q.id));
    HavingMember(x.attestations, AttestationProposal, q.id, c);
  }

  /** In a resolved state, a member's client appends exactly these acts. */
  lemma ActAllowedIff(w: World, records: seq<Record>, author: string, act: Act)
    requires ResolveRecords(w.platform, w.less, w.communityId, records).Ok?
    ensures var s := ResolveRecords(w.platform, w.less, w.communityId, records).value;
            Guard(w, s, author, act) <==> MayAppend(w, s, author, act)
  {
    hide Guard, MayAppend, Fitting, ResolveRecords;
    var s := ResolveRecords(w.platform, w.less, w.communityId, records).value;
    var x := ResolvedFits(w, records);
    match act {
      case Declare(d) => assert Guard(w, s, author, act) && MayAppend(w, s, author, act) by { DeclareAllowed(w, s, author, d); }
      case Propose(q) => ProposeIff(w, s, author, q);
      case Accept(a) => AcceptIff(w, s, x, author, a);
      case Acknowledge(q) => AcknowledgeIff(w, s, x, author, q);
      case AttestTerms(q, a) => AttestIff(w, s, x, author, q, a);
      case Publish(q, t) => PublishIff(w, s, x, author, q, t);
    }
  }

  lemma DeclareAllowed(w: World, s: ResolvedState, author: string, d: Declaration)
    ensures Guard(w, s, author, Declare(d)) && MayAppend(w, s, author, Declare(d))
  {
  }

  // ---- what is appended ----------------------------------------------------------------------------------

  /** The record that an act appends. */
  ghost predicate Appends(p: Platform, e: Envelope, author: string, act: Act, time: string) {
    match act
    case Declare(d) => DeclarationRecord(p, e, d) && e.authorId == author
    case Propose(q) => ProposedRecord(p, e, q) && e.authorId == author && e.occurredAt == time
    case Accept(q) => AcceptedRecord(p, e, q) && e.authorId == author && e.occurredAt == time
    case Acknowledge(q) =>
      && AcknowledgementRecord(p, e, Acknowledgement(q.id + "/settlement-ack/" + author, q.communityId, q.id, q.provider, q.receiver,
                                                     q.minutes, author))
      && e.occurredAt == time
    case AttestTerms(q, a) =>
      && AttestationRecord(p, e, SettlementAttestation(q.id + "/settlement-attestation/" + author, q.communityId, q.id, a))
      && a.memberId == author && e.occurredAt == time
    case Publish(q, t) => TransferRecord(p, e, t) && t.terms == TermsOf(q) && e.authorId == author && e.occurredAt == time
  }

  /** The author has declared a feed, in what it holds, with the root key that signs the envelope and, when it attests, the
      terms. */
  ghost predicate SignsWithRoot(w: World, run: Run, i: nat)
    requires i < |run|
  {
    exists j :: j in run[i].view && j < i && SignedUnderDeclaration(w, run[i], run[j])
  }

  ghost predicate SignedUnderDeclaration(w: World, e: Event, declared: Event) {
    && declared.author == e.author && declared.act.Declare? && e.record.proof.Some?
    && e.record.proof.value.keyId == "root:" + e.author && Present(e.record.proof.value.signature)
    && w.platform.verifies(RecordContent(e.record.envelope), declared.act.declaration.rootPublicKeyPem, e.record.proof.value.signature)
    && (e.act.AttestTerms? ==>
          w.platform.verifies(TransferContent(TermsOf(e.act.proposal)), declared.act.declaration.rootPublicKeyPem, e.act.attestation.signature))
  }

  /** Every append of a valid run, but for declarations, comes from a state that its author resolved from what it held; it is
      an act that this state allows, and the record of that act, signed with the author's declared root key. */
  lemma RunWritesRecords(w: World, run: Run, i: nat)
    requires ValidRun(w, run) && i < |run| && !run[i].act.Declare?
    ensures Appends(w.platform, run[i].record.envelope, run[i].author, run[i].act, run[i].time) && SignsWithRoot(w, run, i)
    ensures var s := ResolveRecords(w.platform, w.less, w.communityId, RecordsAt(run, run[i].view));
            s.Ok? && MayAppend(w, s.value, run[i].author, run[i].act)
  {
    hide ResolveRecords, RecordsAt, Guard, MayAppend, EnvelopeFor, SignedWithRoot, HoldsView, Fresh, ValidDeclaration, Appends, SignsWithRoot;
    assert ValidAppend(w, run, i);
    var records := RecordsAt(run, run[i].view);
    var s := ResolveRecords(w.platform, w.less, w.communityId, records).value;
    ActAllowedIff(w, records, run[i].author, run[i].act);
    var x := ResolvedFits(w, records);
    ActRecorded(w, s, x, run[i].author, run[i].act, run[i].time);
    RootSigns(w, run, i);
  }

  lemma RootSigns(w: World, run: Run, i: nat)
    requires i < |run| && SignedWithRoot(w, run, i)
    ensures SignsWithRoot(w, run, i)
  {
    hide Present;
    forall q: Proposal ensures SettlementTerms(q) == TermsOf(q) { }
  }

  /** An id that begins with a sound proposal's id is present. */
  lemma IdPresent(id: string, rest: string)
    requires Present(id)
    ensures Present(id + rest)
  {
    PresentInside("", id, rest);
    assert "" + id + rest == id + rest;
  }

  lemma ProposalRecorded(w: World, s: ResolvedState, x: Exchange, author: string, act: Act, time: string)
    requires Fitting(w, s, x) && MayAppend(w, s, author, act) && (act.Propose? || act.Accept?) && ValidTimestamp(w.platform, time)
    ensures Appends(w.platform, EnvelopeFor(author, act, time), author, act, time)
  {
    hide Present, SoundValues, PartsFit, KeyIndex, ResolveProgress, NoSeparator;
    if act.Propose? {
      IdPresent(act.proposal.id, "/proposed");
    } else {
      var q :| q in s.proposed && author in {q.provider, q.receiver} && author != q.creator
               && act.proposal == Proposal(q.id, q.communityId, q.offerId, q.requestId, q.provider, q.receiver, q.creator, Some(author),
                                           q.minutes, ProposalStatus.Accepted);
      IdPresent(q.id, "/accepted");
    }
  }

  lemma SettlementRecorded(w: World, s: ResolvedState, x: Exchange, author: string, act: Act, time: string)
    requires Fitting(w, s, x) && MayAppend(w, s, author, act) && (act.Acknowledge? || act.AttestTerms?) && ValidTimestamp(w.platform, time)
    ensures Appends(w.platform, EnvelopeFor(author, act, time), author, act, time)
  {
    hide Present, Fitting, Completed, TermsOf;
    var q := act.proposal;
    AcceptedSound(w, s, x, q);
    KeyIdPresent(author);
    IdPresent(q.id, "/settlement-ack/" + author);
    IdPresent(q.id, "/settlement-attestation/" + author);
    assert q.id + ("/settlement-ack/" + author) == AcknowledgementId(q.id, author);
    assert q.id + ("/settlement-attestation/" + author) == AttestationRecordId(q.id, author);
  }

  lemma PublicationRecorded(w: World, s: ResolvedState, x: Exchange, author: string, act: Act, time: string)
    requires Fitting(w, s, x) && MayAppend(w, s, author, act) && act.Publish? && ValidTimestamp(w.platform, time)
    ensures Appends(w.platform, EnvelopeFor(author, act, time), author, act, time)
  {
    hide Present, Fitting, Completed, SoundAttestation;
    var q, t := act.proposal, act.transfer;
    AcceptedSound(w, s, x, q);
    var st, c, d :| Shows(s, q, st, c, d) && t == Transfer(TermsOf(q), [c.attestation, d.attestation]);
    StateHoldsSound(w, s, x, st, c);
    StateHoldsSound(w, s, x, st, d);
    IdPresent(q.id, "/settlement");
    assert InOrder(t) == t && BothAttest(t);
  }

  lemma ActRecorded(w: World, s: ResolvedState, x: Exchange, author: string, act: Act, time: string)
    requires Fitting(w, s, x) && MayAppend(w, s, author, act) && !act.Declare?
    requires ValidTimestamp(w.platform, time)
    ensures Appends(w.platform, EnvelopeFor(author, act, time), author, act, time)
  {
    hide Fitting, MayAppend, Appends, EnvelopeFor, ValidTimestamp;
    match act {
      case Propose(_) => ProposalRecorded(w, s, x, author, act, time);
      case Accept(_) => ProposalRecorded(w, s, x, author, act, time);
      case Acknowledge(_) => SettlementRecorded(w, s, x, author, act, time);
      case AttestTerms(_, _) => SettlementRecorded(w, s, x, author, act, time);
      case Publish(_, _) => PublicationRecorded(w, s, x, author, act, time);
    }
  }
}

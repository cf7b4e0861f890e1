/** Runs of the exchange protocol: members declare their feeds, propose, accept, acknowledge, attest and
    publish, each acting on a state it has resolved from the records it holds. */
module ProtocolRun {
  import opened Core
  import opened Sorting
  import opened Reduction
  import opened Types
  import opened Identity
  import opened Settlement
  import opened Records
  import opened Resolve
  import opened ResolveTheorems
  import Ledger

  /** The platform, comparator and community of one run. */
  datatype World = World(platform: Platform, less: (string, string) -> bool, communityId: string)

  /** What a member writes. Acceptances and everything after them carry the accepted proposal. */
  datatype Act =
    | Declare(declaration: Declaration)
    | Propose(proposal: Proposal)
    | Accept(proposal: Proposal)
    | Acknowledge(proposal: Proposal)
    | AttestTerms(proposal: Proposal, attestation: Attestation)
    | Publish(proposal: Proposal, transfer: Transfer)

  /** One append to a member's own feed, with the earlier appends that its author held. */
  datatype Event = Event(author: string, act: Act, time: string, record: Record, view: set<nat>)

  type Run = seq<Event>

  // ---- what each act appends -------------------------------------------------------------------

  function AckOf(p: Proposal, memberId: string): Acknowledgement {
    Acknowledgement(AcknowledgementId(p.id, memberId), p.communityId, p.id, p.provider, p.receiver, p.minutes, memberId)
  }

  function AttestationOf(p: Proposal, a: Attestation): SettlementAttestation {
    SettlementAttestation(AttestationRecordId(p.id, a.memberId), p.communityId, p.id, a)
  }

  /** The envelope that the desktop appends for an act. */
  function EnvelopeFor(author: string, act: Act, time: string): Envelope {
    match act
    case Declare(d) =>
      Envelope(DeclarationRecordId(d), IdentitySchema, 1, FeedDeclarationKind, d.communityId, d.occurredAt, author, DeclarationPayload(d))
    case Propose(p) =>
      Envelope(ProposedRecordId(p.id), TimebankSchema, 1, ProposedProposalKind, p.communityId, time, author, ProposalPayload(p))
    case Accept(p) =>
      Envelope(AcceptedRecordId(p.id), TimebankSchema, 1, AcceptedProposalKind, p.communityId, time, author, ProposalPayload(p))
    case Acknowledge(p) =>
      Envelope(AcknowledgementId(p.id, author), TimebankSchema, 1, AcknowledgementKind, p.communityId, time, author,
               AcknowledgementPayload(AckOf(p, author)))
    case AttestTerms(p, a) =>
      Envelope(AttestationRecordId(p.id, a.memberId), TimebankSchema, 1, AttestationKind, p.communityId, time, author,
               AttestationPayload(AttestationOf(p, a)))
    case Publish(p, t) =>
      Envelope(t.terms.id, TimebankSchema, 1, TransferKind, p.communityId, time, author, TransferPayload(t))
  }

  // ---- cuts -----------------------------------------------------------------------------------

  /** The records of a cut. */
  function RecordsAt(run: Run, cut: set<nat>): seq<Record> {
    if run == [] then []
    else RecordsAt(run[..|run| - 1], cut) + (if |run| - 1 in cut then [run[|run| - 1].record] else [])
  }

  lemma {:induction false} RecordsAtSpec(run: Run, cut: set<nat>)
    ensures forall r :: r in RecordsAt(run, cut) <==> exists i :: i in cut && i < |run| && run[i].record == r
  {
    if run != [] {
      var front := run[..|run| - 1];
      RecordsAtSpec(front, cut);
      forall r
        ensures r in RecordsAt(run, cut) <==> exists i :: i in cut && i < |run| && run[i].record == r
      {
        if r in RecordsAt(front, cut) {
          var i :| i in cut && i < |front| && front[i].record == r;
          assert run[i].record == r;
        }
        if i :| i in cut && i < |run| && run[i].record == r && i < |front| {
          assert front[i].record == r;
        }
      }
    }
  }

  /** A cut holds, with each append, everything its author held. */
  ghost predicate CausallyClosed(run: Run, cut: set<nat>) {
    forall i | i in cut :: i < |run| && run[i].view <= cut
  }

  // ---- the members' guards ---------------------------------------------------------------------

  predicate IsSeparator(c: char) { c == '/' || c == ':' }

  /** Proposal ids are random identifiers without the characters that record ids are built with. */
  predicate SeparatorFree(text: string) { forall i | 0 <= i < |text| :: !IsSeparator(text[i]) }

  /** What the author held when it acted came before, and is causally closed. It need not reach the end of
      the author's own feed: a member acts on what it read before it was asked. */
  ghost predicate HoldsView(run: Run, i: nat)
    requires i < |run|
  {
    && (forall j | j in run[i].view :: j < i)
    && CausallyClosed(run, run[i].view)
  }

  /** The author signed the envelope with the root key it has declared. */
  ghost predicate SignedWithRoot(w: World, run: Run, i: nat)
    requires i < |run|
  {
    exists j :: j in run[i].view && j < i && run[j].author == run[i].author && run[j].act.Declare?
      && run[i].record.proof.Some?
      && run[i].record.proof.value.keyId == RootKeyId(run[i].author)
      && Present(run[i].record.proof.value.signature)
      && w.platform.verifies(RecordContent(run[i].record.envelope), run[j].act.declaration.rootPublicKeyPem,
                             run[i].record.proof.value.signature)
      && (run[i].act.AttestTerms? ==>
            w.platform.verifies(TransferContent(SettlementTerms(run[i].act.proposal)), run[j].act.declaration.rootPublicKeyPem,
                                run[i].act.attestation.signature))
  }

  ghost function AcceptedBy(q: Proposal, memberId: string): Proposal {
    q.(status := ProposalStatus.Accepted, acceptedBy := Some(memberId))
  }

  /** What the author's resolved state must show before it acts. */
  ghost predicate Guard(w: World, s: ResolvedState, author: string, act: Act) {
    match act
    case Declare(d) => true
    case Propose(p) => ValidProposed(p) && p.creator == author && p.communityId == w.communityId && SeparatorFree(p.id)
    case Accept(p) => exists q :: q in s.proposed && Counterparty(q) == author && p == AcceptedBy(q, author)
    case Acknowledge(p) => p in s.accepted && CreateAcknowledgement(p, author) == Ok(AckOf(p, author))
    case AttestTerms(p, a) =>
      && p in s.accepted && a.memberId == author && a.keyId == RootKeyId(author) && Ledger.ValidAttestation(a)
      && CreateSettlementAttestation(w.platform, w.less, p, AcksFor(s.acknowledgements, p.id), a) == Ok(AttestationOf(p, a))
    case Publish(p, t) =>
      && p in s.accepted && IsParticipant(p, author)
      && exists st :: st in s.attestationStates && st.proposalId == p.id
           && exists a, b :: a in st.attestations && b in st.attestations
                && ComposeSettlementTransfer(w.less, p, AcksFor(s.acknowledgements, p.id), [a.attestation, b.attestation]) == Ok(t)
  }

  /** A proposal id is chosen once; a member declares one feed, and a feed is declared by one member. Every
      other step may be taken any number of times. */
  ghost predicate Fresh(run: Run, i: nat)
    requires i < |run|
  {
    && (run[i].act.Propose? ==> forall j | 0 <= j < i :: run[j].act.Propose? ==> run[j].act.proposal.id != run[i].act.proposal.id)
    && (run[i].act.Declare? ==> forall j | 0 <= j < i :: run[j].act.Declare? ==>
          run[j].author != run[i].author && run[j].act.declaration.feedPublicKey != run[i].act.declaration.feedPublicKey)
  }

  ghost predicate ValidAppend(w: World, run: Run, i: nat)
    requires i < |run|
  {
    var e := run[i];
    && HoldsView(run, i) && Fresh(run, i)
    && e.record.envelope == EnvelopeFor(e.author, e.act, e.time)
    && ValidTimestamp(w.platform, e.time) && Present(w.communityId)
    && (match e.act
        case Declare(d) =>
          ValidDeclaration(w.platform, d) && d.memberId == e.author && d.communityId == w.communityId
        case _ =>
          && SignedWithRoot(w, run, i)
          && var s := ResolveRecords(w.platform, w.less, w.communityId, RecordsAt(run, e.view));
             s.Ok? && Guard(w, s.value, e.author, e.act))
  }

  /** Every append of the run is one that its author's client would make. */
  ghost predicate ValidRun(w: World, run: Run) {
    forall i | 0 <= i < |run| :: ValidAppend(w, run, i)
  }

  /** No two appends of the cut carry different envelopes under one record id. */
  ghost predicate ConflictFree(run: Run, cut: set<nat>) {
    forall i, j | i in cut && j in cut && i < |run| && j < |run| ::
      run[i].record.envelope.id == run[j].record.envelope.id ==> run[i].record.envelope == run[j].record.envelope
  }
}

/** The exchange protocol fits together in every causally closed cut, so the cut resolves. */
module CutExchange {
  import opened Core
  import opened Sorting
  import opened Reduction
  import opened Types
  import opened Identity
  import opened Settlement
  import opened Records
  import opened Resolve
  import opened ResolveTheorems
  import opened IdentityTheorems
  import opened ProtocolRun
  import opened RunFacts
  import opened CutResolution
  import Ledger

  // ---- the cut's values ----------------------------------------------------------------------------

  /** A reducer succeeds on a cut when appends of its kind decode and those that share an id are one envelope. */
  lemma CutReduces<T(!new)>(w: World, run: Run, cut: set<nat>, mine: seq<Envelope>, kind: Kind,
                            decode: Envelope -> Result<T>, communityOf: T -> string, id: T -> string)
    requires HoldsCut(run, cut, mine) && Present(w.communityId)
    requires forall i | i in cut && i < |run| && EnvelopeAt(run, i).kind == kind ::
               decode(EnvelopeAt(run, i)).Ok? && communityOf(decode(EnvelopeAt(run, i)).value) == w.communityId
    requires forall i, j | i in cut && j in cut && i < |run| && j < |run|
                           && EnvelopeAt(run, i).kind == kind && EnvelopeAt(run, j).kind == kind ::
               id(decode(EnvelopeAt(run, i)).value) == id(decode(EnvelopeAt(run, j)).value) ==>
                 EnvelopeAt(run, i) == EnvelopeAt(run, j)
    ensures ReduceValues(w.less, w.communityId, OfKind(mine, kind), decode, communityOf, id).Ok?
  {
    hide Present, Reduce, EnvelopeAt;
    var chosen, scoped := OfKind(mine, kind), Scoped(decode, communityOf, w.communityId);
    forall e | e in chosen
      ensures scoped(e).Ok?
    {
      var i :| i in cut && i < |run| && EnvelopeAt(run, i) == e;
    }
    forall e, f | e in chosen && f in chosen && id(scoped(e).value) == id(scoped(f).value)
      ensures scoped(e) == scoped(f)
    {
      var i :| i in cut && i < |run| && EnvelopeAt(run, i) == e;
      var j :| j in cut && j < |run| && EnvelopeAt(run, j) == f;
    }
    ReduceSpec(OrderedBy(w.less, id), chosen, scoped, id);
  }

  lemma CutProposedReduces(w: World, run: Run, cut: set<nat>, mine: seq<Envelope>)
    requires GoodCut(w, run, cut) && HoldsCut(run, cut, mine) && Present(w.communityId)
    ensures ReducedProposed(w.platform, w.less, w.communityId, mine).Ok?
  {
    hide Present, ValidRun, HoldsCut, ReduceValues, DecodeProposed, ConflictFree;
    RunIsWritten(w, run);
    forall i | i in cut && i < |run| && EnvelopeAt(run, i).kind == ProposedProposalKind
      ensures DecodingProposed(w.platform)(EnvelopeAt(run, i)) == Ok(run[i].act.proposal)
      ensures run[i].act.Propose? && run[i].act.proposal.communityId == w.communityId
    {
      ProposalDecodes(w, run, i);
      ProposalShape(w, run, i);
    }
    forall i, j | i in cut && j in cut && i < |run| && j < |run|
                  && EnvelopeAt(run, i).kind == ProposedProposalKind && EnvelopeAt(run, j).kind == ProposedProposalKind
                  && run[i].act.proposal.id == run[j].act.proposal.id
      ensures EnvelopeAt(run, i) == EnvelopeAt(run, j)
    {
      ProposeOnce(w, run, i, j);
    }
    CutReduces(w, run, cut, mine, ProposedProposalKind, DecodingProposed(w.platform), ProposalCommunity, ProposalId);
  }

  lemma CutAcceptedReduces(w: World, run: Run, cut: set<nat>, mine: seq<Envelope>)
    requires GoodCut(w, run, cut) && HoldsCut(run, cut, mine) && Present(w.communityId)
    ensures ReducedAccepted(w.platform, w.less, w.communityId, mine).Ok?
  {
    hide Present, ValidRun, HoldsCut, ReduceValues, DecodeAccepted, ConflictFree;
    RunIsWritten(w, run);
    forall i | i in cut && i < |run| && EnvelopeAt(run, i).kind == AcceptedProposalKind
      ensures DecodingAccepted(w.platform)(EnvelopeAt(run, i)) == Ok(run[i].act.proposal)
      ensures run[i].act.Accept? && run[i].act.proposal.communityId == w.communityId
    {
      ProposalDecodes(w, run, i);
      ProposalShape(w, run, i);
    }
    forall i, j | i in cut && j in cut && i < |run| && j < |run|
                  && EnvelopeAt(run, i).kind == AcceptedProposalKind && EnvelopeAt(run, j).kind == AcceptedProposalKind
                  && run[i].act.proposal.id == run[j].act.proposal.id
      ensures EnvelopeAt(run, i) == EnvelopeAt(run, j)
    {
      OneEnvelopePerId(run, cut, i, j);
    }
    CutReduces(w, run, cut, mine, AcceptedProposalKind, DecodingAccepted(w.platform), ProposalCommunity, ProposalId);
  }

  lemma CutAcknowledgementsReduce(w: World, run: Run, cut: set<nat>, mine: seq<Envelope>)
    requires GoodCut(w, run, cut) && HoldsCut(run, cut, mine) && Present(w.communityId)
    ensures ReducedAcknowledgements(w.platform, w.less, w.communityId, mine).Ok?
  {
    hide Present, ValidRun, HoldsCut, ReduceValues, DecodeAcknowledgement, AcknowledgementId, ConflictFree;
    RunIsWritten(w, run);
    forall i | i in cut && i < |run| && EnvelopeAt(run, i).kind == AcknowledgementKind
      ensures DecodingAcknowledgements(w.platform)(EnvelopeAt(run, i)) == Ok(AckOf(run[i].act.proposal, run[i].author))
      ensures run[i].act.Acknowledge? && run[i].act.proposal.communityId == w.communityId
    {
      AcknowledgementDecodes(w, run, i);
      ProposalShape(w, run, i);
    }
    forall i, j | i in cut && j in cut && i < |run| && j < |run|
                  && EnvelopeAt(run, i).kind == AcknowledgementKind && EnvelopeAt(run, j).kind == AcknowledgementKind
                  && AckOf(run[i].act.proposal, run[i].author).id == AckOf(run[j].act.proposal, run[j].author).id
      ensures EnvelopeAt(run, i) == EnvelopeAt(run, j)
    {
      OneEnvelopePerId(run, cut, i, j);
    }
    CutReduces(w, run, cut, mine, AcknowledgementKind, DecodingAcknowledgements(w.platform), AckCommunity, AckId);
  }

  lemma CutAttestationsReduce(w: World, run: Run, cut: set<nat>, mine: seq<Envelope>)
    requires GoodCut(w, run, cut) && HoldsCut(run, cut, mine) && Present(w.communityId)
    ensures ReducedAttestations(w.platform, w.less, w.communityId, mine).Ok?
  {
    hide Present, ValidRun, HoldsCut, ReduceValues, DecodeAttestation, AttestationRecordId, ConflictFree;
    RunIsWritten(w, run);
    forall i | i in cut && i < |run| && EnvelopeAt(run, i).kind == AttestationKind
      ensures DecodingAttestations(w.platform)(EnvelopeAt(run, i)) == Ok(AttestationOf(run[i].act.proposal, run[i].act.attestation))
      ensures run[i].act.AttestTerms? && run[i].act.proposal.communityId == w.communityId
    {
      AttestationDecodes(w, run, i);
      ProposalShape(w, run, i);
    }
    forall i, j | i in cut && j in cut && i < |run| && j < |run|
                  && EnvelopeAt(run, i).kind == AttestationKind && EnvelopeAt(run, j).kind == AttestationKind
                  && AttestationOf(run[i].act.proposal, run[i].act.attestation).id == AttestationOf(run[j].act.proposal, run[j].act.attestation).id
      ensures EnvelopeAt(run, i) == EnvelopeAt(run, j)
    {
      OneEnvelopePerId(run, cut, i, j);
    }
    CutReduces(w, run, cut, mine, AttestationKind, DecodingAttestations(w.platform), AttestationCommunity, AttestationId);
  }

  lemma CutTransfersReduce(w: World, run: Run, cut: set<nat>, mine: seq<Envelope>)
    requires GoodCut(w, run, cut) && HoldsCut(run, cut, mine) && Present(w.communityId)
    ensures ReducedTransfers(w.platform, w.less, w.communityId, mine).Ok?
  {
    hide Present, ValidRun, HoldsCut, ReduceValues, DecodeTransfer, SettlementTransferId;
    RunIsWritten(w, run);
    forall i | i in cut && i < |run| && EnvelopeAt(run, i).kind == TransferKind
      ensures DecodingTransfers(w.platform)(EnvelopeAt(run, i)) == Ok(run[i].act.transfer)
      ensures run[i].act.Publish? && run[i].act.transfer.terms.communityId == w.communityId
    {
      TransferDecodes(w, run, i);
      ProposalShape(w, run, i);
      PublishedTransfer(w, run, i);
    }
    forall i, j | i in cut && j in cut && i < |run| && j < |run| && EnvelopeAt(run, i).kind == TransferKind && EnvelopeAt(run, j).kind == TransferKind
                  && run[i].act.transfer.terms.id == run[j].act.transfer.terms.id
      ensures EnvelopeAt(run, i) == EnvelopeAt(run, j)
    {
      OneEnvelopePerId(run, cut, i, j);
    }
    CutReduces(w, run, cut, mine, TransferKind, DecodingTransfers(w.platform), TransferCommunity, Ledger.TransferId);
  }

  // ---- membership of the cut's values ----------------------------------------------------------------

  ghost predicate Appended(run: Run, cut: set<nat>, act: Act, author: string) {
    exists i :: i in cut && i < |run| && run[i].act == act && run[i].author == author
  }

  /** What the reduced exchange of a cut holds, in terms of its appends. */
  ghost predicate ExchangeOfCut(run: Run, cut: set<nat>, x: Exchange) {
    && (forall p | p in x.proposed :: exists i :: i in cut && i < |run| && run[i].act == Propose(p))
    && (forall p :: p in x.accepted <==> exists i :: i in cut && i < |run| && run[i].act == Act.Accept(p))
    && (forall a | a in x.acks :: exists i :: i in cut && i < |run| && run[i].act.Acknowledge? && a == AckOf(run[i].act.proposal, run[i].author))
    && (forall i | i in cut && i < |run| && run[i].act.Acknowledge? :: AckOf(run[i].act.proposal, run[i].author) in x.acks)
    && (forall s | s in x.attestations ::
          exists i :: i in cut && i < |run| && run[i].act.AttestTerms? && s == AttestationOf(run[i].act.proposal, run[i].act.attestation))
    && (forall t | t in x.transfers :: exists i :: i in cut && i < |run| && run[i].act.Publish? && run[i].act.transfer == t)
    && KeysDistinct(x.accepted, ProposalId) && KeysDistinct(x.transfers, Ledger.TransferId)
  }

  lemma EventCarried<T>(w: World, run: Run, cut: set<nat>, i: nat, decode: Envelope -> Result<T>, v: T)
    requires ValidRun(w, run) && i in cut && i < |run| && decode(EnvelopeAt(run, i)) == Ok(v)
    ensures Carried(RecordsAt(run, cut), w.communityId, EnvelopeAt(run, i).kind, decode, v)
  {
    hide ValidRun, ValidEnvelope, Present;
    RecordsAtSpec(run, cut);
    EnvelopeValid(w, run, i);
    assert run[i].record in RecordsAt(run, cut);
  }

  lemma TransferFromEvent(w: World, run: Run, cut: set<nat>, t: Transfer)
    requires ValidRun(w, run)
    requires Carried(RecordsAt(run, cut), w.communityId, TransferKind, DecodingTransfers(w.platform), t)
    ensures exists i :: i in cut && i < |run| && run[i].act.Publish? && run[i].act.transfer == t
  {
    hide ValidRun, Present, Carried, DecodeTransfer;
    RunIsWritten(w, run);
    EventCarrying(w, run, cut, TransferKind, DecodingTransfers(w.platform), t);
    var i :| i in cut && i < |run| && run[i].record.envelope.kind == TransferKind
             && DecodingTransfers(w.platform)(run[i].record.envelope) == Ok(t);
    TransferDecodes(w, run, i);
  }

  lemma CutHoldsExchange(w: World, run: Run, cut: set<nat>, x: Exchange)
    requires ValidRun(w, run) && HoldsExchange(w.platform, w.communityId, RecordsAt(run, cut), x)
    ensures ExchangeOfCut(run, cut, x)
  {
    hide ValidRun, Present, Carried, Written, DecodeProposed, DecodeAccepted, DecodeAcknowledgement, DecodeAttestation,
         DecodeTransfer,
         AckOf, AttestationOf, ValidProposed, ValidAccepted;
    RunIsWritten(w, run);
    forall p | p in x.proposed ensures exists i :: i in cut && i < |run| && run[i].act == Propose(p) {
      ProposedFromEvent(w, run, cut, p);
    }
    forall p ensures p in x.accepted <==> exists i :: i in cut && i < |run| && run[i].act == Act.Accept(p) {
      if p in x.accepted { AcceptedFromEvent(w, run, cut, p); }
      if i :| i in cut && i < |run| && run[i].act == Act.Accept(p) { AcceptCarried(w, run, cut, i); }
    }
    forall a | a in x.acks
      ensures exists i :: i in cut && i < |run| && run[i].act.Acknowledge? && a == AckOf(run[i].act.proposal, run[i].author)
    {
      AcknowledgementFromEvent(w, run, cut, a);
    }
    forall i | i in cut && i < |run| && run[i].act.Acknowledge? ensures AckOf(run[i].act.proposal, run[i].author) in x.acks {
      AcknowledgementCarried(w, run, cut, i);
    }
    forall s | s in x.attestations
      ensures exists i :: i in cut && i < |run| && run[i].act.AttestTerms? && s == AttestationOf(run[i].act.proposal, run[i].act.attestation)
    {
      AttestationFromEvent(w, run, cut, s);
    }
    forall t | t in x.transfers ensures exists i :: i in cut && i < |run| && run[i].act.Publish? && run[i].act.transfer == t {
      TransferFromEvent(w, run, cut, t);
    }
  }

  lemma AcceptCarried(w: World, run: Run, cut: set<nat>, i: nat)
    requires ValidRun(w, run) && i in cut && i < |run| && run[i].act.Accept?
    ensures Carried(RecordsAt(run, cut), w.communityId, AcceptedProposalKind, DecodingAccepted(w.platform), run[i].act.proposal)
  {
    hide ValidRun, Carried, DecodeAccepted;
    ProposalDecodes(w, run, i);
    RunIsWritten(w, run);
    EventCarried(w, run, cut, i, DecodingAccepted(w.platform), run[i].act.proposal);
  }

  lemma AcknowledgementCarried(w: World, run: Run, cut: set<nat>, i: nat)
    requires ValidRun(w, run) && i in cut && i < |run| && run[i].act.Acknowledge?
    ensures Carried(RecordsAt(run, cut), w.communityId, AcknowledgementKind, DecodingAcknowledgements(w.platform),
                    AckOf(run[i].act.proposal, run[i].author))
  {
    hide ValidRun, Carried, DecodeAcknowledgement, AckOf;
    AcknowledgementDecodes(w, run, i);
    RunIsWritten(w, run);
    EventCarried(w, run, cut, i, DecodingAcknowledgements(w.platform), AckOf(run[i].act.proposal, run[i].author));
  }

  // ---- acknowledgements of one proposal --------------------------------------------------------------

  /** The acceptance behind an append of the cut is in the cut, and the reducers hold it. */
  lemma ResolvesToAccepted(w: World, run: Run, cut: set<nat>, x: Exchange, i: nat)
    requires ValidRun(w, run) && CausallyClosed(run, cut) && ExchangeOfCut(run, cut, x)
    requires i in cut && i < |run| && ActsOnAccepted(run[i].act)
    ensures run[i].act.proposal in x.accepted
    ensures Lookup(x.accepted, ProposalId, run[i].act.proposal.id) == Some(run[i].act.proposal)
  {
    hide ValidRun;
    var j := AcceptanceOf(w, run, i);
    assert j in cut && run[j].act == Act.Accept(run[i].act.proposal);
    LookupUnique(x.accepted, ProposalId, run[i].act.proposal);
  }

  lemma AckShapeValid(p: Proposal, memberId: string)
    requires ValidAccepted(p) && IsParticipant(p, memberId) && Present(memberId)
    ensures ValidAcknowledgement(p, AckOf(p, memberId))
  {
    hide Present, AcknowledgementId;
    CreatedAcknowledgementValid(p, memberId);
  }

  lemma AcksOfProposal(w: World, run: Run, cut: set<nat>, x: Exchange, p: Proposal)
    requires ValidRun(w, run) && CausallyClosed(run, cut) && ExchangeOfCut(run, cut, x) && p in x.accepted
    ensures forall a | a in AcksFor(x.acks, p.id) :: ValidAcknowledgement(p, a)
    ensures forall m :: AcknowledgedBy(AcksFor(x.acks, p.id), m) <==> Appended(run, cut, Acknowledge(p), m)
  {
    hide ValidRun, CausallyClosed, ValidAcknowledgement, AcknowledgementId;
    var k :| k in cut && k < |run| && run[k].act == Act.Accept(p);
    forall a | a in AcksFor(x.acks, p.id)
      ensures ValidAcknowledgement(p, a) && Appended(run, cut, Acknowledge(p), a.acknowledgedBy)
    {
      HavingMember(x.acks, AckProposal, p.id, a);
      var i :| i in cut && i < |run| && run[i].act.Acknowledge? && a == AckOf(run[i].act.proposal, run[i].author);
      OneAcceptedProposalPerId(w, run, i, k);
      AcknowledgementDecodes(w, run, i);
      AuthorPresent(w, run, i);
      ProposalShape(w, run, i);
      AckShapeValid(p, run[i].author);
      assert run[i].act == Acknowledge(p);
    }
    forall m | Appended(run, cut, Acknowledge(p), m)
      ensures AcknowledgedBy(AcksFor(x.acks, p.id), m)
    {
      var i :| i in cut && i < |run| && run[i].act == Acknowledge(p) && run[i].author == m;
      HavingMember(x.acks, AckProposal, p.id, AckOf(p, m));
    }
  }

  /** In a cut, the terms of a proposal are confirmed exactly when both acknowledgements are in it. */
  lemma ConfirmsInCut(w: World, run: Run, cut: set<nat>, x: Exchange, p: Proposal)
    requires ValidRun(w, run) && CausallyClosed(run, cut) && ExchangeOfCut(run, cut, x) && p in x.accepted
    ensures Confirm(w.less, p, AcksFor(x.acks, p.id)).Ok? && ValidAccepted(p)
    ensures Confirm(w.less, p, AcksFor(x.acks, p.id)).value.dualConfirmed <==>
              Appended(run, cut, Acknowledge(p), p.provider) && Appended(run, cut, Acknowledge(p), p.receiver)
  {
    hide ValidRun, CausallyClosed, ValidAcknowledgement, Confirm, AcknowledgedBy, AcksFor, Appended, ValidProposalTerms;
    AcksOfProposal(w, run, cut, x, p);
    var k :| k in cut && k < |run| && run[k].act == Act.Accept(p);
    ProposalShape(w, run, k);
    ConfirmSpec(w.less, p, AcksFor(x.acks, p.id));
  }

  lemma RestsAreInCut(w: World, run: Run, cut: set<nat>, i: nat)
    requires ValidRun(w, run) && CausallyClosed(run, cut) && i in cut && i < |run|
             && (run[i].act.AttestTerms? || run[i].act.Publish?)
    ensures Appended(run, cut, Acknowledge(run[i].act.proposal), run[i].act.proposal.provider)
    ensures Appended(run, cut, Acknowledge(run[i].act.proposal), run[i].act.proposal.receiver)
  {
    hide ValidRun;
    ConfirmedActsRest(w, run, i);
    var p := run[i].act.proposal;
    var j :| j in run[i].view && j < |run| && run[j].act == Acknowledge(p) && run[j].author == p.provider;
    var k :| k in run[i].view && k < |run| && run[k].act == Acknowledge(p) && run[k].author == p.receiver;
    assert j in cut && k in cut;
  }

  lemma TermsInCut(w: World, run: Run, cut: set<nat>, x: Exchange, i: nat)
    requires ValidRun(w, run) && CausallyClosed(run, cut) && ExchangeOfCut(run, cut, x)
    requires i in cut && i < |run| && (run[i].act.AttestTerms? || run[i].act.Publish?)
    ensures var p := run[i].act.proposal;
            && p in x.accepted && Confirm(w.less, p, AcksFor(x.acks, p.id)).Ok?
            && Confirm(w.less, p, AcksFor(x.acks, p.id)).value.dualConfirmed
            && DualConfirmedTerms(w.less, p, AcksFor(x.acks, p.id)) == Ok(SettlementTerms(p))
  {
    hide ValidRun, CausallyClosed, ExchangeOfCut, Confirm, AcksFor, Present, SettlementTerms;
    var p := run[i].act.proposal;
    ResolvesToAccepted(w, run, cut, x, i);
    RestsAreInCut(w, run, cut, i);
    ConfirmsInCut(w, run, cut, x, p);
    ProposalShape(w, run, i);
  }

  // ---- attestations and transfers of the cut -----------------------------------------------------------

  lemma AttestationValidInCut(w: World, run: Run, cut: set<nat>, x: Exchange, i: nat)
    requires ValidRun(w, run) && CausallyClosed(run, cut) && ExchangeOfCut(run, cut, x)
    requires i in cut && i < |run| && run[i].act.AttestTerms?
    ensures var p, s := run[i].act.proposal, AttestationOf(run[i].act.proposal, run[i].act.attestation);
            ValidateSettlementAttestation(w.platform, w.less, p, AcksFor(x.acks, p.id), s) == Ok(s)
  {
    hide ValidRun, CausallyClosed, ExchangeOfCut, Confirm, AcksFor, Present, SettlementTransferId, AttestationRecordId,
         DualConfirmedTerms, DecodeAttestation, Ledger.ValidTerms;
    TermsInCut(w, run, cut, x, i);
    AttestationDecodes(w, run, i);
    AuthorPresent(w, run, i);
    ProposalShape(w, run, i);
  }

  lemma AttestationVerifiesInCut(w: World, run: Run, cut: set<nat>, auths: seq<Authorization>, i: nat)
    requires ValidRun(w, run) && CausallyClosed(run, cut) && RootsIndexed(w, run, cut, auths)
    requires i in cut && i < |run| && run[i].act.AttestTerms?
    ensures var p, a := run[i].act.proposal, run[i].act.attestation;
            && MemberVerifies(w.platform, KeyIndex(w.platform, auths).value, p.communityId, a.memberId, a.keyId,
                              TransferContent(SettlementTerms(p)), a.signature)
            && a.payloadDigest == w.platform.digest(SettlementTerms(p))
  {
    hide ValidRun, CausallyClosed, KeyIndex, Present, SettlementTerms, RootKeyId, DeclaredIn, DecodeAttestation,
         Ledger.ValidTerms;
    var d := AuthorDeclared(w, run, cut, i);
    AttestationDecodes(w, run, i);
    ProposalShape(w, run, i);
  }

  lemma AttestationResolvesInCut(w: World, run: Run, cut: set<nat>, auths: seq<Authorization>, x: Exchange,
                                 s: SettlementAttestation)
    requires ValidRun(w, run) && CausallyClosed(run, cut) && RootsIndexed(w, run, cut, auths) && ExchangeOfCut(run, cut, x)
    requires s in x.attestations
    ensures AttestationResolves(w.platform, w.less, auths, x.accepted, x.acks, s)
  {
    hide ValidRun, CausallyClosed, KeyIndex, Present, SettlementTerms, MemberVerifies, ValidateSettlementAttestation,
         AttestationRecordId, AcksFor;
    var i :| i in cut && i < |run| && run[i].act.AttestTerms? && s == AttestationOf(run[i].act.proposal, run[i].act.attestation);
    ResolvesToAccepted(w, run, cut, x, i);
    AttestationValidInCut(w, run, cut, x, i);
    AttestationVerifiesInCut(w, run, cut, auths, i);
  }

  lemma TransferResolvesInCut(w: World, run: Run, cut: set<nat>, auths: seq<Authorization>, x: Exchange, t: Transfer)
    requires ValidRun(w, run) && CausallyClosed(run, cut) && RootsIndexed(w, run, cut, auths) && ExchangeOfCut(run, cut, x)
    requires t in x.transfers
    ensures TransferResolves(w.platform, w.less, auths, x.accepted, x.acks, t)
    ensures t.terms.reverses.None? && Ledger.CreateTransfer(t) == Ok(t) && t.terms.communityId == w.communityId
  {
    hide ValidRun, KeyIndex, Present, MemberVerifies, SettlementTransferId, AcksFor, Confirm, Ledger.CreateTransfer,
         DualConfirmedTerms;
    var i :| i in cut && i < |run| && run[i].act.Publish? && run[i].act.transfer == t;
    PublishedTransfer(w, run, i);
    ProposalShape(w, run, i);
    ResolvesToAccepted(w, run, cut, x, i);
    TermsInCut(w, run, cut, x, i);
    forall a | a in t.attestations
      ensures AttestationVerifies(w.platform, KeyIndex(w.platform, auths).value, t, a)
    {
      PublishRestsOnAttestations(w, run, i, a);
      var j :| j in run[i].view && j < |run| && run[j].act == AttestTerms(run[i].act.proposal, a);
      AttestationVerifiesInCut(w, run, cut, auths, j);
    }
  }

  // ---- the exchange fits -----------------------------------------------------------------------------

  lemma AcceptancesPreserve(w: World, run: Run, cut: set<nat>, x: Exchange, p: Proposal)
    requires ValidRun(w, run) && ExchangeOfCut(run, cut, x) && p in x.accepted
    ensures PreservesTerms(x.proposed, p)
  {
    hide ValidRun, ValidProposed;
    var i :| i in cut && i < |run| && run[i].act == Act.Accept(p);
    AcceptRests(w, run, i);
    var j, q :| j in run[i].view && j < |run| && run[j].act == Propose(q)
                && Counterparty(q) == run[i].author && p == AcceptedBy(q, run[i].author) && ValidProposed(q);
    var known := Lookup(x.proposed, ProposalId, p.id);
    if known.Some? {
      var k :| k in cut && k < |run| && run[k].act == Propose(known.value);
      ProposeOnce(w, run, j, k);
    }
  }

  lemma AcknowledgementsResolve(w: World, run: Run, cut: set<nat>, x: Exchange, a: Acknowledgement)
    requires ValidRun(w, run) && CausallyClosed(run, cut) && ExchangeOfCut(run, cut, x) && a in x.acks
    ensures AcknowledgementResolves(x.accepted, a)
  {
    hide ValidRun, CausallyClosed, ValidAcknowledgement, AcknowledgementId;
    var i :| i in cut && i < |run| && run[i].act.Acknowledge? && a == AckOf(run[i].act.proposal, run[i].author);
    ResolvesToAccepted(w, run, cut, x, i);
    AcksOfProposal(w, run, cut, x, run[i].act.proposal);
    HavingMember(x.acks, AckProposal, run[i].act.proposal.id, a);
  }

  lemma FitsInCut(w: World, run: Run, cut: set<nat>, auths: seq<Authorization>, x: Exchange)
    requires ValidRun(w, run) && CausallyClosed(run, cut) && RootsIndexed(w, run, cut, auths) && ExchangeOfCut(run, cut, x)
    ensures ExchangeFits(w.platform, w.less, auths, x)
  {
    hide ValidRun, CausallyClosed, RootsIndexed, ExchangeOfCut, PreservesTerms, AcknowledgementResolves,
         AttestationResolves, TransferResolves;
    forall p | p in x.accepted ensures PreservesTerms(x.proposed, p) { AcceptancesPreserve(w, run, cut, x, p); }
    forall a | a in x.acks ensures AcknowledgementResolves(x.accepted, a) { AcknowledgementsResolve(w, run, cut, x, a); }
    forall s | s in x.attestations ensures AttestationResolves(w.platform, w.less, auths, x.accepted, x.acks, s) {
      AttestationResolvesInCut(w, run, cut, auths, x, s);
    }
    forall t | t in x.transfers ensures TransferResolves(w.platform, w.less, auths, x.accepted, x.acks, t) {
      TransferResolvesInCut(w, run, cut, auths, x, t);
    }
  }

  /** In a cut without conflicts, a member's attestations of one proposal are one. */
  lemma OneAttestationPerMember(w: World, run: Run, cut: set<nat>, i: nat, j: nat)
    requires GoodCut(w, run, cut) && i in cut && j in cut && i < |run| && j < |run|
    requires run[i].act.AttestTerms? && run[j].act.AttestTerms? && run[i].act.proposal == run[j].act.proposal
    requires run[i].act.attestation.memberId == run[j].act.attestation.memberId
    ensures run[i].act.attestation == run[j].act.attestation
  {
    hide ValidRun, AttestationRecordId;
    RunIsWritten(w, run);
    OneEnvelopePerId(run, cut, i, j);
  }

  /** Attestation progress resolves for every accepted proposal of the cut. */
  lemma AttestsInCut(w: World, run: Run, cut: set<nat>, x: Exchange, p: Proposal)
    requires GoodCut(w, run, cut) && ExchangeOfCut(run, cut, x) && p in x.accepted
    ensures Attest(w.platform, w.less, p, AcksFor(x.acks, p.id), AttestationsFor(x.attestations, p.id)).Ok?
  {
    hide ValidRun, CausallyClosed, Confirm, AcksFor, Present, ValidateSettlementAttestation, AttestationRecordId,
         SettlementTerms, Appended, Reduce;
    var acks, attestations := AcksFor(x.acks, p.id), AttestationsFor(x.attestations, p.id);
    var k :| k in cut && k < |run| && run[k].act == Act.Accept(p);
    ConfirmsInCut(w, run, cut, x, p);
    ProposalShape(w, run, k);
    forall s | s in attestations
      ensures exists i :: i in cut && i < |run| && run[i].act.AttestTerms? && run[i].act.proposal == p
                          && s == AttestationOf(p, run[i].act.attestation)
      ensures Validating(w.platform, w.less, p, acks)(s) == Ok(s)
      ensures Confirm(w.less, p, acks).value.dualConfirmed
    {
      HavingMember(x.attestations, AttestationProposal, p.id, s);
      var i :| i in cut && i < |run| && run[i].act.AttestTerms? && s == AttestationOf(run[i].act.proposal, run[i].act.attestation);
      OneAcceptedProposalPerId(w, run, i, k);
      AttestationValidInCut(w, run, cut, x, i);
      TermsInCut(w, run, cut, x, i);
    }
    if Confirm(w.less, p, acks).value.dualConfirmed {
      forall s, u | s in attestations && u in attestations && Attester(s) == Attester(u)
        ensures s == u
      {
        var i :| i in cut && i < |run| && run[i].act.AttestTerms? && run[i].act.proposal == p
                          && s == AttestationOf(p, run[i].act.attestation);
        var j :| j in cut && j < |run| && run[j].act.AttestTerms? && run[j].act.proposal == p && u == AttestationOf(p, run[j].act.attestation);
        OneAttestationPerMember(w, run, cut, i, j);
      }
      ReduceSpec(ByAttester(w.less), attestations, Validating(w.platform, w.less, p, acks), Attester);
      assert DualConfirmedTerms(w.less, p, acks).Ok?;
    } else {
      NothingHeld(attestations);
    }
  }

  lemma ProgressInCut(w: World, run: Run, cut: set<nat>, auths: seq<Authorization>, x: Exchange)
    requires GoodCut(w, run, cut) && RootsIndexed(w, run, cut, auths) && ExchangeOfCut(run, cut, x)
    ensures ResolveProgress(w.platform, w.less, auths, x).Ok?
  {
    hide ValidRun, CausallyClosed, RootsIndexed, ExchangeOfCut, ExchangeFits, Confirm, Attest, ValidAccepted, Appended;
    FitsInCut(w, run, cut, auths, x);
    forall p | p in x.accepted
      ensures Confirming(w.less, x.acks)(p).Ok?
      ensures Attesting(w.platform, w.less, x.acks, x.attestations)(p).Ok?
    {
      ConfirmsInCut(w, run, cut, x, p);
      AttestsInCut(w, run, cut, x, p);
    }
  }

  lemma LedgerInCut(w: World, run: Run, cut: set<nat>, auths: seq<Authorization>, x: Exchange)
    requires ValidRun(w, run) && CausallyClosed(run, cut) && RootsIndexed(w, run, cut, auths) && ExchangeOfCut(run, cut, x)
    requires Present(w.communityId)
    ensures ResolveLedger(w.platform, w.less, w.communityId, auths, x.transfers).Ok?
  {
    hide ValidRun, CausallyClosed, KeyIndex, Present, TransferResolves, Ledger.CreateTransfer;
    forall t | t in x.transfers
      ensures TransferResolves(w.platform, w.less, auths, x.accepted, x.acks, t)
      ensures t.terms.reverses.None? && Ledger.CreateTransfer(t) == Ok(t) && t.terms.communityId == w.communityId
    {
      TransferResolvesInCut(w, run, cut, auths, x, t);
    }
    SettlementsDeriveLedger(w.platform, w.less, w.communityId, auths, x.accepted, x.acks, x.transfers);
  }

  // ---- the theorem -----------------------------------------------------------------------------------

  lemma CutListings(w: World, run: Run, cut: set<nat>, mine: seq<Envelope>)
    requires ValidRun(w, run) && HoldsCut(run, cut, mine) && Present(w.communityId)
    ensures ResolveListings(w.platform, w.less, w.communityId, mine).Ok?
  {
    hide ValidRun, HoldsCut, Present, DecodeListing, DecodeClosure;
    UnwrittenKinds(w, run, cut, mine);
  }

  lemma CutExchangeReduces(w: World, run: Run, cut: set<nat>, mine: seq<Envelope>)
    requires GoodCut(w, run, cut) && HoldsCut(run, cut, mine) && Present(w.communityId)
    ensures ReducedExchange(w.platform, w.less, w.communityId, mine).Ok?
  {
    hide GoodCut, HoldsCut, Present, ReducedProposed, ReducedAccepted, ReducedAcknowledgements, ReducedAttestations,
         ReducedTransfers;
    CutProposedReduces(w, run, cut, mine);
    CutAcceptedReduces(w, run, cut, mine);
    CutAcknowledgementsReduce(w, run, cut, mine);
    CutAttestationsReduce(w, run, cut, mine);
    CutTransfersReduce(w, run, cut, mine);
  }

  /** A causally closed cut without conflicting envelopes resolves without error. */
  lemma GoodCutResolves(w: World, run: Run, cut: set<nat>)
    requires GoodCut(w, run, cut) && cut != {}
    ensures ResolveRecords(w.platform, w.less, w.communityId, RecordsAt(run, cut)).Ok?
  {
    hide ValidRun, ConflictFree, HoldsCut, Present, CommunityEnvelopes, ResolveAuthorizations, AllMemberSigned,
         ResolveListings,
         ReducedExchange, ResolveProgress, ResolveLedger, HoldsExchange, ExchangeOfCut, RootsIndexed, ValidEnvelope, DeclaredIn;
    var i :| i in cut;
    EnvelopeValid(w, run, i);
    var records := RecordsAt(run, cut);
    CutEnvelopes(w, run, cut);
    var mine := CommunityEnvelopes(w.platform, w.less, w.communityId, records).value;
    MineHoldsCut(run, cut, mine);
    var ds := CutAuthorizations(w, run, cut, mine);
    var auths := Map(ds, RootAuthorization);
    CutIndex(w, run, cut, ds);
    CutSigned(w, run, cut, auths);
    CutListings(w, run, cut, mine);
    CutExchangeReduces(w, run, cut, mine);
    var x := ReducedExchange(w.platform, w.less, w.communityId, mine).value;
    ExchangeHoldsRecords(w.platform, w.less, w.communityId, records, x);
    CutHoldsExchange(w, run, cut, x);
    ProgressInCut(w, run, cut, auths, x);
    LedgerInCut(w, run, cut, auths, x);
  }

  lemma MineHoldsCut(run: Run, cut: set<nat>, mine: seq<Envelope>)
    requires forall e :: e in mine <==> exists i :: i in cut && i < |run| && EnvelopeAt(run, i) == e
    ensures HoldsCut(run, cut, mine)
  {
  }

  /** Two different envelopes under one record id are refused by every replica that holds both. */
  lemma ConflictFails(w: World, run: Run, cut: set<nat>, i: nat, j: nat)
    requires ValidRun(w, run) && i in cut && j in cut && i < |run| && j < |run|
    requires EnvelopeAt(run, i).id == EnvelopeAt(run, j).id && EnvelopeAt(run, i) != EnvelopeAt(run, j)
    ensures ResolveRecords(w.platform, w.less, w.communityId, RecordsAt(run, cut)).Error?
  {
    hide ValidRun, ResolveAuthorizations, AllMemberSigned, ResolveValues, Present, ValidEnvelope, Sort;
    var records := RecordsAt(run, cut);
    var delivered := Map(records, EnvelopeOf);
    RecordsAtSpec(run, cut);
    MemberMap(records, EnvelopeOf, run[i].record);
    MemberMap(records, EnvelopeOf, run[j].record);
    ReduceSpec(EnvelopeOrder(w.less), delivered, NormalizeEnvelope(w.platform), EnvelopeId);
  }

  /** In every run in which members declare, propose, accept, acknowledge, attest and publish from resolved
      views, however often each step is taken, a nonempty causally closed cut of the feeds resolves exactly
      when no two of its appends carry different envelopes under one record id. */
  lemma CutResolvesIffConflictFree(w: World, run: Run, cut: set<nat>)
    requires ValidRun(w, run) && CausallyClosed(run, cut) && cut != {}
    ensures ResolveRecords(w.platform, w.less, w.communityId, RecordsAt(run, cut)).Ok? <==> ConflictFree(run, cut)
  {
    hide ValidRun, ResolveRecords;
    if ConflictFree(run, cut) {
      GoodCutResolves(w, run, cut);
    } else {
      var i, j :| i in cut && j in cut && i < |run| && j < |run|
        && EnvelopeAt(run, i).id == EnvelopeAt(run, j).id && EnvelopeAt(run, i) != EnvelopeAt(run, j);
      ConflictFails(w, run, cut, i, j);
    }
  }

  // ---- which steps conflict --------------------------------------------------------------------------

  ghost predicate SameStep(a: Event, b: Event) {
    && ((a.act.Accept? && b.act.Accept?) || (a.act.Acknowledge? && b.act.Acknowledge?)
        || (a.act.AttestTerms? && b.act.AttestTerms?) || (a.act.Publish? && b.act.Publish?))
    && a.act.proposal.id == b.act.proposal.id
  }

  /** No member takes a step of a proposal twice in the cut. */
  ghost predicate StepsTakenOnce(run: Run, cut: set<nat>) {
    forall i, j | i in cut && j in cut && i < |run| && j < |run| && run[i].author == run[j].author && SameStep(run[i], run[j]) :: i == j
  }

  /** No proposal's settlement transfer is published twice in the cut. */
  ghost predicate SinglePublisher(run: Run, cut: set<nat>) {
    forall i, j | i in cut && j in cut && i < |run| && j < |run| && run[i].act.Publish? && run[j].act.Publish?
                  && run[i].act.proposal.id == run[j].act.proposal.id :: i == j
  }

  /** Conflicts come from repeated steps alone: two different envelopes under one record id accept, acknowledge,
      attest or publish the same proposal, and all but publications are by one member. */
  lemma ConflictsAreRepeatedSteps(w: World, run: Run, i: nat, j: nat)
    requires ValidRun(w, run) && i < |run| && j < |run|
    requires EnvelopeAt(run, i).id == EnvelopeAt(run, j).id && EnvelopeAt(run, i) != EnvelopeAt(run, j)
    ensures i != j && SameStep(run[i], run[j]) && (run[i].author == run[j].author || run[i].act.Publish?)
  {
    hide ValidRun;
    SameRecordIdSameStep(w, run, i, j);
  }

  /** Two different members who publish one settlement conflict. */
  lemma TwoPublishersConflict(w: World, run: Run, i: nat, j: nat)
    requires ValidRun(w, run) && i < |run| && j < |run| && run[i].author != run[j].author
    requires run[i].act.Publish? && run[j].act.Publish? && run[i].act.proposal.id == run[j].act.proposal.id
    ensures EnvelopeAt(run, i).id == EnvelopeAt(run, j).id && EnvelopeAt(run, i) != EnvelopeAt(run, j)
  {
    hide ValidRun, SettlementTransferId, Ledger.CreateTransfer;
    RunIsWritten(w, run);
    PublishedTransfer(w, run, i);
    PublishedTransfer(w, run, j);
  }

  /** Every replica that holds the publications of one settlement by two members fails to resolve. */
  lemma DoublePublicationFails(w: World, run: Run, cut: set<nat>, i: nat, j: nat)
    requires ValidRun(w, run) && i in cut && j in cut && i < |run| && j < |run| && run[i].author != run[j].author
    requires run[i].act.Publish? && run[j].act.Publish? && run[i].act.proposal.id == run[j].act.proposal.id
    ensures ResolveRecords(w.platform, w.less, w.communityId, RecordsAt(run, cut)).Error?
  {
    hide ValidRun, ResolveRecords, EnvelopeAt;
    TwoPublishersConflict(w, run, i, j);
    ConflictFails(w, run, cut, i, j);
  }

  /** Where members take each step at most once, a cut resolves exactly when no settlement is published twice. */
  lemma CutResolvesIffPublishedOnce(w: World, run: Run, cut: set<nat>)
    requires ValidRun(w, run) && CausallyClosed(run, cut) && cut != {} && StepsTakenOnce(run, cut)
    ensures ResolveRecords(w.platform, w.less, w.communityId, RecordsAt(run, cut)).Ok? <==> SinglePublisher(run, cut)
  {
    hide ValidRun, ResolveRecords, EnvelopeAt;
    CutResolvesIffConflictFree(w, run, cut);
    forall i, j | i in cut && j in cut && i < |run| && j < |run|
                  && EnvelopeAt(run, i).id == EnvelopeAt(run, j).id && EnvelopeAt(run, i) != EnvelopeAt(run, j)
      ensures !SinglePublisher(run, cut)
    {
      ConflictsAreRepeatedSteps(w, run, i, j);
    }
    forall i, j | i in cut && j in cut && i < |run| && j < |run| && i != j && run[i].act.Publish? && run[j].act.Publish?
                  && run[i].act.proposal.id == run[j].act.proposal.id
      ensures EnvelopeAt(run, i).id == EnvelopeAt(run, j).id && EnvelopeAt(run, i) != EnvelopeAt(run, j)
    {
      TwoPublishersConflict(w, run, i, j);
    }
    SameCondition(run, cut);
  }

  lemma SameCondition(run: Run, cut: set<nat>)
    ensures ConflictFree(run, cut) <==> forall i, j | i in cut && j in cut && i < |run| && j < |run| ::
              EnvelopeAt(run, i).id == EnvelopeAt(run, j).id ==> EnvelopeAt(run, i) == EnvelopeAt(run, j)
  {
  }

  lemma SmallerCut(run: Run, cut: set<nat>, larger: set<nat>)
    requires cut <= larger && ConflictFree(run, larger)
    ensures ConflictFree(run, cut) && Extends(RecordsAt(run, cut), RecordsAt(run, larger))
  {
    RecordsAtSpec(run, cut);
    RecordsAtSpec(run, larger);
  }

  /** As a cut grows along a run, it goes on resolving, every proposal's confirmation and attestation status
      moves only forward, and nothing acknowledged or attested disappears. */
  lemma CutsMoveForward(w: World, run: Run, cut: set<nat>, larger: set<nat>)
    requires ValidRun(w, run) && CausallyClosed(run, cut) && CausallyClosed(run, larger)
    requires cut != {} && cut <= larger && ConflictFree(run, larger)
    ensures var s := ResolveRecords(w.platform, w.less, w.communityId, RecordsAt(run, cut));
            var u := ResolveRecords(w.platform, w.less, w.communityId, RecordsAt(run, larger));
            && s.Ok? && u.Ok?
            && ConfirmationsForward(s.value.confirmations, u.value.confirmations)
            && AttestationsForward(s.value.attestationStates, u.value.attestationStates)
  {
    hide ValidRun, CausallyClosed, ResolveRecords, ConflictFree, RecordsAt, Extends, ConfirmationsForward,
         AttestationsForward;
    SmallerCut(run, cut, larger);
    GoodCutResolves(w, run, cut);
    GoodCutResolves(w, run, larger);
    ProgressOnlyMovesForward(w.platform, w.less, w.communityId, RecordsAt(run, cut), RecordsAt(run, larger));
  }
}

/** What the resolver guarantees for every record history. */
module ResolveTheorems {
  import opened Core
  import opened Sorting
  import opened Reduction
  import opened Types
  import opened Identity
  import opened Settlement
  import opened Records
  import opened Resolve
  import opened IdentityTheorems
  import Ledger
  import LedgerTheorems
  import LedgerBounds

  // ---- convergence ----------------------------------------------------------------------------

  lemma EnvelopeOrderTotal(less: (string, string) -> bool, envelopes: seq<Envelope>)
    requires StrictTotalOrder(less) && KeysDistinct(envelopes, EnvelopeId)
    ensures TotalOn(EnvelopeOrder(less), envelopes)
  {
    forall a, b | a in envelopes && b in envelopes && a != b
      ensures EnvelopeOrder(less)(a, b) || EnvelopeOrder(less)(b, a)
    {
      if EnvelopeId(a) == EnvelopeId(b) { SameKeySameValue(envelopes, EnvelopeId, a, b); }
    }
  }

  lemma SameRecordsSameEnvelopes(xs: seq<Record>, ys: seq<Record>)
    requires Elems(xs) == Elems(ys)
    ensures Elems(Map(xs, EnvelopeOf)) == Elems(Map(ys, EnvelopeOf))
  {
    forall e
      ensures e in Map(xs, EnvelopeOf) <==> e in Map(ys, EnvelopeOf)
    {
      if e in Map(xs, EnvelopeOf) {
        MapMember(xs, EnvelopeOf, e);
        var r :| r in xs && EnvelopeOf(r) == e;
        assert r in Elems(ys);
        MemberMap(ys, EnvelopeOf, r);
      }
      if e in Map(ys, EnvelopeOf) {
        MapMember(ys, EnvelopeOf, e);
        var r :| r in ys && EnvelopeOf(r) == e;
        assert r in Elems(xs);
        MemberMap(xs, EnvelopeOf, r);
      }
    }
  }

  lemma CommunityEnvelopesConverge(platform: Platform, less: (string, string) -> bool, communityId: string,
                                   xs: seq<Record>, ys: seq<Record>)
    requires StrictTotalOrder(less) && Elems(xs) == Elems(ys)
    ensures CommunityEnvelopes(platform, less, communityId, xs) == CommunityEnvelopes(platform, less, communityId, ys)
  {
    var decode := NormalizeEnvelope(platform);
    var ex, ey := Map(xs, EnvelopeOf), Map(ys, EnvelopeOf);
    SameRecordsSameEnvelopes(xs, ys);
    SameElementsSameContent(ex, ey, decode);
    DedupeSpec(ex, decode, EnvelopeId);
    if Dedupe(ex, decode, EnvelopeId).Ok? {
      EnvelopeOrderTotal(less, Dedupe(ex, decode, EnvelopeId).value);
    }
    ReduceConverges(EnvelopeOrder(less), ex, ey, decode, EnvelopeId);
  }

  /** Replica convergence: two deliveries of the same records, in any order and with any repetition,
      resolve to the same whole state, or both fail. */
  lemma ReplicasConverge(platform: Platform, less: (string, string) -> bool, communityId: string,
                         xs: seq<Record>, ys: seq<Record>)
    requires StrictTotalOrder(less) && Elems(xs) == Elems(ys)
    ensures ResolveRecords(platform, less, communityId, xs) == ResolveRecords(platform, less, communityId, ys)
  {
    hide Present, CommunityEnvelopes, ResolveAuthorizations, AllMemberSigned, ResolveValues;
    CommunityEnvelopesConverge(platform, less, communityId, xs, ys);
    var mine := CommunityEnvelopes(platform, less, communityId, xs);
    if mine.Ok? {
      var auths := ResolveAuthorizations(platform, less, mine.value);
      if auths.Ok? {
        SignedSetwise(platform, communityId, auths.value, xs, ys);
      }
    }
  }

  lemma SignedSetwise(platform: Platform, communityId: string, auths: seq<Authorization>, xs: seq<Record>, ys: seq<Record>)
    requires Elems(xs) == Elems(ys)
    ensures AllMemberSigned(platform, communityId, auths, xs) <==> AllMemberSigned(platform, communityId, auths, ys)
  {
    hide MemberSigned;
    assert forall r :: r in xs <==> r in Elems(xs);
    assert forall r :: r in ys <==> r in Elems(ys);
  }

  // ---- what a resolved state holds -------------------------------------------------------------

  /** Some record of this kind in the community carries the value. */
  ghost predicate Carried<T>(records: seq<Record>, communityId: string, kind: Kind, decode: Envelope -> Result<T>, v: T) {
    exists r :: r in records && r.envelope.communityId == communityId && r.envelope.kind == kind
                && decode(r.envelope) == Ok(v)
  }

  /** The community's envelopes are those of the delivered records. */
  lemma CommunityEnvelopesSpec(platform: Platform, less: (string, string) -> bool, communityId: string,
                               records: seq<Record>)
    requires CommunityEnvelopes(platform, less, communityId, records).Ok?
    ensures var mine := CommunityEnvelopes(platform, less, communityId, records).value;
            && (forall r | r in records && r.envelope.communityId == communityId :: r.envelope in mine)
            && (forall e | e in mine :: e.communityId == communityId && exists r :: r in records && r.envelope == e)
  {
    var decode := NormalizeEnvelope(platform);
    var delivered := Map(records, EnvelopeOf);
    ReduceSpec(EnvelopeOrder(less), delivered, decode, EnvelopeId);
    var envelopes := Reduce(EnvelopeOrder(less), delivered, decode, EnvelopeId).value;
    forall r | r in records
      ensures r.envelope in envelopes
    {
      MemberMap(records, EnvelopeOf, r);
      assert decode(EnvelopeOf(r)).Ok?;
    }
    forall e | e in envelopes
      ensures exists r :: r in records && r.envelope == e
    {
      var d :| d in delivered && decode(d) == Ok(e);
      MapMember(records, EnvelopeOf, d);
      var r :| r in records && EnvelopeOf(r) == d;
      assert r.envelope == e;
    }
  }

  /** A reducer holds exactly the values that the records of its kind carry, one per id. */
  lemma ReducedValuesSpec<T(!new)>(
    platform: Platform, less: (string, string) -> bool, communityId: string, records: seq<Record>, kind: Kind,
    decode: Envelope -> Result<T>, communityOf: T -> string, id: T -> string)
    requires CommunityEnvelopes(platform, less, communityId, records).Ok?
    requires var mine := CommunityEnvelopes(platform, less, communityId, records).value;
             ReduceValues(less, communityId, OfKind(mine, kind), decode, communityOf, id).Ok?
    ensures var mine := CommunityEnvelopes(platform, less, communityId, records).value;
            var values := ReduceValues(less, communityId, OfKind(mine, kind), decode, communityOf, id).value;
            && KeysDistinct(values, id)
            && (forall v :: v in values <==> Carried(records, communityId, kind, decode, v))
            && (forall v | v in values :: communityOf(v) == communityId)
            && Present(communityId)
  {
    hide CommunityEnvelopes, Reduce, Present, Scoped, OfKind, Carried, KeysDistinct;
    var mine := CommunityEnvelopes(platform, less, communityId, records).value;
    var chosen, scoped := OfKind(mine, kind), Scoped(decode, communityOf, communityId);
    CommunityEnvelopesSpec(platform, less, communityId, records);
    ReduceSpec(OrderedBy(less, id), chosen, scoped, id);
    var values := ReduceValues(less, communityId, chosen, decode, communityOf, id).value;
    forall v
      ensures v in values <==> Carried(records, communityId, kind, decode, v)
      ensures v in values ==> communityOf(v) == communityId
    {
      if v in values {
        var e :| e in chosen && scoped(e) == Ok(v);
        ScopedIsCarried(records, communityId, mine, kind, decode, communityOf, e, v);
      }
      if Carried(records, communityId, kind, decode, v) {
        var e := CarriedIsScoped(records, communityId, mine, kind, decode, communityOf, v);
        assert scoped(e).Ok? ==> scoped(e).value in values;
      }
    }
  }

  lemma ScopedIsCarried<T(!new)>(records: seq<Record>, communityId: string, mine: seq<Envelope>, kind: Kind,
                                 decode: Envelope -> Result<T>, communityOf: T -> string, e: Envelope, v: T)
    requires forall f | f in mine :: f.communityId == communityId && exists r :: r in records && r.envelope == f
    requires e in OfKind(mine, kind) && Scoped(decode, communityOf, communityId)(e) == Ok(v)
    ensures Carried(records, communityId, kind, decode, v) && communityOf(v) == communityId
  {
    var r :| r in records && r.envelope == e;
    assert decode(r.envelope) == Ok(v);
  }

  lemma CarriedIsScoped<T(!new)>(records: seq<Record>, communityId: string, mine: seq<Envelope>, kind: Kind,
                                 decode: Envelope -> Result<T>, communityOf: T -> string, v: T) returns (e: Envelope)
    requires forall r | r in records && r.envelope.communityId == communityId :: r.envelope in mine
    requires Carried(records, communityId, kind, decode, v)
    ensures e in OfKind(mine, kind)
    ensures Scoped(decode, communityOf, communityId)(e).Ok? ==> Scoped(decode, communityOf, communityId)(e) == Ok(v)
  {
    var r :| r in records && r.envelope.communityId == communityId && r.envelope.kind == kind && decode(r.envelope) == Ok(v);
    e := r.envelope;
  }

  /** The values of the exchange protocol that the records of a community carry. */
  ghost predicate HoldsExchange(platform: Platform, communityId: string, records: seq<Record>, x: Exchange) {
    && (forall p :: p in x.proposed <==> Carried(records, communityId, ProposedProposalKind, DecodingProposed(platform), p))
    && (forall p :: p in x.accepted <==> Carried(records, communityId, AcceptedProposalKind, DecodingAccepted(platform), p))
    && (forall a :: a in x.acks <==> Carried(records, communityId, AcknowledgementKind, DecodingAcknowledgements(platform), a))
    && (forall s :: s in x.attestations <==> Carried(records, communityId, AttestationKind, DecodingAttestations(platform), s))
    && (forall t :: t in x.transfers <==> Carried(records, communityId, TransferKind, DecodingTransfers(platform), t))
    && KeysDistinct(x.accepted, ProposalId) && KeysDistinct(x.transfers, Ledger.TransferId)
    && (forall t | t in x.transfers :: t.terms.communityId == communityId)
  }

  /** The exchange of a resolved state holds exactly what the records carry. */
  lemma ExchangeHoldsRecords(platform: Platform, less: (string, string) -> bool, communityId: string, records: seq<Record>,
                             x: Exchange)
    requires CommunityEnvelopes(platform, less, communityId, records).Ok?
    requires ReducedExchange(platform, less, communityId, CommunityEnvelopes(platform, less, communityId, records).value) == Ok(x)
    ensures HoldsExchange(platform, communityId, records, x)
    ensures Present(communityId)
  {
    hide Present, CommunityEnvelopes, ReduceValues, Carried, DecodingProposed, DecodingAccepted,
         DecodingAcknowledgements, DecodingAttestations, DecodingTransfers;
    ReducedValuesSpec(platform, less, communityId, records, ProposedProposalKind, DecodingProposed(platform), ProposalCommunity, ProposalId);
    ReducedValuesSpec(platform, less, communityId, records, AcceptedProposalKind, DecodingAccepted(platform), ProposalCommunity, ProposalId);
    ReducedValuesSpec(platform, less, communityId, records, AcknowledgementKind, DecodingAcknowledgements(platform), AckCommunity, AckId);
    ReducedValuesSpec(platform, less, communityId, records, AttestationKind, DecodingAttestations(platform), AttestationCommunity, AttestationId);
    ReducedValuesSpec(platform, less, communityId, records, TransferKind, DecodingTransfers(platform), TransferCommunity, Ledger.TransferId);
  }

  /** The stages behind a resolved state. */
  lemma ResolvedStages(platform: Platform, less: (string, string) -> bool, communityId: string, records: seq<Record>)
    returns (x: Exchange)
    requires ResolveRecords(platform, less, communityId, records).Ok?
    ensures CommunityEnvelopes(platform, less, communityId, records).Ok?
    ensures var s, mine := ResolveRecords(platform, less, communityId, records).value,
                           CommunityEnvelopes(platform, less, communityId, records).value;
            && ReducedExchange(platform, less, communityId, mine) == Ok(x)
            && s.communityId == communityId
            && x == Exchange(s.proposed, s.accepted, s.acknowledgements, s.transfers, x.attestations)
            && ResolveAuthorizations(platform, less, mine) == Ok(s.authorizations)
            && AllMemberSigned(platform, communityId, s.authorizations, records)
            && ResolveProgress(platform, less, s.authorizations, x) == Ok(Progress(s.confirmations, s.attestationStates))
            && ResolveLedger(platform, less, communityId, s.authorizations, s.transfers) == Ok(s.ledger)
    ensures HoldsExchange(platform, communityId, records, x)
    ensures Present(communityId)
  {
    hide Present, CommunityEnvelopes, ResolveAuthorizations, AllMemberSigned, ResolveListings, ReducedExchange,
         ResolveProgress, ResolveLedger, HoldsExchange;
    x := ReducedExchange(platform, less, communityId, CommunityEnvelopes(platform, less, communityId, records).value).value;
    ExchangeHoldsRecords(platform, less, communityId, records, x);
  }

  // ---- settlement safety ----------------------------------------------------------------------

  /** The signature verifies under a key that is authorized and active for the member. */
  ghost predicate VerifiesUnderActiveKey(platform: Platform, auths: seq<Authorization>, communityId: string,
                                         a: Attestation, content: SignedContent)
  {
    exists k :: k in auths && k.active && ScopeOf(k) == Scope(communityId, a.memberId, a.keyId)
                && platform.verifies(content, k.publicKeyPem, a.signature)
  }

  lemma {:induction false} ActiveKeysAreAuthorized(auths: seq<Authorization>, scope: Scope)
    requires scope in ActiveKeys(auths)
    ensures exists k :: k in auths && k.active && ScopeOf(k) == scope && k.publicKeyPem == ActiveKeys(auths)[scope]
  {
    var front, last := auths[..|auths| - 1], auths[|auths| - 1];
    FrontLast(auths);
    if last.active && ScopeOf(last) == scope {
      assert last in auths;
    } else {
      ActiveKeysAreAuthorized(front, scope);
      var k :| k in front && k.active && ScopeOf(k) == scope && k.publicKeyPem == ActiveKeys(front)[scope];
      assert k in auths;
    }
  }

  lemma VerifiedByAuthorizedKey(platform: Platform, auths: seq<Authorization>, t: Transfer, a: Attestation)
    requires KeyIndex(platform, auths).Ok? && AttestationVerifies(platform, KeyIndex(platform, auths).value, t, a)
    ensures VerifiesUnderActiveKey(platform, auths, t.terms.communityId, a, TransferContent(t.terms))
  {
    ActiveKeysAreAuthorized(auths, Scope(t.terms.communityId, a.memberId, a.keyId));
  }

  /** The transfer is the settlement of this proposal: its terms are the proposal's, both participants
      have acknowledged, and both have attested the terms under active keys. */
  ghost predicate SettlesProposal(platform: Platform, auths: seq<Authorization>, acks: seq<Acknowledgement>, t: Transfer,
                                  p: Proposal) {
    && t.terms == SettlementTerms(p) && IsAccepted(p)
    && AcknowledgedBy(AcksFor(acks, p.id), p.provider) && AcknowledgedBy(AcksFor(acks, p.id), p.receiver)
    && (forall a | a in AcksFor(acks, p.id) :: ValidAcknowledgement(p, a))
    && |t.attestations| == 2
    && t.attestations[0].memberId == p.provider && t.attestations[1].memberId == p.receiver
    && (forall a | a in t.attestations :: VerifiesUnderActiveKey(platform, auths, p.communityId, a, TransferContent(t.terms)))
  }

  lemma ResolvedTransferSettles(platform: Platform, less: (string, string) -> bool, auths: seq<Authorization>,
                                accepted: seq<Proposal>, acks: seq<Acknowledgement>, t: Transfer)
    requires TransferResolves(platform, less, auths, accepted, acks, t) && t.terms.reverses.None?
    requires Ledger.CreateTransfer(t) == Ok(t)
    ensures exists p :: p in accepted && t.terms.sourceProposalId == Some(p.id) && SettlesProposal(platform, auths, acks, t, p)
  {
    var p := Lookup(accepted, ProposalId, if t.terms.sourceProposalId.Some? then t.terms.sourceProposalId.value else "").value;
    ConfirmSpec(less, p, AcksFor(acks, p.id));
    forall a | a in t.attestations
      ensures VerifiesUnderActiveKey(platform, auths, p.communityId, a, TransferContent(t.terms))
    {
      VerifiedByAuthorizedKey(platform, auths, t, a);
    }
    assert t.terms == SettlementTerms(p);
    assert SettlesProposal(platform, auths, acks, t, p);
  }

  lemma ReducedTransfersNormal(platform: Platform, communityId: string, records: seq<Record>, t: Transfer)
    requires Carried(records, communityId, TransferKind, DecodingTransfers(platform), t)
    ensures Ledger.CreateTransfer(t) == Ok(t)
  {
    var r :| r in records && r.envelope.communityId == communityId && r.envelope.kind == TransferKind
             && DecodingTransfers(platform)(r.envelope) == Ok(t);
    Ledger.CreateTransferIdempotent(r.envelope.payload.transfer);
  }

  /** Only replicated transfers reach the ledger. */
  lemma LedgerHoldsTransfers(platform: Platform, less: (string, string) -> bool, communityId: string,
                             records: seq<Record>, auths: seq<Authorization>, x: Exchange)
    requires HoldsExchange(platform, communityId, records, x)
    requires ResolveLedger(platform, less, communityId, auths, x.transfers).Ok?
    ensures forall t | t in ResolveLedger(platform, less, communityId, auths, x.transfers).value.transfers ::
              t in x.transfers && Ledger.CreateTransfer(t) == Ok(t)
  {
    hide Present, KeyIndex, Carried, TransferVerifier, Ledger.CreateTransfer, Ledger.BookOf;
    var verify := TransferVerifier(platform, KeyIndex(platform, auths).value);
    LedgerBounds.AdmittedFacts(less, communityId, x.transfers, verify);
    LedgerBounds.ViewTransfers(less, communityId, x.transfers, verify);
    LedgerTheorems.BookSound(Ledger.Admitted(less, communityId, x.transfers, verify).value);
    forall t | t in ResolveLedger(platform, less, communityId, auths, x.transfers).value.transfers
      ensures t in x.transfers && Ledger.CreateTransfer(t) == Ok(t)
    {
      var u :| u in x.transfers && Ledger.CreateTransfer(u) == Ok(t);
      ReducedTransfersNormal(platform, communityId, records, u);
    }
  }

  /** Settlement safety: every ordinary transfer in the resolved ledger settles one accepted proposal of
      the resolved state, with that proposal's terms and deterministic id, acknowledged and attested by
      both participants under active keys. */
  lemma LedgerSettlesAcceptedProposals(platform: Platform, less: (string, string) -> bool, communityId: string,
                                       records: seq<Record>, t: Transfer)
    requires ResolveRecords(platform, less, communityId, records).Ok?
    requires t in ResolveRecords(platform, less, communityId, records).value.ledger.transfers && t.terms.reverses.None?
    ensures var s := ResolveRecords(platform, less, communityId, records).value;
            && t in s.transfers
            && exists p :: p in s.accepted && t.terms.sourceProposalId == Some(p.id)
                        && SettlesProposal(platform, s.authorizations, s.acknowledgements, t, p)
  {
    hide Present, ResolveRecords, HoldsExchange, ResolveLedger, TransferResolves, SettlesProposal, CommunityEnvelopes,
         ResolveAuthorizations, AllMemberSigned, ReducedExchange, Ledger.CreateTransfer;
    var s := ResolveRecords(platform, less, communityId, records).value;
    var x := ResolvedStages(platform, less, communityId, records);
    LedgerHoldsTransfers(platform, less, communityId, records, s.authorizations, x);
    ResolvedTransferSettles(platform, less, s.authorizations, s.accepted, s.acknowledgements, t);
  }

  /** No proposal settles twice: two ordinary transfers of the ledger that name one proposal are equal. */
  lemma ProposalSettlesOnce(platform: Platform, less: (string, string) -> bool, communityId: string,
                            records: seq<Record>, t: Transfer, u: Transfer)
    requires ResolveRecords(platform, less, communityId, records).Ok?
    requires var ts := ResolveRecords(platform, less, communityId, records).value.ledger.transfers; t in ts && u in ts
    requires t.terms.reverses.None? && u.terms.reverses.None?
    requires t.terms.sourceProposalId == u.terms.sourceProposalId
    ensures t == u
  {
    hide Present, ResolveRecords, ResolveLedger, CommunityEnvelopes, Carried,
         ResolveAuthorizations, AllMemberSigned, ReducedExchange, ResolveProgress;
    var s := ResolveRecords(platform, less, communityId, records).value;
    var x := ResolvedStages(platform, less, communityId, records);
    LedgerSettlesAcceptedProposals(platform, less, communityId, records, t);
    LedgerSettlesAcceptedProposals(platform, less, communityId, records, u);
    var p :| p in s.accepted && t.terms.sourceProposalId == Some(p.id)
             && SettlesProposal(platform, s.authorizations, s.acknowledgements, t, p);
    var q :| q in s.accepted && u.terms.sourceProposalId == Some(q.id)
             && SettlesProposal(platform, s.authorizations, s.acknowledgements, u, q);
    SameKeySameValue(s.accepted, ProposalId, p, q);
    assert Ledger.TransferId(t) == Ledger.TransferId(u);
    SameKeySameValue(s.transfers, Ledger.TransferId, t, u);
  }

  // ---- the ledger's own checks behind the resolver -----------------------------------------------

  /** Transfers that passed the resolver's checks. */
  ghost predicate Checked(platform: Platform, less: (string, string) -> bool, communityId: string,
                          auths: seq<Authorization>,
                          accepted: seq<Proposal>, acks: seq<Acknowledgement>, transfers: seq<Transfer>)
  {
    && KeysDistinct(accepted, ProposalId) && KeysDistinct(transfers, Ledger.TransferId)
    && (forall t | t in transfers :: TransferResolves(platform, less, auths, accepted, acks, t))
    && (forall t | t in transfers :: Ledger.CreateTransfer(t) == Ok(t) && t.terms.communityId == communityId)
  }

  lemma SameSourceSameTransfer(platform: Platform, less: (string, string) -> bool, communityId: string,
                               auths: seq<Authorization>,
                               accepted: seq<Proposal>, acks: seq<Acknowledgement>, transfers: seq<Transfer>, t: Transfer, u: Transfer)
    requires Checked(platform, less, communityId, auths, accepted, acks, transfers) && t in transfers && u in transfers
    requires t.terms.reverses.None? && u.terms.reverses.None?
    ensures t.terms.sourceProposalId.Some?
    ensures t.terms.sourceProposalId == u.terms.sourceProposalId ==> t == u
  {
    ResolvedTransferSettles(platform, less, auths, accepted, acks, t);
    ResolvedTransferSettles(platform, less, auths, accepted, acks, u);
    var p :| p in accepted && t.terms.sourceProposalId == Some(p.id) && SettlesProposal(platform, auths, acks, t, p);
    var q :| q in accepted && u.terms.sourceProposalId == Some(q.id) && SettlesProposal(platform, auths, acks, u, q);
    if p.id == q.id {
      SameKeySameValue(accepted, ProposalId, p, q);
      assert Ledger.TransferId(t) == Ledger.TransferId(u);
      SameKeySameValue(transfers, Ledger.TransferId, t, u);
    }
  }

  /** Checked transfers name each proposal at most once, however the ledger verifies them. */
  lemma CheckedTransfersSettleOnce(
    platform: Platform, less: (string, string) -> bool, communityId: string, auths: seq<Authorization>,
    accepted: seq<Proposal>, acks: seq<Acknowledgement>, transfers: seq<Transfer>, verify: Ledger.Verifier)
    requires Checked(platform, less, communityId, auths, accepted, acks, transfers)
    ensures var deduped := Reduce(Ledger.ById(less), transfers, Ledger.Admit(communityId, verify), Ledger.TransferId);
            deduped.Ok? ==> Ledger.UniqueSettlements(deduped.value)
  {
    hide Present, TransferResolves, Reduce, Ledger.AdmitTransfer, Ledger.CreateTransfer;
    var deduped := Reduce(Ledger.ById(less), transfers, Ledger.Admit(communityId, verify), Ledger.TransferId);
    if deduped.Ok? {
      var ts := deduped.value;
      AdmittedAreTransfers(less, communityId, transfers, verify);
      forall t, u | t in ts && u in ts && !Ledger.IsReversal(t) && !Ledger.IsReversal(u)
        ensures t.terms.sourceProposalId.Some?
        ensures t.terms.sourceProposalId == u.terms.sourceProposalId ==> t == u
      {
        SameSourceSameTransfer(platform, less, communityId, auths, accepted, acks, transfers, t, u);
      }
      assert forall i | 0 <= i < |ts| :: ts[i] in ts;
    }
  }

  /** On every history that passes the resolver's checks before the ledger, the ledger's own check that a proposal
      settles once cannot fire. */
  lemma DuplicateSettlementCheckNeverFires(
    platform: Platform, less: (string, string) -> bool, communityId: string, records: seq<Record>,
    auths: seq<Authorization>, x: Exchange, verify: Ledger.Verifier)
    requires CommunityEnvelopes(platform, less, communityId, records).Ok?
    requires ReducedExchange(platform, less, communityId, CommunityEnvelopes(platform, less, communityId, records).value) == Ok(x)
    requires ExchangeFits(platform, less, auths, x)
    ensures var deduped := Reduce(Ledger.ById(less), x.transfers, Ledger.Admit(communityId, verify), Ledger.TransferId);
            deduped.Ok? ==> Ledger.UniqueSettlements(deduped.value)
  {
    hide Present, CommunityEnvelopes, ReducedExchange, Reduce, Ledger.Admit, Ledger.CreateTransfer, TransferResolves,
         AttestationResolves, AcknowledgementResolves, PreservesTerms, Carried, Ledger.UniqueSettlements;
    ExchangeHoldsRecords(platform, less, communityId, records, x);
    forall t | t in x.transfers
      ensures Ledger.CreateTransfer(t) == Ok(t)
    {
      ReducedTransfersNormal(platform, communityId, records, t);
    }
    CheckedTransfersSettleOnce(platform, less, communityId, auths, x.accepted, x.acks, x.transfers, verify);
  }

  /** Every ordinary transfer of a resolved state reaches its ledger, or is rejected there at the floor. */
  lemma ResolvedTransferIsDecided(platform: Platform, less: (string, string) -> bool, communityId: string,
                                  records: seq<Record>, t: Transfer)
    requires ResolveRecords(platform, less, communityId, records).Ok?
    requires t in ResolveRecords(platform, less, communityId, records).value.transfers && t.terms.reverses.None?
    ensures var ledger := ResolveRecords(platform, less, communityId, records).value.ledger;
            t in ledger.transfers <==> Ledger.Rejection(t, Ledger.MinimumBalance) !in ledger.rejected
  {
    hide Present, ResolveRecords, CommunityEnvelopes, KeyIndex, Carried, TransferVerifier, Ledger.CreateTransfer,
         Ledger.DeriveLedger, ReducedExchange, ResolveProgress, ResolveAuthorizations, AllMemberSigned;
    var x := ResolvedStages(platform, less, communityId, records);
    ReducedTransfersNormal(platform, communityId, records, t);
    var s := ResolveRecords(platform, less, communityId, records).value;
    var verify := TransferVerifier(platform, KeyIndex(platform, s.authorizations).value);
    LedgerBounds.SettlementDecided(less, communityId, s.transfers, verify, t);
  }

  /** A settlement that is the only transfer of a resolved state reaches the ledger up to fifty hours. */
  lemma LoneTransferIsDecided(platform: Platform, less: (string, string) -> bool, communityId: string,
                              records: seq<Record>, t: Transfer)
    requires ResolveRecords(platform, less, communityId, records).Ok?
    requires var ts := ResolveRecords(platform, less, communityId, records).value.transfers;
             t in ts && forall u | u in ts :: u == t
    requires t.terms.reverses.None?
    ensures t in ResolveRecords(platform, less, communityId, records).value.ledger.transfers <==> t.terms.minutes <= 3000
  {
    hide Present, ResolveRecords, CommunityEnvelopes, KeyIndex, Carried, TransferVerifier, Ledger.CreateTransfer,
         Ledger.DeriveLedger, ReducedExchange, ResolveProgress, ResolveAuthorizations, AllMemberSigned;
    var x := ResolvedStages(platform, less, communityId, records);
    ReducedTransfersNormal(platform, communityId, records, t);
    var s := ResolveRecords(platform, less, communityId, records).value;
    var verify := TransferVerifier(platform, KeyIndex(platform, s.authorizations).value);
    LedgerBounds.LoneSettlement(less, communityId, s.transfers, verify, t);
  }

  lemma AdmittedAreTransfers(less: (string, string) -> bool, communityId: string, transfers: seq<Transfer>,
                             verify: Ledger.Verifier)
    requires forall t | t in transfers :: Ledger.CreateTransfer(t) == Ok(t)
    requires Reduce(Ledger.ById(less), transfers, Ledger.Admit(communityId, verify), Ledger.TransferId).Ok?
    ensures var ts := Reduce(Ledger.ById(less), transfers, Ledger.Admit(communityId, verify), Ledger.TransferId).value;
            (forall t | t in ts :: t in transfers) && NoDuplicates(ts)
  {
    hide Present, Ledger.CreateTransfer;
    var admit := Ledger.Admit(communityId, verify);
    ReduceSpec(Ledger.ById(less), transfers, admit, Ledger.TransferId);
    var ts := Reduce(Ledger.ById(less), transfers, admit, Ledger.TransferId).value;
    forall t | t in ts
      ensures t in transfers
    {
      var x :| x in transfers && admit(x) == Ok(t);
    }
  }

  /** Without reversals, checked transfers always derive a ledger. */
  lemma SettlementsDeriveLedger(
    platform: Platform, less: (string, string) -> bool, communityId: string, auths: seq<Authorization>,
    accepted: seq<Proposal>, acks: seq<Acknowledgement>, transfers: seq<Transfer>)
    requires Present(communityId) && KeyIndex(platform, auths).Ok?
    requires Checked(platform, less, communityId, auths, accepted, acks, transfers)
    requires forall t | t in transfers :: t.terms.reverses.None?
    ensures ResolveLedger(platform, less, communityId, auths, transfers).Ok?
  {
    var verify := TransferVerifier(platform, KeyIndex(platform, auths).value);
    var admit := Ledger.Admit(communityId, verify);
    forall t | t in transfers
      ensures admit(t) == Ok(t)
    {
      assert TransferResolves(platform, less, auths, accepted, acks, t);
    }
    assert Coherent(transfers, admit, Ledger.TransferId) by {
      forall d, e | d in transfers && e in transfers && Ledger.TransferId(d) == Ledger.TransferId(e)
        ensures d == e
      {
        SameKeySameValue(transfers, Ledger.TransferId, d, e);
      }
    }
    ReduceSpec(Ledger.ById(less), transfers, admit, Ledger.TransferId);
    CheckedTransfersSettleOnce(platform, less, communityId, auths, accepted, acks, transfers, verify);
    var ts := Reduce(Ledger.ById(less), transfers, admit, Ledger.TransferId).value;
    forall t | t in ts
      ensures Ledger.ReversalIsValid(t, ts)
    {
      var x :| x in transfers && admit(x) == Ok(t);
    }
  }

  // ---- progress only moves forward ---------------------------------------------------------------

  ghost predicate Extends(xs: seq<Record>, ys: seq<Record>) {
    forall r | r in xs :: r in ys
  }

  lemma CarriedForward<T>(xs: seq<Record>, ys: seq<Record>, communityId: string, kind: Kind, decode: Envelope -> Result<T>,
                          v: T)
    requires Extends(xs, ys) && Carried(xs, communityId, kind, decode, v)
    ensures Carried(ys, communityId, kind, decode, v)
  {
    var r :| r in xs && r.envelope.communityId == communityId && r.envelope.kind == kind && decode(r.envelope) == Ok(v);
    assert r in ys;
  }

  lemma ExchangeGrows(platform: Platform, communityId: string, xs: seq<Record>, ys: seq<Record>, x: Exchange, y: Exchange)
    requires Extends(xs, ys) && HoldsExchange(platform, communityId, xs, x) && HoldsExchange(platform, communityId, ys, y)
    ensures forall p | p in x.accepted :: p in y.accepted
    ensures forall a | a in x.acks :: a in y.acks
    ensures forall s | s in x.attestations :: s in y.attestations
    ensures forall t | t in x.transfers :: t in y.transfers
  {
    hide Carried, Extends, DecodingProposed, DecodingAccepted, DecodingAcknowledgements, DecodingAttestations,
         DecodingTransfers;
    forall p | p in x.accepted
      ensures p in y.accepted
    {
      CarriedForward(xs, ys, communityId, AcceptedProposalKind, DecodingAccepted(platform), p);
    }
    forall a | a in x.acks
      ensures a in y.acks
    {
      CarriedForward(xs, ys, communityId, AcknowledgementKind, DecodingAcknowledgements(platform), a);
    }
    forall s | s in x.attestations
      ensures s in y.attestations
    {
      CarriedForward(xs, ys, communityId, AttestationKind, DecodingAttestations(platform), s);
    }
    forall t | t in x.transfers
      ensures t in y.transfers
    {
      CarriedForward(xs, ys, communityId, TransferKind, DecodingTransfers(platform), t);
    }
  }

  function Rank(status: AttestationStatus): nat {
    match status
    case AwaitingConfirmation => 0
    case AwaitingAttestations => 1
    case DualAttested => 2
  }

  lemma HavingMember<T>(values: seq<T>, key: T -> string, k: string, v: T)
    ensures v in Having(values, key, k) <==> v in values && key(v) == k
  {
  }

  lemma ConfirmationForward(less: (string, string) -> bool, p: Proposal, acks: seq<Acknowledgement>,
                            more: seq<Acknowledgement>)
    requires forall a | a in acks :: a in more
    requires Confirm(less, p, AcksFor(acks, p.id)).Ok? && Confirm(less, p, AcksFor(more, p.id)).Ok?
    ensures var c, d := Confirm(less, p, AcksFor(acks, p.id)).value, Confirm(less, p, AcksFor(more, p.id)).value;
            && d.proposalId == c.proposalId && (c.dualConfirmed ==> d.dualConfirmed)
            && (forall a | a in c.acknowledgements :: a in d.acknowledgements)
  {
    ConfirmSpec(less, p, AcksFor(acks, p.id));
    ConfirmSpec(less, p, AcksFor(more, p.id));
    forall a | a in AcksFor(acks, p.id)
      ensures a in AcksFor(more, p.id)
    {
      HavingMember(acks, AckProposal, p.id, a);
      HavingMember(more, AckProposal, p.id, a);
    }
  }

  lemma AttestationForward(platform: Platform, less: (string, string) -> bool, p: Proposal,
                           acks: seq<Acknowledgement>, moreAcks: seq<Acknowledgement>,
                           attestations: seq<SettlementAttestation>, more: seq<SettlementAttestation>)
    requires forall a | a in acks :: a in moreAcks
    requires forall s | s in attestations :: s in more
    requires Attest(platform, less, p, acks, attestations).Ok? && Attest(platform, less, p, moreAcks, more).Ok?
    ensures var s, u := Attest(platform, less, p, acks, attestations).value, Attest(platform, less, p, moreAcks, more).value;
            && u.proposalId == s.proposalId && Rank(s.status) <= Rank(u.status)
            && (forall a | a in s.attestations :: a in u.attestations)
  {
    AttestSpec(platform, less, p, acks, attestations);
    AttestSpec(platform, less, p, moreAcks, more);
  }

  /** Every confirmation has a successor that is at least as far. */
  ghost predicate ConfirmationsForward(before: seq<Confirmation>, after: seq<Confirmation>) {
    forall c | c in before ::
      exists d ::
        && d in after && d.proposalId == c.proposalId
        && (c.dualConfirmed ==> d.dualConfirmed)
        && forall a | a in c.acknowledgements :: a in d.acknowledgements
  }

  /** Every attestation state has a successor that is at least as far. */
  ghost predicate AttestationsForward(before: seq<AttestationState>, after: seq<AttestationState>) {
    forall c | c in before ::
      exists d ::
        && d in after && d.proposalId == c.proposalId
        && Rank(c.status) <= Rank(d.status)
        && forall a | a in c.attestations :: a in d.attestations
  }

  lemma ConfirmationsMove(less: (string, string) -> bool, x: Exchange, y: Exchange, before: seq<Confirmation>,
                          after: seq<Confirmation>)
    requires Traverse(x.accepted, Confirming(less, x.acks)) == Ok(before)
    requires Traverse(y.accepted, Confirming(less, y.acks)) == Ok(after)
    requires (forall p | p in x.accepted :: p in y.accepted) && (forall a | a in x.acks :: a in y.acks)
    ensures ConfirmationsForward(before, after)
  {
    hide Traverse, Confirm;
    forall c | c in before
      ensures exists d ::
        && d in after && d.proposalId == c.proposalId
        && (c.dualConfirmed ==> d.dualConfirmed)
        && forall a | a in c.acknowledgements :: a in d.acknowledgements
    {
      var i :| 0 <= i < |before| && before[i] == c;
      var p := x.accepted[i];
      assert p in y.accepted && Confirming(less, x.acks)(p) == Ok(c);
      var j :| 0 <= j < |y.accepted| && y.accepted[j] == p;
      assert Confirming(less, y.acks)(p) == Ok(after[j]);
      ConfirmationForward(less, p, x.acks, y.acks);
      assert after[j] in after;
    }
  }

  lemma SelectionsGrow<T>(xs: seq<T>, ys: seq<T>, key: T -> string, k: string)
    requires forall v | v in xs :: v in ys
    ensures forall v | v in Having(xs, key, k) :: v in Having(ys, key, k)
  {
    forall v | v in Having(xs, key, k)
      ensures v in Having(ys, key, k)
    {
      HavingMember(xs, key, k, v);
      HavingMember(ys, key, k, v);
    }
  }

  lemma AttestationsMove(platform: Platform, less: (string, string) -> bool, x: Exchange, y: Exchange,
                         before: seq<AttestationState>, after: seq<AttestationState>)
    requires Traverse(x.accepted, Attesting(platform, less, x.acks, x.attestations)) == Ok(before)
    requires Traverse(y.accepted, Attesting(platform, less, y.acks, y.attestations)) == Ok(after)
    requires (forall p | p in x.accepted :: p in y.accepted) && (forall a | a in x.acks :: a in y.acks)
    requires forall s | s in x.attestations :: s in y.attestations
    ensures AttestationsForward(before, after)
  {
    hide Traverse, Attest;
    forall c | c in before
      ensures exists d ::
        && d in after && d.proposalId == c.proposalId
        && Rank(c.status) <= Rank(d.status)
        && forall a | a in c.attestations :: a in d.attestations
    {
      var i :| 0 <= i < |before| && before[i] == c;
      var p := x.accepted[i];
      assert p in y.accepted && Attesting(platform, less, x.acks, x.attestations)(p) == Ok(c);
      var j :| 0 <= j < |y.accepted| && y.accepted[j] == p;
      assert Attesting(platform, less, y.acks, y.attestations)(p) == Ok(after[j]);
      SelectionsGrow(x.acks, y.acks, AckProposal, p.id);
      SelectionsGrow(x.attestations, y.attestations, AttestationProposal, p.id);
      AttestationForward(platform, less, p, AcksFor(x.acks, p.id), AcksFor(y.acks, p.id),
                         AttestationsFor(x.attestations, p.id), AttestationsFor(y.attestations, p.id));
      assert after[j] in after;
    }
  }

  /** As a history grows, every proposal's confirmation and attestation status moves only forward, and
      nothing that was acknowledged or attested disappears. */
  lemma ProgressOnlyMovesForward(platform: Platform, less: (string, string) -> bool, communityId: string, xs: seq<Record>,
                                 ys: seq<Record>)
    requires Extends(xs, ys)
    requires ResolveRecords(platform, less, communityId, xs).Ok? && ResolveRecords(platform, less, communityId, ys).Ok?
    ensures var s, u := ResolveRecords(platform, less, communityId, xs).value, ResolveRecords(platform, less, communityId, ys).value;
            && ConfirmationsForward(s.confirmations, u.confirmations)
            && AttestationsForward(s.attestationStates, u.attestationStates)
  {
    hide Present, ResolveRecords, CommunityEnvelopes, ResolveAuthorizations, AllMemberSigned, ReducedExchange,
         ResolveLedger, HoldsExchange, ExchangeFits, Traverse, ConfirmationsForward, AttestationsForward;
    var x := ResolvedStages(platform, less, communityId, xs);
    var y := ResolvedStages(platform, less, communityId, ys);
    ExchangeGrows(platform, communityId, xs, ys, x, y);
    var s, u := ResolveRecords(platform, less, communityId, xs).value, ResolveRecords(platform, less, communityId, ys).value;
    ConfirmationsMove(less, x, y, s.confirmations, u.confirmations);
    AttestationsMove(platform, less, x, y, s.attestationStates, u.attestationStates);
  }
}

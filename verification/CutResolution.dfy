/** What the resolver derives from the records of a causally closed cut: envelopes, authorizations, signatures. */
module CutResolution {
  import opened Core
  import opened Sorting
  import opened Reduction
  import opened Types
  import opened Identity
  import opened Settlement
  import opened Records
  import opened Resolve
  import opened ResolveTheorems
  import opened IdentityTheorems
  import opened ProtocolRun
  import opened RunFacts
  import Ledger

  ghost predicate GoodCut(w: World, run: Run, cut: set<nat>) {
    ValidRun(w, run) && CausallyClosed(run, cut) && ConflictFree(run, cut)
  }

  /** The envelope of one append. */
  function EnvelopeAt(run: Run, i: nat): Envelope
    requires i < |run|
  {
    run[i].record.envelope
  }

  // ---- every append is a valid envelope ------------------------------------------------------------

  lemma PresentPrefixed(prefix: string, text: string)
    requires prefix != "" && !IsTrimmed(prefix[0])
    ensures Present(prefix + text)
  {
    assert (prefix + text)[0] == prefix[0];
  }

  lemma PresentFollowed(text: string, after: string)
    requires Present(text)
    ensures Present(text + after)
  {
    PresentInside("", text, after);
    assert "" + text + after == text + after;
  }

  lemma AuthorPresent(w: World, run: Run, i: nat)
    requires ValidRun(w, run) && i < |run|
    ensures Present(run[i].author)
  {
    hide ResolveRecords, Guard, EnvelopeFor, Present;
    assert ValidAppend(w, run, i);
    var j: nat := i;
    if !run[i].act.Declare? {
      j :| j in run[i].view && j < i && run[j].author == run[i].author && run[j].act.Declare?;
    }
    AuthorsOfActs(w, run, j);
    var d := run[j].act.declaration;
    PresentPrefixed("phm_", w.platform.memberHash(w.platform.fingerprint(d.rootPublicKeyPem)));
  }

  lemma IdPresent(w: World, run: Run, i: nat)
    requires ValidRun(w, run) && i < |run|
    ensures Present(EnvelopeAt(run, i).id)
  {
    hide ValidRun, Present, ValidProposalTerms, ValidAccepted, SeparatorFree, Ledger.CreateTransfer;
    RunIsWritten(w, run);
    if run[i].act.Declare? {
      DeclarationIdPresent(run[i].act.declaration);
    } else {
      var p := run[i].act.proposal;
      ProposalShape(w, run, i);
      ProposalIdPresent(p);
      if run[i].act.Publish? { PublishedTransfer(w, run, i); }
      AcknowledgementIdShape(p.id, run[i].author);
      if run[i].act.AttestTerms? { AttestationIdShape(p.id, run[i].act.attestation.memberId); }
      PresentFollowed(p.id, "/proposed");
      PresentFollowed(p.id, "/accepted");
      PresentFollowed(p.id, "/settlement");
    }
  }

  lemma DeclarationIdPresent(d: Declaration)
    ensures Present(DeclarationRecordId(d))
  {
    PresentPrefixed("member-feed:", d.memberId + ":" + d.communityId + ":" + d.feedPublicKey);
    assert DeclarationRecordId(d) == "member-feed:" + (d.memberId + ":" + d.communityId + ":" + d.feedPublicKey);
  }

  lemma ProposalIdPresent(p: Proposal)
    requires ValidProposalTerms(p)
    ensures Present(p.id)
  {
  }

  lemma AcknowledgementIdShape(proposalId: string, memberId: string)
    requires Present(proposalId)
    ensures Present(AcknowledgementId(proposalId, memberId))
  {
    PresentFollowed(proposalId, "/settlement-ack/" + memberId);
    assert AcknowledgementId(proposalId, memberId) == proposalId + ("/settlement-ack/" + memberId);
  }

  lemma AttestationIdShape(proposalId: string, memberId: string)
    requires Present(proposalId)
    ensures Present(AttestationRecordId(proposalId, memberId))
  {
    PresentFollowed(proposalId, "/settlement-attestation/" + memberId);
    assert AttestationRecordId(proposalId, memberId) == proposalId + ("/settlement-attestation/" + memberId);
  }

  lemma EnvelopeValid(w: World, run: Run, i: nat)
    requires ValidRun(w, run) && i < |run|
    ensures ValidEnvelope(w.platform, EnvelopeAt(run, i))
    ensures EnvelopeAt(run, i).communityId == w.communityId && EnvelopeAt(run, i).authorId == run[i].author
    ensures Present(w.communityId)
  {
    hide Present, SignedWithRoot, HoldsView, Fresh, ResolveRecords, Guard, ValidProposalTerms,
         DeclarationRecordId, ProposedRecordId, AcceptedRecordId, AcknowledgementId, AttestationRecordId, MemberIdOf;
    AuthorPresent(w, run, i);
    IdPresent(w, run, i);
    assert ValidAppend(w, run, i);
    AuthorsOfActs(w, run, i);
    if !run[i].act.Declare? { ProposalShape(w, run, i); }
  }

  // ---- every append decodes ------------------------------------------------------------------------

  lemma DeclarationDecodes(w: World, run: Run, i: nat)
    requires ValidRun(w, run) && i < |run| && run[i].act.Declare?
    ensures DecodeDeclaration(w.platform, EnvelopeAt(run, i)) == Ok(run[i].act.declaration)
  {
    hide Present, ValidRun, ValidEnvelope, ValidDeclaration, DeclarationRecordId;
    EnvelopeValid(w, run, i);
    RunIsWritten(w, run);
    AuthorsOfActs(w, run, i);
  }

  lemma ProposalDecodes(w: World, run: Run, i: nat)
    requires ValidRun(w, run) && i < |run| && (run[i].act.Propose? || run[i].act.Accept?)
    ensures run[i].act.Propose? ==> DecodeProposed(w.platform, EnvelopeAt(run, i)) == Ok(run[i].act.proposal)
    ensures run[i].act.Accept? ==> DecodeAccepted(w.platform, EnvelopeAt(run, i)) == Ok(run[i].act.proposal)
  {
    hide Present, ValidRun, ValidEnvelope, ProposedRecordId, AcceptedRecordId, ResolveRecords, SignedWithRoot,
         SeparatorFree, ValidProposalTerms;
    EnvelopeValid(w, run, i);
    RunIsWritten(w, run);
    ProposalShape(w, run, i);
    GuardHeld(w, run, i);
    if run[i].act.Accept? { AcceptRests(w, run, i); }
  }

  lemma AcknowledgementDecodes(w: World, run: Run, i: nat)
    requires ValidRun(w, run) && i < |run| && run[i].act.Acknowledge?
    ensures DecodeAcknowledgement(w.platform, EnvelopeAt(run, i)) == Ok(AckOf(run[i].act.proposal, run[i].author))
    ensures IsParticipant(run[i].act.proposal, run[i].author)
  {
    hide Present, ValidRun, ValidEnvelope, AcknowledgementId, ResolveRecords, SignedWithRoot, SeparatorFree;
    EnvelopeValid(w, run, i);
    RunIsWritten(w, run);
    ProposalShape(w, run, i);
    GuardHeld(w, run, i);
    AuthorPresent(w, run, i);
    IdPresent(w, run, i);
  }

  lemma AttestationDecodes(w: World, run: Run, i: nat)
    requires ValidRun(w, run) && i < |run| && run[i].act.AttestTerms?
    ensures DecodeAttestation(w.platform, EnvelopeAt(run, i)) == Ok(AttestationOf(run[i].act.proposal, run[i].act.attestation))
    ensures IsParticipant(run[i].act.proposal, run[i].author)
    ensures run[i].act.attestation.memberId == run[i].author && run[i].act.attestation.keyId == RootKeyId(run[i].author)
    ensures run[i].act.attestation.payloadDigest == w.platform.digest(SettlementTerms(run[i].act.proposal))
    ensures Ledger.ValidTerms(SettlementTerms(run[i].act.proposal))
  {
    hide Present, ValidRun, ValidEnvelope, AttestationRecordId, ResolveRecords, SignedWithRoot, SeparatorFree, AcksFor,
         Confirm, SettlementTransferId;
    EnvelopeValid(w, run, i);
    RunIsWritten(w, run);
    ProposalShape(w, run, i);
    GuardHeld(w, run, i);
    IdPresent(w, run, i);
  }

  lemma TransferDecodes(w: World, run: Run, i: nat)
    requires ValidRun(w, run) && i < |run| && run[i].act.Publish?
    ensures DecodeTransfer(w.platform, EnvelopeAt(run, i)) == Ok(run[i].act.transfer)
  {
    hide Present, ValidRun, ValidEnvelope, SettlementTransferId, SeparatorFree, Ledger.CreateTransfer;
    EnvelopeValid(w, run, i);
    RunIsWritten(w, run);
    ProposalShape(w, run, i);
    PublishedTransfer(w, run, i);
  }

  // ---- the cut's envelopes -------------------------------------------------------------------------

  lemma OneEnvelopePerId(run: Run, cut: set<nat>, i: nat, j: nat)
    requires ConflictFree(run, cut) && i in cut && j in cut && i < |run| && j < |run|
    requires EnvelopeAt(run, i).id == EnvelopeAt(run, j).id
    ensures EnvelopeAt(run, i) == EnvelopeAt(run, j)
  {
  }

  lemma CutEnvelopes(w: World, run: Run, cut: set<nat>)
    requires GoodCut(w, run, cut)
    ensures CommunityEnvelopes(w.platform, w.less, w.communityId, RecordsAt(run, cut)).Ok?
    ensures forall e :: e in CommunityEnvelopes(w.platform, w.less, w.communityId, RecordsAt(run, cut)).value
                   <==> exists i :: i in cut && i < |run| && EnvelopeAt(run, i) == e
  {
    hide Present, ValidRun, ValidEnvelope, Reduce, Sort;
    var records := RecordsAt(run, cut);
    var delivered, decode := Map(records, EnvelopeOf), NormalizeEnvelope(w.platform);
    RecordsAtSpec(run, cut);
    forall d | d in delivered
      ensures exists i :: i in cut && i < |run| && EnvelopeAt(run, i) == d
      ensures decode(d) == Ok(d)
    {
      MapMember(records, EnvelopeOf, d);
      var r :| r in records && EnvelopeOf(r) == d;
      var i :| i in cut && i < |run| && run[i].record == r;
      EnvelopeValid(w, run, i);
      assert EnvelopeAt(run, i) == d;
    }
    forall d, e | d in delivered && e in delivered && EnvelopeId(d) == EnvelopeId(e)
      ensures decode(d) == decode(e)
    {
      var i :| i in cut && i < |run| && EnvelopeAt(run, i) == d;
      var j :| j in cut && j < |run| && EnvelopeAt(run, j) == e;
      OneEnvelopePerId(run, cut, i, j);
    }
    ReduceSpec(EnvelopeOrder(w.less), delivered, decode, EnvelopeId);
    CutEnvelopeMembers(w, run, cut);
  }

  lemma CutEnvelopeMembers(w: World, run: Run, cut: set<nat>)
    requires ValidRun(w, run) && CommunityEnvelopes(w.platform, w.less, w.communityId, RecordsAt(run, cut)).Ok?
    ensures forall e :: e in CommunityEnvelopes(w.platform, w.less, w.communityId, RecordsAt(run, cut)).value
                   <==> exists i :: i in cut && i < |run| && EnvelopeAt(run, i) == e
  {
    hide Present, ValidRun, ValidEnvelope, CommunityEnvelopes;
    var records := RecordsAt(run, cut);
    var mine := CommunityEnvelopes(w.platform, w.less, w.communityId, records).value;
    RecordsAtSpec(run, cut);
    CommunityEnvelopesSpec(w.platform, w.less, w.communityId, records);
    forall e
      ensures e in mine <==> exists i :: i in cut && i < |run| && EnvelopeAt(run, i) == e
    {
      if e in mine {
        var r :| r in records && r.envelope == e;
        var i :| i in cut && i < |run| && run[i].record == r;
        assert EnvelopeAt(run, i) == e;
      }
      if i :| i in cut && i < |run| && EnvelopeAt(run, i) == e {
        EnvelopeValid(w, run, i);
        assert run[i].record in records;
      }
    }
  }

  // ---- the cut's authorizations ----------------------------------------------------------------------

  /** Envelopes of a cut, by membership. */
  ghost predicate HoldsCut(run: Run, cut: set<nat>, mine: seq<Envelope>) {
    forall e :: e in mine <==> exists i :: i in cut && i < |run| && EnvelopeAt(run, i) == e
  }

  /** The kinds that no act of the run writes. */
  lemma UnwrittenKinds(w: World, run: Run, cut: set<nat>, mine: seq<Envelope>)
    requires ValidRun(w, run) && HoldsCut(run, cut, mine)
    ensures Filter(mine, IsKeyEventKind) == [] && Filter(mine, IsStatementKind) == []
    ensures OfKind(mine, PublishedListingKind) == [] && OfKind(mine, ClosedListingKind) == []
  {
    hide ValidRun;
    RunIsWritten(w, run);
    forall e | e in mine
      ensures !IsKeyEventKind(e) && !IsStatementKind(e) && e.kind != PublishedListingKind && e.kind != ClosedListingKind
    {
      var i :| i in cut && i < |run| && EnvelopeAt(run, i) == e;
    }
    NothingSelected(mine, IsKeyEventKind);
    NothingSelected(mine, IsStatementKind);
    NothingSelected(mine, HasKind(PublishedListingKind));
    NothingSelected(mine, HasKind(ClosedListingKind));
  }

  lemma {:induction false} NothingSelected<T>(s: seq<T>, keep: T -> bool)
    requires forall x | x in s :: !keep(x)
    ensures Filter(s, keep) == []
  {
    if s != [] {
      FrontLast(s);
      NothingSelected(s[..|s| - 1], keep);
    }
  }

  /** The declarations of a cut. */
  ghost predicate DeclaredIn(run: Run, cut: set<nat>, d: Declaration) {
    exists i :: i in cut && i < |run| && run[i].act == Declare(d)
  }

  lemma DeclarationEnvelopes(w: World, run: Run, cut: set<nat>, mine: seq<Envelope>, e: Envelope)
    requires ValidRun(w, run) && HoldsCut(run, cut, mine) && e in OfKind(mine, FeedDeclarationKind)
    ensures exists i :: i in cut && i < |run| && EnvelopeAt(run, i) == e && run[i].act.Declare?
              && DecodeDeclaration(w.platform, e) == Ok(run[i].act.declaration)
  {
    hide ValidRun, DecodeDeclaration;
    RunIsWritten(w, run);
    var i :| i in cut && i < |run| && EnvelopeAt(run, i) == e;
    DeclarationDecodes(w, run, i);
    assert EnvelopeAt(run, i) == e;
  }

  lemma OneDeclarationPerMember(w: World, run: Run, i: nat, j: nat)
    requires ValidRun(w, run) && i < |run| && j < |run| && run[i].act.Declare? && run[j].act.Declare?
    requires run[i].act.declaration.memberId == run[j].act.declaration.memberId
    ensures i == j
  {
    hide ValidRun, ValidDeclaration;
    AuthorsOfActs(w, run, i);
    AuthorsOfActs(w, run, j);
    DeclareOnce(w, run, i, j);
  }

  lemma CutDeclarations(w: World, run: Run, cut: set<nat>, mine: seq<Envelope>) returns (ds: seq<Declaration>)
    requires ValidRun(w, run) && HoldsCut(run, cut, mine)
    ensures Reduce(DeclarationOrder(w.less), OfKind(mine, FeedDeclarationKind), DecodingDeclarations(w.platform), FeedScope) == Ok(ds)
    ensures forall d :: d in ds <==> DeclaredIn(run, cut, d)
    ensures NoDuplicates(ds)
  {
    hide ValidRun, DecodeDeclaration, HoldsCut, Reduce, EnvelopeAt, DeclaredIn;
    var chosen, decode := OfKind(mine, FeedDeclarationKind), DecodingDeclarations(w.platform);
    forall e | e in chosen
      ensures decode(e).Ok?
    {
      DeclarationEnvelopes(w, run, cut, mine, e);
    }
    forall e, f | e in chosen && f in chosen && FeedScope(decode(e).value) == FeedScope(decode(f).value)
      ensures decode(e) == decode(f)
    {
      DeclarationEnvelopes(w, run, cut, mine, e);
      DeclarationEnvelopes(w, run, cut, mine, f);
      var i :| i in cut && i < |run| && EnvelopeAt(run, i) == e && run[i].act.Declare? && decode(e) == Ok(run[i].act.declaration);
      var j :| j in cut && j < |run| && EnvelopeAt(run, j) == f && run[j].act.Declare? && decode(f) == Ok(run[j].act.declaration);
      OneDeclarationPerMember(w, run, i, j);
    }
    ReduceSpec(DeclarationOrder(w.less), chosen, decode, FeedScope);
    ds := Reduce(DeclarationOrder(w.less), chosen, decode, FeedScope).value;
    forall d
      ensures d in ds <==> DeclaredIn(run, cut, d)
    {
      DeclarationMembers(w, run, cut, mine, ds, d);
    }
  }

  lemma DeclarationMembers(w: World, run: Run, cut: set<nat>, mine: seq<Envelope>, ds: seq<Declaration>, d: Declaration)
    requires ValidRun(w, run) && HoldsCut(run, cut, mine)
    requires HoldsDecoded(ds, OfKind(mine, FeedDeclarationKind), DecodingDeclarations(w.platform))
    ensures d in ds <==> DeclaredIn(run, cut, d)
  {
    hide ValidRun, DecodeDeclaration;
    var chosen, decode := OfKind(mine, FeedDeclarationKind), DecodingDeclarations(w.platform);
    if d in ds {
      var e :| e in chosen && decode(e) == Ok(d);
      DeclarationEnvelopes(w, run, cut, mine, e);
    }
    if DeclaredIn(run, cut, d) {
      var i :| i in cut && i < |run| && run[i].act == Declare(d);
      DeclarationDecodes(w, run, i);
      RunIsWritten(w, run);
      assert EnvelopeAt(run, i) in chosen && decode(EnvelopeAt(run, i)) == Ok(d);
    }
  }

  /** The declared roots are the whole authorization list of a cut. */
  lemma CutAuthorizations(w: World, run: Run, cut: set<nat>, mine: seq<Envelope>) returns (ds: seq<Declaration>)
    requires ValidRun(w, run) && HoldsCut(run, cut, mine)
    ensures ResolveAuthorizations(w.platform, w.less, mine) == Ok(Map(ds, RootAuthorization))
    ensures forall d :: d in ds <==> DeclaredIn(run, cut, d)
    ensures NoDuplicates(ds)
  {
    hide Present, ValidRun, DecodeDeclaration, HoldsCut, Reduce, EnvelopeAt, DeclaredIn, RootKeyId;
    UnwrittenKinds(w, run, cut, mine);
    ds := CutDeclarations(w, run, cut, mine);
    var chosen := OfKind(mine, FeedDeclarationKind);
    forall e | e in chosen
      ensures DecodingDeclarations(w.platform)(e).Ok?
    {
      DeclarationEnvelopes(w, run, cut, mine, e);
    }
    NothingReduced(w);
    var roots := Map(ds, RootAuthorization);
    assert [] + roots + [] == roots;
    var declarations := Traverse(chosen, DecodingDeclarations(w.platform));
    assert declarations.Ok?;
    assert ProvenRootSignedKeys(w.platform, w.less, [], chosen) == Ok([]);
  }

  lemma NothingReduced(w: World)
    ensures ReducedKeys(w.platform, w.less, []) == Ok([])
    ensures RootSignedKeys(w.platform, w.less, []) == Ok([])
  {
    assert Map<KeyState, Authorization>([], AuthorizationOf) == [];
    assert Map<RootStatement, KeyEvent>([], EventOf) == [];
  }

  lemma RootKeyIdNamesMember(m: string, n: string)
    requires RootKeyId(m) == RootKeyId(n)
    ensures m == n
  {
    assert RootKeyId(m)[5..] == m && RootKeyId(n)[5..] == n;
  }

  lemma DistinctMembersIndexable(w: World, ds: seq<Declaration>)
    requires NoDuplicates(ds) && Present(w.communityId)
    requires forall d | d in ds :: ValidDeclaration(w.platform, d) && d.communityId == w.communityId && Present(d.memberId)
    requires forall d, e | d in ds && e in ds && d.memberId == e.memberId :: d == e
    ensures Indexable(w.platform, Map(ds, RootAuthorization))
  {
    hide Present, RootKeyId, MemberIdOf;
    var auths := Map(ds, RootAuthorization);
    forall a | a in auths
      ensures ValidAuthorization(w.platform, a)
    {
      MapMember(ds, RootAuthorization, a);
      var d :| d in ds && RootAuthorization(d) == a;
      RootKeyIdPresent(d.memberId);
    }
    forall i, j | 0 <= i < j < |auths|
      ensures AuthorizationId(auths[i]) != AuthorizationId(auths[j])
      ensures w.platform.fingerprint(auths[i].publicKeyPem) == w.platform.fingerprint(auths[j].publicKeyPem) ==>
                KeyOwner(auths[i]) == KeyOwner(auths[j])
    {
      assert ds[i] in ds && ds[j] in ds && ds[i] != ds[j];
      if AuthorizationId(auths[i]) == AuthorizationId(auths[j]) { RootKeyIdNamesMember(ds[i].memberId, ds[j].memberId); }
      SameFingerprintSameMember(w.platform, ds[i].rootPublicKeyPem, ds[j].rootPublicKeyPem);
    }
  }

  lemma RootKeyIdPresent(m: string)
    ensures Present(RootKeyId(m))
  {
    PresentPrefixed("root:", m);
  }

  lemma SameFingerprintSameMember(p: Platform, a: string, b: string)
    ensures p.fingerprint(a) == p.fingerprint(b) ==> MemberIdOf(p, a) == MemberIdOf(p, b)
  {
  }

  lemma {:induction false} ActiveKeysHoldAll(auths: seq<Authorization>, i: nat)
    requires i < |auths| && auths[i].active
    requires forall j | 0 <= j < |auths| && j != i :: ScopeOf(auths[j]) != ScopeOf(auths[i])
    ensures ScopeOf(auths[i]) in ActiveKeys(auths) && ActiveKeys(auths)[ScopeOf(auths[i])] == auths[i].publicKeyPem
    decreases |auths|
  {
    var front := auths[..|auths| - 1];
    if i < |auths| - 1 {
      assert front[i] == auths[i] && forall j | 0 <= j < |front| :: front[j] == auths[j];
      ActiveKeysHoldAll(front, i);
    }
  }

  /** The index of a cut's authorizations holds the root of every declared member. */
  ghost predicate RootsIndexed(w: World, run: Run, cut: set<nat>, auths: seq<Authorization>) {
    && KeyIndex(w.platform, auths).Ok?
    && forall d | DeclaredIn(run, cut, d) ::
         var scope := Scope(w.communityId, d.memberId, RootKeyId(d.memberId));
         scope in KeyIndex(w.platform, auths).value && KeyIndex(w.platform, auths).value[scope] == d.rootPublicKeyPem
  }

  lemma CutIndex(w: World, run: Run, cut: set<nat>, ds: seq<Declaration>)
    requires ValidRun(w, run) && Present(w.communityId)
    requires (forall d :: d in ds <==> DeclaredIn(run, cut, d)) && NoDuplicates(ds)
    ensures RootsIndexed(w, run, cut, Map(ds, RootAuthorization))
  {
    hide Present, ValidRun, RootKeyId, ValidDeclaration, Indexable, ActiveKeys;
    forall d | d in ds
      ensures ValidDeclaration(w.platform, d) && d.communityId == w.communityId && Present(d.memberId)
    {
      var i :| i in cut && i < |run| && run[i].act == Declare(d);
      AuthorsOfActs(w, run, i);
      AuthorPresent(w, run, i);
    }
    forall d, e | d in ds && e in ds && d.memberId == e.memberId
      ensures d == e
    {
      var i :| i in cut && i < |run| && run[i].act == Declare(d);
      var j :| j in cut && j < |run| && run[j].act == Declare(e);
      OneDeclarationPerMember(w, run, i, j);
    }
    DistinctMembersIndexable(w, ds);
    var auths := Map(ds, RootAuthorization);
    forall d | DeclaredIn(run, cut, d)
      ensures var scope := Scope(w.communityId, d.memberId, RootKeyId(d.memberId));
              scope in ActiveKeys(auths) && ActiveKeys(auths)[scope] == d.rootPublicKeyPem
    {
      assert d in ds;
      var i :| 0 <= i < |ds| && ds[i] == d;
      forall j | 0 <= j < |auths| && j != i
        ensures ScopeOf(auths[j]) != ScopeOf(auths[i])
      {
        assert ds[j] in ds && ds[j] != ds[i];
      }
      ActiveKeysHoldAll(auths, i);
    }
  }

  // ---- signatures of the cut -----------------------------------------------------------------------

  lemma AuthorDeclared(w: World, run: Run, cut: set<nat>, i: nat) returns (d: Declaration)
    requires ValidRun(w, run) && CausallyClosed(run, cut) && i in cut && i < |run| && !run[i].act.Declare?
    ensures DeclaredIn(run, cut, d) && d.memberId == run[i].author
    ensures run[i].record.proof.Some? && run[i].record.proof.value.keyId == RootKeyId(run[i].author)
    ensures Present(run[i].record.proof.value.signature)
    ensures w.platform.verifies(RecordContent(run[i].record.envelope), d.rootPublicKeyPem, run[i].record.proof.value.signature)
    ensures run[i].act.AttestTerms? ==>
              w.platform.verifies(TransferContent(SettlementTerms(run[i].act.proposal)), d.rootPublicKeyPem, run[i].act.attestation.signature)
  {
    hide Present, ValidRun, ResolveRecords, Guard, RootKeyId, SettlementTerms, ValidDeclaration;
    GuardHeld(w, run, i);
    var j :| j in run[i].view && j < i && run[j].author == run[i].author && run[j].act.Declare?
      && w.platform.verifies(RecordContent(run[i].record.envelope), run[j].act.declaration.rootPublicKeyPem, run[i].record.proof.value.signature)
      && (run[i].act.AttestTerms? ==>
            w.platform.verifies(TransferContent(SettlementTerms(run[i].act.proposal)), run[j].act.declaration.rootPublicKeyPem,
                                run[i].act.attestation.signature));
    d := run[j].act.declaration;
    AuthorsOfActs(w, run, j);
    assert j in cut && run[j].act == Declare(d);
  }

  lemma CutSigned(w: World, run: Run, cut: set<nat>, auths: seq<Authorization>)
    requires ValidRun(w, run) && CausallyClosed(run, cut) && RootsIndexed(w, run, cut, auths)
    ensures AllMemberSigned(w.platform, w.communityId, auths, RecordsAt(run, cut))
  {
    hide ValidRun, MemberSigned, CausallyClosed, RootsIndexed;
    RecordsAtSpec(run, cut);
    forall r | r in RecordsAt(run, cut)
      ensures MemberSigned(w.platform, w.communityId, auths, r)
    {
      var i :| i in cut && i < |run| && run[i].record == r;
      EventSigned(w, run, cut, auths, i);
    }
  }

  lemma EventSigned(w: World, run: Run, cut: set<nat>, auths: seq<Authorization>, i: nat)
    requires ValidRun(w, run) && CausallyClosed(run, cut) && RootsIndexed(w, run, cut, auths) && i in cut && i < |run|
    ensures MemberSigned(w.platform, w.communityId, auths, run[i].record)
  {
    hide Present, ValidRun, CausallyClosed, ValidEnvelope, KeyIndex, DeclaredIn, RootKeyId, DecodeProposed, DecodeAccepted,
         DecodeAcknowledgement, DecodeAttestation, DecodeTransfer, DecodeListing, DecodeClosure, SettlementTerms;
    RunIsWritten(w, run);
    EnvelopeValid(w, run, i);
    if !run[i].act.Declare? {
      var d := AuthorDeclared(w, run, cut, i);
      RootKeyIdPresent(run[i].author);
      EventParticipates(w, run, i);
    }
  }

  lemma EventParticipates(w: World, run: Run, i: nat)
    requires ValidRun(w, run) && i < |run| && !run[i].act.Declare?
    ensures AuthorParticipates(w.platform, EnvelopeAt(run, i))
  {
    hide ValidRun, DecodeProposed, DecodeAccepted, DecodeAcknowledgement, DecodeAttestation, DecodeTransfer, DecodeListing,
         DecodeClosure, SettlementTerms, Present;
    RunIsWritten(w, run);
    match run[i].act {
      case Propose(p) => ProposalDecodes(w, run, i);
      case Accept(p) => ProposalDecodes(w, run, i);
      case Acknowledge(p) => AcknowledgementDecodes(w, run, i);
      case AttestTerms(p, a) => AttestationDecodes(w, run, i);
      case Publish(p, t) => TransferDecodes(w, run, i);
      case Declare(d) =>
    }
  }
}

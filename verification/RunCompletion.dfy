/** No run gets stuck: an accepted exchange can always be brought to a published settlement by its two members. */
module RunCompletion {
  import opened Core
  import opened Sorting
  import opened Reduction
  import opened Types
  import opened Identity
  import opened Settlement
  import opened Records
  import opened Resolve
  import opened ResolveTheorems
  import opened ProtocolRun
  import opened RunFacts
  import opened CutResolution
  import opened CutExchange
  import Ledger

  // ---- appending to a run -------------------------------------------------------------------------------

  /** Every append of the run. */
  function Everything(run: Run): (r: set<nat>)
    ensures forall i: nat :: i in r <==> i < |run|
  {
    if run == [] then {} else Everything(run[..|run| - 1]) + {|run| - 1}
  }

  ghost predicate CanSign(w: World, content: SignedContent, pem: string) {
    exists s :: Present(s) && w.platform.verifies(content, pem, s)
  }

  /** A key that parses can sign, and digests are not blank. */
  ghost predicate SignaturesExist(w: World) {
    && (forall content, pem :: w.platform.isPublicKey(pem) ==> CanSign(w, content, pem))
    && (forall terms :: Present(w.platform.digest(terms)))
  }

  lemma RecordsOfPrefix(run: Run, e: Event, cut: set<nat>)
    requires forall i | i in cut :: i < |run|
    ensures RecordsAt(run + [e], cut) == RecordsAt(run, cut)
  {
    assert (run + [e])[..|run|] == run;
  }

  /** A valid append stays valid when the run goes on. */
  lemma AppendStaysValid(w: World, run: Run, e: Event, i: nat)
    requires i < |run| && ValidAppend(w, run, i)
    ensures ValidAppend(w, run + [e], i)
  {
    hide ResolveRecords, Guard, EnvelopeFor, ValidDeclaration, RecordsAt, SettlementTerms;
    var longer := run + [e];
    assert forall j | 0 <= j < |run| :: longer[j] == run[j];
    RecordsOfPrefix(run, e, run[i].view);
    assert HoldsView(longer, i) && Fresh(longer, i);
    if !run[i].act.Declare? { SignatureStaysValid(w, run, e, i); }
  }

  lemma SignatureStaysValid(w: World, run: Run, e: Event, i: nat)
    requires i < |run| && SignedWithRoot(w, run, i)
    ensures SignedWithRoot(w, run + [e], i)
  {
    hide SettlementTerms;
    var longer := run + [e];
    var j :| j in run[i].view && j < i && run[j].author == run[i].author && run[j].act.Declare?
      && run[i].record.proof.Some?
      && run[i].record.proof.value.keyId == RootKeyId(run[i].author)
      && Present(run[i].record.proof.value.signature)
      && w.platform.verifies(RecordContent(run[i].record.envelope), run[j].act.declaration.rootPublicKeyPem,
                             run[i].record.proof.value.signature)
      && (run[i].act.AttestTerms? ==>
            w.platform.verifies(TransferContent(SettlementTerms(run[i].act.proposal)), run[j].act.declaration.rootPublicKeyPem,
                                run[i].act.attestation.signature));
    assert longer[i] == run[i] && longer[j] == run[j];
  }

  lemma RunGoesOn(w: World, run: Run, e: Event)
    requires ValidRun(w, run) && ValidAppend(w, run + [e], |run|)
    ensures ValidRun(w, run + [e])
  {
    hide ValidAppend;
    forall i | 0 <= i < |run + [e]|
      ensures ValidAppend(w, run + [e], i)
    {
      if i < |run| { AppendStaysValid(w, run, e, i); }
    }
  }

  /** The next append of a member that holds everything so far. */
  function NextEvent(run: Run, author: string, act: Act, time: string, signature: string): Event {
    Event(author, act, time, Record(EnvelopeFor(author, act, time), Some(Proof(RootKeyId(author), signature))), Everything(run))
  }

  lemma EverythingClosed(w: World, run: Run)
    requires ValidRun(w, run)
    ensures CausallyClosed(run, Everything(run))
  {
    hide ResolveRecords, Guard, EnvelopeFor, ValidDeclaration, SignedWithRoot, Fresh;
    forall i | i in Everything(run)
      ensures run[i].view <= Everything(run)
    {
      assert ValidAppend(w, run, i);
    }
  }

  ghost predicate StateAllows(w: World, run: Run, author: string, act: Act) {
    var s := ResolveRecords(w.platform, w.less, w.communityId, RecordsAt(run, Everything(run)));
    s.Ok? && Guard(w, s.value, author, act)
  }

  /** No member has taken this step of the proposal, as far as it must not be repeated. */
  ghost predicate NewStep(run: Run, e: Event) {
    forall i | 0 <= i < |run| && SameStep(run[i], e) :: run[i].author != e.author && !e.act.Publish?
  }

  /** A new step adds no conflict. */
  lemma StaysConflictFree(w: World, run: Run, e: Event)
    requires ValidRun(w, run + [e]) && ConflictFree(run, Everything(run)) && NewStep(run, e)
    ensures ConflictFree(run + [e], Everything(run + [e]))
  {
    hide ValidRun, Everything, SameStep;
    var longer := run + [e];
    assert longer[|run|] == e && forall i | 0 <= i < |run| :: longer[i] == run[i] && i in Everything(run);
    forall i, j | i in Everything(longer) && j in Everything(longer) && i < |longer| && j < |longer|
                  && longer[i].record.envelope.id == longer[j].record.envelope.id
      ensures longer[i].record.envelope == longer[j].record.envelope
    {
      if longer[i].record.envelope != longer[j].record.envelope {
        ConflictsAreRepeatedSteps(w, longer, i, j);
        ConflictsAreRepeatedSteps(w, longer, j, i);
      }
    }
  }

  /** What the next append needs: a declared root that signs it, and a state that allows it. */
  lemma NextIsValid(w: World, run: Run, author: string, act: Act, time: string, signature: string, j: nat)
    requires ValidRun(w, run) && !act.Declare?
    requires act.Propose? ==> forall i | 0 <= i < |run| && run[i].act.Propose? :: run[i].act.proposal.id != act.proposal.id
    requires j < |run| && run[j].author == author && run[j].act.Declare? && Present(signature)
    requires var pem := run[j].act.declaration.rootPublicKeyPem;
             && w.platform.verifies(RecordContent(EnvelopeFor(author, act, time)), pem, signature)
             && (act.AttestTerms? ==>
                   w.platform.verifies(TransferContent(SettlementTerms(act.proposal)), pem, act.attestation.signature))
    requires ValidTimestamp(w.platform, time) && StateAllows(w, run, author, act)
    ensures ValidRun(w, run + [NextEvent(run, author, act, time, signature)])
  {
    hide ResolveRecords, Guard, EnvelopeFor, Present, RecordsAt, SettlementTerms, ValidRun, CausallyClosed;
    var e := NextEvent(run, author, act, time, signature);
    var longer := run + [e];
    EnvelopeValid(w, run, j);
    EverythingClosed(w, run);
    RecordsOfPrefix(run, e, Everything(run));
    ClosedStays(run, e, Everything(run));
    assert longer[|run|] == e && forall i | 0 <= i < |run| :: longer[i] == run[i];
    assert HoldsView(longer, |run|) && Fresh(longer, |run|);
    assert SignedWithRoot(w, longer, |run|) by { assert longer[j] == run[j] && j in longer[|run|].view; }
    RunGoesOn(w, run, e);
  }

  lemma ClosedStays(run: Run, e: Event, cut: set<nat>)
    requires CausallyClosed(run, cut)
    ensures CausallyClosed(run + [e], cut)
  {
    assert forall i | i in cut :: (run + [e])[i] == run[i];
  }

  // ---- an exchange that is still open ---------------------------------------------------------------------

  /** The proposal has been accepted and not been published, and nothing in the run conflicts. */
  ghost predicate Open(w: World, run: Run, k: nat, p: Proposal) {
    && ValidRun(w, run) && SignaturesExist(w)
    && k < |run| && run[k].act == Act.Accept(p)
    && ConflictFree(run, Everything(run))
    && forall i | 0 <= i < |run| && run[i].act.Publish? :: run[i].act.proposal.id != p.id
  }

  lemma StaysOpen(w: World, run: Run, k: nat, p: Proposal, e: Event)
    requires Open(w, run, k, p) && ValidRun(w, run + [e]) && !e.act.Publish? && NewStep(run, e)
    ensures Open(w, run + [e], k, p)
  {
    hide ValidRun, SignaturesExist, ConflictFree, NewStep;
    StaysConflictFree(w, run, e);
    var longer := run + [e];
    assert forall i | 0 <= i < |run| :: longer[i] == run[i];
    assert longer[|run|] == e;
  }

  /** Both participants have declared the root keys that they sign with. */
  lemma ParticipantDeclared(w: World, run: Run, k: nat, p: Proposal, m: string) returns (j: nat)
    requires ValidRun(w, run) && k < |run| && run[k].act == Act.Accept(p) && IsParticipant(p, m)
    ensures j < |run| && run[j].author == m && run[j].act.Declare?
    ensures w.platform.isPublicKey(run[j].act.declaration.rootPublicKeyPem)
  {
    hide ResolveRecords, EnvelopeFor, ValidRun, Present, ValidProposalTerms, SeparatorFree, SettlementTerms;
    AcceptRests(w, run, k);
    var i, q :| i in run[k].view && i < |run| && run[i].act == Propose(q)
      && Counterparty(q) == run[k].author && p == AcceptedBy(q, run[k].author) && ValidProposed(q);
    ProposerSigns(w, run, i);
    GuardHeld(w, run, k);
    if m == run[k].author {
      j := RootOf(w, run, k);
    } else {
      CreatorIsOther(q, m);
      j := RootOf(w, run, i);
    }
    DeclaredKeyParses(w, run, j);
  }

  lemma ProposerSigns(w: World, run: Run, i: nat)
    requires ValidRun(w, run) && i < |run| && run[i].act.Propose?
    ensures run[i].act.proposal.creator == run[i].author && SignedWithRoot(w, run, i)
  {
    hide ResolveRecords, ValidRun, Present, SignedWithRoot, SeparatorFree;
    GuardHeld(w, run, i);
  }

  lemma CreatorIsOther(q: Proposal, m: string)
    requires ValidProposed(q) && IsParticipant(q, m) && m != Counterparty(q)
    ensures m == q.creator
  {
    hide Present;
  }

  lemma RootOf(w: World, run: Run, i: nat) returns (j: nat)
    requires i < |run| && SignedWithRoot(w, run, i)
    ensures j < |run| && run[j].author == run[i].author && run[j].act.Declare?
  {
    hide SettlementTerms, Present;
    j :| j in run[i].view && j < i && run[j].author == run[i].author && run[j].act.Declare?;
  }

  lemma DeclaredKeyParses(w: World, run: Run, j: nat)
    requires ValidRun(w, run) && j < |run| && run[j].act.Declare?
    ensures w.platform.isPublicKey(run[j].act.declaration.rootPublicKeyPem)
  {
    hide ResolveRecords, EnvelopeFor, Present, MemberIdOf;
    assert ValidAppend(w, run, j);
  }

  lemma TimeOf(w: World, run: Run, i: nat)
    requires ValidRun(w, run) && i < |run|
    ensures ValidTimestamp(w.platform, run[i].time)
  {
    hide ResolveRecords, EnvelopeFor, Guard, SignedWithRoot, Present, ValidDeclaration;
    assert ValidAppend(w, run, i);
  }

  /** The next append for an act that the state allows, signed by its declared author. */
  lemma TakeStep(w: World, run: Run, k: nat, p: Proposal, m: string, act: Act, time: string) returns (e: Event)
    requires Open(w, run, k, p) && IsParticipant(p, m) && !act.Declare? && !act.Propose?
    requires ValidTimestamp(w.platform, time) && StateAllows(w, run, m, act)
    requires act.AttestTerms? ==> forall j | 0 <= j < |run| && run[j].author == m && run[j].act.Declare? ::
               w.platform.verifies(TransferContent(SettlementTerms(act.proposal)), run[j].act.declaration.rootPublicKeyPem, act.attestation.signature)
    ensures ValidRun(w, run + [e]) && e.author == m && e.act == act && e.time == time && e.view == Everything(run)
    ensures e.record.envelope == EnvelopeFor(m, act, time)
  {
    hide ValidRun, StateAllows, EnvelopeFor, Present, SettlementTerms, ConflictFree, ValidTimestamp;
    var j := ParticipantDeclared(w, run, k, p, m);
    var pem := run[j].act.declaration.rootPublicKeyPem;
    assert CanSign(w, RecordContent(EnvelopeFor(m, act, time)), pem);
    var signature :| Present(signature) && w.platform.verifies(RecordContent(EnvelopeFor(m, act, time)), pem, signature);
    NextIsValid(w, run, m, act, time, signature, j);
    e := NextEvent(run, m, act, time, signature);
  }

  /** The state that a member who holds everything resolves. */
  lemma FullState(w: World, run: Run) returns (x: Exchange)
    requires ValidRun(w, run) && run != [] && ConflictFree(run, Everything(run))
    ensures var s := ResolveRecords(w.platform, w.less, w.communityId, RecordsAt(run, Everything(run)));
            && s.Ok? && s.value.accepted == x.accepted && s.value.acknowledgements == x.acks && s.value.transfers == x.transfers
            && ResolveProgress(w.platform, w.less, s.value.authorizations, x)
               == Ok(Progress(s.value.confirmations, s.value.attestationStates))
    ensures ExchangeOfCut(run, Everything(run), x) && CausallyClosed(run, Everything(run))
    ensures HoldsExchange(w.platform, w.communityId, RecordsAt(run, Everything(run)), x)
  {
    hide ValidRun, ResolveRecords, ConflictFree, HoldsExchange, ExchangeOfCut, CausallyClosed, CommunityEnvelopes,
         ReducedExchange,
         ResolveAuthorizations, AllMemberSigned, ResolveProgress, ResolveLedger, RecordsAt;
    EverythingClosed(w, run);
    assert 0 in Everything(run);
    GoodCutResolves(w, run, Everything(run));
    x := ResolvedStages(w.platform, w.less, w.communityId, RecordsAt(run, Everything(run)));
    CutHoldsExchange(w, run, Everything(run), x);
  }

  // ---- the steps of the exchange --------------------------------------------------------------------------

  lemma AcceptanceFacts(w: World, run: Run, k: nat, p: Proposal)
    requires ValidRun(w, run) && k < |run| && run[k].act == Act.Accept(p)
    ensures ValidAccepted(p) && p.communityId == w.communityId && Ledger.ValidTerms(SettlementTerms(p))
    ensures Present(p.id) && Present(p.provider) && Present(p.receiver) && IsAccepted(p) && p.provider != p.receiver
  {
    hide ValidRun, Present, SeparatorFree;
    ProposalShape(w, run, k);
    EnvelopeValid(w, run, k);
    PresentFollowed(p.id, "/settlement");
  }

  lemma AppendedStays(run: Run, longer: Run, act: Act, m: string)
    requires |run| <= |longer| && run == longer[..|run|] && Appended(run, Everything(run), act, m)
    ensures Appended(longer, Everything(longer), act, m)
  {
    var i :| i in Everything(run) && i < |run| && run[i].act == act && run[i].author == m;
    assert longer[i] == run[i];
  }

  /** No settlement has been published at all. */
  ghost predicate Unpublished(run: Run) {
    forall i | 0 <= i < |run| :: !run[i].act.Publish?
  }

  /** A participant can acknowledge, unless it has. */
  lemma EnsureAcknowledged(w: World, run: Run, k: nat, p: Proposal, m: string) returns (r: Run)
    requires Open(w, run, k, p) && IsParticipant(p, m)
    ensures Open(w, r, k, p) && |run| <= |r| && run == r[..|run|] && Appended(r, Everything(r), Acknowledge(p), m)
    ensures Unpublished(run) ==> Unpublished(r)
  {
    hide ValidRun, SignaturesExist, ConflictFree, Present, SettlementTerms, Ledger.ValidTerms, ExchangeOfCut,
         ResolveProgress,
         ResolveRecords, HoldsExchange, AckOf, CausallyClosed, StateAllows;
    var act := Acknowledge(p);
    if Appended(run, Everything(run), act, m) {
      r := run;
    } else {
      AcceptanceFacts(w, run, k, p);
      TimeOf(w, run, k);
      AcknowledgementAllowed(w, run, k, p, m);
      var e := TakeStep(w, run, k, p, m, act, run[k].time);
      NewAcknowledgement(w, run, k, p, e);
      StaysOpen(w, run, k, p, e);
      r := run + [e];
      assert r[|run|] == e && |run| in Everything(r);
    }
  }

  lemma NewAcknowledgement(w: World, run: Run, k: nat, p: Proposal, e: Event)
    requires ValidRun(w, run) && k < |run| && run[k].act == Act.Accept(p)
    requires e.act == Acknowledge(p) && !Appended(run, Everything(run), Acknowledge(p), e.author)
    ensures NewStep(run, e)
  {
    hide ValidRun;
    forall i | 0 <= i < |run| && SameStep(run[i], e)
      ensures run[i].author != e.author
    {
      OneAcceptedProposalPerId(w, run, i, k);
      assert i in Everything(run);
    }
  }

  lemma AcknowledgementAllowed(w: World, run: Run, k: nat, p: Proposal, m: string)
    requires Open(w, run, k, p) && IsParticipant(p, m)
    ensures StateAllows(w, run, m, Acknowledge(p))
  {
    hide ValidRun, SignaturesExist, ConflictFree, Present, SettlementTerms, Ledger.ValidTerms, ResolveProgress,
         ResolveRecords, HoldsExchange, CausallyClosed, AcknowledgementId, ValidAccepted;
    AcceptanceFacts(w, run, k, p);
    var x := FullState(w, run);
    assert k in Everything(run);
    assert p in x.accepted;
  }

  /** The participant has attested the terms. */
  ghost predicate Attested(run: Run, p: Proposal, m: string) {
    exists i :: 0 <= i < |run| && run[i].act.AttestTerms? && run[i].act.proposal == p && run[i].author == m
  }

  lemma AttestedStays(run: Run, longer: Run, p: Proposal, m: string)
    requires |run| <= |longer| && run == longer[..|run|] && Attested(run, p, m)
    ensures Attested(longer, p, m)
  {
    var i :| 0 <= i < |run| && run[i].act.AttestTerms? && run[i].act.proposal == p && run[i].author == m;
    assert longer[i] == run[i];
  }

  ghost predicate BothAcknowledged(run: Run, p: Proposal) {
    Appended(run, Everything(run), Acknowledge(p), p.provider) && Appended(run, Everything(run), Acknowledge(p), p.receiver)
  }

  /** With both acknowledgements in the run, its full state confirms the proposal's terms. */
  lemma TermsConfirmed(w: World, run: Run, k: nat, p: Proposal, x: Exchange)
    requires ValidRun(w, run) && CausallyClosed(run, Everything(run)) && ExchangeOfCut(run, Everything(run), x)
    requires k < |run| && run[k].act == Act.Accept(p) && BothAcknowledged(run, p)
    ensures p in x.accepted
    ensures Confirm(w.less, p, AcksFor(x.acks, p.id)).Ok? && Confirm(w.less, p, AcksFor(x.acks, p.id)).value.dualConfirmed
    ensures DualConfirmedTerms(w.less, p, AcksFor(x.acks, p.id)) == Ok(SettlementTerms(p))
  {
    hide ValidRun, CausallyClosed, Confirm, AcksFor, Present, SettlementTerms, ValidAccepted, Appended, Ledger.ValidTerms;
    assert k in Everything(run);
    assert p in x.accepted;
    AcceptanceFacts(w, run, k, p);
    ConfirmsInCut(w, run, Everything(run), x, p);
  }

  function AttestationBy(w: World, p: Proposal, m: string, signature: string): Attestation {
    Attestation(m, RootKeyId(m), w.platform.digest(SettlementTerms(p)), signature)
  }

  lemma AttestationAllowed(w: World, run: Run, k: nat, p: Proposal, m: string, signature: string)
    requires Open(w, run, k, p) && IsParticipant(p, m) && BothAcknowledged(run, p) && Present(signature)
    ensures StateAllows(w, run, m, AttestTerms(p, AttestationBy(w, p, m, signature)))
  {
    hide ValidRun, ConflictFree, Present, SettlementTransferId, Ledger.ValidTerms, ResolveProgress, ExchangeOfCut,
         CanSign,
         ResolveRecords, HoldsExchange, CausallyClosed, AttestationRecordId, ValidAccepted, AcksFor, Confirm, RootKeyId, DualConfirmedTerms;
    AcceptanceFacts(w, run, k, p);
    var x := FullState(w, run);
    TermsConfirmed(w, run, k, p, x);
    RootKeyIdPresent(m);
  }

  /** A participant can attest once both have acknowledged, unless it has. */
  lemma EnsureAttested(w: World, run: Run, k: nat, p: Proposal, m: string) returns (r: Run)
    requires Open(w, run, k, p) && IsParticipant(p, m) && BothAcknowledged(run, p)
    ensures Open(w, r, k, p) && |run| <= |r| && run == r[..|run|] && Attested(r, p, m)
    ensures Unpublished(run) ==> Unpublished(r)
  {
    hide ValidRun, ConflictFree, Present, SettlementTerms, StateAllows, BothAcknowledged, CanSign, AttestationBy;
    if Attested(run, p, m) {
      r := run;
    } else {
      TimeOf(w, run, k);
      var e := AttestationStep(w, run, k, p, m, run[k].time);
      NewAttestation(w, run, k, p, e);
      StaysOpen(w, run, k, p, e);
      r := run + [e];
      assert r[|run|] == e;
    }
  }

  /** The attestation that a participant appends. */
  lemma AttestationStep(w: World, run: Run, k: nat, p: Proposal, m: string, time: string) returns (e: Event)
    requires Open(w, run, k, p) && IsParticipant(p, m) && BothAcknowledged(run, p) && ValidTimestamp(w.platform, time)
    ensures ValidRun(w, run + [e]) && e.author == m && e.time == time && e.view == Everything(run)
    ensures e.act.AttestTerms? && e.act.proposal == p && e.act.attestation.memberId == m
    ensures e.record.envelope == EnvelopeFor(m, e.act, time)
  {
    hide ValidRun, ConflictFree, Present, SettlementTerms, StateAllows, BothAcknowledged, CanSign, EnvelopeFor, ValidTimestamp;
    var j := ParticipantDeclared(w, run, k, p, m);
    var pem := run[j].act.declaration.rootPublicKeyPem;
    assert CanSign(w, TransferContent(SettlementTerms(p)), pem);
    var signature := SignatureFor(w, TransferContent(SettlementTerms(p)), pem);
    AttestationAllowed(w, run, k, p, m, signature);
    OneRoot(w, run, j);
    e := TakeStep(w, run, k, p, m, AttestTerms(p, AttestationBy(w, p, m, signature)), time);
  }

  lemma SignatureFor(w: World, content: SignedContent, pem: string) returns (s: string)
    requires CanSign(w, content, pem)
    ensures Present(s) && w.platform.verifies(content, pem, s)
  {
    s :| Present(s) && w.platform.verifies(content, pem, s);
  }

  lemma NewAttestation(w: World, run: Run, k: nat, p: Proposal, e: Event)
    requires ValidRun(w, run) && k < |run| && run[k].act == Act.Accept(p)
    requires e.act.AttestTerms? && e.act.proposal == p && !Attested(run, p, e.author)
    ensures NewStep(run, e)
  {
    hide ValidRun;
    forall i | 0 <= i < |run| && SameStep(run[i], e)
      ensures run[i].author != e.author
    {
      OneAcceptedProposalPerId(w, run, i, k);
    }
  }

  /** A member declares once, so all its declarations carry one root key. */
  lemma OneRoot(w: World, run: Run, j: nat)
    requires ValidRun(w, run) && j < |run| && run[j].act.Declare?
    ensures forall i | 0 <= i < |run| && run[i].author == run[j].author && run[i].act.Declare? ::
              run[i].act.declaration.rootPublicKeyPem == run[j].act.declaration.rootPublicKeyPem
  {
    hide ValidRun;
    forall i | 0 <= i < |run| && run[i].author == run[j].author && run[i].act.Declare?
      ensures i == j
    {
      DeclareOnce(w, run, i, j);
    }
  }

  // ---- publication ----------------------------------------------------------------------------------------

  lemma AttestationHeld(w: World, run: Run, x: Exchange, i: nat)
    requires ValidRun(w, run) && HoldsExchange(w.platform, w.communityId, RecordsAt(run, Everything(run)), x)
    requires i < |run| && run[i].act.AttestTerms?
    ensures AttestationOf(run[i].act.proposal, run[i].act.attestation) in x.attestations
  {
    hide ValidRun, Carried, DecodeAttestation, AttestationOf, RecordsAt;
    AttestationDecodes(w, run, i);
    RunIsWritten(w, run);
    assert i in Everything(run);
    EventCarried(w, run, Everything(run), i, DecodingAttestations(w.platform), AttestationOf(run[i].act.proposal, run[i].act.attestation));
  }

  /** The resolved attestation state of the proposal holds both attestations. */
  lemma AttestationStateHolds(w: World, run: Run, k: nat, p: Proposal, auths: seq<Authorization>, x: Exchange,
                              confirmations: seq<Confirmation>, states: seq<AttestationState>) returns (st: AttestationState)
    requires ValidRun(w, run) && CausallyClosed(run, Everything(run)) && ExchangeOfCut(run, Everything(run), x)
    requires HoldsExchange(w.platform, w.communityId, RecordsAt(run, Everything(run)), x)
    requires ResolveProgress(w.platform, w.less, auths, x) == Ok(Progress(confirmations, states))
    requires k < |run| && run[k].act == Act.Accept(p) && BothAcknowledged(run, p)
    ensures st in states && st.proposalId == p.id
    ensures forall i | 0 <= i < |run| && run[i].act.AttestTerms? && run[i].act.proposal == p ::
              AttestationOf(p, run[i].act.attestation) in st.attestations
  {
    hide ValidRun, CausallyClosed, HoldsExchange, ExchangeFits, Attest, Confirm, BothAcknowledged, AttestationOf,
         RecordsAt, Confirming;
    assert k in Everything(run);
    assert p in x.accepted;
    var n :| 0 <= n < |x.accepted| && x.accepted[n] == p;
    st := states[n];
    assert Attesting(w.platform, w.less, x.acks, x.attestations)(p) == Ok(st);
    TermsConfirmed(w, run, k, p, x);
    AttestSpec(w.platform, w.less, p, AcksFor(x.acks, p.id), AttestationsFor(x.attestations, p.id));
    forall i | 0 <= i < |run| && run[i].act.AttestTerms? && run[i].act.proposal == p
      ensures AttestationOf(p, run[i].act.attestation) in st.attestations
    {
      AttestationHeld(w, run, x, i);
      NamesProposal(p, run[i].act.attestation);
      HavingMember(x.attestations, AttestationProposal, p.id, AttestationOf(p, run[i].act.attestation));
    }
  }

  lemma NamesProposal(p: Proposal, a: Attestation)
    ensures AttestationOf(p, a).sourceProposalId == p.id && AttestationOf(p, a).attestation == a
  {
  }

  lemma Composes(less: (string, string) -> bool, p: Proposal, acks: seq<Acknowledgement>, a: Attestation, b: Attestation)
    requires DualConfirmedTerms(less, p, acks) == Ok(SettlementTerms(p)) && Ledger.ValidTerms(SettlementTerms(p))
    requires Confirm(less, p, acks).Ok? && Confirm(less, p, acks).value.dualConfirmed && IsAccepted(p) && Present(p.id)
    requires Ledger.ValidAttestation(a) && Ledger.ValidAttestation(b) && a.memberId == p.provider
             && b.memberId == p.receiver
    requires p.provider != p.receiver
    ensures ComposeSettlementTransfer(less, p, acks, [a, b]) == Ok(Transfer(SettlementTerms(p), [a, b]))
  {
    hide Confirm, DualConfirmedTerms, Present, SettlementTransferId, Ledger.ValidAttestation;
    var t := Transfer(SettlementTerms(p), [a, b]);
    assert Ledger.CreateTransfer(t) == Ok(t);
  }

  lemma AttestationWellFormed(w: World, run: Run, i: nat)
    requires ValidRun(w, run) && i < |run| && run[i].act.AttestTerms?
    ensures Ledger.ValidAttestation(run[i].act.attestation) && run[i].act.attestation.memberId == run[i].author
  {
    hide ValidRun, ResolveRecords, SignedWithRoot, AcksFor, CreateSettlementAttestation, AttestationOf, Present, RootKeyId;
    GuardHeld(w, run, i);
  }

  /** Once both have attested, the state of either participant allows it to publish. */
  lemma PublicationAllowed(w: World, run: Run, k: nat, p: Proposal) returns (t: Transfer)
    requires Open(w, run, k, p) && BothAcknowledged(run, p) && Attested(run, p, p.provider) && Attested(run, p, p.receiver)
    ensures t.terms == SettlementTerms(p)
    ensures forall m | IsParticipant(p, m) :: StateAllows(w, run, m, Publish(p, t))
  {
    hide ValidRun, ConflictFree, SignaturesExist, Present, SettlementTerms, Ledger.ValidTerms, ResolveProgress, ExchangeOfCut,
         ResolveRecords, HoldsExchange, CausallyClosed, ValidAccepted, AcksFor, Confirm, DualConfirmedTerms, BothAcknowledged,
         ComposeSettlementTransfer, AttestationOf, Ledger.ValidAttestation;
    var i :| 0 <= i < |run| && run[i].act.AttestTerms? && run[i].act.proposal == p && run[i].author == p.provider;
    var j :| 0 <= j < |run| && run[j].act.AttestTerms? && run[j].act.proposal == p && run[j].author == p.receiver;
    var a, b := run[i].act.attestation, run[j].act.attestation;
    AttestationWellFormed(w, run, i);
    AttestationWellFormed(w, run, j);
    AcceptanceFacts(w, run, k, p);
    var x := FullState(w, run);
    var s := ResolveRecords(w.platform, w.less, w.communityId, RecordsAt(run, Everything(run))).value;
    TermsConfirmed(w, run, k, p, x);
    var st := AttestationStateHolds(w, run, k, p, s.authorizations, x, s.confirmations, s.attestationStates);
    Composes(w.less, p, AcksFor(x.acks, p.id), a, b);
    NamesProposal(p, a);
    NamesProposal(p, b);
    t := Transfer(SettlementTerms(p), [a, b]);
    var c, d := AttestationOf(p, a), AttestationOf(p, b);
    assert c in st.attestations && d in st.attestations
      && ComposeSettlementTransfer(w.less, p, AcksFor(s.acknowledgements, p.id), [c.attestation, d.attestation]) == Ok(t);
  }

  /** A published transfer is among the transfers of the full state. */
  lemma PublishedIsHeld(w: World, run: Run, i: nat)
    requires ValidRun(w, run) && ConflictFree(run, Everything(run)) && i < |run| && run[i].act.Publish?
    ensures var s := ResolveRecords(w.platform, w.less, w.communityId, RecordsAt(run, Everything(run)));
            s.Ok? && run[i].act.transfer in s.value.transfers
  {
    hide ValidRun, ConflictFree, ResolveRecords, Carried, DecodeTransfer, RecordsAt, ExchangeOfCut, CausallyClosed,
         ResolveProgress;
    var x := FullState(w, run);
    TransferDecodes(w, run, i);
    RunIsWritten(w, run);
    assert i in Everything(run);
    EventCarried(w, run, Everything(run), i, DecodingTransfers(w.platform), run[i].act.transfer);
  }

  // ---- completion -------------------------------------------------------------------------------------------

  lemma EnsureBothAcknowledged(w: World, run: Run, k: nat, p: Proposal) returns (r: Run)
    requires Open(w, run, k, p)
    ensures Open(w, r, k, p) && |run| <= |r| && run == r[..|run|] && BothAcknowledged(r, p)
    ensures Unpublished(run) ==> Unpublished(r)
  {
    hide Open, Appended, Everything, Unpublished;
    var a := EnsureAcknowledged(w, run, k, p, p.provider);
    r := EnsureAcknowledged(w, a, k, p, p.receiver);
    AppendedStays(a, r, Acknowledge(p), p.provider);
    assert run == r[..|run|];
  }

  lemma EnsureBothAttested(w: World, run: Run, k: nat, p: Proposal) returns (r: Run)
    requires Open(w, run, k, p) && BothAcknowledged(run, p)
    ensures Open(w, r, k, p) && |run| <= |r| && run == r[..|run|] && BothAcknowledged(r, p)
    ensures Attested(r, p, p.provider) && Attested(r, p, p.receiver)
    ensures Unpublished(run) ==> Unpublished(r)
  {
    hide Open, Appended, Attested, Everything, Unpublished;
    var a := EnsureAttested(w, run, k, p, p.provider);
    AppendedStays(run, a, Acknowledge(p), p.provider);
    AppendedStays(run, a, Acknowledge(p), p.receiver);
    r := EnsureAttested(w, a, k, p, p.receiver);
    AppendedStays(a, r, Acknowledge(p), p.provider);
    AppendedStays(a, r, Acknowledge(p), p.receiver);
    AttestedStays(a, r, p, p.provider);
    assert run == r[..|run|];
  }

  lemma PublishOnce(w: World, run: Run, k: nat, p: Proposal) returns (e: Event)
    requires Open(w, run, k, p) && BothAcknowledged(run, p) && Attested(run, p, p.provider) && Attested(run, p, p.receiver)
    ensures ValidRun(w, run + [e]) && ConflictFree(run + [e], Everything(run + [e]))
    ensures e.act.Publish? && e.act.proposal == p && e.act.transfer.terms == SettlementTerms(p)
  {
    hide ValidRun, ConflictFree, SignaturesExist, SettlementTerms, StateAllows, Appended, Attested, Everything;
    TimeOf(w, run, k);
    var t := PublicationAllowed(w, run, k, p);
    e := TakeStep(w, run, k, p, p.provider, Publish(p, t), run[k].time);
    StaysConflictFree(w, run, e);
  }

  /** A replica that holds everything has the transfer, and its ledger accepts it or rejects it at the floor. */
  ghost predicate Settled(w: World, run: Run, t: Transfer) {
    var s := ResolveRecords(w.platform, w.less, w.communityId, RecordsAt(run, Everything(run)));
    && s.Ok? && t in s.value.transfers
    && (t in s.value.ledger.transfers <==> Ledger.Rejection(t, Ledger.MinimumBalance) !in s.value.ledger.rejected)
  }

  lemma PublishedIsSettled(w: World, run: Run, i: nat)
    requires ValidRun(w, run) && ConflictFree(run, Everything(run)) && i < |run| && run[i].act.Publish?
    requires run[i].act.transfer.terms.reverses.None?
    ensures Settled(w, run, run[i].act.transfer)
  {
    hide ValidRun, ConflictFree, ResolveRecords, RecordsAt, Everything;
    PublishedIsHeld(w, run, i);
    ResolvedTransferIsDecided(w.platform, w.less, w.communityId, RecordsAt(run, Everything(run)), run[i].act.transfer);
  }

  /** From any run in which a proposal is accepted and not yet published, its two members can go on, each
      from the state it resolves, until the settlement is published, a replica that holds everything resolves
      it, and its ledger decides it. */
  lemma AcceptedExchangeCompletes(w: World, run: Run, k: nat, p: Proposal) returns (r: Run, t: Transfer)
    requires Open(w, run, k, p)
    ensures ValidRun(w, r) && |run| <= |r| && run == r[..|run|] && ConflictFree(r, Everything(r))
    ensures t.terms == SettlementTerms(p) && Settled(w, r, t)
    ensures Unpublished(run) ==>
              (t in ResolveRecords(w.platform, w.less, w.communityId, RecordsAt(r, Everything(r))).value.ledger.transfers
               <==> p.minutes <= 3000)
  {
    hide Open, ValidRun, ConflictFree, BothAcknowledged, Attested, ResolveRecords, RecordsAt, Settled, Everything, Unpublished,
         SettlementTransferId;
    var a := EnsureBothAcknowledged(w, run, k, p);
    var b := EnsureBothAttested(w, a, k, p);
    var e := PublishOnce(w, b, k, p);
    t := e.act.transfer;
    r := b + [e];
    assert r[|b|] == e;
    PublishedIsSettled(w, r, |b|);
    if Unpublished(run) { OnlySettlement(w, b, e); }
    assert run == b[..|run|];
    assert run == r[..|run|];
  }

  /** The first settlement of a run reaches the ledger up to fifty hours. */
  lemma OnlySettlement(w: World, run: Run, e: Event)
    requires ValidRun(w, run + [e]) && ConflictFree(run + [e], Everything(run + [e])) && Unpublished(run)
    requires e.act.Publish? && e.act.transfer.terms.reverses.None?
    ensures var s := ResolveRecords(w.platform, w.less, w.communityId, RecordsAt(run + [e], Everything(run + [e])));
            s.Ok? && (e.act.transfer in s.value.ledger.transfers <==> e.act.transfer.terms.minutes <= 3000)
  {
    hide ValidRun, ConflictFree, ResolveRecords, RecordsAt, Everything, HoldsExchange, CausallyClosed, ResolveProgress;
    var longer := run + [e];
    assert longer[|run|] == e && forall i | 0 <= i < |run| :: longer[i] == run[i];
    PublishedIsHeld(w, longer, |run|);
    var x := FullState(w, longer);
    assert forall u | u in x.transfers :: u == e.act.transfer;
    LoneTransferIsDecided(w.platform, w.less, w.communityId, RecordsAt(longer, Everything(longer)), e.act.transfer);
  }

  // ---- from nothing to an accepted exchange -----------------------------------------------------------------

  /** Neither the member nor its feed has been declared. */
  ghost predicate NewMember(run: Run, d: Declaration) {
    forall i | 0 <= i < |run| && run[i].act.Declare? ::
      run[i].author != d.memberId && run[i].act.declaration.feedPublicKey != d.feedPublicKey
  }

  function JoinEvent(run: Run, d: Declaration): Event {
    Event(d.memberId, Declare(d), d.occurredAt, Record(EnvelopeFor(d.memberId, Declare(d), d.occurredAt), None), Everything(run))
  }

  /** A member with a valid declaration can join any run. */
  lemma MemberJoins(w: World, run: Run, d: Declaration)
    requires ValidRun(w, run) && ValidDeclaration(w.platform, d) && d.communityId == w.communityId && NewMember(run, d)
    ensures ValidRun(w, run + [JoinEvent(run, d)])
  {
    hide ResolveRecords, EnvelopeFor, MemberIdOf, Present, ValidRun, Everything, CausallyClosed;
    var e := JoinEvent(run, d);
    var longer := run + [e];
    EverythingClosed(w, run);
    ClosedStays(run, e, Everything(run));
    assert longer[|run|] == e && forall i | 0 <= i < |run| :: longer[i] == run[i];
    assert HoldsView(longer, |run|) && Fresh(longer, |run|);
    RunGoesOn(w, run, e);
  }

  /** The two members have declared, and nothing has been written about the proposal. */
  ghost predicate Ready(w: World, run: Run, q: Proposal, i: nat, j: nat) {
    && ValidRun(w, run) && SignaturesExist(w) && ConflictFree(run, Everything(run))
    && i < |run| && run[i].act.Declare? && run[i].author == q.creator
    && j < |run| && run[j].act.Declare? && run[j].author == Counterparty(q)
    && ValidProposed(q) && q.communityId == w.communityId && SeparatorFree(q.id)
    && forall n | 0 <= n < |run| && !run[n].act.Declare? :: run[n].act.proposal.id != q.id
  }

  lemma SignNext(w: World, run: Run, author: string, act: Act, time: string, j: nat) returns (e: Event)
    requires ValidRun(w, run) && SignaturesExist(w) && (act.Propose? || act.Accept?)
    requires act.Propose? ==> forall i | 0 <= i < |run| && run[i].act.Propose? :: run[i].act.proposal.id != act.proposal.id
    requires j < |run| && run[j].author == author && run[j].act.Declare?
    requires ValidTimestamp(w.platform, time) && StateAllows(w, run, author, act)
    ensures ValidRun(w, run + [e]) && e.author == author && e.act == act && e.view == Everything(run)
    ensures e.record.envelope == EnvelopeFor(author, act, time)
  {
    hide ValidRun, StateAllows, EnvelopeFor, Present, CanSign, Everything, ValidTimestamp;
    DeclaredKeyParses(w, run, j);
    var pem := run[j].act.declaration.rootPublicKeyPem;
    assert CanSign(w, RecordContent(EnvelopeFor(author, act, time)), pem);
    var signature := SignatureFor(w, RecordContent(EnvelopeFor(author, act, time)), pem);
    NextIsValid(w, run, author, act, time, signature, j);
    e := NextEvent(run, author, act, time, signature);
  }

  lemma ProposalStep(w: World, run: Run, q: Proposal, i: nat, j: nat) returns (e: Event)
    requires Ready(w, run, q, i, j)
    ensures ValidRun(w, run + [e]) && e.author == q.creator && e.act == Propose(q)
  {
    hide ValidRun, ResolveRecords, ConflictFree, Present, ValidProposalTerms, SeparatorFree, ExchangeOfCut,
         CausallyClosed,
         ResolveProgress, HoldsExchange, RecordsAt, Everything, SignaturesExist;
    TimeOf(w, run, i);
    var x := FullState(w, run);
    assert StateAllows(w, run, q.creator, Propose(q));
    e := SignNext(w, run, q.creator, Propose(q), run[i].time, i);
  }

  lemma ProposalHeld(w: World, run: Run, x: Exchange, i: nat)
    requires ValidRun(w, run) && HoldsExchange(w.platform, w.communityId, RecordsAt(run, Everything(run)), x)
    requires i < |run| && run[i].act.Propose?
    ensures run[i].act.proposal in x.proposed
  {
    hide ValidRun, Carried, DecodeProposed, RecordsAt, Everything;
    ProposalDecodes(w, run, i);
    RunIsWritten(w, run);
    assert i in Everything(run);
    EventCarried(w, run, Everything(run), i, DecodingProposed(w.platform), run[i].act.proposal);
  }

  /** The counterparty can accept, and accept again: an acceptance leaves the proposal among the proposed ones. */
  lemma AcceptanceStep(w: World, run: Run, q: Proposal, n: nat, j: nat, time: string) returns (e: Event)
    requires ValidRun(w, run) && SignaturesExist(w) && ConflictFree(run, Everything(run)) && ValidProposed(q)
    requires n < |run| && run[n].act == Propose(q) && j < |run| && run[j].act.Declare? && run[j].author == Counterparty(q)
    requires ValidTimestamp(w.platform, time)
    ensures ValidRun(w, run + [e]) && e.author == Counterparty(q) && e.act == Accept(AcceptedBy(q, Counterparty(q)))
    ensures e.view == Everything(run) && e.record.envelope == EnvelopeFor(e.author, e.act, time)
  {
    hide ValidRun, ResolveRecords, ConflictFree, Present, ExchangeOfCut, CausallyClosed, ResolveProgress, HoldsExchange,
         RecordsAt, Everything, SignaturesExist, ValidProposed, Counterparty, ValidTimestamp, EnvelopeFor;
    var author := Counterparty(q);
    var p := AcceptedBy(q, author);
    var x := FullStateProposed(w, run);
    ProposalHeld(w, run, x, n);
    assert StateAllows(w, run, author, Accept(p));
    e := SignNext(w, run, author, Accept(p), time, j);
  }

  lemma FullStateProposed(w: World, run: Run) returns (x: Exchange)
    requires ValidRun(w, run) && run != [] && ConflictFree(run, Everything(run))
    ensures var s := ResolveRecords(w.platform, w.less, w.communityId, RecordsAt(run, Everything(run)));
            s.Ok? && s.value.proposed == x.proposed
    ensures HoldsExchange(w.platform, w.communityId, RecordsAt(run, Everything(run)), x)
  {
    hide ValidRun, ResolveRecords, ConflictFree, HoldsExchange, CausallyClosed, CommunityEnvelopes, ReducedExchange,
         ResolveAuthorizations, AllMemberSigned, ResolveProgress, ResolveLedger, RecordsAt, Everything;
    EverythingClosed(w, run);
    assert 0 in Everything(run);
    GoodCutResolves(w, run, Everything(run));
    x := ResolvedStages(w.platform, w.less, w.communityId, RecordsAt(run, Everything(run)));
  }

  /** Two members who have declared can bring a new proposal to acceptance. */
  lemma ExchangeOpens(w: World, run: Run, q: Proposal, i: nat, j: nat) returns (r: Run)
    requires Ready(w, run, q, i, j)
    ensures |run| + 2 == |r| && run == r[..|run|] && Open(w, r, |run| + 1, AcceptedBy(q, Counterparty(q)))
    ensures Unpublished(run) ==> Unpublished(r)
  {
    hide ValidRun, ConflictFree, SignaturesExist, ValidProposed, Counterparty, SeparatorFree, Everything;
    TimeOf(w, run, j);
    var e, f := ProposedAndAccepted(w, run, q, i, j, run[j].time);
    r := run + [e] + [f];
    StaysConflictFree(w, run + [e], f);
    assert r[|run| + 1] == f && r[|run|] == e && forall m | 0 <= m < |run| :: r[m] == run[m];
  }

  lemma ProposedAndAccepted(w: World, run: Run, q: Proposal, i: nat, j: nat, time: string) returns (e: Event, f: Event)
    requires Ready(w, run, q, i, j) && ValidTimestamp(w.platform, time)
    ensures ValidRun(w, run + [e]) && ConflictFree(run + [e], Everything(run + [e])) && e.act == Propose(q)
    ensures ValidRun(w, run + [e] + [f]) && f.author == Counterparty(q) && f.act == Accept(AcceptedBy(q, Counterparty(q)))
    ensures f.record.envelope == EnvelopeFor(f.author, f.act, time) && NewStep(run + [e], f)
  {
    hide ValidRun, ConflictFree, SignaturesExist, ValidProposed, Counterparty, SeparatorFree, Everything, EnvelopeFor, ValidTimestamp;
    e := ProposalStep(w, run, q, i, j);
    var proposed := run + [e];
    StaysConflictFree(w, run, e);
    assert forall m | 0 <= m < |run| :: proposed[m] == run[m];
    assert proposed[|run|] == e;
    f := AcceptanceStep(w, proposed, q, |run|, j, time);
  }

  /** What two members need to exchange from nothing: valid declarations of different feeds, and a valid proposal. */
  ghost predicate CanExchange(w: World, d: Declaration, f: Declaration, q: Proposal) {
    && SignaturesExist(w) && ValidDeclaration(w.platform, d) && ValidDeclaration(w.platform, f)
    && d.communityId == f.communityId == w.communityId && d.feedPublicKey != f.feedPublicKey
    && ValidProposed(q) && q.communityId == w.communityId && SeparatorFree(q.id)
    && q.creator == d.memberId && Counterparty(q) == f.memberId
  }

  /** Two members can join, each from what it holds. */
  lemma TwoMembersJoin(w: World, d: Declaration, f: Declaration, q: Proposal) returns (r: Run)
    requires CanExchange(w, d, f, q)
    ensures |r| == 2 && Ready(w, r, q, 0, 1) && Unpublished(r)
  {
    hide SignaturesExist, ValidDeclaration, SeparatorFree, JoinEvent, Present;
    DifferentMembers(q);
    MemberJoins(w, [], d);
    var first := [] + [JoinEvent([], d)];
    JoinsAs([], d);
    MemberJoins(w, first, f);
    JoinsAs(first, f);
    r := first + [JoinEvent(first, f)];
    StaysConflictFree(w, [], JoinEvent([], d));
    StaysConflictFree(w, first, JoinEvent(first, f));
  }

  /** From nothing, two members open an exchange. */
  lemma TwoMembersOpen(w: World, d: Declaration, f: Declaration, q: Proposal) returns (r: Run)
    requires CanExchange(w, d, f, q)
    ensures |r| == 4 && Open(w, r, 3, AcceptedBy(q, f.memberId)) && Unpublished(r)
  {
    hide Ready, Open, SignaturesExist, ValidDeclaration, SeparatorFree, ValidProposed;
    var both := TwoMembersJoin(w, d, f, q);
    r := ExchangeOpens(w, both, q, 0, 1);
  }

  /** From nothing, two members who can declare and sign settle an exchange: some run in which each acts only
      from the state it resolves ends with the settlement in everybody's state, and in everybody's ledger
      exactly when it is for at most fifty hours. */
  lemma TwoMembersSettle(w: World, d: Declaration, f: Declaration, q: Proposal) returns (r: Run, t: Transfer)
    requires CanExchange(w, d, f, q)
    ensures ValidRun(w, r) && ConflictFree(r, Everything(r))
    ensures t.terms == SettlementTerms(AcceptedBy(q, f.memberId)) && Settled(w, r, t)
    ensures t in ResolveRecords(w.platform, w.less, w.communityId, RecordsAt(r, Everything(r))).value.ledger.transfers
            <==> q.minutes <= 3000
  {
    hide Open, CanExchange, ValidRun, ConflictFree, ResolveRecords, RecordsAt, SettlementTerms, Settled, Everything, Unpublished;
    var open := TwoMembersOpen(w, d, f, q);
    r, t := AcceptedExchangeCompletes(w, open, 3, AcceptedBy(q, f.memberId));
  }

  lemma DifferentMembers(q: Proposal)
    requires ValidProposed(q)
    ensures q.creator != Counterparty(q)
  {
    hide Present;
  }

  lemma JoinsAs(run: Run, d: Declaration)
    ensures JoinEvent(run, d).author == d.memberId && JoinEvent(run, d).act == Declare(d)
  {
  }
}

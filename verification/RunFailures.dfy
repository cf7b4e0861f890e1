/** Runs that end in a failure of every replica holding them: each append is one that its author's own resolved
    state allows, and two of them carry different envelopes under one record id. */
module RunFailures {
  import opened Core
  import opened Types
  import opened Identity
  import opened Settlement
  import opened Records
  import opened Resolve
  import opened ProtocolRun
  import opened RunFacts
  import opened CutResolution
  import opened CutExchange
  import opened RunCompletion

  /** Nobody who holds everything can resolve the run any more. */
  ghost predicate Fails(w: World, run: Run) {
    ResolveRecords(w.platform, w.less, w.communityId, RecordsAt(run, Everything(run))).Error?
  }

  /** What two members would each append next can be appended by both, neither having seen the other's. */
  lemma ConcurrentAppends(w: World, run: Run, e: Event, f: Event)
    requires ValidRun(w, run + [e]) && ValidRun(w, run + [f]) && !f.act.Declare? && !f.act.Propose?
    ensures ValidRun(w, run + [e] + [f])
  {
    hide ResolveRecords, Guard, EnvelopeFor, RecordsAt, SettlementTerms, ValidTimestamp, Present;
    var one, other, both := run + [e], run + [f], run + [e] + [f];
    var n := |run|;
    assert other[n] == f && both[n + 1] == f && forall i | 0 <= i < n :: other[i] == run[i] == both[i];
    assert ValidAppend(w, other, n);
    RecordsOfPrefix(run, f, f.view);
    RecordsOfPrefix(run, e, f.view);
    RecordsOfPrefix(one, f, f.view);
    assert HoldsView(both, n + 1) && Fresh(both, n + 1);
    assert SignedWithRoot(w, both, n + 1) by {
      var j := RootInView(w, other, n);
      assert both[j] == other[j];
    }
    RunGoesOn(w, one, f);
  }

  lemma RootInView(w: World, run: Run, i: nat) returns (j: nat)
    requires i < |run| && SignedWithRoot(w, run, i)
    ensures j in run[i].view && j < i && run[j].author == run[i].author && run[j].act.Declare?
    ensures run[i].record.proof.Some? && run[i].record.proof.value.keyId == RootKeyId(run[i].author)
    ensures Present(run[i].record.proof.value.signature)
    ensures w.platform.verifies(RecordContent(run[i].record.envelope), run[j].act.declaration.rootPublicKeyPem,
                                run[i].record.proof.value.signature)
    ensures run[i].act.AttestTerms? ==>
              w.platform.verifies(TransferContent(SettlementTerms(run[i].act.proposal)), run[j].act.declaration.rootPublicKeyPem,
                                  run[i].act.attestation.signature)
  {
    hide SettlementTerms, Present;
    j :| j in run[i].view && j < i && run[j].author == run[i].author && run[j].act.Declare?
      && run[i].record.proof.Some?
      && run[i].record.proof.value.keyId == RootKeyId(run[i].author)
      && Present(run[i].record.proof.value.signature)
      && w.platform.verifies(RecordContent(run[i].record.envelope), run[j].act.declaration.rootPublicKeyPem,
                             run[i].record.proof.value.signature)
      && (run[i].act.AttestTerms? ==>
            w.platform.verifies(TransferContent(SettlementTerms(run[i].act.proposal)), run[j].act.declaration.rootPublicKeyPem,
                                run[i].act.attestation.signature));
  }

  lemma ConflictFailsRun(w: World, run: Run, i: nat, j: nat)
    requires ValidRun(w, run) && i < |run| && j < |run|
    requires EnvelopeAt(run, i).id == EnvelopeAt(run, j).id && EnvelopeAt(run, i) != EnvelopeAt(run, j)
    ensures Fails(w, run)
  {
    hide ValidRun, ResolveRecords, RecordsAt;
    assert i in Everything(run) && j in Everything(run);
    ConflictFails(w, run, Everything(run), i, j);
  }

  // ---- two publishers ----------------------------------------------------------------------------------------

  /** Once both have attested, provider and receiver can each publish the same settlement, both from the state
      that everything before resolves to; and then no replica that holds both resolves the community again. */
  lemma TwoPublications(w: World, run: Run, k: nat, p: Proposal) returns (e: Event, f: Event)
    requires Open(w, run, k, p) && BothAcknowledged(run, p) && Attested(run, p, p.provider) && Attested(run, p, p.receiver)
    ensures ValidRun(w, run + [e] + [f]) && e.view == f.view == Everything(run)
    ensures e.author == p.provider && f.author == p.receiver
    ensures e.act.Publish? && e.act.proposal == p && f.act == e.act
    ensures Fails(w, run + [e] + [f])
  {
    hide ValidRun, ConflictFree, SignaturesExist, SettlementTerms, StateAllows, Appended, Attested, Everything, EnvelopeFor,
         ValidTimestamp, ResolveRecords, RecordsAt;
    TimeOf(w, run, k);
    AcceptanceFacts(w, run, k, p);
    var t := PublicationAllowed(w, run, k, p);
    e := TakeStep(w, run, k, p, p.provider, Publish(p, t), run[k].time);
    f := TakeStep(w, run, k, p, p.receiver, Publish(p, t), run[k].time);
    ConcurrentAppends(w, run, e, f);
    var r := run + [e] + [f];
    assert r[|run|] == e && r[|run| + 1] == f;
    assert |run| in Everything(r) && |run| + 1 in Everything(r);
    DoublePublicationFails(w, r, Everything(r), |run|, |run| + 1);
  }

  /** From nothing, two members reach that failure. */
  lemma TwoMembersPublishTwice(w: World, d: Declaration, f: Declaration, q: Proposal) returns (r: Run)
    requires CanExchange(w, d, f, q)
    ensures ValidRun(w, r) && Fails(w, r)
  {
    hide Open, CanExchange, Fails, BothAcknowledged, Attested, ValidRun;
    var p := AcceptedBy(q, f.memberId);
    var open := TwoMembersOpen(w, d, f, q);
    var a := EnsureBothAcknowledged(w, open, 3, p);
    var b := EnsureBothAttested(w, a, 3, p);
    var e, g := TwoPublications(w, b, 3, p);
    r := b + [e] + [g];
  }

  // ---- a repeated acceptance ---------------------------------------------------------------------------------

  /** The counterparty can accept a proposal again at another time, even from a state that shows its first
      acceptance: the proposal stays among the proposed ones. No replica that holds both resolves. */
  lemma TwoAcceptances(w: World, run: Run, q: Proposal, i: nat, j: nat, first: string, second: string) returns (r: Run)
    requires Ready(w, run, q, i, j)
    requires first != second && ValidTimestamp(w.platform, first) && ValidTimestamp(w.platform, second)
    ensures |r| == |run| + 3 && run == r[..|run|] && ValidRun(w, r) && Fails(w, r)
    ensures r[|run| + 1].act == r[|run| + 2].act == Act.Accept(AcceptedBy(q, Counterparty(q)))
    ensures r[|run| + 2].view == Everything(r[..|run| + 2])
  {
    hide ValidRun, ConflictFree, SignaturesExist, ValidProposed, Counterparty, SeparatorFree, Everything, ValidTimestamp, Fails;
    var e, f := ProposedAndAccepted(w, run, q, i, j, first);
    var once := run + [e] + [f];
    StaysConflictFree(w, run + [e], f);
    assert once[|run|] == e && once[|run| + 1] == f && forall m | 0 <= m < |run| :: once[m] == run[m];
    var g := AcceptanceStep(w, once, q, |run|, j, second);
    r := once + [g];
    assert r[|run| + 1] == f && r[|run| + 2] == g && r[..|run| + 2] == once && r[..|run|] == run;
    ConflictFailsRun(w, r, |run| + 1, |run| + 2);
  }

  // ---- a repeated attestation --------------------------------------------------------------------------------

  /** A participant whose list of attestations is out of date attests twice from one state. No replica that
      holds both resolves. */
  lemma TwoAttestations(w: World, run: Run, k: nat, p: Proposal, m: string, first: string, second: string)
    returns (e: Event, f: Event)
    requires Open(w, run, k, p) && IsParticipant(p, m) && BothAcknowledged(run, p)
    requires first != second && ValidTimestamp(w.platform, first) && ValidTimestamp(w.platform, second)
    ensures ValidRun(w, run + [e] + [f]) && e.view == f.view == Everything(run)
    ensures e.author == f.author == m && e.act.AttestTerms? && f.act.AttestTerms? && e.act.proposal == f.act.proposal == p
    ensures Fails(w, run + [e] + [f])
  {
    hide ValidRun, ConflictFree, SignaturesExist, Appended, Everything, ValidTimestamp, Fails, AttestationOf, AttestationRecordId;
    e := AttestationStep(w, run, k, p, m, first);
    f := AttestationStep(w, run, k, p, m, second);
    ConcurrentAppends(w, run, e, f);
    var r := run + [e] + [f];
    assert r[|run|] == e && r[|run| + 1] == f;
    ConflictFailsRun(w, r, |run|, |run| + 1);
  }

  // ---- a world in which all this happens -----------------------------------------------------------------------

  /** Every text is a key that signs everything, and its own fingerprint. */
  ghost function ExampleWorld(less: (string, string) -> bool): World {
    World(Platform(_ => true, _ => true, text => text, text => text, _ => "digest", (_, _, _) => true), less, "community")
  }

  ghost function ExampleDeclaration(name: char): Declaration {
    Declaration("phm_" + [name], "community", seq(64, _ => name), "time", [name], "signature")
  }

  ghost function ExampleProposal(): Proposal {
    Proposal("p", "community", "offer", "request", "phm_a", "phm_b", "phm_a", None, 60, ProposalStatus.Proposed)
  }

  lemma ExampleDeclarationValid(less: (string, string) -> bool, name: char)
    requires name == 'a' || name == 'b'
    ensures ValidDeclaration(ExampleWorld(less).platform, ExampleDeclaration(name))
  {
    hide Present;
    PresentWord([name]);
    PresentWord("community");
    PresentWord("time");
  }

  lemma ExampleCanExchange(less: (string, string) -> bool)
    ensures CanExchange(ExampleWorld(less), ExampleDeclaration('a'), ExampleDeclaration('b'), ExampleProposal())
  {
    hide Present, ValidDeclaration;
    var w, d, f := ExampleWorld(less), ExampleDeclaration('a'), ExampleDeclaration('b');
    ExampleDeclarationValid(less, 'a');
    ExampleDeclarationValid(less, 'b');
    PresentWord("p");
    PresentWord("community");
    PresentWord("offer");
    PresentWord("request");
    PresentWord("phm_a");
    PresentWord("phm_b");
    PresentWord("digest");
    assert d.feedPublicKey[0] != f.feedPublicKey[0];
    forall content, pem
      ensures CanSign(w, content, pem)
    {
      assert Present("p") && w.platform.verifies(content, pem, "p");
    }
  }

  /** Under every comparator there is a world with a valid run that fails, and one whose settlement reaches the ledger. */
  lemma SomeRunFailsAndSomeSettles(less: (string, string) -> bool) returns (failing: Run, settling: Run, t: Transfer)
    ensures ValidRun(ExampleWorld(less), failing) && Fails(ExampleWorld(less), failing)
    ensures ValidRun(ExampleWorld(less), settling) && Settled(ExampleWorld(less), settling, t)
    ensures t in ResolveRecords(ExampleWorld(less).platform, less, "community",
                                RecordsAt(settling, Everything(settling))).value.ledger.transfers
  {
    hide CanExchange, ValidRun, Fails, Settled, ResolveRecords, RecordsAt, Everything, SettlementTerms;
    var w, d, f, q := ExampleWorld(less), ExampleDeclaration('a'), ExampleDeclaration('b'), ExampleProposal();
    ExampleCanExchange(less);
    failing := TwoMembersPublishTwice(w, d, f, q);
    settling, t := TwoMembersSettle(w, d, f, q);
  }
}

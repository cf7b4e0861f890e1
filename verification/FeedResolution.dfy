/** Resolution of member feeds: records count only when they arrive through a feed their author declared. */
module FeedResolution {
  import opened Core
  import opened Sorting
  import opened Reduction
  import opened Types
  import opened Identity
  import opened Records
  import opened Resolve
  import opened IdentityTheorems
  import opened ResolveTheorems

  /** The records read from one known feed. */
  datatype History = History(feedPublicKey: string, records: seq<Record>)

  /** All delivered records, feed by feed. */
  function AllRecords(histories: seq<History>): seq<Record> {
    if histories == [] then [] else AllRecords(histories[..|histories| - 1]) + histories[|histories| - 1].records
  }

  lemma {:induction false} AllRecordsSpec(histories: seq<History>)
    ensures forall r :: r in AllRecords(histories) <==> exists h :: h in histories && r in h.records
  {
    if histories != [] {
      FrontLast(histories);
      AllRecordsSpec(histories[..|histories| - 1]);
    }
  }

  predicate IsDeclaration(communityId: string, r: Record) {
    r.envelope.communityId == communityId && r.envelope.kind.FeedDeclarationKind?
  }

  function DeclaringIn(communityId: string): Record -> bool { (r: Record) => IsDeclaration(communityId, r) }

  /** The declarations that a delivery carries, in order, or failure when one is malformed. */
  function Declarations(platform: Platform, communityId: string, records: seq<Record>): Result<seq<Declaration>> {
    Traverse(Map(Filter(records, DeclaringIn(communityId)), EnvelopeOf), DecodingDeclarations(platform))
  }

  /** No feed is declared by two members. */
  predicate OneOwnerPerFeed(ds: seq<Declaration>) {
    forall d, e | d in ds && e in ds :: Lower(d.feedPublicKey) == Lower(e.feedPublicKey) ==> d.memberId == e.memberId
  }

  predicate Declares(ds: seq<Declaration>, memberId: string, feed: string) {
    exists d :: d in ds && d.memberId == memberId && Lower(d.feedPublicKey) == feed
  }

  /** The record kinds whose arrival feed is checked. Listing closures are not among them. */
  predicate IsProvenanceChecked(e: Envelope) {
    || IsStatementKind(e)
    || e.kind.PublishedListingKind? || e.kind.ProposedProposalKind? || e.kind.AcceptedProposalKind?
    || e.kind.AcknowledgementKind? || e.kind.AttestationKind? || e.kind.TransferKind?
  }

  predicate ArrivesThroughOwnFeed(communityId: string, ds: seq<Declaration>, h: History, r: Record) {
    r.envelope.communityId == communityId && IsProvenanceChecked(r.envelope) ==>
      Declares(ds, r.envelope.authorId, Lower(h.feedPublicKey))
  }

  predicate AllArriveThroughOwnFeeds(communityId: string, ds: seq<Declaration>, histories: seq<History>) {
    forall h | h in histories :: forall r | r in h.records :: ArrivesThroughOwnFeed(communityId, ds, h, r)
  }

  predicate AllFeedsNamed(histories: seq<History>) {
    forall h | h in histories :: IsHistoryKey(h.feedPublicKey)
  }

  /** The state that a set of member feeds determines, or failure. */
  ghost function ResolveFeeds(platform: Platform, less: (string, string) -> bool, communityId: string,
                              histories: seq<History>): Result<ResolvedState> {
    if !AllFeedsNamed(histories) then Error
    else
      var ds :- Declarations(platform, communityId, AllRecords(histories));
      if !OneOwnerPerFeed(ds) || !AllArriveThroughOwnFeeds(communityId, ds, histories) then Error
      else ResolveRecords(platform, less, communityId, AllRecords(histories))
  }

  // ---- the resolution as the program runs it ----------------------------------------------------

  /** `membersByFeedKey` and `keysByMember` hold what these declarations say. */
  ghost predicate Tabulated(ds: seq<Declaration>, owners: map<string, string>, feeds: map<string, set<string>>) {
    && (forall d | d in ds :: Lower(d.feedPublicKey) in owners && owners[Lower(d.feedPublicKey)] == d.memberId)
    && (forall f | f in owners :: Declares(ds, owners[f], f))
    && (forall m, f :: (m in feeds && f in feeds[m]) <==> Declares(ds, m, f))
  }

  lemma TabulateStep(ds: seq<Declaration>, owners: map<string, string>, feeds: map<string, set<string>>, d: Declaration)
    requires Tabulated(ds, owners, feeds) && OneOwnerPerFeed(ds)
    ensures var f := Lower(d.feedPublicKey);
            && (OneOwnerPerFeed(ds + [d]) <==> (f in owners ==> owners[f] == d.memberId))
            && (OneOwnerPerFeed(ds + [d]) ==>
                  Tabulated(ds + [d], owners[f := d.memberId],
                            feeds[d.memberId := (if d.memberId in feeds then feeds[d.memberId] else {}) + {f}]))
  {
    hide Lower;
    var all, f := ds + [d], Lower(d.feedPublicKey);
    assert d in all && forall e :: e in all <==> e in ds || e == d;
    if f in owners && owners[f] != d.memberId {
      var e :| e in ds && e.memberId == owners[f] && Lower(e.feedPublicKey) == f;
      assert e in all;
    } else {
      assert forall m, g :: Declares(all, m, g) <==> Declares(ds, m, g) || (m == d.memberId && g == f);
    }
  }

  /** The loop that tabulates declarations and refuses a feed with two owners. */
  method TabulateDeclarations(ds: seq<Declaration>) returns (ok: bool, feeds: map<string, set<string>>)
    ensures ok <==> OneOwnerPerFeed(ds)
    ensures ok ==> forall m, f :: (m in feeds && f in feeds[m]) <==> Declares(ds, m, f)
  {
    hide Lower, Declares;
    var owners: map<string, string> := map[];
    feeds := map[];
    assert Tabulated([], owners, feeds) by { NothingDeclared(); }
    for i := 0 to |ds|
      invariant OneOwnerPerFeed(ds[..i]) && Tabulated(ds[..i], owners, feeds)
    {
      var d := ds[i];
      TakeNext(ds, i);
      TabulateStep(ds[..i], owners, feeds, d);
      var f := Lower(d.feedPublicKey);
      if f in owners && owners[f] != d.memberId {
        TwoOwnersStay(ds, i + 1);
        return false, feeds;
      }
      owners := owners[f := d.memberId];
      feeds := feeds[d.memberId := (if d.memberId in feeds then feeds[d.memberId] else {}) + {f}];
    }
    TakeAll(ds);
    ok := true;
  }

  lemma NothingDeclared()
    ensures forall m, f :: !Declares([], m, f)
  {
  }

  lemma TwoOwnersStay(ds: seq<Declaration>, n: nat)
    requires n <= |ds| && !OneOwnerPerFeed(ds[..n])
    ensures !OneOwnerPerFeed(ds)
  {
    var d, e :| d in ds[..n] && e in ds[..n] && Lower(d.feedPublicKey) == Lower(e.feedPublicKey) && d.memberId != e.memberId;
    assert d in ds && e in ds;
  }

  method CheckProvenance(communityId: string, ghost ds: seq<Declaration>, feeds: map<string, set<string>>,
                         h: History) returns (ok: bool)
    requires forall m, f :: (m in feeds && f in feeds[m]) <==> Declares(ds, m, f)
    ensures ok <==> forall r | r in h.records :: ArrivesThroughOwnFeed(communityId, ds, h, r)
  {
    hide Lower;
    var source := Lower(h.feedPublicKey);
    for i := 0 to |h.records|
      invariant forall k | 0 <= k < i :: ArrivesThroughOwnFeed(communityId, ds, h, h.records[k])
    {
      var r := h.records[i];
      if r.envelope.communityId == communityId && IsProvenanceChecked(r.envelope)
         && !(r.envelope.authorId in feeds && source in feeds[r.envelope.authorId])
      {
        assert r in h.records && !ArrivesThroughOwnFeed(communityId, ds, h, r);
        return false;
      }
    }
    ok := true;
  }

  /** Resolves member feeds as the program does. */
  method ResolveTimebankMemberFeeds(platform: Platform, less: (string, string) -> bool, communityId: string,
                                    histories: seq<History>)
    returns (r: Result<ResolvedState>)
    ensures r == ResolveFeeds(platform, less, communityId, histories)
  {
    hide ResolveRecords, Declarations, ArrivesThroughOwnFeed, Declares, OneOwnerPerFeed, IsHistoryKey;
    if !AllFeedsNamed(histories) { return Error; }
    var records := AllRecords(histories);
    var ds := Declarations(platform, communityId, records);
    if ds.Error? { return Error; }
    var ok, feeds := TabulateDeclarations(ds.value);
    if !ok { return Error; }
    for i := 0 to |histories|
      invariant forall k | 0 <= k < i :: forall r | r in histories[k].records :: ArrivesThroughOwnFeed(communityId, ds.value, histories[k], r)
    {
      var arrives := CheckProvenance(communityId, ds.value, feeds, histories[i]);
      if !arrives {
        assert histories[i] in histories;
        return Error;
      }
    }
    r := ResolveTimebankRecords(platform, less, communityId, records);
  }

  // ---- members and feeds correspond --------------------------------------------------------------

  lemma DeclarationsSpec(platform: Platform, communityId: string, records: seq<Record>)
    requires Declarations(platform, communityId, records).Ok?
    ensures forall d | d in Declarations(platform, communityId, records).value ::
              exists r :: r in records && IsDeclaration(communityId, r) && DecodeDeclaration(platform, r.envelope) == Ok(d)
  {
    hide Present, DecodeDeclaration, IsDeclaration;
    var chosen := Filter(records, DeclaringIn(communityId));
    var envelopes := Map(chosen, EnvelopeOf);
    var ds := Declarations(platform, communityId, records).value;
    forall d | d in ds
      ensures exists r :: r in records && IsDeclaration(communityId, r) && DecodeDeclaration(platform, r.envelope) == Ok(d)
    {
      var i :| 0 <= i < |ds| && ds[i] == d;
      assert DecodingDeclarations(platform)(envelopes[i]) == Ok(ds[i]);
      assert envelopes[i] == chosen[i].envelope && chosen[i] in chosen;
    }
  }

  /** Two declared roots of one member in one community would be one authorization id twice. */
  lemma IndexedRootsUnique(platform: Platform, less: (string, string) -> bool, mine: seq<Envelope>, ds: seq<Declaration>,
                           auths: seq<Authorization>, d: Declaration, e: Declaration)
    requires Reduce(DeclarationOrder(less), OfKind(mine, FeedDeclarationKind), DecodingDeclarations(platform), FeedScope) == Ok(ds)
    requires ResolveAuthorizations(platform, less, mine) == Ok(auths) && KeyIndex(platform, auths).Ok?
    requires d in ds && e in ds && d.memberId == e.memberId && d.communityId == e.communityId
    ensures d == e
  {
    hide Present, Reduce, ProvenRootSignedKeys, ReducedKeys, Traverse, AllValid, OneOwnerPerKey, RootKeyId, IsKeyEventKind,
         IsStatementKind;
    var roots := Map(ds, RootAuthorization);
    var keyEvents := Filter(mine, IsKeyEventKind);
    var events := Traverse(keyEvents, DecodingKeyEvents(platform)).value;
    var legacy := ReducedKeys(platform, less, events).value;
    var devices := ProvenRootSignedKeys(platform, less, Filter(mine, IsStatementKind), OfKind(mine, FeedDeclarationKind)).value;
    assert auths == legacy + roots + devices;
    var i :| 0 <= i < |ds| && ds[i] == d;
    var j :| 0 <= j < |ds| && ds[j] == e;
    assert auths[|legacy| + i] == RootAuthorization(d) && auths[|legacy| + j] == RootAuthorization(e);
    assert AuthorizationId(auths[|legacy| + i]) == AuthorizationId(auths[|legacy| + j]);
  }

  /** A declaration among the delivered records is among the reduced ones. */
  lemma DeclarationReduced(platform: Platform, less: (string, string) -> bool, communityId: string, records: seq<Record>,
                           mine: seq<Envelope>, ds: seq<Declaration>, r: Record, d: Declaration)
    requires CommunityEnvelopes(platform, less, communityId, records) == Ok(mine)
    requires Reduce(DeclarationOrder(less), OfKind(mine, FeedDeclarationKind), DecodingDeclarations(platform), FeedScope) == Ok(ds)
    requires r in records && IsDeclaration(communityId, r) && DecodeDeclaration(platform, r.envelope) == Ok(d)
    ensures d in ds
  {
    hide Present, CommunityEnvelopes, Reduce, DecodeDeclaration;
    CommunityEnvelopesSpec(platform, less, communityId, records);
    var chosen := OfKind(mine, FeedDeclarationKind);
    ReduceSpec(DeclarationOrder(less), chosen, DecodingDeclarations(platform), FeedScope);
    assert r.envelope in chosen && DecodingDeclarations(platform)(r.envelope) == Ok(d);
  }

  lemma DeclarationFields(platform: Platform, e: Envelope)
    requires DecodeDeclaration(platform, e).Ok?
    ensures var d := DecodeDeclaration(platform, e).value;
            d.communityId == e.communityId && d.memberId == e.authorId && Lower(d.feedPublicKey) == d.feedPublicKey
  {
    hide Present, MemberIdOf, DeclarationRecordId, Lower;
    DeclaredKeyIsLower(DecodeDeclaration(platform, e).value.feedPublicKey);
  }

  lemma OneFeedPerMember(platform: Platform, less: (string, string) -> bool, communityId: string, records: seq<Record>,
                         r: Record, s: Record, d: Declaration, e: Declaration)
    requires ResolveRecords(platform, less, communityId, records).Ok?
    requires r in records && IsDeclaration(communityId, r) && DecodeDeclaration(platform, r.envelope) == Ok(d)
    requires s in records && IsDeclaration(communityId, s) && DecodeDeclaration(platform, s.envelope) == Ok(e)
    requires d.memberId == e.memberId
    ensures d == e
  {
    hide Present, ResolveRecords, CommunityEnvelopes, DecodeDeclaration, ReducedExchange, AllMemberSigned,
         ResolveProgress, HoldsExchange, Reduce, ProvenRootSignedKeys, ReducedKeys, Traverse, Indexable;
    var x := ResolvedStages(platform, less, communityId, records);
    var mine := CommunityEnvelopes(platform, less, communityId, records).value;
    var auths := ResolveRecords(platform, less, communityId, records).value.authorizations;
    var ds := Reduce(DeclarationOrder(less), OfKind(mine, FeedDeclarationKind), DecodingDeclarations(platform), FeedScope).value;
    DeclarationReduced(platform, less, communityId, records, mine, ds, r, d);
    DeclarationReduced(platform, less, communityId, records, mine, ds, s, e);
    DeclarationFields(platform, r.envelope);
    DeclarationFields(platform, s.envelope);
    IndexedRootsUnique(platform, less, mine, ds, auths, d, e);
  }

  /** When feed resolution succeeds, declared members and declared feeds correspond one to one. One
      direction is the feed-ownership check; the other comes from the verifier's index, which refuses a
      key id twice. */
  lemma MembersAndFeedsCorrespond(platform: Platform, less: (string, string) -> bool, communityId: string,
                                  histories: seq<History>,
                                  d: Declaration, e: Declaration)
    requires ResolveFeeds(platform, less, communityId, histories).Ok?
    requires var ds := Declarations(platform, communityId, AllRecords(histories)).value; d in ds && e in ds
    ensures d.memberId == e.memberId <==> d.feedPublicKey == e.feedPublicKey
  {
    hide Present, ResolveRecords, DecodeDeclaration, Declarations, Lower, IsDeclaration, AllArriveThroughOwnFeeds,
         AllFeedsNamed;
    var records := AllRecords(histories);
    DeclarationsSpec(platform, communityId, records);
    var r :| r in records && IsDeclaration(communityId, r) && DecodeDeclaration(platform, r.envelope) == Ok(d);
    var s :| s in records && IsDeclaration(communityId, s) && DecodeDeclaration(platform, s.envelope) == Ok(e);
    DeclarationFields(platform, r.envelope);
    DeclarationFields(platform, s.envelope);
    if d.memberId == e.memberId { OneFeedPerMember(platform, less, communityId, records, r, s, d, e); }
  }

  /** Every record of a provenance-checked kind sits in the only feed its author has declared. */
  lemma RecordsSitInTheirAuthorsFeed(platform: Platform, less: (string, string) -> bool, communityId: string,
                                     histories: seq<History>,
                                     h: History, r: Record)
    requires ResolveFeeds(platform, less, communityId, histories).Ok?
    requires h in histories && r in h.records && r.envelope.communityId == communityId
    requires r.envelope.kind == RootKeyActivationKind || r.envelope.kind == RootKeyRevocationKind
             || r.envelope.kind == PublishedListingKind || r.envelope.kind == ProposedProposalKind
             || r.envelope.kind == AcceptedProposalKind || r.envelope.kind == AcknowledgementKind
             || r.envelope.kind == AttestationKind || r.envelope.kind == TransferKind
    ensures var ds := Declarations(platform, communityId, AllRecords(histories)).value;
            && Declares(ds, r.envelope.authorId, Lower(h.feedPublicKey))
            && forall feed | Declares(ds, r.envelope.authorId, feed) :: feed == Lower(h.feedPublicKey)
  {
    hide Present, ResolveRecords, DecodeDeclaration, Declarations, Lower, IsDeclaration;
    var records := AllRecords(histories);
    var ds := Declarations(platform, communityId, records).value;
    var author := r.envelope.authorId;
    assert ArrivesThroughOwnFeed(communityId, ds, h, r);
    var d :| d in ds && d.memberId == author && Lower(d.feedPublicKey) == Lower(h.feedPublicKey);
    forall feed | Declares(ds, author, feed)
      ensures feed == Lower(h.feedPublicKey)
    {
      var e :| e in ds && e.memberId == author && Lower(e.feedPublicKey) == feed;
      MembersAndFeedsCorrespond(platform, less, communityId, histories, d, e);
    }
  }
}

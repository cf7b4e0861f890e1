/** Feed resolution in plain terms: which sets of feeds resolve, and whose feed each record must arrive through. */
module FeedSpec {
  import opened Core
  import opened Sorting
  import opened Reduction
  import opened Types
  import opened Records
  import opened Resolve
  import opened ResolveTheorems
  import opened FeedResolution
  import opened RecordSpec
  import opened ResolutionSpec

  /** A history names its feed by 64 hexadecimal digits, in either case. */
  ghost predicate FeedName(text: string) {
    |text| == 64 && forall c | c in text :: '0' <= c <= '9' || 'a' <= c <= 'f' || 'A' <= c <= 'F'
  }

  /** The history's name, in lower case, is this declared key. */
  ghost predicate NamesFeed(name: string, key: string) {
    |name| == |key| && forall i | 0 <= i < |name| ::
      if 'A' <= name[i] <= 'F' then key[i] as int == name[i] as int + 32 else key[i] == name[i]
  }

  /** The eight kinds of record whose arrival is checked. Closures of listings are not among them. */
  ghost predicate CheckedKind(e: Envelope) {
    || e.kind == RootKeyActivationKind || e.kind == RootKeyRevocationKind || e.kind == PublishedListingKind
    || e.kind == ProposedProposalKind || e.kind == AcceptedProposalKind || e.kind == AcknowledgementKind
    || e.kind == AttestationKind || e.kind == TransferKind
  }

  ghost predicate Arrives(histories: seq<History>, h: History, r: Record) {
    h in histories && r in h.records
  }

  /** Some history delivers a record that declares this. */
  ghost predicate DeclaredBy(p: Platform, communityId: string, histories: seq<History>, d: Declaration) {
    exists h, r :: Arrives(histories, h, r) && r.envelope.communityId == communityId && DeclarationRecord(p, r.envelope, d)
  }

  ghost predicate DeclarationsSound(p: Platform, communityId: string, histories: seq<History>) {
    forall h, r | Arrives(histories, h, r) && r.envelope.communityId == communityId && r.envelope.kind == FeedDeclarationKind ::
      exists d :: DeclarationRecord(p, r.envelope, d)
  }

  /** No feed is declared by two members. */
  ghost predicate OwnersSound(p: Platform, communityId: string, histories: seq<History>) {
    forall d, e | DeclaredBy(p, communityId, histories, d) && DeclaredBy(p, communityId, histories, e)
                  && d.feedPublicKey == e.feedPublicKey :: d.memberId == e.memberId
  }

  /** The author has declared the feed of this name. */
  ghost predicate OwnsFeed(p: Platform, communityId: string, histories: seq<History>, memberId: string, name: string) {
    exists d :: DeclaredBy(p, communityId, histories, d) && d.memberId == memberId && NamesFeed(name, d.feedPublicKey)
  }

  ghost predicate ArrivalsSound(p: Platform, communityId: string, histories: seq<History>) {
    forall h, r | Arrives(histories, h, r) && r.envelope.communityId == communityId && CheckedKind(r.envelope) ::
      OwnsFeed(p, communityId, histories, r.envelope.authorId, h.feedPublicKey)
  }

  /** What feeds need beyond their records: names, sound declarations, one owner per feed, and every checked record in a
      feed that its author has declared. */
  ghost predicate FeedsSound(p: Platform, communityId: string, histories: seq<History>) {
    && (forall h | h in histories :: FeedName(h.feedPublicKey)) && DeclarationsSound(p, communityId, histories)
    && OwnersSound(p, communityId, histories) && ArrivalsSound(p, communityId, histories)
  }

  lemma NameIff(text: string)
    ensures IsHistoryKey(text) <==> FeedName(text)
  {
    assert forall i | 0 <= i < |text| :: text[i] in text;
    if IsHistoryKey(text) {
      forall c | c in text ensures IsHex(c) { var i :| 0 <= i < |text| && text[i] == c; }
    }
  }

  lemma LowerIff(name: string, key: string)
    ensures Lower(name) == key <==> NamesFeed(name, key)
  {
    if NamesFeed(name, key) {
      forall i | 0 <= i < |name| ensures Lower(name)[i] == key[i] { }
    }
  }

  lemma DeclaredKeyStays(p: Platform, e: Envelope, d: Declaration)
    requires DeclarationRecord(p, e, d)
    ensures Lower(d.feedPublicKey) == d.feedPublicKey
  {
    DeclaredKeyText(d.feedPublicKey);
    DeclaredKeyIsLower(d.feedPublicKey);
  }

  lemma ArrivesAmong(histories: seq<History>)
    ensures forall r :: r in AllRecords(histories) <==> exists h :: Arrives(histories, h, r)
  {
    hide AllRecords;
    AllRecordsSpec(histories);
    forall r
      ensures r in AllRecords(histories) <==> exists h :: Arrives(histories, h, r)
    {
      if r in AllRecords(histories) {
        var h :| h in histories && r in h.records;
        assert Arrives(histories, h, r);
      }
    }
  }

  /** A history delivers this declaring envelope. */
  ghost predicate Declaring(communityId: string, histories: seq<History>, e: Envelope) {
    e.communityId == communityId && e.kind == FeedDeclarationKind && exists h, r :: Arrives(histories, h, r) && r.envelope == e
  }

  lemma DeclaringEnvelopes(communityId: string, histories: seq<History>)
    ensures forall e :: e in Map(Filter(AllRecords(histories), DeclaringIn(communityId)), EnvelopeOf) <==> Declaring(communityId, histories, e)
  {
    hide AllRecords, Arrives;
    ArrivesAmong(histories);
    var chosen := Filter(AllRecords(histories), DeclaringIn(communityId));
    forall e
      ensures e in Map(chosen, EnvelopeOf) <==> Declaring(communityId, histories, e)
    {
      if e in Map(chosen, EnvelopeOf) {
        MapMember(chosen, EnvelopeOf, e);
        var r :| r in chosen && EnvelopeOf(r) == e;
        var h :| Arrives(histories, h, r);
      }
      if Declaring(communityId, histories, e) {
        var h, r :| Arrives(histories, h, r) && r.envelope == e;
        MemberMap(chosen, EnvelopeOf, r);
      }
    }
  }

  lemma DeclaringIff(p: Platform, communityId: string, histories: seq<History>)
    ensures DeclarationsSound(p, communityId, histories) <==>
              forall e | Declaring(communityId, histories, e) :: exists d :: DeclarationRecord(p, e, d)
    ensures forall d :: DeclaredBy(p, communityId, histories, d) <==> exists e :: Declaring(communityId, histories, e) && DeclarationRecord(p, e, d)
  {
    hide Arrives, DeclarationRecord;
    forall e, d | DeclarationRecord(p, e, d) ensures e.kind == FeedDeclarationKind { DeclarationKind(p, e, d); }
    forall h, r | Arrives(histories, h, r) && r.envelope.communityId == communityId && r.envelope.kind == FeedDeclarationKind
      ensures Declaring(communityId, histories, r.envelope)
    {
    }
  }

  lemma DeclarationsHold(p: Platform, communityId: string, histories: seq<History>)
    ensures var ds := Declarations(p, communityId, AllRecords(histories));
            && (ds.Ok? <==> DeclarationsSound(p, communityId, histories))
            && (ds.Ok? ==> forall d :: d in ds.value <==> DeclaredBy(p, communityId, histories, d))
  {
    hide DeclarationRecord, DecodeDeclaration, Traverse, AllRecords, Arrives, Declaring, DeclaredBy, DeclarationsSound, Filter;
    var envelopes := Map(Filter(AllRecords(histories), DeclaringIn(communityId)), EnvelopeOf);
    DeclaringEnvelopes(communityId, histories);
    DeclaringIff(p, communityId, histories);
    forall e, d ensures DecodeDeclaration(p, e) == Ok(d) <==> DeclarationRecord(p, e, d) { DeclarationDecodesTo(p, e, d); }
    assert forall e | DecodeDeclaration(p, e).Ok? :: DeclarationRecord(p, e, DecodeDeclaration(p, e).value);
    TraverseHolds(envelopes, DecodingDeclarations(p));
  }

  /** Feeds resolve exactly when they are sound and their records, all together, resolve; and then to the same state. */
  lemma FeedsResolveIff(p: Platform, less: (string, string) -> bool, communityId: string, histories: seq<History>)
    ensures ResolveFeeds(p, less, communityId, histories) ==
              if FeedsSound(p, communityId, histories) then ResolveRecords(p, less, communityId, AllRecords(histories)) else Error
  {
    hide ResolveRecords, Declarations, AllRecords, DeclarationRecord, DeclaredBy, FeedName, NamesFeed, Lower, IsHistoryKey,
         DeclarationsSound, OwnersSound, ArrivalsSound, OneOwnerPerFeed, AllArriveThroughOwnFeeds;
    forall h | h in histories ensures IsHistoryKey(h.feedPublicKey) <==> FeedName(h.feedPublicKey) { NameIff(h.feedPublicKey); }
    DeclarationsHold(p, communityId, histories);
    var ds := Declarations(p, communityId, AllRecords(histories));
    if ds.Ok? {
      OwnersIff(p, communityId, histories, ds.value);
      ArrivalIff(p, communityId, histories, ds.value);
    }
  }

  lemma OwnersIff(p: Platform, communityId: string, histories: seq<History>, ds: seq<Declaration>)
    requires forall d :: d in ds <==> DeclaredBy(p, communityId, histories, d)
    ensures OneOwnerPerFeed(ds) <==> OwnersSound(p, communityId, histories)
  {
    hide Lower, DeclarationRecord;
    forall d | d in ds ensures Lower(d.feedPublicKey) == d.feedPublicKey {
      var h, r :| Arrives(histories, h, r) && r.envelope.communityId == communityId && DeclarationRecord(p, r.envelope, d);
      DeclaredKeyStays(p, r.envelope, d);
    }
  }

  lemma ArrivalIff(p: Platform, communityId: string, histories: seq<History>, ds: seq<Declaration>)
    requires forall d :: d in ds <==> DeclaredBy(p, communityId, histories, d)
    ensures AllArriveThroughOwnFeeds(communityId, ds, histories) <==> ArrivalsSound(p, communityId, histories)
  {
    hide Lower, DeclarationRecord, NamesFeed;
    forall d | d in ds ensures Lower(d.feedPublicKey) == d.feedPublicKey {
      var h, r :| Arrives(histories, h, r) && r.envelope.communityId == communityId && DeclarationRecord(p, r.envelope, d);
      DeclaredKeyStays(p, r.envelope, d);
    }
    forall h, r | Arrives(histories, h, r)
      ensures IsProvenanceChecked(r.envelope) <==> CheckedKind(r.envelope)
      ensures Declares(ds, r.envelope.authorId, Lower(h.feedPublicKey)) <==>
                OwnsFeed(p, communityId, histories, r.envelope.authorId, h.feedPublicKey)
    {
      DeclaresIff(p, communityId, histories, ds, r.envelope.authorId, h.feedPublicKey);
    }
    ArrivalByHistory(communityId, ds, histories);
  }

  lemma ArrivalByHistory(communityId: string, ds: seq<Declaration>, histories: seq<History>)
    ensures AllArriveThroughOwnFeeds(communityId, ds, histories) <==>
              forall h, r | Arrives(histories, h, r) :: ArrivesThroughOwnFeed(communityId, ds, h, r)
  {
    hide ArrivesThroughOwnFeed;
  }

  lemma DeclaresIff(p: Platform, communityId: string, histories: seq<History>, ds: seq<Declaration>, memberId: string, name: string)
    requires forall d :: d in ds <==> DeclaredBy(p, communityId, histories, d)
    requires forall d | d in ds :: Lower(d.feedPublicKey) == d.feedPublicKey
    ensures Declares(ds, memberId, Lower(name)) <==> OwnsFeed(p, communityId, histories, memberId, name)
  {
    hide Lower, NamesFeed, DeclaredBy;
    forall d: Declaration ensures Lower(name) == d.feedPublicKey <==> NamesFeed(name, d.feedPublicKey) { LowerIff(name, d.feedPublicKey); }
  }

  // ---- misplaced records ----------------------------------------------------------------------------

  /** One record of a checked kind, in a feed that its author has not declared, makes all feeds fail. */
  lemma MisplacedRecordRefused(p: Platform, less: (string, string) -> bool, communityId: string, histories: seq<History>, h: History, r: Record)
    requires h in histories && r in h.records && r.envelope.communityId == communityId
    requires r.envelope.kind == RootKeyActivationKind || r.envelope.kind == RootKeyRevocationKind
             || r.envelope.kind == PublishedListingKind || r.envelope.kind == ProposedProposalKind
             || r.envelope.kind == AcceptedProposalKind || r.envelope.kind == AcknowledgementKind
             || r.envelope.kind == AttestationKind || r.envelope.kind == TransferKind
    requires forall d | DeclaredBy(p, communityId, histories, d) && d.memberId == r.envelope.authorId :: !NamesFeed(h.feedPublicKey, d.feedPublicKey)
    ensures ResolveFeeds(p, less, communityId, histories) == Error
  {
    hide ResolveRecords, AllRecords, DeclarationRecord, DeclaredBy, NamesFeed, ResolveFeeds;
    FeedsResolveIff(p, less, communityId, histories);
    assert Arrives(histories, h, r) && CheckedKind(r.envelope);
  }

  /** One more record at the end of one history. */
  ghost function Adding(histories: seq<History>, i: nat, r: Record): seq<History>
    requires i < |histories|
  {
    histories[i := History(histories[i].feedPublicKey, histories[i].records + [r])]
  }

  lemma AddingArrives(histories: seq<History>, i: nat, r: Record)
    requires i < |histories|
    ensures forall h, q :: Arrives(Adding(histories, i, r), h, q) ==>
              (q == r && h.feedPublicKey == histories[i].feedPublicKey)
              || exists g :: Arrives(histories, g, q) && g.feedPublicKey == h.feedPublicKey
    ensures forall g, q :: Arrives(histories, g, q) ==>
              exists h :: Arrives(Adding(histories, i, r), h, q) && h.feedPublicKey == g.feedPublicKey
    ensures exists h :: Arrives(Adding(histories, i, r), h, r)
  {
    var more := Adding(histories, i, r);
    forall h, q | Arrives(more, h, q)
      ensures (q == r && h.feedPublicKey == histories[i].feedPublicKey)
              || exists g :: Arrives(histories, g, q) && g.feedPublicKey == h.feedPublicKey
    {
      var j :| 0 <= j < |more| && more[j] == h;
      if q != r || j != i { assert Arrives(histories, histories[j], q); }
    }
    forall g, q | Arrives(histories, g, q)
      ensures exists h :: Arrives(more, h, q) && h.feedPublicKey == g.feedPublicKey
    {
      var j :| 0 <= j < |histories| && histories[j] == g;
      assert more[j] in more && Arrives(more, more[j], q);
    }
    assert more[i] in more && Arrives(more, more[i], r);
  }

  lemma AddedRecords(histories: seq<History>, i: nat, r: Record)
    requires i < |histories|
    ensures forall q :: q in AllRecords(Adding(histories, i, r)) <==> q in AllRecords(histories) || q == r
  {
    hide AllRecords;
    hide Arrives, Adding;
    ArrivesAmong(histories);
    ArrivesAmong(Adding(histories, i, r));
    AddingArrives(histories, i, r);
  }

  lemma ClosureDeclaresNothing(p: Platform, communityId: string, histories: seq<History>, i: nat, r: Record, d: Declaration)
    requires i < |histories| && r.envelope.kind == ClosedListingKind
    ensures DeclaredBy(p, communityId, Adding(histories, i, r), d) <==> DeclaredBy(p, communityId, histories, d)
  {
    hide DeclarationRecord, Adding, Arrives;
    var more := Adding(histories, i, r);
    AddingArrives(histories, i, r);
    if DeclaredBy(p, communityId, more, d) {
      var h, q :| Arrives(more, h, q) && q.envelope.communityId == communityId && DeclarationRecord(p, q.envelope, d);
      DeclarationKind(p, q.envelope, d);
    }
    if DeclaredBy(p, communityId, histories, d) {
      var h, q :| Arrives(histories, h, q) && q.envelope.communityId == communityId && DeclarationRecord(p, q.envelope, d);
    }
  }

  /** A closure adds no record whose arrival or declaration is checked. */
  lemma ClosureKeepsArrivals(histories: seq<History>, i: nat, r: Record, h: History, q: Record) returns (g: History)
    requires i < |histories| && r.envelope.kind == ClosedListingKind && q.envelope.kind != ClosedListingKind
    ensures Arrives(Adding(histories, i, r), h, q) ==> Arrives(histories, g, q) && g.feedPublicKey == h.feedPublicKey
  {
    hide Adding, Arrives;
    AddingArrives(histories, i, r);
    if Arrives(Adding(histories, i, r), h, q) { g :| Arrives(histories, g, q) && g.feedPublicKey == h.feedPublicKey; } else { g := h; }
  }

  lemma ClosureKeepsSound(p: Platform, communityId: string, histories: seq<History>, i: nat, r: Record)
    requires i < |histories| && r.envelope.kind == ClosedListingKind
    ensures FeedsSound(p, communityId, Adding(histories, i, r)) <==> FeedsSound(p, communityId, histories)
  {
    hide FeedName, DeclaredBy, DeclarationsSound, ArrivalsSound, Adding;
    var more := Adding(histories, i, r);
    AddingNames(histories, i, r);
    forall d ensures DeclaredBy(p, communityId, more, d) <==> DeclaredBy(p, communityId, histories, d) {
      ClosureDeclaresNothing(p, communityId, histories, i, r, d);
    }
    ClosureKeepsChecks(p, communityId, histories, i, r);
  }

  lemma ClosureKeepsChecks(p: Platform, communityId: string, histories: seq<History>, i: nat, r: Record)
    requires i < |histories| && r.envelope.kind == ClosedListingKind
    requires forall d :: DeclaredBy(p, communityId, Adding(histories, i, r), d) <==> DeclaredBy(p, communityId, histories, d)
    ensures DeclarationsSound(p, communityId, Adding(histories, i, r)) <==> DeclarationsSound(p, communityId, histories)
    ensures ArrivalsSound(p, communityId, Adding(histories, i, r)) <==> ArrivalsSound(p, communityId, histories)
  {
    hide DeclarationRecord, NamesFeed, Adding, Arrives, DeclaredBy, OwnsFeed;
    var more := Adding(histories, i, r);
    SameOwners(p, communityId, histories, more);
    forall h, q | Arrives(more, h, q) && q.envelope.kind != ClosedListingKind
      ensures Here(histories, h.feedPublicKey, q)
    {
      var g := ClosureKeepsArrivals(histories, i, r, h, q);
    }
    forall g, q | Arrives(histories, g, q)
      ensures Here(more, g.feedPublicKey, q)
    {
      StillArrives(histories, i, r, g, q);
    }
  }

  /** The record arrives in a history of this name. */
  ghost predicate Here(histories: seq<History>, name: string, r: Record) {
    exists h :: Arrives(histories, h, r) && h.feedPublicKey == name
  }

  lemma StillArrives(histories: seq<History>, i: nat, r: Record, g: History, q: Record)
    requires i < |histories| && Arrives(histories, g, q)
    ensures Here(Adding(histories, i, r), g.feedPublicKey, q)
  {
    hide Adding, Arrives;
    AddingArrives(histories, i, r);
  }

  lemma SameOwners(p: Platform, communityId: string, histories: seq<History>, more: seq<History>)
    requires forall d :: DeclaredBy(p, communityId, more, d) <==> DeclaredBy(p, communityId, histories, d)
    ensures forall memberId, name :: OwnsFeed(p, communityId, more, memberId, name) <==> OwnsFeed(p, communityId, histories, memberId, name)
  {
    hide DeclaredBy, NamesFeed;
  }

  lemma AddingNames(histories: seq<History>, i: nat, r: Record)
    requires i < |histories|
    ensures (forall h | h in Adding(histories, i, r) :: FeedName(h.feedPublicKey)) <==> forall h | h in histories :: FeedName(h.feedPublicKey)
  {
    hide FeedName;
    var more := Adding(histories, i, r);
    forall h | h in more ensures exists g :: g in histories && g.feedPublicKey == h.feedPublicKey {
      var j :| 0 <= j < |more| && more[j] == h;
      assert histories[j] in histories;
    }
    forall g | g in histories ensures exists h :: h in more && h.feedPublicKey == g.feedPublicKey {
      var j :| 0 <= j < |histories| && histories[j] == g;
      assert more[j] in more;
    }
  }

  /** A closure counts the same in whatever feed it arrives. */
  lemma ClosureArrivesAnywhere(p: Platform, less: (string, string) -> bool, communityId: string, histories: seq<History>, i: nat, j: nat, r: Record)
    requires StrictTotalOrder(less) && i < |histories| && j < |histories| && r.envelope.kind == ClosedListingKind
    ensures ResolveFeeds(p, less, communityId, Adding(histories, i, r)) == ResolveFeeds(p, less, communityId, Adding(histories, j, r))
  {
    hide StrictTotalOrder, ResolveRecords, AllRecords, FeedsSound, ResolveFeeds, Adding;
    FeedsResolveIff(p, less, communityId, Adding(histories, i, r));
    FeedsResolveIff(p, less, communityId, Adding(histories, j, r));
    ClosureKeepsSound(p, communityId, histories, i, r);
    ClosureKeepsSound(p, communityId, histories, j, r);
    AddedRecords(histories, i, r);
    AddedRecords(histories, j, r);
    var one, other := AllRecords(Adding(histories, i, r)), AllRecords(Adding(histories, j, r));
    assert Elems(one) == Elems(other);
    ReplicasConverge(p, less, communityId, one, other);
  }
}

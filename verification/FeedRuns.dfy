/** Runs seen feed by feed: how the records of a cut are grouped into histories does not matter. */
module FeedRuns {
  import opened Core
  import opened Sorting
  import opened Reduction
  import opened Types
  import opened Identity
  import opened Records
  import opened Resolve
  import opened ResolveTheorems
  import opened IdentityTheorems
  import opened FeedResolution
  import opened ProtocolRun
  import opened RunFacts
  import opened CutResolution
  import opened CutExchange

  // ---- replicas that read the same feeds ----------------------------------------------------------

  ghost predicate Names(histories: seq<History>, feed: string) {
    exists h :: h in histories && h.feedPublicKey == feed
  }

  ghost predicate Delivers(histories: seq<History>, feed: string, r: Record) {
    exists h :: h in histories && h.feedPublicKey == feed && r in h.records
  }

  /** Two deliveries hold the same records of the same feeds. */
  ghost predicate SameFeeds(xs: seq<History>, ys: seq<History>) {
    && (forall feed :: Names(xs, feed) <==> Names(ys, feed))
    && (forall feed, r :: Delivers(xs, feed, r) <==> Delivers(ys, feed, r))
  }

  lemma SameFeedsSymmetric(xs: seq<History>, ys: seq<History>)
    requires SameFeeds(xs, ys)
    ensures SameFeeds(ys, xs)
  {
  }

  lemma DeliveredRecord(histories: seq<History>, r: Record)
    ensures r in AllRecords(histories) <==> exists feed :: Delivers(histories, feed, r)
  {
    AllRecordsSpec(histories);
    if h :| h in histories && r in h.records { assert Delivers(histories, h.feedPublicKey, r); }
  }

  lemma SameRecords(xs: seq<History>, ys: seq<History>)
    requires SameFeeds(xs, ys)
    ensures Elems(AllRecords(xs)) == Elems(AllRecords(ys))
  {
    hide Delivers, Names, AllRecords;
    forall r
      ensures r in AllRecords(xs) <==> r in AllRecords(ys)
    {
      DeliveredRecord(xs, r);
      DeliveredRecord(ys, r);
    }
  }

  /** The declarations of a delivery are those of its records, malformed ones included. */
  lemma DeclarationsMembers(platform: Platform, communityId: string, records: seq<Record>)
    ensures Declarations(platform, communityId, records).Ok? <==>
              forall r | r in records && IsDeclaration(communityId, r) :: DecodeDeclaration(platform, r.envelope).Ok?
    ensures Declarations(platform, communityId, records).Ok? ==>
              forall d :: d in Declarations(platform, communityId, records).value
                      <==> exists r :: r in records && IsDeclaration(communityId, r) && DecodeDeclaration(platform, r.envelope) == Ok(d)
  {
    hide DecodeDeclaration, IsDeclaration;
    var chosen := Filter(records, DeclaringIn(communityId));
    var envelopes := Map(chosen, EnvelopeOf);
    var decode := DecodingDeclarations(platform);
    if i :| 0 <= i < |envelopes| && decode(envelopes[i]).Error? {
      assert chosen[i] in records && envelopes[i] == chosen[i].envelope;
    }
    if r :| r in records && IsDeclaration(communityId, r) && DecodeDeclaration(platform, r.envelope).Error? {
      var i :| 0 <= i < |chosen| && chosen[i] == r;
      assert envelopes[i] == r.envelope;
    }
    if Declarations(platform, communityId, records).Ok? {
      var ds := Declarations(platform, communityId, records).value;
      forall d
        ensures d in ds <==> exists r :: r in records && IsDeclaration(communityId, r) && DecodeDeclaration(platform, r.envelope) == Ok(d)
      {
        if d in ds { DeclarationsSpec(platform, communityId, records); }
        if r :| r in records && IsDeclaration(communityId, r) && DecodeDeclaration(platform, r.envelope) == Ok(d) {
          var i :| 0 <= i < |chosen| && chosen[i] == r;
          assert decode(envelopes[i]) == Ok(ds[i]);
        }
      }
    }
  }

  lemma NamedFeeds(xs: seq<History>, ys: seq<History>)
    requires SameFeeds(xs, ys) && AllFeedsNamed(xs)
    ensures AllFeedsNamed(ys)
  {
    hide IsHistoryKey, Delivers;
    forall k | k in ys
      ensures IsHistoryKey(k.feedPublicKey)
    {
      assert Names(ys, k.feedPublicKey);
      assert Names(xs, k.feedPublicKey);
    }
  }

  lemma OwnershipTransfers(ds: seq<Declaration>, es: seq<Declaration>)
    requires forall d :: d in ds <==> d in es
    ensures OneOwnerPerFeed(ds) == OneOwnerPerFeed(es)
  {
    hide Lower;
  }

  lemma ArrivalTransfers(communityId: string, ds: seq<Declaration>, es: seq<Declaration>, h: History, k: History, r: Record)
    requires (forall d :: d in ds <==> d in es) && h.feedPublicKey == k.feedPublicKey
    requires ArrivesThroughOwnFeed(communityId, ds, h, r)
    ensures ArrivesThroughOwnFeed(communityId, es, k, r)
  {
    hide Lower, IsProvenanceChecked;
  }

  lemma ProvenanceTransfers(communityId: string, ds: seq<Declaration>, es: seq<Declaration>, xs: seq<History>,
                            ys: seq<History>)
    requires SameFeeds(xs, ys) && forall d :: d in ds <==> d in es
    requires AllArriveThroughOwnFeeds(communityId, ds, xs)
    ensures AllArriveThroughOwnFeeds(communityId, es, ys)
  {
    hide ArrivesThroughOwnFeed, Names;
    forall k, r | k in ys && r in k.records
      ensures ArrivesThroughOwnFeed(communityId, es, k, r)
    {
      assert Delivers(ys, k.feedPublicKey, r);
      assert Delivers(xs, k.feedPublicKey, r);
      var h :| h in xs && h.feedPublicKey == k.feedPublicKey && r in h.records;
      ArrivalTransfers(communityId, ds, es, h, k, r);
    }
  }

  lemma SameDeclarations(platform: Platform, communityId: string, r: seq<Record>, s: seq<Record>)
    requires Elems(r) == Elems(s)
    ensures Declarations(platform, communityId, r).Ok? == Declarations(platform, communityId, s).Ok?
    ensures Declarations(platform, communityId, r).Ok? ==>
              forall d :: d in Declarations(platform, communityId, r).value <==> d in Declarations(platform, communityId, s).value
  {
    hide Declarations, DecodeDeclaration, IsDeclaration;
    assert forall x :: x in r <==> x in Elems(r);
    assert forall x :: x in s <==> x in Elems(s);
    DeclarationsMembers(platform, communityId, r);
    DeclarationsMembers(platform, communityId, s);
  }

  /** Replicas that have read the same records of the same feeds resolve the same state, or all fail,
      in whatever order the feeds and their records are delivered and however often. */
  lemma FeedReplicasConverge(platform: Platform, less: (string, string) -> bool, communityId: string,
                             xs: seq<History>, ys: seq<History>)
    requires StrictTotalOrder(less) && SameFeeds(xs, ys)
    ensures ResolveFeeds(platform, less, communityId, xs) == ResolveFeeds(platform, less, communityId, ys)
  {
    hide ResolveRecords, Declarations, AllFeedsNamed, AllArriveThroughOwnFeeds, OneOwnerPerFeed, AllRecords, SameFeeds;
    var r, s := AllRecords(xs), AllRecords(ys);
    SameFeedsSymmetric(xs, ys);
    SameRecords(xs, ys);
    SameDeclarations(platform, communityId, r, s);
    ReplicasConverge(platform, less, communityId, r, s);
    if AllFeedsNamed(xs) { NamedFeeds(xs, ys); }
    if AllFeedsNamed(ys) { NamedFeeds(ys, xs); }
    var ds, es := Declarations(platform, communityId, r), Declarations(platform, communityId, s);
    if ds.Ok? {
      OwnershipTransfers(ds.value, es.value);
      if AllArriveThroughOwnFeeds(communityId, ds.value, xs) { ProvenanceTransfers(communityId, ds.value, es.value, xs, ys); }
      if AllArriveThroughOwnFeeds(communityId, es.value, ys) { ProvenanceTransfers(communityId, es.value, ds.value, ys, xs); }
    }
  }

  // ---- a cut read feed by feed --------------------------------------------------------------------

  /** The histories hold the records of the cut, each in the feed that its author declared in the cut. */
  ghost predicate ReadsCut(run: Run, cut: set<nat>, histories: seq<History>) {
    && (forall h | h in histories :: IsHistoryKey(h.feedPublicKey))
    && (forall i | i in cut && i < |run| :: exists h :: h in histories && run[i].record in h.records)
    && (forall h, r | h in histories && r in h.records ::
          exists i :: i in cut && i < |run| && run[i].record == r && AppendedTo(run, cut, i, h.feedPublicKey))
  }

  ghost predicate AppendedTo(run: Run, cut: set<nat>, i: nat, feed: string)
    requires i < |run|
  {
    exists j :: j in cut && j < |run| && run[j].act.Declare? && run[j].author == run[i].author
      && Lower(run[j].act.declaration.feedPublicKey) == Lower(feed)
  }

  lemma FeedsNamed(run: Run, cut: set<nat>, histories: seq<History>)
    requires ReadsCut(run, cut, histories)
    ensures AllFeedsNamed(histories)
  {
    hide IsHistoryKey, AppendedTo;
  }

  lemma CutRecords(run: Run, cut: set<nat>, histories: seq<History>)
    requires ReadsCut(run, cut, histories)
    ensures Elems(AllRecords(histories)) == Elems(RecordsAt(run, cut))
  {
    hide IsHistoryKey, AppendedTo;
    AllRecordsSpec(histories);
    RecordsAtSpec(run, cut);
  }

  lemma CutDeclares(w: World, run: Run, cut: set<nat>, records: seq<Record>)
    requires ValidRun(w, run) && Elems(records) == Elems(RecordsAt(run, cut))
    ensures Declarations(w.platform, w.communityId, records).Ok?
    ensures forall d :: d in Declarations(w.platform, w.communityId, records).value <==> DeclaredIn(run, cut, d)
  {
    hide ValidRun, DecodeDeclaration, Declarations;
    RecordsAtSpec(run, cut);
    RunIsWritten(w, run);
    assert forall r :: r in records <==> r in Elems(records);
    assert forall r :: r in RecordsAt(run, cut) <==> r in Elems(RecordsAt(run, cut));
    DeclarationsMembers(w.platform, w.communityId, records);
    forall r | r in records && IsDeclaration(w.communityId, r)
      ensures exists i :: i in cut && i < |run| && run[i].record == r && run[i].act.Declare?
                && DecodeDeclaration(w.platform, r.envelope) == Ok(run[i].act.declaration)
    {
      var i :| i in cut && i < |run| && run[i].record == r;
      DeclarationDecodes(w, run, i);
    }
    forall d | DeclaredIn(run, cut, d)
      ensures exists r :: r in records && IsDeclaration(w.communityId, r) && DecodeDeclaration(w.platform, r.envelope) == Ok(d)
    {
      var i :| i in cut && i < |run| && run[i].act == Declare(d);
      DeclarationDecodes(w, run, i);
      EnvelopeValid(w, run, i);
      assert run[i].record in records;
    }
  }

  lemma DeclaredFields(w: World, run: Run, i: nat)
    requires ValidRun(w, run) && i < |run| && run[i].act.Declare?
    ensures run[i].act.declaration.memberId == run[i].author
    ensures Lower(run[i].act.declaration.feedPublicKey) == run[i].act.declaration.feedPublicKey
  {
    hide Present, MemberIdOf, Lower, ResolveRecords, EnvelopeFor;
    assert ValidAppend(w, run, i);
    DeclaredKeyIsLower(run[i].act.declaration.feedPublicKey);
  }

  lemma OneDeclarationPerFeed(w: World, run: Run, i: nat, j: nat)
    requires ValidRun(w, run) && i < |run| && j < |run| && run[i].act.Declare? && run[j].act.Declare?
    requires run[i].act.declaration.feedPublicKey == run[j].act.declaration.feedPublicKey
    ensures i == j
  {
    hide EnvelopeFor, SignedWithRoot, Guard, HoldsView, ResolveRecords, ValidDeclaration;
    assert ValidAppend(w, run, i) && ValidAppend(w, run, j);
  }

  lemma CutOwners(w: World, run: Run, cut: set<nat>, ds: seq<Declaration>)
    requires ValidRun(w, run) && forall d | d in ds :: DeclaredIn(run, cut, d)
    ensures OneOwnerPerFeed(ds)
  {
    hide ValidRun, Lower;
    forall d, e | d in ds && e in ds && Lower(d.feedPublicKey) == Lower(e.feedPublicKey)
      ensures d.memberId == e.memberId
    {
      var i :| i in cut && i < |run| && run[i].act == Declare(d);
      var j :| j in cut && j < |run| && run[j].act == Declare(e);
      DeclaredFields(w, run, i);
      DeclaredFields(w, run, j);
      OneDeclarationPerFeed(w, run, i, j);
    }
  }

  lemma CutArrivals(w: World, run: Run, cut: set<nat>, ds: seq<Declaration>, h: History, r: Record)
    requires ValidRun(w, run) && forall d | DeclaredIn(run, cut, d) :: d in ds
    requires exists i :: i in cut && i < |run| && run[i].record == r && AppendedTo(run, cut, i, h.feedPublicKey)
    ensures ArrivesThroughOwnFeed(w.communityId, ds, h, r)
  {
    hide ValidRun, Lower, IsProvenanceChecked;
    var i :| i in cut && i < |run| && run[i].record == r && AppendedTo(run, cut, i, h.feedPublicKey);
    var j :| j in cut && j < |run| && run[j].act.Declare? && run[j].author == run[i].author
      && Lower(run[j].act.declaration.feedPublicKey) == Lower(h.feedPublicKey);
    EnvelopeValid(w, run, i);
    DeclaredFields(w, run, j);
    assert DeclaredIn(run, cut, run[j].act.declaration);
  }

  /** The feeds of a run pass the ownership and provenance checks, in every cut. */
  lemma CutFeedsPass(w: World, run: Run, cut: set<nat>, ds: seq<Declaration>, histories: seq<History>)
    requires ValidRun(w, run) && ReadsCut(run, cut, histories) && forall d :: d in ds <==> DeclaredIn(run, cut, d)
    ensures OneOwnerPerFeed(ds) && AllArriveThroughOwnFeeds(w.communityId, ds, histories)
  {
    hide ValidRun, IsHistoryKey, ArrivesThroughOwnFeed, AppendedTo, DeclaredIn, OneOwnerPerFeed;
    CutOwners(w, run, cut, ds);
    forall h, r | h in histories && r in h.records
      ensures ArrivesThroughOwnFeed(w.communityId, ds, h, r)
    {
      CutArrivals(w, run, cut, ds, h, r);
    }
  }

  /** Read feed by feed, a causally closed cut resolves to the state of its records, and it resolves
      exactly when it holds no two different envelopes under one record id. */
  lemma CutFeedsResolve(w: World, run: Run, cut: set<nat>, histories: seq<History>)
    requires StrictTotalOrder(w.less) && ValidRun(w, run) && CausallyClosed(run, cut) && cut != {}
             && ReadsCut(run, cut, histories)
    ensures ResolveFeeds(w.platform, w.less, w.communityId, histories) == ResolveRecords(w.platform, w.less, w.communityId, RecordsAt(run, cut))
    ensures ResolveFeeds(w.platform, w.less, w.communityId, histories).Ok? <==> ConflictFree(run, cut)
  {
    hide ValidRun, ResolveRecords, Declarations, ReadsCut, ConflictFree, OneOwnerPerFeed, AllArriveThroughOwnFeeds,
         AllRecords,
         RecordsAt, CausallyClosed, DeclaredIn, AllFeedsNamed;
    FeedsNamed(run, cut, histories);
    var records := AllRecords(histories);
    CutRecords(run, cut, histories);
    CutDeclares(w, run, cut, records);
    CutFeedsPass(w, run, cut, Declarations(w.platform, w.communityId, records).value, histories);
    ReplicasConverge(w.platform, w.less, w.communityId, records, RecordsAt(run, cut));
    CutResolvesIffConflictFree(w, run, cut);
  }
}

/** The ledger in the plain terms of its input: when a derivation succeeds, and every part of the view that it
    gives, without the passes that compute it. */
module LedgerSpec {
  import opened Core
  import opened Sorting
  import opened Reduction
  import opened Types
  import opened Ledger
  import opened LedgerTheorems
  import opened LedgerBounds

  // ---- postings ---------------------------------------------------------------------------------

  /** Two postings for each transfer, in order: the provider earns the minutes, the recipient owes them. */
  ghost predicate PostedInOrder(accepted: seq<Transfer>, postings: seq<Posting>) {
    && |postings| == 2 * |accepted|
    && forall i | 0 <= i < |accepted| ::
         && postings[2 * i] == Posting(accepted[i].terms.id, accepted[i].terms.provider, accepted[i].terms.minutes)
         && postings[2 * i + 1] == Posting(accepted[i].terms.id, accepted[i].terms.recipient, -accepted[i].terms.minutes)
  }

  /** What the postings book to one member. */
  ghost function Posted(postings: seq<Posting>, memberId: string): int {
    if postings == [] then 0
    else
      var p := postings[|postings| - 1];
      Posted(postings[..|postings| - 1], memberId) + (if p.memberId == memberId then p.minutes else 0)
  }

  /** All minutes that the postings book. */
  ghost function PostedInAll(postings: seq<Posting>): int {
    if postings == [] then 0 else PostedInAll(postings[..|postings| - 1]) + postings[|postings| - 1].minutes
  }

  /** Each balance is what is posted to its member, and exactly the members with postings have one. */
  ghost predicate BalancesPosted(balances: map<string, int>, postings: seq<Posting>) {
    && (forall m :: (if m in balances then balances[m] else 0) == Posted(postings, m))
    && (forall m :: m in balances <==> exists p :: p in postings && p.memberId == m)
  }

  lemma OnePosting(balances: map<string, int>, postings: seq<Posting>, p: Posting)
    requires BalancesPosted(balances, postings)
    ensures BalancesPosted(Apply(balances, p), postings + [p])
    ensures PostedInAll(postings + [p]) == PostedInAll(postings) + p.minutes
  {
    var after, all := Apply(balances, p), postings + [p];
    assert all[..|all| - 1] == postings && p in all;
    forall m
      ensures (if m in after then after[m] else 0) == Posted(all, m)
      ensures m in after <==> exists x :: x in all && x.memberId == m
    {
      assert (if m in balances then balances[m] else 0) == Posted(postings, m);
      assert m in balances <==> exists x :: x in postings && x.memberId == m;
    }
  }

  ghost predicate WellPosted(b: Book) {
    PostedInOrder(b.accepted, b.postings) && BalancesPosted(b.balances, b.postings) && PostedInAll(b.postings) == 0
  }

  lemma AcceptPosts(b: Book, t: Transfer)
    requires WellPosted(b)
    ensures WellPosted(Accept(b, t))
  {
    hide PostedInOrder, BalancesPosted, Apply;
    var ps := PostingsOf(t);
    OnePosting(b.balances, b.postings, ps[0]);
    OnePosting(Apply(b.balances, ps[0]), b.postings + [ps[0]], ps[1]);
    assert ps[..1] == [ps[0]] && ps[..1][..0] == [];
    assert ApplyPostings(b.balances, []) == b.balances;
    assert ApplyPostings(b.balances, ps[..1]) == Apply(b.balances, ps[0]);
    assert b.postings + ps == b.postings + [ps[0]] + [ps[1]];
    AcceptPostsInOrder(b, t);
  }

  lemma AcceptPostsInOrder(b: Book, t: Transfer)
    requires PostedInOrder(b.accepted, b.postings)
    ensures PostedInOrder(Accept(b, t).accepted, Accept(b, t).postings)
  {
    hide ApplyPostings;
    var r := Accept(b, t);
    forall i | 0 <= i < |r.accepted|
      ensures r.postings[2 * i] == Posting(r.accepted[i].terms.id, r.accepted[i].terms.provider, r.accepted[i].terms.minutes)
      ensures r.postings[2 * i + 1] == Posting(r.accepted[i].terms.id, r.accepted[i].terms.recipient, -r.accepted[i].terms.minutes)
    {
      if i < |b.accepted| { assert r.accepted[i] == b.accepted[i]; }
    }
  }

  /** The postings of every derivation book each accepted transfer once to each participant, in the order of
      acceptance; each balance is what is posted to its member, and all postings sum to zero. */
  lemma BookIsPosted(ts: seq<Transfer>)
    ensures var b := BookOf(ts);
            && PostedInOrder(b.accepted, b.postings)
            && BalancesPosted(b.balances, b.postings) && PostedInAll(b.postings) == 0
  {
    var keeps := b => WellPosted(b);
    forall b, t {:trigger Accept(b, t)} | keeps(b)
      ensures keeps(Accept(b, t))
    {
      AcceptPosts(b, t);
    }
    OrdinaryPhaseKeeps(keeps, ts);
    ReversalPhaseKeeps(keeps, OrdinaryPhase(ts), Filter(ts, IsReversal));
  }

  // ---- the order of acceptance --------------------------------------------------------------------

  /** The ids of the accepted ordinary settlements. */
  ghost function Settled(accepted: seq<Transfer>): set<string> {
    set t | t in accepted && t.terms.reverses.None? :: t.terms.id
  }

  /** Ordinary settlements that are settled, or reversals from which following the reversed ids this many times
      ends at one, in the order of the input. */
  ghost function Layer(ts: seq<Transfer>, settled: set<string>, n: nat): seq<Transfer> {
    if n == 0 then Filter(ts, (t: Transfer) => t.terms.reverses.None? && t.terms.id in settled)
    else Filter(ts, (t: Transfer) => t.terms.reverses.Some? && Reaches(ts, settled, t.terms.id, n))
  }

  ghost function Layers(ts: seq<Transfer>, settled: set<string>, n: nat): seq<Transfer> {
    if n == 0 then Layer(ts, settled, 0) else Layers(ts, settled, n - 1) + Layer(ts, settled, n)
  }

  ghost function Rejections(ts: seq<Transfer>, reason: Reason): seq<Rejection> {
    Map(ts, (t: Transfer) => Rejection(t, reason))
  }

  lemma {:induction false} FilterTwice<T>(s: seq<T>, p: T -> bool, q: T -> bool, both: T -> bool)
    requires forall x | x in s :: both(x) == (p(x) && q(x))
    ensures Filter(Filter(s, p), q) == Filter(s, both)
  {
    if s != [] {
      var front, last := s[..|s| - 1], s[|s| - 1];
      FrontLast(s);
      FilterTwice(front, p, q, both);
      if p(last) { FilterAppend(Filter(front, p), [last], q); }
      assert [last][..0] == [];
    }
  }

  /** The ordinary phase accepts and rejects in the order of the input. */
  lemma {:induction false} OrdinaryInOrder(ts: seq<Transfer>)
    requires KeysDistinct(ts, TransferId)
    ensures var b, settled := OrdinaryPhase(ts), Settled(OrdinaryPhase(ts).accepted);
            && b.accepted == Layer(ts, settled, 0)
            && b.rejected == Rejections(Filter(ts, (t: Transfer) => t.terms.reverses.None? && t.terms.id !in settled), MinimumBalance)
  {
    hide ApplyPostings, WouldCrossMinimum;
    if ts != [] {
      var front, t := ts[..|ts| - 1], ts[|ts| - 1];
      FrontLast(ts);
      OrdinaryInOrder(front);
      OrdinaryAccepted(front);
      var before, after := Settled(OrdinaryPhase(front).accepted), Settled(OrdinaryPhase(ts).accepted);
      NewId(front, t);
      forall u | u in front
        ensures u.terms.id in before <==> u.terms.id in after
      {
      }
      FilterAgrees(front, (u: Transfer) => u.terms.reverses.None? && u.terms.id in before,
                   (u: Transfer) => u.terms.reverses.None? && u.terms.id in after);
      FilterAgrees(front, (u: Transfer) => u.terms.reverses.None? && u.terms.id !in before,
                   (u: Transfer) => u.terms.reverses.None? && u.terms.id !in after);
    }
  }

  lemma NewId(front: seq<Transfer>, t: Transfer)
    requires KeysDistinct(front + [t], TransferId)
    ensures KeysDistinct(front, TransferId) && forall u | u in front :: u.terms.id != t.terms.id
  {
    var all := front + [t];
    assert forall i | 0 <= i < |front| :: all[i] == front[i];
    forall u | u in front
      ensures u.terms.id != t.terms.id
    {
      var i :| 0 <= i < |front| && front[i] == u;
      assert TransferId(all[i]) != TransferId(all[|front|]);
    }
  }

  /** Following the reversed ids ends at a settled one in fewer steps than this. */
  ghost predicate Within(ts: seq<Transfer>, settled: set<string>, id: string, n: nat) {
    exists k: nat :: k < n && Reaches(ts, settled, id, k)
  }

  /** Ordinary settlements are the only ones with settled ids. */
  ghost predicate OrdinaryIds(ts: seq<Transfer>, settled: set<string>) {
    KeysDistinct(ts, TransferId) && forall t | t in ts && t.terms.id in settled :: t.terms.reverses.None?
  }

  /** A chain of reversals has one length. */
  lemma {:induction false} OneDepth(ts: seq<Transfer>, settled: set<string>, id: string, a: nat, b: nat)
    requires OrdinaryIds(ts, settled) && Reaches(ts, settled, id, a) && Reaches(ts, settled, id, b)
    ensures a == b
    decreases a
  {
    if a > 0 && b > 0 {
      var t :| t in ts && t.terms.id == id && IsReversal(t) && Reaches(ts, settled, t.terms.reverses.value, a - 1);
      var u :| u in ts && u.terms.id == id && IsReversal(u) && Reaches(ts, settled, u.terms.reverses.value, b - 1);
      SameKeySameValue(ts, TransferId, t, u);
      OneDepth(ts, settled, t.terms.reverses.value, a - 1, b - 1);
    }
  }

  /** The reversals that are not within reach of so many steps, in the order of the input. */
  ghost function Beyond(ts: seq<Transfer>, settled: set<string>, n: nat): seq<Transfer> {
    Filter(ts, (t: Transfer) => t.terms.reverses.Some? && !Within(ts, settled, t.terms.id, n))
  }

  /** Of the reversals that are not within reach of n steps, those with a target within reach take n steps. */
  lemma NextLayer(ts: seq<Transfer>, settled: set<string>, t: Transfer, n: nat)
    requires OrdinaryIds(ts, settled) && t in ts && t.terms.reverses.Some? && n > 0
    ensures Reaches(ts, settled, t.terms.id, n) <==>
              !Within(ts, settled, t.terms.id, n) && Within(ts, settled, t.terms.reverses.value, n)
    ensures Within(ts, settled, t.terms.id, n + 1) <==>
              Within(ts, settled, t.terms.id, n) || Within(ts, settled, t.terms.reverses.value, n)
  {
    if Reaches(ts, settled, t.terms.id, n) {
      var u :| u in ts && u.terms.id == t.terms.id && IsReversal(u) && Reaches(ts, settled, u.terms.reverses.value, n - 1);
      SameKeySameValue(ts, TransferId, t, u);
      if Within(ts, settled, t.terms.id, n) {
        var k: nat :| k < n && Reaches(ts, settled, t.terms.id, k);
        OneDepth(ts, settled, t.terms.id, k, n);
      }
    }
    if Within(ts, settled, t.terms.reverses.value, n) {
      var k: nat :| k < n && Reaches(ts, settled, t.terms.reverses.value, k);
      assert Reaches(ts, settled, t.terms.id, k + 1);
    }
  }

  lemma {:induction false} RoundInOrder(b: Book, pending: seq<Transfer>, ids: set<string>)
    ensures var (b', rest) := Round(b, pending, ids);
            && b'.accepted == b.accepted + Filter(pending, (t: Transfer) => Targets(t, ids))
            && rest == Filter(pending, (t: Transfer) => !Targets(t, ids)) && b'.rejected == b.rejected
  {
    if pending != [] { RoundInOrder(b, pending[..|pending| - 1], ids); }
  }

  lemma {:induction false} RejectAllInOrder(b: Book, ts: seq<Transfer>)
    ensures RejectAll(b, ts).rejected == b.rejected + Rejections(ts, UnacceptedReversal)
  {
    if ts != [] { RejectAllInOrder(b, ts[..|ts| - 1]); }
  }

  /** Where the reversal phase stands after n layers. */
  ghost predicate AtLayer(ts: seq<Transfer>, settled: set<string>, n: nat, b: Book, pending: seq<Transfer>)
    requires n > 0
  {
    && b.accepted == Layers(ts, settled, n - 1) && pending == Beyond(ts, settled, n)
    && forall id :: id in AcceptedIds(b) <==> Within(ts, settled, id, n)
  }

  lemma RoundAddsLayer(ts: seq<Transfer>, settled: set<string>, n: nat, b: Book, pending: seq<Transfer>)
    requires n > 0 && OrdinaryIds(ts, settled) && AtLayer(ts, settled, n, b, pending)
    ensures var (b', rest) := Round(b, pending, AcceptedIds(b));
            AtLayer(ts, settled, n + 1, b', rest) && b'.rejected == b.rejected
  {
    hide Within, Reaches, Filter, Round;
    var ids := AcceptedIds(b);
    var (b', rest) := Round(b, pending, ids);
    RoundInOrder(b, pending, ids);
    SplitBeyond(ts, settled, n, ids);
    SameIds(b.accepted, ids);
    LayerIds(ts, settled, n, b.accepted);
    SameIds(b'.accepted, AcceptedIds(b'));
  }

  /** One round splits the reversals beyond n steps into those that take n and those beyond n + 1. */
  lemma SplitBeyond(ts: seq<Transfer>, settled: set<string>, n: nat, ids: set<string>)
    requires n > 0 && OrdinaryIds(ts, settled) && forall id :: id in ids <==> Within(ts, settled, id, n)
    ensures Filter(Beyond(ts, settled, n), (t: Transfer) => Targets(t, ids)) == Layer(ts, settled, n)
    ensures Filter(Beyond(ts, settled, n), (t: Transfer) => !Targets(t, ids)) == Beyond(ts, settled, n + 1)
  {
    hide Within, Reaches, Filter, OrdinaryIds;
    forall t | t in ts && t.terms.reverses.Some?
      ensures Reaches(ts, settled, t.terms.id, n) <==> !Within(ts, settled, t.terms.id, n) && Targets(t, ids)
      ensures Within(ts, settled, t.terms.id, n + 1) <==> Within(ts, settled, t.terms.id, n) || Targets(t, ids)
    {
      NextLayer(ts, settled, t, n);
    }
    var beyond := (t: Transfer) => t.terms.reverses.Some? && !Within(ts, settled, t.terms.id, n);
    FilterAgrees(ts, beyond, (t: Transfer) => t.terms.reverses.Some? && !Within(ts, settled, t.terms.id, n));
    FilterTwice(ts, beyond, (t: Transfer) => Targets(t, ids),
                (t: Transfer) => t.terms.reverses.Some? && Reaches(ts, settled, t.terms.id, n));
    FilterTwice(ts, beyond, (t: Transfer) => !Targets(t, ids),
                (t: Transfer) => t.terms.reverses.Some? && !Within(ts, settled, t.terms.id, n + 1));
  }

  ghost predicate HasId(ts: seq<Transfer>, id: string) { exists t :: t in ts && t.terms.id == id }

  lemma LayerIds(ts: seq<Transfer>, settled: set<string>, n: nat, accepted: seq<Transfer>)
    requires n > 0 && forall id :: HasId(accepted, id) <==> Within(ts, settled, id, n)
    ensures forall id :: HasId(accepted + Layer(ts, settled, n), id) <==> Within(ts, settled, id, n + 1)
  {
    forall id
      ensures HasId(accepted + Layer(ts, settled, n), id) <==> Within(ts, settled, id, n + 1)
    {
      if HasId(accepted + Layer(ts, settled, n), id) {
        var t :| t in accepted + Layer(ts, settled, n) && t.terms.id == id;
        if t in accepted {
          assert HasId(accepted, id);
          assert Within(ts, settled, id, n);
          var k: nat :| k < n && Reaches(ts, settled, id, k);
        }
      }
      if k: nat :| k < n + 1 && Reaches(ts, settled, id, k) {
        if k < n {
          assert Within(ts, settled, id, n) && HasId(accepted, id);
          var t :| t in accepted && t.terms.id == id;
          assert t in accepted + Layer(ts, settled, n);
        } else {
          var t :| t in ts && t.terms.id == id && IsReversal(t) && Reaches(ts, settled, t.terms.reverses.value, n - 1);
          assert t in Layer(ts, settled, n);
        }
      }
    }
  }

  lemma SameIds(accepted: seq<Transfer>, ids: set<string>)
    requires ids == set t | t in accepted :: t.terms.id
    ensures forall id :: HasId(accepted, id) <==> id in ids
  {
  }

  /** From layer to layer until one is empty. */
  lemma {:induction false} PhaseInLayers(ts: seq<Transfer>, settled: set<string>, n: nat, b: Book, pending: seq<Transfer>)
    returns (last: nat)
    requires n > 0 && OrdinaryIds(ts, settled) && AtLayer(ts, settled, n, b, pending)
    ensures var final := ReversalPhase(b, pending);
            && final.accepted == Layers(ts, settled, last)
            && final.rejected == b.rejected + Rejections(Beyond(ts, settled, last + 1), UnacceptedReversal)
            && (forall id :: id in AcceptedIds(final) <==> Within(ts, settled, id, last + 1))
    decreases |pending|
  {
    hide Layers, Layer, Within, Filter, Round, OrdinaryIds;
    var (b', rest) := Round(b, pending, AcceptedIds(b));
    RoundSpec(b, pending, AcceptedIds(b));
    RoundAddsLayer(ts, settled, n, b, pending);
    if pending == [] {
      last := n - 1;
      assert Rejections([], UnacceptedReversal) == [];
    } else if |rest| == |pending| {
      last := n - 1;
      RejectAllInOrder(b', rest);
      RejectAllSpec(b', rest);
    } else {
      last := PhaseInLayers(ts, settled, n + 1, b', rest);
    }
  }

  /** The whole order of a derivation, in the order of its input: the settled settlements are accepted first,
      then the reversals, those with the shortest chains first; and the others are rejected, settlements at the floor
      before reversals without an accepted target. */
  lemma BookInOrder(ts: seq<Transfer>) returns (last: nat)
    requires KeysDistinct(ts, TransferId)
    ensures var b := BookOf(ts); var settled := Settled(b.accepted);
            && b.accepted == Layers(ts, settled, last)
            && b.rejected
               == Rejections(Filter(ts, (t: Transfer) => t.terms.reverses.None? && t !in b.accepted), MinimumBalance)
                + Rejections(Filter(ts, (t: Transfer) => t.terms.reverses.Some? && t !in b.accepted), UnacceptedReversal)
  {
    hide Layers, Layer, Within, ReversalPhase, OrdinaryPhase;
    var b, settled := OrdinaryPhase(ts), Settled(OrdinaryPhase(ts).accepted);
    var final := BookOf(ts);
    OrdinaryInOrder(ts);
    OrdinaryAccepted(ts);
    BookSound(ts);
    assert Settled(final.accepted) == settled;
    forall t | t in ts && t.terms.id in settled
      ensures t.terms.reverses.None?
    {
      var u :| u in b.accepted && u.terms.id == t.terms.id;
      SameKeySameValue(ts, TransferId, t, u);
    }
    StartsAtLayerOne(ts, settled, b);
    last := PhaseInLayers(ts, settled, 1, b, Filter(ts, IsReversal));
    forall t | t in ts
      ensures t.terms.reverses.None? ==> (t.terms.id in settled <==> t in final.accepted)
      ensures t.terms.reverses.Some? ==> (Within(ts, settled, t.terms.id, last + 1) <==> t in final.accepted)
    {
      IdAccepted(ts, final.accepted, t);
      IdAccepted(ts, b.accepted, t);
      SameIds(final.accepted, AcceptedIds(final));
    }
    FilterAgrees(ts, (t: Transfer) => t.terms.reverses.None? && t.terms.id !in settled,
                 (t: Transfer) => t.terms.reverses.None? && t !in final.accepted);
    FilterAgrees(ts, (t: Transfer) => t.terms.reverses.Some? && !Within(ts, settled, t.terms.id, last + 1),
                 (t: Transfer) => t.terms.reverses.Some? && t !in final.accepted);
  }

  lemma IdAccepted(ts: seq<Transfer>, accepted: seq<Transfer>, t: Transfer)
    requires KeysDistinct(ts, TransferId) && t in ts && forall u | u in accepted :: u in ts
    ensures t in accepted <==> HasId(accepted, t.terms.id)
  {
    forall u | u in accepted && u.terms.id == t.terms.id
      ensures u == t
    {
      SameKeySameValue(ts, TransferId, t, u);
    }
  }

  lemma StartsAtLayerOne(ts: seq<Transfer>, settled: set<string>, b: Book)
    requires settled == Settled(b.accepted) && b.accepted == Layer(ts, settled, 0)
    requires forall t | t in b.accepted :: t.terms.reverses.None?
    requires OrdinaryIds(ts, settled)
    ensures AtLayer(ts, settled, 1, b, Filter(ts, IsReversal))
  {
    forall t | t in ts && t.terms.reverses.Some?
      ensures !Within(ts, settled, t.terms.id, 1)
    {
    }
    FilterAgrees(ts, IsReversal, (t: Transfer) => t.terms.reverses.Some? && !Within(ts, settled, t.terms.id, 1));
    forall id
      ensures id in AcceptedIds(b) <==> Within(ts, settled, id, 1)
    {
      assert Reaches(ts, settled, id, 0) <==> id in settled;
    }
  }

  // ---- which settlements are admitted ---------------------------------------------------------------

  lemma {:induction false} LaterDecidesNothing(ts: seq<Transfer>, i: nat, t: Transfer)
    requires KeysDistinct(ts, TransferId) && i <= |ts| && t in ts[..i]
    ensures t in OrdinaryPhase(ts[..i]).accepted <==> t in OrdinaryPhase(ts).accepted
    decreases |ts|
  {
    if i < |ts| {
      var front, last := ts[..|ts| - 1], ts[|ts| - 1];
      FrontLast(ts);
      NewId(front, last);
      assert front[..i] == ts[..i];
      assert t in front;
      LaterDecidesNothing(front, i, t);
      NotDecidedLast(front, last, t);
    } else {
      TakeAll(ts);
    }
  }

  /** The admission law: a settlement is accepted exactly when what the accepted settlements before it leave its
      recipient covers its minutes down to minus fifty hours. */
  lemma AdmittedIffFloorAllows(ts: seq<Transfer>, i: nat)
    requires KeysDistinct(ts, TransferId) && i < |ts| && ts[i].terms.reverses.None?
    ensures var b := BookOf(ts);
            var before := Filter(ts[..i], (t: Transfer) => t.terms.reverses.None? && t in b.accepted);
            ts[i] in b.accepted <==> Net(before, ts[i].terms.recipient) - ts[i].terms.minutes >= -3000
  {
    hide Net;
    var b, front, t := BookOf(ts), ts[..i], ts[i];
    var before := Filter(front, (u: Transfer) => u.terms.reverses.None? && u in b.accepted);
    TakeNext(ts, i);
    PrefixKeys(ts, i);
    OrdinaryInOrder(front);
    OrdinaryAccepted(front);
    LedgerConserves(front);
    BookSound(ts);
    var settled := Settled(OrdinaryPhase(front).accepted);
    forall u | u in front
      ensures u.terms.reverses.None? ==> (u.terms.id in settled <==> u in b.accepted)
    {
      LaterDecidesNothing(ts, i, u);
      IdAccepted(front, OrdinaryPhase(front).accepted, u);
    }
    FilterAgrees(front, (u: Transfer) => u.terms.reverses.None? && u.terms.id in settled,
                 (u: Transfer) => u.terms.reverses.None? && u in b.accepted);
    assert OrdinaryPhase(front).accepted == before;
    PrefixKeys(ts, i + 1);
    NewId(front, t);
    LaterDecidesNothing(ts, i + 1, t);
  }

  lemma PrefixKeys(ts: seq<Transfer>, i: nat)
    requires KeysDistinct(ts, TransferId) && i <= |ts|
    ensures KeysDistinct(ts[..i], TransferId)
  {
    assert forall j | 0 <= j < i :: ts[..i][j] == ts[j];
  }

  // ---- when a derivation succeeds ---------------------------------------------------------------------

  ghost predicate SoundTerms(t: Terms) {
    && Present(t.id) && Present(t.communityId) && Present(t.provider) && Present(t.recipient)
    && t.minutes > 0 && t.provider != t.recipient
    && (t.reverses.Some? ==> Present(t.reverses.value) && t.reverses.value != t.id)
    && (t.reverses.None? ==> t.sourceProposalId.Some? && Present(t.sourceProposalId.value))
  }

  ghost predicate SoundAttestation(a: Attestation) {
    Present(a.memberId) && Present(a.keyId) && Present(a.payloadDigest) && Present(a.signature)
  }

  /** The provider and the recipient, and nobody else, have each attested once. */
  ghost predicate BothAttest(x: Transfer) {
    && |x.attestations| == 2 && SoundAttestation(x.attestations[0]) && SoundAttestation(x.attestations[1])
    && {x.attestations[0].memberId, x.attestations[1].memberId} == {x.terms.provider, x.terms.recipient}
  }

  /** The same transfer with the provider's attestation first. */
  ghost function InOrder(x: Transfer): Transfer {
    if |x.attestations| == 2 && x.attestations[0].memberId != x.terms.provider
    then Transfer(x.terms, [x.attestations[1], x.attestations[0]]) else x
  }

  ghost predicate Acceptable(communityId: string, verify: Verifier, x: Transfer) {
    && SoundTerms(x.terms) && BothAttest(x) && x.terms.communityId == communityId
    && forall a | a in x.attestations :: verify(InOrder(x), a)
  }

  /** Normalization accepts exactly sound terms that both participants attest, and only orders the attestations. */
  lemma NormalForm(x: Transfer)
    ensures CreateTransfer(x).Ok? <==> SoundTerms(x.terms) && BothAttest(x)
    ensures CreateTransfer(x).Ok? ==> CreateTransfer(x).value == InOrder(x)
  {
    hide Present;
    if |x.attestations| == 2 {
      var a, b := x.attestations[0], x.attestations[1];
      assert x.attestations == [a, b];
      assert {a.memberId, b.memberId} == {x.terms.provider, x.terms.recipient} <==>
             || (a.memberId == x.terms.provider && b.memberId == x.terms.recipient)
             || (b.memberId == x.terms.provider && a.memberId == x.terms.recipient)
             || (a.memberId == b.memberId == x.terms.provider == x.terms.recipient);
    }
  }

  lemma AdmitsAcceptable(communityId: string, verify: Verifier, x: Transfer)
    ensures AdmitTransfer(communityId, verify, x) == if Acceptable(communityId, verify, x) then Ok(InOrder(x)) else Error
  {
    hide SoundTerms, BothAttest, CreateTransfer;
    NormalForm(x);
    assert forall a :: a in InOrder(x).attestations <==> a in x.attestations;
  }

  /** What a delivery must be for a ledger to be derived from it. */
  ghost predicate Derivable(communityId: string, verify: Verifier, xs: seq<Transfer>) {
    && Present(communityId)
    && (forall x | x in xs :: Acceptable(communityId, verify, x))
    && (forall x, y | x in xs && y in xs && x.terms.id == y.terms.id :: InOrder(x) == InOrder(y))
    && (forall x, y | x in xs && y in xs && x.terms.reverses.None? && y.terms.reverses.None?
                      && x.terms.sourceProposalId == y.terms.sourceProposalId :: x.terms.id == y.terms.id)
    && (forall x | x in xs && x.terms.reverses.Some? ::
          exists y :: y in xs && y.terms.id == x.terms.reverses.value && y.terms.provider == x.terms.recipient
                      && y.terms.recipient == x.terms.provider && y.terms.minutes == x.terms.minutes)
  }

  /** The sorted, deduplicated transfers are the deliveries in normal form, one per id. */
  ghost predicate Collects(xs: seq<Transfer>, ts: seq<Transfer>) {
    KeysDistinct(ts, TransferId) && forall t :: t in ts <==> exists x :: x in xs && InOrder(x) == t
  }

  lemma InOrderKeepsId()
    ensures forall x :: InOrder(x).terms == x.terms
  {
  }

  lemma ReducesTo(less: (string, string) -> bool, communityId: string, xs: seq<Transfer>, verify: Verifier)
    ensures var r := Reduce(ById(less), xs, Admit(communityId, verify), TransferId);
            && (r.Ok? <==>
                  && (forall x | x in xs :: Acceptable(communityId, verify, x))
                  && (forall x, y | x in xs && y in xs && x.terms.id == y.terms.id :: InOrder(x) == InOrder(y)))
            && (r.Ok? ==> Collects(xs, r.value))
  {
    hide Acceptable, AdmitTransfer, Reduce, KeysDistinct, InOrder;
    InOrderKeepsId();
    var admit := Admit(communityId, verify);
    forall x
      ensures admit(x) == if Acceptable(communityId, verify, x) then Ok(InOrder(x)) else Error
    {
      AdmitsAcceptable(communityId, verify, x);
    }
    ReduceSpec(ById(less), xs, admit, TransferId);
    var r := Reduce(ById(less), xs, admit, TransferId);
    if r.Ok? {
      forall t
        ensures t in r.value <==> exists x :: x in xs && InOrder(x) == t
      {
        if t in r.value { var x :| x in xs && admit(x) == Ok(t); }
      }
    }
  }

  lemma UniqueIff(xs: seq<Transfer>, ts: seq<Transfer>)
    requires Collects(xs, ts) && forall x | x in xs :: SoundTerms(x.terms)
    ensures UniqueSettlements(ts) <==>
              forall x, y | x in xs && y in xs && x.terms.reverses.None? && y.terms.reverses.None?
                            && x.terms.sourceProposalId == y.terms.sourceProposalId :: x.terms.id == y.terms.id
  {
    hide Present;
    if UniqueSettlements(ts) {
      forall x, y | x in xs && y in xs && x.terms.reverses.None? && y.terms.reverses.None?
                    && x.terms.sourceProposalId == y.terms.sourceProposalId
        ensures x.terms.id == y.terms.id
      {
        assert InOrder(x) in ts && InOrder(y) in ts;
        var i :| 0 <= i < |ts| && ts[i] == InOrder(x);
        var j :| 0 <= j < |ts| && ts[j] == InOrder(y);
      }
    } else {
      forall t | t in ts
        ensures !IsReversal(t) ==> t.terms.sourceProposalId.Some?
      {
        var x :| x in xs && InOrder(x) == t;
      }
      var i, j :| 0 <= i < j < |ts| && !IsReversal(ts[i]) && !IsReversal(ts[j])
                  && ts[i].terms.sourceProposalId == ts[j].terms.sourceProposalId;
      assert ts[i] in ts && ts[j] in ts;
      var x :| x in xs && InOrder(x) == ts[i];
      var y :| y in xs && InOrder(y) == ts[j];
      assert TransferId(ts[i]) != TransferId(ts[j]);
      assert x.terms.id != y.terms.id;
    }
  }

  lemma ReversalsValidIff(xs: seq<Transfer>, ts: seq<Transfer>)
    requires Collects(xs, ts)
    ensures ValidReversals(ts) <==>
              forall x | x in xs && x.terms.reverses.Some? ::
                exists y :: y in xs && y.terms.id == x.terms.reverses.value && y.terms.provider == x.terms.recipient
                            && y.terms.recipient == x.terms.provider && y.terms.minutes == x.terms.minutes
  {
    forall x | x in xs && x.terms.reverses.Some?
      ensures ReversalIsValid(InOrder(x), ts) <==>
                exists y :: y in xs && y.terms.id == x.terms.reverses.value && y.terms.provider == x.terms.recipient
                            && y.terms.recipient == x.terms.provider && y.terms.minutes == x.terms.minutes
    {
      var found := Lookup(ts, TransferId, x.terms.reverses.value);
      if found.Some? {
        var z :| z in xs && InOrder(z) == found.value;
      }
      if y :| y in xs && y.terms.id == x.terms.reverses.value && y.terms.provider == x.terms.recipient
              && y.terms.recipient == x.terms.provider && y.terms.minutes == x.terms.minutes {
        assert InOrder(y) in ts;
        LookupUnique(ts, TransferId, InOrder(y));
      }
    }
    forall t | t in ts
      ensures exists x :: x in xs && InOrder(x) == t
    {
    }
    forall x | x in xs ensures InOrder(x) in ts { }
    if ValidReversals(ts) {
      forall x | x in xs && x.terms.reverses.Some? ensures ReversalIsValid(InOrder(x), ts) { }
    } else {
      var t :| t in ts && !ReversalIsValid(t, ts);
      var x :| x in xs && InOrder(x) == t;
      assert x.terms.reverses.Some?;
    }
  }

  /** A ledger is derived exactly when every delivery is acceptable, deliveries under one id agree up to the order of
      their attestations, no proposal is settled under two ids, and every reversal cancels a delivered transfer. */
  lemma DerivesIff(less: (string, string) -> bool, communityId: string, xs: seq<Transfer>, verify: Verifier)
    ensures DeriveLedger(less, communityId, xs, verify).Ok? <==> Derivable(communityId, verify, xs)
    ensures DeriveLedger(less, communityId, xs, verify).Ok? ==> Collects(xs, Admitted(less, communityId, xs, verify).value)
  {
    hide Acceptable, InOrder, Reduce, Present, UniqueSettlements, ValidReversals, Collects, BookOf;
    ReducesTo(less, communityId, xs, verify);
    var r := Reduce(ById(less), xs, Admit(communityId, verify), TransferId);
    if r.Ok? {
      forall x | x in xs ensures SoundTerms(x.terms) { AcceptableTerms(communityId, verify, x); }
      UniqueIff(xs, r.value);
      ReversalsValidIff(xs, r.value);
    }
  }

  lemma AcceptableTerms(communityId: string, verify: Verifier, x: Transfer)
    requires Acceptable(communityId, verify, x)
    ensures SoundTerms(x.terms)
  {
  }

  // ---- the view ---------------------------------------------------------------------------------------

  ghost predicate IdsAscend(less: (string, string) -> bool, ts: seq<Transfer>) {
    forall i, j | 0 <= i < j < |ts| :: less(ts[i].terms.id, ts[j].terms.id)
  }

  /** The ledger that follows from these transfers, the deliveries in normal form and in the order of their ids:
      who is accepted in which order, who is rejected in which order and why, what is posted, and what each member's
      balance is. */
  ghost predicate IsLedgerOf(less: (string, string) -> bool, communityId: string, ts: seq<Transfer>,
                             accepted: seq<Transfer>, last: nat, view: LedgerView)
  {
    && view.communityId == communityId
    && multiset(view.transfers) == multiset(accepted)
    && accepted == Layers(ts, Settled(accepted), last)
    && (forall i | 0 <= i < |ts| && ts[i].terms.reverses.None? ::
          ts[i] in accepted <==>
          Net(Filter(ts[..i], (t: Transfer) => t.terms.reverses.None? && t in accepted), ts[i].terms.recipient)
            - ts[i].terms.minutes >= -3000)
    && (forall t | t in ts && t.terms.reverses.Some? :: t in accepted <==> Grounded(ts, Settled(accepted), t.terms.id))
    && view.rejected
       == Rejections(Filter(ts, (t: Transfer) => t.terms.reverses.None? && t !in accepted), MinimumBalance)
        + Rejections(Filter(ts, (t: Transfer) => t.terms.reverses.Some? && t !in accepted), UnacceptedReversal)
    && PostedInOrder(accepted, view.postings)
    && BalancesPosted(view.balances, view.postings) && PostedInAll(view.postings) == 0
  }

  ghost function ViewOf(less: (string, string) -> bool, communityId: string, b: Book): LedgerView {
    LedgerView(communityId, Sort(ById(less), b.accepted), b.rejected, b.postings, b.balances)
  }

  lemma BookIsLedger(less: (string, string) -> bool, communityId: string, ts: seq<Transfer>) returns (last: nat)
    requires KeysDistinct(ts, TransferId)
    ensures IsLedgerOf(less, communityId, ts, BookOf(ts).accepted, last, ViewOf(less, communityId, BookOf(ts)))
  {
    hide BookOf, Layers, Net, PostedInOrder, BalancesPosted, PostedInAll, KeysDistinct, Sort, Rejections, Grounded, Settled,
         SettledIds;
    var accepted := BookOf(ts).accepted;
    last := BookInOrder(ts);
    SortPermutes(ById(less), accepted);
    BookIsPosted(ts);
    forall i | 0 <= i < |ts| && ts[i].terms.reverses.None?
      ensures ts[i] in accepted <==>
              Net(Filter(ts[..i], (t: Transfer) => t.terms.reverses.None? && t in accepted), ts[i].terms.recipient)
                - ts[i].terms.minutes >= -3000
    {
      AdmittedIffFloorAllows(ts, i);
    }
    BookSettles(ts);
    forall t | t in ts && t.terms.reverses.Some?
      ensures t in accepted <==> Grounded(ts, Settled(accepted), t.terms.id)
    {
      ReversalAcceptedIffGrounded(ts, t);
    }
  }

  /** Every derived view is the ledger of its deliveries, and lists its transfers by ascending id. */
  lemma ViewInPlainTerms(less: (string, string) -> bool, communityId: string, xs: seq<Transfer>, verify: Verifier)
    returns (ts: seq<Transfer>, accepted: seq<Transfer>, last: nat)
    requires DeriveLedger(less, communityId, xs, verify).Ok?
    ensures Collects(xs, ts)
    ensures IsLedgerOf(less, communityId, ts, accepted, last, DeriveLedger(less, communityId, xs, verify).value)
    ensures IdsOrdered(less, xs) ==>
              IdsAscend(less, ts) && IdsAscend(less, DeriveLedger(less, communityId, xs, verify).value.transfers)
  {
    hide Admitted, IsLedgerOf, Collects, BookOf, IdsOrdered, KeysDistinct, UniqueSettlements, ValidReversals, Derivable;
    DerivesIff(less, communityId, xs, verify);
    ts := Admitted(less, communityId, xs, verify).value;
    AdmittedFacts(less, communityId, xs, verify);
    accepted := BookOf(ts).accepted;
    last := BookIsLedger(less, communityId, ts);
    if IdsOrdered(less, xs) { ViewAscends(less, ts); }
  }

  lemma BookSettles(ts: seq<Transfer>)
    ensures Settled(BookOf(ts).accepted) == SettledIds(ts)
  {
    BookSound(ts);
    OrdinaryAccepted(ts);
  }

  lemma ViewAscends(less: (string, string) -> bool, ts: seq<Transfer>)
    requires Sorted(less, ts)
    ensures IdsAscend(less, ts) && IdsAscend(less, Sort(ById(less), BookOf(ts).accepted))
  {
    BookSound(ts);
    AcceptedAndRejectedPartition(ts);
    var accepted := BookOf(ts).accepted;
    assert multiset(accepted) <= multiset(ts);
    PartOfDistinct(ts, accepted);
    assert TotalOn(ById(less), accepted);
    SortAscends(ById(less), accepted);
  }

  lemma PartOfDistinct(ts: seq<Transfer>, part: seq<Transfer>)
    requires KeysDistinct(ts, TransferId) && multiset(part) <= multiset(ts)
    ensures NoDuplicates(part)
  {
    DistinctKeysDistinctValues(ts, TransferId);
    forall i, j | 0 <= i < j < |part|
      ensures part[i] != part[j]
    {
      if part[i] == part[j] {
        assert part == part[..i] + [part[i]] + part[i + 1..j] + [part[j]] + part[j + 1..];
        assert multiset(part)[part[i]] >= 2;
        assert part[i] in ts;
        OnceInMultiset(ts, part[i]);
      }
    }
  }
}

/** What the ledger derivation guarantees for every input. */
module LedgerTheorems {
  import opened Core
  import opened Sorting
  import opened Reduction
  import opened Types
  import opened Ledger

  // ---- convergence ----------------------------------------------------------------------------

  /** Delivered transfers, up to the order in which each lists its two attestations. */
  ghost predicate SameTransfers(xs: seq<Transfer>, ys: seq<Transfer>) {
    SameContent(xs, ys, CreateTransfer)
  }

  lemma AdmissionFollowsContent(communityId: string, verify: Verifier, xs: seq<Transfer>, ys: seq<Transfer>)
    requires SameTransfers(xs, ys)
    ensures SameContent(xs, ys, Admit(communityId, verify))
  {
    var admit := Admit(communityId, verify);
    forall x | x in xs
      ensures Delivered(ys, admit, admit(x))
    {
      assert Delivered(ys, CreateTransfer, CreateTransfer(x));
      var y :| y in ys && CreateTransfer(y) == CreateTransfer(x);
      assert admit(y) == admit(x);
    }
    forall y | y in ys
      ensures Delivered(xs, admit, admit(y))
    {
      assert Delivered(xs, CreateTransfer, CreateTransfer(y));
      var x :| x in xs && CreateTransfer(x) == CreateTransfer(y);
      assert admit(x) == admit(y);
    }
  }

  /** The comparator orders the ids of these transfers strictly. */
  ghost predicate IdsOrdered(less: (string, string) -> bool, ts: seq<Transfer>) {
    TotalOn(less, Map(ts, TransferId))
  }

  lemma DistinctIdsTotallyOrdered(less: (string, string) -> bool, source: seq<Transfer>, ts: seq<Transfer>)
    requires IdsOrdered(less, source) && KeysDistinct(ts, TransferId)
    requires forall t | t in ts :: exists s :: s in source && TransferId(s) == TransferId(t)
    ensures TotalOn(ById(less), ts)
  {
    var ids := Map(source, TransferId);
    forall t | t in ts
      ensures TransferId(t) in ids
    {
      var s :| s in source && TransferId(s) == TransferId(t);
      var i :| 0 <= i < |source| && source[i] == s;
      assert ids[i] == TransferId(t);
    }
    forall a, b | a in ts && b in ts && a != b
      ensures TransferId(a) != TransferId(b)
    {
      if TransferId(a) == TransferId(b) { SameKeySameValue(ts, TransferId, a, b); }
    }
  }

  lemma AdmittedKeepIds(communityId: string, verify: Verifier, xs: seq<Transfer>, ts: seq<Transfer>)
    requires HoldsDecoded(ts, xs, Admit(communityId, verify))
    ensures forall t | t in ts :: exists x :: x in xs && TransferId(x) == TransferId(t)
  {
    hide Present, IsReversal, NormalizeAttestations, ValidTerms;
    forall t | t in ts
      ensures exists x :: x in xs && TransferId(x) == TransferId(t)
    {
      var x :| x in xs && Admit(communityId, verify)(x) == Ok(t);
      assert x in xs && TransferId(x) == TransferId(t);
    }
  }

  /** The ledger is a function of the set of normalized transfers: reordering the input, repeating
      entries, or swapping the attestations of an entry changes neither the result nor its failure. */
  lemma LedgerConverges(less: (string, string) -> bool, communityId: string,
                        xs: seq<Transfer>, ys: seq<Transfer>, verify: Verifier)
    requires SameTransfers(xs, ys)
    requires IdsOrdered(less, xs)
    ensures DeriveLedger(less, communityId, xs, verify) == DeriveLedger(less, communityId, ys, verify)
  {
    hide Admit, BookOf, UniqueSettlements, ValidReversals, Reduce, Dedupe, SameTransfers, IdsOrdered, Present, TotalOn,
         SameContent;
    AdmissionFollowsContent(communityId, verify, xs, ys);
    AdmittedOrdered(less, communityId, xs, verify);
    ReduceConverges(ById(less), xs, ys, Admit(communityId, verify), TransferId);
  }

  lemma AdmittedOrdered(less: (string, string) -> bool, communityId: string, xs: seq<Transfer>, verify: Verifier)
    requires IdsOrdered(less, xs)
    ensures var deduped := Dedupe(xs, Admit(communityId, verify), TransferId);
            deduped.Ok? ==> TotalOn(ById(less), deduped.value)
  {
    hide Admit, Dedupe, IdsOrdered, TotalOn, TransferId;
    var admit := Admit(communityId, verify);
    DedupeSpec(xs, admit, TransferId);
    var deduped := Dedupe(xs, admit, TransferId);
    if deduped.Ok? {
      AdmittedKeepIds(communityId, verify, xs, deduped.value);
      DistinctIdsTotallyOrdered(less, xs, deduped.value);
    }
  }

  /** When the comparator ties two ids, convergence fails: of two settlements that together take one
      recipient below the floor, the one that arrives first is admitted and the other is not. */
  lemma TiedIdsBreakConvergence(less: (string, string) -> bool, communityId: string, verify: Verifier,
                                t: Transfer, u: Transfer)
    requires Present(communityId) && TransferId(t) != TransferId(u)
    requires !less(TransferId(t), TransferId(u)) && !less(TransferId(u), TransferId(t))
    requires AdmitTransfer(communityId, verify, t) == Ok(t) && AdmitTransfer(communityId, verify, u) == Ok(u)
    requires !IsReversal(t) && !IsReversal(u) && t.terms.sourceProposalId != u.terms.sourceProposalId
    requires t.terms.recipient == u.terms.recipient && t.terms.provider == u.terms.provider
    requires t.terms.minutes <= 3000 && u.terms.minutes <= 3000 < t.terms.minutes + u.terms.minutes
    ensures SameTransfers([t, u], [u, t])
    ensures DeriveLedger(less, communityId, [t, u], verify) != DeriveLedger(less, communityId, [u, t], verify)
  {
    hide DeriveLedger, CreateTransfer;
    FirstArrivalWins(less, communityId, verify, t, u);
    FirstArrivalWins(less, communityId, verify, u, t);
    forall x | x in [t, u]
      ensures Delivered([u, t], CreateTransfer, CreateTransfer(x)) && Delivered([t, u], CreateTransfer, CreateTransfer(x))
    {
      assert x in [u, t] && x in [t, u];
    }
  }

  /** Of two such settlements with tied ids, the one that arrives first is admitted and the other is not. */
  lemma FirstArrivalWins(less: (string, string) -> bool, communityId: string, verify: Verifier, t: Transfer, u: Transfer)
    requires Present(communityId) && TransferId(t) != TransferId(u) && !less(TransferId(u), TransferId(t))
    requires AdmitTransfer(communityId, verify, t) == Ok(t) && AdmitTransfer(communityId, verify, u) == Ok(u)
    requires !IsReversal(t) && !IsReversal(u) && t.terms.sourceProposalId != u.terms.sourceProposalId
    requires t.terms.recipient == u.terms.recipient && t.terms.provider == u.terms.provider
    requires t.terms.minutes <= 3000 && u.terms.minutes <= 3000 < t.terms.minutes + u.terms.minutes
    ensures DeriveLedger(less, communityId, [t, u], verify).Ok?
    ensures DeriveLedger(less, communityId, [t, u], verify).value.rejected == [Rejection(u, MinimumBalance)]
  {
    hide Present, Reduce, BookOf, UniqueSettlements, ValidReversals;
    AdmittedShape(communityId, verify, t);
    AdmittedShape(communityId, verify, u);
    TwoDeliveries(less, t, u, Admit(communityId, verify));
    TwoSettlements(t, u);
  }

  lemma AdmittedShape(communityId: string, verify: Verifier, t: Transfer)
    requires AdmitTransfer(communityId, verify, t) == Ok(t) && !IsReversal(t)
    ensures t.terms.sourceProposalId.Some? && t.terms.provider != t.terms.recipient && t.terms.minutes > 0
  {
    hide Present;
  }

  /** Fifty hours and one minute, from the same provider to the same recipient, under any two distinct ids. */
  ghost function FiftyHours(a: string, b: string): Transfer {
    Transfer(Terms(a, a, Some(a), a, b, 3000, None), [Attestation(a, a, a, a), Attestation(b, a, a, a)])
  }

  ghost function OneMinute(a: string, b: string): Transfer {
    Transfer(Terms(b, a, Some(b), a, b, 1, None), FiftyHours(a, b).attestations)
  }

  /** Any two distinct ids that the comparator ties break convergence: the two settlements above, in their two
      orders, give different ledgers. */
  lemma TiedIdsDiverge(less: (string, string) -> bool, verify: Verifier, a: string, b: string)
    requires Present(a) && Present(b) && a != b && !less(a, b) && !less(b, a)
    requires forall t, attestation :: verify(t, attestation)
    ensures SameTransfers([FiftyHours(a, b), OneMinute(a, b)], [OneMinute(a, b), FiftyHours(a, b)])
    ensures DeriveLedger(less, a, [FiftyHours(a, b), OneMinute(a, b)], verify)
         != DeriveLedger(less, a, [OneMinute(a, b), FiftyHours(a, b)], verify)
  {
    hide Present, DeriveLedger, SameTransfers;
    assert CreateTransfer(FiftyHours(a, b)) == Ok(FiftyHours(a, b));
    assert CreateTransfer(OneMinute(a, b)) == Ok(OneMinute(a, b));
    TiedIdsBreakConvergence(less, a, verify, FiftyHours(a, b), OneMinute(a, b));
  }

  /** Every two deliveries of the same transfers derive the same ledger, or both fail, in every community and
      under every verifier. */
  ghost predicate AlwaysConverges(less: (string, string) -> bool) {
    forall communityId, xs, ys, verify
      {:trigger DeriveLedger(less, communityId, xs, verify), DeriveLedger(less, communityId, ys, verify)} |
      SameTransfers(xs, ys) :: DeriveLedger(less, communityId, xs, verify) == DeriveLedger(less, communityId, ys, verify)
  }

  /** The comparator ties no two distinct ids that a transfer may carry. */
  ghost predicate TiesNoIds(less: (string, string) -> bool) {
    forall a, b | Present(a) && Present(b) && a != b :: less(a, b) || less(b, a)
  }

  lemma FailsTogether(less: (string, string) -> bool, communityId: string, xs: seq<Transfer>, ys: seq<Transfer>,
                      verify: Verifier, x: Transfer)
    requires SameTransfers(xs, ys) && x in xs && CreateTransfer(x) == Error
    ensures DeriveLedger(less, communityId, xs, verify) == DeriveLedger(less, communityId, ys, verify) == Error
  {
    hide CreateTransfer, BookOf, UniqueSettlements, ValidReversals, Present, Sort;
    var admit := Admit(communityId, verify);
    assert Delivered(ys, CreateTransfer, CreateTransfer(x));
    var y :| y in ys && CreateTransfer(y) == Error;
    assert admit(x) == Error && admit(y) == Error;
    ReduceSpec(ById(less), xs, admit, TransferId);
    ReduceSpec(ById(less), ys, admit, TransferId);
  }

  /** For a comparator that is a strict partial order, the ledger is a function of the delivered content
      exactly when the comparator ties no two distinct ids. */
  lemma ConvergesIffNoTies(less: (string, string) -> bool)
    requires (forall a :: !less(a, a)) && forall a, b, c :: less(a, b) && less(b, c) ==> less(a, c)
    ensures AlwaysConverges(less) <==> TiesNoIds(less)
  {
    hide Present, DeriveLedger, SameTransfers, CreateTransfer;
    if TiesNoIds(less) {
      forall communityId, xs, ys, verify | SameTransfers(xs, ys)
        ensures DeriveLedger(less, communityId, xs, verify) == DeriveLedger(less, communityId, ys, verify)
      {
        if x :| x in xs && CreateTransfer(x) == Error {
          FailsTogether(less, communityId, xs, ys, verify, x);
        } else {
          ValidIdsOrdered(less, xs);
          LedgerConverges(less, communityId, xs, ys, verify);
        }
      }
    } else {
      var a, b :| Present(a) && Present(b) && a != b && !less(a, b) && !less(b, a);
      var verify := (t: Transfer, attestation: Attestation) => true;
      TiedIdsDiverge(less, verify, a, b);
    }
  }

  lemma ValidIdsOrdered(less: (string, string) -> bool, xs: seq<Transfer>)
    requires (forall a :: !less(a, a)) && forall a, b, c :: less(a, b) && less(b, c) ==> less(a, c)
    requires TiesNoIds(less) && forall x | x in xs :: CreateTransfer(x).Ok?
    ensures IdsOrdered(less, xs)
  {
    hide Present;
    forall id | id in Map(xs, TransferId)
      ensures Present(id)
    {
      MapMember(xs, TransferId, id);
    }
  }

  lemma TwoDeliveries(less: (string, string) -> bool, t: Transfer, u: Transfer, admit: Transfer -> Result<Transfer>)
    requires admit(t) == Ok(t) && admit(u) == Ok(u) && TransferId(t) != TransferId(u)
    requires !less(TransferId(u), TransferId(t))
    ensures Reduce(ById(less), [t, u], admit, TransferId) == Ok([t, u])
  {
    assert [t, u][..1] == [t] && [t][..0] == [] && [t][0] == t;
    assert [] + [t] == [t] && [t] + [u] == [t, u];
    assert Merge([], t, TransferId) == Ok([t]);
    assert Dedupe([], admit, TransferId) == Ok([]);
    assert Dedupe([t], admit, TransferId) == Ok([t]);
    assert Dedupe([t, u], admit, TransferId) == Ok([t, u]);
    assert Sort(ById(less), [t]) == [t];
  }

  lemma TwoSettlements(t: Transfer, u: Transfer)
    requires !IsReversal(t) && !IsReversal(u)
    requires t.terms.sourceProposalId.Some? && u.terms.sourceProposalId.Some?
    requires t.terms.sourceProposalId != u.terms.sourceProposalId
    requires t.terms.provider != t.terms.recipient
    requires t.terms.recipient == u.terms.recipient && t.terms.provider == u.terms.provider
    requires 0 < t.terms.minutes <= 3000 && u.terms.minutes + t.terms.minutes > 3000
    ensures UniqueSettlements([t, u]) && ValidReversals([t, u])
    ensures BookOf([t, u]).rejected == [Rejection(u, MinimumBalance)]
  {
    assert [t, u][..1] == [t] && [t][..0] == [];
    var first := OrdinaryPhase([t]);
    assert OrdinaryPhase([]) == EMPTY_BOOK;
    assert first == Accept(EMPTY_BOOK, t);
    var ps := PostingsOf(t);
    assert ps[..1] == [ps[0]] && ps[..1][..0] == [];
    assert ApplyPostings(map[], []) == map[];
    assert ApplyPostings(map[], ps[..1]) == Apply(map[], ps[0]);
    assert Balance(first.balances, u.terms.recipient) == -t.terms.minutes;
    assert OrdinaryPhase([t, u]) == Reject(first, u, MinimumBalance);
    assert Filter([t, u], IsReversal) == [];
  }

  // ---- accepted and rejected partition the input -----------------------------------------------

  function RejectedTransfers(rs: seq<Rejection>): seq<Transfer> {
    Map(rs, (r: Rejection) => r.transfer)
  }

  /** Everything a book has decided, with multiplicity. */
  ghost function Decided(b: Book): multiset<Transfer> {
    multiset(b.accepted) + multiset(RejectedTransfers(b.rejected))
  }

  lemma RejectDecides(b: Book, t: Transfer, reason: Reason)
    ensures Decided(Reject(b, t, reason)) == Decided(b) + multiset{t}
  {
    assert RejectedTransfers(b.rejected + [Rejection(t, reason)]) == RejectedTransfers(b.rejected) + [t];
  }

  lemma {:induction false} OrdinaryDecides(ts: seq<Transfer>)
    ensures Decided(OrdinaryPhase(ts)) + multiset(Filter(ts, IsReversal)) == multiset(ts)
  {
    if ts != [] {
      var front, t := ts[..|ts| - 1], ts[|ts| - 1];
      assert ts == front + [t];
      OrdinaryDecides(front);
      var b := OrdinaryPhase(front);
      RejectDecides(b, t, MinimumBalance);
      assert multiset(ts) == multiset(front) + multiset{t};
      if IsReversal(t) {
        assert Filter(ts, IsReversal) == Filter(front, IsReversal) + [t];
      } else {
        assert Filter(ts, IsReversal) == Filter(front, IsReversal);
        assert Decided(OrdinaryPhase(ts)) == Decided(b) + multiset{t};
      }
    }
  }

  lemma {:induction false} RoundDecides(b: Book, pending: seq<Transfer>, ids: set<string>)
    ensures var (b', rest) := Round(b, pending, ids);
            Decided(b') + multiset(rest) == Decided(b) + multiset(pending)
  {
    if pending != [] {
      var front, t := pending[..|pending| - 1], pending[|pending| - 1];
      assert pending == front + [t];
      RoundDecides(b, front, ids);
      var (b', rest) := Round(b, front, ids);
      assert multiset(pending) == multiset(front) + multiset{t};
      if Targets(t, ids) {
        assert Decided(Accept(b', t)) == Decided(b') + multiset{t};
        AddOnBothSides(Decided(b'), multiset(rest), Decided(b), multiset(front), multiset{t});
      } else {
        assert multiset(rest + [t]) == multiset(rest) + multiset{t};
        AddOnBothSides(Decided(b'), multiset(rest), Decided(b), multiset(front), multiset{t});
      }
    }
  }

  lemma AddOnBothSides<T>(a: multiset<T>, b: multiset<T>, c: multiset<T>, d: multiset<T>, x: multiset<T>)
    requires a + b == c + d
    ensures (a + x) + b == c + (d + x)
    ensures a + (b + x) == c + (d + x)
  {
    assert (a + x) + b == (a + b) + x == a + (b + x);
    assert c + (d + x) == (c + d) + x;
  }

  lemma {:induction false} RejectAllDecides(b: Book, ts: seq<Transfer>)
    ensures Decided(RejectAll(b, ts)) == Decided(b) + multiset(ts)
  {
    if ts != [] {
      var front, t := ts[..|ts| - 1], ts[|ts| - 1];
      assert ts == front + [t];
      RejectAllDecides(b, front);
      RejectDecides(RejectAll(b, front), t, UnacceptedReversal);
    }
  }

  lemma {:induction false} ReversalPhaseDecides(b: Book, pending: seq<Transfer>)
    ensures Decided(ReversalPhase(b, pending)) == Decided(b) + multiset(pending)
    decreases |pending|
  {
    if pending != [] {
      RoundDecides(b, pending, AcceptedIds(b));
      var (b', rest) := Round(b, pending, AcceptedIds(b));
      if |rest| == |pending| { RejectAllDecides(b', rest); } else { ReversalPhaseDecides(b', rest); }
    }
  }

  /** Every deduplicated transfer is either accepted once or rejected once, and nothing else is. */
  lemma AcceptedAndRejectedPartition(ts: seq<Transfer>)
    ensures multiset(BookOf(ts).accepted) + multiset(RejectedTransfers(BookOf(ts).rejected)) == multiset(ts)
  {
    OrdinaryDecides(ts);
    ReversalPhaseDecides(OrdinaryPhase(ts), Filter(ts, IsReversal));
  }

  // ---- the reversal rounds compute a least fixpoint --------------------------------------------

  /** Following `reverses` for this many steps from the id ends at an accepted ordinary settlement. */
  ghost predicate Reaches(ts: seq<Transfer>, settled: set<string>, id: string, steps: nat)
    decreases steps
  {
    if steps == 0 then id in settled
    else exists t :: t in ts && t.terms.id == id && IsReversal(t)
                     && Reaches(ts, settled, t.terms.reverses.value, steps - 1)
  }

  ghost predicate Grounded(ts: seq<Transfer>, settled: set<string>, id: string) {
    exists steps: nat :: Reaches(ts, settled, id, steps)
  }

  ghost function SettledIds(ts: seq<Transfer>): set<string> {
    AcceptedIds(OrdinaryPhase(ts))
  }

  lemma {:induction false} RoundSpec(b: Book, pending: seq<Transfer>, ids: set<string>)
    ensures var (b', rest) := Round(b, pending, ids);
            && (forall t :: t in b'.accepted <==> t in b.accepted || (t in pending && Targets(t, ids)))
            && (forall t :: t in rest <==> t in pending && !Targets(t, ids))
            && b'.rejected == b.rejected
            && (|rest| == |pending| ==> rest == pending && b' == b)
  {
    if pending != [] {
      var front, t := pending[..|pending| - 1], pending[|pending| - 1];
      assert pending == front + [t];
      RoundSpec(b, front, ids);
    }
  }

  lemma {:induction false} RejectAllSpec(b: Book, ts: seq<Transfer>)
    ensures RejectAll(b, ts).accepted == b.accepted
    ensures RejectAll(b, ts).postings == b.postings && RejectAll(b, ts).balances == b.balances
  {
    if ts != [] { RejectAllSpec(b, ts[..|ts| - 1]); }
  }

  lemma {:induction false} ReversalPhaseSound(ts: seq<Transfer>, settled: set<string>, b: Book, pending: seq<Transfer>)
    requires forall t | t in b.accepted :: Grounded(ts, settled, t.terms.id)
    requires forall t | t in pending :: t in ts && IsReversal(t)
    ensures forall t | t in ReversalPhase(b, pending).accepted ::
              Grounded(ts, settled, t.terms.id) && (t in b.accepted || t in pending)
    decreases |pending|
  {
    if pending != [] {
      var ids := AcceptedIds(b);
      RoundSpec(b, pending, ids);
      var (b', rest) := Round(b, pending, ids);
      forall t | t in b'.accepted
        ensures Grounded(ts, settled, t.terms.id)
      {
        if t !in b.accepted {
          var original :| original in b.accepted && original.terms.id == t.terms.reverses.value;
          var steps: nat :| Reaches(ts, settled, original.terms.id, steps);
          assert Reaches(ts, settled, t.terms.id, steps + 1);
        }
      }
      if |rest| == |pending| { RejectAllSpec(b', rest); } else { ReversalPhaseSound(ts, settled, b', rest); }
    }
  }

  lemma {:induction false} ReversalPhaseComplete(b: Book, pending: seq<Transfer>)
    requires forall t | t in pending :: IsReversal(t)
    ensures var final := ReversalPhase(b, pending);
            && (forall t | t in b.accepted :: t in final.accepted)
            && (forall t | t in pending :: t in final.accepted || !Targets(t, AcceptedIds(final)))
    decreases |pending|
  {
    if pending != [] {
      var ids := AcceptedIds(b);
      RoundSpec(b, pending, ids);
      var (b', rest) := Round(b, pending, ids);
      if |rest| == |pending| { RejectAllSpec(b', rest); } else { ReversalPhaseComplete(b', rest); }
    }
  }

  lemma {:induction false} OrdinaryAccepted(ts: seq<Transfer>)
    ensures forall t | t in OrdinaryPhase(ts).accepted :: t in ts && !IsReversal(t)
  {
    if ts != [] {
      assert ts == ts[..|ts| - 1] + [ts[|ts| - 1]];
      OrdinaryAccepted(ts[..|ts| - 1]);
    }
  }

  lemma BookSound(ts: seq<Transfer>)
    ensures forall t | t in BookOf(ts).accepted :: t in ts && Grounded(ts, SettledIds(ts), t.terms.id)
    ensures forall t | t in OrdinaryPhase(ts).accepted :: t in BookOf(ts).accepted
    ensures forall t | t in BookOf(ts).accepted && !IsReversal(t) :: t in OrdinaryPhase(ts).accepted
  {
    var b, reversals := OrdinaryPhase(ts), Filter(ts, IsReversal);
    OrdinaryAccepted(ts);
    forall t | t in b.accepted
      ensures Grounded(ts, SettledIds(ts), t.terms.id)
    {
      assert Reaches(ts, SettledIds(ts), t.terms.id, 0);
    }
    ReversalPhaseSound(ts, SettledIds(ts), b, reversals);
    ReversalPhaseComplete(b, reversals);
  }

  lemma {:induction false} ReachingIsAccepted(ts: seq<Transfer>, id: string, steps: nat)
    requires Reaches(ts, SettledIds(ts), id, steps)
    ensures id in AcceptedIds(BookOf(ts))
    decreases steps
  {
    var b, reversals := OrdinaryPhase(ts), Filter(ts, IsReversal);
    ReversalPhaseComplete(b, reversals);
    if steps == 0 {
      var t :| t in b.accepted && t.terms.id == id;
      assert t in BookOf(ts).accepted;
    } else {
      var t :| t in ts && t.terms.id == id && IsReversal(t)
               && Reaches(ts, SettledIds(ts), t.terms.reverses.value, steps - 1);
      ReachingIsAccepted(ts, t.terms.reverses.value, steps - 1);
      assert t in reversals && Targets(t, AcceptedIds(BookOf(ts)));
    }
  }

  /** A reversal is accepted exactly when following the reversed ids, finitely often, reaches an accepted
      ordinary settlement. Nothing outside the input is accepted. */
  lemma ReversalAcceptedIffGrounded(ts: seq<Transfer>, t: Transfer)
    requires KeysDistinct(ts, TransferId) && t in ts && IsReversal(t)
    ensures t in BookOf(ts).accepted <==> Grounded(ts, SettledIds(ts), t.terms.id)
  {
    BookSound(ts);
    if Grounded(ts, SettledIds(ts), t.terms.id) {
      var steps: nat :| Reaches(ts, SettledIds(ts), t.terms.id, steps);
      ReachingIsAccepted(ts, t.terms.id, steps);
      var u :| u in BookOf(ts).accepted && u.terms.id == t.terms.id;
      SameKeySameValue(ts, TransferId, t, u);
    }
  }

  lemma {:induction false} CycleNeverReaches(ts: seq<Transfer>, cycle: set<string>, id: string, steps: nat)
    requires id in cycle
    requires forall t | t in ts && t.terms.id in cycle :: IsReversal(t) && t.terms.reverses.value in cycle
    ensures !Reaches(ts, SettledIds(ts), id, steps)
    decreases steps
  {
    if steps == 0 {
      OrdinaryAccepted(ts);
    } else {
      forall t | t in ts && t.terms.id == id && IsReversal(t)
        ensures !Reaches(ts, SettledIds(ts), t.terms.reverses.value, steps - 1)
      {
        CycleNeverReaches(ts, cycle, t.terms.reverses.value, steps - 1);
      }
    }
  }

  /** Reversals that only reverse one another are all rejected. */
  lemma ReversalCyclesRejected(ts: seq<Transfer>, cycle: set<string>)
    requires forall t | t in ts && t.terms.id in cycle :: IsReversal(t) && t.terms.reverses.value in cycle
    ensures forall t | t in BookOf(ts).accepted :: t.terms.id !in cycle
  {
    BookSound(ts);
    forall t | t in BookOf(ts).accepted
      ensures t.terms.id !in cycle
    {
      var steps: nat :| Reaches(ts, SettledIds(ts), t.terms.id, steps);
      if t.terms.id in cycle { CycleNeverReaches(ts, cycle, t.terms.id, steps); }
    }
  }
}

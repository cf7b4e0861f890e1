/** Conservation, the credit floor and the size of every number in the ledger, and the stability of
    earlier admissions. */
module LedgerBounds {
  import opened Core
  import opened Sorting
  import opened Reduction
  import opened Types
  import opened Ledger
  import opened LedgerTheorems

  // ---- sums over balances ---------------------------------------------------------------------

  ghost function Total(m: map<string, int>): int
    decreases |m|
  {
    if m == map[] then 0
    else
      var k :| k in m;
      m[k] + Total(m - {k})
  }

  lemma {:induction false} TotalSplit(m: map<string, int>, k: string)
    requires k in m
    ensures Total(m) == m[k] + Total(m - {k})
    decreases |m|
  {
    var j :| j in m && Total(m) == m[j] + Total(m - {j});
    if j != k {
      TotalSplit(m - {j}, k);
      TotalSplit(m - {k}, j);
      assert m - {j} - {k} == m - {k} - {j};
    }
  }

  lemma TotalAfterPosting(m: map<string, int>, p: Posting)
    ensures Total(Apply(m, p)) == Total(m) + p.minutes
  {
    TotalSplit(Apply(m, p), p.memberId);
    assert Apply(m, p) - {p.memberId} == m - {p.memberId};
    if p.memberId in m {
      TotalSplit(m, p.memberId);
    } else {
      assert m - {p.memberId} == m;
    }
  }

  lemma RemoveSize(m: map<string, int>, k: string)
    requires k in m
    ensures |m - {k}| == |m| - 1
  {
    assert (m - {k}).Keys == m.Keys - {k};
  }

  lemma {:induction false} TotalAtLeast(m: map<string, int>)
    requires forall k | k in m :: m[k] >= -3000
    ensures Total(m) >= -3000 * |m|
    decreases |m|
  {
    if m != map[] {
      var k :| k in m && Total(m) == m[k] + Total(m - {k});
      RemoveSize(m, k);
      TotalAtLeast(m - {k});
    }
  }

  /** Balances that sum to zero above a floor are also bounded from above by the number of members. */
  lemma ZeroSumBoundsAbove(m: map<string, int>, k: string)
    requires Total(m) == 0 && k in m
    requires forall j | j in m :: m[j] >= -3000
    ensures m[k] <= 3000 * (|m| - 1)
  {
    TotalSplit(m, k);
    RemoveSize(m, k);
    TotalAtLeast(m - {k});
  }

  lemma AcceptedBalances(b: Book, t: Transfer)
    ensures Accept(b, t).balances ==
              Apply(Apply(b.balances, PostingsOf(t)[0]), PostingsOf(t)[1])
  {
    var ps := PostingsOf(t);
    assert ps[..1] == [ps[0]] && ps[..1][..0] == [];
    assert ApplyPostings(b.balances, []) == b.balances;
    assert ApplyPostings(b.balances, ps[..1]) == Apply(b.balances, ps[0]);
  }

  // ---- what every book of a derivation keeps ---------------------------------------------------

  /** A property of books survives both phases when each admission and rejection keeps it. */
  lemma {:induction false} OrdinaryPhaseKeeps(keeps: Book -> bool, ts: seq<Transfer>)
    requires keeps(EMPTY_BOOK)
    requires forall b, t {:trigger Accept(b, t)} |
               t in ts && !IsReversal(t) && keeps(b) && !WouldCrossMinimum(t, b.balances) :: keeps(Accept(b, t))
    requires forall b, t, reason {:trigger Reject(b, t, reason)} | keeps(b) :: keeps(Reject(b, t, reason))
    ensures keeps(OrdinaryPhase(ts))
  {
    if ts != [] {
      var front, t := ts[..|ts| - 1], ts[|ts| - 1];
      assert ts == front + [t];
      OrdinaryPhaseKeeps(keeps, front);
      assert t in ts;
    }
  }

  lemma {:induction false} RoundKeeps(keeps: Book -> bool, b: Book, pending: seq<Transfer>, ids: set<string>)
    requires keeps(b)
    requires forall c, t {:trigger Accept(c, t)} | t in pending && keeps(c) :: keeps(Accept(c, t))
    ensures keeps(Round(b, pending, ids).0)
  {
    if pending != [] {
      assert pending == pending[..|pending| - 1] + [pending[|pending| - 1]];
      RoundKeeps(keeps, b, pending[..|pending| - 1], ids);
    }
  }

  lemma {:induction false} RejectAllKeeps(keeps: Book -> bool, b: Book, ts: seq<Transfer>)
    requires keeps(b)
    requires forall c, t, reason {:trigger Reject(c, t, reason)} | keeps(c) :: keeps(Reject(c, t, reason))
    ensures keeps(RejectAll(b, ts))
  {
    if ts != [] { RejectAllKeeps(keeps, b, ts[..|ts| - 1]); }
  }

  lemma {:induction false} ReversalPhaseKeeps(keeps: Book -> bool, b: Book, pending: seq<Transfer>)
    requires keeps(b)
    requires forall c, t {:trigger Accept(c, t)} | t in pending && keeps(c) :: keeps(Accept(c, t))
    requires forall c, t, reason {:trigger Reject(c, t, reason)} | keeps(c) :: keeps(Reject(c, t, reason))
    ensures keeps(ReversalPhase(b, pending))
    decreases |pending|
  {
    if pending != [] {
      var ids := AcceptedIds(b);
      RoundKeeps(keeps, b, pending, ids);
      RoundSpec(b, pending, ids);
      var (b', rest) := Round(b, pending, ids);
      if |rest| == |pending| { RejectAllKeeps(keeps, b', rest); } else { ReversalPhaseKeeps(keeps, b', rest); }
    }
  }

  /** The balance change that accepted transfers imply for one member: earned minus received. */
  ghost function Net(ts: seq<Transfer>, memberId: string): int {
    if ts == [] then 0
    else
      var t := ts[|ts| - 1];
      Net(ts[..|ts| - 1], memberId)
        + (if t.terms.provider == memberId then t.terms.minutes else 0)
        - (if t.terms.recipient == memberId then t.terms.minutes else 0)
  }

  /** Minutes of accepted reversals that were charged to one member. */
  ghost function ReversalCharges(ts: seq<Transfer>, memberId: string): int {
    if ts == [] then 0
    else
      var t := ts[|ts| - 1];
      ReversalCharges(ts[..|ts| - 1], memberId)
        + (if IsReversal(t) && t.terms.recipient == memberId then t.terms.minutes else 0)
  }

  /** The members who have postings. */
  ghost function Participants(ts: seq<Transfer>): set<string> {
    (set t | t in ts :: t.terms.provider) + (set t | t in ts :: t.terms.recipient)
  }

  ghost predicate Conserved(b: Book) {
    && Total(b.balances) == 0
    && (forall m :: Balance(b.balances, m) == Net(b.accepted, m))
    && b.balances.Keys == Participants(b.accepted)
  }

  lemma AcceptKeepsTotal(b: Book, t: Transfer)
    ensures Total(Accept(b, t).balances) == Total(b.balances)
  {
    AcceptedBalances(b, t);
    var ps := PostingsOf(t);
    TotalAfterPosting(b.balances, ps[0]);
    TotalAfterPosting(Apply(b.balances, ps[0]), ps[1]);
  }

  lemma AcceptKeepsNet(b: Book, t: Transfer, m: string)
    requires Balance(b.balances, m) == Net(b.accepted, m)
    ensures Balance(Accept(b, t).balances, m) == Net(Accept(b, t).accepted, m)
  {
    AcceptedBalances(b, t);
    var after := b.accepted + [t];
    assert after[..|after| - 1] == b.accepted;
  }

  lemma AcceptConserves(b: Book, t: Transfer)
    requires Conserved(b)
    ensures Conserved(Accept(b, t))
  {
    AcceptKeepsTotal(b, t);
    forall m
      ensures Balance(Accept(b, t).balances, m) == Net(Accept(b, t).accepted, m)
    {
      AcceptKeepsNet(b, t, m);
    }
    AcceptedBalances(b, t);
    assert Participants(b.accepted + [t]) == Participants(b.accepted) + {t.terms.provider, t.terms.recipient};
  }

  /** Balances always sum to zero, each balance is what the accepted transfers imply for that member,
      and exactly the participants of accepted transfers have one. */
  lemma LedgerConserves(ts: seq<Transfer>)
    ensures Conserved(BookOf(ts))
    ensures Conserved(OrdinaryPhase(ts))
  {
    var keeps := b => Conserved(b);
    forall b, t {:trigger Accept(b, t)} | keeps(b)
      ensures keeps(Accept(b, t))
    {
      AcceptConserves(b, t);
    }
    OrdinaryPhaseKeeps(keeps, ts);
    ReversalPhaseKeeps(keeps, OrdinaryPhase(ts), Filter(ts, IsReversal));
  }

  // ---- the credit floor -----------------------------------------------------------------------

  ghost predicate Floored(b: Book) {
    forall m :: Balance(b.balances, m) + ReversalCharges(b.accepted, m) >= MINIMUM_BALANCE
  }

  lemma AcceptFloored(b: Book, t: Transfer)
    requires Floored(b) && t.terms.minutes > 0 && t.terms.provider != t.terms.recipient
    requires IsReversal(t) || (!WouldCrossMinimum(t, b.balances) && ReversalCharges(b.accepted, t.terms.recipient) >= 0)
    ensures Floored(Accept(b, t))
  {
    AcceptedBalances(b, t);
    var after := b.accepted + [t];
    assert after[..|after| - 1] == b.accepted;
  }

  lemma {:induction false} NoChargesWithoutReversals(ts: seq<Transfer>, m: string)
    requires forall t | t in ts :: t.terms.minutes > 0
    ensures ReversalCharges(ts, m) >= 0
    ensures (forall t | t in ts :: !IsReversal(t)) ==> ReversalCharges(ts, m) == 0
  {
    if ts != [] {
      assert ts == ts[..|ts| - 1] + [ts[|ts| - 1]];
      NoChargesWithoutReversals(ts[..|ts| - 1], m);
    }
  }

  ghost predicate WellFormed(ts: seq<Transfer>) {
    forall t | t in ts :: t.terms.minutes > 0 && t.terms.provider != t.terms.recipient
  }

  lemma BookFloored(ts: seq<Transfer>)
    requires WellFormed(ts)
    ensures Floored(OrdinaryPhase(ts)) && Floored(BookOf(ts))
  {
    var keeps := b => Floored(b) && WellFormed(b.accepted);
    forall b, t {:trigger Accept(b, t)} |
      t in ts && keeps(b) && (IsReversal(t) || !WouldCrossMinimum(t, b.balances))
      ensures keeps(Accept(b, t))
    {
      NoChargesWithoutReversals(b.accepted, t.terms.recipient);
      AcceptFloored(b, t);
    }
    assert forall b, t, reason {:trigger Reject(b, t, reason)} | keeps(b) :: keeps(Reject(b, t, reason));
    OrdinaryPhaseKeeps(keeps, ts);
    ReversalPhaseKeeps(keeps, OrdinaryPhase(ts), Filter(ts, IsReversal));
  }

  /** Ordinary settlements keep every balance between minus fifty hours and fifty hours for each other
      member; a reversal can take a member below the floor only by the minutes it charges that member. */
  lemma BalancesBounded(ts: seq<Transfer>, m: string)
    requires WellFormed(ts)
    ensures var b := OrdinaryPhase(ts);
            m in b.balances ==> MINIMUM_BALANCE <= b.balances[m] <= 3000 * (|b.balances| - 1)
    ensures Balance(BookOf(ts).balances, m) >= MINIMUM_BALANCE - ReversalCharges(BookOf(ts).accepted, m)
  {
    BookFloored(ts);
    LedgerConserves(ts);
    OrdinaryAccepted(ts);
    var b := OrdinaryPhase(ts);
    forall j | j in b.balances
      ensures b.balances[j] >= MINIMUM_BALANCE
    {
      NoChargesWithoutReversals(b.accepted, j);
      assert Balance(b.balances, j) + ReversalCharges(b.accepted, j) >= MINIMUM_BALANCE;
    }
    if m in b.balances { ZeroSumBoundsAbove(b.balances, m); }
  }

  // ---- the size of admitted amounts ------------------------------------------------------------

  lemma MoreParticipants(b: Book, t: Transfer)
    ensures |Accept(b, t).balances| >= |b.balances|
    ensures |Accept(b, t).balances| >= 1
  {
    AcceptedBalances(b, t);
    var after := Accept(b, t).balances;
    assert after.Keys == b.balances.Keys + {t.terms.provider, t.terms.recipient};
    SubsetCount(b.balances.Keys, after.Keys);
    SubsetCount({t.terms.provider}, after.Keys);
  }

  /** What one more admission implies for the amount admitted. */
  lemma AdmittedAmount(ts: seq<Transfer>, t: Transfer)
    requires WellFormed(ts) && !WouldCrossMinimum(t, OrdinaryPhase(ts).balances)
    ensures t.terms.minutes <= 3000 * |Accept(OrdinaryPhase(ts), t).balances|
  {
    var b := OrdinaryPhase(ts);
    MoreParticipants(b, t);
    BalancesBounded(ts, t.terms.recipient);
  }

  lemma {:induction false} OrdinaryAmountsBounded(ts: seq<Transfer>)
    requires WellFormed(ts)
    ensures var b := OrdinaryPhase(ts);
            forall t | t in b.accepted :: t.terms.minutes <= 3000 * |b.balances|
  {
    if ts != [] {
      var front, t := ts[..|ts| - 1], ts[|ts| - 1];
      assert ts == front + [t];
      OrdinaryAmountsBounded(front);
      if !IsReversal(t) && !WouldCrossMinimum(t, OrdinaryPhase(front).balances) {
        AdmittedAmount(front, t);
        MoreParticipants(OrdinaryPhase(front), t);
      }
    }
  }

  lemma {:induction false} ReachingAmount(ts: seq<Transfer>, settled: set<string>, bound: int, t: Transfer, steps: nat)
    requires KeysDistinct(ts, TransferId) && ValidReversals(ts) && t in ts
    requires forall s | s in ts && s.terms.id in settled :: s.terms.minutes <= bound
    requires Reaches(ts, settled, t.terms.id, steps)
    ensures t.terms.minutes <= bound
    decreases steps
  {
    if steps > 0 {
      var u :| u in ts && u.terms.id == t.terms.id && IsReversal(u)
               && Reaches(ts, settled, u.terms.reverses.value, steps - 1);
      SameKeySameValue(ts, TransferId, u, t);
      assert ReversalIsValid(t, ts);
      var original := Lookup(ts, TransferId, t.terms.reverses.value).value;
      ReachingAmount(ts, settled, bound, original, steps - 1);
    }
  }

  /** Every accepted amount, of settlements and of reversals, is at most fifty hours per member with
      postings, so up to 3 * 10^12 members the admission arithmetic stays in the safe integers. */
  lemma AcceptedAmountsBounded(ts: seq<Transfer>, t: Transfer)
    requires WellFormed(ts) && KeysDistinct(ts, TransferId) && ValidReversals(ts)
    requires t in BookOf(ts).accepted
    ensures t.terms.minutes <= 3000 * |OrdinaryPhase(ts).balances|
    ensures |OrdinaryPhase(ts).balances| <= 3_002_399_751_580 ==> t.terms.minutes < 0x20_0000_0000_0000
  {
    var b := OrdinaryPhase(ts);
    var bound := 3000 * |b.balances|;
    OrdinaryAmountsBounded(ts);
    forall s | s in ts && s.terms.id in SettledIds(ts)
      ensures s.terms.minutes <= bound
    {
      SettledAmount(ts, s, bound);
    }
    BookSound(ts);
    var steps: nat :| Reaches(ts, SettledIds(ts), t.terms.id, steps);
    ReachingAmount(ts, SettledIds(ts), bound, t, steps);
  }

  lemma SettledAmount(ts: seq<Transfer>, s: Transfer, bound: int)
    requires KeysDistinct(ts, TransferId) && s in ts && s.terms.id in SettledIds(ts)
    requires forall u | u in OrdinaryPhase(ts).accepted :: u.terms.minutes <= bound
    ensures s.terms.minutes <= bound
  {
    OrdinaryAccepted(ts);
    var u :| u in OrdinaryPhase(ts).accepted && u.terms.id == s.terms.id;
    SameKeySameValue(ts, TransferId, u, s);
  }

  /** The balances of the ordinary phase stay in the safe integers as well. */
  lemma OrdinaryBalancesSafe(ts: seq<Transfer>, m: string)
    requires WellFormed(ts) && m in OrdinaryPhase(ts).balances
    requires |OrdinaryPhase(ts).balances| <= 3_002_399_751_580
    ensures -0x20_0000_0000_0000 < OrdinaryPhase(ts).balances[m] < 0x20_0000_0000_0000
  {
    BalancesBounded(ts, m);
  }

  // ---- earlier admissions are stable -----------------------------------------------------------

  /** The ordinary settlements whose ids are at most this one. */
  ghost function OrdinaryUpTo(less: (string, string) -> bool, ts: seq<Transfer>, id: string): seq<Transfer> {
    Filter(ts, (t: Transfer) => !IsReversal(t) && (t.terms.id == id || less(t.terms.id, id)))
  }

  ghost function Ordinary(ts: seq<Transfer>): seq<Transfer> {
    Filter(ts, (t: Transfer) => !IsReversal(t))
  }

  lemma {:induction false} ReversalsDoNotMatterHere(ts: seq<Transfer>)
    ensures OrdinaryPhase(ts) == OrdinaryPhase(Ordinary(ts))
  {
    if ts != [] {
      var front, t := ts[..|ts| - 1], ts[|ts| - 1];
      ReversalsDoNotMatterHere(front);
      if !IsReversal(t) {
        assert Ordinary(ts) == Ordinary(front) + [t];
        assert Ordinary(ts)[..|Ordinary(ts)| - 1] == Ordinary(front);
      }
    }
  }

  lemma {:induction false} FilterAgrees<T>(s: seq<T>, p: T -> bool, q: T -> bool)
    requires forall x | x in s :: p(x) == q(x)
    ensures Filter(s, p) == Filter(s, q)
  {
    if s != [] {
      assert s == s[..|s| - 1] + [s[|s| - 1]];
      FilterAgrees(s[..|s| - 1], p, q);
    }
  }

  lemma {:induction false} FilterAscends<T(!new)>(less: (T, T) -> bool, s: seq<T>, keep: T -> bool)
    requires Ascending(less, s)
    ensures Ascending(less, Filter(s, keep))
  {
    if s != [] {
      var front, last := s[..|s| - 1], s[|s| - 1];
      FilterAscends(less, front, keep);
      forall x | x in Filter(front, keep)
        ensures less(x, last)
      {
        var i :| 0 <= i < |front| && front[i] == x;
        assert s[i] == x;
      }
    }
  }

  ghost predicate Sorted(less: (string, string) -> bool, ts: seq<Transfer>) {
    TotalOn(ById(less), ts) && Ascending(ById(less), ts) && KeysDistinct(ts, TransferId)
  }

  lemma PrefixEndsAt(less: (string, string) -> bool, front: seq<Transfer>, t: Transfer)
    requires Ascending(ById(less), front + [t]) && !IsReversal(t)
    ensures OrdinaryUpTo(less, front + [t], t.terms.id) == Ordinary(front) + [t]
  {
    var upTo := (u: Transfer) => !IsReversal(u) && (u.terms.id == t.terms.id || less(u.terms.id, t.terms.id));
    forall u | u in front
      ensures upTo(u) == !IsReversal(u)
    {
      var i :| 0 <= i < |front| && front[i] == u;
      assert ById(less)((front + [t])[i], (front + [t])[|front|]);
    }
    FilterAgrees(front, upTo, (u: Transfer) => !IsReversal(u));
    FilterAppend(front, [t], upTo);
    assert Filter([t][..0], upTo) == [];
    assert Filter([t], upTo) == [t];
  }

  lemma PrefixStopsBefore(less: (string, string) -> bool, front: seq<Transfer>, last: Transfer, t: Transfer)
    requires Sorted(less, front + [last]) && t in front
    ensures OrdinaryUpTo(less, front + [last], t.terms.id) == OrdinaryUpTo(less, front, t.terms.id)
  {
    var ts := front + [last];
    var i :| 0 <= i < |front| && front[i] == t;
    assert ts[i] == t && ts[|front|] == last && t in ts && last in ts;
    assert ById(less)(t, last);
    assert !less(last.terms.id, t.terms.id) by {
      assert ById(less)(last, t) ==> ById(less)(t, t);
    }
    assert TransferId(ts[i]) != TransferId(ts[|front|]);
    assert ts[..|ts| - 1] == front;
  }

  lemma {:induction false} AdmissionDecidedByPrefix(less: (string, string) -> bool, ts: seq<Transfer>, t: Transfer)
    requires Sorted(less, ts) && t in ts && !IsReversal(t)
    ensures t in OrdinaryPhase(ts).accepted <==> t in OrdinaryPhase(OrdinaryUpTo(less, ts, t.terms.id)).accepted
  {
    hide OrdinaryUpTo, Filter;
    var front, last := ts[..|ts| - 1], ts[|ts| - 1];
    assert ts == front + [last];
    if last == t {
      PrefixEndsAt(less, front, t);
      ReversalsDoNotMatterHere(front);
      SameDecision(front, Ordinary(front), t);
    } else {
      PrefixStopsBefore(less, front, last, t);
      SortedFront(less, ts);
      NotDecidedLast(front, last, t);
      AdmissionDecidedByPrefix(less, front, t);
    }
  }

  lemma SameDecision(front: seq<Transfer>, ordinary: seq<Transfer>, t: Transfer)
    requires OrdinaryPhase(front) == OrdinaryPhase(ordinary)
    ensures OrdinaryPhase(front + [t]) == OrdinaryPhase(ordinary + [t])
  {
    assert (front + [t])[..|front|] == front && (ordinary + [t])[..|ordinary|] == ordinary;
  }

  lemma NotDecidedLast(front: seq<Transfer>, last: Transfer, t: Transfer)
    requires last != t
    ensures t in OrdinaryPhase(front + [last]).accepted <==> t in OrdinaryPhase(front).accepted
  {
    assert (front + [last])[..|front|] == front;
  }

  lemma SortedFront(less: (string, string) -> bool, ts: seq<Transfer>)
    requires Sorted(less, ts) && ts != []
    ensures Sorted(less, ts[..|ts| - 1])
  {
    var front := ts[..|ts| - 1];
    assert forall t | t in front :: t in ts;
    assert forall i | 0 <= i < |front| :: front[i] == ts[i];
  }

  /** Whether a settlement is accepted depends only on the ordinary settlements with ids up to its own:
      two inputs that agree on those decide it alike, whatever later settlements or reversals they hold. */
  lemma AdmissionStable(less: (string, string) -> bool, xs: seq<Transfer>, ys: seq<Transfer>, t: Transfer)
    requires Sorted(less, xs) && Sorted(less, ys)
    requires t in xs && t in ys && !IsReversal(t)
    requires forall u | !IsReversal(u) && (u.terms.id == t.terms.id || less(u.terms.id, t.terms.id)) ::
               u in xs <==> u in ys
    ensures t in BookOf(xs).accepted <==> t in BookOf(ys).accepted
  {
    BookSound(xs);
    BookSound(ys);
    AdmissionDecidedByPrefix(less, xs, t);
    AdmissionDecidedByPrefix(less, ys, t);
    var upTo := (u: Transfer) => !IsReversal(u) && (u.terms.id == t.terms.id || less(u.terms.id, t.terms.id));
    var fx, fy := OrdinaryUpTo(less, xs, t.terms.id), OrdinaryUpTo(less, ys, t.terms.id);
    FilterAscends(ById(less), xs, upTo);
    FilterAscends(ById(less), ys, upTo);
    assert TotalOn(ById(less), fx);
    AscendingUnique(ById(less), fx, fy);
  }

  // ---- the derived ledger ---------------------------------------------------------------------

  /** What a successful derivation has established about the transfers it worked on. */
  lemma AdmittedFacts(less: (string, string) -> bool, communityId: string, xs: seq<Transfer>, verify: Verifier)
    requires Admitted(less, communityId, xs, verify).Ok?
    ensures var ts := Admitted(less, communityId, xs, verify).value;
            && KeysDistinct(ts, TransferId) && NoDuplicates(ts) && WellFormed(ts)
            && UniqueSettlements(ts) && ValidReversals(ts)
            && (forall t | t in ts :: exists x :: x in xs && CreateTransfer(x) == Ok(t))
            && (forall t | t in ts :: AdmitTransfer(communityId, verify, t) == Ok(t))
            && (forall x | x in xs :: CreateTransfer(x).Ok? && CreateTransfer(x).value in ts)
            && (IdsOrdered(less, xs) ==> Sorted(less, ts))
  {
    hide Reduce, UniqueSettlements, ValidReversals, Present, Sorted, IdsOrdered, NormalizeAttestations;
    var admit := Admit(communityId, verify);
    ReduceSpec(ById(less), xs, admit, TransferId);
    var ts := Admitted(less, communityId, xs, verify).value;
    forall t | t in ts
      ensures exists x :: x in xs && CreateTransfer(x) == Ok(t)
      ensures AdmitTransfer(communityId, verify, t) == Ok(t)
      ensures t.terms.minutes > 0 && t.terms.provider != t.terms.recipient
    {
      var x :| x in xs && admit(x) == Ok(t);
      assert AdmitTransfer(communityId, verify, x) == Ok(t);
      CreateTransferIdempotent(x);
    }
    forall x | x in xs
      ensures CreateTransfer(x).Ok? && CreateTransfer(x).value in ts
    {
      assert admit(x).Ok? && admit(x).value in ts;
    }
    if IdsOrdered(less, xs) { AdmittedSorted(less, communityId, xs, verify); }
  }

  lemma AdmittedSorted(less: (string, string) -> bool, communityId: string, xs: seq<Transfer>, verify: Verifier)
    requires Admitted(less, communityId, xs, verify).Ok? && IdsOrdered(less, xs)
    ensures Sorted(less, Admitted(less, communityId, xs, verify).value)
  {
    var admit := Admit(communityId, verify);
    DedupeSpec(xs, admit, TransferId);
    var values := Dedupe(xs, admit, TransferId).value;
    AdmittedOrdered(less, communityId, xs, verify);
    SortOrdersValues(ById(less), values, TransferId);
  }

  lemma ViewTransfers(less: (string, string) -> bool, communityId: string, xs: seq<Transfer>, verify: Verifier)
    requires DeriveLedger(less, communityId, xs, verify).Ok?
    ensures var ts := Admitted(less, communityId, xs, verify).value;
            forall t :: t in DeriveLedger(less, communityId, xs, verify).value.transfers <==> t in BookOf(ts).accepted
  {
    SortElements(ById(less), BookOf(Admitted(less, communityId, xs, verify).value).accepted);
  }

  /** The ordinary phase decides every ordinary settlement, and the reversal phase undoes no decision. */
  lemma OrdinaryDecided(ts: seq<Transfer>, t: Transfer)
    requires t in ts && !IsReversal(t)
    ensures t in BookOf(ts).accepted || Rejection(t, MinimumBalance) in BookOf(ts).rejected
  {
    SettledOrRejected(ts, t);
    var keeps := (b: Book) => t in b.accepted || Rejection(t, MinimumBalance) in b.rejected;
    ReversalPhaseKeeps(keeps, OrdinaryPhase(ts), Filter(ts, IsReversal));
  }

  lemma {:induction false} SettledOrRejected(ts: seq<Transfer>, t: Transfer)
    requires t in ts && !IsReversal(t)
    ensures t in OrdinaryPhase(ts).accepted || Rejection(t, MinimumBalance) in OrdinaryPhase(ts).rejected
  {
    var front, last := ts[..|ts| - 1], ts[|ts| - 1];
    assert ts == front + [last];
    if t in front { SettledOrRejected(front, t); }
  }

  /** A settlement handed to the derivation reaches the ledger exactly when it is not rejected at the floor. */
  lemma SettlementDecided(less: (string, string) -> bool, communityId: string, xs: seq<Transfer>, verify: Verifier,
                          t: Transfer)
    requires DeriveLedger(less, communityId, xs, verify).Ok?
    requires t in xs && CreateTransfer(t) == Ok(t) && !IsReversal(t)
    ensures var view := DeriveLedger(less, communityId, xs, verify).value;
            t in view.transfers <==> Rejection(t, MinimumBalance) !in view.rejected
  {
    hide BookOf, Present, UniqueSettlements, ValidReversals, WellFormed, CreateTransfer;
    AdmittedFacts(less, communityId, xs, verify);
    ViewTransfers(less, communityId, xs, verify);
    var ts := Admitted(less, communityId, xs, verify).value;
    assert t in ts;
    OrdinaryDecided(ts, t);
    NotBoth(ts, t);
  }

  lemma NotBoth(ts: seq<Transfer>, t: Transfer)
    requires NoDuplicates(ts) && t in ts
    ensures t in BookOf(ts).accepted ==> forall reason :: Rejection(t, reason) !in BookOf(ts).rejected
  {
    hide BookOf;
    var b := BookOf(ts);
    AcceptedAndRejectedPartition(ts);
    OnceInMultiset(ts, t);
    if reason :| Rejection(t, reason) in b.rejected {
      var i :| 0 <= i < |b.rejected| && b.rejected[i] == Rejection(t, reason);
      assert RejectedTransfers(b.rejected)[i] == t;
      assert multiset(RejectedTransfers(b.rejected))[t] >= 1;
      assert multiset(b.accepted)[t] + multiset(RejectedTransfers(b.rejected))[t] == 1;
    }
  }

  lemma OnceInMultiset<T>(s: seq<T>, v: T)
    requires NoDuplicates(s) && v in s
    ensures multiset(s)[v] == 1
  {
    var i :| 0 <= i < |s| && s[i] == v;
    assert s == s[..i] + [v] + s[i + 1..];
    assert v !in s[..i] && v !in s[i + 1..];
  }

  /** A settlement that is alone in the derivation reaches the ledger exactly when the floor of a new member
      covers it: fifty hours. */
  lemma LoneSettlement(less: (string, string) -> bool, communityId: string, xs: seq<Transfer>, verify: Verifier, t: Transfer)
    requires DeriveLedger(less, communityId, xs, verify).Ok?
    requires t in xs && (forall x | x in xs :: x == t) && CreateTransfer(t) == Ok(t) && !IsReversal(t)
    ensures t in DeriveLedger(less, communityId, xs, verify).value.transfers <==> t.terms.minutes <= 3000
  {
    hide BookOf, Present, UniqueSettlements, ValidReversals, WellFormed, CreateTransfer, Settle;
    AdmittedFacts(less, communityId, xs, verify);
    ViewTransfers(less, communityId, xs, verify);
    var ts := Admitted(less, communityId, xs, verify).value;
    assert t in ts;
    OneElement(ts, t);
    LoneBook(t);
  }

  lemma OneElement<T>(s: seq<T>, v: T)
    requires NoDuplicates(s) && v in s && forall x | x in s :: x == v
    ensures s == [v]
  {
    assert s[0] in s && s[|s| - 1] in s;
    assert s[0] == s[|s| - 1] == v;
  }

  lemma LoneBook(t: Transfer)
    requires !IsReversal(t)
    ensures t in BookOf([t]).accepted <==> t.terms.minutes <= 3000
  {
    hide ApplyPostings;
    assert [t][..0] == [];
    assert OrdinaryPhase([t]) == Settle(EMPTY_BOOK, t);
    assert Filter([t], IsReversal) == [];
  }

  /** Two replicas that both derive a ledger, and hold the same ordinary settlements up to an id, agree
      on whether the settlement with that id is in their ledgers. */
  lemma ReplicasAgreeOnEarlierSettlements(
    less: (string, string) -> bool, communityId: string, verify: Verifier,
    xs: seq<Transfer>, ys: seq<Transfer>, t: Transfer)
    requires IdsOrdered(less, xs) && IdsOrdered(less, ys)
    requires DeriveLedger(less, communityId, xs, verify).Ok? && DeriveLedger(less, communityId, ys, verify).Ok?
    requires !IsReversal(t) && Delivered(xs, CreateTransfer, Ok(t)) && Delivered(ys, CreateTransfer, Ok(t))
    requires forall u {:trigger Delivered(xs, CreateTransfer, Ok(u))} {:trigger Delivered(ys, CreateTransfer, Ok(u))} |
               !IsReversal(u) && (u.terms.id == t.terms.id || less(u.terms.id, t.terms.id)) ::
               Delivered(xs, CreateTransfer, Ok(u)) <==> Delivered(ys, CreateTransfer, Ok(u))
    ensures t in DeriveLedger(less, communityId, xs, verify).value.transfers
       <==> t in DeriveLedger(less, communityId, ys, verify).value.transfers
  {
    AdmittedFacts(less, communityId, xs, verify);
    AdmittedFacts(less, communityId, ys, verify);
    ViewTransfers(less, communityId, xs, verify);
    ViewTransfers(less, communityId, ys, verify);
    var tx := Admitted(less, communityId, xs, verify).value;
    var ty := Admitted(less, communityId, ys, verify).value;
    forall u
      ensures u in tx <==> Delivered(xs, CreateTransfer, Ok(u))
      ensures u in ty <==> Delivered(ys, CreateTransfer, Ok(u))
    {
    }
    forall u | !IsReversal(u) && (u.terms.id == t.terms.id || less(u.terms.id, t.terms.id))
      ensures u in tx <==> u in ty
    {
      assert Delivered(xs, CreateTransfer, Ok(u)) <==> Delivered(ys, CreateTransfer, Ok(u));
    }
    AdmissionStable(less, tx, ty, t);
  }
}

/** Derivation of one community's ledger from an unordered, possibly repeated set of transfers. */
module Ledger {
  import opened Core
  import opened Sorting
  import opened Reduction
  import opened Types

  /** Members may receive services down to minus fifty hours. */
  const MINIMUM_BALANCE: int := -50 * 60

  datatype Posting = Posting(transferId: string, memberId: string, minutes: int)
  datatype Reason = MinimumBalance | UnacceptedReversal
  datatype Rejection = Rejection(transfer: Transfer, reason: Reason)

  /** The accumulators of one derivation. */
  datatype Book = Book(
    accepted: seq<Transfer>, rejected: seq<Rejection>, postings: seq<Posting>, balances: map<string, int>)

  datatype LedgerView = LedgerView(
    communityId: string, transfers: seq<Transfer>, rejected: seq<Rejection>,
    postings: seq<Posting>, balances: map<string, int>)

  /** Decides one attestation of one normalized transfer; false also when the verifier throws. */
  type Verifier = (Transfer, Attestation) -> bool

  const EMPTY_BOOK := Book([], [], [], map[])

  // ---- one transfer ---------------------------------------------------------------------------

  predicate ValidTerms(t: Terms) {
    && Present(t.id) && Present(t.communityId) && Present(t.provider) && Present(t.recipient)
    && t.minutes > 0
    && t.provider != t.recipient
    && (match t.reverses
        case Some(target) => Present(target) && target != t.id
        case None => t.sourceProposalId.Some? && Present(t.sourceProposalId.value))
  }

  predicate ValidAttestation(a: Attestation) {
    Present(a.memberId) && Present(a.keyId) && Present(a.payloadDigest) && Present(a.signature)
  }

  /** Brings the two attestations into participant order; refuses missing, repeated or foreign signers. */
  function NormalizeAttestations(t: Transfer): Result<seq<Attestation>> {
    if |t.attestations| != 2 then Error
    else
      var a, b := t.attestations[0], t.attestations[1];
      if !ValidAttestation(a) || !ValidAttestation(b) then Error
      else if a.memberId == t.terms.provider && b.memberId == t.terms.recipient && a.memberId != b.memberId then Ok([a, b])
      else if b.memberId == t.terms.provider && a.memberId == t.terms.recipient && a.memberId != b.memberId then Ok([b, a])
      else Error
  }

  function CreateTransfer(t: Transfer): Result<Transfer> {
    if !ValidTerms(t.terms) then Error
    else
      var attestations :- NormalizeAttestations(t);
      Ok(Transfer(t.terms, attestations))
  }

  /** Normalizing a normalized transfer changes nothing. */
  lemma CreateTransferIdempotent(t: Transfer)
    requires CreateTransfer(t).Ok?
    ensures CreateTransfer(CreateTransfer(t).value) == CreateTransfer(t)
  {
    var n := CreateTransfer(t).value;
    assert |n.attestations| == 2 && n.terms == t.terms;
  }

  /** The order in which a transfer lists its two attestations does not matter. */
  lemma AttestationOrderIrrelevant(terms: Terms, a: Attestation, b: Attestation)
    ensures CreateTransfer(Transfer(terms, [a, b])) == CreateTransfer(Transfer(terms, [b, a]))
  {
    var t, u := Transfer(terms, [a, b]), Transfer(terms, [b, a]);
    assert t.attestations[0] == a && t.attestations[1] == b && u.attestations[0] == b && u.attestations[1] == a;
  }

  /** Normalization, community scope and signatures of one delivered transfer. */
  function Admit(communityId: string, verify: Verifier): Transfer -> Result<Transfer> {
    (t: Transfer) => AdmitTransfer(communityId, verify, t)
  }

  function AdmitTransfer(communityId: string, verify: Verifier, t: Transfer): Result<Transfer> {
    var normalized :- CreateTransfer(t);
    if normalized.terms.communityId != communityId then Error
    else if exists a :: a in normalized.attestations && !verify(normalized, a) then Error
    else Ok(normalized)
  }

  function TransferId(t: Transfer): string { t.terms.id }

  /** Transfers compare by id under the host's string comparator. */
  function ById(less: (string, string) -> bool): (Transfer, Transfer) -> bool {
    (t: Transfer, u: Transfer) => less(t.terms.id, u.terms.id)
  }

  // ---- checks over the whole set --------------------------------------------------------------

  predicate IsReversal(t: Transfer) { t.terms.reverses.Some? }

  /** Every ordinary transfer names a proposal and no proposal is named twice. */
  ghost predicate UniqueSettlements(ts: seq<Transfer>) {
    && (forall t | t in ts && !IsReversal(t) :: t.terms.sourceProposalId.Some?)
    && (forall i, j | 0 <= i < j < |ts| && !IsReversal(ts[i]) && !IsReversal(ts[j]) ::
          ts[i].terms.sourceProposalId != ts[j].terms.sourceProposalId)
  }

  predicate Cancels(t: Transfer, original: Transfer) {
    && t.terms.provider == original.terms.recipient
    && t.terms.recipient == original.terms.provider
    && t.terms.minutes == original.terms.minutes
  }

  /** The target of a reversal is in the same ledger and is exactly cancelled by it. */
  predicate ReversalIsValid(t: Transfer, ts: seq<Transfer>) {
    match t.terms.reverses
    case None => true
    case Some(target) =>
      match Lookup(ts, TransferId, target)
      case None => false
      case Some(original) => Cancels(t, original)
  }

  predicate ValidReversals(ts: seq<Transfer>) {
    forall t | t in ts :: ReversalIsValid(t, ts)
  }

  // ---- postings and balances ------------------------------------------------------------------

  function Balance(balances: map<string, int>, memberId: string): int {
    if memberId in balances then balances[memberId] else 0
  }

  function PostingsOf(t: Transfer): seq<Posting> {
    [Posting(t.terms.id, t.terms.provider, t.terms.minutes),
     Posting(t.terms.id, t.terms.recipient, -t.terms.minutes)]
  }

  function Apply(balances: map<string, int>, p: Posting): map<string, int> {
    balances[p.memberId := Balance(balances, p.memberId) + p.minutes]
  }

  function ApplyPostings(balances: map<string, int>, postings: seq<Posting>): map<string, int> {
    if postings == [] then balances
    else Apply(ApplyPostings(balances, postings[..|postings| - 1]), postings[|postings| - 1])
  }

  function Accept(b: Book, t: Transfer): Book {
    Book(b.accepted + [t], b.rejected, b.postings + PostingsOf(t), ApplyPostings(b.balances, PostingsOf(t)))
  }

  function Reject(b: Book, t: Transfer, reason: Reason): Book {
    b.(rejected := b.rejected + [Rejection(t, reason)])
  }

  predicate WouldCrossMinimum(t: Transfer, balances: map<string, int>) {
    Balance(balances, t.terms.recipient) - t.terms.minutes < MINIMUM_BALANCE
  }

  // ---- the two phases -------------------------------------------------------------------------

  /** One ordinary transfer in id order; reversals are skipped in this phase. */
  function Settle(b: Book, t: Transfer): Book {
    if IsReversal(t) then b
    else if WouldCrossMinimum(t, b.balances) then Reject(b, t, MinimumBalance)
    else Accept(b, t)
  }

  function OrdinaryPhase(ts: seq<Transfer>): Book {
    if ts == [] then EMPTY_BOOK
    else Settle(OrdinaryPhase(ts[..|ts| - 1]), ts[|ts| - 1])
  }

  function AcceptedIds(b: Book): set<string> {
    set t | t in b.accepted :: t.terms.id
  }

  predicate Targets(t: Transfer, ids: set<string>) {
    t.terms.reverses.Some? && t.terms.reverses.value in ids
  }

  /** One pass over the pending reversals against the ids accepted before the pass. */
  function Round(b: Book, pending: seq<Transfer>, ids: set<string>): (r: (Book, seq<Transfer>))
    ensures |r.1| <= |pending|
  {
    if pending == [] then (b, [])
    else
      var (b', rest) := Round(b, pending[..|pending| - 1], ids);
      var t := pending[|pending| - 1];
      if Targets(t, ids) then (Accept(b', t), rest) else (b', rest + [t])
  }

  function RejectAll(b: Book, ts: seq<Transfer>): Book {
    if ts == [] then b
    else Reject(RejectAll(b, ts[..|ts| - 1]), ts[|ts| - 1], UnacceptedReversal)
  }

  /** Rounds until no pending reversal is accepted any more. */
  function ReversalPhase(b: Book, pending: seq<Transfer>): Book
    decreases |pending|
  {
    if pending == [] then b
    else
      var (b', rest) := Round(b, pending, AcceptedIds(b));
      if |rest| == |pending| then RejectAll(b', rest) else ReversalPhase(b', rest)
  }

  function BookOf(ts: seq<Transfer>): Book {
    ReversalPhase(OrdinaryPhase(ts), Filter(ts, IsReversal))
  }

  /** The sorted, deduplicated transfers of one derivation, or failure. */
  ghost function Admitted(less: (string, string) -> bool, communityId: string,
                          transfers: seq<Transfer>, verify: Verifier): Result<seq<Transfer>>
  {
    if !Present(communityId) then Error
    else
      var ts :- Reduce(ById(less), transfers, Admit(communityId, verify), TransferId);
      if UniqueSettlements(ts) && ValidReversals(ts) then Ok(ts) else Error
  }

  /** The ledger that a set of transfers determines, or failure. */
  ghost function DeriveLedger(less: (string, string) -> bool, communityId: string,
                              transfers: seq<Transfer>, verify: Verifier): Result<LedgerView>
  {
    var ts :- Admitted(less, communityId, transfers, verify);
    var b := BookOf(ts);
    Ok(LedgerView(communityId, Sort(ById(less), b.accepted), b.rejected, b.postings, b.balances))
  }

  // ---- the derivation as the program runs it --------------------------------------------------

  method AssertUniqueSettlements(ts: seq<Transfer>) returns (ok: bool)
    ensures ok <==> UniqueSettlements(ts)
  {
    var settled: set<string> := {};
    for i := 0 to |ts|
      invariant UniqueSettlements(ts[..i])
      invariant forall p :: p in settled <==>
        exists k :: 0 <= k < i && !IsReversal(ts[k]) && ts[k].terms.sourceProposalId == Some(p)
    {
      var t := ts[i];
      assert ts[..i + 1] == ts[..i] + [t];
      if IsReversal(t) { continue; }
      if t.terms.sourceProposalId.None? {
        assert t in ts;
        return false;
      }
      var proposalId := t.terms.sourceProposalId.value;
      if proposalId in settled { return false; }
      settled := settled + {proposalId};
    }
    assert ts[..|ts|] == ts;
    return true;
  }

  method AssertValidReversals(ts: seq<Transfer>) returns (ok: bool)
    ensures ok <==> ValidReversals(ts)
  {
    for i := 0 to |ts|
      invariant forall k :: 0 <= k < i ==> ReversalIsValid(ts[k], ts)
    {
      if !ReversalIsValid(ts[i], ts) {
        assert ts[i] in ts;
        return false;
      }
    }
    return true;
  }

  /** The loop over ordinary settlements. */
  method RunOrdinaryPhase(ts: seq<Transfer>) returns (b: Book, reversals: seq<Transfer>)
    ensures b == OrdinaryPhase(ts) && reversals == Filter(ts, IsReversal)
  {
    var accepted, rejected, postings, balances := [], [], [], map[];
    reversals := [];
    for i := 0 to |ts|
      invariant Book(accepted, rejected, postings, balances) == OrdinaryPhase(ts[..i])
      invariant reversals == Filter(ts[..i], IsReversal)
    {
      assert ts[..i + 1][..i] == ts[..i];
      var t := ts[i];
      if IsReversal(t) {
        reversals := reversals + [t];
        continue;
      }
      if WouldCrossMinimum(t, balances) {
        rejected := rejected + [Rejection(t, MinimumBalance)];
        continue;
      }
      accepted := accepted + [t];
      postings := postings + PostingsOf(t);
      balances := ApplyPostings(balances, PostingsOf(t));
    }
    assert ts[..|ts|] == ts;
    b := Book(accepted, rejected, postings, balances);
  }

  /** One pass of the reversal loop. */
  method RunRound(start: Book, pending: seq<Transfer>, ids: set<string>)
    returns (b: Book, next: seq<Transfer>, acceptedOne: bool)
    ensures (b, next) == Round(start, pending, ids)
    ensures acceptedOne <==> |next| < |pending|
  {
    b, next, acceptedOne := start, [], false;
    for i := 0 to |pending|
      invariant (b, next) == Round(start, pending[..i], ids)
      invariant acceptedOne <==> |next| < i
      invariant |next| <= i
    {
      assert pending[..i + 1][..i] == pending[..i];
      if Targets(pending[i], ids) {
        b := Accept(b, pending[i]);
        acceptedOne := true;
      } else {
        next := next + [pending[i]];
      }
    }
    assert pending[..|pending|] == pending;
  }

  /** The `while` loop over pending reversals, with the rejection of what stays pending. */
  method RunReversalPhase(start: Book, reversals: seq<Transfer>) returns (b: Book)
    ensures b == ReversalPhase(start, reversals)
  {
    b := start;
    var pending := reversals;
    while |pending| > 0
      invariant ReversalPhase(b, pending) == ReversalPhase(start, reversals)
      decreases |pending|
    {
      var b', next, acceptedOne := RunRound(b, pending, AcceptedIds(b));
      if !acceptedOne {
        ghost var settledBook := b';
        for i := 0 to |next|
          invariant b' == RejectAll(settledBook, next[..i])
        {
          assert next[..i + 1][..i] == next[..i];
          b' := Reject(b', next[i], UnacceptedReversal);
        }
        assert next[..|next|] == next;
        return b';
      }
      b, pending := b', next;
    }
  }

  /** Derives verified transfers, postings and balances, independent of input order. */
  method ApplyTransfers(less: (string, string) -> bool, communityId: string,
                        transfers: seq<Transfer>, verify: Verifier) returns (r: Result<LedgerView>)
    ensures r == DeriveLedger(less, communityId, transfers, verify)
  {
    if !Present(communityId) { return Error; }
    var reduced := ReduceById(ById(less), transfers, Admit(communityId, verify), TransferId);
    if reduced.Error? { return Error; }
    var ts := reduced.value;
    var unique := AssertUniqueSettlements(ts);
    if !unique { return Error; }
    var valid := AssertValidReversals(ts);
    if !valid { return Error; }
    var b, reversals := RunOrdinaryPhase(ts);
    b := RunReversalPhase(b, reversals);
    return Ok(LedgerView(communityId, Sort(ById(less), b.accepted), b.rejected, b.postings, b.balances));
  }
}

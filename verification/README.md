# Verification of the replicated timebank

Peer Hours keeps a community timebank without a server: every member appends signed records to a feed of
its own, replicas exchange feeds, and each replica derives authorizations, proposals, settlement progress and
a ledger from whatever records it holds. This project models that derivation and the steps by which members
write records, and proves what the design promises of them. `dafny verify dfyconfig.toml` checks it all.

## What is modelled

* **Reducers** (`Core`, `Sorting`, `Reduction`). Every reducer of the program is one pass that fills a map by
  id and refuses conflicting repetitions, followed by a stable sort. `Reduction` specifies that pass once, runs
  it as a loop, and proves when it succeeds, what it holds and when two deliveries give the same result.
* **Ledger** (`Ledger`, `LedgerTheorems`, `LedgerBounds`, `LedgerSpec`). Normalization, the checks on settlements and
  reversals, greedy admission over the floor of minus fifty hours, and the rounds that accept reversals of
  reversals.
* **Signing keys** (`Identity`, `IdentityTheorems`, `IdentitySpec`, `DesktopKeys`). The two lifecycle reducers, the verifier's
  key index, and the desktop's one-pass view against the keys that a resolved history authorizes.
* **Settlement and records** (`Types`, `Settlement`, `Records`). Acknowledgements, attestations, settlement
  terms, id schemes, and the mapping of envelopes to values.
* **Resolution** (`Resolve`, `ResolveTheorems`, `FeedResolution`, `RecordSpec`, `ResolutionSpec`, `StateSpec`,
  `FeedSpec`). The successive stages that turn records, or feeds of records, into one state or a failure.
* **Runs of the exchange protocol** (`ProtocolRun`, `RecordIds`, `RunFacts`, `CutResolution`, `CutExchange`,
  `FeedRuns`, `RunCompletion`, `RunFailures`, `RunSpec`). A run is a list of appends; each append carries the earlier appends
  that its author held, and each author acts on the state that it has resolved from those. An author may act on a
  stale view and may take a step again, as the client lets it. A cut is any set of appends that is closed under
  what authors held, so it stands for any replica at any moment. `RunCompletion` shows that runs do not get stuck,
  and that two members can settle an exchange from nothing; `RunFailures` builds the runs that end in failure,
  and a concrete platform on which both happen.
* **Canonical JSON** (`JsonText`, `CanonicalJson`, `NormalJson`). Text over UTF-16 code units, a parser that is
  the independent reference for the printers, the canonical printer and payload normalization.
* **Concurrent pieces** (`RecordStore`, `MemberIdentity`, `Announcements`, `WorkerPool`). Each is a state
  machine whose steps are the segments between two awaits, a theorem over every list of steps, and a class
  whose methods are those segments, proved against the state machine.
* **Backups** (`Backup`, `BackupSpec`). Inventory, verification, creation and restoring over an abstract file tree.

Where the source loops over mutable state, the model has a method with the loop, proved equal to a function
that specifies it; the theorems are about the function. A thrown error is `Error`, without its text, so two
failures are equal.

The modules whose names end in `Spec` restate the outcome of an operation without its helpers, in the fields of its
input: exactly when it succeeds, and every part of what it then gives. They are the reference that the operations are
proved against.

## Where the promise fails, and exactly when it holds

* **Conflicting envelopes.** Record ids are determined by the step and the proposal, but an envelope also carries
  its author and its time. `CutExchange.CutResolvesIffConflictFree` states that two different envelopes under one
  record id are the only way in which a replica's cut of a run fails; `CutExchange.ConflictsAreRepeatedSteps` that
  such envelopes always come from one step of one proposal taken twice. The client allows that in three ways, and
  `RunFailures` gives a run for each, in which every append is one that its author's own resolved state allows:
  * *Two publishers* (`TwoPublications`, and from nothing `TwoMembersPublishTwice`). A comment in
    `packages/timebank-settlement/src/index.ts:270-275` says that the deterministic transfer id lets independent
    publishers share one record identity. A publisher looks only into its own feed
    (`apps/desktop/src/electron/member-identity.ts:302`), so provider and receiver can both publish, and their
    envelopes differ in the author.
  * *A second acceptance* (`TwoAcceptances`). `acceptProposal` (`apps/desktop/src/electron/member-identity.ts:237-245`)
    has no guard, and the proposal stays among the proposed ones from which it is chosen
    (`apps/desktop/src/electron/main.ts:124-135`).
  * *A second attestation* (`TwoAttestations`). `advanceSettlement` decides from the list that its caller passes in.
    Two overlapping requests whose lists were read early append two attestations
    (`MemberIdentity.StaleListAttestsTwice`); `MemberIdentity.AttestedOnceIffSupplied` gives the exact condition.
* **Two versions of an announcement.** A repeated announcement of one feed differs in time and signature, and each
  version replaces the other in a cache. While both are unexpired, two runtimes can exchange them without end, and
  one member that announces its feed a second time is enough to start it (`Announcements.RefreshCrosses`).
  `Announcements.FloodStopsIffOneVersion` says that, at any instant, at most one unexpired version per key is the
  exact condition; `Announcements.FloodEndsByExpiry` that every flood stops once the clock has passed every expiry.
* **Tied ids.** `localeCompare` can tie distinct strings. `LedgerTheorems.ConvergesIffNoTies` states that the ledger
  is a function of what was delivered exactly when the comparator ties no two distinct ids;
  `LedgerTheorems.TiedIdsDiverge` builds the two ledgers for any two ids that it does tie.
* **Two texts of one root key.** The desktop selects statements by the text of the root key, the reducer by the
  member id derived from the key. On the reducer alone the two views can differ (`DesktopKeys.TwoRootTextsDisagree`;
  `IdentityTheorems.DesktopAgreesWithReducer` gives the exact condition). On every history that resolves they agree:
  statements need a declared root and the key index refuses a second one, so one text is left
  (`DesktopKeys.DesktopShowsAuthorizedKeys`).

## Assumptions

* String comparison is a parameter. Convergence and the desktop's view assume it to be a strict total order (for
  the ledger, only on the ids that a transfer may carry), and the reducer and the desktop are compared under one and
  the same order, although the program uses `localeCompare` in one and `<` in the other.
* Signature checks, digests, key parsing and timestamp parsing are uninterpreted functions of a `Platform`.
* In a run, proposal ids are free of the separators `/` and `:`, a proposal id is chosen once, and a member declares
  once, a feed of its own; `MemberIdentity.PublishingIsExactlyOnce` shows the last for one device. Every other step
  may be repeated. `RunCompletion` and `RunFailures` also assume that a key that parses can sign and that digests are
  not blank.
* A number format writes finite numbers as JSON numbers that read back; the two zeros count as one number.

## Model

| member | source | states |
|---|---|---|
| `CutExchange.CutResolvesIffConflictFree` | packages/timebank-records/src/resolve.ts:98-242 | In every run in which members declare, propose, accept, acknowledge, attest and publish from their own resolved views, stale ones included and however often each step is taken, a nonempty causally closed cut resolves exactly when no two of its appends carry different envelopes under one record id |
| `CutExchange.ConflictsAreRepeatedSteps` | packages/timebank-records/src/timebank-records.ts:618-626 | Two different envelopes under one record id accept, acknowledge, attest or publish the same proposal, and all but publications are by one member; declarations and proposals never conflict |
| `CutExchange.CutResolvesIffPublishedOnce` | packages/timebank-records/src/resolve.ts:98-242 | Where members take each step at most once, a cut resolves exactly when no settlement is published twice in it |
| `CutExchange.GoodCutResolves` | packages/timebank-records/src/resolve.ts:98-242 | A nonempty causally closed cut without conflicting envelopes passes every stage: envelopes, authorizations, signatures, each reducer, acknowledgement and attestation checks, settlement validation and the ledger |
| `CutExchange.DoublePublicationFails` | apps/desktop/src/electron/member-identity.ts:302-304 | Two participants who both publish leave one transfer id with two authors, an envelope conflict, and every cut that holds both fails |
| `CutExchange.ConflictFails` | packages/timebank-records/src/envelope.ts:94-113 | Every cut that holds two different envelopes under one record id fails, whatever steps they are |
| `RunFailures.TwoPublications` | apps/desktop/src/electron/member-identity.ts:298-304 | Once both have attested, provider and receiver can each publish the same settlement from the state that everything before resolves to; the run is valid, and nobody who holds both resolves it |
| `RunFailures.TwoMembersPublishTwice` | apps/desktop/src/electron/member-identity.ts:159-308 | From nothing, two members who can declare and sign reach that failure, each acting only from the state it resolves |
| `RunFailures.SomeRunFailsAndSomeSettles` | apps/desktop/src/electron/member-identity.ts:159-308 | Under every comparator there is a concrete platform with two members on which one valid run fails by two publications and another ends with the settlement in the ledger |
| `RunFailures.TwoAcceptances` | apps/desktop/src/electron/member-identity.ts:237-245 | The counterparty can accept a proposal a second time from a state that shows its first acceptance; the run is valid, and nobody who holds both resolves it |
| `RunFailures.TwoAttestations` | apps/desktop/src/electron/member-identity.ts:280-297 | A participant can attest twice from one state, as overlapping calls with early lists do; the run is valid, and nobody who holds both resolves it |
| `RunFailures.ConcurrentAppends` | packages/timebank-records/src/resolve.ts:98-102 | What two members would each append next can be appended by both, neither having seen the other's |
| `CutExchange.CutsMoveForward` | packages/timebank-records/src/resolve.ts:158-207 | Along a run, a larger cut never moves a proposal's confirmation or attestation status backwards and loses no acknowledgement or attestation |
| `FeedRuns.CutFeedsResolve` | packages/timebank-records/src/feed-resolution.ts:56-92 | Read feed by feed, a cut passes the ownership and provenance checks and resolves to the state of its records, exactly when it holds no conflicting envelopes |
| `RunFacts.SameRecordIdSameStep` | packages/timebank-records/src/timebank-records.ts:618-626 | Two appends of a run whose envelopes share a record id are the same step of the same proposal and, unless they publish, by one member; two declarations or two proposals are then one append |
| `RecordIds.RecordIdTellsAct` | packages/timebank-settlement/src/index.ts:276-291 | For proposal ids without separators, a record id determines the kind of act, its proposal and, for acknowledgements and attestations, its member, across all id schemes |
| `RunFacts.LaterActsRestOnAcceptance` | packages/timebank-records/src/resolve.ts:159-170 | Acknowledging, attesting and publishing rest on the acceptance of exactly that proposal within the author's view |
| `RunFacts.PublishRestsOnAttestations` | apps/desktop/src/electron/member-identity.ts:298-304 | Each attestation in a published transfer was appended, for the same proposal, within what the publisher held |
| `RunFacts.SameAcceptance` | apps/desktop/src/electron/member-identity.ts:237-245 | Acceptances under one proposal id, however many, accept the same proposal by the same member |
| `RunSpec.ActAllowedIff` | apps/desktop/src/electron/member-identity.ts:218-308 | Exactly what a member may append in a resolved state, field by field: a sound proposal of its own; the acceptance of a proposal that the other participant made; an acknowledgement by a participant; an attestation of the terms once both have acknowledged; and a transfer of those terms with the attestations of provider and receiver, in this order, once the state shows both |
| `RunSpec.RunWritesRecords` | packages/timebank-records/src/timebank-records.ts:95-352 | Every append of a run is the well-formed record of its act, in its author's name and signed with the root key that the author has declared in what it holds, and the state that the author resolved from that allows the act |
| `RunCompletion.AcceptedExchangeCompletes` | apps/desktop/src/electron/member-identity.ts:247-308 | No run gets stuck: once a proposal is accepted and not yet published, its members can go on, each from the state it resolves, until the settlement is published, held by a replica with everything, and accepted by its ledger or rejected there at the floor; the first settlement of a run is accepted exactly up to fifty hours |
| `RunCompletion.TwoMembersSettle` | apps/desktop/src/electron/member-identity.ts:159-308 | From nothing, two members who can declare and sign can propose, accept, acknowledge, attest and publish an exchange; the settlement is in the state that everything resolves to, and in its ledger exactly when it is for at most fifty hours |
| `RunCompletion.AppendStaysValid` | packages/timebank-records/src/resolve.ts:98-102 | Later appends never invalidate an earlier one: what a member did rests only on what it held |
| `Resolve.ResolveTimebankRecords` | packages/timebank-records/src/resolve.ts:98-242 | The successive loops and reducers compute exactly the specified state, or fail exactly when it is undefined; `StateSpec.ResolvesIff` and `StateSpec.StateInPlainTerms` say in the terms of the records when that is and what it holds |
| `Resolve.ResolveStages` | packages/timebank-records/src/resolve.ts:158-217 | The loops over acknowledgements, attestations and transfers refuse exactly the exchanges that do not fit, and derive the specified progress and ledger |
| `Resolve.ReduceAuthorizations` | packages/timebank-records/src/resolve.ts:104-120 | The three reducers behind one another compute exactly the specified authorizations: older unsigned events, declared roots, and lifecycles whose root is declared; unsigned events about a declared member are refused |
| `Resolve.CloseListings` | packages/timebank-records/src/resolve.ts:129-137 | The closing loop refuses exactly a closure that no owner of a published listing of the community made, and leaves exactly the listings not closed |
| `Resolve.AssertMemberSigned` | packages/timebank-records/src/resolve.ts:272-340 | The admission loop accepts exactly when every member-authored record of the community is signed by its author's active key and its author takes part in it; `ResolutionSpec.AllSignedIff` spells both out |
| `StateSpec.ResolvesIff` | packages/timebank-records/src/resolve.ts:98-242 | A history of records resolves exactly when its envelopes are sound and agree, its identity records are sound and their histories consistent, the keys that follow can be indexed, every member-authored record is well formed and signed under an active key of its author, closures are by owners, acceptances keep their proposals' terms, and acknowledgements, attestations, settlements and reversals fit, each spelled out field by field |
| `StateSpec.StateInPlainTerms` | packages/timebank-records/src/resolve.ts:98-242 | Every field of every resolved state from the delivered records: keys, open listings, proposals, acceptances, acknowledgements, transfers, one confirmation and one attestation status per acceptance, and the ledger, each with exactly its contents and in its order |
| `StateSpec.ResolvedRecordIsSigned` | packages/timebank-records/src/member-signed-record.ts:63-84 | In every resolved history each record of the seven member-signed kinds carries a proof that verifies, over the whole envelope, under an authorized, active key of its author |
| `StateSpec.UnsignedRecordRefused` | packages/timebank-records/src/resolve.ts:277-284 | One record of those kinds without such a proof makes the whole history fail |
| `StateSpec.ResolvedKeyFollows` | packages/timebank-identity/src/index.ts:414-472 | Every key of a resolved state is a declared root key, or carries the public key of the last activation of its key id, also after a revocation, and is active exactly when the last event of its key id activates it |
| `ResolutionSpec.AllSignedIff` | packages/timebank-records/src/resolve.ts:272-340 | Admission accepts exactly when every record of the seven kinds is what its kind says and is signed under an authorized, active key of its author |
| `ResolutionSpec.AuthorizationsIff` | packages/timebank-records/src/resolve.ts:104-120 | The identity records of a community give authorizations exactly when declarations, older events and statements are well formed, no older event is about a declared member, every statement has a declared root, no key id is activated with two keys, and no device key is revived |
| `ResolutionSpec.AuthorizationsFollow` | packages/timebank-records/src/resolve.ts:104-120 | The authorizations are what the older events establish, then the declared roots by ascending member and feed, then what the root-signed statements establish |
| `RecordSpec.AcceptedDecodes` | packages/timebank-records/src/timebank-records.ts:216-227 | The decoder accepts exactly an acceptance in the name of the participant that did not create the proposal, and gives its payload |
| `RecordSpec.TransferDecodesTo` | packages/timebank-records/src/timebank-records.ts:268-279 | The decoder accepts exactly a sound transfer that both members attest, in the name of one of them, and gives it with the provider's attestation first |
| `RecordSpec.StatementDecodes` | packages/timebank-records/src/root-signed-key-lifecycle-records.ts:51-77 | The decoder accepts exactly a statement about a device key that the root key behind its member id signs, under its own ids |
| `RecordSpec.DeclarationDecodesTo` | packages/timebank-records/src/self-owned-identity-records.ts:45-66 | The decoder accepts exactly a declaration of a feed that the root key behind its member id signs, under the id that names member, community and feed |
| `ResolveTheorems.ReplicasConverge` | packages/timebank-records/src/resolve.ts:98-242 | Resolving the same records in any order and with any repetition gives the same whole state, or fails in every case |
| `ResolveTheorems.LedgerSettlesAcceptedProposals` | packages/timebank-records/src/resolve.ts:208-217 | Every ordinary transfer of the resolved ledger settles one accepted proposal: same community, members and minutes, deterministic id, valid acknowledgements by both, two attestations verified under active keys |
| `ResolveTheorems.ResolvedTransferSettles` | packages/timebank-settlement/src/index.ts:241-269 | A transfer that passes settlement validation has exactly the accepted proposal's terms, both acknowledgements and two attestations by active keys |
| `ResolveTheorems.ProposalSettlesOnce` | packages/timebank-records/src/resolve.ts:208-217 | No proposal settles twice in a resolved ledger |
| `ResolveTheorems.DuplicateSettlementCheckNeverFires` | packages/timebank-ledger/src/index.ts:307-320 | On every history of records that passes the resolver's checks before the ledger, the ledger's duplicate-settlement check cannot fire, under any verifier |
| `ResolveTheorems.ResolvedTransferIsDecided` | packages/timebank-records/src/resolve.ts:208-223 | Every ordinary transfer of a resolved state is in its ledger exactly when it is not rejected there at the floor |
| `ResolveTheorems.SettlementsDeriveLedger` | packages/timebank-records/src/resolve.ts:219-223 | Checked settlements without reversals always derive a ledger |
| `ResolveTheorems.ProgressOnlyMovesForward` | packages/timebank-settlement/src/settlement-acknowledgement.ts:90-114 | Between two histories that both resolve, one holding the records of the other, every confirmation and attestation status moves only forward and nothing acknowledged or attested disappears |
| `ResolveTheorems.ExchangeHoldsRecords` | packages/timebank-records/src/timebank-records.ts:642-661 | Each reduced collection holds exactly the values that the delivered records of its kind carry |
| `FeedResolution.ResolveTimebankMemberFeeds` | packages/timebank-records/src/feed-resolution.ts:56-92 | The nested loops compute exactly the specified state: named feeds, one owner per feed, every checked record in a feed of its author, then record resolution; `FeedSpec.FeedsResolveIff` spells the checks out, kind by kind |
| `FeedResolution.TabulateDeclarations` | packages/timebank-records/src/feed-resolution.ts:94-115 | The table of declared feeds holds exactly what the declarations say, and is refused exactly when a feed has two owners |
| `FeedResolution.MembersAndFeedsCorrespond` | packages/timebank-records/src/feed-resolution.ts:94-115 | When feed resolution succeeds, two declarations name one member exactly when they name one feed; one direction is the ownership check, the other the once-per-key-id check of the verifier's index |
| `FeedResolution.RecordsSitInTheirAuthorsFeed` | packages/timebank-records/src/feed-resolution.ts:118-126 | When feed resolution succeeds, every key statement, published listing, proposal, acceptance, acknowledgement, attestation and transfer sits in the only feed its author declared |
| `FeedSpec.FeedsResolveIff` | packages/timebank-records/src/feed-resolution.ts:56-92 | Feeds resolve exactly when each is named by 64 hexadecimal digits, declarations are well formed, no feed is declared by two members and every record of the eight checked kinds arrives through a feed that its author declared; and then as all their records together |
| `FeedSpec.MisplacedRecordRefused` | packages/timebank-records/src/feed-resolution.ts:68-72 | One record of the eight kinds, spelled out, in a feed that its author has not declared makes feed resolution fail |
| `FeedSpec.ClosureArrivesAnywhere` | packages/timebank-records/src/feed-resolution.ts:118-126 | A closure counts the same in whatever feed it arrives |
| `FeedResolution.OneFeedPerMember` | packages/timebank-identity/src/index.ts:618-630 | Two declarations of one member in one community cannot both resolve: their root keys would be one key id twice |
| `FeedRuns.FeedReplicasConverge` | packages/timebank-records/src/feed-resolution.ts:56-92 | Replicas that have read the same records of the same feeds resolve the same state or all fail, in whatever order feeds and records come and however often |
| `Reduction.ReduceById` | packages/timebank-records/src/envelope.ts:94-113 | One pass over the deliveries fills the map by id and refuses conflicts, then sorts: exactly the specified reduction |
| `Reduction.DedupeSpec` | packages/timebank-records/src/envelope.ts:97-106 | Deduplication succeeds exactly when every delivery normalizes and equal ids carry equal terms, and then holds each value once |
| `Reduction.ReduceSpec` | packages/timebank-records/src/timebank-records.ts:642-661 | A reducer succeeds exactly on coherent deliveries and then holds exactly their values, once each, in comparator order |
| `Reduction.ReduceConverges` | packages/timebank-records/src/envelope.ts:94-113 | Order, repetition and re-encoding of deliveries with the same normalized content do not change the result or the failure |
| `Sorting.SortDeterminedBySet` | packages/timebank-records/src/envelope.ts:108-112 | A sort whose comparator ties no two elements depends only on the set of elements |
| `Records.ReduceRecords` | packages/timebank-records/src/timebank-records.ts:642-661 | The reducing loop of timebank records decodes, checks the community, deduplicates by value id and sorts, as specified |
| `Ledger.ApplyTransfers` | packages/timebank-ledger/src/index.ts:143-215 | The dedupe, the checks, the greedy loop, the reversal loop and the rejection of what stays pending compute exactly the specified ledger or fail; `LedgerSpec.DerivesIff` and `LedgerSpec.ViewInPlainTerms` say when, and what every field of it is |
| `Ledger.RunOrdinaryPhase` | packages/timebank-ledger/src/index.ts:169-182 | One pass in id order admits each ordinary settlement that keeps the recipient above the floor and sets the reversals aside in order; `LedgerSpec.AdmittedIffFloorAllows` and `LedgerSpec.BookIsPosted` say what it admits and books |
| `Ledger.RunReversalPhase` | packages/timebank-ledger/src/index.ts:184-206 | The while loop runs rounds against the accepted ids, ends because the pending list shrinks, and rejects what stays pending |
| `Ledger.AssertUniqueSettlements` | packages/timebank-ledger/src/index.ts:307-320 | Accepts exactly when every ordinary transfer names a proposal and no proposal is named twice |
| `Ledger.AssertValidReversals` | packages/timebank-ledger/src/index.ts:286-305 | Accepts exactly when every reversal cancels a transfer of the same ledger |
| `Ledger.AttestationOrderIrrelevant` | packages/timebank-ledger/src/index.ts:256-283 | The order in which a transfer lists its two attestations does not matter to its normal form or its refusal |
| `Ledger.CreateTransferIdempotent` | packages/timebank-ledger/src/index.ts:96-110 | Normalizing a normalized transfer changes nothing |
| `LedgerSpec.DerivesIff` | packages/timebank-ledger/src/index.ts:143-162 | A ledger is derived exactly when every delivery has sound terms in the community, both attestations, and each verifies; deliveries under one id agree up to attestation order; no proposal settles under two ids; and every reversal cancels a delivered transfer |
| `LedgerSpec.ViewInPlainTerms` | packages/timebank-ledger/src/index.ts:143-215 | Every field of the derived view, in literal terms: the deliveries in normal form by ascending id, the accepted among them, each rejection with its reason, the postings, and the balances |
| `LedgerSpec.BookIsPosted` | packages/timebank-ledger/src/index.ts:217-238 | Acceptance books two postings per transfer, in acceptance order: the provider's minutes and the recipient's negative minutes; each balance is the sum of its member's postings, members without postings have none, and all postings sum to zero |
| `LedgerSpec.BookInOrder` | packages/timebank-ledger/src/index.ts:184-206 | Settlements are accepted first, then reversals in rounds by how many reversals lie between them and a settlement; rejections at the floor come before the unaccepted reversals; within each, the order of the input is kept |
| `LedgerSpec.AdmittedIffFloorAllows` | packages/timebank-ledger/src/index.ts:322-333 | A settlement is accepted exactly when what the accepted settlements before it leave its recipient, less its minutes, is at least minus 3000 |
| `LedgerTheorems.LedgerConverges` | packages/timebank-ledger/src/index.ts:143-215 | Transfers, rejections, postings, balances and failure do not change when the input is reordered or repeated or has attestations swapped, whenever the comparator orders the input's ids |
| `LedgerTheorems.TiedIdsBreakConvergence` | packages/timebank-ledger/src/index.ts:163-182 | When the comparator ties two ids, two settlements that together pass the floor are admitted by arrival order, so replicas differ |
| `LedgerTheorems.TiedIdsDiverge` | packages/timebank-ledger/src/index.ts:163-182 | For any two distinct ids that the comparator ties, a settlement of fifty hours and one of a minute under them give two ledgers in their two orders |
| `LedgerTheorems.ConvergesIffNoTies` | packages/timebank-ledger/src/index.ts:143-215 | For a comparator that is a strict partial order, the ledger depends only on what was delivered, in every community and under every verifier, exactly when the comparator ties no two distinct ids |
| `LedgerTheorems.AcceptedAndRejectedPartition` | packages/timebank-ledger/src/index.ts:163-206 | Accepted and rejected together are the deduplicated transfers, each once |
| `LedgerTheorems.ReversalAcceptedIffGrounded` | packages/timebank-ledger/src/index.ts:184-206 | A reversal is accepted exactly when following its targets finitely many times reaches an accepted ordinary settlement |
| `LedgerTheorems.ReversalCyclesRejected` | packages/timebank-ledger/src/index.ts:184-206 | Reversals that reverse one another in a cycle are all rejected |
| `LedgerBounds.LedgerConserves` | packages/timebank-ledger/src/index.ts:231-238 | Balances sum to zero, each balance is what the accepted transfers imply for its member, and exactly the participants of accepted transfers have one |
| `LedgerBounds.BalancesBounded` | packages/timebank-ledger/src/index.ts:322-333 | Through the ordinary phase every balance lies between -3000 and 3000 for each other member; after reversals it is at least -3000 less the reversal minutes charged to that member |
| `LedgerBounds.AcceptedAmountsBounded` | packages/timebank-ledger/src/index.ts:163-206 | Every accepted amount, of settlements and of reversals, is at most 3000 minutes per member with postings |
| `LedgerBounds.OrdinaryBalancesSafe` | packages/timebank-ledger/src/index.ts:323-328 | For fewer members than would reach 2^53 the balances of the ordinary phase are safe integers, so the host's arithmetic is exact |
| `LedgerBounds.AdmissionStable` | packages/timebank-ledger/src/index.ts:162-182 | Whether a settlement is accepted depends only on the ordinary settlements with ids up to its own |
| `LedgerBounds.ReplicasAgreeOnEarlierSettlements` | packages/timebank-ledger/src/index.ts:162-182 | Two replicas that hold the same ordinary settlements up to an id agree on that settlement, whatever later settlements or valid reversals either holds |
| `LedgerBounds.SettlementDecided` | packages/timebank-ledger/src/index.ts:163-206 | A settlement handed to the derivation reaches the ledger exactly when it is not among the rejected at the floor: each is decided once, and reversals undo no decision |
| `LedgerBounds.LoneSettlement` | packages/timebank-ledger/src/index.ts:322-328 | A settlement that is alone in the derivation is admitted exactly up to fifty hours |
| `Identity.ReduceKeyEvents` | packages/timebank-identity/src/index.ts:414-472 | The loops over mutable maps reduce a key-event history exactly as specified; `IdentitySpec.KeysReduceIff` and `IdentitySpec.KeysFollow` say when, and every field of what they authorize |
| `Identity.ReduceRootStatements` | packages/timebank-identity/src/index.ts:383-407 | The root-signed reducer computes the specified authorizations and refuses exactly the specified histories; `IdentitySpec.StatementsReduceIff` and `IdentitySpec.StatementsFollow` say which, and every field of what it authorizes |
| `Identity.AssertNeverReactivated` | packages/timebank-identity/src/index.ts:383-407 | The retired-key loop accepts exactly the orders in which no revoked key is activated again |
| `Identity.IndexAuthorizedKeys` | packages/timebank-identity/src/index.ts:618-648 | The indexing loop refuses exactly an invalid authorization, a key id authorized twice or a key with two owners, and otherwise holds exactly the active keys |
| `IdentitySpec.KeysReduceIff` | packages/timebank-identity/src/index.ts:414-472 | A key-event history reduces exactly when its events are sound, an event id names one event, and no key id is activated with two keys |
| `IdentitySpec.KeysFollow` | packages/timebank-identity/src/index.ts:414-472 | What a reduced history authorizes, field by field: one authorization per activated key id, with the public key of its last activation, active exactly when its last event activates it, listed by last event |
| `IdentitySpec.StatementsReduceIff` | packages/timebank-identity/src/index.ts:383-407 | A history of root-signed statements reduces exactly when in addition no statement activates a key after one that revokes it |
| `IdentitySpec.StatementsFollow` | packages/timebank-identity/src/index.ts:383-407 | What a reduced history of root-signed statements authorizes, field by field |
| `IdentitySpec.VerifiesIffActive` | packages/timebank-identity/src/index.ts:597-616 | A signature verifies exactly under the public key of an authorized, active key of that community, member and key id |
| `Identity.DeviceSigningKeyStatuses` | apps/desktop/src/electron/member-identity.ts:367-389 | The desktop's one pass gives, for each key, the newest statement's state, and no other key |
| `Identity.JoinedTextDeterminesScope` | packages/timebank-identity/src/index.ts:733-736 | NUL-joined index keys collide only when a community or member id contains the separator |
| `IdentityTheorems.KeyEventsConverge` | packages/timebank-identity/src/index.ts:414-472 | Reduced keys depend only on which events arrived |
| `IdentityTheorems.RootStatementsConverge` | packages/timebank-identity/src/index.ts:383-407 | The same for root-signed statements, including whether the history is accepted at all |
| `IdentityTheorems.LastWriterWins` | packages/timebank-identity/src/index.ts:414-472 | A key is authorized exactly when some event activates it, and active exactly when its last event in the total order does |
| `IdentityTheorems.ActiveIffNeverRevoked` | packages/timebank-identity/src/index.ts:383-407 | On every history the reducer accepts, whatever the arrival order, a key is active exactly when it was activated and never revoked |
| `IdentityTheorems.RevocationIsPermanent` | packages/timebank-identity/src/index.ts:376-407 | A key revoked in one accepted history is active in no accepted history that extends it |
| `IdentityTheorems.DesktopShowsUnrevoked` | apps/desktop/src/electron/member-identity.ts:367-389 | On every accepted history the desktop shows a key as active exactly when a statement under the member's own root key text activates it and none revokes it |
| `DesktopKeys.DesktopShowsAuthorizedKeys` | apps/desktop/src/electron/member-identity.ts:367-389 | On every history that resolves, the desktop of a declared member, reading at least the member's own lifecycle records, shows a key as active exactly when the resolved state authorizes it as an active key other than the root |
| `DesktopKeys.DesktopShowsItsFeed` | packages/timebank-records/src/feed-resolution.ts:56-92 | Over feeds that resolve, reading the member's own feed is enough: provenance puts every lifecycle record of the member there |
| `DesktopKeys.OneRootTextPerMember` | packages/timebank-records/src/root-signed-key-lifecycle-records.ts:79-100 | In a history that resolves, all lifecycle statements of a member carry the root key text that it declared |
| `DesktopKeys.TwoRootTextsDisagree` | apps/desktop/src/electron/member-identity.ts:372-379 | On the reducer alone, a key activated under one text of a root key and revoked under another is shown active and held inactive, and a key activated under the other text only is held active and not shown |
| `IdentityTheorems.DesktopAgreesWithReducer` | apps/desktop/src/electron/member-identity.ts:367-389 | On every history the reducer accepts, the two views of a key differ exactly when another text of the root key revokes what the desktop's own text only activates, or activates, unrevoked by any text, what its own does not |
| `IdentityTheorems.OneRootTextMissesNothing` | apps/desktop/src/electron/member-identity.ts:372-379 | With one root key text for the member, the desktop misses nothing |
| `Settlement.ResolveSettlementAcknowledgements` | packages/timebank-settlement/src/settlement-acknowledgement.ts:90-114 | The loop filling `byParticipant` computes the specified confirmation state or fails |
| `Settlement.ConfirmSpec` | packages/timebank-settlement/src/settlement-acknowledgement.ts:90-114 | Confirmation succeeds exactly when every acknowledgement is valid for the accepted proposal, holds exactly the acknowledgements published, and is dual-confirmed exactly when both participants acknowledged |
| `Settlement.ResolveSettlementTransferAttestations` | packages/timebank-settlement/src/index.ts:190-215 | The loop filling `byParticipant` computes the specified attestation state or fails |
| `Settlement.AttestSpec` | packages/timebank-settlement/src/index.ts:190-215 | When attestation progress resolves it holds exactly the published attestations and is dual-attested exactly when both participants have attested |
| `Settlement.CreatedAcknowledgementValid` | packages/timebank-settlement/src/settlement-acknowledgement.ts:41-87 | What a participant acknowledges is valid for its proposal |
| `Settlement.ComposedTransferValid` | packages/timebank-settlement/src/index.ts:131-149 | The transfer that a publisher composes passes the validation that replicas run |
| `CanonicalJson.CanonicalTextDeterminesValue` | packages/peer-runtime/src/replication-receipt.ts:93-102 | Two JSON values have one canonical text exactly when they are equal up to the order of object keys, at every depth |
| `CanonicalJson.CanonicalTextReadsBack` | packages/peer-runtime/src/replication-receipt.ts:93-102 | Canonical text exists exactly for JSON values, and parsing it gives the value back up to key order |
| `CanonicalJson.CanonicalTextOfCanon` | packages/peer-runtime/src/replication-receipt.ts:93-102 | The recursion over sorted keys prints what `JSON.stringify` prints of the key-sorted value, and fails exactly outside JSON |
| `CanonicalJson.CanonEqualIffSame` | packages/peer-runtime/src/replication-receipt.ts:101-101 | Sorting keys at every depth forgets exactly the key order |
| `CanonicalJson.TextLessTotal` | packages/peer-runtime/src/replication-receipt.ts:101-101 | Comparing keys by UTF-16 code units is a strict total order |
| `CanonicalJson.TextLessIff` | packages/peer-runtime/src/replication-receipt.ts:101-101 | One key sorts before another exactly when it is a proper beginning of it or has the smaller code unit where they first differ |
| `CanonicalJson.CanonicalTextIsSorted` | packages/peer-runtime/src/replication-receipt.ts:93-102 | Canonical text prints a value that is equal up to key order and whose keys ascend in every object, at every depth |
| `JsonText.ParseStringify` | packages/peer-runtime/src/record-store.ts:38-41 | `JSON.parse(JSON.stringify(v))` gives a JSON value back, field order included |
| `JsonText.ParsePrinted` | packages/peer-runtime/src/replication-receipt.ts:94-101 | Printed text reads back to its value whatever follows it, as sections 4 to 7 of RFC 8259 define JSON text |
| `JsonText.ReadEscaped` | packages/peer-runtime/src/replication-receipt.ts:94-94 | A string literal reads back to its code units: control characters, quotes, surrogate pairs and lone surrogates |
| `JsonText.UnitEscaped` | packages/peer-runtime/src/replication-receipt.ts:94-94 | How each code unit is quoted: seven short escapes, four lower-case hexadecimal digits for the other control characters and lone halves of surrogate pairs, everything else as it is |
| `JsonText.EscapedByPieces` | packages/peer-runtime/src/replication-receipt.ts:94-94 | Quoting works piece by piece wherever text is cut, except between the halves of a surrogate pair |
| `JsonText.ObjectsPrinted` | packages/peer-runtime/src/replication-receipt.ts:99-101 | The punctuation of printed objects, field by field |
| `JsonText.DecimalIsFaithful` | packages/peer-runtime/src/replication-receipt.ts:95-97 | Decimal integers are a number format of the kind the other results assume: written as JSON numbers, and read back |
| `NormalJson.NormalizeJson` | packages/timebank-records/src/envelope.ts:116-154 | Building objects by assigning sorted keys, with numeric keys enumerating first, computes the specified normal form or fails |
| `NormalJson.NormalizeSpec` | packages/timebank-records/src/envelope.ts:116-154 | Normalization succeeds exactly on JSON without a `__proto__` key, and keeps the value up to key order |
| `NormalJson.NormalFormEnumerates` | packages/timebank-records/src/envelope.ts:116-154 | In a normal form every object enumerates its numeric keys first, by number, and then the others in the order of their code units, at every depth |
| `NormalJson.NormalizationKeepsText` | packages/timebank-records/src/envelope.ts:116-154 | Normalization is idempotent and does not change the canonical text |
| `NormalJson.NormalFormsEqualIffSame` | packages/timebank-records/src/envelope.ts:116-154 | Two values have one normal form exactly when they are equal up to key order |
| `NormalJson.EnvelopeTextDeterminesTerms` | packages/timebank-records/src/envelope.ts:74-86 | Two envelopes compare equal exactly when all their terms are, payloads up to key order |
| `RecordStore.AppendsAreSerialized` | packages/peer-runtime/src/record-store.ts:89-105 | Under every interleaving one caller at a time is between reading the length and finishing, the log holds the landed records in call order, and each returned index is its record's position |
| `RecordStore.IndicesFollowCalls` | packages/peer-runtime/src/record-store.ts:89-105 | Callers get indices in the order in which they called |
| `RecordStore.StepConsistent` | packages/peer-runtime/src/record-store.ts:89-105 | Every segment of every call keeps the promise chain in order and every index right |
| `RecordStore.FailuresBlockNobody` | packages/peer-runtime/src/record-store.ts:103-105 | A call whose predecessors have all returned or thrown can move |
| `RecordStore.QueueDrains` | packages/peer-runtime/src/record-store.ts:89-105 | The queue is stuck only when every call has returned or thrown |
| `RecordStore.OnlyOwnersAppend` | packages/peer-runtime/src/record-store.ts:89-105 | In every run a read-only store queues nothing, a queued call whose turn comes after ownership is lost throws, lands nothing and lets the next one go, and only an owner's call reads the length and asks the core to append |
| `RecordStore.AppendAlone` | packages/peer-runtime/src/record-store.ts:89-105 | Whatever happened before, an owner's append with nobody else under way returns the length that the log had and leaves its record there |
| `RecordStore.HypercoreRecordStore.BeginAppend` | packages/peer-runtime/src/record-store.ts:89-95 | Up to its first await, a call to a writable store takes its place behind the tail promise, and a call to a read-only store changes nothing |
| `RecordStore.HypercoreRecordStore.FinishAppend` | packages/peer-runtime/src/record-store.ts:100-105 | The settled append returns an index at which the log holds its record, and releases its successor either way |
| `RecordStore.HypercoreRecordStore.ReadAll` | packages/peer-runtime/src/record-store.ts:114-125 | Returns the log as it was when the call began, whatever lands during its awaits |
| `MemberIdentity.PublishingIsExactlyOnce` | apps/desktop/src/electron/member-identity.ts:247-308 | Over every interleaving of calls at their awaits, and restarts, a feed holds at most one acknowledgement and one settlement transfer per proposal and one declaration per community; `MemberIdentity.EnteredCallPublishes` and `MemberIdentity.StartedSetUpDeclares` are the other half |
| `MemberIdentity.EnteredCallPublishes` | apps/desktop/src/electron/member-identity.ts:247-308 | In every run an acknowledgement or an advance that finds its guard free, and whose reads and appends succeed, has published when it ends, whatever other calls do meanwhile: the acknowledgement or the transfer stands in the feed exactly once, and an owed attestation has landed, before the transfer |
| `MemberIdentity.StartedSetUpDeclares` | apps/desktop/src/electron/member-identity.ts:90-99 | The same for a setup that finds none under way: its declaration stands in the feed exactly once |
| `MemberIdentity.CallAlone` | apps/desktop/src/electron/member-identity.ts:247-308 | A call by itself ends, frees its guard and leaves exactly this feed: the acknowledgement added unless it was there; the own attestation added unless supplied, then the transfer, if the other's attestation was supplied, unless it was there |
| `MemberIdentity.SetUpAlone` | apps/desktop/src/electron/member-identity.ts:159-170 | A setup by itself ends and leaves its declaration, added unless it was there |
| `MemberIdentity.FailedCallFreesGuard` | apps/desktop/src/electron/member-identity.ts:247-308 | A call whose read or append fails ends and frees exactly its own guard; the feed stays as it is |
| `MemberIdentity.RefusedCallEnds` | apps/desktop/src/electron/member-identity.ts:253-255 | A call that finds its guard taken ends and changes nothing else |
| `MemberIdentity.AttestedOnceIffSupplied` | apps/desktop/src/electron/member-identity.ts:280-297 | A proposal is attested at most once exactly when no call landed an attestation after taking its guard over a feed that held one its caller had not supplied |
| `MemberIdentity.AttestedOnceWhenSupplied` | apps/desktop/src/electron/member-identity.ts:280-297 | When callers supply what the feed holds at the moment the guard is taken, a proposal is attested at most once |
| `MemberIdentity.StaleListAttestsTwice` | apps/desktop/src/electron/member-identity.ts:280-297 | Two calls whose lists were read before either attested put two attestations into the feed |
| `MemberIdentity.StepSound` | apps/desktop/src/electron/member-identity.ts:247-332 | Every segment, failed reads and appends included, keeps the guards exclusive, what each call has seen of the feed true, and the feed free of repetition |
| `MemberIdentity.MemberIdentityService.AdvanceSettlement` | apps/desktop/src/electron/member-identity.ts:272-297 | The guarded segment of an advance refuses exactly a proposal in progress and goes on by what its caller supplied |
| `MemberIdentity.MemberIdentityService.AcknowledgeSettlement` | apps/desktop/src/electron/member-identity.ts:247-259 | The guarded segment of an acknowledgement refuses exactly one in progress |
| `MemberIdentity.MemberIdentityService.CreateAndAnnounce` | apps/desktop/src/electron/member-identity.ts:90-99 | An overlapping setup shares the running operation |
| `Announcements.FloodStopsIffOneVersion` | packages/peer-runtime/src/index.ts:590-616 | At any instant, networks that carry a set of announcements come to rest, whatever is lost or fails to open and however time goes on, exactly when at most one version per key is unexpired |
| `Announcements.FloodStops` | packages/peer-runtime/src/index.ts:590-616 | From the moment that at most one version per key is unexpired, only finitely many reactions follow |
| `Announcements.FloodEndsByExpiry` | packages/peer-runtime/src/index.ts:628-637 | Once the clock has passed every expiry, only finitely many reactions follow, however many versions there were |
| `Announcements.ReactionsDescend` | packages/peer-runtime/src/index.ts:590-616 | With one unexpired version per key, each reaction lowers, lexicographically, the missing unexpired cache entries, the feeds being opened and the messages under way |
| `Announcements.TwoVersionsReactForever` | packages/peer-runtime/src/index.ts:609-616 | While neither expires, two connected runtimes with two versions for one key can exchange them without end |
| `Announcements.RefreshCrosses` | packages/peer-runtime/src/index.ts:476-487 | Two silent runtimes connect and one of them announces its feed twice: the network is then the one that the endless exchange starts from |
| `Announcements.FloodSpreads` | packages/peer-runtime/src/index.ts:618-625 | With one version per key, room in the caches, no loss and feeds that open, a network at rest has spread every unexpired announcement along every chain of connections, while others expire |
| `Announcements.PublishStep` | packages/peer-runtime/src/index.ts:476-487 | Publishing needs the runtime's own feed and an unexpired announcement; it takes the place of its feed's earlier one or a free place among 1024, and every neighbour is sent one message per unexpired entry |
| `Announcements.DeliverStep` | packages/peer-runtime/src/index.ts:590-606 | A delivered announcement is cached, and its feed opened, exactly when it has not expired, is not cached already and finds its place or room; nothing is sent before the feed opens |
| `Announcements.ConnectStep` | packages/peer-runtime/src/index.ts:585-585 | A new connection makes the runtime drop what has expired and send the rest to its neighbours |
| `Announcements.OpenedStep` | packages/peer-runtime/src/index.ts:599-606 | So does a feed that has opened |
| `Announcements.PeerRuntime.RememberMemberFeedAnnouncement` | packages/peer-runtime/src/index.ts:609-616 | The cache stays within 1024 entries; an announcement replaces the one of its community, member and feed, or is added while there is room, and the answer is true exactly when the cache changed |
| `Announcements.PeerRuntime.PruneExpiredMemberFeedAnnouncements` | packages/peer-runtime/src/index.ts:628-632 | Removes exactly the expired entries |
| `Announcements.PeerRuntime.ReceiveMemberFeedAnnouncement` | packages/peer-runtime/src/index.ts:590-606 | A runtime goes on to open and relay exactly when its cache changed |
| `Announcements.PeerRuntime.BroadcastMemberFeedAnnouncements` | packages/peer-runtime/src/index.ts:619-625 | Sends exactly the cached announcements that have not expired |
| `WorkerPool.MapWithConcurrency` | apps/desktop/src/electron/settlement-durability.ts:70-87 | Under an arbitrary scheduler the pool ends, fails exactly when some map rejects, and otherwise returns each item's own map in order |
| `WorkerPool.PoolIsSafe` | apps/desktop/src/electron/settlement-durability.ts:70-87 | Under every interleaving items are taken in order and once each, at most the limit are in flight, and a filled slot holds its own item's map |
| `WorkerPool.RestIsComplete` | apps/desktop/src/electron/settlement-durability.ts:77-86 | When every worker has left its loop, the results are complete exactly when no map rejected |
| `WorkerPool.PoolFillsUp` | apps/desktop/src/electron/settlement-durability.ts:77-86 | The pool starts as many workers as the limit and the items allow, and they can all be mapping at once, each its own of the first items |
| `WorkerPool.CountsDistinctNodes` | apps/desktop/src/electron/settlement-durability.ts:50-67 | The receipt count reaches the number of nodes asked exactly when they are distinct and each gave a valid receipt of its own |
| `Backup.CheckFiles` | apps/node/src/backup.ts:69-78 | Distinct paths, equal counts and a match for each walked file hold exactly when manifest and walk describe the same set of files |
| `Backup.Visit` | apps/node/src/backup.ts:136-154 | The recursive walk pushes exactly the files of the tree in visiting order, and fails exactly on a link or device |
| `Backup.PathsDistinct` | apps/node/src/backup.ts:136-154 | A walk never gives one path twice |
| `Backup.VerifyNodeBackup` | apps/node/src/backup.ts:65-80 | Verification decides exactly whether the manifest is readable, safe and describes the directory |
| `Backup.CreateNodeBackup` | apps/node/src/backup.ts:37-61 | Succeeds exactly on a tree without links or devices, without a root entry of the manifest's name and with sizes a manifest can state, and then gives the source beside its manifest, verified |
| `Backup.BackUpAndRestore` | apps/node/src/backup.ts:92-115 | Creating a backup and restoring it gives back the source tree itself, and fails exactly when creating does |
| `Backup.VerifiedBackupHoldsTheSource` | apps/node/src/backup.ts:65-80 | Whatever happened to a backup directory, when it verifies against a source's manifest and the digest does not collide, restoring it gives exactly the source's files |
| `BackupSpec.WalkFindsFiles` | apps/node/src/backup.ts:136-154 | A walk finds exactly the files that names lead to from the root, each under the path that spells those names |
| `BackupSpec.WalkFollowsNames` | apps/node/src/backup.ts:136-154 | A walk of a tree with a strict order of names gives files in the order of their paths, compared name by name |
| `BackupSpec.NoSpecialIff` | apps/node/src/backup.ts:148-150 | Creating and verifying refuse exactly the trees in which some path leads to a link or a device |
| `BackupSpec.VerifiesIff` | apps/node/src/backup.ts:65-80 | A directory verifies exactly when it holds a manifest with well-formed entries, no path leads to a link or a device, no path is listed twice, and the entries are the paths, sizes and digests of exactly the files that lie in it, but for the manifest |
| `BackupSpec.CreatableIff` | apps/node/src/backup.ts:37-61 | A backup can be created exactly of a tree in which no path leads to a link or a device, no root entry has the manifest's name, and every file has a size below 2^53 |
| `BackupSpec.ManifestListsTree` | apps/node/src/backup.ts:48-53 | The manifest of a new backup lists the path, size and digest of exactly the files of the source, in the order of their paths |

## Left out

- Payloads are typed values instead of parsed JSON: extra payload fields, missing fields and wrong JSON types are not represented in record resolution. `NormalJson.EnvelopeTextDeterminesTerms` covers the comparison of arbitrary payloads.
- Index keys that the program joins with NUL characters are tuples; `Identity.JoinedTextDeterminesScope` says when that makes no difference.
- Error texts, freezing, and JavaScript prototype behaviour apart from the `__proto__` key of payloads.
- Objects with a null prototype, which payload normalization accepts and canonical text refuses.
- `Identity.DeviceSigningKeyStatuses` gives the desktop's device keys as a map; the order in which the desktop lists them, by time and key id, is left out.
- Minutes are mathematical integers: `LedgerBounds.OrdinaryBalancesSafe` bounds the ordinary phase within the safe integers; the sums after reversals are bounded below only.
- Listings and their closures take part in resolution but not in protocol runs, so the offer and request that the desktop looks up before proposing and accepting are left out of runs; device keys are too: members of a run sign with their root keys.
- Closed-listing records are not among the kinds checked for feed provenance, in the program or here.
- The desktop also refuses to publish a settlement that its own resolved ledger has admitted (`apps/desktop/src/electron/main.ts:159-161`); runs leave that refusal out, so they include more publications than the desktop makes.
- `ProtocolRun.ValidRun` takes a member's view to be any causally closed set of earlier appends; how feeds travel is not modelled.
- Canonical payload bytes of signatures: a signature check receives the signed content itself. Canonical JSON is proved separately and not linked to those checks.
- The record store's core is an append-only log with one local writer; disk, network and a second store opened on the same core are not modelled.
- `MemberIdentity` covers acknowledging, advancing and identity setup; publishing and closing listings, device keys and proposals append without the same guards and are `WriteOther`. Validation before a guard is the step `Refuse`.
- Announcement flood: all runtimes read one clock; the network has no order of messages and no runtime whose extension is not registered yet.
- `mapWithConcurrency` rejects as soon as one map does while other workers go on; the model reports the failure once all workers have left their loops.
- Receipt fetching, URLs and response limits, and everything else over HTTP.
- Backups: the stopped-node flag, path separation and missing-destination checks, staging directories and their removal; the manifest's text is an abstract format that reads back as written, and the directory separator is `/`.
- Cryptography, Hyperswarm, Corestore and Hypercore internals, bootstrap, manifests, genesis and invitations.
- Electron wiring, the renderer, the site, configuration and command lines.
- `timebank-domain` constructors: the proposal is used as a shape, with the checks that record decoding makes.

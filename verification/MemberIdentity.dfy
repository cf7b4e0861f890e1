/** The guards of the member identity service: calls run as steps that split at every await, and each
    step of an exchange is to be published once. */
module MemberIdentity {
  import opened Core
  import opened Settlement

  /** A record of the member's own feed, as far as the guards look at it. */
  datatype Entry =
    | AckEntry(acknowledgementId: string)
    | AttestationEntry(proposalId: string)
    | TransferEntry(transferId: string)
    | DeclarationEntry(communityId: string)
    | OtherEntry(id: string)

  /** A service call. An advance carries what its caller had read before calling: whether the member's own
      attestation was among the attestations, and whether the other participant's was. */
  datatype Task =
    | Acknowledge(acknowledgementId: string)
    | Advance(proposalId: string, ownSupplied: bool, otherSupplied: bool)
    | SetUp(communityId: string)

  /** Where a call stands. `Entering` has not reached its guard; `Reading` awaits the feed's records, `Read`
      has them; `Attesting` and `Writing` await an append, `Attested` and `Written` have its record landed. A read or
      an append may also fail. */
  datatype Phase = Entering | Attesting | Attested | Reading | Read(found: bool) | Writing | Written | Ended

  /** `stale` remembers that the feed held the member's attestation when the guard was taken although the
      caller had not supplied it. */
  datatype Call = Call(task: Task, phase: Phase, stale: bool)

  /** The service: its member's feed, the in-progress guards, and the calls. `staleAttestations` collects the
      proposals for which a stale call has landed an attestation. */
  datatype Service = Service(
    feed: seq<Entry>, acknowledging: set<string>, advancing: set<string>, settingUp: bool, calls: seq<Call>,
    staleAttestations: set<string>)

  datatype Step =
    | Begin(task: Task)
    | Enter(call: nat)
    | Refuse(call: nat)
    | Observe(call: nat)
    | Decide(call: nat)
    | Land(call: nat)
    | Continue(call: nat, succeeded: bool)
    | WriteOther(id: string)
    | Restart

  /** The record that a call publishes once. */
  function Target(task: Task): Entry {
    match task
    case Acknowledge(id) => AckEntry(id)
    case Advance(p, _, _) => TransferEntry(SettlementTransferId(p))
    case SetUp(c) => DeclarationEntry(c)
  }

  predicate Guarded(s: Service, task: Task) {
    match task
    case Acknowledge(id) => id in s.acknowledging
    case Advance(p, _, _) => p in s.advancing
    case SetUp(_) => s.settingUp
  }

  function TakeGuard(s: Service, task: Task): Service {
    match task
    case Acknowledge(id) => s.(acknowledging := s.acknowledging + {id})
    case Advance(p, _, _) => s.(advancing := s.advancing + {p})
    case SetUp(_) => s.(settingUp := true)
  }

  function ReleaseGuard(s: Service, task: Task): Service {
    match task
    case Acknowledge(id) => s.(acknowledging := s.acknowledging - {id})
    case Advance(p, _, _) => s.(advancing := s.advancing - {p})
    case SetUp(_) => s.(settingUp := false)
  }

  function SetPhase(s: Service, i: nat, phase: Phase): Service
    requires i < |s.calls|
  {
    s.(calls := s.calls[i := s.calls[i].(phase := phase)])
  }

  /** The `finally` block of a call that held its guard. */
  function End(s: Service, i: nat): Service
    requires i < |s.calls|
  {
    ReleaseGuard(SetPhase(s, i, Ended), s.calls[i].task)
  }

  predicate Enabled(s: Service, step: Step) {
    match step
    case Begin(_) => true
    case WriteOther(_) => true
    case Restart => true
    case Enter(i) => i < |s.calls| && s.calls[i].phase.Entering?
    case Refuse(i) => i < |s.calls| && s.calls[i].phase.Entering?
    case Observe(i) => i < |s.calls| && s.calls[i].phase.Reading?
    case Decide(i) => i < |s.calls| && s.calls[i].phase.Read?
    case Land(i) => i < |s.calls| && (s.calls[i].phase.Attesting? || s.calls[i].phase.Writing?)
    case Continue(i, succeeded) =>
      i < |s.calls| && (s.calls[i].phase.Attested? || s.calls[i].phase.Written?
                        || (!succeeded && (s.calls[i].phase.Attesting? || s.calls[i].phase.Writing? || s.calls[i].phase.Reading?)))
  }

  /** Identity setup takes its guard in the segment in which it is called, and a call that finds the guard
      taken shares the running operation. The other calls reach their guards after an await. */
  function ApplyBegin(s: Service, task: Task): Service {
    if !task.SetUp? then s.(calls := s.calls + [Call(task, Entering, false)])
    else if s.settingUp then s
    else TakeGuard(s.(calls := s.calls + [Call(task, Reading, false)]), task)
  }

  /** The segment that checks the guard. An advance goes on by what its caller supplied. */
  function ApplyEnter(s: Service, i: nat): Service
    requires i < |s.calls|
  {
    var task := s.calls[i].task;
    if Guarded(s, task) then SetPhase(s, i, Ended)
    else if !task.Advance? then TakeGuard(SetPhase(s, i, Reading), task)
    else if !task.ownSupplied then
      var stale := AttestationEntry(task.proposalId) in s.feed;
      TakeGuard(s.(calls := s.calls[i := Call(task, Attesting, stale)]), task)
    else if task.otherSupplied then TakeGuard(SetPhase(s, i, Reading), task)
    else SetPhase(s, i, Ended)
  }

  function ApplyLand(s: Service, i: nat): Service
    requires i < |s.calls|
  {
    var c := s.calls[i];
    if c.phase.Attesting? && c.task.Advance? then
      SetPhase(s, i, Attested).(feed := s.feed + [AttestationEntry(c.task.proposalId)],
                                staleAttestations := s.staleAttestations + (if c.stale then {c.task.proposalId} else {}))
    else
      SetPhase(s, i, Written).(feed := s.feed + [Target(c.task)])
  }

  function Apply(s: Service, step: Step): Service
    requires Enabled(s, step)
  {
    match step
    case Begin(task) => ApplyBegin(s, task)
    case WriteOther(id) => s.(feed := s.feed + [OtherEntry(id)])
    case Restart => s.(acknowledging := {}, advancing := {}, settingUp := false, calls := [])
    case Enter(i) => ApplyEnter(s, i)
    case Refuse(i) => SetPhase(s, i, Ended)
    case Observe(i) => SetPhase(s, i, Read(Target(s.calls[i].task) in s.feed))
    case Decide(i) => if s.calls[i].phase.found then End(s, i) else SetPhase(s, i, Writing)
    case Land(i) => ApplyLand(s, i)
    case Continue(i, succeeded) =>
      if succeeded && s.calls[i].phase.Attested? && s.calls[i].task.Advance? && s.calls[i].task.otherSupplied
      then SetPhase(s, i, Reading)
      else End(s, i)
  }

  // ---- what every step keeps --------------------------------------------------------------------------

  predicate Holding(phase: Phase) { !phase.Entering? && !phase.Ended? }

  predicate SameGuard(a: Task, b: Task) {
    match a
    case Acknowledge(id) => b.Acknowledge? && b.acknowledgementId == id
    case Advance(p, _, _) => b.Advance? && b.proposalId == p
    case SetUp(_) => b.SetUp?
  }

  /** A call past its guard holds it alone, and what it has seen of the feed is still so. */
  ghost predicate GoodCall(s: Service, i: nat)
    requires i < |s.calls|
  {
    var c := s.calls[i];
    && (Holding(c.phase) ==> Guarded(s, c.task))
    && (c.phase.Attesting? || c.phase.Attested? ==> c.task.Advance? && !c.task.ownSupplied)
    && (c.phase.Attesting? ==> (c.stale <==> AttestationEntry(c.task.proposalId) in s.feed))
    && (c.phase.Read? ==> (c.phase.found <==> Target(c.task) in s.feed))
    && (c.phase.Writing? ==> Target(c.task) !in s.feed)
  }

  ghost predicate Exclusive(s: Service) {
    forall i, j | 0 <= i < |s.calls| && 0 <= j < |s.calls| && Holding(s.calls[i].phase) && Holding(s.calls[j].phase)
                  && SameGuard(s.calls[i].task, s.calls[j].task) :: i == j
  }

  predicate PublishedOnce(e: Entry) { e.AckEntry? || e.TransferEntry? || e.DeclarationEntry? }

  ghost predicate OnceInFeed(s: Service) {
    && (forall e | PublishedOnce(e) :: multiset(s.feed)[e] <= 1)
    && (forall p :: multiset(s.feed)[AttestationEntry(p)] <= 1 <==> p !in s.staleAttestations)
  }

  ghost predicate Sound(s: Service) {
    && Exclusive(s) && OnceInFeed(s)
    && forall i | 0 <= i < |s.calls| :: GoodCall(s, i)
  }

  lemma TransferIdNamesProposal(p: string, q: string)
    requires SettlementTransferId(p) == SettlementTransferId(q)
    ensures p == q
  {
    var a, b := SettlementTransferId(p), SettlementTransferId(q);
    assert a[..|p|] == p && b[..|q|] == q && |a| == |b|;
  }

  /** Calls that write the same record share a guard. */
  lemma SameTargetSameGuard(a: Task, b: Task)
    requires Target(a) == Target(b)
    ensures SameGuard(a, b)
  {
    if a.Advance? && b.Advance? { TransferIdNamesProposal(a.proposalId, b.proposalId); }
  }

  lemma BeginSound(s: Service, task: Task)
    requires Sound(s)
    ensures Sound(ApplyBegin(s, task))
  {
    var t := ApplyBegin(s, task);
    forall i | 0 <= i < |t.calls| ensures GoodCall(t, i) { if i < |s.calls| { assert GoodCall(s, i); } }
    forall i, j | 0 <= i < |t.calls| && 0 <= j < |t.calls| && Holding(t.calls[i].phase) && Holding(t.calls[j].phase)
                  && SameGuard(t.calls[i].task, t.calls[j].task)
      ensures i == j
    {
      if i < |s.calls| { assert GoodCall(s, i); }
      if j < |s.calls| { assert GoodCall(s, j); }
    }
  }

  /** A call that takes its guard finds nobody holding it. */
  lemma EnterSound(s: Service, i: nat)
    requires Sound(s) && Enabled(s, Enter(i))
    ensures Sound(ApplyEnter(s, i))
  {
    hide SettlementTransferId, OnceInFeed;
    var t := ApplyEnter(s, i);
    forall j | 0 <= j < |t.calls| ensures GoodCall(t, j) { assert GoodCall(s, j); }
    EnterExclusive(s, i);
    assert OnceInFeed(t) by { SameFeedOnce(s, t); }
  }

  lemma SameFeedOnce(s: Service, t: Service)
    requires OnceInFeed(s) && t.feed == s.feed && t.staleAttestations == s.staleAttestations
    ensures OnceInFeed(t)
  {
  }

  lemma EnterExclusive(s: Service, i: nat)
    requires Sound(s) && Enabled(s, Enter(i))
    ensures Exclusive(ApplyEnter(s, i))
  {
    hide SettlementTransferId, OnceInFeed, Target;
    var t := ApplyEnter(s, i);
    forall j, k | 0 <= j < |t.calls| && 0 <= k < |t.calls| && Holding(t.calls[j].phase) && Holding(t.calls[k].phase)
                  && SameGuard(t.calls[j].task, t.calls[k].task)
      ensures j == k
    {
      assert GoodCall(s, j) && GoodCall(s, k);
    }
  }

  /** Moving a call to another phase without touching the feed or the guards. */
  lemma PhaseSound(s: Service, i: nat, phase: Phase)
    requires Sound(s) && i < |s.calls|
    requires Holding(phase) ==> Holding(s.calls[i].phase)
    requires !phase.Attesting? && !phase.Attested?
    requires phase.Read? ==> (phase.found <==> Target(s.calls[i].task) in s.feed)
    requires phase.Writing? ==> Target(s.calls[i].task) !in s.feed
    ensures Sound(SetPhase(s, i, phase))
  {
    var t := SetPhase(s, i, phase);
    assert GoodCall(s, i);
    forall j | 0 <= j < |t.calls| ensures GoodCall(t, j) { assert GoodCall(s, j); }
  }

  lemma EndSound(s: Service, i: nat)
    requires Sound(s) && i < |s.calls| && Holding(s.calls[i].phase)
    ensures Sound(End(s, i))
  {
    var t := End(s, i);
    assert GoodCall(s, i);
    forall j | 0 <= j < |t.calls| ensures GoodCall(t, j) {
      assert GoodCall(s, j);
      if j != i && Holding(s.calls[j].phase) { assert !SameGuard(s.calls[i].task, s.calls[j].task); }
    }
  }

  /** What another call has seen stays so when this one lands: they do not share a guard. */
  lemma LandKeepsOthers(s: Service, i: nat, j: nat)
    requires Sound(s) && Enabled(s, Land(i)) && j < |s.calls| && j != i
    ensures GoodCall(ApplyLand(s, i), j)
  {
    assert GoodCall(s, i) && GoodCall(s, j);
    var a, b := s.calls[i].task, s.calls[j].task;
    if Holding(s.calls[j].phase) {
      assert !SameGuard(a, b);
      if Target(a) == Target(b) { SameTargetSameGuard(a, b); }
    }
  }

  lemma LandSound(s: Service, i: nat)
    requires Sound(s) && Enabled(s, Land(i))
    ensures Sound(ApplyLand(s, i))
  {
    hide GoodCall, SettlementTransferId, OnceInFeed;
    var t := ApplyLand(s, i);
    LandOwn(s, i);
    forall j | 0 <= j < |t.calls| ensures GoodCall(t, j) { if j != i { LandKeepsOthers(s, i, j); } }
    LandOnceInFeed(s, i);
  }

  lemma LandOnceInFeed(s: Service, i: nat)
    requires OnceInFeed(s) && Enabled(s, Land(i)) && LandsOnce(s, i)
    ensures OnceInFeed(ApplyLand(s, i))
  {
    hide SettlementTransferId, Target, OnceInFeed;
    var c := s.calls[i];
    if c.phase.Attesting? {
      AttestationKeepsOnce(s, c.task.proposalId, c.stale, ApplyLand(s, i));
    } else {
      TargetPublishedOnce(c.task);
      RecordKeepsOnce(s, Target(c.task), ApplyLand(s, i));
    }
  }

  lemma RecordKeepsOnce(s: Service, e: Entry, t: Service)
    requires OnceInFeed(s) && !e.AttestationEntry? && (PublishedOnce(e) ==> e !in s.feed)
    requires t.feed == s.feed + [e] && t.staleAttestations == s.staleAttestations
    ensures OnceInFeed(t)
  {
    forall x | PublishedOnce(x) ensures multiset(t.feed)[x] <= 1 { LandCount(s.feed, e, x); }
    forall p ensures multiset(t.feed)[AttestationEntry(p)] <= 1 <==> p !in t.staleAttestations { LandCount(s.feed, e, AttestationEntry(p)); }
  }

  lemma AttestationKeepsOnce(s: Service, proposalId: string, stale: bool, t: Service)
    requires OnceInFeed(s) && (stale <==> AttestationEntry(proposalId) in s.feed)
    requires t.feed == s.feed + [AttestationEntry(proposalId)]
    requires t.staleAttestations == s.staleAttestations + (if stale then {proposalId} else {})
    ensures OnceInFeed(t)
  {
    var e := AttestationEntry(proposalId);
    forall x | PublishedOnce(x) ensures multiset(t.feed)[x] <= 1 { LandCount(s.feed, e, x); }
    forall p ensures multiset(t.feed)[AttestationEntry(p)] <= 1 <==> p !in t.staleAttestations { LandCount(s.feed, e, AttestationEntry(p)); }
  }

  /** A landing record adds one to its own count and to no other. */
  lemma LandCount(feed: seq<Entry>, e: Entry, x: Entry)
    ensures multiset(feed + [e])[x] == multiset(feed)[x] + (if x == e then 1 else 0)
    ensures x in feed <==> multiset(feed)[x] > 0
  {
    assert multiset(feed + [e]) == multiset(feed) + multiset{e};
  }

  lemma TargetPublishedOnce(task: Task)
    ensures PublishedOnce(Target(task)) && !Target(task).AttestationEntry?
  {
  }

  /** What the landing call knows: its record is new, unless it is a stale attestation. */
  ghost predicate LandsOnce(s: Service, i: nat)
    requires i < |s.calls|
  {
    var c := s.calls[i];
    && (c.phase.Attesting? ==> c.task.Advance? && (c.stale <==> AttestationEntry(c.task.proposalId) in s.feed))
    && (c.phase.Writing? ==> Target(c.task) !in s.feed)
  }

  lemma LandOwn(s: Service, i: nat)
    requires Sound(s) && Enabled(s, Land(i))
    ensures GoodCall(ApplyLand(s, i), i) && LandsOnce(s, i)
  {
    assert GoodCall(s, i);
  }

  lemma FeedOnlySound(s: Service, id: string)
    requires Sound(s)
    ensures Sound(s.(feed := s.feed + [OtherEntry(id)]))
  {
    var t := s.(feed := s.feed + [OtherEntry(id)]);
    RecordKeepsOnce(s, OtherEntry(id), t);
    forall j | 0 <= j < |t.calls| ensures GoodCall(t, j) { assert GoodCall(s, j); }
  }

  /** Every segment of every call keeps the guards exclusive and the feed free of repetition. */
  lemma StepSound(s: Service, step: Step)
    requires Sound(s) && Enabled(s, step)
    ensures Sound(Apply(s, step))
  {
    hide Sound, Target, OnceInFeed, Exclusive;
    match step {
      case Begin(task) => BeginSound(s, task);
      case WriteOther(id) => FeedOnlySound(s, id);
      case Restart => RestartSound(s);
      case Enter(i) => EnterSound(s, i);
      case Refuse(i) => PhaseSound(s, i, Ended);
      case Observe(i) => PhaseSound(s, i, Read(Target(s.calls[i].task) in s.feed));
      case Decide(i) =>
        CallGood(s, i);
        if s.calls[i].phase.found { EndSound(s, i); } else { PhaseSound(s, i, Writing); }
      case Land(i) => LandSound(s, i);
      case Continue(i, succeeded) =>
        EndSound(s, i);
        PhaseSound(s, i, Reading);
    }
  }

  lemma CallGood(s: Service, i: nat)
    requires Sound(s) && i < |s.calls|
    ensures GoodCall(s, i)
  {
  }

  lemma RestartSound(s: Service)
    requires Sound(s)
    ensures Sound(s.(acknowledging := {}, advancing := {}, settingUp := false, calls := []))
  {
  }

  // ---- every interleaving -----------------------------------------------------------------------------

  predicate Runs(s: Service, steps: seq<Step>)
    decreases |steps|
  {
    steps == [] || (Enabled(s, steps[0]) && Runs(Apply(s, steps[0]), steps[1..]))
  }

  function After(s: Service, steps: seq<Step>): Service
    requires Runs(s, steps)
    decreases |steps|
  {
    if steps == [] then s else After(Apply(s, steps[0]), steps[1..])
  }

  /** A new identity: an empty feed and no call under way. */
  const FRESH: Service := Service([], {}, {}, false, [], {})

  lemma {:induction false} RunSound(s: Service, steps: seq<Step>)
    requires Sound(s) && Runs(s, steps)
    ensures Sound(After(s, steps))
    decreases |steps|
  {
    hide Sound, Apply, Enabled;
    if steps != [] {
      StepSound(s, steps[0]);
      RunSound(Apply(s, steps[0]), steps[1..]);
    }
  }

  /** Over every interleaving of calls and restarts, a member's feed holds at most one acknowledgement and
      at most one settlement transfer per proposal, and at most one declaration per community. */
  lemma PublishingIsExactlyOnce(steps: seq<Step>, memberId: string, proposalId: string, communityId: string)
    requires Runs(FRESH, steps)
    ensures var feed := multiset(After(FRESH, steps).feed);
            && feed[AckEntry(AcknowledgementId(proposalId, memberId))] <= 1
            && feed[TransferEntry(SettlementTransferId(proposalId))] <= 1
            && feed[DeclarationEntry(communityId)] <= 1
  {
    hide AcknowledgementId, SettlementTransferId;
    assert Sound(FRESH);
    RunSound(FRESH, steps);
  }

  /** A feed holds at most one of the member's attestations for a proposal exactly when no call landed one
      after taking its guard over a feed that held one already, with the caller's list not showing it. */
  lemma AttestedOnceIffSupplied(steps: seq<Step>, proposalId: string)
    requires Runs(FRESH, steps)
    ensures var s := After(FRESH, steps);
            multiset(s.feed)[AttestationEntry(proposalId)] <= 1 <==> proposalId !in s.staleAttestations
  {
    assert Sound(FRESH);
    RunSound(FRESH, steps);
  }

  /** The caller's list reflects the feed at the moment the guard is taken. */
  predicate SuppliedReflectsFeed(s: Service, step: Step) {
    step.Enter? && step.call < |s.calls| && s.calls[step.call].task.Advance? ==>
      (AttestationEntry(s.calls[step.call].task.proposalId) in s.feed ==> s.calls[step.call].task.ownSupplied)
  }

  predicate AlwaysReflects(s: Service, steps: seq<Step>)
    requires Runs(s, steps)
    decreases |steps|
  {
    steps == [] || (SuppliedReflectsFeed(s, steps[0]) && AlwaysReflects(Apply(s, steps[0]), steps[1..]))
  }

  predicate NothingStale(s: Service) {
    s.staleAttestations == {} && forall i | 0 <= i < |s.calls| :: !s.calls[i].stale
  }

  lemma {:induction false} ReflectingRunsStayFresh(s: Service, steps: seq<Step>)
    requires Runs(s, steps) && AlwaysReflects(s, steps) && NothingStale(s)
    ensures NothingStale(After(s, steps))
    decreases |steps|
  {
    if steps != [] {
      assert NothingStale(Apply(s, steps[0]));
      ReflectingRunsStayFresh(Apply(s, steps[0]), steps[1..]);
    }
  }

  /** When callers always supply what the feed holds, a proposal is attested at most once. */
  lemma AttestedOnceWhenSupplied(steps: seq<Step>, proposalId: string)
    requires Runs(FRESH, steps) && AlwaysReflects(FRESH, steps)
    ensures multiset(After(FRESH, steps).feed)[AttestationEntry(proposalId)] <= 1
  {
    ReflectingRunsStayFresh(FRESH, steps);
    AttestedOnceIffSupplied(steps, proposalId);
  }

  /** Two calls whose lists were read before either attested: the second attests again. */
  const STALE_CALLS: seq<Step> := [
    Begin(Advance("p", false, false)), Begin(Advance("p", false, false)),
    Enter(0), Land(0), Continue(0, true), Enter(1), Land(1), Continue(1, true)]

  const UNATTESTED: Task := Advance("p", false, false)
  const ATTESTED: Entry := AttestationEntry("p")

  /** The states that these steps go through. */
  const STALE_STATES: seq<Service> := [
    FRESH,
    Service([], {}, {}, false, [Call(UNATTESTED, Entering, false)], {}),
    Service([], {}, {}, false, [Call(UNATTESTED, Entering, false), Call(UNATTESTED, Entering, false)], {}),
    Service([], {}, {"p"}, false, [Call(UNATTESTED, Attesting, false), Call(UNATTESTED, Entering, false)], {}),
    Service([ATTESTED], {}, {"p"}, false, [Call(UNATTESTED, Attested, false), Call(UNATTESTED, Entering, false)], {}),
    Service([ATTESTED], {}, {}, false, [Call(UNATTESTED, Ended, false), Call(UNATTESTED, Entering, false)], {}),
    Service([ATTESTED], {}, {"p"}, false, [Call(UNATTESTED, Ended, false), Call(UNATTESTED, Attesting, true)], {}),
    Service([ATTESTED, ATTESTED], {}, {"p"}, false, [Call(UNATTESTED, Ended, false), Call(UNATTESTED, Attested, true)], {"p"}),
    Service([ATTESTED, ATTESTED], {}, {}, false, [Call(UNATTESTED, Ended, false), Call(UNATTESTED, Ended, true)], {"p"})]

  lemma StaleStep(k: nat)
    requires k < 8
    ensures Enabled(STALE_STATES[k], STALE_CALLS[k]) && Apply(STALE_STATES[k], STALE_CALLS[k]) == STALE_STATES[k + 1]
  {
    hide SettlementTransferId;
    assert ATTESTED in [ATTESTED];
    assert {"p"} - {"p"} == {};
  }

  lemma {:induction false} StaleRun(k: nat)
    requires k <= 8
    ensures Runs(STALE_STATES[k], STALE_CALLS[k..]) && After(STALE_STATES[k], STALE_CALLS[k..]) == STALE_STATES[8]
    decreases 8 - k
  {
    hide Apply, Enabled;
    if k < 8 {
      StaleStep(k);
      StaleRun(k + 1);
      assert STALE_CALLS[k..][0] == STALE_CALLS[k] && STALE_CALLS[k..][1..] == STALE_CALLS[k + 1..];
    }
  }

  lemma StaleListAttestsTwice()
    ensures Runs(FRESH, STALE_CALLS)
    ensures multiset(After(FRESH, STALE_CALLS).feed)[AttestationEntry("p")] == 2
  {
    StaleRun(0);
    assert STALE_CALLS[0..] == STALE_CALLS;
    assert STALE_STATES[8].feed == [ATTESTED, ATTESTED];
  }

  // ---- what a call leaves behind ------------------------------------------------------------------------

  /** The steps of other calls, and those of this one that succeed. */
  ghost predicate Undisturbed(steps: seq<Step>, i: nat) {
    forall k | 0 <= k < |steps| :: steps[k] != Restart && steps[k] != Refuse(i) && steps[k] != Continue(i, false)
  }

  /** An advance without the other participant's attestation publishes nothing; every other call publishes its record. */
  predicate Publishes(task: Task) { task.Advance? ==> task.otherSupplied }

  /** An advance without the member's own attestation attests first. */
  predicate Attests(task: Task) { task.Advance? && !task.ownSupplied }

  /** Since the call took its guard over `base`, the member's attestation has landed, if the call owes one. */
  ghost predicate HasAttested(feed: seq<Entry>, base: seq<Entry>, task: Task, before: int) {
    Attests(task) ==> exists k :: |base| <= k < before && k < |feed| && feed[k] == AttestationEntry(task.proposalId)
  }

  /** The record was there already, or has landed since, behind the attestation that the call owed. */
  ghost predicate HasPublished(feed: seq<Entry>, base: seq<Entry>, task: Task) {
    Target(task) in base || exists l :: |base| <= l < |feed| && feed[l] == Target(task) && HasAttested(feed, base, task, l)
  }

  /** How far a call has come since it took its guard over `base`. */
  ghost predicate Progressed(s: Service, i: nat, task: Task, base: seq<Entry>) {
    && base <= s.feed && i < |s.calls| && s.calls[i].task == task
    && match s.calls[i].phase
       case Entering => false
       case Attesting => Attests(task) && (Target(task) in s.feed ==> Target(task) in base)
       case Attested => Attests(task) && HasAttested(s.feed, base, task, |s.feed|) && (Target(task) in s.feed ==> Target(task) in base)
       case Reading | Read(_) | Writing =>
         Publishes(task) && HasAttested(s.feed, base, task, |s.feed|) && (Target(task) in s.feed ==> Target(task) in base)
       case Written => Publishes(task) && HasAttested(s.feed, base, task, |s.feed|) && HasPublished(s.feed, base, task)
       case Ended => HasAttested(s.feed, base, task, |s.feed|) && (Publishes(task) ==> HasPublished(s.feed, base, task))
  }

  lemma LongerFeed(feed: seq<Entry>, longer: seq<Entry>, base: seq<Entry>, task: Task)
    requires base <= feed <= longer
    ensures HasAttested(feed, base, task, |feed|) ==> HasAttested(longer, base, task, |longer|)
    ensures HasPublished(feed, base, task) ==> HasPublished(longer, base, task)
  {
    if Attests(task) && HasAttested(feed, base, task, |feed|) {
      var k :| |base| <= k < |feed| && feed[k] == AttestationEntry(task.proposalId);
      assert longer[k] == feed[k];
    }
    if HasPublished(feed, base, task) && Target(task) !in base {
      var l :| |base| <= l < |feed| && feed[l] == Target(task) && HasAttested(feed, base, task, l);
      assert longer[l] == feed[l];
      if Attests(task) {
        var k :| |base| <= k < l && k < |feed| && feed[k] == AttestationEntry(task.proposalId);
        assert longer[k] == feed[k];
      }
      assert HasAttested(longer, base, task, l);
    }
  }

  /** The call stands where it stood, and the feed has grown without its record. */
  lemma LongerFeedKeepsProgress(s: Service, t: Service, i: nat, task: Task, base: seq<Entry>)
    requires Progressed(s, i, task, base) && s.feed <= t.feed && i < |t.calls| && t.calls[i] == s.calls[i]
    requires Holding(s.calls[i].phase) ==> (Target(task) in t.feed ==> Target(task) in s.feed)
    ensures Progressed(t, i, task, base)
  {
    hide HasAttested, HasPublished, Target;
    LongerFeed(s.feed, t.feed, base, task);
  }

  /** Steps of other calls do not set a call back: none of them lands its record while it holds the guard. */
  lemma OthersKeepProgress(s: Service, step: Step, i: nat, task: Task, base: seq<Entry>)
    requires Sound(s) && Enabled(s, step) && Progressed(s, i, task, base) && step != Restart
    requires !(step.Observe? && step.call == i) && !(step.Decide? && step.call == i) && !(step.Land? && step.call == i)
             && !(step.Continue? && step.call == i)
    ensures Progressed(Apply(s, step), i, task, base)
  {
    hide Sound, Progressed, Target;
    ProgressedFacts(s, i, task, base);
    assert s.calls[i].phase != Entering by { HasEntered(s, i, task, base); }
    var t := Apply(s, step);
    if step.Land? {
      if Holding(s.calls[i].phase) { LandsElsewhere(s, step.call, i); }
    } else if step.WriteOther? {
      assert Target(task) in t.feed ==> Target(task) in s.feed by { NotOther(task, step.id); }
    }
    LongerFeedKeepsProgress(s, t, i, task, base);
  }

  lemma HasEntered(s: Service, i: nat, task: Task, base: seq<Entry>)
    requires Progressed(s, i, task, base)
    ensures s.calls[i].phase != Entering
  {
  }

  lemma NotOther(task: Task, id: string)
    ensures Target(task) != OtherEntry(id)
  {
  }

  lemma LandsElsewhere(s: Service, j: nat, i: nat)
    requires Sound(s) && Enabled(s, Land(j)) && i < |s.calls| && i != j && Holding(s.calls[i].phase)
    ensures Target(s.calls[i].task) in ApplyLand(s, j).feed ==> Target(s.calls[i].task) in s.feed
  {
    hide SettlementTransferId, OnceInFeed;
    if Target(s.calls[i].task) == Target(s.calls[j].task) { SameTargetSameGuard(s.calls[i].task, s.calls[j].task); }
  }

  /** The call's own record lands, and it is the one that it owes. */
  lemma LandProgresses(s: Service, i: nat, task: Task, base: seq<Entry>)
    requires Enabled(s, Land(i)) && Progressed(s, i, task, base) && GoodCall(s, i)
    ensures Progressed(ApplyLand(s, i), i, task, base)
  {
    hide HasAttested, HasPublished, SettlementTransferId;
    var t := ApplyLand(s, i);
    LongerFeed(s.feed, t.feed, base, task);
    if s.calls[i].phase.Attesting? {
      AttestationLanded(s.feed, base, task);
    } else {
      RecordLanded(s.feed, base, task);
    }
  }

  lemma AttestationLanded(feed: seq<Entry>, base: seq<Entry>, task: Task)
    requires base <= feed && task.Advance?
    ensures var longer := feed + [AttestationEntry(task.proposalId)]; HasAttested(longer, base, task, |longer|)
  {
    assert (feed + [AttestationEntry(task.proposalId)])[|feed|] == AttestationEntry(task.proposalId);
  }

  lemma RecordLanded(feed: seq<Entry>, base: seq<Entry>, task: Task)
    requires base <= feed && HasAttested(feed, base, task, |feed|)
    ensures HasPublished(feed + [Target(task)], base, task)
  {
    hide Target;
    StillAttested(feed, feed + [Target(task)], base, task);
    assert (feed + [Target(task)])[|feed|] == Target(task);
  }

  lemma OwnStepProgresses(s: Service, step: Step, i: nat, task: Task, base: seq<Entry>)
    requires Sound(s) && Enabled(s, step) && Progressed(s, i, task, base)
    requires step == Observe(i) || step == Decide(i) || step == Land(i) || step == Continue(i, true)
    ensures Progressed(Apply(s, step), i, task, base)
  {
    hide SettlementTransferId, OnceInFeed, Exclusive, HasAttested, Target, Sound;
    CallGood(s, i);
    if step == Land(i) { LandProgresses(s, i, task, base); }
    else if step == Decide(i) { DecideProgresses(s, i, task, base); }
  }

  lemma DecideProgresses(s: Service, i: nat, task: Task, base: seq<Entry>)
    requires Enabled(s, Decide(i)) && GoodCall(s, i) && Progressed(s, i, task, base)
    ensures Progressed(Apply(s, Decide(i)), i, task, base)
  {
    hide SettlementTransferId, HasAttested, Target;
  }

  lemma StillAttested(feed: seq<Entry>, longer: seq<Entry>, base: seq<Entry>, task: Task)
    requires feed <= longer && HasAttested(feed, base, task, |feed|)
    ensures HasAttested(longer, base, task, |feed|)
  {
    if Attests(task) {
      var k :| |base| <= k < |feed| && feed[k] == AttestationEntry(task.proposalId);
      assert longer[k] == feed[k];
    }
  }

  lemma {:induction false} RunProgresses(s: Service, steps: seq<Step>, i: nat, task: Task, base: seq<Entry>)
    requires Sound(s) && Runs(s, steps) && Undisturbed(steps, i) && Progressed(s, i, task, base)
    ensures Progressed(After(s, steps), i, task, base) && Sound(After(s, steps))
    decreases |steps|
  {
    hide Sound, Progressed, Apply, Enabled;
    if steps != [] {
      var step := steps[0];
      assert step != Restart && step != Refuse(i) && step != Continue(i, false);
      StepSound(s, step);
      if step == Observe(i) || step == Decide(i) || step == Land(i) || step == Continue(i, true) {
        OwnStepProgresses(s, step, i, task, base);
      } else {
        OthersKeepProgress(s, step, i, task, base);
      }
      forall k | 0 <= k < |steps[1..]| ensures steps[1..][k] == steps[k + 1] { }
      RunProgresses(Apply(s, step), steps[1..], i, task, base);
    }
  }

  lemma {:induction false} RunsOn(s: Service, steps: seq<Step>, more: seq<Step>)
    ensures Runs(s, steps + more) <==> Runs(s, steps) && Runs(After(s, steps), more)
    ensures Runs(s, steps + more) ==> After(s, steps + more) == After(After(s, steps), more)
    decreases |steps|
  {
    hide Apply, Enabled;
    if steps == [] {
      assert steps + more == more;
    } else {
      assert (steps + more)[0] == steps[0] && (steps + more)[1..] == steps[1..] + more;
      if Enabled(s, steps[0]) { RunsOn(Apply(s, steps[0]), steps[1..], more); }
    }
  }

  lemma EntersWithProgress(s: Service, i: nat)
    requires Sound(s) && Enabled(s, Enter(i)) && !Guarded(s, s.calls[i].task)
    ensures Progressed(ApplyEnter(s, i), i, s.calls[i].task, s.feed)
  {
    hide SettlementTransferId, Sound;
  }

  lemma SetUpWithProgress(s: Service, communityId: string)
    requires !s.settingUp
    ensures Progressed(ApplyBegin(s, SetUp(communityId)), |s.calls|, SetUp(communityId), s.feed)
  {
  }

  lemma OnceWhenThere(s: Service, e: Entry)
    requires OnceInFeed(s) && PublishedOnce(e) && e in s.feed
    ensures multiset(s.feed)[e] == 1
  {
    assert multiset(s.feed)[e] >= 1;
  }

  /** What a call that has ended leaves in the feed. */
  lemma EndedCallLeaves(s: Service, i: nat, task: Task, base: seq<Entry>)
    requires Sound(s) && Progressed(s, i, task, base) && s.calls[i].phase.Ended?
    ensures base <= s.feed && LeavesBehind(task, base, s.feed)
  {
    hide GoodCall, Exclusive, OnceInFeed;
    if Attests(task) {
      var k :| |base| <= k < |s.feed| && s.feed[k] == AttestationEntry(task.proposalId);
      assert s.feed[|base|..][k - |base|] == s.feed[k];
    }
    if Publishes(task) {
      if Target(task) !in base {
        var l :| |base| <= l < |s.feed| && s.feed[l] == Target(task) && HasAttested(s.feed, base, task, l);
        if Attests(task) {
          var k :| |base| <= k < l && k < |s.feed| && s.feed[k] == AttestationEntry(task.proposalId);
        }
      }
      OnceWhenThere(s, Target(task));
    }
  }

  /** What a call leaves in the feed that it found. */
  ghost predicate LeavesBehind(task: Task, base: seq<Entry>, feed: seq<Entry>)
    requires base <= feed
  {
    && (task.Acknowledge? ==> multiset(feed)[AckEntry(task.acknowledgementId)] == 1)
    && (task.SetUp? ==> multiset(feed)[DeclarationEntry(task.communityId)] == 1)
    && (task.Advance? && !task.ownSupplied ==> AttestationEntry(task.proposalId) in feed[|base|..])
    && (task.Advance? && task.otherSupplied ==> multiset(feed)[TransferEntry(task.proposalId + "/settlement")] == 1)
    && (task.Advance? && !task.ownSupplied && task.otherSupplied && TransferEntry(task.proposalId + "/settlement") !in base ==>
          exists k, l :: |base| <= k < l < |feed| && feed[k] == AttestationEntry(task.proposalId)
                         && feed[l] == TransferEntry(task.proposalId + "/settlement"))
  }

  /** The other half of exactly-once. In every run, an acknowledgement or an advance that finds its guard free, and whose
      reads and appends succeed, has published when it ends, whatever other calls do meanwhile: the acknowledgement its
      entry, an advance with the other's attestation the transfer, each exactly once in the feed, and an advance without
      the member's own attestation that attestation, before the transfer. */
  lemma EnteredCallPublishes(before: seq<Step>, i: nat, after: seq<Step>)
    requires Runs(FRESH, before + [Enter(i)] + after) && Undisturbed(after, i)
    requires Runs(FRESH, before)
    requires var s := After(FRESH, before);
             && i < |s.calls| && (s.calls[i].task.Acknowledge? ==> s.calls[i].task.acknowledgementId !in s.acknowledging)
             && (s.calls[i].task.Advance? ==> s.calls[i].task.proposalId !in s.advancing) && !s.calls[i].task.SetUp?
    ensures var s, end := After(FRESH, before), After(FRESH, before + [Enter(i)] + after);
            && i < |end.calls| && s.feed <= end.feed
            && (end.calls[i].phase == Ended ==>
                  LeavesBehind(s.calls[i].task, s.feed, end.feed))
  {
    hide Sound, Progressed, Apply, Enabled;
    var s := After(FRESH, before);
    FreshIsSound();
    RunSound(FRESH, before);
    RunsOn(FRESH, before + [Enter(i)], after);
    RunsOn(FRESH, before, [Enter(i)]);
    EnterIsOne(s, i);
    StepSound(s, Enter(i));
    EntersWithProgress(s, i);
    RunProgresses(ApplyEnter(s, i), after, i, s.calls[i].task, s.feed);
    var end := After(ApplyEnter(s, i), after);
    ProgressedFacts(end, i, s.calls[i].task, s.feed);
    if end.calls[i].phase.Ended? { EndedCallLeaves(end, i, s.calls[i].task, s.feed); }
  }

  lemma ProgressedFacts(s: Service, i: nat, task: Task, base: seq<Entry>)
    requires Progressed(s, i, task, base)
    ensures base <= s.feed && i < |s.calls| && s.calls[i].task == task
  {
  }

  lemma FreshIsSound()
    ensures Sound(FRESH)
  {
  }

  lemma EnterIsOne(s: Service, i: nat)
    requires Runs(s, [Enter(i)])
    ensures Enabled(s, Enter(i)) && After(s, [Enter(i)]) == ApplyEnter(s, i)
  {
    assert [Enter(i)][1..] == [];
  }

  /** A setup that finds none under way, and whose reads and append succeed, has declared when it ends. */
  lemma StartedSetUpDeclares(before: seq<Step>, communityId: string, after: seq<Step>)
    requires Runs(FRESH, before) && !After(FRESH, before).settingUp
    requires var i := |After(FRESH, before).calls|;
             Runs(FRESH, before + [Begin(SetUp(communityId))] + after) && Undisturbed(after, i)
    ensures var i, end := |After(FRESH, before).calls|, After(FRESH, before + [Begin(SetUp(communityId))] + after);
            && i < |end.calls| && After(FRESH, before).feed <= end.feed
            && (end.calls[i].phase == Ended ==> LeavesBehind(SetUp(communityId), After(FRESH, before).feed, end.feed))
  {
    hide Sound, Progressed, Apply, Enabled;
    var s, task := After(FRESH, before), SetUp(communityId);
    FreshIsSound();
    RunSound(FRESH, before);
    RunsOn(FRESH, before + [Begin(task)], after);
    RunsOn(FRESH, before, [Begin(task)]);
    BeginIsOne(s, task);
    StepSound(s, Begin(task));
    SetUpWithProgress(s, communityId);
    RunProgresses(ApplyBegin(s, task), after, |s.calls|, task, s.feed);
    var end := After(ApplyBegin(s, task), after);
    ProgressedFacts(end, |s.calls|, task, s.feed);
    if end.calls[|s.calls|].phase.Ended? { EndedCallLeaves(end, |s.calls|, task, s.feed); }
  }

  lemma BeginIsOne(s: Service, task: Task)
    ensures Enabled(s, Begin(task)) && Runs(s, [Begin(task)]) && After(s, [Begin(task)]) == ApplyBegin(s, task) == Apply(s, Begin(task))
  {
    assert [Begin(task)][1..] == [];
  }

  // ---- calls that do not get that far ----------------------------------------------------------------------

  /** A call begins before its guard; a setup takes its guard as it begins, or shares the one under way. */
  lemma CallBegins(s: Service, task: Task)
    ensures var t := Apply(s, Begin(task));
            && t.feed == s.feed && t.acknowledging == s.acknowledging && t.advancing == s.advancing
            && t.settingUp == (s.settingUp || task.SetUp?)
            && t.calls == if task.SetUp? && s.settingUp then s.calls
                          else s.calls + [Call(task, if task.SetUp? then Reading else Entering, false)]
  {
  }

  /** A call that finds its guard taken ends, and so does one that is refused before its guard; nothing else changes. */
  lemma RefusedCallEnds(s: Service, i: nat)
    requires i < |s.calls| && s.calls[i].phase == Entering
    ensures Enabled(s, Refuse(i)) && Apply(s, Refuse(i)) == s.(calls := s.calls[i := s.calls[i].(phase := Ended)])
    ensures (s.calls[i].task.Acknowledge? && s.calls[i].task.acknowledgementId in s.acknowledging)
            || (s.calls[i].task.Advance? && s.calls[i].task.proposalId in s.advancing) ==>
              Enabled(s, Enter(i)) && Apply(s, Enter(i)) == Apply(s, Refuse(i))
  {
  }

  /** A call whose read or append fails ends and frees its guard for the next call; the feed stays as it is. */
  lemma FailedCallFreesGuard(s: Service, i: nat)
    requires i < |s.calls| && (s.calls[i].phase.Reading? || s.calls[i].phase.Attesting? || s.calls[i].phase.Attested?
                               || s.calls[i].phase.Writing? || s.calls[i].phase.Written?)
    ensures Enabled(s, Continue(i, false))
    ensures var t, task := Apply(s, Continue(i, false)), s.calls[i].task;
            && t.feed == s.feed && t.calls == s.calls[i := s.calls[i].(phase := Ended)]
            && t.acknowledging == s.acknowledging - (if task.Acknowledge? then {task.acknowledgementId} else {})
            && t.advancing == s.advancing - (if task.Advance? then {task.proposalId} else {})
            && t.settingUp == (s.settingUp && !task.SetUp?)
  {
  }

  // ---- a call that runs by itself -------------------------------------------------------------------------

  /** The steps of a call that looks for its record, appends it when it is not there, and ends. */
  function LooksAndWrites(i: nat, found: bool): seq<Step> {
    if found then [Observe(i), Decide(i)] else [Observe(i), Decide(i), Land(i), Continue(i, true)]
  }

  lemma StepsOne(s: Service, step: Step, rest: seq<Step>)
    requires Enabled(s, step) && Runs(Apply(s, step), rest)
    ensures Runs(s, [step] + rest) && After(s, [step] + rest) == After(Apply(s, step), rest)
  {
    hide Apply, Enabled;
    assert ([step] + rest)[1..] == rest;
  }

  /** From its read on, a call by itself appends its record unless the feed holds it, ends, and frees its guard. */
  lemma LooksAlone(s: Service, i: nat)
    requires i < |s.calls| && s.calls[i].phase == Reading
    ensures var steps := LooksAndWrites(i, Target(s.calls[i].task) in s.feed);
            && Runs(s, steps)
            && After(s, steps).feed == (if Target(s.calls[i].task) in s.feed then s.feed else s.feed + [Target(s.calls[i].task)])
            && i < |After(s, steps).calls| && After(s, steps).calls[i].phase == Ended && !Guarded(After(s, steps), s.calls[i].task)
  {
    hide SettlementTransferId;
    var task, found := s.calls[i].task, Target(s.calls[i].task) in s.feed;
    var a := Apply(s, Observe(i));
    var b := Apply(a, Decide(i));
    if found {
      StepsOne(a, Decide(i), []);
      StepsOne(s, Observe(i), [Decide(i)]);
    } else {
      var c := Apply(b, Land(i));
      StepsOne(c, Continue(i, true), []);
      StepsOne(b, Land(i), [Continue(i, true)]);
      StepsOne(a, Decide(i), [Land(i), Continue(i, true)]);
      StepsOne(s, Observe(i), [Decide(i), Land(i), Continue(i, true)]);
    }
  }

  ghost function WithOnce(feed: seq<Entry>, e: Entry): seq<Entry> {
    if e in feed then feed else feed + [e]
  }

  /** The feed after a call that runs by itself. */
  ghost function FeedAfter(feed: seq<Entry>, task: Task): seq<Entry> {
    match task
    case Acknowledge(id) => WithOnce(feed, AckEntry(id))
    case SetUp(c) => WithOnce(feed, DeclarationEntry(c))
    case Advance(p, own, other) =>
      var attested := if own then feed else feed + [AttestationEntry(p)];
      if other then WithOnce(attested, TransferEntry(p + "/settlement")) else attested
  }

  /** A call by itself that finds its guard free ends, frees it, and leaves exactly this feed. */
  lemma CallAlone(s: Service, i: nat) returns (steps: seq<Step>)
    requires i < |s.calls| && s.calls[i].phase == Entering && !Guarded(s, s.calls[i].task) && !s.calls[i].task.SetUp?
    ensures Runs(s, steps) && After(s, steps).feed == FeedAfter(s.feed, s.calls[i].task)
    ensures i < |After(s, steps).calls| && After(s, steps).calls[i].phase == Ended && !Guarded(After(s, steps), s.calls[i].task)
  {
    hide LooksAndWrites;
    var task, a := s.calls[i].task, Apply(s, Enter(i));
    if !Attests(task) {
      if Publishes(task) {
        LooksAlone(a, i);
        steps := [Enter(i)] + LooksAndWrites(i, Target(task) in a.feed);
        StepsOne(s, Enter(i), LooksAndWrites(i, Target(task) in a.feed));
      } else {
        steps := [Enter(i)] + [];
        StepsOne(s, Enter(i), []);
      }
    } else {
      var b := Apply(a, Land(i));
      var c := Apply(b, Continue(i, true));
      var rest := if task.otherSupplied then LooksAndWrites(i, Target(task) in c.feed) else [];
      if task.otherSupplied { LooksAlone(c, i); }
      StepsOne(b, Continue(i, true), rest);
      StepsOne(a, Land(i), [Continue(i, true)] + rest);
      StepsOne(s, Enter(i), [Land(i)] + ([Continue(i, true)] + rest));
      steps := [Enter(i)] + ([Land(i)] + ([Continue(i, true)] + rest));
    }
  }

  /** A setup by itself. */
  lemma SetUpAlone(s: Service, communityId: string) returns (steps: seq<Step>)
    requires !s.settingUp
    ensures Runs(s, steps) && After(s, steps).feed == FeedAfter(s.feed, SetUp(communityId)) && !After(s, steps).settingUp
  {
    hide LooksAndWrites;
    var a := Apply(s, Begin(SetUp(communityId)));
    var found := DeclarationEntry(communityId) in a.feed;
    LooksAlone(a, |s.calls|);
    StepsOne(s, Begin(SetUp(communityId)), LooksAndWrites(|s.calls|, found));
    steps := [Begin(SetUp(communityId))] + LooksAndWrites(|s.calls|, found);
  }

  // ---- the service as an object -----------------------------------------------------------------------

  /** The service whose methods are the segments of its asynchronous methods. `Valid` holds between any two
      of them, so it holds under every interleaving. */
  class MemberIdentityService {
    var feed: seq<Entry>
    var settlementAcknowledgementsInProgress: set<string>
    var settlementAdvancementsInProgress: set<string>
    var identitySetupInProgress: bool
    var calls: seq<Call>
    ghost var staleAttestations: set<string>

    ghost function State(): Service
      reads this
    {
      Service(feed, settlementAcknowledgementsInProgress, settlementAdvancementsInProgress, identitySetupInProgress, calls, staleAttestations)
    }

    ghost predicate Valid()
      reads this
    {
      Sound(State())
    }

    constructor ()
      ensures Valid() && State() == FRESH
    {
      feed, calls, identitySetupInProgress, staleAttestations := [], [], false, {};
      settlementAcknowledgementsInProgress, settlementAdvancementsInProgress := {}, {};
      new;
      assert Sound(FRESH);
    }

    /** `createAndAnnounce` up to its first await. */
    method CreateAndAnnounce(communityId: string) returns (started: bool)
      requires Valid()
      modifies this
      ensures Valid() && State() == Apply(old(State()), Begin(SetUp(communityId)))
      ensures started <==> !old(identitySetupInProgress)
    {
      StepSound(State(), Begin(SetUp(communityId)));
      if identitySetupInProgress { return false; }
      identitySetupInProgress := true;
      calls := calls + [Call(SetUp(communityId), Reading, false)];
      started := true;
    }

    /** `acknowledgeSettlement` from its first await to its second. */
    method AcknowledgeSettlement(call: nat) returns (r: Result<()>)
      requires Valid() && Enabled(State(), Enter(call)) && calls[call].task.Acknowledge?
      modifies this
      ensures Valid() && State() == Apply(old(State()), Enter(call))
      ensures r.Ok? <==> old(calls[call].task.acknowledgementId !in settlementAcknowledgementsInProgress)
    {
      StepSound(State(), Enter(call));
      var id := calls[call].task.acknowledgementId;
      if id in settlementAcknowledgementsInProgress {
        calls := calls[call := calls[call].(phase := Ended)];
        return Error;
      }
      settlementAcknowledgementsInProgress := settlementAcknowledgementsInProgress + {id};
      calls := calls[call := calls[call].(phase := Reading)];
      r := Ok(());
    }

    /** `advanceSettlement` from its first await to its second, or to its end. */
    method AdvanceSettlement(call: nat) returns (r: Result<()>)
      requires Valid() && Enabled(State(), Enter(call)) && calls[call].task.Advance?
      modifies this
      ensures Valid() && State() == Apply(old(State()), Enter(call))
      ensures r.Ok? <==> old(calls[call].task.proposalId !in settlementAdvancementsInProgress)
    {
      StepSound(State(), Enter(call));
      var task := calls[call].task;
      if task.proposalId in settlementAdvancementsInProgress {
        calls := calls[call := calls[call].(phase := Ended)];
        return Error;
      }
      settlementAdvancementsInProgress := settlementAdvancementsInProgress + {task.proposalId};
      if !task.ownSupplied {
        calls := calls[call := Call(task, Attesting, AttestationEntry(task.proposalId) in feed)];
      } else if task.otherSupplied {
        calls := calls[call := calls[call].(phase := Reading)];
      } else {
        calls := calls[call := calls[call].(phase := Ended)];
        settlementAdvancementsInProgress := settlementAdvancementsInProgress - {task.proposalId};
      }
      r := Ok(());
    }

    /** The feed answers `hasSettlementAcknowledgement`, `hasLedgerTransfer` or `existingDeclaration`. */
    method ReadRecords(call: nat)
      requires Valid() && Enabled(State(), Observe(call))
      modifies this
      ensures Valid() && State() == Apply(old(State()), Observe(call))
    {
      StepSound(State(), Observe(call));
      calls := calls[call := calls[call].(phase := Read(Target(calls[call].task) in feed))];
    }

    method Release(task: Task)
      modifies this`settlementAcknowledgementsInProgress, this`settlementAdvancementsInProgress, this`identitySetupInProgress
      ensures State() == ReleaseGuard(old(State()), task)
    {
      match task {
        case Acknowledge(id) => settlementAcknowledgementsInProgress := settlementAcknowledgementsInProgress - {id};
        case Advance(p, _, _) => settlementAdvancementsInProgress := settlementAdvancementsInProgress - {p};
        case SetUp(_) => identitySetupInProgress := false;
      }
    }

    /** The segment after the feed has answered: end, or ask the feed to append. */
    method DecideToWrite(call: nat) returns (writes: bool)
      requires Valid() && Enabled(State(), Decide(call))
      modifies this
      ensures Valid() && State() == Apply(old(State()), Decide(call))
      ensures writes ==> Target(calls[call].task) !in feed
    {
      StepSound(State(), Decide(call));
      var found := calls[call].phase.found;
      if found {
        calls := calls[call := calls[call].(phase := Ended)];
        Release(calls[call].task);
      } else {
        assert GoodCall(State(), call);
        calls := calls[call := calls[call].(phase := Writing)];
      }
      writes := !found;
    }

    /** The member feed appends the record that a call has asked it to. */
    method AppendRecord(call: nat)
      requires Valid() && Enabled(State(), Land(call))
      modifies this
      ensures Valid() && State() == Apply(old(State()), Land(call))
    {
      StepSound(State(), Land(call));
      var c := calls[call];
      if c.phase.Attesting? && c.task.Advance? {
        feed := feed + [AttestationEntry(c.task.proposalId)];
        staleAttestations := staleAttestations + (if c.stale then {c.task.proposalId} else {});
        calls := calls[call := c.(phase := Attested)];
      } else {
        feed := feed + [Target(c.task)];
        calls := calls[call := c.(phase := Written)];
      }
    }

    /** The segment after an append has settled, or after the feed has refused to be read: go on to publish, or
        end in the `finally` block. */
    method FinishAppend(call: nat, succeeded: bool)
      requires Valid() && Enabled(State(), Continue(call, succeeded))
      modifies this
      ensures Valid() && State() == Apply(old(State()), Continue(call, succeeded))
    {
      StepSound(State(), Continue(call, succeeded));
      var c := calls[call];
      if succeeded && c.phase.Attested? && c.task.Advance? && c.task.otherSupplied {
        calls := calls[call := c.(phase := Reading)];
      } else {
        calls := calls[call := c.(phase := Ended)];
        Release(c.task);
      }
    }
  }
}

/** The append queue of a record store: concurrent appends run as steps that split at every await. */
module RecordStore {
  import opened Core

  /** Where one call of `append` stands. A core may reject an append whose record has landed, so a call
      that threw says whether its record is in the log. */
  datatype Phase = Waiting | Appending(index: nat) | Landed(index: nat) | Returned(index: nat) | Threw(landed: bool)

  /** A queued call, with the promise it waits for and the promise that it completes. */
  datatype Call<R> = Call(record: R, previous: nat, own: nat, phase: Phase)

  /** A store: its core's log, the `appendTail` promise, and which promises are resolved. */
  datatype Store<R> = Store(log: seq<R>, writable: bool, appendTail: nat, resolved: seq<bool>, calls: seq<Call<R>>)

  /** What runs between two awaits, what the core does meanwhile, and a change of ownership of the key. */
  datatype Step<R> =
    | Begin(record: R)
    | Resume(call: nat)
    | Land(call: nat)
    | Succeed(call: nat)
    | Fail(call: nat)
    | SetWritable(flag: bool)

  function Opened<R>(log: seq<R>, writable: bool): Store<R> { Store(log, writable, 0, [true], []) }

  predicate Enabled<R>(s: Store<R>, step: Step<R>) {
    match step
    case Begin(_) => true
    case SetWritable(_) => true
    case Resume(i) =>
      i < |s.calls| && s.calls[i].phase.Waiting? && s.calls[i].previous < |s.resolved| && s.resolved[s.calls[i].previous]
    case Land(i) => i < |s.calls| && s.calls[i].phase.Appending?
    case Succeed(i) => i < |s.calls| && s.calls[i].phase.Landed?
    case Fail(i) => i < |s.calls| && (s.calls[i].phase.Appending? || s.calls[i].phase.Landed?)
  }

  function SetPhase<R>(s: Store<R>, i: nat, phase: Phase): Store<R>
    requires i < |s.calls|
  {
    s.(calls := s.calls[i := s.calls[i].(phase := phase)])
  }

  /** The `finally` block: the call ends and resolves its promise. */
  function Complete<R>(s: Store<R>, i: nat, phase: Phase): Store<R>
    requires i < |s.calls|
  {
    var own := s.calls[i].own;
    SetPhase(s, i, phase).(resolved := if own < |s.resolved| then s.resolved[own := true] else s.resolved)
  }

  function Apply<R>(s: Store<R>, step: Step<R>): Store<R>
    requires Enabled(s, step)
  {
    match step
    case Begin(record) =>
      if !s.writable then s
      else
        var own := |s.resolved|;
        s.(appendTail := own, resolved := s.resolved + [false], calls := s.calls + [Call(record, s.appendTail, own, Waiting)])
    case Resume(i) => if !s.writable then Complete(s, i, Threw(false)) else SetPhase(s, i, Appending(|s.log|))
    case Land(i) => SetPhase(s, i, Landed(s.calls[i].phase.index)).(log := s.log + [s.calls[i].record])
    case Succeed(i) => Complete(s, i, Returned(s.calls[i].phase.index))
    case Fail(i) => Complete(s, i, Threw(s.calls[i].phase.Landed?))
    case SetWritable(flag) => s.(writable := flag)
  }

  // ---- what every step keeps --------------------------------------------------------------------------

  predicate HasLanded(phase: Phase) { phase.Landed? || phase.Returned? || (phase.Threw? && phase.landed) }

  predicate Finished(phase: Phase) { phase.Returned? || phase.Threw? }

  predicate InFlight(phase: Phase) { phase.Appending? || phase.Landed? }

  /** The records of the calls that have landed, in the order in which the calls were made. */
  function LandedRecords<R>(calls: seq<Call<R>>): seq<R> {
    if calls == [] then []
    else LandedRecords(calls[..|calls| - 1]) + (if HasLanded(calls[|calls| - 1].phase) then [calls[|calls| - 1].record] else [])
  }

  predicate ChainedCall<R>(s: Store<R>, i: nat)
    requires i < |s.calls| && |s.resolved| == |s.calls| + 1
  {
    s.calls[i].previous == i && s.calls[i].own == i + 1 && (s.resolved[i + 1] <==> Finished(s.calls[i].phase))
  }

  /** The promise chain follows the calls in order. */
  predicate Chained<R>(s: Store<R>) {
    && |s.resolved| == |s.calls| + 1 && s.appendTail == |s.calls| && s.resolved[0]
    && forall i | 0 <= i < |s.calls| :: ChainedCall(s, i)
  }

  /** A call leaves the queue only when all earlier calls are finished. */
  predicate InTurn<R>(s: Store<R>) {
    forall i, j | 0 <= i < j < |s.calls| && !s.calls[j].phase.Waiting? :: Finished(s.calls[i].phase)
  }

  /** The index a call holds is the position its record takes among the landed ones. */
  predicate IndexedCall<R>(before: nat, calls: seq<Call<R>>, i: nat)
    requires i < |calls|
  {
    var phase := calls[i].phase;
    phase.Appending? || phase.Landed? || phase.Returned? ==> phase.index == before + |LandedRecords(calls[..i])|
  }

  predicate Consistent<R(==)>(before: seq<R>, s: Store<R>) {
    && Chained(s) && InTurn(s)
    && s.log == before + LandedRecords(s.calls)
    && forall i | 0 <= i < |s.calls| :: IndexedCall(|before|, s.calls, i)
  }

  lemma {:induction false} LandedSame<R>(xs: seq<Call<R>>, ys: seq<Call<R>>)
    requires |xs| == |ys|
    requires forall i | 0 <= i < |xs| :: xs[i].record == ys[i].record && HasLanded(xs[i].phase) == HasLanded(ys[i].phase)
    ensures LandedRecords(xs) == LandedRecords(ys)
  {
    if xs != [] { LandedSame(xs[..|xs| - 1], ys[..|ys| - 1]); }
  }

  lemma {:induction false} NothingLandedAfter<R>(calls: seq<Call<R>>, n: nat)
    requires n <= |calls| && forall i | n <= i < |calls| :: !HasLanded(calls[i].phase)
    ensures LandedRecords(calls) == LandedRecords(calls[..n])
    decreases |calls|
  {
    if n == |calls| {
      TakeAll(calls);
    } else {
      assert calls[..|calls| - 1][..n] == calls[..n];
      NothingLandedAfter(calls[..|calls| - 1], n);
    }
  }

  /** A landed call's record stands behind those of the calls before it. */
  lemma {:induction false} LandedPosition<R>(calls: seq<Call<R>>, i: nat)
    requires i < |calls| && HasLanded(calls[i].phase)
    ensures |LandedRecords(calls[..i])| < |LandedRecords(calls)|
    ensures LandedRecords(calls)[|LandedRecords(calls[..i])|] == calls[i].record
    decreases |calls|
  {
    var front := calls[..|calls| - 1];
    if i < |front| {
      assert front[..i] == calls[..i];
      LandedPosition(front, i);
    }
  }

  lemma BeginConsistent<R>(before: seq<R>, s: Store<R>, record: R)
    requires Consistent(before, s) && s.writable
    ensures Consistent(before, Apply(s, Begin(record)))
  {
    hide LandedRecords;
    var t := Apply(s, Begin(record));
    assert t.calls[..|s.calls|] == s.calls;
    WaitingLandsNothing(s.calls, t.calls[|s.calls|]);
    assert Chained(t) by { BeginChained(before, s, record); }
    forall i | 0 <= i < |t.calls|
      ensures IndexedCall(|before|, t.calls, i)
    {
      if i < |s.calls| {
        assert IndexedCall(|before|, s.calls, i);
        assert t.calls[..i] == s.calls[..i];
      }
    }
  }

  lemma WaitingLandsNothing<R>(calls: seq<Call<R>>, call: Call<R>)
    requires call.phase.Waiting?
    ensures LandedRecords(calls + [call]) == LandedRecords(calls)
  {
    assert (calls + [call])[..|calls|] == calls;
  }

  lemma BeginChained<R>(before: seq<R>, s: Store<R>, record: R)
    requires Consistent(before, s) && s.writable
    ensures Chained(Apply(s, Begin(record)))
  {
    var t := Apply(s, Begin(record));
    forall i | 0 <= i < |t.calls| ensures ChainedCall(t, i) { if i < |s.calls| { assert ChainedCall(s, i); } }
  }

  /** A change of phase that lands nothing keeps every position. */
  lemma PhaseKeepsPositions<R>(before: nat, calls: seq<Call<R>>, i: nat, phase: Phase)
    requires i < |calls| && HasLanded(phase) == HasLanded(calls[i].phase)
    requires forall j | 0 <= j < |calls| :: IndexedCall(before, calls, j)
    requires phase.Appending? || phase.Landed? || phase.Returned? ==> phase.index == before + |LandedRecords(calls[..i])|
    ensures var after := calls[i := calls[i].(phase := phase)];
            LandedRecords(after) == LandedRecords(calls) && forall j | 0 <= j < |after| :: IndexedCall(before, after, j)
  {
    var after := calls[i := calls[i].(phase := phase)];
    LandedSame(after, calls);
    forall j | 0 <= j < |after|
      ensures IndexedCall(before, after, j)
    {
      assert IndexedCall(before, calls, j);
      LandedSame(after[..j], calls[..j]);
    }
  }

  /** A call that is under way is the only one that is neither waiting nor finished. */
  lemma OthersWait<R>(s: Store<R>, i: nat)
    requires InTurn(s) && i < |s.calls| && !Finished(s.calls[i].phase)
    ensures forall j | i < j < |s.calls| :: s.calls[j].phase.Waiting?
  {
  }

  lemma ResumeConsistent<R>(before: seq<R>, s: Store<R>, i: nat)
    requires Consistent(before, s) && Enabled(s, Resume(i))
    ensures Consistent(before, Apply(s, Resume(i)))
  {
    hide IndexedCall, LandedRecords;
    var t := Apply(s, Resume(i));
    assert ChainedCall(s, i);
    if i > 0 { assert ChainedCall(s, i - 1); }
    assert forall j | 0 <= j < i :: Finished(s.calls[j].phase);
    OthersWait(s, i);
    forall j | 0 <= j < |t.calls| ensures ChainedCall(t, j) { assert ChainedCall(s, j); }
    NothingLandedAfter(s.calls, i);
    PhaseKeepsPositions(|before|, s.calls, i, t.calls[i].phase);
  }

  lemma LandConsistent<R>(before: seq<R>, s: Store<R>, i: nat)
    requires Consistent(before, s) && Enabled(s, Land(i))
    ensures Consistent(before, Apply(s, Land(i)))
  {
    hide LandedRecords;
    var t := Apply(s, Land(i));
    OthersWait(s, i);
    forall j | 0 <= j < |t.calls| ensures ChainedCall(t, j) { assert ChainedCall(s, j); }
    LandAdds(s.calls, i, t.calls[i]);
    forall j | 0 <= j < |t.calls|
      ensures IndexedCall(|before|, t.calls, j)
    {
      assert IndexedCall(|before|, s.calls, j);
      if j <= i { assert t.calls[..j] == s.calls[..j]; }
    }
  }

  /** With nothing landed after it, a call's record lands behind all the others. */
  lemma LandAdds<R>(calls: seq<Call<R>>, i: nat, landed: Call<R>)
    requires i < |calls| && HasLanded(landed.phase) && forall j | i <= j < |calls| :: !HasLanded(calls[j].phase)
    ensures LandedRecords(calls[i := landed]) == LandedRecords(calls) + [landed.record]
  {
    var after := calls[i := landed];
    NothingLandedAfter(calls, i);
    NothingLandedAfter(after, i + 1);
    assert after[..i + 1][..i] == calls[..i];
  }

  lemma CompleteConsistent<R>(before: seq<R>, s: Store<R>, i: nat, phase: Phase)
    requires Consistent(before, s) && i < |s.calls| && InFlight(s.calls[i].phase) && Finished(phase)
    requires HasLanded(phase) == HasLanded(s.calls[i].phase) && (phase.Returned? ==> phase.index == s.calls[i].phase.index)
    ensures Consistent(before, Complete(s, i, phase))
  {
    hide LandedRecords;
    var t := Complete(s, i, phase);
    OthersWait(s, i);
    assert ChainedCall(s, i) && IndexedCall(|before|, s.calls, i);
    forall j | 0 <= j < |t.calls| ensures ChainedCall(t, j) { assert ChainedCall(s, j); }
    PhaseKeepsPositions(|before|, s.calls, i, phase);
  }

  /** Every step of every call keeps the queue consistent. */
  lemma StepConsistent<R>(before: seq<R>, s: Store<R>, step: Step<R>)
    requires Consistent(before, s) && Enabled(s, step)
    ensures Consistent(before, Apply(s, step))
  {
    hide LandedRecords, IndexedCall, ChainedCall;
    match step {
      case Begin(record) => if s.writable { BeginConsistent(before, s, record); }
      case Resume(i) => ResumeConsistent(before, s, i);
      case Land(i) => LandConsistent(before, s, i);
      case Succeed(i) => CompleteConsistent(before, s, i, Returned(s.calls[i].phase.index));
      case Fail(i) => CompleteConsistent(before, s, i, Threw(s.calls[i].phase.Landed?));
      case SetWritable(flag) =>
        var t := s.(writable := flag);
        assert forall i | 0 <= i < |s.calls| :: ChainedCall(t, i) by { SameChain(s, t); }
    }
  }

  lemma SameChain<R>(s: Store<R>, t: Store<R>)
    requires Chained(s) && t.calls == s.calls && t.resolved == s.resolved
    ensures forall i | 0 <= i < |s.calls| :: ChainedCall(t, i)
  {
    forall i | 0 <= i < |s.calls| ensures ChainedCall(t, i) { assert ChainedCall(s, i); }
  }

  // ---- every interleaving -----------------------------------------------------------------------------

  /** The steps can be taken one after the other: one interleaving of any number of calls. */
  predicate Runs<R>(s: Store<R>, steps: seq<Step<R>>)
    decreases |steps|
  {
    steps == [] || (Enabled(s, steps[0]) && Runs(Apply(s, steps[0]), steps[1..]))
  }

  function After<R>(s: Store<R>, steps: seq<Step<R>>): Store<R>
    requires Runs(s, steps)
    decreases |steps|
  {
    if steps == [] then s else After(Apply(s, steps[0]), steps[1..])
  }

  lemma {:induction false} RunConsistent<R>(before: seq<R>, s: Store<R>, steps: seq<Step<R>>)
    requires Consistent(before, s) && Runs(s, steps)
    ensures Consistent(before, After(s, steps))
    ensures s.log <= After(s, steps).log
    decreases |steps|
  {
    hide Consistent;
    if steps != [] {
      StepConsistent(before, s, steps[0]);
      RunConsistent(before, Apply(s, steps[0]), steps[1..]);
    }
  }

  /** Under every interleaving: one caller at a time is between reading the length and finishing its
      append; the log holds the landed records in call order behind what was there; a caller's record sits
      at the index it was given. */
  lemma AppendsAreSerialized<R>(log: seq<R>, writable: bool, steps: seq<Step<R>>)
    requires Runs(Opened(log, writable), steps)
    ensures var s := After(Opened(log, writable), steps);
            && (forall i, j | 0 <= i < |s.calls| && 0 <= j < |s.calls| && InFlight(s.calls[i].phase) && InFlight(s.calls[j].phase) :: i == j)
            && s.log == log + LandedRecords(s.calls)
            && forall i | 0 <= i < |s.calls| && s.calls[i].phase.Returned? ::
                 s.calls[i].phase.index < |s.log| && s.log[s.calls[i].phase.index] == s.calls[i].record
  {
    hide LandedRecords, After, Runs;
    var s := After(Opened(log, writable), steps);
    OpenedConsistent(log, writable);
    RunConsistent(log, Opened(log, writable), steps);
    forall i | 0 <= i < |s.calls| && s.calls[i].phase.Returned?
      ensures s.calls[i].phase.index < |s.log| && s.log[s.calls[i].phase.index] == s.calls[i].record
    {
      assert IndexedCall(|log|, s.calls, i);
      LandedPosition(s.calls, i);
    }
  }

  lemma OpenedConsistent<R>(log: seq<R>, writable: bool)
    ensures Consistent(log, Opened(log, writable))
  {
    assert log + LandedRecords<R>([]) == log;
  }

  /** Callers get indices in the order in which they called. */
  lemma IndicesFollowCalls<R>(log: seq<R>, writable: bool, steps: seq<Step<R>>, i: nat, j: nat)
    requires Runs(Opened(log, writable), steps)
    requires var s := After(Opened(log, writable), steps);
             i < j < |s.calls| && s.calls[i].phase.Returned? && s.calls[j].phase.Returned?
    ensures var s := After(Opened(log, writable), steps); s.calls[i].phase.index < s.calls[j].phase.index
  {
    hide LandedRecords, After, Runs;
    var s := After(Opened(log, writable), steps);
    OpenedConsistent(log, writable);
    RunConsistent(log, Opened(log, writable), steps);
    assert IndexedCall(|log|, s.calls, i) && IndexedCall(|log|, s.calls, j);
    assert s.calls[..j][..i] == s.calls[..i];
    LandedPosition(s.calls[..j], i);
  }

  // ---- nothing blocks -----------------------------------------------------------------------------------

  function StepsLeft(phase: Phase): nat {
    match phase
    case Waiting => 3
    case Appending(_) => 2
    case Landed(_) => 1
    case Returned(_) => 0
    case Threw(_) => 0
  }

  function Work<R>(calls: seq<Call<R>>): nat {
    if calls == [] then 0 else Work(calls[..|calls| - 1]) + StepsLeft(calls[|calls| - 1].phase)
  }

  lemma {:induction false} WorkAfterPhase<R>(calls: seq<Call<R>>, i: nat, phase: Phase)
    requires i < |calls|
    ensures Work(calls[i := calls[i].(phase := phase)]) == Work(calls) - StepsLeft(calls[i].phase) + StepsLeft(phase)
    decreases |calls|
  {
    var after := calls[i := calls[i].(phase := phase)];
    var front := calls[..|calls| - 1];
    if i < |front| {
      assert after[..|calls| - 1] == front[i := front[i].(phase := phase)];
      WorkAfterPhase(front, i, phase);
    } else {
      assert after[..|calls| - 1] == front;
    }
  }

  lemma {:induction false} WorkLeft<R>(calls: seq<Call<R>>)
    ensures Work(calls) == 0 <==> forall i | 0 <= i < |calls| :: Finished(calls[i].phase)
  {
    if calls != [] {
      var front := calls[..|calls| - 1];
      WorkLeft(front);
      assert forall i | 0 <= i < |front| :: front[i] == calls[i];
    }
  }

  /** Every step of a queued call brings the queue closer to being empty. */
  lemma StepDoesWork<R>(s: Store<R>, step: Step<R>)
    requires Enabled(s, step) && !step.Begin? && !step.SetWritable?
    ensures Work(Apply(s, step).calls) < Work(s.calls)
  {
    WorkAfterPhase(s.calls, step.call, Apply(s, step).calls[step.call].phase);
  }

  /** A call whose turn it is can move, whether the calls before it succeeded or failed. */
  lemma FailuresBlockNobody<R>(log: seq<R>, writable: bool, steps: seq<Step<R>>)
    requires Runs(Opened(log, writable), steps)
    ensures var s := After(Opened(log, writable), steps);
            forall i | 0 <= i < |s.calls| && !Finished(s.calls[i].phase) && (forall j | 0 <= j < i :: Finished(s.calls[j].phase)) ::
              Enabled(s, Resume(i)) || Enabled(s, Fail(i))
  {
    hide LandedRecords, After, Runs, IndexedCall;
    var s := After(Opened(log, writable), steps);
    OpenedConsistent(log, writable);
    RunConsistent(log, Opened(log, writable), steps);
    forall i | 0 <= i < |s.calls| && !Finished(s.calls[i].phase) && (forall j | 0 <= j < i :: Finished(s.calls[j].phase))
      ensures Enabled(s, Resume(i)) || Enabled(s, Fail(i))
    {
      assert ChainedCall(s, i);
      if i > 0 { assert ChainedCall(s, i - 1); }
    }
  }

  lemma {:induction false} FirstUnfinished<R>(calls: seq<Call<R>>) returns (i: nat)
    requires exists k :: 0 <= k < |calls| && !Finished(calls[k].phase)
    ensures i < |calls| && !Finished(calls[i].phase) && forall j | 0 <= j < i :: Finished(calls[j].phase)
  {
    i := 0;
    while Finished(calls[i].phase)
      invariant i < |calls| && forall j | 0 <= j < i :: Finished(calls[j].phase)
      decreases |calls| - i
    {
      i := i + 1;
    }
  }

  /** The queue is stuck only when every call has returned or thrown. */
  lemma QueueDrains<R>(log: seq<R>, writable: bool, steps: seq<Step<R>>)
    requires Runs(Opened(log, writable), steps)
    requires var s := After(Opened(log, writable), steps); forall i :: !Enabled(s, Resume(i)) && !Enabled(s, Fail(i))
    ensures var s := After(Opened(log, writable), steps); forall i | 0 <= i < |s.calls| :: Finished(s.calls[i].phase)
  {
    hide LandedRecords, After, Runs, Enabled;
    var s := After(Opened(log, writable), steps);
    FailuresBlockNobody(log, writable, steps);
    if exists k :: 0 <= k < |s.calls| && !Finished(s.calls[k].phase) {
      var i := FirstUnfinished(s.calls);
    }
  }

  // ---- what one call does -----------------------------------------------------------------------------------

  /** A store that is not writable queues nothing; a call whose turn comes after ownership is lost throws, lands nothing,
      and lets the next one go; and only an owner's call asks the core to append. */
  lemma OnlyOwnersAppend<R>(log: seq<R>, writable: bool, steps: seq<Step<R>>, step: Step<R>)
    requires Runs(Opened(log, writable), steps) && Enabled(After(Opened(log, writable), steps), step)
    ensures var s := After(Opened(log, writable), steps); var t := Apply(s, step);
            && (step.Begin? && !s.writable ==> t == s)
            && (step.Begin? && s.writable ==> |t.calls| == |s.calls| + 1 && t.calls[|s.calls|].record == step.record)
            && (step.Resume? && !s.writable ==>
                  t.log == s.log && t.calls[step.call].phase == Threw(false)
                  && step.call + 1 < |t.resolved| && t.resolved[step.call + 1])
            && (step.Resume? && s.writable ==> t.log == s.log && t.calls[step.call].phase == Appending(|s.log|))
            && (step.SetWritable? ==> t.writable == step.flag && t.log == s.log && t.calls == s.calls)
  {
    hide LandedRecords, After, Runs, IndexedCall;
    var s := After(Opened(log, writable), steps);
    OpenedConsistent(log, writable);
    RunConsistent(log, Opened(log, writable), steps);
    if step.Resume? { assert ChainedCall(s, step.call); }
  }

  /** Whatever happened before, when no call is under way, an owner's append by itself returns the length that the log had,
      and leaves its record there. */
  lemma AppendAlone<R>(log: seq<R>, writable: bool, steps: seq<Step<R>>, record: R)
    requires Runs(Opened(log, writable), steps)
    requires var s := After(Opened(log, writable), steps); s.writable && forall i | 0 <= i < |s.calls| :: Finished(s.calls[i].phase)
    ensures var s := After(Opened(log, writable), steps);
            var n := |s.calls|;
            var more := [Begin(record), Resume(n), Land(n), Succeed(n)];
            && Runs(s, more) && After(s, more).log == s.log + [record]
            && |After(s, more).calls| == n + 1 && After(s, more).calls[n].phase == Returned(|s.log|)
  {
    hide LandedRecords, After, Runs, IndexedCall;
    var s := After(Opened(log, writable), steps);
    OpenedConsistent(log, writable);
    RunConsistent(log, Opened(log, writable), steps);
    if s.calls != [] { assert ChainedCall(s, |s.calls| - 1); }
    OneAppend(s, record);
  }

  lemma OneAppend<R>(s: Store<R>, record: R)
    requires s.writable && |s.resolved| == |s.calls| + 1 && s.appendTail == |s.calls| && s.resolved[|s.calls|]
    ensures var n := |s.calls|; var more := [Begin(record), Resume(n), Land(n), Succeed(n)];
            && Runs(s, more) && After(s, more).log == s.log + [record]
            && |After(s, more).calls| == n + 1 && After(s, more).calls[n].phase == Returned(|s.log|)
  {
    var n := |s.calls|;
    var a := Apply(s, Begin(record));
    var b := Apply(a, Resume(n));
    var c := Apply(b, Land(n));
    OneStep(c, Succeed(n), []);
    OneStep(b, Land(n), [Succeed(n)]);
    OneStep(a, Resume(n), [Land(n), Succeed(n)]);
    OneStep(s, Begin(record), [Resume(n), Land(n), Succeed(n)]);
  }

  lemma OneStep<R>(s: Store<R>, step: Step<R>, rest: seq<Step<R>>)
    requires Enabled(s, step) && Runs(Apply(s, step), rest)
    ensures Runs(s, [step] + rest) && After(s, [step] + rest) == After(Apply(s, step), rest)
  {
    hide Apply, Enabled;
    assert ([step] + rest)[1..] == rest;
  }

  // ---- the store as an object -----------------------------------------------------------------------------

  /** A record store whose methods are the segments of its asynchronous methods. */
  class HypercoreRecordStore<R(==)> {
    var log: seq<R>
    var writable: bool
    var appendTail: nat
    var resolved: seq<bool>
    var calls: seq<Call<R>>
    ghost const before: seq<R>

    function State(): Store<R>
      reads this
    {
      Store(log, writable, appendTail, resolved, calls)
    }

    ghost predicate Valid()
      reads this
    {
      Consistent(before, State())
    }

    constructor (log: seq<R>, writable: bool)
      ensures State() == Opened(log, writable) && before == log && Valid()
    {
      this.log, this.writable, appendTail, resolved, calls, before := log, writable, 0, [true], [], log;
      new;
      OpenedConsistent(log, writable);
    }

    /** `append` up to its first await: the call takes the tail promise and leaves its own in its place. */
    method BeginAppend(record: R) returns (call: Option<nat>)
      requires Valid()
      modifies this
      ensures Valid() && State() == Apply(old(State()), Begin(record))
      ensures call == if old(writable) then Some(old(|calls|)) else None
    {
      StepConsistent(before, State(), Begin(record));
      if !writable { return None; }
      var previous := appendTail;
      appendTail := |resolved|;
      resolved := resolved + [false];
      calls := calls + [Call(record, previous, appendTail, Waiting)];
      call := Some(|calls| - 1);
    }

    /** `append` from its first await to its second: the index is read before the core is asked to append. */
    method ResumeAppend(call: nat)
      requires Valid() && Enabled(State(), Resume(call))
      modifies this
      ensures Valid() && State() == Apply(old(State()), Resume(call))
    {
      StepConsistent(before, State(), Resume(call));
      if !writable {
        calls := calls[call := calls[call].(phase := Threw(false))];
        resolved := if calls[call].own < |resolved| then resolved[calls[call].own := true] else resolved;
      } else {
        calls := calls[call := calls[call].(phase := Appending(|log|))];
      }
    }

    /** `append` after the core has settled, with its `finally` block. */
    method FinishAppend(call: nat, succeeded: bool) returns (r: Result<nat>)
      requires Valid() && Enabled(State(), if succeeded then Succeed(call) else Fail(call))
      modifies this
      ensures Valid() && State() == Apply(old(State()), if succeeded then Succeed(call) else Fail(call))
      ensures r.Ok? <==> succeeded
      ensures r.Ok? ==> r.value < |log| && log[r.value] == calls[call].record
    {
      StepConsistent(before, State(), if succeeded then Succeed(call) else Fail(call));
      var phase := calls[call].phase;
      if succeeded {
        assert IndexedCall(|before|, calls, call);
        LandedPosition(calls, call);
        r := Ok(phase.index);
        calls := calls[call := calls[call].(phase := Returned(phase.index))];
      } else {
        r := Error;
        calls := calls[call := calls[call].(phase := Threw(phase.Landed?))];
      }
      resolved := if calls[call].own < |resolved| then resolved[calls[call].own := true] else resolved;
    }

    /** `read` of one index. */
    method Read(index: nat) returns (r: Option<R>)
      ensures r == if index < |log| then Some(log[index]) else None
    {
      r := if index < |log| then Some(log[index]) else None;
    }

    /** Other callers run while a reader awaits: the log may have grown. */
    method Await()
      modifies this`log
      ensures old(log) <= log
    {
      var landed: seq<R> := *;
      log := log + landed;
    }

    /** `readAll`: the length is read once, and every read awaits. The result is the log as it was when the
        call began, whatever lands meanwhile. */
    method ReadAll() returns (r: Result<seq<R>>)
      modifies this`log
      ensures old(log) <= log
      ensures r == Ok(old(log))
    {
      var length := |log|;
      var records: seq<R> := [];
      for index := 0 to length
        invariant old(log) <= log
        invariant records == old(log)[..index]
      {
        Await();
        var record := Read(index);
        if record.None? { return Error; }
        TakeNext(old(log), index);
        records := records + [record.value];
      }
      TakeAll(old(log));
      r := Ok(records);
    }
  }
}

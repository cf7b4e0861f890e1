/** The worker pool of settlement durability: workers share one index and run as steps that split at every await. */
module WorkerPool {
  import opened Core

  /** Where a worker's loop stands. A worker whose map rejected has left the loop with that item. */
  datatype Worker = Ready | Running(index: nat) | Finished | Rejected(index: nat)

  /** The shared variables, the workers, and the items whose map has been called, in order. */
  datatype Pool<O> = Pool(nextIndex: nat, results: seq<Option<O>>, workers: seq<Worker>, started: seq<nat>)

  datatype Step = Take(worker: nat) | Settle(worker: nat)

  function Min(a: nat, b: nat): nat { if a < b then a else b }

  function Started<O>(items: nat, concurrency: nat): Pool<O> {
    Pool(0, seq(items, _ => None), seq(Min(concurrency, items), _ => Ready), [])
  }

  predicate Enabled<O>(p: Pool<O>, step: Step) {
    match step
    case Take(w) => w < |p.workers| && p.workers[w].Ready?
    case Settle(w) => w < |p.workers| && p.workers[w].Running?
  }

  function Apply<I, O>(values: seq<I>, f: I -> Result<O>, p: Pool<O>, step: Step): Pool<O>
    requires Enabled(p, step)
  {
    match step
    case Take(w) =>
      var index := p.nextIndex;
      if index >= |values| then p.(nextIndex := index + 1, workers := p.workers[w := Finished])
      else p.(nextIndex := index + 1, workers := p.workers[w := Running(index)], started := p.started + [index])
    case Settle(w) =>
      var index := p.workers[w].index;
      if index >= |values| || index >= |p.results| then p
      else
        match f(values[index])
        case Ok(output) => p.(results := p.results[index := Some(output)], workers := p.workers[w := Ready])
        case Error => p.(workers := p.workers[w := Rejected(index)])
  }

  // ---- what every step keeps --------------------------------------------------------------------------

  /** A worker holds this item: it is mapping it, or left the loop over it. */
  predicate Holds(worker: Worker, index: nat) {
    (worker.Running? || worker.Rejected?) && worker.index == index
  }

  predicate HeldBySomeone(workers: seq<Worker>, index: nat) {
    exists w :: 0 <= w < |workers| && Holds(workers[w], index)
  }

  /** Each taken item is held by one worker or has its own result, and no other item has either. */
  ghost predicate Consistent<I, O(!new)>(values: seq<I>, f: I -> Result<O>, p: Pool<O>) {
    && |p.results| == |values|
    && |p.started| == Min(p.nextIndex, |values|) && (forall i | 0 <= i < |p.started| :: p.started[i] == i)
    && (forall v, w | 0 <= v < |p.workers| && 0 <= w < |p.workers| && (p.workers[w].Running? || p.workers[w].Rejected?)
                      && Holds(p.workers[v], p.workers[w].index) :: v == w)
    && (forall w | 0 <= w < |p.workers| && (p.workers[w].Running? || p.workers[w].Rejected?) ::
          p.workers[w].index < |p.started| && p.results[p.workers[w].index].None?)
    && (forall w | 0 <= w < |p.workers| && p.workers[w].Rejected? :: f(values[p.workers[w].index]).Error?)
    && (forall i | 0 <= i < |values| && p.results[i].Some? :: i < |p.started| && f(values[i]) == Ok(p.results[i].value))
    && (forall i | 0 <= i < |p.started| :: p.results[i].Some? || HeldBySomeone(p.workers, i))
    && (forall w | 0 <= w < |p.workers| && p.workers[w].Finished? :: p.nextIndex > |values|)
  }

  lemma HeldAfter(workers: seq<Worker>, w: nat, worker: Worker, index: nat)
    requires w < |workers| && HeldBySomeone(workers, index) && (Holds(workers[w], index) ==> Holds(worker, index))
    ensures HeldBySomeone(workers[w := worker], index)
  {
    var v :| 0 <= v < |workers| && Holds(workers[v], index);
    assert Holds(workers[w := worker][v], index);
  }

  lemma TakeConsistent<I, O(!new)>(values: seq<I>, f: I -> Result<O>, p: Pool<O>, w: nat)
    requires Consistent(values, f, p) && Enabled(p, Take(w))
    ensures Consistent(values, f, Apply(values, f, p, Take(w)))
  {
    var r := Apply(values, f, p, Take(w));
    forall i | 0 <= i < |r.started|
      ensures r.results[i].Some? || HeldBySomeone(r.workers, i)
    {
      if i == p.nextIndex {
        assert Holds(r.workers[w], i);
      } else if p.results[i].None? {
        HeldAfter(p.workers, w, r.workers[w], i);
      }
    }
  }

  lemma SettleConsistent<I, O(!new)>(values: seq<I>, f: I -> Result<O>, p: Pool<O>, w: nat)
    requires Consistent(values, f, p) && Enabled(p, Settle(w))
    ensures Consistent(values, f, Apply(values, f, p, Settle(w)))
  {
    var r := Apply(values, f, p, Settle(w));
    forall i | 0 <= i < |r.started|
      ensures r.results[i].Some? || HeldBySomeone(r.workers, i)
    {
      if r.results[i].None? { HeldAfter(p.workers, w, r.workers[w], i); }
    }
  }

  predicate Runs<I, O>(values: seq<I>, f: I -> Result<O>, p: Pool<O>, steps: seq<Step>)
    decreases |steps|
  {
    steps == [] || (Enabled(p, steps[0]) && Runs(values, f, Apply(values, f, p, steps[0]), steps[1..]))
  }

  function After<I, O>(values: seq<I>, f: I -> Result<O>, p: Pool<O>, steps: seq<Step>): Pool<O>
    requires Runs(values, f, p, steps)
    decreases |steps|
  {
    if steps == [] then p else After(values, f, Apply(values, f, p, steps[0]), steps[1..])
  }

  lemma {:induction false} RunConsistent<I, O(!new)>(values: seq<I>, f: I -> Result<O>, p: Pool<O>, steps: seq<Step>)
    requires Consistent(values, f, p) && Runs(values, f, p, steps)
    ensures Consistent(values, f, After(values, f, p, steps)) && |After(values, f, p, steps).workers| == |p.workers|
    decreases |steps|
  {
    hide Consistent;
    if steps != [] {
      match steps[0] {
        case Take(w) => TakeConsistent(values, f, p, w);
        case Settle(w) => SettleConsistent(values, f, p, w);
      }
      RunConsistent(values, f, Apply(values, f, p, steps[0]), steps[1..]);
    }
  }

  /** The items being mapped. */
  function InFlight(workers: seq<Worker>): set<nat> {
    set w | 0 <= w < |workers| && workers[w].Running? :: workers[w].index
  }

  lemma {:induction false} InFlightBounded(workers: seq<Worker>)
    ensures |InFlight(workers)| <= |workers|
  {
    if workers != [] {
      var front, last := workers[..|workers| - 1], workers[|workers| - 1];
      InFlightBounded(front);
      assert InFlight(workers) == InFlight(front) + (if last.Running? then {last.index} else {});
    }
  }

  /** Under every interleaving, items are taken in order and each of them once, no more than the limit are
      being mapped, and a filled slot holds the map of its own item. */
  lemma PoolIsSafe<I, O(!new)>(values: seq<I>, f: I -> Result<O>, concurrency: nat, steps: seq<Step>)
    requires Runs(values, f, Started(|values|, concurrency), steps)
    ensures var p := After(values, f, Started(|values|, concurrency), steps);
            && |p.started| <= |values| && (forall i | 0 <= i < |p.started| :: p.started[i] == i)
            && |InFlight(p.workers)| <= concurrency
            && (forall v, w | 0 <= v < w < |p.workers| && p.workers[v].Running? && p.workers[w].Running? ::
                  p.workers[v].index != p.workers[w].index)
            && |p.results| == |values| && forall i | 0 <= i < |values| && p.results[i].Some? :: f(values[i]) == Ok(p.results[i].value)
  {
    var p := After(values, f, Started(|values|, concurrency), steps);
    StartedConsistent(values, f, concurrency);
    RunConsistent(values, f, Started(|values|, concurrency), steps);
    InFlightBounded(p.workers);
    assert forall v, w | 0 <= v < w < |p.workers| && p.workers[v].Running? && p.workers[w].Running? ::
        p.workers[v].index == p.workers[w].index ==> Holds(p.workers[v], p.workers[w].index);
  }

  lemma StartedConsistent<I, O(!new)>(values: seq<I>, f: I -> Result<O>, concurrency: nat)
    ensures Consistent(values, f, Started(|values|, concurrency))
  {
  }

  /** Each worker takes an item, in turn. */
  function Takes(workers: nat): seq<Step> { seq(workers, w requires 0 <= w < workers => Take(w)) }

  /** The pool starts with as many workers as the limit and the items allow, and they can all be mapping at once: after
      each has taken an item, the first items are being mapped, one by each worker. */
  lemma PoolFillsUp<I, O(!new)>(values: seq<I>, f: I -> Result<O>, concurrency: nat) returns (steps: seq<Step>)
    ensures Runs(values, f, Started(|values|, concurrency), steps)
    ensures var p := After(values, f, Started(|values|, concurrency), steps);
            && |p.workers| == (if concurrency < |values| then concurrency else |values|)
            && forall w | 0 <= w < |p.workers| :: p.workers[w] == Running(w)
  {
    var p := Started<O>(|values|, concurrency);
    steps := Takes(|p.workers|);
    EachTakes(values, f, p, 0);
    assert steps[0..] == steps;
  }

  lemma {:induction false} EachTakes<I, O(!new)>(values: seq<I>, f: I -> Result<O>, p: Pool<O>, n: nat)
    requires n <= |p.workers| <= |values| && p.nextIndex == n
    requires forall w | 0 <= w < |p.workers| :: p.workers[w] == if w < n then Running(w) else Ready
    ensures var steps := Takes(|p.workers|)[n..];
            && Runs(values, f, p, steps) && |After(values, f, p, steps).workers| == |p.workers|
            && forall w | 0 <= w < |p.workers| :: After(values, f, p, steps).workers[w] == Running(w)
    decreases |p.workers| - n
  {
    var steps := Takes(|p.workers|)[n..];
    if n < |p.workers| {
      assert steps[0] == Take(n) && steps[1..] == Takes(|p.workers|)[n + 1..];
      EachTakes(values, f, Apply(values, f, p, Take(n)), n + 1);
    }
  }

  // ---- the pool ends ------------------------------------------------------------------------------------

  function Weight(worker: Worker): nat {
    match worker
    case Ready => 1
    case Running(_) => 2
    case Finished => 0
    case Rejected(_) => 0
  }

  function Weights(workers: seq<Worker>): nat {
    if workers == [] then 0 else Weights(workers[..|workers| - 1]) + Weight(workers[|workers| - 1])
  }

  lemma {:induction false} WeightsUpdate(workers: seq<Worker>, w: nat, worker: Worker)
    requires w < |workers|
    ensures Weights(workers[w := worker]) == Weights(workers) - Weight(workers[w]) + Weight(worker)
  {
    var front, last := workers[..|workers| - 1], |workers| - 1;
    if w < last {
      assert workers[w := worker][..last] == front[w := worker];
      WeightsUpdate(front, w, worker);
    } else {
      assert workers[w := worker][..last] == front;
    }
  }

  function WorkLeft<O>(items: nat, p: Pool<O>): nat {
    2 * (items - Min(p.nextIndex, items)) + Weights(p.workers)
  }

  /** Every step of every worker brings the pool closer to its end. */
  lemma StepDoesWork<I, O(!new)>(values: seq<I>, f: I -> Result<O>, p: Pool<O>, step: Step)
    requires Consistent(values, f, p) && Enabled(p, step)
    ensures WorkLeft(|values|, Apply(values, f, p, step)) < WorkLeft(|values|, p)
  {
    WeightsUpdate(p.workers, step.worker, Apply(values, f, p, step).workers[step.worker]);
  }

  predicate AtRest<O>(p: Pool<O>) {
    forall w | 0 <= w < |p.workers| :: p.workers[w].Finished? || p.workers[w].Rejected?
  }

  /** When every worker has left its loop, the results are complete exactly when no map rejected, and a
      rejection is exactly a worker that left over an item. */
  lemma RestIsComplete<I, O(!new)>(values: seq<I>, f: I -> Result<O>, p: Pool<O>, concurrency: nat)
    requires Consistent(values, f, p) && AtRest(p) && concurrency > 0 && |p.workers| == Min(concurrency, |values|)
    ensures (forall i | 0 <= i < |values| :: f(values[i]).Ok?) <==> forall w | 0 <= w < |p.workers| :: p.workers[w].Finished?
    ensures (forall i | 0 <= i < |values| :: f(values[i]).Ok?) ==>
              forall i | 0 <= i < |values| :: p.results[i].Some? && f(values[i]) == Ok(p.results[i].value)
  {
    if forall w | 0 <= w < |p.workers| :: p.workers[w].Finished? {
      if values != [] { assert p.workers[0].Finished?; }
      forall i | 0 <= i < |values| ensures p.results[i].Some? { assert i < |p.started|; }
    } else {
      var w :| 0 <= w < |p.workers| && p.workers[w].Rejected?;
    }
  }

  // ---- the pool as it runs ----------------------------------------------------------------------------------

  /** The variables that the workers of one call share. */
  class SharedPool<I, O(!new)> {
    const values: seq<I>
    const mapItem: I -> Result<O>
    const results: array<Option<O>>
    var nextIndex: nat
    var workers: seq<Worker>
    ghost var started: seq<nat>

    ghost function State(): Pool<O>
      reads this, results
    {
      Pool(nextIndex, results[..], workers, started)
    }

    ghost predicate Valid()
      reads this, results
    {
      Consistent(values, mapItem, State())
    }

    constructor (values: seq<I>, mapItem: I -> Result<O>, concurrency: nat)
      ensures this.values == values && this.mapItem == mapItem && fresh(results)
      ensures Valid() && State() == Started(|values|, concurrency)
    {
      this.values, this.mapItem := values, mapItem;
      results := new Option<O>[|values|](_ => None);
      nextIndex, started := 0, [];
      workers := seq(Min(concurrency, |values|), _ => Ready);
      new;
      StartedConsistent(values, mapItem, concurrency);
      assert State() == Started(|values|, concurrency);
    }

    /** A worker's loop up to its await. */
    method TakeItem(w: nat)
      requires Valid() && Enabled(State(), Take(w))
      modifies this
      ensures Valid() && State() == Apply(values, mapItem, old(State()), Take(w))
    {
      TakeConsistent(values, mapItem, State(), w);
      var index := nextIndex;
      nextIndex := nextIndex + 1;
      if index >= |values| {
        workers := workers[w := Finished];
      } else {
        workers, started := workers[w := Running(index)], started + [index];
      }
    }

    /** A worker's loop after its await. */
    method SettleItem(w: nat)
      requires Valid() && Enabled(State(), Settle(w))
      modifies this, results
      ensures Valid() && State() == Apply(values, mapItem, old(State()), Settle(w))
    {
      SettleConsistent(values, mapItem, State(), w);
      var index := workers[w].index;
      match mapItem(values[index]) {
        case Ok(output) =>
          results[index] := Some(output);
          workers := workers[w := Ready];
        case Error =>
          workers := workers[w := Rejected(index)];
      }
    }
  }

  predicate CanMove(worker: Worker) { worker.Ready? || worker.Running? }

  /** `mapWithConcurrency` under an arbitrary scheduler: it ends, it fails exactly when some map rejects,
      and otherwise returns the maps of the items in their order. */
  method MapWithConcurrency<I, O(!new)>(values: seq<I>, concurrency: nat,
                                 mapItem: I -> Result<O>) returns (r: Result<seq<O>>)
    requires concurrency > 0
    ensures r.Ok? <==> forall i | 0 <= i < |values| :: mapItem(values[i]).Ok?
    ensures r.Ok? ==> |r.value| == |values| && forall i | 0 <= i < |values| :: mapItem(values[i]) == Ok(r.value[i])
  {
    hide Consistent, Apply;
    var pool := new SharedPool(values, mapItem, concurrency);
    while exists w :: 0 <= w < |pool.workers| && CanMove(pool.workers[w])
      invariant pool.values == values && pool.mapItem == mapItem && fresh(pool) && fresh(pool.results)
      invariant pool.Valid() && |pool.workers| == Min(concurrency, |values|)
      decreases WorkLeft(|values|, pool.State())
    {
      var w :| 0 <= w < |pool.workers| && CanMove(pool.workers[w]);
      if pool.workers[w].Ready? {
        StepDoesWork(values, mapItem, pool.State(), Take(w));
        KeepsWorkers(values, mapItem, pool.State(), Take(w));
        pool.TakeItem(w);
      } else {
        StepDoesWork(values, mapItem, pool.State(), Settle(w));
        KeepsWorkers(values, mapItem, pool.State(), Settle(w));
        pool.SettleItem(w);
      }
    }
    assert forall w | 0 <= w < |pool.workers| :: !CanMove(pool.workers[w]);
    RestIsComplete(values, mapItem, pool.State(), concurrency);
    if exists w :: 0 <= w < |pool.workers| && pool.workers[w].Rejected? { return Error; }
    var collected: seq<O> := [];
    for i := 0 to |values|
      invariant |collected| == i && forall j | 0 <= j < i :: mapItem(values[j]) == Ok(collected[j])
    {
      assert pool.State().results[i] == pool.results[i];
      collected := collected + [pool.results[i].value];
    }
    r := Ok(collected);
  }

  lemma KeepsWorkers<I, O>(values: seq<I>, f: I -> Result<O>, p: Pool<O>, step: Step)
    requires Enabled(p, step)
    ensures |Apply(values, f, p, step).workers| == |p.workers|
  {
  }

  // ---- counting receipts ------------------------------------------------------------------------------------

  /** A receipt response that claims a node's identity, or nothing usable. */
  type Receipt = Option<string>

  /** The distinct pinned nodes with a valid receipt: a receipt counts for the node that was asked, and only
      when it claims that node. */
  function VerifiedNodes(nodeIds: seq<string>, receipts: seq<Receipt>, verifies: Receipt -> bool): set<string>
    requires |receipts| == |nodeIds|
  {
    set i | 0 <= i < |nodeIds| && receipts[i] == Some(nodeIds[i]) && verifies(receipts[i]) :: nodeIds[i]
  }

  /** The count reaches the number of nodes asked exactly when they are distinct and each gave a valid
      receipt of its own: replies replayed from another node, and one node pinned twice, never add to it. */
  lemma CountsDistinctNodes(nodeIds: seq<string>, receipts: seq<Receipt>, verifies: Receipt -> bool)
    requires |receipts| == |nodeIds|
    ensures forall id :: id in VerifiedNodes(nodeIds, receipts, verifies) <==>
              exists i :: 0 <= i < |nodeIds| && nodeIds[i] == id && receipts[i] == Some(id) && verifies(receipts[i])
    ensures |VerifiedNodes(nodeIds, receipts, verifies)| <= |nodeIds|
    ensures |VerifiedNodes(nodeIds, receipts, verifies)| == |nodeIds| <==>
              NoDuplicates(nodeIds) && forall i | 0 <= i < |nodeIds| :: receipts[i] == Some(nodeIds[i]) && verifies(receipts[i])
  {
    var verified, all := VerifiedNodes(nodeIds, receipts, verifies), Elems(nodeIds);
    DistinctCount(nodeIds);
    assert verified <= all && all == verified + (all - verified);
    if forall i | 0 <= i < |nodeIds| :: receipts[i] == Some(nodeIds[i]) && verifies(receipts[i]) {
      assert forall i | 0 <= i < |nodeIds| :: nodeIds[i] in verified;
      assert verified == all;
    }
    if |verified| == |nodeIds| {
      assert all - verified == {};
      forall i | 0 <= i < |nodeIds|
        ensures receipts[i] == Some(nodeIds[i]) && verifies(receipts[i])
      {
        assert nodeIds[i] in verified;
        var j :| 0 <= j < |nodeIds| && receipts[j] == Some(nodeIds[j]) && verifies(receipts[j]) && nodeIds[j] == nodeIds[i];
        assert i == j;
      }
    }
  }
}

/** The reducer that every replicated history passes through: normalize each delivered item, keep one per
    id, refuse two different items that share an id, and sort what is left. */
module Reduction {
  import opened Core
  import opened Sorting

  /** The value held under a key, as `Map.prototype.get` returns it. */
  function Lookup<K(==), T>(values: seq<T>, key: T -> K, k: K): (r: Option<T>)
    ensures r.Some? ==> r.value in values && key(r.value) == k
    ensures r.None? ==> forall v | v in values :: key(v) != k
  {
    if values == [] then None
    else
      assert values == [values[0]] + values[1..];
      if key(values[0]) == k then Some(values[0]) else Lookup(values[1..], key, k)
  }

  /** Normalizes deliveries in arrival order, once per id; fails on a malformed delivery or on an id
      reused for different content. */
  function Dedupe<R, K(==), T(==)>(deliveries: seq<R>, decode: R -> Result<T>, key: T -> K): Result<seq<T>> {
    if deliveries == [] then Ok([])
    else
      var values :- Dedupe(deliveries[..|deliveries| - 1], decode, key);
      var value :- decode(deliveries[|deliveries| - 1]);
      Merge(values, value, key)
  }

  /** Adds one normalized value to those already held. */
  function Merge<K(==), T(==)>(values: seq<T>, value: T, key: T -> K): Result<seq<T>> {
    match Lookup(values, key, key(value))
    case None => Ok(values + [value])
    case Some(existing) => if existing == value then Ok(values) else Error
  }

  /** Every delivery normalizes, and deliveries that share an id normalize to the same value. */
  ghost predicate Coherent<R(!new), K, T>(deliveries: seq<R>, decode: R -> Result<T>, key: T -> K) {
    && (forall d | d in deliveries :: decode(d).Ok?)
    && (forall d, e | d in deliveries && e in deliveries ::
          key(decode(d).value) == key(decode(e).value) ==> decode(d) == decode(e))
  }

  /** Each value is what some delivery normalizes to, and each normalized delivery is there. */
  ghost predicate HoldsDecoded<R(!new), T(!new)>(values: seq<T>, deliveries: seq<R>, decode: R -> Result<T>) {
    && (forall v | v in values :: exists d :: d in deliveries && decode(d) == Ok(v))
    && (forall d | d in deliveries :: decode(d).Ok? && decode(d).value in values)
  }

  /** No two positions hold the same key. */
  ghost predicate KeysDistinct<K, T>(values: seq<T>, key: T -> K) {
    forall i, j :: 0 <= i < j < |values| ==> key(values[i]) != key(values[j])
  }

  lemma SameKeySameValue<K, T(!new)>(values: seq<T>, key: T -> K, a: T, b: T)
    requires KeysDistinct(values, key) && a in values && b in values && key(a) == key(b)
    ensures a == b
  {
    var i :| 0 <= i < |values| && values[i] == a;
    var j :| 0 <= j < |values| && values[j] == b;
  }

  lemma DistinctKeysDistinctValues<K, T>(values: seq<T>, key: T -> K)
    requires KeysDistinct(values, key)
    ensures NoDuplicates(values)
  {
    forall i, j | 0 <= i < j < |values|
      ensures values[i] != values[j]
    {
      assert key(values[i]) != key(values[j]);
    }
  }

  /** Deduplication succeeds exactly on coherent deliveries, and then holds each value once. */
  lemma {:induction false} DedupeSpec<R(!new), K, T(!new)>(deliveries: seq<R>, decode: R -> Result<T>, key: T -> K)
    ensures Dedupe(deliveries, decode, key).Ok? <==> Coherent(deliveries, decode, key)
    ensures Dedupe(deliveries, decode, key).Ok? ==>
              var values := Dedupe(deliveries, decode, key).value;
              KeysDistinct(values, key) && HoldsDecoded(values, deliveries, decode)
  {
    if deliveries != [] {
      var front, last := deliveries[..|deliveries| - 1], deliveries[|deliveries| - 1];
      assert deliveries == front + [last];
      assert last in deliveries && forall d | d in front :: d in deliveries;
      DedupeSpec(front, decode, key);
      if Dedupe(front, decode, key).Ok? && decode(last).Ok? {
        DedupeStep(front, last, decode, key);
      }
    }
  }

  lemma DedupeStep<R(!new), K, T(!new)>(front: seq<R>, last: R, decode: R -> Result<T>, key: T -> K)
    requires Coherent(front, decode, key) && decode(last).Ok?
    requires Dedupe(front, decode, key).Ok?
    requires KeysDistinct(Dedupe(front, decode, key).value, key)
    requires HoldsDecoded(Dedupe(front, decode, key).value, front, decode)
    ensures var merged := Merge(Dedupe(front, decode, key).value, decode(last).value, key);
            && (merged.Ok? <==> Coherent(front + [last], decode, key))
            && (merged.Ok? ==> KeysDistinct(merged.value, key) && HoldsDecoded(merged.value, front + [last], decode))
  {
    var values, value := Dedupe(front, decode, key).value, decode(last).value;
    var all := front + [last];
    assert forall d | d in all :: d in front || d == last;
    assert last in all;
    var found := Lookup(values, key, key(value));
    if found.Some? {
      var d :| d in front && decode(d) == Ok(found.value);
      assert d in all;
      assert Coherent(all, decode, key) ==> found.value == value;
      if found.value == value {
        forall e | e in front && key(decode(e).value) == key(value)
          ensures decode(e) == Ok(value)
        {
          SameKeySameValue(values, key, decode(e).value, found.value);
        }
      }
    } else {
      forall e | e in front
        ensures key(decode(e).value) != key(value)
      {
        assert decode(e).value in values;
      }
      var merged := values + [value];
      forall v | v in merged
        ensures exists d :: d in all && decode(d) == Ok(v)
      {
        if v in values {
          var d :| d in front && decode(d) == Ok(v);
          assert d in all;
        }
      }
    }
  }

  /** What a reducer returns: the deduplicated values in comparator order. */
  function Reduce<R, K(==), T(==)>(
    less: (T, T) -> bool, deliveries: seq<R>, decode: R -> Result<T>, key: T -> K): Result<seq<T>>
  {
    var values :- Dedupe(deliveries, decode, key);
    Ok(Sort(less, values))
  }

  lemma SortKeepsKeysDistinct<K, T(!new)>(less: (T, T) -> bool, values: seq<T>, key: T -> K)
    requires KeysDistinct(values, key)
    ensures KeysDistinct(Sort(less, values), key)
  {
    DistinctKeysDistinctValues(values, key);
    SortElements(less, values);
    var sorted := Sort(less, values);
    forall i, j | 0 <= i < j < |sorted|
      ensures key(sorted[i]) != key(sorted[j])
    {
      if key(sorted[i]) == key(sorted[j]) {
        assert sorted[i] in values && sorted[j] in values;
        SameKeySameValue(values, key, sorted[i], sorted[j]);
      }
    }
  }

  /** Values with distinct keys, sorted by a comparator that ties none of them, ascend strictly. */
  lemma SortOrdersValues<K, T(!new)>(less: (T, T) -> bool, values: seq<T>, key: T -> K)
    requires KeysDistinct(values, key) && TotalOn(less, values)
    ensures TotalOn(less, Sort(less, values)) && Ascending(less, Sort(less, values))
    ensures KeysDistinct(Sort(less, values), key)
  {
    DistinctKeysDistinctValues(values, key);
    SortAscends(less, values);
    SortElements(less, values);
    SortKeepsKeysDistinct(less, values, key);
  }

  /** A reducer succeeds exactly on coherent deliveries, and then holds each value once. */
  lemma ReduceSpec<R(!new), K, T(!new)>(
    less: (T, T) -> bool, deliveries: seq<R>, decode: R -> Result<T>, key: T -> K)
    ensures Reduce(less, deliveries, decode, key).Ok? <==> Coherent(deliveries, decode, key)
    ensures Reduce(less, deliveries, decode, key).Ok? ==>
              var values := Reduce(less, deliveries, decode, key).value;
              && KeysDistinct(values, key) && NoDuplicates(values)
              && HoldsDecoded(values, deliveries, decode)
  {
    DedupeSpec(deliveries, decode, key);
    if Coherent(deliveries, decode, key) {
      var values := Dedupe(deliveries, decode, key).value;
      SortElements(less, values);
      SortKeepsKeysDistinct(less, values, key);
      DistinctKeysDistinctValues(Sort(less, values), key);
    }
  }

  /** Some delivery normalizes to this result. */
  ghost predicate Delivered<R(!new), T>(deliveries: seq<R>, decode: R -> Result<T>, result: Result<T>) {
    exists d :: d in deliveries && decode(d) == result
  }

  /** Two deliveries of the same content: each item of one normalizes as some item of the other. */
  ghost predicate SameContent<R(!new), T>(xs: seq<R>, ys: seq<R>, decode: R -> Result<T>) {
    && (forall x {:trigger Delivered(ys, decode, decode(x))} | x in xs :: Delivered(ys, decode, decode(x)))
    && (forall y {:trigger Delivered(xs, decode, decode(y))} | y in ys :: Delivered(xs, decode, decode(y)))
  }

  lemma CoherenceFollowsContent<R(!new), K, T>(xs: seq<R>, ys: seq<R>, decode: R -> Result<T>, key: T -> K)
    requires SameContent(xs, ys, decode) && Coherent(xs, decode, key)
    ensures Coherent(ys, decode, key)
  {
    forall d, e | d in ys && e in ys
      ensures decode(d).Ok? && decode(e).Ok? && (key(decode(d).value) == key(decode(e).value) ==> decode(d) == decode(e))
    {
      assert Delivered(xs, decode, decode(d)) && Delivered(xs, decode, decode(e));
    }
  }

  lemma ContentGivesSameValues<R(!new), T(!new)>(
    xs: seq<R>, ys: seq<R>, decode: R -> Result<T>, vs: seq<T>, ws: seq<T>)
    requires SameContent(xs, ys, decode) && HoldsDecoded(vs, xs, decode) && HoldsDecoded(ws, ys, decode)
    ensures forall v | v in vs :: v in ws
  {
    forall v | v in vs
      ensures v in ws
    {
      var d :| d in xs && decode(d) == Ok(v);
      assert Delivered(ys, decode, decode(d));
    }
  }

  /** Convergence of one reducer: order, repetition and re-encoding of the deliveries do not matter, as
      long as the comparator ties no two of the values. Both fail, or both return the same sequence. */
  lemma ReduceConverges<R(!new), K, T(!new)>(
    less: (T, T) -> bool, xs: seq<R>, ys: seq<R>, decode: R -> Result<T>, key: T -> K)
    requires SameContent(xs, ys, decode)
    requires Dedupe(xs, decode, key).Ok? ==> TotalOn(less, Dedupe(xs, decode, key).value)
    ensures Reduce(less, xs, decode, key) == Reduce(less, ys, decode, key)
  {
    DedupeSpec(xs, decode, key);
    DedupeSpec(ys, decode, key);
    if Coherent(xs, decode, key) {
      CoherenceFollowsContent(xs, ys, decode, key);
      var vs, ws := Dedupe(xs, decode, key).value, Dedupe(ys, decode, key).value;
      ContentGivesSameValues(xs, ys, decode, vs, ws);
      ContentGivesSameValues(ys, xs, decode, ws, vs);
      DistinctKeysDistinctValues(vs, key);
      DistinctKeysDistinctValues(ws, key);
      SortDeterminedBySet(less, vs, ws);
    } else if Coherent(ys, decode, key) {
      CoherenceFollowsContent(ys, xs, decode, key);
    }
  }

  /** The loop that every reducer runs: one pass over the deliveries that fills a map by id. */
  method DedupeById<R, K(==), T(==)>(deliveries: seq<R>, decode: R -> Result<T>, key: T -> K)
    returns (r: Result<seq<T>>)
    ensures r == Dedupe(deliveries, decode, key)
  {
    var byId: map<K, T> := map[];
    var inserted: seq<T> := [];
    for i := 0 to |deliveries|
      invariant Dedupe(deliveries[..i], decode, key) == Ok(inserted)
      invariant forall v | v in inserted :: key(v) in byId && byId[key(v)] == v
      invariant forall k | k in byId :: byId[k] in inserted && key(byId[k]) == k
    {
      assert deliveries[..i + 1][..i] == deliveries[..i];
      var decoded := decode(deliveries[i]);
      if decoded.Error? {
        DedupeFailsForward(deliveries, i + 1, decode, key);
        return Error;
      }
      var value := decoded.value;
      if key(value) in byId {
        if byId[key(value)] != value {
          DedupeFailsForward(deliveries, i + 1, decode, key);
          return Error;
        }
      } else {
        inserted := inserted + [value];
      }
      byId := byId[key(value) := value];
    }
    assert deliveries[..|deliveries|] == deliveries;
    return Ok(inserted);
  }

  /** A reducer as the program runs it: the pass, then the sort. */
  method ReduceById<R, K(==), T(==)>(
    less: (T, T) -> bool, deliveries: seq<R>, decode: R -> Result<T>, key: T -> K)
    returns (r: Result<seq<T>>)
    ensures r == Reduce(less, deliveries, decode, key)
  {
    var deduped := DedupeById(deliveries, decode, key);
    if deduped.Error? { return Error; }
    return Ok(Sort(less, deduped.value));
  }

  /** Once a prefix is refused, the whole delivery is. */
  lemma {:induction false} DedupeFailsForward<R, K, T>(deliveries: seq<R>, n: nat, decode: R -> Result<T>, key: T -> K)
    requires n <= |deliveries| && Dedupe(deliveries[..n], decode, key).Error?
    ensures Dedupe(deliveries, decode, key).Error?
    decreases |deliveries|
  {
    if n < |deliveries| {
      assert deliveries[..|deliveries| - 1][..n] == deliveries[..n];
      DedupeFailsForward(deliveries[..|deliveries| - 1], n, decode, key);
    } else {
      assert deliveries[..n] == deliveries;
    }
  }

  lemma {:induction false} LookupUnique<K, T(!new)>(values: seq<T>, key: T -> K, v: T)
    requires KeysDistinct(values, key) && v in values
    ensures Lookup(values, key, key(v)) == Some(v)
  {
    var found := Lookup(values, key, key(v));
    if found.Some? { SameKeySameValue(values, key, found.value, v); }
  }

  /** Values that are already normalized, one per key, pass through unchanged. */
  lemma {:induction false} DedupeOfDistinct<K, T(!new)>(values: seq<T>, decode: T -> Result<T>, key: T -> K)
    requires KeysDistinct(values, key) && forall v | v in values :: decode(v) == Ok(v)
    ensures Dedupe(values, decode, key) == Ok(values)
  {
    if values != [] {
      var front, last := values[..|values| - 1], values[|values| - 1];
      FrontLast(values);
      assert last in values && forall v | v in front :: v in values;
      DedupeOfDistinct(front, decode, key);
      forall i | 0 <= i < |front|
        ensures key(front[i]) != key(last)
      {
        assert key(values[i]) != key(values[|values| - 1]);
      }
    }
  }

  /** The same deliveries in any order and number have the same content. */
  lemma SameElementsSameContent<R(!new), T>(xs: seq<R>, ys: seq<R>, decode: R -> Result<T>)
    requires Elems(xs) == Elems(ys)
    ensures SameContent(xs, ys, decode)
  {
    forall x | x in xs
      ensures Delivered(ys, decode, decode(x))
    {
      assert x in Elems(ys);
    }
    forall y | y in ys
      ensures Delivered(xs, decode, decode(y))
    {
      assert y in Elems(xs);
    }
  }

  // ---- grouping -------------------------------------------------------------------------------

  /** The values with one key, in order. */
  function Having<T>(values: seq<T>, key: T -> string, k: string): seq<T> {
    Filter(values, (v: T) => key(v) == k)
  }

  function Group<T>(groups: map<string, seq<T>>, k: string): seq<T> {
    if k in groups then groups[k] else []
  }

  /** The map holds, for every key, the values with that key. */
  ghost predicate Grouped<T>(groups: map<string, seq<T>>, values: seq<T>, key: T -> string) {
    forall k :: Group(groups, k) == Having(values, key, k)
  }

  lemma GroupStep<T>(groups: map<string, seq<T>>, front: seq<T>, v: T, key: T -> string)
    requires Grouped(groups, front, key)
    ensures Grouped(groups[key(v) := Group(groups, key(v)) + [v]], front + [v], key)
  {
    var after := groups[key(v) := Group(groups, key(v)) + [v]];
    forall k
      ensures Group(after, k) == Having(front + [v], key, k)
    {
      assert (front + [v])[..|front + [v]| - 1] == front;
      assert Having(front + [v], key, k) == Having(front, key, k) + if key(v) == k then [v] else [];
    }
  }

  /** `map.get(key) ?? []`, push, `map.set`, over all values. */
  method GroupBy<T>(values: seq<T>, key: T -> string) returns (groups: map<string, seq<T>>)
    ensures Grouped(groups, values, key)
  {
    groups := map[];
    for i := 0 to |values|
      invariant Grouped(groups, values[..i], key)
    {
      TakeNext(values, i);
      GroupStep(groups, values[..i], values[i], key);
      groups := groups[key(values[i]) := Group(groups, key(values[i])) + [values[i]]];
    }
    TakeAll(values);
  }
}

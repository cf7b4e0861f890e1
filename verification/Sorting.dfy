/** `Array.prototype.sort` with a comparator: a stable sort, and when its result is determined by the
    set of elements alone. `less(a, b)` stands for a comparator result below zero. */
module Sorting {
  import opened Core

  ghost predicate StrictTotalOrder<T(!new)>(less: (T, T) -> bool) {
    && (forall a :: !less(a, a))
    && (forall a, b, c :: less(a, b) && less(b, c) ==> less(a, c))
    && (forall a, b :: a != b ==> less(a, b) || less(b, a))
  }

  /** The comparator orders these elements strictly: it never ties two different ones. */
  ghost predicate TotalOn<T(!new)>(less: (T, T) -> bool, xs: seq<T>) {
    && (forall a | a in xs :: !less(a, a))
    && (forall a, b, c | a in xs && b in xs && c in xs :: less(a, b) && less(b, c) ==> less(a, c))
    && (forall a, b | a in xs && b in xs :: a != b ==> less(a, b) || less(b, a))
  }

  /** Each later element is above each earlier one. */
  ghost predicate Ascending<T(!new)>(less: (T, T) -> bool, s: seq<T>) {
    forall i, j :: 0 <= i < j < |s| ==> less(s[i], s[j])
  }

  /** Places one element behind every element that is not above it, so equal elements keep their order. */
  function Insert<T>(less: (T, T) -> bool, sorted: seq<T>, x: T): (r: seq<T>)
    ensures |r| == |sorted| + 1
  {
    if sorted == [] then [x]
    else if less(x, sorted[|sorted| - 1]) then
      Insert(less, sorted[..|sorted| - 1], x) + [sorted[|sorted| - 1]]
    else sorted + [x]
  }

  /** The stable sort of a sequence under a comparator. */
  function Sort<T>(less: (T, T) -> bool, xs: seq<T>): (r: seq<T>)
    ensures |r| == |xs|
  {
    if xs == [] then []
    else Insert(less, Sort(less, xs[..|xs| - 1]), xs[|xs| - 1])
  }

  lemma {:induction false} InsertElements<T>(less: (T, T) -> bool, sorted: seq<T>, x: T)
    ensures forall y :: y in Insert(less, sorted, x) <==> y == x || y in sorted
    ensures NoDuplicates(sorted) && x !in sorted ==> NoDuplicates(Insert(less, sorted, x))
  {
    if sorted != [] && less(x, sorted[|sorted| - 1]) {
      var front, last := sorted[..|sorted| - 1], sorted[|sorted| - 1];
      assert sorted == front + [last];
      InsertElements(less, front, x);
      assert NoDuplicates(sorted) && x !in sorted ==> last !in Insert(less, front, x);
    }
  }

  /** Sorting only changes the order. */
  lemma {:induction false} SortPermutes<T>(less: (T, T) -> bool, xs: seq<T>)
    ensures multiset(Sort(less, xs)) == multiset(xs)
  {
    if xs != [] {
      var front, x := xs[..|xs| - 1], xs[|xs| - 1];
      assert xs == front + [x];
      SortPermutes(less, front);
      InsertPermutes(less, Sort(less, front), x);
    }
  }

  lemma {:induction false} InsertPermutes<T>(less: (T, T) -> bool, sorted: seq<T>, x: T)
    ensures multiset(Insert(less, sorted, x)) == multiset(sorted) + multiset{x}
  {
    if sorted != [] {
      var front, last := sorted[..|sorted| - 1], sorted[|sorted| - 1];
      assert sorted == front + [last];
      InsertPermutes(less, front, x);
    }
  }

  /** Sorting neither adds nor loses elements. */
  lemma {:induction false} SortElements<T>(less: (T, T) -> bool, xs: seq<T>)
    ensures forall y :: y in Sort(less, xs) <==> y in xs
    ensures NoDuplicates(xs) ==> NoDuplicates(Sort(less, xs))
  {
    if xs != [] {
      var front, x := xs[..|xs| - 1], xs[|xs| - 1];
      assert xs == front + [x];
      SortElements(less, front);
      InsertElements(less, Sort(less, front), x);
    }
  }

  lemma {:induction false} InsertAscends<T(!new)>(less: (T, T) -> bool, sorted: seq<T>, x: T)
    requires TotalOn(less, sorted + [x])
    requires Ascending(less, sorted) && x !in sorted
    ensures Ascending(less, Insert(less, sorted, x))
  {
    if sorted != [] {
      hide TotalOn;
      var front, last := sorted[..|sorted| - 1], sorted[|sorted| - 1];
      if less(x, last) {
        TotalOnPart(less, sorted + [x], front + [x]);
        InsertAscends(less, front, x);
        InsertElements(less, front, x);
        forall y | y in Insert(less, front, x)
          ensures less(y, last)
        {
          if y != x {
            var i :| 0 <= i < |front| && front[i] == y;
            assert sorted[i] == y;
          }
        }
        EndsAbove(less, Insert(less, front, x), last);
      } else {
        AboveAll(less, sorted, x);
      }
    }
  }

  lemma EndsAbove<T(!new)>(less: (T, T) -> bool, front: seq<T>, last: T)
    requires Ascending(less, front) && forall y | y in front :: less(y, last)
    ensures Ascending(less, front + [last])
  {
    assert forall i | 0 <= i < |front| :: front[i] in front;
  }

  lemma TotalOnPart<T(!new)>(less: (T, T) -> bool, xs: seq<T>, ys: seq<T>)
    requires TotalOn(less, xs) && forall y | y in ys :: y in xs
    ensures TotalOn(less, ys)
  {
  }

  /** What is not below the last of an ascending sequence is above all of it. */
  lemma AboveAll<T(!new)>(less: (T, T) -> bool, sorted: seq<T>, x: T)
    requires TotalOn(less, sorted + [x]) && Ascending(less, sorted) && x !in sorted
    requires sorted != [] && !less(x, sorted[|sorted| - 1])
    ensures Ascending(less, sorted + [x])
  {
    var last := sorted[|sorted| - 1];
    assert last in sorted + [x] && x in sorted + [x] && less(last, x);
    forall i | 0 <= i < |sorted|
      ensures less(sorted[i], x)
    {
      assert sorted[i] in sorted + [x];
    }
  }

  /** On elements the comparator never ties, the sorted sequence ascends strictly. */
  lemma {:induction false} SortAscends<T(!new)>(less: (T, T) -> bool, xs: seq<T>)
    requires TotalOn(less, xs) && NoDuplicates(xs)
    ensures Ascending(less, Sort(less, xs))
  {
    if xs != [] {
      var front, x := xs[..|xs| - 1], xs[|xs| - 1];
      assert forall y | y in front :: y in xs;
      SortAscends(less, front);
      SortElements(less, front);
      assert forall y | y in Sort(less, front) + [x] :: y in xs;
      InsertAscends(less, Sort(less, front), x);
    }
  }

  /** At most one ascending sequence has a given set of elements. */
  lemma {:induction false} AscendingUnique<T(!new)>(less: (T, T) -> bool, s: seq<T>, t: seq<T>)
    requires TotalOn(less, s)
    requires Ascending(less, s) && Ascending(less, t)
    requires forall x :: x in s <==> x in t
    ensures s == t
  {
    assert t != [] ==> t[0] in t;
    if s != [] {
      assert s[0] in t;
      var ls, lt := s[|s| - 1], t[|t| - 1];
      assert ls in s && lt in t;
      assert ls in t && lt in s;
      assert ls == lt;
      var s', t' := s[..|s| - 1], t[..|t| - 1];
      assert s == s' + [ls] && t == t' + [lt];
      forall x
        ensures x in s' <==> x in t'
      {
        if x in s' { assert x in t && less(x, ls); }
        if x in t' { assert x in s && less(x, lt) && lt in s; }
      }
      AscendingUnique(less, s', t');
    }
  }

  /** The sorted sequence depends only on the set of elements, not on the order they came in. */
  lemma SortDeterminedBySet<T(!new)>(less: (T, T) -> bool, xs: seq<T>, ys: seq<T>)
    requires TotalOn(less, xs)
    requires NoDuplicates(xs) && NoDuplicates(ys)
    requires forall x :: x in xs <==> x in ys
    ensures Sort(less, xs) == Sort(less, ys)
  {
    assert TotalOn(less, ys);
    SortElements(less, xs);
    SortElements(less, ys);
    SortAscends(less, xs);
    SortAscends(less, ys);
    assert TotalOn(less, Sort(less, xs));
    AscendingUnique(less, Sort(less, xs), Sort(less, ys));
  }

  /** A sequence that already ascends is its own sort. */
  lemma SortOfAscending<T(!new)>(less: (T, T) -> bool, s: seq<T>)
    requires TotalOn(less, s) && NoDuplicates(s) && Ascending(less, s)
    ensures Sort(less, s) == s
  {
    SortElements(less, s);
    SortAscends(less, s);
    AscendingUnique(less, s, Sort(less, s));
  }

  lemma {:induction false} InsertMap<T(!new), U(!new)>(
    lessT: (T, T) -> bool, lessU: (U, U) -> bool, f: T -> U, sorted: seq<T>, x: T)
    requires forall a, b :: lessT(a, b) == lessU(f(a), f(b))
    ensures Insert(lessU, Map(sorted, f), f(x)) == Map(Insert(lessT, sorted, x), f)
  {
    if sorted == [] {
      assert Map(sorted, f) == [];
    } else {
      var front := sorted[..|sorted| - 1];
      assert Map(sorted, f)[..|sorted| - 1] == Map(front, f);
      InsertMap(lessT, lessU, f, front, x);
    }
  }

  /** Sorting by a projection and projecting the sorted sequence come to the same. */
  lemma {:induction false} SortMap<T(!new), U(!new)>(
    lessT: (T, T) -> bool, lessU: (U, U) -> bool, f: T -> U, xs: seq<T>)
    requires forall a, b :: lessT(a, b) == lessU(f(a), f(b))
    ensures Sort(lessU, Map(xs, f)) == Map(Sort(lessT, xs), f)
  {
    if xs != [] {
      var front := xs[..|xs| - 1];
      assert Map(xs, f)[..|xs| - 1] == Map(front, f);
      SortMap(lessT, lessU, f, front);
      InsertMap(lessT, lessU, f, Sort(lessT, front), xs[|xs| - 1]);
    }
  }
}

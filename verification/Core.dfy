/** Value shapes shared by every module: optional fields, failing computations, and required text. */
module Core {
  /** An optional field of a record, or a lookup that may find nothing. */
  datatype Option<+T> = None | Some(value: T)

  /** The outcome of a computation that the program ends by returning or by throwing.
      The text of an error is not modelled, so two failures are equal. */
  datatype Result<+T> = Ok(value: T) | Error {
    predicate IsFailure() {
      Error?
    }

    function PropagateFailure<U>(): Result<U>
      requires Error?
    {
      Error
    }

    function Extract(): T
      requires Ok?
    {
      value
    }
  }

  /** The characters that `String.prototype.trim` removes. */
  predicate IsTrimmed(c: char) {
    || '\U{0009}' <= c <= '\U{000D}'
    || c == ' ' || c == '\U{00A0}' || c == '\U{1680}'
    || '\U{2000}' <= c <= '\U{200A}'
    || c == '\U{2028}' || c == '\U{2029}' || c == '\U{202F}' || c == '\U{205F}'
    || c == '\U{3000}' || c == '\U{FEFF}'
  }

  /** A required text field holds something other than white space. */
  predicate Present(text: string) {
    exists i :: 0 <= i < |text| && !IsTrimmed(text[i])
  }

  /** Text is present exactly when some character of it is none of these twenty-five. */
  lemma PresentIff(text: string)
    ensures Present(text) <==>
              exists c :: c in text && c as int !in {
                0x09, 0x0A, 0x0B, 0x0C, 0x0D, 0x20, 0xA0, 0x1680,
                0x2000, 0x2001, 0x2002, 0x2003, 0x2004, 0x2005, 0x2006, 0x2007, 0x2008, 0x2009, 0x200A,
                0x2028, 0x2029, 0x202F, 0x205F, 0x3000, 0xFEFF}
  {
    if Present(text) {
      var i :| 0 <= i < |text| && !IsTrimmed(text[i]);
      assert text[i] in text;
    }
  }

  lemma PresentWord(word: string)
    requires word != [] && !IsTrimmed(word[0])
    ensures Present(word)
  {
  }

  /** Text stays present when more text is put around it. */
  lemma PresentInside(before: string, text: string, after: string)
    requires Present(text)
    ensures Present(before + text + after)
  {
    var i :| 0 <= i < |text| && !IsTrimmed(text[i]);
    assert (before + text + after)[|before| + i] == text[i];
  }

  /** The elements of a sequence, without order or multiplicity. */
  function Elems<T>(s: seq<T>): (r: set<T>) {
    set x | x in s
  }

  /** No element stands at two positions. */
  ghost predicate NoDuplicates<T>(s: seq<T>) {
    forall i, j :: 0 <= i < j < |s| ==> s[i] != s[j]
  }

  /** The elements that satisfy a test, in their original order. */
  function Filter<T>(s: seq<T>, keep: T -> bool): (r: seq<T>)
    ensures forall x | x in r :: x in s && keep(x)
    ensures forall x | x in s && keep(x) :: x in r
    ensures |r| <= |s|
  {
    if s == [] then []
    else
      var rest := Filter(s[..|s| - 1], keep);
      assert s == s[..|s| - 1] + [s[|s| - 1]];
      if keep(s[|s| - 1]) then rest + [s[|s| - 1]] else rest
  }

  /** Applies a function to every element, keeping positions. */
  function Map<T, U>(s: seq<T>, f: T -> U): (r: seq<U>)
    ensures |r| == |s|
    ensures forall i :: 0 <= i < |s| ==> r[i] == f(s[i])
  {
    seq(|s|, i requires 0 <= i < |s| => f(s[i]))
  }

  lemma MapMember<T(!new), U>(s: seq<T>, f: T -> U, y: U)
    requires y in Map(s, f)
    ensures exists x :: x in s && f(x) == y
  {
    var i :| 0 <= i < |s| && Map(s, f)[i] == y;
    assert s[i] in s && f(s[i]) == y;
  }

  lemma MemberMap<T, U>(s: seq<T>, f: T -> U, x: T)
    requires x in s
    ensures f(x) in Map(s, f)
  {
    var i :| 0 <= i < |s| && s[i] == x;
    assert Map(s, f)[i] == f(x);
  }

  lemma NothingHeld<T>(s: seq<T>)
    ensures s != [] ==> exists x :: x in s
  {
    if s != [] { assert s[0] in s; }
  }

  /** One more element of a prefix. */
  lemma TakeNext<T>(s: seq<T>, n: nat)
    requires n < |s|
    ensures s[..n + 1] == s[..n] + [s[n]]
    ensures s[..n + 1][..n] == s[..n]
  {
  }

  lemma TakeAll<T>(s: seq<T>)
    ensures s[..|s|] == s
  {
  }

  /** A sequence is its front followed by its last element. */
  lemma FrontLast<T>(s: seq<T>)
    requires s != []
    ensures s == s[..|s| - 1] + [s[|s| - 1]]
  {
  }

  lemma {:induction false} FilterAppend<T>(s: seq<T>, t: seq<T>, keep: T -> bool)
    ensures Filter(s + t, keep) == Filter(s, keep) + Filter(t, keep)
  {
    if t == [] {
      assert s + t == s;
    } else {
      var last := t[|t| - 1];
      assert (s + t)[..|s + t| - 1] == s + t[..|t| - 1];
      FilterAppend(s, t[..|t| - 1], keep);
    }
  }

  lemma {:induction false} FilterKeepsOrder<T>(s: seq<T>, keep: T -> bool)
    requires NoDuplicates(s)
    ensures NoDuplicates(Filter(s, keep))
  {
    if s != [] {
      FilterKeepsOrder(s[..|s| - 1], keep);
    }
  }

  /** A subset counts no more, and as many only when it is the whole set. */
  lemma SubsetCount<T>(a: set<T>, b: set<T>)
    requires a <= b
    ensures |a| <= |b|
    ensures |a| == |b| ==> a == b
  {
    assert b == a + (b - a);
  }

  /** A sequence has as many elements as positions exactly when no element repeats. */
  lemma {:induction false} DistinctCount<T>(s: seq<T>)
    ensures |Elems(s)| <= |s|
    ensures |Elems(s)| == |s| <==> NoDuplicates(s)
  {
    if s != [] {
      var front, last := s[..|s| - 1], s[|s| - 1];
      DistinctCount(front);
      FrontLast(s);
      assert Elems(s) == Elems(front) + {last};
      if last in front {
        var i :| 0 <= i < |front| && front[i] == last;
        assert s[i] == s[|s| - 1];
      } else {
        assert NoDuplicates(s) <==> NoDuplicates(front);
      }
    }
  }
}

/** The normal form in which record payloads are kept, and the text that envelopes are compared by. */
module NormalJson {
  import opened Core
  import opened Sorting
  import opened JsonText
  import opened CanonicalJson

  // ---- building an object ---------------------------------------------------------------------------

  const PROTO: Text := [0x5F, 0x5F, 0x70, 0x72, 0x6F, 0x74, 0x6F, 0x5F, 0x5F]

  function DecimalValue(t: Text): int {
    if t == [] then 0 else DecimalValue(t[..|t| - 1]) * 10 + t[|t| - 1] - 0x30
  }

  /** Keys that enumerate first, in numeric order: canonical numerals below the largest array index. */
  predicate IsIndexKey(t: Text) {
    && t != [] && (forall i | 0 <= i < |t| :: IsDigit(t[i])) && (t[0] == 0x30 ==> |t| == 1)
    && DecimalValue(t) < 0xFFFFFFFF
  }

  /** Adds a numeric key before the first key that enumerates after it. */
  function InsertIndexKey<N>(fields: seq<Field<N>>, field: Field<N>): (r: seq<Field<N>>)
    ensures |r| == |fields| + 1
    ensures field in r && (forall x | x in fields :: x in r) && forall x | x in r :: x in fields || x == field
  {
    if fields == [] || !IsIndexKey(fields[0].key) || DecimalValue(field.key) < DecimalValue(fields[0].key)
    then [field] + fields
    else
      assert fields == [fields[0]] + fields[1..];
      [fields[0]] + InsertIndexKey(fields[1..], field)
  }

  /** `object[key] = value` on an object that enumerates these fields. */
  function AssignProperty<N>(fields: seq<Field<N>>, field: Field<N>): (r: seq<Field<N>>) {
    if HasKey(fields, field.key) then fields[IndexOf(fields, field.key) := field]
    else if IsIndexKey(field.key) then InsertIndexKey(fields, field)
    else fields + [field]
  }

  lemma {:induction false} InsertIndexKeyKeys<N>(fields: seq<Field<N>>, field: Field<N>)
    requires NoDuplicates(Keys(fields)) && !HasKey(fields, field.key)
    ensures NoDuplicates(Keys(InsertIndexKey(fields, field)))
  {
    hide IsIndexKey, DecimalValue;
    var r := InsertIndexKey(fields, field);
    if fields == [] || r == [field] + fields {
      DistinctFront(field, fields);
    } else {
      var rest := fields[1..];
      assert forall i | 0 <= i < |rest| :: Keys(rest)[i] == Keys(fields)[i + 1] && rest[i] == fields[i + 1];
      InsertIndexKeyKeys(rest, field);
      var tail := InsertIndexKey(rest, field);
      KeysOfAdded(rest, tail, field);
      DistinctFront(fields[0], tail);
    }
  }

  lemma DistinctFront<N>(field: Field<N>, fields: seq<Field<N>>)
    requires NoDuplicates(Keys(fields)) && !HasKey(fields, field.key)
    ensures NoDuplicates(Keys([field] + fields))
  {
    var all := [field] + fields;
    forall i, j | 0 <= i < j < |all|
      ensures Keys(all)[i] != Keys(all)[j]
    {
      assert all[j] == fields[j - 1] && Keys(all)[j] == Keys(fields)[j - 1];
      if i > 0 { assert all[i] == fields[i - 1] && Keys(all)[i] == Keys(fields)[i - 1]; }
    }
  }

  /** Assigning a new key adds exactly one field, wherever it enumerates. */
  lemma AssignNewProperty<N>(fields: seq<Field<N>>, field: Field<N>)
    requires NoDuplicates(Keys(fields)) && !HasKey(fields, field.key)
    ensures var r := AssignProperty(fields, field);
            && NoDuplicates(Keys(r))
            && field in r && (forall x | x in fields :: x in r) && forall x | x in r :: x in fields || x == field
  {
    if IsIndexKey(field.key) {
      InsertIndexKeyKeys(fields, field);
    } else {
      var r := fields + [field];
      assert forall i | 0 <= i < |fields| :: Keys(r)[i] == Keys(fields)[i] && fields[i].key == Keys(fields)[i];
    }
  }

  // ---- the normal form ------------------------------------------------------------------------------

  /** `normalizeJson` on a value. */
  function Normalize<N>(v: Json<N>): Result<Json<N>>
    decreases v, 0
  {
    match v
    case Arr(items) => var normal :- NormalizeItems(items); Ok(Arr(normal))
    case Obj(fields) => var normal :- NormalizeFields(fields, SortedKeys(fields)); Ok(Obj(normal))
    case Foreign => Error
    case _ => Ok(v)
  }

  function NormalizeItems<N>(items: seq<Json<N>>): (r: Result<seq<Json<N>>>)
    ensures r.Ok? <==> forall i | 0 <= i < |items| :: Normalize(items[i]).Ok?
    ensures r.Ok? ==> |r.value| == |items| && forall i | 0 <= i < |items| :: Ok(r.value[i]) == Normalize(items[i])
    decreases items, 0
  {
    if items == [] then Ok([])
    else
      var n := |items| - 1;
      assert items == items[..n] + [items[n]];
      assert items[..n] < items;
      var front :- NormalizeItems(items[..n]);
      var last :- Normalize(items[n]);
      Ok(front + [last])
  }

  /** The object that the loop over sorted keys has built. */
  function NormalizeFields<N>(fields: seq<Field<N>>, keys: seq<Text>): Result<seq<Field<N>>>
    requires forall k | k in keys :: HasKey(fields, k)
    decreases fields, |keys|
  {
    if keys == [] then Ok([])
    else
      var n := |keys| - 1;
      var built :- NormalizeFields(fields, keys[..n]);
      if keys[n] == PROTO then Error
      else
        var normal :- Normalize(fields[IndexOf(fields, keys[n])].value);
        Ok(AssignProperty(built, Field(keys[n], normal)))
  }

  /** `normalizeJson` as the program runs it: an object is built by assigning sorted keys one by one. */
  method NormalizeJson<N>(v: Json<N>) returns (r: Result<Json<N>>)
    ensures r == Normalize(v)
    decreases v, 0
  {
    match v {
      case Arr(items) =>
        var normal: seq<Json<N>> := [];
        for i := 0 to |items|
          invariant NormalizeItems(items[..i]) == Ok(normal)
        {
          var item := NormalizeJson(items[i]);
          TakeNext(items, i);
          if item.Error? {
            assert Normalize(items[i]).Error?;
            return Error;
          }
          normal := normal + [item.value];
        }
        TakeAll(items);
        r := Ok(Arr(normal));
      case Obj(fields) => r := NormalizeObject(fields);
      case Foreign => r := Error;
      case _ => r := Ok(v);
    }
  }

  method NormalizeObject<N>(fields: seq<Field<N>>) returns (r: Result<Json<N>>)
    ensures r == Normalize(Obj(fields))
    decreases fields, 1
  {
    hide AssignProperty, SortedKeys, HasKey, IndexOf;
    var keys := SortedKeys(fields);
    var built: seq<Field<N>> := [];
    for i := 0 to |keys|
      invariant NormalizeFields(fields, keys[..i]) == Ok(built)
    {
      var key := keys[i];
      TakeNext(keys, i);
      if key == PROTO {
        FailureStays(fields, keys, i + 1);
        return Error;
      }
      assert HasKey(fields, key);
      var child := NormalizeJson(fields[IndexOf(fields, key)].value);
      if child.Error? {
        FailureStays(fields, keys, i + 1);
        return Error;
      }
      built := AssignProperty(built, Field(key, child.value));
    }
    TakeAll(keys);
    r := Ok(Obj(built));
  }

  lemma {:induction false} FailureStays<N>(fields: seq<Field<N>>, keys: seq<Text>, n: nat)
    requires n <= |keys| && (forall k | k in keys :: HasKey(fields, k)) && NormalizeFields(fields, keys[..n]).Error?
    ensures NormalizeFields(fields, keys).Error?
    decreases |keys|
  {
    hide AssignProperty, HasKey, IndexOf;
    if n == |keys| {
      TakeAll(keys);
    } else {
      assert keys[..|keys| - 1][..n] == keys[..n];
      FailureStays(fields, keys[..|keys| - 1], n);
    }
  }

  // ---- what normalization keeps ---------------------------------------------------------------------

  /** No object of the value has a field with the name of the prototype accessor. */
  ghost predicate NoProto<N>(v: Json<N>)
    decreases v
  {
    match v
    case Arr(items) => forall i | 0 <= i < |items| :: NoProto(items[i])
    case Obj(fields) => !HasKey(fields, PROTO) && forall i | 0 <= i < |fields| :: NoProto(fields[i].value)
    case _ => true
  }

  /** One more turn of the loop. */
  lemma NormalizeFieldsNext<N>(fields: seq<Field<N>>, front: seq<Text>, last: Text)
    requires forall k | k in front + [last] :: HasKey(fields, k)
    ensures last in front + [last]
    ensures var before, child := NormalizeFields(fields, front), Normalize(fields[IndexOf(fields, last)].value);
            NormalizeFields(fields, front + [last]) ==
              if before.Ok? && last != PROTO && child.Ok? then Ok(AssignProperty(before.value, Field(last, child.value))) else Error
  {
    hide Normalize, IndexOf, AssignProperty, HasKey;
    var keys := front + [last];
    assert keys[..|keys| - 1] == front && keys[|front|] == last;
  }

  /** What the loop over sorted keys has built once it has gone over `keys`. */
  lemma {:induction false} NormalizeFieldsSpec<N>(fields: seq<Field<N>>, keys: seq<Text>)
    requires (forall k | k in keys :: HasKey(fields, k)) && NoDuplicates(keys)
    ensures NormalizeFields(fields, keys).Ok? <==>
              PROTO !in keys && forall k | k in keys :: Normalize(fields[IndexOf(fields, k)].value).Ok?
    ensures NormalizeFields(fields, keys).Ok? ==>
              var r := NormalizeFields(fields, keys).value;
              && NoDuplicates(Keys(r))
              && (forall k :: HasKey(r, k) <==> k in keys)
              && forall x | x in r :: HasKey(fields, x.key) && Normalize(fields[IndexOf(fields, x.key)].value) == Ok(x.value)
    decreases |keys|
  {
    if keys == [] {
      NoKeys<N>();
      var r := NormalizeFields(fields, keys).value;
      assert r == [] && forall k :: !HasKey(r, k);
    } else {
      hide Normalize, IndexOf, AssignProperty, Keys, NormalizeFields, HasKey;
      var n := |keys| - 1;
      var front, last := keys[..n], keys[n];
      FrontLast(keys);
      assert forall k :: k in keys <==> k in front || k == last;
      NormalizeFieldsSpec(fields, front);
      NormalizeFieldsNext(fields, front, last);
      var child := Normalize(fields[IndexOf(fields, last)].value);
      if NormalizeFields(fields, front).Ok? && last != PROTO && child.Ok? {
        var built := NormalizeFields(fields, front).value;
        assert last !in front;
        AssignNewProperty(built, Field(last, child.value));
        KeysOfAdded(built, AssignProperty(built, Field(last, child.value)), Field(last, child.value));
      }
    }
  }

  lemma NoKeys<N>()
    ensures Keys<N>([]) == []
  {
  }

  lemma KeysOfAdded<N>(fields: seq<Field<N>>, more: seq<Field<N>>, field: Field<N>)
    requires field in more && (forall x | x in fields :: x in more) && forall x | x in more :: x in fields || x == field
    ensures forall k :: HasKey(more, k) <==> HasKey(fields, k) || k == field.key
  {
    forall k
      ensures HasKey(more, k) <==> HasKey(fields, k) || k == field.key
    {
      if i :| 0 <= i < |more| && more[i].key == k { assert more[i] in more; }
      if i :| 0 <= i < |fields| && fields[i].key == k { assert fields[i] in more; }
      assert field in more;
    }
  }

  lemma SortedKeysDistinct<N>(fields: seq<Field<N>>)
    requires NoDuplicates(Keys(fields))
    ensures NoDuplicates(SortedKeys(fields))
  {
    SortElements(TextLess, Keys(fields));
  }

  /** Normalization succeeds exactly on JSON without a prototype field, and then gives a well-formed
      value that is equal to the given one up to key order. */
  lemma {:induction false} NormalizeSpec<N>(v: Json<N>)
    requires WellFormed(v)
    ensures Normalize(v).Ok? <==> IsJson(v) && NoProto(v)
    ensures Normalize(v).Ok? ==> WellFormed(Normalize(v).value) && Same(v, Normalize(v).value)
    decreases v
  {
    match v {
      case Arr(items) =>
        forall i | 0 <= i < |items|
          ensures Normalize(items[i]).Ok? <==> IsJson(items[i]) && NoProto(items[i])
          ensures Normalize(items[i]).Ok? ==> WellFormed(Normalize(items[i]).value) && Same(items[i], Normalize(items[i]).value)
        {
          NormalizeSpec(items[i]);
        }
      case Obj(fields) =>
        forall i | 0 <= i < |fields|
          ensures Normalize(fields[i].value).Ok? <==> IsJson(fields[i].value) && NoProto(fields[i].value)
          ensures Normalize(fields[i].value).Ok? ==>
                    WellFormed(Normalize(fields[i].value).value) && Same(fields[i].value, Normalize(fields[i].value).value)
        {
          NormalizeSpec(fields[i].value);
        }
        NormalizeObjectSpec(fields);
      case _ =>
    }
  }

  lemma NormalizeObjectSpec<N>(fields: seq<Field<N>>)
    requires NoDuplicates(Keys(fields))
    requires forall i | 0 <= i < |fields| ::
               && (Normalize(fields[i].value).Ok? <==> IsJson(fields[i].value) && NoProto(fields[i].value))
               && (Normalize(fields[i].value).Ok? ==>
                     WellFormed(Normalize(fields[i].value).value) && Same(fields[i].value, Normalize(fields[i].value).value))
    ensures Normalize(Obj(fields)).Ok? <==> !HasKey(fields, PROTO) && forall i | 0 <= i < |fields| :: Normalize(fields[i].value).Ok?
    ensures Normalize(Obj(fields)).Ok? ==>
              WellFormed(Normalize(Obj(fields)).value) && Same(Obj(fields), Normalize(Obj(fields)).value)
  {
    hide IsJson, NoProto, SortedKeys, Keys, IndexOf, NormalizeFields;
    var keys := SortedKeys(fields);
    KeyMembers(fields);
    SortedKeysDistinct(fields);
    NormalizeFieldsSpec(fields, keys);
    forall i | 0 <= i < |fields| ensures IndexOf(fields, fields[i].key) == i && fields[i].key in keys {
      HasOwnKey(fields, i);
      KeyUnique(fields, i);
    }
    if NormalizeFields(fields, keys).Ok? {
      var r := NormalizeFields(fields, keys).value;
      forall i, j | 0 <= i < |fields| && 0 <= j < |r| && fields[i].key == r[j].key
        ensures Same(fields[i].value, r[j].value) && WellFormed(r[j].value)
      {
        assert r[j] in r;
      }
      forall j | 0 <= j < |r| ensures WellFormed(r[j].value) {
        assert r[j] in r;
        var i := IndexOf(fields, r[j].key);
      }
    }
  }

  /** Values that are equal up to key order have one normal form. */
  lemma {:induction false} SameNormalForm<N(!new)>(v: Json<N>, w: Json<N>)
    requires WellFormed(v) && WellFormed(w) && Same(v, w)
    ensures Normalize(v) == Normalize(w)
    decreases v
  {
    match v {
      case Arr(items) =>
        forall i | 0 <= i < |items| ensures Normalize(items[i]) == Normalize(w.items[i]) { SameNormalForm(items[i], w.items[i]); }
        SameItemsNormal(items, w.items);
      case Obj(fields) =>
        forall i, j | 0 <= i < |fields| && 0 <= j < |w.fields| && fields[i].key == w.fields[j].key
          ensures Normalize(fields[i].value) == Normalize(w.fields[j].value)
        {
          SameNormalForm(fields[i].value, w.fields[j].value);
        }
        SameKeysSameOrder(fields, w.fields);
        SameFieldsNormal(fields, w.fields, SortedKeys(fields));
      case _ =>
    }
  }

  lemma SameItemsNormal<N>(xs: seq<Json<N>>, ys: seq<Json<N>>)
    requires |xs| == |ys| && forall i | 0 <= i < |xs| :: Normalize(xs[i]) == Normalize(ys[i])
    ensures NormalizeItems(xs) == NormalizeItems(ys)
  {
    hide Normalize;
    var a, b := NormalizeItems(xs), NormalizeItems(ys);
    if a.Ok? && b.Ok? {
      forall i | 0 <= i < |xs| ensures a.value[i] == b.value[i] { assert Ok(a.value[i]) == Ok(b.value[i]); }
    }
  }

  lemma {:induction false} SameFieldsNormal<N>(xs: seq<Field<N>>, ys: seq<Field<N>>, keys: seq<Text>)
    requires forall k | k in keys :: HasKey(xs, k) && HasKey(ys, k)
    requires forall i, j | 0 <= i < |xs| && 0 <= j < |ys| && xs[i].key == ys[j].key :: Normalize(xs[i].value) == Normalize(ys[j].value)
    ensures NormalizeFields(xs, keys) == NormalizeFields(ys, keys)
    decreases |keys|
  {
    hide Normalize, AssignProperty, HasKey, IndexOf;
    if keys != [] {
      FrontLast(keys);
      SameFieldsNormal(xs, ys, keys[..|keys| - 1]);
    }
  }

  lemma {:induction false} SameStaysJson<N>(v: Json<N>, w: Json<N>)
    requires IsJson(v) && Same(v, w)
    ensures IsJson(w)
    decreases v
  {
    match v {
      case Arr(items) => forall i | 0 <= i < |items| ensures IsJson(w.items[i]) { SameStaysJson(items[i], w.items[i]); }
      case Obj(fields) =>
        forall j | 0 <= j < |w.fields| ensures IsJson(w.fields[j].value) {
          assert HasKey(w.fields, w.fields[j].key);
          var i := IndexOf(fields, w.fields[j].key);
          SameStaysJson(fields[i].value, w.fields[j].value);
        }
      case _ =>
    }
  }

  /** Envelope normalization is idempotent and does not change the canonical text. */
  lemma NormalizationKeepsText<N(!new)>(f: NumberFormat<N>, v: Json<N>)
    requires Faithful(f) && WellFormed(v) && Normalize(v).Ok?
    ensures Normalize(Normalize(v).value) == Normalize(v)
    ensures CanonicalText(f, Normalize(v).value) == CanonicalText(f, v)
  {
    hide Faithful, WellFormed, IsJson, Same, CanonicalText, NoProto, Normalize;
    var n := Normalize(v).value;
    NormalizeSpec(v);
    SameNormalForm(v, n);
    SameStaysJson(v, n);
    CanonicalTextDeterminesValue(f, v, n);
  }

  /** Two normalizable values have one normal form exactly when they are equal up to key order. */
  lemma NormalFormsEqualIffSame<N(!new)>(v: Json<N>, w: Json<N>)
    requires WellFormed(v) && WellFormed(w) && Normalize(v).Ok? && Normalize(w).Ok?
    ensures Normalize(v) == Normalize(w) <==> Same(v, w)
  {
    hide WellFormed, IsJson, Same, NoProto, Normalize, Canon;
    if Same(v, w) { SameNormalForm(v, w); }
    if Normalize(v) == Normalize(w) {
      NormalizeSpec(v);
      NormalizeSpec(w);
      CanonEqualIffSame(v, Normalize(v).value);
      CanonEqualIffSame(w, Normalize(w).value);
      CanonEqualIffSame(v, w);
    }
  }

  // ---- the order of fields ------------------------------------------------------------------------------

  /** The decimal text of a number below the largest array index. */
  ghost predicate Numeral(t: Text, n: nat) { n < 4294967295 && t == Digits(n) }

  /** One key enumerates before another: numerals first, by number, then the other keys in the order of their code units. */
  ghost predicate EnumeratesBefore(a: Text, b: Text) {
    || (exists m, n :: Numeral(a, m) && Numeral(b, n) && m < n)
    || (exists m :: Numeral(a, m) && forall n :: !Numeral(b, n))
    || ((forall m :: !Numeral(a, m)) && (forall n :: !Numeral(b, n)) && ComesBefore(a, b))
  }

  lemma {:induction false} DigitsValue(n: nat)
    ensures DecimalValue(Digits(n)) == n && Digits(n) != [] && (Digits(n)[0] == 0x30 ==> n == 0)
    ensures forall i | 0 <= i < |Digits(n)| :: IsDigit(Digits(n)[i])
    ensures n == 0 ==> |Digits(n)| == 1
  {
    if n >= 10 {
      DigitsValue(n / 10);
      assert Digits(n)[..|Digits(n)| - 1] == Digits(n / 10);
    } else {
      assert Digits(n)[..0] == [];
    }
  }

  lemma {:induction false} ValueDigits(t: Text)
    requires t != [] && (forall i | 0 <= i < |t| :: IsDigit(t[i])) && (t[0] == 0x30 ==> |t| == 1)
    ensures DecimalValue(t) >= 0 && t == Digits(DecimalValue(t)) && (t[0] != 0x30 ==> DecimalValue(t) > 0)
  {
    var front, last := t[..|t| - 1], t[|t| - 1];
    assert t == front + [last];
    if front != [] {
      ValueDigits(front);
      assert DecimalValue(t) / 10 == DecimalValue(front) && DecimalValue(t) % 10 == last - 0x30;
    }
  }

  /** The keys that enumerate first are the numerals. */
  lemma IndexKeyIff(t: Text)
    ensures IsIndexKey(t) <==> exists n :: Numeral(t, n)
    ensures forall n | Numeral(t, n) :: DecimalValue(t) == n
  {
    if IsIndexKey(t) {
      ValueDigits(t);
      assert Numeral(t, DecimalValue(t));
    }
    forall n: nat | Numeral(t, n) ensures IsIndexKey(t) && DecimalValue(t) == n { DigitsValue(n); }
  }

  /** The order by the tests of the loop. */
  predicate Precedes(a: Text, b: Text) {
    if IsIndexKey(a) then !IsIndexKey(b) || DecimalValue(a) < DecimalValue(b)
    else !IsIndexKey(b) && TextLess(a, b)
  }

  lemma PrecedesIff(a: Text, b: Text)
    ensures Precedes(a, b) <==> EnumeratesBefore(a, b)
  {
    hide IsIndexKey, DecimalValue, Numeral, TextLess, ComesBefore;
    IndexKeyIff(a);
    IndexKeyIff(b);
    TextLessIff(a, b);
    if m, n :| IsIndexKey(a) && IsIndexKey(b) && Numeral(a, m) && Numeral(b, n) {
      assert DecimalValue(a) == m && DecimalValue(b) == n;
    }
  }

  ghost predicate Ordered<N>(fields: seq<Field<N>>) {
    forall i, j | 0 <= i < j < |fields| :: Precedes(fields[i].key, fields[j].key)
  }

  lemma {:induction false} InsertKeepsOrder<N>(fields: seq<Field<N>>, field: Field<N>)
    requires Ordered(fields) && IsIndexKey(field.key)
    requires forall x | x in fields && IsIndexKey(x.key) :: DecimalValue(x.key) != DecimalValue(field.key)
    ensures Ordered(InsertIndexKey(fields, field))
  {
    hide IsIndexKey, DecimalValue, TextLess;
    var r := InsertIndexKey(fields, field);
    if fields == [] || !IsIndexKey(fields[0].key) || DecimalValue(field.key) < DecimalValue(fields[0].key) {
      forall j | 0 <= j < |fields| ensures Precedes(field.key, fields[j].key) {
        if j > 0 { assert Precedes(fields[0].key, fields[j].key); }
      }
    } else {
      var rest := fields[1..];
      assert forall j | 0 <= j < |rest| :: rest[j] == fields[j + 1];
      InsertKeepsOrder(rest, field);
      var tail := InsertIndexKey(rest, field);
      forall j | 0 <= j < |tail| ensures Precedes(fields[0].key, tail[j].key) {
        assert tail[j] in tail;
        if tail[j] in rest {
          var k :| 0 <= k < |rest| && rest[k] == tail[j];
          assert Precedes(fields[0].key, fields[k + 1].key);
        } else {
          assert fields[0] in fields;
        }
      }
    }
  }

  lemma AssignKeepsOrder<N>(fields: seq<Field<N>>, field: Field<N>)
    requires Ordered(fields) && !HasKey(fields, field.key)
    requires forall x | x in fields :: TextLess(x.key, field.key)
    ensures Ordered(AssignProperty(fields, field))
  {
    hide TextLess, InsertIndexKey;
    if IsIndexKey(field.key) {
      forall x | x in fields && IsIndexKey(x.key) ensures DecimalValue(x.key) != DecimalValue(field.key) {
        IndexKeyIff(x.key);
        IndexKeyIff(field.key);
      }
      InsertKeepsOrder(fields, field);
    } else {
      forall i | 0 <= i < |fields| ensures Precedes(fields[i].key, field.key) { assert fields[i] in fields; }
    }
  }

  lemma {:induction false} BuiltInOrder<N>(fields: seq<Field<N>>, keys: seq<Text>)
    requires (forall k | k in keys :: HasKey(fields, k)) && NoDuplicates(keys) && Ascending(TextLess, keys)
    requires NormalizeFields(fields, keys).Ok?
    ensures Ordered(NormalizeFields(fields, keys).value)
    decreases |keys|
  {
    hide AssignProperty, Precedes, TextLess, HasKey, Normalize, IndexOf;
    if keys != [] {
      var front, last := keys[..|keys| - 1], keys[|keys| - 1];
      FrontLast(keys);
      NormalizeFieldsNext(fields, front, last);
      NormalizeFieldsSpec(fields, front);
      BuiltInOrder(fields, front);
      var built := NormalizeFields(fields, front).value;
      forall x | x in built ensures TextLess(x.key, last) {
        KeyThere(built, x);
        var k :| 0 <= k < |front| && front[k] == x.key;
        assert keys[k] == x.key;
      }
      assert last !in front;
      AssignKeepsOrder(built, Field(last, Normalize(fields[IndexOf(fields, last)].value).value));
    }
  }

  lemma KeyThere<N>(fields: seq<Field<N>>, x: Field<N>)
    requires x in fields
    ensures HasKey(fields, x.key)
  {
  }

  /** In every object of the value, at any depth, fields stand in the order of enumeration. */
  ghost predicate EnumeratesInOrder<N>(v: Json<N>)
    decreases v
  {
    match v
    case Arr(items) => forall i | 0 <= i < |items| :: EnumeratesInOrder(items[i])
    case Obj(fields) =>
      && (forall i, j | 0 <= i < j < |fields| :: EnumeratesBefore(fields[i].key, fields[j].key))
      && forall i | 0 <= i < |fields| :: EnumeratesInOrder(fields[i].value)
    case _ => true
  }

  /** A normal form enumerates numeric keys first, by number, and then the other keys by their code units. */
  lemma {:induction false} NormalFormEnumerates<N>(v: Json<N>)
    requires WellFormed(v) && Normalize(v).Ok?
    ensures EnumeratesInOrder(Normalize(v).value)
    decreases v
  {
    hide EnumeratesBefore;
    match v {
      case Arr(items) =>
        forall i | 0 <= i < |items| ensures EnumeratesInOrder(Normalize(v).value.items[i]) {
          NormalFormEnumerates(items[i]);
          assert Ok(Normalize(v).value.items[i]) == Normalize(items[i]);
        }
      case Obj(fields) =>
        NormalObjectOrdered(fields);
        var r := Normalize(v).value.fields;
        forall i | 0 <= i < |r| ensures EnumeratesInOrder(r[i].value) {
          var k := NormalFieldFrom(fields, i);
          NormalFormEnumerates(fields[k].value);
        }
      case _ =>
    }
  }

  lemma NormalFieldFrom<N>(fields: seq<Field<N>>, i: nat) returns (k: nat)
    requires NoDuplicates(Keys(fields)) && Normalize(Obj(fields)).Ok? && i < |Normalize(Obj(fields)).value.fields|
    ensures k < |fields| && Normalize(fields[k].value) == Ok(Normalize(Obj(fields)).value.fields[i].value)
  {
    hide SortedKeys, Keys, IndexOf, HasKey, NormalizeFields;
    var keys := SortedKeys(fields);
    SortedKeysDistinct(fields);
    NormalizeFieldsSpec(fields, keys);
    var x := Normalize(Obj(fields)).value.fields[i];
    assert x in NormalizeFields(fields, keys).value;
    k := IndexOf(fields, x.key);
  }

  lemma NormalObjectOrdered<N>(fields: seq<Field<N>>)
    requires NoDuplicates(Keys(fields)) && Normalize(Obj(fields)).Ok?
    ensures var r := Normalize(Obj(fields)).value.fields;
            forall i, j | 0 <= i < j < |r| :: EnumeratesBefore(r[i].key, r[j].key)
  {
    hide TextLess, Keys, Precedes, EnumeratesBefore, NormalizeFields, HasKey;
    var keys := SortedKeys(fields);
    TextLessTotal();
    SortedKeysDistinct(fields);
    SortAscends(TextLess, Keys(fields));
    BuiltInOrder(fields, keys);
    forall a: Text, b: Text ensures Precedes(a, b) <==> EnumeratesBefore(a, b) { PrecedesIff(a, b); }
  }

  // ---- envelopes ------------------------------------------------------------------------------------

  /** An envelope whose text fields have been validated. */
  datatype RawEnvelope<N> = RawEnvelope(
    id: Text, schema: Text, version: N, kind: Text, communityId: Text, occurredAt: Text, authorId: Text, payload: Json<N>)

  const ID_KEY: Text := [0x69, 0x64]
  const SCHEMA_KEY: Text := [0x73, 0x63, 0x68, 0x65, 0x6D, 0x61]
  const VERSION_KEY: Text := [0x76, 0x65, 0x72, 0x73, 0x69, 0x6F, 0x6E]
  const KIND_KEY: Text := [0x6B, 0x69, 0x6E, 0x64]
  const COMMUNITY_KEY: Text := [0x63, 0x6F, 0x6D, 0x6D, 0x75, 0x6E, 0x69, 0x74, 0x79, 0x49, 0x64]
  const OCCURRED_KEY: Text := [0x6F, 0x63, 0x63, 0x75, 0x72, 0x72, 0x65, 0x64, 0x41, 0x74]
  const AUTHOR_KEY: Text := [0x61, 0x75, 0x74, 0x68, 0x6F, 0x72, 0x49, 0x64]
  const PAYLOAD_KEY: Text := [0x70, 0x61, 0x79, 0x6C, 0x6F, 0x61, 0x64]

  lemma KeysSpelled()
    ensures ID_KEY == Units("id") && SCHEMA_KEY == Units("schema") && VERSION_KEY == Units("version") && KIND_KEY == Units("kind")
    ensures COMMUNITY_KEY == Units("communityId") && OCCURRED_KEY == Units("occurredAt") && AUTHOR_KEY == Units("authorId")
    ensures PAYLOAD_KEY == Units("payload") && PROTO == Units("__proto__")
  {
  }

  function EnvelopeValue<N>(e: RawEnvelope<N>, payload: Json<N>): Json<N> {
    Obj([Field(ID_KEY, Str(e.id)), Field(SCHEMA_KEY, Str(e.schema)), Field(VERSION_KEY, Num(e.version)), Field(KIND_KEY, Str(e.kind)),
         Field(COMMUNITY_KEY, Str(e.communityId)), Field(OCCURRED_KEY, Str(e.occurredAt)), Field(AUTHOR_KEY, Str(e.authorId)),
         Field(PAYLOAD_KEY, payload)])
  }

  /** `canonicalRecordEnvelope`. */
  function CanonicalRecordEnvelope<N>(f: NumberFormat<N>, e: RawEnvelope<N>): Result<Text> {
    var payload :- Normalize(e.payload);
    Ok(Stringify(f, EnvelopeValue(e, payload)))
  }

  lemma EnvelopeValueJson<N>(e: RawEnvelope<N>, payload: Json<N>)
    requires IsJson(payload)
    ensures IsJson(EnvelopeValue(e, payload))
  {
  }

  lemma EnvelopeValueFields<N>(d: RawEnvelope<N>, e: RawEnvelope<N>, p: Json<N>, q: Json<N>)
    requires EnvelopeValue(d, p) == EnvelopeValue(e, q)
    ensures p == q && d.(payload := e.payload) == e
  {
    var x, y := EnvelopeValue(d, p).fields, EnvelopeValue(e, q).fields;
    assert forall i | 0 <= i < 8 :: x[i].value == y[i].value;
    assert x[0].value == Str(d.id) && x[1].value == Str(d.schema) && x[2].value == Num(d.version) && x[3].value == Str(d.kind)
      && x[4].value == Str(d.communityId) && x[5].value == Str(d.occurredAt) && x[6].value == Str(d.authorId) && x[7].value == p;
  }

  /** Two envelopes compare equal exactly when their terms are equal, payloads up to key order: one id
      with two different terms is always noticed, and key order alone never is. */
  lemma EnvelopeTextDeterminesTerms<N(!new)>(f: NumberFormat<N>, d: RawEnvelope<N>, e: RawEnvelope<N>)
    requires Faithful(f) && WellFormed(d.payload) && WellFormed(e.payload)
    requires CanonicalRecordEnvelope(f, d).Ok? && CanonicalRecordEnvelope(f, e).Ok?
    ensures CanonicalRecordEnvelope(f, d) == CanonicalRecordEnvelope(f, e) <==>
              d.(payload := e.payload) == e && Same(d.payload, e.payload)
  {
    hide Faithful, WellFormed, IsJson, Same, NoProto, Normalize, Stringify, EnvelopeValue;
    var p, q := Normalize(d.payload).value, Normalize(e.payload).value;
    NormalizeSpec(d.payload);
    NormalizeSpec(e.payload);
    SameStaysJson(d.payload, p);
    SameStaysJson(e.payload, q);
    NormalFormsEqualIffSame(d.payload, e.payload);
    EnvelopeValueJson(d, p);
    EnvelopeValueJson(e, q);
    ParseStringify(f, EnvelopeValue(d, p));
    ParseStringify(f, EnvelopeValue(e, q));
    if EnvelopeValue(d, p) == EnvelopeValue(e, q) { EnvelopeValueFields(d, e, p, q); }
    if d.(payload := e.payload) == e && p == q { SameHeader(d, e, p); }
  }

  lemma SameHeader<N>(d: RawEnvelope<N>, e: RawEnvelope<N>, p: Json<N>)
    requires d.(payload := e.payload) == e
    ensures EnvelopeValue(d, p) == EnvelopeValue(e, p)
  {
  }
}

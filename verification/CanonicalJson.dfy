/** The canonical text that digests and receipt signatures are computed over, and the normal form that
    record payloads are kept in. */
module CanonicalJson {
  import opened Core
  import opened Sorting
  import opened JsonText

  // ---- the order of keys ----------------------------------------------------------------------------

  /** The order of `Array.prototype.sort` on strings: by UTF-16 code units. */
  predicate TextLess(a: Text, b: Text) {
    b != [] && (a == [] || a[0] < b[0] || (a[0] == b[0] && TextLess(a[1..], b[1..])))
  }

  lemma {:induction false} TextLessTransitive(a: Text, b: Text, c: Text)
    requires TextLess(a, b) && TextLess(b, c)
    ensures TextLess(a, c)
  {
    if a != [] && a[0] == b[0] && b[0] == c[0] {
      TextLessTransitive(a[1..], b[1..], c[1..]);
    }
  }

  lemma {:induction false} TextLessCompares(a: Text, b: Text)
    ensures !TextLess(a, a)
    ensures a != b ==> TextLess(a, b) || TextLess(b, a)
  {
    if a != [] {
      TextLessCompares(a[1..], if b == [] then [] else b[1..]);
      if b != [] && a[0] == b[0] && a != b {
        assert a == [a[0]] + a[1..] && b == [b[0]] + b[1..];
      }
    }
  }

  lemma TextLessTotal()
    ensures StrictTotalOrder(TextLess)
  {
    forall a: Text, b: Text, c: Text | TextLess(a, b) && TextLess(b, c)
      ensures TextLess(a, c)
    {
      TextLessTransitive(a, b, c);
    }
    forall a: Text, b: Text
      ensures !TextLess(a, a) && (a != b ==> TextLess(a, b) || TextLess(b, a))
    {
      TextLessCompares(a, b);
    }
  }

  /** One text comes before another when it is the beginning of it, or has the smaller code unit where they first differ. */
  ghost predicate ComesBefore(a: Text, b: Text) {
    || a < b
    || exists i :: DiffersFirst(a, b, i) && a[i] < b[i]
  }

  ghost predicate DiffersFirst(a: Text, b: Text, i: int) {
    0 <= i < |a| && i < |b| && a[i] != b[i] && forall k | 0 <= k < i :: a[k] == b[k]
  }

  lemma {:induction false} TextLessIff(a: Text, b: Text)
    ensures TextLess(a, b) <==> ComesBefore(a, b)
  {
    if a != [] && b != [] && a[0] == b[0] {
      TextLessIff(a[1..], b[1..]);
      assert a == [a[0]] + a[1..] && b == [b[0]] + b[1..];
      PrefixOfRest(a, b);
      forall i
        ensures DiffersFirst(a, b, i) <==> DiffersFirst(a[1..], b[1..], i - 1)
      {
        if DiffersFirst(a[1..], b[1..], i - 1) {
          assert forall k | 1 <= k < i :: a[k] == a[1..][k - 1] && b[k] == b[1..][k - 1];
        }
      }
      if i :| DiffersFirst(a[1..], b[1..], i) && a[1..][i] < b[1..][i] { assert DiffersFirst(a, b, i + 1); }
    } else if a != [] && b != [] {
      assert DiffersFirst(a, b, 0);
    }
  }

  lemma PrefixOfRest(a: Text, b: Text)
    requires a != [] && b != [] && a[0] == b[0]
    ensures a[1..] < b[1..] <==> a < b
  {
    if a[1..] < b[1..] {
      assert forall k | 1 <= k < |a| :: a[k] == a[1..][k - 1] == b[1..][k - 1] == b[k];
    }
    if a < b {
      assert forall k | 0 <= k < |a| - 1 :: a[1..][k] == a[k + 1] == b[k + 1] == b[1..][k];
    }
  }

  // ---- objects --------------------------------------------------------------------------------------

  function KeyOf<N>(field: Field<N>): Text { field.key }

  function Keys<N>(fields: seq<Field<N>>): seq<Text> { Map(fields, (field: Field<N>) => KeyOf(field)) }

  function SortedKeys<N>(fields: seq<Field<N>>): (r: seq<Text>)
    ensures forall k | k in r :: HasKey(fields, k)
  {
    SortElements(TextLess, Keys(fields));
    Sort(TextLess, Keys(fields))
  }

  predicate HasKey<N>(fields: seq<Field<N>>, key: Text) {
    exists i :: 0 <= i < |fields| && fields[i].key == key
  }

  function IndexOf<N>(fields: seq<Field<N>>, key: Text): (i: nat)
    requires HasKey(fields, key)
    ensures i < |fields| && fields[i].key == key
  {
    if fields[0].key == key then 0
    else
      assert forall i | 1 <= i < |fields| :: fields[1..][i - 1] == fields[i];
      1 + IndexOf(fields[1..], key)
  }

  /** No object of the value has one key twice. */
  ghost predicate WellFormed<N>(v: Json<N>)
    decreases v
  {
    match v
    case Arr(items) => forall i | 0 <= i < |items| :: WellFormed(items[i])
    case Obj(fields) => NoDuplicates(Keys(fields)) && forall i | 0 <= i < |fields| :: WellFormed(fields[i].value)
    case _ => true
  }

  /** Equal up to the order of object keys, at every depth. */
  ghost predicate Same<N>(v: Json<N>, w: Json<N>)
    decreases v
  {
    match v
    case Arr(items) =>
      w.Arr? && |items| == |w.items| && forall i | 0 <= i < |items| :: Same(items[i], w.items[i])
    case Obj(fields) =>
      && w.Obj?
      && (forall k :: HasKey(fields, k) <==> HasKey(w.fields, k))
      && forall i, j | 0 <= i < |fields| && 0 <= j < |w.fields| && fields[i].key == w.fields[j].key ::
           Same(fields[i].value, w.fields[j].value)
    case _ => v == w
  }

  lemma KeyUnique<N>(fields: seq<Field<N>>, i: nat)
    requires NoDuplicates(Keys(fields)) && i < |fields|
    ensures IndexOf(fields, fields[i].key) == i
  {
    var j := IndexOf(fields, fields[i].key);
    assert Keys(fields)[i] == Keys(fields)[j];
  }

  lemma KeyMembers<N>(fields: seq<Field<N>>)
    ensures forall k :: k in Keys(fields) <==> HasKey(fields, k)
    ensures forall k :: k in SortedKeys(fields) <==> HasKey(fields, k)
  {
    SortElements(TextLess, Keys(fields));
    forall k
      ensures k in Keys(fields) <==> HasKey(fields, k)
    {
      if k in Keys(fields) {
        var i :| 0 <= i < |fields| && Keys(fields)[i] == k;
      }
      if i :| 0 <= i < |fields| && fields[i].key == k { assert Keys(fields)[i] == k; }
    }
  }

  lemma SameKeysSameOrder<N>(xs: seq<Field<N>>, ys: seq<Field<N>>)
    requires NoDuplicates(Keys(xs)) && NoDuplicates(Keys(ys))
    requires forall k :: HasKey(xs, k) <==> HasKey(ys, k)
    ensures SortedKeys(xs) == SortedKeys(ys)
  {
    hide TextLess, HasKey, Keys;
    TextLessTotal();
    KeyMembers(xs);
    KeyMembers(ys);
    SortDeterminedBySet(TextLess, Keys(xs), Keys(ys));
  }

  // ---- canonical text -------------------------------------------------------------------------------

  /** `canonicalJson`: sorted keys at every depth, and a failure on anything that is not JSON. */
  function CanonicalText<N>(f: NumberFormat<N>, v: Json<N>): Result<Text>
    decreases v, 0
  {
    match v
    case Arr(items) =>
      var inner :- CanonicalItems(f, items);
      Ok([OPEN_BRACKET] + inner + [CLOSE_BRACKET])
    case Obj(fields) =>
      var inner :- CanonicalFields(f, fields, SortedKeys(fields));
      Ok([OPEN_BRACE] + inner + [CLOSE_BRACE])
    case Foreign => Error
    case _ => Ok(Stringify(f, v))
  }

  function CanonicalItems<N>(f: NumberFormat<N>, items: seq<Json<N>>): Result<Text>
    decreases items, 0
  {
    if items == [] then Ok([])
    else
      var first :- CanonicalText(f, items[0]);
      if |items| == 1 then Ok(first)
      else
        var more :- CanonicalItems(f, items[1..]);
        Ok(first + [COMMA] + more)
  }

  function CanonicalFields<N>(f: NumberFormat<N>, fields: seq<Field<N>>, keys: seq<Text>): Result<Text>
    requires forall k | k in keys :: HasKey(fields, k)
    decreases fields, |keys|
  {
    if keys == [] then Ok([])
    else
      var text :- CanonicalText(f, fields[IndexOf(fields, keys[0])].value);
      var first := Quote(keys[0]) + [COLON] + text;
      if |keys| == 1 then Ok(first)
      else
        var more :- CanonicalFields(f, fields, keys[1..]);
        Ok(first + [COMMA] + more)
  }

  /** The value with the keys of every object sorted. */
  function Canon<N>(v: Json<N>): Json<N>
    decreases v, 0
  {
    match v
    case Arr(items) => Arr(CanonItems(items))
    case Obj(fields) => Obj(CanonFields(fields, SortedKeys(fields)))
    case _ => v
  }

  function CanonItems<N>(items: seq<Json<N>>): (r: seq<Json<N>>)
    ensures |r| == |items| && forall i | 0 <= i < |items| :: r[i] == Canon(items[i])
    decreases items, 0
  {
    if items == [] then [] else [Canon(items[0])] + CanonItems(items[1..])
  }

  function CanonFields<N>(fields: seq<Field<N>>, keys: seq<Text>): (r: seq<Field<N>>)
    requires forall k | k in keys :: HasKey(fields, k)
    ensures |r| == |keys|
    ensures forall i | 0 <= i < |keys| :: r[i] == Field(keys[i], Canon(fields[IndexOf(fields, keys[i])].value))
    decreases fields, |keys|
  {
    if keys == [] then []
    else [Field(keys[0], Canon(fields[IndexOf(fields, keys[0])].value))] + CanonFields(fields, keys[1..])
  }

  lemma FieldVisited<N>(fields: seq<Field<N>>, i: nat) returns (p: nat)
    requires NoDuplicates(Keys(fields)) && i < |fields|
    ensures p < |SortedKeys(fields)| && IndexOf(fields, SortedKeys(fields)[p]) == i
  {
    hide TextLess, Keys;
    KeyMembers(fields);
    HasOwnKey(fields, i);
    p :| 0 <= p < |SortedKeys(fields)| && SortedKeys(fields)[p] == fields[i].key;
    KeyUnique(fields, i);
  }

  /** Going over the sorted keys goes over every field. */
  lemma EveryFieldVisited<N>(fields: seq<Field<N>>)
    requires NoDuplicates(Keys(fields))
    ensures (forall p | 0 <= p < |SortedKeys(fields)| :: IsJson(fields[IndexOf(fields, SortedKeys(fields)[p])].value))
       <==> forall i | 0 <= i < |fields| :: IsJson(fields[i].value)
  {
    hide TextLess, Keys, IsJson, SortedKeys, HasKey, IndexOf;
    if forall p | 0 <= p < |SortedKeys(fields)| :: IsJson(fields[IndexOf(fields, SortedKeys(fields)[p])].value) {
      forall i | 0 <= i < |fields| ensures IsJson(fields[i].value) { var p := FieldVisited(fields, i); }
    }
  }

  /** Canonical text is `JSON.stringify` of the key-sorted value, and fails exactly outside JSON. */
  lemma {:induction false} CanonicalTextOfCanon<N>(f: NumberFormat<N>, v: Json<N>)
    requires WellFormed(v)
    ensures CanonicalText(f, v) == if IsJson(v) then Ok(Stringify(f, Canon(v))) else Error
    decreases v, 0
  {
    hide SortedKeys, CanonFields, CanonicalFields, CanonItems, CanonicalItems, Quote;
    match v {
      case Arr(items) => CanonicalItemsOfCanon(f, items);
      case Obj(fields) =>
        CanonicalFieldsOfCanon(f, fields, SortedKeys(fields));
        EveryFieldVisited(fields);
      case _ =>
    }
  }

  lemma {:induction false} CanonicalItemsOfCanon<N>(f: NumberFormat<N>, items: seq<Json<N>>)
    requires forall i | 0 <= i < |items| :: WellFormed(items[i])
    ensures CanonicalItems(f, items) ==
            if forall i | 0 <= i < |items| :: IsJson(items[i]) then Ok(StringifyItems(f, CanonItems(items))) else Error
    decreases items, 0
  {
    hide CanonicalText, Stringify, IsJson, WellFormed, Canon;
    if items != [] {
      CanonicalTextOfCanon(f, items[0]);
      CanonicalItemsOfCanon(f, items[1..]);
      assert CanonItems(items)[1..] == CanonItems(items[1..]);
      assert forall i | 1 <= i < |items| :: items[1..][i - 1] == items[i];
    }
  }

  lemma {:induction false} CanonicalFieldsOfCanon<N>(f: NumberFormat<N>, fields: seq<Field<N>>, keys: seq<Text>)
    requires forall i | 0 <= i < |fields| :: WellFormed(fields[i].value)
    requires forall k | k in keys :: HasKey(fields, k)
    ensures CanonicalFields(f, fields, keys) ==
            if forall p | 0 <= p < |keys| :: IsJson(fields[IndexOf(fields, keys[p])].value)
            then Ok(StringifyFields(f, CanonFields(fields, keys))) else Error
    decreases fields, |keys|
  {
    hide CanonicalText, Stringify, IsJson, WellFormed, Canon, HasKey, IndexOf;
    if keys != [] {
      CanonicalTextOfCanon(f, fields[IndexOf(fields, keys[0])].value);
      CanonicalFieldsOfCanon(f, fields, keys[1..]);
      assert CanonFields(fields, keys)[1..] == CanonFields(fields, keys[1..]);
      assert forall p | 1 <= p < |keys| :: keys[1..][p - 1] == keys[p];
    }
  }

  /** Sorting keys forgets exactly the key order. */
  lemma {:induction false} CanonEqualIffSame<N(!new)>(v: Json<N>, w: Json<N>)
    requires WellFormed(v) && WellFormed(w)
    ensures Canon(v) == Canon(w) <==> Same(v, w)
    decreases v
  {
    if v.Arr? && w.Arr? && |v.items| == |w.items| {
      forall i | 0 <= i < |v.items|
        ensures Canon(v.items[i]) == Canon(w.items[i]) <==> Same(v.items[i], w.items[i])
      {
        CanonEqualIffSame(v.items[i], w.items[i]);
      }
      assert CanonItems(v.items) == CanonItems(w.items) <==> forall i | 0 <= i < |v.items| :: CanonItems(v.items)[i] == CanonItems(w.items)[i];
    } else if v.Arr? && w.Arr? {
      assert |CanonItems(v.items)| != |CanonItems(w.items)|;
    } else if v.Obj? && w.Obj? {
      forall i, j | 0 <= i < |v.fields| && 0 <= j < |w.fields| && v.fields[i].key == w.fields[j].key
        ensures Canon(v.fields[i].value) == Canon(w.fields[j].value) <==> Same(v.fields[i].value, w.fields[j].value)
      {
        CanonEqualIffSame(v.fields[i].value, w.fields[j].value);
      }
      if Same(v, w) { SameFieldsCanonEqual(v.fields, w.fields); }
      if Canon(v) == Canon(w) { CanonEqualFieldsSame(v.fields, w.fields); }
    }
  }

  lemma SameFieldsCanonEqual<N(!new)>(xs: seq<Field<N>>, ys: seq<Field<N>>)
    requires NoDuplicates(Keys(xs)) && NoDuplicates(Keys(ys))
    requires forall k :: HasKey(xs, k) <==> HasKey(ys, k)
    requires forall i, j | 0 <= i < |xs| && 0 <= j < |ys| && xs[i].key == ys[j].key :: Canon(xs[i].value) == Canon(ys[j].value)
    ensures CanonFields(xs, SortedKeys(xs)) == CanonFields(ys, SortedKeys(ys))
  {
    hide Canon, HasKey, Keys, SortedKeys;
    SameKeysSameOrder(xs, ys);
  }

  lemma CanonEqualFieldsSame<N(!new)>(xs: seq<Field<N>>, ys: seq<Field<N>>)
    requires NoDuplicates(Keys(xs)) && NoDuplicates(Keys(ys))
    requires CanonFields(xs, SortedKeys(xs)) == CanonFields(ys, SortedKeys(ys))
    ensures forall k :: HasKey(xs, k) <==> HasKey(ys, k)
    ensures forall i, j | 0 <= i < |xs| && 0 <= j < |ys| && xs[i].key == ys[j].key :: Canon(xs[i].value) == Canon(ys[j].value)
  {
    hide Canon, Keys, SortedKeys, HasKey, IndexOf, NoDuplicates;
    var kx, ky := SortedKeys(xs), SortedKeys(ys);
    var cx, cy := CanonFields(xs, kx), CanonFields(ys, ky);
    SameCanonKeys(xs, ys);
    KeyMembers(xs);
    KeyMembers(ys);
    forall i, j | 0 <= i < |xs| && 0 <= j < |ys| && xs[i].key == ys[j].key
      ensures Canon(xs[i].value) == Canon(ys[j].value)
    {
      KeyUnique(xs, i);
      KeyUnique(ys, j);
      HasOwnKey(xs, i);
      var p :| 0 <= p < |kx| && kx[p] == xs[i].key;
      assert cx[p].value == cy[p].value;
    }
  }

  lemma SameCanonKeys<N(!new)>(xs: seq<Field<N>>, ys: seq<Field<N>>)
    requires CanonFields(xs, SortedKeys(xs)) == CanonFields(ys, SortedKeys(ys))
    ensures SortedKeys(xs) == SortedKeys(ys)
  {
    hide Canon, Keys, SortedKeys, HasKey, IndexOf;
    var kx, ky := SortedKeys(xs), SortedKeys(ys);
    var cx, cy := CanonFields(xs, kx), CanonFields(ys, ky);
    assert |kx| == |ky|;
    forall p | 0 <= p < |kx| ensures kx[p] == ky[p] { assert cx[p].key == kx[p] && cy[p].key == ky[p]; }
  }

  lemma HasOwnKey<N>(fields: seq<Field<N>>, i: nat)
    requires i < |fields|
    ensures HasKey(fields, fields[i].key)
  {
  }

  lemma {:induction false} CanonStaysJson<N>(v: Json<N>)
    requires IsJson(v)
    ensures IsJson(Canon(v))
    decreases v
  {
    if v.Arr? {
      forall i | 0 <= i < |v.items| ensures IsJson(Canon(v.items[i])) { CanonStaysJson(v.items[i]); }
    } else if v.Obj? {
      forall i | 0 <= i < |v.fields| ensures IsJson(Canon(v.fields[i].value)) { CanonStaysJson(v.fields[i].value); }
    }
  }

  lemma {:induction false} CanonWellFormed<N>(v: Json<N>)
    requires WellFormed(v)
    ensures WellFormed(Canon(v))
    decreases v
  {
    if v.Arr? {
      forall i | 0 <= i < |v.items| ensures WellFormed(Canon(v.items[i])) { CanonWellFormed(v.items[i]); }
    } else if v.Obj? {
      forall i | 0 <= i < |v.fields| ensures WellFormed(Canon(v.fields[i].value)) { CanonWellFormed(v.fields[i].value); }
      var keys := SortedKeys(v.fields);
      SortElements(TextLess, Keys(v.fields));
      assert Keys(CanonFields(v.fields, keys)) == keys;
    }
  }

  /** Two JSON values have the same canonical text exactly when they are equal up to the order of object
      keys, so a digest of the text is a digest of the value. */
  lemma CanonicalTextDeterminesValue<N(!new)>(f: NumberFormat<N>, v: Json<N>, w: Json<N>)
    requires Faithful(f) && WellFormed(v) && WellFormed(w) && IsJson(v) && IsJson(w)
    ensures CanonicalText(f, v) == CanonicalText(f, w) <==> Same(v, w)
  {
    hide Faithful, WellFormed, IsJson, CanonicalText, Canon, Same, Stringify;
    CanonicalTextOfCanon(f, v);
    CanonicalTextOfCanon(f, w);
    CanonStaysJson(v);
    CanonStaysJson(w);
    ParseStringify(f, Canon(v));
    ParseStringify(f, Canon(w));
    CanonEqualIffSame(v, w);
  }

  /** `JSON.parse` of the canonical text gives the value back up to the order of its keys. */
  lemma CanonicalTextReadsBack<N(!new)>(f: NumberFormat<N>, v: Json<N>)
    requires Faithful(f) && WellFormed(v)
    ensures CanonicalText(f, v).Ok? <==> IsJson(v)
    ensures IsJson(v) ==> Parse(f, CanonicalText(f, v).value).Some? && Same(Parse(f, CanonicalText(f, v).value).value, v)
  {
    hide Faithful, WellFormed, IsJson, CanonicalText, Canon, Same, Stringify, Parse;
    CanonicalTextOfCanon(f, v);
    if IsJson(v) {
      CanonStaysJson(v);
      ParseStringify(f, Canon(v));
      CanonWellFormed(v);
      CanonAgain(v);
      CanonEqualIffSame(Canon(v), v);
    }
  }

  lemma {:induction false} CanonAgain<N(!new)>(v: Json<N>)
    requires WellFormed(v)
    ensures Canon(Canon(v)) == Canon(v)
    decreases v
  {
    if v.Arr? {
      forall i | 0 <= i < |v.items| ensures Canon(Canon(v.items[i])) == Canon(v.items[i]) { CanonAgain(v.items[i]); }
      assert CanonItems(CanonItems(v.items)) == CanonItems(v.items);
    } else if v.Obj? {
      forall i | 0 <= i < |v.fields|
        ensures Canon(Canon(v.fields[i].value)) == Canon(v.fields[i].value)
      {
        CanonAgain(v.fields[i].value);
      }
      CanonFieldsAgain(v.fields);
    }
  }

  lemma CanonFieldsAgain<N(!new)>(fields: seq<Field<N>>)
    requires NoDuplicates(Keys(fields))
    requires forall i | 0 <= i < |fields| :: Canon(Canon(fields[i].value)) == Canon(fields[i].value)
    ensures var c := CanonFields(fields, SortedKeys(fields)); CanonFields(c, SortedKeys(c)) == c
  {
    hide Canon, SortedKeys, IndexOf, NoDuplicates, HasKey;
    var keys := SortedKeys(fields);
    var c := CanonFields(fields, keys);
    SortedKeysAgain(fields);
    assert Keys(c) == keys;
    SortedByKeys(c);
    forall i | 0 <= i < |c| ensures Canon(c[i].value) == c[i].value { var j := IndexOf(fields, keys[i]); }
    CanonFieldsFixed(c);
  }

  lemma CanonFieldsFixed<N(!new)>(c: seq<Field<N>>)
    requires NoDuplicates(Keys(c)) && forall i | 0 <= i < |c| :: Canon(c[i].value) == c[i].value
    ensures forall k | k in Keys(c) :: HasKey(c, k)
    ensures CanonFields(c, Keys(c)) == c
  {
    hide Canon, IndexOf, HasKey, NoDuplicates, Keys, TextLess;
    KeyMembers(c);
    KeyCount(c);
    var again := CanonFields(c, Keys(c));
    forall p | 0 <= p < |c| ensures again[p] == c[p] {
      KeyUnique(c, p);
      KeyAt(c, p);
    }
  }

  lemma KeyAt<N>(fields: seq<Field<N>>, i: nat)
    requires i < |fields|
    ensures |Keys(fields)| == |fields| && Keys(fields)[i] == fields[i].key
  {
  }

  lemma KeyCount<N>(fields: seq<Field<N>>)
    ensures |Keys(fields)| == |fields|
  {
  }

  lemma SortedByKeys<N>(fields: seq<Field<N>>)
    ensures SortedKeys(fields) == Sort(TextLess, Keys(fields))
  {
  }

  lemma SortedKeysAgain<N>(fields: seq<Field<N>>)
    requires NoDuplicates(Keys(fields))
    ensures NoDuplicates(SortedKeys(fields)) && Sort(TextLess, SortedKeys(fields)) == SortedKeys(fields)
  {
    hide TextLess, Keys;
    TextLessTotal();
    SortElements(TextLess, Keys(fields));
    SortAscends(TextLess, Keys(fields));
    SortOfAscending(TextLess, SortedKeys(fields));
  }

  /** In every object of the value, at any depth, keys stand in the order of their code units. */
  ghost predicate KeysAscend<N>(v: Json<N>)
    decreases v
  {
    match v
    case Arr(items) => forall i | 0 <= i < |items| :: KeysAscend(items[i])
    case Obj(fields) =>
      && (forall i, j | 0 <= i < j < |fields| :: ComesBefore(fields[i].key, fields[j].key))
      && forall i | 0 <= i < |fields| :: KeysAscend(fields[i].value)
    case _ => true
  }

  lemma {:induction false} CanonAscends<N>(v: Json<N>)
    requires WellFormed(v)
    ensures KeysAscend(Canon(v))
    decreases v
  {
    hide ComesBefore;
    match v {
      case Arr(items) => forall i | 0 <= i < |items| ensures KeysAscend(Canon(items[i])) { CanonAscends(items[i]); }
      case Obj(fields) =>
        forall i | 0 <= i < |fields| ensures KeysAscend(Canon(fields[i].value)) { CanonAscends(fields[i].value); }
        var keys := SortedKeys(fields);
        SortedKeysAscend(fields);
        var c := CanonFields(fields, keys);
        forall i, j | 0 <= i < j < |c| ensures ComesBefore(c[i].key, c[j].key) { assert c[i].key == keys[i] && c[j].key == keys[j]; }
      case _ =>
    }
  }

  lemma SortedKeysAscend<N>(fields: seq<Field<N>>)
    requires NoDuplicates(Keys(fields))
    ensures forall i, j | 0 <= i < j < |SortedKeys(fields)| :: ComesBefore(SortedKeys(fields)[i], SortedKeys(fields)[j])
  {
    hide TextLess, Keys, ComesBefore;
    TextLessTotal();
    SortAscends(TextLess, Keys(fields));
    forall a: Text, b: Text ensures TextLess(a, b) <==> ComesBefore(a, b) { TextLessIff(a, b); }
  }

  /** Canonical text is the printed form of the value with the keys of every object in order, and of nothing else. */
  lemma CanonicalTextIsSorted<N(!new)>(f: NumberFormat<N>, v: Json<N>) returns (c: Json<N>)
    requires WellFormed(v) && IsJson(v)
    ensures CanonicalText(f, v) == Ok(Stringify(f, c)) && Same(c, v) && KeysAscend(c)
  {
    hide CanonicalText, Stringify, WellFormed, IsJson, Same, KeysAscend, Canon;
    c := Canon(v);
    CanonicalTextOfCanon(f, v);
    CanonAscends(v);
    CanonWellFormed(v);
    CanonAgain(v);
    CanonEqualIffSame(c, v);
  }
}

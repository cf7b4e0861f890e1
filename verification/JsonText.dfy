/** JSON text as sections 4 to 7 of RFC 8259 define it, over UTF-16 code units as the program holds it. */
module JsonText {
  import opened Core

  /** A UTF-16 code unit. */
  type CodeUnit = n: nat | n < 0x10000

  type Text = seq<CodeUnit>

  /** A value as the program holds it. `Foreign` stands for everything that is not JSON: a number that is
      not finite, an undefined value, a function, an object of a class. The fields of an object stand in
      the order in which it enumerates them. */
  datatype Json<N> =
    | Null
    | Bool(flag: bool)
    | Num(number: N)
    | Str(text: Text)
    | Arr(items: seq<Json<N>>)
    | Obj(fields: seq<Field<N>>)
    | Foreign

  datatype Field<N> = Field(key: Text, value: Json<N>)

  /** How finite numbers are written. */
  datatype NumberFormat<!N> = NumberFormat(write: N -> Text, read: Text -> Option<N>)

  const QUOTE: CodeUnit := 0x22
  const COMMA: CodeUnit := 0x2C
  const COLON: CodeUnit := 0x3A
  const OPEN_BRACKET: CodeUnit := 0x5B
  const BACKSLASH: CodeUnit := 0x5C
  const CLOSE_BRACKET: CodeUnit := 0x5D
  const OPEN_BRACE: CodeUnit := 0x7B
  const CLOSE_BRACE: CodeUnit := 0x7D
  const NULL_TEXT: Text := [0x6E, 0x75, 0x6C, 0x6C]
  const TRUE_TEXT: Text := [0x74, 0x72, 0x75, 0x65]
  const FALSE_TEXT: Text := [0x66, 0x61, 0x6C, 0x73, 0x65]

  predicate IsDigit(c: CodeUnit) { 0x30 <= c <= 0x39 }

  /** The code units of a number: digits, signs, the decimal point and the exponent mark. */
  predicate IsNumberUnit(c: CodeUnit) { IsDigit(c) || c == 0x2B || c == 0x2D || c == 0x2E || c == 0x65 || c == 0x45 }

  /** Numbers are written as JSON numbers, and reading gives the written number back. */
  ghost predicate Faithful<N(!new)>(f: NumberFormat<N>) {
    forall n :: var t := f.write(n);
      && t != [] && (IsDigit(t[0]) || t[0] == 0x2D)
      && (forall i | 0 <= i < |t| :: IsNumberUnit(t[i]))
      && f.read(t) == Some(n)
  }

  /** Integers in decimal, as a number format. */
  function Digits(n: nat): Text {
    if n < 10 then [0x30 + n] else Digits(n / 10) + [0x30 + n % 10]
  }

  function ReadDigits(t: Text): int {
    if t == [] then 0 else ReadDigits(t[..|t| - 1]) * 10 + t[|t| - 1] - 0x30
  }

  function WriteInteger(n: int): Text { if n < 0 then [0x2D] + Digits(-n) else Digits(n) }

  function ReadInteger(t: Text): Option<int> {
    if t == [] then None else if t[0] == 0x2D then Some(-ReadDigits(t[1..])) else Some(ReadDigits(t))
  }

  lemma {:induction false} DigitsRead(n: nat)
    ensures Digits(n) != [] && (forall i | 0 <= i < |Digits(n)| :: IsDigit(Digits(n)[i]))
    ensures ReadDigits(Digits(n)) == n
  {
    if n >= 10 {
      DigitsRead(n / 10);
      assert Digits(n)[..|Digits(n)| - 1] == Digits(n / 10);
    } else {
      assert Digits(n)[..0] == [];
    }
  }

  /** Integers in decimal are written as JSON numbers that read back. */
  lemma DecimalIsFaithful()
    ensures Faithful(NumberFormat(WriteInteger, ReadInteger))
  {
    forall n: int
      ensures var t := WriteInteger(n);
              && t != [] && (IsDigit(t[0]) || t[0] == 0x2D)
              && (forall i | 0 <= i < |t| :: IsNumberUnit(t[i]))
              && ReadInteger(t) == Some(n)
    {
      DigitsRead(if n < 0 then -n else n);
      assert n < 0 ==> WriteInteger(n)[1..] == Digits(-n);
    }
  }

  // ---- strings ------------------------------------------------------------------------------------

  predicate IsLead(c: CodeUnit) { 0xD800 <= c <= 0xDBFF }

  predicate IsTrail(c: CodeUnit) { 0xDC00 <= c <= 0xDFFF }

  function HexDigit(n: nat): CodeUnit
    requires n < 16
  {
    if n < 10 then 0x30 + n else 0x61 + n - 10
  }

  function UnicodeEscape(c: CodeUnit): Text {
    [BACKSLASH, 0x75, HexDigit(c / 0x1000), HexDigit(c / 0x100 % 16), HexDigit(c / 16 % 16), HexDigit(c % 16)]
  }

  /** The letter that a control character is escaped with, if there is one. */
  function ShortEscape(c: CodeUnit): Option<CodeUnit> {
    if c == 0x08 then Some(0x62)
    else if c == 0x09 then Some(0x74)
    else if c == 0x0A then Some(0x6E)
    else if c == 0x0C then Some(0x66)
    else if c == 0x0D then Some(0x72)
    else if c == QUOTE || c == BACKSLASH then Some(c)
    else None
  }

  /** One code unit that is not half of a surrogate pair. */
  function EscapeUnit(c: CodeUnit): Text {
    if ShortEscape(c).Some? then [BACKSLASH, ShortEscape(c).value]
    else if c < 0x20 || IsLead(c) || IsTrail(c) then UnicodeEscape(c)
    else [c]
  }

  /** The characters of a string literal. A surrogate pair stands for itself; a lone half is escaped. */
  function Escape(s: Text): Text {
    if s == [] then []
    else if |s| > 1 && IsLead(s[0]) && IsTrail(s[1]) then s[..2] + Escape(s[2..])
    else EscapeUnit(s[0]) + Escape(s[1..])
  }

  function Quote(s: Text): Text { [QUOTE] + Escape(s) + [QUOTE] }

  function HexValue(c: CodeUnit): Option<nat> {
    if IsDigit(c) then Some(c - 0x30)
    else if 0x61 <= c <= 0x66 then Some(c - 0x61 + 10)
    else if 0x41 <= c <= 0x46 then Some(c - 0x41 + 10)
    else None
  }

  function ReadHex(t: Text): (r: Option<CodeUnit>)
    requires |t| == 4
  {
    var a, b, c, d := HexValue(t[0]), HexValue(t[1]), HexValue(t[2]), HexValue(t[3]);
    if a.Some? && b.Some? && c.Some? && d.Some? && a.value < 16 && b.value < 16 && c.value < 16 && d.value < 16
    then Some(a.value * 0x1000 + b.value * 0x100 + c.value * 16 + d.value)
    else None
  }

  function ReadShortEscape(c: CodeUnit): Option<CodeUnit> {
    if c == 0x62 then Some(0x08)
    else if c == 0x74 then Some(0x09)
    else if c == 0x6E then Some(0x0A)
    else if c == 0x66 then Some(0x0C)
    else if c == 0x72 then Some(0x0D)
    else if c == QUOTE || c == BACKSLASH || c == 0x2F then Some(c)
    else None
  }

  /** A string and what follows its closing quote. */
  function ReadString(t: Text): (r: Option<(Text, Text)>)
    ensures r.Some? ==> |r.value.1| < |t|
  {
    if t == [] || t[0] < 0x20 then None
    else if t[0] == QUOTE then Some(([], t[1..]))
    else if t[0] != BACKSLASH then Prepend(t[0], ReadString(t[1..]))
    else if |t| >= 6 && t[1] == 0x75 then
      (match ReadHex(t[2..6])
       case Some(c) => Prepend(c, ReadString(t[6..]))
       case None => None)
    else if |t| >= 2 && ReadShortEscape(t[1]).Some? then Prepend(ReadShortEscape(t[1]).value, ReadString(t[2..]))
    else None
  }

  function Prepend(c: CodeUnit, r: Option<(Text, Text)>): Option<(Text, Text)> {
    match r
    case Some((s, rest)) => Some(([c] + s, rest))
    case None => None
  }

  lemma ReadHexOfEscape(c: CodeUnit)
    ensures ReadHex(UnicodeEscape(c)[2..6]) == Some(c)
  {
    var a, b, d, e := c / 0x1000, c / 0x100 % 16, c / 16 % 16, c % 16;
    DigitsOf(c);
    var t := UnicodeEscape(c)[2..6];
    assert t == [HexDigit(a), HexDigit(b), HexDigit(d), HexDigit(e)];
    HexDigitValue(a);
    HexDigitValue(b);
    HexDigitValue(d);
    HexDigitValue(e);
  }

  lemma DigitsOf(c: CodeUnit)
    ensures c / 0x1000 < 16
    ensures c == c / 0x1000 * 0x1000 + c / 0x100 % 16 * 0x100 + c / 16 % 16 * 16 + c % 16
  {
    assert c / 0x100 == c / 0x1000 * 16 + c / 0x100 % 16;
    assert c / 16 == c / 0x100 * 16 + c / 16 % 16;
  }

  lemma HexDigitValue(n: nat)
    requires n < 16
    ensures HexValue(HexDigit(n)) == Some(n)
  {
  }

  lemma ReadEscapedUnit(c: CodeUnit, rest: Text)
    ensures ReadString(EscapeUnit(c) + rest) == Prepend(c, ReadString(rest))
  {
    hide ReadString;
    if ShortEscape(c).Some? {
      ReadShort(c, rest);
    } else if c < 0x20 || IsLead(c) || IsTrail(c) {
      ReadUnicode(c, rest);
    } else {
      ReadPlain(c, rest);
    }
  }

  lemma ReadShort(c: CodeUnit, rest: Text)
    requires ShortEscape(c).Some?
    ensures ReadString([BACKSLASH, ShortEscape(c).value] + rest) == Prepend(c, ReadString(rest))
  {
    var t := [BACKSLASH, ShortEscape(c).value] + rest;
    assert t[2..] == rest && t[1] != 0x75;
  }

  lemma ReadUnicode(c: CodeUnit, rest: Text)
    ensures ReadString(UnicodeEscape(c) + rest) == Prepend(c, ReadString(rest))
  {
    hide ReadHex;
    var t := UnicodeEscape(c) + rest;
    ReadHexOfEscape(c);
    assert t[2..6] == UnicodeEscape(c)[2..6] && t[6..] == rest;
  }

  lemma ReadPlain(c: CodeUnit, rest: Text)
    requires c >= 0x20 && c != QUOTE && c != BACKSLASH
    ensures ReadString([c] + rest) == Prepend(c, ReadString(rest))
  {
    assert ([c] + rest)[1..] == rest;
  }

  lemma ReadPair(a: CodeUnit, b: CodeUnit, tail: Text)
    requires IsLead(a) && IsTrail(b)
    ensures ReadString([a, b] + tail) == Prepend(a, Prepend(b, ReadString(tail)))
  {
    var t := [a, b] + tail;
    assert t[1..] == [b] + tail && ([b] + tail)[1..] == tail;
  }

  /** A quoted string reads back, whatever follows it and whatever code units it holds. */
  lemma {:induction false} ReadEscaped(s: Text, rest: Text)
    ensures ReadString(Escape(s) + [QUOTE] + rest) == Some((s, rest))
  {
    hide ReadString, EscapeUnit;
    if s == [] {
      assert Escape(s) + [QUOTE] + rest == [QUOTE] + rest;
      ReadQuote(rest);
    } else if |s| > 1 && IsLead(s[0]) && IsTrail(s[1]) {
      ReadEscaped(s[2..], rest);
      var tail := Escape(s[2..]) + [QUOTE] + rest;
      ReadPair(s[0], s[1], tail);
      assert Escape(s) + [QUOTE] + rest == [s[0], s[1]] + tail;
      assert [s[0]] + ([s[1]] + s[2..]) == s;
    } else {
      ReadEscaped(s[1..], rest);
      var tail := Escape(s[1..]) + [QUOTE] + rest;
      ReadEscapedUnit(s[0], tail);
      assert Escape(s) + [QUOTE] + rest == EscapeUnit(s[0]) + tail;
      assert [s[0]] + s[1..] == s;
    }
  }

  lemma ReadQuote(rest: Text)
    ensures ReadString([QUOTE] + rest) == Some(([], rest))
  {
    assert ([QUOTE] + rest)[1..] == rest;
  }

  /** One escaped code unit, as section 25.5.2.3 of ECMA-262 quotes it: short escapes, lower-case hexadecimal escapes for the
      other control characters and for halves of surrogate pairs, everything else as it is. */
  lemma UnitEscaped(c: CodeUnit)
    ensures var e := Escape([c]);
            match c
            case 0x08 => e == [0x5C, 0x62]
            case 0x09 => e == [0x5C, 0x74]
            case 0x0A => e == [0x5C, 0x6E]
            case 0x0C => e == [0x5C, 0x66]
            case 0x0D => e == [0x5C, 0x72]
            case 0x22 => e == [0x5C, 0x22]
            case 0x5C => e == [0x5C, 0x5C]
            case _ =>
              if c < 0x20 || 0xD800 <= c <= 0xDFFF then
                e == [0x5C, 0x75] + LowerHex(c)
              else e == [c]
  {
    hide Escape, UnicodeEscape, LowerHex;
    UnitFirst([c]);
    NothingEscaped();
    assert [c][1..] == [] && EscapeUnit(c) + [] == EscapeUnit(c);
    HexEscape(c);
  }

  lemma HexEscape(c: CodeUnit)
    ensures UnicodeEscape(c) == [0x5C, 0x75] + LowerHex(c)
  {
  }

  /** Four hexadecimal digits in lower case. */
  ghost function LowerHex(c: CodeUnit): Text {
    var digits: Text := [0x30, 0x31, 0x32, 0x33, 0x34, 0x35, 0x36, 0x37, 0x38, 0x39, 0x61, 0x62, 0x63, 0x64, 0x65, 0x66];
    [digits[c / 0x1000], digits[c / 0x100 % 16], digits[c / 0x10 % 16], digits[c % 16]]
  }

  /** A surrogate pair stands for itself. */
  lemma PairEscaped(a: CodeUnit, b: CodeUnit)
    requires 0xD800 <= a <= 0xDBFF && 0xDC00 <= b <= 0xDFFF
    ensures Escape([a, b]) == [a, b]
  {
    assert [a, b][2..] == [] && [a, b][..2] == [a, b];
  }

  /** Text is escaped piece by piece, wherever it is cut, except between the halves of a surrogate pair. */
  lemma {:induction false} EscapedByPieces(s: Text, t: Text)
    requires s == [] || t == [] || !(0xD800 <= s[|s| - 1] <= 0xDBFF) || !(0xDC00 <= t[0] <= 0xDFFF)
    ensures Escape(s + t) == Escape(s) + Escape(t)
  {
    hide EscapeUnit, Escape;
    if s == [] {
      assert s + t == t && Escape([]) == [] by { NothingEscaped(); }
    } else if |s| > 1 && IsLead(s[0]) && IsTrail(s[1]) {
      PairFirst(s);
      PairFirst(s + t);
      assert (s + t)[2..] == s[2..] + t;
      EscapedByPieces(s[2..], t);
    } else {
      UnitFirst(s);
      UnitFirst(s + t);
      assert (s + t)[1..] == s[1..] + t;
      EscapedByPieces(s[1..], t);
    }
  }

  lemma NothingEscaped()
    ensures Escape([]) == []
  {
  }

  lemma PairFirst(s: Text)
    requires |s| > 1 && IsLead(s[0]) && IsTrail(s[1])
    ensures Escape(s) == [s[0], s[1]] + Escape(s[2..])
  {
    assert s[..2] == [s[0], s[1]];
  }

  lemma UnitFirst(s: Text)
    requires s != [] && (|s| == 1 || !IsLead(s[0]) || !IsTrail(s[1]))
    ensures Escape(s) == EscapeUnit(s[0]) + Escape(s[1..])
  {
  }

  // ---- printing -----------------------------------------------------------------------------------

  /** `JSON.stringify` on a JSON value: no white space, fields in enumeration order. */
  function Stringify<N>(f: NumberFormat<N>, v: Json<N>): Text
    decreases v, 0
  {
    match v
    case Null => NULL_TEXT
    case Bool(b) => if b then TRUE_TEXT else FALSE_TEXT
    case Num(n) => f.write(n)
    case Str(s) => Quote(s)
    case Arr(items) => [OPEN_BRACKET] + StringifyItems(f, items) + [CLOSE_BRACKET]
    case Obj(fields) => [OPEN_BRACE] + StringifyFields(f, fields) + [CLOSE_BRACE]
    case Foreign => []
  }

  function StringifyItems<N>(f: NumberFormat<N>, items: seq<Json<N>>): Text
    decreases items, 1
  {
    if items == [] then []
    else if |items| == 1 then Stringify(f, items[0])
    else Stringify(f, items[0]) + [COMMA] + StringifyItems(f, items[1..])
  }

  function StringifyField<N>(f: NumberFormat<N>, field: Field<N>): Text
    decreases field, 1
  {
    Quote(field.key) + [COLON] + Stringify(f, field.value)
  }

  function StringifyFields<N>(f: NumberFormat<N>, fields: seq<Field<N>>): Text
    decreases fields, 1
  {
    if fields == [] then []
    else if |fields| == 1 then StringifyField(f, fields[0])
    else StringifyField(f, fields[0]) + [COMMA] + StringifyFields(f, fields[1..])
  }

  // ---- parsing ------------------------------------------------------------------------------------

  /** The longest prefix of number units. */
  function NumberLength(t: Text): (n: nat)
    ensures n <= |t|
  {
    if t == [] || !IsNumberUnit(t[0]) then 0 else 1 + NumberLength(t[1..])
  }

  /** A value and what follows it. */
  function ParseValue<N>(f: NumberFormat<N>, t: Text): (r: Option<(Json<N>, Text)>)
    ensures r.Some? ==> |r.value.1| < |t|
    decreases |t|, 0
  {
    if t == [] then None
    else if NULL_TEXT <= t then Some((Null, t[4..]))
    else if TRUE_TEXT <= t then Some((Bool(true), t[4..]))
    else if FALSE_TEXT <= t then Some((Bool(false), t[5..]))
    else if t[0] == QUOTE then
      (match ReadString(t[1..])
       case Some((s, rest)) => Some((Str(s), rest))
       case None => None)
    else if t[0] == OPEN_BRACKET then
      if |t| > 1 && t[1] == CLOSE_BRACKET then Some((Arr([]), t[2..]))
      else
        (match ParseItems(f, t[1..])
         case Some((items, rest)) => Some((Arr(items), rest))
         case None => None)
    else if t[0] == OPEN_BRACE then
      if |t| > 1 && t[1] == CLOSE_BRACE then Some((Obj([]), t[2..]))
      else
        (match ParseFields(f, t[1..])
         case Some((fields, rest)) => Some((Obj(fields), rest))
         case None => None)
    else
      var n := NumberLength(t);
      if n == 0 then None
      else
        match f.read(t[..n])
        case Some(number) => Some((Num(number), t[n..]))
        case None => None
  }

  /** One item or more, up to the closing bracket. */
  function ParseItems<N>(f: NumberFormat<N>, t: Text): (r: Option<(seq<Json<N>>, Text)>)
    ensures r.Some? ==> |r.value.1| < |t|
    decreases |t|, 1
  {
    match ParseValue(f, t)
    case None => None
    case Some((v, rest)) =>
      if rest == [] then None
      else if rest[0] == CLOSE_BRACKET then Some(([v], rest[1..]))
      else if rest[0] == COMMA then
        (match ParseItems(f, rest[1..])
         case Some((items, end)) => Some(([v] + items, end))
         case None => None)
      else None
  }

  /** One field. */
  function ParseField<N>(f: NumberFormat<N>, t: Text): (r: Option<(Field<N>, Text)>)
    ensures r.Some? ==> |r.value.1| < |t|
    decreases |t|, 1
  {
    if t == [] || t[0] != QUOTE then None
    else
      match ReadString(t[1..])
      case None => None
      case Some((key, rest)) =>
        if rest == [] || rest[0] != COLON then None
        else
          match ParseValue(f, rest[1..])
          case Some((v, end)) => Some((Field(key, v), end))
          case None => None
  }

  /** One field or more, up to the closing brace. */
  function ParseFields<N>(f: NumberFormat<N>, t: Text): (r: Option<(seq<Field<N>>, Text)>)
    ensures r.Some? ==> |r.value.1| < |t|
    decreases |t|, 2
  {
    match ParseField(f, t)
    case None => None
    case Some((field, rest)) =>
      if rest == [] then None
      else if rest[0] == CLOSE_BRACE then Some(([field], rest[1..]))
      else if rest[0] == COMMA then
        (match ParseFields(f, rest[1..])
         case Some((fields, end)) => Some(([field] + fields, end))
         case None => None)
      else None
  }

  /** `JSON.parse`: one value and nothing after it. Fields stay in text order. */
  function Parse<N>(f: NumberFormat<N>, t: Text): Option<Json<N>> {
    match ParseValue(f, t)
    case Some((v, rest)) => if rest == [] then Some(v) else None
    case None => None
  }

  // ---- printed text reads back --------------------------------------------------------------------

  /** No part of the value falls outside JSON. */
  predicate IsJson<N>(v: Json<N>)
    decreases v
  {
    match v
    case Arr(items) => forall i | 0 <= i < |items| :: IsJson(items[i])
    case Obj(fields) => forall i | 0 <= i < |fields| :: IsJson(fields[i].value)
    case Foreign => false
    case _ => true
  }

  /** A number's text cannot be continued by what follows it. */
  predicate EndsNumber(rest: Text) { rest == [] || !IsNumberUnit(rest[0]) }

  lemma {:induction false} NumberEnds(t: Text, rest: Text)
    requires (forall i | 0 <= i < |t| :: IsNumberUnit(t[i])) && EndsNumber(rest)
    ensures NumberLength(t + rest) == |t|
  {
    if t != [] {
      assert (t + rest)[1..] == t[1..] + rest;
      NumberEnds(t[1..], rest);
    } else {
      assert t + rest == rest;
    }
  }

  lemma ParseNumber<N(!new)>(f: NumberFormat<N>, n: N, rest: Text)
    requires Faithful(f) && EndsNumber(rest)
    ensures ParseValue(f, f.write(n) + rest) == Some((Num(n), rest))
  {
    var w := f.write(n);
    var t := w + rest;
    NumberEnds(w, rest);
    assert t[0] == w[0];
    assert t[..|w|] == w && t[|w|..] == rest;
  }

  lemma ParseWord<N>(f: NumberFormat<N>, v: Json<N>, rest: Text)
    requires v.Null? || v.Bool?
    ensures ParseValue(f, Stringify(f, v) + rest) == Some((v, rest))
  {
    var w := Stringify(f, v);
    var t := w + rest;
    assert t[0] == w[0] && w <= t && t[|w|..] == rest;
  }

  lemma ParseQuoted<N>(f: NumberFormat<N>, s: Text, rest: Text)
    ensures ParseValue(f, Quote(s) + rest) == Some((Str(s), rest))
  {
    var t := Quote(s) + rest;
    ReadEscaped(s, rest);
    assert t[0] == QUOTE && t[1..] == Escape(s) + [QUOTE] + rest;
  }

  lemma ParseArray<N>(f: NumberFormat<N>, inner: Text, items: seq<Json<N>>, rest: Text)
    requires inner != [] && inner[0] != CLOSE_BRACKET && ParseItems(f, inner) == Some((items, rest))
    ensures ParseValue(f, [OPEN_BRACKET] + inner) == Some((Arr(items), rest))
  {
    hide ParseItems;
    assert ([OPEN_BRACKET] + inner)[0] == OPEN_BRACKET && ([OPEN_BRACKET] + inner)[1..] == inner;
  }

  lemma ParseObject<N>(f: NumberFormat<N>, inner: Text, fields: seq<Field<N>>, rest: Text)
    requires inner != [] && inner[0] != CLOSE_BRACE && ParseFields(f, inner) == Some((fields, rest))
    ensures ParseValue(f, [OPEN_BRACE] + inner) == Some((Obj(fields), rest))
  {
    hide ParseFields;
    assert ([OPEN_BRACE] + inner)[0] == OPEN_BRACE && ([OPEN_BRACE] + inner)[1..] == inner;
  }

  lemma ParseEmpty<N>(f: NumberFormat<N>, rest: Text)
    ensures ParseValue(f, [OPEN_BRACKET] + [CLOSE_BRACKET] + rest) == Some((Arr([]), rest))
    ensures ParseValue(f, [OPEN_BRACE] + [CLOSE_BRACE] + rest) == Some((Obj([]), rest))
  {
    var a, o := [OPEN_BRACKET] + [CLOSE_BRACKET] + rest, [OPEN_BRACE] + [CLOSE_BRACE] + rest;
    assert a[0] == OPEN_BRACKET && a[1] == CLOSE_BRACKET && a[2..] == rest;
    assert o[0] == OPEN_BRACE && o[1] == CLOSE_BRACE && o[2..] == rest;
  }

  /** The printed text of a value does not start with a closing bracket. */
  lemma FirstUnit<N(!new)>(f: NumberFormat<N>, v: Json<N>)
    requires Faithful(f) && IsJson(v)
    ensures Stringify(f, v) != [] && Stringify(f, v)[0] != CLOSE_BRACKET
  {
    if v.Num? { assert f.write(v.number) != []; }
  }

  /** Printed text reads back to the value it was printed from, whatever follows it. */
  lemma {:induction false} ParsePrinted<N(!new)>(f: NumberFormat<N>, v: Json<N>, rest: Text)
    requires Faithful(f) && IsJson(v) && EndsNumber(rest)
    ensures ParseValue(f, Stringify(f, v) + rest) == Some((v, rest))
    decreases v, 0
  {
    hide Faithful, ParseValue;
    match v {
      case Null => ParseWord(f, v, rest);
      case Bool(b) => ParseWord(f, v, rest);
      case Num(n) => ParseNumber(f, n, rest);
      case Str(s) => ParseQuoted(f, s, rest);
      case Arr(items) => ParsePrintedArray(f, items, rest);
      case Obj(fields) => ParsePrintedObject(f, fields, rest);
    }
  }

  lemma {:induction false} ParsePrintedArray<N(!new)>(f: NumberFormat<N>, items: seq<Json<N>>, rest: Text)
    requires Faithful(f) && forall i | 0 <= i < |items| :: IsJson(items[i])
    ensures ParseValue(f, [OPEN_BRACKET] + StringifyItems(f, items) + [CLOSE_BRACKET] + rest) == Some((Arr(items), rest))
    decreases items, 2
  {
    hide Faithful, ParseValue, ParseItems, Stringify;
    var whole := [OPEN_BRACKET] + StringifyItems(f, items) + [CLOSE_BRACKET] + rest;
    if items == [] {
      ParseEmpty(f, rest);
      assert whole == [OPEN_BRACKET] + [CLOSE_BRACKET] + rest;
    } else {
      var inner := StringifyItems(f, items) + [CLOSE_BRACKET] + rest;
      ParsePrintedItems(f, items, rest);
      ItemsFirstUnit(f, items);
      ParseArray(f, inner, items, rest);
      assert whole == [OPEN_BRACKET] + inner;
    }
  }

  lemma {:induction false} ParsePrintedObject<N(!new)>(f: NumberFormat<N>, fields: seq<Field<N>>, rest: Text)
    requires Faithful(f) && forall i | 0 <= i < |fields| :: IsJson(fields[i].value)
    ensures ParseValue(f, [OPEN_BRACE] + StringifyFields(f, fields) + [CLOSE_BRACE] + rest) == Some((Obj(fields), rest))
    decreases fields, 2
  {
    hide Faithful, ParseValue, ParseFields, Stringify;
    var whole := [OPEN_BRACE] + StringifyFields(f, fields) + [CLOSE_BRACE] + rest;
    if fields == [] {
      ParseEmpty(f, rest);
      assert whole == [OPEN_BRACE] + [CLOSE_BRACE] + rest;
    } else {
      var inner := StringifyFields(f, fields) + [CLOSE_BRACE] + rest;
      ParsePrintedFields(f, fields, rest);
      FieldsFirstUnit(f, fields);
      ParseObject(f, inner, fields, rest);
      assert whole == [OPEN_BRACE] + inner;
    }
  }

  lemma FieldsFirstUnit<N>(f: NumberFormat<N>, fields: seq<Field<N>>)
    requires fields != []
    ensures StringifyFields(f, fields) != [] && StringifyFields(f, fields)[0] == QUOTE
  {
  }

  lemma ItemsEnd<N>(f: NumberFormat<N>, t: Text, v: Json<N>, rest: Text)
    requires ParseValue(f, t) == Some((v, [CLOSE_BRACKET] + rest))
    ensures ParseItems(f, t) == Some(([v], rest))
  {
    hide ParseValue;
    assert ([CLOSE_BRACKET] + rest)[1..] == rest;
  }

  lemma ItemsGoOn<N>(f: NumberFormat<N>, t: Text, v: Json<N>, more: Text, items: seq<Json<N>>, rest: Text)
    requires ParseValue(f, t) == Some((v, [COMMA] + more)) && ParseItems(f, more) == Some((items, rest))
    ensures ParseItems(f, t) == Some(([v] + items, rest))
  {
    hide ParseValue;
    assert ([COMMA] + more)[1..] == more;
  }

  lemma FieldsEnd<N>(f: NumberFormat<N>, t: Text, field: Field<N>, rest: Text)
    requires ParseField(f, t) == Some((field, [CLOSE_BRACE] + rest))
    ensures ParseFields(f, t) == Some(([field], rest))
  {
    hide ParseField;
    assert ([CLOSE_BRACE] + rest)[1..] == rest;
  }

  lemma FieldsGoOn<N>(f: NumberFormat<N>, t: Text, field: Field<N>, more: Text, fields: seq<Field<N>>, rest: Text)
    requires ParseField(f, t) == Some((field, [COMMA] + more)) && ParseFields(f, more) == Some((fields, rest))
    ensures ParseFields(f, t) == Some(([field] + fields, rest))
  {
    hide ParseField;
    assert ([COMMA] + more)[1..] == more;
  }

  lemma ItemsFirstUnit<N(!new)>(f: NumberFormat<N>, items: seq<Json<N>>)
    requires Faithful(f) && items != [] && IsJson(items[0])
    ensures StringifyItems(f, items) != [] && StringifyItems(f, items)[0] != CLOSE_BRACKET
  {
    FirstUnit(f, items[0]);
  }

  lemma {:induction false} ParsePrintedItems<N(!new)>(f: NumberFormat<N>, items: seq<Json<N>>, rest: Text)
    requires Faithful(f) && items != [] && forall i | 0 <= i < |items| :: IsJson(items[i])
    ensures ParseItems(f, StringifyItems(f, items) + [CLOSE_BRACKET] + rest) == Some((items, rest))
    decreases items, 1
  {
    hide Faithful;
    hide ParseValue, ParseItems, Stringify;
    var t := StringifyItems(f, items) + [CLOSE_BRACKET] + rest;
    var first := Stringify(f, items[0]);
    if |items| == 1 {
      ParsePrinted(f, items[0], [CLOSE_BRACKET] + rest);
      ItemsEnd(f, first + ([CLOSE_BRACKET] + rest), items[0], rest);
      assert t == first + ([CLOSE_BRACKET] + rest) && items == [items[0]];
    } else {
      var more := StringifyItems(f, items[1..]) + [CLOSE_BRACKET] + rest;
      ParsePrinted(f, items[0], [COMMA] + more);
      ParsePrintedItems(f, items[1..], rest);
      ItemsGoOn(f, first + ([COMMA] + more), items[0], more, items[1..], rest);
      assert t == first + ([COMMA] + more) && items == [items[0]] + items[1..];
    }
  }

  lemma {:induction false} ParsePrintedField<N(!new)>(f: NumberFormat<N>, field: Field<N>, rest: Text)
    requires Faithful(f) && IsJson(field.value) && EndsNumber(rest)
    ensures ParseField(f, StringifyField(f, field) + rest) == Some((field, rest))
    decreases field, 1
  {
    hide Faithful, ParseValue, Stringify, ReadString, Escape;
    var value := Stringify(f, field.value) + rest;
    ReadEscaped(field.key, [COLON] + value);
    ParsePrinted(f, field.value, rest);
    FieldParses(f, Escape(field.key) + [QUOTE] + ([COLON] + value), field.key, value, field.value, rest);
    assert StringifyField(f, field) + rest == [QUOTE] + (Escape(field.key) + [QUOTE] + ([COLON] + value));
  }

  lemma FieldParses<N>(f: NumberFormat<N>, t: Text, key: Text, after: Text, v: Json<N>, rest: Text)
    requires ReadString(t) == Some((key, [COLON] + after)) && ParseValue(f, after) == Some((v, rest))
    ensures ParseField(f, [QUOTE] + t) == Some((Field(key, v), rest))
  {
    hide ParseValue, ReadString;
    assert ([QUOTE] + t)[1..] == t && ([COLON] + after)[1..] == after;
  }

  lemma {:induction false} ParsePrintedFields<N(!new)>(f: NumberFormat<N>, fields: seq<Field<N>>, rest: Text)
    requires Faithful(f) && fields != [] && forall i | 0 <= i < |fields| :: IsJson(fields[i].value)
    ensures ParseFields(f, StringifyFields(f, fields) + [CLOSE_BRACE] + rest) == Some((fields, rest))
    decreases fields, 1
  {
    hide Faithful;
    hide ParseField, ParseFields, StringifyField;
    var t := StringifyFields(f, fields) + [CLOSE_BRACE] + rest;
    var first := StringifyField(f, fields[0]);
    if |fields| == 1 {
      ParsePrintedField(f, fields[0], [CLOSE_BRACE] + rest);
      FieldsEnd(f, first + ([CLOSE_BRACE] + rest), fields[0], rest);
      assert t == first + ([CLOSE_BRACE] + rest) && fields == [fields[0]];
    } else {
      var more := StringifyFields(f, fields[1..]) + [CLOSE_BRACE] + rest;
      ParsePrintedField(f, fields[0], [COMMA] + more);
      ParsePrintedFields(f, fields[1..], rest);
      FieldsGoOn(f, first + ([COMMA] + more), fields[0], more, fields[1..], rest);
      assert t == first + ([COMMA] + more) && fields == [fields[0]] + fields[1..];
    }
  }

  /** `JSON.parse(JSON.stringify(v))` gives the value back, field order included, so the text of a JSON
      value determines it. */
  lemma ParseStringify<N(!new)>(f: NumberFormat<N>, v: Json<N>)
    requires Faithful(f) && IsJson(v)
    ensures Parse(f, Stringify(f, v)) == Some(v)
  {
    ParsePrinted(f, v, []);
    assert Stringify(f, v) + [] == Stringify(f, v);
  }

  // ---- spelled out -----------------------------------------------------------------------------------

  /** The code units of text without characters beyond the first plane. */
  function Units(text: string): Text
    requires forall i | 0 <= i < |text| :: text[i] as int < 0x10000
  {
    seq(|text|, i requires 0 <= i < |text| => text[i] as int)
  }

  lemma PunctuationSpelled()
    ensures Units(",") == [COMMA] && Units(":") == [COLON] && Units("[") == [OPEN_BRACKET] && Units("]") == [CLOSE_BRACKET]
    ensures Units("{") == [OPEN_BRACE] && Units("}") == [CLOSE_BRACE] && Units("\"") == [QUOTE]
    ensures Units("null") == NULL_TEXT && Units("true") == TRUE_TEXT && Units("false") == FALSE_TEXT
  {
  }

  lemma ScalarsPrinted<N>(f: NumberFormat<N>, number: N, text: Text)
    ensures Stringify(f, Null) == Units("null") && Stringify(f, Bool(true)) == Units("true")
    ensures Stringify(f, Bool(false)) == Units("false") && Stringify(f, Num(number)) == f.write(number)
    ensures Stringify(f, Str(text)) == Units("\"") + Escape(text) + Units("\"")
  {
    hide Escape;
    PunctuationSpelled();
  }

  /** An array is its items between brackets, with commas between them. */
  lemma ArraysPrinted<N>(f: NumberFormat<N>, item: Json<N>, items: seq<Json<N>>)
    ensures Stringify(f, Json<N>.Arr([])) == Units("[") + Units("]")
    ensures Stringify(f, Arr([item])) == Units("[") + Stringify(f, item) + Units("]")
    ensures items != [] ==>
              Stringify(f, Arr([item] + items)) == Units("[") + Stringify(f, item) + Units(",") + Stringify(f, Arr(items))[1..]
  {
    PunctuationSpelled();
    hide Units;
    if items != [] {
      assert ([item] + items)[1..] == items;
      assert Stringify(f, Arr(items)) == [OPEN_BRACKET] + (StringifyItems(f, items) + [CLOSE_BRACKET]);
    }
  }

  /** An object is its fields between braces, with commas between them: a quoted key, a colon and the value. */
  lemma ObjectsPrinted<N>(f: NumberFormat<N>, field: Field<N>, fields: seq<Field<N>>)
    ensures Stringify(f, Json<N>.Obj([])) == Units("{") + Units("}")
    ensures Stringify(f, Obj([field])) ==
              Units("{") + Stringify(f, Json<N>.Str(field.key)) + Units(":") + Stringify(f, field.value) + Units("}")
    ensures fields != [] ==>
              Stringify(f, Obj([field] + fields)) ==
                Units("{") + Stringify(f, Json<N>.Str(field.key)) + Units(":") + Stringify(f, field.value) + Units(",")
                + Stringify(f, Obj(fields))[1..]
  {
    PunctuationSpelled();
    hide Units, Quote;
    assert Stringify(f, Json<N>.Str(field.key)) == Quote(field.key);
    assert StringifyFields(f, [field]) == StringifyField(f, field);
    if fields != [] {
      assert ([field] + fields)[1..] == fields;
      assert Stringify(f, Obj(fields)) == [OPEN_BRACE] + (StringifyFields(f, fields) + [CLOSE_BRACE]);
    }
  }
}

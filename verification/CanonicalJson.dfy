/**
 The canonical JSON text an idempotent request's body is hashed over
 (packages/backend/src/lib/idempotency.ts), with a decoder that proves it
 uniquely decodable.

 Strings are sequences of UTF-16 code units, as JavaScript compares and escapes
 them. A finite number is named by the text ECMAScript's Number::toString gives
 it, which is different for different numbers.
 */
module CanonicalJson {
  import opened Sequences

  type CodeUnit = u: int | 0 <= u < 0x10000
  type Text = seq<CodeUnit>

  const QUOTE: CodeUnit := 0x22
  const BACKSLASH: CodeUnit := 0x5C
  const COMMA: CodeUnit := 0x2C
  const COLON: CodeUnit := 0x3A

  const NULL_TEXT: Text := [0x6E, 0x75, 0x6C, 0x6C]
  const TRUE_TEXT: Text := [0x74, 0x72, 0x75, 0x65]
  const FALSE_TEXT: Text := [0x66, 0x61, 0x6C, 0x73, 0x65]
  const ZERO_TEXT: NumberText := [0x30]

  /** A code unit of a printed number: a digit, `-`, `+`, `.` or `e`. */
  predicate IsNumberUnit(u: CodeUnit) {
    0x30 <= u <= 0x39 || u == 0x2D || u == 0x2B || u == 0x2E || u == 0x65
  }

  predicate StartsNumber(u: CodeUnit) {
    0x30 <= u <= 0x39 || u == 0x2D
  }

  type NumberText = t: Text | |t| >= 1 && StartsNumber(t[0]) && forall i :: 0 <= i < |t| ==> IsNumberUnit(t[i])
    witness [0x30]

  datatype Number = Finite(text: NumberText) | NegativeZero | Infinite(negative: bool) | NotANumber

  datatype Field = Field(key: Text, value: Json)

  /** A JavaScript value; `fields` is in `Object.entries` order. */
  datatype Json =
    | Undefined
    | Null
    | Bool(b: bool)
    | Num(n: Number)
    | Str(s: Text)
    | Arr(items: seq<Json>)
    | Obj(fields: seq<Field>)
  {
    predicate IsScalar() {
      !Arr? && !Obj?
    }
  }

  function Size(v: Json): nat {
    match v
    case Arr(items) => 1 + SizeItems(items)
    case Obj(fields) => 1 + SizeFields(fields)
    case _ => 0
  }

  function SizeItems(items: seq<Json>): nat {
    if items == [] then 0 else 1 + Size(items[0]) + SizeItems(items[1..])
  }

  function SizeFields(fields: seq<Field>): nat {
    if fields == [] then 0 else 1 + Size(fields[0].value) + SizeFields(fields[1..])
  }

  // ------------------------------------------------------------------ strings

  predicate IsHighSurrogate(u: CodeUnit) { 0xD800 <= u <= 0xDBFF }
  predicate IsLowSurrogate(u: CodeUnit) { 0xDC00 <= u <= 0xDFFF }

  function HexUnit(d: nat): CodeUnit
    requires d < 16
  {
    if d < 10 then 0x30 + d else 0x57 + d
  }

  function HexDigit(u: CodeUnit): (d: int)
    ensures d < 16
  {
    if 0x30 <= u <= 0x39 then u - 0x30 else if 0x61 <= u <= 0x66 then u - 0x57 else -1
  }

  function Hex4(u: CodeUnit): Text {
    [HexUnit(u / 4096), HexUnit(u / 256 % 16), HexUnit(u / 16 % 16), HexUnit(u % 16)]
  }

  /** The letter of a two-character escape, or 0 when the unit has none. */
  function ShortEscape(u: CodeUnit): CodeUnit {
    if u == 0x08 then 0x62
    else if u == 0x09 then 0x74
    else if u == 0x0A then 0x6E
    else if u == 0x0C then 0x66
    else if u == 0x0D then 0x72
    else if u == QUOTE || u == BACKSLASH then u
    else 0
  }

  function FromShortEscape(letter: CodeUnit): int {
    if letter == 0x62 then 0x08
    else if letter == 0x74 then 0x09
    else if letter == 0x6E then 0x0A
    else if letter == 0x66 then 0x0C
    else if letter == 0x72 then 0x0D
    else if letter == QUOTE || letter == BACKSLASH then letter
    else -1
  }

  /** One unit, outside a surrogate pair, as JSON.stringify's QuoteJSONString writes it. */
  function EscapeUnit(u: CodeUnit): (t: Text)
    ensures |t| >= 1
  {
    if ShortEscape(u) != 0 then [BACKSLASH, ShortEscape(u)]
    else if u < 0x20 || IsHighSurrogate(u) || IsLowSurrogate(u) then [BACKSLASH, 0x75] + Hex4(u)
    else [u]
  }

  /** The characters between the quotes: a surrogate pair stands as it is, a lone surrogate is escaped. */
  function EscapeText(s: Text): Text {
    if s == [] then []
    else if |s| >= 2 && IsHighSurrogate(s[0]) && IsLowSurrogate(s[1]) then s[..2] + EscapeText(s[2..])
    else EscapeUnit(s[0]) + EscapeText(s[1..])
  }

  function Quote(s: Text): Text {
    [QUOTE] + EscapeText(s) + [QUOTE]
  }

  datatype Parse<T> = Failed | Parsed(value: T, rest: Text)

  /** Reads up to the closing quote. */
  function Unescape(t: Text): (p: Parse<Text>)
    ensures p.Parsed? ==> |p.rest| < |t|
  {
    if t == [] then Failed
    else if t[0] == QUOTE then Parsed([], t[1..])
    else if t[0] != BACKSLASH then Prepend(t[0], Unescape(t[1..]))
    else if |t| >= 2 && FromShortEscape(t[1]) >= 0 then Prepend(FromShortEscape(t[1]), Unescape(t[2..]))
    else if |t| >= 6 && t[1] == 0x75 && forall i :: 2 <= i < 6 ==> HexDigit(t[i]) >= 0 then
      Prepend(HexDigit(t[2]) * 4096 + HexDigit(t[3]) * 256 + HexDigit(t[4]) * 16 + HexDigit(t[5]), Unescape(t[6..]))
    else Failed
  }

  function Prepend(u: CodeUnit, p: Parse<Text>): Parse<Text> {
    match p
    case Failed => Failed
    case Parsed(value, rest) => Parsed([u] + value, rest)
  }

  lemma {:induction false} HexRoundTrip(u: CodeUnit)
    ensures u == (u / 4096) * 4096 + (u / 256 % 16) * 256 + (u / 16 % 16) * 16 + u % 16
    ensures u / 4096 < 16
  {
    Sixteens(u);
    Sixteens(u / 16);
    Sixteens(u / 256);
    assert u / 16 / 16 == u / 256 && u / 256 / 16 == u / 4096;
  }

  lemma {:induction false} Sixteens(n: nat)
    ensures n == (n / 16) * 16 + n % 16
  {
  }

  lemma {:induction false} HexDigitUnit(d: nat)
    requires d < 16
    ensures HexDigit(HexUnit(d)) == d
  {
  }

  lemma {:induction false} UnescapeHex(u: CodeUnit, tail: Text)
    ensures Unescape([BACKSLASH, 0x75] + Hex4(u) + tail) == Prepend(u, Unescape(tail))
  {
    var t := [BACKSLASH, 0x75] + Hex4(u) + tail;
    HexRoundTrip(u);
    var a, b, c, d := u / 4096, u / 256 % 16, u / 16 % 16, u % 16;
    HexDigitUnit(a);
    HexDigitUnit(b);
    HexDigitUnit(c);
    HexDigitUnit(d);
    assert t == [BACKSLASH, 0x75, HexUnit(a), HexUnit(b), HexUnit(c), HexUnit(d)] + tail;
    assert t[6..] == tail;
  }

  lemma {:induction false} UnescapeRaw(u: CodeUnit, tail: Text)
    requires u != QUOTE && u != BACKSLASH
    ensures Unescape([u] + tail) == Prepend(u, Unescape(tail))
  {
    assert ([u] + tail)[1..] == tail;
  }

  lemma {:induction false} UnescapeShort(u: CodeUnit, tail: Text)
    requires ShortEscape(u) != 0
    ensures Unescape([BACKSLASH, ShortEscape(u)] + tail) == Prepend(u, Unescape(tail))
  {
    assert ([BACKSLASH, ShortEscape(u)] + tail)[2..] == tail;
  }

  lemma {:induction false} UnescapeUnit(u: CodeUnit, tail: Text)
    ensures Unescape(EscapeUnit(u) + tail) == Prepend(u, Unescape(tail))
  {
    if ShortEscape(u) != 0 {
      UnescapeShort(u, tail);
    } else if u < 0x20 || IsHighSurrogate(u) || IsLowSurrogate(u) {
      UnescapeHex(u, tail);
    } else {
      UnescapeRaw(u, tail);
    }
  }

  lemma {:induction false} UnescapePair(high: CodeUnit, low: CodeUnit, tail: Text)
    requires IsHighSurrogate(high) && IsLowSurrogate(low)
    ensures Unescape([high, low] + tail) == Prepend(high, Prepend(low, Unescape(tail)))
  {
    UnescapeRaw(high, [low] + tail);
    UnescapeRaw(low, tail);
    assert [high, low] + tail == [high] + ([low] + tail);
  }

  lemma {:induction false} EndOfText(rest: Text)
    ensures Unescape([] + [QUOTE] + rest) == Parsed([], rest)
  {
    assert [] + [QUOTE] + rest == [QUOTE] + rest && ([QUOTE] + rest)[1..] == rest;
  }

  lemma {:induction false} SplitFirst(s: Text)
    requires s != []
    ensures [s[0]] + s[1..] == s
  {
  }

  lemma {:induction false} SplitPair(s: Text)
    requires |s| >= 2
    ensures s[..2] == [s[0], s[1]] && [s[0]] + ([s[1]] + s[2..]) == s
  {
  }

  lemma {:induction false} UnescapeText(s: Text, rest: Text)
    ensures Unescape(EscapeText(s) + [QUOTE] + rest) == Parsed(s, rest)
    decreases |s|
  {
    if s == [] {
      EndOfText(rest);
    } else if |s| >= 2 && IsHighSurrogate(s[0]) && IsLowSurrogate(s[1]) {
      UnescapeText(s[2..], rest);
      RegroupFour(s[..2], EscapeText(s[2..]), [QUOTE], rest);
      UnescapePair(s[0], s[1], EscapeText(s[2..]) + [QUOTE] + rest);
      SplitPair(s);
    } else {
      UnescapeText(s[1..], rest);
      RegroupFour(EscapeUnit(s[0]), EscapeText(s[1..]), [QUOTE], rest);
      UnescapeUnit(s[0], EscapeText(s[1..]) + [QUOTE] + rest);
      SplitFirst(s);
    }
  }

  /** A quoted text behind its opening quote. */
  lemma {:induction false} QuotedTail(e: Text, rest: Text)
    ensures ([QUOTE] + e + [QUOTE] + rest)[0] == QUOTE && ([QUOTE] + e + [QUOTE] + rest)[1..] == e + [QUOTE] + rest
  {
  }

  // -------------------------------------------------------------------- order

  /** `a < b` on strings: lexicographic by code unit. */
  predicate Less(a: Text, b: Text) {
    b != [] && (a == [] || a[0] < b[0] || (a[0] == b[0] && Less(a[1..], b[1..])))
  }

  lemma {:induction false} LessTotal(a: Text, b: Text)
    ensures a == b || Less(a, b) || Less(b, a)
  {
    if a != [] && b != [] && a[0] == b[0] {
      LessTotal(a[1..], b[1..]);
      assert a == [a[0]] + a[1..] && b == [b[0]] + b[1..];
    }
  }

  lemma {:induction false} LessTransitive(a: Text, b: Text, c: Text)
    requires Less(a, b) && Less(b, c)
    ensures Less(a, c)
  {
    if a != [] && a[0] == b[0] == c[0] {
      LessTransitive(a[1..], b[1..], c[1..]);
    }
  }

  lemma {:induction false} LessIrreflexive(a: Text)
    ensures !Less(a, a)
  {
    if a != [] {
      LessIrreflexive(a[1..]);
    }
  }

  /** The fields whose value is not `undefined`. */
  function Present(fields: seq<Field>): (out: seq<Field>)
    ensures SizeFields(out) <= SizeFields(fields)
  {
    if fields == [] then []
    else if fields[0].value.Undefined? then Present(fields[1..])
    else
      var rest := Present(fields[1..]);
      assert ([fields[0]] + rest)[1..] == rest;
      [fields[0]] + rest
  }

  function Insert(f: Field, sorted: seq<Field>): (out: seq<Field>)
    ensures SizeFields(out) == 1 + Size(f.value) + SizeFields(sorted)
  {
    if sorted == [] || !Less(sorted[0].key, f.key) then [f] + sorted
    else [sorted[0]] + Insert(f, sorted[1..])
  }

  /** The fields in ascending key order. */
  function SortFields(fields: seq<Field>): (out: seq<Field>)
    ensures SizeFields(out) == SizeFields(fields)
  {
    if fields == [] then [] else Insert(fields[0], SortFields(fields[1..]))
  }

  // ---------------------------------------------------------------- canonical

  /** `JSON.stringify(value) ?? 'null'` of a value that is no object. */
  function ScalarText(v: Json): Text
    requires v.IsScalar()
  {
    match v
    case Undefined => NULL_TEXT
    case Null => NULL_TEXT
    case Bool(b) => if b then TRUE_TEXT else FALSE_TEXT
    case Num(Finite(text)) => text
    case Num(NegativeZero) => ZERO_TEXT
    case Num(_) => NULL_TEXT
    case Str(s) => Quote(s)
  }

  function Canonical(v: Json): Text
    decreases Size(v)
  {
    match v
    case Arr(items) => [0x5B] + CanonicalItems(items) + [0x5D]
    case Obj(fields) => [0x7B] + CanonicalFields(SortFields(Present(fields))) + [0x7D]
    case _ => ScalarText(v)
  }

  function CanonicalItems(items: seq<Json>): Text
    decreases SizeItems(items)
  {
    if items == [] then []
    else Canonical(items[0]) + if |items| == 1 then [] else [COMMA] + CanonicalItems(items[1..])
  }

  function CanonicalFields(fields: seq<Field>): Text
    decreases SizeFields(fields)
  {
    if fields == [] then []
    else Quote(fields[0].key) + [COLON] + Canonical(fields[0].value)
         + if |fields| == 1 then [] else [COMMA] + CanonicalFields(fields[1..])
  }

  /** The body two requests are compared by: a missing or `null` body stands for `{}`. */
  function RequestBody(body: Json): Json {
    if body.Undefined? || body.Null? then Obj([]) else body
  }

  /** What `requestHashOf` hashes. */
  function HashInput(body: Json): Text {
    Canonical(RequestBody(body))
  }

  // -------------------------------------------------------------- normal form

  function NormalScalar(v: Json): Json
    requires v.IsScalar()
  {
    match v
    case Undefined => Null
    case Num(NegativeZero) => Num(Finite(ZERO_TEXT))
    case Num(Infinite(_)) => Null
    case Num(NotANumber) => Null
    case _ => v
  }

  /** The value a canonical text decodes to. */
  function Normal(v: Json): (n: Json)
    ensures !n.Undefined?
    decreases Size(v)
  {
    match v
    case Arr(items) => Arr(NormalItems(items))
    case Obj(fields) => Obj(NormalFields(SortFields(Present(fields))))
    case _ => NormalScalar(v)
  }

  function NormalItems(items: seq<Json>): seq<Json>
    decreases SizeItems(items)
  {
    if items == [] then [] else [Normal(items[0])] + NormalItems(items[1..])
  }

  function NormalFields(fields: seq<Field>): seq<Field>
    decreases SizeFields(fields)
  {
    if fields == [] then []
    else [Field(fields[0].key, Normal(fields[0].value))] + NormalFields(fields[1..])
  }

  // ------------------------------------------------------------------ decoder

  /** The longest prefix of number units. */
  function NumberSpan(t: Text): (n: nat)
    ensures n <= |t|
    ensures forall i :: 0 <= i < n ==> IsNumberUnit(t[i])
    ensures n < |t| ==> !IsNumberUnit(t[n])
  {
    if t == [] || !IsNumberUnit(t[0]) then 0 else 1 + NumberSpan(t[1..])
  }

  function DecodeScalar(t: Text): (p: Parse<Json>)
    ensures p.Parsed? ==> |p.rest| < |t|
  {
    if t == [] then Failed
    else if NULL_TEXT <= t then Parsed(Null, t[4..])
    else if TRUE_TEXT <= t then Parsed(Bool(true), t[4..])
    else if FALSE_TEXT <= t then Parsed(Bool(false), t[5..])
    else if t[0] == QUOTE then
      match Unescape(t[1..])
      case Failed => Failed
      case Parsed(s, rest) => Parsed(Str(s), rest)
    else if StartsNumber(t[0]) then
      var n := NumberSpan(t);
      Parsed(Num(Finite(t[..n])), t[n..])
    else Failed
  }

  function AsArray(p: Parse<seq<Json>>): Parse<Json> {
    match p
    case Failed => Failed
    case Parsed(items, rest) => Parsed(Arr(items), rest)
  }

  function AsObject(p: Parse<seq<Field>>): Parse<Json> {
    match p
    case Failed => Failed
    case Parsed(fields, rest) => Parsed(Obj(fields), rest)
  }

  function Decode(t: Text): (p: Parse<Json>)
    ensures p.Parsed? ==> |p.rest| < |t|
    decreases |t|, 0
  {
    if t == [] then Failed
    else if t[0] == 0x5B then
      if |t| >= 2 && t[1] == 0x5D then Parsed(Arr([]), t[2..]) else AsArray(DecodeItems(t[1..]))
    else if t[0] == 0x7B then
      if |t| >= 2 && t[1] == 0x7D then Parsed(Obj([]), t[2..]) else AsObject(DecodeFields(t[1..]))
    else DecodeScalar(t)
  }

  /** One or more items and the closing bracket. */
  function DecodeItems(t: Text): (p: Parse<seq<Json>>)
    ensures p.Parsed? ==> |p.rest| < |t|
    decreases |t|, 1
  {
    match Decode(t)
    case Failed => Failed
    case Parsed(item, rest) =>
      if rest == [] then Failed
      else if rest[0] == 0x5D then Parsed([item], rest[1..])
      else if rest[0] != COMMA then Failed
      else
        match DecodeItems(rest[1..])
        case Failed => Failed
        case Parsed(items, rest') => Parsed([item] + items, rest')
  }

  /** One or more fields and the closing brace. */
  function DecodeFields(t: Text): (p: Parse<seq<Field>>)
    ensures p.Parsed? ==> |p.rest| < |t|
    decreases |t|, 1
  {
    if t == [] || t[0] != QUOTE then Failed else
      match Unescape(t[1..])
      case Failed => Failed
      case Parsed(key, afterKey) =>
        if afterKey == [] || afterKey[0] != COLON then Failed else
          match Decode(afterKey[1..])
          case Failed => Failed
          case Parsed(value, rest) =>
            if rest == [] then Failed
            else if rest[0] == 0x7D then Parsed([Field(key, value)], rest[1..])
            else if rest[0] != COMMA then Failed
            else
              match DecodeFields(rest[1..])
              case Failed => Failed
              case Parsed(fields, rest') => Parsed([Field(key, value)] + fields, rest')
  }

  /** What may follow a value: nothing, or a unit no number continues with. */
  predicate Delimits(rest: Text) {
    rest == [] || !IsNumberUnit(rest[0])
  }

  lemma {:induction false} NumberSpanExact(text: Text, rest: Text)
    requires Delimits(rest)
    requires forall i :: 0 <= i < |text| ==> IsNumberUnit(text[i])
    ensures NumberSpan(text + rest) == |text|
  {
    if text == [] {
      assert text + rest == rest;
    } else {
      assert (text + rest)[1..] == text[1..] + rest;
      NumberSpanExact(text[1..], rest);
    }
  }

  lemma {:induction false} Apart(text: Text, rest: Text)
    ensures (text + rest)[..|text|] == text && (text + rest)[|text|..] == rest
  {
  }

  lemma {:induction false} DecodeWords(rest: Text)
    ensures Decode(NULL_TEXT + rest) == Parsed(Null, rest)
    ensures Decode(TRUE_TEXT + rest) == Parsed(Bool(true), rest)
    ensures Decode(FALSE_TEXT + rest) == Parsed(Bool(false), rest)
  {
    Apart(NULL_TEXT, rest);
    Apart(TRUE_TEXT, rest);
    Apart(FALSE_TEXT, rest);
  }

  lemma {:induction false} DecodeString(s: Text, rest: Text)
    ensures Decode(Quote(s) + rest) == Parsed(Str(s), rest)
  {
    UnescapeText(s, rest);
    QuotedTail(EscapeText(s), rest);
    DecodeQuoted(Quote(s) + rest, s, rest);
  }

  lemma {:induction false} DecodeQuoted(t: Text, s: Text, rest: Text)
    requires t != [] && t[0] == QUOTE && Unescape(t[1..]) == Parsed(s, rest)
    ensures Decode(t) == Parsed(Str(s), rest)
  {
  }

  lemma {:induction false} DecodeNumber(text: NumberText, rest: Text)
    requires Delimits(rest)
    ensures Decode(text + rest) == Parsed(Num(Finite(text)), rest)
  {
    NumberSpanExact(text, rest);
    Apart(text, rest);
    assert (text + rest)[0] == text[0];
  }

  lemma {:induction false} DecodeScalarText(v: Json, rest: Text)
    requires v.IsScalar() && Delimits(rest)
    ensures Decode(ScalarText(v) + rest) == Parsed(NormalScalar(v), rest)
  {
    match v
    case Str(s) => DecodeString(s, rest);
    case Num(Finite(text)) => DecodeNumber(text, rest);
    case Num(NegativeZero) => DecodeNumber(ZERO_TEXT, rest);
    case _ => DecodeWords(rest);
  }

  /** A canonical text starts with a unit no closing bracket or comma is. */
  lemma {:induction false} CanonicalStart(v: Json)
    ensures |Canonical(v)| >= 1
    ensures Canonical(v)[0] !in {0x5D, 0x7D, COMMA}
  {
  }

  lemma {:induction false} DecodeArray(inner: Text, items: seq<Json>, rest: Text)
    requires inner != [] && inner[0] != 0x5D
    requires DecodeItems(inner) == Parsed(items, rest)
    ensures Decode([0x5B] + inner) == Parsed(Arr(items), rest)
  {
    assert ([0x5B] + inner)[1..] == inner;
  }

  lemma {:induction false} DecodeObject(inner: Text, fields: seq<Field>, rest: Text)
    requires inner != [] && inner[0] == QUOTE
    requires DecodeFields(inner) == Parsed(fields, rest)
    ensures Decode([0x7B] + inner) == Parsed(Obj(fields), rest)
  {
    assert ([0x7B] + inner)[1..] == inner;
  }

  lemma {:induction false} DecodeEmpty(rest: Text)
    ensures Decode([0x5B] + [0x5D] + rest) == Parsed(Arr([]), rest)
    ensures Decode([0x7B] + [0x7D] + rest) == Parsed(Obj([]), rest)
  {
    assert ([0x5B] + [0x5D] + rest)[2..] == rest;
    assert ([0x7B] + [0x7D] + rest)[2..] == rest;
  }

  lemma {:induction false} DecodeLastItem(t: Text, item: Json, rest: Text)
    requires Decode(t) == Parsed(item, [0x5D] + rest)
    ensures DecodeItems(t) == Parsed([item], rest)
  {
    assert ([0x5D] + rest)[1..] == rest;
  }

  lemma {:induction false} DecodeNextItem(t: Text, item: Json, more: Text, items: seq<Json>, rest: Text)
    requires Decode(t) == Parsed(item, [COMMA] + more)
    requires DecodeItems(more) == Parsed(items, rest)
    ensures DecodeItems(t) == Parsed([item] + items, rest)
  {
    assert ([COMMA] + more)[1..] == more;
  }

  /** The member at the head of `Quote(key) + [COLON] + text`. */
  lemma {:induction false} DecodeMember(key: Text, text: Text, value: Json, after: Text, fields: seq<Field>, rest: Text)
    requires Decode(text) == Parsed(value, after)
    requires
      (after == [0x7D] + rest && fields == [])
      || (after != [] && after[0] == COMMA && DecodeFields(after[1..]) == Parsed(fields, rest))
    ensures DecodeFields(Quote(key) + [COLON] + text) == Parsed([Field(key, value)] + fields, rest)
  {
    UnescapeText(key, [COLON] + text);
    QuotedTail(EscapeText(key), [COLON] + text);
    Associate(Quote(key), [COLON], text);
    MemberAt(Quote(key) + ([COLON] + text), key, text, value, after, fields, rest);
  }

  lemma {:induction false} Associate(a: Text, b: Text, c: Text)
    ensures a + b + c == a + (b + c)
  {
  }

  /** A member whose key has been read. */
  lemma {:induction false} MemberAt(t: Text, key: Text, text: Text, value: Json, after: Text, fields: seq<Field>,
      rest: Text)
    requires t != [] && t[0] == QUOTE && Unescape(t[1..]) == Parsed(key, [COLON] + text)
    requires Decode(text) == Parsed(value, after)
    requires
      (after == [0x7D] + rest && fields == [])
      || (after != [] && after[0] == COMMA && DecodeFields(after[1..]) == Parsed(fields, rest))
    ensures DecodeFields(t) == Parsed([Field(key, value)] + fields, rest)
  {
    assert ([COLON] + text)[1..] == text;
    assert [Field(key, value)] + [] == [Field(key, value)];
    if after == [0x7D] + rest {
      assert after[1..] == rest;
    }
  }

  /** The decoder reads back the normal form, whatever text follows. */
  lemma {:induction false} DecodeCanonical(v: Json, rest: Text)
    requires Delimits(rest)
    ensures Decode(Canonical(v) + rest) == Parsed(Normal(v), rest)
    decreases Size(v), 0
  {
    if v.Arr? {
      DecodeCanonicalArray(v.items, rest);
    } else if v.Obj? {
      DecodeCanonicalObject(v.fields, rest);
    } else {
      DecodeScalarText(v, rest);
    }
  }

  lemma {:induction false} DecodeCanonicalArray(items: seq<Json>, rest: Text)
    ensures Decode(Canonical(Arr(items)) + rest) == Parsed(Arr(NormalItems(items)), rest)
    decreases SizeItems(items), 2
  {
    RegroupFour([0x5B], CanonicalItems(items), [0x5D], rest);
    if items == [] {
      DecodeEmpty(rest);
    } else {
      DecodeCanonicalItems(items, rest);
      CanonicalStart(items[0]);
      DecodeArray(CanonicalItems(items) + [0x5D] + rest, NormalItems(items), rest);
    }
  }

  lemma {:induction false} DecodeCanonicalObject(fields: seq<Field>, rest: Text)
    ensures Decode(Canonical(Obj(fields)) + rest) == Parsed(Normal(Obj(fields)), rest)
    decreases SizeFields(fields), 2
  {
    var sorted := SortFields(Present(fields));
    RegroupFour([0x7B], CanonicalFields(sorted), [0x7D], rest);
    if sorted == [] {
      DecodeEmpty(rest);
    } else {
      DecodeCanonicalFields(sorted, rest);
      DecodeObject(CanonicalFields(sorted) + [0x7D] + rest, NormalFields(sorted), rest);
    }
  }

  lemma {:induction false} DecodeCanonicalItems(items: seq<Json>, rest: Text)
    requires items != []
    ensures DecodeItems(CanonicalItems(items) + [0x5D] + rest) == Parsed(NormalItems(items), rest)
    decreases SizeItems(items), 1
  {
    ItemsText(items, rest);
    var t := CanonicalItems(items) + [0x5D] + rest;
    if |items| == 1 {
      DecodeCanonical(items[0], [0x5D] + rest);
      DecodeLastItem(t, Normal(items[0]), rest);
      OneItem(items);
    } else {
      var more := CanonicalItems(items[1..]) + [0x5D] + rest;
      DecodeCanonical(items[0], [COMMA] + more);
      DecodeCanonicalItems(items[1..], rest);
      DecodeNextItem(t, Normal(items[0]), more, NormalItems(items[1..]), rest);
    }
  }

  lemma {:induction false} OneItem(items: seq<Json>)
    requires |items| == 1
    ensures NormalItems(items) == [Normal(items[0])]
  {
    assert items[1..] == [];
  }

  /** The text of the items up to the end of the array and beyond. */
  lemma {:induction false} ItemsText(items: seq<Json>, rest: Text)
    requires items != []
    ensures CanonicalItems(items) + [0x5D] + rest
      == Canonical(items[0]) + if |items| == 1 then [0x5D] + rest
          else [COMMA] + (CanonicalItems(items[1..]) + [0x5D] + rest)
  {
    RegroupMore(Canonical(items[0]), if |items| == 1 then [] else CanonicalItems(items[1..]), 0x5D, rest);
  }

  lemma {:induction false} RegroupMore(head: Text, tail: Text, close: CodeUnit, rest: Text)
    ensures head + ([COMMA] + tail) + [close] + rest == head + ([COMMA] + (tail + [close] + rest))
    ensures head + [] + [close] + rest == head + ([close] + rest)
  {
  }

  lemma {:induction false} DecodeCanonicalFields(fields: seq<Field>, rest: Text)
    requires fields != []
    ensures DecodeFields(CanonicalFields(fields) + [0x7D] + rest) == Parsed(NormalFields(fields), rest)
    decreases SizeFields(fields), 1
  {
    var key, value := fields[0].key, fields[0].value;
    var tail := CanonicalFields(fields[1..]);
    RegroupMember(Quote(key), Canonical(value), tail, 0x7D, rest);
    if |fields| == 1 {
      DecodeCanonical(value, [0x7D] + rest);
      DecodeMember(key, Canonical(value) + ([0x7D] + rest), Normal(value), [0x7D] + rest, [], rest);
      assert NormalFields(fields) == [Field(key, Normal(value))] + [];
    } else {
      var more := tail + [0x7D] + rest;
      DecodeCanonical(value, [COMMA] + more);
      DecodeCanonicalFields(fields[1..], rest);
      assert ([COMMA] + more)[1..] == more;
      DecodeMember(key, Canonical(value) + ([COMMA] + more), Normal(value), [COMMA] + more, NormalFields(fields[1..]),
          rest);
    }
  }

  lemma {:induction false} RegroupMember(key: Text, value: Text, tail: Text, close: CodeUnit, rest: Text)
    ensures key + [COLON] + value + ([COMMA] + tail) + [close] + rest
         == key + [COLON] + (value + ([COMMA] + (tail + [close] + rest)))
    ensures key + [COLON] + value + [] + [close] + rest == key + [COLON] + (value + ([close] + rest))
  {
  }
}

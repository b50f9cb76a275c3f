/**
 Which JSON values have the same canonical text: key order and `undefined`
 fields never matter, and nothing else is lost exactly for the values without
 `undefined` items, non-finite numbers and negative zero.
 */
module CanonicalUniqueness {
  import opened CanonicalJson

  /** Every object holds a key once, as a parsed JSON body's objects do. */
  ghost predicate WellFormed(v: Json) {
    match v
    case Arr(items) => WellFormedItems(items)
    case Obj(fields) => Distinct(fields) && WellFormedFields(fields)
    case _ => true
  }

  ghost predicate WellFormedItems(items: seq<Json>) {
    items == [] || (WellFormed(items[0]) && WellFormedItems(items[1..]))
  }

  ghost predicate WellFormedFields(fields: seq<Field>) {
    fields == [] || (WellFormed(fields[0].value) && WellFormedFields(fields[1..]))
  }

  /** An object as the fields it has: `undefined` ones are none. */
  function FieldMap(fields: seq<Field>): (m: map<Text, Json>)
    ensures forall k :: k in m ==> Size(m[k]) < SizeFields(fields) && !m[k].Undefined?
  {
    if fields == [] then map[]
    else if fields[0].value.Undefined? then FieldMap(fields[1..])
    else FieldMap(fields[1..])[fields[0].key := fields[0].value]
  }

  /**
   Equal up to the order of keys and the fields that are `undefined`. `strict`
   compares scalars as they are; otherwise as a canonical text writes them.
   */
  ghost predicate Equal(a: Json, b: Json, strict: bool)
    decreases Size(a)
  {
    match (a, b)
    case (Arr(xs), Arr(ys)) => |xs| == |ys| && EqualItems(xs, ys, strict)
    case (Obj(fs), Obj(gs)) =>
      var m, n := FieldMap(fs), FieldMap(gs);
      m.Keys == n.Keys && forall k :: k in m ==> Equal(m[k], n[k], strict)
    case (_, _) =>
      && a.IsScalar() && b.IsScalar()
      && if strict then a == b else NormalScalar(a) == NormalScalar(b)
  }

  ghost predicate EqualItems(xs: seq<Json>, ys: seq<Json>, strict: bool)
    requires |xs| == |ys|
    decreases SizeItems(xs)
  {
    xs == [] || (Equal(xs[0], ys[0], strict) && EqualItems(xs[1..], ys[1..], strict))
  }

  // ---------------------------------------------------------- sorting by key

  ghost predicate StrictlySorted(fields: seq<Field>) {
    fields != [] ==>
      StrictlySorted(fields[1..]) && !fields[0].value.Undefined? && Below(fields[0].key, FieldMap(fields[1..]))
  }

  /** `key` comes before every key of `m`. */
  ghost predicate Below(key: Text, m: map<Text, Json>) {
    forall k :: k in m ==> Less(key, k)
  }

  ghost predicate Distinct(fields: seq<Field>) {
    fields != [] ==> Distinct(fields[1..]) && forall f :: f in fields[1..] ==> f.key != fields[0].key
  }

  lemma {:induction false} KeysOfMap(fields: seq<Field>, k: Text)
    requires k in FieldMap(fields)
    ensures exists f :: f in fields && f.key == k
  {
    if fields[0].value.Undefined? || fields[0].key != k {
      KeysOfMap(fields[1..], k);
      var f :| f in fields[1..] && f.key == k;
      assert f in fields;
    } else {
      assert fields[0] in fields;
    }
  }

  lemma {:induction false} InsertFields(f: Field, sorted: seq<Field>)
    requires StrictlySorted(sorted) && !f.value.Undefined? && f.key !in FieldMap(sorted)
    ensures FieldMap(Insert(f, sorted)) == FieldMap(sorted)[f.key := f.value]
  {
    if sorted != [] && Less(sorted[0].key, f.key) {
      InsertFields(f, sorted[1..]);
      assert Insert(f, sorted)[1..] == Insert(f, sorted[1..]);
      Swap(FieldMap(sorted[1..]), f.key, f.value, sorted[0].key, sorted[0].value);
    } else {
      assert Insert(f, sorted)[1..] == sorted;
    }
  }

  lemma {:induction false} Swap(m: map<Text, Json>, k: Text, v: Json, l: Text, w: Json)
    requires k != l
    ensures m[k := v][l := w] == m[l := w][k := v]
  {
  }

  lemma {:induction false} BelowAll(key: Text, sorted: seq<Field>)
    requires StrictlySorted(sorted) && (sorted != [] ==> Less(key, sorted[0].key))
    ensures Below(key, FieldMap(sorted))
  {
    forall k | k in FieldMap(sorted) ensures Less(key, k) {
      if k != sorted[0].key {
        LessTransitive(key, sorted[0].key, k);
      }
    }
  }

  lemma {:induction false} InsertSorted(f: Field, sorted: seq<Field>)
    requires StrictlySorted(sorted) && !f.value.Undefined? && f.key !in FieldMap(sorted)
    ensures StrictlySorted(Insert(f, sorted))
  {
    if sorted != [] && Less(sorted[0].key, f.key) {
      InsertSorted(f, sorted[1..]);
      InsertFields(f, sorted[1..]);
      assert Insert(f, sorted)[1..] == Insert(f, sorted[1..]);
    } else {
      if sorted != [] {
        LessTotal(sorted[0].key, f.key);
      }
      BelowAll(f.key, sorted);
      assert Insert(f, sorted)[1..] == sorted;
    }
  }

  /** The fields in key order are strictly ascending and the same fields. */
  lemma {:induction false} SortPresent(fields: seq<Field>)
    requires Distinct(fields)
    ensures StrictlySorted(SortFields(Present(fields)))
    ensures FieldMap(SortFields(Present(fields))) == FieldMap(fields)
  {
    if fields != [] {
      SortPresent(fields[1..]);
      if !fields[0].value.Undefined? {
        var rest := Present(fields[1..]);
        assert Present(fields)[1..] == rest;
        if fields[0].key in FieldMap(fields[1..]) {
          KeysOfMap(fields[1..], fields[0].key);
        }
        InsertSorted(fields[0], SortFields(rest));
        InsertFields(fields[0], SortFields(rest));
      }
    }
  }

  lemma {:induction false} NoKeys(fs: seq<Field>)
    requires StrictlySorted(fs)
    ensures FieldMap(fs).Keys == {} <==> fs == []
  {
    if fs != [] {
      assert fs[0].key in FieldMap(fs);
    }
  }

  /** A set of keys has one strictly ascending listing. */
  lemma {:induction false} SortedUnique(fs: seq<Field>, gs: seq<Field>)
    requires StrictlySorted(fs) && StrictlySorted(gs)
    requires FieldMap(fs).Keys == FieldMap(gs).Keys
    ensures |fs| == |gs|
    ensures fs != [] ==> fs[0].key == gs[0].key && FieldMap(fs[1..]).Keys == FieldMap(gs[1..]).Keys
  {
    NoKeys(fs);
    NoKeys(gs);
    if fs != [] {
      var f, g := fs[0].key, gs[0].key;
      assert f in FieldMap(gs) && g in FieldMap(fs);
      if f != g {
        LessTransitive(f, g, f);
      }
      LessIrreflexive(f);
      assert FieldMap(fs[1..]).Keys == FieldMap(fs).Keys - {f};
      assert FieldMap(gs[1..]).Keys == FieldMap(gs).Keys - {f};
      SortedUnique(fs[1..], gs[1..]);
    }
  }

  // --------------------------------------------- normal forms and equivalence

  lemma {:induction false} EqualIffNormal(a: Json, b: Json)
    requires WellFormed(a) && WellFormed(b)
    ensures Equal(a, b, false) <==> Normal(a) == Normal(b)
    decreases Size(a), 0
  {
    if a.Arr? && b.Arr? {
      EqualItemsIffNormal(a.items, b.items);
    } else if a.Obj? && b.Obj? {
      var fs, gs := SortFields(Present(a.fields)), SortFields(Present(b.fields));
      SortPresent(a.fields);
      SortPresent(b.fields);
      WellFormedMap(a.fields);
      WellFormedMap(b.fields);
      EqualFieldsIffNormal(fs, gs);
    }
  }

  lemma {:induction false} EqualItemsIffNormal(xs: seq<Json>, ys: seq<Json>)
    requires WellFormedItems(xs) && WellFormedItems(ys)
    ensures (|xs| == |ys| && EqualItems(xs, ys, false)) <==> NormalItems(xs) == NormalItems(ys)
    decreases SizeItems(xs), 1
  {
    if xs != [] && ys != [] {
      EqualIffNormal(xs[0], ys[0]);
      EqualItemsIffNormal(xs[1..], ys[1..]);
      assert NormalItems(xs)[0] == Normal(xs[0]) && NormalItems(xs)[1..] == NormalItems(xs[1..]);
      assert NormalItems(ys)[0] == Normal(ys[0]) && NormalItems(ys)[1..] == NormalItems(ys[1..]);
    }
  }

  lemma {:induction false} WellFormedMap(fields: seq<Field>)
    requires WellFormedFields(fields)
    ensures forall k :: k in FieldMap(fields) ==> WellFormed(FieldMap(fields)[k])
  {
    if fields != [] {
      WellFormedMap(fields[1..]);
    }
  }

  ghost predicate EqualMaps(m: map<Text, Json>, n: map<Text, Json>, strict: bool) {
    m.Keys == n.Keys && forall k :: k in m ==> Equal(m[k], n[k], strict)
  }

  lemma {:induction false} EqualFieldsIffNormal(fs: seq<Field>, gs: seq<Field>)
    requires StrictlySorted(fs) && StrictlySorted(gs)
    requires forall k :: k in FieldMap(fs) ==> WellFormed(FieldMap(fs)[k])
    requires forall k :: k in FieldMap(gs) ==> WellFormed(FieldMap(gs)[k])
    ensures EqualMaps(FieldMap(fs), FieldMap(gs), false) <==> NormalFields(fs) == NormalFields(gs)
    decreases SizeFields(fs), 1
  {
    if FieldMap(fs).Keys == FieldMap(gs).Keys {
      SortedUnique(fs, gs);
    }
    if fs != [] && gs != [] {
      HeadOfSorted(fs);
      HeadOfSorted(gs);
      EqualIffNormal(fs[0].value, gs[0].value);
      EqualFieldsIffNormal(fs[1..], gs[1..]);
      assert NormalFields(fs)[0] == Field(fs[0].key, Normal(fs[0].value))
          && NormalFields(fs)[1..] == NormalFields(fs[1..]);
      assert NormalFields(gs)[0] == Field(gs[0].key, Normal(gs[0].value))
          && NormalFields(gs)[1..] == NormalFields(gs[1..]);
      assert fs[0].key == gs[0].key ==>
        (EqualMaps(FieldMap(fs), FieldMap(gs), false) <==>
         EqualMaps(FieldMap(fs[1..]), FieldMap(gs[1..]), false) && Equal(fs[0].value, gs[0].value, false));
    } else {
      NoKeys(fs);
      NoKeys(gs);
    }
  }

  lemma {:induction false} HeadOfSorted(fs: seq<Field>)
    requires StrictlySorted(fs) && fs != []
    ensures fs[0].key !in FieldMap(fs[1..])
    ensures fs[0].key in FieldMap(fs) && FieldMap(fs)[fs[0].key] == fs[0].value
    ensures FieldMap(fs) == FieldMap(fs[1..])[fs[0].key := fs[0].value]
    ensures forall k :: k in FieldMap(fs[1..]) ==> k in FieldMap(fs) && FieldMap(fs)[k] == FieldMap(fs[1..])[k]
  {
    LessIrreflexive(fs[0].key);
  }

  // ------------------------------------------------------------ main theorems

  /** `Canonical` writes a value as it writes its normal form in place. */
  function Encode(n: Json): Text
    decreases Size(n)
  {
    match n
    case Arr(items) => [0x5B] + EncodeItems(items) + [0x5D]
    case Obj(fields) => [0x7B] + EncodeFields(fields) + [0x7D]
    case _ => ScalarText(n)
  }

  function EncodeItems(items: seq<Json>): Text
    decreases SizeItems(items)
  {
    if items == [] then []
    else Encode(items[0]) + if |items| == 1 then [] else [COMMA] + EncodeItems(items[1..])
  }

  function EncodeFields(fields: seq<Field>): Text
    decreases SizeFields(fields)
  {
    if fields == [] then []
    else Quote(fields[0].key) + [COLON] + Encode(fields[0].value)
         + if |fields| == 1 then [] else [COMMA] + EncodeFields(fields[1..])
  }

  lemma {:induction false} CanonicalEncodesNormal(v: Json)
    ensures Canonical(v) == Encode(Normal(v))
    decreases Size(v), 0
  {
    if v.Arr? {
      CanonicalEncodesItems(v.items);
    } else if v.Obj? {
      CanonicalEncodesFields(SortFields(Present(v.fields)));
    }
  }

  lemma {:induction false} CanonicalEncodesItems(items: seq<Json>)
    ensures CanonicalItems(items) == EncodeItems(NormalItems(items))
    decreases SizeItems(items), 1
  {
    if items != [] {
      CanonicalEncodesNormal(items[0]);
      CanonicalEncodesItems(items[1..]);
      assert NormalItems(items)[1..] == NormalItems(items[1..]);
    }
  }

  lemma {:induction false} CanonicalEncodesFields(fields: seq<Field>)
    ensures CanonicalFields(fields) == EncodeFields(NormalFields(fields))
    decreases SizeFields(fields), 1
  {
    if fields != [] {
      CanonicalEncodesNormal(fields[0].value);
      CanonicalEncodesFields(fields[1..]);
      assert NormalFields(fields)[1..] == NormalFields(fields[1..]);
    }
  }

  /**
   Two values have one canonical text exactly when they are equal up to key
   order, `undefined` fields and the scalars `JSON.stringify` does not tell
   apart.
   */
  lemma {:induction false} CanonicalIff(a: Json, b: Json)
    requires WellFormed(a) && WellFormed(b)
    ensures Canonical(a) == Canonical(b) <==> Equal(a, b, false)
  {
    EqualIffNormal(a, b);
    CanonicalEncodesNormal(a);
    CanonicalEncodesNormal(b);
    DecodeCanonical(a, []);
    DecodeCanonical(b, []);
  }

  /** No `undefined` outside a field, no NaN or infinity, no negative zero. */
  ghost predicate Clean(v: Json)
    decreases Size(v)
  {
    match v
    case Undefined => false
    case Num(n) => n.Finite?
    case Arr(items) => CleanItems(items)
    case Obj(fields) => forall k :: k in FieldMap(fields) ==> Clean(FieldMap(fields)[k])
    case _ => true
  }

  ghost predicate CleanItems(items: seq<Json>)
    decreases SizeItems(items)
  {
    items == [] || (Clean(items[0]) && CleanItems(items[1..]))
  }

  lemma {:induction false} CleanIsStrict(a: Json, b: Json)
    requires Clean(a) && Clean(b)
    ensures Equal(a, b, false) <==> Equal(a, b, true)
    decreases Size(a), 0
  {
    if a.Arr? && b.Arr? && |a.items| == |b.items| {
      CleanItemsAreStrict(a.items, b.items);
    } else if a.Obj? && b.Obj? {
      var m, n := FieldMap(a.fields), FieldMap(b.fields);
      if m.Keys == n.Keys {
        forall k | k in m ensures Equal(m[k], n[k], false) <==> Equal(m[k], n[k], true) {
          CleanIsStrict(m[k], n[k]);
        }
      }
    }
  }

  lemma {:induction false} CleanItemsAreStrict(xs: seq<Json>, ys: seq<Json>)
    requires |xs| == |ys| && CleanItems(xs) && CleanItems(ys)
    ensures EqualItems(xs, ys, false) <==> EqualItems(xs, ys, true)
    decreases SizeItems(xs), 1
  {
    if xs != [] {
      CleanIsStrict(xs[0], ys[0]);
      CleanItemsAreStrict(xs[1..], ys[1..]);
    }
  }

  /** A value equal to a clean one is clean. */
  lemma {:induction false} EqualToClean(a: Json, b: Json)
    requires Clean(b) && Equal(a, b, true)
    ensures Clean(a)
    decreases Size(a), 0
  {
    if a.Arr? {
      EqualToCleanItems(a.items, b.items);
    } else if a.Obj? {
      var m, n := FieldMap(a.fields), FieldMap(b.fields);
      forall k | k in m ensures Clean(m[k]) {
        EqualToClean(m[k], n[k]);
      }
    }
  }

  lemma {:induction false} EqualToCleanItems(xs: seq<Json>, ys: seq<Json>)
    requires |xs| == |ys| && CleanItems(ys) && EqualItems(xs, ys, true)
    ensures CleanItems(xs)
    decreases SizeItems(xs), 1
  {
    if xs != [] {
      EqualToClean(xs[0], ys[0]);
      EqualToCleanItems(xs[1..], ys[1..]);
    }
  }

  /** The normal form is a clean value with the same canonical text. */
  lemma {:induction false} NormalIsClean(v: Json)
    requires WellFormed(v)
    ensures WellFormed(Normal(v)) && Clean(Normal(v)) && Equal(v, Normal(v), false)
    decreases Size(v), 0
  {
    if v.Arr? {
      NormalItemsAreClean(v.items);
    } else if v.Obj? {
      SortPresent(v.fields);
      WellFormedMap(v.fields);
      NormalFieldsAreClean(SortFields(Present(v.fields)));
    }
  }

  lemma {:induction false} NormalItemsAreClean(items: seq<Json>)
    requires WellFormedItems(items)
    ensures
      var ns := NormalItems(items);
      WellFormedItems(ns) && CleanItems(ns) && |ns| == |items| && EqualItems(items, ns, false)
    decreases SizeItems(items), 1
  {
    if items != [] {
      NormalIsClean(items[0]);
      NormalItemsAreClean(items[1..]);
      assert NormalItems(items)[1..] == NormalItems(items[1..]);
    }
  }

  ghost predicate AllClean(m: map<Text, Json>) {
    forall k :: k in m ==> Clean(m[k])
  }

  /** What the normal forms of fields are to the fields. */
  ghost predicate AreNormal(ns: seq<Field>, fs: seq<Field>) {
    && Distinct(ns) && WellFormedFields(ns) && EqualMaps(FieldMap(fs), FieldMap(ns), false)
    && AllClean(FieldMap(ns))
    && (forall f :: f in ns ==> f.key in FieldMap(fs))
  }

  lemma {:induction false} NormalFieldsAreClean(fs: seq<Field>)
    requires StrictlySorted(fs)
    requires forall k :: k in FieldMap(fs) ==> WellFormed(FieldMap(fs)[k])
    ensures AreNormal(NormalFields(fs), fs)
    decreases SizeFields(fs), 1
  {
    if fs != [] {
      HeadOfSorted(fs);
      NormalIsClean(fs[0].value);
      NormalFieldsAreClean(fs[1..]);
      NormalStep(fs, Normal(fs[0].value), NormalFields(fs[1..]));
    }
  }

  /** One more field in front. */
  lemma {:induction false} NormalStep(fs: seq<Field>, n: Json, rest: seq<Field>)
    requires StrictlySorted(fs) && fs != [] && AreNormal(rest, fs[1..]) && !n.Undefined?
    requires WellFormed(n) && Clean(n) && Equal(fs[0].value, n, false)
    ensures AreNormal([Field(fs[0].key, n)] + rest, fs)
  {
    HeadOfSorted(fs);
    var f := Field(fs[0].key, n);
    var ns := [f] + rest;
    FrontMap(f, rest);
    CleanFront(FieldMap(rest), f.key, n);
    FrontOf(f, rest, FieldMap(fs[1..]));
    FrontMaps(FieldMap(fs[1..]), FieldMap(rest), fs[0].key, fs[0].value, n);
  }

  lemma {:induction false} FrontMap(f: Field, rest: seq<Field>)
    requires !f.value.Undefined?
    ensures ([f] + rest)[1..] == rest && FieldMap([f] + rest) == FieldMap(rest)[f.key := f.value]
  {
    assert ([f] + rest)[1..] == rest;
  }

  lemma {:induction false} CleanFront(m: map<Text, Json>, key: Text, n: Json)
    requires Clean(n) && AllClean(m)
    ensures AllClean(m[key := n])
  {
  }

  lemma {:induction false} FrontOf(f: Field, rest: seq<Field>, m: map<Text, Json>)
    requires Distinct(rest) && (forall g :: g in rest ==> g.key in m) && f.key !in m
    ensures Distinct([f] + rest) && forall g :: g in [f] + rest ==> g.key == f.key || g.key in m
  {
    assert ([f] + rest)[1..] == rest;
  }

  lemma {:induction false} FrontMaps(m: map<Text, Json>, n: map<Text, Json>, k: Text, v: Json, w: Json)
    requires EqualMaps(m, n, false) && Equal(v, w, false)
    ensures EqualMaps(m[k := v], n[k := w], false)
  {
  }

  /**
   A value's canonical text names it alone among the values a JSON text without
   overflowing numbers or `-0` gives, up to key order and `undefined` fields,
   exactly when it is itself clean.
   */
  lemma {:induction false} UniqueIffClean(a: Json)
    requires WellFormed(a)
    ensures Clean(a) <==>
      forall b :: WellFormed(b) && Clean(b) && Canonical(a) == Canonical(b) ==> Equal(a, b, true)
  {
    if Clean(a) {
      forall b | WellFormed(b) && Clean(b) && Canonical(a) == Canonical(b) ensures Equal(a, b, true) {
        CanonicalIff(a, b);
        CleanIsStrict(a, b);
      }
    } else {
      var b := Normal(a);
      NormalIsClean(a);
      CanonicalIff(a, b);
      if Equal(a, b, true) {
        EqualToClean(a, b);
      }
    }
  }

  /** No scalar that counts is written as `null` or as `0`, the two texts that several scalars share. */
  ghost predicate Unmistakable(v: Json)
    decreases Size(v)
  {
    match v
    case Undefined => false
    case Null => false
    case Num(n) => n.Finite? && n.text != ZERO_TEXT
    case Arr(items) => UnmistakableItems(items)
    case Obj(fields) => forall k :: k in FieldMap(fields) ==> Unmistakable(FieldMap(fields)[k])
    case _ => true
  }

  ghost predicate UnmistakableItems(items: seq<Json>)
    decreases SizeItems(items)
  {
    items == [] || (Unmistakable(items[0]) && UnmistakableItems(items[1..]))
  }

  lemma {:induction false} UnmistakableIsStrict(a: Json, b: Json)
    requires Unmistakable(a) && Equal(a, b, false)
    ensures Equal(a, b, true)
    decreases Size(a), 0
  {
    if a.Arr? {
      UnmistakableItemsAreStrict(a.items, b.items);
    } else if a.Obj? {
      var m, n := FieldMap(a.fields), FieldMap(b.fields);
      forall k | k in m ensures Equal(m[k], n[k], true) {
        UnmistakableIsStrict(m[k], n[k]);
      }
    }
  }

  lemma {:induction false} UnmistakableItemsAreStrict(xs: seq<Json>, ys: seq<Json>)
    requires |xs| == |ys| && UnmistakableItems(xs) && EqualItems(xs, ys, false)
    ensures EqualItems(xs, ys, true)
    decreases SizeItems(xs), 1
  {
    if xs != [] {
      UnmistakableIsStrict(xs[0], ys[0]);
      UnmistakableItemsAreStrict(xs[1..], ys[1..]);
    }
  }

  /** Another value with the same text, if there is one: shared scalars change places. */
  function Twin(v: Json): Json
    decreases Size(v)
  {
    match v
    case Undefined => Null
    case Null => Num(Infinite(false))
    case Num(Finite(text)) => if text == ZERO_TEXT then Num(NegativeZero) else v
    case Num(NegativeZero) => Num(Finite(ZERO_TEXT))
    case Num(_) => Null
    case Arr(items) => Arr(TwinItems(items))
    case Obj(fields) => Obj(TwinFields(fields))
    case _ => v
  }

  function TwinItems(items: seq<Json>): (twins: seq<Json>)
    ensures |twins| == |items|
    decreases SizeItems(items)
  {
    if items == [] then [] else [Twin(items[0])] + TwinItems(items[1..])
  }

  function TwinFields(fields: seq<Field>): seq<Field>
    decreases SizeFields(fields)
  {
    if fields == [] then [] else
      [if fields[0].value.Undefined? then fields[0] else Field(fields[0].key, Twin(fields[0].value))]
          + TwinFields(fields[1..])
  }

  lemma {:induction false} TwinMap(fields: seq<Field>)
    ensures FieldMap(TwinFields(fields)).Keys == FieldMap(fields).Keys
    ensures forall k :: k in FieldMap(fields) ==> FieldMap(TwinFields(fields))[k] == Twin(FieldMap(fields)[k])
  {
    if fields != [] {
      TwinMap(fields[1..]);
      assert TwinFields(fields)[1..] == TwinFields(fields[1..]);
    }
  }

  lemma {:induction false} TwinIsEqual(v: Json)
    ensures Equal(v, Twin(v), false)
    ensures Equal(v, Twin(v), true) ==> Unmistakable(v)
    decreases Size(v), 0
  {
    if v.Arr? {
      TwinItemsAreEqual(v.items);
    } else if v.Obj? {
      var m := FieldMap(v.fields);
      TwinMap(v.fields);
      forall k | k in m ensures Equal(m[k], Twin(m[k]), false)
          && (Equal(m[k], Twin(m[k]), true) ==> Unmistakable(m[k])) {
        TwinIsEqual(m[k]);
      }
    }
  }

  lemma {:induction false} TwinItemsAreEqual(items: seq<Json>)
    ensures EqualItems(items, TwinItems(items), false)
    ensures EqualItems(items, TwinItems(items), true) ==> UnmistakableItems(items)
    decreases SizeItems(items), 1
  {
    if items != [] {
      TwinIsEqual(items[0]);
      TwinItemsAreEqual(items[1..]);
      assert TwinItems(items)[1..] == TwinItems(items[1..]);
    }
  }

  lemma {:induction false} TwinIsWellFormed(v: Json)
    requires WellFormed(v)
    ensures WellFormed(Twin(v))
    decreases Size(v), 0
  {
    if v.Arr? {
      TwinItemsAreWellFormed(v.items);
    } else if v.Obj? {
      TwinFieldsAreWellFormed(v.fields);
    }
  }

  lemma {:induction false} TwinItemsAreWellFormed(items: seq<Json>)
    requires WellFormedItems(items)
    ensures WellFormedItems(TwinItems(items))
    decreases SizeItems(items), 1
  {
    if items != [] {
      TwinIsWellFormed(items[0]);
      TwinItemsAreWellFormed(items[1..]);
      assert TwinItems(items)[1..] == TwinItems(items[1..]);
    }
  }

  ghost predicate HasField(fields: seq<Field>, key: Text) {
    exists f :: f in fields && f.key == key
  }

  lemma {:induction false} TwinKeys(fields: seq<Field>, key: Text)
    requires HasField(TwinFields(fields), key)
    ensures HasField(fields, key)
  {
    var f :| f in TwinFields(fields) && f.key == key;
    if f == TwinFields(fields)[0] {
      assert fields[0] in fields;
    } else {
      assert f in TwinFields(fields[1..]);
      TwinKeys(fields[1..], key);
      var g :| g in fields[1..] && g.key == key;
      assert g in fields;
    }
  }

  lemma {:induction false} TwinFieldsAreWellFormed(fields: seq<Field>)
    requires Distinct(fields) && WellFormedFields(fields)
    ensures Distinct(TwinFields(fields)) && WellFormedFields(TwinFields(fields))
    decreases SizeFields(fields), 1
  {
    if fields != [] {
      var rest := TwinFields(fields[1..]);
      TwinIsWellFormed(fields[0].value);
      TwinFieldsAreWellFormed(fields[1..]);
      assert TwinFields(fields)[1..] == rest;
      forall f | f in rest ensures f.key != fields[0].key {
        TwinKeys(fields[1..], f.key);
      }
    }
  }

  /**
   Among all values, a canonical text names one alone, up to key order and
   `undefined` fields, exactly when nothing in it is written as `null` or as `0`.
   */
  lemma {:induction false} UniqueIffUnmistakable(a: Json)
    requires WellFormed(a)
    ensures Unmistakable(a) <==> forall b :: WellFormed(b) && Canonical(a) == Canonical(b) ==> Equal(a, b, true)
  {
    if Unmistakable(a) {
      forall b | WellFormed(b) && Canonical(a) == Canonical(b) ensures Equal(a, b, true) {
        CanonicalIff(a, b);
        UnmistakableIsStrict(a, b);
      }
    } else {
      TwinIsWellFormed(a);
      TwinIsEqual(a);
      CanonicalIff(a, Twin(a));
    }
  }

  /** `[1e999]` and `[null]` are two bodies with one text, and so are `-0` and `0`. */
  lemma {:induction false} OverflowCollides()
    ensures
      var overflow, nothing := Arr([Num(Infinite(false))]), Arr([Null]);
      Canonical(overflow) == Canonical(nothing) && !Equal(overflow, nothing, true)
    ensures Canonical(Num(NegativeZero)) == Canonical(Num(Finite(ZERO_TEXT)))
  {
    var x, y := Arr([Num(Infinite(false))]), Arr([Null]);
    assert CanonicalItems(x.items) == Canonical(x.items[0]) + []
        && CanonicalItems(y.items) == Canonical(y.items[0]) + [];
    assert !Equal(x.items[0], y.items[0], true);
  }

  /** The hashed texts of two requests agree exactly when their bodies do, an absent body being `{}`. */
  lemma {:induction false} HashInputIff(a: Json, b: Json)
    requires WellFormed(a) && WellFormed(b)
    ensures HashInput(a) == HashInput(b) <==> Equal(RequestBody(a), RequestBody(b), false)
  {
    CanonicalIff(RequestBody(a), RequestBody(b));
  }
}

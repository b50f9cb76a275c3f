/**
 The key of one FairCoin payer (packages/backend/src/lib/faircoinPayerLimit.ts): an
 IPv4 address, in whichever form it arrives, or the /56 prefix of an IPv6 one.
 */
module PayerKey {
  import opened Results
  import opened Sequences
  import opened Text
  import opened Numerals

  // ------------------------------------------------------- the address parser

  /** `s.lastIndexOf(c)`, or the length of `s`. */
  function LastIndex(s: string, c: char): (i: nat)
    ensures i <= |s|
  {
    if s == [] then 0
    else if s[|s| - 1] == c then |s| - 1
    else
      var i := LastIndex(s[..|s| - 1], c);
      if i == |s| - 1 then |s| else i
  }

  /** The longest prefix of digits. */
  function Digits(s: string, base: nat): (digits: string)
    ensures IsNumeral(digits, base)
  {
    if s == [] || DigitValue(s[0]) >= base then [] else [s[0]] + Digits(s[1..], base)
  }

  predicate Signed(s: string) {
    s != [] && (s[0] == '-' || s[0] == '+')
  }

  /** Without the `0x` that base 16 allows. */
  function Unprefixed(s: string, base: nat): string {
    if base == 16 && |s| >= 2 && s[0] == '0' && (s[1] == 'x' || s[1] == 'X') then s[2..] else s
  }

  /** `Number.parseInt(s, base)`, `None` for NaN. */
  function ParseInt(s: string, base: nat): Option<int>
    requires 2 <= base <= 16
  {
    var t := TrimStart(s);
    var digits := Digits(Unprefixed(if Signed(t) then t[1..] else t, base), base);
    if digits == [] then None
    else Some(if Signed(t) && t[0] == '-' then -(Value(digits, base) as int) else Value(digits, base))
  }

  /** A decimal byte as `node:net` reads it, without leading zeros. */
  predicate IsOctet(s: string) {
    IsNumeral(s, 10) && 1 <= |s| <= 3 && (s[0] == '0' ==> |s| == 1) && Value(s, 10) <= 255
  }

  predicate IsIPv4(s: string) {
    var parts := Split(s, '.');
    |parts| == 4 && forall i :: 0 <= i < 4 ==> IsOctet(parts[i])
  }

  function DropZone(ip: string): string {
    ip[..Find(ip, '%')]
  }

  function QuadHextets(v4: string): string
    requires IsIPv4(v4)
  {
    var parts := Split(v4, '.');
    assert IsOctet(parts[0]) && IsOctet(parts[1]) && IsOctet(parts[2]) && IsOctet(parts[3]);
    HexPair(Value(parts[0], 10), Value(parts[1], 10), Value(parts[2], 10), Value(parts[3], 10))
  }

  /** `((a << 8) | b).toString(16)` and `((c << 8) | d).toString(16)`, of bytes. */
  function HexPair(a: nat, b: nat, c: nat, d: nat): string {
    Print(a * 256 + b, 16) + ":" + Print(c * 256 + d, 16)
  }

  /** An embedded dotted quad becomes two hextets. */
  function FoldQuad(addr: string): Option<string> {
    var i := LastIndex(addr, ':');
    if i == |addr| || '.' !in addr[i + 1..] then Some(addr)
    else if !IsIPv4(addr[i + 1..]) then None
    else Some(addr[..i + 1] + QuadHextets(addr[i + 1..]))
  }

  /** The index of the first `::`, or the length of `s`. */
  function FindPair(s: string): (i: nat)
    ensures i <= |s|
    ensures i < |s| ==> i + 1 < |s|
  {
    if |s| < 2 then |s|
    else if s[0] == ':' && s[1] == ':' then 0
    else 1 + FindPair(s[1..])
  }

  /** `s.split('::')` */
  function Halves(s: string): (halves: seq<string>)
    ensures |halves| >= 1
    decreases |s|
  {
    var i := FindPair(s);
    if i == |s| then [s] else [s[..i]] + Halves(s[i + 2..])
  }

  function GroupsOf(half: string): seq<string> {
    if half == "" then [] else Split(half, ':')
  }

  function Zeros(n: nat): (zeros: seq<string>)
    ensures |zeros| == n
  {
    if n == 0 then [] else ["0"] + Zeros(n - 1)
  }

  function Groups(addr: string): Option<seq<string>> {
    var halves := Halves(addr);
    if |halves| > 2 then None
    else if |halves| == 1 then
      var head := GroupsOf(halves[0]);
      if |head| != 8 then None else Some(head)
    else
      var head, tail := GroupsOf(halves[0]), GroupsOf(halves[1]);
      if |head| + |tail| > 8 then None else Some(head + Zeros(8 - (|head| + |tail|)) + tail)
  }

  function ParseGroups(groups: seq<string>): Option<seq<nat>> {
    if groups == [] then Some([]) else
      var value := ParseInt(if groups[0] == "" then "0" else groups[0], 16);
      var rest := ParseGroups(groups[1..]);
      if value.None? || value.value < 0 || value.value > 0xffff || rest.None? then None
      else Some([value.value] + rest.value)
  }

  function Hextets(ip: string): Option<seq<nat>> {
    var addr := FoldQuad(DropZone(ip));
    if addr.None? then None else
      var groups := Groups(addr.value);
      if groups.None? then None else ParseGroups(groups.value)
  }

  // ------------------------------------------------------ RFC 4291, section 2.2

  datatype Quad = Quad(a: nat, b: nat, c: nat, d: nat)
  {
    predicate Valid() {
      a < 256 && b < 256 && c < 256 && d < 256
    }

    function Octets(): seq<string> {
      [Print(a, 10), Print(b, 10), Print(c, 10), Print(d, 10)]
    }

    function Dotted(): string {
      Join(Octets(), ".")
    }

    function Pair(): seq<string> {
      [TwoOctets(a, b), TwoOctets(c, d)]
    }
  }

  function TwoOctets(high: nat, low: nat): string {
    Print(high * 256 + low, 16)
  }

  predicate IsGroup(s: string) {
    1 <= |s| <= 4 && IsNumeral(s, 16)
  }

  predicate IsZone(s: string) {
    s != "" && forall c :: c in s ==>
      '0' <= c <= '9' || 'a' <= c <= 'z' || 'A' <= c <= 'Z' || c == '-' || c == '.'
      || c == ':'
  }

  /**
   One way to write an address: groups of up to four hex digits of either case,
   perhaps a `::` for at least one group of zeros, perhaps a dotted quad for the
   last two groups, perhaps a zone.
   */
  datatype Spelling = Spelling(head: seq<string>, gap: bool, back: seq<string>, quad: Option<Quad>,
      zone: Option<string>)
  {
    function Written(): nat {
      |head| + |back| + if quad.Some? then 2 else 0
    }

    predicate Valid() {
      && (forall i :: 0 <= i < |head| ==> IsGroup(head[i]))
      && (forall i :: 0 <= i < |back| ==> IsGroup(back[i]))
      && (quad.Some? ==> quad.value.Valid()) && (zone.Some? ==> IsZone(zone.value))
      && (if gap then Written() <= 7 else back == [] && Written() == 8)
    }

    /** The dotted quad written as two groups. */
    function Folded(): Spelling {
      if quad.None? then this
      else if gap then this.(back := back + quad.value.Pair(), quad := None)
      else this.(head := head + quad.value.Pair(), quad := None)
    }

    function WithQuad(groups: seq<string>): seq<string> {
      if quad.Some? then groups + [quad.value.Dotted()] else groups
    }

    function Core(): string {
      if gap then Join(head, ":") + "::" + Join(WithQuad(back), ":") else Join(WithQuad(head), ":")
    }

    function Print(): string {
      Core() + if zone.Some? then "%" + zone.value else ""
    }
  }

  /** What a spelling stands for. */
  function Values(groups: seq<string>): seq<nat>
    requires forall i :: 0 <= i < |groups| ==> IsGroup(groups[i])
  {
    if groups == [] then [] else
      assert IsGroup(groups[0]);
      [Value(groups[0], 16)] + Values(groups[1..])
  }

  /** The address: the groups' values, zeros for the gap, two hextets for the quad. */
  function Means(sp: Spelling): seq<nat>
    requires sp.Valid()
  {
    if sp.gap then Values(sp.head) + Nothing(8 - sp.Written()) + (Values(sp.back) + QuadValues(sp.quad))
    else Values(sp.head) + QuadValues(sp.quad)
  }

  function QuadValues(quad: Option<Quad>): seq<nat> {
    if quad.Some? then [quad.value.a * 256 + quad.value.b, quad.value.c * 256 + quad.value.d] else []
  }

  function Nothing(n: nat): (zeros: seq<nat>)
    ensures |zeros| == n
  {
    if n == 0 then [] else [0] + Nothing(n - 1)
  }

  // ----------------------------------------------------------- every spelling parses

  lemma {:induction false} JoinLacks(parts: seq<string>, sep: string, c: char)
    requires c !in sep && forall p :: p in parts ==> c !in p
    ensures c !in Join(parts, sep)
  {
    if |parts| > 1 {
      JoinLacks(parts[1..], sep, c);
    }
  }

  lemma {:induction false} JoinSnoc(parts: seq<string>, last: string, sep: string)
    requires parts != []
    ensures Join(parts + [last], sep) == Join(parts, sep) + sep + last
  {
    if |parts| > 1 {
      assert (parts + [last])[1..] == parts[1..] + [last];
      JoinSnoc(parts[1..], last, sep);
    }
  }

  lemma {:induction false} NumeralLacks(s: string, base: nat, c: char)
    requires IsNumeral(s, base) && base <= 16 && DigitValue(c) >= base
    ensures c !in s
  {
  }

  lemma {:induction false} QuadSplits(q: Quad)
    requires q.Valid()
    ensures Split(q.Dotted(), '.') == q.Octets() && IsIPv4(q.Dotted())
  {
    OctetsOf(q);
    SplitJoin(q.Octets(), '.');
  }

  lemma {:induction false} OctetsOf(q: Quad)
    requires q.Valid()
    ensures forall p :: p in q.Octets() ==> IsOctet(p) && '.' !in p
    ensures forall i :: 0 <= i < 4 ==> q.Octets()[i] in q.Octets()
  {
    Octet(q.a);
    Octet(q.b);
    Octet(q.c);
    Octet(q.d);
  }

  lemma {:induction false} QuadLacks(q: Quad, c: char)
    requires q.Valid() && c != '.' && DigitValue(c) >= 10
    ensures c !in q.Dotted()
  {
    JoinLacks(q.Octets(), ".", c);
  }

  lemma {:induction false} QuadHasDot(q: Quad)
    requires q.Valid()
    ensures '.' in q.Dotted()
  {
    var rest := Join(q.Octets()[1..], ".");
    assert (Print(q.a, 10) + "." + rest)[|Print(q.a, 10)|] == '.';
  }

  lemma {:induction false} QuadHextetsPair(q: Quad)
    requires q.Valid() && IsIPv4(q.Dotted())
    ensures QuadHextets(q.Dotted()) == Join(q.Pair(), ":")
  {
    QuadSplits(q);
    OctetValues(q);
    ReadOctets(q.Dotted(), q.Octets(), q);
    PairJoined(q);
  }

  predicate AreOctetsOf(parts: seq<string>, q: Quad) {
    && |parts| == 4 && (forall i :: 0 <= i < 4 ==> IsNumeral(parts[i], 10))
    && Value(parts[0], 10) == q.a && Value(parts[1], 10) == q.b && Value(parts[2], 10) == q.c
      && Value(parts[3], 10) == q.d
  }

  lemma {:induction false} OctetValues(q: Quad)
    requires q.Valid()
    ensures AreOctetsOf(q.Octets(), q)
  {
    ValuePrint(q.a, 10);
    ValuePrint(q.b, 10);
    ValuePrint(q.c, 10);
    ValuePrint(q.d, 10);
  }

  lemma {:induction false} ReadOctets(v4: string, parts: seq<string>, q: Quad)
    requires IsIPv4(v4) && Split(v4, '.') == parts && AreOctetsOf(parts, q)
    ensures QuadHextets(v4) == HexPair(q.a, q.b, q.c, q.d)
  {
  }

  lemma {:induction false} PairJoined(q: Quad)
    ensures HexPair(q.a, q.b, q.c, q.d) == Join(q.Pair(), ":")
  {
    JoinPair(q.Pair()[0], q.Pair()[1]);
  }

  lemma {:induction false} JoinPair(x: string, y: string)
    ensures Join([x, y], ":") == x + ":" + y
  {
    assert [x, y][1..] == [y];
  }

  lemma {:induction false} Octet(n: nat)
    requires n < 256
    ensures IsOctet(Print(n, 10)) && Value(Print(n, 10), 10) == n
    ensures '.' !in Print(n, 10) && ':' !in Print(n, 10) && '%' !in Print(n, 10) && '/' !in Print(n, 10)
  {
    ValuePrint(n, 10);
    PrintLength(n, 3, 10);
    assert Pow(10, 3) == 1000 by { assert Pow(10, 1) == 10 && Pow(10, 2) == 100; }
  }

  lemma {:induction false} OctetGroup(high: nat, low: nat)
    requires high < 256 && low < 256
    ensures IsGroup(TwoOctets(high, low)) && Value(TwoOctets(high, low), 16) == high * 256 + low
  {
    HexGroup(high * 256 + low);
  }

  lemma {:induction false} PairGroups(q: Quad)
    requires q.Valid()
    ensures IsGroup(q.Pair()[0]) && IsGroup(q.Pair()[1])
  {
    OctetGroup(q.a, q.b);
    OctetGroup(q.c, q.d);
  }

  lemma {:induction false} HexGroup(n: nat)
    requires n < 65536
    ensures IsGroup(Print(n, 16)) && Value(Print(n, 16), 16) == n
  {
    ValuePrint(n, 16);
    PrintLength(n, 4, 16);
    assert Pow(16, 4) == 65536 by { assert Pow(16, 1) == 16 && Pow(16, 2) == 256 && Pow(16, 3) == 4096; }
  }

  lemma {:induction false} GroupLacks(s: string)
    requires IsGroup(s)
    ensures ':' !in s && '.' !in s && '%' !in s
  {
  }

  lemma {:induction false} FoldedValid(sp: Spelling)
    requires sp.Valid()
    ensures sp.Folded().Valid() && sp.Folded().quad.None?
  {
    if sp.quad.Some? {
      PairGroups(sp.quad.value);
    }
  }

  lemma {:induction false} CoreLacks(sp: Spelling, c: char)
    requires sp.Valid() && (c == '%' || (c == '.' && sp.quad.None?))
    ensures c !in sp.Core()
  {
    if sp.quad.Some? {
      QuadLacks(sp.quad.value, c);
    }
    forall p | p in sp.WithQuad(sp.head) || p in sp.WithQuad(sp.back) ensures c !in p {
      if p in sp.head || p in sp.back {
        assert IsGroup(p);
      }
    }
    JoinLacks(sp.head, ":", c);
    JoinLacks(sp.WithQuad(sp.head), ":", c);
    JoinLacks(sp.WithQuad(sp.back), ":", c);
  }

  lemma {:induction false} ZoneDropped(sp: Spelling)
    requires sp.Valid()
    ensures DropZone(sp.Print()) == sp.Core()
  {
    CoreLacks(sp, '%');
    if sp.zone.Some? {
      FindAfter(sp.Core(), '%', sp.zone.value);
        assert sp.Core() + ("%" + sp.zone.value) == sp.Core() + ['%'] + sp.zone.value;
    } else {
      FindNone(sp.Core(), '%');
      assert sp.Core() + "" == sp.Core();
    }
  }

  lemma {:induction false} LastIndexAfter(p: string, c: char, rest: string)
    requires c !in rest
    ensures LastIndex(p + [c] + rest, c) == |p|
    decreases |rest|
  {
    var s := p + [c] + rest;
    if rest != [] {
      assert s[..|s| - 1] == p + [c] + rest[..|rest| - 1];
      assert s[|s| - 1] == rest[|rest| - 1];
      LastIndexAfter(p, c, rest[..|rest| - 1]);
    }
  }

  lemma {:induction false} FoldLast(p: string, v4: string)
    requires IsIPv4(v4) && ':' !in v4 && '.' in v4
    ensures FoldQuad(p + ":" + v4) == Some(p + ":" + QuadHextets(v4))
  {
    LastIndexAfter(p, ':', v4);
    var addr := p + ":" + v4;
    assert addr[..|p| + 1] == p + ":" && addr[|p| + 1..] == v4;
  }

  /** A quad behind a colon is folded into two groups. */
  lemma {:induction false} FoldBehind(p: string, q: Quad)
    requires q.Valid()
    ensures FoldQuad(p + ":" + q.Dotted()) == Some(p + ":" + Join(q.Pair(), ":"))
  {
    QuadSplits(q);
    QuadLacks(q, ':');
    QuadHasDot(q);
    FoldLast(p, q.Dotted());
    QuadHextetsPair(q);
  }

  lemma {:induction false} JoinTwo(parts: seq<string>, x: string, y: string)
    requires parts != []
    ensures Join(parts + [x, y], ":") == Join(parts, ":") + ":" + Join([x, y], ":")
  {
    JoinSnoc(parts, x, ":");
    JoinSnoc(parts + [x], y, ":");
    assert parts + [x, y] == parts + [x] + [y];
    JoinPair(x, y);
    RegroupFour(Join(parts, ":") + ":", x, ":", y);
  }

  /** The quad after `before` and the groups `parts`. */
  lemma {:induction false} FoldAfter(before: string, parts: seq<string>, q: Quad)
    requires q.Valid() && parts != []
    ensures FoldQuad(before + Join(parts + [q.Dotted()], ":")) == Some(before + Join(parts + q.Pair(), ":"))
  {
    JoinSnoc(parts, q.Dotted(), ":");
    JoinTwo(parts, q.Pair()[0], q.Pair()[1]);
    FoldBehind(before + Join(parts, ":"), q);
    RegroupFour(before, Join(parts, ":"), ":", q.Dotted());
    RegroupFour(before, Join(parts, ":"), ":", Join(q.Pair(), ":"));
  }

  lemma {:induction false} FoldFirst(before: string, q: Quad)
    requires q.Valid()
    ensures FoldQuad(before + "::" + Join([q.Dotted()], ":")) == Some(before + "::" + Join(q.Pair(), ":"))
  {
    FoldBehind(before + ":", q);
    assert before + "::" == before + ":" + ":";
  }

  lemma {:induction false} FoldCore(sp: Spelling)
    requires sp.Valid()
    ensures FoldQuad(sp.Core()) == Some(sp.Folded().Core())
  {
    if sp.quad.None? {
      CoreLacks(sp, '.');
    } else {
      var q := sp.quad.value;
      if !sp.gap {
        FoldAfter("", sp.head, q);
        Empty(Join(sp.head + [q.Dotted()], ":"));
        Empty(Join(sp.head + q.Pair(), ":"));
      } else if sp.back == [] {
        assert sp.back + [q.Dotted()] == [q.Dotted()] && sp.back + q.Pair() == q.Pair();
        FoldFirst(Join(sp.head, ":"), q);
      } else {
        FoldAfter(Join(sp.head, ":") + "::", sp.back, q);
      }
    }
  }

  lemma {:induction false} Empty(s: string)
    ensures "" + s == s
  {
  }

  /** No two colons meet, at neither end stands one. */
  predicate IsSolid(s: string) {
    && (forall i :: 0 <= i < |s| - 1 ==> !(s[i] == ':' && s[i + 1] == ':'))
    && (s != [] ==> s[0] != ':' && s[|s| - 1] != ':')
  }

  predicate AreGroups(parts: seq<string>) {
    forall i :: 0 <= i < |parts| ==> parts[i] != [] && ':' !in parts[i]
  }

  lemma {:induction false} JoinSolid(parts: seq<string>)
    requires AreGroups(parts)
    ensures IsSolid(Join(parts, ":")) && (Join(parts, ":") == [] <==> parts == [])
  {
    if |parts| > 1 {
      JoinSolid(parts[1..]);
      SolidJoin(parts[0], Join(parts[1..], ":"));
    }
  }

  lemma {:induction false} SolidJoin(p: string, rest: string)
    requires p != [] && ':' !in p && rest != [] && IsSolid(rest)
    ensures IsSolid(p + ":" + rest)
  {
    var s := p + ":" + rest;
    forall i | 0 <= i < |s| - 1 ensures !(s[i] == ':' && s[i + 1] == ':') {
      if i > |p| {
        assert s[i] == rest[i - |p| - 1] && s[i + 1] == rest[i - |p|];
      } else if i < |p| {
        assert s[i] == p[i] && p[i] in p;
      }
    }
  }

  lemma {:induction false} NoPair(s: string)
    requires forall i :: 0 <= i < |s| - 1 ==> !(s[i] == ':' && s[i + 1] == ':')
    ensures FindPair(s) == |s|
  {
    if |s| >= 2 {
      forall i | 0 <= i < |s[1..]| - 1 ensures !(s[1..][i] == ':' && s[1..][i + 1] == ':') {
        assert s[1..][i] == s[i + 1] && s[1..][i + 1] == s[i + 2];
      }
      NoPair(s[1..]);
    }
  }

  lemma {:induction false} FirstPair(p: string, rest: string)
    requires IsSolid(p)
    ensures FindPair(p + "::" + rest) == |p|
  {
    if p == [] {
      assert p + "::" + rest == "::" + rest;
    } else {
      assert p[0..] == p;
      FirstPairFrom(p, 0, rest);
    }
  }

  lemma {:induction false} FirstPairFrom(p: string, i: nat, rest: string)
    requires IsSolid(p) && i <= |p| && p != []
    ensures FindPair(p[i..] + "::" + rest) == |p| - i
    decreases |p| - i
  {
    var s := p[i..] + "::" + rest;
    if i < |p| {
      assert s[0] == p[i] && s[1..] == p[i + 1..] + "::" + rest;
      if i + 1 < |p| {
        assert s[1] == p[i + 1];
      }
      FirstPairFrom(p, i + 1, rest);
    }
  }

  lemma {:induction false} SplitGap(p: string, rest: string)
    requires IsSolid(p) && IsSolid(rest)
    ensures Halves(p + "::" + rest) == [p, rest]
  {
    var s := p + "::" + rest;
    FirstPair(p, rest);
    NoPair(rest);
    assert s[..|p|] == p && s[|p| + 2..] == rest;
  }

  lemma {:induction false} GroupsBack(parts: seq<string>)
    requires AreGroups(parts)
    ensures GroupsOf(Join(parts, ":")) == parts
  {
    JoinSolid(parts);
    if parts != [] {
      forall p | p in parts ensures ':' !in p {
        var i :| 0 <= i < |parts| && parts[i] == p;
      }
      SplitJoin(parts, ':');
    }
  }

  /** The groups a spelling without a quad stands for, written out. */
  function Filled(sp: Spelling): seq<string> {
    if sp.gap && |sp.head| + |sp.back| <= 8 then sp.head + Zeros(8 - (|sp.head| + |sp.back|)) + sp.back else sp.head
  }

  lemma {:induction false} SpelledGroups(parts: seq<string>)
    requires forall i :: 0 <= i < |parts| ==> IsGroup(parts[i])
    ensures AreGroups(parts)
  {
    forall i | 0 <= i < |parts| ensures parts[i] != [] && ':' !in parts[i] {
      GroupLacks(parts[i]);
    }
  }

  lemma {:induction false} GroupsOfWhole(head: seq<string>)
    requires AreGroups(head) && |head| == 8
    ensures Groups(Join(head, ":")) == Some(head)
  {
    JoinSolid(head);
    GroupsBack(head);
    NoPair(Join(head, ":"));
    assert Halves(Join(head, ":")) == [Join(head, ":")];
  }

  lemma {:induction false} GroupsOfGap(head: seq<string>, back: seq<string>)
    requires AreGroups(head) && AreGroups(back) && |head| + |back| <= 8
    ensures Groups(Join(head, ":") + "::" + Join(back, ":")) == Some(head + Zeros(8 - (|head| + |back|)) + back)
  {
    JoinSolid(head);
    JoinSolid(back);
    GroupsBack(head);
    GroupsBack(back);
    SplitGap(Join(head, ":"), Join(back, ":"));
  }

  lemma {:induction false} GroupsOfCore(sp: Spelling)
    requires sp.Valid() && sp.quad.None?
    ensures Groups(sp.Core()) == Some(Filled(sp)) && |Filled(sp)| == 8
  {
    SpelledGroups(sp.head);
    SpelledGroups(sp.back);
    if sp.gap {
      GroupsOfGap(sp.head, sp.back);
    } else {
      GroupsOfWhole(sp.head);
    }
  }

  lemma {:induction false} AllDigits(s: string, base: nat)
    requires IsNumeral(s, base)
    ensures Digits(s, base) == s
  {
    if s != [] {
      assert s[0] in s;
      AllDigits(s[1..], base);
    }
  }

  lemma {:induction false} PowersOf16(k: nat)
    requires k <= 4
    ensures Pow(16, k) == [1, 16, 256, 4096, 65536][k]
  {
    if k > 0 {
      PowersOf16(k - 1);
    }
  }

  lemma {:induction false} HexBound(s: string)
    requires IsGroup(s)
    ensures Value(s, 16) < 65536
  {
    ValueBound(s, 16);
    PowersOf16(|s|);
  }

  lemma {:induction false} HexIsBare(s: string)
    requires IsGroup(s)
    ensures TrimStart(s) == s && !Signed(s) && Unprefixed(s, 16) == s
  {
    assert s[0] in s;
    assert !IsSpace(s[0]);
    if |s| >= 2 {
      assert s[1] in s;
    }
  }

  lemma {:induction false} ParseHex(s: string)
    requires IsGroup(s)
    ensures ParseInt(s, 16) == Some(Value(s, 16))
  {
    HexIsBare(s);
    AllDigits(s, 16);
  }

  lemma {:induction false} ParseGroup(s: string)
    requires IsGroup(s)
    ensures ParseInt(s, 16) == Some(Value(s, 16)) && Value(s, 16) < 65536
  {
    ParseHex(s);
    HexBound(s);
  }

  lemma {:induction false} ParseAll(groups: seq<string>)
    requires forall i :: 0 <= i < |groups| ==> IsGroup(groups[i])
    ensures ParseGroups(groups) == Some(Values(groups))
  {
    if groups != [] {
      ParseGroup(groups[0]);
      ParseAll(groups[1..]);
      ParseStep(groups, Value(groups[0], 16), Values(groups[1..]));
    }
  }

  lemma {:induction false} ParseStep(groups: seq<string>, first: nat, rest: seq<nat>)
    requires groups != [] && groups[0] != "" && ParseInt(groups[0], 16) == Some(first) && first < 65536
    requires ParseGroups(groups[1..]) == Some(rest)
    ensures ParseGroups(groups) == Some([first] + rest)
  {
  }

  lemma {:induction false} ValuesBound(groups: seq<string>)
    requires forall i :: 0 <= i < |groups| ==> IsGroup(groups[i])
    ensures |Values(groups)| == |groups| && forall i :: 0 <= i < |groups| ==> Values(groups)[i] < 65536
  {
    if groups != [] {
      HexBound(groups[0]);
      ValuesBound(groups[1..]);
    }
  }

  lemma {:induction false} ZeroGroups(n: nat)
    ensures forall i :: 0 <= i < n ==> Zeros(n)[i] == "0" && IsGroup(Zeros(n)[i])
  {
    if n > 0 {
      ZeroGroups(n - 1);
    }
  }

  lemma {:induction false} GroupsAppend(a: seq<string>, b: seq<string>)
    requires forall i :: 0 <= i < |a| ==> IsGroup(a[i])
    requires forall i :: 0 <= i < |b| ==> IsGroup(b[i])
    ensures forall i :: 0 <= i < |a + b| ==> IsGroup((a + b)[i])
  {
    forall i | 0 <= i < |a + b| ensures IsGroup((a + b)[i]) {
      assert (a + b)[i] == if i < |a| then a[i] else b[i - |a|];
    }
  }

  lemma {:induction false} ValuesAppend(a: seq<string>, b: seq<string>)
    requires forall i :: 0 <= i < |a| ==> IsGroup(a[i])
    requires forall i :: 0 <= i < |b| ==> IsGroup(b[i])
    ensures forall i :: 0 <= i < |a + b| ==> IsGroup((a + b)[i])
    ensures Values(a + b) == Values(a) + Values(b)
  {
    GroupsAppend(a, b);
    if a == [] {
      assert a + b == b;
    } else {
      ValuesAppend(a[1..], b);
      assert (a + b)[1..] == a[1..] + b;
      Regroup([Value(a[0], 16)], Values(a[1..]), Values(b));
    }
  }

  lemma {:induction false} ValuesZeros(n: nat)
    ensures forall i :: 0 <= i < n ==> IsGroup(Zeros(n)[i])
    ensures Values(Zeros(n)) == Nothing(n)
  {
    ZeroGroups(n);
    if n > 0 {
      ValuesZeros(n - 1);
      assert Zeros(n)[1..] == Zeros(n - 1);
      ValueOfZero();
    }
  }

  lemma {:induction false} ValueOfZero()
    ensures IsGroup("0") && Value("0", 16) == 0
  {
    var s := "0";
    assert forall c :: c in s ==> c == '0';
    assert s[..|s| - 1] == "" && Value("", 16) == 0;
    assert Value(s, 16) == WithDigit(0, DigitValue('0'), 16);
  }

  lemma {:induction false} ValuesPair(q: Quad)
    requires q.Valid()
    ensures IsGroup(q.Pair()[0]) && IsGroup(q.Pair()[1])
    ensures Values(q.Pair()) == [q.a * 256 + q.b, q.c * 256 + q.d]
  {
    OctetGroup(q.a, q.b);
    OctetGroup(q.c, q.d);
    ValuesTwo(TwoOctets(q.a, q.b), TwoOctets(q.c, q.d), q.a * 256 + q.b, q.c * 256 + q.d);
  }

  lemma {:induction false} ValuesTwo(x: string, y: string, m: nat, n: nat)
    requires IsGroup(x) && IsGroup(y) && Value(x, 16) == m && Value(y, 16) == n
    ensures Values([x, y]) == [m, n]
  {
    assert [x, y][1..] == [y] && [y][1..] == [];
    assert Values([y]) == [n] + Values([]);
  }

  lemma {:induction false} ValuesWithPair(groups: seq<string>, q: Quad)
    requires q.Valid() && forall i :: 0 <= i < |groups| ==> IsGroup(groups[i])
    ensures forall i :: 0 <= i < |groups + q.Pair()| ==> IsGroup((groups + q.Pair())[i])
    ensures Values(groups + q.Pair()) == Values(groups) + [q.a * 256 + q.b, q.c * 256 + q.d]
  {
    ValuesPair(q);
    ValuesAppend(groups, q.Pair());
  }

  lemma {:induction false} ValuesWithGap(head: seq<string>, n: nat, back: seq<string>)
    requires forall i :: 0 <= i < |head| ==> IsGroup(head[i])
    requires forall i :: 0 <= i < |back| ==> IsGroup(back[i])
    ensures forall i :: 0 <= i < |head + Zeros(n) + back| ==> IsGroup((head + Zeros(n) + back)[i])
    ensures Values(head + Zeros(n) + back) == Values(head) + Nothing(n) + Values(back)
  {
    ValuesZeros(n);
    ValuesAppend(head, Zeros(n));
    ValuesAppend(head + Zeros(n), back);
  }

  lemma {:induction false} FilledShape(sp: Spelling)
    requires sp.Valid()
    ensures Filled(sp.Folded()) ==
      if sp.gap then sp.head + Zeros(8 - sp.Written()) + sp.Folded().back else sp.Folded().head
  {
  }

  lemma {:induction false} LastValues(groups: seq<string>, quad: Option<Quad>, folded: seq<string>)
    requires forall i :: 0 <= i < |groups| ==> IsGroup(groups[i])
    requires if quad.Some? then quad.value.Valid() && folded == groups + quad.value.Pair() else folded == groups
    ensures forall i :: 0 <= i < |folded| ==> IsGroup(folded[i])
    ensures Values(folded) == Values(groups) + QuadValues(quad)
  {
    if quad.Some? {
      ValuesWithPair(groups, quad.value);
    }
  }

  lemma {:induction false} GapValues(head: seq<string>, n: nat, back: seq<string>, quad: Option<Quad>,
      folded: seq<string>)
    requires forall i :: 0 <= i < |head| ==> IsGroup(head[i])
    requires forall i :: 0 <= i < |back| ==> IsGroup(back[i])
    requires if quad.Some? then quad.value.Valid() && folded == back + quad.value.Pair() else folded == back
    ensures forall i :: 0 <= i < |head + Zeros(n) + folded| ==> IsGroup((head + Zeros(n) + folded)[i])
    ensures Values(head + Zeros(n) + folded) == Values(head) + Nothing(n) + (Values(back) + QuadValues(quad))
  {
    LastValues(back, quad, folded);
    ValuesWithGap(head, n, folded);
  }

  lemma {:induction false} FoldedBack(sp: Spelling)
    requires sp.Valid() && sp.gap
    ensures sp.Folded().back == if sp.quad.Some? then sp.back + sp.quad.value.Pair() else sp.back
    ensures sp.Written() <= 7
  {
  }

  lemma {:induction false} GapMeans(sp: Spelling, filled: seq<string>, folded: seq<string>)
    requires sp.Valid() && sp.gap && filled == sp.head + Zeros(8 - sp.Written()) + folded
    requires folded == if sp.quad.Some? then sp.back + sp.quad.value.Pair() else sp.back
    ensures forall i :: 0 <= i < |filled| ==> IsGroup(filled[i])
    ensures Values(filled) == Means(sp)
  {
    GapValues(sp.head, 8 - sp.Written(), sp.back, sp.quad, folded);
  }

  /** Written out, the groups have the values of the address. */
  lemma {:induction false} FilledMeans(sp: Spelling)
    requires sp.Valid()
    ensures forall i :: 0 <= i < |Filled(sp.Folded())| ==> IsGroup(Filled(sp.Folded())[i])
    ensures Values(Filled(sp.Folded())) == Means(sp)
  {
    if sp.gap {
      FilledShape(sp);
      FoldedBack(sp);
      GapMeans(sp, Filled(sp.Folded()), sp.Folded().back);
    } else {
      FilledShape(sp);
      LastValues(sp.head, sp.quad, sp.Folded().head);
    }
  }

  /** Every spelling of an address parses back to it. */
  lemma {:induction false} SpellingParses(sp: Spelling)
    requires sp.Valid()
    ensures Hextets(sp.Print()) == Some(Means(sp)) && |Means(sp)| == 8
    ensures forall i :: 0 <= i < 8 ==> Means(sp)[i] < 65536
  {
    ZoneDropped(sp);
    FoldCore(sp);
    FoldedValid(sp);
    GroupsOfCore(sp.Folded());
    FilledMeans(sp);
    ParseAll(Filled(sp.Folded()));
    ValuesBound(Filled(sp.Folded()));
  }

  // ------------------------------------------------------------------------ the key

  const SUBNET_BITS := 56

  /** `hextet & mask`, the mask keeping the first `keep` of the 16 bits. */
  function KeepBits(hextet: nat, keep: nat): nat
    requires keep <= 16
  {
    Floor(hextet, Pow(2, 16 - keep))
  }

  function Floor(n: nat, step: nat): nat
    requires step >= 1
  {
    DivMod(n, step);
    n - n % step
  }

  function Masked(hextets: seq<nat>, bits: nat): (masked: seq<nat>)
    ensures |masked| == |hextets|
  {
    seq(|hextets|, i requires 0 <= i < |hextets| =>
      if i * 16 >= bits then 0 else KeepBits(hextets[i], if bits - i * 16 >= 16 then 16 else bits - i * 16))
  }

  function Printed(numbers: seq<nat>, base: nat): (texts: seq<string>)
    requires 2 <= base <= 16
    ensures |texts| == |numbers|
  {
    if numbers == [] then [] else [Numerals.Print(numbers[0], base)] + Printed(numbers[1..], base)
  }

  function MaskIPv6(ip: string, bits: nat): string {
    var hextets := Hextets(ip);
    if hextets.None? then ip
    else Join(Printed(Masked(hextets.value, bits), 16), ":") + PrefixLength(bits)
  }

  function PrefixLength(bits: nat): string {
    "/" + Numerals.Print(bits, 10)
  }

  predicate IsMapped(hextets: seq<nat>) {
    |hextets| == 8 && hextets[..5] == [0, 0, 0, 0, 0] && hextets[5] == 0xffff
  }

  /** The IPv4 address in the last two hextets. */
  function MappedQuad(hextets: seq<nat>): Quad
    requires |hextets| == 8
  {
    Quad(hextets[6] / 256, hextets[6] % 256, hextets[7] / 256, hextets[7] % 256)
  }

  /** What `isIPv6` accepts. */
  ghost predicate IsIPv6(ip: string) {
    exists sp: Spelling :: sp.Valid() && sp.Print() == ip
  }

  ghost function PayerNetworkKey(ip: Option<string>): string {
    if ip.None? || ip.value == "" then "unknown"
    else if !IsIPv6(ip.value) then ip.value
    else
      var hextets := Hextets(ip.value);
      if hextets.None? then ip.value
      else if IsMapped(hextets.value) then MappedQuad(hextets.value).Dotted()
      else MaskIPv6(ip.value, SUBNET_BITS)
  }

  // -------------------------------------------------------------- who one payer is

  /** The address as a number of 128 bits. */
  function Number(hextets: seq<nat>): nat {
    if hextets == [] then 0 else Number(hextets[..|hextets| - 1]) * 65536 + hextets[|hextets| - 1]
  }

  datatype Client = V4(quad: Quad) | V6(spelling: Spelling)
  {
    predicate Valid() {
      match this
      case V4(quad) => quad.Valid()
      case V6(spelling) => spelling.Valid()
    }

    function Print(): string {
      match this
      case V4(quad) => quad.Dotted()
      case V6(spelling) => spelling.Print()
    }
  }

  const SITE := 0x100_0000_0000_0000_0000

  /** One IPv4 host, or one IPv6 site by the top 56 bits of its address. */
  datatype Payer = Host(quad: Quad) | Site(prefix: nat)

  function PayerOf(client: Client): Payer
    requires client.Valid()
  {
    match client
    case V4(quad) => Host(quad)
    case V6(sp) =>
      SpellingParses(sp);
      if IsMapped(Means(sp)) then Host(MappedQuad(Means(sp))) else Site(Number(Means(sp)) / SITE)
  }

  lemma {:induction false} JoinHasColon(parts: seq<string>)
    requires |parts| >= 2
    ensures ':' in Join(parts, ":")
  {
    assert Join(parts, ":") == parts[0] + ":" + Join(parts[1..], ":");
    assert (parts[0] + ":" + Join(parts[1..], ":"))[|parts[0]|] == ':';
  }

  lemma {:induction false} SpellingHasColon(sp: Spelling)
    requires sp.Valid()
    ensures ':' in sp.Print() && sp.Print() != ""
  {
    if sp.gap {
      assert (Join(sp.head, ":") + "::" + Join(sp.WithQuad(sp.back), ":"))[|Join(sp.head, ":")|] == ':';
    } else {
      JoinHasColon(sp.WithQuad(sp.head));
    }
    assert sp.Core()[..] <= sp.Print();
  }

  lemma {:induction false} KeyOfV4(q: Quad)
    requires q.Valid()
    ensures PayerNetworkKey(Some(q.Dotted())) == q.Dotted()
  {
    QuadLacks(q, ':');
    if IsIPv6(q.Dotted()) {
      var sp: Spelling :| sp.Valid() && sp.Print() == q.Dotted();
      SpellingHasColon(sp);
    }
    QuadHasDot(q);
  }

  function SiteText(hextets: seq<nat>): string {
    Join(Printed(Masked(hextets, SUBNET_BITS), 16), ":") + PrefixLength(SUBNET_BITS)
  }

  lemma {:induction false} KeyOfV6(sp: Spelling)
    requires sp.Valid()
    ensures |Means(sp)| == 8
    ensures PayerNetworkKey(Some(sp.Print())) == if IsMapped(Means(sp)) then MappedQuad(Means(sp)).Dotted()
      else SiteText(Means(sp))
  {
    SpellingParses(sp);
    SpellingHasColon(sp);
  }

  lemma {:induction false} DottedInjective(p: Quad, q: Quad)
    requires p.Valid() && q.Valid() && p.Dotted() == q.Dotted()
    ensures p == q
  {
    QuadSplits(p);
    QuadSplits(q);
    SameOctets(p, q);
  }

  lemma {:induction false} SameOctets(p: Quad, q: Quad)
    requires p.Octets() == q.Octets()
    ensures p == q
  {
    assert p.Octets()[0] == q.Octets()[0] && p.Octets()[1] == q.Octets()[1] && p.Octets()[2] == q.Octets()[2]
        && p.Octets()[3] == q.Octets()[3];
    PrintInjective(p.a, q.a, 10);
    PrintInjective(p.b, q.b, 10);
    PrintInjective(p.c, q.c, 10);
    PrintInjective(p.d, q.d, 10);
  }

  lemma {:induction false} PrintedInjective(a: seq<nat>, b: seq<nat>)
    requires Printed(a, 16) == Printed(b, 16)
    ensures a == b
  {
    assert |a| == |b|;
    if a != [] {
      assert Printed(a, 16)[0] == Printed(b, 16)[0] && Printed(a, 16)[1..] == Printed(b, 16)[1..];
      PrintInjective(a[0], b[0], 16);
      PrintedInjective(a[1..], b[1..]);
    }
  }

  lemma {:induction false} PrintedLacks(numbers: seq<nat>, c: char)
    requires DigitValue(c) >= 16
    ensures forall p :: p in Printed(numbers, 16) ==> c !in p
  {
    if numbers != [] {
      NumeralLacks(Numerals.Print(numbers[0], 16), 16, c);
      PrintedLacks(numbers[1..], c);
    }
  }

  lemma {:induction false} SiteTextInjective(a: seq<nat>, b: seq<nat>)
    requires |a| == |b| == 8
    ensures SiteText(a) == SiteText(b) <==> Masked(a, SUBNET_BITS) == Masked(b, SUBNET_BITS)
  {
    var x, y := Printed(Masked(a, SUBNET_BITS), 16), Printed(Masked(b, SUBNET_BITS), 16);
    if SiteText(a) == SiteText(b) {
      SameBefore(Join(x, ":"), Join(y, ":"), PrefixLength(SUBNET_BITS));
      PrintedLacks(Masked(a, SUBNET_BITS), ':');
      PrintedLacks(Masked(b, SUBNET_BITS), ':');
      SplitJoin(x, ':');
      SplitJoin(y, ':');
      PrintedInjective(Masked(a, SUBNET_BITS), Masked(b, SUBNET_BITS));
    }
  }

  lemma {:induction false} SameBefore(a: string, b: string, end: string)
    requires a + end == b + end
    ensures a == b
  {
    assert |a| == |b|;
    assert a == (a + end)[..|a|] && b == (b + end)[..|b|];
  }

  lemma {:induction false} SiteHasSlash(hextets: seq<nat>)
    ensures '/' in SiteText(hextets)
  {
    var j := Join(Printed(Masked(hextets, SUBNET_BITS), 16), ":");
    assert SiteText(hextets)[|j|] == '/';
  }

  /** The first three hextets and the upper half of the fourth. */
  lemma {:induction false} MaskedAt(h: seq<nat>)
    requires |h| == 8
    ensures Masked(h, SUBNET_BITS) == [h[0], h[1], h[2], h[3] - h[3] % 256, 0, 0, 0, 0]
  {
    assert Pow(2, 0) == 1;
    assert Pow(2, 8) == 256 by { assert Pow(2, 1) == 2 && Pow(2, 2) == 4 && Pow(2, 3) == 8 && Pow(2, 4) == 16
        && Pow(2, 5) == 32 && Pow(2, 6) == 64 && Pow(2, 7) == 128; }
  }

  lemma {:induction false} NumberSnoc(h: seq<nat>, last: nat)
    ensures Number(h + [last]) == Number(h) * 65536 + last
  {
    assert (h + [last])[..|h|] == h;
  }

  lemma {:induction false} NumberAppend(h: seq<nat>, a: nat, b: nat, c: nat, d: nat)
    ensures Number(h + [a, b, c, d]) == Number(h) * 0x1_0000_0000_0000_0000 + Number4(a, b, c, d)
  {
    NumberSnoc(h, a);
    NumberSnoc(h + [a], b);
    NumberSnoc(h + [a] + [b], c);
    NumberSnoc(h + [a] + [b] + [c], d);
    assert h + [a, b, c, d] == h + [a] + [b] + [c] + [d];
  }

  /** The digits of the address in base 65536. */
  lemma {:induction false} NumberOf(h: seq<nat>)
    requires |h| == 8
    ensures Number(h) == Number4(h[0], h[1], h[2], h[3]) * 0x1_0000_0000_0000_0000 + Number4(h[4], h[5], h[6], h[7])
  {
    NumberAppend([], h[0], h[1], h[2], h[3]);
    NumberAppend(h[..4], h[4], h[5], h[6], h[7]);
    assert [] + [h[0], h[1], h[2], h[3]] == h[..4];
    assert h[..4] + [h[4], h[5], h[6], h[7]] == h;
  }

  function Number4(a: nat, b: nat, c: nat, d: nat): nat {
    ((a * 65536 + b) * 65536 + c) * 65536 + d
  }

  lemma {:induction false} SitePrefix(h: seq<nat>)
    requires |h| == 8 && forall i :: 0 <= i < 8 ==> h[i] < 65536
    ensures Number(h) / SITE == ((h[0] * 65536 + h[1]) * 65536 + h[2]) * 256 + h[3] / 256
  {
    NumberOf(h);
    DropLow(Number4(h[0], h[1], h[2], h[3]), Number4(h[4], h[5], h[6], h[7]));
  }

  lemma {:induction false} DropLow(high: nat, low: nat)
    requires low < 0x1_0000_0000_0000_0000
    ensures (high * 0x1_0000_0000_0000_0000 + low) / SITE == high / 256
  {
  }

  lemma {:induction false} TopIff(a: nat, b: nat, c: nat, d: nat, w: nat, x: nat, y: nat, z: nat)
    requires b < 65536 && c < 65536 && d < 256 && x < 65536 && y < 65536 && z < 256
    ensures ((a * 65536 + b) * 65536 + c) * 256 + d == ((w * 65536 + x) * 65536 + y) * 256 + z <==>
      a == w && b == x
      && c == y && d == z
  {
  }

  lemma {:induction false} FloorIff(d: nat, z: nat)
    ensures d - d % 256 == z - z % 256 <==> d / 256 == z / 256
  {
  }

  /** Two addresses have the same masked form exactly when their top 56 bits agree. */
  lemma {:induction false} MaskedIff(a: seq<nat>, b: seq<nat>)
    requires IsAddress(a) && IsAddress(b)
    ensures Masked(a, SUBNET_BITS) == Masked(b, SUBNET_BITS) <==> Number(a) / SITE == Number(b) / SITE
  {
    MaskedAt(a);
    MaskedAt(b);
    SitePrefix(a);
    SitePrefix(b);
    TopIff(a[0], a[1], a[2], a[3] / 256, b[0], b[1], b[2], b[3] / 256);
    FloorIff(a[3], b[3]);
    SameSite(a[0], a[1], a[2], a[3] - a[3] % 256, b[0], b[1], b[2], b[3] - b[3] % 256);
  }

  lemma {:induction false} SameSite(a: nat, b: nat, c: nat, d: int, w: nat, x: nat, y: nat, z: int)
    ensures [a, b, c, d, 0, 0, 0, 0] == [w, x, y, z, 0, 0, 0, 0] <==> a == w && b == x && c == y && d == z
  {
    var s, t := [a, b, c, d, 0, 0, 0, 0], [w, x, y, z, 0, 0, 0, 0];
    if s == t {
      assert s[0] == t[0] && s[1] == t[1] && s[2] == t[2] && s[3] == t[3];
    }
  }

  predicate IsAddress(h: seq<nat>) {
    |h| == 8 && forall i :: 0 <= i < 8 ==> h[i] < 65536
  }

  lemma {:induction false} SiteTextIff(a: seq<nat>, b: seq<nat>)
    requires IsAddress(a) && IsAddress(b)
    ensures SiteText(a) == SiteText(b) <==> Number(a) / SITE == Number(b) / SITE
  {
    SiteTextInjective(a, b);
    MaskedIff(a, b);
  }

  lemma {:induction false} DottedIsNoSite(q: Quad, h: seq<nat>)
    requires q.Valid()
    ensures q.Dotted() != SiteText(h)
  {
    QuadLacks(q, '/');
    SiteHasSlash(h);
  }

  lemma {:induction false} KeyOfPayer(x: Client) returns (address: seq<nat>)
    requires x.Valid()
    ensures PayerOf(x).Host? ==> PayerOf(x).quad.Valid() && PayerNetworkKey(Some(x.Print())) == PayerOf(x).quad.Dotted()
    ensures PayerOf(x).Site? ==>
      IsAddress(address) && PayerOf(x).prefix == Number(address) / SITE
      && PayerNetworkKey(Some(x.Print())) == SiteText(address)
  {
    match x
    case V4(q) =>
      KeyOfV4(q);
      address := [];
    case V6(sp) =>
      KeyOfV6(sp);
      SpellingParses(sp);
      address := Means(sp);
  }

  /**
   Two clients have one key exactly when they are one payer: the same IPv4 host,
   in whichever spelling, or IPv6 addresses with the same top 56 bits.
   */
  lemma {:induction false} SamePayerIff(x: Client, y: Client)
    requires x.Valid() && y.Valid()
    ensures PayerNetworkKey(Some(x.Print())) == PayerNetworkKey(Some(y.Print())) <==> PayerOf(x) == PayerOf(y)
  {
    var a := KeyOfPayer(x);
    var b := KeyOfPayer(y);
    SameKeyIff(PayerOf(x), a, PayerOf(y), b);
  }

  function KeyText(payer: Payer, address: seq<nat>): string {
    if payer.Host? then payer.quad.Dotted() else SiteText(address)
  }

  predicate Located(payer: Payer, address: seq<nat>) {
    if payer.Host? then payer.quad.Valid() else IsAddress(address) && payer.prefix == Number(address) / SITE
  }

  lemma {:induction false} SameKeyIff(p: Payer, a: seq<nat>, q: Payer, b: seq<nat>)
    requires Located(p, a) && Located(q, b)
    ensures KeyText(p, a) == KeyText(q, b) <==> p == q
  {
    if p.Host? && q.Host? {
      if p.quad.Dotted() == q.quad.Dotted() {
        DottedInjective(p.quad, q.quad);
      }
    } else if p.Host? {
      DottedIsNoSite(p.quad, b);
    } else if q.Host? {
      DottedIsNoSite(q.quad, a);
    } else {
      SiteTextIff(a, b);
    }
  }
}
/**
 String operations the modelled code uses: first occurrence, `split`, `join`, and
 the white space `trim` removes.
 */
module Text {
  /** The index of the first `c` in `s`, or `|s|` when there is none. */
  function Find(s: string, c: char): (i: nat)
    ensures i <= |s|
    ensures i < |s| ==> s[i] == c
  {
    if s == [] || s[0] == c then 0 else
      var i := Find(s[1..], c);
      assert s[..i + 1] == [s[0]] + s[1..][..i];
      i + 1
  }

  lemma {:induction false} FindAfter(p: string, c: char, rest: string)
    requires c !in p
    ensures Find(p + [c] + rest, c) == |p|
  {
    if p != [] {
      assert (p + [c] + rest)[1..] == p[1..] + [c] + rest;
      FindAfter(p[1..], c, rest);
    }
  }

  lemma {:induction false} FindNone(p: string, c: char)
    requires c !in p
    ensures Find(p, c) == |p|
  {
  }

  lemma {:induction false} FindBefore(s: string, c: char)
    ensures c !in s[..Find(s, c)]
  {
    if s != [] && s[0] != c {
      FindBefore(s[1..], c);
      var i := Find(s[1..], c);
      assert s[..i + 1] == [s[0]] + s[1..][..i];
    }
  }

  /** `s.split(c)` for a one-character separator: never empty. */
  function Split(s: string, c: char): (parts: seq<string>)
    ensures |parts| >= 1
    decreases |s|
  {
    var i := Find(s, c);
    if i == |s| then [s] else [s[..i]] + Split(s[i + 1..], c)
  }

  function Join(parts: seq<string>, sep: string): string {
    if |parts| == 0 then ""
    else if |parts| == 1 then parts[0]
    else parts[0] + sep + Join(parts[1..], sep)
  }

  lemma {:induction false} SplitJoin(parts: seq<string>, c: char)
    requires |parts| >= 1
    requires forall p :: p in parts ==> c !in p
    ensures Split(Join(parts, [c]), c) == parts
  {
    if |parts| > 1 {
      var rest := Join(parts[1..], [c]);
      SplitJoin(parts[1..], c);
      SplitCons(parts[0], c, rest);
      assert [parts[0]] + parts[1..] == parts;
    } else {
      FindNone(parts[0], c);
    }
  }

  lemma {:induction false} JoinSplit(s: string, c: char)
    ensures Join(Split(s, c), [c]) == s
    decreases |s|
  {
    var i := Find(s, c);
    if i < |s| {
      JoinSplit(s[i + 1..], c);
      JoinCons(s[..i], Split(s[i + 1..], c), [c]);
      Rejoin(s, i);
    }
  }

  lemma {:induction false} JoinCons(first: string, rest: seq<string>, sep: string)
    requires rest != []
    ensures Join([first] + rest, sep) == first + sep + Join(rest, sep)
  {
    assert ([first] + rest)[1..] == rest;
  }

  lemma {:induction false} Rejoin(s: string, i: nat)
    requires i < |s|
    ensures s[..i] + [s[i]] + s[i + 1..] == s
  {
  }

  /** Splitting at the first separator. */
  lemma {:induction false} SplitCons(p: string, c: char, rest: string)
    requires c !in p
    ensures Split(p + [c] + rest, c) == [p] + Split(rest, c)
  {
    FindAfter(p, c, rest);
    var s := p + [c] + rest;
    assert s[..|p|] == p && s[|p| + 1..] == rest;
  }

  /** The white space and line terminators `String.prototype.trim` removes (ECMA-262, TrimString). */
  predicate IsSpace(c: char) {
    var u := c as int;
    0x9 <= u <= 0xD || u == 0x20 || u == 0xA0 || u == 0x1680 || 0x2000 <= u <= 0x200A
    || u == 0x2028 || u == 0x2029 || u == 0x202F || u == 0x205F || u == 0x3000 || u == 0xFEFF
  }

  function TrimStart(s: string): string
  {
    if s == [] || !IsSpace(s[0]) then s else TrimStart(s[1..])
  }

  function TrimEnd(s: string): string
  {
    if s == [] || !IsSpace(s[|s| - 1]) then s else TrimEnd(s[..|s| - 1])
  }

  function Trim(s: string): string {
    TrimEnd(TrimStart(s))
  }

  /** Outside `i..j` there is only white space, and what is inside neither begins nor ends in any. */
  ghost predicate CutsSpaces(s: string, i: nat, j: nat) {
    && i <= j <= |s|
    && (forall k :: 0 <= k < i || j <= k < |s| ==> IsSpace(s[k]))
    && (i < j ==> !IsSpace(s[i]) && !IsSpace(s[j - 1]))
  }

  /** A trim cuts off the white space at both ends, and nothing else. */
  lemma {:induction false} TrimMeans(s: string) returns (i: nat, j: nat)
    ensures CutsSpaces(s, i, j) && Trim(s) == s[i..j]
  {
    i := SpacesBefore(s);
    var n := SpacesAfter(s[i..]);
    j := i + n;
    assert s[i..][..n] == s[i..j];
    forall k | j <= k < |s| ensures IsSpace(s[k]) {
      assert s[k] == s[i..][k - i];
    }
  }

  lemma {:induction false} SpacesBefore(s: string) returns (i: nat)
    ensures i <= |s| && TrimStart(s) == s[i..] && (i < |s| ==> !IsSpace(s[i]))
    ensures forall k :: 0 <= k < i ==> IsSpace(s[k])
  {
    i := 0;
    if s != [] && IsSpace(s[0]) {
      i := SpacesBefore(s[1..]);
      forall k | 0 < k < i + 1 ensures IsSpace(s[k]) {
        assert s[k] == s[1..][k - 1];
      }
      i := i + 1;
    }
  }

  lemma {:induction false} SpacesAfter(s: string) returns (n: nat)
    ensures n <= |s| && TrimEnd(s) == s[..n] && (n > 0 ==> !IsSpace(s[n - 1]))
    ensures forall k :: n <= k < |s| ==> IsSpace(s[k])
  {
    n := |s|;
    if s != [] && IsSpace(s[|s| - 1]) {
      n := SpacesAfter(s[..|s| - 1]);
      assert s[..|s| - 1][..n] == s[..n];
      forall k | n <= k < |s| - 1 ensures IsSpace(s[k]) {
        assert s[k] == s[..|s| - 1][k];
      }
    }
  }

  /** A string without white space is its own trim. */
  lemma {:induction false} TrimNone(s: string)
    requires forall c :: c in s ==> !IsSpace(c)
    ensures Trim(s) == s
  {
  }

  /** Surrounding spaces do not change a trim. */
  lemma {:induction false} TrimPadded(s: string)
    ensures Trim([' '] + s + [' ']) == Trim(s)
  {
    var padded := s + [' '];
    assert ([' '] + s + [' '])[1..] == padded;
    TrimStartAppend(s);
  }

  lemma {:induction false} TrimStartAppend(s: string)
    ensures TrimEnd(TrimStart(s + [' '])) == TrimEnd(TrimStart(s))
  {
    var padded := s + [' '];
    if s == [] {
      assert padded[1..] == [];
    } else if IsSpace(s[0]) {
      assert padded[1..] == s[1..] + [' '];
      TrimStartAppend(s[1..]);
    } else {
      assert padded[..|s|] == s;
    }
  }
}

/** Positional numerals in bases 2 to 16, as `toString(base)` prints and `parseInt` / `BigInt` read them. */
module Numerals {
  function Pow(b: nat, e: nat): (p: nat)
    ensures b >= 1 ==> p >= 1
  {
    if e == 0 then 1 else b * Pow(b, e - 1)
  }

  lemma {:induction false} PowAdd(b: nat, d: nat, e: nat)
    ensures Pow(b, d + e) == Pow(b, d) * Pow(b, e)
  {
    if d > 0 {
      PowAdd(b, d - 1, e);
      MulAssoc(b, Pow(b, d - 1), Pow(b, e));
    }
  }

  lemma {:induction false} MulAssoc(x: nat, y: nat, z: nat)
    ensures x * (y * z) == (x * y) * z
  {
  }

  function DigitChar(d: nat): char
    requires d < 16
  {
    "0123456789abcdef"[d]
  }

  /** The value of a hex digit of either case; 16 for any other character. */
  function DigitValue(c: char): (d: nat)
    ensures d <= 16
  {
    if '0' <= c <= '9' then c as nat - '0' as nat
    else if 'a' <= c <= 'f' then c as nat - 'a' as nat + 10
    else if 'A' <= c <= 'F' then c as nat - 'A' as nat + 10
    else 16
  }

  lemma {:induction false} DigitRoundTrip(d: nat)
    requires d < 16
    ensures DigitValue(DigitChar(d)) == d
  {
  }

  predicate IsNumeral(s: string, base: nat) {
    forall c :: c in s ==> DigitValue(c) < base
  }

  function Value(s: string, base: nat): nat
    requires base <= 16 && IsNumeral(s, base)
  {
    if s == [] then 0 else
      assert s[|s| - 1] in s;
      WithDigit(Value(s[..|s| - 1], base), DigitValue(s[|s| - 1]), base)
  }

  /** One more digit. */
  function WithDigit(v: nat, digit: nat, base: nat): nat {
    v * base + digit
  }

  /** `n.toString(base)`: no leading zero. */
  function Print(n: nat, base: nat): (s: string)
    requires 2 <= base <= 16
    ensures |s| >= 1 && IsNumeral(s, base)
    ensures s[0] == '0' ==> n == 0 && s == "0"
    decreases n
  {
    DigitRoundTrip(n % base);
    if n < base then [DigitChar(n)] else
      DivisionShrinks(n, base);
      Print(n / base, base) + [DigitChar(n % base)]
  }

  lemma {:induction false} DivisionShrinks(n: nat, base: nat)
    requires base >= 2 && n >= base
    ensures 0 < n / base < n
  {
    DivMod(n, base);
  }

  lemma {:induction false} DivMod(n: nat, base: nat)
    requires base > 0
    ensures (n / base) * base + n % base == n
    ensures 0 <= n % base < base
  {
  }

  function Quotient(n: nat, d: nat): nat
    requires d > 0
  {
    DivMod(n, d);
    n / d
  }

  function Remainder(n: nat, d: nat): nat
    requires d > 0
  {
    n % d
  }

  lemma {:induction false} MulMonotone(a: nat, b: nat, c: nat)
    requires a <= b
    ensures a * c <= b * c
  {
  }

  lemma {:induction false} ValuePrint(n: nat, base: nat)
    requires 2 <= base <= 16
    ensures Value(Print(n, base), base) == n
    decreases n
  {
    var d := n % base;
    DigitRoundTrip(d);
    if n < base {
      assert Print(n, base)[..0] == [];
    } else {
      DivisionShrinks(n, base);
      ValuePrint(n / base, base);
      ValueSnoc(Print(n / base, base), d, base);
      DivMod(n, base);
    }
  }

  lemma {:induction false} ValueSnoc(s: string, d: nat, base: nat)
    requires d < base <= 16 && IsNumeral(s, base)
    ensures IsNumeral(s + [DigitChar(d)], base)
    ensures Value(s + [DigitChar(d)], base) == Value(s, base) * base + d
  {
    DigitRoundTrip(d);
    var t := s + [DigitChar(d)];
    assert t[..|t| - 1] == s;
  }

  lemma {:induction false} PrintInjective(m: nat, n: nat, base: nat)
    requires 2 <= base <= 16
    requires Print(m, base) == Print(n, base)
    ensures m == n
  {
    ValuePrint(m, base);
    ValuePrint(n, base);
  }

  lemma {:induction false} Distribute(x: nat, p: nat, y: nat, base: nat)
    ensures (x * p + y) * base == x * (base * p) + y * base
  {
  }

  lemma {:induction false} ValueAppend(a: string, b: string, base: nat)
    requires base <= 16 && IsNumeral(a, base) && IsNumeral(b, base)
    ensures IsNumeral(a + b, base)
    ensures Value(a + b, base) == Value(a, base) * Pow(base, |b|) + Value(b, base)
  {
    if b == [] {
      assert a + b == a;
    } else {
      var init := b[..|b| - 1];
      var d := b[|b| - 1];
      assert (a + b)[..|a + b| - 1] == a + init;
      ValueAppend(a, init, base);
      Distribute(Value(a, base), Pow(base, |init|), Value(init, base), base);
    }
  }

  lemma {:induction false} ValueZeros(s: string, base: nat)
    requires 1 <= base <= 16
    requires forall i :: 0 <= i < |s| ==> s[i] == '0'
    ensures IsNumeral(s, base) && Value(s, base) == 0
  {
    if s != [] {
      ValueZeros(s[..|s| - 1], base);
    }
  }

  lemma {:induction false} LiftBound(v: nat, d: nat, p: nat, base: nat)
    requires v < p && d < base
    ensures v * base + d < base * p
  {
    MulMonotone(v + 1, p, base);
  }

  lemma {:induction false} ValueBound(s: string, base: nat)
    requires 1 <= base <= 16 && IsNumeral(s, base)
    ensures Value(s, base) < Pow(base, |s|)
  {
    if s != [] {
      var init := s[..|s| - 1];
      ValueBound(init, base);
      var v, p := Value(init, base), Pow(base, |init|);
      assert s[|s| - 1] in s;
      LiftBound(v, DigitValue(s[|s| - 1]), p, base);
    }
  }

  /** A number below `base^k` prints in at most `k` digits, and no fewer digits hold it. */
  lemma {:induction false} PrintLength(n: nat, k: nat, base: nat)
    requires 2 <= base <= 16 && k >= 1
    ensures n < Pow(base, k) <==> |Print(n, base)| <= k
    decreases n
  {
    if n < base {
      assert Pow(base, k) == base * Pow(base, k - 1);
      MulMonotone(1, Pow(base, k - 1), base);
    } else {
      DivisionShrinks(n, base);
      DivMod(n, base);
      if k > 1 {
        PrintLength(n / base, k - 1, base);
        DivBelow(n, base, Pow(base, k - 1));
      } else {
        assert Pow(base, 1) == base * Pow(base, 0);
      }
    }
  }

  lemma {:induction false} DivBelow(n: nat, base: nat, p: nat)
    requires base >= 1
    ensures n < base * p <==> n / base < p
  {
    DivMod(n, base);
    if n / base < p {
      MulMonotone(n / base + 1, p, base);
    } else {
      MulMonotone(p, n / base, base);
    }
  }

  function Repeat(c: char, n: nat): (s: string)
    ensures |s| == n
  {
    if n == 0 then [] else [c] + Repeat(c, n - 1)
  }

  lemma {:induction false} RepeatMembers(c: char, n: nat)
    ensures forall i :: 0 <= i < n ==> Repeat(c, n)[i] == c
  {
    if n > 0 {
      RepeatMembers(c, n - 1);
    }
  }

  /** `s.padStart(width, '0')`. */
  function PadStart(s: string, width: nat): string {
    if |s| >= width then s else Repeat('0', width - |s|) + s
  }

  lemma {:induction false} ValuePadStart(s: string, width: nat, base: nat)
    requires 1 <= base <= 16 && IsNumeral(s, base)
    ensures IsNumeral(PadStart(s, width), base)
    ensures |PadStart(s, width)| >= width
    ensures Value(PadStart(s, width), base) == Value(s, base)
  {
    if |s| < width {
      var zeros := Repeat('0', width - |s|);
      RepeatMembers('0', width - |s|);
      ValueZeros(zeros, base);
      ValueAppend(zeros, s, base);
    }
  }
}

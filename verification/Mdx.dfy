/**
 Spelling contract strings as MDX (scripts/api-docs/mdx.ts): code spans found by
 the pattern `(`+)([\s\S]*?)\1`, prose escaped around them, and fenced blocks.
 */
module Mdx {
  import opened Sequences
  import opened Text
  import opened Numerals

  const TICK: char := '`'

  /** How many backticks `s` starts with. */
  function Run(s: string): (n: nat)
    ensures n <= |s|
  {
    if s == [] || s[0] != TICK then 0 else 1 + Run(s[1..])
  }

  /** The longest run of backticks in `s`. */
  function LongestRun(s: string): (n: nat)
    ensures n >= Run(s)
  {
    if s == [] then 0 else
      var rest := LongestRun(s[1..]);
      if Run(s) > rest then Run(s) else rest
  }

  lemma {:induction false} RunAtMostLongest(s: string, j: nat)
    requires j <= |s|
    ensures Run(s[j..]) <= LongestRun(s)
  {
    if j > 0 {
      assert s[j..] == s[1..][j - 1..];
      RunAtMostLongest(s[1..], j - 1);
    }
  }

  lemma {:induction false} RunAppend(s: string, t: string)
    ensures Run(s + t) == if Run(s) == |s| then |s| + Run(t) else Run(s)
  {
    if s == [] {
      assert s + t == t;
    } else if s[0] == TICK {
      assert (s + t)[1..] == s[1..] + t;
      RunAppend(s[1..], t);
    }
  }

  // -------------------------------------------------------------- code spans

  /** A match at the start of a string: `ticks` backticks, `inner`, `ticks` backticks. */
  datatype Match = NoMatch | Match(ticks: nat, inner: string)
  {
    function Length(): nat {
      if Match? then 2 * ticks + |inner| else 0
    }
  }

  /** The least index from `from` at which `ticks` backticks stand, or `|s|` and more when there is none. */
  function Closing(s: string, ticks: nat, from: nat): (j: nat)
    requires ticks >= 1 && from <= |s|
    ensures from <= j <= |s| && (j < |s| ==> j + ticks <= |s|)
    decreases |s| - from
  {
    if from == |s| || Run(s[from..]) >= ticks then from else Closing(s, ticks, from + 1)
  }

  /** Backtracking over the opening group: `ticks` backticks, then fewer, as long as none closes. */
  function MatchWith(s: string, ticks: nat): (m: Match)
    requires ticks <= Run(s)
    ensures m.Match? ==> 1 <= m.ticks && m.Length() <= |s|
  {
    if ticks == 0 then NoMatch else
      var j := Closing(s, ticks, ticks);
      if j < |s| then Match(ticks, s[ticks..j]) else MatchWith(s, ticks - 1)
  }

  function MatchHere(s: string): (m: Match)
    ensures m.Match? ==> 1 <= m.ticks && m.Length() <= |s|
  {
    MatchWith(s, Run(s))
  }

  datatype Found = NotFound | Found(at: nat, m: Match)

  /** The leftmost match: the first index at which one starts. */
  function NextMatch(s: string): (f: Found)
    ensures f.Found? ==> f.m.Match? && 1 <= f.m.ticks && f.at + f.m.Length() <= |s|
  {
    if s == [] then NotFound
    else if MatchHere(s).Match? then Found(0, MatchHere(s))
    else
      match NextMatch(s[1..])
      case NotFound => NotFound
      case Found(at, m) => Found(at + 1, m)
  }

  function SpanText(ticks: nat, inner: string): string {
    Repeat(TICK, ticks) + inner + Repeat(TICK, ticks)
  }

  /** `text(value)`: prose escaped, code spans as they are. */
  function Prose(value: string): string
    decreases |value|
  {
    match NextMatch(value)
    case NotFound => EscapeEach(value)
    case Found(at, m) => Around(EscapeEach(value[..at]), m, Prose(value[at + m.Length()..]))
  }

  function Around(before: string, m: Match, after: string): string
    requires m.Match?
  {
    before + SpanText(m.ticks, m.inner) + after
  }

  /** `headingText(markdown)`: code spans lose their backticks. */
  function HeadingText(markdown: string): string
    decreases |markdown|
  {
    match NextMatch(markdown)
    case NotFound => markdown
    case Found(at, m) => markdown[..at] + Trim(m.inner) + HeadingText(markdown[at + m.Length()..])
  }

  lemma {:induction false} RunText(s: string, n: nat)
    requires n <= Run(s)
    ensures s[..n] == Repeat(TICK, n)
  {
    if n > 0 {
      RunText(s[1..], n - 1);
      assert s[..n] == [s[0]] + s[1..][..n - 1];
    }
  }

  lemma {:induction false} SplitMatch(s: string, ticks: nat, j: nat)
    requires ticks <= Run(s) && ticks <= j < |s| && Run(s[j..]) >= ticks
    ensures s[..j + ticks] == SpanText(ticks, s[ticks..j])
  {
    RunText(s, ticks);
    RunText(s[j..], ticks);
    Slice(s, j, ticks);
    SplitThree(s, ticks, j, j + ticks);
  }

  lemma {:induction false} Slice(s: string, j: nat, n: nat)
    requires j + n <= |s|
    ensures s[j..][..n] == s[j..j + n]
  {
  }

  lemma {:induction false} SplitThree(s: string, i: nat, j: nat, k: nat)
    requires i <= j <= k <= |s|
    ensures s[..k] == s[..i] + s[i..j] + s[j..k]
  {
  }

  lemma {:induction false} ClosingRun(s: string, ticks: nat, from: nat)
    requires ticks >= 1 && from <= |s| && Closing(s, ticks, from) < |s|
    ensures Run(s[Closing(s, ticks, from)..]) >= ticks
    decreases |s| - from
  {
    if Run(s[from..]) < ticks {
      ClosingRun(s, ticks, from + 1);
    }
  }

  lemma {:induction false} MatchText(s: string, ticks: nat)
    requires ticks <= Run(s) && MatchWith(s, ticks).Match?
    ensures
      var m := MatchWith(s, ticks);
      s[..m.Length()] == SpanText(m.ticks, m.inner)
  {
    var j := Closing(s, ticks, ticks);
    if j < |s| {
      ClosingRun(s, ticks, ticks);
      SplitMatch(s, ticks, j);
    } else {
      MatchText(s, ticks - 1);
    }
  }

  /** What a match stands for is what the string holds there. */
  lemma {:induction false} NextMatchText(s: string, at: nat, m: Match)
    requires NextMatch(s) == Found(at, m)
    ensures s[at..at + m.Length()] == SpanText(m.ticks, m.inner)
  {
    if MatchHere(s).Match? {
      MatchText(s, Run(s));
    } else {
      NextMatchText(s[1..], at - 1, m);
      assert s[1..][at - 1..at - 1 + m.Length()] == s[at..at + m.Length()];
    }
  }

  /** The transform of `text`: four replacements, one after the other. */
  method EscapePlain(plain: string) returns (out: string)
    ensures out == EscapeEach(plain)
  {
    out := Escape(plain);
    EscapeCharByChar(plain);
  }

  lemma {:induction false} ProseUnfolds(s: string)
    requires NextMatch(s).Found?
    ensures var f := NextMatch(s); Prose(s) == Around(EscapeEach(s[..f.at]), f.m, Prose(s[f.at + f.m.Length()..]))
  {
  }

  lemma {:induction false} ProseAtMatch(s: string, at: nat, m: Match)
    requires NextMatch(s) == Found(at, m)
    ensures Prose(s) == EscapeEach(s[..at]) + SpanText(m.ticks, m.inner) + Prose(s[at + m.Length()..])
  {
    ProseUnfolds(s);
  }

  /** The prose up to the end of a match, and what follows it. */
  lemma {:induction false} ProseCut(s: string, at: nat, m: Match, span: string)
    requires NextMatch(s) == Found(at, m) && span == s[at..at + m.Length()]
    ensures Prose(s) == EscapeEach(s[..at]) + span + Prose(s[at + m.Length()..])
  {
    NextMatchText(s, at, m);
    ProseAtMatch(s, at, m);
  }

  lemma {:induction false} NextCut(s: string, found: Found, end: nat)
    requires found == NextMatch(s) && found.Found? && end == found.at + found.m.Length()
    ensures found.at < end <= |s| && Prose(s) == EscapeEach(s[..found.at]) + s[found.at..end] + Prose(s[end..])
  {
    var Found(at, m) := found;
    ProseCut(s, at, m, s[at..at + m.Length()]);
  }

  /** One turn of the loop: the plain text before the match is escaped, the match is copied. */
  method WriteMatch(out: string, rest: string, at: nat, end: nat) returns (out': string, rest': string)
    requires at < end <= |rest|
    requires Prose(rest) == EscapeEach(rest[..at]) + rest[at..end] + Prose(rest[end..])
    ensures out' + Prose(rest') == out + Prose(rest) && |rest'| < |rest|
  {
    RegroupFour(out, EscapeEach(rest[..at]), rest[at..end], Prose(rest[end..]));
    var plain := EscapePlain(rest[..at]);
    out', rest' := out + plain + rest[at..end], rest[end..];
  }

  /** The next match, if there is one, written out. */
  method WriteNext(out: string, rest: string) returns (more: bool, out': string, rest': string)
    ensures out' + Prose(rest') == out + Prose(rest)
    ensures if more then |rest'| < |rest| else Prose(rest') == EscapeEach(rest') && |rest'| == |rest|
  {
    var found := NextMatch(rest);
    if found.NotFound? {
      ProseWithoutMatch(rest);
      return false, out, rest;
    }
    var end := found.at + found.m.Length();
    NextCut(rest, found, end);
    out', rest' := WriteMatch(out, rest, found.at, end);
    more := true;
  }

  /** `outsideCode(value, transform)` with the transform of `text`: a loop over the successive matches. */
  method WriteProse(value: string) returns (out: string)
    ensures out == Prose(value)
  {
    out := "";
    var rest, more := value, true;
    while more
      invariant Prose(value) == out + Prose(rest)
      invariant !more ==> Prose(rest) == EscapeEach(rest)
      decreases |rest|, more
    {
      more, out, rest := WriteNext(out, rest);
    }
    var plain := EscapePlain(rest);
    out := out + plain;
  }

  lemma {:induction false} ProseWithoutMatch(s: string)
    requires NextMatch(s).NotFound?
    ensures Prose(s) == EscapeEach(s)
  {
  }

  // ------------------------------------------------------------------- prose

  function Replace(s: string, from: char, to: string): string {
    if s == [] then [] else (if s[0] == from then to else [s[0]]) + Replace(s[1..], from, to)
  }

  /** The escapes of `text`, one replacement after the other. */
  function Escape(plain: string): string {
    var backslashes := Replace(plain, '\\', "\\\\");
    var braces := Replace(Replace(backslashes, '{', "\\{"), '}', "\\}");
    Replace(Replace(braces, '<', "&lt;"), '>', "&gt;")
  }

  function EscapeChar(c: char): string {
    if c == '\\' then "\\\\"
    else if c == '{' then "\\{"
    else if c == '}' then "\\}"
    else if c == '<' then "&lt;"
    else if c == '>' then "&gt;"
    else [c]
  }

  function EscapeEach(s: string): string {
    if s == [] then [] else EscapeChar(s[0]) + EscapeEach(s[1..])
  }

  lemma {:induction false} ReplaceAppend(s: string, t: string, from: char, to: string)
    ensures Replace(s + t, from, to) == Replace(s, from, to) + Replace(t, from, to)
  {
    if s == [] {
      assert s + t == t;
    } else {
      assert (s + t)[1..] == s[1..] + t;
      ReplaceAppend(s[1..], t, from, to);
    }
  }

  lemma {:induction false} EscapeAppend(s: string, t: string)
    ensures Escape(s + t) == Escape(s) + Escape(t)
  {
    ReplaceAppend(s, t, '\\', "\\\\");
    var s1, t1 := Replace(s, '\\', "\\\\"), Replace(t, '\\', "\\\\");
    ReplaceAppend(s1, t1, '{', "\\{");
    var s2, t2 := Replace(s1, '{', "\\{"), Replace(t1, '{', "\\{");
    ReplaceAppend(s2, t2, '}', "\\}");
    var s3, t3 := Replace(s2, '}', "\\}"), Replace(t2, '}', "\\}");
    ReplaceAppend(s3, t3, '<', "&lt;");
    ReplaceAppend(Replace(s3, '<', "&lt;"), Replace(t3, '<', "&lt;"), '>', "&gt;");
  }

  /** The four replacements never touch what an earlier one wrote. */
  lemma {:induction false} EscapeCharByChar(s: string)
    ensures Escape(s) == EscapeEach(s)
  {
    if s != [] {
      assert s == [s[0]] + s[1..];
      EscapeAppend([s[0]], s[1..]);
      EscapeOne(s[0]);
      EscapeCharByChar(s[1..]);
    }
  }

  lemma {:induction false} ReplaceNone(s: string, from: char, to: string)
    requires from !in s
    ensures Replace(s, from, to) == s
  {
    if s != [] {
      ReplaceNone(s[1..], from, to);
    }
  }

  lemma {:induction false} ReplaceChar(c: char, to: string)
    ensures Replace([c], c, to) == to
  {
    assert [c][1..] == [];
  }

  lemma {:induction false} EscapeOne(c: char)
    ensures Escape([c]) == EscapeChar(c)
  {
    ReplaceStep(c, [c], '\\', "\\\\");
    var r1 := Replace([c], '\\', "\\\\");
    ReplaceStep(c, r1, '{', "\\{");
    var r2 := Replace(r1, '{', "\\{");
    ReplaceStep(c, r2, '}', "\\}");
    var r3 := Replace(r2, '}', "\\}");
    ReplaceStep(c, r3, '<', "&lt;");
    ReplaceStep(c, Replace(r3, '<', "&lt;"), '>', "&gt;");
  }

  /** A replacement escapes its own character, and leaves alone any other, and what is escaped without it. */
  lemma {:induction false} ReplaceStep(c: char, r: string, from: char, to: string)
    requires if c == from then r == [c] && to == EscapeChar(c) else from !in r
    ensures Replace(r, from, to) == if c == from then EscapeChar(c) else r
  {
    if c == from {
      ReplaceChar(c, to);
    } else {
      ReplaceNone(r, from, to);
    }
  }

  /** `code(value)`. */
  function Code(value: string): string {
    SpanText(LongestRun(value) + 1, Padded(value))
  }

  function Padded(value: string): string {
    var pad := if value != "" && (value[0] == TICK || value[|value| - 1] == TICK) then " " else "";
    pad + value + pad
  }

  // ------------------------------------------------- code spans survive prose

  lemma {:induction false} LongestRunAppend(s: string, c: char)
    requires c != TICK
    ensures LongestRun(s + [c]) == LongestRun(s)
    ensures LongestRun([c] + s) == LongestRun(s)
  {
    assert ([c] + s)[1..] == s;
    if s == [] {
      assert s + [c] == [c];
      assert LongestRun([c][1..]) == 0;
    } else {
      assert (s + [c])[1..] == s[1..] + [c];
      RunAppend(s, [c]);
      LongestRunAppend(s[1..], c);
    }
  }

  lemma {:induction false} PaddedFacts(v: string)
    ensures LongestRun(Padded(v)) == LongestRun(v)
    ensures Run(Padded(v)) == 0
    ensures v != "" ==> Padded(v) != "" && Padded(v)[|Padded(v)| - 1] != TICK
  {
    if v != "" && (v[0] == TICK || v[|v| - 1] == TICK) {
      LongestRunAppend(v, ' ');
      LongestRunAppend([' '] + v, ' ');
    } else {
      assert Padded(v) == v;
    }
  }

  lemma {:induction false} RepeatRun(n: nat, t: string)
    ensures Run(Repeat(TICK, n) + t) == n + Run(t)
  {
    if n == 0 {
      assert Repeat(TICK, n) + t == t;
    } else {
      assert (Repeat(TICK, n) + t)[1..] == Repeat(TICK, n - 1) + t;
      RepeatRun(n - 1, t);
    }
  }

  lemma {:induction false} FullRun(s: string)
    requires s != "" && s[|s| - 1] != TICK
    ensures Run(s) < |s|
  {
    if |s| > 1 {
      FullRun(s[1..]);
    }
  }

  /** A run inside a body that does not end in a backtick stops before the body does. */
  lemma {:induction false} RunInside(body: string, tail: string, j: nat)
    requires j < |body| && body[|body| - 1] != TICK
    ensures Run((body + tail)[j..]) <= LongestRun(body)
  {
    assert (body + tail)[j..] == body[j..] + tail;
    RunAppend(body[j..], tail);
    RunAtMostLongest(body, j);
    FullRun(body[j..]);
  }

  lemma {:induction false} ClosingIs(s: string, n: nat, from: nat, j: nat)
    requires n >= 1 && from <= j < |s| && Run(s[j..]) >= n
    requires forall i :: from <= i < j ==> Run(s[i..]) < n
    ensures Closing(s, n, from) == j
    decreases j - from
  {
    if from < j {
      ClosingIs(s, n, from + 1, j);
    }
  }

  /** `s` is `n` backticks, a body, and a tail. */
  predicate IsSpan(s: string, n: nat, body: string, tail: string) {
    && |s| == n + |body| + |tail|
    && s[n..n + |body|] == body
    && s[n + |body|..] == tail
    && s == Repeat(TICK, n) + (body + tail)
    && forall i :: 0 <= i < |body| ==> s[n + i..] == (body + tail)[i..]
  }

  lemma {:induction false} SpanIs(n: nat, body: string, q: string)
    ensures IsSpan(SpanText(n, body) + q, n, body, Repeat(TICK, n) + q)
  {
    Reassociate(Repeat(TICK, n), body, Repeat(TICK, n), q);
    SpanOf(Repeat(TICK, n), body, Repeat(TICK, n) + q);
  }

  lemma {:induction false} Reassociate(a: string, b: string, c: string, d: string)
    ensures a + b + c + d == a + (b + (c + d))
  {
  }

  lemma {:induction false} SpanOf(marks: string, body: string, tail: string)
    requires marks == Repeat(TICK, |marks|)
    ensures IsSpan(marks + (body + tail), |marks|, body, tail)
  {
    InTheMiddle(marks, body, tail);
    forall i | 0 <= i < |body| ensures (marks + (body + tail))[|marks| + i..] == (body + tail)[i..] {
      DropAppend(marks, body + tail, i);
    }
    DropAppend(marks, body + tail, |body|);
    DropAppend(body, tail, 0);
  }

  lemma {:induction false} DropAppend(a: string, b: string, i: nat)
    requires i <= |b|
    ensures (a + b)[|a| + i..] == b[i..]
  {
  }

  lemma {:induction false} InTheMiddle(a: string, b: string, c: string)
    ensures (a + (b + c))[|a|..|a| + |b|] == b
  {
  }

  lemma {:induction false} RunOfSpan(s: string, n: nat, body: string, tail: string)
    requires IsSpan(s, n, body, tail) && Run(body) == 0 && body != ""
    ensures Run(s) == n
  {
    RepeatRun(n, body + tail);
    RunAppend(body, tail);
  }

  lemma {:induction false} RunInsideEnds(body: string, tail: string, j: nat)
    requires j < |body| && body[|body| - 1] != TICK
    ensures j + Run((body + tail)[j..]) <= |body|
  {
    assert (body + tail)[j..] == body[j..] + tail;
    RunAppend(body[j..], tail);
    FullRun(body[j..]);
  }

  lemma {:induction false} BodySuffix(s: string, n: nat, body: string, tail: string, i: nat)
    requires IsSpan(s, n, body, tail) && n <= i < n + |body|
    ensures s[i..] == (body + tail)[i - n..]
  {
    assert s[n + (i - n)..] == (body + tail)[i - n..];
  }

  /** In the body every run is shorter than the span's, and ends in the body. */
  lemma {:induction false} RunInBody(s: string, n: nat, body: string, tail: string, i: nat)
    requires n > LongestRun(body) && body != "" && body[|body| - 1] != TICK
    requires IsSpan(s, n, body, tail) && n <= i < n + |body|
    ensures Run(s[i..]) < n && i + Run(s[i..]) <= n + |body|
  {
    BodySuffix(s, n, body, tail, i);
    RunInside(body, tail, i - n);
    RunInsideEnds(body, tail, i - n);
  }

  lemma {:induction false} ClosingOfSpan(s: string, n: nat, body: string, tail: string)
    requires n > LongestRun(body) && body != "" && body[|body| - 1] != TICK
    requires IsSpan(s, n, body, tail) && Run(tail) >= n
    ensures Closing(s, n, n) == n + |body| < |s|
  {
    forall i | n <= i < n + |body| ensures Run(s[i..]) < n {
      RunInBody(s, n, body, tail, i);
    }
    ClosingIs(s, n, n, n + |body|);
  }

  lemma {:induction false} MatchIs(s: string, n: nat, j: nat)
    requires n == Run(s) >= 1 && Closing(s, n, n) == j < |s|
    ensures MatchHere(s) == Match(n, s[n..j])
  {
  }

  lemma {:induction false} MatchAtSpan(n: nat, body: string, s: string, tail: string)
    requires n > LongestRun(body) && Run(body) == 0 && body != "" && body[|body| - 1] != TICK
    requires IsSpan(s, n, body, tail) && Run(tail) >= n
    ensures MatchHere(s) == Match(n, body)
  {
    RunOfSpan(s, n, body, tail);
    ClosingOfSpan(s, n, body, tail);
    MatchIs(s, n, n + |body|);
  }

  lemma {:induction false} TailRun(n: nat, q: string)
    ensures Run(Repeat(TICK, n) + q) >= n
  {
    RepeatRun(n, q);
  }

  /** The match at a code span is the code span, whatever follows it. */
  lemma {:induction false} MatchAtCode(v: string, q: string)
    requires v != ""
    ensures MatchHere(Code(v) + q) == Match(LongestRun(v) + 1, Padded(v))
  {
    var n := LongestRun(v) + 1;
    PaddedFacts(v);
    SpanIs(n, Padded(v), q);
    TailRun(n, q);
    MatchAtSpan(n, Padded(v), Code(v) + q, Repeat(TICK, n) + q);
  }

  lemma {:induction false} NoClosing(s: string, n: nat, from: nat)
    requires n >= 1 && from <= |s|
    requires forall i :: from <= i < |s| ==> Run(s[i..]) < n
    ensures Closing(s, n, from) == |s|
    decreases |s| - from
  {
    if from < |s| {
      NoClosing(s, n, from + 1);
    }
  }

  lemma {:induction false} MatchAtEmptyCode(q: string)
    requires TICK !in q
    ensures MatchHere(Code("") + q) == Match(1, "")
  {
    var s := Code("") + q;
    assert Repeat(TICK, 1) == [TICK] by { assert Repeat(TICK, 0) == []; }
    assert s == [TICK, TICK] + q;
    assert s[1..] == [TICK] + q;
    assert s[1..][1..] == q == s[2..];
    assert Run(q) == 0 && Run(s[1..]) == 1 && Run(s) == 2;
    forall i | 2 <= i < |s| ensures Run(s[i..]) < 2 {
      assert s[i] == q[i - 2];
    }
    NoClosing(s, 2, 2);
    assert Closing(s, 1, 1) == 1;
    assert s[1..1] == [];
    assert MatchWith(s, 2) == MatchWith(s, 1);
  }

  /** Prose without backticks holds no match, and none starts in it. */
  lemma {:induction false} NextAfterPlain(p: string, s: string)
    requires TICK !in p
    requires s == [] || MatchHere(s).Match?
    ensures NextMatch(p + s) == if s == [] then NotFound else Found(|p|, MatchHere(s))
  {
    if p == [] {
      assert p + s == s;
    } else {
      assert (p + s)[1..] == p[1..] + s;
      NextAfterPlain(p[1..], s);
      assert Run(p + s) == 0;
    }
  }

  /** One step of `Prose` and `HeadingText` at a match behind prose without backticks. */
  lemma {:induction false} CutAt(p: string, m: Match, q: string)
    requires TICK !in p && m.Match? && m.ticks >= 1
    requires MatchHere(SpanText(m.ticks, m.inner) + q) == m
    ensures
      var s := p + SpanText(m.ticks, m.inner) + q;
      Prose(s) == EscapeEach(p) + SpanText(m.ticks, m.inner) + Prose(q)
          && HeadingText(s) == p + Trim(m.inner) + HeadingText(q)
  {
    var span := SpanText(m.ticks, m.inner);
    var s := p + span + q;
    assert s == p + (span + q);
    NextAfterPlain(p, span + q);
    assert s[..|p|] == p && s[|p| + m.Length()..] == q;
  }

  /** A non-empty code span is left as it is and cuts the prose, whatever surrounds it. */
  lemma {:induction false} ProseAroundCode(p: string, v: string, q: string)
    requires TICK !in p && v != ""
    ensures Prose(p + Code(v) + q) == EscapeEach(p) + Code(v) + Prose(q)
  {
    MatchAtCode(v, q);
    CutAt(p, Match(LongestRun(v) + 1, Padded(v)), q);
  }

  lemma {:induction false} ProseWithoutTicks(q: string)
    requires TICK !in q
    ensures Prose(q) == EscapeEach(q) && HeadingText(q) == q
  {
    NextAfterPlain(q, []);
    assert q + [] == q;
  }

  /** Between prose without backticks every code span, the empty one too, is left as it is. */
  lemma {:induction false} ProseLeavesCode(p: string, v: string, q: string)
    requires TICK !in p && TICK !in q
    ensures Prose(p + Code(v) + q) == EscapeEach(p) + Code(v) + EscapeEach(q)
  {
    ProseWithoutTicks(q);
    if v != "" {
      ProseAroundCode(p, v, q);
    } else {
      MatchAtEmptyCode(q);
      CutAt(p, Match(1, ""), q);
    }
  }

  lemma {:induction false} EmptyCode()
    ensures Code("") == "``"
  {
    assert Repeat(TICK, 1) == [TICK] + Repeat(TICK, 0);
  }

  /** After the span of an empty string, a later pair of backticks closes over the prose between. */
  lemma {:induction false} MatchOverEmptyCode(q: string)
    requires TICK !in q && q != ""
    ensures Code("") + (q + "``") == SpanText(2, q)
    ensures MatchHere(Code("") + (q + "``")) == Match(2, q)
  {
    EmptyCode();
    NoRun(q);
    assert Repeat(TICK, 2) == "``" by {
      assert Repeat(TICK, 2) == [TICK] + Repeat(TICK, 1);
      EmptyCode();
    }
    assert Code("") + (q + "``") == SpanText(2, q) + "";
    SpanIs(2, q, "");
    TailRun(2, "");
    NoTickAtEnds(q);
    MatchAtSpan(2, q, SpanText(2, q) + "", Repeat(TICK, 2) + "");
  }

  lemma {:induction false} NoTickAtEnds(q: string)
    requires TICK !in q && q != ""
    ensures Run(q) == 0 && q[|q| - 1] != TICK
  {
    assert q[0] in q && q[|q| - 1] in q;
  }

  lemma {:induction false} NoRun(q: string)
    requires TICK !in q
    ensures LongestRun(q) == 0
  {
    if q != "" {
      NoRun(q[1..]);
    }
  }

  /** Prose between the span of an empty string and another such span is not escaped. */
  lemma {:induction false} EmptyCodeSwallows(q: string)
    requires TICK !in q && q != ""
    ensures Prose(Code("") + (q + "``")) == Code("") + (q + "``")
  {
    MatchOverEmptyCode(q);
    ProseWithoutTicks("");
    assert SpanText(2, q) + "" == SpanText(2, q) == "" + SpanText(2, q) + "";
    CutAt("", Match(2, q), "");
  }

  /** A span keeps its neighbours apart from itself exactly when its content is not empty. */
  lemma {:induction false} CodeCutsProseIff(v: string)
    ensures v != "" <==>
      forall p, q :: TICK !in p ==> Prose(p + Code(v) + q) == EscapeEach(p) + Code(v) + Prose(q)
  {
    if v != "" {
      forall p, q | TICK !in p ensures Prose(p + Code(v) + q) == EscapeEach(p) + Code(v) + Prose(q) {
        ProseAroundCode(p, v, q);
      }
    } else {
      EmptyCode();
      var q := "{" + "``";
      EmptyCodeSwallows("{");
      ProseLeavesCode("{", "", "");
      assert "{" + Code("") + "" == q && EscapeEach("{") == "\\{" + EscapeEach("");
      assert "" + Code("") + q == Code("") + q;
      assert (EscapeEach("") + Code("") + Prose(q))[2] == '\\' != (Code("") + q)[2];
      assert TICK !in "";
    }
  }

  lemma {:induction false} TrimOfPadded(v: string)
    ensures Trim(Padded(v)) == Trim(v)
  {
    TrimPadded(v);
    assert Padded(v) == [' '] + v + [' '] || Padded(v) == v;
  }

  lemma {:induction false} HeadingOfSpan(m: Match)
    requires m.Match? && m.ticks >= 1 && MatchHere(SpanText(m.ticks, m.inner) + "") == m
    ensures HeadingText(SpanText(m.ticks, m.inner)) == Trim(m.inner)
  {
    Unit(SpanText(m.ticks, m.inner));
    Unit(Trim(m.inner));
    CutAt("", m, "");
    ProseWithoutTicks("");
  }

  lemma {:induction false} Unit(s: string)
    ensures "" + s + "" == s
  {
  }

  /** A heading that is one code span reads as its content, less the white space at both ends and nothing else. */
  lemma {:induction false} HeadingOfCode(v: string) returns (i: nat, j: nat)
    ensures HeadingText(Code(v)) == Trim(v)
    ensures CutsSpaces(v, i, j) && Trim(v) == v[i..j]
  {
    if v != "" {
      MatchAtCode(v, "");
      HeadingOfSpan(Match(LongestRun(v) + 1, Padded(v)));
    } else {
      MatchAtEmptyCode("");
      HeadingOfSpan(Match(1, ""));
    }
    TrimOfPadded(v);
    i, j := TrimMeans(v);
  }

  // -------------------------------- code spans as section 6.1 of CommonMark reads them

  /** Line endings become spaces. */
  function LinesToSpaces(s: string): string {
    if s == [] then []
    else if s[0] == '\r' && |s| >= 2 && s[1] == '\n' then [' '] + LinesToSpaces(s[2..])
    else [if s[0] == '\n' || s[0] == '\r' then ' ' else s[0]] + LinesToSpaces(s[1..])
  }

  predicate Blank(s: string) {
    forall c :: c in s ==> c == ' '
  }

  /** Begins and ends with a space, and is not all spaces. */
  predicate Spaced(s: string) {
    |s| >= 2 && s[0] == ' ' && s[|s| - 1] == ' ' && !Blank(s)
  }

  function SpanContent(inner: string): string {
    var line := LinesToSpaces(inner);
    if Spaced(line) then line[1..|line| - 1] else line
  }

  /** The least index from `from` at which a run of exactly `n` backticks starts, or `|s|`. */
  function ExactRun(s: string, n: nat, from: nat): (j: nat)
    requires n >= 1 && from <= |s|
    ensures from <= j <= |s| && (j < |s| ==> j + n <= |s|)
    decreases |s| - from
  {
    if from == |s| then from else
      var r := Run(s[from..]);
      if r == n then from else ExactRun(s, n, from + if r == 0 then 1 else r)
  }

  datatype Rendered = NoSpan | Rendered(content: string, rest: string)

  /** The code span a string starts with: its opening run is closed by the next run as long. */
  function ReadSpan(s: string): Rendered {
    var n := Run(s);
    if n == 0 then NoSpan else
      var j := ExactRun(s, n, n);
      if j == |s| then NoSpan else Rendered(SpanContent(s[n..j]), s[j + n..])
  }

  /** The run at `i` is shorter than `n` and ends by `j`. */
  predicate Shorter(s: string, n: nat, i: nat, j: nat)
    requires i <= |s|
  {
    Run(s[i..]) < n && i + Run(s[i..]) <= j
  }

  lemma {:induction false} ExactRunIs(s: string, n: nat, from: nat, j: nat)
    requires n >= 1 && from <= j < |s| && Run(s[j..]) == n
    requires forall i :: from <= i < j ==> Shorter(s, n, i, j)
    ensures ExactRun(s, n, from) == j
    decreases j - from
  {
    if from < j {
      assert Shorter(s, n, from, j);
      var r := Run(s[from..]);
      ExactRunIs(s, n, from + if r == 0 then 1 else r, j);
    }
  }

  lemma {:induction false} ExactAfterBody(n: nat, body: string, tail: string, s: string)
    requires n > LongestRun(body) && body != "" && body[|body| - 1] != TICK
    requires IsSpan(s, n, body, tail) && Run(tail) == n
    ensures ExactRun(s, n, n) == n + |body|
  {
    var end := n + |body|;
    forall i | n <= i < end ensures Shorter(s, n, i, end) {
      RunInBody(s, n, body, tail, i);
    }
    ExactRunIs(s, n, n, end);
  }

  lemma {:induction false} ReadSpanIs(s: string, n: nat, body: string, q: string)
    requires IsSpan(s, n, body, Repeat(TICK, n) + q) && n >= 1
    requires Run(s) == n && ExactRun(s, n, n) == n + |body|
    ensures ReadSpan(s) == Rendered(SpanContent(body), q)
  {
    var tail := Repeat(TICK, n) + q;
    assert s[n + |body| + n..] == tail[n..] == q;
  }

  lemma {:induction false} ReadAfterBody(n: nat, body: string, q: string)
    requires n > LongestRun(body) && Run(body) == 0 && body != "" && body[|body| - 1] != TICK
    requires Run(q) == 0
    ensures ReadSpan(SpanText(n, body) + q) == Rendered(SpanContent(body), q)
  {
    var tail := Repeat(TICK, n) + q;
    var s := SpanText(n, body) + q;
    SpanIs(n, body, q);
    RunOfSpan(s, n, body, tail);
    RepeatRun(n, q);
    ExactAfterBody(n, body, tail, s);
    ReadSpanIs(s, n, body, q);
  }

  lemma {:induction false} NoLineEndings(s: string)
    requires '\n' !in s && '\r' !in s
    ensures LinesToSpaces(s) == s
    decreases |s|
  {
    if s != [] {
      NoLineEndings(s[1..]);
    }
  }

  lemma {:induction false} NoLineEndingsLeft(s: string)
    ensures '\n' !in LinesToSpaces(s) && '\r' !in LinesToSpaces(s)
    decreases |s|
  {
    if s != [] {
      NoLineEndingsLeft(s[1..]);
      if |s| >= 2 {
        NoLineEndingsLeft(s[2..]);
      }
    }
  }

  lemma {:induction false} SliceMembers(s: string, c: char)
    requires |s| >= 2 && c !in s
    ensures c !in s[1..|s| - 1]
  {
  }

  /** A value with a line ending is not shown as it is. */
  lemma {:induction false} LineEndingsChange(v: string, s: string)
    requires '\n' in v || '\r' in v
    ensures SpanContent(s) != v
  {
    var line := LinesToSpaces(s);
    NoLineEndingsLeft(s);
    if Spaced(line) {
      SliceMembers(line, '\n');
      SliceMembers(line, '\r');
    }
  }

  lemma {:induction false} PaddedIs(v: string)
    ensures Padded(v) == if v != "" && (v[0] == TICK || v[|v| - 1] == TICK) then [' '] + v + [' '] else v
  {
  }

  /** A value wrapped in spaces is not blank when it holds a backtick. */
  lemma {:induction false} WrappedContent(v: string)
    requires v != "" && (v[0] == TICK || v[|v| - 1] == TICK) && '\n' !in v && '\r' !in v
    ensures SpanContent([' '] + v + [' ']) == v && !Spaced(v)
  {
    var s := [' '] + v + [' '];
    assert '\n' !in s && '\r' !in s;
    NoLineEndings(s);
    assert v[0] in s && v[|v| - 1] in s;
    assert s[1..|v| + 1] == v;
  }

  /** The padding `code` adds is what a reader strips. */
  lemma {:induction false} ContentOfPadded(v: string)
    requires v != ""
    ensures SpanContent(Padded(v)) == v <==> '\n' !in v && '\r' !in v && !Spaced(v)
  {
    PaddedIs(v);
    if '\n' in v || '\r' in v {
      LineEndingsChange(v, Padded(v));
    } else if v[0] == TICK || v[|v| - 1] == TICK {
      WrappedContent(v);
    } else {
      NoLineEndings(v);
      if Spaced(v) {
        assert |v[1..|v| - 1]| < |v|;
      }
    }
  }

  /** Rendered, `code(v)` shows `v` exactly when `v` is not empty, one line, and not wrapped in spaces. */
  lemma {:induction false} CodeRendersIff(v: string, q: string)
    requires Run(q) == 0
    ensures ReadSpan(Code(v) + q) == Rendered(v, q) <==> v != "" && '\n' !in v && '\r' !in v && !Spaced(v)
  {
    if v != "" {
      PaddedFacts(v);
      ReadAfterBody(LongestRun(v) + 1, Padded(v), q);
      ContentOfPadded(v);
    } else {
      EmptyCode();
      var s := Code("") + q;
      RepeatRun(2, q);
      assert Repeat(TICK, 2) == "``" by {
        assert Repeat(TICK, 2) == [TICK] + Repeat(TICK, 1);
      }
      assert Run(s) == 2;
      var j := ExactRun(s, 2, 2);
      assert j < |s| ==> |s[j + 2..]| < |q|;
    }
  }

  lemma {:induction false} NotShown(v: string)
    requires '\n' in v || Spaced(v)
    ensures ReadSpan(Code(v)) != Rendered(v, "")
  {
    CodeRendersIff(v, "");
    assert Code(v) + "" == Code(v);
  }

  lemma {:induction false} SpacedLetter(v: string)
    requires v == " a "
    ensures Spaced(v)
  {
    assert v[1] in v;
  }

  /** A line break in a value, and spaces around it, are not shown. */
  lemma {:induction false} BreaksAndSpacesAreLost(broken: string, spaced: string)
    requires broken == "a\nb" && spaced == " a "
    ensures ReadSpan(Code(broken)) != Rendered(broken, "") && ReadSpan(Code(spaced)) != Rendered(spaced, "")
  {
    assert broken[1] == '\n';
    NotShown(broken);
    SpacedLetter(spaced);
    NotShown(spaced);
  }

  // ------------------------------------ when the pattern finds the spans of section 6.1

  /** Where spans stand in a text, from left to right. */
  datatype Places = End | At(start: nat, end: nat, rest: Places)

  /** The pattern's matches, in a text of which `base` characters were read before. */
  function PatternSpans(s: string, base: nat): Places
    decreases |s|
  {
    if s == [] then End else
      var m := MatchHere(s);
      if m.Match? then At(base, base + m.Length(), PatternSpans(s[m.Length()..], base + m.Length()))
      else PatternSpans(s[1..], base + 1)
  }

  /** The code spans: a run of backticks that no run as long closes is text. */
  function RealSpans(s: string, base: nat): Places
    decreases |s|
  {
    if s == [] then End
    else if Run(s) == 0 then RealSpans(s[1..], base + 1)
    else
      var n := Run(s);
      var j := ExactRun(s, n, n);
      if j == |s| then RealSpans(s[n..], base + n) else At(base, base + j + n, RealSpans(s[j + n..], base + j + n))
  }

  lemma {:induction false} PatternUnfolds(s: string, base: nat, m: Match, rest: string)
    requires s != [] && MatchHere(s) == m && m.Match? && rest == s[m.Length()..]
    ensures PatternSpans(s, base) == At(base, base + m.Length(), PatternSpans(rest, base + m.Length()))
  {
  }

  lemma {:induction false} PatternGoesOn(s: string, base: nat, rest: string)
    requires s != [] && !MatchHere(s).Match? && rest == s[1..]
    ensures PatternSpans(s, base) == PatternSpans(rest, base + 1)
  {
  }

  lemma {:induction false} RealUnfolds(s: string, base: nat, n: nat, j: nat, rest: string)
    requires n == Run(s) && n >= 1 && j == ExactRun(s, n, n) && j < |s| && rest == s[j + n..]
    ensures RealSpans(s, base) == At(base, base + j + n, RealSpans(rest, base + j + n))
  {
  }

  lemma {:induction false} RealGoesOn(s: string, base: nat, n: nat, rest: string)
    requires n == Run(s) && n >= 1 && ExactRun(s, n, n) == |s| && rest == s[n..]
    ensures RealSpans(s, base) == RealSpans(rest, base + n)
  {
  }

  /** The places that begin with the match `f` of the loop over a text. */
  ghost predicate BeginWith(places: Places, s: string, base: nat, f: Found) {
    match f
    case NotFound => places == End
    case Found(at, m) =>
      && at + m.Length() <= |s|
      && places == At(base + at, base + at + m.Length(), PatternSpans(s[at + m.Length()..], base + at + m.Length()))
  }

  lemma {:induction false} BeginLater(places: Places, s: string, base: nat, at: nat, m: Match)
    requires s != [] && BeginWith(places, s[1..], base + 1, Found(at, m))
    ensures BeginWith(places, s, base, Found(at + 1, m))
  {
    assert s[1..][at + m.Length()..] == s[at + 1 + m.Length()..];
  }

  lemma {:induction false} BeginHere(s: string, base: nat, m: Match)
    requires s != [] && m == MatchHere(s) && m.Match?
    ensures BeginWith(PatternSpans(s, base), s, base, Found(0, m))
  {
    PatternUnfolds(s, base, m, s[0 + m.Length()..]);
  }

  lemma {:induction false} NextHere(s: string)
    requires s != [] && MatchHere(s).Match?
    ensures NextMatch(s) == Found(0, MatchHere(s))
  {
  }

  lemma {:induction false} NextLater(s: string, rest: string)
    requires s != [] && !MatchHere(s).Match? && rest == s[1..]
    ensures NextMatch(s)
      == if NextMatch(rest).Found? then Found(NextMatch(rest).at + 1, NextMatch(rest).m) else NotFound
  {
  }

  lemma {:induction false} BeginBehind(s: string, base: nat, rest: string, f: Found)
    requires s != [] && rest == s[1..] && PatternSpans(s, base) == PatternSpans(rest, base + 1)
    requires BeginWith(PatternSpans(rest, base + 1), rest, base + 1, f)
    ensures BeginWith(PatternSpans(s, base), s, base, if f.Found? then Found(f.at + 1, f.m) else NotFound)
  {
    if f.Found? {
      BeginLater(PatternSpans(s, base), s, base, f.at, f.m);
    }
  }

  /** A match is looked for behind each one before it. */
  lemma {:induction false} PatternSpansNext(s: string, base: nat)
    ensures BeginWith(PatternSpans(s, base), s, base, NextMatch(s))
  {
    if s != [] {
      if MatchHere(s).Match? {
        NextHere(s);
        BeginHere(s, base, MatchHere(s));
      } else {
        var rest := s[1..];
        PatternSpansNext(rest, base + 1);
        PatternGoesOn(s, base, rest);
        NextLater(s, rest);
        BeginBehind(s, base, rest, NextMatch(rest));
      }
    }
  }

  /**
   Read from the left, every run of backticks that opens is closed by the next run
   that is long enough, and that one is as long; only a single backtick may stay open.
   */
  predicate Regular(s: string)
    decreases |s|
  {
    if s == [] then true
    else if Run(s) == 0 then Regular(s[1..])
    else
      var n := Run(s);
      var c := Closing(s, n, n);
      if c == |s| then n == 1 else Run(s[c..]) == n && Regular(s[c + n..])
  }

  lemma {:induction false} ClosingLess(s: string, ticks: nat, from: nat)
    requires ticks >= 1 && from <= |s|
    ensures forall i :: from <= i < Closing(s, ticks, from) ==> Run(s[i..]) < ticks
    decreases |s| - from
  {
    if from < |s| && Run(s[from..]) < ticks {
      ClosingLess(s, ticks, from + 1);
    }
  }

  lemma {:induction false} ExactRunMeans(s: string, n: nat, from: nat)
    requires n >= 1 && from <= |s|
    ensures var j := ExactRun(s, n, from); j < |s| ==> Run(s[j..]) == n
    decreases |s| - from
  {
    if from < |s| {
      var r := Run(s[from..]);
      if r != n {
        ExactRunMeans(s, n, from + if r == 0 then 1 else r);
      }
    }
  }

  lemma {:induction false} RunWithin(s: string, k: nat)
    requires k <= Run(s)
    ensures Run(s[k..]) == Run(s) - k
  {
    if k > 0 {
      RunWithin(s[1..], k - 1);
      assert s[1..][k - 1..] == s[k..];
    }
  }

  lemma {:induction false} RunPast(s: string, i: nat, c: nat)
    requires i <= c <= |s| && c <= i + Run(s[i..])
    ensures Run(s[c..]) == Run(s[i..]) - (c - i)
  {
    RunWithin(s[i..], c - i);
    assert s[i..][c - i..] == s[c..];
  }

  lemma {:induction false} ShorterThan(s: string, n: nat, i: nat, c: nat)
    requires i < c < |s| && Run(s[i..]) < n <= Run(s[c..])
    ensures Shorter(s, n, i, c)
  {
    if i + Run(s[i..]) > c {
      RunPast(s, i, c);
    }
  }

  lemma {:induction false} ClosingIsExact(s: string, n: nat, c: nat)
    requires n >= 1 && n <= |s| && c == Closing(s, n, n) && c < |s| && Run(s[c..]) == n
    ensures ExactRun(s, n, n) == c
  {
    ClosingLess(s, n, n);
    forall i | n <= i < c ensures Shorter(s, n, i, c) {
      ShorterThan(s, n, i, c);
    }
    ExactRunIs(s, n, n, c);
  }

  lemma {:induction false} NoneCloses(s: string, n: nat)
    requires n >= 1 && n <= |s| && Closing(s, n, n) == |s|
    ensures ExactRun(s, n, n) == |s|
  {
    ClosingLess(s, n, n);
    ExactRunMeans(s, n, n);
  }

  /** The first run that is long enough is the closing one when it is as long, and otherwise another or none is. */
  lemma {:induction false} ExactOrClosing(s: string, n: nat)
    requires n == Run(s) && n >= 1
    ensures
      var c, j := Closing(s, n, n), ExactRun(s, n, n);
      if c == |s| then j == |s| else (j == c <==> Run(s[c..]) == n)
  {
    var c := Closing(s, n, n);
    if c == |s| {
      NoneCloses(s, n);
    } else if Run(s[c..]) == n {
      ClosingIsExact(s, n, c);
    } else {
      ExactRunMeans(s, n, n);
    }
  }

  /** A run of two or more backticks always matches, if need be as an empty span of its own. */
  lemma {:induction false} LongRunMatches(s: string, ticks: nat)
    requires 1 <= ticks <= Run(s) && Run(s) >= 2
    ensures MatchWith(s, ticks).Match?
  {
    if ticks == 1 {
      RunWithin(s, 1);
      assert Run(s[1..]) >= 1;
    } else if Closing(s, ticks, ticks) == |s| {
      LongRunMatches(s, ticks - 1);
    }
  }

  lemma {:induction false} RealSpansStart(s: string, base: nat)
    ensures RealSpans(s, base).At? ==> RealSpans(s, base).start >= base
    decreases |s|
  {
    if s != [] {
      var n := Run(s);
      if n == 0 {
        RealSpansStart(s[1..], base + 1);
      } else if ExactRun(s, n, n) == |s| {
        RealSpansStart(s[n..], base + n);
      }
    }
  }

  lemma {:induction false} NoTicksNoSpans(s: string, base: nat)
    requires forall i :: 0 <= i < |s| ==> Run(s[i..]) == 0
    ensures PatternSpans(s, base) == End && RealSpans(s, base) == End
    decreases |s|
  {
    if s != [] {
      assert s[0..] == s;
      assert forall i :: 0 <= i < |s[1..]| ==> s[1..][i..] == s[i + 1..];
      NoTicksNoSpans(s[1..], base + 1);
    }
  }

  /** One backtick that nothing closes: no backtick follows. */
  lemma {:induction false} SingleOpen(s: string, base: nat)
    requires Run(s) == 1 && Closing(s, 1, 1) == |s|
    ensures PatternSpans(s, base) == End && RealSpans(s, base) == End
  {
    ClosingLess(s, 1, 1);
    assert forall i :: 0 <= i < |s[1..]| ==> s[1..][i..] == s[i + 1..];
    NoTicksNoSpans(s[1..], base + 1);
    ExactOrClosing(s, 1);
    assert MatchWith(s, 1) == MatchWith(s, 0);
  }

  lemma {:induction false} MatchHereIs(s: string, n: nat, c: nat)
    requires n == Run(s) && n >= 1 && c == Closing(s, n, n) && c < |s|
    ensures MatchHere(s) == Match(n, s[n..c]) && MatchHere(s).Length() == c + n
  {
  }

  lemma {:induction false} PatternAlike(s: string, base: nat, n: nat, c: nat, rest: string)
    requires n == Run(s) && n >= 1 && c == Closing(s, n, n) && c < |s| && rest == s[c + n..]
    ensures PatternSpans(s, base) == At(base, base + c + n, PatternSpans(rest, base + c + n))
  {
    MatchHereIs(s, n, c);
    PatternUnfolds(s, base, Match(n, s[n..c]), rest);
  }

  lemma {:induction false} RealAlike(s: string, base: nat, n: nat, c: nat, rest: string)
    requires n == Run(s) && n >= 1 && c == Closing(s, n, n) && c < |s| && Run(s[c..]) == n && rest == s[c + n..]
    ensures RealSpans(s, base) == At(base, base + c + n, RealSpans(rest, base + c + n))
  {
    ClosingIsExact(s, n, c);
    RealUnfolds(s, base, n, c, rest);
  }

  lemma {:induction false} PatternStarts(s: string, base: nat, m: Match)
    requires s != [] && m == MatchHere(s) && m.Match?
    ensures PatternSpans(s, base).At? && PatternSpans(s, base).start == base
  {
  }

  lemma {:induction false} RealStartsLater(s: string, base: nat, n: nat)
    requires n == Run(s) && n >= 1 && ExactRun(s, n, n) == |s|
    ensures RealSpans(s, base).At? ==> RealSpans(s, base).start >= base + n
  {
    RealGoesOn(s, base, n, s[n..]);
    RealSpansStart(s[n..], base + n);
  }

  /** A longer run that nothing closes matches all the same, and is no span. */
  lemma {:induction false} LongOpen(s: string, base: nat, n: nat)
    requires n == Run(s) && n >= 2 && Closing(s, n, n) == |s|
    ensures PatternSpans(s, base) != RealSpans(s, base)
  {
    LongRunMatches(s, n);
    PatternStarts(s, base, MatchHere(s));
    NoneCloses(s, n);
    RealStartsLater(s, base, n);
  }

  /** Where the pattern's first match ends at `c`, a span that ends elsewhere is another. */
  lemma {:induction false} EndsApart(s: string, base: nat, n: nat, c: nat, j: nat)
    requires n == Run(s) && n >= 1 && c == Closing(s, n, n) && c < |s|
    requires j == ExactRun(s, n, n) && j < |s| && j != c
    ensures PatternSpans(s, base) != RealSpans(s, base)
  {
    PatternAlike(s, base, n, c, s[c + n..]);
    RealUnfolds(s, base, n, j, s[j + n..]);
  }

  lemma {:induction false} BeginsApart(s: string, base: nat, n: nat, c: nat)
    requires n == Run(s) && n >= 1 && c == Closing(s, n, n) && c < |s| && ExactRun(s, n, n) == |s|
    ensures PatternSpans(s, base) != RealSpans(s, base)
  {
    PatternAlike(s, base, n, c, s[c + n..]);
    RealStartsLater(s, base, n);
  }

  /** The pattern closes at a longer run, where no span ends. */
  lemma {:induction false} ClosedTooSoon(s: string, base: nat, n: nat, c: nat)
    requires n == Run(s) && n >= 1 && c == Closing(s, n, n) && c < |s| && Run(s[c..]) != n
    ensures PatternSpans(s, base) != RealSpans(s, base)
  {
    ExactOrClosing(s, n);
    var j := ExactRun(s, n, n);
    if j < |s| {
      EndsApart(s, base, n, c, j);
    } else {
      BeginsApart(s, base, n, c);
    }
  }

  lemma {:induction false} RegularAt(s: string, n: nat, c: nat, rest: string)
    requires n == Run(s) && n >= 1 && c == Closing(s, n, n) && c < |s| && Run(s[c..]) == n && rest == s[c + n..]
    ensures Regular(s) <==> Regular(rest)
  {
  }

  lemma {:induction false} RegularOpen(s: string, n: nat, c: nat)
    requires n == Run(s) && n >= 1 && c == Closing(s, n, n) && (c == |s| || Run(s[c..]) != n)
    ensures Regular(s) <==> c == |s| && n == 1
  {
  }

  /** At a run that the next one as long, or longer, closes. */
  lemma {:induction false} ClosedIff(s: string, base: nat, n: nat, c: nat, rest: string)
    requires n == Run(s) && n >= 1 && c == Closing(s, n, n) && c < |s| && Run(s[c..]) == n && rest == s[c + n..]
    requires PatternSpans(rest, base + c + n) == RealSpans(rest, base + c + n) <==> Regular(rest)
    ensures PatternSpans(s, base) == RealSpans(s, base) <==> Regular(s)
  {
    PatternAlike(s, base, n, c, rest);
    RealAlike(s, base, n, c, rest);
    RegularAt(s, n, c, rest);
  }

  lemma {:induction false} OpenIff(s: string, base: nat, n: nat, c: nat)
    requires n == Run(s) && n >= 1 && c == Closing(s, n, n) && (c == |s| || Run(s[c..]) != n)
    ensures PatternSpans(s, base) == RealSpans(s, base) <==> Regular(s)
  {
    RegularOpen(s, n, c);
    if c < |s| {
      ClosedTooSoon(s, base, n, c);
    } else if n == 1 {
      SingleOpen(s, base);
    } else {
      LongOpen(s, base, n);
    }
  }

  lemma {:induction false} PlainIff(s: string, base: nat, rest: string)
    requires s != [] && Run(s) == 0 && rest == s[1..]
    requires PatternSpans(rest, base + 1) == RealSpans(rest, base + 1) <==> Regular(rest)
    ensures PatternSpans(s, base) == RealSpans(s, base) <==> Regular(s)
  {
  }

  /** The pattern's matches are the code spans of section 6.1 exactly when every run that opens closes as it should. */
  lemma {:induction false} PatternIsRealIff(s: string, base: nat)
    ensures PatternSpans(s, base) == RealSpans(s, base) <==> Regular(s)
    decreases |s|
  {
    if s != [] {
      var n := Run(s);
      if n == 0 {
        PatternIsRealIff(s[1..], base + 1);
        PlainIff(s, base, s[1..]);
      } else {
        var c := Closing(s, n, n);
        if c < |s| && Run(s[c..]) == n {
          PatternIsRealIff(s[c + n..], base + c + n);
          ClosedIff(s, base, n, c, s[c + n..]);
        } else {
          OpenIff(s, base, n, c);
        }
      }
    }
  }

  lemma {:induction false} TicklessCode(q: string)
    requires TICK !in q && q != ""
    ensures Code(q) == "`" + q + "`"
  {
    NoRun(q);
    NoTickAtEnds(q);
    assert Repeat(TICK, 1) == [TICK] + Repeat(TICK, 0);
  }

  /** Three backticks, prose, one backtick: behind the second, no two stand together. */
  lemma {:induction false} LoneTicks(s: string, q: string, i: nat)
    requires TICK !in q && q != "" && s == "```" + q + "`" && 2 <= i < |s|
    ensures Run(s[i..]) < 2
  {
    if i + 1 < |s| {
      assert s[i..][1] == s[i + 1];
      assert i + 1 < |s| - 1 ==> s[i + 1] == q[i - 2];
      assert i >= 3 ==> s[i] == q[i - 3];
    } else {
      assert s[i..][1..] == [];
    }
  }

  lemma {:induction false} MatchAtThree(s: string, q: string)
    requires TICK !in q && q != "" && s == "```" + q + "`"
    ensures Run(s) == 3 && MatchHere(s) == Match(1, "") && ExactRun(s, 3, 3) == |s|
  {
    forall i | 2 <= i < |s| ensures Run(s[i..]) < 2 {
      LoneTicks(s, q, i);
    }
    ThreeThenProse(s, q);
    NoClosing(s, 3, 3);
    NoClosing(s, 2, 2);
    NoneCloses(s, 3);
    assert Closing(s, 1, 1) == 1 && s[1..1] == "";
    assert MatchWith(s, 3) == MatchWith(s, 2) == MatchWith(s, 1);
  }

  lemma {:induction false} ThreeThenProse(s: string, q: string)
    requires TICK !in q && q != "" && s == "```" + q + "`"
    ensures Run(s) == 3 && Run(s[1..]) == 2
  {
    assert q[0] in q && s[3] == q[0];
    assert Run(s[3..]) == 0;
    assert s[2..][1..] == s[3..] && Run(s[2..]) == 1;
    assert s[1..][1..] == s[2..] && Run(s[1..]) == 2;
  }

  lemma {:induction false} RealSpansPlain(q: string, t: string, base: nat)
    requires TICK !in q
    ensures RealSpans(q + t, base) == RealSpans(t, base + |q|)
  {
    if q == "" {
      assert q + t == t;
    } else {
      assert (q + t)[1..] == q[1..] + t;
      RealSpansPlain(q[1..], t, base + 1);
    }
  }

  lemma {:induction false} ProseOverThree(s: string, q: string)
    requires TICK !in q && q != "" && s == "```" + q + "`" && MatchHere(s) == Match(1, "")
    ensures Prose(s) == s
  {
    TicklessCode(q);
    EmptyCode();
    var pair := SpanText(1, "");
    assert pair + Code(q) == s;
    ProseLeavesCode("", q, "");
    assert "" + Code(q) + "" == Code(q);
    CutAt("", Match(1, ""), Code(q));
    assert "" + pair + Code(q) == s;
  }

  /** A run that nothing closes, with a single backtick later: no code span, yet the prose between is left unescaped. */
  lemma {:induction false} UnclosedRunHidesProse(q: string)
    requires TICK !in q && q != ""
    ensures
      var s := "```" + q + "`";
      RealSpans(s, 0) == End && Prose(s) == s
  {
    var s := "```" + q + "`";
    MatchAtThree(s, q);
    assert s[3..] == q + "`";
    RealSpansPlain(q, "`", 3);
    SingleOpen("`", 3 + |q|);
    ProseOverThree(s, q);
  }

  // ------------------------------ fenced blocks as section 4.5 of CommonMark reads them

  function FenceMarks(body: string): string {
    Repeat(TICK, (if LongestRun(body) > 2 then LongestRun(body) else 2) + 1)
  }

  /** `fence(language, body)`. */
  function Fence(language: string, body: string): string {
    FenceMarks(body) + language + "\n" + body + "\n" + FenceMarks(body)
  }

  function Indent(line: string): (n: nat)
    ensures n <= |line|
  {
    if line == [] || line[0] != ' ' then 0 else 1 + Indent(line[1..])
  }

  /** A closing fence for `n` backticks: up to three spaces, at least `n` backticks, then only spaces and tabs. */
  predicate Closes(line: string, n: nat) {
    var marks := line[Indent(line)..];
    Indent(line) <= 3 && Run(marks) >= n && forall c :: c in marks[Run(marks)..] ==> c == ' ' || c == '\t'
  }

  /** The first closing line, or `|lines|`. */
  function ClosingLine(lines: seq<string>, n: nat): (k: nat)
    ensures k <= |lines|
  {
    if lines == [] || Closes(lines[0], n) then 0 else 1 + ClosingLine(lines[1..], n)
  }

  datatype Block = NoBlock | Block(info: string, body: string)

  /** Every line ending as a line feed: a line feed, a carriage return, or both (section 2.1 of CommonMark). */
  function LineFeeds(s: string): string
    decreases |s|
  {
    if s == [] then []
    else if s[0] != '\r' then [s[0]] + LineFeeds(s[1..])
    else ['\n'] + LineFeeds(if |s| >= 2 && s[1] == '\n' then s[2..] else s[1..])
  }

  /** An info string, without the spaces and tabs around it. */
  function Stripped(s: string): string
    decreases |s|
  {
    if s != [] && s[0] in " \t" then Stripped(s[1..])
    else if s != [] && s[|s| - 1] in " \t" then Stripped(s[..|s| - 1])
    else s
  }

  /** The fenced block a document starts with; no backtick stands in its info string. */
  function ReadFence(s: string): Block {
    var lines := Split(LineFeeds(s), '\n');
    var n := Run(lines[0]);
    var k := ClosingLine(lines[1..], n);
    if n < 3 || TICK in lines[0][n..] || k == |lines[1..]| then NoBlock
    else Block(Stripped(lines[0][n..]), Join(lines[1..][..k], "\n"))
  }

  lemma {:induction false} LongestRunPrefix(s: string, t: string)
    ensures LongestRun(s) <= LongestRun(s + t)
    ensures LongestRun(t) <= LongestRun(s + t)
  {
    if s == [] {
      assert s + t == t;
    } else {
      assert (s + t)[1..] == s[1..] + t;
      RunAppend(s, t);
      LongestRunPrefix(s[1..], t);
    }
  }

  lemma {:induction false} LinesHaveNoLongerRun(s: string)
    ensures forall line :: line in Split(s, '\n') ==> LongestRun(line) <= LongestRun(s)
    decreases |s|
  {
    var i := Find(s, '\n');
    if i < |s| {
      assert s == s[..i] + s[i..];
      LongestRunPrefix(s[..i], s[i..]);
      assert s == s[..i + 1] + s[i + 1..];
      LongestRunPrefix(s[..i + 1], s[i + 1..]);
      LinesHaveNoLongerRun(s[i + 1..]);
    }
  }

  lemma {:induction false} SplitAppend(s: string, t: string)
    ensures Split(s + "\n" + t, '\n') == Split(s, '\n') + Split(t, '\n')
    decreases |s|
  {
    var i := Find(s, '\n');
    FindBefore(s, '\n');
    if i == |s| {
      assert s[..i] == s;
      SplitCons(s, '\n', t);
    } else {
      var head, rest := s[..i], s[i + 1..];
      assert s + "\n" + t == head + "\n" + (rest + "\n" + t);
      SplitCons(head, '\n', rest + "\n" + t);
      SplitAppend(rest, t);
    }
  }

  lemma {:induction false} ClosingLineAfter(lines: seq<string>, last: string, n: nat)
    requires forall line :: line in lines ==> LongestRun(line) < n
    requires Closes(last, n)
    ensures ClosingLine(lines + [last], n) == |lines|
  {
    if lines != [] {
      assert lines[0] in lines;
      RunAtMostLongest(lines[0], Indent(lines[0]));
      assert (lines + [last])[1..] == lines[1..] + [last];
      ClosingLineAfter(lines[1..], last, n);
    }
  }

  /** The marks of a fence stand nowhere in its body. */
  lemma {:induction false} MarksNotInBody(body: string, j: nat)
    requires j <= |body|
    ensures Run(body[j..]) < |FenceMarks(body)| && |FenceMarks(body)| >= 3
  {
    RunAtMostLongest(body, j);
  }

  lemma {:induction false} FenceLines(marks: string, language: string, body: string)
    requires '\n' !in language && '\n' !in marks
    ensures Split(marks + language + "\n" + (body + "\n" + marks), '\n')
      == [marks + language] + (Split(body, '\n') + [marks])
  {
    SplitCons(marks + language, '\n', body + "\n" + marks);
    SplitAppend(body, marks);
    FindNone(marks, '\n');
  }

  lemma {:induction false} MarksOpenAndClose(language: string, body: string)
    requires TICK !in language
    ensures
      var marks := FenceMarks(body);
      Run(marks + language) == |marks| && (marks + language)[|marks|..] == language && Closes(marks, |marks|)
  {
    var n := |FenceMarks(body)|;
    RepeatRun(n, language);
    RepeatRun(n, "");
    assert FenceMarks(body) + "" == FenceMarks(body);
  }

  lemma {:induction false} LineFeedsWithout(a: string, b: string)
    requires '\r' !in a
    ensures LineFeeds(a + b) == a + LineFeeds(b)
  {
    if a == [] {
      assert a + b == b;
    } else {
      assert (a + b)[1..] == a[1..] + b;
      LineFeedsWithout(a[1..], b);
    }
  }

  lemma {:induction false} PlainHead(c: char, s: string)
    requires c != '\r'
    ensures LineFeeds([c] + s) == [c] + LineFeeds(s)
  {
    assert ([c] + s)[1..] == s;
  }

  lemma {:induction false} ReturnHead(s: string)
    ensures LineFeeds("\r" + s) == "\n" + LineFeeds(if s != "" && s[0] == '\n' then s[1..] else s)
  {
    assert ("\r" + s)[1..] == s && (s != "" ==> ("\r" + s)[2..] == s[1..]);
  }

  lemma {:induction false} FirstApart(x: string, b: string)
    requires x != ""
    ensures x + b == [x[0]] + (x[1..] + b) && x == [x[0]] + x[1..]
  {
  }

  /** Text that ends in a line feed ends its line whatever follows. */
  lemma {:induction false} LineFeedsJoin(x: string, b: string)
    requires x != "" && x[|x| - 1] == '\n'
    ensures LineFeeds(x + b) == LineFeeds(x) + LineFeeds(b)
    decreases |x|, 0
  {
    FirstApart(x, b);
    if x[0] == '\r' {
      ReturnHead(x[1..] + b);
      ReturnHead(x[1..]);
      JoinAfterReturn(x[1..], b);
    } else {
      PlainHead(x[0], x[1..] + b);
      PlainHead(x[0], x[1..]);
      if |x| > 1 {
        LineFeedsJoin(x[1..], b);
      }
      JoinPlain(x[0], x[1..], b);
    }
  }

  lemma {:induction false} JoinPlain(c: char, rest: string, b: string)
    requires rest != "" ==> LineFeeds(rest + b) == LineFeeds(rest) + LineFeeds(b)
    ensures [c] + LineFeeds(rest + b) == [c] + LineFeeds(rest) + LineFeeds(b)
  {
    if rest == "" {
      assert rest + b == b;
    }
  }

  /** What follows a carriage return: its own line feed, or the rest of the text. */
  lemma {:induction false} JoinAfterReturn(y: string, b: string)
    requires y != "" && y[|y| - 1] == '\n'
    ensures
      "\n" + LineFeeds(if (y + b)[0] == '\n' then (y + b)[1..] else y + b)
      == "\n" + LineFeeds(if y[0] == '\n' then y[1..] else y) + LineFeeds(b)
    decreases |y|, 1
  {
    if y[0] == '\n' {
      assert (y + b)[1..] == y[1..] + b;
      if |y| > 1 {
        LineFeedsJoin(y[1..], b);
      }
      JoinPlain('\n', y[1..], b);
    } else {
      LineFeedsJoin(y, b);
      JoinPlain('\n', y, b);
    }
  }

  lemma {:induction false} LineFeedsEnd(a: string)
    ensures var t := LineFeeds(a + "\n"); t != "" && t[|t| - 1] == '\n'
    decreases |a|
  {
    if a == [] {
      assert a + "\n" == "\n" && "\n"[1..] == "";
    } else if a[0] == '\r' && |a| >= 2 && a[1] == '\n' {
      assert (a + "\n")[2..] == a[2..] + "\n";
      LineFeedsEnd(a[2..]);
    } else if a == "\r" {
      assert (a + "\n")[2..] == "";
    } else {
      assert (a + "\n")[1..] == a[1..] + "\n";
      LineFeedsEnd(a[1..]);
    }
  }

  lemma {:induction false} LineFeedsRuns(s: string)
    ensures Run(LineFeeds(s)) == Run(s) && LongestRun(LineFeeds(s)) <= LongestRun(s) && '\r' !in LineFeeds(s)
    decreases |s|
  {
    if s != [] {
      var rest := if s[0] == '\r' && |s| >= 2 && s[1] == '\n' then s[2..] else s[1..];
      LineFeedsRuns(rest);
      assert LineFeeds(s)[1..] == LineFeeds(rest);
    }
  }

  /** What a reader makes of a body: its line endings as line feeds, one that ends it taken with the fence's. */
  function FencedBody(body: string): string {
    var t := LineFeeds(body + "\n");
    if t == [] then [] else t[..|t| - 1]
  }

  lemma {:induction false} FencedBodyIs(body: string)
    ensures LineFeeds(body + "\n") == FencedBody(body) + "\n"
    ensures LongestRun(FencedBody(body)) <= LongestRun(body)
  {
    LineFeedsEnd(body);
    LineFeedsRuns(body + "\n");
    LongestRunAppend(body, '\n');
    LongestRunPrefix(FencedBody(body), "\n");
  }

  lemma {:induction false} SameBodyIff(body: string)
    ensures FencedBody(body) == body <==> '\r' !in body
  {
    LineFeedsRuns(body + "\n");
    if '\r' !in body {
      LineFeedsWithout(body, "\n");
      PlainHead('\n', "");
      assert "\n" + "" == "\n";
    }
  }

  /** A fenced block to a reader, line by line. */
  lemma {:induction false} FenceText(language: string, body: string)
    requires '\r' !in language
    ensures
      var marks := FenceMarks(body);
      '\r' !in marks && '\n' !in marks && LineFeeds(Fence(language, body))
          == marks + language + "\n" + (FencedBody(body) + "\n" + marks)
  {
    var marks := FenceMarks(body);
    RepeatMembers(TICK, |marks|);
    var first := marks + language + "\n";
    assert Fence(language, body) == first + (body + "\n" + marks);
    LineFeedsWithout(first, body + "\n" + marks);
    LineFeedsJoin(body + "\n", marks);
    FencedBodyIs(body);
    LineFeedsWithout(marks, "");
    assert marks + "" == marks;
  }

  lemma {:induction false} FenceRead(marks: string, language: string, content: string, lines: seq<string>)
    requires TICK !in language && lines == Split(content, '\n')
    requires Run(marks + language) == |marks| && (marks + language)[|marks|..] == language
    requires Closes(marks, |marks|) && LongestRun(content) < |marks| && |marks| >= 3
    ensures
      var all := [marks + language] + (lines + [marks]);
      ClosingLine(all[1..], |marks|) == |lines| < |all[1..]| && Join(all[1..][..|lines|], "\n") == content
  {
    LinesHaveNoLongerRun(content);
    ClosingLineAfter(lines, marks, |marks|);
    JoinSplit(content, '\n');
    assert ([marks + language] + (lines + [marks]))[1..] == lines + [marks];
    assert (lines + [marks])[..|lines|] == lines;
  }

  /** What can stand behind a fence: one line without backticks. */
  predicate IsInfo(language: string) {
    '\n' !in language && '\r' !in language && TICK !in language
  }

  /** A reader finds in a fenced block the language, and the body up to its line endings. */
  lemma {:induction false} FenceReads(language: string, body: string)
    requires IsInfo(language)
    ensures ReadFence(Fence(language, body)) == Block(Stripped(language), FencedBody(body))
  {
    var marks := FenceMarks(body);
    var content := FencedBody(body);
    FenceText(language, body);
    FenceLines(marks, language, content);
    MarksOpenAndClose(language, body);
    FencedBodyIs(body);
    FenceRead(marks, language, content, Split(content, '\n'));
  }

  /** Only spaces and tabs are stripped. */
  lemma {:induction false} StrippedMembers(s: string, c: char)
    requires c !in " \t"
    ensures c in Stripped(s) <==> c in s
    decreases |s|
  {
    if s != [] && s[0] in " \t" {
      StrippedMembers(s[1..], c);
      assert s == [s[0]] + s[1..];
    } else if s != [] && s[|s| - 1] in " \t" {
      StrippedMembers(s[..|s| - 1], c);
      assert s == s[..|s| - 1] + [s[|s| - 1]];
    }
  }

  lemma {:induction false} FirstLine(s: string)
    ensures '\n' !in Split(s, '\n')[0] && forall c :: c in Split(s, '\n')[0] ==> c in s
  {
    FindBefore(s, '\n');
    var i := Find(s, '\n');
    assert i == |s| ==> s[..i] == s;
  }

  /** What a reader takes for the info string is one line without backticks. */
  lemma {:induction false} InfoIsInfo(s: string)
    requires ReadFence(s).Block?
    ensures IsInfo(ReadFence(s).info)
  {
    var lines := Split(LineFeeds(s), '\n');
    var info := lines[0][Run(lines[0])..];
    FirstLine(LineFeeds(s));
    LineFeedsRuns(s);
    assert forall c :: c in info ==> c in lines[0];
    StrippedMembers(info, '\n');
    StrippedMembers(info, '\r');
    StrippedMembers(info, TICK);
  }

  /**
   The very language and body are read back exactly when the one is an info string and no carriage
   return is in the other.
   */
  lemma {:induction false} FenceReadsBackIff(language: string, body: string)
    ensures ReadFence(Fence(language, body)) == Block(Stripped(language), body) <==> IsInfo(language) && '\r' !in body
  {
    if IsInfo(language) {
      FenceReads(language, body);
      SameBodyIff(body);
    } else if ReadFence(Fence(language, body)) == Block(Stripped(language), body) {
      InfoIsInfo(Fence(language, body));
      StrippedMembers(language, '\n');
      StrippedMembers(language, '\r');
      StrippedMembers(language, TICK);
    }
  }
}

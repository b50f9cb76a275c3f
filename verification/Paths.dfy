/** Paths of segments and their prefixes. */
module Paths {
  predicate Prefix(path: seq<string>, segments: seq<string>) {
    path <= segments
  }

  lemma {:induction false} PrefixSnoc(segments: seq<string>, k: nat, path: seq<string>)
    requires k < |segments|
    ensures Prefix(path, segments[..k + 1]) <==> Prefix(path, segments[..k]) || path == segments[..k + 1]
  {
    if path <= segments[..k + 1] && |path| <= k {
      assert path == segments[..k + 1][..|path|] == segments[..k][..|path|];
    }
    if path <= segments[..k] {
      assert path == segments[..k][..|path|] == segments[..k + 1][..|path|];
    }
  }

  lemma {:induction false} SameSnoc(a: seq<string>, x: string, b: seq<string>, y: string)
    requires a + [x] == b + [y]
    ensures a == b && x == y
  {
    assert (a + [x])[..|a|] == a && (b + [y])[..|b|] == b && (a + [x])[|a|] == x && (b + [y])[|b|] == y;
  }
}

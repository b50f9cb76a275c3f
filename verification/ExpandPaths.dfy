/**
 The paths of `expand[]` (packages/backend/src/lib/expand.ts): each is checked
 against the registry of expandable fields, and the accepted ones are merged
 into a trie. The registry gives an object type's expandable fields and their
 types; it is total, as a `Record` over the union of types is.
 */
module ExpandPaths {
  import opened Paths
  import opened Results
  import Text

  type Registry = string -> map<string, string>

  const MAX_DEPTH := 4

  datatype PathError = NotUnderData | NotAPath | TooDeep | NotExpandable(segment: string, holder: string)

  function Follow(registry: Registry, holder: string, segment: string): Option<string> {
    if segment in registry(holder) then Some(registry(holder)[segment]) else None
  }

  /** The type that walking `segments` from an object of type `root` reaches. */
  function Reach(registry: Registry, root: string, segments: seq<string>): Option<string>
    decreases |segments|
  {
    if segments == [] then Some(root) else
      var next := Follow(registry, root, segments[0]);
      if next.Some? then Reach(registry, next.value, segments[1..]) else None
  }

  lemma {:induction false} ReachSnoc(registry: Registry, root: string, segments: seq<string>, segment: string)
    ensures Reach(registry, root, segments).Some? ==>
      Reach(registry, root, segments + [segment]) == Follow(registry, Reach(registry, root, segments).value, segment)
    ensures Reach(registry, root, segments).None? ==> Reach(registry, root, segments + [segment]).None?
    decreases |segments|
  {
    if segments == [] {
      assert segments + [segment] == [segment] && [segment][1..] == [];
    } else {
      assert (segments + [segment])[1..] == segments[1..] + [segment];
      if Follow(registry, root, segments[0]).Some? {
        ReachSnoc(registry, Follow(registry, root, segments[0]).value, segments[1..], segment);
      }
    }
  }

  lemma {:induction false} ReachNext(registry: Registry, root: string, segments: seq<string>, i: nat)
    requires i < |segments| && Reach(registry, root, segments[..i]).Some?
    ensures Reach(registry, root, segments[..i + 1])
      == Follow(registry, Reach(registry, root, segments[..i]).value, segments[i])
  {
    ReachSnoc(registry, root, segments[..i], segments[i]);
    assert segments[..i] + [segments[i]] == segments[..i + 1];
  }

  lemma {:induction false} ReachPrefix(registry: Registry, root: string, segments: seq<string>, n: nat)
    requires n <= |segments| && Reach(registry, root, segments).Some?
    ensures Reach(registry, root, segments[..n]).Some?
    decreases |segments|
  {
    if n > 0 {
      assert segments[..n][1..] == segments[1..][..n - 1];
      ReachPrefix(registry, Follow(registry, root, segments[0]).value, segments[1..], n - 1);
    }
  }

  /** The fields a path names: on a list, those after its first segment. */
  function Fields(path: string, list: bool): seq<string> {
    if list then Text.Split(path, '.')[1..] else Text.Split(path, '.')
  }

  predicate UnderData(path: string, list: bool) {
    list ==> Text.Split(path, '.')[0] == "data"
  }

  predicate IsPath(path: string, list: bool) {
    UnderData(path, list) && Fields(path, list) != [] && "" !in Fields(path, list)
  }

  /** What `expand[]` promises to accept. */
  predicate Accepted(registry: Registry, root: string, path: string, list: bool) {
    IsPath(path, list) && |Fields(path, list)| <= MAX_DEPTH && Reach(registry, root, Fields(path, list)).Some?
  }

  /** Some field of the path is not expandable in the type the fields before it reach. */
  ghost predicate StopsAt(registry: Registry, root: string, segments: seq<string>, segment: string, holder: string) {
    exists k :: 0 <= k < |segments| && segments[k] == segment
      && Reach(registry, root, segments[..k]) == Some(holder) && segment !in registry(holder)
  }

  /** The error a path that is not accepted is answered with. */
  ghost predicate Explains(registry: Registry, root: string, path: string, list: bool, error: PathError) {
    match error
    case NotUnderData => !UnderData(path, list)
    case NotAPath => UnderData(path, list) && !IsPath(path, list)
    case TooDeep => IsPath(path, list) && |Fields(path, list)| > MAX_DEPTH
    case NotExpandable(segment, holder) =>
      IsPath(path, list) && |Fields(path, list)| <= MAX_DEPTH
          && StopsAt(registry, root, Fields(path, list), segment, holder)
  }

  method ValidatePath(registry: Registry, root: string, path: string, list: bool)
    returns (checked: Result<seq<string>, PathError>)
    ensures checked.Ok? <==> Accepted(registry, root, path, list)
    ensures checked.Ok? ==> checked.value == Fields(path, list)
    ensures checked.Err? ==> Explains(registry, root, path, list, checked.error)
  {
    var segments := Text.Split(path, '.');
    if list {
      if segments[0] != "data" {
        return Err(NotUnderData);
      }
      segments := segments[1..];
    }
    if segments == [] || "" in segments {
      return Err(NotAPath);
    }
    if |segments| > MAX_DEPTH {
      return Err(TooDeep);
    }
    var holder := root;
    for i := 0 to |segments|
      invariant Reach(registry, root, segments[..i]) == Some(holder)
    {
      ReachNext(registry, root, segments, i);
      if segments[i] !in registry(holder) {
        if Reach(registry, root, segments).Some? {
          ReachPrefix(registry, root, segments, i + 1);
        }
        return Err(NotExpandable(segments[i], holder));
      }
      holder := registry(holder)[segments[i]];
    }
    assert segments[..|segments|] == segments;
    return Ok(segments);
  }

  // ------------------------------------------------------------------------ the trie

  /** A parsed set of paths, its fields in insertion order as `Object.entries` gives them. */
  datatype Tree = Tree(entries: seq<Branch>)
  datatype Branch = Branch(field: string, subtree: Tree)

  ghost predicate HasNode(t: Tree, path: seq<string>)
    decreases |path|
  {
    path == [] || exists i ::
      0 <= i < |t.entries| && t.entries[i].field == path[0]
      && HasNode(t.entries[i].subtree, path[1..])
  }

  ghost predicate NamedOnce(t: Tree) {
    forall i, j :: 0 <= i < j < |t.entries| ==> t.entries[i].field != t.entries[j].field
  }

  /** Every field of the tree is expandable where it stands, and is named once there. */
  ghost predicate Fits(registry: Registry, holder: string, t: Tree, depth: nat)
    decreases depth, 1
  {
    NamedOnce(t) && forall i :: 0 <= i < |t.entries| ==> BranchFits(registry, holder, t.entries[i], depth)
  }

  ghost predicate BranchFits(registry: Registry, holder: string, b: Branch, depth: nat)
    decreases depth, 0
  {
    && depth > 0 && Follow(registry, holder, b.field).Some?
    && Fits(registry, Follow(registry, holder, b.field).value, b.subtree, depth - 1)
  }

  datatype Edge = Edge(field: string, node: nat)

  /** Child edges lead forward, so the nodes make a finite tree. */
  ghost predicate Forward(nodes: seq<seq<Edge>>) {
    forall n, i :: 0 <= n < |nodes| && 0 <= i < |nodes[n]| ==> n < nodes[n][i].node < |nodes|
  }

  function Build(nodes: seq<seq<Edge>>, n: nat): Tree
    requires Forward(nodes) && n < |nodes|
    decreases |nodes| - n
  {
    Tree(seq(|nodes[n]|, i requires 0 <= i < |nodes[n]| => Branch(nodes[n][i].field, Build(nodes, nodes[n][i].node))))
  }

  function Lookup(edges: seq<Edge>, field: string): (node: Option<nat>)
    ensures node.Some? ==> Edge(field, node.value) in edges
    ensures node.None? ==> forall e :: e in edges ==> e.field != field
  {
    if edges == [] then None
    else if edges[0].field == field then Some(edges[0].node)
    else Lookup(edges[1..], field)
  }

  ghost predicate HasParent(nodes: seq<seq<Edge>>, m: nat) {
    exists n, i :: 0 <= n < |nodes| && 0 <= i < |nodes[n]| && nodes[n][i].node == m
  }

  /** `paths[n]` is the one way down to node `n`. */
  ghost predicate IsTrie(nodes: seq<seq<Edge>>, paths: seq<seq<string>>) {
    && Forward(nodes) && |nodes| == |paths| > 0 && paths[0] == []
    && (forall n, i ::
      0 <= n < |nodes| && 0 <= i < |nodes[n]|
      ==> paths[nodes[n][i].node] == paths[n] + [nodes[n][i].field])
    && (forall n, i, j :: 0 <= n < |nodes| && 0 <= i < j < |nodes[n]| ==> nodes[n][i].field != nodes[n][j].field)
    && (forall m, n :: 0 <= m < n < |paths| ==> paths[m] != paths[n])
    && (forall m :: 0 < m < |paths| ==> HasParent(nodes, m))
  }

  /** The nested objects `parseExpand` grows, each a list of fields with the object it holds. */
  class Trie {
    var nodes: seq<seq<Edge>>
    ghost var paths: seq<seq<string>>

    ghost predicate Valid()
      reads this
    {
      IsTrie(nodes, paths)
    }

    function Value(): Tree
      requires Valid()
      reads this
    {
      Build(nodes, 0)
    }

    constructor ()
      ensures Valid() && paths == [[]]
    {
      nodes, paths := [[]], [[]];
    }

    /** `node[segment] ??= {}; node = node[segment]` */
    method Child(n: nat, field: string) returns (c: nat)
      requires Valid() && n < |nodes|
      modifies this
      ensures Valid() && c < |nodes| && |old(nodes)| <= |nodes| && paths[c] == old(paths)[n] + [field]
      ensures paths == old(paths) || paths == old(paths) + [old(paths)[n] + [field]]
    {
      var found := Lookup(nodes[n], field);
      if found.Some? {
        return found.value;
      }
      c := |nodes|;
      Grown(nodes, paths, n, field);
      nodes := nodes[n := nodes[n] + [Edge(field, c)]] + [[]];
      paths := paths + [paths[n] + [field]];
    }

    method Insert(segments: seq<string>)
      requires Valid()
      modifies this
      ensures Valid()
      ensures forall q :: q in paths <==> q in old(paths) || Prefix(q, segments)
    {
      var node: nat := 0;
      for k := 0 to |segments|
        invariant Valid() && node < |nodes| && paths[node] == segments[..k]
        invariant forall q :: q in paths <==> q in old(paths) || Prefix(q, segments[..k])
      {
        assert segments[..k] + [segments[k]] == segments[..k + 1];
        forall q ensures Prefix(q, segments[..k + 1]) <==> Prefix(q, segments[..k]) || q == segments[..k + 1] {
          PrefixSnoc(segments, k, q);
        }
        assert paths[node] + [segments[k]] == segments[..k + 1];
        node := Child(node, segments[k]);
      }
      assert segments[..|segments|] == segments;
    }
  }

  /** The node a path leads to has the parent that the path without its last field leads to. */
  lemma {:induction false} EdgeOf(nodes: seq<seq<Edge>>, paths: seq<seq<string>>, n: nat, field: string, m: nat)
    requires IsTrie(nodes, paths) && n < |nodes| && m < |nodes| && paths[m] == paths[n] + [field]
    ensures Edge(field, m) in nodes[n]
  {
    assert paths[m] != [];
    assert HasParent(nodes, m);
    var k, i :| 0 <= k < |nodes| && 0 <= i < |nodes[k]| && nodes[k][i].node == m;
    SameSnoc(paths[k], nodes[k][i].field, paths[n], field);
    assert nodes[n][i] == Edge(field, m);
  }

  lemma {:induction false} NoSuchPath(nodes: seq<seq<Edge>>, paths: seq<seq<string>>, n: nat, field: string)
    requires IsTrie(nodes, paths) && n < |nodes| && forall e :: e in nodes[n] ==> e.field != field
    ensures paths[n] + [field] !in paths
  {
    if paths[n] + [field] in paths {
      var m :| 0 <= m < |paths| && paths[m] == paths[n] + [field];
      EdgeOf(nodes, paths, n, field, m);
    }
  }

  /** A new field under a node without it is a trie again. */
  lemma {:induction false} Grown(nodes: seq<seq<Edge>>, paths: seq<seq<string>>, n: nat, field: string)
    requires IsTrie(nodes, paths) && n < |nodes| && forall e :: e in nodes[n] ==> e.field != field
    ensures IsTrie(nodes[n := nodes[n] + [Edge(field, |nodes|)]] + [[]], paths + [paths[n] + [field]])
  {
    NoSuchPath(nodes, paths, n, field);
    var grown := nodes[n := nodes[n] + [Edge(field, |nodes|)]] + [[]];
    var named := paths + [paths[n] + [field]];
    forall m | 0 < m < |named| ensures HasParent(grown, m) {
      if m < |nodes| {
        assert HasParent(nodes, m);
        var k, i :| 0 <= k < |nodes| && 0 <= i < |nodes[k]| && nodes[k][i].node == m;
        assert grown[k][i].node == m;
      } else {
        assert grown[n][|nodes[n]|].node == m;
      }
    }
    assert forall k, i :: 0 <= k < |grown| && 0 <= i < |grown[k]| ==>
      (k < |nodes| && i < |nodes[k]| && grown[k][i] == nodes[k][i]) || (k == n && i == |nodes[n]|);
  }

  /** A prefix of a node's path is a node's path. */
  lemma {:induction false} PathsClosed(nodes: seq<seq<Edge>>, paths: seq<seq<string>>, m: nat, q: seq<string>)
    requires IsTrie(nodes, paths) && m < |paths| && q <= paths[m]
    ensures q in paths
    decreases m
  {
    if q != paths[m] {
      assert m > 0;
      assert HasParent(nodes, m);
      var k, i :| 0 <= k < |nodes| && 0 <= i < |nodes[k]| && nodes[k][i].node == m;
      assert paths[m] == paths[k] + [nodes[k][i].field];
      assert q == paths[m][..|q|] == paths[k][..|q|];
      PathsClosed(nodes, paths, k, q);
    }
  }

  lemma {:induction false} BuildNodes(nodes: seq<seq<Edge>>, paths: seq<seq<string>>, n: nat, q: seq<string>)
    requires IsTrie(nodes, paths) && n < |nodes|
    ensures HasNode(Build(nodes, n), q) <==> paths[n] + q in paths
    decreases |q|
  {
    if q == [] {
      assert paths[n] + q == paths[n];
    } else {
      var t := Build(nodes, n);
      var under := paths[n] + [q[0]];
      assert paths[n] + q == under + q[1..];
      forall i | 0 <= i < |nodes[n]| && nodes[n][i].field == q[0]
        ensures HasNode(t.entries[i].subtree, q[1..]) <==> paths[n] + q in paths
      {
        BuildNodes(nodes, paths, nodes[n][i].node, q[1..]);
      }
      if paths[n] + q in paths {
        var m :| 0 <= m < |paths| && paths[m] == paths[n] + q;
        assert under <= paths[m];
        PathsClosed(nodes, paths, m, under);
        var c :| 0 <= c < |paths| && paths[c] == under;
        EdgeOf(nodes, paths, n, q[0], c);
        var i :| 0 <= i < |nodes[n]| && nodes[n][i] == Edge(q[0], c);
        assert t.entries[i].field == q[0] && HasNode(t.entries[i].subtree, q[1..]);
      }
    }
  }

  lemma {:induction false} BuildNamesOnce(nodes: seq<seq<Edge>>, paths: seq<seq<string>>, n: nat)
    requires IsTrie(nodes, paths) && n < |nodes|
    ensures NamedOnce(Build(nodes, n))
  {
  }

  /** The path to a child is one field longer, and leads where the registry follows that field. */
  lemma {:induction false} ChildReaches(nodes: seq<seq<Edge>>, paths: seq<seq<string>>, n: nat, i: nat,
      registry: Registry, root: string, holder: string)
    requires IsTrie(nodes, paths) && n < |nodes| && i < |nodes[n]|
    requires Reach(registry, root, paths[n]) == Some(holder)
    ensures
      var edge := nodes[n][i];
      && edge.node < |nodes| && paths[edge.node] in paths && |paths[edge.node]| == |paths[n]| + 1
      && Reach(registry, root, paths[edge.node]) == Follow(registry, holder, edge.field)
  {
    ReachSnoc(registry, root, paths[n], nodes[n][i].field);
  }

  /** No path is longer than `most`, and each is expandable from the root. */
  ghost predicate AllReach(paths: seq<seq<string>>, registry: Registry, root: string, most: nat) {
    forall q :: q in paths ==> |q| <= most && Reach(registry, root, q).Some?
  }

  /** A trie whose paths are all expandable and at most `depth` long fits the registry. */
  lemma {:induction false} BuildFits(nodes: seq<seq<Edge>>, paths: seq<seq<string>>, n: nat, registry: Registry,
      root: string, holder: string, depth: nat)
    requires IsTrie(nodes, paths) && n < |nodes|
    requires AllReach(paths, registry, root, |paths[n]| + depth)
    requires Reach(registry, root, paths[n]) == Some(holder)
    ensures Fits(registry, holder, Build(nodes, n), depth)
    decreases depth
  {
    var t := Build(nodes, n);
    BuildNamesOnce(nodes, paths, n);
    forall i | 0 <= i < |t.entries| ensures BranchFits(registry, holder, t.entries[i], depth) {
      var edge := nodes[n][i];
      ChildReaches(nodes, paths, n, i, registry, root, holder);
      assert |paths[edge.node]| <= |paths[n]| + depth && Reach(registry, root, paths[edge.node]).Some?;
      BuildFits(nodes, paths, edge.node, registry, root, Follow(registry, holder, edge.field).value, depth - 1);
      assert t.entries[i] == Branch(edge.field, Build(nodes, edge.node));
    }
  }

  ghost predicate Refused(registry: Registry, root: string, paths: seq<string>, list: bool) {
    exists i :: 0 <= i < |paths| && !Accepted(registry, root, paths[i], list)
  }

  ghost predicate FirstRefused(registry: Registry, root: string, paths: seq<string>, list: bool, error: PathError) {
    exists i :: 0 <= i < |paths| && !Accepted(registry, root, paths[i], list)
      && !Refused(registry, root, paths[..i], list) && Explains(registry, root, paths[i], list, error)
  }

  /** The nodes of the merged paths are their prefixes. */
  ghost predicate Merged(paths: seq<string>, list: bool, q: seq<string>) {
    q == [] || exists i :: 0 <= i < |paths| && Prefix(q, Fields(paths[i], list))
  }

  /**
   What an accepted `expand[]` becomes: a tree with exactly the prefixes of the
   paths as its nodes, at most four deep, in which every field is expandable in
   the type it stands on and named once there.
   */
  ghost predicate IsParsed(registry: Registry, root: string, paths: seq<string>, list: bool, t: Tree) {
    && (forall q :: HasNode(t, q) <==> Merged(paths, list, q))
    && Fits(registry, root, t, MAX_DEPTH)
  }

  /** The loop of `parseExpand`: it ends at the first path that is not accepted. */
  method AddPaths(trie: Trie, registry: Registry, root: string, paths: seq<string>, list: bool)
    returns (error: Option<PathError>)
    requires trie.Valid() && trie.paths == [[]]
    modifies trie
    ensures trie.Valid()
    ensures error.Some? <==> Refused(registry, root, paths, list)
    ensures error.Some? ==> FirstRefused(registry, root, paths, list, error.value)
    ensures error.None? ==> IsMerge(trie.paths, paths, list)
  {
    assert IsMerge(trie.paths, paths[..0], list);
    for i := 0 to |paths|
      invariant trie.Valid()
      invariant !Refused(registry, root, paths[..i], list)
      invariant IsMerge(trie.paths, paths[..i], list)
    {
      var checked := ValidatePath(registry, root, paths[i], list);
      if checked.Err? {
        assert Refused(registry, root, paths, list);
        assert FirstRefused(registry, root, paths, list, checked.error);
        return Some(checked.error);
      }
      ghost var before := trie.paths;
      trie.Insert(checked.value);
      MergeSnoc(before, trie.paths, paths, list, i);
    }
    assert paths[..|paths|] == paths;
    return None;
  }

  method ParseExpand(registry: Registry, root: string, paths: seq<string>, list: bool)
    returns (trie: Trie, error: Option<PathError>)
    ensures fresh(trie) && trie.Valid()
    ensures error.Some? <==> Refused(registry, root, paths, list)
    ensures error.Some? ==> FirstRefused(registry, root, paths, list, error.value)
    ensures error.None? ==> IsParsed(registry, root, paths, list, trie.Value())
  {
    trie := new Trie();
    error := AddPaths(trie, registry, root, paths, list);
    if error.None? {
      ParsedFits(registry, root, paths, list, trie.nodes, trie.paths);
    }
  }

  ghost predicate IsMerge(merged: seq<seq<string>>, paths: seq<string>, list: bool) {
    forall q :: q in merged <==> Merged(paths, list, q)
  }

  lemma {:induction false} MergeSnoc(before: seq<seq<string>>, after: seq<seq<string>>, paths: seq<string>,
      list: bool, i: nat)
    requires i < |paths| && IsMerge(before, paths[..i], list)
    requires forall q :: q in after <==> q in before || Prefix(q, Fields(paths[i], list))
    ensures IsMerge(after, paths[..i + 1], list)
  {
    forall q ensures Merged(paths[..i + 1], list, q) <==>
      Merged(paths[..i], list, q)
      || Prefix(q, Fields(paths[i], list)) {
      MergedSnoc(paths, list, i, q);
    }
  }

  lemma {:induction false} MergedSnoc(paths: seq<string>, list: bool, i: nat, q: seq<string>)
    requires i < |paths|
    ensures Merged(paths[..i + 1], list, q) <==> Merged(paths[..i], list, q) || Prefix(q, Fields(paths[i], list))
  {
    if Merged(paths[..i], list, q) && q != [] {
      var j :| 0 <= j < i && Prefix(q, Fields(paths[..i][j], list));
      assert paths[..i + 1][j] == paths[..i][j];
    }
    if Prefix(q, Fields(paths[i], list)) {
      assert paths[..i + 1][i] == paths[i];
    }
    if Merged(paths[..i + 1], list, q) && q != [] {
      var j :| 0 <= j < i + 1 && Prefix(q, Fields(paths[..i + 1][j], list));
      assert j < i ==> paths[..i][j] == paths[..i + 1][j];
    }
  }

  lemma {:induction false} ParsedFits(registry: Registry, root: string, given: seq<string>, list: bool,
      nodes: seq<seq<Edge>>, paths: seq<seq<string>>)
    requires IsTrie(nodes, paths)
    requires !Refused(registry, root, given, list)
    requires IsMerge(paths, given, list)
    ensures IsParsed(registry, root, given, list, Build(nodes, 0))
  {
    forall q ensures HasNode(Build(nodes, 0), q) <==> Merged(given, list, q) {
      BuildNodes(nodes, paths, 0, q);
      assert paths[0] + q == q;
    }
    forall q | q in paths ensures |q| <= MAX_DEPTH && Reach(registry, root, q).Some? {
      assert Merged(given, list, q);
      if q != [] {
        var i :| 0 <= i < |given| && Prefix(q, Fields(given[i], list));
        ReachPrefix(registry, root, Fields(given[i], list), |q|);
        assert q == Fields(given[i], list)[..|q|];
      }
    }
    BuildFits(nodes, paths, 0, registry, root, root, MAX_DEPTH);
  }
}

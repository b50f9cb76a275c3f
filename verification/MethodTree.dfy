/**
 The namespace tree of the generated client (packages/sdk/scripts/generate-resources.ts):
 every route of the server SDK is a method at its dotted path. Namespaces are cells
 of an arena, a child is the index of its cell.
 */
module MethodTree {
  import opened Paths
  import opened Results
  import Text

  datatype Route = Route(operationId: string, sdk: Option<string>, auth: string)

  datatype TreeError =
    | NotAPath(route: Route) | UnderMethod(route: Route) | DeclaredTwice(route: Route) | NoSpec(route: Route) | AtRoot

  predicate IsLetter(c: char) {
    'A' <= c <= 'Z' || 'a' <= c <= 'z' || c == '_' || c == '$'
  }

  predicate IsIdentifier(s: string) {
    s != "" && IsLetter(s[0]) && forall i :: 0 < i < |s| ==> IsLetter(s[i]) || '0' <= s[i] <= '9'
  }

  /** The routes the server SDK carries. */
  predicate Carried(route: Route) {
    route.sdk.Some? && route.auth == "service"
  }

  function Carriers(routes: seq<Route>): (carried: seq<Route>)
    ensures forall r :: r in carried <==> r in routes && Carried(r)
  {
    if routes == [] then [] else (if Carried(routes[0]) then [routes[0]] else []) + Carriers(routes[1..])
  }

  function Segments(route: Route): seq<string> {
    if route.sdk.Some? then Text.Split(route.sdk.value, '.') else []
  }

  predicate IsMethodPath(segments: seq<string>) {
    |segments| >= 2 && forall i :: 0 <= i < |segments| ==> IsIdentifier(segments[i])
  }

  /** Neither path is the other or lies under it. */
  predicate Apart(a: seq<string>, b: seq<string>) {
    !(a <= b) && !(b <= a)
  }

  ghost predicate PrefixFree(routes: seq<Route>) {
    forall i, j :: 0 <= i < j < |routes| ==> Apart(Segments(routes[i]), Segments(routes[j]))
  }

  /** What the generator promises to accept. */
  ghost predicate Acceptable<Spec>(specOf: Route -> Option<Spec>, carried: seq<Route>) {
    && (forall r :: r in carried ==> IsMethodPath(Segments(r)) && specOf(r).Some?)
    && PrefixFree(carried)
  }

  // ------------------------------------------------------------------------ the tree

  datatype Namespace = Namespace(path: seq<string>, methods: map<string, Route>, children: map<string, nat>)

  ghost predicate HasParent(nodes: seq<Namespace>, m: nat) {
    exists n, segment :: 0 <= n < |nodes| && segment in nodes[n].children && nodes[n].children[segment] == m
  }

  ghost predicate IsTree(nodes: seq<Namespace>) {
    && |nodes| > 0 && nodes[0].path == []
    && (forall n, segment :: 0 <= n < |nodes| && segment in nodes[n].children ==>
         n < nodes[n].children[segment] < |nodes|
             && nodes[nodes[n].children[segment]].path == nodes[n].path + [segment])
    && (forall m, n :: 0 <= m < n < |nodes| ==> nodes[m].path != nodes[n].path)
    && (forall m :: 0 < m < |nodes| ==> HasParent(nodes, m))
    && (forall n :: 0 <= n < |nodes| ==> nodes[n].methods.Keys !! nodes[n].children.Keys)
  }

  /** What `client.a.b.c` finds. */
  function Resolve(nodes: seq<Namespace>, n: nat, path: seq<string>): Option<Route>
    decreases |path|
  {
    if n >= |nodes| || path == [] then None
    else if |path| == 1 then
      if path[0] in nodes[n].methods then Some(nodes[n].methods[path[0]]) else None
    else if path[0] in nodes[n].children then Resolve(nodes, nodes[n].children[path[0]], path[1..])
    else None
  }

  /** A namespace stands at `path`. */
  ghost predicate IsNamespace(nodes: seq<Namespace>, path: seq<string>) {
    exists n :: 0 <= n < |nodes| && nodes[n].path == path
  }

  /** The route is a method of the namespace `n`, which stands at all of `path` but its last segment. */
  predicate MethodIn(nodes: seq<Namespace>, n: nat, path: seq<string>, route: Route) {
    && n < |nodes| && path != [] && nodes[n].path == path[..|path| - 1]
    && path[|path| - 1] in nodes[n].methods && nodes[n].methods[path[|path| - 1]] == route
  }

  ghost predicate IsMethod(nodes: seq<Namespace>, path: seq<string>, route: Route) {
    exists n :: MethodIn(nodes, n, path, route)
  }

  /** A namespace right under another is one of its children. */
  lemma {:induction false} ChildOf(nodes: seq<Namespace>, n: nat, segment: string, m: nat)
    requires IsTree(nodes) && n < |nodes| && m < |nodes| && nodes[m].path == nodes[n].path + [segment]
    ensures segment in nodes[n].children && nodes[n].children[segment] == m
  {
    assert nodes[m].path != [];
    assert HasParent(nodes, m);
    var k, s :| 0 <= k < |nodes| && s in nodes[k].children && nodes[k].children[s] == m;
    SameSnoc(nodes[k].path, s, nodes[n].path, segment);
  }

  /** Every prefix of a namespace's path is a namespace. */
  lemma {:induction false} NamespacesClosed(nodes: seq<Namespace>, m: nat, path: seq<string>)
    requires IsTree(nodes) && m < |nodes| && path <= nodes[m].path
    ensures IsNamespace(nodes, path)
    decreases m
  {
    if path != nodes[m].path {
      assert m > 0;
      assert HasParent(nodes, m);
      var k, s :| 0 <= k < |nodes| && s in nodes[k].children && nodes[k].children[s] == m;
      assert nodes[m].path == nodes[k].path + [s];
      assert path == nodes[m].path[..|path|] == nodes[k].path[..|path|];
      NamespacesClosed(nodes, k, path);
    }
  }

  /** Walking a path finds a method exactly where the tree holds one. */
  lemma {:induction false} ResolveIff(nodes: seq<Namespace>, n: nat, path: seq<string>, route: Route)
    requires IsTree(nodes) && n < |nodes|
    ensures Resolve(nodes, n, path) == Some(route) <==> path != [] && IsMethod(nodes, nodes[n].path + path, route)
    decreases |path|
  {
    if path == [] {
    } else if |path| == 1 {
      var full := nodes[n].path + path;
      assert full[..|full| - 1] == nodes[n].path && full[|full| - 1] == path[0];
      assert MethodIn(nodes, n, full, route) <==> Resolve(nodes, n, path) == Some(route);
    } else {
      var under := nodes[n].path + [path[0]];
      assert nodes[n].path + path == under + path[1..];
      if path[0] in nodes[n].children {
        ResolveIff(nodes, nodes[n].children[path[0]], path[1..], route);
      } else if IsMethod(nodes, nodes[n].path + path, route) {
        var full := nodes[n].path + path;
        var m :| 0 <= m < |nodes| && nodes[m].path == full[..|full| - 1];
        assert under <= full[..|full| - 1];
        NamespacesClosed(nodes, m, under);
        var c :| 0 <= c < |nodes| && nodes[c].path == under;
        ChildOf(nodes, n, path[0], c);
      }
    }
  }

  /** The tree's methods are the routes' paths, its namespaces the paths above them. */
  ghost predicate Holds(nodes: seq<Namespace>, routes: seq<Route>) {
    && IsTree(nodes)
    && (forall path, route :: IsMethod(nodes, path, route) <==> route in routes && Segments(route) == path)
    && (forall path :: IsNamespace(nodes, path) <==> path == [] || Above(path, routes))
  }

  ghost predicate Above(path: seq<string>, routes: seq<Route>) {
    exists r :: r in routes && path < Segments(r)
  }

  ghost predicate SameMethods(before: seq<Namespace>, after: seq<Namespace>) {
    forall path, route :: IsMethod(after, path, route) <==> IsMethod(before, path, route)
  }

  /** `node.children.get(segment)`, or a new namespace there. */
  function WithChild(nodes: seq<Namespace>, n: nat, segment: string): seq<Namespace>
    requires n < |nodes|
  {
    if segment in nodes[n].children then nodes
    else
      nodes[n := nodes[n].(children := nodes[n].children[segment := |nodes|])]
      + [Namespace(nodes[n].path + [segment], map[], map[])]
  }

  lemma {:induction false} ParentsStay(nodes: seq<Namespace>, n: nat, segment: string, m: nat)
    requires IsTree(nodes) && n < |nodes| && segment !in nodes[n].children && 0 < m <= |nodes|
    ensures HasParent(WithChild(nodes, n, segment), m)
  {
    var after := WithChild(nodes, n, segment);
    if m < |nodes| {
      assert HasParent(nodes, m);
      var k, s :| 0 <= k < |nodes| && s in nodes[k].children && nodes[k].children[s] == m;
      assert s in after[k].children && after[k].children[s] == m;
    } else {
      assert segment in after[n].children && after[n].children[segment] == m;
    }
  }

  lemma {:induction false} OnlyChildAdded(nodes: seq<Namespace>, n: nat, segment: string, m: nat)
    requires n < |nodes| && segment !in nodes[n].children && m < |nodes|
    ensures
      var after := WithChild(nodes, n, segment);
      && after[m].path == nodes[m].path && after[m].methods == nodes[m].methods
      && after[m].children == if m == n then nodes[n].children[segment := |nodes|] else nodes[m].children
  {
  }

  lemma {:induction false} WithChildPaths(nodes: seq<Namespace>, n: nat, segment: string)
    requires IsTree(nodes) && n < |nodes| && segment !in nodes[n].children
    ensures var after := WithChild(nodes, n, segment); forall i, j ::
      0 <= i < j < |after|
      ==> after[i].path != after[j].path
  {
    var after := WithChild(nodes, n, segment);
    forall i, j | 0 <= i < j < |after| ensures after[i].path != after[j].path {
      OnlyChildAdded(nodes, n, segment, i);
      if j < |nodes| {
        OnlyChildAdded(nodes, n, segment, j);
      } else if after[i].path == after[j].path {
        ChildOf(nodes, n, segment, i);
      }
    }
  }

  lemma {:induction false} WithChildEdges(nodes: seq<Namespace>, n: nat, segment: string, m: nat, s: string)
    requires IsTree(nodes) && n < |nodes| && segment !in nodes[n].children
    requires m <= |nodes| && s in WithChild(nodes, n, segment)[m].children
    ensures
      var after := WithChild(nodes, n, segment);
      m < after[m].children[s] < |after| && after[after[m].children[s]].path == after[m].path + [s]
  {
    OnlyChildAdded(nodes, n, segment, m);
    if m != n || s != segment {
      OnlyChildAdded(nodes, n, segment, nodes[m].children[s]);
    }
  }

  lemma {:induction false} WithChildTree(nodes: seq<Namespace>, n: nat, segment: string)
    requires IsTree(nodes) && n < |nodes| && segment !in nodes[n].methods
    ensures IsTree(WithChild(nodes, n, segment))
  {
    var after := WithChild(nodes, n, segment);
    if segment !in nodes[n].children {
      OnlyChildAdded(nodes, n, segment, 0);
      WithChildPaths(nodes, n, segment);
      forall m, s | 0 <= m < |after| && s in after[m].children
        ensures m < after[m].children[s] < |after| && after[after[m].children[s]].path == after[m].path + [s]
      {
        WithChildEdges(nodes, n, segment, m, s);
      }
      forall m | 0 < m < |after| ensures HasParent(after, m) {
        ParentsStay(nodes, n, segment, m);
      }
      forall m | 0 <= m < |after| ensures after[m].methods.Keys !! after[m].children.Keys {
        if m < |nodes| {
          OnlyChildAdded(nodes, n, segment, m);
        }
      }
    }
  }

  lemma {:induction false} WithChildContent(nodes: seq<Namespace>, n: nat, segment: string)
    requires n < |nodes| && IsTree(nodes)
    ensures SameMethods(nodes, WithChild(nodes, n, segment))
    ensures forall path :: IsNamespace(WithChild(nodes, n, segment), path) <==>
      IsNamespace(nodes, path)
      || path == nodes[n].path + [segment]
  {
    var after := WithChild(nodes, n, segment);
    forall path, route ensures IsMethod(after, path, route) <==> IsMethod(nodes, path, route) {
      if IsMethod(nodes, path, route) {
        var m: nat :| MethodIn(nodes, m, path, route);
        assert MethodIn(after, m, path, route);
      }
      if IsMethod(after, path, route) {
        var m: nat :| MethodIn(after, m, path, route);
        assert MethodIn(nodes, m, path, route);
      }
    }
    forall path ensures IsNamespace(after, path) <==> IsNamespace(nodes, path) || path == nodes[n].path + [segment] {
      if IsNamespace(nodes, path) {
        var m :| 0 <= m < |nodes| && nodes[m].path == path;
        assert after[m].path == path;
      }
      if path == nodes[n].path + [segment] {
        if segment in nodes[n].children {
          assert nodes[nodes[n].children[segment]].path == path;
        } else {
          assert after[|nodes|].path == path;
        }
      }
    }
  }

  /** The walk is at `node`, `k` segments down, and found no method on its way. */
  ghost predicate Walked(before: seq<Namespace>, nodes: seq<Namespace>, segments: seq<string>, k: nat, node: nat) {
    && k <= |segments| && IsTree(nodes) && node < |nodes| && nodes[node].path == segments[..k]
    && SameMethods(before, nodes)
    && (forall path :: IsNamespace(nodes, path) <==> IsNamespace(before, path) || Prefix(path, segments[..k]))
    && forall j, r :: 0 < j <= k ==> !IsMethod(before, segments[..j], r)
  }

  lemma {:induction false} WalkStarts(nodes: seq<Namespace>, segments: seq<string>)
    requires IsTree(nodes)
    ensures Walked(nodes, nodes, segments, 0, 0)
  {
    assert nodes[0].path == [];
  }

  /** A name at the node is a method of the tree. */
  lemma {:induction false} MethodAt(nodes: seq<Namespace>, n: nat, path: seq<string>, name: string)
    requires IsTree(nodes) && n < |nodes| && path == nodes[n].path + [name]
    ensures name in nodes[n].methods ==> IsMethod(nodes, path, nodes[n].methods[name])
    ensures name !in nodes[n].methods ==> forall r :: !IsMethod(nodes, path, r)
  {
    assert path[..|path| - 1] == nodes[n].path && path[|path| - 1] == name;
    assert name in nodes[n].methods ==> MethodIn(nodes, n, path, nodes[n].methods[name]);
  }

  lemma {:induction false} WalkStep(before: seq<Namespace>, nodes: seq<Namespace>, segments: seq<string>, k: nat,
      node: nat)
    requires k < |segments| && Walked(before, nodes, segments, k, node)
    requires segments[k] !in nodes[node].methods
    ensures
      var after := WithChild(nodes, node, segments[k]);
      Walked(before, after, segments, k + 1, after[node].children[segments[k]])
  {
    var after := WithChild(nodes, node, segments[k]);
    assert segments[..k] + [segments[k]] == segments[..k + 1];
    WithChildTree(nodes, node, segments[k]);
    WithChildContent(nodes, node, segments[k]);
    MethodAt(nodes, node, segments[..k + 1], segments[k]);
    forall path ensures IsNamespace(after, path) <==> IsNamespace(before, path) || Prefix(path, segments[..k + 1]) {
      PrefixSnoc(segments, k, path);
    }
  }

  ghost predicate ApartFromAll(routes: seq<Route>, segments: seq<string>) {
    forall r :: r in routes ==> Apart(Segments(r), segments)
  }

  /** A route is declared at the path. */
  ghost predicate DeclaredAt(routes: seq<Route>, path: seq<string>) {
    exists r :: r in routes && Segments(r) == path
  }

  /** A method on the way down is a declared path that is a prefix of the new one. */
  lemma {:induction false} MethodOnTheWay(before: seq<Namespace>, nodes: seq<Namespace>, routes: seq<Route>,
      segments: seq<string>, k: nat, node: nat)
    requires Holds(before, routes) && k < |segments| && Walked(before, nodes, segments, k, node)
    requires segments[k] in nodes[node].methods
    ensures !ApartFromAll(routes, segments) && DeclaredAt(routes, segments[..k + 1])
  {
    assert segments[..k] + [segments[k]] == segments[..k + 1];
    MethodAt(nodes, node, segments[..k + 1], segments[k]);
    var r := nodes[node].methods[segments[k]];
    assert IsMethod(before, segments[..k + 1], r);
    assert r in routes && Segments(r) <= segments;
  }

  /** A namespace at the end of the walk is above a declared path. */
  lemma {:induction false} NamespaceAtTheEnd(before: seq<Namespace>, nodes: seq<Namespace>, routes: seq<Route>,
      segments: seq<string>, node: nat)
    requires segments != [] && Holds(before, routes) && Walked(before, nodes, segments, |segments| - 1, node)
    requires segments[|segments| - 1] in nodes[node].children
    ensures !ApartFromAll(routes, segments) && Above(segments, routes)
  {
    var k := |segments| - 1;
    assert segments[..k] + [segments[k]] == segments;
    var c := nodes[node].children[segments[k]];
    assert nodes[c].path == segments;
    assert IsNamespace(nodes, segments) && !Prefix(segments, segments[..k]);
    var r :| r in routes && segments < Segments(r);
  }

  /** No method stands on the way down, nor at its free end. */
  lemma {:induction false} NotOnTheWay(before: seq<Namespace>, nodes: seq<Namespace>, segments: seq<string>,
      node: nat, path: seq<string>, r: Route)
    requires segments != [] && Walked(before, nodes, segments, |segments| - 1, node)
    requires segments[|segments| - 1] !in nodes[node].methods
    requires path != [] && IsMethod(before, path, r)
    ensures !(path <= segments)
  {
    var k := |segments| - 1;
    assert segments[..k] + [segments[k]] == segments == segments[..|segments|];
    MethodAt(nodes, node, segments, segments[k]);
    if |path| <= |segments| {
      assert path == segments[..|path|] || !(path <= segments);
    }
  }

  /** A free end of the walk: no declared path is above or below the new one. */
  lemma {:induction false} FreeEnd(before: seq<Namespace>, nodes: seq<Namespace>, routes: seq<Route>,
      segments: seq<string>, node: nat)
    requires segments != [] && Holds(before, routes) && Walked(before, nodes, segments, |segments| - 1, node)
    requires segments[|segments| - 1] !in nodes[node].methods && segments[|segments| - 1] !in nodes[node].children
    requires forall r :: r in routes ==> Segments(r) != []
    ensures ApartFromAll(routes, segments)
  {
    var k := |segments| - 1;
    assert segments[..k] + [segments[k]] == segments;
    MethodAt(nodes, node, segments, segments[k]);
    forall r | r in routes ensures Apart(Segments(r), segments) {
      assert IsMethod(before, Segments(r), r);
      NotOnTheWay(before, nodes, segments, node, Segments(r), r);
      if m :| 0 <= m < |nodes| && nodes[m].path == segments {
        ChildOf(nodes, node, segments[k], m);
      }
      assert segments < Segments(r) ==>
        Above(segments, routes) && IsNamespace(before, segments)
        && IsNamespace(nodes, segments);
    }
  }

  function WithMethod(nodes: seq<Namespace>, n: nat, name: string, route: Route): seq<Namespace>
    requires n < |nodes|
  {
    nodes[n := nodes[n].(methods := nodes[n].methods[name := route])]
  }

  lemma {:induction false} WithMethodTree(nodes: seq<Namespace>, n: nat, name: string, route: Route)
    requires IsTree(nodes) && n < |nodes| && name !in nodes[n].methods && name !in nodes[n].children
    ensures IsTree(WithMethod(nodes, n, name, route))
    ensures forall path :: IsNamespace(WithMethod(nodes, n, name, route), path) <==> IsNamespace(nodes, path)
  {
    var after := WithMethod(nodes, n, name, route);
    assert forall m :: 0 <= m < |nodes| ==> after[m].path == nodes[m].path && after[m].children == nodes[m].children;
    forall m | 0 < m < |after| ensures HasParent(after, m) {
      assert HasParent(nodes, m);
      var k, s :| 0 <= k < |nodes| && s in nodes[k].children && nodes[k].children[s] == m;
      assert s in after[k].children && after[k].children[s] == m;
    }
    forall path | IsNamespace(nodes, path) ensures IsNamespace(after, path) {
      var m :| 0 <= m < |nodes| && nodes[m].path == path;
      assert after[m].path == path;
    }
  }

  lemma {:induction false} WithMethodIn(nodes: seq<Namespace>, n: nat, name: string, route: Route, full: seq<string>,
      m: nat, path: seq<string>, r: Route)
    requires n < |nodes| && full == nodes[n].path + [name] && name !in nodes[n].methods
    ensures MethodIn(WithMethod(nodes, n, name, route), m, path, r) <==>
      MethodIn(nodes, m, path, r) || (m == n && path == full && r == route)
  {
    assert full[..|full| - 1] == nodes[n].path && full[|full| - 1] == name;
    if path != [] {
      assert path == path[..|path| - 1] + [path[|path| - 1]];
    }
  }

  lemma {:induction false} WithMethodContent(nodes: seq<Namespace>, n: nat, name: string, route: Route,
      full: seq<string>)
    requires n < |nodes| && full == nodes[n].path + [name] && name !in nodes[n].methods
    ensures forall path, r :: IsMethod(WithMethod(nodes, n, name, route), path, r) <==>
      IsMethod(nodes, path, r)
      || (path == full && r == route)
  {
    var after := WithMethod(nodes, n, name, route);
    forall path, r ensures IsMethod(after, path, r) <==> IsMethod(nodes, path, r) || (path == full && r == route) {
      forall m: nat ensures MethodIn(after, m, path, r) <==>
        MethodIn(nodes, m, path, r)
        || (m == n && path == full && r == route) {
        WithMethodIn(nodes, n, name, route, full, m, path, r);
      }
      if path == full && r == route {
        assert MethodIn(after, n, path, r);
      }
      if m: nat :| MethodIn(nodes, m, path, r) {
        assert MethodIn(after, m, path, r);
      }
    }
  }

  lemma {:induction false} Declared(before: seq<Namespace>, nodes: seq<Namespace>, routes: seq<Route>, route: Route,
      segments: seq<string>, node: nat)
    requires segments != [] && segments == Segments(route)
    requires Holds(before, routes) && Walked(before, nodes, segments, |segments| - 1, node)
    requires segments[|segments| - 1] !in nodes[node].methods && segments[|segments| - 1] !in nodes[node].children
    ensures Holds(WithMethod(nodes, node, segments[|segments| - 1], route), routes + [route])
  {
    var k := |segments| - 1;
    var after := WithMethod(nodes, node, segments[k], route);
    assert segments[..k] + [segments[k]] == segments;
    WithMethodTree(nodes, node, segments[k], route);
    WithMethodContent(nodes, node, segments[k], route, segments);
    forall path ensures IsNamespace(after, path) <==> path == [] || Above(path, routes + [route]) {
      AboveSnoc(path, routes, route);
      assert Prefix(path, segments[..k]) <==> path < segments by {
        if path < segments {
          assert path == segments[..|path|] == segments[..k][..|path|];
        }
      }
    }
  }

  lemma {:induction false} AboveSnoc(path: seq<string>, routes: seq<Route>, route: Route)
    ensures Above(path, routes + [route]) <==> Above(path, routes) || path < Segments(route)
  {
    if Above(path, routes) {
      var r :| r in routes && path < Segments(r);
      assert r in routes + [route];
    }
    assert route in routes + [route];
  }

  lemma {:induction false} PrefixFreeSnoc(routes: seq<Route>, route: Route)
    ensures PrefixFree(routes + [route]) <==> PrefixFree(routes) && ApartFromAll(routes, Segments(route))
  {
    var all := routes + [route];
    if PrefixFree(all) {
      forall i, j | 0 <= i < j < |routes| ensures Apart(Segments(routes[i]), Segments(routes[j])) {
        assert routes[i] == all[i] && routes[j] == all[j];
      }
      forall r | r in routes ensures Apart(Segments(r), Segments(route)) {
        var i :| 0 <= i < |routes| && routes[i] == r;
        assert all[i] == r && all[|routes|] == route;
      }
    }
  }

  // ------------------------------------------------------------------- the generator

  /** Why a route cannot be declared beside `routes`. */
  ghost predicate Explains<Spec>(specOf: Route -> Option<Spec>, routes: seq<Route>, route: Route, error: TreeError) {
    match error
    case NotAPath(r) => r == route && !IsMethodPath(Segments(route))
    case UnderMethod(r) => r == route && exists k ::
      0 < k < |Segments(route)|
      && DeclaredAt(routes, Segments(route)[..k])
    case DeclaredTwice(r) => r == route && (DeclaredAt(routes, Segments(route)) || Above(Segments(route), routes))
    case NoSpec(r) => r == route && ApartFromAll(routes, Segments(route)) && specOf(route).None?
    case AtRoot => false
  }

  class ClientTree {
    var nodes: seq<Namespace>

    constructor ()
      ensures Holds(nodes, [])
    {
      nodes := [Namespace([], map[], map[])];
      new;
      assert nodes[0].path == [];
    }

    /**
     Declares one route: refused exactly when its path is not a method's, it lies
     above, under or on a declared one, or it has no spec.
     */
    method Declare<Spec>(specOf: Route -> Option<Spec>, ghost routes: seq<Route>, route: Route)
        returns (declared: Result<Spec, TreeError>)
      requires Holds(nodes, routes) && route.sdk.Some? && forall r :: r in routes ==> Segments(r) != []
      modifies this
      ensures declared.Ok? <==>
        IsMethodPath(Segments(route)) && ApartFromAll(routes, Segments(route))
        && specOf(route).Some?
      ensures declared.Ok? ==> Holds(nodes, routes + [route]) && specOf(route) == Some(declared.value)
      ensures declared.Err? ==> Explains(specOf, routes, route, declared.error)
    {
      var segments := Text.Split(route.sdk.value, '.');
      if !IsMethodPath(segments) {
        return Err(NotAPath(route));
      }
      var last := |segments| - 1;
      var node: nat := 0;
      WalkStarts(nodes, segments);
      for k := 0 to last
        invariant Walked(old(nodes), nodes, segments, k, node)
      {
        if segments[k] in nodes[node].methods {
          MethodOnTheWay(old(nodes), nodes, routes, segments, k, node);
          assert 0 < k + 1 < |segments| && DeclaredAt(routes, segments[..k + 1]);
          return Err(UnderMethod(route));
        }
        WalkStep(old(nodes), nodes, segments, k, node);
        nodes := WithChild(nodes, node, segments[k]);
        node := nodes[node].children[segments[k]];
      }
      if segments[last] in nodes[node].methods || segments[last] in nodes[node].children {
        if segments[last] in nodes[node].methods {
          MethodOnTheWay(old(nodes), nodes, routes, segments, last, node);
          assert segments[..last + 1] == segments;
        } else {
          NamespaceAtTheEnd(old(nodes), nodes, routes, segments, node);
        }
        return Err(DeclaredTwice(route));
      }
      FreeEnd(old(nodes), nodes, routes, segments, node);
      var spec := specOf(route);
      if spec.None? {
        return Err(NoSpec(route));
      }
      Declared(old(nodes), nodes, routes, route, segments, node);
      nodes := WithMethod(nodes, node, segments[last], route);
      return Ok(spec.value);
    }
  }

  lemma {:induction false} CarriersAppend(a: seq<Route>, b: seq<Route>)
    ensures Carriers(a + b) == Carriers(a) + Carriers(b)
  {
    if a == [] {
      assert a + b == b;
    } else {
      assert (a + b)[1..] == a[1..] + b;
      CarriersAppend(a[1..], b);
    }
  }

  lemma {:induction false} CarriersSnoc(routes: seq<Route>, i: nat)
    requires i < |routes|
    ensures Carriers(routes[..i + 1]) == Carriers(routes[..i]) + if Carried(routes[i]) then [routes[i]] else []
  {
    assert routes[..i + 1] == routes[..i] + [routes[i]] && [routes[i]][1..] == [];
    CarriersAppend(routes[..i], [routes[i]]);
  }

  lemma {:induction false} AcceptableSnoc<Spec>(specOf: Route -> Option<Spec>, carried: seq<Route>, route: Route)
    ensures Acceptable(specOf, carried + [route]) <==>
      Acceptable(specOf, carried) && IsMethodPath(Segments(route)) && specOf(route).Some?
          && ApartFromAll(carried, Segments(route))
  {
    PrefixFreeSnoc(carried, route);
    assert route in carried + [route];
    forall r | r in carried ensures r in carried + [route] {
    }
  }

  lemma {:induction false} AcceptablePrefix<Spec>(specOf: Route -> Option<Spec>, routes: seq<Route>, i: nat)
    requires i <= |routes| && Acceptable(specOf, Carriers(routes))
    ensures Acceptable(specOf, Carriers(routes[..i]))
  {
    assert routes == routes[..i] + routes[i..];
    CarriersAppend(routes[..i], routes[i..]);
    var part, all := Carriers(routes[..i]), Carriers(routes);
    forall j, k | 0 <= j < k < |part| ensures Apart(Segments(part[j]), Segments(part[k])) {
      assert part[j] == all[j] && part[k] == all[k];
    }
  }

  lemma {:induction false} NotAcceptable<Spec>(specOf: Route -> Option<Spec>, routes: seq<Route>, i: nat)
    requires i <= |routes| && !Acceptable(specOf, Carriers(routes[..i]))
    ensures !Acceptable(specOf, Carriers(routes))
  {
    if Acceptable(specOf, Carriers(routes)) {
      AcceptablePrefix(specOf, routes, i);
    }
  }

  lemma {:induction false} Found(nodes: seq<Namespace>, routes: seq<Route>)
    requires Holds(nodes, routes) && forall r :: r in routes ==> IsMethodPath(Segments(r))
    ensures FindsExactly(nodes, routes) && nodes[0].methods == map[]
  {
    forall path, route ensures Resolve(nodes, 0, path) == Some(route) <==> route in routes && Segments(route) == path {
      ResolveIff(nodes, 0, path, route);
      assert nodes[0].path + path == path;
    }
    forall name ensures name !in nodes[0].methods {
      MethodAt(nodes, 0, [name], name);
      assert nodes[0].path + [name] == [name];
      assert forall r :: IsMethod(nodes, [name], r) ==> Segments(r) == [name];
    }
  }

  ghost predicate SpecsOf<Spec>(specOf: Route -> Option<Spec>, carried: seq<Route>, specs: seq<Spec>) {
    |specs| == |carried| && forall i :: 0 <= i < |specs| ==> specOf(carried[i]) == Some(specs[i])
  }

  /** A dotted path finds the one route declared at it, and nothing else. */
  ghost predicate FindsExactly(nodes: seq<Namespace>, routes: seq<Route>) {
    forall path, route :: Resolve(nodes, 0, path) == Some(route) <==> route in routes && Segments(route) == path
  }

  /** The routes before the first one that cannot be declared are acceptable, and the error tells why it cannot. */
  ghost predicate FirstRefused<Spec>(specOf: Route -> Option<Spec>, carried: seq<Route>, error: TreeError) {
    exists i :: 0 <= i < |carried| && Acceptable(specOf, carried[..i])
        && Explains(specOf, carried[..i], carried[i], error)
  }

  lemma {:induction false} RefusedAt<Spec>(specOf: Route -> Option<Spec>, routes: seq<Route>, i: nat, error: TreeError)
    requires i < |routes| && Carried(routes[i]) && Acceptable(specOf, Carriers(routes[..i]))
    requires Explains(specOf, Carriers(routes[..i]), routes[i], error)
    ensures FirstRefused(specOf, Carriers(routes), error)
  {
    assert routes == routes[..i] + ([routes[i]] + routes[i + 1..]);
    CarriersAppend(routes[..i], [routes[i]] + routes[i + 1..]);
    assert ([routes[i]] + routes[i + 1..])[1..] == routes[i + 1..];
    var n := |Carriers(routes[..i])|;
    assert Carriers(routes)[..n] == Carriers(routes[..i]) && Carriers(routes)[n] == routes[i];
  }

  /** The loop of `buildTree`: it ends at the first route that cannot be declared. */
  method DeclareAll<Spec>(tree: ClientTree, specOf: Route -> Option<Spec>, routes: seq<Route>)
      returns (specs: seq<Spec>, error: Option<TreeError>)
    requires Holds(tree.nodes, [])
    modifies tree
    ensures error.None? <==> Acceptable(specOf, Carriers(routes))
    ensures error.None? ==> Holds(tree.nodes, Carriers(routes)) && SpecsOf(specOf, Carriers(routes), specs)
    ensures error.Some? ==> FirstRefused(specOf, Carriers(routes), error.value)
  {
    specs := [];
    ghost var done: seq<Route> := [];
    for i := 0 to |routes|
      invariant done == Carriers(routes[..i]) && Acceptable(specOf, done)
      invariant Holds(tree.nodes, done) && SpecsOf(specOf, done, specs)
    {
      CarriersSnoc(routes, i);
      if routes[i].sdk.None? || routes[i].auth != "service" {
        continue;
      }
      AcceptableSnoc(specOf, done, routes[i]);
      var declared := tree.Declare(specOf, done, routes[i]);
      if declared.Err? {
        NotAcceptable(specOf, routes, i + 1);
        RefusedAt(specOf, routes, i, declared.error);
        return specs, Some(declared.error);
      }
      specs, done := specs + [declared.value], done + [routes[i]];
    }
    assert routes[..|routes|] == routes;
    error := None;
  }

  /**
   The generator accepts exactly the routes whose paths are methods' and of which
   none is on or above another; the tree then finds each at its path. Nothing ever
   stands at the client root.
   */
  method BuildTree<Spec>(specOf: Route -> Option<Spec>, routes: seq<Route>)
      returns (tree: ClientTree, specs: seq<Spec>, error: Option<TreeError>)
    ensures fresh(tree)
    ensures error.None? <==> Acceptable(specOf, Carriers(routes))
    ensures error.None? ==>
      IsTree(tree.nodes) && FindsExactly(tree.nodes, Carriers(routes))
      && SpecsOf(specOf, Carriers(routes), specs)
    ensures error.Some? ==> FirstRefused(specOf, Carriers(routes), error.value)
  {
    tree := new ClientTree();
    specs, error := DeclareAll(tree, specOf, routes);
    if error.None? {
      Found(tree.nodes, Carriers(routes));
      error := if tree.nodes[0].methods == map[] then None else Some(AtRoot);
    }
  }

  // -------------------------------------------------------------- the order of routes

  /** Prefix-freeness without positions. */
  ghost predicate AllApart(routes: multiset<Route>) {
    && (forall r :: r in routes ==> routes[r] == 1)
    && forall r, s :: r in routes && s in routes && r != s ==> Apart(Segments(r), Segments(s))
  }

  lemma {:induction false} AllApartSnoc(routes: seq<Route>, route: Route)
    ensures AllApart(multiset(routes + [route])) <==>
      AllApart(multiset(routes))
      && ApartFromAll(routes, Segments(route))
  {
    var all, part := multiset(routes + [route]), multiset(routes);
    assert all == part + multiset{route};
    if AllApart(all) {
      assert route in all;
      forall r | r in part ensures part[r] == 1 && r != route {
        assert r in all && all[r] == 1;
      }
      forall r | r in routes ensures Apart(Segments(r), Segments(route)) {
        assert r in part;
      }
    }
    if AllApart(part) && ApartFromAll(routes, Segments(route)) {
      assert route !in routes;
      forall r, s | r in all && s in all && r != s ensures Apart(Segments(r), Segments(s)) {
        assert r in routes || r == route;
        assert s in routes || s == route;
      }
    }
  }

  lemma {:induction false} PrefixFreeIff(routes: seq<Route>)
    ensures PrefixFree(routes) <==> AllApart(multiset(routes))
  {
    if routes != [] {
      var n := |routes| - 1;
      assert routes == routes[..n] + [routes[n]];
      PrefixFreeIff(routes[..n]);
      PrefixFreeSnoc(routes[..n], routes[n]);
      AllApartSnoc(routes[..n], routes[n]);
    }
  }

  lemma {:induction false} CarriersCount(routes: seq<Route>, r: Route)
    ensures multiset(Carriers(routes))[r] == if Carried(r) then multiset(routes)[r] else 0
  {
    if routes != [] {
      assert routes == [routes[0]] + routes[1..];
      CarriersCount(routes[1..], r);
    }
  }

  /** Whatever the order of the routes, they are accepted or not. */
  lemma {:induction false} OrderDoesNotMatter<Spec>(specOf: Route -> Option<Spec>, a: seq<Route>, b: seq<Route>)
    requires multiset(a) == multiset(b)
    ensures Acceptable(specOf, Carriers(a)) <==> Acceptable(specOf, Carriers(b))
  {
    forall r ensures multiset(Carriers(a))[r] == multiset(Carriers(b))[r] && (r in a <==> r in b) {
      CarriersCount(a, r);
      CarriersCount(b, r);
      assert r in a <==> multiset(a)[r] > 0;
    }
    assert multiset(Carriers(a)) == multiset(Carriers(b));
    PrefixFreeIff(Carriers(a));
    PrefixFreeIff(Carriers(b));
  }
}

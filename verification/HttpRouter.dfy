/** HttpRouter of core/router.go: one tree per request method. */
module HttpRouters {
  import opened Options
  import opened Patterns
  import opened RouteTree
  import opened Registration
  import opened AsWritten
  import opened RouterNodes

  /** The tree at root is what the registrations regs build. */
  ghost predicate Registered(root: RouterNode, s: Skeleton, regs: seq<Route>, v: Version)
    reads Objs(s)
  {
    && s.node == root && Linked(s) && Distinct(s)
    && AllInReach(regs, Repaired(v)) && SafeRun(regs, v) && BuildAsWritten(regs, v) == Some(Model(s))
  }

  /** No two methods share a node. */
  ghost predicate Unshared(shapes: map<string, Skeleton>) {
    forall m, m' :: m in shapes && m' in shapes && m != m' ==> Objs(shapes[m]) !! Objs(shapes[m'])
  }

  class HttpRouter {
    const version: Version
    var trees: map<string, RouterNode>

    /** Where each method's nodes are, all nodes, and what was registered for each method, in order. */
    ghost var shapes: map<string, Skeleton>
    ghost var repr: set<RouterNode>
    ghost var routes: map<string, seq<Route>>

    ghost predicate Valid()
      reads this, repr
    {
      && trees.Keys == shapes.Keys == routes.Keys
      && (forall m :: m in trees ==> Objs(shapes[m]) <= repr && Registered(trees[m], shapes[m], routes[m], version))
      && Unshared(shapes)
    }

    ghost function RoutesOf(m: string): seq<Route>
      reads this
    {
      if m in routes then routes[m] else []
    }

    constructor (version: Version)
      ensures Valid() && fresh(repr) && this.version == version && forall m :: RoutesOf(m) == []
    {
      this.version := version;
      trees, shapes, repr, routes := map[], map[], {}, map[];
    }

    /** What the code as written needs: see AsWritten.Safe. With r1 and r3 repaired it always holds. */
    ghost predicate SafeNext(m: string, path: string)
      requires Valid()
      reads this, repr
    {
      AllInReach(RoutesOf(m), Repaired(version)) && SafeAfter(RoutesOf(m), path, version)
    }

    /** Insert; not ok is a panic, after which the router is not used. */
    method Insert(m: string, path: string, h: Handle) returns (ok: bool)
      requires Valid() && Wild(path) <= MAX_PARAM_COUNT && SafeNext(m, path)
      modifies this, repr
      ensures ok <==> Acceptable(old(RoutesOf(m)) + [Route(path, h)], version)
      ensures ok ==> Valid() && fresh(repr - old(repr))
      ensures ok ==> RoutesOf(m) == old(RoutesOf(m)) + [Route(path, h)]
      ensures ok ==> forall k :: k != m ==> RoutesOf(k) == old(RoutesOf(k))
    {
      hide Registered, Objs, Build, Acceptable, AllInReach, InReach, Unshared, SafeAfter;
      if m !in trees { NewTree(m); }
      ghost var s, objs, regs := shapes[m], {}, routes[m] + [Route(path, h)];
      forall k | k in trees && k != m ensures Objs(shapes[k]) !! Objs(s) { Others(shapes, k, m); }
      ok, s, objs := InsertInto(trees[m], path, h, version, s, routes[m]);
      if ok { Commit(m, s, objs, regs); }
    }

    /** Method m's nodes are now at s, and regs is what is registered for it. */
    ghost method Commit(m: string, s: Skeleton, objs: set<RouterNode>, regs: seq<Route>)
      requires m in trees && trees.Keys == shapes.Keys + {m} == routes.Keys + {m} && shapes.Keys == routes.Keys
      requires forall k :: k in shapes && k != m ==>
        Objs(shapes[k]) <= repr && Registered(trees[k], shapes[k], routes[k], version) && Objs(shapes[k]) !! Objs(s)
      requires Unshared(shapes) && Registered(trees[m], s, regs, version) && Objs(s) <= objs
      modifies this`shapes, this`routes, this`repr
      ensures Valid() && repr == old(repr) + objs && routes == old(routes)[m := regs]
    {
      hide Registered, Objs, Unshared;
      Disjoint(shapes, m, s);
      ghost var shapes', routes', repr' := shapes[m := s], routes[m := regs], repr + objs;
      forall k | k in trees ensures Objs(shapes'[k]) <= repr' && Registered(trees[k], shapes'[k], routes'[k], version) {
        if k == m { assert shapes'[k] == s; } else { assert shapes'[k] == shapes[k] && routes'[k] == routes[k]; }
      }
      assert trees.Keys == shapes'.Keys == routes'.Keys;
      shapes, routes, repr := shapes', routes', repr';
    }

    /** A root for a method seen for the first time. */
    method NewTree(m: string)
      requires Valid() && m !in trees
      modifies this
      ensures Valid() && m in trees && fresh(repr - old(repr)) && forall k :: RoutesOf(k) == old(RoutesOf(k))
    {
      hide Registered, Objs, Unshared;
      var root := new RouterNode("", false, Static, 0, 0, "", [], None);
      ghost var s := Skeleton(root, []);
      EmptyTree(s, version);
      trees := trees[m := root];
      Commit(m, s, {root}, []);
    }

    /** Match: the handlers and parameters of the route that matches, if there is one. */
    method Match(m: string, path: string) returns (handle: Option<Handle>, params: seq<Patterns.Param>)
      requires Valid()
      ensures Scan(RoutesOf(m), path) == if handle.Some? then Found(handle.value, params) else Missing
    {
      handle, params := None, [];
      if m !in trees { return; }
      LookupExact(Model(shapes[m]), path);
      LookupAsWritten(routes[m], version, path);
      handle, params := trees[m].GetValue(path, shapes[m], repr);
    }
  }

  /** One registration on one method's tree. */
  method InsertInto(root: RouterNode, path: string, h: Handle, v: Version, ghost s: Skeleton, ghost regs: seq<Route>)
    returns (ok: bool, ghost s': Skeleton, ghost objs: set<RouterNode>)
    requires Registered(root, s, regs, v) && Wild(path) <= MAX_PARAM_COUNT
    requires AllInReach(regs, Repaired(v)) && SafeAfter(regs, path, v)
    modifies Objs(s)
    ensures ok <==> Acceptable(regs + [Route(path, h)], v)
    ensures ok ==> Registered(root, s', regs + [Route(path, h)], v) && Objs(s') <= objs && fresh(objs - Objs(s))
  {
    hide Linked, Distinct, Model, Objs, AddRoute, Build, BuildAsWritten, SafeRun, SafeAfter, Acceptable, Tree;
    NextAsWritten(regs, Route(path, h), v);
    s', objs := s, {};
    if path == "" || path[0] != '/' { return false, s, {}; }
    ok, s', objs := root.AddRoute(path, h, v, s, Objs(s));
  }

  lemma Others(shapes: map<string, Skeleton>, k: string, m: string)
    requires Unshared(shapes) && k in shapes && m in shapes && k != m
    ensures Objs(shapes[k]) !! Objs(shapes[m])
  {
  }

  lemma Disjoint(shapes: map<string, Skeleton>, m: string, s: Skeleton)
    requires Unshared(shapes) && forall k :: k in shapes && k != m ==> Objs(shapes[k]) !! Objs(s)
    ensures Unshared(shapes[m := s])
  {
    hide Objs;
  }

  /** A tree before its first registration. */
  lemma EmptyTree(s: Skeleton, v: Version)
    requires s.kids == [] && s.node.Value([]) == EMPTY && s.node.children == []
    ensures Registered(s.node, s, [], v) && Objs(s) == {s.node}
  {
    Leaf(s);
  }
}

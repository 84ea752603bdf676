/** Blueprints (core/blue_print.go) and how Engine.init hands their routes to the router (core/engine.go). */
module BluePrints {
  import opened Options
  import opened Patterns
  import opened RouteTree
  import opened Registration
  import opened AsWritten
  import opened HttpRouters
  import Ascii

  const ALL_METHOD := "*"

  const HTTP_METHODS := ["GET", "POST", "PUT", "PATCH", "DELETE", "OPTIONS", "HEAD", "TRACE"]

  /** A registered route: path, handlers, and the blueprint its handlers run with. */
  datatype HandleNode = HandleNode(path: string, handles: seq<nat>, bluePrint: nat)

  type MethodsTree = map<string, seq<HandleNode>>

  function Upper(s: string): (r: string)
    ensures |r| == |s| && forall i :: 0 <= i < |s| ==> r[i] == Ascii.ToUpper(s[i])
  {
    if s == "" then "" else [Ascii.ToUpper(s[0])] + Upper(s[1..])
  }

  /** The methods a registration for `verb` is for. */
  function MethodsFor(verb: string): seq<string> {
    if verb == ALL_METHOD then HTTP_METHODS else [verb]
  }

  /** Whether a registration for `verb` puts a route under key k. */
  predicate Serves(verb: string, k: string) {
    if verb == ALL_METHOD then k in HTTP_METHODS else k == Upper(verb)
  }

  // ------------------------------------------------------------------ what a history declares

  /** What is done to a blueprint; Include takes the branch with the history it has at that time. */
  datatype Op =
    | Use(middleware: seq<nat>)
    | SetPrefix(path: string)
    | Handle(verb: string, path: string, handlers: seq<nat>)
    | Include(prefix: string, branch: nat, history: History)

  datatype History = Start | After(before: History, op: Op)

  function MiddlewareOf(h: History): seq<nat> {
    match h
    case Start => []
    case After(before, op) => MiddlewareOf(before) + if op.Use? then op.middleware else []
  }

  function PrefixOf(h: History): string {
    match h
    case Start => ""
    case After(before, op) => if op.SetPrefix? then op.path else PrefixOf(before)
  }

  /**
    The routes of method k, from the outside in: `outer` is what the includes around put in front,
    and `owner` the outermost included blueprint.
  */
  function Expand(h: History, id: nat, k: string, outer: string, owner: Option<nat>): seq<HandleNode>
    decreases h
  {
    match h
    case Start => []
    case After(before, op) => Expand(before, id, k, outer, owner) + Declares(before, op, id, k, outer, owner)
  }

  /** The routes that one operation adds. */
  function Declares(before: History, op: Op, id: nat, k: string, outer: string, owner: Option<nat>): seq<HandleNode>
    decreases op
  {
    match op
    case Handle(verb, path, handlers) =>
      if Serves(verb, k) then
        var whose := if owner.Some? then owner.value else id;
        [HandleNode(outer + PrefixOf(before) + path, MiddlewareOf(before) + handlers, whose)]
      else []
    case Include(prefix, branch, history) =>
      Expand(history, branch, k, outer + prefix, if owner.Some? then owner else Some(branch))
    case _ => []
  }

  /** What Include makes of a branch's routes. */
  function Mounted(prefix: string, branch: nat, nodes: seq<HandleNode>): (r: seq<HandleNode>)
    ensures |r| == |nodes|
  {
    if nodes == [] then []
    else
      var n := nodes[|nodes| - 1];
      Mounted(prefix, branch, nodes[..|nodes| - 1]) + [HandleNode(prefix + n.path, n.handles, branch)]
  }

  lemma {:induction false} MountedJoin(prefix: string, branch: nat, a: seq<HandleNode>, b: seq<HandleNode>)
    ensures Mounted(prefix, branch, a + b) == Mounted(prefix, branch, a) + Mounted(prefix, branch, b)
    decreases |b|
  {
    if b == [] {
      assert a + b == a;
    } else {
      assert (a + b)[..|a + b| - 1] == a + b[..|b| - 1];
      MountedJoin(prefix, branch, a, b[..|b| - 1]);
    }
  }

  lemma ExpandAfter(before: History, op: Op, id: nat, k: string, outer: string, owner: Option<nat>)
    ensures Expand(After(before, op), id, k, outer, owner)
         == Expand(before, id, k, outer, owner) + Declares(before, op, id, k, outer, owner)
  {
  }

  /** Copying a branch's routes behind a prefix is the same as having declared them there. */
  lemma {:induction false} MountedExpands(prefix: string, branch: nat, h: History, id: nat, k: string, outer: string,
      owner: Option<nat>)
    ensures Mounted(prefix, branch, Expand(h, id, k, outer, owner)) == Expand(h, id, k, prefix + outer, Some(branch))
    decreases h, 1
  {
    if h.After? {
      hide Expand, Mounted, Declares;
      MountedExpands(prefix, branch, h.before, id, k, outer, owner);
      MountedDeclares(prefix, branch, h.before, h.op, id, k, outer, owner);
      ExpandAfter(h.before, h.op, id, k, outer, owner);
      ExpandAfter(h.before, h.op, id, k, prefix + outer, Some(branch));
      MountedJoin(prefix, branch, Expand(h.before, id, k, outer, owner), Declares(h.before, h.op, id, k, outer, owner));
    }
  }

  lemma {:induction false} MountedDeclares(prefix: string, branch: nat, before: History, op: Op, id: nat, k: string,
      outer: string, owner: Option<nat>)
    ensures Mounted(prefix, branch, Declares(before, op, id, k, outer, owner))
         == Declares(before, op, id, k, prefix + outer, Some(branch))
    decreases op
  {
    match op
    case Handle(verb, path, handlers) =>
      assert prefix + (outer + PrefixOf(before) + path) == prefix + outer + PrefixOf(before) + path;
    case Include(p, b, history) =>
      MountedExpands(prefix, branch, history, b, k, outer + p, if owner.Some? then owner else Some(b));
      assert prefix + (outer + p) == prefix + outer + p;
    case _ =>
  }

  lemma ExpandInclude(h: History, id: nat, k: string, prefix: string, branch: nat, h': History)
    ensures Expand(After(h, Op.Include(prefix, branch, h')), id, k, "", None)
         == Expand(h, id, k, "", None) + Expand(h', branch, k, prefix, Some(branch))
  {
    assert "" + prefix == prefix;
    ExpandAfter(h, Op.Include(prefix, branch, h'), id, k, "", None);
  }

  class BluePrint {
    const id: nat
    var parent: BluePrint?
    var middleware: seq<nat>
    var prefix: string
    var methodsTree: MethodsTree

    /** What was done to this blueprint so far. */
    ghost var history: History

    function RoutesOf(k: string): seq<HandleNode>
      reads this
    {
      RoutesIn(methodsTree, k)
    }

    /** The registered routes are those the history declares. */
    ghost predicate Valid()
      reads this
    {
      && middleware == MiddlewareOf(history) && prefix == PrefixOf(history)
      && (forall k :: RoutesOf(k) == Expand(history, id, k, "", None))
      && Keyed(methodsTree)
    }

    constructor (id: nat)
      ensures Valid() && this.id == id && history == Start && parent == null
    {
      this.id, parent, middleware, prefix, methodsTree, history := id, null, [], "", map[], Start;
    }

    method Use(middleware: seq<nat>)
      requires Valid()
      modifies this
      ensures Valid() && history == After(old(history), Op.Use(middleware)) && parent == old(parent)
    {
      this.middleware := this.middleware + middleware;
      history := After(history, Op.Use(middleware));
    }

    method SetPrefix(path: string)
      requires Valid()
      modifies this
      ensures Valid() && history == After(old(history), Op.SetPrefix(path)) && parent == old(parent)
    {
      prefix := path;
      history := After(history, Op.SetPrefix(path));
    }

    method Handle(verb: string, path: string, handlers: seq<nat>)
      requires Valid()
      modifies this
      ensures Valid() && history == After(old(history), Op.Handle(verb, path, handlers)) && parent == old(parent)
    {
      Register(verb, HandleNode(prefix + path, middleware + handlers, id));
      assert "" + prefix + path == prefix + path;
      history := After(history, Op.Handle(verb, path, handlers));
    }

    method Register(verb: string, node: HandleNode)
      requires Keyed(methodsTree)
      modifies this`methodsTree
      ensures forall k ::
        RoutesIn(methodsTree, k) == RoutesIn(old(methodsTree), k) + if Serves(verb, k) then [node] else []
      ensures Keyed(methodsTree)
    {
      hide Keyed, Upper;
      var methods := MethodsFor(verb);
      for i := 0 to |methods|
        invariant forall k ::
          RoutesIn(methodsTree, k) == RoutesIn(old(methodsTree), k) + if Among(verb, i, k) then [node] else []
        invariant Keyed(methodsTree)
      {
        var m := Upper(methods[i]);
        forall k ensures Among(verb, i + 1, k) <==> Among(verb, i, k) || k == m { AmongNext(verb, i, k); }
        OnlyOnce(verb, i);
        MethodsDistinct();
        StillKeyed(methodsTree, methods[i], RoutesOf(m) + [node]);
        methodsTree := methodsTree[m := RoutesOf(m) + [node]];
      }
      forall k ensures Among(verb, |methods|, k) <==> Serves(verb, k) { AmongAll(verb, k); }
    }

    method Include(prefix: string, branch: BluePrint)
      requires Valid() && branch.Valid()
      modifies this, branch`parent
      ensures Valid() && branch.Valid() && branch.parent == this && (branch != this ==> parent == old(parent))
      ensures history == After(old(history), Op.Include(prefix, branch.id, old(branch.history)))
    {
      hide Keyed, Mounted, Expand;
      branch.parent := this;
      ghost var h, h' := history, branch.history;
      assert Valid() && branch.Valid();
      IncludeAll(prefix, branch);
      forall k ensures RoutesOf(k) == Expand(h, id, k, "", None) + Expand(h', branch.id, k, prefix, Some(branch.id)) {
        MountedExpands(prefix, branch.id, h', branch.id, k, "", None);
        assert prefix + "" == prefix;
      }
      assert "" + prefix == prefix;
      history := After(h, Op.Include(prefix, branch.id, h'));
      forall k
        ensures Expand(history, id, k, "", None)
             == Expand(h, id, k, "", None) + Expand(h', branch.id, k, prefix, Some(branch.id)) {
        ExpandInclude(h, id, k, prefix, branch.id, h');
      }
    }

    /** The loop over the branch's methods, in whatever order the map gives them. */
    method IncludeAll(prefix: string, branch: BluePrint)
      requires Keyed(methodsTree) && Keyed(branch.methodsTree)
      modifies this`methodsTree
      ensures forall k :: RoutesOf(k) == old(RoutesOf(k)) + Mounted(prefix, branch.id, old(branch.RoutesOf(k)))
      ensures Keyed(methodsTree)
    {
      hide Keyed, Included, Grown;
      ghost var tree, branchTree := methodsTree, branch.methodsTree;
      var left := branch.methodsTree.Keys;
      NothingIncluded(tree, branchTree, prefix, branch.id);
      while left != {}
        invariant left <= branchTree.Keys && Keyed(methodsTree)
        invariant branch.methodsTree == if branch == this then methodsTree else branchTree
        invariant Included(tree, methodsTree, branchTree, left, prefix, branch.id)
        decreases |left|
      {
        var m :| m in left;
        KeyedAt(branchTree, m);
        StillWaiting(tree, methodsTree, branchTree, left, prefix, branch.id, m);
        ghost var before := methodsTree;
        IncludeMethod(prefix, branch, m);
        OneIncluded(tree, before, methodsTree, branchTree, left, prefix, branch.id, m);
        left := left - {m};
      }
      AllIncluded(tree, methodsTree, branchTree, prefix, branch.id);
    }

    /** The branch's routes for one method. */
    method IncludeMethod(prefix: string, branch: BluePrint, m: string)
      requires m != ALL_METHOD && m == Upper(m) && Keyed(methodsTree)
      modifies this`methodsTree
      ensures Grown(old(methodsTree), methodsTree, m, Mounted(prefix, branch.id, RoutesIn(old(branch.methodsTree), m)))
      ensures Keyed(methodsTree)
    {
      assert Mounted(prefix, branch.id, []) == [];
      NothingGrown(methodsTree, m);
      hide Keyed, Upper, Grown;
      ghost var tree := methodsTree;
      var nodes := branch.RoutesOf(m);
      for i := 0 to |nodes|
        invariant Grown(tree, methodsTree, m, Mounted(prefix, branch.id, nodes[..i])) && Keyed(methodsTree)
      {
        var node := HandleNode(prefix + nodes[i].path, nodes[i].handles, branch.id);
        ghost var before, more := methodsTree, Mounted(prefix, branch.id, nodes[..i]);
        Register(m, node);
        GrownMore(tree, before, methodsTree, m, more, node);
        assert nodes[..i + 1][..i] == nodes[..i];
        assert Mounted(prefix, branch.id, nodes[..i + 1]) == more + [node];
      }
      assert nodes[..|nodes|] == nodes;
    }
  }

  function RoutesIn(tree: MethodsTree, k: string): seq<HandleNode> {
    if k in tree then tree[k] else []
  }

  /** Only the routes of method m have grown, by `more`. */
  ghost predicate Grown(tree: MethodsTree, tree': MethodsTree, m: string,
      more: seq<HandleNode>) {
    forall k :: RoutesIn(tree', k) == RoutesIn(tree, k) + if k == m then more else []
  }

  /** All methods but those left have grown by the branch's routes. */
  ghost predicate Included(tree: MethodsTree, tree': MethodsTree,
      branchTree: MethodsTree, left: set<string>, prefix: string, id: nat) {
    forall k :: RoutesIn(tree', k)
      == if k in left then RoutesIn(tree, k) else RoutesIn(tree, k) + Mounted(prefix, id, RoutesIn(branchTree, k))
  }

  lemma NothingIncluded(tree: MethodsTree, branchTree: MethodsTree, prefix: string, id: nat)
    ensures Included(tree, tree, branchTree, branchTree.Keys, prefix, id)
  {
    assert Mounted(prefix, id, []) == [];
  }

  lemma StillWaiting(tree: MethodsTree, tree': MethodsTree,
      branchTree: MethodsTree, left: set<string>, prefix: string, id: nat, m: string)
    requires Included(tree, tree', branchTree, left, prefix, id) && m in left
    ensures RoutesIn(tree', m) == RoutesIn(tree, m)
  {
  }

  lemma OneIncluded(tree: MethodsTree, before: MethodsTree, after: MethodsTree, branchTree: MethodsTree,
      left: set<string>, prefix: string, id: nat, m: string)
    requires Included(tree, before, branchTree, left, prefix, id) && m in left
    requires Grown(before, after, m, Mounted(prefix, id, RoutesIn(branchTree, m)))
    ensures Included(tree, after, branchTree, left - {m}, prefix, id)
  {
    hide RoutesIn, Mounted;
    forall k | k != m ensures RoutesIn(after, k) == RoutesIn(before, k) {
      assert RoutesIn(before, k) + [] == RoutesIn(before, k);
    }
  }

  lemma NothingGrown(tree: MethodsTree, m: string)
    ensures Grown(tree, tree, m, [])
  {
  }

  lemma GrownMore(tree: MethodsTree, before: MethodsTree, after: MethodsTree, m: string, more: seq<HandleNode>,
      n: HandleNode)
    requires Grown(tree, before, m, more)
    requires forall k :: RoutesIn(after, k) == RoutesIn(before, k) + if k == m then [n] else []
    ensures Grown(tree, after, m, more + [n])
  {
    hide RoutesIn;
    forall k ensures RoutesIn(after, k) == RoutesIn(tree, k) + if k == m then more + [n] else [] {
      assert RoutesIn(tree, k) + more + [n] == RoutesIn(tree, k) + (more + [n]);
    }
  }

  lemma AllIncluded(tree: MethodsTree, tree': MethodsTree,
      branchTree: MethodsTree, prefix: string, id: nat)
    requires Included(tree, tree', branchTree, {}, prefix, id)
    ensures forall k :: RoutesIn(tree', k) == RoutesIn(tree, k) + Mounted(prefix, id, RoutesIn(branchTree, k))
  {
  }

  /** Keys are upper case, and none stands for all methods. */
  predicate Keyed(tree: MethodsTree) {
    forall k :: k in tree ==> k != ALL_METHOD && k == Upper(k)
  }

  /** k is one of the first i keys a registration for `verb` goes to. */
  predicate Among(verb: string, i: nat, k: string)
    requires i <= |MethodsFor(verb)|
  {
    exists j :: 0 <= j < i && Upper(MethodsFor(verb)[j]) == k
  }

  lemma AmongNext(verb: string, i: nat, k: string)
    requires i < |MethodsFor(verb)|
    ensures Among(verb, i + 1, k) <==> Among(verb, i, k) || k == Upper(MethodsFor(verb)[i])
  {
  }

  lemma OnlyOnce(verb: string, i: nat)
    requires i < |MethodsFor(verb)|
    ensures !Among(verb, i, Upper(MethodsFor(verb)[i]))
  {
    MethodsDistinct();
  }

  lemma AmongAll(verb: string, k: string)
    ensures Among(verb, |MethodsFor(verb)|, k) <==> Serves(verb, k)
  {
    var methods := MethodsFor(verb);
    MethodsDistinct();
    if Serves(verb, k) {
      var j :| 0 <= j < |methods| && Upper(methods[j]) == k;
    }
  }

  lemma KeyedAt(tree: MethodsTree, k: string)
    requires Keyed(tree) && k in tree
    ensures k != ALL_METHOD && k == Upper(k)
  {
  }

  lemma StillKeyed(tree: MethodsTree, verb: string, nodes: seq<HandleNode>)
    requires Keyed(tree) && verb != ALL_METHOD
    ensures Keyed(tree[Upper(verb) := nodes])
  {
    UpperFacts(verb);
  }

  lemma UpperFacts(s: string)
    ensures Upper(Upper(s)) == Upper(s)
    ensures Upper(s) == ALL_METHOD ==> s == ALL_METHOD
  {
  }

  /** The listed methods are upper case and distinct. */
  lemma MethodsDistinct()
    ensures forall i :: 0 <= i < |HTTP_METHODS| ==> Upper(HTTP_METHODS[i]) == HTTP_METHODS[i]
    ensures forall i, j :: 0 <= i < j < |HTTP_METHODS| ==> HTTP_METHODS[i] != HTTP_METHODS[j]
    ensures ALL_METHOD !in HTTP_METHODS
  {
    hide Upper;
    forall i | 0 <= i < |HTTP_METHODS| ensures Upper(HTTP_METHODS[i]) == HTTP_METHODS[i] {
      UpperKeeps(HTTP_METHODS[i]);
    }
  }

  lemma UpperKeeps(s: string)
    requires forall i :: 0 <= i < |s| ==> !('a' <= s[i] <= 'z')
    ensures Upper(s) == s
  {
  }

  // ------------------------------------------------------------------ Engine.init

  /** r is the handlers in their order, each with the blueprint. */
  predicate RunsAll(r: RouteTree.Handle, handles: seq<nat>, bluePrint: nat) {
    |r| == |handles| && forall j :: 0 <= j < |r| ==> r[j].handleFunc == handles[j] && r[j].bluePrint == bluePrint
  }

  /** Each handler with the blueprint it runs with. */
  function HandleFuncNodes(handles: seq<nat>, bluePrint: nat): (r: RouteTree.Handle)
    ensures RunsAll(r, handles, bluePrint)
  {
    seq(|handles|, i requires 0 <= i < |handles| => HandleFuncNode(handles[i], bluePrint))
  }

  /** What init registers for the routes of one method. */
  function Registrations(middleware: seq<nat>, nodes: seq<HandleNode>): (r: seq<Route>)
    ensures |r| == |nodes|
  {
    seq(|nodes|, i requires 0 <= i < |nodes| =>
      Route(nodes[i].path, HandleFuncNodes(middleware + nodes[i].handles, nodes[i].bluePrint)))
  }

  /** What the history of the root blueprint registers under method k. */
  function Declared(h: History, id: nat, k: string): seq<Route> {
    Registrations(MiddlewareOf(h), Expand(h, id, k, "", None))
  }

  /** What is declared under method k is within reach and safe for the router's code. */
  ghost predicate SafelyDeclared(h: History, id: nat, k: string, v: Version) {
    AllInReach(Declared(h, id, k), Repaired(v)) && SafeRun(Declared(h, id, k), v)
  }

  /** One method's routes go into the router, in order; not ok is a panic. */
  method InitMethod(router: HttpRouter, m: string, middleware: seq<nat>, nodes: seq<HandleNode>) returns (ok: bool)
    requires router.Valid() && router.RoutesOf(m) == []
    requires AllInReach(Registrations(middleware, nodes), Repaired(router.version))
    requires SafeRun(Registrations(middleware, nodes), router.version)
    modifies router, router.repr
    ensures ok <==> Acceptable(Registrations(middleware, nodes), router.version)
    ensures ok ==> router.Valid() && fresh(router.repr - old(router.repr))
    ensures ok ==> router.RoutesOf(m) == Registrations(middleware, nodes)
    ensures ok ==> forall k :: k != m ==> router.RoutesOf(k) == old(router.RoutesOf(k))
  {
    hide Acceptable, SafeRun, SafeAfter, HttpRouter.Valid;
    NoneAcceptable(router.version);
    ghost var all := Registrations(middleware, nodes);
    for i := 0 to |nodes|
      invariant router.Valid() && fresh(router.repr - old(router.repr))
      invariant router.RoutesOf(m) == all[..i] && Acceptable(all[..i], router.version)
      invariant forall k :: k != m ==> router.RoutesOf(k) == old(router.RoutesOf(k))
    {
      var hns := HandleFuncNodes(middleware + nodes[i].handles, nodes[i].bluePrint);
      assert all[i] == Route(nodes[i].path, hns) && all[..i] + [all[i]] == all[..i + 1];
      SafeRunPrefix(all, i, router.version);
      ok := router.Insert(m, nodes[i].path, hns);
      if !ok {
        if Acceptable(all, router.version) { PrefixAcceptable(all, i + 1, router.version); }
        return;
      }
    }
    assert all[..|nodes|] == all;
    ok := true;
  }

  lemma NoneAcceptable(v: Version)
    ensures Acceptable([], v)
  {
  }

  lemma PrefixAcceptable(regs: seq<Route>, i: nat, v: Version)
    requires i <= |regs| && Acceptable(regs, v)
    ensures Acceptable(regs[..i], v)
  {
  }

  /** init: every method's routes go into the router, the root's middleware in front of each. */
  method Init(root: BluePrint, router: HttpRouter) returns (ok: bool)
    requires root.Valid() && router.Valid()
    requires forall k :: router.RoutesOf(k) == []
    requires forall k :: SafelyDeclared(root.history, root.id, k, router.version)
    modifies router, router.repr
    ensures ok <==> forall k :: Acceptable(Declared(root.history, root.id, k), router.version)
    ensures ok ==> router.Valid() && forall k :: router.RoutesOf(k) == Declared(root.history, root.id, k)
  {
    hide Acceptable, AllInReach, SafeRun, Registrations, Expand, HttpRouter.Valid;
    NoneAcceptable(router.version);
    var left := root.methodsTree.Keys;
    forall k | k !in left ensures Declared(root.history, root.id, k) == [] { assert root.RoutesOf(k) == []; }
    while left != {}
      invariant router.Valid() && fresh(router.repr - old(router.repr)) && left <= root.methodsTree.Keys
      invariant forall k :: router.RoutesOf(k) == if k in left then [] else Declared(root.history, root.id, k)
      invariant forall k :: k !in left ==> Acceptable(Declared(root.history, root.id, k), router.version)
      decreases |left|
    {
      var m :| m in left;
      left := left - {m};
      assert root.methodsTree[m] == root.RoutesOf(m) == Expand(root.history, root.id, m, "", None);
      assert SafelyDeclared(root.history, root.id, m, router.version);
      ok := InitMethod(router, m, root.middleware, root.methodsTree[m]);
      if !ok {
        assert !Acceptable(Declared(root.history, root.id, m), router.version);
        return;
      }
    }
    ok := true;
  }

  // ------------------------------------------------------------------ what a declared route runs with

  /** op was done to the blueprint itself, directly after `before`. */
  predicate Done(h: History, before: History, op: Op) {
    h.After? && ((h.before == before && h.op == op) || Done(h.before, before, op))
  }

  lemma {:induction false} DoneDeclares(h: History, before: History, op: Op, id: nat, k: string, outer: string,
      owner: Option<nat>, n: HandleNode)
    requires Done(h, before, op) && n in Declares(before, op, id, k, outer, owner)
    ensures n in Expand(h, id, k, outer, owner) && MiddlewareOf(before) <= MiddlewareOf(h)
    decreases h
  {
    hide Declares;
    if !(h.before == before && h.op == op) { DoneDeclares(h.before, before, op, id, k, outer, owner, n); }
  }

  lemma RegisteredNode(middleware: seq<nat>, nodes: seq<HandleNode>, n: HandleNode)
    requires n in nodes
    ensures Route(n.path, HandleFuncNodes(middleware + n.handles, n.bluePrint)) in Registrations(middleware, nodes)
  {
    var i :| 0 <= i < |nodes| && nodes[i] == n;
    assert Registrations(middleware, nodes)[i] == Route(n.path, HandleFuncNodes(middleware + n.handles, n.bluePrint));
  }

  /**
    A route declared on the root itself runs the middleware used before it twice, from init and from
    Handle; it stands there once exactly if none had been used by then.
  */
  lemma RootMiddlewareTwice(h: History, before: History, verb: string, path: string, handlers: seq<nat>, id: nat,
      k: string)
    requires Done(h, before, Op.Handle(verb, path, handlers)) && Serves(verb, k)
    ensures var handles := MiddlewareOf(h) + (MiddlewareOf(before) + handlers);
      && (exists hns :: RunsAll(hns, handles, id) && Route(PrefixOf(before) + path, hns) in Declared(h, id, k))
      && (handles == MiddlewareOf(h) + handlers <==> MiddlewareOf(before) == [])
    ensures MiddlewareOf(before) <= MiddlewareOf(h)
  {
    var n := HandleNode(PrefixOf(before) + path, MiddlewareOf(before) + handlers, id);
    assert "" + PrefixOf(before) + path == PrefixOf(before) + path;
    DoneDeclares(h, before, Op.Handle(verb, path, handlers), id, k, "", None, n);
    RegisteredNode(MiddlewareOf(h), Expand(h, id, k, "", None), n);
    var m, m' := MiddlewareOf(h), MiddlewareOf(before);
    assert RunsAll(HandleFuncNodes(m + n.handles, id), m + n.handles, id);
    if m + (m' + handlers) == m + handlers { assert |m' + handlers| == |handlers|; }
    assert [] + handlers == handlers;
  }

  /** The blueprints a route went through, the one it was declared on last, and what was declared there. */
  datatype Way = Way(ids: seq<nat>, handles: seq<nat>)

  /** The ways of the routes in the order of Expand; `via` are the blueprints around the one whose history is h. */
  function Ways(h: History, id: nat, k: string, via: seq<nat>): seq<Way>
    decreases h
  {
    match h
    case Start => []
    case After(before, op) => Ways(before, id, k, via) + WaysOf(before, op, id, k, via)
  }

  function WaysOf(before: History, op: Op, id: nat, k: string, via: seq<nat>): seq<Way>
    decreases op
  {
    match op
    case Handle(verb, _, handlers) =>
      if Serves(verb, k) then [Way(via + [id], MiddlewareOf(before) + handlers)] else []
    case Include(_, branch, history) => Ways(history, branch, k, via + [id])
    case _ => []
  }

  /** The blueprint that a route with this way runs with: the outermost included one. */
  function RunsWith(ids: seq<nat>): nat
    requires ids != []
  {
    if |ids| == 1 then ids[0] else ids[1]
  }

  predicate GoesBy(n: HandleNode, way: Way, via: seq<nat>) {
    |way.ids| > |via| && via <= way.ids && n.bluePrint == RunsWith(way.ids) && n.handles == way.handles
  }

  predicate GoBy(nodes: seq<HandleNode>, ways: seq<Way>, via: seq<nat>) {
    |nodes| == |ways| && forall i :: 0 <= i < |nodes| ==> GoesBy(nodes[i], ways[i], via)
  }

  /** The owner under which Expand goes on at blueprint id, reached through via. */
  function OwnerAt(via: seq<nat>, id: nat): Option<nat> {
    if via == [] then None else Some(RunsWith(via + [id]))
  }

  lemma {:induction false} ExpandGoesBy(h: History, id: nat, k: string, outer: string, via: seq<nat>)
    ensures GoBy(Expand(h, id, k, outer, OwnerAt(via, id)), Ways(h, id, k, via), via)
    decreases h, 1
  {
    if h.After? {
      hide Declares, WaysOf, GoesBy;
      ExpandGoesBy(h.before, id, k, outer, via);
      DeclaresGoBy(h.before, h.op, id, k, outer, via);
    }
  }

  lemma {:induction false} DeclaresGoBy(before: History, op: Op, id: nat, k: string, outer: string, via: seq<nat>)
    ensures GoBy(Declares(before, op, id, k, outer, OwnerAt(via, id)), WaysOf(before, op, id, k, via), via)
    decreases op
  {
    match op
    case Handle(verb, path, handlers) =>
    case Include(prefix, branch, history) =>
      hide Expand, Ways;
      var deeper := via + [id];
      ExpandGoesBy(history, branch, k, outer + prefix, deeper);
      assert (deeper + [branch])[..|deeper|] == deeper;
      assert OwnerAt(deeper, branch) == Some(if via == [] then branch else RunsWith(via + [id]));
    case _ =>
  }

  /**
    Every declared route runs the root's middleware and what was declared where it was declared, of
    the blueprints in between nothing; and it runs with the outermost included blueprint. It keeps
    the one it was declared on exactly if it was included at most once, or those two are the same.
  */
  lemma OutermostOwns(h: History, id: nat, k: string, i: nat)
    requires i < |Declared(h, id, k)|
    ensures |Ways(h, id, k, [])| == |Declared(h, id, k)| && Ways(h, id, k, [])[i].ids != []
    ensures var way := Ways(h, id, k, [])[i];
      && RunsAll(Declared(h, id, k)[i].handle, MiddlewareOf(h) + way.handles, RunsWith(way.ids))
      && (RunsWith(way.ids) == way.ids[|way.ids| - 1] <==> |way.ids| <= 2 || way.ids[1] == way.ids[|way.ids| - 1])
  {
    ExpandGoesBy(h, id, k, "", []);
    assert GoesBy(Expand(h, id, k, "", None)[i], Ways(h, id, k, [])[i], []);
  }

  /** A route of leaf, included in group, included in root: its handlers run with group, without its middleware. */
  lemma TwoLevels(root: nat, group: nat, leaf: nat, middleware: seq<nat>, path: string, handlers: seq<nat>)
    ensures var declared := After(Start, Op.Handle("GET", path, handlers));
      var included := After(After(Start, Op.Use(middleware)), Op.Include("/g", leaf, declared));
      var h := After(Start, Op.Include("/v", group, included));
      && |Declared(h, root, "GET")| == 1 && Declared(h, root, "GET")[0].path == "/v/g" + path
      && RunsAll(Declared(h, root, "GET")[0].handle, handlers, group)
      && Ways(h, root, "GET", []) == [Way([root, group, leaf], handlers)]
  {
    var declared := After(Start, Op.Handle("GET", path, handlers));
    var used := After(Start, Op.Use(middleware));
    var included := After(used, Op.Include("/g", leaf, declared));
    var h := After(Start, Op.Include("/v", group, included));
    MethodsDistinct();
    assert HTTP_METHODS[0] == "GET" == Upper("GET");
    assert "" + "/v" + "/g" + "" + path == "/v/g" + path;
    assert [] + handlers == handlers;
    var n := HandleNode("/v/g" + path, handlers, group);
    var via := [] + [root] + [group];
    assert via + [leaf] == [root, group, leaf];
    assert Expand(declared, leaf, "GET", "" + "/v" + "/g", Some(group)) == [n];
    assert Ways(declared, leaf, "GET", via) == [Way([root, group, leaf], handlers)];
    assert Expand(used, group, "GET", "" + "/v", Some(group)) == [];
    assert Ways(used, group, "GET", [] + [root]) == [];
    assert Expand(included, group, "GET", "" + "/v", Some(group)) == [n];
    assert Ways(included, group, "GET", [] + [root]) == [Way([root, group, leaf], handlers)];
    assert Expand(h, root, "GET", "", None) == [n];
  }

  // ------------------------------------------------------------------ read off the operations in order

  /** What was done to a blueprint, in order. */
  function OpsOf(h: History): seq<Op> {
    if h.Start? then [] else OpsOf(h.before) + [h.op]
  }

  /** The middleware of all Use operations, in order. */
  function Uses(ops: seq<Op>): seq<nat> {
    if ops == [] then [] else (if ops[0].Use? then ops[0].middleware else []) + Uses(ops[1..])
  }

  /** p was set by the last SetPrefix of ops, or is empty if there is none. */
  predicate LastPrefix(ops: seq<Op>, p: string) {
    if exists i :: 0 <= i < |ops| && ops[i].SetPrefix? then
      exists i :: 0 <= i < |ops| && ops[i] == SetPrefix(p) && forall j :: i < j < |ops| ==> !ops[j].SetPrefix?
    else p == ""
  }

  lemma {:induction false} UsesLast(ops: seq<Op>, op: Op)
    ensures Uses(ops + [op]) == Uses(ops) + if op.Use? then op.middleware else []
    decreases |ops|
  {
    if ops == [] {
      assert Uses([op]) == (if op.Use? then op.middleware else []) + Uses([op][1..]);
    } else {
      assert (ops + [op])[1..] == ops[1..] + [op];
      UsesLast(ops[1..], op);
    }
  }

  lemma {:induction false} MiddlewareUses(h: History)
    ensures MiddlewareOf(h) == Uses(OpsOf(h))
  {
    if h.After? {
      MiddlewareUses(h.before);
      UsesLast(OpsOf(h.before), h.op);
    }
  }

  lemma {:induction false} PrefixIsLast(h: History, p: string)
    requires LastPrefix(OpsOf(h), p)
    ensures PrefixOf(h) == p
  {
    if h.After? {
      var before, ops := OpsOf(h.before), OpsOf(h);
      assert ops[|before|] == h.op;
      if h.op.SetPrefix? {
        var i :| 0 <= i < |ops| && ops[i] == SetPrefix(p) && forall j :: i < j < |ops| ==> !ops[j].SetPrefix?;
      } else {
        assert forall i :: 0 <= i < |before| ==> ops[i] == before[i];
        PrefixIsLast(h.before, p);
      }
    }
  }

  /** The history of the first i operations. */
  function Until(h: History, i: nat): (b: History)
    requires i <= |OpsOf(h)|
    ensures OpsOf(b) == OpsOf(h)[..i]
  {
    if i == |OpsOf(h)| then h else Until(h.before, i)
  }

  lemma {:induction false} DoneAt(h: History, i: nat)
    requires i < |OpsOf(h)|
    ensures Done(h, Until(h, i), OpsOf(h)[i])
  {
    if i < |OpsOf(h)| - 1 { DoneAt(h.before, i); }
  }

  /** A route with this path is declared, and these handlers run, with the blueprint. */
  predicate Registers(routes: seq<Route>, path: string, handles: seq<nat>, bluePrint: nat) {
    exists i :: 0 <= i < |routes| && routes[i].path == path && RunsAll(routes[i].handle, handles, bluePrint)
  }

  lemma RegistersNode(h: History, id: nat, k: string, n: HandleNode)
    requires n in Expand(h, id, k, "", None)
    ensures Registers(Declared(h, id, k), n.path, Uses(OpsOf(h)) + n.handles, n.bluePrint)
  {
    MiddlewareUses(h);
    var nodes := Expand(h, id, k, "", None);
    var i :| 0 <= i < |nodes| && nodes[i] == n;
    var r := Declared(h, id, k)[i];
    assert r.path == n.path && RunsAll(r.handle, Uses(OpsOf(h)) + n.handles, n.bluePrint);
  }

  /** The node that operation i, a Handle, declares. */
  lemma HandleDeclares(h: History, i: nat, id: nat, k: string, outer: string, owner: Option<nat>, p: string)
    requires i < |OpsOf(h)| && OpsOf(h)[i].Handle? && Serves(OpsOf(h)[i].verb, k) && LastPrefix(OpsOf(h)[..i], p)
    ensures var op := OpsOf(h)[i];
      HandleNode(outer + p + op.path, Uses(OpsOf(h)[..i]) + op.handlers, if owner.Some? then owner.value else id)
        in Expand(h, id, k, outer, owner)
  {
    hide LastPrefix, Serves, Expand, Uses;
    var before, op := Until(h, i), OpsOf(h)[i];
    DoneAt(h, i);
    PrefixIsLast(before, p);
    MiddlewareUses(before);
    var n := HandleNode(outer + p + op.path, Uses(OpsOf(h)[..i]) + op.handlers,
      if owner.Some? then owner.value else id);
    assert Declares(before, op, id, k, outer, owner) == [n];
    DoneDeclares(h, before, op, id, k, outer, owner, n);
  }

  /**
    A route declared on the root as operation i: behind the prefix last set by then, with all middleware
    ever used on the root, then that used before i, then its handlers.
  */
  lemma DeclaredRoute(h: History, i: nat, id: nat, k: string, p: string)
    requires i < |OpsOf(h)| && OpsOf(h)[i].Handle? && Serves(OpsOf(h)[i].verb, k) && LastPrefix(OpsOf(h)[..i], p)
    ensures var ops := OpsOf(h);
      Registers(Declared(h, id, k), p + ops[i].path, Uses(ops) + (Uses(ops[..i]) + ops[i].handlers), id)
  {
    hide Expand, Declared, Registers, LastPrefix, Serves, Uses;
    var op := OpsOf(h)[i];
    HandleDeclares(h, i, id, k, "", None, p);
    assert "" + p + op.path == p + op.path;
    RegistersNode(h, id, k, HandleNode(p + op.path, Uses(OpsOf(h)[..i]) + op.handlers, id));
  }

  /** The same for a route of a branch that the root includes behind `pre` as operation i. */
  lemma IncludedRoute(h: History, i: nat, j: nat, id: nat, k: string, p: string)
    requires i < |OpsOf(h)| && OpsOf(h)[i].Include? && j < |OpsOf(OpsOf(h)[i].history)|
    requires var ops := OpsOf(OpsOf(h)[i].history);
      ops[j].Handle? && Serves(ops[j].verb, k) && LastPrefix(ops[..j], p)
    ensures var inc := OpsOf(h)[i]; var ops := OpsOf(inc.history);
      Registers(Declared(h, id, k), inc.prefix + p + ops[j].path,
        Uses(OpsOf(h)) + (Uses(ops[..j]) + ops[j].handlers), inc.branch)
  {
    hide Expand, Declared, Registers, LastPrefix, Serves, Uses;
    var inc := OpsOf(h)[i];
    var ops := OpsOf(inc.history);
    var n := HandleNode(inc.prefix + p + ops[j].path, Uses(ops[..j]) + ops[j].handlers, inc.branch);
    HandleDeclares(inc.history, j, inc.branch, k, inc.prefix, Some(inc.branch), p);
    DoneAt(h, i);
    assert "" + inc.prefix == inc.prefix;
    assert n in Declares(Until(h, i), inc, id, k, "", None);
    DoneDeclares(h, Until(h, i), inc, id, k, "", None, n);
    RegistersNode(h, id, k, n);
  }

  /** The methods that a registration for "*" serves, and the one that any other serves. */
  lemma ServedMethods(verb: string, k: string)
    ensures Serves("*", k) <==>
      (k == "GET" || k == "POST" || k == "PUT" || k == "PATCH" || k == "DELETE" || k == "OPTIONS" || k == "HEAD"
        || k == "TRACE")
    ensures verb != "*" ==>
      (Serves(verb, k) <==> |k| == |verb| && forall i :: 0 <= i < |k| ==> k[i] == Ascii.ToUpper(verb[i]))
  {
    assert k in HTTP_METHODS ==> exists i :: 0 <= i < 8 && HTTP_METHODS[i] == k;
    if |k| == |verb| && forall i :: 0 <= i < |k| ==> k[i] == Ascii.ToUpper(verb[i]) { assert k == Upper(verb); }
    assert HTTP_METHODS[0] == "GET" && HTTP_METHODS[1] == "POST" && HTTP_METHODS[2] == "PUT"
      && HTTP_METHODS[3] == "PATCH" && HTTP_METHODS[4] == "DELETE" && HTTP_METHODS[5] == "OPTIONS"
      && HTTP_METHODS[6] == "HEAD" && HTTP_METHODS[7] == "TRACE";
  }
}

/**
  The radix tree of core/tree.go on values: nodes, lookup and insertion, branch for branch.

  `Version` says which of three departures of the insertion code from its evident intent are
  repaired; `AS_WRITTEN` repairs none, `REPAIRED` all:
    r1  incrementChildPrio moves the index byte along with its child (core/tree.go:79-84);
    r2  addRoute returns after making an in-path leaf (core/tree.go:149-158);
    r3  insertChild stores path and handle after a loop that did not end in a catch-all
        (core/tree.go:235-241, 352-354).
  A panic of the source is the result None (insertion) or Crash (lookup).
*/
module RouteTree {
  import opened Options
  import opened Patterns

  /** One handler of a route: which function, registered through which blueprint. */
  datatype HandleFuncNode = HandleFuncNode(handleFunc: nat, bluePrint: nat)

  type Handle = seq<HandleFuncNode>

  datatype Version = Version(r1: bool, r2: bool, r3: bool)

  const AS_WRITTEN := Version(false, false, false)
  const REPAIRED := Version(true, true, true)

  datatype Kind = Static | Root | Param | CatchAll

  /** A routerNode; `handle` is None where the source has nil. */
  datatype Node = Node(
    path: string, wildChild: bool, kind: Kind, maxParams: nat, priority: nat,
    indices: string, children: seq<Node>, handle: Option<Handle>)

  /** The node that new(routerNode) makes. */
  const EMPTY := Node("", false, Static, 0, 0, "", [], None)

  function Max(a: nat, b: nat): nat {
    if a >= b then a else b
  }

  /** Subtracting one from a uint8. */
  function Dec8(w: nat): nat {
    (w + 255) % 256
  }

  /** wildcardNum: the number of wildcards, capped at 255. */
  function WildcardNum(path: string): nat {
    if Wild(path) >= MAX_PARAM_COUNT then MAX_PARAM_COUNT else Wild(path)
  }

  /** Length of the longest common prefix. */
  function Lcp(a: string, b: string): (i: nat)
    ensures i <= |a| && i <= |b| && a[..i] == b[..i]
    ensures i < |a| && i < |b| ==> a[i] != b[i]
  {
    if a == "" || b == "" || a[0] != b[0] then 0
    else
      var i := 1 + Lcp(a[1..], b[1..]);
      assert a[..i] == [a[0]] + a[1..][..i - 1];
      assert b[..i] == [b[0]] + b[1..][..i - 1];
      i
  }

  /** The first position of c in s, or |s|. */
  function IndexOf(s: string, c: char): (i: nat)
    ensures i <= |s|
    ensures i < |s| ==> s[i] == c
    ensures forall k :: 0 <= k < i ==> s[k] != c
  {
    if s == "" || s[0] == c then 0 else 1 + IndexOf(s[1..], c)
  }

  /** The first wildcard of s, or |s|. */
  function FirstWild(s: string): (i: nat)
    ensures i <= |s| && NoWild(s[..i])
    ensures i < |s| ==> IsWild(s[i])
  {
    if s == "" || IsWild(s[0]) then 0
    else
      var i := 1 + FirstWild(s[1..]);
      assert s[..i] == [s[0]] + s[1..][..i - 1];
      i
  }

  /** The two nodes of a catch-all: a wrapper without text, and the holder of the variable and the handle. */
  function Wrapper(text: string, h: Handle): Node {
    Node("", true, CatchAll, 1, 1, "", [Node(text, false, CatchAll, 1, 1, "", [], Some(h))], None)
  }

  // ------------------------------------------------------------------ lookup (getValue)

  /** The parameter slice p: nil, or a slice of fixed capacity. */
  datatype Buffer = Nil | Slice(items: seq<Patterns.Param>, cap: nat)

  /** `Missing` is a nil handle; `Crash` is a panic. */
  datatype Lookup = Found(handle: Handle, params: seq<Patterns.Param>) | Missing | Crash

  /** Lazy allocation: make(Params, 0, maxParams) when p is nil. */
  function Alloc(p: Buffer, maxParams: nat): (q: Buffer)
    ensures q.Slice?
  {
    if p.Nil? then Slice([], maxParams) else p
  }

  function Items(p: Buffer): seq<Patterns.Param> {
    if p.Nil? then [] else p.items
  }

  function Serve(handle: Option<Handle>, p: Buffer): Lookup {
    if handle.Some? then Found(handle.value, Items(p)) else Missing
  }

  function GetValue(n: Node, path: string, p: Buffer): Lookup
    decreases n
  {
    if |path| > |n.path| then
      if path[..|n.path|] == n.path then
        var rest := path[|n.path|..];
        if !n.wildChild then
          var i := IndexOf(n.indices, rest[0]);
          if i == |n.indices| then Missing
          else if i < |n.children| then GetValue(n.children[i], rest, p)
          else Crash
        else if |n.children| == 0 then Crash
        else GetWild(n.children[0], rest, p)
      else Missing
    else if path == n.path then Serve(n.handle, p)
    else Missing
  }

  /** The wildcard child n takes its part of the non-empty rest of the path. */
  function GetWild(n: Node, rest: string, p: Buffer): Lookup
    decreases n, 0
  {
    var q := Alloc(p, n.maxParams);
    if |q.items| >= q.cap then Crash
    else if n.kind == Kind.Param then
      if |n.path| < 1 then Crash
      else
        var end := SegEnd(rest);
        var q' := q.(items := q.items + [Patterns.Param(n.path[1..], rest[..end])]);
        if end < |rest| then
          if |n.children| > 0 then GetValue(n.children[0], rest[end..], q') else Missing
        else Serve(n.handle, q')
    else if n.kind == CatchAll then
      if |n.path| < 2 then Crash
      else Serve(n.handle, q.(items := q.items + [Patterns.Param(n.path[2..], rest)]))
    else Crash
  }

  // ------------------------------------------------------------------ insertion

  /** How far left a child of priority prio bubbles from position idx. */
  function NewPos(children: seq<Node>, idx: nat, prio: nat): (k: nat)
    requires idx < |children|
    ensures k <= idx
    ensures forall j :: k <= j < idx ==> children[j].priority < prio
    ensures k > 0 ==> children[k - 1].priority >= prio
  {
    if idx > 0 && children[idx - 1].priority < prio then NewPos(children, idx - 1, prio) else idx
  }

  /** s with the element at idx moved left to k. */
  function MoveLeft<T>(s: seq<T>, idx: nat, k: nat): (r: seq<T>)
    requires k <= idx < |s|
    ensures |r| == |s|
    ensures forall j {:trigger r[j]} :: 0 <= j < |s| ==>
      r[j] == if j == k then s[idx] else if k < j <= idx then s[j - 1] else s[j]
  {
    s[..k] + [s[idx]] + s[k..idx] + s[idx + 1..]
  }

  /** Where the element now at i was before MoveLeft moved idx to k. */
  function Origin(i: nat, idx: nat, k: nat): nat
    requires k <= idx
  {
    if i == k then idx else if k < i <= idx then i - 1 else i
  }

  /** The index string after the child at idx moved to k; as written it loses alignment. */
  function MoveIndex(indices: string, idx: nat, k: nat, v: Version): string
    requires k <= idx < |indices|
  {
    if k == idx then indices
    else if v.r1 then MoveLeft(indices, idx, k)
    else indices[..k] + indices[k..idx + 1] + indices[k..idx] + indices[idx + 1..]
  }

  /** incrementChildPrio: the new children, the new indices, the new position. */
  function IncrementChildPrio(children: seq<Node>, indices: string, idx: nat, v: Version)
    : (r: (seq<Node>, string, nat))
    requires idx < |children| && idx < |indices|
    ensures r.2 <= idx && |r.0| == |children|
    ensures r.0[r.2] == children[idx].(priority := children[idx].priority + 1)
  {
    var child := children[idx].(priority := children[idx].priority + 1);
    var k := NewPos(children, idx, child.priority);
    (MoveLeft(children[idx := child], idx, k), MoveIndex(indices, idx, k, v), k)
  }

  /** The loop of insertChild that cuts the path at its wildcards; w of them are left. */
  function InsertLoop(n: Node, path: string, w: nat, h: Handle, v: Version): Option<Node>
    decreases |path|, 1
  {
    if w == 0 then
      Some(if v.r3 then n.(path := path, handle := Some(h)) else n)
    else
      var i := FirstWild(path);
      if i == |path| then None  // path[i] out of range
      else
        var end := i + 1 + SegEnd(path[i + 1..]);
        if !NoWild(path[i + 1..end]) || |n.children| > 0 || end - i < 2 then None
        else if path[i] == ':' then
          match ParamChild(path[i..], end - i, w, h, v)
          case None => None
          case Some(param) =>
            Some((if i > 0 then n.(path := path[..i]) else n).(wildChild := true, children := [param]))
        else if end != |path| || w > 1 then None
        else if |n.path| > 0 && n.path[|n.path| - 1] == '/' then None
        else if i == 0 || path[i - 1] != '/' then None
        else
          Some(n.(path := path[..i - 1], maxParams := Max(n.maxParams, 1), indices := "/",
            children := [Wrapper(path[i - 1..], h)]))
  }

  /** The parameter path[..e] and what follows it, as a new child. */
  function ParamChild(path: string, e: nat, w: nat, h: Handle, v: Version): Option<Node>
    requires 0 < e <= |path|
    decreases |path|, 0
  {
    var param := Node("", false, Kind.Param, w, 1, "", [], None);
    if e < |path| then
      match InsertLoop(Node("", false, Static, Dec8(w), 1, "", [], None), path[e..], Dec8(w), h, v)
      case None => None
      case Some(c) => Some(param.(path := path[..e], children := [c]))
    else if Dec8(w) > 0 then None  // the loop runs past the end of the path
    else if v.r3 then Some(param.(path := path, handle := Some(h)))
    else Some(param)
  }

  function InsertChild(n: Node, w: nat, path: string, h: Handle, v: Version): Option<Node> {
    if w == 0 then Some(n.(path := path, handle := Some(h))) else InsertLoop(n, path, w, h, v)
  }

  /** The largest maxParams among the children. */
  function MaxOfChildren(children: seq<Node>): nat {
    if children == [] then 0 else Max(children[0].maxParams, MaxOfChildren(children[1..]))
  }

  /** Split edge at i: the tail of the node's text and all it held move into one static child. */
  function Split(n: Node, i: nat): Node
    requires i < |n.path| && n.priority > 0
  {
    var child := Node(n.path[i..], n.wildChild, Static, MaxOfChildren(n.children), n.priority - 1,
                      n.indices, n.children, n.handle);
    n.(path := n.path[..i], wildChild := false, indices := [n.path[i]], children := [child], handle := None)
  }

  /** The wildcard child n takes the text that stands at the front of path. */
  predicate WildcardMatches(n: Node, path: string) {
    n.path <= path && n.kind != CatchAll && (|n.path| >= |path| || path[|n.path|] == '/')
  }

  // ------------------------------------------------------------------ the shape invariant

  /** Routes below n: one for each node that holds a handle. */
  function Count(n: Node): nat {
    (if n.handle.Some? then 1 else 0) + CountAll(n.children)
  }

  function CountAll(ns: seq<Node>): nat {
    if ns == [] then 0 else Count(ns[0]) + CountAll(ns[1..])
  }

  /** No way down from n binds more than k parameters. */
  ghost predicate Fits(n: Node, k: int)
    decreases n
  {
    var k' := if n.kind == Kind.Param || (n.kind == CatchAll && !n.wildChild) then k - 1 else k;
    k' >= 0 && forall i :: 0 <= i < |n.children| ==> Fits(n.children[i], k')
  }

  /** Node c may hang under the index byte b. */
  predicate IndexFits(c: Node, b: char) {
    && (c.kind == Static || (c.kind == CatchAll && c.wildChild))
    && if c.path == "" then b == '/' else c.path[0] == b
  }

  predicate Aligned(n: Node) {
    && |n.indices| == |n.children|
    && (forall i, j :: 0 <= i < j < |n.indices| ==> n.indices[i] != n.indices[j])
    && (forall i :: 0 <= i < |n.children| ==> IndexFits(n.children[i], n.indices[i]))
  }

  predicate Sorted(ns: seq<Node>) {
    forall i, j :: 0 <= i < j < |ns| ==> ns[i].priority >= ns[j].priority
  }

  predicate StaticShape(n: Node) {
    && NoWild(n.path)
    && (n.path == "" ==>
          !n.wildChild && n.handle.None? && |n.children| == 1 && n.children[0].kind == CatchAll)
    && if n.wildChild then
         n.indices == "" && |n.children| == 1 && n.children[0].kind == Kind.Param
       else
         Aligned(n) && Sorted(n.children)
  }

  ghost predicate ParamShape(n: Node) {
    && |n.path| >= 2 && n.path[0] == ':' && NoWild(n.path[1..]) && '/' !in n.path
    && !n.wildChild && |n.children| <= 1 && n.indices <= "/"
    && (n.children == [] ==> n.indices == "")
    && (|n.children| == 1 ==> n.children[0].kind == Static && IndexFits(n.children[0], '/'))
    && Fits(n, n.maxParams)
  }

  predicate WrapperShape(n: Node) {
    n.path == "" && n.handle.None? && n.indices == "" && |n.children| == 1
    && n.children[0].kind == CatchAll && !n.children[0].wildChild
  }

  predicate HolderShape(n: Node) {
    && |n.path| >= 3 && n.path[..2] == "/*" && NoWild(n.path[2..]) && '/' !in n.path[2..]
    && n.handle.Some? && n.children == [] && n.maxParams >= 1
  }

  ghost predicate Shape(n: Node) {
    match n.kind
    case Static => StaticShape(n)
    case Root => StaticShape(n)
    case Param => ParamShape(n)
    case CatchAll => if n.wildChild then WrapperShape(n) else HolderShape(n)
  }

  /** Everything below n is well formed, n's own priority aside. */
  ghost predicate Body(n: Node)
    decreases n, 0
  {
    Shape(n) && Count(n) >= 1 && forall i :: 0 <= i < |n.children| ==> WF(n.children[i])
  }

  /** A well-formed subtree: its priority is the number of its routes. */
  ghost predicate WF(n: Node)
    decreases n, 1
  {
    Body(n) && n.priority == Count(n)
  }

  /** The walk of addRoute at n: the route being added is already counted in n's priority. */
  ghost predicate Pending(n: Node) {
    Body(n) && n.priority == Count(n) + 1
  }

  /** What the walk knows of the rest of the path when it gets to n. */
  predicate Entry(n: Node, path: string) {
    && path != ""
    && if n.kind == Kind.Param then WildcardMatches(n, path)
       else if n.kind == Root then (if n.path == "" then path[0] == '/' else path[0] == n.path[0])
       else IndexFits(n, path[0])
  }

  // ------------------------------------------------------------------ addRoute

  lemma {:induction false} FitsMore(n: Node, k: int, m: int)
    requires Fits(n, k) && k <= m
    ensures Fits(n, m)
    decreases n
  {
    var k' := if n.kind == Kind.Param || (n.kind == CatchAll && !n.wildChild) then k - 1 else k;
    forall i | 0 <= i < |n.children| ensures Fits(n.children[i], m - k + k') {
      FitsMore(n.children[i], k', m - k + k');
    }
  }

  lemma Raised(n: Node, m: nat)
    requires Body(n) && m >= n.maxParams
    ensures Body(n.(maxParams := m)) && Count(n.(maxParams := m)) == Count(n)
  {
    var d := n.(maxParams := m);
    assert Count(d) == Count(n);
    if n.kind == Kind.Param {
      FitsMore(n, n.maxParams, m);
      assert Fits(d, m);
    }
    assert Shape(d);
  }

  /** Counting the new route in c's priority, and raising maxParams, starts the walk at c. */
  lemma Bumped(c: Node, m: nat)
    requires WF(c) && m >= c.maxParams
    ensures Pending(c.(priority := c.priority + 1, maxParams := m))
  {
    Raised(c, m);
    assert Body(c.(maxParams := m)) && c.(priority := c.priority + 1, maxParams := m).children == c.children;
    assert Shape(c.(priority := c.priority + 1, maxParams := m)) by {
      assert c.kind == Kind.Param ==> Fits(c.(priority := c.priority + 1, maxParams := m), m);
    }
  }

  /** Make a new node and insert what is left of the path there, or at n if it starts with a wildcard. */
  function AddNew(n: Node, path: string, w: nat, h: Handle, v: Version): Option<Node>
    requires path != "" && |n.indices| == |n.children|
  {
    if IsWild(path[0]) then InsertChild(n, w, path, h, v)
    else
      var child := EMPTY.(maxParams := w);
      var (kids, indices, k) := IncrementChildPrio(n.children + [child], n.indices + [path[0]], |n.indices|, v);
      match InsertChild(kids[k], w, path, h, v)
      case None => None
      case Some(c) => Some(n.(children := kids[k := c], indices := indices))
  }

  lemma SplitBody(n: Node, i: nat)
    requires Pending(n) && 0 < i < |n.path| && n.kind in {Static, Root}
    ensures Pending(Split(n, i))
  {
    var c := Split(n, i).children[0];
    assert Count(c) == Count(n);
    assert CountAll([c]) == Count(c) + CountAll([]);
    assert WF(c);
  }

  /** n at the head of the walk: its edge split at i, if that is inside it. */
  function Cut(n: Node, i: nat, w: nat): (r: Node)
    requires Pending(n) && i <= |n.path| && (i < |n.path| ==> i > 0 && n.kind in {Static, Root})
    ensures Pending(r) && r.path == n.path[..i] && r.kind == n.kind
    ensures i == |n.path| ==> r == n.(maxParams := Max(n.maxParams, w))
  {
    Raised(n, Max(n.maxParams, w));
    var n0 := n.(maxParams := Max(n.maxParams, w));
    if i < |n.path| then
      SplitBody(n0, i);
      Split(n0, i)
    else n0
  }

  /** The walk of addRoute at n; None is a panic. */
  function AddAt(n: Node, path: string, w: nat, h: Handle, v: Version): Option<Node>
    requires Pending(n) && Entry(n, path)
    decreases |path|, n.children, 1
  {
    var i := Lcp(path, n.path);
    var n1 := Cut(n, i, w);
    if i == |path| && n1.handle.Some? then None  // already registered
    else
      var n2 := if i == |path| then n1.(handle := Some(h)) else n1;
      if i == |path| && v.r2 then Some(n2)
      else AddBelow(n2, path[i..], w, h, v)
  }

  /** What the walk knows when it is done with the text of n and goes below it. */
  ghost predicate Below(n: Node, rest: string) {
    && Shape(n) && (forall i :: 0 <= i < |n.children| ==> WF(n.children[i]))
    && (n.kind == Kind.Param ==> rest == "" || rest[0] == '/')
  }

  /** The walk of addRoute, below n. */
  function AddBelow(n: Node, rest: string, w: nat, h: Handle, v: Version): Option<Node>
    requires Below(n, rest) && !(n.kind == CatchAll && !n.wildChild)
    decreases |rest|, n.children, 0
  {
    hide Count, CountAll, Fits;
    if n.wildChild then
      var m := Max(n.children[0].maxParams, w);
      Bumped(n.children[0], m);
      var c := n.children[0].(priority := n.children[0].priority + 1, maxParams := m);
      if !WildcardMatches(c, rest) then None
      else
        match AddAt(c, rest, Dec8(w), h, v)
        case None => None
        case Some(c') => Some(n.(children := [c']))
    else if rest == "" then None  // path[0] of an empty path
    else if n.kind == Kind.Param && rest[0] == '/' && |n.children| == 1 then
      Bumped(n.children[0], n.children[0].maxParams);
      match AddAt(n.children[0].(priority := n.children[0].priority + 1), rest, w, h, v)
      case None => None
      case Some(c') => Some(n.(children := [c']))
    else
      var idx := IndexOf(n.indices, rest[0]);
      if idx < |n.indices| then
        var (kids, indices, k) := IncrementChildPrio(n.children, n.indices, idx, v);
        Bumped(n.children[idx], n.children[idx].maxParams);
        match AddAt(kids[k], rest, w, h, v)
        case None => None
        case Some(c') => Some(n.(children := kids[k := c'], indices := indices))
      else AddNew(n, rest, w, h, v)
  }

  /** A method's tree: nothing registered yet, or a well-formed root. */
  ghost predicate Tree(t: Node) {
    t == EMPTY || (WF(t) && t.kind == Root && (t.path != "" ==> t.path[0] == '/') && Fits(t, MAX_PARAM_COUNT))
  }

  /** addRoute at the root; HttpRouter.Insert has checked that the path starts with '/'. */
  function AddRoute(t: Node, path: string, h: Handle, v: Version): Option<Node>
    requires Tree(t) && path != "" && path[0] == '/'
  {
    var w := WildcardNum(path);
    var t' := t.(priority := t.priority + 1);
    if t.path == "" && t.children == [] then
      match InsertChild(t', w, path, h, v)
      case None => None
      case Some(r) => Some(r.(kind := Root))
    else
      Bumped(t, t.maxParams);
      AddAt(t', path, w, h, v)
  }
}

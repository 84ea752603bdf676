/**
  Insertion keeps the shape of the tree, adds exactly one route, and accepts exactly the valid
  patterns that may live with all routes already there.
*/
module Insertion {
  import opened Options
  import opened Patterns
  import opened RouteTree
  import opened Routes

  // ------------------------------------------------------------------ what insertion promises

  /** Pattern path may be added next to q; as written (not r2) it must not end inside the tree. */
  predicate Admits(v: Version, path: string, q: string) {
    Compatible(path, q) && (v.r2 || !(path <= q))
  }

  /** The routes of n' are those of n and one more. */
  ghost predicate Adds(n: Node, n': Node, path: string, h: Handle) {
    forall q, g :: Has(n', q, g) <==> Has(n, q, g) || (q == path && g == h)
  }

  ghost predicate AdmitsAll(v: Version, n: Node, path: string) {
    forall q, g :: Has(n, q, g) ==> Admits(v, path, q)
  }

  ghost predicate Only(n: Node, path: string, h: Handle) {
    forall q, g :: Has(n, q, g) <==> q == path && g == h
  }

  /** n' is what the walk of addRoute makes of n. */
  ghost predicate Added(n: Node, n': Node, path: string, h: Handle) {
    && WF(n') && Count(n') == Count(n) + 1 && n'.kind == n.kind
    && (n'.path == "" <==> n.path == "") && (n.path != "" ==> n'.path[0] == n.path[0])
    && (n.kind == CatchAll ==> n'.wildChild == n.wildChild)
    && Adds(n, n', path, h)
    && forall k :: Fits(n, k) && Wild(path) <= k ==> Fits(n', k)
  }

  /** The same for the part below the text of n. */
  ghost predicate AddedBelow(n: Node, n': Node, rest: string, h: Handle) {
    && n'.path == n.path && n'.kind == n.kind && n'.handle == n.handle && n'.priority == n.priority
    && Shape(n') && (forall i :: 0 <= i < |n'.children| ==> WF(n'.children[i]))
    && Count(n') == Count(n) + 1
    && (forall q, g :: InKids(n'.children, q, g) <==> InKids(n.children, q, g) || (q == rest && g == h))
    && forall k :: Fits(n, k) && Wild(rest) <= k - (if n.kind == Kind.Param then 1 else 0) ==> Fits(n', k)
  }

  // ------------------------------------------------------------------ counting

  lemma {:induction false} CountAppend(a: seq<Node>, b: seq<Node>)
    ensures CountAll(a + b) == CountAll(a) + CountAll(b)
  {
    if a == [] {
      assert a + b == b;
    } else {
      assert (a + b)[1..] == a[1..] + b;
      CountAppend(a[1..], b);
    }
  }

  lemma CountUpdate(s: seq<Node>, i: nat, x: Node)
    requires i < |s|
    ensures CountAll(s[i := x]) == CountAll(s) - Count(s[i]) + Count(x)
  {
    assert s == s[..i] + ([s[i]] + s[i + 1..]) && s[i := x] == s[..i] + ([x] + s[i + 1..]);
    CountAppend(s[..i], [s[i]] + s[i + 1..]);
    CountAppend(s[..i], [x] + s[i + 1..]);
    assert ([s[i]] + s[i + 1..])[1..] == s[i + 1..] && ([x] + s[i + 1..])[1..] == s[i + 1..];
  }

  lemma CountFour(a: seq<Node>, b: seq<Node>, c: seq<Node>, d: seq<Node>)
    ensures CountAll(a + b + c + d) == CountAll(a) + CountAll(b) + CountAll(c) + CountAll(d)
  {
    CountAppend(a + b + c, d);
    CountAppend(a + b, c);
    CountAppend(a, b);
  }

  lemma CountMove(s: seq<Node>, idx: nat, k: nat)
    requires k <= idx < |s|
    ensures CountAll(MoveLeft(s, idx, k)) == CountAll(s)
  {
    CountFour(s[..k], s[k..idx], [s[idx]], s[idx + 1..]);
    CountFour(s[..k], [s[idx]], s[k..idx], s[idx + 1..]);
    InFour(s, idx, k);
  }

  lemma InFour(s: seq<Node>, idx: nat, k: nat)
    requires k <= idx < |s|
    ensures s == s[..k] + s[k..idx] + [s[idx]] + s[idx + 1..]
  {
  }

  // ------------------------------------------------------------------ insertChild

  /** A new static node, its priority already 1. */
  predicate Fresh(n: Node) {
    n.path == "" && !n.wildChild && n.kind == Static && n.indices == "" && n.children == []
    && n.handle.None? && n.priority == 1
  }

  /** n holds the one route path. */
  ghost predicate Single(n: Node, path: string, h: Handle) {
    WF(n) && Count(n) == 1 && Only(n, path, h) && Fits(n, Wild(path))
  }

  lemma LeafRoute(n: Node, h: Handle)
    requires n.children == [] && n.handle == Some(h)
    ensures Count(n) == 1 && Only(n, n.path, h)
  {
    forall q, g ensures Has(n, q, g) <==> q == n.path && g == h {
      assert Has(n, q, g) ==> !InKids(n.children, q[|n.path|..], g);
    }
  }

  lemma OneKidRoute(n: Node, c: Node, rest: string, h: Handle)
    requires n.children == [c] && n.handle.None? && Count(c) == 1 && Only(c, rest, h)
    ensures Count(n) == 1 && Only(n, n.path + rest, h)
  {
    assert CountAll([c]) == Count(c) + CountAll([]);
    forall q, g ensures Has(n, q, g) <==> q == n.path + rest && g == h {
      if n.path <= q {
        var y := q[|n.path|..];
        assert q == n.path + y;
        assert InKids([c], y, g) <==> Has([c][0], y, g);
      }
    }
  }

  /** A new node over one child that holds the rest of the route. */
  lemma OneKid(n: Node, c: Node, rest: string, h: Handle)
    requires n.children == [c] && n.handle.None? && n.priority == 1 && Shape(n)
    requires WF(c) && Count(c) == 1 && Only(c, rest, h)
    ensures WF(n) && Count(n) == 1 && Only(n, n.path + rest, h)
  {
    OneKidRoute(n, c, rest, h);
  }

  /** A parameter at the front of path, cut off. */
  lemma CutParam(path: string)
    requires path != "" && path[0] == ':'
    ensures var e := SegEnd(path); 1 <= e && path == path[..e] + path[e..]
    ensures var e := SegEnd(path); NoWild(path[1..e]) ==> Wild(path) == 1 + Wild(path[e..])
  {
    var e := SegEnd(path);
    var name, rest := path[1..e], path[e..];
    assert path[..e] == [':'] + name;
    assert path == path[..e] + rest;
    WildSplit(path[..e], rest);
    WildSplit([':'], name);
    WildZero(name);
  }

  lemma {:induction false} ParamChildSpec(path: string, w: nat, h: Handle, v: Version)
    requires path != "" && path[0] == ':' && w == Wild(path) <= 255 && v.r3
    requires SegEnd(path) >= 2 && NoWild(path[1..SegEnd(path)])
    ensures ParamChild(path, SegEnd(path), w, h, v).Some? <==> ValidRest(path)
    ensures ParamChild(path, SegEnd(path), w, h, v).Some? ==>
      var c := ParamChild(path, SegEnd(path), w, h, v).value;
      c.kind == Kind.Param && Single(c, path, h)
    decreases |path|, 0
  {
    var e := SegEnd(path);
    var seg, rest := path[..e], path[e..];
    CutParam(path);
    assert seg[1..] == path[1..e] && '/' !in seg;
    if e < |path| {
      var child := Node("", false, Static, Dec8(w), 1, "", [], None);
      InsertLoopSpec(child, rest, Dec8(w), h, v);
      if ValidRest(path) {
        var c := InsertLoop(child, rest, Dec8(w), h, v).value;
        var n := Node(seg, false, Kind.Param, w, 1, "", [c], None);
        assert Fits(n, w);
        OneKid(n, c, rest, h);
      }
    } else {
      assert rest == "" && seg == path;
      var n := Node(path, false, Kind.Param, w, 1, "", [], Some(h));
      assert Fits(n, w);
      LeafRoute(n, h);
      assert WF(n);
    }
  }

  /** What the loop does with a parameter on a node without children. */
  lemma LoopAtParam(n: Node, path: string, w: nat, h: Handle, v: Version)
    requires n.children == [] && w > 0 && FirstWild(path) < |path| && path[FirstWild(path)] == ':'
    ensures var i := FirstWild(path);
      var r := path[i..];
      var e := SegEnd(r);
      e > 0 &&
      InsertLoop(n, path, w, h, v) ==
        if e < 2 || !NoWild(r[1..e]) || ParamChild(r, e, w, h, v).None? then None
        else Some((if i > 0 then n.(path := path[..i]) else n)
                  .(wildChild := true, children := [ParamChild(r, e, w, h, v).value]))
  {
    WildcardEnd(path, FirstWild(path));
  }

  /** What it does with a '*' on a new node. */
  lemma LoopAtStar(n: Node, path: string, w: nat, h: Handle, v: Version)
    requires Fresh(n) && w > 0 && 0 < FirstWild(path) < |path| && path[FirstWild(path)] == '*'
    ensures var i := FirstWild(path);
      var name := path[i + 1..];
      InsertLoop(n, path, w, h, v) ==
        if !NoWild(name) || '/' in name || name == "" || w > 1 || path[i - 1] != '/' then None
        else Some(n.(path := path[..i - 1], maxParams := Max(n.maxParams, 1),
            indices := "/", children := [Wrapper(path[i - 1..], h)]))
  {
    var i := FirstWild(path);
    var name := path[i + 1..];
    var end := i + 1 + SegEnd(name);
    assert path[i + 1..end] == name[..SegEnd(name)];
    if end == |path| {
      assert name[..SegEnd(name)] == name;
    } else {
      assert name[SegEnd(name)] == '/';
    }
  }

  lemma LoopDone(n: Node, path: string, h: Handle, v: Version)
    ensures InsertLoop(n, path, 0, h, v) == Some(if v.r3 then n.(path := path, handle := Some(h)) else n)
  {
  }

  lemma {:induction false} InsertLoopSpec(n: Node, path: string, w: nat, h: Handle, v: Version)
    requires Fresh(n) && path != "" && !IsWild(path[0]) && w == Wild(path) <= 255 && v.r3
    ensures InsertLoop(n, path, w, h, v).Some? <==> ValidRest(path)
    ensures InsertLoop(n, path, w, h, v).Some? ==>
      var c := InsertLoop(n, path, w, h, v).value;
      IndexFits(c, path[0]) && Single(c, path, h)
    decreases |path|, 1
  {
    hide InsertLoop, ParamChild, Single, IndexFits, Wild;
    WildZero(path);
    if w == 0 {
      LoopDone(n, path, h, v);
      InsertLeaf(n, path, h);
    } else {
      var i := FirstWild(path);
      if path[i] == ':' {
        CutAt(path, i);
        LoopAtParam(n, path, w, h, v);
        var r := path[i..];
        var e := SegEnd(r);
        if NoWild(r[1..e]) && e >= 2 {
          ParamChildSpec(r, w, h, v);
          if ValidRest(path) {
            InsertedParam(n, path[..i], ParamChild(r, e, w, h, v).value, r, h);
            assert path[..i] + r == path;
          }
        }
      } else {
        LoopAtStar(n, path, w, h, v);
        if path[i - 1] != '/' { CutAt(path, i); } else { InsertCatchAll(n, path, i, h); }
      }
    }
  }

  /** path cut at its first wildcard. */
  lemma CutAt(path: string, i: nat)
    requires i == FirstWild(path) < |path| && (path[i] == ':' || i == 0 || path[i - 1] != '/')
    ensures Wild(path[i..]) == Wild(path)
    ensures ValidRest(path[i..]) == ValidRest(path)
  {
    var s, r := path[..i], path[i..];
    assert path == s + r && NoWild(s);
    assert Seam(s, r) by { assert i > 0 ==> s[i - 1] == path[i - 1]; }
    hide Wild, ValidRest, FirstWild;
    WildZero(s);
    WildSplit(s, r);
    ValidStrip(s, r);
  }

  /** The wildcard at position i ends where its segment ends. */
  lemma WildcardEnd(path: string, i: nat)
    requires i < |path| && path[i] != '/'
    ensures var e := SegEnd(path[i..]); e == 1 + SegEnd(path[i + 1..]) && path[i + 1..i + e] == path[i..][1..e]
  {
    assert path[i..][1..] == path[i + 1..];
  }

  lemma InsertLeaf(n: Node, path: string, h: Handle)
    requires Fresh(n) && path != "" && NoWild(path)
    ensures ValidRest(path)
    ensures var c := n.(path := path, handle := Some(h)); IndexFits(c, path[0]) && Single(c, path, h)
  {
    assert path + "" == path;
    ValidStrip(path, "");
    var c := n.(path := path, handle := Some(h));
    LeafRoute(c, h);
    assert Shape(c);
  }

  lemma InsertedParam(n: Node, s: string, c: Node, r: string, h: Handle)
    requires Fresh(n) && s != "" && NoWild(s) && c.kind == Kind.Param && Single(c, r, h)
    ensures var n' := n.(path := s, wildChild := true, children := [c]);
      IndexFits(n', s[0]) && Single(n', s + r, h)
  {
    var n' := n.(path := s, wildChild := true, children := [c]);
    WildSplit(s, r);
    WildZero(s);
    assert Fits(n', Wild(s + r));
    OneKid(n', c, r, h);
  }

  /** The two nodes a catch-all is made of hold its route. */
  lemma CatchAllNodes(r: string, h: Handle)
    requires |r| >= 3 && r[..2] == "/*" && NoWild(r[2..]) && '/' !in r[2..]
    ensures var wrapper := Wrapper(r, h);
      WF(wrapper) && Count(wrapper) == 1 && Only(wrapper, r, h) && Fits(wrapper, 1)
  {
    var wrapper := Wrapper(r, h);
    var holder := wrapper.children[0];
    LeafRoute(holder, h);
    assert WF(holder) && Fits(holder, 1);
    OneKid(wrapper, holder, r, h);
    assert "" + r == r;
  }

  /** A pattern that ends in a catch-all, cut in front of it. */
  lemma CutCatchAll(s: string, r: string)
    requires NoWild(s) && StartsCatchAll(r)
    ensures ValidRest(s + r) <==> NoWild(r[2..]) && '/' !in r[2..] && r[2..] != ""
  {
    ValidStrip(s, r);
  }

  lemma WildStar(path: string, i: nat)
    requires i == FirstWild(path) < |path|
    ensures Wild(path) == 1 + Wild(path[i + 1..])
  {
    WildSplit(path[..i], path[i..]);
    WildZero(path[..i]);
    assert path == path[..i] + path[i..] && path[i..][1..] == path[i + 1..];
  }

  lemma InsertCatchAll(n: Node, path: string, i: nat, h: Handle)
    requires Fresh(n) && 0 < i < |path| && i == FirstWild(path) && path[i] == '*' && path[i - 1] == '/'
    ensures ValidRest(path) <==>
      Wild(path) == 1 && NoWild(path[i + 1..]) && '/' !in path[i + 1..] && path[i + 1..] != ""
    ensures ValidRest(path) ==>
      var c := n.(path := path[..i - 1], maxParams := Max(n.maxParams, 1),
          indices := "/", children := [Wrapper(path[i - 1..], h)]);
      IndexFits(c, path[0]) && Single(c, path, h)
  {
    CatchAllText(path, i);
    if ValidRest(path) { CatchAllChild(n, path, i, h); }
  }

  lemma CatchAllText(path: string, i: nat)
    requires 0 < i < |path| && i == FirstWild(path) && path[i] == '*' && path[i - 1] == '/'
    ensures var s, r := path[..i - 1], path[i - 1..];
      path == s + r && r[2..] == path[i + 1..] && r[..2] == "/*" && NoWild(s)
    ensures ValidRest(path) <==>
      Wild(path) == 1 && NoWild(path[i + 1..]) && '/' !in path[i + 1..] && path[i + 1..] != ""
  {
    var s, r := path[..i - 1], path[i - 1..];
    assert path == s + r && r[2..] == path[i + 1..];
    assert NoWild(s) by { assert s == path[..i][..i - 1]; }
    CutCatchAll(s, r);
    WildStar(path, i);
    WildZero(path[i + 1..]);
  }

  lemma CatchAllChild(n: Node, path: string, i: nat, h: Handle)
    requires Fresh(n) && 0 < i < |path| && i == FirstWild(path) && path[i] == '*' && path[i - 1] == '/'
      && ValidRest(path)
    ensures
      var c := n.(path := path[..i - 1], maxParams := Max(n.maxParams, 1),
          indices := "/", children := [Wrapper(path[i - 1..], h)]);
      IndexFits(c, path[0]) && Single(c, path, h)
  {
    CatchAllText(path, i);
    hide ValidRest, FirstWild;
    var s, r := path[..i - 1], path[i - 1..];
    CatchAllNodes(r, h);
    var wrapper := Wrapper(r, h);
    var c := n.(path := s, maxParams := Max(n.maxParams, 1), indices := "/", children := [wrapper]);
    OneKid(c, wrapper, r, h);
    assert Fits(c, 1);
  }
}

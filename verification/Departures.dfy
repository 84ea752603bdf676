/**
  The three departures of the insertion code from its intent: where the code as written does what
  the repaired code does.
*/
module Departures {
  import opened Options
  import opened Patterns
  import opened RouteTree
  import opened Routes
  import opened Insertion
  import opened Walk
  import Steps

  // ------------------------------------------------------------------ r3: the handle after the loop

  /** The shape of patterns whose handle insertChild stores as written. */
  predicate StoredAsWritten(path: string) {
    ':' !in path || '*' in path
  }

  function WithR3(v: Version): Version {
    v.(r3 := true)
  }

  lemma LoopSame(n: Node, path: string, w: nat, h: Handle, v: Version)
    requires w > 0 && FirstWild(path) < |path| && (n.children != [] || path[FirstWild(path)] == '*')
    ensures InsertLoop(n, path, w, h, v) == InsertLoop(n, path, w, h, WithR3(v))
  {
  }

  lemma {:induction false} LoopWithStar(n: Node, path: string, w: nat, h: Handle, v: Version)
    requires '*' in path && w == Wild(path) <= 255
    ensures InsertLoop(n, path, w, h, v) == InsertLoop(n, path, w, h, WithR3(v))
    decreases |path|
  {
    hide InsertLoop;
    WildZero(path);
    var i := FirstWild(path);
    if n.children != [] || path[i] == '*' {
      LoopSame(n, path, w, h, v);
    } else {
      LoopAtParam(n, path, w, h, v);
      LoopAtParam(n, path, w, h, WithR3(v));
      StarAfterParam(path);
      var r := path[i..];
      var e := SegEnd(r);
      if NoWild(r[1..e]) {
        LoopWithStar(Node("", false, Static, Dec8(w), 1, "", [], None), r[e..], Dec8(w), h, v);
      }
    }
  }

  lemma StarAfterParam(path: string)
    requires '*' in path && FirstWild(path) < |path| && path[FirstWild(path)] == ':'
    ensures var r := path[FirstWild(path)..];
      var e := SegEnd(r);
      NoWild(r[1..e]) ==> e < |r| && '*' in r[e..] && Wild(path) == 1 + Wild(r[e..])
  {
    var i := FirstWild(path);
    assert i < |path| && NoWild(path[..i]);
    hide SegEnd, Wild, NoWild, FirstWild;
    CutAt(path, i);
    var r := path[i..];
    assert path == path[..i] + r && r[0] == ':';
    StarBehind(path[..i], r);
    StarAfterName(r);
  }

  lemma StarAfterName(r: string)
    requires '*' in r && r[0] == ':'
    ensures var e := SegEnd(r);
      1 <= e <= |r| && (NoWild(r[1..e]) ==> e < |r| && '*' in r[e..] && Wild(r) == 1 + Wild(r[e..]))
  {
    assert SegEnd(r) <= |r|;
    hide SegEnd, Wild, NoWild;
    CutParam(r);
    if NoWild(r[1..SegEnd(r)]) { StarPastName(r); }
  }

  lemma StarPastName(r: string)
    requires '*' in r && r[0] == ':' && NoWild(r[1..SegEnd(r)])
    ensures SegEnd(r) < |r| && '*' in r[SegEnd(r)..]
  {
    var e := SegEnd(r);
    var k :| 0 <= k < |r| && r[k] == '*';
    assert forall j :: 1 <= j < e ==> r[j] == r[1..e][j - 1];
    assert r[e..][k - e] == '*';
  }

  lemma StarBehind(s: string, r: string)
    requires NoWild(s) && '*' in s + r
    ensures '*' in r
  {
    assert '*' !in s;
  }

  /** A node below which no handle is stored. */
  lemma {:induction false} CountNone(n: Node, q: string, g: Handle)
    requires Count(n) == 0
    ensures !Has(n, q, g)
    decreases n
  {
    if n.path <= q && InKids(n.children, q[|n.path|..], g) {
      var i :| 0 <= i < |n.children| && Has(n.children[i], q[|n.path|..], g);
      CountKid(n.children, i);
      CountNone(n.children[i], q[|n.path|..], g);
    }
  }

  lemma {:induction false} CountKid(ns: seq<Node>, i: nat)
    requires i < |ns|
    ensures Count(ns[i]) <= CountAll(ns)
  {
    if i > 0 {
      assert ns[1..][i - 1] == ns[i];
      CountKid(ns[1..], i - 1);
    }
  }

  lemma {:induction false} LoopWithoutStar(n: Node, path: string, w: nat, h: Handle, v: Version)
    requires !v.r3 && '*' !in path && Count(n) == 0 && n.children == []
    ensures InsertLoop(n, path, w, h, v).Some? ==> Count(InsertLoop(n, path, w, h, v).value) == 0
    decreases |path|
  {
    var i := FirstWild(path);
    if w > 0 && i < |path| && path[i] == ':' {
      LoopAtParam(n, path, w, h, v);
      var r := path[i..];
      var e := SegEnd(r);
      if e >= 2 && NoWild(r[1..e]) && ParamChild(r, e, w, h, v).Some? {
        var param := ParamChild(r, e, w, h, v).value;
        if e < |r| {
          LoopWithoutStar(Node("", false, Static, Dec8(w), 1, "", [], None), r[e..], Dec8(w), h, v);
          assert CountAll(param.children) == Count(param.children[0]) + CountAll(param.children[1..]);
        }
        assert CountAll([param]) == Count(param) + CountAll([]);
      }
    }
  }

  /**
    As written, insertChild on a new node accepts the same patterns, and it stores the route exactly
    if the pattern has no parameter or ends in a catch-all; otherwise it stores no handle at all.
  */
  lemma InsertChildAsWritten(path: string, h: Handle, v: Version)
    requires path != "" && !IsWild(path[0]) && Wild(path) <= 255 && !v.r3
    ensures var n := EMPTY.(maxParams := Wild(path), priority := 1);
      var r := InsertChild(n, Wild(path), path, h, v);
      ValidRest(path) && StoredAsWritten(path) ==> r.Some? && Only(r.value, path, h)
    ensures var n := EMPTY.(maxParams := Wild(path), priority := 1);
      var r := InsertChild(n, Wild(path), path, h, v);
      r.Some? && !StoredAsWritten(path) ==> forall q, g :: !Has(r.value, q, g)
  {
    var w := Wild(path);
    var n := EMPTY.(maxParams := w, priority := 1);
    WildZero(path);
    InsertChildSpec(w, path, h, WithR3(v));
    if w > 0 {
      if '*' in path {
        LoopWithStar(n, path, w, h, v);
      } else if InsertChild(n, w, path, h, v).Some? {
        LoopWithoutStar(n, path, w, h, v);
        var c := InsertChild(n, w, path, h, v).value;
        forall q, g ensures !Has(c, q, g) { CountNone(c, q, g); }
        var i := FirstWild(path);
        assert path[i] == ':';
      }
    }
  }

  /** As written, the walk for path from n on stores the handle: in a node on the way, or by insertChild. */
  predicate Kept(n: Node, path: string)
    decreases n, 1
  {
    var i := Lcp(path, n.path);
    n.kind != CatchAll && i < |path| ==> if i < |n.path| then StoredAsWritten(path[i..]) else KeptBelow(n, path[i..])
  }

  predicate KeptBelow(n: Node, rest: string)
    requires rest != ""
    decreases n, 0
  {
    if n.wildChild || (n.kind == Kind.Param && |n.children| == 1) then
      n.children != [] ==> Kept(n.children[0], rest)
    else
      var idx := IndexOf(n.indices, rest[0]);
      if idx < |n.indices| then idx < |n.children| ==> Kept(n.children[idx], rest) else StoredAsWritten(rest)
  }

  lemma SameKept(n: Node, n': Node, path: string)
    requires n' == n.(priority := n'.priority, maxParams := n'.maxParams)
    ensures Kept(n', path) <==> Kept(n, path)
  {
  }

  /** A pattern stored as written is kept on every tree. */
  lemma {:induction false} StoredKept(n: Node, path: string)
    requires Body(n) && StoredAsWritten(path)
    ensures Kept(n, path)
    decreases n
  {
    var i := Lcp(path, n.path);
    if n.kind != CatchAll && i < |path| {
      var rest := path[i..];
      StoredRest(n, path, i);
      if i == |n.path| {
        var idx := if n.wildChild || n.kind == Kind.Param then 0 else IndexOf(n.indices, rest[0]);
        if idx < |n.children| {
          assert WF(n.children[idx]);
          StoredKept(n.children[idx], rest);
        }
      }
    }
  }

  lemma StoredRest(n: Node, path: string, i: nat)
    requires Body(n) && n.kind != CatchAll && i <= |path| && i <= |n.path| && path[..i] == n.path[..i]
      && StoredAsWritten(path)
    ensures StoredAsWritten(path[i..])
  {
    assert '*' !in n.path by {
      if n.kind == Kind.Param { assert n.path == [':'] + n.path[1..]; }
    }
    assert path == path[..i] + path[i..];
  }

  /** On a kept pattern the walk does what the one repaired at r3 does. */
  lemma {:induction false} AddAtKept(n: Node, path: string, w: nat, h: Handle, v: Version)
    requires Pending(n) && Entry(n, path) && Kept(n, path)
    requires w + (if n.kind == Kind.Param then 1 else 0) == Wild(path) <= 255
    ensures AddAt(n, path, w, h, v) == AddAt(n, path, w, h, WithR3(v))
    decreases |path|, n.children, 1
  {
    hide AddAt, AddBelow, Body, WF, Shape, Count, CountAll, Fits, StoredAsWritten, Wild;
    Steps.TurnAt(n, path, w, h, v);
    Steps.TurnAt(n, path, w, h, WithR3(v));
    var i := Lcp(path, n.path);
    var n1 := Cut(n, i, w);
    if n.kind == CatchAll {
      WrapperPanics(n, path, w, h, v);
      WrapperPanics(n, path, w, h, WithR3(v));
    } else if i == |path| {
      assert path[i..] == "";
      NothingBelow(n1.(handle := Some(h)), w, h, v);
      NothingBelow(n1.(handle := Some(h)), w, h, WithR3(v));
    } else {
      KeptCut(n, path, w);
      CutWild(n, path, w);
      AddBelowKept(n1, path[i..], w, h, v);
    }
  }

  lemma WrapperPanics(n: Node, path: string, w: nat, h: Handle, v: Version)
    requires Pending(n) && Entry(n, path) && n.kind == CatchAll
    ensures AddAt(n, path, w, h, v).None?
  {
    var n1 := Cut(n, 0, w);
    assert Lcp(path, n.path) == 0 && path[0..] == path;
    WrapperRefuses(n1, path, w, h, v);
  }

  lemma NothingBelow(n: Node, w: nat, h: Handle, v: Version)
    requires Below(n, "") && !(n.kind == CatchAll && !n.wildChild)
    ensures AddBelow(n, "", w, h, v).None?
  {
    if n.wildChild {
      Steps.WildDown(n, "", w, h, v);
      assert WF(n.children[0]) && Body(n.children[0]);
    }
  }

  /** A new edge is entered at its new index byte. */
  lemma KeptCut(n: Node, path: string, w: nat)
    requires Pending(n) && Entry(n, path) && n.kind != CatchAll && Lcp(path, n.path) < |path|
    ensures var i := Lcp(path, n.path);
      (i < |n.path| ==> i > 0 && n.kind in {Static, Root}) ==> (Kept(n, path) <==> KeptBelow(Cut(n, i, w), path[i..]))
  {
  }

  lemma CutWild(n: Node, path: string, w: nat)
    requires Pending(n) && Entry(n, path) && n.kind != CatchAll
    requires w + (if n.kind == Kind.Param then 1 else 0) == Wild(path)
    ensures w == Wild(path[Lcp(path, n.path)..])
  {
    hide Count, CountAll, Fits;
    var i := Lcp(path, n.path);
    var n1, rest := Cut(n, i, w), path[i..];
    assert path == n1.path + rest;
    WildOf(n1, rest);
  }

  lemma NewStores(n: Node, rest: string, w: nat, h: Handle, v: Version)
    requires rest != "" && |n.indices| == |n.children| && StoredAsWritten(rest) && w == Wild(rest) <= 255
    ensures AddNew(n, rest, w, h, v) == AddNew(n, rest, w, h, WithR3(v))
  {
    WildZero(rest);
    forall k: Node ensures InsertChild(k, w, rest, h, v) == InsertChild(k, w, rest, h, WithR3(v)) {
      if w > 0 {
        assert '*' in rest by { var i := FirstWild(rest); }
        LoopWithStar(k, rest, w, h, v);
      }
    }
    IncrementSame(n.children + [EMPTY.(maxParams := w)], n.indices + [rest[0]], |n.indices|, v);
  }

  lemma IncrementSame(children: seq<Node>, indices: string, idx: nat, v: Version)
    requires idx < |children| && idx < |indices|
    ensures IncrementChildPrio(children, indices, idx, v) == IncrementChildPrio(children, indices, idx, WithR3(v))
  {
  }

  lemma {:induction false} AddBelowKept(n: Node, rest: string, w: nat, h: Handle, v: Version)
    requires Below(n, rest) && n.kind != CatchAll && rest != "" && KeptBelow(n, rest) && w == Wild(rest) <= 255
    ensures AddBelow(n, rest, w, h, v) == AddBelow(n, rest, w, h, WithR3(v))
    decreases |rest|, n.children, 0
  {
    hide AddAt, AddBelow, AddNew, Body, WF, Count, CountAll, Fits, IncrementChildPrio, StoredAsWritten;
    var v' := WithR3(v);
    if n.wildChild {
      Steps.WildDown(n, rest, w, h, v);
      Steps.WildDown(n, rest, w, h, v');
      var c := n.children[0].(priority := n.children[0].priority + 1, maxParams := Max(n.children[0].maxParams, w));
      SameKept(n.children[0], c, rest);
      if WildcardMatches(c, rest) {
        ParamKid(n, rest);
        AddAtKept(c, rest, Dec8(w), h, v);
      }
    } else if n.kind == Kind.Param && |n.children| == 1 {
      Steps.SlashDown(n, rest, w, h, v);
      Steps.SlashDown(n, rest, w, h, v');
      var c := n.children[0].(priority := n.children[0].priority + 1);
      SameKept(n.children[0], c, rest);
      AddAtKept(c, rest, w, h, v);
    } else {
      Steps.IndexDown(n, rest, w, h, v);
      Steps.IndexDown(n, rest, w, h, v');
      var idx := IndexOf(n.indices, rest[0]);
      if idx < |n.indices| {
        IncrementSame(n.children, n.indices, idx, v);
        var c := n.children[idx].(priority := n.children[idx].priority + 1);
        SameKept(n.children[idx], c, rest);
        AddAtKept(c, rest, w, h, v);
      } else {
        NewStores(n, rest, w, h, v);
      }
    }
  }

  /** The wildcard child takes one wildcard off the rest. */
  lemma ParamKid(n: Node, rest: string)
    requires Below(n, rest) && n.kind != CatchAll && n.wildChild && WildcardMatches(n.children[0], rest)
    ensures n.children[0].kind == Kind.Param && Wild(rest) >= 1
  {
    assert WF(n.children[0]) && Body(n.children[0]);
  }

  lemma AddRouteKept(t: Node, path: string, h: Handle, v: Version)
    requires Tree(t) && path != "" && path[0] == '/' && Wild(path) <= 255
    requires t == EMPTY ==> StoredAsWritten(path)
    requires t != EMPTY ==> Kept(t, path)
    ensures AddRoute(t, path, h, v) == AddRoute(t, path, h, WithR3(v))
  {
    hide Count, CountAll, Fits, AddAt, InsertLoop;
    var w := WildcardNum(path);
    if t == EMPTY {
      WildZero(path);
      if w > 0 { LoopWithStar(t.(priority := 1), path, w, h, v); }
    } else {
      Bumped(t, t.maxParams);
      SameKept(t, t.(priority := t.priority + 1), path);
      AddAtKept(t.(priority := t.priority + 1), path, w, h, v);
    }
  }

  lemma AddRouteStores(t: Node, path: string, h: Handle, v: Version)
    requires Tree(t) && path != "" && path[0] == '/' && Wild(path) <= 255 && StoredAsWritten(path)
    ensures AddRoute(t, path, h, v) == AddRoute(t, path, h, WithR3(v))
  {
    if t != EMPTY { StoredKept(t, path); }
    AddRouteKept(t, path, h, v);
  }

  // ------------------------------------------------------------------ r1: the index byte that should move

  /** As written, the index bytes stay with their children exactly if the child overtakes no sibling. */
  lemma {:induction false} IncrementAsWritten(n: Node, idx: nat, v: Version)
    requires Aligned(n) && idx < |n.children| && !v.r1
    ensures var (kids, ix, k) := IncrementChildPrio(n.children, n.indices, idx, v);
      Aligned(n.(children := kids, indices := ix)) <==>
        idx == 0 || n.children[idx - 1].priority > n.children[idx].priority
  {
    var (kids, ix, k) := IncrementChildPrio(n.children, n.indices, idx, v);
    if k == idx {
      assert kids == n.children[idx := kids[k]];
      forall i | 0 <= i < |kids| ensures IndexFits(kids[i], ix[i]) {
        assert IndexFits(n.children[i], n.indices[i]);
      }
    }
  }
}

/**
  The insertion code as written, without the repairs r1 and r3: exactly which registrations leave a
  well-formed tree, and what holds of runs made of those.
*/
module AsWritten {
  import opened Options
  import opened Patterns
  import opened RouteTree
  import opened Insertion
  import opened Walk
  import opened Departures
  import opened Registration
  import Steps

  function WithR1(v: Version): Version {
    v.(r1 := true)
  }

  /** One more route below child idx does not make it overtake the child on its left. */
  predicate Stays(children: seq<Node>, idx: nat)
    requires idx < |children|
  {
    idx == 0 || children[idx - 1].priority > children[idx].priority
  }

  /** The walk for path, from n on, only goes to children that stay in their place. */
  predicate Steady(n: Node, path: string)
    decreases n, 1
  {
    n.path < path ==> SteadyBelow(n, path[|n.path|..])
  }

  predicate SteadyBelow(n: Node, rest: string)
    requires rest != ""
    decreases n, 0
  {
    if n.wildChild || (n.kind == Kind.Param && |n.children| == 1) then
      n.children != [] ==> Steady(n.children[0], rest)
    else
      var idx := IndexOf(n.indices, rest[0]);
      idx < |n.indices| && idx < |n.children| ==> Stays(n.children, idx) && Steady(n.children[idx], rest)
  }

  // ------------------------------------------------------------------ steady registrations

  lemma IncrementStays(children: seq<Node>, indices: string, idx: nat, v: Version)
    requires idx < |children| && idx < |indices| && Stays(children, idx)
    ensures IncrementChildPrio(children, indices, idx, v) == IncrementChildPrio(children, indices, idx, WithR1(v))
  {
  }

  lemma {:induction false} LoopR1(n: Node, path: string, w: nat, h: Handle, v: Version)
    ensures InsertLoop(n, path, w, h, v) == InsertLoop(n, path, w, h, WithR1(v))
    decreases |path|
  {
    var i := FirstWild(path);
    if w > 0 && i < |path| && path[i] == ':' && n.children == [] {
      LoopAtParam(n, path, w, h, v);
      LoopAtParam(n, path, w, h, WithR1(v));
      var r := path[i..];
      var e := SegEnd(r);
      if e < |r| { LoopR1(Node("", false, Static, Dec8(w), 1, "", [], None), r[e..], Dec8(w), h, v); }
    }
  }

  lemma NewR1(n: Node, rest: string, w: nat, h: Handle, v: Version)
    requires Below(n, rest) && rest != "" && |n.indices| == |n.children|
    ensures AddNew(n, rest, w, h, v) == AddNew(n, rest, w, h, WithR1(v))
  {
    if IsWild(rest[0]) {
      LoopR1(n, rest, w, h, v);
    } else {
      AddNewAt(n, rest, w, h, v);
      AddNewAt(n, rest, w, h, WithR1(v));
      LoopR1(EMPTY.(maxParams := w, priority := 1), rest, w, h, v);
    }
  }

  lemma {:induction false} AddAtSteady(n: Node, path: string, w: nat, h: Handle, v: Version)
    requires Pending(n) && Entry(n, path) && Steady(n, path)
    ensures AddAt(n, path, w, h, v) == AddAt(n, path, w, h, WithR1(v))
    decreases |path|, n.children, 1
  {
    hide AddAt, AddBelow, Body, WF, Shape, Count, CountAll, Fits;
    Steps.TurnAt(n, path, w, h, v);
    Steps.TurnAt(n, path, w, h, WithR1(v));
    var i := Lcp(path, n.path);
    var n1 := Cut(n, i, w);
    var n2 := if i == |path| then n1.(handle := Some(h)) else n1;
    if i == |path| {
      NothingBelow(n2, w, h, v);
      NothingBelow(n2, w, h, WithR1(v));
    } else {
      SteadyCut(n, path, w);
      AddBelowSteady(n2, path[i..], w, h, v);
    }
  }

  /** A split edge leaves nothing to overtake. */
  lemma SteadyCut(n: Node, path: string, w: nat)
    requires Pending(n) && Entry(n, path)
    ensures var i := Lcp(path, n.path);
      i < |path| && (i < |n.path| ==> i > 0 && n.kind in {Static, Root}) ==>
        (Steady(n, path) <==> SteadyBelow(Cut(n, i, w), path[i..]))
  {
    var i := Lcp(path, n.path);
    if i < |path| {
      if i == |n.path| { assert n.path == path[..i]; } else { assert !(n.path <= path); }
    }
  }

  lemma {:induction false} AddBelowSteady(n: Node, rest: string, w: nat, h: Handle, v: Version)
    requires Below(n, rest) && !(n.kind == CatchAll && !n.wildChild) && rest != "" && SteadyBelow(n, rest)
    ensures AddBelow(n, rest, w, h, v) == AddBelow(n, rest, w, h, WithR1(v))
    decreases |rest|, n.children, 0
  {
    hide AddAt, AddBelow, AddNew, Body, WF, Count, CountAll, Fits, IncrementChildPrio;
    var v' := WithR1(v);
    if n.wildChild {
      Steps.WildDown(n, rest, w, h, v);
      Steps.WildDown(n, rest, w, h, v');
      var c := n.children[0].(priority := n.children[0].priority + 1, maxParams := Max(n.children[0].maxParams, w));
      SameWalk(n.children[0], c, rest);
      if WildcardMatches(c, rest) { AddAtSteady(c, rest, Dec8(w), h, v); }
    } else if n.kind == Kind.Param && |n.children| == 1 {
      Steps.SlashDown(n, rest, w, h, v);
      Steps.SlashDown(n, rest, w, h, v');
      var c := n.children[0].(priority := n.children[0].priority + 1);
      SameWalk(n.children[0], c, rest);
      AddAtSteady(c, rest, w, h, v);
    } else {
      Steps.IndexDown(n, rest, w, h, v);
      Steps.IndexDown(n, rest, w, h, v');
      var idx := IndexOf(n.indices, rest[0]);
      if idx < |n.indices| {
        IncrementStays(n.children, n.indices, idx, v);
        var c := n.children[idx].(priority := n.children[idx].priority + 1);
        SameWalk(n.children[idx], c, rest);
        Followed(n.children, n.indices, idx, v);
        AddAtSteady(c, rest, w, h, v);
      } else {
        NewR1(n, rest, w, h, v);
      }
    }
  }

  lemma SameWalk(n: Node, n': Node, path: string)
    requires n' == n.(priority := n'.priority, maxParams := n'.maxParams)
    ensures Steady(n', path) <==> Steady(n, path)
  {
  }

  lemma Followed(children: seq<Node>, indices: string, idx: nat, v: Version)
    requires idx < |children| && idx < |indices|
    ensures var (kids, ix, k) := IncrementChildPrio(children, indices, idx, v);
      k <= idx && |kids| == |children| && kids[k] == children[idx].(priority := children[idx].priority + 1)
      && (!v.r1 && !Stays(children, idx) ==> |ix| > |indices|)
  {
  }

  // ------------------------------------------------------------------ the others

  /** A walk that makes a child overtake leaves a node with more index bytes than children. */
  lemma {:induction false} AddAtLost(n: Node, path: string, w: nat, h: Handle, v: Version)
    requires Pending(n) && Entry(n, path) && !Steady(n, path) && !v.r1
    ensures AddAt(n, path, w, h, v).Some? ==> !Body(AddAt(n, path, w, h, v).value)
    decreases |path|, n.children, 1
  {
    hide AddAt, AddBelow, Body, WF, Shape, Count, CountAll, Fits;
    Steps.TurnAt(n, path, w, h, v);
    var i := Lcp(path, n.path);
    if i < |path| {
      SteadyCut(n, path, w);
      AddBelowLost(Cut(n, i, w), path[i..], w, h, v);
    }
  }

  lemma {:induction false} AddBelowLost(n: Node, rest: string, w: nat, h: Handle, v: Version)
    requires Below(n, rest) && !(n.kind == CatchAll && !n.wildChild) && rest != "" && !SteadyBelow(n, rest) && !v.r1
    ensures AddBelow(n, rest, w, h, v).Some? ==> !Body(AddBelow(n, rest, w, h, v).value)
    decreases |rest|, n.children, 0
  {
    hide AddAt, AddBelow, AddNew, Body, WF, Count, CountAll, Fits, IncrementChildPrio;
    if n.wildChild {
      Steps.WildDown(n, rest, w, h, v);
      var c := n.children[0].(priority := n.children[0].priority + 1, maxParams := Max(n.children[0].maxParams, w));
      SameWalk(n.children[0], c, rest);
      if WildcardMatches(c, rest) {
        AddAtLost(c, rest, Dec8(w), h, v);
        LostBelow(AddAt(c, rest, Dec8(w), h, v), n.(children := [c]), 0);
      }
    } else if n.kind == Kind.Param && |n.children| == 1 {
      Steps.SlashDown(n, rest, w, h, v);
      var c := n.children[0].(priority := n.children[0].priority + 1);
      SameWalk(n.children[0], c, rest);
      AddAtLost(c, rest, w, h, v);
      LostBelow(AddAt(c, rest, w, h, v), n.(children := [c]), 0);
    } else {
      Steps.IndexDown(n, rest, w, h, v);
      var idx := IndexOf(n.indices, rest[0]);
      var (kids, ix, k) := IncrementChildPrio(n.children, n.indices, idx, v);
      Followed(n.children, n.indices, idx, v);
      var c := n.children[idx].(priority := n.children[idx].priority + 1);
      SameWalk(n.children[idx], c, rest);
      var m := n.(children := kids, indices := ix);
      if Stays(n.children, idx) {
        AddAtLost(c, rest, w, h, v);
        LostBelow(AddAt(c, rest, w, h, v), m, k);
      } else {
        LostHere(AddAt(c, rest, w, h, v), m, k);
      }
    }
  }

  lemma LostBelow(r: Option<Node>, m: Node, k: nat)
    requires k < |m.children| && (r.Some? ==> !Body(r.value))
    ensures Steps.Under(r, m, k).Some? ==> !Body(Steps.Under(r, m, k).value)
  {
    if r.Some? {
      var m' := m.(children := m.children[k := r.value]);
      assert m'.children[k] == r.value && !WF(m'.children[k]);
    }
  }

  lemma LostHere(r: Option<Node>, m: Node, k: nat)
    requires k < |m.children| && |m.indices| > |m.children| && m.kind in {Static, Root} && !m.wildChild
    ensures Steps.Under(r, m, k).Some? ==> !Body(Steps.Under(r, m, k).value)
  {
  }

  // ------------------------------------------------------------------ forgotten handles

  /** Cut by insertChild as written, a pattern with a parameter and no catch-all leaves no handle. */
  lemma Forgotten(path: string, w: nat, n: Node, h: Handle, v: Version)
    requires !v.r3 && '*' !in path && w > 0 && n.handle.None? && n.children == []
    ensures InsertChild(n, w, path, h, v).Some? ==> Count(InsertChild(n, w, path, h, v).value) == 0
  {
    assert Count(n) == 0;
    LoopWithoutStar(n, path, w, h, v);
  }

  /** A parameter hung below a node as written: nothing is counted below it. */
  lemma ParamForgotten(n: Node, rest: string, w: nat, h: Handle, v: Version)
    requires !v.r3 && '*' !in rest && rest != "" && rest[0] == ':' && w > 0
    ensures InsertChild(n, w, rest, h, v).Some? ==> !Body(InsertChild(n, w, rest, h, v).value)
  {
    if n.children == [] {
      LoopAtParam(n, rest, w, h, v);
      LoopAtParam(EMPTY, rest, w, h, v);
      Forgotten(rest, w, EMPTY, h, v);
      if InsertLoop(n, rest, w, h, v).Some? {
        var c := ParamChild(rest[0..], SegEnd(rest[0..]), w, h, v).value;
        assert CountAll([c]) == Count(c) + CountAll([]);
        assert InsertLoop(n, rest, w, h, v).value.children[0] == c && !WF(c);
      }
    }
  }

  lemma NewForgotten(n: Node, rest: string, w: nat, h: Handle, v: Version)
    requires Below(n, rest) && rest != "" && |n.indices| == |n.children| && !StoredAsWritten(rest) && !v.r3 && w > 0
    ensures AddNew(n, rest, w, h, v).Some? ==> !Body(AddNew(n, rest, w, h, v).value)
  {
    if IsWild(rest[0]) {
      ParamForgotten(n, rest, w, h, v);
    } else {
      AddNewAt(n, rest, w, h, v);
      var r := InsertChild(EMPTY.(maxParams := w, priority := 1), w, rest, h, v);
      Forgotten(rest, w, EMPTY.(maxParams := w, priority := 1), h, v);
      if r.Some? {
        var kids := n.children + [r.value];
        assert kids[|n.children|] == r.value && !WF(kids[|n.children|]);
      }
    }
  }

  /** A walk that does not keep its handle leaves a node without routes. */
  lemma {:induction false} AddAtForgets(n: Node, path: string, w: nat, h: Handle, v: Version)
    requires Pending(n) && Entry(n, path) && !Kept(n, path) && !v.r3
    requires w + (if n.kind == Kind.Param then 1 else 0) == Wild(path) <= 255
    ensures AddAt(n, path, w, h, v).Some? ==> !Body(AddAt(n, path, w, h, v).value)
    decreases |path|, n.children, 1
  {
    hide AddAt, AddBelow, Body, WF, Shape, Count, CountAll, Fits, StoredAsWritten, Wild;
    Steps.TurnAt(n, path, w, h, v);
    var i := Lcp(path, n.path);
    KeptCut(n, path, w);
    CutWild(n, path, w);
    AddBelowForgets(Cut(n, i, w), path[i..], w, h, v);
  }

  lemma {:induction false} AddBelowForgets(n: Node, rest: string, w: nat, h: Handle, v: Version)
    requires Below(n, rest) && n.kind != CatchAll && rest != "" && !KeptBelow(n, rest) && !v.r3
      && w == Wild(rest) <= 255
    ensures AddBelow(n, rest, w, h, v).Some? ==> !Body(AddBelow(n, rest, w, h, v).value)
    decreases |rest|, n.children, 0
  {
    hide AddAt, AddBelow, AddNew, Body, WF, Count, CountAll, Fits, IncrementChildPrio;
    if n.wildChild {
      Steps.WildDown(n, rest, w, h, v);
      var c := n.children[0].(priority := n.children[0].priority + 1, maxParams := Max(n.children[0].maxParams, w));
      SameKept(n.children[0], c, rest);
      if WildcardMatches(c, rest) {
        ParamKid(n, rest);
        AddAtForgets(c, rest, Dec8(w), h, v);
        LostBelow(AddAt(c, rest, Dec8(w), h, v), n.(children := [c]), 0);
      }
    } else if n.kind == Kind.Param && |n.children| == 1 {
      Steps.SlashDown(n, rest, w, h, v);
      var c := n.children[0].(priority := n.children[0].priority + 1);
      SameKept(n.children[0], c, rest);
      AddAtForgets(c, rest, w, h, v);
      LostBelow(AddAt(c, rest, w, h, v), n.(children := [c]), 0);
    } else {
      Steps.IndexDown(n, rest, w, h, v);
      var idx := IndexOf(n.indices, rest[0]);
      if idx < |n.indices| {
        var (kids, ix, k) := IncrementChildPrio(n.children, n.indices, idx, v);
        Followed(n.children, n.indices, idx, v);
        var c := n.children[idx].(priority := n.children[idx].priority + 1);
        SameKept(n.children[idx], c, rest);
        AddAtForgets(c, rest, w, h, v);
        LostBelow(AddAt(c, rest, w, h, v), n.(children := kids, indices := ix), k);
      } else {
        HasWild(rest);
        NewForgotten(n, rest, w, h, v);
      }
    }
  }

  lemma HasWild(rest: string)
    requires !StoredAsWritten(rest)
    ensures Wild(rest) > 0
  {
    WildZero(rest);
    var i :| 0 <= i < |rest| && rest[i] == ':';
  }

  // ------------------------------------------------------------------ whole registrations

  /** v with the index byte and the handle repaired. */
  function Repaired(v: Version): Version {
    Version(true, v.r2, true)
  }

  /** What the code as written needs of a registration: no child overtakes, and the handle is stored. */
  predicate Safe(t: Node, path: string, v: Version) {
    (v.r1 || Steady(t, path)) && (v.r3 || Kept(t, path))
  }

  /**
    As written, addRoute keeps the tree well formed exactly if the registration is safe, and then it
    does what the repaired code does.
  */
  lemma AddRouteAsWritten(t: Node, path: string, h: Handle, v: Version)
    requires Tree(t) && path != "" && path[0] == '/' && Wild(path) <= MAX_PARAM_COUNT
    ensures Safe(t, path, v) ==> AddRoute(t, path, h, v) == AddRoute(t, path, h, Repaired(v))
    ensures AddRoute(t, path, h, v).Some? ==> (Tree(AddRoute(t, path, h, v).value) <==> Safe(t, path, v))
  {
    hide AddRoute, Tree, Steady, Kept;
    AddRouteSpec(t, path, h, Repaired(v));
    var v1 := WithR1(v);
    if !v.r1 { AddRouteR1(t, path, h, v); }
    if v.r1 || Steady(t, path) {
      if !v.r3 { AddRouteR3(t, path, h, v1); }
    }
  }

  lemma AddRouteR1(t: Node, path: string, h: Handle, v: Version)
    requires Tree(t) && path != "" && path[0] == '/' && !v.r1
    ensures Steady(t, path) ==> AddRoute(t, path, h, v) == AddRoute(t, path, h, WithR1(v))
    ensures !Steady(t, path) && AddRoute(t, path, h, v).Some? ==> !Tree(AddRoute(t, path, h, v).value)
  {
    hide AddRoute, AddAt, Tree;
    if t == EMPTY {
      FirstR1(path, h, v);
    } else {
      var t1, w := t.(priority := t.priority + 1), WildcardNum(path);
      RootWalk(t, path, h, v);
      RootWalk(t, path, h, WithR1(v));
      SameWalk(t, t1, path);
      if Steady(t, path) {
        AddAtSteady(t1, path, w, h, v);
      } else {
        AddAtLost(t1, path, w, h, v);
        RootLost(t1, path, w, h, v);
      }
    }
  }

  lemma AddRouteR3(t: Node, path: string, h: Handle, v: Version)
    requires Tree(t) && path != "" && path[0] == '/' && !v.r3 && Wild(path) <= MAX_PARAM_COUNT
    ensures Kept(t, path) ==> AddRoute(t, path, h, v) == AddRoute(t, path, h, WithR3(v))
    ensures !Kept(t, path) && AddRoute(t, path, h, v).Some? ==> !Tree(AddRoute(t, path, h, v).value)
  {
    hide AddRoute, AddAt, Tree, StoredAsWritten;
    if t == EMPTY {
      assert Lcp(path, "") == 0 && path[0..] == path;
      assert Kept(t, path) <==> StoredAsWritten(path);
    }
    if Kept(t, path) {
      AddRouteKept(t, path, h, v);
    } else if t == EMPTY {
      FirstForgets(path, h, v);
    } else {
      var t1, w := t.(priority := t.priority + 1), WildcardNum(path);
      RootWalk(t, path, h, v);
      SameKept(t, t1, path);
      AddAtForgets(t1, path, w, h, v);
      RootLost(t1, path, w, h, v);
    }
  }

  lemma RootWalk(t: Node, path: string, h: Handle, v: Version)
    requires Tree(t) && t != EMPTY && path != "" && path[0] == '/'
    ensures var t1 := t.(priority := t.priority + 1);
      Pending(t1) && Entry(t1, path) && t1.kind == Root
        && AddRoute(t, path, h, v) == AddAt(t1, path, WildcardNum(path), h, v)
  {
    EmptyText(t);
    Bumped(t, t.maxParams);
  }

  lemma RootLost(n: Node, path: string, w: nat, h: Handle, v: Version)
    requires Pending(n) && Entry(n, path) && n.kind == Root
    requires AddAt(n, path, w, h, v).Some? ==> !Body(AddAt(n, path, w, h, v).value)
    ensures AddAt(n, path, w, h, v).Some? ==> !Tree(AddAt(n, path, w, h, v).value)
  {
    StillRoot(n, path, w, h, v);
  }

  lemma StillRoot(n: Node, path: string, w: nat, h: Handle, v: Version)
    requires Pending(n) && Entry(n, path) && n.kind == Root
    ensures AddAt(n, path, w, h, v).Some? ==> AddAt(n, path, w, h, v).value.kind == Root
  {
  }

  lemma FirstR1(path: string, h: Handle, v: Version)
    requires path != "" && path[0] == '/'
    ensures AddRoute(EMPTY, path, h, v) == AddRoute(EMPTY, path, h, WithR1(v)) && Steady(EMPTY, path)
  {
    LoopR1(EMPTY.(priority := 1), path, WildcardNum(path), h, v);
  }

  lemma FirstForgets(path: string, h: Handle, v: Version)
    requires path != "" && path[0] == '/' && !v.r3 && !StoredAsWritten(path) && Wild(path) <= MAX_PARAM_COUNT
    ensures AddRoute(EMPTY, path, h, v).Some? ==> !Tree(AddRoute(EMPTY, path, h, v).value)
  {
    HasWild(path);
    Forgotten(path, WildcardNum(path), EMPTY.(priority := 1), h, v);
  }

  // ------------------------------------------------------------------ runs

  /** Every registration of the run is safe on the tree before it. */
  predicate SafeRun(regs: seq<Route>, v: Version)
    requires AllInReach(regs, Repaired(v))
  {
    regs == [] ||
    (SafeRun(regs[..|regs| - 1], v) &&
     var t := Build(regs[..|regs| - 1], Repaired(v));
     t.Some? ==> Safe(t.value, regs[|regs| - 1].path, v))
  }

  /** Registering regs one after the other as the code is written. */
  function BuildAsWritten(regs: seq<Route>, v: Version): (t: Option<Node>)
    requires AllInReach(regs, Repaired(v)) && SafeRun(regs, v)
    ensures t == Build(regs, Repaired(v))
  {
    if regs == [] then Some(EMPTY)
    else
      var last := regs[|regs| - 1];
      match BuildAsWritten(regs[..|regs| - 1], v)
      case None => None
      case Some(t) =>
        assert Insert(t, last.path, last.handle, v) == Insert(t, last.path, last.handle, Repaired(v)) by {
          if last.path != "" && last.path[0] == '/' { AddRouteAsWritten(t, last.path, last.handle, v); }
        }
        Insert(t, last.path, last.handle, v)
  }

  /** Registering path next, after regs, is safe. */
  predicate SafeAfter(regs: seq<Route>, path: string, v: Version)
    requires AllInReach(regs, Repaired(v))
  {
    var t := Build(regs, Repaired(v));
    t.Some? ==> Safe(t.value, path, v)
  }

  /** With r1 and r3 repaired every run is safe, and whatever comes next. */
  lemma {:induction false} RepairedIsSafe(regs: seq<Route>, v: Version)
    requires AllInReach(regs, Repaired(v)) && v.r1 && v.r3
    ensures SafeRun(regs, v) && forall path :: SafeAfter(regs, path, v)
  {
    if regs != [] { RepairedIsSafe(regs[..|regs| - 1], v); }
  }

  /** What one more registration does to a safe run. */
  lemma NextAsWritten(regs: seq<Route>, r: Route, v: Version)
    requires AllInReach(regs, Repaired(v)) && SafeRun(regs, v) && BuildAsWritten(regs, v).Some?
    requires Wild(r.path) <= MAX_PARAM_COUNT && SafeAfter(regs, r.path, v)
    ensures AllInReach(regs + [r], Repaired(v)) && SafeRun(regs + [r], v)
    ensures BuildAsWritten(regs + [r], v) == Insert(BuildAsWritten(regs, v).value, r.path, r.handle, v)
    ensures BuildAsWritten(regs + [r], v).Some? <==> Acceptable(regs + [r], v)
    ensures Tree(BuildAsWritten(regs, v).value)
  {
    var all := regs + [r];
    assert all[..|all| - 1] == regs && all[|all| - 1] == r;
    LookupAsWritten(all, v, "");
  }

  lemma {:induction false} SafeRunPrefix(regs: seq<Route>, i: nat, v: Version)
    requires i < |regs| && AllInReach(regs, Repaired(v)) && SafeRun(regs, v)
    ensures AllInReach(regs[..i], Repaired(v)) && SafeRun(regs[..i], v) && SafeAfter(regs[..i], regs[i].path, v)
    decreases |regs|
  {
    var prev := regs[..|regs| - 1];
    if i < |prev| {
      SafeRunPrefix(prev, i, v);
      assert prev[..i] == regs[..i] && prev[i] == regs[i];
    } else {
      assert regs[..i] == prev;
    }
  }

  /** On a safe run of the code as written, lookup is the scan of the registered patterns. */
  lemma LookupAsWritten(regs: seq<Route>, v: Version, x: string)
    requires AllInReach(regs, Repaired(v)) && SafeRun(regs, v)
    ensures BuildAsWritten(regs, v).Some? <==> Acceptable(regs, v)
    ensures BuildAsWritten(regs, v).Some? ==> GetValue(BuildAsWritten(regs, v).value, x, Nil) == Scan(regs, x)
  {
    BuildSpec(regs, Repaired(v));
    assert Acceptable(regs, v) <==> Acceptable(regs, Repaired(v));
    if Build(regs, Repaired(v)).Some? { LookupIsScan(regs, Repaired(v), x); }
  }

  /** No path is a prefix of an earlier one. */
  predicate PrefixesFirst(regs: seq<Route>) {
    forall i, j :: 0 <= i < j < |regs| ==> !(regs[j].path <= regs[i].path)
  }

  /**
    r2 as written: a safe run is accepted exactly if the repaired code accepts it and no path is a
    prefix of an earlier one; so "/" can only be the first.
  */
  lemma PrefixesFirstAsWritten(regs: seq<Route>, v: Version)
    requires AllInReach(regs, Repaired(v)) && SafeRun(regs, v) && !v.r2
    ensures BuildAsWritten(regs, v).Some? <==> Build(regs, REPAIRED).Some? && PrefixesFirst(regs)
    ensures BuildAsWritten(regs, v).Some? ==> forall j :: 0 <= j < |regs| && regs[j].path == "/" ==> j == 0
  {
    hide ValidRest, Compatible;
    BuildSpec(regs, Repaired(v));
    BuildSpec(regs, REPAIRED);
    if Acceptable(regs, Repaired(v)) {
      forall j | 0 <= j < |regs| && regs[j].path == "/" ensures j == 0 {
        assert ValidPattern(regs[0].path) && "/" <= regs[0].path;
      }
    }
  }
}

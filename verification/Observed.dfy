/**
  What an unsafe registration does to lookup: as written, lookup after an accepted registration
  finds what it should on every path exactly if the registration is safe.
*/
module Observed {
  import opened Options
  import opened Patterns
  import opened RouteTree
  import opened Routes
  import opened Insertion
  import opened Walk
  import opened Departures
  import opened Registration
  import opened AsWritten
  import Steps

  // ------------------------------------------------------------------ a path for every pattern

  /** A path that p matches: "a" for every parameter, '/' for a catch-all. */
  function Instance(p: string): string
    decreases |p|
  {
    if p == "" then ""
    else if p[0] == ':' then "a" + Instance(p[SegEnd(p)..])
    else if StartsCatchAll(p) then "/"
    else [p[0]] + Instance(p[1..])
  }

  lemma InstanceFirst(p: string)
    requires p != "" && p[0] != ':'
    ensures Instance(p) != "" && Instance(p)[0] == p[0]
  {
  }

  lemma {:induction false} InstanceMatches(p: string)
    ensures Match(p, Instance(p)).Some?
    decreases |p|
  {
    if p != "" {
      var x := Instance(p);
      if p[0] == ':' {
        var r := p[SegEnd(p)..];
        var y := Instance(r);
        InstanceMatches(r);
        if r != "" { InstanceFirst(r); }
        SegEndAt("a", y);
        assert x[1..] == y;
      } else if !StartsCatchAll(p) {
        InstanceMatches(p[1..]);
        assert x[1..] == Instance(p[1..]);
      }
    }
  }

  lemma {:induction false} InstanceText(s: string, r: string)
    requires NoWild(s) && Seam(s, r)
    ensures Instance(s + r) == s + Instance(r)
  {
    if s == "" {
      assert s + r == r;
    } else {
      var p := s + r;
      assert p[0] == s[0] && p[1..] == s[1..] + r && !IsWild(s[0]) && !StartsCatchAll(p);
      InstanceText(s[1..], r);
      assert [s[0]] + (s[1..] + Instance(r)) == s + Instance(r);
    }
  }

  lemma InstanceParam(seg: string, r: string)
    requires |seg| >= 2 && seg[0] == ':' && '/' !in seg && (r == "" || r[0] == '/')
    ensures Instance(seg + r) == "a" + Instance(r)
  {
    SegEndAt(seg, r);
    assert (seg + r)[|seg|..] == r;
  }

  // ------------------------------------------------------------------ lookups that find nothing

  /** Lookup of x from n on finds nothing, whatever the parameters so far. */
  ghost predicate Blind(n: Node, x: string) {
    if n.kind == Kind.Param then forall p :: !GetWild(n, x, p).Found? else forall p :: !GetValue(n, x, p).Found?
  }

  /** Where no handle is stored none is found. */
  lemma {:induction false} NoHandleFound(n: Node, x: string, p: Buffer)
    requires Count(n) == 0
    ensures !GetValue(n, x, p).Found?
    decreases n
  {
    if |x| > |n.path| && x[..|n.path|] == n.path {
      var rest := x[|n.path|..];
      var i := if n.wildChild then 0 else IndexOf(n.indices, rest[0]);
      if i < |n.children| {
        CountKid(n.children, i);
        if n.wildChild { NoHandleTaken(n.children[0], rest, p); } else { NoHandleFound(n.children[i], rest, p); }
      }
    }
  }

  lemma {:induction false} NoHandleTaken(n: Node, x: string, p: Buffer)
    requires Count(n) == 0
    ensures !GetWild(n, x, p).Found?
    decreases n, 0
  {
    var q := Alloc(p, n.maxParams);
    if |q.items| < q.cap && n.kind == Kind.Param && |n.path| >= 1 {
      TakesSegment(n, x, p);
      var end := SegEnd(x);
      if end < |x| && n.children != [] {
        CountKid(n.children, 0);
        NoHandleFound(n.children[0], x[end..], q.(items := q.items + [Patterns.Param(n.path[1..], x[..end])]));
      }
    }
  }

  lemma BlindWithoutHandle(n: Node, x: string)
    requires Count(n) == 0
    ensures Blind(n, x)
  {
    forall p ensures !GetValue(n, x, p).Found? { NoHandleFound(n, x, p); }
    forall p ensures !GetWild(n, x, p).Found? { NoHandleTaken(n, x, p); }
  }

  /** A node whose text starts otherwise. */
  lemma BlindElsewhere(n: Node, x: string)
    requires n.kind != Kind.Param && n.path != "" && x != "" && x[0] != n.path[0]
    ensures Blind(n, x)
  {
    forall p ensures !GetValue(n, x, p).Found? {
      if |x| > |n.path| { assert x[..|n.path|][0] == x[0]; }
    }
  }

  /** What is not found below the child that the path goes to is not found from n. */
  lemma BlindAbove(n: Node, i: nat, y: string)
    requires n.kind in {Static, Root} && y != "" && i < |n.children| && Blind(n.children[i], y)
    requires if n.wildChild then i == 0 && n.children[0].kind == Kind.Param
             else i < |n.indices| && i == IndexOf(n.indices, y[0]) && n.children[i].kind != Kind.Param
    ensures Blind(n, n.path + y)
  {
    var x := n.path + y;
    assert x[..|n.path|] == n.path && x[|n.path|..] == y;
    forall p ensures !GetValue(n, x, p).Found? { Descends(n, x, p, i); }
  }

  lemma BlindBehind(n: Node, y: string)
    requires n.kind == Kind.Param && |n.path| >= 1 && |n.children| > 0 && n.children[0].kind != Kind.Param
    requires y != "" && y[0] == '/' && Blind(n.children[0], y)
    ensures Blind(n, "a" + y)
  {
    var x := "a" + y;
    SegEndAt("a", y);
    assert x[1..] == y;
    forall p ensures !GetWild(n, x, p).Found? {
      var q := Alloc(p, n.maxParams);
      if |q.items| < q.cap { TakesSegment(n, x, p); }
    }
  }

  // ------------------------------------------------------------------ r1: the overtaken sibling

  /** The walk leaves kind and text of a node, up to a split. */
  lemma KeepsText(n: Node, path: string, w: nat, h: Handle, v: Version)
    requires Pending(n) && Entry(n, path) && AddAt(n, path, w, h, v).Some? && n.kind != CatchAll
    requires w + (if n.kind == Kind.Param then 1 else 0) == Wild(path)
    ensures var r := AddAt(n, path, w, h, v).value; r.kind == n.kind && r.path == n.path[..Lcp(path, n.path)]
  {
    hide AddAt, AddBelow, Body, Shape, WF, Count;
    Steps.TurnAt(n, path, w, h, v);
    CutWild(n, path, w);
    var i := Lcp(path, n.path);
    var m := Cut(n, i, w);
    if i < |path| { BelowKeepsText(m, path[i..], w, h, v); } else { NothingBelow(m.(handle := Some(h)), w, h, v); }
  }

  lemma BelowKeepsText(n: Node, rest: string, w: nat, h: Handle, v: Version)
    requires Below(n, rest) && !(n.kind == CatchAll && !n.wildChild) && rest != "" && w == Wild(rest)
    requires AddBelow(n, rest, w, h, v).Some?
    ensures var r := AddBelow(n, rest, w, h, v).value; r.kind == n.kind && r.path == n.path
  {
    hide AddAt, AddBelow, AddNew, Body, WF, Count, IncrementChildPrio;
    if n.wildChild {
      Steps.WildDown(n, rest, w, h, v);
    } else if n.kind == Kind.Param && |n.children| == 1 {
      Steps.SlashDown(n, rest, w, h, v);
    } else {
      Steps.IndexDown(n, rest, w, h, v);
      NewKeepsText(n, rest, w, h, v);
    }
  }

  lemma NewKeepsText(n: Node, rest: string, w: nat, h: Handle, v: Version)
    requires Below(n, rest) && rest != "" && |n.indices| == |n.children| && w == Wild(rest)
    ensures AddNew(n, rest, w, h, v).Some? ==>
      var r := AddNew(n, rest, w, h, v).value; r.kind == n.kind && r.path == n.path
  {
    if !IsWild(rest[0]) { AddNewAt(n, rest, w, h, v); }
  }

  /** A child that was gone to by its byte still has a text that starts with it. */
  lemma KeepsByte(n: Node, path: string, w: nat, h: Handle, v: Version)
    requires Pending(n) && Entry(n, path) && IndexFits(n, path[0]) && w == Wild(path) && AddAt(n, path, w, h, v).Some?
    ensures var r := AddAt(n, path, w, h, v).value; r.kind == Static && r.path != "" && r.path[0] == path[0]
  {
    if n.kind == CatchAll {
      WrapperPanics(n, path, w, h, v);
    } else {
      if n.path == "" { NoTextPanics(n, path, w, h, v); }
      KeepsText(n, path, w, h, v);
    }
  }

  lemma NoTextPanics(n: Node, path: string, w: nat, h: Handle, v: Version)
    requires Pending(n) && Entry(n, path) && n.kind in {Static, Root} && n.path == ""
    ensures AddAt(n, path, w, h, v).None?
  {
    hide AddAt, AddBelow;
    Steps.TurnAt(n, path, w, h, v);
    EmptyText(n);
    assert Lcp(path, "") == 0 && path[0..] == path;
    var m := Cut(n, 0, w);
    Steps.IndexDown(m, path, w, h, v);
    assert IndexFits(n.children[0], '/') && IndexOf(n.indices, path[0]) == 0;
    var (kids, ix, k) := IncrementChildPrio(m.children, m.indices, 0, v);
    WrapperPanics(kids[k], path, w, h, v);
  }

  /** As written, the byte of the first overtaken sibling selects the child that overtook it. */
  lemma Overtaken(n: Node, idx: nat, v: Version) returns (k: nat)
    requires Aligned(n) && idx < |n.children| && !Stays(n.children, idx) && !v.r1
    ensures k == IncrementChildPrio(n.children, n.indices, idx, v).2 && k < idx
    ensures IndexOf(IncrementChildPrio(n.children, n.indices, idx, v).1, n.indices[k]) == k
  {
    var (kids, ix, k') := IncrementChildPrio(n.children, n.indices, idx, v);
    k := k';
    assert ix[..k + 1] == n.indices[..k + 1];
    assert ix[k] == n.indices[..k + 1][k] == n.indices[k];
    forall j | 0 <= j < k ensures ix[j] != n.indices[k] { assert ix[j] == n.indices[..k + 1][j]; }
  }

  lemma StaysPut(n: Node, idx: nat, v: Version)
    requires Aligned(n) && idx < |n.children| && Stays(n.children, idx)
    ensures var (kids, ix, k) := IncrementChildPrio(n.children, n.indices, idx, v);
      k == idx && ix == n.indices && |kids| == |n.children|
    ensures IndexOf(n.indices, n.indices[idx]) == idx
  {
  }

  /** Route q of n, with handle g, is on its instance no longer found from n'. */
  ghost predicate Lost(n: Node, n': Node, q: string, g: Handle) {
    Has(n, q, g) && Blind(n', Instance(q))
  }

  /** A lookup that goes wrong at, or below, the child under the byte of child i. */
  lemma LosesIndex(n: Node, r: Node, i: nat, j: nat, q: string, g: Handle)
    requires Body(n) && n.kind in {Static, Root} && !n.wildChild && i < |n.children| && Has(n.children[i], q, g)
    requires r.kind == n.kind && r.path == n.path && !r.wildChild && j < |r.children|
      && r.children[j].kind != Kind.Param
    requires j < |r.indices| && j == IndexOf(r.indices, n.indices[i]) && Blind(r.children[j], Instance(q))
    ensures InKids(n.children, q, g) && Blind(r, Instance(n.path + q))
  {
    hide Blind, Has, Count, CountAll, Fits, IndexOf;
    KidSeam(n, i, q, g);
    IndexByte(n, i);
    InstanceFirst(q);
    InstanceText(n.path, q);
    BlindAbove(r, j, Instance(q));
    assert InKids(n.children, q, g);
  }

  lemma LosesWild(n: Node, c: Node, q: string, g: Handle)
    requires Body(n) && n.kind in {Static, Root} && n.wildChild && Has(n.children[0], q, g)
    requires c.kind == Kind.Param && Blind(c, Instance(q))
    ensures InKids(n.children, q, g) && Blind(n.(children := [c]), Instance(n.path + q))
  {
    hide Blind, Has, Count, CountAll, Fits;
    KidSeam(n, 0, q, g);
    assert WF(n.children[0]) && Body(n.children[0]) && q[0] == ':';
    InstanceText(n.path, q);
    BlindAbove(n.(children := [c]), 0, Instance(q));
    assert InKids(n.children, q, g);
  }

  lemma LosesBehind(n: Node, c: Node, q: string, g: Handle)
    requires Body(n) && n.kind == Kind.Param && |n.children| == 1 && Has(n.children[0], q, g)
    requires c.kind == Static && Blind(c, Instance(q))
    ensures InKids(n.children, q, g) && Blind(n.(children := [c]), Instance(n.path + q))
  {
    hide Blind, Has, Count, CountAll, Fits;
    KidSeam(n, 0, q, g);
    InstanceFirst(q);
    InstanceParam(n.path, q);
    BlindBehind(n.(children := [c]), Instance(q));
    assert InKids(n.children, q, g);
  }

  /** The child that overtook stands where its first overtaken sibling is looked for. */
  lemma LosesSibling(n: Node, idx: nat, r: Node, c: Node, v: Version) returns (q: string, g: Handle)
    requires Body(n) && n.kind in {Static, Root} && !n.wildChild && idx < |n.children| && !Stays(n.children, idx)
      && !v.r1
    requires var (kids, ix, k) := IncrementChildPrio(n.children, n.indices, idx, v);
      r == n.(children := kids[k := c], indices := ix) && c.kind == Static && c.path != ""
        && c.path[0] == n.indices[idx]
    ensures InKids(n.children, q, g) && Blind(r, Instance(n.path + q))
  {
    hide Blind, Has, Count, CountAll, Fits, IncrementChildPrio;
    var k := Overtaken(n, idx, v);
    Followed(n.children, n.indices, idx, v);
    assert WF(n.children[k]) && Body(n.children[k]);
    q, g := AnyRoute(n.children[k]);
    KidSeam(n, k, q, g);
    IndexByte(n, k);
    InstanceFirst(q);
    BlindElsewhere(c, Instance(q));
    LosesIndex(n, r, k, k, q, g);
  }

  /** A walk that makes a child overtake loses a route of the first sibling overtaken. */
  lemma {:induction false} AtLoses(n: Node, path: string, w: nat, h: Handle, v: Version) returns (q: string, g: Handle)
    requires Pending(n) && Entry(n, path) && !Steady(n, path) && !v.r1 && AddAt(n, path, w, h, v).Some?
    requires w + (if n.kind == Kind.Param then 1 else 0) == Wild(path) <= 255
    ensures Lost(n, AddAt(n, path, w, h, v).value, q, g) && AddAt(n, path, w, h, v).value.kind == n.kind != CatchAll
    decreases |path|, n.children, 2
  {
    hide AddAt, AddBelow, Shape, WF, Count, CountAll, Fits, Blind, Has;
    if n.kind == CatchAll { WrapperPanics(n, path, w, h, v); }
    Steps.TurnAt(n, path, w, h, v);
    var i := Lcp(path, n.path);
    var m := Cut(n, i, w);
    SteadyCut(n, path, w);
    CutWild(n, path, w);
    KeepsText(n, path, w, h, v);
    var y;
    y, g := BelowLoses(m, path[i..], w, h, v);
    q := n.path + y;
    HasBelow(n, y, g);
  }

  lemma HasBelow(n: Node, y: string, g: Handle)
    requires InKids(n.children, y, g)
    ensures Has(n, n.path + y, g)
  {
    assert (n.path + y)[|n.path|..] == y;
  }

  lemma {:induction false} BelowLoses(n: Node, rest: string, w: nat, h: Handle, v: Version)
    returns (q: string, g: Handle)
    requires Body(n) && Below(n, rest) && n.kind != CatchAll && rest != "" && !SteadyBelow(n, rest) && !v.r1
    requires AddBelow(n, rest, w, h, v).Some? && w == Wild(rest) <= 255
    ensures InKids(n.children, q, g) && Blind(AddBelow(n, rest, w, h, v).value, Instance(n.path + q))
    decreases |rest|, n.children, 1
  {
    hide AddAt, AddBelow, AddNew, WF, Count, CountAll, Fits, IncrementChildPrio, Blind, Has;
    if n.wildChild {
      Steps.WildDown(n, rest, w, h, v);
      var c := n.children[0].(priority := n.children[0].priority + 1, maxParams := Max(n.children[0].maxParams, w));
      SameWalk(n.children[0], c, rest);
      ParamKid(n, rest);
      q, g := AtLoses(c, rest, Dec8(w), h, v);
      BumpedSame(n.children[0], c.priority, c.maxParams);
      var c' := AddAt(c, rest, Dec8(w), h, v).value;
      assert [c][0 := c'] == [c'];
      LosesWild(n, c', q, g);
    } else if n.kind == Kind.Param && |n.children| == 1 {
      Steps.SlashDown(n, rest, w, h, v);
      var c := n.children[0].(priority := n.children[0].priority + 1);
      SameWalk(n.children[0], c, rest);
      q, g := AtLoses(c, rest, w, h, v);
      BumpedSame(n.children[0], c.priority, c.maxParams);
      var c' := AddAt(c, rest, w, h, v).value;
      assert [c][0 := c'] == [c'];
      LosesBehind(n, c', q, g);
    } else {
      q, g := IndexLoses(n, rest, w, h, v);
    }
  }

  lemma {:induction false} IndexLoses(n: Node, rest: string, w: nat, h: Handle, v: Version)
    returns (q: string, g: Handle)
    requires Body(n) && Below(n, rest) && n.kind != CatchAll
    requires !n.wildChild && !(n.kind == Kind.Param && |n.children| == 1)
    requires rest != "" && !SteadyBelow(n, rest) && !v.r1 && AddBelow(n, rest, w, h, v).Some? && w == Wild(rest) <= 255
    ensures InKids(n.children, q, g) && Blind(AddBelow(n, rest, w, h, v).value, Instance(n.path + q))
    decreases |rest|, n.children, 0
  {
    hide AddAt, AddBelow, AddNew, WF, Count, CountAll, Fits, IncrementChildPrio, Blind, Has, Steady;
    Steps.IndexDown(n, rest, w, h, v);
    var idx := IndexOf(n.indices, rest[0]);
    assert idx < |n.indices| && n.kind in {Static, Root} && Aligned(n) && IndexFits(n.children[idx], rest[0]);
    hide Shape, Body;
    var (kids, ix, k) := IncrementChildPrio(n.children, n.indices, idx, v);
    Followed(n.children, n.indices, idx, v);
    var c := n.children[idx].(priority := n.children[idx].priority + 1);
    var c' := AddAt(c, rest, w, h, v).value;
    KeepsByte(c, rest, w, h, v);
    var r := n.(children := kids[k := c'], indices := ix);
    assert AddBelow(n, rest, w, h, v).value == r;
    if Stays(n.children, idx) {
      SameWalk(n.children[idx], c, rest);
      StaysPut(n, idx, v);
      q, g := AtLoses(c, rest, w, h, v);
      BumpedSame(n.children[idx], c.priority, c.maxParams);
      LosesIndex(n, r, idx, idx, q, g);
    } else {
      q, g := LosesSibling(n, idx, r, c', v);
    }
  }

  // ------------------------------------------------------------------ r3: the forgotten handle

  /** A walk that does not keep its handle does not find the new route. */
  lemma {:induction false} AtUnfound(n: Node, path: string, w: nat, h: Handle, v: Version)
    requires Pending(n) && Entry(n, path) && !Kept(n, path) && v.r1 && !v.r3 && AddAt(n, path, w, h, v).Some?
    requires w + (if n.kind == Kind.Param then 1 else 0) == Wild(path) <= 255
    ensures Blind(AddAt(n, path, w, h, v).value, Instance(path)) && AddAt(n, path, w, h, v).value.kind == n.kind
    decreases |path|, n.children, 2
  {
    hide AddAt, AddBelow, Shape, Body, WF, Count, CountAll, Fits, Blind, StoredAsWritten;
    Steps.TurnAt(n, path, w, h, v);
    var i := Lcp(path, n.path);
    KeptCut(n, path, w);
    CutWild(n, path, w);
    KeepsText(n, path, w, h, v);
    var m := Cut(n, i, w);
    BelowUnfound(m, path[i..], w, h, v);
    assert path == m.path + path[i..];
  }

  lemma {:induction false} BelowUnfound(n: Node, rest: string, w: nat, h: Handle, v: Version)
    requires Below(n, rest) && n.kind != CatchAll && rest != "" && !KeptBelow(n, rest) && v.r1 && !v.r3
    requires AddBelow(n, rest, w, h, v).Some? && w == Wild(rest) <= 255
    ensures Blind(AddBelow(n, rest, w, h, v).value, Instance(n.path + rest))
    decreases |rest|, n.children, 1
  {
    hide AddAt, AddBelow, AddNew, WF, Body, Count, CountAll, Fits, IncrementChildPrio, Blind;
    if n.wildChild {
      Steps.WildDown(n, rest, w, h, v);
      var c := n.children[0].(priority := n.children[0].priority + 1, maxParams := Max(n.children[0].maxParams, w));
      SameKept(n.children[0], c, rest);
      ParamKid(n, rest);
      AtUnfound(c, rest, Dec8(w), h, v);
      var c' := AddAt(c, rest, Dec8(w), h, v).value;
      assert [c][0 := c'] == [c'];
      ColonAhead(n, rest);
      InstanceText(n.path, rest);
      BlindAbove(n.(children := [c']), 0, Instance(rest));
    } else if n.kind == Kind.Param && |n.children| == 1 {
      Steps.SlashDown(n, rest, w, h, v);
      var c := n.children[0].(priority := n.children[0].priority + 1);
      SameKept(n.children[0], c, rest);
      AtUnfound(c, rest, w, h, v);
      var c' := AddAt(c, rest, w, h, v).value;
      assert [c][0 := c'] == [c'];
      InstanceFirst(rest);
      InstanceParam(n.path, rest);
      BlindBehind(n.(children := [c']), Instance(rest));
    } else if IndexOf(n.indices, rest[0]) < |n.indices| {
      IndexUnfound(n, rest, w, h, v);
    } else {
      Steps.IndexDown(n, rest, w, h, v);
      HasWild(rest);
      NewUnfound(n, rest, w, h, v);
    }
  }

  lemma ColonAhead(n: Node, rest: string)
    requires Below(n, rest) && n.kind != CatchAll && n.wildChild && rest != "" && WildcardMatches(n.children[0], rest)
    ensures rest[0] == ':'
  {
    assert WF(n.children[0]) && Body(n.children[0]);
  }

  /** The index byte that moved with its child still selects it. */
  lemma MovedTogether(n: Node, idx: nat, v: Version)
    requires Aligned(n) && idx < |n.children| && v.r1
    ensures var (kids, ix, k) := IncrementChildPrio(n.children, n.indices, idx, v);
      |kids| == |ix| == |n.children| && k == IndexOf(ix, n.indices[idx])
  {
    var (kids, ix, k) := IncrementChildPrio(n.children, n.indices, idx, v);
    assert ix == MoveLeft(n.indices, idx, k) || k == idx;
    assert ix[k] == n.indices[idx];
    forall j | 0 <= j < k ensures ix[j] != n.indices[idx] { assert ix[j] == n.indices[j]; }
  }

  lemma {:induction false} IndexUnfound(n: Node, rest: string, w: nat, h: Handle, v: Version)
    requires Below(n, rest) && n.kind != CatchAll && !n.wildChild && !(n.kind == Kind.Param && |n.children| == 1)
    requires rest != "" && IndexOf(n.indices, rest[0]) < |n.indices| && !KeptBelow(n, rest) && v.r1 && !v.r3
    requires AddBelow(n, rest, w, h, v).Some? && w == Wild(rest) <= 255
    ensures Blind(AddBelow(n, rest, w, h, v).value, Instance(n.path + rest))
    decreases |rest|, n.children, 0
  {
    hide AddAt, AddBelow, AddNew, WF, Body, Count, CountAll, Fits, IncrementChildPrio, Blind, Kept;
    Steps.IndexDown(n, rest, w, h, v);
    var idx := IndexOf(n.indices, rest[0]);
    assert n.kind in {Static, Root} && Aligned(n) && IndexFits(n.children[idx], rest[0]) && NoWild(n.path);
    IndexByte(n, idx);
    hide Shape;
    var (kids, ix, k) := IncrementChildPrio(n.children, n.indices, idx, v);
    Followed(n.children, n.indices, idx, v);
    MovedTogether(n, idx, v);
    var c := n.children[idx].(priority := n.children[idx].priority + 1);
    SameKept(n.children[idx], c, rest);
    AtUnfound(c, rest, w, h, v);
    KeepsByte(c, rest, w, h, v);
    var r := n.(children := kids[k := AddAt(c, rest, w, h, v).value], indices := ix);
    assert AddBelow(n, rest, w, h, v).value == r;
    InstanceFirst(rest);
    InstanceText(n.path, rest);
    BlindAbove(r, k, Instance(rest));
  }

  lemma NewUnfound(n: Node, rest: string, w: nat, h: Handle, v: Version)
    requires Below(n, rest) && n.kind != CatchAll && !n.wildChild && |n.indices| == |n.children|
      && !(n.kind == Kind.Param && |n.children| == 1)
    requires rest != "" && rest[0] !in n.indices && !StoredAsWritten(rest) && !v.r3 && w > 0
    requires AddNew(n, rest, w, h, v).Some?
    ensures Blind(AddNew(n, rest, w, h, v).value, Instance(n.path + rest))
  {
    if IsWild(rest[0]) {
      ParamUnfound(n, rest, w, h, v);
    } else {
      ChildUnfound(n, rest, w, h, v);
    }
  }

  lemma ParamUnfound(n: Node, rest: string, w: nat, h: Handle, v: Version)
    requires n.kind in {Static, Root} && NoWild(n.path)
    requires rest != "" && IsWild(rest[0]) && !StoredAsWritten(rest) && !v.r3 && w > 0
    requires InsertLoop(n, rest, w, h, v).Some?
    ensures Blind(InsertLoop(n, rest, w, h, v).value, Instance(n.path + rest))
  {
    assert rest[0] == ':' && rest[0..] == rest && n.children == [];
    LoopAtParam(n, rest, w, h, v);
    LoopAtParam(EMPTY, rest, w, h, v);
    Forgotten(rest, w, EMPTY, h, v);
    var r := InsertLoop(n, rest, w, h, v).value;
    var c := r.children[0];
    assert CountAll([c]) == Count(c) + CountAll([]);
    BlindWithoutHandle(c, Instance(rest));
    InstanceText(n.path, rest);
    BlindAbove(r, 0, Instance(rest));
  }

  lemma {:induction false} NewIndex(s: string, b: char)
    requires b !in s
    ensures IndexOf(s + [b], b) == |s|
  {
    if s == "" {
      assert s + [b] == [b];
    } else {
      assert (s + [b])[1..] == s[1..] + [b];
      NewIndex(s[1..], b);
    }
  }

  lemma ChildUnfound(n: Node, rest: string, w: nat, h: Handle, v: Version)
    requires Below(n, rest) && n.kind != CatchAll && !n.wildChild && |n.indices| == |n.children|
      && !(n.kind == Kind.Param && |n.children| == 1)
    requires rest != "" && !IsWild(rest[0]) && rest[0] !in n.indices && !StoredAsWritten(rest) && !v.r3 && w > 0
    requires AddNew(n, rest, w, h, v).Some?
    ensures Blind(AddNew(n, rest, w, h, v).value, Instance(n.path + rest))
  {
    hide AddNew, Blind, Count, WF, Body, InsertLoop, Fits, IndexOf;
    var e := EMPTY.(maxParams := w, priority := 1);
    AddNewAt(n, rest, w, h, v);
    var c := InsertChild(e, w, rest, h, v).value;
    var r := AddNew(n, rest, w, h, v).value;
    Forgotten(rest, w, e, h, v);
    InsertLoopKind(e, rest, w, h, v);
    BlindWithoutHandle(c, Instance(rest));
    InstanceFirst(rest);
    if n.kind == Kind.Param {
      InstanceParam(n.path, rest);
      BlindBehind(r, Instance(rest));
    } else {
      NewIndex(n.indices, rest[0]);
      InstanceText(n.path, rest);
      BlindAbove(r, |n.indices|, Instance(rest));
    }
  }

  // ------------------------------------------------------------------ whole registrations and runs

  /** Lookup in t' finds, on every path, exactly what the routes of t and the new one give. */
  ghost predicate Answers(t': Node, t: Node, path: string, h: Handle) {
    forall x, g, ps :: GetValue(t', x, Nil) == Found(g, ps) <==> Due(t, path, h, x, g, ps)
  }

  ghost predicate Due(t: Node, path: string, h: Handle, x: string, g: Handle, ps: seq<Patterns.Param>) {
    exists q :: (Has(t, q, g) || (q == path && g == h)) && Match(q, x) == Some(ps)
  }

  /** After an unsafe registration a route is no longer found on a path that it matches. */
  lemma Missed(t: Node, path: string, h: Handle, v: Version) returns (q: string, g: Handle, x: string)
    requires Tree(t) && path != "" && path[0] == '/' && Wild(path) <= MAX_PARAM_COUNT
    requires AddRoute(t, path, h, v).Some? && !Safe(t, path, v)
    ensures (Has(t, q, g) || (q == path && g == h)) && Match(q, x).Some?
    ensures !GetValue(AddRoute(t, path, h, v).value, x, Nil).Found?
  {
    hide AddRoute, Tree, Steady, Kept, Has;
    if !v.r1 && !Steady(t, path) {
      q, g := MissedSibling(t, path, h, v);
    } else {
      if !v.r1 { AddRouteR1(t, path, h, v); }
      q, g := path, h;
      MissedItself(t, path, h, WithR1(v));
    }
    x := Instance(q);
    InstanceMatches(q);
  }

  lemma MissedSibling(t: Node, path: string, h: Handle, v: Version) returns (q: string, g: Handle)
    requires Tree(t) && path != "" && path[0] == '/' && Wild(path) <= MAX_PARAM_COUNT
    requires AddRoute(t, path, h, v).Some? && !v.r1 && !Steady(t, path)
    ensures Has(t, q, g) && !GetValue(AddRoute(t, path, h, v).value, Instance(q), Nil).Found?
  {
    hide AddRoute, AddAt, Tree, Steady, Has;
    if t == EMPTY { FirstR1(path, h, v); }
    var t1, w := t.(priority := t.priority + 1), WildcardNum(path);
    RootWalk(t, path, h, v);
    SameWalk(t, t1, path);
    q, g := AtLoses(t1, path, w, h, v);
    BumpedSame(t, t1.priority, t1.maxParams);
  }

  lemma MissedItself(t: Node, path: string, h: Handle, v: Version)
    requires Tree(t) && path != "" && path[0] == '/' && Wild(path) <= MAX_PARAM_COUNT
    requires AddRoute(t, path, h, v).Some? && v.r1 && !v.r3 && !Kept(t, path)
    ensures !GetValue(AddRoute(t, path, h, v).value, Instance(path), Nil).Found?
  {
    if t == EMPTY {
      assert Lcp(path, "") == 0 && path[0..] == path;
      HasWild(path);
      var e := EMPTY.(priority := 1);
      Forgotten(path, WildcardNum(path), e, h, v);
      NoHandleFound(AddRoute(t, path, h, v).value, Instance(path), Nil);
    } else {
      hide AddRoute, AddAt, Tree, Kept;
      var t1, w := t.(priority := t.priority + 1), WildcardNum(path);
      RootWalk(t, path, h, v);
      SameKept(t, t1, path);
      AtUnfound(t1, path, w, h, v);
    }
  }

  /**
    As written, lookup after an accepted registration finds on every path exactly what the routes
    give, if and only if the registration is safe.
  */
  lemma LookupObserved(t: Node, path: string, h: Handle, v: Version)
    requires Tree(t) && path != "" && path[0] == '/' && Wild(path) <= MAX_PARAM_COUNT && AddRoute(t, path, h, v).Some?
    ensures Answers(AddRoute(t, path, h, v).value, t, path, h) <==> Safe(t, path, v)
  {
    hide AddRoute, Tree, Steady, Kept, Has, Safe;
    var t' := AddRoute(t, path, h, v).value;
    if Safe(t, path, v) {
      AddRouteAsWritten(t, path, h, v);
      AddRouteSpec(t, path, h, Repaired(v));
      forall x, g, ps ensures GetValue(t', x, Nil) == Found(g, ps) <==> Due(t, path, h, x, g, ps) {
        LookupExact(t', x);
      }
    } else {
      var q, g, x := Missed(t, path, h, v);
      var ps := Match(q, x).value;
      assert Due(t, path, h, x, g, ps) && GetValue(t', x, Nil) != Found(g, ps);
    }
  }

  /**
    The same for the next registration after a safe run: lookup stays the scan of the patterns
    exactly if it is safe.
  */
  lemma ScanObserved(regs: seq<Route>, last: Route, v: Version)
    requires AllInReach(regs + [last], Repaired(v)) && AllInReach(regs, Repaired(v)) && SafeRun(regs, v)
    requires BuildAsWritten(regs, v).Some? && last.path != "" && last.path[0] == '/'
    requires AddRoute(BuildAsWritten(regs, v).value, last.path, last.handle, v).Some?
    ensures var t := BuildAsWritten(regs, v).value;
      (forall x :: GetValue(AddRoute(t, last.path, last.handle, v).value, x, Nil) == Scan(regs + [last], x))
      <==> Safe(t, last.path, v)
  {
    hide AddRoute, Tree, Has, Safe;
    var all, t := regs + [last], BuildAsWritten(regs, v).value;
    assert all[..|all| - 1] == regs && all[|all| - 1] == last && InReach(last.path, Repaired(v));
    var t' := AddRoute(t, last.path, last.handle, v).value;
    if Safe(t, last.path, v) {
      assert SafeRun(all, v) && BuildAsWritten(all, v) == Some(t');
      forall x ensures GetValue(t', x, Nil) == Scan(all, x) { LookupAsWritten(all, v, x); }
    } else {
      var q, g, x := Missed(t, last.path, last.handle, v);
      BuildSpec(regs, Repaired(v));
      assert Route(q, g) in all;
      var i :| 0 <= i < |all| && all[i] == Route(q, g);
      ScanFinds(all, x);
      assert Match(all[i].path, x).Some? && Scan(all, x).Found?;
    }
  }
}

/** fpRec of core/tree.go on node objects: a walking loop that calls itself for the lower-case branch. */
module CaseSearchNodes {
  import opened Options
  import opened Ascii
  import opened Patterns
  import opened RouteTree
  import opened Routes
  import opened Steps
  import opened RouterNodes
  import opened CaseSearch

  ghost predicate WildKind(m: Node) {
    m.kind == Kind.Param || (m.kind == CatchAll && !m.wildChild)
  }

  /** Where the walk may go from m. */
  lemma KidsWalked(m: Node)
    requires Body(m) && Walked(m)
    ensures !m.wildChild ==> |m.indices| == |m.children| && m.kind in {Static, Root}
    ensures !m.wildChild ==> forall i :: 0 <= i < |m.children| ==> Body(m.children[i]) && Walked(m.children[i])
    ensures m.wildChild ==> |m.children| > 0 && Body(m.children[0]) && WildKind(m.children[0])
  {
    forall i | 0 <= i < |m.children| ensures Body(m.children[i]) && (!m.wildChild ==> Walked(m.children[i])) {
      assert WF(m.children[i]);
      if !m.wildChild { assert IndexFits(m.children[i], m.indices[i]); }
    }
  }

  lemma ParamKid(m: Node)
    requires Body(m) && m.kind == Kind.Param && m.children != []
    ensures Body(m.children[0]) && Walked(m.children[0])
  {
    assert WF(m.children[0]);
  }

  /** One turn of the walk at m. */
  lemma FpTurn(m: Node, path: string, ci: string, rb: char)
    requires Body(m) && Walked(m)
    ensures !TextFits(m, path) ==> FpRec(m, path, ci, rb) == (ci, false)
    ensures TextFits(m, path) && path[|m.path|..] == "" ==> FpRec(m, path, ci, rb) == (ci + m.path, m.handle.Some?)
    ensures m.wildChild ==> |m.children| > 0 && Body(m.children[0]) && WildKind(m.children[0])
    ensures TextFits(m, path) && path[|m.path|..] != "" && m.wildChild ==>
      FpRec(m, path, ci, rb) == FpWild(m.children[0], path[|m.path|..], ci + m.path, rb)
    ensures TextFits(m, path) && path[|m.path|..] != "" && !m.wildChild ==>
      FpRec(m, path, ci, rb) == FpTry(m, path[|m.path|..], ci + m.path, ShiftRune(rb, |m.path|))
  {
    KidsWalked(m);
  }

  /** The bytes tried at m: the current one, or else lower before upper case. */
  function FpTry(m: Node, rest: string, ci: string, rb: char): (string, bool)
    requires Body(m) && Walked(m) && !m.wildChild && rest != ""
  {
    KidsWalked(m);
    if rb != '\0' then FpAt(m, IndexOf(m.indices, rb), rest, ci, rb)
    else
      var rv := if m.path == "" then '\0' else rest[0];
      var low := FpAt(m, IndexOf(m.indices, ToLower(rv)), rest, ci, ToLower(rv));
      if low.1 then low
      else if ToUpper(rv) == ToLower(rv) then (ci, false)
      else FpAt(m, IndexOf(m.indices, ToUpper(rv)), rest, ci, ToUpper(rv))
  }

  /** The wildcard child n takes its part of the path and says whether to go deeper. */
  method AtWild(n: RouterNode, path: string, ci: string, rb: char, ghost at: Skeleton, ghost repr: set<RouterNode>)
    returns (k: nat, out: string, deeper: bool, found: bool)
    requires at.node == n && Linked(at) && Objs(at) <= repr && Body(Model(at)) && WildKind(Model(at))
    ensures k <= |path|
    ensures deeper ==> Model(at).children != [] && Body(Model(at).children[0]) && Walked(Model(at).children[0])
    ensures FpWild(Model(at), path, ci, rb) ==
      if deeper then FpRec(Model(at).children[0], path[k..], out, rb) else (out, found)
  {
    hide Linked, Model, Models, Objs, Body, Walked, FpRec;
    Fields(at);
    k, deeper := 0, false;
    if n.kind == CatchAll { return k, ci + path, false, true; }
    k := SegmentEnd(path);
    out, found := ci + path[..k], false;
    if k == |path| {
      found := n.handle.Some?;
    } else if n.children != [] {
      ParamKid(Model(at));
      deeper := true;
    }
  }

  /** Which child of n is next; done if there is none, or the lower-case branch found a route. */
  method AtIndex(n: RouterNode, rest: string, ci: string, rb: char, ghost at: Skeleton, ghost repr: set<RouterNode>)
    returns (i: nat, rb': char, done: bool, out: string, found: bool)
    requires at.node == n && Linked(at) && Objs(at) <= repr && Body(Model(at)) && Walked(Model(at))
    requires rest != "" && !Model(at).wildChild
    ensures !done ==> i < |Model(at).children| && Body(Model(at).children[i]) && Walked(Model(at).children[i])
    ensures FpTry(Model(at), rest, ci, rb) == if done then (out, found) else FpRec(Model(at).children[i], rest, ci, rb')
    decreases at, 0
  {
    hide Linked, Model, Models, Objs, AllObjs, Body, Walked, WF, Shape, Count, CountAll, Fits, FpRec;
    Fields(at);
    KidsWalked(Model(at));
    rb', done, out, found := rb, true, ci, false;
    if rb != '\0' {
      i := FindIndex(n.indices, rb);
    } else {
      var rv := if n.path == "" then '\0' else rest[0];
      var lo, up := ToLower(rv), ToUpper(rv);
      i := FindIndex(n.indices, lo);
      if i < |n.indices| {
        LinkedKid(at, i);
        var out', found' := Search(n.children[i], rest, ci, lo, at.kids[i], repr);
        if found' { return i, lo, true, out', true; }
      }
      if up == lo { return; }
      rb' := up;
      i := FindIndex(n.indices, up);
    }
    done := i == |n.indices|;
  }

  /** fpRec: (corrected path, whether it leads to a handle). */
  method Search(start: RouterNode, path0: string, ci0: string, rb0: char, ghost s: Skeleton,
      ghost repr: set<RouterNode>)
    returns (out: string, found: bool)
    requires s.node == start && Linked(s) && Objs(s) <= repr && Body(Model(s)) && Walked(Model(s))
    ensures (out, found) == FpRec(Model(s), path0, ci0, rb0)
    decreases s, 1
  {
    hide Linked, Model, Models, Objs, AllObjs, Body, Walked, WF, Shape, Count, CountAll, Fits, EqualFold, FpWild, FpRec;
    var n, path, ci, rb := start, path0, ci0, rb0;
    ghost var at, r := s, FpRec(Model(s), path0, ci0, rb0);
    while |path| >= |n.path| && (n.path == "" || EqualFold(path[1..|n.path|], n.path[1..]))
      invariant at.node == n && Linked(at) && Objs(at) <= repr && Body(Model(at)) && Walked(Model(at))
        && (at == s || at < s)
      invariant r == FpRec(Model(at), path, ci, rb)
      decreases at
    {
      Fields(at);
      KidsWalked(Model(at));
      FpTurn(Model(at), path, ci, rb);
      path, ci := path[|n.path|..], ci + n.path;
      if path == "" { return ci, n.handle.Some?; }
      if !n.wildChild {
        rb := ShiftRune(rb, |n.path|);
        var i, done;
        i, rb, done, out, found := AtIndex(n, path, ci, rb, at, repr);
        if done { return; }
        LinkedKid(at, i);
        n, at := n.children[i], at.kids[i];
      } else {
        LinkedKid(at, 0);
        n, at := n.children[0], at.kids[0];
        var k, deeper;
        k, ci, deeper, found := AtWild(n, path, ci, rb, at, repr);
        if !deeper { return ci, found; }
        Fields(at);
        LinkedKid(at, 0);
        path, n, at := path[k..], n.children[0], at.kids[0];
      }
    }
    Fields(at);
    FpTurn(Model(at), path, ci, rb);
    out, found := ci, false;
  }

  method FindPath(root: RouterNode, path: string, ghost s: Skeleton, ghost repr: set<RouterNode>)
    returns (out: string, found: bool)
    requires s.node == root && Linked(s) && Objs(s) <= repr && Tree(Model(s)) && Model(s) != EMPTY
    ensures (out, found) == FindCaseInsensitivePath(Model(s), path)
  {
    hide Linked, Model, Models, Objs, Body, Walked, FpRec;
    TreeWalked(Model(s));
    out, found := Search(root, path, "", '\0', s, repr);
  }

  lemma TreeWalked(t: Node)
    requires Tree(t) && t != EMPTY
    ensures Body(t) && Walked(t)
  {
  }
}

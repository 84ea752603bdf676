/**
  Single turns of the loops of core/tree.go, on values: what one turn of the descent of getValue,
  of the scan of insertChild and of the bubbling in incrementChildPrio contributes to the whole.
*/
module Steps {
  import opened Options
  import opened Patterns
  import opened RouteTree
  import I = Insertion

  // ------------------------------------------------------------------ getValue and incrementChildPrio

  lemma Ends(m: Node, rest: string, p: Buffer)
    requires |rest| <= |m.path|
    ensures RouteTree.GetValue(m, rest, p) == if rest == m.path then Serve(m.handle, p) else Missing
  {
  }

  /** One turn of the descent, past the text of m. */
  lemma Step(m: Node, rest: string, p: Buffer)
    requires |rest| > |m.path| && RouteTree.GetValue(m, rest, p) != Crash
    ensures var y := rest[|m.path|..];
      if rest[..|m.path|] != m.path then RouteTree.GetValue(m, rest, p) == Missing
      else if m.wildChild then
        m.children != [] && RouteTree.GetValue(m, rest, p) == RouteTree.GetWild(m.children[0], y, p)
      else if IndexOf(m.indices, y[0]) == |m.indices| then RouteTree.GetValue(m, rest, p) == Missing
      else IndexOf(m.indices, y[0]) < |m.children|
           && RouteTree.GetValue(m, rest, p) == RouteTree.GetValue(m.children[IndexOf(m.indices, y[0])], y, p)
  {
  }

  lemma WildStep(c: Node, rest: string, p: Buffer)
    requires RouteTree.GetWild(c, rest, p) != Crash
    ensures var q := Alloc(p, c.maxParams);
      var end := SegEnd(rest);
      |q.items| < q.cap && c.path != "" && (c.kind == Kind.Param || (c.kind == CatchAll && |c.path| >= 2)) &&
      (c.kind == Kind.Param ==>
        var q' := q.(items := q.items + [Patterns.Param(c.path[1..], rest[..end])]);
        RouteTree.GetWild(c, rest, p) ==
          if end == |rest| then Serve(c.handle, q')
          else if c.children == [] then Missing
          else RouteTree.GetValue(c.children[0], rest[end..], q')) &&
      (c.kind == CatchAll ==>
        RouteTree.GetWild(c, rest, p) == Serve(c.handle, q.(items := q.items + [Patterns.Param(c.path[2..], rest)])))
  {
  }

  method FindIndex(indices: string, c: char) returns (i: nat)
    ensures i == IndexOf(indices, c)
  {
    i := 0;
    while i < |indices|
      invariant i <= |indices| && forall k :: 0 <= k < i ==> indices[k] != c
    {
      if indices[i] == c { break; }
      i := i + 1;
    }
    assert i < |indices| ==> indices[i] == c;
  }

  method SegmentEnd(path: string) returns (end: nat)
    ensures end == SegEnd(path)
  {
    end := 0;
    while end < |path| && path[end] != '/'
      invariant end <= |path| && SegEnd(path) == end + SegEnd(path[end..])
    {
      assert path[end..][1..] == path[end + 1..];
      end := end + 1;
    }
  }

  lemma SwapMoves<T>(s: seq<T>, idx: nat, k: nat)
    requires 0 < k <= idx < |s|
    ensures var r := MoveLeft(s, idx, k);
      r[k - 1 := r[k]][k := r[k - 1]] == MoveLeft(s, idx, k - 1)
  {
  }

  /** Where a child ends up depends on those left of it. */
  lemma NewPosSameAt(ms: seq<Node>, idx: nat, m: Node, i: nat, prio: nat)
    requires i <= idx < |ms|
    ensures NewPos(ms[idx := m], i, prio) == NewPos(ms, i, prio)
  {
    if i > 0 { NewPosSameAt(ms, idx, m, i - 1, prio); }
  }

  // ------------------------------------------------------------------ insertChild

  /** What is left to insert at m: the loop's result, or the end of a parameter that ends the path. */
  ghost function Goal(m: Node, rest: string, w: nat, inParam: bool, h: Handle, v: Version): Option<Node> {
    if !inParam then RouteTree.InsertLoop(m, rest, w, h, v)
    else if w > 0 then None
    else Some(if v.r3 then m.(path := rest, handle := Some(h)) else m)
  }

  lemma GoalReached(m: Node, rest: string, inParam: bool, h: Handle, v: Version)
    ensures Goal(m, rest, 0, inParam, h, v) == Some(if v.r3 then m.(path := rest, handle := Some(h)) else m)
  {
  }

  lemma {:induction false} FirstWildIs(s: string, k: nat)
    requires k < |s| && NoWild(s[..k]) && IsWild(s[k])
    ensures FirstWild(s) == k
  {
    if k > 0 {
      assert !IsWild(s[..k][0]);
      assert s[1..][..k - 1] == s[..k][1..];
      FirstWildIs(s[1..], k - 1);
    }
  }

  /** The loop at a parameter rest[k..e], with nothing below m. */
  lemma LoopColon(m: Node, rest: string, k: nat, e: nat, w: nat, h: Handle, v: Version)
    requires m.children == [] && w > 0 && k < e <= |rest| && NoWild(rest[..k]) && rest[k] == ':'
    requires e == k + 1 + SegEnd(rest[k + 1..]) && NoWild(rest[k + 1..e]) && e - k >= 2
    ensures var m1 := (if k > 0 then m.(path := rest[..k]) else m).(wildChild := true);
      var param := Node("", false, Kind.Param, w, 1, "", [], None);
      RouteTree.InsertLoop(m, rest, w, h, v) ==
        if e < |rest| then
          match RouteTree.InsertLoop(Node("", false, Static, Dec8(w), 1, "", [], None), rest[e..], Dec8(w), h, v)
          case None => None
          case Some(t) => Some(m1.(children := [param.(path := rest[k..e], children := [t])]))
        else
          match Goal(param, rest[k..], Dec8(w), true, h, v)
          case None => None
          case Some(t) => Some(m1.(children := [t]))
  {
    FirstWildIs(rest, k);
    I.LoopAtParam(m, rest, w, h, v);
    I.WildcardEnd(rest, k);
    var r := rest[k..];
    assert SegEnd(r) == e - k && r[e - k..] == rest[e..] && r[..e - k] == rest[k..e] && r[1..e - k] == rest[k + 1..e];
  }

  /** The panics of the loop at the wildcard at k. */
  lemma LoopPanics(m: Node, rest: string, k: nat, w: nat, h: Handle, v: Version)
    requires w > 0 && k <= |rest| && NoWild(rest[..k]) && (k < |rest| ==> IsWild(rest[k]))
    ensures k == |rest| ==> RouteTree.InsertLoop(m, rest, w, h, v).None?
    ensures k < |rest| ==> var e := k + 1 + SegEnd(rest[k + 1..]);
      !NoWild(rest[k + 1..e]) || m.children != [] || e - k < 2 ==> RouteTree.InsertLoop(m, rest, w, h, v).None?
  {
    if k < |rest| { FirstWildIs(rest, k); } else { assert rest[..k] == rest; }
  }

  /** Positions in path and in its tail from offset on. */
  lemma Tail(path: string, offset: nat, i: nat, end: nat)
    requires offset <= i < end <= |path|
    ensures var rest, k, e := path[offset..], i - offset, end - offset;
      && rest[k] == path[i] && rest[k + 1..] == path[i + 1..] && rest[k + 1..e] == path[i + 1..end]
        && rest[..k] == path[offset..i]
      && rest[k..e] == path[i..end] && rest[e..] == path[end..] && rest[k..] == path[i..]
    ensures i > offset ==> var rest, k := path[offset..], i - offset;
      rest[..k - 1] == path[offset..i - 1] && rest[k - 1..] == path[i - 1..] && rest[k - 1] == path[i - 1]
  {
  }

  /** The same on the part of the path from offset on. */
  lemma LoopColonAt(m: Node, path: string, offset: nat, i: nat, end: nat, w: nat, h: Handle, v: Version)
    requires m.children == [] && w > 0 && offset <= i < end <= |path| && NoWild(path[offset..i]) && path[i] == ':'
    requires end == i + 1 + SegEnd(path[i + 1..]) && NoWild(path[i + 1..end]) && end - i >= 2
    ensures var m1 := (if i > offset then m.(path := path[offset..i]) else m).(wildChild := true);
      var param := Node("", false, Kind.Param, w, 1, "", [], None);
      RouteTree.InsertLoop(m, path[offset..], w, h, v) ==
        if end < |path| then
          match RouteTree.InsertLoop(Node("", false, Static, Dec8(w), 1, "", [], None), path[end..], Dec8(w), h, v)
          case None => None
          case Some(t) => Some(m1.(children := [param.(path := path[i..end], children := [t])]))
        else
          match Goal(param, path[i..], Dec8(w), true, h, v)
          case None => None
          case Some(t) => Some(m1.(children := [t]))
  {
    hide RouteTree.InsertLoop, SegEnd, NoWild;
    Tail(path, offset, i, end);
    LoopColon(m, path[offset..], i - offset, end - offset, w, h, v);
  }

  /** What a parameter path[i..end] leaves to insert: t below m, and if the path goes on, deep below that. */
  lemma ParamGoal(m: Node, path: string, offset: nat, i: nat, end: nat, w: nat, text: string, h: Handle, v: Version)
    returns (deep: Option<Node>, t: Option<Node>)
    requires m.children == [] && w > 0 && offset <= i < end <= |path| && NoWild(path[offset..i]) && path[i] == ':'
    requires end == i + 1 + SegEnd(path[i + 1..]) && NoWild(path[i + 1..end]) && end - i >= 2
    requires (offset > 0 ==> i > offset) && text == if i > 0 then path[offset..i] else m.path
    ensures RouteTree.InsertLoop(m, path[offset..], w, h, v) ==
      if t.None? then None else Some(m.(path := text, wildChild := true, children := [t.value]))
    ensures var param := Node("", false, Kind.Param, w, 1, "", [], None);
      if end == |path| then t == Goal(param, path[i..], Dec8(w), true, h, v)
      else t == if deep.None? then None else Some(param.(path := path[i..end], children := [deep.value]))
    ensures end < |path| ==>
      deep == Goal(Node("", false, Static, Dec8(w), 1, "", [], None), path[end..], Dec8(w), false, h, v)
  {
    hide RouteTree.InsertLoop, SegEnd, NoWild;
    LoopColonAt(m, path, offset, i, end, w, h, v);
    var param := Node("", false, Kind.Param, w, 1, "", [], None);
    deep := RouteTree.InsertLoop(Node("", false, Static, Dec8(w), 1, "", [], None), path[end..], Dec8(w), h, v);
    t := if end == |path| then Goal(param, path[i..], Dec8(w), true, h, v)
         else if deep.None? then None
         else Some(param.(path := path[i..end], children := [deep.value]));
  }

  /** The loop at a '*', with nothing below m. */
  lemma LoopStar(m: Node, rest: string, k: nat, e: nat, w: nat, h: Handle, v: Version)
    requires m.children == [] && w > 0 && k < e <= |rest| && NoWild(rest[..k]) && rest[k] == '*'
    requires e == k + 1 + SegEnd(rest[k + 1..]) && NoWild(rest[k + 1..e]) && e - k >= 2
    ensures RouteTree.InsertLoop(m, rest, w, h, v) ==
      if e != |rest| || w > 1 || (|m.path| > 0 && m.path[|m.path| - 1] == '/') || k == 0 || rest[k - 1] != '/' then None
      else Some(m.(path := rest[..k - 1], maxParams := Max(m.maxParams, 1),
          indices := "/", children := [Wrapper(rest[k - 1..], h)]))
  {
    FirstWildIs(rest, k);
  }

  /** The same within a longer path. */
  lemma LoopStarAt(m: Node, path: string, offset: nat, i: nat, end: nat, w: nat, h: Handle, v: Version)
    requires m.children == [] && w > 0 && offset <= i < end <= |path| && NoWild(path[offset..i]) && path[i] == '*'
    requires end == i + 1 + SegEnd(path[i + 1..]) && NoWild(path[i + 1..end]) && end - i >= 2
    ensures RouteTree.InsertLoop(m, path[offset..], w, h, v) ==
      if end != |path| || w > 1 || (|m.path| > 0 && m.path[|m.path| - 1] == '/')
         || i == offset || path[i - 1] != '/'
      then None
      else Some(m.(path := path[offset..i - 1], maxParams := Max(m.maxParams, 1),
          indices := "/", children := [Wrapper(path[i - 1..], h)]))
  {
    hide RouteTree.InsertLoop, SegEnd, NoWild;
    Tail(path, offset, i, end);
    LoopStar(m, path[offset..], i - offset, end - offset, w, h, v);
  }

  /** What insertChild's scan knows between two wildcards. */
  ghost predicate Scan(path: string, offset: nat, i: nat, inParam: bool)
    requires offset <= |path| && i <= |path|
  {
    if inParam then offset < i && NoWild(path[offset + 1..])
    else
      && (offset > 0 && offset < |path| ==> path[offset] == '/')
      && if offset <= i then NoWild(path[offset..i]) else NoWild(path[i..offset])
  }

  lemma ScanStart(path: string)
    ensures Scan(path, 0, 0, false) && path[0..] == path
  {
  }

  lemma ScanNext(path: string, offset: nat, i: nat, inParam: bool)
    requires offset <= |path| && i < |path| && Scan(path, offset, i, inParam) && !IsWild(path[i])
    ensures Scan(path, offset, i + 1, inParam)
  {
    if !inParam && offset <= i { assert path[offset..i + 1] == path[offset..i] + [path[i]]; }
  }

  lemma ScanWild(path: string, offset: nat, i: nat, inParam: bool)
    requires offset <= |path| && i < |path| && Scan(path, offset, i, inParam) && IsWild(path[i])
    ensures !inParam && offset <= i && NoWild(path[offset..i]) && (offset > 0 ==> offset < i)
  {
  }

  lemma ScanParam(path: string, i: nat, end: nat)
    requires i + 2 <= end <= |path| && NoWild(path[i + 1..end]) && (end < |path| ==> path[end] == '/')
    ensures Scan(path, if end < |path| then end else i, i + 1, end == |path|)
  {
    assert end == |path| ==> path[i + 1..end] == path[i + 1..];
  }

  /** The loop runs past the end of the path. */
  lemma Scanned(m: Node, path: string, offset: nat, w: nat, h: Handle, v: Version)
    requires w > 0 && offset <= |path| && Scan(path, offset, |path|, false)
    ensures Goal(m, path[offset..], w, false, h, v).None?
  {
    assert path[offset..|path|] == path[offset..];
    LoopPanics(m, path[offset..], |path| - offset, w, h, v);
  }

  lemma PanicsAt(m: Node, path: string, offset: nat, i: nat, end: nat, w: nat, h: Handle, v: Version)
    requires w > 0 && offset <= i < end <= |path| && NoWild(path[offset..i]) && IsWild(path[i])
      && NoWild(path[i + 1..end])
    requires end - i - 1 <= SegEnd(path[i + 1..])
    requires m.children != [] || (end - i < 2 && SegEnd(path[i + 1..]) == end - i - 1)
      || (end - i - 1 < SegEnd(path[i + 1..]) && IsWild(path[end]))
    ensures Goal(m, path[offset..], w, false, h, v).None?
  {
    hide RouteTree.InsertLoop, FirstWild;
    var rest, k := path[offset..], i - offset;
    assert rest[k + 1..] == path[i + 1..] && rest[..k] == path[offset..i] && rest[k] == path[i];
    LoopPanics(m, rest, k, w, h, v);
    var name := path[i + 1..];
    var e := SegEnd(name);
    assert rest[k + 1..k + 1 + e] == name[..e];
    var j := end - i - 1;
    if j < e && IsWild(path[end]) { assert name[..e][j] == path[end]; }
  }

  lemma SegStep(path: string, end: nat)
    requires end < |path| && path[end] != '/'
    ensures SegEnd(path[end..]) == 1 + SegEnd(path[end + 1..])
  {
    assert path[end..][1..] == path[end + 1..];
  }

  lemma SegStop(path: string, end: nat)
    requires end <= |path| && (end < |path| ==> path[end] == '/')
    ensures SegEnd(path[end..]) == 0
  {
  }

  lemma NoWildEmpty(s: string)
    requires s == ""
    ensures NoWild(s)
  {
  }

  /** Where the wildcard at i ends: at '/', at the end of the path, or not clean at another wildcard. */
  method WildcardSpan(path: string, i: nat) returns (end: nat, clean: bool)
    requires i < |path|
    ensures i < end <= |path| && NoWild(path[i + 1..end]) && end - i - 1 <= SegEnd(path[i + 1..])
    ensures if clean then end == i + 1 + SegEnd(path[i + 1..]) && (end < |path| ==> path[end] == '/')
            else end - i - 1 < SegEnd(path[i + 1..]) && IsWild(path[end])
  {
    end, clean := i + 1, true;
    assert path[i + 1..end] == "" && SegEnd(path[end..]) <= |path| - end;
    hide SegEnd, NoWild;
    NoWildEmpty(path[i + 1..end]);
    while end < |path| && path[end] != '/'
      invariant i < end <= |path| && NoWild(path[i + 1..end])
      invariant SegEnd(path[i + 1..]) == end - i - 1 + SegEnd(path[end..])
    {
      SegStep(path, end);
      if IsWild(path[end]) { clean := false; return; }
      NoWildNext(path, i + 1, end);
      end := end + 1;
    }
    SegStop(path, end);
  }

  lemma NoWildNext(path: string, i: nat, end: nat)
    requires i <= end < |path| && NoWild(path[i..end]) && !IsWild(path[end])
    ensures NoWild(path[i..end + 1])
  {
    assert path[i..end + 1] == path[i..end] + [path[end]];
  }

  // ------------------------------------------------------------------ addRoute

  method CommonPrefix(a: string, b: string) returns (i: nat)
    ensures i == Lcp(a, b)
  {
    i := 0;
    while i < |a| && i < |b| && a[i] == b[i]
      invariant i <= |a| && i <= |b| && Lcp(a, b) == i + Lcp(a[i..], b[i..])
    {
      assert a[i..][1..] == a[i + 1..] && b[i..][1..] == b[i + 1..];
      i := i + 1;
    }
  }

  /** wildcardNum. */
  method CountWildcards(path: string) returns (w: nat)
    ensures w == WildcardNum(path)
  {
    var n, i := 0, 0;
    while i < |path|
      invariant i <= |path| && Wild(path) == n + Wild(path[i..])
    {
      assert path[i..][1..] == path[i + 1..];
      if path[i] == ':' || path[i] == '*' { n := n + 1; }
      i := i + 1;
    }
    w := if n >= MAX_PARAM_COUNT then MAX_PARAM_COUNT else n;
  }

  /** With a child subtree in place of the one walked into. */
  ghost function Under(r: Option<Node>, m: Node, k: nat): Option<Node>
    requires k < |m.children|
  {
    match r
    case None => None
    case Some(t) => Some(m.(children := m.children[k := t]))
  }

  /** The turn at the text of m. */
  lemma TurnAt(m: Node, path: string, w: nat, h: Handle, v: Version)
    requires Pending(m) && Entry(m, path)
    ensures var i := Lcp(path, m.path);
      (i < |m.path| ==> i > 0 && m.kind in {Static, Root}) && m.priority > 0 &&
      var m1 := Cut(m, i, w);
      var m2 := if i == |path| then m1.(handle := Some(h)) else m1;
      Below(m2, path[i..]) && !(m2.kind == CatchAll && !m2.wildChild) &&
      AddAt(m, path, w, h, v) ==
        if i == |path| && m1.handle.Some? then None
        else if i == |path| && v.r2 then Some(m2)
        else AddBelow(m2, path[i..], w, h, v)
  {
  }

  /** The turn goes to the wildcard child. */
  lemma WildDown(m: Node, rest: string, w: nat, h: Handle, v: Version)
    requires Below(m, rest) && !(m.kind == CatchAll && !m.wildChild) && m.wildChild
    ensures |m.children| == 1
    ensures var c := m.children[0].(priority := m.children[0].priority + 1, maxParams := Max(m.children[0].maxParams,
        w));
      if WildcardMatches(c, rest) then
        Pending(c) && Entry(c, rest)
          && AddBelow(m, rest, w, h, v) == Under(AddAt(c, rest, Dec8(w), h, v), m.(children := [c]), 0)
      else AddBelow(m, rest, w, h, v).None?
  {
    hide Fits, Count, CountAll, AddAt;
    var x := Max(m.children[0].maxParams, w);
    Bumped(m.children[0], x);
    var c := m.children[0].(priority := m.children[0].priority + 1, maxParams := x);
    assert forall t: Node :: [c][0 := t] == [t];
  }

  /** There is nothing left to go below m for. */
  lemma NothingLeft(m: Node, w: nat, h: Handle, v: Version)
    requires Below(m, "") && !(m.kind == CatchAll && !m.wildChild) && !m.wildChild
    ensures AddBelow(m, "", w, h, v).None?
  {
  }

  /** The turn goes to the only child of a parameter. */
  lemma SlashDown(m: Node, rest: string, w: nat, h: Handle, v: Version)
    requires Below(m, rest) && m.kind == Kind.Param && rest != "" && |m.children| == 1
    ensures !m.wildChild && rest[0] == '/'
    ensures var c := m.children[0].(priority := m.children[0].priority + 1);
      Pending(c) && Entry(c, rest)
        && AddBelow(m, rest, w, h, v) == Under(AddAt(c, rest, w, h, v), m.(children := [c]), 0)
  {
    hide Fits, Count, CountAll, WF, Body, AddAt;
    Bumped(m.children[0], m.children[0].maxParams);
    var c := m.children[0].(priority := m.children[0].priority + 1);
    assert forall t: Node :: [c][0 := t] == [t];
  }

  /** The turn goes to the child under an index byte, or makes a new one. */
  lemma IndexDown(m: Node, rest: string, w: nat, h: Handle, v: Version)
    requires Below(m, rest) && !(m.kind == CatchAll && !m.wildChild) && !m.wildChild
    requires rest != "" && !(m.kind == Kind.Param && |m.children| == 1)
    ensures |m.indices| == |m.children|
    ensures var idx := IndexOf(m.indices, rest[0]);
      if idx < |m.indices| then
        var (kids, ix, k) := IncrementChildPrio(m.children, m.indices, idx, v);
        Pending(kids[k]) && Entry(kids[k], rest)
        && AddBelow(m, rest, w, h, v) == Under(AddAt(kids[k], rest, w, h, v), m.(children := kids, indices := ix), k)
      else AddBelow(m, rest, w, h, v) == AddNew(m, rest, w, h, v)
  {
    hide Fits, Count, CountAll, WF, Body, AddAt;
    var idx := IndexOf(m.indices, rest[0]);
    if idx < |m.indices| { Bumped(m.children[idx], m.children[idx].maxParams); }
  }
}

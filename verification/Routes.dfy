/**
  The routes a tree holds, and the proof that the descent of getValue, which never backtracks,
  finds exactly what trying every route one by one would find.
*/
module Routes {
  import opened Options
  import opened Patterns
  import opened RouteTree

  /** Below and including n, the tree holds pattern pat (as seen from n) with handle h. */
  ghost predicate Has(n: Node, pat: string, h: Handle)
    decreases n, 1
  {
    n.path <= pat && (Here(n, pat, h) || InKids(n.children, pat[|n.path|..], h))
  }

  ghost predicate Here(n: Node, pat: string, h: Handle) {
    pat == n.path && n.handle == Some(h)
  }

  ghost predicate InKids(ns: seq<Node>, pat: string, h: Handle)
    decreases ns, 0
  {
    exists i :: 0 <= i < |ns| && Has(ns[i], pat, h)
  }

  /** How every pattern that n holds begins. */
  lemma {:induction false} FirstByte(n: Node, pat: string, h: Handle)
    requires Body(n) && Has(n, pat, h)
    ensures n.kind == Kind.Param ==> n.path <= pat && (pat == n.path || pat[|n.path|] == '/')
    ensures n.kind == CatchAll ==> |pat| >= 3 && pat[..2] == "/*" && NoWild(pat[2..]) && '/' !in pat[2..]
    ensures n.kind == CatchAll && !n.wildChild ==> pat == n.path && n.handle == Some(h)
    ensures pat != "" && pat[0] != '*'
    ensures forall b :: IndexFits(n, b) ==> pat[0] == b
    decreases n
  {
    var rest := pat[|n.path|..];
    if !Here(n, pat, h) {
      var i :| 0 <= i < |n.children| && Has(n.children[i], rest, h);
      FirstByte(n.children[i], rest, h);
      assert n.kind == Kind.Param ==> IndexFits(n.children[i], '/');
      assert n.kind == CatchAll ==> pat == rest;
    }
    if n.path != "" {
      assert pat[0] == n.path[0];
      if n.kind in {Static, Root} { assert !IsWild(n.path[0]); }
      if n.kind == CatchAll { assert n.path[..2][0] == '/'; }
    }
  }

  /** The same, for what hangs below the text of n. */
  lemma KidSeam(n: Node, i: nat, rest: string, h: Handle)
    requires Body(n) && i < |n.children| && Has(n.children[i], rest, h)
    ensures Seam(n.path, rest) && rest != ""
    ensures n.kind != CatchAll && !n.wildChild && i < |n.indices| ==> rest[0] == n.indices[i]
    ensures n.kind == Kind.Param ==> rest[0] == '/'
    ensures n.wildChild ==> var c := n.children[0];
      c.path <= rest && (c.kind == Kind.Param ==> rest == c.path || rest[|c.path|] == '/')
  {
    FirstByte(n.children[i], rest, h);
  }

  /** Every well-formed node holds a route. */
  lemma {:induction false} AnyRoute(n: Node) returns (pat: string, h: Handle)
    requires Body(n)
    ensures Has(n, pat, h)
    decreases n
  {
    if n.handle.Some? {
      pat, h := n.path, n.handle.value;
      assert Here(n, pat, h);
    } else {
      assert Count(n) == CountAll(n.children);
      var rest;
      rest, h := AnyRoute(n.children[0]);
      pat := n.path + rest;
      assert pat[|n.path|..] == rest;
    }
  }

  /** There is room in the parameter buffer for k more values. */
  predicate Room(p: Buffer, k: nat) {
    p.Slice? ==> |p.items| + k <= p.cap
  }

  /** Nodes getValue walks through; a wildcard child is handled together with its parent. */
  predicate Walked(n: Node) {
    n.kind in {Static, Root} || (n.kind == CatchAll && n.wildChild)
  }

  /** A matched segment: the pattern's parameter takes the path's segment. */
  lemma ParamMatch(seg: string, rest: string, x: string)
    requires |seg| >= 2 && seg[0] == ':' && '/' !in seg && (rest == "" || rest[0] == '/')
    ensures Match(seg + rest, x) ==
      if x == "" then None
      else
        match Match(rest, x[SegEnd(x)..])
        case None => None
        case Some(ps) => Some([Patterns.Param(seg[1..], x[..SegEnd(x)])] + ps)
  {
    SegEndAt(seg, rest);
    assert (seg + rest)[|seg|..] == rest;
    assert (seg + rest)[1..|seg|] == seg[1..];
  }

  lemma {:induction false} MatchAt(n: Node, pat: string, h: Handle, x: string)
    requires Body(n) && n.kind in {Static, Root} && Has(n, pat, h)
    ensures Match(pat, x) == if n.path <= x then Match(pat[|n.path|..], x[|n.path|..]) else None
  {
    var rest := pat[|n.path|..];
    if !Here(n, pat, h) {
      var i :| 0 <= i < |n.children| && Has(n.children[i], rest, h);
      KidSeam(n, i, rest, h);
    }
    assert pat == n.path + rest;
    MatchStrip(n.path, rest, x);
  }

  /** One step of the descent, to the child i or to the wildcard child. */
  lemma Descends(n: Node, x: string, p: Buffer, i: nat)
    requires |n.path| < |x| && x[..|n.path|] == n.path && i < |n.children|
    requires if n.wildChild then i == 0 else i < |n.indices| && i == IndexOf(n.indices, x[|n.path|])
    ensures GetValue(n, x, p) ==
      if n.wildChild then GetWild(n.children[0], x[|n.path|..], p) else GetValue(n.children[i], x[|n.path|..], p)
  {
  }

  lemma HolderComplete(n: Node, pat: string, h: Handle, x: string, p: Buffer, k: nat)
    requires Body(n) && n.kind == CatchAll && n.wildChild && Has(n, pat, h) && Fits(n, k) && Room(p, k)
    requires Match(pat, x).Some?
    ensures GetValue(n, x, p) == Found(h, Items(p) + Match(pat, x).value)
  {
    FirstByte(n, pat, h);
    assert pat[0..] == pat && x[0..] == x && x[..0] == "";
    assert Has(n.children[0], pat, h);
    FirstByte(n.children[0], pat, h);
  }

  /** A matching route is the one the descent finds, with the naive matcher's bindings. */
  lemma {:induction false} GetValueComplete(n: Node, pat: string, h: Handle, x: string, p: Buffer, k: nat)
    requires Body(n) && Walked(n) && Has(n, pat, h) && Fits(n, k) && Room(p, k)
    requires Match(pat, x).Some?
    ensures GetValue(n, x, p) == Found(h, Items(p) + Match(pat, x).value)
    decreases n
  {
    var rest := pat[|n.path|..];
    if n.kind == CatchAll {
      HolderComplete(n, pat, h, x, p, k);
    } else {
      MatchAt(n, pat, h, x);
      var y := x[|n.path|..];
      assert x[..|n.path|] == n.path;
      if Here(n, pat, h) {
        assert rest == "" && y == "";
        assert x == n.path;
        assert Items(p) + [] == Items(p);
      } else {
        hide GetValue, GetWild, Count, CountAll;
        var i :| 0 <= i < |n.children| && Has(n.children[i], rest, h);
        KidSeam(n, i, rest, h);
        if n.wildChild {
          GetWildComplete(n.children[0], rest, h, y, p, k);
        } else {
          FirstByte(n.children[i], rest, h);
          assert y != "" && y[0] == rest[0];
          assert IndexOf(n.indices, y[0]) == i;
          GetValueComplete(n.children[i], rest, h, y, p, k);
        }
        Descends(n, x, p, i);
      }
    }
  }

  /** A parameter node takes the segment at the front of x and passes the rest on. */
  lemma TakesSegment(n: Node, x: string, p: Buffer)
    requires n.kind == Kind.Param && |n.path| >= 1 && |Alloc(p, n.maxParams).items| < Alloc(p, n.maxParams).cap
    ensures var q, end := Alloc(p, n.maxParams), SegEnd(x);
      var q' := q.(items := q.items + [Patterns.Param(n.path[1..], x[..end])]);
      GetWild(n, x, p) ==
        if end == |x| then Serve(n.handle, q')
        else if n.children == [] then Missing
        else GetValue(n.children[0], x[end..], q')
  {
  }

  lemma NothingMatches(r: string, y: string)
    ensures r == "" ==> Match(r, y) == if y == "" then Some([]) else None
    ensures y == "" && r != "" ==> Match(r, y).None?
  {
  }

  lemma {:induction false} GetWildComplete(n: Node, pat: string, h: Handle, x: string, p: Buffer, k: nat)
    requires Body(n) && n.kind == Kind.Param && Has(n, pat, h) && Fits(n, k) && Room(p, k)
    requires Match(pat, x).Some?
    ensures x != "" && GetWild(n, x, p) == Found(h, Items(p) + Match(pat, x).value)
    decreases n
  {
    hide GetValue, GetWild, Count, CountAll, Match;
    var rest := pat[|n.path|..];
    FirstByte(n, pat, h);
    assert pat == n.path + rest;
    ParamMatch(n.path, rest, x);
    TakesSegment(n, x, p);
    var end := SegEnd(x);
    NothingMatches(rest, x[end..]);
    var q := Alloc(p, n.maxParams);
    var b := [Patterns.Param(n.path[1..], x[..end])];
    var q' := q.(items := q.items + b);
    var ps := Match(rest, x[end..]).value;
    assert Items(p) + (b + ps) == Items(q') + ps;
    var k' := if p.Nil? then n.maxParams - 1 else k - 1;
    if Here(n, pat, h) {
      assert rest == "" && x[end..] == "";
      assert Items(q') + [] == Items(q');
    } else {
      var i :| 0 <= i < |n.children| && Has(n.children[i], rest, h);
      KidSeam(n, i, rest, h);
      assert x[end..] != "";
      GetValueComplete(n.children[0], rest, h, x[end..], q', k');
    }
  }

  /** What the descent finds is a route of the tree that matches; it never panics. */
  lemma {:induction false} GetValueSound(n: Node, x: string, p: Buffer, k: nat) returns (pat: string)
    requires Body(n) && Walked(n) && Fits(n, k) && Room(p, k)
    requires n.kind == CatchAll ==> x != "" && x[0] == '/'
    ensures GetValue(n, x, p) != Crash
    ensures GetValue(n, x, p).Found? ==>
      Has(n, pat, GetValue(n, x, p).handle) && Match(pat, x).Some?
    decreases n
  {
    pat := n.path;
    if |x| > |n.path| && x[..|n.path|] == n.path {
      var y := x[|n.path|..];
      if n.wildChild {
        var c := n.children[0];
        assert WF(c);
        if n.kind == CatchAll {
          assert Body(c) && HolderShape(c);
          pat := c.path;
          assert Here(c, pat, c.handle.value) && Has(c, pat, c.handle.value);
          assert pat[0..] == pat && c.path[..2][0] == '/' && c.path[..2][1] == '*';
          assert InKids(n.children, pat, c.handle.value);
          assert y == x;
        } else {
          var r := GetWildSound(c, y, p, k);
          pat := n.path + r;
          if GetValue(n, x, p).Found? { Under(n, 0, r, GetValue(n, x, p).handle, x); }
        }
      } else {
        var i := IndexOf(n.indices, y[0]);
        if i < |n.indices| {
          var r := GetValueSound(n.children[i], y, p, k);
          pat := n.path + r;
          if GetValue(n, x, p).Found? { Under(n, i, r, GetValue(n, x, p).handle, x); }
        }
      }
    } else if x == n.path && n.handle.Some? {
      assert Here(n, pat, n.handle.value);
      MatchAt(n, pat, n.handle.value, x);
      assert pat[|n.path|..] == "" && x[|n.path|..] == "";
    }
  }

  lemma Under(n: Node, i: nat, r: string, h: Handle, x: string)
    requires Body(n) && n.kind in {Static, Root} && i < |n.children| && Has(n.children[i], r, h)
    requires n.path <= x && Match(r, x[|n.path|..]).Some?
    ensures Has(n, n.path + r, h) && Match(n.path + r, x).Some?
  {
    assert (n.path + r)[|n.path|..] == r;
    assert InKids(n.children, r, h);
    MatchAt(n, n.path + r, h, x);
  }

  lemma {:induction false} GetWildSound(n: Node, x: string, p: Buffer, k: nat) returns (pat: string)
    requires Body(n) && n.kind == Kind.Param && Fits(n, k) && Room(p, k) && x != ""
    ensures GetWild(n, x, p) != Crash
    ensures GetWild(n, x, p).Found? ==>
      Has(n, pat, GetWild(n, x, p).handle) && Match(pat, x).Some?
    decreases n
  {
    pat := n.path;
    var end := SegEnd(x);
    var q := Alloc(p, n.maxParams);
    var q' := q.(items := q.items + [Patterns.Param(n.path[1..], x[..end])]);
    var k' := if p.Nil? then n.maxParams - 1 else k - 1;
    if end < |x| {
      if |n.children| > 0 {
        var r := GetValueSound(n.children[0], x[end..], q', k');
        pat := n.path + r;
        if GetWild(n, x, p).Found? {
          var h := GetWild(n, x, p).handle;
          assert pat[|n.path|..] == r;
          assert InKids(n.children, r, h);
          FirstByte(n.children[0], r, h);
          ParamMatch(n.path, r, x);
        }
      }
    } else if n.handle.Some? {
      assert Here(n, pat, n.handle.value);
      assert n.path + "" == n.path && x[end..] == "";
      ParamMatch(n.path, "", x);
    }
  }
}

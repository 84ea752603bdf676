/**
  Whole runs of registrations on one method's tree: which are accepted, and that lookup in the
  tree they leave is a scan of the registered patterns, in whatever order they came.
*/
module Registration {
  import opened Options
  import opened Patterns
  import opened RouteTree
  import opened Routes
  import opened Insertion
  import opened Walk
  import opened Departures

  // ------------------------------------------------------------------ one registration

  lemma RootKind(c: Node)
    requires WF(c) && c.kind == Static
    ensures var r := c.(kind := Root);
      WF(r) && Count(r) == Count(c) && (forall q, g :: Has(r, q, g) <==> Has(c, q, g))
        && (forall k :: Fits(c, k) ==> Fits(r, k))
  {
    var r := c.(kind := Root);
    forall q, g ensures Has(r, q, g) <==> Has(c, q, g) {}
    forall k | Fits(c, k) ensures Fits(r, k) {}
  }

  lemma EmptyHolds(q: string, g: Handle)
    ensures !Has(EMPTY, q, g)
  {
  }

  /**
    Within reach of the code: the uint8 counter holds the wildcards of the pattern, and the handle
    is stored, by the repair or because of the pattern's form.
  */
  predicate InReach(path: string, v: Version) {
    Wild(path) <= MAX_PARAM_COUNT && (v.r3 || StoredAsWritten(path))
  }

  /** addRoute on a method's tree: exactly who is let in, and exactly what changes. */
  lemma AddRouteSpec(t: Node, path: string, h: Handle, v: Version)
    requires Tree(t) && path != "" && path[0] == '/' && InReach(path, v) && v.r1
    ensures AddRoute(t, path, h, v).Some? <==> ValidPattern(path) && AdmitsAll(v, t, path)
    ensures AddRoute(t, path, h, v).Some? ==>
      var t' := AddRoute(t, path, h, v).value;
      Tree(t') && t' != EMPTY && Adds(t, t', path, h) && t'.priority == t.priority + 1
  {
    if !v.r3 { AddRouteStores(t, path, h, v); }
    AddRouteStoring(t, path, h, WithR3(v));
    assert AdmitsAll(v, t, path) <==> AdmitsAll(WithR3(v), t, path);
  }

  lemma AddRouteStoring(t: Node, path: string, h: Handle, v: Version)
    requires Tree(t) && path != "" && path[0] == '/' && Wild(path) <= MAX_PARAM_COUNT && v.r1 && v.r3
    ensures AddRoute(t, path, h, v).Some? <==> ValidPattern(path) && AdmitsAll(v, t, path)
    ensures AddRoute(t, path, h, v).Some? ==>
      var t' := AddRoute(t, path, h, v).value;
      Tree(t') && t' != EMPTY && Adds(t, t', path, h) && t'.priority == t.priority + 1
  {
    if t == EMPTY {
      FirstRoute(path, h, v);
    } else {
      var t1 := t.(priority := t.priority + 1);
      Bumped(t, t.maxParams);
      BumpedSame(t, t1.priority, t1.maxParams);
      AddAtSpec(t1, path, WildcardNum(path), h, v);
    }
  }

  lemma FirstRoute(path: string, h: Handle, v: Version)
    requires path != "" && path[0] == '/' && Wild(path) <= MAX_PARAM_COUNT && v.r3
    ensures var r := AddRoute(EMPTY, path, h, v);
      (r.Some? <==> ValidPattern(path)) &&
      (r.Some? ==> Tree(r.value) && r.value != EMPTY && Adds(EMPTY, r.value, path, h) && r.value.priority == 1)
    ensures forall q, g :: !Has(EMPTY, q, g)
  {
    forall q, g ensures !Has(EMPTY, q, g) { EmptyHolds(q, g); }
    var w := WildcardNum(path);
    var n := EMPTY.(maxParams := 0, priority := 1);
    WildZero(path);
    if w == 0 { InsertLeaf(n, path, h); } else { InsertLoopSpec(n, path, w, h, v); InsertLoopKind(n, path, w, h, v); }
    if ValidPattern(path) {
      var c := InsertChild(n, w, path, h, v).value;
      RootKind(c);
      FitsMore(c, Wild(path), MAX_PARAM_COUNT);
    }
  }

  /** HttpRouter.Insert on the tree of one method; None is a panic. */
  function Insert(t: Node, path: string, h: Handle, v: Version): Option<Node>
    requires Tree(t)
  {
    if path == "" || path[0] != '/' then None else AddRoute(t, path, h, v)
  }

  // ------------------------------------------------------------------ lookup on one tree

  /** Lookup finds h and ps exactly when a route with handle h matches with bindings ps. */
  lemma LookupExact(t: Node, x: string)
    requires Tree(t)
    ensures GetValue(t, x, Nil) != Crash
    ensures forall h, ps ::
      GetValue(t, x, Nil) == Found(h, ps) <==> exists pat :: Has(t, pat, h) && Match(pat, x) == Some(ps)
  {
    var r := GetValue(t, x, Nil);
    if t == EMPTY {
      forall pat, h ensures !Has(t, pat, h) { EmptyHolds(pat, h); }
    } else {
      forall pat, h | Has(t, pat, h) && Match(pat, x).Some? ensures r == Found(h, Match(pat, x).value) {
        GetValueComplete(t, pat, h, x, Nil, MAX_PARAM_COUNT);
        assert Items(Nil) + Match(pat, x).value == Match(pat, x).value;
      }
      var pat := GetValueSound(t, x, Nil, MAX_PARAM_COUNT);
    }
  }

  // ------------------------------------------------------------------ runs of registrations

  datatype Route = Route(path: string, handle: Handle)

  predicate AllInReach(regs: seq<Route>, v: Version) {
    forall i :: 0 <= i < |regs| ==> InReach(regs[i].path, v)
  }

  /** Registering regs one after the other; None if one of them panics. */
  function Build(regs: seq<Route>, v: Version): (t: Option<Node>)
    requires AllInReach(regs, v) && v.r1
    ensures t.Some? ==> Tree(t.value)
  {
    if regs == [] then Some(EMPTY)
    else
      var last := regs[|regs| - 1];
      match Build(regs[..|regs| - 1], v)
      case None => None
      case Some(t) =>
        if last.path != "" && last.path[0] == '/' then
          AddRouteSpec(t, last.path, last.handle, v);
          Insert(t, last.path, last.handle, v)
        else None
  }

  /** Every pattern is valid and admitted beside each that came before it. */
  ghost predicate Acceptable(regs: seq<Route>, v: Version) {
    && (forall i :: 0 <= i < |regs| ==> ValidPattern(regs[i].path))
    && forall i, j :: 0 <= i < j < |regs| ==> Admits(v, regs[j].path, regs[i].path)
  }

  /** Trying the registered patterns one by one. */
  function Scan(regs: seq<Route>, x: string): Lookup {
    if regs == [] then Missing
    else
      match Match(regs[0].path, x)
      case Some(ps) => Found(regs[0].handle, ps)
      case None => Scan(regs[1..], x)
  }

  /** A run of registrations is accepted exactly if it is pairwise acceptable, and the tree then holds it. */
  lemma {:induction false} BuildSpec(regs: seq<Route>, v: Version)
    requires AllInReach(regs, v) && v.r1
    ensures Build(regs, v).Some? <==> Acceptable(regs, v)
    ensures Build(regs, v).Some? ==>
      var t := Build(regs, v).value;
      (forall q, g :: Has(t, q, g) <==> Route(q, g) in regs) && t.priority == |regs|
  {
    if regs == [] {
      forall q, g ensures !Has(EMPTY, q, g) { EmptyHolds(q, g); }
    } else {
      var prev, last := regs[..|regs| - 1], regs[|regs| - 1];
      assert regs == prev + [last];
      BuildSpec(prev, v);
      assert Acceptable(regs, v) ==> Acceptable(prev, v);
      if Build(prev, v).Some? && last.path != "" && last.path[0] == '/' {
        var t := Build(prev, v).value;
        AddRouteSpec(t, last.path, last.handle, v);
        BuildStep(prev, last, t, v);
      }
    }
  }

  lemma BuildStep(prev: seq<Route>, last: Route, t: Node, v: Version)
    requires Acceptable(prev, v) && forall q, g :: Has(t, q, g) <==> Route(q, g) in prev
    ensures Acceptable(prev + [last], v) <==> ValidPattern(last.path) && AdmitsAll(v, t, last.path)
  {
    var regs := prev + [last];
    if Acceptable(regs, v) {
      forall q, g | Has(t, q, g) ensures Admits(v, last.path, q) {
        var i :| 0 <= i < |prev| && prev[i] == Route(q, g);
        assert regs[i] == prev[i] && regs[|prev|] == last;
      }
      assert ValidPattern(regs[|prev|].path);
    }
    if ValidPattern(last.path) && AdmitsAll(v, t, last.path) {
      forall i, j | 0 <= i < j < |regs| ensures Admits(v, regs[j].path, regs[i].path) {
        if j == |prev| { assert Has(t, prev[i].path, prev[i].handle); }
      }
    }
  }

  lemma {:induction false} ScanFinds(regs: seq<Route>, x: string)
    ensures match Scan(regs, x)
      case Found(h, ps) => exists i :: 0 <= i < |regs| && regs[i].handle == h && Match(regs[i].path, x) == Some(ps)
      case Missing => forall i :: 0 <= i < |regs| ==> Match(regs[i].path, x).None?
      case Crash => false
  {
    if regs != [] && Match(regs[0].path, x).None? {
      ScanFinds(regs[1..], x);
      match Scan(regs, x) {
        case Found(h, ps) =>
          var i :| 0 <= i < |regs[1..]| && regs[1..][i].handle == h && Match(regs[1..][i].path, x) == Some(ps);
          assert regs[i + 1] == regs[1..][i];
        case Missing =>
          forall i | 0 <= i < |regs| ensures Match(regs[i].path, x).None? {
            if i > 0 { assert regs[i] == regs[1..][i - 1]; }
          }
      }
    }
  }

  /** Lookup in the radix tree is a scan of the registered patterns, on every path. */
  lemma LookupIsScan(regs: seq<Route>, v: Version, x: string)
    requires AllInReach(regs, v) && v.r1 && Build(regs, v).Some?
    ensures GetValue(Build(regs, v).value, x, Nil) == Scan(regs, x)
  {
    var t := Build(regs, v).value;
    BuildSpec(regs, v);
    LookupExact(t, x);
    ScanFinds(regs, x);
    match Scan(regs, x) {
      case Found(h, ps) =>
        var i :| 0 <= i < |regs| && regs[i].handle == h && Match(regs[i].path, x) == Some(ps);
        assert regs[i] == Route(regs[i].path, h);
        assert Has(t, regs[i].path, h);
      case Missing =>
        forall pat, h | Has(t, pat, h) ensures Match(pat, x).None? {
          var i :| 0 <= i < |regs| && regs[i] == Route(pat, h);
        }
    }
  }

  /** No path matches two routes of an accepted run. */
  lemma Unambiguous(regs: seq<Route>, v: Version, i: nat, j: nat, x: string)
    requires AllInReach(regs, v) && v.r1 && Build(regs, v).Some?
    requires i < j < |regs|
    ensures Match(regs[i].path, x).None? || Match(regs[j].path, x).None?
  {
    BuildSpec(regs, v);
    CompatibleDisjoint(regs[j].path, regs[i].path, x);
  }

  /** Two accepted runs of the same registrations, in any order, look up alike. */
  lemma OrderDoesNotMatter(regs: seq<Route>, regs': seq<Route>, v: Version, x: string)
    requires AllInReach(regs, v) && AllInReach(regs', v) && v.r1
    requires Build(regs, v).Some? && Build(regs', v).Some?
    requires forall r :: r in regs <==> r in regs'
    ensures GetValue(Build(regs, v).value, x, Nil) == GetValue(Build(regs', v).value, x, Nil)
  {
    var t, t' := Build(regs, v).value, Build(regs', v).value;
    BuildSpec(regs, v);
    BuildSpec(regs', v);
    LookupExact(t, x);
    LookupExact(t', x);
    assert forall q, g :: Has(t, q, g) <==> Has(t', q, g);
    SameLookup(t, t', x);
  }

  lemma SameLookup(t: Node, t': Node, x: string)
    requires Tree(t) && Tree(t') && forall q, g :: Has(t, q, g) <==> Has(t', q, g)
    ensures GetValue(t, x, Nil) == GetValue(t', x, Nil)
  {
    LookupExact(t, x);
    LookupExact(t', x);
    var r, r' := GetValue(t, x, Nil), GetValue(t', x, Nil);
    if r.Found? {
      var pat :| Has(t, pat, r.handle) && Match(pat, x) == Some(r.params);
      assert Has(t', pat, r.handle);
      assert r' == Found(r.handle, r.params);
    } else if r'.Found? {
      var pat :| Has(t', pat, r'.handle) && Match(pat, x) == Some(r'.params);
      assert Has(t, pat, r'.handle);
      assert r == Found(r'.handle, r'.params);
    }
  }

  /** With r2 repaired, every order of an accepted run is accepted. */
  lemma AnyOrderAccepted(regs: seq<Route>, regs': seq<Route>)
    requires AllInReach(regs, REPAIRED) && AllInReach(regs', REPAIRED) && Build(regs, REPAIRED).Some?
    requires multiset(regs) == multiset(regs')
    ensures Build(regs', REPAIRED).Some?
  {
    BuildSpec(regs, REPAIRED);
    BuildSpec(regs', REPAIRED);
    forall i | 0 <= i < |regs'| ensures ValidPattern(regs'[i].path) {
      assert regs'[i] in multiset(regs');
      assert regs'[i] in regs;
    }
    forall i, j | 0 <= i < j < |regs'| ensures Admits(REPAIRED, regs'[j].path, regs'[i].path) {
      var a, b := regs'[i], regs'[j];
      assert a in multiset(regs') && b in multiset(regs');
      var k, l := TwoPlaces(regs, regs', i, j);
      CompatibleSymmetric(regs[k].path, regs[l].path);
    }
  }

  /** Two places of one order are two places of the other. */
  lemma TwoPlaces(regs: seq<Route>, regs': seq<Route>, i: nat, j: nat) returns (k: nat, l: nat)
    requires multiset(regs) == multiset(regs') && i < j < |regs'|
    ensures k < |regs| && l < |regs| && k != l && regs[k] == regs'[i] && regs[l] == regs'[j]
  {
    var a, b := regs'[i], regs'[j];
    assert regs' == regs'[..j] + ([b] + regs'[j + 1..]);
    assert a in regs'[..j] by { assert regs'[..j][i] == a; }
    assert multiset(regs') == multiset(regs'[..j]) + multiset([b] + regs'[j + 1..]);
    assert b in multiset(regs) && a in multiset(regs);
    l :| 0 <= l < |regs| && regs[l] == b;
    var rest := regs[..l] + regs[l + 1..];
    assert regs == regs[..l] + ([b] + regs[l + 1..]);
    assert multiset(regs) == multiset(rest) + multiset{b};
    assert multiset(regs') == multiset(regs'[..j]) + multiset(regs'[j + 1..]) + multiset{b};
    assert a in multiset(rest);
    assert a in rest;
    var m :| 0 <= m < |rest| && rest[m] == a;
    k := if m < l then m else m + 1;
  }

  /** r2: with the fall-through as written, the route "/" is accepted only as the first one. */
  lemma RootMustComeFirst(regs: seq<Route>, v: Version, j: nat)
    requires AllInReach(regs, v) && v.r1 && !v.r2 && Build(regs, v).Some?
    requires j < |regs| && regs[j].path == "/"
    ensures j == 0
  {
    BuildSpec(regs, v);
    assert ValidPattern(regs[0].path);
    assert "/" <= regs[0].path;
  }
}

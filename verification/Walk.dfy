/**
  The walk of addRoute: each turn keeps the shape of the tree and adds exactly one route, and the
  walk panics exactly on invalid patterns and on patterns some route of the tree does not admit.
*/
module Walk {
  import opened Options
  import opened Patterns
  import opened RouteTree
  import opened Routes
  import opened Insertion
  import Steps

  // ------------------------------------------------------------------ stripping the text of a node

  /** Taking the text of n off both patterns changes nothing. */
  lemma NodeStrip(n: Node, rest: string, q: string, h: Handle, v: Version)
    requires Body(n) && n.kind != CatchAll && Has(n, q, h) && Seam(n.path, rest)
    requires n.kind == Kind.Param ==> rest == "" || rest[0] == '/'
    ensures n.path <= q && q == n.path + q[|n.path|..]
    ensures Admits(v, n.path + rest, q) == Admits(v, rest, q[|n.path|..])
  {
    var s, y := n.path, q[|n.path|..];
    assert q == s + y;
    assert (s + rest <= q) == (rest <= y);
    if !Here(n, q, h) {
      var i :| 0 <= i < |n.children| && Has(n.children[i], y, h);
      KidSeam(n, i, y, h);
    }
    if n.kind == Kind.Param {
      ParamStrip(s, rest, y);
    } else {
      CompatibleStrip(s, rest, y);
    }
  }

  lemma ParamStrip(s: string, r: string, y: string)
    requires s != "" && s[0] == ':' && '/' !in s && (r == "" || r[0] == '/') && (y == "" || y[0] == '/')
    ensures Compatible(s + r, s + y) == Compatible(r, y)
  {
    SegEndAt(s, r);
    SegEndAt(s, y);
    assert (s + r)[..|s|] == s && (s + y)[..|s|] == s;
    assert (s + r)[|s|..] == r && (s + y)[|s|..] == y;
  }

  lemma ValidNodeStrip(n: Node, rest: string)
    requires Body(n) && n.kind != CatchAll && Seam(n.path, rest)
    requires n.kind == Kind.Param ==> rest == "" || rest[0] == '/'
    ensures ValidRest(n.path + rest) == ValidRest(rest)
  {
    if n.kind == Kind.Param {
      SegEndAt(n.path, rest);
      assert (n.path + rest)[|n.path|..] == rest;
      assert (n.path + rest)[1..|n.path|] == n.path[1..];
    } else {
      ValidStrip(n.path, rest);
    }
  }

  /** A catch-all that would start at the '/' that ends n's text conflicts with every route of n. */
  lemma SeamConflict(s: string, r: string, y: string)
    requires NoWild(s) && !Seam(s, r)
    ensures !Compatible(s + r, s + y)
  {
    var t := s[..|s| - 1];
    assert s == t + "/";
    assert s + r == t + ("/" + r) && s + y == t + ("/" + y);
    CompatibleStrip(t, "/" + r, "/" + y);
  }

  lemma WildOf(n: Node, rest: string)
    requires Body(n) && n.kind != CatchAll
    ensures Wild(n.path + rest) == Wild(rest) + if n.kind == Kind.Param then 1 else 0
  {
    WildSplit(n.path, rest);
    if n.kind == Kind.Param {
      assert n.path == [':'] + n.path[1..];
      WildSplit([':'], n.path[1..]);
      WildZero(n.path[1..]);
    } else {
      WildZero(n.path);
    }
  }

  // ------------------------------------------------------------------ split edge

  lemma SplitHas(n: Node, i: nat, q: string, g: Handle)
    requires i < |n.path| && n.priority > 0
    ensures Has(Split(n, i), q, g) <==> Has(n, q, g)
  {
    var m := Split(n, i);
    var c := m.children[0];
    if m.path <= q {
      var y := q[i..];
      assert InKids(m.children, y, g) <==> Has(c, y, g);
      assert n.path <= q <==> c.path <= y by { assert n.path == m.path + c.path; }
      if n.path <= q { assert y[|c.path|..] == q[|n.path|..]; }
    } else {
      assert n.path[..i] == m.path;
    }
  }

  lemma CutSpec(n: Node, i: nat, w: nat)
    requires Pending(n) && i <= |n.path| && (i < |n.path| ==> i > 0 && n.kind in {Static, Root})
    ensures forall q, g :: Has(Cut(n, i, w), q, g) <==> Has(n, q, g)
    ensures Count(Cut(n, i, w)) == Count(n)
    ensures forall k :: Fits(n, k) ==> Fits(Cut(n, i, w), k)
  {
    var n0 := n.(maxParams := Max(n.maxParams, w));
    forall q, g ensures Has(Cut(n, i, w), q, g) <==> Has(n, q, g) {
      assert Has(n0, q, g) <==> Has(n, q, g);
      if i < |n.path| { SplitHas(n0, i, q, g); }
    }
    forall k | Fits(n, k) ensures Fits(Cut(n, i, w), k) {
      assert Fits(n0, k);
      if i < |n.path| {
        assert Fits(Split(n0, i).children[0], k);
      }
    }
  }

  // ------------------------------------------------------------------ one turn, below the text of n

  lemma BumpedSame(c: Node, p: nat, m: nat)
    ensures var d := c.(priority := p, maxParams := m);
      (forall q, g :: Has(d, q, g) <==> Has(c, q, g)) && Count(d) == Count(c) && forall k :: Fits(d, k) <==> Fits(c, k)
  {
    var d := c.(priority := p, maxParams := m);
    forall q, g ensures Has(d, q, g) <==> Has(c, q, g) {}
    forall k ensures Fits(d, k) <==> Fits(c, k) {}
  }

  /** The child at the front is replaced by one with the new route. */
  lemma OnlyKidAdded(n: Node, c: Node, c': Node, rest: string, h: Handle)
    requires Below(n, rest) && |n.children| == 1
      && c == n.children[0].(priority := c.priority, maxParams := c.maxParams)
    requires Added(c, c', rest, h)
    requires n.kind in {Static, Root, Kind.Param}
    requires n.kind == Kind.Param ==> n.maxParams >= 1 + Wild(rest)
    requires !n.wildChild ==> n.kind == Kind.Param
    ensures AddedBelow(n, n.(children := [c']), rest, h)
  {
    var n' := n.(children := [c']);
    BumpedSame(n.children[0], c.priority, c.maxParams);
    assert CountAll(n.children) == Count(n.children[0]) + CountAll(n.children[1..]);
    assert CountAll([c']) == Count(c') + CountAll([]);
    forall q, g ensures InKids([c'], q, g) <==> InKids(n.children, q, g) || (q == rest && g == h) {
      assert InKids([c'], q, g) <==> Has([c'][0], q, g);
      assert InKids(n.children, q, g) <==> Has(n.children[0], q, g);
      assert Has(c', q, g) <==> Has(c, q, g) || (q == rest && g == h);
    }
    forall k | Fits(n, k) && Wild(rest) <= k - (if n.kind == Kind.Param then 1 else 0) ensures Fits(n', k) {
      assert Fits(n.children[0], if n.kind == Kind.Param then k - 1 else k);
    }
    if n.kind == Kind.Param { assert Fits(n', n.maxParams); }
    assert Shape(n');
  }

  /** incrementChildPrio keeps index bytes with their children and priorities in order. */
  lemma IncrementKeeps(children: seq<Node>, indices: string, idx: nat, v: Version)
    requires idx < |children| == |indices| && Sorted(children) && v.r1
    ensures var (kids, ix, k) := IncrementChildPrio(children, indices, idx, v);
      |ix| == |indices| && Sorted(kids) && ix[k] == indices[idx]
  {
    var (kids, ix, k) := IncrementChildPrio(children, indices, idx, v);
    if k == idx { assert kids == children[idx := kids[k]]; }
  }

  function To(j: nat, idx: nat, k: nat): nat
    requires k <= idx
  {
    if j == idx then k else if k <= j < idx then j + 1 else j
  }

  /** kids and ix are children and indices with the element at idx taken to k; kids[k] may be changed. */
  ghost predicate Moved(children: seq<Node>, indices: string, kids: seq<Node>, ix: string, idx: nat, k: nat) {
    && k <= idx < |children| == |indices| == |kids| == |ix|
    && forall j :: 0 <= j < |kids| ==>
         ix[j] == indices[Origin(j, idx, k)] && (j != k ==> kids[j] == children[Origin(j, idx, k)])
  }

  lemma IncrementMoves(children: seq<Node>, indices: string, idx: nat, v: Version, c': Node)
    requires idx < |children| == |indices| && v.r1
    ensures var (kids, ix, k) := IncrementChildPrio(children, indices, idx, v);
      Moved(children, indices, kids[k := c'], ix, idx, k)
  {
  }

  lemma IncrementSorts(children: seq<Node>, indices: string, idx: nat, v: Version, c': Node)
    requires idx < |children| == |indices| && v.r1 && Sorted(children)
    requires c'.priority == children[idx].priority + 1
    ensures var (kids, ix, k) := IncrementChildPrio(children, indices, idx, v);
      Sorted(kids[k := c'])
  {
    IncrementKeeps(children, indices, idx, v);
    var (kids, ix, k) := IncrementChildPrio(children, indices, idx, v);
    assert kids[k].priority == c'.priority;
  }

  lemma IncrementCounts(children: seq<Node>, indices: string, idx: nat, v: Version, c': Node)
    requires idx < |children| && idx < |indices|
    ensures var (kids, ix, k) := IncrementChildPrio(children, indices, idx, v);
      CountAll(kids[k := c']) == CountAll(children) - Count(children[idx]) + Count(c')
  {
    var (kids, ix, k) := IncrementChildPrio(children, indices, idx, v);
    var b := children[idx].(priority := children[idx].priority + 1);
    CountUpdate(children, idx, b);
    CountMove(children[idx := b], idx, k);
    CountUpdate(kids, k, c');
  }

  lemma MovedRoutes(children: seq<Node>, indices: string, kids: seq<Node>, ix: string, idx: nat, k: nat,
      rest: string, h: Handle)
    requires Moved(children, indices, kids, ix, idx, k) && Adds(children[idx], kids[k], rest, h)
    ensures forall q, g :: InKids(kids, q, g) <==> InKids(children, q, g) || (q == rest && g == h)
  {
    forall q, g ensures InKids(kids, q, g) <==> InKids(children, q, g) || (q == rest && g == h) {
      if InKids(kids, q, g) {
        var j :| 0 <= j < |kids| && Has(kids[j], q, g);
        if !(q == rest && g == h) { assert Has(children[Origin(j, idx, k)], q, g); }
      }
      if InKids(children, q, g) {
        var j :| 0 <= j < |children| && Has(children[j], q, g);
        var t := To(j, idx, k);
        assert Origin(t, idx, k) == j;
        assert Has(kids[t], q, g);
      }
      if q == rest && g == h { assert Has(kids[k], q, g); }
    }
  }

  lemma MovedAligned(n: Node, kids: seq<Node>, ix: string, idx: nat, k: nat)
    requires Aligned(n) && Moved(n.children, n.indices, kids, ix, idx, k)
    requires forall b :: IndexFits(n.children[idx], b) ==> IndexFits(kids[k], b)
    ensures Aligned(n.(children := kids, indices := ix))
  {
    var n' := n.(children := kids, indices := ix);
    forall i | 0 <= i < |kids| ensures IndexFits(kids[i], ix[i]) {
      assert IndexFits(n.children[Origin(i, idx, k)], n.indices[Origin(i, idx, k)]);
    }
  }

  lemma MovedWF(n: Node, kids: seq<Node>, ix: string, idx: nat, k: nat)
    requires Moved(n.children, n.indices, kids, ix, idx, k) && WF(kids[k])
    requires forall i :: 0 <= i < |n.children| ==> WF(n.children[i])
    ensures forall i :: 0 <= i < |kids| ==> WF(kids[i])
  {
    forall i | 0 <= i < |kids| ensures WF(kids[i]) {
      assert WF(n.children[Origin(i, idx, k)]);
    }
  }

  lemma MovedFits(n: Node, kids: seq<Node>, ix: string, idx: nat, k: nat, m: int)
    requires Moved(n.children, n.indices, kids, ix, idx, k) && Fits(n, m) && n.kind in {Static, Root}
    requires Fits(n.children[idx], m) ==> Fits(kids[k], m)
    ensures Fits(n.(children := kids, indices := ix), m)
  {
    forall j | 0 <= j < |kids| ensures Fits(kids[j], m) {
      assert Fits(n.children[Origin(j, idx, k)], m);
    }
  }

  /** The child that takes the route is moved and replaced by one with the new route. */
  lemma KidAdded(n: Node, idx: nat, c': Node, rest: string, h: Handle, v: Version)
    requires Below(n, rest) && n.kind in {Static, Root} && !n.wildChild && idx < |n.children| && v.r1
    requires Added(n.children[idx].(priority := n.children[idx].priority + 1), c', rest, h)
    ensures var (kids, ix, k) := IncrementChildPrio(n.children, n.indices, idx, v);
      AddedBelow(n, n.(children := kids[k := c'], indices := ix), rest, h)
  {
    var (kids, ix, k) := IncrementChildPrio(n.children, n.indices, idx, v);
    var c, b := n.children[idx], n.children[idx].(priority := n.children[idx].priority + 1);
    var kids', n' := kids[k := c'], n.(children := kids[k := c'], indices := ix);
    BumpedSame(c, b.priority, b.maxParams);
    assert WF(c) && c'.priority == c.priority + 1;
    IncrementMoves(n.children, n.indices, idx, v, c');
    IncrementSorts(n.children, n.indices, idx, v, c');
    IncrementCounts(n.children, n.indices, idx, v, c');
    MovedRoutes(n.children, n.indices, kids', ix, idx, k, rest, h);
    MovedAligned(n, kids', ix, idx, k);
    MovedWF(n, kids', ix, idx, k);
    hide Count, CountAll, InKids, IncrementChildPrio;
    assert StaticShape(n');
    forall m | Fits(n, m) && Wild(rest) <= m ensures Fits(n', m) {
      MovedFits(n, kids', ix, idx, k, m);
    }
  }

  /** A new child for the rest of the route, under a byte the node did not have. */
  lemma NewKidAdded(n: Node, c': Node, rest: string, h: Handle)
    requires Below(n, rest) && n.kind in {Static, Root, Kind.Param} && !n.wildChild && n.path != ""
    requires rest != "" && !IsWild(rest[0]) && rest[0] !in n.indices
    requires n.kind == Kind.Param ==> n.children == [] && n.maxParams >= 1 + Wild(rest)
    requires Single(c', rest, h) && IndexFits(c', rest[0]) && c'.kind == Static
    ensures AddedBelow(n, n.(children := n.children + [c'], indices := n.indices + [rest[0]]), rest, h)
  {
    var kids := n.children + [c'];
    var n' := n.(children := kids, indices := n.indices + [rest[0]]);
    CountAppend(n.children, [c']);
    assert CountAll([c']) == Count(c') + CountAll([]);
    KidAppended(n.children, c', rest, h);
    NewKidFits(n, c', rest, h);
    forall j | 0 <= j < |n.children| ensures kids[j] == n.children[j] && kids[j].priority >= 1 {
      assert WF(n.children[j]) && Body(n.children[j]);
    }
    hide Count, CountAll, InKids, Single;
    if n.kind == Kind.Param {
      assert n'.indices == "/";
      assert Fits(n, n.maxParams) && Fits(n', n.maxParams);
      assert ParamShape(n');
    } else {
      assert Aligned(n') && Sorted(kids);
      assert StaticShape(n');
    }
  }

  lemma KidAppended(ns: seq<Node>, c: Node, rest: string, h: Handle)
    requires Only(c, rest, h)
    ensures forall q, g :: InKids(ns + [c], q, g) <==> InKids(ns, q, g) || (q == rest && g == h)
  {
    hide Has;
    var kids := ns + [c];
    forall q, g ensures InKids(kids, q, g) <==> InKids(ns, q, g) || (q == rest && g == h) {
      if InKids(ns, q, g) {
        var j :| 0 <= j < |ns| && Has(ns[j], q, g);
        assert Has(kids[j], q, g);
      }
      if q == rest && g == h { assert Has(kids[|ns|], q, g); }
    }
  }

  lemma NewKidFits(n: Node, c: Node, rest: string, h: Handle)
    requires n.kind in {Static, Root, Kind.Param} && rest != "" && Single(c, rest, h) && c.kind == Static
    ensures var n' := n.(children := n.children + [c], indices := n.indices + [rest[0]]);
      forall k :: Fits(n, k) && Wild(rest) <= k - (if n.kind == Kind.Param then 1 else 0) ==> Fits(n', k)
  {
    var n' := n.(children := n.children + [c], indices := n.indices + [rest[0]]);
    forall k | Fits(n, k) && Wild(rest) <= k - (if n.kind == Kind.Param then 1 else 0) ensures Fits(n', k) {
      FitsMore(c, Wild(rest), if n.kind == Kind.Param then k - 1 else k);
    }
  }

  /** AddNew appends: a new child, of priority 1, never overtakes another. */
  lemma AddNewAt(n: Node, rest: string, w: nat, h: Handle, v: Version)
    requires Below(n, rest) && rest != "" && !IsWild(rest[0]) && |n.indices| == |n.children|
    ensures var r := InsertChild(EMPTY.(maxParams := w, priority := 1), w, rest, h, v);
      AddNew(n, rest, w, h, v) ==
        if r.None? then None
        else Some(n.(children := n.children + [r.value], indices := n.indices + [rest[0]]))
  {
    var child := EMPTY.(maxParams := w);
    var children, last := n.children + [child], |n.children|;
    forall j | 0 <= j < last ensures children[j].priority >= 1 {
      assert WF(n.children[j]) && Body(n.children[j]) && children[j] == n.children[j];
    }
    assert NewPos(children, last, 1) == last;
    var b := child.(priority := 1);
    assert MoveLeft(children[last := b], last, last) == n.children + [b];
    assert forall c :: (n.children + [b])[last := c] == n.children + [c];
  }

  lemma InsertChildSpec(w: nat, rest: string, h: Handle, v: Version)
    requires rest != "" && !IsWild(rest[0]) && w == Wild(rest) <= 255 && v.r3
    ensures var r := InsertChild(EMPTY.(maxParams := w, priority := 1), w, rest, h, v);
      (r.Some? <==> ValidRest(rest)) &&
      (r.Some? ==> r.value.kind == Static && IndexFits(r.value, rest[0]) && Single(r.value, rest, h))
  {
    var n := EMPTY.(maxParams := w, priority := 1);
    WildZero(rest);
    if w == 0 { InsertLeaf(n, rest, h); } else { InsertLoopSpec(n, rest, w, h, v); InsertLoopKind(n, rest, w, h, v); }
  }

  lemma InsertLoopKind(n: Node, path: string, w: nat, h: Handle, v: Version)
    ensures InsertLoop(n, path, w, h, v).Some? ==> InsertLoop(n, path, w, h, v).value.kind == n.kind
  {
  }

  /** A parameter hung directly below n. */
  lemma ParamKidAdded(n: Node, c': Node, rest: string, h: Handle)
    requires Below(n, rest) && n.kind in {Static, Root} && !n.wildChild && n.path != "" && n.children == []
    requires Single(c', rest, h) && c'.kind == Kind.Param
    ensures AddedBelow(n, n.(wildChild := true, children := [c']), rest, h)
  {
    var n' := n.(wildChild := true, children := [c']);
    assert CountAll([c']) == Count(c') + CountAll([]);
    forall q, g ensures InKids([c'], q, g) <==> InKids(n.children, q, g) || (q == rest && g == h) {
      assert InKids([c'], q, g) <==> Has([c'][0], q, g);
    }
    forall k | Fits(n, k) && Wild(rest) <= k ensures Fits(n', k) {
      FitsMore(c', Wild(rest), k);
    }
    assert StaticShape(n');
  }

  // ------------------------------------------------------------------ who is let in, below n

  /** The rest of the path may join every route below n. */
  ghost predicate AdmitsKids(v: Version, n: Node, rest: string) {
    forall q, g :: InKids(n.children, q, g) ==> Admits(v, rest, q)
  }

  lemma OneKidAdmits(v: Version, n: Node, c: Node, rest: string)
    requires |n.children| == 1 && c == n.children[0].(priority := c.priority, maxParams := c.maxParams)
    ensures AdmitsKids(v, n, rest) <==> AdmitsAll(v, c, rest)
  {
    BumpedSame(n.children[0], c.priority, c.maxParams);
    forall q, g ensures InKids(n.children, q, g) <==> Has(c, q, g) {
      assert InKids(n.children, q, g) <==> Has(n.children[0], q, g);
    }
  }

  /** Routes under another byte do not matter. */
  lemma OtherByte(n: Node, j: nat, rest: string, q: string, g: Handle, v: Version)
    requires Below(n, rest) && n.kind in {Static, Root} && !n.wildChild && j < |n.children|
    requires Has(n.children[j], q, g) && rest != "" && !IsWild(rest[0]) && rest[0] != n.indices[j]
    ensures Admits(v, rest, q)
  {
    assert WF(n.children[j]) && IndexFits(n.children[j], n.indices[j]);
    FirstByte(n.children[j], q, g);
    StaticFirst(n.children[j], q, g);
  }

  /** A route under an index byte starts with that byte, which is no wildcard. */
  lemma StaticFirst(c: Node, q: string, g: Handle)
    requires WF(c) && Has(c, q, g) && (c.kind == Static || c.kind == CatchAll)
    ensures q != "" && !IsWild(q[0])
    decreases c
  {
    FirstByte(c, q, g);
    if c.kind == Static {
      if c.path != "" {
        assert q[0] == c.path[0];
      } else {
        assert IndexFits(c, '/');
      }
    } else {
      assert q[..2][0] == q[0];
    }
  }

  lemma IndexAdmits(n: Node, idx: nat, rest: string, v: Version)
    requires Below(n, rest) && n.kind in {Static, Root} && !n.wildChild && idx < |n.children|
    requires rest != "" && rest[0] == n.indices[idx]
    ensures !IsWild(rest[0])
    ensures AdmitsKids(v, n, rest) <==> AdmitsAll(v, n.children[idx], rest)
  {
    IndexByte(n, idx);
    if AdmitsAll(v, n.children[idx], rest) {
      forall q, g | InKids(n.children, q, g) ensures Admits(v, rest, q) {
        var j :| 0 <= j < |n.children| && Has(n.children[j], q, g);
        if j != idx { OtherByte(n, j, rest, q, g, v); }
      }
    }
    if AdmitsKids(v, n, rest) {
      forall q, g | Has(n.children[idx], q, g) ensures Admits(v, rest, q) {
        assert InKids(n.children, q, g);
      }
    }
  }

  lemma IndexByte(n: Node, idx: nat)
    requires idx < |n.children| && Shape(n) && WF(n.children[idx]) && n.kind in {Static, Root} && !n.wildChild
    ensures !IsWild(n.indices[idx])
  {
    var c := n.children[idx];
    assert IndexFits(c, n.indices[idx]);
    assert Body(c);
  }

  /** A parameter child that does not match the path conflicts with it. */
  lemma WildcardConflict(c: Node, rest: string, v: Version)
    requires WF(c) && c.kind == Kind.Param && rest != "" && !WildcardMatches(c, rest)
    ensures !AdmitsAll(v, c, rest)
  {
    var q, g := AnyRoute(c);
    FirstByte(c, q, g);
    SegEndAt(c.path, q[|c.path|..]);
    assert q == c.path + q[|c.path|..];
    assert q[..|c.path|] == c.path;
    assert !Compatible(rest, q);
  }

  lemma ParamFacesParam(p: string, q: string)
    requires Compatible(p, q) && p != "" && p[0] == ':' && q != ""
    ensures q[0] == ':'
  {
    assert p[..SegEnd(p)][0] == q[..SegEnd(q)][0];
  }

  /** A parameter cannot be added beside children. */
  lemma ParamBesideChildren(n: Node, rest: string, v: Version)
    requires Below(n, rest) && n.kind in {Static, Root} && !n.wildChild && n.children != []
    requires rest != "" && rest[0] == ':'
    ensures !AdmitsKids(v, n, rest)
  {
    var c := n.children[0];
    assert WF(c) && IndexFits(c, n.indices[0]);
    var y, g := AnyRoute(c);
    StaticFirst(c, y, g);
    assert InKids(n.children, y, g);
    assert !Compatible(rest, y) by {
      if Compatible(rest, y) { ParamFacesParam(rest, y); }
    }
  }

  lemma LoopRefuses(n: Node, rest: string, w: nat, h: Handle, v: Version)
    requires rest != "" && w > 0 && (rest[0] == '*' || (rest[0] == ':' && n.children != []))
    ensures InsertLoop(n, rest, w, h, v).None?
  {
  }

  /** A node without text only leads to a catch-all. */
  lemma EmptyText(n: Node)
    requires Body(n) && n.kind in {Static, Root}
    ensures n.path == "" ==> n.indices == "/"
  {
    if n.path == "" {
      assert WF(n.children[0]) && Body(n.children[0]) && IndexFits(n.children[0], n.indices[0]);
    }
  }

  lemma AddNewSpec(n: Node, rest: string, w: nat, h: Handle, v: Version)
    requires Body(n) && n.kind != CatchAll && !n.wildChild && v.r1 && v.r3
    requires rest != "" && rest[0] !in n.indices && w == Wild(rest) <= 255
    requires (n.kind == Kind.Param ==> rest[0] == '/' && n.children == []) && (n.path == "" ==> rest[0] == '/')
    requires n.kind == Kind.Param ==> n.maxParams >= 1 + w
    ensures var r := AddNew(n, rest, w, h, v);
      (r.Some? <==> ValidRest(rest) && AdmitsKids(v, n, rest)) &&
      (r.Some? ==> AddedBelow(n, r.value, rest, h))
  {
    hide InsertLoop, AddedBelow, Count, CountAll, Admits;
    if n.kind in {Static, Root} { EmptyText(n); }
    if rest[0] == '*' {
      LoopRefuses(n, rest, w, h, v);
    } else if rest[0] == ':' {
      AddNewParam(n, rest, w, h, v);
    } else {
      AddNewAt(n, rest, w, h, v);
      InsertChildSpec(w, rest, h, v);
      forall q, g | InKids(n.children, q, g) ensures Admits(v, rest, q) {
        var j :| 0 <= j < |n.children| && Has(n.children[j], q, g);
        OtherByte(n, j, rest, q, g, v);
      }
      if ValidRest(rest) {
        NewKidAdded(n, InsertChild(EMPTY.(maxParams := w, priority := 1), w, rest, h, v).value, rest, h);
      }
    }
  }

  lemma AddNewParam(n: Node, rest: string, w: nat, h: Handle, v: Version)
    requires Body(n) && n.kind in {Static, Root} && !n.wildChild && n.path != "" && v.r3
    requires rest != "" && rest[0] == ':' && w == Wild(rest) <= 255
    ensures var r := AddNew(n, rest, w, h, v);
      (r.Some? <==> ValidRest(rest) && AdmitsKids(v, n, rest)) &&
      (r.Some? ==> AddedBelow(n, r.value, rest, h))
  {
    hide InsertLoop, AddedBelow, Count, CountAll, Admits;
    if n.children != [] {
      LoopRefuses(n, rest, w, h, v);
      ParamBesideChildren(n, rest, v);
    } else {
      LoopAtParam(n, rest, w, h, v);
      assert rest[0..] == rest;
      var e := SegEnd(rest);
      if e >= 2 && NoWild(rest[1..e]) {
        ParamChildSpec(rest, w, h, v);
        if ValidRest(rest) { ParamKidAdded(n, ParamChild(rest, e, w, h, v).value, rest, h); }
      }
    }
  }

  // ------------------------------------------------------------------ the walk

  lemma {:induction false} AddBelowSpec(n: Node, rest: string, w: nat, h: Handle, v: Version)
    requires Body(n) && n.kind != CatchAll && v.r1 && v.r3
    requires rest != "" && (n.kind == Kind.Param ==> rest[0] == '/') && (n.path == "" ==> rest[0] == '/')
    requires w == Wild(rest) <= 255
    requires n.kind == Kind.Param ==> n.maxParams >= 1 + w
    ensures var r := AddBelow(n, rest, w, h, v);
      (r.Some? <==> ValidRest(rest) && AdmitsKids(v, n, rest)) &&
      (r.Some? ==> AddedBelow(n, r.value, rest, h))
    decreases |rest|, n.children, 1
  {
    if n.wildChild {
      BelowWild(n, rest, w, h, v);
    } else if n.kind == Kind.Param && |n.children| == 1 {
      BelowParam(n, rest, w, h, v);
    } else {
      var idx := IndexOf(n.indices, rest[0]);
      if idx < |n.indices| { BelowIndex(n, rest, idx, w, h, v); } else { AddNewSpec(n, rest, w, h, v); }
    }
  }

  lemma {:induction false} BelowWild(n: Node, rest: string, w: nat, h: Handle, v: Version)
    requires Body(n) && n.kind in {Static, Root} && n.wildChild && v.r1 && v.r3
    requires rest != "" && w == Wild(rest) <= 255
    ensures var r := AddBelow(n, rest, w, h, v);
      (r.Some? <==> ValidRest(rest) && AdmitsKids(v, n, rest)) &&
      (r.Some? ==> AddedBelow(n, r.value, rest, h))
    decreases |rest|, n.children, 0
  {
    hide AddAt, Added, AddedBelow, Count, CountAll, Admits;
    var m := Max(n.children[0].maxParams, w);
    var c := n.children[0].(priority := n.children[0].priority + 1, maxParams := m);
    Bumped(n.children[0], m);
    OneKidAdmits(v, n, c, rest);
    if WildcardMatches(c, rest) {
      AddAtSpec(c, rest, Dec8(w), h, v);
      if AddAt(c, rest, Dec8(w), h, v).Some? { OnlyKidAdded(n, c, AddAt(c, rest, Dec8(w), h, v).value, rest, h); }
    } else {
      BumpedSame(n.children[0], c.priority, c.maxParams);
      WildcardConflict(n.children[0], rest, v);
    }
  }

  lemma {:induction false} BelowParam(n: Node, rest: string, w: nat, h: Handle, v: Version)
    requires Body(n) && n.kind == Kind.Param && |n.children| == 1 && v.r1 && v.r3
    requires rest != "" && rest[0] == '/' && w == Wild(rest) <= 255 && n.maxParams >= 1 + w
    ensures var r := AddBelow(n, rest, w, h, v);
      (r.Some? <==> ValidRest(rest) && AdmitsKids(v, n, rest)) &&
      (r.Some? ==> AddedBelow(n, r.value, rest, h))
    decreases |rest|, n.children, 0
  {
    hide AddAt, Added, AddedBelow, Count, CountAll, Admits;
    var c := n.children[0].(priority := n.children[0].priority + 1);
    Bumped(n.children[0], n.children[0].maxParams);
    OneKidAdmits(v, n, c, rest);
    AddAtSpec(c, rest, w, h, v);
    if AddAt(c, rest, w, h, v).Some? { OnlyKidAdded(n, c, AddAt(c, rest, w, h, v).value, rest, h); }
  }

  lemma {:induction false} BelowIndex(n: Node, rest: string, idx: nat, w: nat, h: Handle, v: Version)
    requires Body(n) && n.kind in {Static, Root} && !n.wildChild && v.r1 && v.r3
    requires rest != "" && w == Wild(rest) <= 255 && idx == IndexOf(n.indices, rest[0]) < |n.indices|
    ensures var r := AddBelow(n, rest, w, h, v);
      (r.Some? <==> ValidRest(rest) && AdmitsKids(v, n, rest)) &&
      (r.Some? ==> AddedBelow(n, r.value, rest, h))
    decreases |rest|, n.children, 0
  {
    hide AddAt, Added, AddedBelow, Count, CountAll, Admits, MoveLeft, MoveIndex, NewPos;
    var c := n.children[idx].(priority := n.children[idx].priority + 1);
    Bumped(n.children[idx], n.children[idx].maxParams);
    BumpedSame(n.children[idx], c.priority, c.maxParams);
    IndexAdmits(n, idx, rest, v);
    AddAtSpec(c, rest, w, h, v);
    if AddAt(c, rest, w, h, v).Some? { KidAdded(n, idx, AddAt(c, rest, w, h, v).value, rest, h, v); }
  }

  /** The walk of addRoute at n: who is let in, and what becomes of n. */
  lemma {:induction false} AddAtSpec(n: Node, path: string, w: nat, h: Handle, v: Version)
    requires Pending(n) && Entry(n, path) && v.r1 && v.r3
    requires w + (if n.kind == Kind.Param then 1 else 0) == Wild(path) <= 255
    requires n.kind == Kind.Param ==> n.maxParams >= Wild(path)
    ensures AddAt(n, path, w, h, v).Some? <==> ValidRest(path) && AdmitsAll(v, n, path)
    ensures AddAt(n, path, w, h, v).Some? ==> Added(n, AddAt(n, path, w, h, v).value, path, h)
    decreases |path|, n.children, 3
  {
    hide AddAt, AddBelow, Count, CountAll;
    Steps.TurnAt(n, path, w, h, v);
    var i := Lcp(path, n.path);
    var n1 := Cut(n, i, w);
    CutSpec(n, i, w);
    assert AdmitsAll(v, n1, path) <==> AdmitsAll(v, n, path);
    if n.kind == CatchAll {
      assert i == 0 && path[0..] == path;
      WrapperRefuses(n1, path, w, h, v);
    } else if i == |path| {
      assert n1.path == path && path[i..] == "";
      EndsInside(n1, w, h, v);
    } else {
      assert path == n1.path + path[i..];
      WildOf(n1, path[i..]);
      GoesOn(n1, path[i..], w, h, v);
    }
  }

  lemma WrapperRefuses(n: Node, path: string, w: nat, h: Handle, v: Version)
    requires Pending(n) && n.kind == CatchAll && n.wildChild && path != "" && path[0] == '/'
    ensures AddBelow(n, path, w, h, v).None? && !AdmitsAll(v, n, path)
  {
    var q, g := AnyRoute(n);
    FirstByte(n, q, g);
    assert q[..2][0] == '/' && q[..2][1] == '*';
    assert !Compatible(path, q);
  }

  /** The path ends with the text of n. */
  lemma EndsInside(n: Node, w: nat, h: Handle, v: Version)
    requires Pending(n) && n.kind != CatchAll && n.path != ""
    ensures ValidRest(n.path)
    ensures n.handle.Some? ==> !AdmitsAll(v, n, n.path)
    ensures n.handle.None? ==> (AdmitsAll(v, n, n.path) <==> v.r2)
    ensures n.handle.None? ==> Added(n, n.(handle := Some(h)), n.path, h)
    ensures n.handle.None? ==> AddBelow(n.(handle := Some(h)), "", w, h, v).None?
  {
    assert n.path + "" == n.path;
    ValidNodeStrip(n, "");
    if n.handle.Some? {
      assert Here(n, n.path, n.handle.value) && Has(n, n.path, n.handle.value);
      NodeStrip(n, "", n.path, n.handle.value, v);
      assert n.path[|n.path|..] == "";
    } else {
      forall q, g | Has(n, q, g) ensures Admits(v, n.path, q) <==> v.r2 {
        NodeStrip(n, "", q, g, v);
        assert InKids(n.children, q[|n.path|..], g);
        var j :| 0 <= j < |n.children| && Has(n.children[j], q[|n.path|..], g);
        KidSeam(n, j, q[|n.path|..], g);
      }
      var q, g := AnyRoute(n);
      LeafAdded(n, h);
      if n.wildChild { assert WF(n.children[0]) && Body(n.children[0]); }
    }
  }

  lemma LeafAdded(n: Node, h: Handle)
    requires Pending(n) && n.kind != CatchAll && n.path != "" && n.handle.None?
    ensures Added(n, n.(handle := Some(h)), n.path, h)
  {
    var n' := n.(handle := Some(h));
    forall q, g ensures Has(n', q, g) <==> Has(n, q, g) || (q == n.path && g == h) {}
    forall k | Fits(n, k) ensures Fits(n', k) {}
    if n.kind == Kind.Param { assert Fits(n', n.maxParams); }
    assert Shape(n');
  }

  /** The path goes on below the text of n. */
  lemma {:induction false} GoesOn(n: Node, rest: string, w: nat, h: Handle, v: Version)
    requires Pending(n) && n.kind != CatchAll && v.r1 && v.r3
    requires rest != "" && (n.kind == Kind.Param ==> rest[0] == '/') && (n.path == "" ==> rest[0] == '/')
    requires w == Wild(rest) && Wild(n.path + rest) <= 255
    requires n.kind == Kind.Param ==> n.maxParams >= Wild(n.path + rest)
    ensures var r := AddBelow(n, rest, w, h, v);
      (r.Some? <==> ValidRest(n.path + rest) && AdmitsAll(v, n, n.path + rest)) &&
      (r.Some? ==> Added(n, r.value, n.path + rest, h))
    decreases |rest|, n.children, 2
  {
    hide AddBelow, Count, CountAll, Fits, Added, AddedBelow;
    var r := AddBelow(n, rest, w, h, v);
    WildOf(n, rest);
    AddBelowSpec(n, rest, w, h, v);
    if rest[0] == '*' {
      if Seam(n.path, rest) {
        ValidNodeStrip(n, rest);
      } else {
        var q, g := AnyRoute(n);
        SeamConflict(n.path, rest, q[|n.path|..]);
        assert q == n.path + q[|n.path|..];
      }
    } else {
      ValidNodeStrip(n, rest);
      OwnRouteAdmits(n, rest, v);
      if r.Some? { AddedUp(n, r.value, rest, h); }
    }
  }

  /** n's own route lets everything pass; its routes below decide. */
  lemma OwnRouteAdmits(n: Node, rest: string, v: Version)
    requires Body(n) && n.kind != CatchAll && rest != "" && Seam(n.path, rest)
    requires n.kind == Kind.Param ==> rest[0] == '/'
    ensures AdmitsAll(v, n, n.path + rest) <==> AdmitsKids(v, n, rest)
  {
    forall q, g | Has(n, q, g)
      ensures Admits(v, n.path + rest, q) == Admits(v, rest, q[|n.path|..])
        && (InKids(n.children, q[|n.path|..], g) || Admits(v, rest, q[|n.path|..])) {
      NodeStrip(n, rest, q, g, v);
    }
    forall y, g | InKids(n.children, y, g) ensures Has(n, n.path + y, g) && (n.path + y)[|n.path|..] == y {
      assert (n.path + y)[|n.path|..] == y;
    }
  }

  lemma AddedUp(n: Node, n': Node, rest: string, h: Handle)
    requires Pending(n) && AddedBelow(n, n', rest, h) && n.kind != CatchAll
    ensures Added(n, n', n.path + rest, h)
  {
    forall q, g ensures Has(n', q, g) <==> Has(n, q, g) || (q == n.path + rest && g == h) {
      if n.path <= q {
        assert q == n.path + q[|n.path|..];
      }
    }
    WildOf(n, rest);
  }
}

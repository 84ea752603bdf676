/**
  The case-insensitive search of core/tree.go (fpRec, without slash fixing) on ASCII text: what it
  finds is there, and which routes it is sure to find.

  On ASCII text the four rune bytes rb are one byte and three zeroes; `rb` is that first byte.
*/
module CaseSearch {
  import opened Options
  import opened Ascii
  import opened Patterns
  import opened RouteTree
  import opened Routes
  import opened Insertion
  import opened Walk

  predicate FoldChar(a: char, b: char) {
    ToLower(a) == ToLower(b)
  }

  /** strings.EqualFold on ASCII text. */
  predicate EqualFold(a: string, b: string) {
    |a| == |b| && forall i :: 0 <= i < |a| ==> FoldChar(a[i], b[i])
  }

  /** shiftNRuneBytes on the first rune byte, the others being zero. */
  function ShiftRune(rb: char, n: nat): char {
    if n == 0 then rb else '\0'
  }

  /** The loop condition of fpRec: the first byte has been compared by whoever chose this node. */
  predicate TextFits(n: Node, path: string) {
    |path| >= |n.path| && (n.path == "" || EqualFold(path[1..|n.path|], n.path[1..]))
  }

  /** fpRec: the corrected path so far extended by what was found, and whether a handle was reached. */
  function FpRec(n: Node, path: string, ci: string, rb: char): (string, bool)
    requires Body(n) && Walked(n)
    decreases n
  {
    if !TextFits(n, path) then (ci, false)
    else
      var rest, ci' := path[|n.path|..], ci + n.path;
      if rest == "" then (ci', n.handle.Some?)
      else if n.wildChild then
        assert WF(n.children[0]) && Body(n.children[0]);
        FpWild(n.children[0], rest, ci', rb)
      else
        var rb' := ShiftRune(rb, |n.path|);
        if rb' != '\0' then FpAt(n, IndexOf(n.indices, rb'), rest, ci', rb')
        else
          var rv := if n.path == "" then '\0' else rest[0];
          var lo, up := ToLower(rv), ToUpper(rv);
          var low := FpAt(n, IndexOf(n.indices, lo), rest, ci', lo);
          if low.1 || up == lo then (if low.1 then low else (ci', false))
          else FpAt(n, IndexOf(n.indices, up), rest, ci', up)
  }

  /** On to the child at index i, if there is one. */
  function FpAt(n: Node, i: nat, rest: string, ci: string, rb: char): (string, bool)
    requires Body(n) && n.kind in {Static, Root} && !n.wildChild && i <= |n.indices|
    decreases n, 0
  {
    if i == |n.indices| then (ci, false)
    else
      assert WF(n.children[i]) && IndexFits(n.children[i], n.indices[i]);
      FpRec(n.children[i], rest, ci, rb)
  }

  /** The wildcard child takes its part of the rest as it is. */
  function FpWild(n: Node, rest: string, ci: string, rb: char): (string, bool)
    requires Body(n) && (n.kind == Kind.Param || (n.kind == CatchAll && !n.wildChild))
    decreases n, 0
  {
    if n.kind == CatchAll then (ci + rest, true)
    else
      var k := SegEnd(rest);
      var ci' := ci + rest[..k];
      if k == |rest| then (ci', n.handle.Some?)
      else if n.children == [] then (ci', false)
      else
        assert WF(n.children[0]);
        FpRec(n.children[0], rest[k..], ci', rb)
  }

  // ------------------------------------------------------------------ what is found is there

  /** What whoever chose n has compared: the first byte, up to case. */
  predicate FirstFits(n: Node, path: string) {
    path != "" && if n.path == "" then path[0] == '/' else FoldChar(path[0], n.path[0])
  }

  /** The current byte with which child i of n is entered. */
  function KidByte(n: Node, i: nat, rb: char): char {
    if n.wildChild || n.kind == Kind.Param || i >= |n.indices| then rb else n.indices[i]
  }

  /**
    The search can get from n, entered with current byte rb, to the node that holds route pat with
    handle h: where it comes to a node without text above a catch-all, the current byte is '/'.
  */
  ghost predicate Seen(n: Node, pat: string, h: Handle, rb: char)
    decreases n
  {
    && n.path <= pat && (n.path == "" && n.kind != CatchAll ==> rb == '/')
    && (Here(n, pat, h)
        || exists i :: 0 <= i < |n.children| && Seen(n.children[i], pat[|n.path|..], h, KidByte(n, i, rb)))
  }

  lemma {:induction false} SeenHas(n: Node, pat: string, h: Handle, rb: char)
    requires Seen(n, pat, h, rb)
    ensures Has(n, pat, h)
    decreases n
  {
    if !Here(n, pat, h) {
      var i :| 0 <= i < |n.children| && Seen(n.children[i], pat[|n.path|..], h, KidByte(n, i, rb));
      SeenHas(n.children[i], pat[|n.path|..], h, KidByte(n, i, rb));
    }
  }

  /** A route seen below n is seen from n. */
  lemma SeenUp(n: Node, i: nat, r: string, h: Handle, rb: char)
    requires i < |n.children| && Seen(n.children[i], r, h, KidByte(n, i, rb))
    requires n.path == "" && n.kind != CatchAll ==> rb == '/'
    ensures Seen(n, n.path + r, h, rb)
  {
    assert (n.path + r)[|n.path|..] == r;
  }

  /** path with pattern p's own spelling of its literal parts; the values of wildcards stay as they are. */
  function Respell(p: string, path: string): string
    decreases |p|
  {
    if p == "" || path == "" then ""
    else if p[0] == ':' then path[..SegEnd(path)] + Respell(p[SegEnd(p)..], path[SegEnd(path)..])
    else if StartsCatchAll(p) then path
    else [p[0]] + Respell(p[1..], path[1..])
  }

  lemma RespellOne(p: string, x: string)
    requires p != "" && x != "" && p[0] != ':' && !StartsCatchAll(p)
    ensures Respell(p, x) == [p[0]] + Respell(p[1..], x[1..])
  {
  }

  lemma {:induction false} RespellStrip(s: string, r: string, x: string)
    requires NoWild(s) && Seam(s, r) && |s| <= |x|
    ensures Respell(s + r, x) == s + Respell(r, x[|s|..])
  {
    if s == "" {
      assert s + r == r && x[|s|..] == x;
    } else {
      var s', p := s[1..], s + r;
      assert p[0] == s[0] && p[1..] == s' + r && !IsWild(s[0]) && !StartsCatchAll(p);
      RespellStrip(s', r, x[1..]);
      RespellOne(p, x);
      hide Respell, NoWild, Seam;
      assert x[|s|..] == x[1..][|s'|..];
      assert s == [s[0]] + s';
    }
  }

  lemma RespellParam(seg: string, r: string, val: string, rest: string)
    requires |seg| >= 2 && seg[0] == ':' && '/' !in seg && (r == "" || r[0] == '/')
    requires '/' !in val && (rest == "" || rest[0] == '/') && val + rest != ""
    ensures Respell(seg + r, val + rest) == val + Respell(r, rest)
  {
    SegEndAt(seg, r);
    SegEndAt(val, rest);
    assert (seg + r)[|seg|..] == r && (val + rest)[..|val|] == val && (val + rest)[|val|..] == rest;
  }

  /** o is the spelling of path by route pat of n, with some handle; pat matches it, and the search sees that route. */
  ghost predicate Spelling(n: Node, path: string, pat: string, o: string, rb: char) {
    EqualFold(o, path) && Match(pat, o).Some? && o == Respell(pat, path) && exists h :: Seen(n, pat, h, rb)
  }

  lemma FoldJoin(a: string, b: string, c: string, d: string)
    requires EqualFold(a, c) && EqualFold(b, d)
    ensures EqualFold(a + b, c + d)
  {
  }

  lemma TextFolds(n: Node, path: string)
    requires TextFits(n, path) && (n.path != "" ==> FirstFits(n, path))
    ensures EqualFold(n.path, path[..|n.path|])
  {
    var p := path[..|n.path|];
    forall i | 0 <= i < |n.path| ensures FoldChar(n.path[i], p[i]) {
      if i > 0 { assert FoldChar(path[1..|n.path|][i - 1], n.path[1..][i - 1]); }
    }
  }

  /** The spelling of a path by a route below n, the path going on behind the text of n. */
  lemma RespellAt(n: Node, i: nat, path: string, r: string, h: Handle)
    requires Body(n) && Walked(n) && i < |n.children| && Has(n.children[i], r, h) && |n.path| <= |path|
    ensures Respell(n.path + r, path) == n.path + Respell(r, path[|n.path|..])
  {
    if n.kind == CatchAll {
      assert n.path + r == r && path[0..] == path;
    } else {
      KidSeam(n, i, r, h);
      RespellStrip(n.path, r, path);
    }
  }

  /** A spelling found below n is one for n. */
  lemma Lifted(n: Node, i: nat, path: string, rest: string, r: string, y: string, rb: char)
    requires Body(n) && Walked(n) && i < |n.children| && Spelling(n.children[i], rest, r, y, KidByte(n, i, rb))
    requires n.path == "" && n.kind != CatchAll ==> rb == '/'
    requires |n.path| <= |path| && path[|n.path|..] == rest && EqualFold(n.path, path[..|n.path|])
    ensures Spelling(n, path, n.path + r, n.path + y, rb)
  {
    var h :| Seen(n.children[i], r, h, KidByte(n, i, rb));
    SeenHas(n.children[i], r, h, KidByte(n, i, rb));
    SeenUp(n, i, r, h, rb);
    assert (n.path + r)[|n.path|..] == r && (n.path + y)[|n.path|..] == y;
    assert InKids(n.children, r, h) && Has(n, n.path + r, h);
    if n.kind == CatchAll {
      assert n.path + r == r && n.path + y == y;
    } else {
      MatchAt(n, n.path + r, h, n.path + y);
    }
    RespellAt(n, i, path, r, h);
    FoldJoin(n.path, y, path[..|n.path|], rest);
    assert path == path[..|n.path|] + rest;
  }

  /** The byte fpRec looks for among the indices, in the branch it takes. */
  predicate Sought(n: Node, rest: string, rb: char, b: char)
    requires rest != ""
  {
    if ShiftRune(rb, |n.path|) != '\0' then b == ShiftRune(rb, |n.path|)
    else if n.path == "" then b == '\0'
    else b == ToLower(rest[0]) || b == ToUpper(rest[0])
  }

  lemma ChildFirst(n: Node, path: string, rest: string, rb: char, b: char, i: nat)
    requires Body(n) && n.kind in {Static, Root} && !n.wildChild && FirstFits(n, path)
    requires |n.path| < |path| && rest == path[|n.path|..] && i < |n.indices| && n.indices[i] == b
      && Sought(n, rest, rb, b)
    ensures WF(n.children[i]) && Walked(n.children[i]) && FirstFits(n.children[i], rest)
  {
    var c := n.children[i];
    assert IndexFits(c, b) && WF(c);
    EmptyText(n);
  }

  /** A node with a handle whose text is the path up to case. */
  lemma TextSpelling(n: Node, path: string, rb: char)
    requires Body(n) && Walked(n) && FirstFits(n, path) && n.handle.Some?
    requires |path| == |n.path| && EqualFold(n.path, path)
    ensures Spelling(n, path, n.path, n.path, rb)
  {
    hide Respell, EqualFold, Match, Count, CountAll, Fits;
    assert Here(n, n.path, n.handle.value) && Seen(n, n.path, n.handle.value, rb);
    MatchStrip(n.path, "", n.path);
    RespellStrip(n.path, "", path);
    assert n.path + "" == n.path && path[|n.path|..] == "" && n.path[|n.path|..] == "";
    assert Match("", "").Some? by { EmptyMatch(); }
    assert Respell("", "") == "" by { EmptyMatch(); }
  }

  lemma EmptyMatch()
    ensures Match("", "") == Some([]) && Respell("", "") == ""
  {
  }

  lemma {:induction false} FpSound(n: Node, path: string, ci: string, rb: char) returns (pat: string, o: string)
    requires Body(n) && Walked(n) && FirstFits(n, path)
    ensures FpRec(n, path, ci, rb).1 ==> FpRec(n, path, ci, rb).0 == ci + o && Spelling(n, path, pat, o, rb)
    decreases n, 1
  {
    hide FpRec, Spelling, EqualFold, TextFits, Body, Walked;
    pat, o := "", "";
    if FpRec(n, path, ci, rb).1 {
      FpText(n, path, ci, rb);
      var rest := path[|n.path|..];
      if rest == "" {
        pat, o := n.path, n.path;
        TextSpelling(n, path, rb);
      } else {
        var r, y := FpSoundBelow(n, path, rest, ci, rb);
        pat, o := n.path + r, n.path + y;
        assert ci + n.path + y == ci + o;
      }
    }
  }

  /** What is found has the text of n in front. */
  lemma FpText(n: Node, path: string, ci: string, rb: char)
    requires Body(n) && Walked(n) && FirstFits(n, path) && FpRec(n, path, ci, rb).1
    ensures TextFits(n, path) && |n.path| <= |path| && EqualFold(n.path, path[..|n.path|])
    ensures |n.path| == |path| ==>
      n.handle.Some? && FpRec(n, path, ci, rb).0 == ci + n.path && EqualFold(n.path, path)
  {
    TextFolds(n, path);
    if |n.path| == |path| { assert path[..|n.path|] == path; }
  }

  lemma {:induction false} FpSoundBelow(n: Node, path: string, rest: string, ci: string, rb: char)
    returns (r: string, y: string)
    requires Body(n) && Walked(n) && FirstFits(n, path) && TextFits(n, path) && FpRec(n, path, ci, rb).1
    requires |n.path| < |path| && rest == path[|n.path|..] && EqualFold(n.path, path[..|n.path|])
    ensures FpRec(n, path, ci, rb).0 == ci + n.path + y && Spelling(n, path, n.path + r, n.path + y, rb)
    decreases n, 0
  {
    var ci' := ci + n.path;
    if n.wildChild {
      assert WF(n.children[0]);
      r, y := FpWildSound(n.children[0], rest, ci', rb);
      Lifted(n, 0, path, rest, r, y, rb);
    } else {
      var rb' := ShiftRune(rb, |n.path|);
      var lo := if n.path == "" then '\0' else ToLower(rest[0]);
      var low := FpAt(n, IndexOf(n.indices, lo), rest, ci', lo);
      var b := if rb' != '\0' then rb' else if low.1 then lo else ToUpper(rest[0]);
      var i := IndexOf(n.indices, b);
      EmptyText(n);
      assert FpRec(n, path, ci, rb) == FpAt(n, i, rest, ci', b);
      ChildFirst(n, path, rest, rb, b, i);
      r, y := FpSound(n.children[i], rest, ci', b);
      Lifted(n, i, path, rest, r, y, rb);
    }
  }

  lemma {:induction false} FpWildSound(n: Node, rest: string, ci: string, rb: char) returns (r: string, y: string)
    requires Body(n) && (n.kind == Kind.Param || (n.kind == CatchAll && !n.wildChild)) && rest != ""
    requires FpWild(n, rest, ci, rb).1 && (n.kind == CatchAll ==> rest[0] == '/')
    ensures FpWild(n, rest, ci, rb).0 == ci + y && Spelling(n, rest, r, y, rb)
    decreases n
  {
    hide Spelling, Seen, Has, Match, Fits, Count, CountAll, FpRec, EqualFold, Respell;
    r, y := n.path, rest;
    if n.kind == CatchAll {
      HolderSpelling(n, rest, rb);
    } else {
      var k := SegEnd(rest);
      if k == |rest| {
        assert rest[..k] == rest;
        ParamSpelling(n, rest, rb);
      } else {
        var c := n.children[0];
        assert WF(c) && Body(c);
        ParamChildFirst(n, rest, k);
        var r', y' := FpSound(c, rest[k..], ci + rest[..k], rb);
        r, y := n.path + r', rest[..k] + y';
        FpParamJoin(n, rest, k, r', y', rb);
        assert ci + rest[..k] + y' == ci + y;
      }
    }
  }

  lemma HolderSpelling(n: Node, rest: string, rb: char)
    requires Body(n) && n.kind == CatchAll && !n.wildChild && rest != "" && rest[0] == '/'
    ensures Spelling(n, rest, n.path, rest, rb)
  {
    var r := n.path;
    assert HolderShape(n) && Here(n, r, n.handle.value) && Seen(n, r, n.handle.value, rb);
    assert r[..2][0] == '/' && r[..2][1] == '*';
  }

  lemma ParamSpelling(n: Node, rest: string, rb: char)
    requires Body(n) && n.kind == Kind.Param && n.handle.Some? && rest != "" && SegEnd(rest) == |rest|
    ensures Spelling(n, rest, n.path, rest, rb)
  {
    assert Here(n, n.path, n.handle.value) && Seen(n, n.path, n.handle.value, rb);
    ParamMatch(n.path, "", rest);
    assert n.path + "" == n.path && rest[|rest|..] == "" && rest + "" == rest;
    RespellParam(n.path, "", rest, "");
  }

  lemma ParamChildFirst(n: Node, rest: string, k: nat)
    requires Body(n) && n.kind == Kind.Param && |n.children| == 1 && k == SegEnd(rest) < |rest|
    ensures Walked(n.children[0]) && FirstFits(n.children[0], rest[k..])
  {
    assert IndexFits(n.children[0], '/');
  }

  lemma FpParamJoin(n: Node, rest: string, k: nat, r: string, y: string, rb: char)
    requires Body(n) && n.kind == Kind.Param && |n.children| == 1 && k == SegEnd(rest) < |rest|
    requires Spelling(n.children[0], rest[k..], r, y, rb)
    ensures Spelling(n, rest, n.path + r, rest[..k] + y, rb)
  {
    hide Respell, Count, CountAll, Fits;
    var h :| Seen(n.children[0], r, h, rb);
    SeenHas(n.children[0], r, h, rb);
    SeenUp(n, 0, r, h, rb);
    assert WF(n.children[0]) && Body(n.children[0]);
    FirstByte(n.children[0], r, h);
    assert FoldChar(y[0], rest[k..][0]) && y[0] == '/';
    ParamJoinMatch(n.path, r, rest[..k], y);
    FoldJoin(rest[..k], y, rest[..k], rest[k..]);
    assert rest == rest[..k] + rest[k..];
    RespellParam(n.path, r, rest[..k], rest[k..]);
  }

  lemma ParamJoinMatch(seg: string, r: string, val: string, y: string)
    requires |seg| >= 2 && seg[0] == ':' && '/' !in seg && r != "" && r[0] == '/'
    requires '/' !in val && y != "" && y[0] == '/' && Match(r, y).Some?
    ensures Match(seg + r, val + y).Some?
  {
    SegEndAt(val, y);
    assert (val + y)[|val|..] == y;
    ParamMatch(seg, r, val + y);
  }

  /** findCaseInsensitivePath without slash fixing. */
  function FindCaseInsensitivePath(t: Node, path: string): (string, bool)
    requires Tree(t) && t != EMPTY
  {
    FpRec(t, path, "", '\0')
  }

  /** A corrected path differs from the path in case only, and looking it up finds a route. */
  lemma CaseSearchSound(t: Node, path: string)
    requires Tree(t) && t != EMPTY && path != "" && path[0] == '/'
    ensures var (out, found) := FindCaseInsensitivePath(t, path);
      found ==> EqualFold(out, path) && GetValue(t, out, Nil).Found?
  {
    var (out, found) := FindCaseInsensitivePath(t, path);
    var pat, o := FpSound(t, path, "", '\0');
    if found {
      assert "" + o == o;
      LookupFinds(t, path, pat, o, '\0');
    }
  }

  lemma LookupFinds(t: Node, path: string, pat: string, o: string, rb: char)
    requires Tree(t) && t != EMPTY && Spelling(t, path, pat, o, rb)
    ensures GetValue(t, o, Nil).Found?
  {
    var h :| Seen(t, pat, h, rb);
    SeenHas(t, pat, h, rb);
    GetValueComplete(t, pat, h, o, Nil, MAX_PARAM_COUNT);
  }

  // ------------------------------------------------------------------ what is sure to be found

  /** Pattern p matches path x up to the case of its literal parts. */
  predicate MatchFold(p: string, x: string)
    decreases |p|
  {
    if p == "" then x == ""
    else if x == "" then false
    else if p[0] == ':' then MatchFold(p[SegEnd(p)..], x[SegEnd(x)..])
    else if StartsCatchAll(p) then x[0] == '/'
    else FoldChar(p[0], x[0]) && MatchFold(p[1..], x[1..])
  }

  /** No catch-all stands directly behind a parameter of p. */
  predicate Findable(p: string)
    decreases |p|
  {
    if p == "" then true
    else if p[0] == ':' then !StartsCatchAll(p[SegEnd(p)..]) && Findable(p[SegEnd(p)..])
    else if StartsCatchAll(p) then true
    else Findable(p[1..])
  }

  lemma {:induction false} FoldStrip(s: string, r: string, x: string)
    requires NoWild(s) && Seam(s, r)
    ensures MatchFold(s + r, x) <==> |s| <= |x| && EqualFold(s, x[..|s|]) && MatchFold(r, x[|s|..])
    ensures Findable(s + r) == Findable(r)
  {
    if s == "" {
      assert s + r == r && x[|s|..] == x;
    } else {
      var s', p := s[1..], s + r;
      assert p[0] == s[0] && p[1..] == s' + r && !IsWild(s[0]) && !StartsCatchAll(p);
      hide EqualFold;
      if x != "" {
        FoldStrip(s', r, x[1..]);
        FoldHead(s, x);
      } else {
        FoldStrip(s', r, x);
      }
    }
  }

  lemma FoldHead(s: string, x: string)
    requires s != "" && x != ""
    ensures |s| <= |x| ==> (EqualFold(s, x[..|s|]) <==> FoldChar(s[0], x[0]) && EqualFold(s[1..], x[1..][..|s| - 1]))
    ensures |s| <= |x| ==> x[|s|..] == x[1..][|s| - 1..]
  {
    if |s| <= |x| {
      assert forall i :: 1 <= i < |s| ==> s[1..][i - 1] == s[i] && x[1..][..|s| - 1][i - 1] == x[..|s|][i];
      if FoldChar(s[0], x[0]) && EqualFold(s[1..], x[1..][..|s| - 1]) {
        forall i | 0 <= i < |s| ensures FoldChar(s[i], x[..|s|][i]) {
          if i > 0 { assert FoldChar(s[1..][i - 1], x[1..][..|s| - 1][i - 1]); }
        }
      }
      if EqualFold(s, x[..|s|]) {
        forall i | 0 <= i < |s| - 1 ensures FoldChar(s[1..][i], x[1..][..|s| - 1][i]) {
          assert FoldChar(s[i + 1], x[..|s|][i + 1]);
        }
      }
    }
  }

  lemma FoldAt(n: Node, pat: string, h: Handle, path: string)
    requires Body(n) && n.kind in {Static, Root} && Has(n, pat, h) && MatchFold(pat, path)
    ensures |n.path| <= |path| && TextFits(n, path) && MatchFold(pat[|n.path|..], path[|n.path|..])
  {
    hide EqualFold, TextFits, MatchFold, Findable, Count, CountAll, Fits;
    TextAhead(n, pat, h);
    FoldStrip(n.path, pat[|n.path|..], path);
    FoldedText(n, path);
  }

  /** The text of n is in front of its routes, without cutting a catch-all apart. */
  lemma TextAhead(n: Node, pat: string, h: Handle)
    requires Body(n) && n.kind in {Static, Root} && Has(n, pat, h)
    ensures n.path <= pat && NoWild(n.path) && pat == n.path + pat[|n.path|..] && Seam(n.path, pat[|n.path|..])
  {
    var y := pat[|n.path|..];
    if !Here(n, pat, h) {
      var i :| 0 <= i < |n.children| && Has(n.children[i], y, h);
      KidSeam(n, i, y, h);
    }
  }

  lemma FoldedText(n: Node, path: string)
    requires |n.path| <= |path| && EqualFold(n.path, path[..|n.path|])
    ensures TextFits(n, path)
  {
    if n.path != "" {
      forall i | 0 <= i < |n.path| - 1 ensures FoldChar(path[1..|n.path|][i], n.path[1..][i]) {
        assert FoldChar(n.path[i + 1], path[..|n.path|][i + 1]);
      }
    }
  }

  lemma {:induction false} FpWildComplete(n: Node, pat: string, h: Handle, rest: string, ci: string, rb: char)
    requires Body(n) && n.kind == Kind.Param && Seen(n, pat, h, rb) && MatchFold(pat, rest)
    ensures FpWild(n, rest, ci, rb).1
    decreases n
  {
    var y := pat[|n.path|..];
    SeenHas(n, pat, h, rb);
    FirstByte(n, pat, h);
    assert pat == n.path + y;
    SegEndAt(n.path, y);
    var k := SegEnd(rest);
    if Here(n, pat, h) {
      assert y == "" && rest[k..] == "";
    } else {
      var i :| 0 <= i < |n.children| && Seen(n.children[i], y, h, rb);
      SeenHas(n.children[i], y, h, rb);
      KidSeam(n, i, y, h);
      var c := n.children[0];
      assert WF(c) && Body(c) && k < |rest|;
      FpComplete(c, y, h, rest[k..], ci + rest[..k], rb);
    }
  }

  lemma {:induction false} FpKidComplete(n: Node, i: nat, y: string, h: Handle, path: string, rest: string,
      ci: string, rb: char)
    requires Body(n) && n.kind in {Static, Root} && !n.wildChild && i < |n.children|
      && Seen(n.children[i], y, h, n.indices[i])
    requires TextFits(n, path) && rest == path[|n.path|..] && y != "" && MatchFold(y, rest)
      && (n.path == "" ==> rb == '/')
    ensures FpRec(n, path, ci, rb).1
    decreases n, 0
  {
    hide EqualFold, TextFits, Count, CountAll, Fits, Findable;
    var c, b, ci' := n.children[i], n.indices[i], ci + n.path;
    assert WF(c) && Body(c) && IndexFits(c, b);
    SeenHas(c, y, h, b);
    KidSeam(n, i, y, h);
    IndexByte(n, i);
    assert IndexOf(n.indices, b) == i;
    assert FoldChar(b, rest[0]) && rest != "";
    FpComplete(c, y, h, rest, ci', b);
    FpThrough(n, i, path, ci, rb);
  }

  /** A child that is found under its index byte, which is the next byte up to case, is found from n. */
  lemma FpThrough(n: Node, i: nat, path: string, ci: string, rb: char)
    requires Body(n) && n.kind in {Static, Root} && !n.wildChild && i < |n.children| && (n.path == "" ==> rb == '/')
    requires TextFits(n, path) && path[|n.path|..] != "" && IndexOf(n.indices, n.indices[i]) == i
    requires FoldChar(n.indices[i], path[|n.path|..][0]) && FpAt(n, i, path[|n.path|..], ci + n.path, n.indices[i]).1
    ensures FpRec(n, path, ci, rb).1
  {
    hide EqualFold, Count, CountAll, Fits, FpAt;
    EmptyText(n);
    var b, rv := n.indices[i], path[|n.path|..][0];
    assert b == ToLower(rv) || b == ToUpper(rv);
    if n.path != "" { assert ShiftRune(rb, |n.path|) == '\0'; }
  }

  /** A route that is seen and matches up to case is found. */
  lemma {:induction false} FpComplete(n: Node, pat: string, h: Handle, path: string, ci: string, rb: char)
    requires Body(n) && Walked(n) && Seen(n, pat, h, rb) && MatchFold(pat, path)
    ensures FpRec(n, path, ci, rb).1
    decreases n, 1
  {
    var y := pat[|n.path|..];
    SeenHas(n, pat, h, rb);
    if n.kind == CatchAll {
      FirstByte(n, pat, h);
      assert pat == y && path != "";
      assert WF(n.children[0]) && Has(n.children[0], y, h);
    } else {
      FoldAt(n, pat, h, path);
      var rest, ci' := path[|n.path|..], ci + n.path;
      if Here(n, pat, h) {
        assert y == "" && rest == "";
      } else {
        var i :| 0 <= i < |n.children| && Seen(n.children[i], y, h, KidByte(n, i, rb));
        SeenHas(n.children[i], y, h, KidByte(n, i, rb));
        KidSeam(n, i, y, h);
        assert WF(n.children[i]);
        if n.wildChild {
          FpWildComplete(n.children[0], y, h, rest, ci', rb);
        } else {
          FpKidComplete(n, i, y, h, path, rest, ci, rb);
        }
      }
    }
  }

  lemma FoldTail(o: string, x: string, k: nat)
    requires EqualFold(o, x) && k <= |o|
    ensures EqualFold(o[k..], x[k..])
  {
    forall i | 0 <= i < |o| - k ensures FoldChar(o[k..][i], x[k..][i]) { assert FoldChar(o[k + i], x[k + i]); }
  }

  lemma {:induction false} FoldSegEnd(o: string, x: string)
    requires EqualFold(o, x)
    ensures SegEnd(o) == SegEnd(x)
  {
    if o != "" {
      assert FoldChar(o[0], x[0]);
      FoldTail(o, x, 1);
      FoldSegEnd(o[1..], x[1..]);
    }
  }

  /** A pattern that matches some spelling of a path matches the path up to case. */
  lemma {:induction false} MatchFolds(p: string, o: string, x: string)
    requires EqualFold(o, x) && Match(p, o).Some?
    ensures MatchFold(p, x)
    decreases |p|
  {
    if p != "" {
      assert FoldChar(o[0], x[0]);
      if p[0] == ':' {
        FoldSegEnd(o, x);
        FoldTail(o, x, SegEnd(o));
        MatchFolds(p[SegEnd(p)..], o[SegEnd(o)..], x[SegEnd(x)..]);
      } else if !StartsCatchAll(p) {
        FoldTail(o, x, 1);
        MatchFolds(p[1..], o[1..], x[1..]);
      }
    }
  }

  /**
    On every tree, the search finds a path exactly if some route that it sees matches the path up to
    the case of the route's literal parts.
  */
  lemma CaseSearchExact(t: Node, path: string)
    requires Tree(t) && t != EMPTY && path != "" && path[0] == '/'
    ensures FindCaseInsensitivePath(t, path).1 <==> exists pat, h :: Seen(t, pat, h, '\0') && MatchFold(pat, path)
  {
    Start(t, path);
    hide Tree, Seen, MatchFold, FpRec, Body, Walked;
    if FindCaseInsensitivePath(t, path).1 {
      var pat, h := FoundRoute(t, path);
      assert Seen(t, pat, h, '\0') && MatchFold(pat, path);
    } else {
      forall pat, h ensures !(Seen(t, pat, h, '\0') && MatchFold(pat, path)) {
        if Seen(t, pat, h, '\0') && MatchFold(pat, path) { FpComplete(t, pat, h, path, "", '\0'); }
      }
    }
  }

  lemma FoundRoute(t: Node, path: string) returns (pat: string, h: Handle)
    requires Tree(t) && t != EMPTY && path != "" && path[0] == '/' && FindCaseInsensitivePath(t, path).1
    ensures Seen(t, pat, h, '\0') && MatchFold(pat, path)
  {
    Start(t, path);
    hide Tree, Seen, MatchFold, FpRec, Body, Walked, Match, EqualFold;
    var o;
    pat, o := FpSound(t, path, "", '\0');
    h :| Seen(t, pat, h, '\0');
    MatchFolds(pat, o, path);
  }

  lemma Start(t: Node, path: string)
    requires Tree(t) && t != EMPTY && path != "" && path[0] == '/'
    ensures Body(t) && Walked(t) && FirstFits(t, path)
  {
  }

  // ------------------------------------------------------------------ which spelling is found

  /** Where they first differ, o has a small letter and o' the capital one. */
  predicate Smaller(o: string, o': string) {
    exists k :: 0 <= k < |o| && k < |o'| && o[..k] == o'[..k] && o[k] == ToLower(o'[k]) && o[k] != o'[k]
  }

  predicate Preferred(o: string, o': string) {
    o == o' || Smaller(o, o')
  }

  lemma PreferredBehind(a: string, o: string, o': string)
    requires Preferred(o, o')
    ensures Preferred(a + o, a + o')
  {
    if o != o' {
      var k :| 0 <= k < |o| && k < |o'| && o[..k] == o'[..k] && o[k] == ToLower(o'[k]) && o[k] != o'[k];
      assert (a + o)[..|a| + k] == a + o[..k] && (a + o')[..|a| + k] == a + o'[..k];
      assert (a + o)[|a| + k] == o[k] && (a + o')[|a| + k] == o'[k];
    }
  }

  /** The child that the search ends in. */
  function Chosen(n: Node, rest: string, ci: string, rb: char): nat
    requires Body(n) && Walked(n) && n.kind in {Static, Root} && !n.wildChild && rest != ""
    ensures Chosen(n, rest, ci, rb) <= |n.indices|
  {
    var rb' := ShiftRune(rb, |n.path|);
    var lo := if n.path == "" then '\0' else ToLower(rest[0]);
    if rb' != '\0' then IndexOf(n.indices, rb')
    else if FpAt(n, IndexOf(n.indices, lo), rest, ci, lo).1 then IndexOf(n.indices, lo)
    else IndexOf(n.indices, ToUpper(rest[0]))
  }

  /** What is found from n is found from the chosen child, which is the small letter's if that one finds anything. */
  lemma ChosenFinds(n: Node, path: string, ci: string, rb: char)
    requires Body(n) && Walked(n) && FirstFits(n, path) && FpRec(n, path, ci, rb).1
    requires n.kind in {Static, Root} && !n.wildChild && |n.path| < |path|
    ensures var rest, ci' := path[|n.path|..], ci + n.path;
      var j := Chosen(n, rest, ci', rb);
      && j < |n.children| == |n.indices| && WF(n.children[j]) && Walked(n.children[j])
      && FirstFits(n.children[j], rest) && FpRec(n, path, ci, rb) == FpRec(n.children[j], rest, ci', n.indices[j])
      && (n.path != "" ==> (n.indices[j] == ToLower(rest[0]) || n.indices[j] == ToUpper(rest[0])))
      && (n.path != "" && n.indices[j] != ToLower(rest[0]) ==>
          !FpAt(n, IndexOf(n.indices, ToLower(rest[0])), rest, ci', ToLower(rest[0])).1)
  {
    hide EqualFold, Count, CountAll, Fits;
    var rest, ci' := path[|n.path|..], ci + n.path;
    var j := Chosen(n, rest, ci', rb);
    EmptyText(n);
    assert j < |n.indices|;
    ChildFirst(n, path, rest, rb, n.indices[j], j);
  }

  lemma MatchHead(r: string, o: string)
    requires r != "" && r[0] != ':' && Match(r, o).Some?
    ensures o != "" && o[0] == r[0]
  {
  }

  lemma RespellHead(y: string, rest: string)
    requires y != "" && y[0] != ':' && MatchFold(y, rest)
    ensures Respell(y, rest) != "" && Respell(y, rest)[0] == y[0] && rest != "" && FoldChar(y[0], rest[0])
  {
  }

  /** A route seen below child i, while the search ended in another child. */
  lemma OtherChild(n: Node, i: nat, y: string, h: Handle, path: string, ci: string, rb: char) returns (o: string)
    requires Body(n) && Walked(n) && FirstFits(n, path) && FpRec(n, path, ci, rb).1
    requires n.kind in {Static, Root} && !n.wildChild && |n.path| < |path| && i < |n.children|
    requires Seen(n.children[i], y, h, n.indices[i]) && MatchFold(y, path[|n.path|..])
    requires Chosen(n, path[|n.path|..], ci + n.path, rb) != i
    ensures FpRec(n, path, ci, rb).0 == ci + n.path + o && Smaller(o, Respell(y, path[|n.path|..]))
  {
    hide EqualFold, TextFits, Count, CountAll, Fits, Respell, MatchFold, FpRec, FpWild, Chosen, Match, InKids;
    var rest, ci' := path[|n.path|..], ci + n.path;
    var j := Chosen(n, rest, ci', rb);
    ChosenFinds(n, path, ci, rb);
    EmptyText(n);
    var c, d := n.children[i], n.children[j];
    assert WF(c) && Body(c) && IndexFits(c, n.indices[i]) && Body(d);
    SeenHas(c, y, h, n.indices[i]);
    KidSeam(n, i, y, h);
    RespellHead(y, rest);
    IndexByte(n, i);
    IndexByte(n, j);
    if n.indices[i] == ToLower(rest[0]) {
      assert IndexOf(n.indices, n.indices[i]) == i;
      FpComplete(c, y, h, rest, ci', n.indices[i]);
      assert false;
    }
    var r;
    r, o := FpSound(d, rest, ci', n.indices[j]);
    var h' :| Seen(d, r, h', n.indices[j]);
    SeenHas(d, r, h', n.indices[j]);
    KidSeam(n, j, r, h');
    MatchHead(r, o);
    assert o[..0] == Respell(y, rest)[..0];
    assert o[0] == ToLower(Respell(y, rest)[0]);
  }

  lemma Same(o: string)
    ensures Preferred(o, o)
  {
  }

  lemma SmallerFirst(o: string, o': string)
    requires Smaller(o, o')
    ensures Preferred(o, o')
  {
  }

  lemma EndsHere(rest: string)
    requires MatchFold("", rest)
    ensures rest == "" && Respell("", rest) == ""
  {
  }

  lemma RestLeft(y: string, rest: string)
    requires y != "" && MatchFold(y, rest)
    ensures rest != ""
  {
  }

  lemma SeenBelow(n: Node, pat: string, h: Handle, rb: char) returns (i: nat)
    requires Body(n) && Walked(n) && n.kind != CatchAll && Seen(n, pat, h, rb) && !Here(n, pat, h)
    ensures var y := pat[|n.path|..];
      && i < |n.children| && Seen(n.children[i], y, h, KidByte(n, i, rb)) && y != ""
      && WF(n.children[i]) && Body(n.children[i])
      && (n.wildChild ==> i == 0 && n.children[0].kind == Kind.Param && KidByte(n, 0, rb) == rb)
      && (!n.wildChild ==> KidByte(n, i, rb) == n.indices[i])
  {
    var y := pat[|n.path|..];
    i :| 0 <= i < |n.children| && Seen(n.children[i], y, h, KidByte(n, i, rb));
    SeenHas(n.children[i], y, h, KidByte(n, i, rb));
    KidSeam(n, i, y, h);
    assert WF(n.children[i]);
  }

  lemma ThroughWild(n: Node, path: string, ci: string, rb: char)
    requires Body(n) && Walked(n) && n.wildChild && TextFits(n, path) && |n.path| < |path|
    requires Body(n.children[0]) && n.children[0].kind == Kind.Param
    ensures FpRec(n, path, ci, rb) == FpWild(n.children[0], path[|n.path|..], ci + n.path, rb)
  {
    assert WF(n.children[0]) && Body(n.children[0]);
  }

  /** A catch-all takes the rest as it is. */
  lemma WrapperFirst(n: Node, pat: string, h: Handle, path: string, ci: string, rb: char) returns (o: string)
    requires Body(n) && n.kind == CatchAll && n.wildChild && Has(n, pat, h) && MatchFold(pat, path)
    ensures FpRec(n, path, ci, rb) == (ci + o, true) && Preferred(o, Respell(pat, path))
  {
    FirstByte(n, pat, h);
    assert StartsCatchAll(pat) by { assert pat[..2][0] == '/' && pat[..2][1] == '*'; }
    o := path;
    assert path[0..] == path && ci + "" == ci;
    assert WF(n.children[0]) && Body(n.children[0]);
  }

  lemma ThroughParam(n: Node, rest: string, ci: string, rb: char)
    requires Body(n) && n.kind == Kind.Param
    ensures var k := SegEnd(rest);
      && (k == |rest| ==> FpWild(n, rest, ci, rb) == (ci + rest, n.handle.Some?))
      && (k < |rest| && n.children != [] ==>
          && WF(n.children[0]) && Body(n.children[0]) && Walked(n.children[0]) && FirstFits(n.children[0], rest[k..])
          && FpWild(n, rest, ci, rb) == FpRec(n.children[0], rest[k..], ci + rest[..k], rb))
  {
    hide EqualFold, TextFits, Count, CountAll, Fits, FpRec;
    var k := SegEnd(rest);
    if k == |rest| { assert rest[..k] == rest; }
    if k < |rest| && n.children != [] {
      assert WF(n.children[0]);
      ParamChildFirst(n, rest, k);
    }
  }

  /** What the route of a parameter is behind it, and what that matches. */
  lemma BehindParam(n: Node, pat: string, h: Handle, rest: string, rb: char)
    requires Body(n) && n.kind == Kind.Param && Seen(n, pat, h, rb) && MatchFold(pat, rest) && rest != ""
    ensures var y, k := pat[|n.path|..], SegEnd(rest);
      && MatchFold(y, rest[k..]) && Respell(pat, rest) == rest[..k] + Respell(y, rest[k..])
      && (Here(n, pat, h) ==> y == "")
      && (!Here(n, pat, h) ==> y != "" && n.children != [] && Seen(n.children[0], y, h, rb))
  {
    hide EqualFold, TextFits, Count, CountAll, Fits, FpRec, FpWild, Respell, StaticShape, HolderShape, WrapperShape;
    var y, k := pat[|n.path|..], SegEnd(rest);
    SeenHas(n, pat, h, rb);
    FirstByte(n, pat, h);
    assert pat == n.path + y && rest == rest[..k] + rest[k..];
    SegEndAt(n.path, y);
    RespellParam(n.path, y, rest[..k], rest[k..]);
    if !Here(n, pat, h) {
      var i :| 0 <= i < |n.children| && Seen(n.children[i], y, h, rb);
      SeenHas(n.children[i], y, h, rb);
      KidSeam(n, i, y, h);
    }
  }

  /** A parameter takes its part of the rest as it is. */
  lemma {:induction false} FpWildFirst(n: Node, pat: string, h: Handle, rest: string, ci: string, rb: char)
    returns (o: string)
    requires Body(n) && n.kind == Kind.Param && Seen(n, pat, h, rb) && MatchFold(pat, rest) && rest != ""
    ensures FpWild(n, rest, ci, rb) == (ci + o, true) && Preferred(o, Respell(pat, rest))
    decreases n
  {
    hide Body, FpRec, FpWild, Preferred, Respell, Seen, MatchFold;
    SeenHas(n, pat, h, rb);
    var y, k := pat[|n.path|..], SegEnd(rest);
    BehindParam(n, pat, h, rest, rb);
    ThroughParam(n, rest, ci, rb);
    if Here(n, pat, h) {
      EndsHere(rest[k..]);
      o := rest;
      assert rest[..k] + "" == rest;
      Same(rest);
    } else {
      RestLeft(y, rest[k..]);
      var o' := FpFirst(n.children[0], y, h, rest[k..], ci + rest[..k], rb);
      o := rest[..k] + o';
      PreferredBehind(rest[..k], o', Respell(y, rest[k..]));
      assert ci + rest[..k] + o' == ci + o;
    }
  }

  lemma {:induction false} FpFirst(n: Node, pat: string, h: Handle, path: string, ci: string, rb: char)
    returns (o: string)
    requires Body(n) && Walked(n) && FirstFits(n, path) && Seen(n, pat, h, rb) && MatchFold(pat, path)
    ensures FpRec(n, path, ci, rb) == (ci + o, true) && Preferred(o, Respell(pat, path))
    decreases n, 1
  {
    hide EqualFold, TextFits, Count, CountAll, Fits, Respell, MatchFold, FpRec, FpWild, Preferred, Chosen, Seen,
         KidByte, Shape;
    SeenHas(n, pat, h, rb);
    FpComplete(n, pat, h, path, ci, rb);
    if n.kind == CatchAll {
      o := WrapperFirst(n, pat, h, path, ci, rb);
    } else {
      FoldAt(n, pat, h, path);
      TextAhead(n, pat, h);
      var rest, ci', y := path[|n.path|..], ci + n.path, pat[|n.path|..];
      RespellStrip(n.path, y, path);
      FpText(n, path, ci, rb);
      var o';
      if Here(n, pat, h) {
        EndsHere(rest);
        o' := "";
        assert Preferred("", Respell(y, rest)) by { Same(""); }
      } else {
        var i := SeenBelow(n, pat, h, rb);
        RestLeft(y, rest);
        if n.wildChild {
          ThroughWild(n, path, ci, rb);
          o' := FpWildFirst(n.children[0], y, h, rest, ci', rb);
        } else if Chosen(n, rest, ci', rb) == i {
          ChosenFinds(n, path, ci, rb);
          o' := FpFirst(n.children[i], y, h, rest, ci', n.indices[i]);
        } else {
          o' := OtherChild(n, i, y, h, path, ci, rb);
          assert Preferred(o', Respell(y, rest)) by { SmallerFirst(o', Respell(y, rest)); }
        }
      }
      o := n.path + o';
      PreferredBehind(n.path, o', Respell(y, rest));
      assert ci + n.path + o' == ci + o;
    }
  }

  /**
    What is found is the path as some route spells it that the search sees, its own bytes staying in
    place of wildcards; and of all such spellings it has a small letter where it first differs from another.
  */
  lemma SpellingFound(t: Node, path: string)
    requires Tree(t) && t != EMPTY && path != "" && path[0] == '/'
    ensures var (out, found) := FindCaseInsensitivePath(t, path);
      && (found ==> exists pat, h :: Seen(t, pat, h, '\0') && MatchFold(pat, path) && out == Respell(pat, path))
      && forall pat, h :: Seen(t, pat, h, '\0') && MatchFold(pat, path) ==> Preferred(out, Respell(pat, path))
  {
    Start(t, path);
    hide Tree, Seen, MatchFold, FpRec, Body, Walked, Match, EqualFold, Respell, Preferred;
    var (out, found) := FindCaseInsensitivePath(t, path);
    if found {
      var pat, o := FpSound(t, path, "", '\0');
      var h :| Seen(t, pat, h, '\0');
      MatchFolds(pat, o, path);
      assert "" + o == o;
    }
    forall pat, h | Seen(t, pat, h, '\0') && MatchFold(pat, path) ensures Preferred(out, Respell(pat, path)) {
      var o := FpFirst(t, pat, h, path, "", '\0');
      assert "" + o == o;
    }
  }

  // ------------------------------------------------------------------ routes that are always seen

  /** A node without text leads to a catch-all only. */
  lemma EmptyTextRoute(n: Node, pat: string, h: Handle)
    requires Body(n) && n.kind in {Static, Root} && n.path == "" && Has(n, pat, h)
    ensures StartsCatchAll(pat)
  {
    assert pat[0..] == pat && !Here(n, pat, h);
    var i :| 0 <= i < |n.children| && Has(n.children[i], pat, h);
    assert WF(n.children[i]) && Body(n.children[i]);
    FirstByte(n.children[i], pat, h);
    assert pat[..2][0] == '/' && pat[..2][1] == '*';
  }

  /** What is left of a findable pattern below n is findable, and a parameter is not followed by a catch-all. */
  lemma FindableBelow(n: Node, pat: string, h: Handle)
    requires Body(n) && n.kind != CatchAll && Has(n, pat, h) && Findable(pat)
    ensures Findable(pat[|n.path|..]) && (n.kind == Kind.Param ==> !StartsCatchAll(pat[|n.path|..]))
  {
    var y := pat[|n.path|..];
    if n.kind == Kind.Param {
      FirstByte(n, pat, h);
      assert pat == n.path + y;
      SegEndAt(n.path, y);
    } else {
      TextAhead(n, pat, h);
      FoldStrip(n.path, y, "");
    }
  }

  /** A route whose catch-all stands behind text is seen, however the tree happens to be split. */
  lemma {:induction false} FindableSeen(n: Node, pat: string, h: Handle, rb: char)
    requires Body(n) && Has(n, pat, h) && Findable(pat) && (n.path == "" && n.kind != CatchAll ==> rb == '/')
    ensures Seen(n, pat, h, rb)
    decreases n
  {
    hide Findable, Count, CountAll, Fits, KidByte;
    if !Here(n, pat, h) {
      var y := pat[|n.path|..];
      var i :| 0 <= i < |n.children| && Has(n.children[i], y, h);
      var c, b := n.children[i], KidByte(n, i, rb);
      assert WF(c) && Body(c);
      if n.kind == CatchAll {
        FirstByte(c, y, h);
        assert Here(c, y, h) && Seen(c, y, h, b);
      } else {
        FindableBelow(n, pat, h);
        EnteredWith(n, pat, i, y, h, rb);
        FindableSeen(c, y, h, b);
      }
      assert pat == n.path + y;
    }
  }

  /** A child without text is entered with '/' as the current byte, unless it stands behind a parameter. */
  lemma EnteredWith(n: Node, pat: string, i: nat, y: string, h: Handle, rb: char)
    requires Body(n) && n.kind != CatchAll && i < |n.children| && Has(n.children[i], y, h)
    requires n.kind == Kind.Param ==> !StartsCatchAll(y)
    ensures var c := n.children[i]; c.path == "" && c.kind != CatchAll ==> KidByte(n, i, rb) == '/'
  {
    var c := n.children[i];
    assert WF(c) && Body(c);
    if c.path == "" && c.kind != CatchAll {
      EmptyTextRoute(c, y, h);
      KidSeam(n, i, y, h);
    }
  }

  /**
    A route that matches up to case is found, unless its catch-all stands directly behind a
    parameter or at the very start.
  */
  lemma CaseSearchComplete(t: Node, path: string, pat: string, h: Handle)
    requires Tree(t) && t != EMPTY && Has(t, pat, h) && MatchFold(pat, path)
    requires Findable(pat) && !StartsCatchAll(pat)
    ensures FindCaseInsensitivePath(t, path).1
  {
    if t.path == "" { EmptyTextRoute(t, pat, h); }
    FindableSeen(t, pat, h, '\0');
    FpComplete(t, pat, h, path, "", '\0');
  }

  /**
    Where every catch-all stands behind text, the search finds a path exactly if some route matches
    it up to case.
  */
  lemma CaseSearchPlain(t: Node, path: string)
    requires Tree(t) && t != EMPTY && path != "" && path[0] == '/'
    requires forall pat, h :: Has(t, pat, h) ==> Findable(pat) && !StartsCatchAll(pat)
    ensures FindCaseInsensitivePath(t, path).1 <==> exists pat, h :: Has(t, pat, h) && MatchFold(pat, path)
  {
    hide Has, Tree, Findable, FpRec, Seen, MatchFold;
    if FindCaseInsensitivePath(t, path).1 {
      var pat, h := FoundRoute(t, path);
      SeenHas(t, pat, h, '\0');
      assert Has(t, pat, h) && MatchFold(pat, path);
      assert exists pat, h :: Has(t, pat, h) && MatchFold(pat, path);
    } else {
      forall pat, h ensures !(Has(t, pat, h) && MatchFold(pat, path)) {
        if Has(t, pat, h) && MatchFold(pat, path) { CaseSearchComplete(t, path, pat, h); }
      }
    }
  }

  /** A catch-all at the very start is never found. */
  lemma RootCatchAllMissed(t: Node, path: string, pat: string, h: Handle)
    requires Tree(t) && t != EMPTY && Has(t, pat, h) && StartsCatchAll(pat)
    ensures !FindCaseInsensitivePath(t, path).1
  {
    var y := pat[|t.path|..];
    if !Here(t, pat, h) {
      var i :| 0 <= i < |t.children| && Has(t.children[i], y, h);
      KidSeam(t, i, y, h);
    }
    assert pat == t.path + y;
    EmptyTextMissed(t, path, "", '\0');
  }

  /** At a node without text the search goes on exactly if the current byte is '/'. */
  lemma EmptyTextMissed(n: Node, path: string, ci: string, rb: char)
    requires Body(n) && n.kind in {Static, Root} && n.path == ""
    ensures FpRec(n, path, ci, rb).1 <==> rb == '/' && path != ""
  {
    EmptyText(n);
    assert path[0..] == path && ci + "" == ci;
    var c := n.children[0];
    assert WF(c) && Body(c) && IndexFits(c, '/');
    assert IndexOf(n.indices, '\0') == 1;
    if rb == '/' && path != "" {
      assert IndexOf(n.indices, '/') == 0;
      assert WF(c.children[0]) && Body(c.children[0]);
      assert FpWild(c.children[0], path, ci, rb).1;
      assert FpRec(c, path, ci, rb).1;
      assert FpAt(n, 0, path, ci, rb).1;
    }
  }
}

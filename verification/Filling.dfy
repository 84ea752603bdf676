/** Patterns place by place: which are valid, and matching one is filling in its wildcards. */
module Filling {
  import opened Options
  import opened Patterns

  /** The names of p's wildcards, in order. */
  function Names(p: string): seq<string>
    decreases |p|
  {
    if p == "" then []
    else if p[0] == ':' then [p[1..SegEnd(p)]] + Names(p[SegEnd(p)..])
    else if StartsCatchAll(p) then [p[2..]]
    else Names(p[1..])
  }

  function Keys(ps: seq<Param>): (r: seq<string>)
    ensures |r| == |ps|
  {
    if ps == [] then [] else [ps[0].key] + Keys(ps[1..])
  }

  /** p with the values of ps in place of its wildcards, and of the '/' in front of a catch-all. */
  function Fill(p: string, ps: seq<Param>): string
    requires |ps| == |Names(p)|
    decreases |p|
  {
    if p == "" then ""
    else if p[0] == ':' then ps[0].val + Fill(p[SegEnd(p)..], ps[1..])
    else if StartsCatchAll(p) then ps[0].val
    else [p[0]] + Fill(p[1..], ps)
  }

  /** A parameter takes no '/', and not nothing at the end of the pattern; a catch-all starts with '/'. */
  predicate FitsIn(p: string, ps: seq<Param>)
    requires |ps| == |Names(p)|
    decreases |p|
  {
    if p == "" then true
    else if p[0] == ':' then
      '/' !in ps[0].val && (SegEnd(p) == |p| ==> ps[0].val != "") && FitsIn(p[SegEnd(p)..], ps[1..])
    else if StartsCatchAll(p) then ps[0].val != "" && ps[0].val[0] == '/'
    else FitsIn(p[1..], ps)
  }

  /** ps names the wildcards of p in order, with values that fit, and x is p filled with them. */
  predicate Fills(p: string, ps: seq<Param>, x: string) {
    Keys(ps) == Names(p) && FitsIn(p, ps) && Fill(p, ps) == x
  }

  /** A pattern matches exactly the paths it can be filled to, with the bindings it is filled with. */
  lemma {:induction false} MatchFills(p: string, x: string, ps: seq<Param>)
    ensures Match(p, x) == Some(ps) <==> Fills(p, ps, x)
    decreases |p|
  {
    if p == "" {
    } else if p[0] == ':' {
      var e, v := SegEnd(p), SegEnd(x);
      if Match(p, x) == Some(ps) {
        MatchFills(p[e..], x[v..], ps[1..]);
        ParamFills(p, x, ps);
      }
      if Fills(p, ps, x) {
        Unfold(p, ps);
        MatchFills(p[e..], Fill(p[e..], ps[1..]), ps[1..]);
        FilledMatches(p, x, ps);
      }
    } else if StartsCatchAll(p) {
      if Match(p, x) == Some(ps) { assert ps == [Param(p[2..], x)] && Keys(ps[1..]) == []; }
      if Keys(ps) == Names(p) { assert ps[0].key == Keys(ps)[0] == p[2..] && ps == [ps[0]]; }
    } else if x != "" {
      MatchFills(p[1..], x[1..], ps);
      assert x == [x[0]] + x[1..];
      if Fills(p, ps, x) { assert Fill(p, ps)[1..] == Fill(p[1..], ps); }
    }
  }

  lemma ParamFills(p: string, x: string, ps: seq<Param>)
    requires p != "" && p[0] == ':' && Match(p, x) == Some(ps) && Fills(p[SegEnd(p)..], ps[1..], x[SegEnd(x)..])
    ensures Fills(p, ps, x)
  {
    hide Names, Keys, Fill, FitsIn;
    var e, v := SegEnd(p), SegEnd(x);
    assert ps == [Param(p[1..e], x[..v])] + Match(p[e..], x[v..]).value;
    assert x == x[..v] + x[v..];
    Unfold(p, ps);
    if e == |p| { NothingBehind(p[e..], ps[1..]); }
  }

  lemma FilledMatches(p: string, x: string, ps: seq<Param>)
    requires p != "" && p[0] == ':' && Fills(p, ps, x)
    requires var r := Fill(p[SegEnd(p)..], ps[1..]); Match(p[SegEnd(p)..], r) == Some(ps[1..])
    ensures Match(p, x) == Some(ps)
  {
    Unfold(p, ps);
    var e, val, rest := SegEnd(p), ps[0].val, Fill(p[SegEnd(p)..], ps[1..]);
    FillFirst(p[e..], ps[1..]);
    hide Names, Keys, Fill, FitsIn;
    SegEndAt(val, rest);
    assert x == val + rest && x[..|val|] == val && x[|val|..] == rest;
    assert ps == [Param(p[1..e], val)] + ps[1..];
  }

  lemma Unfold(p: string, ps: seq<Param>)
    requires p != "" && p[0] == ':' && ps != []
    ensures var e := SegEnd(p);
      && (Keys(ps) == Names(p) <==> ps[0].key == p[1..e] && Keys(ps[1..]) == Names(p[e..]))
      && (Keys(ps) == Names(p) ==>
          && Fill(p, ps) == ps[0].val + Fill(p[e..], ps[1..])
          && (FitsIn(p, ps) <==>
              '/' !in ps[0].val && (e == |p| ==> ps[0].val != "") && FitsIn(p[e..], ps[1..])))
  {
    assert Keys(ps)[1..] == Keys(ps[1..]) && Names(p)[1..] == Names(p[SegEnd(p)..]);
  }

  lemma NothingBehind(p: string, ps: seq<Param>)
    requires p == "" && Keys(ps) == Names(p)
    ensures Fill(p, ps) == ""
  {
  }

  /** What starts with '/' is filled to something that does. */
  lemma FillFirst(p: string, ps: seq<Param>)
    requires |ps| == |Names(p)| && FitsIn(p, ps) && (p == "" || p[0] == '/')
    ensures if p == "" then Fill(p, ps) == "" else Fill(p, ps) != "" && Fill(p, ps)[0] == '/'
  {
  }

  // ------------------------------------------------------------------ which patterns are valid

  /** The wildcard at i is named, alone in its segment, and if it is a catch-all, last and behind '/'. */
  predicate Placed(p: string, i: nat)
    requires i < |p|
  {
    var e := i + 1 + SegEnd(p[i + 1..]);
    e > i + 1 && NoWild(p[i + 1..e]) && (p[i] == '*' ==> i > 0 && p[i - 1] == '/' && e == |p|)
  }

  predicate AllPlaced(p: string) {
    forall i :: 0 <= i < |p| && IsWild(p[i]) ==> Placed(p, i)
  }

  /** Cutting k bytes off in front changes nothing for the places behind the first. */
  lemma PlacedBehind(p: string, k: nat, i: nat)
    requires k < i < |p|
    ensures Placed(p[k..], i - k) <==> Placed(p, i)
  {
    assert p[k..][i - k + 1..] == p[i + 1..];
    var e := i + 1 + SegEnd(p[i + 1..]);
    assert p[k..][i - k + 1..e - k] == p[i + 1..e];
  }

  lemma AllPlacedBehind(p: string, k: nat)
    requires k <= |p| && (k < |p| ==> !IsWild(p[k]))
    ensures AllPlaced(p[k..]) <==> forall i :: k <= i < |p| && IsWild(p[i]) ==> Placed(p, i)
  {
    hide Placed;
    forall i | k < i < |p| ensures Placed(p[k..], i - k) <==> Placed(p, i) { PlacedBehind(p, k, i); }
    if AllPlaced(p[k..]) {
      forall i | k <= i < |p| && IsWild(p[i]) ensures Placed(p, i) { assert p[k..][i - k] == p[i]; }
    }
  }

  /** A pattern is valid exactly if each of its wildcards is in its place. */
  lemma {:induction false} ValidPlaces(p: string)
    ensures ValidRest(p) <==> AllPlaced(p)
    decreases |p|
  {
    hide Placed;
    if p == "" {
    } else if p[0] == ':' {
      var e := SegEnd(p);
      ValidPlaces(p[e..]);
      AllPlacedBehind(p, e);
      AtFirst(p);
      if ValidRest(p) {
        forall i | 0 < i < e ensures !IsWild(p[i]) { assert p[1..e][i - 1] == p[i]; }
      }
    } else if StartsCatchAll(p) {
      AtSecond(p);
      if ValidRest(p) {
        forall i | 2 <= i < |p| ensures !IsWild(p[i]) { assert p[2..][i - 2] == p[i]; }
      }
    } else {
      ValidPlaces(p[1..]);
      LiteralFirst(p);
    }
  }

  lemma AtFirst(p: string)
    requires p != "" && p[0] == ':'
    ensures Placed(p, 0) <==> SegEnd(p) >= 2 && NoWild(p[1..SegEnd(p)])
  {
  }

  lemma AtSecond(p: string)
    requires StartsCatchAll(p)
    ensures Placed(p, 1) <==> |p| >= 3 && NoWild(p[2..]) && '/' !in p[2..]
  {
    var e := SegEnd(p[2..]);
    if e == |p[2..]| { assert p[2..][..e] == p[2..] && p[2..2 + e] == p[2..]; }
  }

  lemma LiteralFirst(p: string)
    requires p != "" && p[0] != ':' && !StartsCatchAll(p)
    ensures AllPlaced(p) <==> p[0] != '*' && AllPlaced(p[1..])
  {
    if |p| > 1 {
      assert p[1..][1..] == p[2..];
      assert p[1] == ':' ==> (Placed(p, 1) <==> Placed(p[1..], 0)) by {
        var e := SegEnd(p[2..]);
        assert p[1..][1..1 + e] == p[2..2 + e];
      }
      assert p[1] == '*' ==> !Placed(p, 1) && !Placed(p[1..], 0);
    }
    assert p[0] == '*' ==> !Placed(p, 0);
    hide Placed;
    forall i | 1 < i < |p| ensures Placed(p[1..], i - 1) <==> Placed(p, i) { PlacedBehind(p, 1, i); }
    if AllPlaced(p[1..]) && p[0] != '*' {
      forall i | 0 <= i < |p| && IsWild(p[i]) ensures Placed(p, i) { assert p[1..][i - 1] == p[i]; }
    }
    if AllPlaced(p) {
      assert p[0] != '*';
      forall i | 0 <= i < |p| - 1 && IsWild(p[1..][i]) ensures Placed(p[1..], i) { assert p[1..][i] == p[i + 1]; }
    }
  }
}

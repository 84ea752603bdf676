/**
  Route patterns as text, and what they mean, without any tree.

  A pattern is a byte string (one `char` per byte) made of literal bytes, of `:name` parameters
  that run to the next '/' or to the end, and of at most one catch-all (a '/' and then `*name`) at its end.
  `Match` is the plain one-pattern matcher; `Compatible` says when two patterns may live in one
  router.  The tree of module RouteTree is measured against these definitions.
*/
module Patterns {
  import opened Options

  datatype Param = Param(key: string, val: string)

  /** Largest number of wildcards a uint8 counter can hold (maxParamCount). */
  const MAX_PARAM_COUNT: nat := 255

  predicate IsWild(c: char) {
    c == ':' || c == '*'
  }

  predicate NoWild(s: string) {
    forall i :: 0 <= i < |s| ==> !IsWild(s[i])
  }

  /** The number of wildcard bytes in s, with no upper bound. */
  function Wild(s: string): nat {
    if s == "" then 0 else (if IsWild(s[0]) then 1 else 0) + Wild(s[1..])
  }

  /** Where the current path segment ends: the first '/' of s, or its length. */
  function SegEnd(s: string): (e: nat)
    ensures e <= |s|
    ensures '/' !in s[..e]
    ensures e < |s| ==> s[e] == '/'
  {
    if s == "" || s[0] == '/' then 0
    else
      var e := 1 + SegEnd(s[1..]);
      assert s[..e] == [s[0]] + s[1..][..e - 1];
      e
  }

  /** The catch-all part of a pattern starts at the '/' in front of the '*'. */
  predicate StartsCatchAll(p: string) {
    |p| >= 2 && p[0] == '/' && p[1] == '*'
  }

  /** The naive matcher: the bindings of pattern p on path x, in order, if it matches. */
  function Match(p: string, x: string): Option<seq<Param>>
    decreases |p|
  {
    if p == "" then
      if x == "" then Some([]) else None
    else if p[0] == ':' then
      var e, v := SegEnd(p), SegEnd(x);
      if x == "" then None
      else
        match Match(p[e..], x[v..])
        case None => None
        case Some(ps) => Some([Param(p[1..e], x[..v])] + ps)
    else if StartsCatchAll(p) then
      if x != "" && x[0] == '/' then Some([Param(p[2..], x)]) else None
    else if x != "" && x[0] == p[0] then
      Match(p[1..], x[1..])
    else None
  }

  /** Every wildcard is named, alone in its segment, and a catch-all is last and follows '/'. */
  predicate ValidRest(p: string)
    decreases |p|
  {
    if p == "" then true
    else if p[0] == ':' then
      var e := SegEnd(p);
      e >= 2 && NoWild(p[1..e]) && ValidRest(p[e..])
    else if StartsCatchAll(p) then
      |p| >= 3 && NoWild(p[2..]) && '/' !in p[2..]
    else
      p[0] != '*' && ValidRest(p[1..])
  }

  predicate ValidPattern(p: string) {
    p != "" && p[0] == '/' && ValidRest(p)
  }

  /**
    Two patterns may be registered together: they are different, and where they first differ
    neither has a wildcard facing something the other has there.
  */
  predicate Compatible(p: string, q: string)
    decreases |p|
  {
    if p == "" || q == "" then p != q
    else if p[0] == ':' || q[0] == ':' then
      var e, f := SegEnd(p), SegEnd(q);
      p[..e] == q[..f] && e > 0 && Compatible(p[e..], q[f..])
    else if StartsCatchAll(p) || StartsCatchAll(q) then
      p[0] != q[0]
    else
      p[0] == q[0] ==> Compatible(p[1..], q[1..])
  }

  // ------------------------------------------------------------------ facts about patterns alone

  lemma {:induction false} CompatibleSymmetric(p: string, q: string)
    ensures Compatible(p, q) == Compatible(q, p)
    decreases |p|
  {
    if p == "" || q == "" {
    } else if p[0] == ':' || q[0] == ':' {
      var e, f := SegEnd(p), SegEnd(q);
      if p[..e] == q[..f] && e > 0 {
        assert |p[..e]| == |q[..f]|;
        CompatibleSymmetric(p[e..], q[f..]);
      }
    } else if !StartsCatchAll(p) && !StartsCatchAll(q) && p[0] == q[0] {
      CompatibleSymmetric(p[1..], q[1..]);
    }
  }

  /** No path is matched by two compatible patterns. */
  lemma {:induction false} CompatibleDisjoint(p: string, q: string, x: string)
    requires Compatible(p, q)
    ensures Match(p, x).None? || Match(q, x).None?
    decreases |p|
  {
    if p == "" || q == "" {
    } else if p[0] == ':' || q[0] == ':' {
      var e, f, v := SegEnd(p), SegEnd(q), SegEnd(x);
      assert p[..e][0] == q[..f][0];
      CompatibleDisjoint(p[e..], q[f..], x[v..]);
    } else if !StartsCatchAll(p) && !StartsCatchAll(q) && p[0] == q[0] && x != "" {
      CompatibleDisjoint(p[1..], q[1..], x[1..]);
    }
  }

  lemma {:induction false} WildSplit(a: string, b: string)
    ensures Wild(a + b) == Wild(a) + Wild(b)
  {
    if a == "" {
      assert a + b == b;
    } else {
      assert (a + b)[1..] == a[1..] + b;
      WildSplit(a[1..], b);
    }
  }

  lemma {:induction false} WildZero(s: string)
    ensures Wild(s) == 0 <==> NoWild(s)
  {
    if s != "" {
      WildZero(s[1..]);
      assert forall i :: 0 <= i < |s[1..]| ==> s[1..][i] == s[i + 1];
      if NoWild(s[1..]) && !IsWild(s[0]) {
        forall i | 0 <= i < |s| ensures !IsWild(s[i]) {
          if i > 0 { assert s[i] == s[1..][i - 1]; }
        }
      }
    }
  }

  /** Cutting between s and r does not cut the '/' of a catch-all from its '*'. */
  predicate Seam(s: string, r: string) {
    s == "" || r == "" || s[|s| - 1] != '/' || r[0] != '*'
  }

  lemma {:induction false} MatchStrip(s: string, r: string, x: string)
    requires NoWild(s) && Seam(s, r)
    ensures Match(s + r, x) == if s <= x then Match(r, x[|s|..]) else None
  {
    if s == "" {
      assert s + r == r && x[|s|..] == x;
    } else {
      var s', p := s[1..], s + r;
      assert p[0] == s[0] && p[1..] == s' + r && !IsWild(s[0]);
      assert !StartsCatchAll(p);
      if x != "" && x[0] == s[0] {
        MatchStrip(s', r, x[1..]);
        assert s <= x <==> s' <= x[1..] by { assert s == [s[0]] + s'; assert x == [x[0]] + x[1..]; }
        if s <= x { assert x[|s|..] == x[1..][|s'|..]; }
      } else {
        assert !(s <= x);
      }
    }
  }

  lemma {:induction false} ValidStrip(s: string, r: string)
    requires NoWild(s) && Seam(s, r)
    ensures ValidRest(s + r) == ValidRest(r)
  {
    if s == "" {
      assert s + r == r;
    } else {
      var s', p := s[1..], s + r;
      assert p[0] == s[0] && p[1..] == s' + r && !IsWild(s[0]);
      assert !StartsCatchAll(p);
      ValidStrip(s', r);
    }
  }

  lemma {:induction false} CompatibleStrip(s: string, r: string, r': string)
    requires NoWild(s) && Seam(s, r) && Seam(s, r')
    ensures Compatible(s + r, s + r') == Compatible(r, r')
  {
    if s == "" {
      assert s + r == r && s + r' == r';
    } else {
      var s', p, q := s[1..], s + r, s + r';
      assert p[0] == s[0] && p[1..] == s' + r && !IsWild(s[0]);
      assert q[0] == s[0] && q[1..] == s' + r';
      assert !StartsCatchAll(p) && !StartsCatchAll(q);
      CompatibleStrip(s', r, r');
    }
  }

  /** A parameter segment stops where its text stops, if what follows is empty or starts with '/'. */
  lemma {:induction false} SegEndAt(s: string, r: string)
    requires '/' !in s && (r == "" || r[0] == '/')
    ensures SegEnd(s + r) == |s|
  {
    if s == "" {
      assert s + r == r;
    } else {
      assert (s + r)[1..] == s[1..] + r;
      SegEndAt(s[1..], r);
    }
  }
}

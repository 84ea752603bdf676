/**
  The routerNode of core/tree.go as an object whose fields insertion updates in place, proved to do
  what the functions of RouteTree say.

  A ghost `Skeleton` records which object is where; `Model` reads the tree value off the heap.
  While addRoute walks down, a ghost `Context` holds the part of the tree above the current node.
*/
module RouterNodes {
  import opened Options
  import opened Patterns
  import opened RouteTree
  import opened Steps

  datatype Skeleton = Skeleton(node: RouterNode, kids: seq<Skeleton>)

  ghost function Objs(s: Skeleton): set<RouterNode>
    decreases s, 0
  {
    {s.node} + AllObjs(s.kids)
  }

  ghost function AllObjs(ks: seq<Skeleton>): set<RouterNode>
    decreases ks, 1
  {
    set i, o | 0 <= i < |ks| && o in Objs(ks[i]) :: o
  }

  /** Every object occurs once. */
  ghost predicate Distinct(s: Skeleton)
    decreases s, 0
  {
    s.node !in AllObjs(s.kids) && AllDistinct(s.kids)
  }

  ghost predicate AllDistinct(ks: seq<Skeleton>)
    decreases ks, 1
  {
    (forall i :: 0 <= i < |ks| ==> Distinct(ks[i])) && Apart(ks)
  }

  ghost predicate Apart(ks: seq<Skeleton>) {
    forall i, j :: 0 <= i < j < |ks| ==> Objs(ks[i]) !! Objs(ks[j])
  }

  ghost function Roots(ks: seq<Skeleton>): (r: seq<RouterNode>)
    ensures |r| == |ks| && forall i :: 0 <= i < |ks| ==> r[i] == ks[i].node
  {
    seq(|ks|, i requires 0 <= i < |ks| => ks[i].node)
  }

  /** The children fields are as the skeleton says. */
  ghost predicate Linked(s: Skeleton)
    reads Objs(s)
    decreases s, 0
  {
    s.node.children == Roots(s.kids) && AllLinked(s.kids)
  }

  ghost predicate AllLinked(ks: seq<Skeleton>)
    reads AllObjs(ks)
    decreases ks, 1
  {
    forall i :: 0 <= i < |ks| ==> Linked(ks[i])
  }

  lemma LinkedKid(s: Skeleton, i: nat)
    requires Linked(s) && i < |s.kids|
    ensures Linked(s.kids[i]) && s.node.children[i] == s.kids[i].node && Objs(s.kids[i]) <= Objs(s)
  {
    assert AllLinked(s.kids);
  }

  /** What the fields of the node at s say about its model. */
  lemma Fields(s: Skeleton)
    requires Linked(s)
    ensures Model(s) == s.node.Value(Models(s.kids)) && s.node in Objs(s)
    ensures |s.node.children| == |Model(s).children| == |s.kids|
    ensures forall i :: 0 <= i < |s.kids| ==> Model(s).children[i] == Model(s.kids[i])
  {
  }

  lemma ModelsAt(ks: seq<Skeleton>)
    ensures |Models(ks)| == |ks| && forall i :: 0 <= i < |ks| ==> Models(ks)[i] == Model(ks[i])
  {
  }

  lemma MovedObjs(ks: seq<Skeleton>, idx: nat, k: nat)
    requires k <= idx < |ks|
    ensures AllObjs(MoveLeft(ks, idx, k)) == AllObjs(ks)
  {
    hide Objs, MoveLeft;
    var r := MoveLeft(ks, idx, k);
    MovedAt(ks, idx, k);
    forall o | o in AllObjs(ks) ensures o in AllObjs(r) {
      var i :| 0 <= i < |ks| && o in Objs(ks[i]);
      var j := if i == idx then k else if k <= i < idx then i + 1 else i;
      assert Origin(j, idx, k) == i && r[j] == ks[i];
    }
    forall o | o in AllObjs(r) ensures o in AllObjs(ks) {
      var j :| 0 <= j < |r| && o in Objs(r[j]);
      assert r[j] == ks[Origin(j, idx, k)];
    }
  }

  lemma MovedDistinct(ks: seq<Skeleton>, idx: nat, k: nat)
    requires k <= idx < |ks| && AllDistinct(ks)
    ensures AllDistinct(MoveLeft(ks, idx, k))
  {
    hide Objs, Distinct, MoveLeft;
    var r := MoveLeft(ks, idx, k);
    MovedAt(ks, idx, k);
    forall i | 0 <= i < |r| ensures Distinct(r[i]) { assert r[i] == ks[Origin(i, idx, k)]; }
    forall i, j | 0 <= i < j < |r| ensures Objs(r[i]) !! Objs(r[j]) {
      var a, b := Origin(i, idx, k), Origin(j, idx, k);
      assert r[i] == ks[a] && r[j] == ks[b] && a != b;
      if b < a { assert Objs(ks[b]) !! Objs(ks[a]); } else { assert Objs(ks[a]) !! Objs(ks[b]); }
    }
  }

  lemma MovedModels(ks: seq<Skeleton>, idx: nat, k: nat)
    requires k <= idx < |ks|
    ensures Models(MoveLeft(ks, idx, k)) == MoveLeft(Models(ks), idx, k)
    ensures AllLinked(ks) ==> AllLinked(MoveLeft(ks, idx, k))
    ensures Roots(MoveLeft(ks, idx, k)) == MoveLeft(Roots(ks), idx, k)
  {
    hide Objs, Linked, Model, Models, MoveLeft;
    var r := MoveLeft(ks, idx, k);
    MovedAt(ks, idx, k);
    MovedAt(Models(ks), idx, k);
    MovedAt(Roots(ks), idx, k);
    ModelsAt(ks);
    ModelsAt(r);
    forall i | 0 <= i < |r|
      ensures Models(r)[i] == MoveLeft(Models(ks), idx, k)[i] && Roots(r)[i] == MoveLeft(Roots(ks), idx, k)[i] {
      assert r[i] == ks[Origin(i, idx, k)];
    }
    if AllLinked(ks) {
      forall i | 0 <= i < |r| ensures Linked(r[i]) { assert r[i] == ks[Origin(i, idx, k)]; }
    }
  }

  lemma MovedAt<T>(s: seq<T>, idx: nat, k: nat)
    requires k <= idx < |s|
    ensures |MoveLeft(s, idx, k)| == |s|
    ensures forall i :: 0 <= i < |s| ==> MoveLeft(s, idx, k)[i] == s[Origin(i, idx, k)]
  {
  }

  /** What lies below a node does not contain it. */
  lemma Inside(s: Skeleton)
    requires Linked(s) && Distinct(s)
    ensures s.node.children == Roots(s.kids) && AllLinked(s.kids) && Model(s) == s.node.Value(Models(s.kids))
    ensures s.node !in AllObjs(s.kids) && AllDistinct(s.kids) && Objs(s) == {s.node} + AllObjs(s.kids)
  {
  }

  lemma Outside(s: Skeleton)
    requires s.node.children == Roots(s.kids) && AllLinked(s.kids)
    ensures Linked(s) && Model(s) == s.node.Value(Models(s.kids)) && Objs(s) == {s.node} + AllObjs(s.kids)
    ensures s.node !in AllObjs(s.kids) && AllDistinct(s.kids) ==> Distinct(s)
  {
  }

  lemma AllFields(ks: seq<Skeleton>, k: nat)
    requires AllLinked(ks) && k < |ks|
    ensures Models(ks)[k] == ks[k].node.Value(Models(ks[k].kids))
  {
    assert Linked(ks[k]);
  }

  lemma AllLinkedNow(ks: seq<Skeleton>)
    requires forall i :: 0 <= i < |ks| ==> Linked(ks[i])
    ensures AllLinked(ks)
  {
  }

  /** One of several neighbouring subtrees, and the others. */
  lemma AllKids(ks: seq<Skeleton>, idx: nat)
    requires AllLinked(ks) && AllDistinct(ks) && idx < |ks|
    ensures forall i :: 0 <= i < |ks| ==> Linked(ks[i]) && Distinct(ks[i]) && Objs(ks[i]) <= AllObjs(ks)
    ensures forall i :: 0 <= i < |ks| ==> ks[i].node in Objs(ks[i])
    ensures forall i :: 0 <= i < |ks| && i != idx ==> ks[idx].node !in Objs(ks[i])
  {
    forall i | 0 <= i < |ks| && i != idx ensures ks[idx].node !in Objs(ks[i]) {
      assert ks[idx].node in Objs(ks[idx]);
      assert Objs(ks[i]) !! Objs(ks[idx]);
    }
  }

  /** The tree value at s in the current heap. */
  ghost function Model(s: Skeleton): Node
    reads Objs(s)
    decreases s, 0
  {
    s.node.Value(Models(s.kids))
  }

  ghost function Models(ks: seq<Skeleton>): (r: seq<Node>)
    reads AllObjs(ks)
    ensures |r| == |ks| && forall i :: 0 <= i < |ks| ==> r[i] == Model(ks[i])
    decreases ks, 1
  {
    if ks == [] then []
    else
      assert AllObjs(ks[1..]) <= AllObjs(ks) by { TailObjs(ks); }
      assert Objs(ks[0]) <= AllObjs(ks);
      [Model(ks[0])] + Models(ks[1..])
  }

  lemma TailObjs(ks: seq<Skeleton>)
    requires ks != []
    ensures AllObjs(ks[1..]) <= AllObjs(ks)
  {
    forall o | o in AllObjs(ks[1..]) ensures o in AllObjs(ks) {
      var i :| 0 <= i < |ks[1..]| && o in Objs(ks[1..][i]);
      assert ks[1..][i] == ks[i + 1];
    }
  }

  /** How a turn of addRoute's walk ends. */
  datatype Turn = Descend | Done | Panic

  class RouterNode {
    var path: string
    var wildChild: bool
    var kind: Kind
    var maxParams: nat
    var priority: nat
    var indices: string
    var children: seq<RouterNode>
    var handle: Option<Handle>

    constructor (path: string, wildChild: bool, kind: Kind, maxParams: nat, priority: nat,
                 indices: string, children: seq<RouterNode>, handle: Option<Handle>)
      ensures this.path == path && this.wildChild == wildChild && this.kind == kind && this.maxParams == maxParams
      ensures this.priority == priority && this.indices == indices && this.children == children && this.handle == handle
    {
      this.path, this.wildChild, this.kind, this.maxParams := path, wildChild, kind, maxParams;
      this.priority, this.indices, this.children, this.handle := priority, indices, children, handle;
    }

    /**
      The wildcard child of getValue's descent saves its parameter and says whether to go deeper;
      if not, handle is the answer.
    */
    method TakeWild(rest: string, buf: array?<Patterns.Param>, len: nat, ghost s: Skeleton)
      returns (end: nat, deeper: bool, handle: Option<Handle>, buf': array<Patterns.Param>, len': nat)
      requires s.node == this && Linked(s)
      requires if buf == null then len == 0 else len <= buf.Length
      requires RouteTree.GetWild(Model(s), rest, BufferOf(buf, len)) != Crash
      modifies buf
      ensures if buf == null then fresh(buf') else buf' == buf
      ensures len' <= buf'.Length && end <= |rest| && (deeper ==> s.kids != [] && handle.None?)
      ensures old(RouteTree.GetWild(Model(s), rest, BufferOf(buf, len))) ==
        if deeper then RouteTree.GetValue(old(Model(s.kids[0])), rest[end..], BufferOf(buf', len'))
        else Serve(handle, BufferOf(buf', len'))
    {
      hide Linked, Model, Models, RouteTree.GetValue, RouteTree.GetWild;
      ghost var c, p := Model(s), BufferOf(buf, len);
      Fields(s);
      WildStep(c, rest, p);
      end, deeper, handle := 0, false, None;
      if kind == Kind.Param {
        end := SegmentEnd(rest);
        buf', len' := Record(maxParams, buf, len, path[1..], rest[..end]);
        if end == |rest| { handle := this.handle; } else { deeper := |children| > 0; }
      } else {
        buf', len' := Record(maxParams, buf, len, path[2..], rest);
        handle := this.handle;
      }
    }

    /** getValue: the descent, with the parameters in a buffer that is allocated once. */
    method GetValue(path: string, ghost s: Skeleton, ghost repr: set<RouterNode>)
      returns (handle: Option<Handle>, params: seq<Patterns.Param>)
      requires s.node == this && Linked(s) && Objs(s) <= repr && RouteTree.GetValue(Model(s), path, Nil) != Crash
      ensures RouteTree.GetValue(Model(s), path, Nil) ==
        if handle.Some? then Found(handle.value, params) else Missing
    {
      hide Linked, Model, Models, Objs, AllObjs, RouteTree.GetValue, RouteTree.GetWild;
      var n, rest := this, path;
      var buf: array?<Patterns.Param>, len: nat := null, 0;
      ghost var at, r := s, RouteTree.GetValue(Model(s), path, Nil);
      params, handle := [], None;
      while true
        invariant at.node == n && Linked(at) && Objs(at) <= repr && handle.None?
        invariant if buf == null then len == 0 else len <= buf.Length && fresh(buf)
        invariant r == RouteTree.GetValue(Model(s), path, Nil)
        invariant r == RouteTree.GetValue(Model(at), rest, BufferOf(buf, len))
        decreases at
      {
        ghost var m, p := Model(at), BufferOf(buf, len);
        Fields(at);
        if |rest| <= |n.path| {
          Ends(m, rest, p);
          if rest == n.path {
            handle, params := n.handle, if buf == null then [] else buf[..len];
          }
          return;
        }
        Step(m, rest, p);
        if rest[..|n.path|] != n.path { return; }
        rest := rest[|n.path|..];
        if !n.wildChild {
          var i := 0;
          while i < |n.indices| && rest[0] != n.indices[i]
            invariant i <= |n.indices| && forall k :: 0 <= k < i ==> n.indices[k] != rest[0]
          {
            i := i + 1;
          }
          assert i == IndexOf(n.indices, rest[0]);
          if i == |n.indices| { return; }
          LinkedKid(at, i);
          n, at := n.children[i], at.kids[i];
        } else {
          LinkedKid(at, 0);
          n, at := n.children[0], at.kids[0];
          var end, deeper;
          end, deeper, handle, buf, len := n.TakeWild(rest, buf, len, at);
          if !deeper {
            params := buf[..len];
            return;
          }
          Fields(at);
          LinkedKid(at, 0);
          rest, n, at := rest[end..], n.children[0], at.kids[0];
        }
      }
    }

    /** Counting one more route below this node. */
    method CountRoute(ghost s: Skeleton, ghost repr: set<RouterNode>)
      requires s.node == this && Linked(s) && Distinct(s) && Objs(s) <= repr
      modifies this`priority
      ensures Linked(s) && Model(s) == old(Model(s)).(priority := old(priority) + 1)
    {
      hide Linked, AllLinked, Model, Models, Objs, AllObjs, Distinct, AllDistinct;
      Inside(s);
      ghost var kids := Models(s.kids);
      priority := priority + 1;
      assert AllLinked(s.kids) && Models(s.kids) == kids;
      Outside(s);
    }

    method CountChild(idx: nat, ghost ks: seq<Skeleton>, ghost repr: set<RouterNode>)
      requires children == Roots(ks) && AllLinked(ks) && AllDistinct(ks) && AllObjs(ks) <= repr && idx < |ks|
      modifies ks[idx].node`priority
      ensures AllLinked(ks) && forall i :: 0 <= i < |ks| ==> Linked(ks[i])
      ensures Models(ks) == old(Models(ks))[idx := old(Models(ks)[idx]).(priority := old(Models(ks)[idx].priority) + 1)]
    {
      hide Linked, AllLinked, Model, Models, Objs, AllObjs, Distinct, AllDistinct;
      AllKids(ks, idx);
      Fields(ks[idx]);
      ghost var models := Models(ks);
      children[idx].CountRoute(ks[idx], repr);
      forall i | 0 <= i < |ks| ensures Linked(ks[i]) && (i != idx ==> Model(ks[i]) == models[i]) {}
      AllLinkedNow(ks);
    }

    /** The loop of incrementChildPrio: the child at idx bubbles left. */
    method Overtake(idx: nat, ghost models: seq<Node>) returns (newIdx: nat)
      requires idx < |children| == |models|
      requires forall i :: 0 <= i < |models| ==> children[i].priority == models[i].priority
      modifies this`children
      ensures newIdx == NewPos(models, idx, models[idx].priority)
      ensures children == MoveLeft(old(children), idx, newIdx)
    {
      var prio := children[idx].priority;
      newIdx := idx;
      ghost var cs := children;
      while newIdx > 0 && children[newIdx - 1].priority < prio
        invariant newIdx <= idx && children == MoveLeft(cs, idx, newIdx)
        invariant NewPos(models, newIdx, prio) == NewPos(models, idx, prio)
      {
        SwapMoves(cs, idx, newIdx);
        children := children[newIdx - 1 := children[newIdx]][newIdx := children[newIdx - 1]];
        newIdx := newIdx - 1;
      }
    }

    /** The index bytes follow the child from idx to newIdx, as far as the code has it. */
    method MoveIndexByte(idx: nat, newIdx: nat, v: Version)
      requires newIdx <= idx < |indices|
      modifies this`indices
      ensures indices == MoveIndex(old(indices), idx, newIdx, v)
    {
      assert indices[idx..idx + 1] == [indices[idx]];
      if newIdx != idx {
        if v.r1 {
          indices := indices[..newIdx] + indices[idx..idx + 1] + indices[newIdx..idx] + indices[idx + 1..];
        } else {
          indices := indices[..newIdx] + indices[newIdx..idx + 1] + indices[newIdx..idx] + indices[idx + 1..];
        }
      }
    }

    /** incrementChildPrio: count one more route below the child at idx and let it overtake. */
    method IncrementChildPrio(idx: nat, v: Version, ghost ks: seq<Skeleton>, ghost repr: set<RouterNode>)
      returns (newIdx: nat)
      requires children == Roots(ks) && AllLinked(ks) && AllDistinct(ks) && AllObjs(ks) <= repr && this !in AllObjs(ks)
      requires idx < |ks| && idx < |indices|
      modifies this`children, this`indices, ks[idx].node`priority
      ensures newIdx <= idx && children == Roots(MoveLeft(ks, idx, newIdx))
      ensures AllLinked(ks)
      ensures (Models(MoveLeft(ks, idx, newIdx)), indices, newIdx)
        == RouteTree.IncrementChildPrio(old(Models(ks)), old(indices), idx, v)
    {
      hide Linked, AllLinked, Model, Models, Objs, AllObjs, Distinct, AllDistinct, NewPos, MoveIndex, MoveLeft;
      ghost var models := Models(ks);
      CountChild(idx, ks, repr);
      ghost var models' := Models(ks);
      forall i | 0 <= i < |ks| ensures ks[i].node.priority == models'[i].priority { Fields(ks[i]); }
      newIdx := Overtake(idx, models');
      NewPosSameAt(models, idx, models'[idx], idx, models'[idx].priority);
      assert models' == models[idx := models'[idx]] && newIdx == NewPos(models, idx, models'[idx].priority);
      assert AllLinked(ks) && Models(ks) == models';
      MoveIndexByte(idx, newIdx, v);
      assert Models(ks) == models';
      MovedModels(ks, idx, newIdx);
    }

    /** Text and handle of the last node of a route. */
    method StoreLeaf(text: string, h: Handle, ghost c: Context, ghost at: Skeleton, ghost repr: set<RouterNode>)
      requires Walking(c, at) && at.node == this && CtxObjs(c) + Objs(at) <= repr
      modifies this`path, this`handle
      ensures Walking(c, at) && Model(at) == old(Model(at)).(path := text, handle := Some(h))
      ensures forall t :: PlugModel(c, t) == old(PlugModel(c, t))
    {
      hide Linked, AllLinked, Model, Models, Objs, AllObjs, Distinct, AllDistinct, CtxLinked, CtxObjs, CtxDistinct,
           PlugModel;
      Inside(at);
      ghost var kids := Models(at.kids);
      path, handle := text, Some(h);
      assert AllLinked(at.kids) && Models(at.kids) == kids;
      Outside(at);
      assert CtxLinked(c, this);
    }

    /** This node gets its text and a new node as its only child; the walk goes on at that. */
    method HangChild(n: RouterNode, text: string, wild: bool,
                     ghost c: Context, ghost at: Skeleton, ghost repr: set<RouterNode>, ghost t: Option<Node>)
      returns (ghost c': Context, ghost at': Skeleton)
      requires Walking(c, at) && at.node == this && CtxObjs(c) + Objs(at) <= repr && n !in repr && n.children == []
      modifies this`path, this`wildChild, this`children
      ensures Walking(c', at') && at'.node == n && CtxObjs(c') + Objs(at') <= repr + {n}
      ensures Model(at') == n.Value([]) && Plug(c', at').node == Plug(c, at).node
      ensures Lift(c', t)
        == old(Lift(c, if t.None? then None else Some(Value([t.value]).(path := text, wildChild := wild))))
    {
      hide Linked, AllLinked, Model, Models, Objs, AllObjs, Distinct, AllDistinct, CtxLinked, CtxObjs, CtxDistinct,
           PlugModel;
      Fields(at);
      path, wildChild, children := text, wild, [n];
      assert CtxDistinct(c) && CtxLinked(c, this);
      StepToNew(c, this, n);
      c', at' := In(c, this, [], []), Skeleton(n, []);
      PlugRoot(c, at, Skeleton(this, [] + [at'] + []));
    }

    /** One parameter path[i..end] below this node; the walk goes on after it, or at it if it ends the path. */
    method AddParam(path: string, offset: nat, i: nat, end: nat, w: nat, ghost h: Handle, ghost v: Version,
                    ghost c: Context, ghost at: Skeleton, ghost repr: set<RouterNode>)
      returns (n: RouterNode, offset': nat, ghost c': Context, ghost at': Skeleton, ghost repr': set<RouterNode>)
      requires Walking(c, at) && at.node == this && children == [] && w > 0 && CtxObjs(c) + Objs(at) <= repr
      requires offset <= i < end <= |path| && NoWild(path[offset..i]) && path[i] == ':'
      requires end == i + 1 + SegEnd(path[i + 1..]) && NoWild(path[i + 1..end]) && end - i >= 2
      requires offset > 0 ==> i > offset
      modifies this
      ensures Walking(c', at') && at'.node == n && fresh(n) && CtxObjs(c') + Objs(at') <= repr' && fresh(repr' - repr)
      ensures offset' == (if end < |path| then end else i) && Plug(c', at').node == Plug(c, at).node
      ensures Lift(c', Goal(Model(at'), path[offset'..], Dec8(w), end == |path|, h, v))
           == old(Lift(c, RouteTree.InsertLoop(Model(at), path[offset..], w, h, v)))
    {
      hide Linked, AllLinked, Model, Models, Objs, AllObjs, Distinct, AllDistinct, CtxLinked, CtxObjs, CtxDistinct,
           PlugModel,
           RouteTree.InsertLoop, SegEnd, Walking, Lift, Plug, NoWild, Goal;
      WalkFields(c, at);
      var text := if i > 0 then path[offset..i] else this.path;
      ghost var deep, t := ParamGoal(Model(at), path, offset, i, end, w, text, h, v);
      n := new RouterNode("", false, Kind.Param, w, 0, "", [], None);
      n.priority := n.priority + 1;
      c', at' := HangChild(n, text, true, c, at, repr, t);
      repr', offset' := repr + {n}, i;
      if end < |path| {
        n, c', at', repr' := n.AddAfter(path[i..end], w, c', at', repr', deep);
        offset' := end;
      }
    }

    /** This parameter node gets its text and an empty static node for what comes behind it. */
    method AddAfter(text: string, w: nat, ghost c: Context, ghost at: Skeleton, ghost repr: set<RouterNode>,
        ghost t: Option<Node>)
      returns (n: RouterNode, ghost c': Context, ghost at': Skeleton, ghost repr': set<RouterNode>)
      requires Walking(c, at) && at.node == this && CtxObjs(c) + Objs(at) <= repr
      modifies this`path, this`wildChild, this`children
      ensures Walking(c', at') && at'.node == n && fresh(n) && repr' == repr + {n} && CtxObjs(c') + Objs(at') <= repr'
      ensures Model(at') == Node("", false, Static, Dec8(w), 1, "", [], None) && Plug(c', at').node == Plug(c, at).node
      ensures Lift(c', t)
        == old(Lift(c, if t.None? then None else Some(Value([t.value]).(path := text, wildChild := false))))
    {
      hide Linked, Model, Models, Objs, Distinct, CtxLinked, CtxObjs, CtxDistinct, PlugModel, Walking, Lift, Plug;
      n := new RouterNode("", false, Static, Dec8(w), 1, "", [], None);
      c', at' := HangChild(n, text, false, c, at, repr, t);
      repr' := repr + {n};
    }

    /** The catch-all path[i - 1..] below this node, as a wrapper and a holder. */
    method AddCatchAll(path: string, offset: nat, i: nat, h: Handle,
                       ghost c: Context, ghost at: Skeleton, ghost repr: set<RouterNode>)
      returns (ghost at': Skeleton, ghost repr': set<RouterNode>)
      requires Walking(c, at) && at.node == this && children == [] && CtxObjs(c) + Objs(at) <= repr
      requires offset <= i - 1 && i < |path|
      modifies this
      ensures Walking(c, at') && at'.node == this && CtxObjs(c) + Objs(at') <= repr' && fresh(repr' - repr)
      ensures forall t :: PlugModel(c, t) == old(PlugModel(c, t))
      ensures Model(at') == old(Model(at)).(path := path[offset..i - 1], maxParams := Max(old(maxParams), 1),
        indices := "/", children := [Wrapper(path[i - 1..], h)])
    {
      hide Linked, AllLinked, Model, Models, Objs, AllObjs, Distinct, AllDistinct, CtxLinked, CtxObjs, CtxDistinct,
           PlugModel;
      Fields(at);
      this.path := path[offset..i - 1];
      if maxParams < 1 { maxParams := 1; }
      var wrapper := new RouterNode("", true, CatchAll, 1, 0, "", [], None);
      children, indices := [wrapper], "/";
      wrapper.priority := wrapper.priority + 1;
      var holder := new RouterNode(path[i - 1..], false, CatchAll, 1, 1, "", [], Some(h));
      wrapper.children := [holder];
      at' := TwoBelow(this, wrapper, holder);
      repr' := repr + {wrapper, holder};
    }

    /** insertChild's loop over the wildcards of the path; not ok is a panic. */
    method InsertLoop(wildcard: nat, path: string, h: Handle, v: Version, ghost s: Skeleton,
        ghost repr: set<RouterNode>)
      returns (ok: bool, ghost s': Skeleton, ghost repr': set<RouterNode>)
      requires s.node == this && Linked(s) && Distinct(s) && Objs(s) <= repr && wildcard > 0
      modifies this
      ensures ok <==> RouteTree.InsertLoop(old(Model(s)), path, wildcard, h, v).Some?
      ensures ok ==> s'.node == this && Linked(s') && Distinct(s') && Objs(s') <= repr' && fresh(repr' - repr)
      ensures ok ==> Model(s') == RouteTree.InsertLoop(old(Model(s)), path, wildcard, h, v).value
    {
      hide Linked, AllLinked, Model, Models, Objs, AllObjs, Distinct, AllDistinct, CtxLinked, CtxObjs, CtxDistinct,
           PlugModel,
           RouteTree.InsertLoop, RouteTree.ParamChild, FirstWild, Wild, SegEnd, Plug, Walking, Scan;
      var n, w, offset, i := this, wildcard, 0, 0;
      s', ok, repr' := s, false, repr;
      ghost var goal := RouteTree.InsertLoop(Model(s), path, w, h, v);
      ghost var c, at, inParam := Top, s, false;
      StartWalk(s);
      ScanStart(path);
      while w > 0
        invariant Walking(c, at) && at.node == n && CtxObjs(c) + Objs(at) <= repr' && fresh(repr' - repr)
          && (n == this || fresh(n))
        invariant Plug(c, at).node == this
        invariant offset <= |path| && i <= |path| && Scan(path, offset, i, inParam)
        invariant goal == Lift(c, Goal(Model(at), path[offset..], w, inParam, h, v))
        decreases |path| - i
      {
        if i == |path| {
          if !inParam { Scanned(Model(at), path, offset, w, h, v); }
          return;
        }
        if !IsWild(path[i]) {
          ScanNext(path, offset, i, inParam);
          i := i + 1;
          continue;
        }
        ScanWild(path, offset, i, inParam);
        var end, clean := WildcardSpan(path, i);
        if !clean || |n.children| > 0 || end - i < 2 {
          WalkFields(c, at);
          PanicsAt(Model(at), path, offset, i, end, w, h, v);
          return;
        }
        if path[i] == ':' {
          n, offset, c, at, repr' := n.AddParam(path, offset, i, end, w, h, v, c, at, repr');
          ScanParam(path, i, end);
          w, inParam, i := Dec8(w), end == |path|, i + 1;
        } else {
          WalkFields(c, at);
          LoopStarAt(Model(at), path, offset, i, end, w, h, v);
          if end != |path| || w > 1 { return; }
          if |n.path| > 0 && n.path[|n.path| - 1] == '/' { return; }
          if i == 0 || path[i - 1] != '/' { return; }
          ghost var at0 := at;
          at, repr' := n.AddCatchAll(path, offset, i, h, c, at, repr');
          PlugRoot(c, at0, at);
          WalkEnds(c, at);
          s', ok := Plug(c, at), true;
          return;
        }
      }
      GoalReached(Model(at), path[offset..], inParam, h, v);
      if v.r3 { n.StoreLeaf(path[offset..], h, c, at, repr'); }
      WalkEnds(c, at);
      s', ok := Plug(c, at), true;
    }

    /** insertChild; not ok is a panic. */
    method InsertChild(wildcard: nat, path: string, h: Handle, v: Version, ghost s: Skeleton,
        ghost repr: set<RouterNode>)
      returns (ok: bool, ghost s': Skeleton, ghost repr': set<RouterNode>)
      requires s.node == this && Linked(s) && Distinct(s) && Objs(s) <= repr
      modifies this
      ensures ok <==> RouteTree.InsertChild(old(Model(s)), wildcard, path, h, v).Some?
      ensures ok ==> s'.node == this && Linked(s') && Distinct(s') && Objs(s') <= repr' && fresh(repr' - repr)
      ensures ok ==> Model(s') == RouteTree.InsertChild(old(Model(s)), wildcard, path, h, v).value
    {
      if wildcard == 0 {
        StartWalk(s);
        StoreLeaf(path, h, Top, s, repr);
        ok, s', repr' := true, s, repr;
      } else {
        ok, s', repr' := InsertLoop(wildcard, path, h, v, s, repr);
      }
    }

    /** The loop of the split that gives a node the largest maxParams of its children. */
    method TakeMaxParams(ghost models: seq<Node>)
      requires maxParams == 0 && |children| == |models| && this !in children
      requires forall k :: 0 <= k < |models| ==> children[k].maxParams == models[k].maxParams
      modifies this`maxParams
      ensures maxParams == MaxOfChildren(models)
    {
      var j := 0;
      assert models[0..] == models;
      while j < |children|
        invariant j <= |children|
        invariant Max(maxParams, MaxOfChildren(models[j..])) == MaxOfChildren(models)
      {
        assert models[j..][1..] == models[j + 1..];
        if children[j].maxParams > maxParams { maxParams := children[j].maxParams; }
        j := j + 1;
      }
    }

    /** Split edge: the tail of this node's text, and all the node held, move to a new static child. */
    method SplitEdge(i: nat, ghost c: Context, ghost at: Skeleton, ghost repr: set<RouterNode>)
      returns (ghost at': Skeleton, ghost repr': set<RouterNode>)
      requires Walking(c, at) && at.node == this && CtxObjs(c) + Objs(at) <= repr
      requires i < |path| && priority > 0
      modifies this
      ensures Walking(c, at') && at'.node == this && CtxObjs(c) + Objs(at') <= repr' && fresh(repr' - repr)
      ensures Model(at') == Split(old(Model(at)), i) && fresh(Objs(at') - Objs(at))
      ensures forall t :: PlugModel(c, t) == old(PlugModel(c, t))
    {
      hide Linked, AllLinked, Model, Models, Objs, AllObjs, Distinct, AllDistinct, CtxLinked, CtxObjs, CtxDistinct,
           PlugModel, MaxOfChildren;
      Inside(at);
      ghost var models := Models(at.kids);
      ModelsAt(at.kids);
      var child: RouterNode := new RouterNode(path[i..], wildChild, Static, 0, priority - 1, indices, children, handle);
      forall k | 0 <= k < |at.kids| ensures at.kids[k].node.maxParams == models[k].maxParams { AllFields(at.kids, k); }
      child.TakeMaxParams(models);
      children, indices, path, handle, wildChild := [child], [path[i]], path[..i], None, false;
      assert AllLinked(at.kids) && Models(at.kids) == models;
      ghost var below := Skeleton(child, at.kids);
      Outside(below);
      at', repr' := Skeleton(this, [below]), repr + {child};
      OneBelow(at', below);
      assert CtxLinked(c, this);
    }

    /** The walk is about to go to the only child: count the route there, and raise its maxParams to m. */
    method BumpChild(m: nat, ghost c: Context, ghost at: Skeleton, ghost repr: set<RouterNode>)
      requires Walking(c, at) && at.node == this && CtxObjs(c) + Objs(at) <= repr && |at.kids| == 1
      modifies at.kids[0].node`priority, at.kids[0].node`maxParams
      ensures Walking(c, at)
      ensures var b := old(Model(at)).children[0];
        Model(at) == old(Model(at)).(children := [b.(priority := b.priority + 1, maxParams := Max(b.maxParams, m))])
      ensures forall t :: PlugModel(c, t) == old(PlugModel(c, t))
    {
      hide Linked, AllLinked, Model, Models, Objs, AllObjs, Distinct, AllDistinct, CtxLinked, CtxObjs, CtxDistinct,
           PlugModel;
      Inside(at);
      ghost var kid := at.kids[0];
      AllKids(at.kids, 0);
      Inside(kid);
      ModelsAt(at.kids);
      ghost var below := Models(kid.kids);
      var child := children[0];
      child.priority := child.priority + 1;
      if m > child.maxParams { child.maxParams := m; }
      assert AllLinked(kid.kids) && Models(kid.kids) == below;
      Outside(kid);
      OneBelow(at, kid);
      assert CtxLinked(c, this);
    }

    /** The walk is about to go to the child at idx: count the route there and let the child overtake. */
    method PromoteChild(idx: nat, v: Version, ghost c: Context, ghost at: Skeleton, ghost repr: set<RouterNode>)
      returns (k: nat, ghost at': Skeleton)
      requires Walking(c, at) && at.node == this && CtxObjs(c) + Objs(at) <= repr && idx < |at.kids| && idx < |indices|
      modifies this`children, this`indices, at.kids[idx].node`priority
      ensures Walking(c, at') && at'.node == this && Objs(at') == Objs(at) && k < |at'.kids| == |at.kids|
      ensures at'.kids[k] == at.kids[idx]
      ensures var (kids, ix, k') := RouteTree.IncrementChildPrio(old(Model(at)).children, old(indices), idx, v);
        k == k' && Model(at') == old(Model(at)).(children := kids, indices := ix)
      ensures forall t :: PlugModel(c, t) == old(PlugModel(c, t))
    {
      hide Linked, AllLinked, Model, Models, Objs, AllObjs, Distinct, AllDistinct, CtxLinked, CtxObjs, CtxDistinct,
           PlugModel;
      Inside(at);
      AllKids(at.kids, idx);
      k := IncrementChildPrio(idx, v, at.kids, repr);
      ghost var ks := MoveLeft(at.kids, idx, k);
      MovedObjs(at.kids, idx, k);
      MovedDistinct(at.kids, idx, k);
      MovedModels(at.kids, idx, k);
      at' := Skeleton(this, ks);
      Outside(at');
      assert CtxLinked(c, this);
    }

    /** A new child for the rest of the path, or the wildcard at its front, below this node; not ok is a panic. */
    method AddNew(rest: string, w: nat, h: Handle, v: Version, ghost c: Context, ghost at: Skeleton,
        ghost repr: set<RouterNode>)
      returns (ok: bool, ghost c': Context, ghost at': Skeleton, ghost repr': set<RouterNode>)
      requires Walking(c, at) && at.node == this && CtxObjs(c) + Objs(at) <= repr && rest != ""
        && |indices| == |children|
      modifies this
      ensures ok <==> RouteTree.AddNew(old(Model(at)), rest, w, h, v).Some?
      ensures ok ==> Walking(c', at') && CtxObjs(c') + Objs(at') <= repr' && fresh(repr' - repr)
      ensures ok ==> Plug(c', at').node == Plug(c, at).node
      ensures ok ==> PlugModel(c', Model(at')) == old(PlugModel(c, RouteTree.AddNew(Model(at), rest, w, h, v).value))
    {
      hide Linked, AllLinked, Model, Models, Objs, AllObjs, Distinct, AllDistinct, CtxLinked, CtxObjs, CtxDistinct,
           PlugModel,
           RouteTree.InsertChild, RouteTree.IncrementChildPrio, Walking, Plug;
      c', at', repr' := c, at, repr;
      WalkFields(c, at);
      if IsWild(rest[0]) {
        ok, at', repr' := InsertInto(rest, w, h, v, c, at, repr);
        PlugRoot(c, at, at');
      } else {
        AddNewPromotes(Model(at), rest, w, h, v);
        hide RouteTree.AddNew;
        var child := new RouterNode("", false, Static, w, 0, "", [], None);
        at' := AppendChild(child, rest[0], c, at, repr);
        PlugRoot(c, at, at');
        WalkFields(c, at');
        ghost var at1 := at';
        var k;
        k, at' := PromoteChild(|indices| - 1, v, c, at', repr + {child});
        PlugRoot(c, at1, at');
        WalkFields(c, at');
        StepDown(c, at', k);
        c', at' := In(c, this, at'.kids[..k], at'.kids[k + 1..]), at'.kids[k];
        ghost var leaf := at';
        ok, at', repr' := child.InsertInto(rest, w, h, v, c', at', repr + {child});
        PlugRoot(c', leaf, at');
      }
    }

    /** A new last child under a new index byte. */
    method AppendChild(child: RouterNode, b: char, ghost c: Context, ghost at: Skeleton, ghost repr: set<RouterNode>)
      returns (ghost at': Skeleton)
      requires Walking(c, at) && at.node == this && CtxObjs(c) + Objs(at) <= repr && child !in repr
        && child.children == []
      modifies this`children, this`indices
      ensures Walking(c, at') && at'.node == this && Objs(at') == Objs(at) + {child}
      ensures at'.kids == at.kids + [Skeleton(child, [])]
      ensures Model(at') == old(Model(at)).(children := old(Model(at)).children + [child.Value([])],
          indices := old(indices) + [b])
      ensures forall t :: PlugModel(c, t) == old(PlugModel(c, t))
    {
      hide Linked, AllLinked, Model, Models, Objs, Distinct, CtxLinked, CtxObjs, CtxDistinct, PlugModel;
      Inside(at);
      ghost var leaf, models := Skeleton(child, []), Models(at.kids);
      ModelsAt(at.kids);
      Leaf(leaf);
      children, indices := children + [child], indices + [b];
      assert AllLinked(at.kids) && Models(at.kids) == models;
      at' := Skeleton(this, at.kids + [leaf]);
      AppendParts(at.kids, leaf);
      Outside(at');
      assert CtxLinked(c, this);
    }

    /** insertChild in the middle of a walk. */
    method InsertInto(rest: string, w: nat, h: Handle, v: Version, ghost c: Context, ghost at: Skeleton,
        ghost repr: set<RouterNode>)
      returns (ok: bool, ghost at': Skeleton, ghost repr': set<RouterNode>)
      requires Walking(c, at) && at.node == this && CtxObjs(c) + Objs(at) <= repr
      modifies this
      ensures ok <==> RouteTree.InsertChild(old(Model(at)), w, rest, h, v).Some?
      ensures at'.node == this
      ensures ok ==> Walking(c, at') && CtxObjs(c) + Objs(at') <= repr' && fresh(repr' - repr)
      ensures ok ==> Model(at') == RouteTree.InsertChild(old(Model(at)), w, rest, h, v).value
      ensures forall t :: PlugModel(c, t) == old(PlugModel(c, t))
    {
      hide Linked, AllLinked, Model, Models, Objs, AllObjs, Distinct, AllDistinct, CtxLinked, CtxObjs, CtxDistinct,
           PlugModel,
           RouteTree.InsertChild;
      Inside(at);
      ghost var objs;
      ok, at', objs := InsertChild(w, rest, h, v, at, Objs(at));
      repr' := repr;
      if ok {
        repr' := repr + objs;
        assert CtxLinked(c, this);
      } else {
        at' := at;
      }
    }

    /** The second half of a turn of addRoute's walk: where the walk goes below the text of this node. */
    method GoBelow(rest: string, w: nat, h: Handle, v: Version,
                   ghost c: Context, ghost at: Skeleton, ghost repr: set<RouterNode>, ghost goal: Option<Node>)
      returns (turn: Turn, n: RouterNode, w': nat, ghost c': Context, ghost at': Skeleton, ghost repr': set<RouterNode>)
      requires Walking(c, at) && at.node == this && CtxObjs(c) + Objs(at) <= repr
      requires Below(Model(at), rest) && !(kind == CatchAll && !wildChild)
      requires goal == Lift(c, AddBelow(Model(at), rest, w, h, v))
      modifies Objs(at)
      ensures turn.Panic? ==> goal.None?
      ensures !turn.Panic? ==>
        Walking(c', at') && CtxObjs(c') + Objs(at') <= repr' && fresh(repr' - repr)
          && Plug(c', at').node == Plug(c, at).node
      ensures turn.Done? ==> goal == Some(PlugModel(c', Model(at')))
      ensures turn.Descend? ==> at'.node == n && Objs(at') <= Objs(at)
      ensures turn.Descend? ==> exists k :: 0 <= k < |at.kids| && at' == at.kids[k]
      ensures turn.Descend? ==>
        Pending(Model(at')) && Entry(Model(at'), rest) && goal == Lift(c', AddAt(Model(at'), rest, w', h, v))
    {
      hide Linked, AllLinked, Model, Models, Objs, AllObjs, Distinct, AllDistinct, CtxLinked, CtxObjs, CtxDistinct,
           PlugModel,
           AddBelow, AddAt, Body, WF, Shape, Count, CountAll, Fits, RouteTree.AddNew, RouteTree.IncrementChildPrio,
               Walking, Plug;
      turn, n, w', c', at', repr' := Panic, this, w, c, at, repr;
      WalkFields(c, at);
      ghost var m := Model(at);
      if wildChild {
        WildDown(m, rest, w, h, v);
        BumpChild(w, c, at, repr);
        StepDown(c, at, 0);
        n := children[0];
        c', at' := In(c, this, at.kids[..0], at.kids[1..]), at.kids[0];
        WalkFields(c', at');
        if n.path <= rest && n.kind != CatchAll && (|n.path| >= |rest| || rest[|n.path|] == '/') {
          turn, w' := Descend, Dec8(w);
        }
      } else if rest == "" {
        NothingLeft(m, w, h, v);
      } else if kind == Kind.Param && rest[0] == '/' && |children| == 1 {
        SlashDown(m, rest, w, h, v);
        BumpChild(0, c, at, repr);
        StepDown(c, at, 0);
        turn, n := Descend, children[0];
        c', at' := In(c, this, at.kids[..0], at.kids[1..]), at.kids[0];
      } else {
        IndexDown(m, rest, w, h, v);
        var idx := 0;
        while idx < |indices| && rest[0] != indices[idx]
          invariant idx <= |indices| && forall j :: 0 <= j < idx ==> indices[j] != rest[0]
        {
          idx := idx + 1;
        }
        assert idx == IndexOf(m.indices, rest[0]);
        if idx < |indices| {
          var k;
          k, at' := PromoteChild(idx, v, c, at, repr);
          PlugRoot(c, at, at');
          WalkFields(c, at');
          StepDown(c, at', k);
          turn, n := Descend, children[k];
          c', at' := In(c, this, at'.kids[..k], at'.kids[k + 1..]), at'.kids[k];
        } else {
          var ok;
          ok, c', at', repr' := AddNew(rest, w, h, v, c, at, repr);
          if ok { turn := Done; }
        }
      }
    }

    method StoreHandle(h: Handle, ghost c: Context, ghost at: Skeleton, ghost repr: set<RouterNode>)
      requires Walking(c, at) && at.node == this && CtxObjs(c) + Objs(at) <= repr
      modifies this`handle
      ensures Walking(c, at) && Model(at) == old(Model(at)).(handle := Some(h))
      ensures forall t :: PlugModel(c, t) == old(PlugModel(c, t))
    {
      hide Linked, AllLinked, Model, Models, Objs, AllObjs, Distinct, AllDistinct, CtxLinked, CtxObjs, CtxDistinct,
           PlugModel;
      Inside(at);
      ghost var kids := Models(at.kids);
      handle := Some(h);
      assert AllLinked(at.kids) && Models(at.kids) == kids;
      Outside(at);
      assert CtxLinked(c, this);
    }

    method RaiseMaxParams(m: nat, ghost c: Context, ghost at: Skeleton, ghost repr: set<RouterNode>)
      requires Walking(c, at) && at.node == this && CtxObjs(c) + Objs(at) <= repr
      modifies this`maxParams
      ensures Walking(c, at) && Model(at) == old(Model(at)).(maxParams := Max(old(maxParams), m))
      ensures forall t :: PlugModel(c, t) == old(PlugModel(c, t))
    {
      hide Linked, AllLinked, Model, Models, Objs, AllObjs, Distinct, AllDistinct, CtxLinked, CtxObjs, CtxDistinct,
           PlugModel;
      Inside(at);
      ghost var kids := Models(at.kids);
      if m > maxParams { maxParams := m; }
      assert AllLinked(at.kids) && Models(at.kids) == kids;
      Outside(at);
      assert CtxLinked(c, this);
    }

    /** The first half of a turn of addRoute's walk: the common prefix and the split edge. */
    method CutText(path: string, w: nat, ghost c: Context, ghost at: Skeleton, ghost repr: set<RouterNode>)
      returns (i: nat, ghost at': Skeleton, ghost repr': set<RouterNode>)
      requires Walking(c, at) && at.node == this && CtxObjs(c) + Objs(at) <= repr
      requires Pending(Model(at)) && Entry(Model(at), path)
      modifies this
      ensures i == Lcp(path, old(this.path)) && Walking(c, at') && at'.node == this
      ensures CtxObjs(c) + Objs(at') <= repr' && fresh(repr' - repr)
      ensures i <= |old(this.path)| && (i < |old(this.path)| ==> i > 0 && old(kind) in {Static, Root})
      ensures Model(at') == Cut(old(Model(at)), i, w)
      ensures forall t :: PlugModel(c, t) == old(PlugModel(c, t))
      ensures fresh(Objs(at') - Objs(at)) && (i == |old(this.path)| ==> at' == at)
    {
      hide Linked, AllLinked, Model, Models, Objs, AllObjs, Distinct, AllDistinct, CtxLinked, CtxObjs, CtxDistinct,
           PlugModel,
           AddAt, Walking, Body, Fits, Count;
      WalkFields(c, at);
      TurnAt(Model(at), path, w, [], REPAIRED);
      RaiseMaxParams(w, c, at, repr);
      i := CommonPrefix(path, this.path);
      at', repr' := at, repr;
      if i < |this.path| { at', repr' := SplitEdge(i, c, at, repr); }
    }

    /** One turn of the walk of addRoute. */
    method WalkTurn(path: string, w: nat, h: Handle, v: Version,
                    ghost c: Context, ghost at: Skeleton, ghost repr: set<RouterNode>, ghost goal: Option<Node>)
      returns (turn: Turn, n: RouterNode, rest: string, w': nat, ghost c': Context, ghost at': Skeleton,
          ghost repr': set<RouterNode>)
      requires Walking(c, at) && at.node == this && CtxObjs(c) + Objs(at) <= repr
      requires Pending(Model(at)) && Entry(Model(at), path) && goal == Lift(c, AddAt(Model(at), path, w, h, v))
      modifies Objs(at)
      ensures turn.Panic? ==> goal.None?
      ensures !turn.Panic? ==>
        Walking(c', at') && CtxObjs(c') + Objs(at') <= repr' && fresh(repr' - repr)
          && Plug(c', at').node == Plug(c, at).node
      ensures turn.Done? ==> goal == Some(PlugModel(c', Model(at')))
      ensures turn.Descend? ==> at'.node == n && fresh(Objs(at') - Objs(at)) && |rest| <= |path|
      ensures turn.Descend? ==> |rest| < |path| || exists k :: 0 <= k < |at.kids| && at' == at.kids[k]
      ensures turn.Descend? ==>
        Pending(Model(at')) && Entry(Model(at'), rest) && goal == Lift(c', AddAt(Model(at'), rest, w', h, v))
    {
      hide Linked, AllLinked, Model, Models, Objs, AllObjs, Distinct, AllDistinct, CtxLinked, CtxObjs, CtxDistinct,
           PlugModel,
           AddBelow, AddAt, Body, WF, Shape, Count, CountAll, Fits, Walking, Plug, Cut;
      WalkFields(c, at);
      TurnAt(Model(at), path, w, h, v);
      var i;
      turn, n, rest, w', c' := Panic, this, path, w, c;
      i, at', repr' := CutText(path, w, c, at, repr);
      PlugRoot(c, at, at');
      WalkFields(c, at');
      if i == |path| {
        if handle.Some? { return; }
        StoreHandle(h, c, at', repr');
        if v.r2 {
          turn := Done;
          return;
        }
      }
      rest := path[i..];
      turn, n, w', c', at', repr' := GoBelow(rest, w, h, v, c, at', repr', goal);
    }

    /** addRoute on this root; not ok is a panic. */
    method AddRoute(path: string, h: Handle, v: Version, ghost s: Skeleton, ghost repr: set<RouterNode>)
      returns (ok: bool, ghost s': Skeleton, ghost repr': set<RouterNode>)
      requires s.node == this && Linked(s) && Distinct(s) && Objs(s) <= repr && Tree(Model(s))
      requires path != "" && path[0] == '/'
      modifies Objs(s)
      ensures ok <==> RouteTree.AddRoute(old(Model(s)), path, h, v).Some?
      ensures ok ==> s'.node == this && Linked(s') && Distinct(s') && Objs(s') <= repr' && fresh(repr' - repr)
      ensures ok ==> Model(s') == RouteTree.AddRoute(old(Model(s)), path, h, v).value
    {
      hide Linked, AllLinked, Model, Models, Objs, AllObjs, Distinct, AllDistinct, CtxLinked, CtxObjs, CtxDistinct,
           PlugModel,
           AddBelow, AddAt, Body, WF, Shape, Count, CountAll, Fits, Walking, Plug, Cut, RouteTree.InsertChild, Wild;
      Fields(s);
      ghost var m := Model(s);
      CountRoute(s, repr);
      var w := CountWildcards(path);
      Fields(s);
      ok, s', repr' := false, s, repr;
      if |this.path| == 0 && |children| == 0 {
        ok, s', repr' := InsertChild(w, path, h, v, s, repr);
        if ok { MakeRoot(s', repr'); }
        return;
      }
      assert m != EMPTY;
      Bumped(m, m.maxParams);
      var n, rest := this, path;
      ghost var c, at := Top, s;
      StartWalk(s);
      ghost var goal := AddAt(Model(s), path, w, h, v);
      while true
        invariant Walking(c, at) && at.node == n && CtxObjs(c) + Objs(at) <= repr' && fresh(repr' - repr)
          && fresh(Objs(at) - Objs(s))
        invariant Plug(c, at).node == this && Pending(Model(at)) && Entry(Model(at), rest)
        invariant goal == Lift(c, AddAt(Model(at), rest, w, h, v))
        decreases |rest|, at
      {
        var turn;
        turn, n, rest, w, c, at, repr' := n.WalkTurn(rest, w, h, v, c, at, repr', goal);
        if turn.Panic? { return; }
        if turn.Done? { break; }
      }
      WalkEnds(c, at);
      ok, s' := true, Plug(c, at);
    }

    method MakeRoot(ghost s: Skeleton, ghost repr: set<RouterNode>)
      requires s.node == this && Linked(s) && Distinct(s) && Objs(s) <= repr
      modifies this`kind
      ensures Linked(s) && Model(s) == old(Model(s)).(kind := Root)
    {
      hide Linked, AllLinked, Model, Models, Objs, AllObjs, Distinct, AllDistinct;
      Inside(s);
      ghost var kids := Models(s.kids);
      kind := Root;
      assert AllLinked(s.kids) && Models(s.kids) == kids;
      Outside(s);
    }

    /** This node as a value, over the given children. */
    ghost function Value(kids: seq<Node>): Node
      reads this
    {
      Node(path, wildChild, kind, maxParams, priority, indices, kids, handle)
    }
  }

  /** The parameter buffer as lookup's specification sees it. */
  function BufferOf(buf: array?<Patterns.Param>, len: nat): Buffer
    requires buf != null ==> len <= buf.Length
    reads buf
  {
    if buf == null then Nil else Slice(buf[..len], buf.Length)
  }

  /** Saving one parameter: the buffer is allocated on first use and filled within its capacity. */
  method Record(maxParams: nat, buf: array?<Patterns.Param>, len: nat, key: string, val: string)
    returns (buf': array<Patterns.Param>, len': nat)
    requires if buf == null then len == 0 else len <= buf.Length
    requires var q := Alloc(BufferOf(buf, len), maxParams); |q.items| < q.cap
    modifies buf
    ensures if buf == null then fresh(buf') else buf' == buf
    ensures len' <= buf'.Length
    ensures var q := Alloc(old(BufferOf(buf, len)), maxParams);
      BufferOf(buf', len') == q.(items := q.items + [Patterns.Param(key, val)])
  {
    if buf == null { buf' := new Patterns.Param[maxParams]; } else { buf' := buf; }
    buf'[len] := Patterns.Param(key, val);
    len' := len + 1;
  }

  ghost function Lift(c: Context, r: Option<Node>): Option<Node>
    reads CtxObjs(c)
  {
    match r
    case None => None
    case Some(t) => Some(PlugModel(c, t))
  }

  // ------------------------------------------------------------------ the part above a node

  datatype Context = Top | In(up: Context, node: RouterNode, left: seq<Skeleton>, right: seq<Skeleton>)

  ghost function CtxObjs(c: Context): set<RouterNode> {
    match c
    case Top => {}
    case In(up, node, left, right) => CtxObjs(up) + {node} + AllObjs(left) + AllObjs(right)
  }

  ghost predicate CtxDistinct(c: Context) {
    match c
    case Top => true
    case In(up, node, left, right) =>
      && CtxDistinct(up) && node !in CtxObjs(up) && AllDistinct(left) && AllDistinct(right)
      && AllObjs(left) !! AllObjs(right) && node !in AllObjs(left) + AllObjs(right)
      && CtxObjs(up) !! AllObjs(left) + AllObjs(right)
  }

  /** The context is as the heap says, with hole where the walk is. */
  ghost predicate CtxLinked(c: Context, hole: RouterNode)
    reads CtxObjs(c)
  {
    match c
    case Top => true
    case In(up, node, left, right) =>
      node.children == Roots(left) + [hole] + Roots(right) && AllLinked(left) && AllLinked(right) && CtxLinked(up, node)
  }

  ghost function Plug(c: Context, s: Skeleton): Skeleton {
    match c
    case Top => s
    case In(up, node, left, right) => Plug(up, Skeleton(node, left + [s] + right))
  }

  /** The whole tree with t where the walk is. */
  ghost function PlugModel(c: Context, t: Node): Node
    reads CtxObjs(c)
  {
    match c
    case Top => t
    case In(up, node, left, right) => PlugModel(up, node.Value(Models(left) + [t] + Models(right)))
  }

  /** The walk is at the root of subtree at, with context c above it. */
  ghost predicate Walking(c: Context, at: Skeleton)
    reads CtxObjs(c), Objs(at)
  {
    && Linked(at) && Distinct(at)
    && CtxDistinct(c) && CtxLinked(c, at.node) && CtxObjs(c) !! Objs(at)
  }

  lemma WalkFields(c: Context, at: Skeleton)
    requires Walking(c, at)
    ensures Model(at) == at.node.Value(Models(at.kids)) && at.node in Objs(at)
    ensures |at.node.children| == |Model(at).children| == |at.kids|
    ensures forall k :: 0 <= k < |at.kids| ==> at.kids[k].node in Objs(at)
  {
    forall k | 0 <= k < |at.kids| ensures at.kids[k].node in Objs(at) { assert at.kids[k].node in Objs(at.kids[k]); }
  }

  lemma PlugRoot(c: Context, s: Skeleton, s': Skeleton)
    requires s.node == s'.node
    ensures Plug(c, s).node == Plug(c, s').node
  {
    if c.In? { PlugRoot(c.up, Skeleton(c.node, c.left + [s] + c.right), Skeleton(c.node, c.left + [s'] + c.right)); }
  }

  lemma StartWalk(s: Skeleton)
    requires Linked(s) && Distinct(s)
    ensures Walking(Top, s) && CtxObjs(Top) == {} && Plug(Top, s) == s && forall t :: PlugModel(Top, t) == t
  {
  }

  /** A new childless node hung below n, as its only child, becomes the place of the walk. */
  lemma StepToNew(c: Context, n: RouterNode, child: RouterNode)
    requires CtxDistinct(c) && CtxLinked(c, n) && n !in CtxObjs(c) && child !in CtxObjs(c) && child != n
    requires n.children == [child] && child.children == []
    ensures Walking(In(c, n, [], []), Skeleton(child, []))
    ensures CtxObjs(In(c, n, [], [])) == CtxObjs(c) + {n} && Objs(Skeleton(child, [])) == {child}
    ensures Model(Skeleton(child, [])) == child.Value([])
    ensures forall t :: PlugModel(In(c, n, [], []), t) == PlugModel(c, n.Value([t]))
  {
    forall t ensures PlugModel(In(c, n, [], []), t) == PlugModel(c, n.Value([t])) {
      assert Models([]) + [t] + Models([]) == [t];
    }
    assert AllObjs([]) == {};
    assert Roots([]) + [child] + Roots([]) == [child];
  }

  /** Two new nodes, one below the other, below n. */
  lemma TwoBelow(n: RouterNode, a: RouterNode, b: RouterNode) returns (s: Skeleton)
    requires n != a && n != b && a != b && n.children == [a] && a.children == [b] && b.children == []
    ensures s.node == n && Linked(s) && Distinct(s) && Objs(s) == {n, a, b}
      && Model(s) == n.Value([a.Value([b.Value([])])])
  {
    var t := Skeleton(b, []);
    Leaf(t);
    var u := Skeleton(a, [t]);
    OneBelow(u, t);
    s := Skeleton(n, [u]);
    OneBelow(s, u);
  }

  lemma Leaf(t: Skeleton)
    requires t.kids == [] && t.node.children == []
    ensures Linked(t) && Distinct(t) && Objs(t) == {t.node} && Model(t) == t.node.Value([])
  {
  }

  lemma OneBelow(s: Skeleton, t: Skeleton)
    requires s.kids == [t] && s.node.children == [t.node] && Linked(t) && Distinct(t) && s.node !in Objs(t)
    ensures Linked(s) && Distinct(s) && Objs(s) == {s.node} + Objs(t) && Model(s) == s.node.Value([Model(t)])
  {
    hide Objs;
    AllObjsSplice([], t, []);
    NoSkeletons();
    assert [] + [t] + [] == [t];
    OneModel(s, t);
  }

  lemma OneModel(s: Skeleton, t: Skeleton)
    requires s.kids == [t] && s.node.children == [t.node] && Linked(t) && Distinct(t) && s.node !in AllObjs([t])
    ensures Linked(s) && Distinct(s) && Objs(s) == {s.node} + AllObjs([t]) && Model(s) == s.node.Value([Model(t)])
  {
    hide AllObjs;
    assert Models([t]) == [Model(t)];
  }

  lemma AllObjsSplice(left: seq<Skeleton>, s: Skeleton, right: seq<Skeleton>)
    ensures AllObjs(left + [s] + right) == AllObjs(left) + Objs(s) + AllObjs(right)
  {
    var ks := left + [s] + right;
    forall o | o in AllObjs(ks) ensures o in AllObjs(left) + Objs(s) + AllObjs(right) {
      var i :| 0 <= i < |ks| && o in Objs(ks[i]);
      if i < |left| { assert ks[i] == left[i]; }
      else if i > |left| { assert ks[i] == right[i - |left| - 1]; }
    }
    forall o | o in AllObjs(left) + Objs(s) + AllObjs(right) ensures o in AllObjs(ks) {
      if o in AllObjs(left) { var i :| 0 <= i < |left| && o in Objs(left[i]); assert ks[i] == left[i]; }
      else if o in Objs(s) { assert ks[|left|] == s; }
      else { var i :| 0 <= i < |right| && o in Objs(right[i]); assert ks[|left| + 1 + i] == right[i]; }
    }
  }

  /** What addRoute does without a child for the next byte: append one, count it, fill it. */
  lemma AddNewPromotes(n: Node, rest: string, w: nat, h: Handle, v: Version)
    requires rest != "" && !IsWild(rest[0]) && |n.indices| == |n.children|
    ensures var s := RouteTree.IncrementChildPrio(
        n.children + [EMPTY.(maxParams := w)], n.indices + [rest[0]], |n.indices|, v);
      var c := RouteTree.InsertChild(s.0[s.2], w, rest, h, v);
      RouteTree.AddNew(n, rest, w, h, v) ==
        if c.None? then None else Some(n.(children := s.0[s.2 := c.value], indices := s.1))
  {
  }

  lemma DistinctPair(left: seq<Skeleton>, s: Skeleton, right: seq<Skeleton>, i: nat, j: nat)
    requires Apart(left) && Apart(right) && i < j < |left| + 1 + |right|
    requires AllObjs(left) !! AllObjs(right) && Objs(s) !! AllObjs(left) + AllObjs(right)
    ensures Objs((left + [s] + right)[i]) !! Objs((left + [s] + right)[j])
  {
    hide Objs, AllObjs;
    var ks, m := left + [s] + right, |left|;
    if j < m {
      assert ks[i] == left[i] && ks[j] == left[j];
    } else if i > m {
      assert ks[i] == right[i - m - 1] && ks[j] == right[j - m - 1];
    } else if i < m {
      assert ks[i] == left[i];
      PartOf(left, i);
      if j > m {
        assert ks[j] == right[j - m - 1];
        PartOf(right, j - m - 1);
      }
    } else {
      assert ks[j] == right[j - m - 1];
      PartOf(right, j - m - 1);
    }
  }

  lemma PartOf(ks: seq<Skeleton>, i: nat)
    requires i < |ks|
    ensures Objs(ks[i]) <= AllObjs(ks)
  {
  }

  lemma AllDistinctSplice(left: seq<Skeleton>, s: Skeleton, right: seq<Skeleton>)
    requires AllDistinct(left) && AllDistinct(right) && Distinct(s)
    requires AllObjs(left) !! AllObjs(right) && Objs(s) !! AllObjs(left) + AllObjs(right)
    ensures AllDistinct(left + [s] + right)
  {
    var ks := left + [s] + right;
    forall i, j | 0 <= i < j < |ks| ensures Objs(ks[i]) !! Objs(ks[j]) {
      DistinctPair(left, s, right, i, j);
    }
  }

  lemma LinkedSplice(left: seq<Skeleton>, s: Skeleton, right: seq<Skeleton>)
    requires AllLinked(left) && AllLinked(right) && Linked(s)
    ensures AllLinked(left + [s] + right)
    ensures Roots(left + [s] + right) == Roots(left) + [s.node] + Roots(right)
    ensures Models(left + [s] + right) == Models(left) + [Model(s)] + Models(right)
  {
  }

  /** Putting a subtree back under the node above it. */
  lemma PluggedOnce(node: RouterNode, left: seq<Skeleton>, s: Skeleton, right: seq<Skeleton>)
    requires AllLinked(left) && AllLinked(right) && Linked(s)
    requires AllDistinct(left) && AllDistinct(right) && Distinct(s)
    requires AllObjs(left) !! AllObjs(right) && Objs(s) !! AllObjs(left) + AllObjs(right)
    requires node !in AllObjs(left) + AllObjs(right) + Objs(s)
    requires node.children == Roots(left) + [s.node] + Roots(right)
    ensures var p := Skeleton(node, left + [s] + right);
      Distinct(p) && Linked(p) && Objs(p) == {node} + AllObjs(left) + Objs(s) + AllObjs(right)
      && Model(p) == node.Value(Models(left) + [Model(s)] + Models(right))
  {
    AllObjsSplice(left, s, right);
    AllDistinctSplice(left, s, right);
    LinkedSplice(left, s, right);
  }

  /** Putting a subtree back into its context. */
  lemma {:induction false} Plugged(c: Context, s: Skeleton)
    requires CtxDistinct(c) && CtxLinked(c, s.node) && Distinct(s) && Linked(s) && CtxObjs(c) !! Objs(s)
    ensures Distinct(Plug(c, s)) && Linked(Plug(c, s)) && Objs(Plug(c, s)) == CtxObjs(c) + Objs(s)
    ensures Model(Plug(c, s)) == PlugModel(c, Model(s))
    decreases c
  {
    match c
    case Top =>
    case In(up, node, left, right) =>
      PluggedOnce(node, left, s, right);
      Plugged(up, Skeleton(node, left + [s] + right));
  }

  /** The walk goes down to a child. */
  lemma StepDown(c: Context, at: Skeleton, k: nat)
    requires Walking(c, at) && k < |at.kids|
    ensures var c' := In(c, at.node, at.kids[..k], at.kids[k + 1..]);
      Walking(c', at.kids[k]) && CtxObjs(c') + Objs(at.kids[k]) == CtxObjs(c) + Objs(at)
        && Plug(c', at.kids[k]) == Plug(c, at)
    ensures Model(at.kids[k]) == Model(at).children[k] && at.kids[k].node == at.node.children[k]
    ensures Objs(at.kids[k]) <= Objs(at)
    ensures var c' := In(c, at.node, at.kids[..k], at.kids[k + 1..]);
      forall t :: PlugModel(c', t) == PlugModel(c, Model(at).(children := Model(at).children[k := t]))
  {
    StepWalks(c, at, k);
    hide Walking, CtxObjs, Objs, Plug, Models, Model, Linked;
    var c' := In(c, at.node, at.kids[..k], at.kids[k + 1..]);
    forall t ensures PlugModel(c', t) == PlugModel(c, Model(at).(children := Model(at).children[k := t])) {
      StepModel(c, at, k, t);
    }
  }

  lemma StepWalks(c: Context, at: Skeleton, k: nat)
    requires Walking(c, at) && k < |at.kids|
    ensures var c' := In(c, at.node, at.kids[..k], at.kids[k + 1..]);
      Walking(c', at.kids[k]) && CtxObjs(c') + Objs(at.kids[k]) == CtxObjs(c) + Objs(at)
        && Plug(c', at.kids[k]) == Plug(c, at)
    ensures |at.kids| == |Model(at).children| == |at.node.children|
    ensures Model(at.kids[k]) == Model(at).children[k] && at.kids[k].node == at.node.children[k]
    ensures Objs(at.kids[k]) <= Objs(at)
  {
    hide Linked, AllLinked, Model, Models, Objs, AllObjs, Distinct, AllDistinct;
    var left, kid, right := at.kids[..k], at.kids[k], at.kids[k + 1..];
    Inside(at);
    AllKids(at.kids, k);
    assert at.kids == left + [kid] + right;
    SpliceParts(left, kid, right);
    ModelsAt(at.kids);
  }

  /** The whole tree, seen from a child of the place of the walk. */
  lemma StepModel(c: Context, at: Skeleton, k: nat, t: Node)
    requires Walking(c, at) && k < |at.kids| == |Model(at).children|
    ensures PlugModel(In(c, at.node, at.kids[..k], at.kids[k + 1..]), t)
         == PlugModel(c, Model(at).(children := Model(at).children[k := t]))
  {
    hide Linked, Model, Models, Objs, AllObjs, Distinct, AllDistinct, CtxLinked, CtxObjs, CtxDistinct;
    var left, right := at.kids[..k], at.kids[k + 1..];
    Fields(at);
    ModelsAt(at.kids);
    ModelsAt(left);
    ModelsAt(right);
    assert Models(left) + [t] + Models(right) == Models(at.kids)[k := t];
  }

  lemma AppendParts(ks: seq<Skeleton>, s: Skeleton)
    requires AllDistinct(ks) && AllLinked(ks) && Distinct(s) && Linked(s) && Objs(s) !! AllObjs(ks)
    ensures AllDistinct(ks + [s]) && AllLinked(ks + [s]) && AllObjs(ks + [s]) == AllObjs(ks) + Objs(s)
    ensures Models(ks + [s]) == Models(ks) + [Model(s)] && Roots(ks + [s]) == Roots(ks) + [s.node]
  {
    hide Objs, AllObjs, Distinct, Linked, Model, Apart;
    assert ks + [s] + [] == ks + [s];
    NoSkeletons();
    AllDistinctSplice(ks, s, []);
    AllObjsSplice(ks, s, []);
    LinkedSplice(ks, s, []);
  }

  lemma NoSkeletons()
    ensures AllObjs([]) == {} && AllDistinct([]) && Roots([]) == []
  {
  }

  lemma SpliceAt(left: seq<Skeleton>, s: Skeleton, right: seq<Skeleton>)
    ensures var ks := left + [s] + right;
      (forall i :: 0 <= i < |left| ==> left[i] == ks[i]) && ks[|left|] == s
      && forall i :: 0 <= i < |right| ==> right[i] == ks[|left| + 1 + i]
  {
  }

  lemma SpliceApart(left: seq<Skeleton>, s: Skeleton, right: seq<Skeleton>)
    requires Apart(left + [s] + right)
    ensures Apart(left) && Apart(right) && AllObjs(left) !! AllObjs(right) && Objs(s) !! AllObjs(left)
      && Objs(s) !! AllObjs(right)
  {
    hide Objs;
    SpliceAt(left, s, right);
    var ks := left + [s] + right;
    forall o | o in AllObjs(left) ensures o !in AllObjs(right) && o !in Objs(s) {
      var i :| 0 <= i < |left| && o in Objs(left[i]);
      assert Objs(ks[i]) !! Objs(ks[|left|]);
      forall j | 0 <= j < |right| ensures o !in Objs(right[j]) { assert Objs(ks[i]) !! Objs(ks[|left| + 1 + j]); }
    }
    forall o | o in AllObjs(right) ensures o !in Objs(s) {
      var j :| 0 <= j < |right| && o in Objs(right[j]);
      assert Objs(ks[|left|]) !! Objs(ks[|left| + 1 + j]);
    }
  }

  lemma SpliceParts(left: seq<Skeleton>, s: Skeleton, right: seq<Skeleton>)
    requires AllDistinct(left + [s] + right) && AllLinked(left + [s] + right)
    ensures AllDistinct(left) && AllDistinct(right) && AllLinked(left) && AllLinked(right) && Distinct(s) && Linked(s)
    ensures AllObjs(left) !! AllObjs(right) && Objs(s) !! AllObjs(left) + AllObjs(right)
    ensures AllObjs(left + [s] + right) == AllObjs(left) + Objs(s) + AllObjs(right)
    ensures Roots(left + [s] + right) == Roots(left) + [s.node] + Roots(right)
  {
    hide Objs, AllObjs, Distinct, Linked, Apart;
    AllObjsSplice(left, s, right);
    SpliceApart(left, s, right);
    SpliceAt(left, s, right);
  }

  lemma WalkEnds(c: Context, s: Skeleton)
    requires Walking(c, s)
    ensures Distinct(Plug(c, s)) && Linked(Plug(c, s)) && Objs(Plug(c, s)) == CtxObjs(c) + Objs(s)
    ensures Model(Plug(c, s)) == PlugModel(c, Model(s))
  {
    Plugged(c, s);
  }
}

/** Serving requests with pooled contexts and the router's handlers (core/engine.go). */
module Engines {
  import opened Options
  import opened Chain
  import opened ChainRuns
  import opened Contexts
  import opened RouteTree
  import opened Registration
  import opened HttpRouters

  /** What one request saw, and how it ended. */
  datatype Served = Served(trace: Trace, panic: Option<nat>, escaped: bool)

  /** Serving with a context that was never used before. */
  function ServedFresh(g: seq<Program>): Served {
    var r := Chain.Start(g, FRESH);
    Served(r.s.trace, r.panic, r.s.escaped)
  }

  /** The counter stays within a byte. */
  predicate InByte(g: seq<Program>) {
    Chain.Start(g, FRESH).s.index <= 255
  }

  class Engine {
    const router: HttpRouter
    const notFound: Program
    const interceptors: seq<Program>

    /** What the handler functions do. */
    const programs: nat -> Program

    var pool: set<Context>

    ghost predicate Valid()
      reads this, pool, router, router.repr
    {
      router.Valid() && forall c :: c in pool ==> c.Cleared()
    }

    constructor (router: HttpRouter, notFound: Program, interceptors: seq<Program>, programs: nat -> Program)
      requires router.Valid()
      ensures Valid() && pool == {} && this.router == router && this.notFound == notFound
      ensures this.interceptors == interceptors && this.programs == programs
    {
      this.router, this.notFound, this.interceptors, this.programs := router, notFound, interceptors, programs;
      pool := {};
    }

    /** The handlers of a request: interceptors and route, or the one for unknown routes. */
    function GroupFor(handle: Option<Handle>): (g: seq<Program>)
      ensures handle.None? ==> g == [notFound]
      ensures handle.Some? ==> InFront(handle.value, g)
    {
      match handle
      case Some(hns) => interceptors + seq(|hns|, i requires 0 <= i < |hns| => programs(hns[i].handleFunc))
      case None => [notFound]
    }

    /** g is the interceptors, and behind them the handlers hns. */
    predicate InFront(hns: Handle, g: seq<Program>) {
      var n := |interceptors|;
      && |g| == n + |hns| && (forall i :: 0 <= i < n ==> g[i] == interceptors[i])
      && forall i :: 0 <= i < |hns| ==> g[n + i] == programs(hns[i].handleFunc)
    }

    /** Interceptors and the handlers hns each work before and after one Next, as ls and ks say. */
    predicate Layered(hns: Handle, ls: seq<Layer>, ks: seq<Layer>) {
      && |ls| == |interceptors| && (forall i :: 0 <= i < |ls| ==> interceptors[i] == HandlerOf(ls[i]))
      && |ks| == |hns| && forall i :: 0 <= i < |ks| ==> programs(hns[i].handleFunc) == HandlerOf(ks[i])
    }

    /**
      What a client asking for the path gets: where a pattern matches, what the interceptors around
      that route's handlers do (from 256 handlers on see Effects.HandlersBeyondByte), and otherwise
      what the one for unknown routes does alone.
    */
    ghost predicate Answers(m: string, path: string, served: Served)
      reads router
    {
      match Scan(router.RoutesOf(m), path)
      case Found(hns, _) =>
        && (forall g :: InFront(hns, g) ==> served == ServedFresh(g))
        && forall ls, ks :: Layered(hns, ls, ks) && |ls| + |ks| <= 255 ==> Dids(served.trace) == Onion(ls + ks, 0)
      case _ => served == ServedFresh([notFound])
    }

    /** The handlers of the first registered pattern of the method that matches the path. */
    ghost function GroupOf(m: string, path: string): seq<Program>
      reads router
    {
      match Scan(router.RoutesOf(m), path)
      case Found(hns, _) => GroupFor(Some(hns))
      case _ => GroupFor(None)
    }

    /**
      ServeHTTP: `from` is the context the pool hands out, null for a new one. The handlers that
      trying the registered patterns one by one gives are run as by a fresh context; the context is
      pooled unless it escaped or a panic went through. `wrapped`: see Context.Next.
    */
    method ServeHTTP(m: string, path: string, from: Context?) returns (served: Served, c: Context, wrapped: bool)
      requires Valid() && (from != null ==> from in pool)
      modifies this, from
      ensures Valid() && (wrapped <==> !InByte(GroupOf(m, path)))
      ensures !wrapped ==> served == ServedFresh(GroupOf(m, path)) && Answers(m, path, served)
      ensures if from != null then c == from else fresh(c)
      ensures pool == old(pool) - {c} + if !wrapped && served.panic.None? && !served.escaped then {c} else {}
    {
      hide HttpRouter.Valid, Scan, InByte, ServedFresh, Answers, InFront;
      var handle, _ := router.Match(m, path);
      ghost var g := GroupOf(m, path);
      assert GroupFor(handle) == g;
      if from == null {
        c := new Context();
      } else {
        c := from;
        pool := pool - {c};
      }
      var panic;
      panic, wrapped := Run(c, GroupFor(handle));
      served := Served(c.trace, panic, c.escaped);
      if !wrapped { Answered(m, path); }
      if !wrapped && panic.None? && !c.escaped {
        c.Reset();
        pool := pool + {c};
      }
    }

    lemma Answered(m: string, path: string)
      requires InByte(GroupOf(m, path))
      ensures Answers(m, path, ServedFresh(GroupOf(m, path)))
    {
      hide Scan, InByte, ServedFresh, Layered;
      match Scan(router.RoutesOf(m), path)
      case Found(hns, _) =>
        var g := GroupFor(Some(hns));
        forall g' | InFront(hns, g') ensures g' == g { InFrontOnly(hns, g, g'); }
        forall ls, ks | Layered(hns, ls, ks) && |ls| + |ks| <= 255
          ensures Dids(ServedFresh(g).trace) == Onion(ls + ks, 0) {
          LayersServed(hns, g, ls, ks);
        }
      case _ =>
    }

    lemma InFrontOnly(hns: Handle, g: seq<Program>, g': seq<Program>)
      requires InFront(hns, g) && InFront(hns, g')
      ensures g == g'
    {
      var n := |interceptors|;
      forall i | 0 <= i < |g| ensures g[i] == g'[i] {
        if i >= n {
          var j := i - n;
          assert g[n + j] == programs(hns[j].handleFunc) && g'[n + j] == programs(hns[j].handleFunc);
        }
      }
    }

    lemma LayersServed(hns: Handle, g: seq<Program>, ls: seq<Layer>, ks: seq<Layer>)
      requires InFront(hns, g) && Layered(hns, ls, ks) && |ls| + |ks| <= 255
      ensures Dids(ServedFresh(g).trace) == Onion(ls + ks, 0)
    {
      hide Chain.Start, HandlerOf, Onion, Dids;
      var n, all := |interceptors|, ls + ks;
      forall i | 0 <= i < |g| ensures g[i] == HandlerOf(all[i]) {
        if i >= n {
          var j := i - n;
          assert g[n + j] == programs(hns[j].handleFunc) && all[i] == ks[j];
        }
      }
      LayersWrap(all, g, FRESH);
    }

    /** A cleared context runs the handlers g. */
    method Run(c: Context, g: seq<Program>) returns (panic: Option<nat>, wrapped: bool)
      requires c.Cleared()
      modifies c
      ensures wrapped <==> !InByte(g)
      ensures !wrapped ==> Served(c.trace, panic, c.escaped) == ServedFresh(g)
    {
      c.group := g;
      c.trace := [];
      assert c.Now() == FRESH;
      panic, wrapped := c.Start();
    }

    /** Any sequence of requests, on any contexts of the pool: each is served as by a fresh context. */
    method ServeAll(requests: seq<(string, string)>) returns (served: seq<Served>)
      requires Valid() && forall i :: 0 <= i < |requests| ==> InByte(GroupOf(requests[i].0, requests[i].1))
      modifies this, pool
      ensures Valid() && fresh(pool - old(pool))
      ensures |served| == |requests|
      ensures forall i :: 0 <= i < |requests| ==> served[i] == ServedFresh(GroupOf(requests[i].0, requests[i].1))
      ensures forall i :: 0 <= i < |requests| ==> Answers(requests[i].0, requests[i].1, served[i])
    {
      hide HttpRouter.Valid, GroupOf, InByte, ServedFresh, Answers;
      served := [];
      for i := 0 to |requests|
        invariant Valid() && fresh(pool - old(pool)) && |served| == i
        invariant forall k :: 0 <= k < i ==> served[k] == ServedFresh(GroupOf(requests[k].0, requests[k].1))
        invariant forall k :: 0 <= k < i ==> Answers(requests[k].0, requests[k].1, served[k])
      {
        var from: Context? := null;
        if {
          case true =>
          case pool != {} => from :| from in pool;
        }
        var one, _, _ := ServeHTTP(requests[i].0, requests[i].1, from);
        served := served + [one];
      }
    }
  }
}

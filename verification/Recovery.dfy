/**
  Which panics get out of a chain whose handlers catch some of them: for every chain, by what its
  handlers do to panics and to the counter alone; for chains with any number of RecoverHandlers, by
  counting them.
*/
module Recovery {
  import opened Options
  import opened Chain
  import opened ChainRuns
  import opened Panics

  /** How a run goes on: whether a panic comes out, and the counter, if there are handlers still waiting. */
  datatype Fate = Fate(panics: bool, waiting: Option<nat>)

  function Waiting(g: seq<Program>, s: State): Option<nat> {
    if Over(g, s) then None else Some(s.index)
  }

  /** The loop of Next, handler i being the next one. */
  function LoopFate(g: seq<Program>, i: nat): (f: Fate)
    requires i <= Limit(g)
    ensures f.waiting.Some? ==> f.panics && i < f.waiting.value <= Limit(g)
    decreases Limit(g) - i, 0
  {
    if i == Limit(g) then Fate(false, None)
    else
      var f := ExecFate(g, g[i], Some(i + 1));
      if f.panics || f.waiting.None? then f else LoopFate(g, f.waiting.value)
  }

  function ExecFate(g: seq<Program>, p: Program, w: Option<nat>): (f: Fate)
    requires w.Some? ==> w.value <= Limit(g)
    ensures f.waiting.Some? ==> w.Some? && w.value <= f.waiting.value <= Limit(g)
    decreases if w.Some? then Limit(g) - w.value else 0, 1, p, 1
  {
    if p.Done? then Fate(false, w)
    else
      var f := StepFate(g, p.first, w);
      if f.panics then f else ExecFate(g, p.rest, f.waiting)
  }

  function StepFate(g: seq<Program>, c: Stmt, w: Option<nat>): (f: Fate)
    requires w.Some? ==> w.value <= Limit(g)
    ensures f.waiting.Some? ==> w.Some? && w.value <= f.waiting.value <= Limit(g)
    decreases if w.Some? then Limit(g) - w.value else 0, 1, c, 0
  {
    match c
    case Next => if w.Some? then LoopFate(g, w.value) else Fate(false, None)
    case Abort => Fate(false, None)
    case Panic(_) => Fate(true, w)
    case Try(body, handler) =>
      var f := ExecFate(g, body, w);
      if f.panics then ExecFate(g, handler, f.waiting) else f
    case _ => Fate(false, w)
  }

  predicate Fated(g: seq<Program>, r: Result, f: Fate) {
    r.panic.Some? == f.panics && Waiting(g, r.s) == f.waiting
  }

  lemma {:induction false} LoopFated(g: seq<Program>, s: State)
    requires 1 <= s.index <= Limit(g) + 1 && s.abortIndex == 0
    ensures Fated(g, Loop(g, s), LoopFate(g, s.index - 1))
    decreases Measure(g, s.index), 0
  {
    hide Loop, Exec, ExecFate;
    if s.index == Limit(g) + 1 {
      LoopOver(g, s);
    } else {
      var i := s.index - 1;
      var s1 := Log(s, Begin(i));
      LoopTurn(g, s);
      ExecFated(g, g[i], s1);
      var r := Exec(g, g[i], s1);
      if r.panic.None? {
        var s2 := Advance(r.s, End(i));
        if Over(g, r.s) { LoopOver(g, s2); } else { LoopFated(g, s2); }
      }
    }
  }

  lemma {:induction false} ExecFated(g: seq<Program>, p: Program, s: State)
    requires s.index >= 1
    ensures Fated(g, Exec(g, p, s), ExecFate(g, p, Waiting(g, s)))
    decreases if Measure(g, s.index) > 0 then Measure(g, s.index) - 1 else 0, 1, p, 1
  {
    if p.Do? {
      StepFated(g, p.first, s);
      var r := Step(g, p.first, s);
      if r.panic.None? { ExecFated(g, p.rest, r.s); }
    }
  }

  lemma {:induction false} StepFated(g: seq<Program>, c: Stmt, s: State)
    requires s.index >= 1
    ensures Fated(g, Step(g, c, s), StepFate(g, c, Waiting(g, s)))
    decreases if Measure(g, s.index) > 0 then Measure(g, s.index) - 1 else 0, 1, c, 0
  {
    hide Loop, LoopFate, Exec, ExecFate;
    match c
    case Next =>
      if Over(g, s) { LoopOver(g, Advance(s, Call)); } else { LoopFated(g, Advance(s, Call)); }
    case Try(body, handler) =>
      ExecFated(g, body, s);
      var r := Exec(g, body, s);
      if r.panic.Some? { ExecFated(g, handler, r.s); }
    case _ =>
  }

  /** For every chain, whatever catches what. */
  lemma PanicsFated(g: seq<Program>, s: State)
    requires Clean(s)
    ensures Start(g, s).panic.Some? <==> LoopFate(g, 0).panics
  {
    LoopFated(g, Advance(s, Call));
  }

  // ------------------------------------------------------------------ any number of RecoverHandlers

  /** A handler of panics that only writes, or aborts. */
  predicate Quiet(h: Program) {
    NoTry(h) && !Throws(h) && NextCount(h) == 0
  }

  predicate Guard(p: Program) {
    p.Do? && p.first.Try? && p == RecoverHandler(p.first.handler) && Quiet(p.first.handler)
  }

  /** A guard that aborts when it has caught a panic. */
  predicate Ending(p: Program) {
    Guard(p) && HasAbortStep(p.first.handler)
  }

  predicate Guarded(g: seq<Program>) {
    forall i :: 0 <= i < |g| ==> NoTry(g[i]) || Guard(g[i])
  }

  /**
    Whether a panic gets out, reading the chain once from handler i on: a guard is put on top of
    `guards` (true if it is an ending one), and a handler that opens with a panic takes the top one away.
  */
  predicate GetsOut(g: seq<Program>, i: nat, guards: seq<bool>)
    requires i <= Limit(g)
    decreases Limit(g) - i
  {
    i < Limit(g) &&
    if Guard(g[i]) then GetsOut(g, i + 1, guards + [Ending(g[i])])
    else if guards == [] && Throws(g[i]) then true
    else
      match Opening(g[i])
      case Throwing => guards != [] && !guards[|guards| - 1] && GetsOut(g, i + 1, guards[..|guards| - 1])
      case Aborts => false
      case _ => GetsOut(g, i + 1, guards)
  }

  /** A panic gets out of a loop that ends as f says, and of the guards around it. */
  predicate Escapes(g: seq<Program>, f: Fate, guards: seq<bool>)
    requires f.waiting.Some? ==> f.waiting.value <= Limit(g)
    decreases |guards|
  {
    var n := |guards|;
    f.panics &&
    (n == 0 || (f.waiting.Some? && !guards[n - 1] && Escapes(g, LoopFate(g, f.waiting.value), guards[..n - 1])))
  }

  lemma {:induction false} IdleFate(g: seq<Program>, p: Program)
    requires NoTry(p)
    ensures ExecFate(g, p, None) == Fate(Throws(p), None)
    decreases p
  {
    if p.Do? && !p.first.Panic? { IdleFate(g, p.rest); }
  }

  lemma {:induction false} PlainFate(g: seq<Program>, p: Program, n: nat)
    requires NoTry(p) && n <= Limit(g)
    ensures var f, l := ExecFate(g, p, Some(n)), LoopFate(g, n);
      match Opening(p)
      case Nothing => f == Fate(false, Some(n)) && !Throws(p)
      case Throwing => f == Fate(true, Some(n)) && Throws(p)
      case Aborts => f == Fate(Throws(p), None)
      case CallsNext => f == if l.panics then l else Fate(Throws(p), None)
    decreases p
  {
    hide LoopFate;
    if p.Do? {
      if p.first.Next? || p.first.Abort? {
        IdleFate(g, p.rest);
      } else if !p.first.Panic? {
        PlainFate(g, p.rest, n);
      }
    }
  }

  lemma {:induction false} QuietFate(g: seq<Program>, h: Program, w: Option<nat>)
    requires Quiet(h) && (w.Some? ==> w.value <= Limit(g))
    ensures ExecFate(g, h, w) == Fate(false, if HasAbortStep(h) then None else w)
    decreases h
  {
    if h.Do? {
      QuietFate(g, h.rest, w);
      if h.first.Abort? { IdleFate(g, h.rest); }
    }
  }

  lemma GuardFate(g: seq<Program>, i: nat)
    requires i < Limit(g) && Guard(g[i])
    ensures var l := LoopFate(g, i + 1);
      LoopFate(g, i) == if l.waiting.None? || Ending(g[i]) then Fate(false, None) else LoopFate(g, l.waiting.value)
  {
    var l, h, p := LoopFate(g, i + 1), g[i].first.handler, g[i];
    assert ExecFate(g, Do(Next, Done), Some(i + 1)) == l by { hide LoopFate; }
    if l.panics { QuietFate(g, h, l.waiting); }
    var f := StepFate(g, p.first, Some(i + 1));
    assert f == if l.panics then Fate(false, if Ending(p) then None else l.waiting) else l;
    assert ExecFate(g, p, Some(i + 1)) == f by { hide LoopFate, StepFate; }
  }

  lemma {:induction false} GetsOutExact(g: seq<Program>, i: nat, guards: seq<bool>)
    requires Guarded(g) && i <= Limit(g)
    ensures Escapes(g, LoopFate(g, i), guards) <==> GetsOut(g, i, guards)
    decreases Limit(g) - i
  {
    if i < Limit(g) {
      if Guard(g[i]) {
        var more := guards + [Ending(g[i])];
        GetsOutExact(g, i + 1, more);
        GuardFate(g, i);
        assert more[..|more| - 1] == guards;
      } else {
        PlainFate(g, g[i], i + 1);
        GetsOutExact(g, i + 1, guards);
        if guards != [] { GetsOutExact(g, i + 1, guards[..|guards| - 1]); }
      }
    }
  }

  /** Any number of RecoverHandlers, anywhere: a panic gets out exactly if reading the chain says so. */
  lemma GuardsExact(g: seq<Program>, s: State)
    requires Clean(s) && Guarded(g)
    ensures Start(g, s).panic.Some? <==> GetsOut(g, 0, [])
  {
    PanicsFated(g, s);
    GetsOutExact(g, 0, []);
  }

  // ------------------------------------------------------------------ counting

  /** Guards among handlers i up to k, less the handlers that open with a panic. */
  function Cover(g: seq<Program>, i: nat, k: nat): int
    requires i <= k <= |g|
    decreases k - i
  {
    if i == k then 0
    else (if Guard(g[i]) then 1 else if Opening(g[i]) == Throwing then -1 else 0) + Cover(g, i + 1, k)
  }

  /** Going from handler i on under n guards, handler k is called and panics with no guard left. */
  predicate BareAt(g: seq<Program>, i: nat, n: nat, k: nat)
    requires i <= k < |g|
  {
    Throws(g[k]) && n + Cover(g, i, k) <= 0 && forall m :: i <= m < k ==> Opening(g[m]) != Aborts
  }

  predicate Bare(g: seq<Program>, i: nat, n: nat) {
    exists k :: i <= k < Limit(g) && BareAt(g, i, n, k)
  }

  lemma {:induction false} Counts(g: seq<Program>, i: nat, guards: seq<bool>)
    requires Guarded(g) && i <= Limit(g) && (forall k :: 0 <= k < |g| ==> !Ending(g[k]))
    requires forall k :: 0 <= k < |guards| ==> !guards[k]
    ensures GetsOut(g, i, guards) <==> Bare(g, i, |guards|)
    decreases Limit(g) - i
  {
    if i < Limit(g) {
      var n := |guards|;
      var next := if Guard(g[i]) then guards + [false]
        else if Opening(g[i]) == Throwing && n > 0 then guards[..n - 1] else guards;
      if Opening(g[i]) == Throwing { OpeningThrows(g[i]); }
      Counts(g, i + 1, next);
      BareStep(g, i, n);
    }
  }

  lemma BareStep(g: seq<Program>, i: nat, n: nat)
    requires i < Limit(g)
    ensures var m := n + Cover(g, i, i + 1);
      Bare(g, i, n) <==>
        ((Throws(g[i]) && n == 0) || (Opening(g[i]) != Aborts && (if m < 0 then Throws(g[i]) else Bare(g, i + 1, m))))
  {
    if Opening(g[i]) == Throwing && !Guard(g[i]) { OpeningThrows(g[i]); }
    var m := n + Cover(g, i, i + 1);
    assert Cover(g, i, i + 1) == Cover(g, i, i + 1) + Cover(g, i + 1, i + 1);
    if Throws(g[i]) && n == 0 { assert BareAt(g, i, n, i); }
    if Bare(g, i, n) {
      var k :| i <= k < Limit(g) && BareAt(g, i, n, k);
      if k > i && m >= 0 { assert BareAt(g, i + 1, m, k); }
    }
    if m >= 0 && Opening(g[i]) != Aborts && Bare(g, i + 1, m) {
      var k :| i + 1 <= k < Limit(g) && BareAt(g, i + 1, m, k);
      assert BareAt(g, i, n, k);
    }
  }

  /** Handler k has a panic, no abort opens before it, and no more guards stand before it than panics open. */
  predicate Uncovered(g: seq<Program>, k: nat)
    requires k < |g|
  {
    Throws(g[k]) && Cover(g, 0, k) <= 0 && forall m :: 0 <= m < k ==> Opening(g[m]) != Aborts
  }

  /**
    RecoverHandlers that do not abort, anywhere: a panic gets out exactly if some handler with a
    panic, no abort opening before it, has no more RecoverHandlers in front of it than handlers that
    open with a panic.
  */
  lemma CoverExact(g: seq<Program>, s: State)
    requires Clean(s) && Guarded(g) && forall i :: 0 <= i < |g| ==> !Ending(g[i])
    ensures Start(g, s).panic.Some? <==> exists k :: 0 <= k < Limit(g) && Uncovered(g, k)
  {
    GuardsExact(g, s);
    Counts(g, 0, []);
    forall k | 0 <= k < Limit(g) ensures Uncovered(g, k) <==> BareAt(g, 0, 0, k) {
    }
  }
}

/** What holds of every run of a middleware chain, whatever its handlers do. */
module ChainRuns {
  import opened Options
  import opened Chain

  // ------------------------------------------------------------------ reading a trace

  /** The handlers called, in order. */
  function Starts(t: Trace): seq<nat> {
    if t == [] then []
    else
      var e := t[|t| - 1].event;
      Starts(t[..|t| - 1]) + if e.Begin? then [e.handler] else []
  }

  /** How often Next was called. */
  function Calls(t: Trace): nat {
    if t == [] then 0 else Calls(t[..|t| - 1]) + if t[|t| - 1].event.Call? then 1 else 0
  }

  /** How many handlers returned without a panic. */
  function Ends(t: Trace): nat {
    if t == [] then 0 else Ends(t[..|t| - 1]) + if t[|t| - 1].event.End? then 1 else 0
  }

  predicate HasAbort(t: Trace) {
    exists i :: 0 <= i < |t| && t[i].event.Aborted?
  }

  /** No handler is called once one has aborted. */
  predicate QuietAfterAbort(t: Trace) {
    forall i, j :: 0 <= i < j < |t| && t[i].event.Aborted? ==> !t[j].event.Begin?
  }

  /** At every moment the counter is the number of Next calls plus the number of handlers returned. */
  predicate Counted(t: Trace) {
    forall j :: 0 <= j < |t| ==> t[j].index == Calls(t[..j + 1]) + Ends(t[..j + 1])
  }

  function UpTo(k: nat): (r: seq<nat>)
    ensures |r| == k && forall i :: 0 <= i < k ==> r[i] == i
  {
    if k == 0 then [] else UpTo(k - 1) + [k - 1]
  }

  lemma Appended(t: Trace, m: Moment)
    ensures (t + [m])[..|t|] == t
    ensures Starts(t + [m]) == Starts(t) + if m.event.Begin? then [m.event.handler] else []
    ensures Calls(t + [m]) == Calls(t) + if m.event.Call? then 1 else 0
    ensures Ends(t + [m]) == Ends(t) + if m.event.End? then 1 else 0
    ensures HasAbort(t + [m]) <==> HasAbort(t) || m.event.Aborted?
  {
    var u := t + [m];
    assert u[..|u| - 1] == t && u[|t|] == m;
    if HasAbort(t) {
      var i :| 0 <= i < |t| && t[i].event.Aborted?;
      assert u[i].event.Aborted?;
    }
  }

  // ------------------------------------------------------------------ the invariant

  /** Handlers are called in order, none after an abort, and the counter counts. */
  predicate Inv(g: seq<Program>, s: State) {
    && |Starts(s.trace)| <= Limit(g) && Starts(s.trace) == UpTo(|Starts(s.trace)|)
    && s.index == Calls(s.trace) + Ends(s.trace) && Counted(s.trace)
    && QuietAfterAbort(s.trace) && (s.abortIndex != 0 <==> HasAbort(s.trace))
  }

  /** Without an abort, the first k handlers have been called, as far as there are that many. */
  predicate CalledUpTo(g: seq<Program>, s: State, k: nat) {
    s.abortIndex == 0 ==> |Starts(s.trace)| == if k <= Limit(g) then k else Limit(g)
  }

  /** One more event keeps the invariant. */
  lemma Logged(g: seq<Program>, s: State, m: Moment, s': State)
    requires Inv(g, s) && s'.trace == s.trace + [m] && m.index == s'.index
    requires s'.index == s.index + if m.event.Call? || m.event.End? then 1 else 0
    requires if m.event.Aborted? then s'.abortIndex != 0 else s'.abortIndex == s.abortIndex
    requires m.event.Begin? ==> m.event.handler == |Starts(s.trace)| < Limit(g) && s.abortIndex == 0
    ensures Inv(g, s')
    ensures |Starts(s'.trace)| == |Starts(s.trace)| + if m.event.Begin? then 1 else 0
  {
    var t, u := s.trace, s'.trace;
    Appended(t, m);
    forall j | 0 <= j < |u| ensures u[j].index == Calls(u[..j + 1]) + Ends(u[..j + 1]) {
      assert u[..j + 1] == if j < |t| then t[..j + 1] else u;
    }
  }

  lemma {:induction false} LoopInv(g: seq<Program>, s: State)
    requires s.index >= 1 && Inv(g, s) && CalledUpTo(g, s, s.index - 1)
    ensures var r := Loop(g, s);
      && Inv(g, r.s) && CalledUpTo(g, r.s, r.s.index)
      && (r.panic.None? && r.s.abortIndex == 0 ==> r.s.index > Limit(g))
    decreases Measure(g, s.index), 0
  {
    hide Loop, Exec, Counted, QuietAfterAbort, HasAbort, Calls, Ends;
    if s.index > Limit(g) || s.abortIndex != 0 {
      LoopOver(g, s);
    } else {
      LoopTurn(g, s);
      var i := s.index - 1;
      var s1 := Log(s, Begin(i));
      Logged(g, s, Moment(Begin(i), s.index), s1);
      ExecInv(g, g[i], s1);
      var r := Exec(g, g[i], s1);
      if r.panic.None? {
        var s2 := Advance(r.s, End(i));
        Logged(g, r.s, Moment(End(i), s2.index), s2);
        LoopInv(g, s2);
      }
    }
  }

  lemma {:induction false} ExecInv(g: seq<Program>, p: Program, s: State)
    requires s.index >= 1 && Inv(g, s) && CalledUpTo(g, s, s.index)
    ensures var r := Exec(g, p, s); Inv(g, r.s) && CalledUpTo(g, r.s, r.s.index)
    decreases if Measure(g, s.index) > 0 then Measure(g, s.index) - 1 else 0, 1, p, 1
  {
    if p.Do? {
      StepInv(g, p.first, s);
      var r := Step(g, p.first, s);
      if r.panic.None? { ExecInv(g, p.rest, r.s); }
    }
  }

  lemma {:induction false} StepInv(g: seq<Program>, c: Stmt, s: State)
    requires s.index >= 1 && Inv(g, s) && CalledUpTo(g, s, s.index)
    ensures var r := Step(g, c, s); Inv(g, r.s) && CalledUpTo(g, r.s, r.s.index)
    decreases if Measure(g, s.index) > 0 then Measure(g, s.index) - 1 else 0, 1, c, 0
  {
    hide Starts, Calls, Ends, Limit, Rendering, Counted, QuietAfterAbort, Loop, Exec;
    var s' := Step(g, c, s).s;
    match c
    case Work(id) => Logged(g, s, Moment(Did(id), s.index), s');
    case Next =>
      var s1 := Advance(s, Call);
      Logged(g, s, Moment(Call, s1.index), s1);
      LoopInv(g, s1);
    case Abort => Logged(g, s, Moment(Aborted, s.index), s');
    case Panic(v) =>
    case SetStatus(code) => Logged(g, s, Moment(StatusSet(code), s.index), s');
    case Render(text) => RenderInv(g, s, text);
    case Escape => Logged(g, s, Moment(Escaped, s.index), s');
    case Try(body, handler) =>
      ExecInv(g, body, s);
      var r := Exec(g, body, s);
      if r.panic.Some? { ExecInv(g, handler, r.s); }
  }

  lemma RenderInv(g: seq<Program>, s: State, text: nat)
    requires Inv(g, s) && CalledUpTo(g, s, s.index)
    ensures var s' := Rendering(s, text); Inv(g, s') && CalledUpTo(g, s', s'.index)
  {
    hide Inv, Starts, Limit;
    var s1 := Log(s, Rendered(text));
    Logged(g, s, Moment(Rendered(text), s.index), s1);
    var s2 := s1;
    if s1.status != 0 {
      s2 := Log(s1, Header(s1.status)).(status := 0);
      Logged(g, s1, Moment(Header(s1.status), s.index), s2);
    }
    Logged(g, s2, Moment(Body(text), s.index), Rendering(s, text));
  }

  // ------------------------------------------------------------------ whole runs

  /** A context that has not run yet. */
  predicate Clean(s: State) {
    s.index == 0 && s.abortIndex == 0 && s.status == 0 && !s.written && !s.escaped && s.trace == []
  }

  /**
    In every run handlers are called in order, without gaps, each at most once, and none after an
    abort; without abort and uncaught panic all are; the counter is, at every moment, the number of
    Next calls plus the number of handlers that returned.
  */
  lemma RunsInOrder(g: seq<Program>, s: State)
    requires Clean(s)
    ensures var r := Start(g, s); var t := r.s.trace;
      && Starts(t) == UpTo(|Starts(t)|) && |Starts(t)| <= Limit(g)
      && (r.panic.None? && !HasAbort(t) ==> Starts(t) == UpTo(Limit(g)))
      && QuietAfterAbort(t) && Counted(t)
  {
    var s1 := Advance(s, Call);
    Logged(g, s, Moment(Call, 1), s1);
    LoopInv(g, s1);
    var r := Loop(g, s1);
    var s' := Finish(r.s);
    if s' != r.s { Logged(g, r.s, Moment(Header(r.s.status), r.s.index), s'); }
  }

  // ------------------------------------------------------------------ how far the counter gets

  /** How many calls of Next p can make. */
  function NextCount(p: Program): nat {
    if p.Done? then 0 else NextCountOf(p.first) + NextCount(p.rest)
  }

  function NextCountOf(c: Stmt): nat {
    match c
    case Next => 1
    case Try(body, handler) => NextCount(body) + NextCount(handler)
    case _ => 0
  }

  function NextTotal(g: seq<Program>, k: nat): nat
    requires k <= |g|
  {
    if k == 0 then 0 else NextTotal(g, k - 1) + NextCount(g[k - 1])
  }

  /**
    From trace t to trace u no more handlers returned than were called, and Next was called at most
    `extra` times more than the handlers called in between can.
  */
  predicate Frugal(g: seq<Program>, t: Trace, u: Trace, extra: nat) {
    && |Starts(t)| <= |g| && |Starts(u)| <= |g|
    && Ends(u) - |Starts(u)| <= Ends(t) - |Starts(t)|
    && Calls(u) - NextTotal(g, |Starts(u)|) <= Calls(t) - NextTotal(g, |Starts(t)|) + extra
  }

  lemma {:induction false} LoopBudget(g: seq<Program>, s: State)
    requires s.index >= 1 && Inv(g, s) && CalledUpTo(g, s, s.index - 1)
    ensures Frugal(g, s.trace, Loop(g, s).s.trace, 0)
    decreases Measure(g, s.index), 0
  {
    hide Counted, QuietAfterAbort, HasAbort, Loop, Exec;
    if s.index > Limit(g) || s.abortIndex != 0 {
      LoopOver(g, s);
    } else {
      LoopTurn(g, s);
      var i := s.index - 1;
      var s1 := Log(s, Begin(i));
      Logged(g, s, Moment(Begin(i), s.index), s1);
      Appended(s.trace, Moment(Begin(i), s.index));
      ExecBudget(g, g[i], s1);
      ExecInv(g, g[i], s1);
      var r := Exec(g, g[i], s1);
      if r.panic.None? {
        var s2 := Advance(r.s, End(i));
        Logged(g, r.s, Moment(End(i), s2.index), s2);
        Appended(r.s.trace, Moment(End(i), s2.index));
        LoopBudget(g, s2);
      }
    }
  }

  lemma {:induction false} ExecBudget(g: seq<Program>, p: Program, s: State)
    requires s.index >= 1 && Inv(g, s) && CalledUpTo(g, s, s.index)
    ensures Frugal(g, s.trace, Exec(g, p, s).s.trace, NextCount(p))
    decreases if Measure(g, s.index) > 0 then Measure(g, s.index) - 1 else 0, 1, p, 1
  {
    hide Inv, CalledUpTo;
    if p.Do? {
      StepBudget(g, p.first, s);
      StepInv(g, p.first, s);
      var r := Step(g, p.first, s);
      if r.panic.None? { ExecBudget(g, p.rest, r.s); }
    } else {
      Within(g, s);
    }
  }

  lemma Within(g: seq<Program>, s: State)
    requires Inv(g, s)
    ensures |Starts(s.trace)| <= |g|
  {
  }

  lemma {:induction false} StepBudget(g: seq<Program>, c: Stmt, s: State)
    requires s.index >= 1 && Inv(g, s) && CalledUpTo(g, s, s.index)
    ensures Frugal(g, s.trace, Step(g, c, s).s.trace, NextCountOf(c))
    decreases if Measure(g, s.index) > 0 then Measure(g, s.index) - 1 else 0, 1, c, 0
  {
    hide Inv, CalledUpTo, Limit, Rendering, NextTotal, Loop, Exec, Starts, Calls, Ends;
    Within(g, s);
    match c
    case Work(id) => Appended(s.trace, Moment(Did(id), s.index));
    case Next =>
      var s1 := Advance(s, Call);
      Logged(g, s, Moment(Call, s1.index), s1);
      Appended(s.trace, Moment(Call, s1.index));
      OneAhead(g, s, s1);
      LoopBudget(g, s1);
    case Abort => Appended(s.trace, Moment(Aborted, s.index));
    case Panic(v) =>
    case SetStatus(code) => Appended(s.trace, Moment(StatusSet(code), s.index));
    case Render(text) =>
      RenderFrugal(g, s, text);
    case Escape => Appended(s.trace, Moment(Escaped, s.index));
    case Try(body, handler) =>
      ExecBudget(g, body, s);
      ExecInv(g, body, s);
      var r := Exec(g, body, s);
      if r.panic.Some? { ExecBudget(g, handler, r.s); }
  }

  lemma RenderFrugal(g: seq<Program>, s: State, text: nat)
    requires |Starts(s.trace)| <= |g|
    ensures Frugal(g, s.trace, Rendering(s, text).trace, 0)
  {
    var s1 := Log(s, Rendered(text));
    Appended(s.trace, Moment(Rendered(text), s.index));
    Appended(s1.trace, Moment(Header(s1.status), s1.index));
    var s2 := if s1.status != 0 then Log(s1, Header(s1.status)) else s1;
    Appended(s2.trace, Moment(Body(text), s2.index));
  }

  lemma OneAhead(g: seq<Program>, s: State, s1: State)
    requires CalledUpTo(g, s, s.index) && s1.index == s.index + 1 && s1.abortIndex == s.abortIndex
    requires |Starts(s1.trace)| == |Starts(s.trace)|
    ensures CalledUpTo(g, s1, s1.index - 1)
  {
  }

  /** The counter never exceeds 1 + handlers + the Next calls the handlers can make. */
  lemma CounterBound(g: seq<Program>, s: State)
    requires Clean(s)
    ensures Start(g, s).s.index <= 1 + Limit(g) + NextTotal(g, Limit(g))
  {
    var s1 := Advance(s, Call);
    Logged(g, s, Moment(Call, 1), s1);
    Appended(s.trace, Moment(Call, 1));
    LoopInv(g, s1);
    LoopBudget(g, s1);
    NextTotalGrows(g, |Starts(Loop(g, s1).s.trace)|, Limit(g));
  }

  lemma NextTotalGrows(g: seq<Program>, j: nat, k: nat)
    requires j <= k <= |g|
    ensures NextTotal(g, j) <= NextTotal(g, k)
  {
  }

  /** A byte is enough for up to 127 handlers that call Next at most once each. */
  lemma ByteSuffices(g: seq<Program>, s: State)
    requires Clean(s) && |g| <= 127 && forall i :: 0 <= i < |g| ==> NextCount(g[i]) <= 1
    ensures Start(g, s).s.index <= 255
  {
    CounterBound(g, s);
    NextTotalAtMost(g, |g|);
  }

  lemma NextTotalAtMost(g: seq<Program>, k: nat)
    requires k <= |g| && forall i :: 0 <= i < |g| ==> NextCount(g[i]) <= 1
    ensures NextTotal(g, k) <= k
  {
  }

  /** Nothing is left to call: all handlers have been called, or one has aborted. */
  predicate Over(g: seq<Program>, s: State) {
    s.index > Limit(g) || s.abortIndex != 0
  }

  /** No handler of p's own making catches, aborts or panics. */
  predicate Smooth(p: Program) {
    p.Do? ==> !p.first.Try? && !p.first.Abort? && !p.first.Panic? && Smooth(p.rest)
  }

  predicate AllSmooth(g: seq<Program>) {
    forall i :: 0 <= i < |g| ==> Smooth(g[i])
  }

  /** The Next calls of handlers i up to k. */
  function NextBetween(g: seq<Program>, i: nat, k: nat): nat
    requires i <= k <= |g|
    decreases k - i
  {
    if i == k then 0 else NextCount(g[i]) + NextBetween(g, i + 1, k)
  }

  lemma {:induction false} NextBetweenIs(g: seq<Program>, i: nat, k: nat)
    requires i <= k <= |g|
    ensures NextTotal(g, i) + NextBetween(g, i, k) == NextTotal(g, k)
    decreases k - i
  {
    if i < k { NextBetweenIs(g, i + 1, k); }
  }

  /** Once nothing is left to call, a Next only counts. */
  lemma {:induction false} ExecOver(g: seq<Program>, p: Program, s: State)
    requires s.index >= 1 && Over(g, s) && Smooth(p)
    ensures var r := Exec(g, p, s);
      r.panic.None? && Over(g, r.s) && r.s.abortIndex == s.abortIndex && r.s.index == s.index + NextCount(p)
    decreases p
  {
    if p.Do? {
      if p.first.Next? { LoopOver(g, Advance(s, Call)); }
      ExecOver(g, p.rest, Step(g, p.first, s).s);
    }
  }

  /** A smooth handler that is called with the others behind it still waiting. */
  lemma {:induction false} ExecCount(g: seq<Program>, p: Program, s: State)
    requires 1 <= s.index <= Limit(g) && s.abortIndex == 0 && Smooth(p) && AllSmooth(g)
    ensures var r := Exec(g, p, s);
      r.panic.None? && r.s.abortIndex == 0 &&
      r.s.index == if NextCount(p) == 0 then s.index else Limit(g) + NextCount(p) + NextBetween(g, s.index, Limit(g))
    decreases Measure(g, s.index) - 1, 1, p
  {
    hide Loop;
    if p.Do? {
      if p.first.Next? {
        LoopCount(g, Advance(s, Call));
        ExecOver(g, p.rest, Loop(g, Advance(s, Call)).s);
      } else {
        ExecCount(g, p.rest, Step(g, p.first, s).s);
      }
    }
  }

  lemma {:induction false} LoopCount(g: seq<Program>, s: State)
    requires 1 <= s.index <= Limit(g) + 1 && s.abortIndex == 0 && AllSmooth(g)
    ensures var r := Loop(g, s);
      r.panic.None? && r.s.abortIndex == 0 && r.s.index == Limit(g) + 1 + NextBetween(g, s.index - 1, Limit(g))
    decreases Measure(g, s.index), 0
  {
    hide Loop, Exec;
    if s.index <= Limit(g) {
      var i := s.index - 1;
      var s1 := Log(s, Begin(i));
      LoopTurn(g, s);
      ExecCount(g, g[i], s1);
      var s2 := Advance(Exec(g, g[i], s1).s, End(i));
      if NextCount(g[i]) == 0 { LoopCount(g, s2); } else { LoopOver(g, s2); }
    } else {
      LoopOver(g, s);
    }
  }

  /**
    Without Try, Abort and Panic the counter ends at exactly 1 + handlers + their Next calls, so a
    byte is enough exactly if that is at most 255.
  */
  lemma CounterExact(g: seq<Program>, s: State)
    requires Clean(s) && AllSmooth(g)
    ensures Start(g, s).panic.None? && Start(g, s).s.index == 1 + Limit(g) + NextTotal(g, Limit(g))
    ensures Start(g, s).s.index <= 255 <==> Limit(g) + NextTotal(g, Limit(g)) <= 254
  {
    hide Loop, Exec;
    LoopCount(g, Advance(s, Call));
    NextBetweenIs(g, 0, Limit(g));
  }

  // ------------------------------------------------------------------ whose blueprint a handler reads

  /** From s to s' the counter has moved exactly if Next was called. */
  predicate MovedByNext(s: State, s': State) {
    Calls(s.trace) <= Calls(s'.trace) && (s.index == s'.index <==> Calls(s.trace) == Calls(s'.trace))
  }

  lemma {:induction false} LoopCalls(g: seq<Program>, s: State)
    requires s.index >= 1
    ensures Calls(s.trace) <= Calls(Loop(g, s).s.trace)
    decreases Measure(g, s.index), 0
  {
    hide Loop, Exec, Calls, Starts, Ends, HasAbort;
    if s.index > Limit(g) || s.abortIndex != 0 {
      LoopOver(g, s);
    } else {
      LoopTurn(g, s);
      var i := s.index - 1;
      var s1 := Log(s, Begin(i));
      Appended(s.trace, Moment(Begin(i), s.index));
      ExecCalls(g, g[i], s1);
      var r := Exec(g, g[i], s1);
      if r.panic.None? {
        Appended(r.s.trace, Moment(End(i), r.s.index + 1));
        LoopCalls(g, Advance(r.s, End(i)));
      }
    }
  }

  lemma {:induction false} ExecCalls(g: seq<Program>, p: Program, s: State)
    requires s.index >= 1
    ensures MovedByNext(s, Exec(g, p, s).s)
    decreases if Measure(g, s.index) > 0 then Measure(g, s.index) - 1 else 0, 1, p, 1
  {
    hide Calls;
    if p.Do? {
      StepCalls(g, p.first, s);
      var r := Step(g, p.first, s);
      if r.panic.None? {
        ExecCalls(g, p.rest, r.s);
        ExecGrows(g, p.rest, r.s);
      }
    }
  }

  lemma {:induction false} StepCalls(g: seq<Program>, c: Stmt, s: State)
    requires s.index >= 1
    ensures MovedByNext(s, Step(g, c, s).s)
    decreases if Measure(g, s.index) > 0 then Measure(g, s.index) - 1 else 0, 1, c, 0
  {
    hide Loop, Exec, Rendering, Calls, Starts, Ends, HasAbort;
    match c
    case Work(id) => Appended(s.trace, Moment(Did(id), s.index));
    case Next =>
      Appended(s.trace, Moment(Call, s.index + 1));
      LoopCalls(g, Advance(s, Call));
      LoopGrows(g, Advance(s, Call));
    case Abort => Appended(s.trace, Moment(Aborted, s.index));
    case Panic(v) =>
    case SetStatus(code) => Appended(s.trace, Moment(StatusSet(code), s.index));
    case Render(text) => RenderCalls(s, text);
    case Escape => Appended(s.trace, Moment(Escaped, s.index));
    case Try(body, handler) =>
      ExecCalls(g, body, s);
      var r := Exec(g, body, s);
      ExecGrows(g, body, s);
      if r.panic.Some? {
        ExecCalls(g, handler, r.s);
        ExecGrows(g, handler, r.s);
      }
  }

  lemma RenderCalls(s: State, text: nat)
    ensures MovedByNext(s, Rendering(s, text))
  {
    var s1 := Log(s, Rendered(text));
    Appended(s.trace, Moment(Rendered(text), s.index));
    Appended(s1.trace, Moment(Header(s1.status), s1.index));
    var s2 := if s1.status != 0 then Log(s1, Header(s1.status)) else s1;
    Appended(s2.trace, Moment(Body(text), s2.index));
  }

  /**
    What handler s.index - 1 reads of its blueprint after doing q: its own exactly if q has not
    called Next. After a Next without Try, Abort and Panic there is none to read: a render that needs
    it panics.
  */
  lemma OwnBluePrint(g: seq<Program>, q: Program, s: State)
    requires 1 <= s.index <= |g| <= 255
    ensures var s' := Exec(g, q, s).s;
      && (Owner(g, s') == Owner(g, s) <==> Calls(s'.trace) == Calls(s.trace))
      && (s.abortIndex == 0 && AllSmooth(g) && Smooth(q) ==>
          Owner(g, s') == if NextCount(q) == 0 then Some(s.index - 1) else None)
  {
    hide Exec, Calls, Smooth, NextCount, NextBetween;
    ExecCalls(g, q, s);
    ExecGrows(g, q, s);
    if s.abortIndex == 0 && AllSmooth(g) && Smooth(q) { ExecCount(g, q, s); }
  }

  // ------------------------------------------------------------------ handlers around handlers

  /** A handler that works before and after the handlers behind it. */
  datatype Layer = Layer(before: seq<nat>, after: seq<nat>)

  function Works(ids: seq<nat>, rest: Program): Program {
    if ids == [] then rest else Do(Work(ids[0]), Works(ids[1..], rest))
  }

  function HandlerOf(l: Layer): Program {
    Works(l.before, Do(Next, Works(l.after, Done)))
  }

  /** Layers from i on: before-work inwards, after-work outwards. */
  function Onion(ls: seq<Layer>, i: nat): seq<nat>
    requires i <= |ls|
    decreases |ls| - i
  {
    if i == |ls| then [] else ls[i].before + Onion(ls, i + 1) + ls[i].after
  }

  /** The work done, in order. */
  function Dids(t: Trace): seq<nat> {
    if t == [] then []
    else
      var e := t[|t| - 1].event;
      Dids(t[..|t| - 1]) + if e.Did? then [e.id] else []
  }

  lemma DidOne(t: Trace, m: Moment)
    ensures Dids(t + [m]) == Dids(t) + if m.event.Did? then [m.event.id] else []
  {
    assert (t + [m])[..|t|] == t;
  }

  function LogWorks(s: State, ids: seq<nat>): (r: State)
    ensures r == s.(trace := r.trace)
    decreases ids
  {
    if ids == [] then s else LogWorks(Log(s, Did(ids[0])), ids[1..])
  }

  lemma {:induction false} WorksDone(g: seq<Program>, ids: seq<nat>, rest: Program, s: State)
    requires s.index >= 1
    ensures Exec(g, Works(ids, rest), s) == Exec(g, rest, LogWorks(s, ids))
    ensures Dids(LogWorks(s, ids).trace) == Dids(s.trace) + ids
  {
    if ids == [] {
      assert Dids(s.trace) + [] == Dids(s.trace);
    } else {
      var s1 := Log(s, Did(ids[0]));
      DidOne(s.trace, Moment(Did(ids[0]), s.index));
      WorksDone(g, ids[1..], rest, s1);
      assert Dids(s.trace) + ids == Dids(s.trace) + [ids[0]] + ids[1..];
    }
  }

  /** Next, and then the rest of a handler. */
  lemma NextThen(g: seq<Program>, rest: Program, s: State, s': State)
    requires s.index >= 1 && Loop(g, Advance(s, Call)) == Result(s', None)
    ensures Exec(g, Do(Next, rest), s) == Exec(g, rest, s')
  {
    hide Loop;
  }

  /** Calling a layer: its before-work, what is behind it, its after-work. */
  lemma LayerRuns(g: seq<Program>, l: Layer, s: State, s4: State, mid: seq<nat>)
    requires s.index >= 1
    requires var s3 := Advance(LogWorks(s, l.before), Call);
      Loop(g, s3) == Result(s4, None) && Dids(s4.trace) == Dids(s3.trace) + mid
    ensures Exec(g, HandlerOf(l), s) == Result(LogWorks(s4, l.after), None)
    ensures Dids(LogWorks(s4, l.after).trace) == Dids(s.trace) + l.before + mid + l.after
  {
    SameButTrace(s, l.before);
    hide Loop, Exec, Works, LogWorks, Dids;
    var s2 := LogWorks(s, l.before);
    WorksDone(g, l.before, Do(Next, Works(l.after, Done)), s);
    DidOne(s2.trace, Moment(Call, s2.index + 1));
    NextThen(g, Works(l.after, Done), s2, s4);
    WorksDone(g, l.after, Done, s4);
    NothingLeft(g, LogWorks(s4, l.after));
  }

  lemma NothingLeft(g: seq<Program>, s: State)
    requires s.index >= 1
    ensures Exec(g, Done, s) == Result(s, None)
  {
  }

  lemma {:induction false} LayersFrom(ls: seq<Layer>, g: seq<Program>, s: State)
    requires |g| == |ls| <= 255 && forall i :: 0 <= i < |g| ==> g[i] == HandlerOf(ls[i])
    requires 1 <= s.index <= |g| + 1 && s.abortIndex == 0
    ensures var r := Loop(g, s);
      && r.panic.None? && r.s.index == 2 * |g| + 2 - s.index && r.s == s.(index := r.s.index, trace := r.s.trace)
      && Dids(r.s.trace) == Dids(s.trace) + Onion(ls, s.index - 1)
    decreases |g| + 1 - s.index
  {
    hide LogWorks, HandlerOf, Dids, Exec, Loop;
    if s.index == |g| + 1 {
      LoopOver(g, s);
      assert Dids(s.trace) + [] == Dids(s.trace);
    } else {
      var i, l := s.index - 1, ls[s.index - 1];
      var s1 := Log(s, Begin(i));
      DidOne(s.trace, Moment(Begin(i), s.index));
      var s3 := Advance(LogWorks(s1, l.before), Call);
      SameButTrace(s1, l.before);
      LayersFrom(ls, g, s3);
      var s4 := Loop(g, s3).s;
      LayerRuns(g, l, s1, s4, Onion(ls, i + 1));
      SameButTrace(s4, l.after);
      var s5 := LogWorks(s4, l.after);
      var s6 := Advance(s5, End(i));
      DidOne(s5.trace, Moment(End(i), s6.index));
      LoopTurn(g, s);
      LoopOver(g, s6);
      assert Dids(s.trace) + Onion(ls, i) == Dids(s.trace) + l.before + Onion(ls, i + 1) + l.after;
    }
  }

  lemma SameButTrace(s: State, ids: seq<nat>)
    ensures var r := LogWorks(s, ids); r == s.(trace := r.trace)
  {
  }

  /**
    Handlers that each call Next once wrap around the ones behind them, and leave the counter at
    2n + 1: a byte holds it exactly for up to 127 of them.
  */
  lemma {:induction false} LayersWrap(ls: seq<Layer>, g: seq<Program>, s: State)
    requires Clean(s) && |g| == |ls| <= 255 && forall i :: 0 <= i < |g| ==> g[i] == HandlerOf(ls[i])
    ensures Dids(Start(g, s).s.trace) == Onion(ls, 0)
    ensures Start(g, s).panic.None? && Start(g, s).s.index == 2 * |g| + 1
    ensures Start(g, s).s.index <= 255 <==> |g| <= 127
  {
    var s1 := Advance(s, Call);
    DidOne(s.trace, Moment(Call, 1));
    LayersFrom(ls, g, s1);
    assert [] + Onion(ls, 0) == Onion(ls, 0);
  }

  // ------------------------------------------------------------------ what the client gets

  /** The status set since the last render, or 0. */
  function Pending(t: Trace): nat {
    if t == [] then 0
    else
      match t[|t| - 1].event
      case StatusSet(code) => code
      case Rendered(_) => 0
      case _ => Pending(t[..|t| - 1])
  }

  /** One header for every render with a status pending. */
  function HeadersDue(t: Trace): seq<nat> {
    if t == [] then []
    else
      var before := t[..|t| - 1];
      HeadersDue(before) + if t[|t| - 1].event.Rendered? && Pending(before) != 0 then [Pending(before)] else []
  }

  function TextsDue(t: Trace): seq<nat> {
    if t == [] then []
    else
      var e := t[|t| - 1].event;
      TextsDue(t[..|t| - 1]) + if e.Rendered? then [e.text] else []
  }

  function Headers(t: Trace): seq<nat> {
    if t == [] then []
    else
      var e := t[|t| - 1].event;
      Headers(t[..|t| - 1]) + if e.Header? then [e.code] else []
  }

  function Bodies(t: Trace): seq<nat> {
    if t == [] then []
    else
      var e := t[|t| - 1].event;
      Bodies(t[..|t| - 1]) + if e.Body? then [e.text] else []
  }

  /** Everything written to the client, in order. */
  function Writes(t: Trace): seq<Event> {
    if t == [] then []
    else
      var e := t[|t| - 1].event;
      Writes(t[..|t| - 1]) + if e.Header? || e.Body? then [e] else []
  }

  /** Every render writes the pending status, if there is one, and then its text. */
  function WritesDue(t: Trace): seq<Event> {
    if t == [] then []
    else
      var before, e := t[..|t| - 1], t[|t| - 1].event;
      WritesDue(before) +
        if e.Rendered? then (if Pending(before) != 0 then [Header(Pending(before))] else []) + [Body(e.text)] else []
  }

  predicate HasEscape(t: Trace) {
    t != [] && (t[|t| - 1].event.Escaped? || HasEscape(t[..|t| - 1]))
  }

  lemma Wrote(t: Trace, m: Moment)
    ensures Headers(t + [m]) == Headers(t) + if m.event.Header? then [m.event.code] else []
    ensures Bodies(t + [m]) == Bodies(t) + if m.event.Body? then [m.event.text] else []
    ensures TextsDue(t + [m]) == TextsDue(t) + if m.event.Rendered? then [m.event.text] else []
    ensures HeadersDue(t + [m]) == HeadersDue(t) + if m.event.Rendered? && Pending(t) != 0 then [Pending(t)] else []
    ensures Pending(t + [m]) ==
      if m.event.StatusSet? then m.event.code else if m.event.Rendered? then 0 else Pending(t)
    ensures HasEscape(t + [m]) <==> m.event.Escaped? || HasEscape(t)
    ensures Writes(t + [m]) == Writes(t) + if m.event.Header? || m.event.Body? then [m.event] else []
    ensures WritesDue(t + [m]) == WritesDue(t) + if m.event.Rendered?
      then (if Pending(t) != 0 then [Header(Pending(t))] else []) + [Body(m.event.text)] else []
  {
    assert (t + [m])[..|t|] == t;
  }

  /** What was written so far is what was due. */
  predicate Settled(s: State) {
    && s.status == Pending(s.trace) && Headers(s.trace) == HeadersDue(s.trace)
    && Bodies(s.trace) == TextsDue(s.trace) && (s.written <==> TextsDue(s.trace) != [])
    && (s.escaped <==> HasEscape(s.trace)) && Writes(s.trace) == WritesDue(s.trace)
  }

  lemma {:induction false} LoopSettled(g: seq<Program>, s: State)
    requires s.index >= 1 && Settled(s)
    ensures Settled(Loop(g, s).s)
    decreases Measure(g, s.index), 0
  {
    hide Loop, Exec, Headers, HeadersDue, Bodies, TextsDue, Pending, HasEscape, Writes, WritesDue;
    if s.index > Limit(g) || s.abortIndex != 0 {
      LoopOver(g, s);
    } else {
      LoopTurn(g, s);
      var i := s.index - 1;
      Wrote(s.trace, Moment(Begin(i), s.index));
      ExecSettled(g, g[i], Log(s, Begin(i)));
      var r := Exec(g, g[i], Log(s, Begin(i)));
      if r.panic.None? {
        Wrote(r.s.trace, Moment(End(i), r.s.index + 1));
        LoopSettled(g, Advance(r.s, End(i)));
      }
    }
  }

  lemma {:induction false} ExecSettled(g: seq<Program>, p: Program, s: State)
    requires s.index >= 1 && Settled(s)
    ensures Settled(Exec(g, p, s).s)
    decreases if Measure(g, s.index) > 0 then Measure(g, s.index) - 1 else 0, 1, p, 1
  {
    if p.Do? {
      StepSettled(g, p.first, s);
      var r := Step(g, p.first, s);
      if r.panic.None? { ExecSettled(g, p.rest, r.s); }
    }
  }

  lemma {:induction false} StepSettled(g: seq<Program>, c: Stmt, s: State)
    requires s.index >= 1 && Settled(s)
    ensures Settled(Step(g, c, s).s)
    decreases if Measure(g, s.index) > 0 then Measure(g, s.index) - 1 else 0, 1, c, 0
  {
    hide Rendering, Loop, Exec, Headers, HeadersDue, Bodies, TextsDue, Pending, HasEscape, Writes, WritesDue;
    match c
    case Work(id) => Wrote(s.trace, Moment(Did(id), s.index));
    case Next =>
      Wrote(s.trace, Moment(Call, s.index + 1));
      LoopSettled(g, Advance(s, Call));
    case Abort => Wrote(s.trace, Moment(Aborted, s.index));
    case Panic(v) =>
    case SetStatus(code) => Wrote(s.trace, Moment(StatusSet(code), s.index));
    case Render(text) => RenderSettled(s, text);
    case Escape => Wrote(s.trace, Moment(Escaped, s.index));
    case Try(body, handler) =>
      ExecSettled(g, body, s);
      var r := Exec(g, body, s);
      if r.panic.Some? { ExecSettled(g, handler, r.s); }
  }

  lemma RenderSettled(s: State, text: nat)
    requires Settled(s)
    ensures Settled(Rendering(s, text))
  {
    hide Headers, Bodies, TextsDue, HeadersDue, Pending, HasEscape, Writes, WritesDue;
    var s1 := Log(s, Rendered(text));
    Wrote(s.trace, Moment(Rendered(text), s.index));
    Wrote(s1.trace, Moment(Header(s1.status), s1.index));
    var s2 := if s1.status != 0 then Log(s1, Header(s1.status)) else s1;
    Wrote(s2.trace, Moment(Body(text), s2.index));
  }

  /**
    The client gets, for every render, the status pending then, if there is one, and behind it the
    text, also after a status that allows no body; at the end it gets a status still pending, if
    nothing was rendered: a status set after the last render is lost.
  */
  lemma ClientGets(g: seq<Program>, s: State)
    requires Clean(s)
    ensures var t := Start(g, s).s.trace;
      && Headers(t) == HeadersDue(t) + (if TextsDue(t) == [] && Pending(t) != 0 then [Pending(t)] else [])
      && Bodies(t) == TextsDue(t) && (Start(g, s).s.escaped <==> HasEscape(t))
      && Writes(t) == WritesDue(t) + (if TextsDue(t) == [] && Pending(t) != 0 then [Header(Pending(t))] else [])
  {
    Wrote(s.trace, Moment(Call, 1));
    LoopSettled(g, Advance(s, Call));
    var t := Loop(g, Advance(s, Call)).s;
    Wrote(t.trace, Moment(Header(t.status), t.index));
  }

  /** Two steps of a single handler. */
  lemma TwoSteps(c: Stmt, d: Stmt)
    requires !c.Next? && !c.Try? && !c.Panic? && !c.Abort? && !d.Next? && !d.Try? && !d.Panic? && !d.Abort?
    ensures var g := [Do(c, Do(d, Done))];
      var s1 := Step(g, c, Log(Advance(FRESH, Call), Begin(0))).s;
      Start(g, FRESH) == Result(Finish(Advance(Step(g, d, s1).s, End(0))), None)
  {
    var g, p := [Do(c, Do(d, Done))], Do(d, Done);
    var s0 := Log(Advance(FRESH, Call), Begin(0));
    var s1 := Step(g, c, s0).s;
    var s2 := Step(g, d, s1).s;
    assert Exec(g, p, s1) == Exec(g, Done, s2) == Result(s2, None);
    assert Exec(g, g[0], s0) == Exec(g, p, s1);
    LoopTurn(g, Advance(FRESH, Call));
    LoopOver(g, Advance(s2, End(0)));
  }

  /** A status that allows no body gets one. */
  lemma BodyNotAllowed(code: nat, text: nat)
    requires code != 0 && !BodyAllowed(code)
    ensures var t := Start([Do(SetStatus(code), Do(Render(text), Done))], FRESH).s.trace;
      Headers(t) == [code] && Bodies(t) == [text] && Writes(t) == [Header(code), Body(text)]
  {
    TwoSteps(SetStatus(code), Render(text));
    hide Start;
    var s := Log(Advance(FRESH, Call), Begin(0)).(status := code);
    var t := Log(s, StatusSet(code)).trace;
    assert t == [Moment(Call, 1), Moment(Begin(0), 1), Moment(StatusSet(code), 1)];
    Wrote([], t[0]);
    Wrote(t[..1], t[1]);
    Wrote(t[..2], t[2]);
    Wrote(t, Moment(Rendered(text), 1));
    var t1 := t + [Moment(Rendered(text), 1)];
    Wrote(t1, Moment(Header(code), 1));
    var t2 := t1 + [Moment(Header(code), 1)];
    Wrote(t2, Moment(Body(text), 1));
    Wrote(t2 + [Moment(Body(text), 1)], Moment(End(0), 2));
  }

  /** A status set after a render never reaches the client. */
  lemma LateStatusLost(code: nat, text: nat)
    requires code != 0
    ensures var t := Start([Do(Render(text), Do(SetStatus(code), Done))], FRESH).s.trace;
      Headers(t) == [] && Bodies(t) == [text] && Pending(t) == code && Writes(t) == [Body(text)]
  {
    TwoSteps(Render(text), SetStatus(code));
    hide Start, Headers, Bodies, TextsDue, HeadersDue, Pending, HasEscape, Writes, WritesDue;
    var t := [Moment(Call, 1), Moment(Begin(0), 1)];
    var t1 := t + [Moment(Rendered(text), 1)];
    var t2 := t1 + [Moment(Body(text), 1)];
    var t3 := t2 + [Moment(StatusSet(code), 1)];
    var s := Log(Advance(FRESH, Call), Begin(0));
    assert s.trace == t && BodyAllowed(s.status);
    assert Rendering(s, text).trace == t2;
    NothingYet();
    assert t == [] + [t[0]] + [t[1]];
    Wrote([], t[0]);
    Wrote([] + [t[0]], t[1]);
    Wrote(t, Moment(Rendered(text), 1));
    Wrote(t1, Moment(Body(text), 1));
    Wrote(t2, Moment(StatusSet(code), 1));
    Wrote(t3, Moment(End(0), 2));
  }

  lemma NothingYet()
    ensures Headers([]) == [] && Bodies([]) == [] && Writes([]) == [] && Pending([]) == 0
  {
  }
}

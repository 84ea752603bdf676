/** What a run does, read off its handlers: the order of their steps, whether a context escapes, how many are called. */
module Effects {
  import opened Options
  import opened Chain
  import opened ChainRuns

  /** The step that left an event, where it is one of the handler's own. */
  function ActOf(e: Event): seq<Stmt> {
    match e
    case Did(id) => [Work(id)]
    case StatusSet(code) => [SetStatus(code)]
    case Rendered(text) => [Render(text)]
    case Escaped => [Escape]
    case _ => []
  }

  /** The steps that a trace shows, in order. */
  function Acts(t: Trace): seq<Stmt> {
    if t == [] then [] else Acts(t[..|t| - 1]) + ActOf(t[|t| - 1].event)
  }

  lemma ActOne(t: Trace, m: Moment)
    ensures Acts(t + [m]) == Acts(t) + ActOf(m.event)
  {
    assert (t + [m])[..|t|] == t;
  }

  /** The steps of p other than Next. */
  function Steps(p: Program): seq<Stmt> {
    if p.Done? then [] else (if p.first.Next? then [] else [p.first]) + Steps(p.rest)
  }

  /** The steps of p with those of the handlers behind it where p first calls Next, or else at its end. */
  function Around(p: Program, behind: seq<Stmt>): seq<Stmt> {
    if p.Done? then behind
    else if p.first.Next? then behind + Steps(p.rest)
    else [p.first] + Around(p.rest, behind)
  }

  /** The steps of the handlers from i on. */
  function Unfolded(g: seq<Program>, i: nat): seq<Stmt>
    requires i <= Limit(g)
    decreases Limit(g) - i
  {
    if i == Limit(g) then [] else Around(g[i], Unfolded(g, i + 1))
  }

  lemma {:induction false} AroundLast(p: Program, behind: seq<Stmt>)
    requires NextCount(p) == 0
    ensures Around(p, behind) == Steps(p) + behind
  {
    if p.Do? { AroundLast(p.rest, behind); }
  }

  /** A step that is no Next leaves itself in the trace. */
  lemma StepActs(g: seq<Program>, c: Stmt, s: State)
    requires s.index >= 1 && !c.Next? && !c.Try? && !c.Abort? && !c.Panic?
    ensures Acts(Step(g, c, s).s.trace) == Acts(s.trace) + [c]
  {
    hide Acts;
    match c
    case Work(id) => ActOne(s.trace, Moment(Did(id), s.index));
    case SetStatus(code) => ActOne(s.trace, Moment(StatusSet(code), s.index));
    case Render(text) =>
      var s1 := Log(s, Rendered(text));
      ActOne(s.trace, Moment(Rendered(text), s.index));
      ActOne(s1.trace, Moment(Header(s1.status), s1.index));
      var s2 := if s1.status != 0 then Log(s1, Header(s1.status)) else s1;
      ActOne(s2.trace, Moment(Body(text), s2.index));
    case Escape => ActOne(s.trace, Moment(Escaped, s.index));
  }

  /** With nothing left to call, a handler only does its own steps. */
  lemma {:induction false} OverActs(g: seq<Program>, p: Program, s: State)
    requires s.index >= 1 && Over(g, s) && Smooth(p)
    ensures Acts(Exec(g, p, s).s.trace) == Acts(s.trace) + Steps(p)
    decreases p
  {
    hide Acts;
    if p.Do? {
      if p.first.Next? {
        LoopOver(g, Advance(s, Call));
        ActOne(s.trace, Moment(Call, s.index + 1));
      } else {
        StepActs(g, p.first, s);
      }
      OverActs(g, p.rest, Step(g, p.first, s).s);
    }
  }

  lemma {:induction false} ExecActs(g: seq<Program>, p: Program, s: State)
    requires 1 <= s.index <= Limit(g) && s.abortIndex == 0 && Smooth(p) && AllSmooth(g)
    ensures Acts(Exec(g, p, s).s.trace) ==
      Acts(s.trace) + if NextCount(p) == 0 then Steps(p) else Around(p, Unfolded(g, s.index))
    decreases Measure(g, s.index) - 1, 1, p
  {
    hide Acts, Loop, Unfolded;
    if p.Do? {
      if p.first.Next? {
        var s1 := Advance(s, Call);
        ActOne(s.trace, Moment(Call, s1.index));
        LoopActs(g, s1);
        LoopCount(g, s1);
        OverActs(g, p.rest, Loop(g, s1).s);
      } else {
        StepActs(g, p.first, s);
        ExecActs(g, p.rest, Step(g, p.first, s).s);
      }
    }
  }

  lemma UnfoldedAt(g: seq<Program>, i: nat)
    requires i <= Limit(g)
    ensures Unfolded(g, i) == if i == Limit(g) then [] else Around(g[i], Unfolded(g, i + 1))
  {
  }

  lemma NotActs(i: nat)
    ensures ActOf(Begin(i)) == [] && ActOf(End(i)) == []
  {
  }

  lemma {:induction false} LoopActs(g: seq<Program>, s: State)
    requires 1 <= s.index <= Limit(g) + 1 && s.abortIndex == 0 && AllSmooth(g)
    ensures Acts(Loop(g, s).s.trace) == Acts(s.trace) + Unfolded(g, s.index - 1)
    decreases Measure(g, s.index), 0
  {
    hide Acts, Loop, Exec, Around, Unfolded, Smooth, Steps, NextCount, NextBetween, ActOf;
    UnfoldedAt(g, s.index - 1);
    if s.index == Limit(g) + 1 {
      LoopOver(g, s);
    } else {
      var i := s.index - 1;
      var s1 := Log(s, Begin(i));
      ActOne(s.trace, Moment(Begin(i), s.index));
      LoopTurn(g, s);
      ExecActs(g, g[i], s1);
      ExecCount(g, g[i], s1);
      var r := Exec(g, g[i], s1);
      var s2 := Advance(r.s, End(i));
      ActOne(r.s.trace, Moment(End(i), s2.index));
      assert ActOf(Begin(i)) == [] && ActOf(End(i)) == [] by { NotActs(i); }
      if NextCount(g[i]) == 0 {
        LoopActs(g, s2);
        AroundLast(g[i], Unfolded(g, i + 1));
      } else {
        LoopOver(g, s2);
      }
    }
  }

  predicate Escapes(p: Program) {
    p.Do? && (p.first.Escape? || Escapes(p.rest))
  }

  /**
    Without Try, Abort and Panic, the steps done are those of the handlers, each handler's in order,
    those of the handlers behind it where it first calls Next, or else after its own. The context
    escapes exactly if one of the handlers called contains an Escape.
  */
  lemma StepsInOrder(g: seq<Program>, s: State)
    requires Clean(s) && AllSmooth(g)
    ensures var r := Start(g, s);
      Acts(r.s.trace) == Unfolded(g, 0) && (r.s.escaped <==> exists i :: 0 <= i < Limit(g) && Escapes(g[i]))
  {
    hide Loop, Unfolded, Acts, HasEscape;
    assert Acts(s.trace) == [] by { NoActs(); }
    var s1 := Advance(s, Call);
    ActOne(s.trace, Moment(Call, 1));
    LoopActs(g, s1);
    var t := Loop(g, s1).s;
    ActOne(t.trace, Moment(Header(t.status), t.index));
    ClientGets(g, s);
    EscapeShows(Start(g, s).s.trace);
    EscapeUnfolds(g, 0);
  }

  lemma NoActs()
    ensures Acts([]) == []
  {
  }

  lemma {:induction false} EscapeShows(t: Trace)
    ensures HasEscape(t) <==> Escape in Acts(t)
  {
    if t != [] { EscapeShows(t[..|t| - 1]); }
  }

  lemma {:induction false} EscapeStays(p: Program, behind: seq<Stmt>)
    ensures Escape in Steps(p) <==> Escapes(p)
    ensures Escape in Around(p, behind) <==> Escapes(p) || Escape in behind
  {
    if p.Do? { EscapeStays(p.rest, behind); }
  }

  lemma {:induction false} EscapeUnfolds(g: seq<Program>, i: nat)
    requires i <= Limit(g)
    ensures Escape in Unfolded(g, i) <==> exists k :: i <= k < Limit(g) && Escapes(g[k])
    decreases Limit(g) - i
  {
    if i < Limit(g) {
      EscapeStays(g[i], Unfolded(g, i + 1));
      EscapeUnfolds(g, i + 1);
    }
  }

  /** The number of handlers is taken as a byte: of 256 q + n handlers only the first n are ever called. */
  lemma HandlersBeyondByte(g: seq<Program>, s: State, q: nat, n: nat)
    requires Clean(s) && |g| == 256 * q + n && n < 256
    ensures var r := Start(g, s);
      && |Starts(r.s.trace)| <= n && (forall i :: 0 <= i < |Starts(r.s.trace)| ==> Starts(r.s.trace)[i] == i)
      && (r.panic.None? && !HasAbort(r.s.trace) ==> |Starts(r.s.trace)| == n)
  {
    RunsInOrder(g, s);
    assert Limit(g) == n;
    hide Start, Starts, HasAbort;
    var t := Start(g, s).s.trace;
    assert Starts(t) == UpTo(|Starts(t)|);
  }
}

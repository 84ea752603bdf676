/** Which panics get out of a middleware chain, and what RecoverHandler in front of it catches. */
module Panics {
  import opened Options
  import opened Chain
  import opened ChainRuns

  /** p lets no panic out of its own code, whatever it catches. */
  predicate Calm(p: Program) {
    p.Do? ==> CalmStep(p.first) && Calm(p.rest)
  }

  predicate CalmStep(c: Stmt) {
    !c.Panic? && (c.Try? ==> Calm(c.handler))
  }

  /** All handlers are calm, but perhaps handler j. */
  predicate CalmBut(g: seq<Program>, j: int) {
    forall i :: 0 <= i < |g| && i != j ==> Calm(g[i])
  }

  /** A panic comes out of the loop only once handler j has been called. */
  lemma {:induction false} LoopPanics(g: seq<Program>, s: State, j: int)
    requires s.index >= 1 && CalmBut(g, j)
    ensures Loop(g, s).panic.Some? ==> s.index <= j + 1 <= Loop(g, s).s.index
    decreases Measure(g, s.index), 0
  {
    if s.index <= Limit(g) && s.abortIndex == 0 {
      var i := s.index - 1;
      var s1 := Log(s, Begin(i));
      if i != j { ExecPanics(g, g[i], s1, j); }
      var r := Exec(g, g[i], s1);
      if r.panic.None? { LoopPanics(g, Advance(r.s, End(i)), j); }
    }
  }

  lemma {:induction false} ExecPanics(g: seq<Program>, p: Program, s: State, j: int)
    requires s.index >= 1 && CalmBut(g, j) && Calm(p)
    ensures Exec(g, p, s).panic.Some? ==> s.index <= j && j + 1 <= Exec(g, p, s).s.index
    decreases if Measure(g, s.index) > 0 then Measure(g, s.index) - 1 else 0, 1, p, 1
  {
    if p.Do? {
      StepPanics(g, p.first, s, j);
      var r := Step(g, p.first, s);
      if r.panic.None? { ExecPanics(g, p.rest, r.s, j); }
    }
  }

  lemma {:induction false} StepPanics(g: seq<Program>, c: Stmt, s: State, j: int)
    requires s.index >= 1 && CalmBut(g, j) && CalmStep(c)
    ensures Step(g, c, s).panic.Some? ==> s.index <= j && j + 1 <= Step(g, c, s).s.index
    decreases if Measure(g, s.index) > 0 then Measure(g, s.index) - 1 else 0, 1, c, 0
  {
    match c
    case Next => LoopPanics(g, Advance(s, Call), j);
    case Try(body, handler) =>
      var r := Exec(g, body, s);
      if r.panic.Some? { ExecPanics(g, handler, r.s, j); }
    case _ =>
  }

  /**
    RecoverHandler in front lets no panic out if a single handler behind it can panic; that handler
    may stand anywhere, and the ones behind it are still called.
  */
  lemma RecoverCatchesOne(g: seq<Program>, s: State, h: Program, j: nat)
    requires Clean(s) && g != [] && g[0] == RecoverHandler(h) && Calm(h) && CalmBut(g, j) && j > 0
    ensures var r := Start(g, s);
      r.panic.None? && (!HasAbort(r.s.trace) ==> Starts(r.s.trace) == UpTo(Limit(g)))
  {
    RunsInOrder(g, s);
    LoopPanics(g, Advance(s, Call), j);
    if 1 <= Limit(g) {
      var s1 := Log(Advance(s, Call), Begin(0));
      var body := Do(Next, Done);
      var inner := Exec(g, body, s1);
      var l := Loop(g, Advance(s1, Call));
      assert Step(g, Next, s1) == l && (l.panic.None? ==> Exec(g, Done, l.s) == l);
      assert inner == l;
      LoopPanics(g, Advance(s1, Call), j);
      var catch := Try(body, h);
      if inner.panic.Some? { ExecPanics(g, h, inner.s, j); }
      var r := Step(g, catch, s1);
      assert r.panic.None? && (inner.panic.Some? ==> r.s.index >= j + 1);
      assert g[0] == Do(catch, Done) && Exec(g, Done, r.s) == Result(r.s, None);
      assert Exec(g, g[0], s1) == Exec(g, Done, r.s);
      assert Loop(g, Advance(s, Call)) == Loop(g, Advance(r.s, End(0)));
      LoopPanics(g, Advance(r.s, End(0)), j);
      if inner.panic.None? { EndOfLoop(g, Advance(s1, Call)); }
    }
  }

  /** A loop that ends without a panic leaves nothing for the loop around it to call. */
  lemma {:induction false} EndOfLoop(g: seq<Program>, s: State)
    requires s.index >= 1 && Loop(g, s).panic.None?
    ensures var t := Loop(g, s).s; t.index > Limit(g) || t.abortIndex != 0
    decreases Measure(g, s.index)
  {
    if s.index <= Limit(g) && s.abortIndex == 0 {
      var r := Exec(g, g[s.index - 1], Log(s, Begin(s.index - 1)));
      EndOfLoop(g, Advance(r.s, End(s.index - 1)));
    }
  }

  /** Behind the first panic the chain goes on unprotected: a second one gets out. */
  lemma SecondPanicEscapes(v: nat, w: nat)
    ensures Start([RecoverHandler(Done), Do(Panic(v), Done), Do(Panic(w), Done)], FRESH).panic == Some(w)
  {
    var g := [RecoverHandler(Done), Do(Panic(v), Done), Do(Panic(w), Done)];
    var s1 := Log(Advance(FRESH, Call), Begin(0));
    var s2 := Log(Advance(s1, Call), Begin(1));
    assert Step(g, Panic(v), s2) == Result(s2, Some(v));
    assert Exec(g, g[1], s2) == Result(s2, Some(v));
    assert Loop(g, Advance(s1, Call)) == Result(s2, Some(v));
    assert Exec(g, Do(Next, Done), s1) == Result(s2, Some(v));
    assert Step(g, g[0].first, s1) == Exec(g, Done, s2) == Result(s2, None);
    assert Exec(g, g[0], s1) == Exec(g, Done, s2);
    var s3 := Advance(s2, End(0));
    assert Loop(g, Advance(FRESH, Call)) == Loop(g, s3);
    var s4 := Log(s3, Begin(2));
    assert Step(g, Panic(w), s4) == Result(s4, Some(w));
    assert Exec(g, g[2], s4) == Result(s4, Some(w));
  }

  // ------------------------------------------------------------------ exactly which panics get out

  /** The first of Next, Abort and Panic in a handler without Try. */
  datatype First = Nothing | CallsNext | Aborts | Throwing

  function Opening(p: Program): First {
    if p.Done? then Nothing
    else
      match p.first
      case Next => CallsNext
      case Abort => Aborts
      case Panic(_) => Throwing
      case _ => Opening(p.rest)
  }

  predicate NoTry(p: Program) {
    p.Do? ==> !p.first.Try? && NoTry(p.rest)
  }

  /** p contains a Panic. */
  predicate Throws(p: Program) {
    p.Do? && (p.first.Panic? || Throws(p.rest))
  }

  /** p contains an Abort. */
  predicate HasAbortStep(p: Program) {
    p.Do? && (p.first.Abort? || HasAbortStep(p.rest))
  }

  predicate NoTryBehind(g: seq<Program>, i: nat) {
    forall k :: i <= k < |g| ==> NoTry(g[k])
  }

  /** p keeps the handlers behind it from being called, before any of them is. */
  predicate Halts(p: Program) {
    Opening(p) == Aborts || Opening(p) == Throwing
  }

  /** The first handler from i on that opens with an abort or a panic. */
  function Stop(g: seq<Program>, i: nat): (j: nat)
    requires i <= Limit(g)
    ensures i <= j <= Limit(g)
    ensures forall k :: i <= k < j ==> !Halts(g[k])
    ensures j < Limit(g) ==> Halts(g[j])
    decreases Limit(g) - i
  {
    if i == Limit(g) || Halts(g[i]) then i else Stop(g, i + 1)
  }

  /** Some handler that is called, going from i on, contains a panic. */
  predicate Doomed(g: seq<Program>, i: nat)
    requires i <= Limit(g)
  {
    exists k :: i <= k <= Stop(g, i) && k < Limit(g) && Throws(g[k])
  }

  /** The counter after a panic that started from handler i: at the handler that opens with it, or at the end. */
  predicate LeftAt(g: seq<Program>, i: nat, s: State)
    requires i <= Limit(g)
  {
    var j := Stop(g, i);
    if j < Limit(g) && Opening(g[j]) == Throwing then s.index == j + 1 && s.abortIndex == 0 else Over(g, s)
  }

  lemma {:induction false} ThrowsOver(g: seq<Program>, p: Program, s: State)
    requires s.index >= 1 && Over(g, s) && NoTry(p)
    ensures var r := Exec(g, p, s); (r.panic.Some? <==> Throws(p)) && Over(g, r.s)
    decreases p
  {
    if p.Do? && !p.first.Panic? {
      if p.first.Next? { LoopOver(g, Advance(s, Call)); }
      ThrowsOver(g, p.rest, Step(g, p.first, s).s);
    }
  }

  /** Handler i, or the rest of it, runs while the handlers behind it wait. */
  lemma {:induction false} ExecThrows(g: seq<Program>, p: Program, s: State)
    requires 1 <= s.index <= Limit(g) && s.abortIndex == 0 && NoTry(p) && NoTryBehind(g, s.index)
    ensures var r := Exec(g, p, s);
      match Opening(p)
      case Nothing => r.panic.None? && !Throws(p) && r.s.index == s.index && r.s.abortIndex == 0
      case Throwing => r.panic.Some? && Throws(p) && r.s.index == s.index && r.s.abortIndex == 0
      case Aborts => (r.panic.Some? <==> Throws(p)) && Over(g, r.s)
      case CallsNext =>
        (r.panic.Some? <==> Throws(p) || Doomed(g, s.index))
        && if Doomed(g, s.index) then LeftAt(g, s.index, r.s) else Over(g, r.s)
    decreases Measure(g, s.index) - 1, 1, p
  {
    hide Loop, Doomed, LeftAt, Stop;
    if p.Do? {
      match p.first
      case Next =>
        LoopThrows(g, Advance(s, Call));
        var r := Loop(g, Advance(s, Call));
        if r.panic.None? { ThrowsOver(g, p.rest, r.s); }
      case Abort => ThrowsOver(g, p.rest, Step(g, p.first, s).s);
      case Panic(_) =>
      case Work(_) => ExecThrows(g, p.rest, Step(g, p.first, s).s);
      case SetStatus(_) => ExecThrows(g, p.rest, Step(g, p.first, s).s);
      case Render(_) => ExecThrows(g, p.rest, Step(g, p.first, s).s);
      case Escape => ExecThrows(g, p.rest, Step(g, p.first, s).s);
    }
  }

  lemma {:induction false} LoopThrows(g: seq<Program>, s: State)
    requires 1 <= s.index <= Limit(g) + 1 && s.abortIndex == 0 && NoTryBehind(g, s.index - 1)
    ensures var r := Loop(g, s);
      (r.panic.Some? <==> Doomed(g, s.index - 1)) && if r.panic.Some? then LeftAt(g, s.index - 1, r.s) else Over(g, r.s)
    decreases Measure(g, s.index), 0
  {
    hide Loop, Exec;
    if s.index == Limit(g) + 1 {
      LoopOver(g, s);
    } else {
      var i := s.index - 1;
      var s1 := Log(s, Begin(i));
      LoopTurn(g, s);
      ExecThrows(g, g[i], s1);
      var r := Exec(g, g[i], s1);
      DoomedStep(g, i);
      if Opening(g[i]) == CallsNext {
        if Stop(g, i + 1) < Limit(g) && Opening(g[Stop(g, i + 1)]) == Throwing { DoomedAtStop(g, i + 1); }
      }
      if r.panic.None? {
        var s2 := Advance(r.s, End(i));
        if Opening(g[i]) == Nothing { LoopThrows(g, s2); } else { LoopOver(g, s2); }
      }
    }
  }

  lemma {:induction false} OpeningThrows(p: Program)
    requires Opening(p) == Throwing
    ensures Throws(p)
  {
    if !p.first.Panic? { OpeningThrows(p.rest); }
  }

  lemma DoomedAtStop(g: seq<Program>, i: nat)
    requires i <= Limit(g) && Stop(g, i) < Limit(g) && Opening(g[Stop(g, i)]) == Throwing
    ensures Doomed(g, i)
  {
    OpeningThrows(g[Stop(g, i)]);
  }

  lemma DoomedStep(g: seq<Program>, i: nat)
    requires i < Limit(g)
    ensures match Opening(g[i])
      case Nothing => Stop(g, i) == Stop(g, i + 1) && (!Throws(g[i]) ==> (Doomed(g, i) <==> Doomed(g, i + 1)))
      case CallsNext => Stop(g, i) == Stop(g, i + 1) && (Doomed(g, i) <==> Throws(g[i]) || Doomed(g, i + 1))
      case _ => Stop(g, i) == i && (Doomed(g, i) <==> Throws(g[i]))
  {
    if !Halts(g[i]) {
      assert Stop(g, i) == Stop(g, i + 1);
      if Doomed(g, i + 1) {
        var k :| i + 1 <= k <= Stop(g, i + 1) && k < Limit(g) && Throws(g[k]);
      }
    }
  }

  /** A second panic behind the first, no abort before it. */
  predicate PanicsTwice(g: seq<Program>) {
    exists i, k :: 1 <= i < k < Limit(g) && Opening(g[i]) == Throwing && Throws(g[k])
      && forall m :: 1 <= m < k ==> Opening(g[m]) != Aborts
  }

  lemma TwiceIsDoomed(g: seq<Program>)
    requires Limit(g) >= 1
    ensures var j := Stop(g, 1);
      PanicsTwice(g) <==> j < Limit(g) && Opening(g[j]) == Throwing && Doomed(g, j + 1)
    ensures PanicsTwice(g) ==> Doomed(g, 1)
  {
    if PanicsTwice(g) { TwiceDooms(g); }
    var j := Stop(g, 1);
    if j < Limit(g) && Opening(g[j]) == Throwing && Doomed(g, j + 1) { DoomedTwice(g); }
  }

  lemma TwiceDooms(g: seq<Program>)
    requires Limit(g) >= 1 && PanicsTwice(g)
    ensures var j := Stop(g, 1); j < Limit(g) && Opening(g[j]) == Throwing && Doomed(g, j + 1) && Doomed(g, 1)
  {
    var i, k :| 1 <= i < k < Limit(g) && Opening(g[i]) == Throwing && Throws(g[k])
      && forall m :: 1 <= m < k ==> Opening(g[m]) != Aborts;
    var j := Stop(g, 1);
    assert Halts(g[i]) && j <= i && Halts(g[j]) && Opening(g[j]) == Throwing;
    DoomedAtStop(g, 1);
    var l := Stop(g, j + 1);
    if k > l {
      assert Halts(g[l]) && Opening(g[l]) == Throwing;
      DoomedAtStop(g, j + 1);
    }
  }

  lemma DoomedTwice(g: seq<Program>)
    requires Limit(g) >= 1
    requires var j := Stop(g, 1); j < Limit(g) && Opening(g[j]) == Throwing && Doomed(g, j + 1)
    ensures PanicsTwice(g)
  {
    var j := Stop(g, 1);
    var k :| j + 1 <= k <= Stop(g, j + 1) && k < Limit(g) && Throws(g[k]);
    forall m | 1 <= m < k ensures Opening(g[m]) != Aborts {
      if m != j { assert !Halts(g[m]); }
    }
  }

  /** A handler of a panic that neither panics nor calls Next. */
  lemma {:induction false} CatchRuns(g: seq<Program>, h: Program, s: State)
    requires s.index >= 1 && NoTry(h) && !Throws(h) && NextCount(h) == 0
    ensures var r := Exec(g, h, s);
      r.panic.None? && r.s.index == s.index && r.s.abortIndex == if HasAbortStep(h) then s.index else s.abortIndex
    decreases h
  {
    if h.Do? { CatchRuns(g, h.rest, Step(g, h.first, s).s); }
  }

  /** What RecoverHandler(h) does where it is called first. */
  lemma RecoverRuns(g: seq<Program>, h: Program, s: State)
    requires s.index >= 1
    ensures var l := Loop(g, Advance(s, Call));
      Exec(g, RecoverHandler(h), s) == if l.panic.Some? then Exec(g, h, l.s) else l
  {
    hide Loop;
    var l := Loop(g, Advance(s, Call));
    var body := Do(Next, Done);
    assert Step(g, Next, s) == l && (l.panic.None? ==> Exec(g, Done, l.s) == l);
    assert Exec(g, body, s) == l;
    var r := Step(g, Try(body, h), s);
    assert r == if l.panic.Some? then Exec(g, h, l.s) else l;
    assert r.panic.None? ==> Exec(g, Done, r.s) == r;
  }

  /**
    RecoverHandler in front of handlers that do not catch panics themselves: a panic gets out exactly
    if its own handler does not abort, and behind a handler that opens with a panic there is another
    one with a panic, none before it opening with an abort.
  */
  lemma RecoverExact(g: seq<Program>, s: State, h: Program)
    requires Clean(s) && g != [] && g[0] == RecoverHandler(h) && NoTryBehind(g, 1)
    requires NoTry(h) && !Throws(h) && NextCount(h) == 0
    ensures Start(g, s).panic.Some? <==> !HasAbortStep(h) && PanicsTwice(g)
  {
    hide Loop, Exec, PanicsTwice, Doomed;
    var s0 := Advance(s, Call);
    if Limit(g) == 0 {
      LoopOver(g, s0);
      NeverTwice(g);
    } else {
      var s1 := Log(s0, Begin(0));
      LoopTurn(g, s0);
      RecoverRuns(g, h, s1);
      LoopThrows(g, Advance(s1, Call));
      TwiceIsDoomed(g);
      var l := Loop(g, Advance(s1, Call));
      if l.panic.Some? { CatchRuns(g, h, l.s); }
      var s2 := Advance(Exec(g, g[0], s1).s, End(0));
      var j := Stop(g, 1);
      if l.panic.Some? && !HasAbortStep(h) && j < Limit(g) && Opening(g[j]) == Throwing {
        LoopThrows(g, s2);
      } else {
        LoopOver(g, s2);
      }
    }
  }

  lemma NeverTwice(g: seq<Program>)
    requires Limit(g) == 0
    ensures !PanicsTwice(g)
  {
  }
}

/**
  What a run of the middleware chain does (core/context.go, core/handler.go): handlers are finite
  programs, and the counter `index` is unbounded here. Module Contexts has the counter as a byte.
*/
module Chain {
  import opened Options

  /** What a handler can do with its context. `Try` is a deferred recover around `body`. */
  datatype Stmt =
    | Work(id: nat)
    | Next
    | Abort
    | Panic(value: nat)
    | SetStatus(code: nat)
    | Render(text: nat)
    | Escape
    | Try(body: Program, handler: Program)

  datatype Program = Done | Do(first: Stmt, rest: Program)

  /** RecoverHandler: catches whatever panics below its Next. */
  function RecoverHandler(handler: Program): Program {
    Do(Try(Do(Next, Done), handler), Done)
  }

  /** `Begin(i)` and `End(i)`: handler i is called, returns; `Header` and `Body` are writes to the client. */
  datatype Event =
    | Call
    | Begin(handler: nat)
    | End(handler: nat)
    | Did(id: nat)
    | Aborted
    | StatusSet(code: nat)
    | Rendered(text: nat)
    | Escaped
    | Header(code: nat)
    | Body(text: nat)

  /** An event and the counter right after it. */
  datatype Moment = Moment(event: Event, index: nat)

  type Trace = seq<Moment>

  datatype State = State(index: nat, abortIndex: nat, status: nat, written: bool, escaped: bool, trace: Trace)

  /** A context as the pool's New makes it, for a new response. */
  const FRESH := State(0, 0, 0, false, false, [])

  /** `panic` is the value of a panic on its way up. */
  datatype Result = Result(s: State, panic: Option<nat>)

  function Log(s: State, e: Event): State {
    s.(trace := s.trace + [Moment(e, s.index)])
  }

  /** Adding one to the counter, with the event that goes with it. */
  function Advance(s: State, e: Event): State {
    Log(s.(index := s.index + 1), e)
  }

  /** uint8(len(c.group)) */
  function Limit(g: seq<Program>): nat {
    |g| % 256
  }

  function BodyAllowed(status: nat): bool {
    !(100 <= status <= 199) && status != 204 && status != 304
  }

  function Rendering(s: State, text: nat): State {
    var s := Log(s, Rendered(text));
    var s := if s.status != 0 then Log(s, Header(s.status)).(status := 0) else s;
    if !BodyAllowed(s.status) then s else Log(s, Body(text)).(written := true)
  }

  /** The handler whose blueprint c.BluePrint() reads, at c.group[c.index-1]; None is a panic, out of range. */
  function Owner(g: seq<Program>, s: State): Option<nat> {
    if 1 <= s.index <= |g| then Some(s.index - 1) else None
  }

  /** How far the loop of Next can still go. */
  function Measure(g: seq<Program>, index: nat): nat {
    if index <= Limit(g) then 2 * (Limit(g) + 1 - index) else 0
  }

  /** The loop of Next, its first increment done. */
  function Loop(g: seq<Program>, s: State): (r: Result)
    requires s.index >= 1
    ensures r.s.index >= s.index
    decreases Measure(g, s.index), 0
  {
    if s.index > Limit(g) || s.abortIndex != 0 then Result(s, None)
    else
      var i := s.index - 1;
      var r := Exec(g, g[i], Log(s, Begin(i)));
      if r.panic.Some? then r else Loop(g, Advance(r.s, End(i)))
  }

  /** One turn of the loop. */
  lemma LoopTurn(g: seq<Program>, s: State)
    requires 1 <= s.index <= Limit(g) && s.abortIndex == 0
    ensures var r := Exec(g, g[s.index - 1], Log(s, Begin(s.index - 1)));
      Loop(g, s) == if r.panic.Some? then r else Loop(g, Advance(r.s, End(s.index - 1)))
  {
  }

  lemma LoopOver(g: seq<Program>, s: State)
    requires s.index >= 1 && (s.index > Limit(g) || s.abortIndex != 0)
    ensures Loop(g, s) == Result(s, None)
  {
  }

  function Exec(g: seq<Program>, p: Program, s: State): (r: Result)
    requires s.index >= 1
    ensures r.s.index >= s.index
    decreases if Measure(g, s.index) > 0 then Measure(g, s.index) - 1 else 0, 1, p, 1
  {
    if p.Done? then Result(s, None)
    else
      var r := Step(g, p.first, s);
      if r.panic.Some? then r else Exec(g, p.rest, r.s)
  }

  function Step(g: seq<Program>, c: Stmt, s: State): (r: Result)
    requires s.index >= 1
    ensures r.s.index >= s.index
    decreases if Measure(g, s.index) > 0 then Measure(g, s.index) - 1 else 0, 1, c, 0
  {
    match c
    case Work(id) => Result(Log(s, Did(id)), None)
    case Next => Loop(g, Advance(s, Call))
    case Abort => Result(Log(s.(abortIndex := s.index), Aborted), None)
    case Panic(v) => Result(s, Some(v))
    case SetStatus(code) => Result(Log(s.(status := code), StatusSet(code)), None)
    case Render(text) => Result(Rendering(s, text), None)
    case Escape => Result(Log(s.(escaped := true), Escaped), None)
    case Try(body, handler) =>
      var r := Exec(g, body, s);
      if r.panic.Some? then Exec(g, handler, r.s) else r
  }

  /** The counter never goes back. */
  lemma LoopGrows(g: seq<Program>, s: State)
    requires s.index >= 1
    ensures Loop(g, s).s.index >= s.index
  {
  }

  lemma ExecGrows(g: seq<Program>, p: Program, s: State)
    requires s.index >= 1
    ensures Exec(g, p, s).s.index >= s.index
  {
  }

  lemma StepGrows(g: seq<Program>, c: Stmt, s: State)
    requires s.index >= 1
    ensures Step(g, c, s).s.index >= s.index
  {
  }

  /** finish: a status nobody sent is sent now. */
  function Finish(s: State): State {
    if s.status != 0 && !s.written then Log(s, Header(s.status)) else s
  }

  /** start: Next, then finish, panic or not. */
  function Start(g: seq<Program>, s: State): Result {
    var r := Loop(g, Advance(s, Call));
    Result(Finish(r.s), r.panic)
  }
}

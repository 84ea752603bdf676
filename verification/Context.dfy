/** Context of core/context.go and the context pool of core/engine.go, the counter being a byte. */
module Contexts {
  import opened Options
  import opened Chain

  newtype uint8 = x: int | 0 <= x < 256

  class Context {
    var index: uint8
    var abortIndex: uint8
    var status: nat
    var written: bool
    var escaped: bool
    var group: seq<Program>

    /** What handlers and client saw: calls of handlers, and writes to the response. */
    var trace: Trace

    function Now(): State
      reads this
    {
      State(index as nat, abortIndex as nat, status, written, escaped, trace)
    }

    constructor ()
      ensures Now() == FRESH && group == []
    {
      index, abortIndex, status, written, escaped, group, trace := 0, 0, 0, false, false, [], [];
    }

    method Note(e: Event)
      modifies this`trace
      ensures trace == old(trace) + [Moment(e, index as nat)]
    {
      trace := trace + [Moment(e, index as nat)];
    }

    /** c.index++ on a byte, which may wrap to 0. */
    method Increment(e: Event) returns (wrapped: bool)
      modifies this`index, this`trace
      ensures wrapped <==> old(index) == 255
      ensures if wrapped then index == 0 else Now() == Advance(old(Now()), e)
      ensures wrapped ==> abortIndex == old(abortIndex)
    {
      wrapped := index == 255;
      index := if wrapped then 0 else index + 1;
      Note(e);
    }

    predicate IsAborted()
      reads this
    {
      abortIndex != 0
    }

    /**
      Next; a panic comes out as its value. The run is followed until the counter wraps, and it wraps
      exactly if the unbounded counter exceeds a byte; there, unless the chain has aborted, the source
      indexes c.group with c.index-1 == 255.
    */
    method Next() returns (panic: Option<nat>, wrapped: bool)
      modifies this
      ensures group == old(group)
      ensures wrapped <==> Loop(group, Advance(old(Now()), Call)).s.index > 255
      ensures if wrapped then index == 0 else Result(Now(), panic) == Loop(group, Advance(old(Now()), Call))
      decreases Measure(group, index as nat + 1), 0
    {
      hide Loop, Exec;
      ghost var r := Loop(group, Advance(Now(), Call));
      LoopGrows(group, Advance(Now(), Call));
      panic := None;
      wrapped := Increment(Call);
      if wrapped { return; }
      while index <= (|group| % 256) as uint8 && !IsAborted()
        invariant index >= 1 && group == old(group) && Loop(group, Now()) == r && panic.None?
        invariant Measure(group, index as nat) <= Measure(group, old(index) as nat + 1)
        decreases 255 - index
      {
        LoopTurn(group, Now());
        var i := index as nat - 1;
        Note(Begin(i));
        ghost var x := Exec(group, group[i], Now());
        panic, wrapped := Run(group[i]);
        if x.panic.None? { LoopGrows(group, Advance(x.s, End(i))); }
        if wrapped || panic.Some? { return; }
        wrapped := Increment(End(i));
        if wrapped { return; }
      }
      LoopOver(group, Now());
    }

    /** A handler runs. */
    method Run(p: Program) returns (panic: Option<nat>, wrapped: bool)
      requires index >= 1
      modifies this
      ensures group == old(group)
      ensures wrapped <==> Exec(group, p, old(Now())).s.index > 255
      ensures if wrapped then index == 0 else Result(Now(), panic) == Exec(group, p, old(Now()))
      decreases if Measure(group, index as nat) > 0 then Measure(group, index as nat) - 1 else 0, 1, p, 1
    {
      hide Step;
      if p.Done? { return None, false; }
      ghost var r := Step(group, p.first, Now());
      StepGrows(group, p.first, Now());
      panic, wrapped := Perform(p.first);
      if r.panic.None? { ExecGrows(group, p.rest, r.s); }
      if !wrapped && panic.None? { panic, wrapped := Run(p.rest); }
    }

    method Perform(c: Stmt) returns (panic: Option<nat>, wrapped: bool)
      requires index >= 1
      modifies this
      ensures group == old(group)
      ensures wrapped <==> Step(group, c, old(Now())).s.index > 255
      ensures if wrapped then index == 0 else Result(Now(), panic) == Step(group, c, old(Now()))
      decreases if Measure(group, index as nat) > 0 then Measure(group, index as nat) - 1 else 0, 1, c, 0
    {
      hide Loop, Exec, Rendering;
      panic, wrapped := None, false;
      match c
      case Work(id) => Note(Did(id));
      case Next => panic, wrapped := Next();
      case Abort => Abort();
      case Panic(v) => panic := Some(v);
      case SetStatus(code) => SetStatus(code);
      case Render(text) => Render(text);
      case Escape => Escape();
      case Try(body, handler) =>
        ghost var r := Exec(group, body, Now());
        ExecGrows(group, body, Now());
        panic, wrapped := Run(body);
        ExecGrows(group, handler, r.s);
        if !wrapped && panic.Some? { panic, wrapped := Run(handler); }
    }

    method Abort()
      modifies this`abortIndex, this`trace
      ensures Now() == Log(old(Now()).(abortIndex := index as nat), Aborted)
    {
      abortIndex := index;
      Note(Aborted);
    }

    method Escape()
      modifies this`escaped, this`trace
      ensures Now() == Log(old(Now()).(escaped := true), Escaped)
    {
      escaped := true;
      Note(Escaped);
    }

    method SetStatus(code: nat)
      modifies this`status, this`trace
      ensures Now() == Log(old(Now()).(status := code), StatusSet(code))
    {
      status := code;
      Note(StatusSet(code));
    }

    method Render(text: nat)
      modifies this`status, this`written, this`trace
      ensures Now() == Rendering(old(Now()), text)
    {
      Note(Rendered(text));
      if status != 0 {
        Note(Header(status));
        status := 0;
      }
      if !BodyAllowed(status) { return; }
      written := true;
      Note(Body(text));
    }

    /** JSON and XML: the serializer is that of the blueprint at the counter; a panic past the chain. */
    method RenderWithBluePrint(text: nat) returns (owner: Option<nat>)
      modifies this`status, this`written, this`trace
      ensures owner == Owner(group, old(Now()))
      ensures Now() == if owner.Some? then Rendering(old(Now()), text) else old(Now())
    {
      hide Rendering;
      owner := if 1 <= index as nat <= |group| then Some(index as nat - 1) else None;
      if owner.Some? { Render(text); }
    }

    /** finish, deferred by start. */
    method Finish()
      modifies this`trace
      ensures Now() == Chain.Finish(old(Now()))
    {
      if status != 0 && !written { Note(Header(status)); }
    }

    method Start() returns (panic: Option<nat>, wrapped: bool)
      modifies this
      ensures group == old(group)
      ensures wrapped <==> Chain.Start(group, old(Now())).s.index > 255
      ensures if wrapped then index == 0 else Result(Now(), panic) == Chain.Start(group, old(Now()))
    {
      panic, wrapped := Next();
      if !wrapped { Finish(); }
    }

    method Reset()
      modifies this`index, this`abortIndex, this`status, this`written
      ensures index == abortIndex == 0 && status == 0 && !written
    {
      index, status, written, abortIndex := 0, 0, false, 0;
    }

    /** Nothing of an earlier request is left. */
    predicate Cleared()
      reads this
    {
      index == abortIndex == 0 && status == 0 && !written && !escaped
    }
  }
}

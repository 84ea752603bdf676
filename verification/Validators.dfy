/** The rule tags of core/validators/validate.go: `key(m=message,v=value);...` read back into validator calls. */
module Validators {
  import opened Options

  /** A validator to call, with its parameters. */
  datatype Rule = Rule(key: string, message: string, value: string)

  datatype Error = NoValidator(key: string) | SyntaxError(text: string) | UnexpectedParam(name: string)

  /** The validators called, in order, and why it stopped before the end. */
  datatype Outcome = Outcome(calls: seq<Rule>, error: Option<Error>)

  // ------------------------------------------------------------------ library functions

  /** strings.Split by a one-byte separator. */
  function Split(s: string, c: char): (r: seq<string>)
    ensures |r| >= 1
  {
    if s == "" then [""]
    else
      var r := Split(s[1..], c);
      if s[0] == c then [""] + r else [[s[0]] + r[0]] + r[1..]
  }

  predicate IsWord(c: char) {
    'a' <= c <= 'z' || 'A' <= c <= 'Z' || '0' <= c <= '9' || c == '_'
  }

  function WordEnd(s: string): (e: nat)
    ensures e <= |s| && (forall i :: 0 <= i < e ==> IsWord(s[i])) && (e < |s| ==> !IsWord(s[e]))
  {
    if s == "" || !IsWord(s[0]) then 0 else 1 + WordEnd(s[1..])
  }

  /** What `.*` takes in front of the last ')' of the line. */
  function UpToClose(s: string): Option<string> {
    if s == "" || s[0] == '\n' then None
    else
      match UpToClose(s[1..])
      case Some(t) => Some([s[0]] + t)
      case None => if s[0] == ')' then Some("") else None
  }

  /** The leftmost match of the regular expression: a word directly in front of '(', and what is in the parentheses. */
  function FindRule(s: string): Option<(string, string)> {
    if s == "" then None
    else
      var e := WordEnd(s);
      if 0 < e < |s| && s[e] == '(' && UpToClose(s[e + 1..]).Some? then Some((s[..e], UpToClose(s[e + 1..]).value))
      else FindRule(s[1..])
  }

  // ------------------------------------------------------------------ what Validate does with a tag

  function WithoutLeadingSpace(s: string): string {
    if s != "" && s[0] == ' ' then s[1..] else s
  }

  /** At most two parameters: the second takes all behind the first comma. */
  function ParamList(text: string): (r: seq<string>)
    ensures 1 <= |r| <= 2
  {
    var list := Split(text, ',');
    if |list| > 2 then FirstComma(text, list[0]) else list
  }

  /** TrimPrefix(text, first + ","), first being what is in front of the first comma. */
  function FirstComma(text: string, first: string): (r: seq<string>)
    ensures |r| == 2
  {
    [first, if first + "," <= text then text[|first| + 1..] else text]
  }

  /** One parameter `name=content` goes into the rule. */
  function SetParam(r: Rule, text: string): (Rule, Option<Error>) {
    var item := Split(text, '=');
    if |item| != 2 then (r, Some(SyntaxError(text)))
    else if item[0] == "m" || item[0] == "message" then (r.(message := item[1]), None)
    else if item[0] == "v" || item[0] == "value" then (r.(value := item[1]), None)
    else (r, Some(UnexpectedParam(item[0])))
  }

  function SetParams(r: Rule, list: seq<string>): (Rule, Option<Error>)
    decreases |list|
  {
    if list == [] then (r, None)
    else
      var (r', error) := SetParam(r, WithoutLeadingSpace(list[0]));
      if error.Some? then (r', error) else SetParams(r', list[1..])
  }

  /** The pieces of a tag between semicolons, in order; every validator called is satisfied. */
  function RunPieces(pieces: seq<string>, known: set<string>): Outcome {
    if pieces == [] then Outcome([], None)
    else
      match FindRule(pieces[0])
      case None => RunPieces(pieces[1..], known)
      case Some((key, text)) =>
        if key !in known then Outcome([], Some(NoValidator(key)))
        else
          var (r, error) := SetParams(Rule(key, "", ""), ParamList(text));
          if error.Some? then Outcome([], error)
          else
            var later := RunPieces(pieces[1..], known);
            later.(calls := [r] + later.calls)
  }

  function Run(tag: string, known: set<string>): Outcome {
    RunPieces(Split(tag, ';'), known)
  }

  /** Validate on one field's tag. */
  method Validate(tag: string, known: set<string>) returns (calls: seq<Rule>, error: Option<Error>)
    ensures Outcome(calls, error) == Run(tag, known)
  {
    calls, error := [], None;
    var pieces := Split(tag, ';');
    for i := 0 to |pieces|
      invariant error.None?
      invariant Run(tag, known) == Behind(calls, RunPieces(pieces[i..], known))
    {
      assert pieces[i..][1..] == pieces[i + 1..];
      match FindRule(pieces[i]) {
        case None =>
        case Some((key, text)) =>
          if key !in known { return calls, Some(NoValidator(key)); }
          var list := ParamList(text);
          var r: Rule;
          r, error := FillParams(key, list);
          if error.Some? { return; }
          calls := calls + [r];
      }
    }
  }

  function Behind(calls: seq<Rule>, o: Outcome): Outcome {
    o.(calls := calls + o.calls)
  }

  method FillParams(key: string, list: seq<string>) returns (r: Rule, error: Option<Error>)
    ensures (r, error) == SetParams(Rule(key, "", ""), list)
  {
    r, error := Rule(key, "", ""), None;
    for i := 0 to |list|
      invariant error.None? && SetParams(r, list[i..]) == SetParams(Rule(key, "", ""), list)
    {
      assert list[i..][1..] == list[i + 1..];
      var text := if |list[i]| > 0 && list[i][0] == ' ' then list[i][1..] else list[i];
      var item := Split(text, '=');
      if |item| != 2 { return r, Some(SyntaxError(text)); }
      if item[0] == "m" || item[0] == "message" {
        r := r.(message := item[1]);
      } else if item[0] == "v" || item[0] == "value" {
        r := r.(value := item[1]);
      } else {
        return r, Some(UnexpectedParam(item[0]));
      }
    }
  }

  // ------------------------------------------------------------------ reading back what was printed

  function Print(r: Rule): string {
    r.key + "(m=" + r.message + ",v=" + r.value + ")"
  }

  /** Rules joined by semicolons. */
  function PrintAll(rs: seq<Rule>): string {
    if rs == [] then ""
    else if |rs| == 1 then Print(rs[0])
    else Print(rs[0]) + ";" + PrintAll(rs[1..])
  }

  predicate Without(s: string, c: char) {
    forall i :: 0 <= i < |s| ==> s[i] != c
  }

  /** No byte that ends a piece, a line, or a parameter name. */
  predicate Plain(s: string) {
    Without(s, ';') && Without(s, '\n') && Without(s, '=')
  }

  predicate IsKey(s: string) {
    s != "" && forall i :: 0 <= i < |s| ==> IsWord(s[i])
  }

  /** Commas and parentheses are welcome in the value, and parentheses in the message. */
  predicate Printable(r: Rule) {
    IsKey(r.key) && Plain(r.message) && Without(r.message, ',') && Plain(r.value)
  }

  lemma {:induction false} SplitNone(s: string, c: char)
    requires Without(s, c)
    ensures Split(s, c) == [s]
  {
    if s != "" {
      SplitNone(s[1..], c);
      assert [s[0]] + s[1..] == s;
    }
  }

  lemma {:induction false} SplitAt(a: string, b: string, c: char)
    requires Without(a, c)
    ensures Split(a + [c] + b, c) == [a] + Split(b, c)
  {
    var s := a + [c] + b;
    if a == "" {
      assert s == [c] + b && s[1..] == b;
    } else {
      SplitAt(a[1..], b, c);
      assert s[1..] == a[1..] + [c] + b && s[0] == a[0];
      assert [a[0]] + a[1..] == a;
    }
  }

  lemma {:induction false} WordEndAt(a: string, b: string)
    requires (forall i :: 0 <= i < |a| ==> IsWord(a[i])) && b != "" && !IsWord(b[0])
    ensures WordEnd(a + b) == |a|
  {
    if a == "" {
      assert a + b == b;
    } else {
      assert (a + b)[1..] == a[1..] + b;
      WordEndAt(a[1..], b);
    }
  }

  lemma {:induction false} CloseAtEnd(s: string)
    requires Without(s, '\n')
    ensures UpToClose(s + ")") == Some(s)
  {
    if s == "" {
      assert s + ")" == ")";
    } else {
      assert (s + ")")[1..] == s[1..] + ")";
      CloseAtEnd(s[1..]);
      assert [s[0]] + s[1..] == s;
    }
  }

  /** A printed rule is found whole. */
  lemma RuleFound(key: string, text: string)
    requires IsKey(key) && Without(text, '\n')
    ensures FindRule(key + "(" + text + ")") == Some((key, text))
  {
    var s, b := key + "(" + text + ")", "(" + text + ")";
    assert s == key + b;
    WordEndAt(key, b);
    CloseAtEnd(text);
    assert s[..|key|] == key && s[|key| + 1..] == text + ")";
  }

  lemma TwoParams(first: string, rest: string)
    requires Without(first, ',')
    ensures ParamList(first + "," + rest) == [first, rest]
  {
    var text := first + "," + rest;
    SplitAt(first, rest, ',');
    assert text == first + [','] + rest && text[|first| + 1..] == rest;
    assert first + "," <= text;
    if |Split(rest, ',')| == 1 { SplitOne(rest, ','); }
  }

  lemma {:induction false} SplitOne(s: string, c: char)
    requires |Split(s, c)| == 1
    ensures Split(s, c) == [s]
  {
    if s != "" {
      SplitOne(s[1..], c);
      assert [s[0]] + s[1..] == s;
    }
  }

  lemma OneParam(r: Rule, name: string, content: string)
    requires Without(name, '=') && Without(content, '=')
    ensures SetParam(r, name + "=" + content) ==
      if name == "m" || name == "message" then (r.(message := content), None)
      else if name == "v" || name == "value" then (r.(value := content), None)
      else (r, Some(UnexpectedParam(name)))
  {
    assert name + "=" + content == name + ['='] + content;
    SplitAt(name, content, '=');
    SplitNone(content, '=');
  }

  function ParamText(r: Rule): string {
    "m=" + r.message + ",v=" + r.value
  }

  lemma TwoSteps(r: Rule, a: string, b: string)
    ensures var (r1, e1) := SetParam(r, WithoutLeadingSpace(a));
      SetParams(r, [a, b]) == if e1.Some? then (r1, e1) else SetParam(r1, WithoutLeadingSpace(b))
  {
    assert [a, b][1..] == [b] && [b][1..] == [];
    var r1 := SetParam(r, WithoutLeadingSpace(a)).0;
    assert SetParams(r1, [b]) == SetParam(r1, WithoutLeadingSpace(b)) by { assert [b][0] == b; }
  }

  lemma PrintableParams(r: Rule)
    requires Printable(r)
    ensures SetParams(Rule(r.key, "", ""), ParamList(ParamText(r))) == (r, None)
  {
    var a, b := "m=" + r.message, "v=" + r.value;
    assert ParamText(r) == a + "," + b;
    TwoParams(a, b);
    TwoSteps(Rule(r.key, "", ""), a, b);
    assert a == "m" + "=" + r.message && b == "v" + "=" + r.value;
    OneParam(Rule(r.key, "", ""), "m", r.message);
    OneParam(Rule(r.key, r.message, ""), "v", r.value);
  }

  /** A comma in the message makes its tail a parameter of an unknown name. */
  lemma CommaFails(r: Rule)
    requires Plain(r.message) && Plain(r.value) && !Without(r.message, ',')
    ensures SetParams(Rule(r.key, "", ""), ParamList(ParamText(r))).1.Some?
  {
    hide SetParam, SetParams, ParamList, WithoutLeadingSpace;
    var k := FirstOf(r.message, ',');
    var x, y := r.message[..k], r.message[k + 1..];
    var a, name := "m=" + x, y + ",v";
    var b := name + "=" + r.value;
    assert r.message == x + "," + y;
    assert ParamText(r) == a + "," + b;
    TwoParams(a, b);
    TwoSteps(Rule(r.key, "", ""), a, b);
    FirstIsMessage(Rule(r.key, "", ""), x);
    CommaName(Rule(r.key, x, ""), y, r.value);
  }

  lemma FirstIsMessage(r: Rule, x: string)
    requires Without(x, '=')
    ensures SetParam(r, WithoutLeadingSpace("m=" + x)) == (r.(message := x), None)
  {
    assert "m=" + x == "m" + "=" + x;
    OneParam(r, "m", x);
  }

  /** A parameter whose name has a comma has no known name. */
  lemma CommaName(r: Rule, y: string, value: string)
    requires Without(y, '=') && Without(value, '=')
    ensures SetParam(r, WithoutLeadingSpace(y + ",v" + "=" + value)).1.Some?
  {
    hide SetParam;
    var name := y + ",v";
    var name' := WithoutLeadingSpace(name);
    assert WithoutLeadingSpace(name + "=" + value) == name' + "=" + value;
    assert name'[|name'| - 2] == ',' && Without(name', '=');
    OneParam(r, name', value);
  }

  function FirstOf(s: string, c: char): (k: nat)
    requires !Without(s, c)
    ensures k < |s| && s[k] == c && Without(s[..k], c)
  {
    if s[0] == c then 0
    else
      assert !Without(s[1..], c) by { var i :| 0 <= i < |s| && s[i] == c; assert s[1..][i - 1] == c; }
      var k := 1 + FirstOf(s[1..], c);
      assert s[..k] == [s[0]] + s[1..][..k - 1];
      k
  }

  function Prints(rs: seq<Rule>): (r: seq<string>)
    ensures |r| == |rs|
  {
    if rs == [] then [] else [Print(rs[0])] + Prints(rs[1..])
  }

  /** A rule whose pieces are not cut apart by the separators of tags and lines. */
  predicate Solid(r: Rule) {
    IsKey(r.key) && Plain(r.message) && Plain(r.value)
  }

  lemma {:induction false} PiecesOf(rs: seq<Rule>)
    requires rs != [] && forall i :: 0 <= i < |rs| ==> Solid(rs[i])
    ensures Split(PrintAll(rs), ';') == Prints(rs)
  {
    assert Solid(rs[0]) && Without(Print(rs[0]), ';');
    if |rs| == 1 {
      SplitNone(Print(rs[0]), ';');
      assert Prints(rs[1..]) == [];
    } else {
      assert PrintAll(rs) == Print(rs[0]) + [';'] + PrintAll(rs[1..]);
      SplitAt(Print(rs[0]), PrintAll(rs[1..]), ';');
      PiecesOf(rs[1..]);
    }
  }

  /** Solid rules are all read back exactly if no message has a comma. */
  lemma {:induction false} PiecesRun(rs: seq<Rule>, known: set<string>)
    requires forall i :: 0 <= i < |rs| ==> Solid(rs[i]) && rs[i].key in known
    ensures RunPieces(Prints(rs), known) == Outcome(rs, None) <==> forall i :: 0 <= i < |rs| ==> Printable(rs[i])
  {
    if rs != [] {
      var r := rs[0];
      assert Solid(r) && Print(r) == r.key + "(" + ParamText(r) + ")";
      RuleFound(r.key, ParamText(r));
      PiecesRun(rs[1..], known);
      assert Prints(rs)[1..] == Prints(rs[1..]);
      if Printable(r) {
        PrintableParams(r);
        assert [r] + rs[1..] == rs;
        assert RunPieces(Prints(rs), known).calls[1..] == RunPieces(Prints(rs[1..]), known).calls;
      } else {
        CommaFails(r);
      }
    }
  }

  // ------------------------------------------------------------------ what can be read at all

  lemma {:induction false} SplitKeeps(s: string, c: char, d: char)
    requires Without(s, d)
    ensures forall i :: 0 <= i < |Split(s, c)| ==> Without(Split(s, c)[i], d)
  {
    if s != "" { SplitKeeps(s[1..], c, d); }
  }

  lemma {:induction false} SplitDrops(s: string, c: char)
    ensures forall i :: 0 <= i < |Split(s, c)| ==> Without(Split(s, c)[i], c)
  {
    if s != "" { SplitDrops(s[1..], c); }
  }

  lemma {:induction false} CloseKeeps(s: string, d: char)
    requires UpToClose(s).Some?
    ensures Without(UpToClose(s).value, '\n') && (Without(s, d) ==> Without(UpToClose(s).value, d))
  {
    if UpToClose(s[1..]).Some? { CloseKeeps(s[1..], d); }
  }

  lemma {:induction false} RuleKeeps(s: string, d: char)
    requires FindRule(s).Some?
    ensures var (key, text) := FindRule(s).value;
      IsKey(key) && Without(text, '\n') && (Without(s, d) ==> Without(text, d))
  {
    var e := WordEnd(s);
    if 0 < e < |s| && s[e] == '(' && UpToClose(s[e + 1..]).Some? {
      CloseKeeps(s[e + 1..], d);
    } else {
      RuleKeeps(s[1..], d);
    }
  }

  lemma ParamsKeep(text: string, d: char)
    requires Without(text, d)
    ensures forall i :: 0 <= i < |ParamList(text)| ==> Without(ParamList(text)[i], d)
  {
    SplitKeeps(text, ',', d);
  }

  lemma {:induction false} SetPlain(r: Rule, list: seq<string>)
    requires Plain(r.message) && Plain(r.value)
    requires forall i :: 0 <= i < |list| ==> Without(list[i], ';') && Without(list[i], '\n')
    ensures var r' := SetParams(r, list).0; Plain(r'.message) && Plain(r'.value) && r'.key == r.key
    decreases |list|
  {
    if list != [] {
      var text := WithoutLeadingSpace(list[0]);
      SplitKeeps(text, '=', ';');
      SplitKeeps(text, '=', '\n');
      SplitDrops(text, '=');
      SetPlain(SetParam(r, text).0, list[1..]);
    }
  }

  /** Every validator called has a key, and parameters without separators. */
  lemma {:induction false} CallsSolid(pieces: seq<string>, known: set<string>)
    requires forall i :: 0 <= i < |pieces| ==> Without(pieces[i], ';')
    ensures forall i :: 0 <= i < |RunPieces(pieces, known).calls| ==> Solid(RunPieces(pieces, known).calls[i])
    decreases |pieces|
  {
    if pieces != [] {
      CallsSolid(pieces[1..], known);
      if FindRule(pieces[0]).Some? {
        var (key, text) := FindRule(pieces[0]).value;
        RuleKeeps(pieces[0], ';');
        ParamsKeep(text, ';');
        ParamsKeep(text, '\n');
        SetPlain(Rule(key, "", ""), ParamList(text));
      }
    }
  }

  /** Printed rules are read back exactly if they are printable. */
  lemma ReadBack(rs: seq<Rule>, known: set<string>)
    requires forall i :: 0 <= i < |rs| ==> rs[i].key in known
    ensures Run(PrintAll(rs), known) == Outcome(rs, None) <==> forall i :: 0 <= i < |rs| ==> Printable(rs[i])
  {
    hide Split, Print, FindRule, RunPieces, Solid, Printable;
    SplitDrops(PrintAll(rs), ';');
    CallsSolid(Split(PrintAll(rs), ';'), known);
    PrintableSolid(rs);
    if rs == [] {
      NothingToRun(known);
    } else if forall i :: 0 <= i < |rs| ==> Solid(rs[i]) {
      PiecesOf(rs);
      PiecesRun(rs, known);
    } else {
      var i :| 0 <= i < |rs| && !Solid(rs[i]);
    }
  }

  lemma PrintableSolid(rs: seq<Rule>)
    ensures forall i :: 0 <= i < |rs| && !Solid(rs[i]) ==> !Printable(rs[i])
  {
  }

  lemma NothingToRun(known: set<string>)
    ensures RunPieces(Split("", ';'), known) == Outcome([], None)
  {
    assert FindRule("") == None && [""][1..] == [];
  }
}

/** What a rule tag means, stated on the text of the tag alone. */
module Tags {
  import opened Options
  import opened Ascii
  import opened Validators

  predicate IsMessage(name: string) {
    name == "m" || name == "message"
  }

  predicate IsValue(name: string) {
    name == "v" || name == "value"
  }

  /** In front of a parameter one space is skipped; another one belongs to its name. */
  predicate Gap(gap: string, param: string) {
    gap == " " || (gap == "" && (param == "" || param[0] != ' '))
  }

  /** The bytes a key is made of. */
  lemma WordBytes(c: char)
    ensures IsWord(c) <==> c in SMALL || c in CAPITAL || c in "0123456789" || c == '_'
  {
    if 'a' <= c <= 'z' { Places(c as int - 'a' as int); }
    if 'A' <= c <= 'Z' { Places(c as int - 'A' as int); }
    if c in SMALL { var i :| 0 <= i < 26 && SMALL[i] == c; Places(i); }
    if c in CAPITAL { var i :| 0 <= i < 26 && CAPITAL[i] == c; Places(i); }
    Digits(c);
  }

  lemma Digits(c: char)
    ensures c in "0123456789" <==> '0' <= c <= '9'
  {
    var digits := "0123456789";
    if '0' <= c <= '9' { assert digits[c as int - '0' as int] == c; }
  }

  // ------------------------------------------------------------------ pieces

  lemma {:induction false} SplitJoin(a: string, b: string, c: char)
    ensures Split(a + [c] + b, c) == Split(a, c) + Split(b, c)
  {
    var s := a + [c] + b;
    if a == "" {
      assert s == [c] + b && s[1..] == b;
    } else {
      assert s[1..] == a[1..] + [c] + b && s[0] == a[0];
      SplitJoin(a[1..], b, c);
    }
  }

  /** o, and then whatever comes next unless o stopped. */
  function Followed(o: Outcome, next: Outcome): Outcome {
    if o.error.Some? then o else Behind(o.calls, next)
  }

  lemma {:induction false} PiecesJoin(p: seq<string>, q: seq<string>, known: set<string>)
    ensures RunPieces(p + q, known) == Followed(RunPieces(p, known), RunPieces(q, known))
    decreases |p|
  {
    hide FindRule, ParamList, SetParams;
    if p == [] {
      assert p + q == q;
    } else {
      assert (p + q)[0] == p[0] && (p + q)[1..] == p[1..] + q;
      PiecesJoin(p[1..], q, known);
    }
  }

  /** What is behind a semicolon is read after what is in front of it, unless that stopped with an error. */
  lemma PartsInOrder(a: string, b: string, known: set<string>)
    ensures Run(a + ";" + b, known) ==
      if Run(a, known).error.Some? then Run(a, known)
      else Outcome(Run(a, known).calls + Run(b, known).calls, Run(b, known).error)
  {
    assert a + ";" + b == a + [';'] + b;
    SplitJoin(a, b, ';');
    PiecesJoin(Split(a, ';'), Split(b, ';'), known);
  }

  // ------------------------------------------------------------------ the rule of a piece

  /** At i stands a word, and behind it in parentheses, on the same line, text. */
  predicate RuleAt(s: string, i: nat, key: string, text: string) {
    i <= |s| && IsKey(key) && Without(text, '\n') && key + "(" + text + ")" <= s[i..]
  }

  lemma {:induction false} CloseLongest(s: string, t: string)
    requires Without(t, '\n') && t + ")" <= s
    ensures UpToClose(s).Some? && |t| <= |UpToClose(s).value|
  {
    if t == "" {
      assert s[0] == ")"[0];
    } else {
      assert s[0] == t[0] && t[1..] + ")" <= s[1..];
      CloseLongest(s[1..], t[1..]);
    }
  }

  lemma {:induction false} CloseFound(s: string)
    requires UpToClose(s).Some?
    ensures Without(UpToClose(s).value, '\n') && UpToClose(s).value + ")" <= s
  {
    if UpToClose(s[1..]).Some? { CloseFound(s[1..]); }
  }

  lemma RuleText(s: string, key: string, text: string)
    requires key + "(" + text + ")" <= s
    ensures var rest := s[|key + "(" + text + ")"|..]; s == key + ("(" + (text + ")" + rest))
  {
    var rule := key + "(" + text + ")";
    assert s == rule + s[|rule|..];
  }

  /** A rule at the very start has the whole first word as its key. */
  lemma RuleAtStart(s: string, key: string, text: string)
    requires RuleAt(s, 0, key, text)
    ensures var e := WordEnd(s); 0 < e < |s| && s[e] == '(' && key == s[..e] && text + ")" <= s[e + 1..]
  {
    hide Without;
    assert s[0..] == s;
    RuleText(s, key, text);
    var tail := text + ")" + s[|key + "(" + text + ")"|..];
    WordEndAt(key, "(" + tail);
    KeyAndTail(s, key, tail);
    assert text + ")" <= tail;
  }

  lemma KeyAndTail(s: string, key: string, tail: string)
    requires s == key + ("(" + tail)
    ensures |key| < |s| && s[|key|] == '(' && key == s[..|key|] && tail == s[|key| + 1..]
  {
  }

  lemma RuleShifts(s: string, i: nat, key: string, text: string)
    requires 0 < i && s != ""
    ensures RuleAt(s, i, key, text) <==> RuleAt(s[1..], i - 1, key, text)
  {
    if i <= |s| { assert s[1..][i - 1..] == s[i..]; }
  }

  /** At i there is a rule key with text, none starts before it, and none there has a longer text. */
  ghost predicate FirstRule(s: string, i: nat, key: string, text: string) {
    && RuleAt(s, i, key, text)
    && forall j: nat, key', text' :: RuleAt(s, j, key', text') ==>
      i <= j && (i == j ==> key' == key && |text'| <= |text|)
  }

  /** The expression finds the leftmost rule, with the longest text; nothing exactly if there is no rule. */
  lemma {:induction false} FindRuleExact(s: string)
    ensures FindRule(s).None? <==> forall i: nat, key, text :: !RuleAt(s, i, key, text)
    ensures FindRule(s).Some? ==> exists i: nat :: FirstRule(s, i, FindRule(s).value.0, FindRule(s).value.1)
  {
    hide RuleAt, WordEnd, UpToClose;
    if s == "" {
      forall i: nat, key, text ensures !RuleAt(s, i, key, text) { NoRoom(i, key, text); }
    } else {
      var e := WordEnd(s);
      if 0 < e < |s| && s[e] == '(' && UpToClose(s[e + 1..]).Some? {
        RuleFirst(s);
      } else {
        RuleLater(s);
        FindRuleExact(s[1..]);
        forall i: nat, key, text ensures RuleAt(s, i, key, text) ==> i > 0 && RuleAt(s[1..], i - 1, key, text) {
          if i > 0 { RuleShifts(s, i, key, text); }
        }
        if FindRule(s).Some? {
          var (key, text) := FindRule(s).value;
          var i: nat :| FirstRule(s[1..], i, key, text);
          RuleShifts(s, i + 1, key, text);
          assert FirstRule(s, i + 1, key, text);
        }
      }
    }
  }

  lemma NoRoom(i: nat, key: string, text: string)
    ensures !RuleAt("", i, key, text)
  {
  }

  lemma RuleHere(s: string, e: nat, text: string)
    requires e < |s| && IsKey(s[..e]) && s[e] == '(' && Without(text, '\n') && text + ")" <= s[e + 1..]
    ensures RuleAt(s, 0, s[..e], text)
  {
    hide IsKey, Without;
    var key := s[..e];
    assert s[0..] == s;
    assert s == key + "(" + s[e + 1..];
    assert key + "(" + text + ")" == key + "(" + (text + ")");
  }

  lemma RuleFirst(s: string)
    requires var e := WordEnd(s); 0 < e < |s| && s[e] == '(' && UpToClose(s[e + 1..]).Some?
    ensures var e := WordEnd(s); FirstRule(s, 0, s[..e], UpToClose(s[e + 1..]).value)
  {
    var e := WordEnd(s);
    var text := UpToClose(s[e + 1..]).value;
    CloseFound(s[e + 1..]);
    RuleHere(s, e, text);
    hide RuleAt, UpToClose, Without;
    forall key', text' | RuleAt(s, 0, key', text') ensures key' == s[..e] && |text'| <= |text| {
      RuleAtStart(s, key', text');
      RuleOnLine(s, key', text');
      CloseLongest(s[e + 1..], text');
    }
  }

  lemma RuleOnLine(s: string, key: string, text: string)
    requires RuleAt(s, 0, key, text)
    ensures Without(text, '\n')
  {
  }

  lemma RuleLater(s: string)
    requires var e := WordEnd(s); !(0 < e < |s| && s[e] == '(' && UpToClose(s[e + 1..]).Some?)
    ensures forall key, text :: !RuleAt(s, 0, key, text)
  {
    forall key, text ensures !RuleAt(s, 0, key, text) {
      if RuleAt(s, 0, key, text) {
        RuleAtStart(s, key, text);
        CloseLongest(s[WordEnd(s) + 1..], text);
      }
    }
  }

  lemma OnePiece(s: string, known: set<string>)
    requires Without(s, ';')
    ensures Run(s, known) == RunPieces([s], known) && RunPieces([s][1..], known) == Outcome([], None)
  {
    SplitNone(s, ';');
  }

  /** A piece without a rule changes nothing. */
  lemma NoRuleNothing(s: string, known: set<string>)
    requires Without(s, ';') && forall i: nat, key, text :: !RuleAt(s, i, key, text)
    ensures Run(s, known) == Outcome([], None)
  {
    OnePiece(s, known);
    FindRuleExact(s);
  }

  lemma {:induction false} CloseAt(text: string, post: string)
    requires Without(text, '\n') && Without(post, ')')
    ensures UpToClose(text + ")" + post) == Some(text)
  {
    var s := text + ")" + post;
    if text == "" {
      assert s[0] == ')' && s[1..] == post;
      NoClose(post);
    } else {
      assert s[0] == text[0] && s[1..] == text[1..] + ")" + post;
      CloseAt(text[1..], post);
      assert [text[0]] + text[1..] == text;
    }
  }

  lemma {:induction false} NoClose(s: string)
    requires Without(s, ')')
    ensures UpToClose(s).None?
  {
    if s != "" { NoClose(s[1..]); }
  }

  /** A rule at the start, with text behind it. */
  lemma RuleAhead(key: string, text: string, post: string)
    requires IsKey(key) && Without(text, '\n') && Without(post, ')')
    ensures FindRule(key + "(" + text + ")" + post) == Some((key, text))
  {
    var tail := text + ")" + post;
    var s := key + ("(" + tail);
    WordEndAt(key, "(" + tail);
    CloseAt(text, post);
    KeyAndTail(s, key, tail);
    hide UpToClose, WordEnd, Without, IsKey;
    assert FindRule(s) == Some((key, text)) by { assert s != ""; }
    hide FindRule;
    RuleJoins(key, text, post);
  }

  lemma RuleJoins(key: string, text: string, post: string)
    ensures key + "(" + text + ")" + post == key + ("(" + (text + ")" + post))
  {
  }

  /** Words and other text in front of a rule, and text behind it, are passed over. */
  lemma {:induction false} RuleWithin(pre: string, key: string, text: string, post: string)
    requires Without(pre, '(') && (pre != "" ==> !IsWord(pre[|pre| - 1]))
    requires IsKey(key) && Without(text, '\n') && Without(post, ')')
    ensures FindRule(pre + key + "(" + text + ")" + post) == Some((key, text))
  {
    hide WordEnd, UpToClose, IsKey;
    var rule := key + "(" + text + ")" + post;
    assert pre + key + "(" + text + ")" + post == pre + rule;
    if pre == "" {
      RuleAhead(key, text, post);
      assert pre + rule == rule;
    } else {
      var s := pre + rule;
      assert s[0] == pre[0] && s[1..] == pre[1..] + rule;
      assert pre[1..] + key + "(" + text + ")" + post == pre[1..] + rule;
      WordStops(pre, rule);
      RuleWithin(pre[1..], key, text, post);
    }
  }

  /** The first word of pre ends inside pre. */
  lemma {:induction false} WordStops(pre: string, b: string)
    requires pre != "" && !IsWord(pre[|pre| - 1])
    ensures WordEnd(pre + b) < |pre| && (pre + b)[WordEnd(pre + b)] == pre[WordEnd(pre + b)]
  {
    if IsWord(pre[0]) {
      assert (pre + b)[1..] == pre[1..] + b;
      WordStops(pre[1..], b);
    }
  }

  // ------------------------------------------------------------------ what a rule does

  lemma RuleRuns(pre: string, key: string, text: string, post: string, known: set<string>)
    requires Without(pre, '(') && (pre != "" ==> !IsWord(pre[|pre| - 1])) && Without(post, ')')
    requires IsKey(key) && Without(text, '\n') && Without(pre, ';') && Without(text, ';') && Without(post, ';')
    ensures var (r, error) := SetParams(Rule(key, "", ""), ParamList(text));
      Run(pre + key + "(" + text + ")" + post, known) ==
        if key !in known then Outcome([], Some(NoValidator(key)))
        else if error.Some? then Outcome([], error)
        else Outcome([r], None)
  {
    hide FindRule, SetParams, ParamList;
    var s := pre + key + "(" + text + ")" + post;
    RuleWithin(pre, key, text, post);
    OnePiece(s, known);
    var r := SetParams(Rule(key, "", ""), ParamList(text)).0;
    assert [r] + [] == [r];
  }

  /** An unknown key stops the run, wherever its rule stands in the piece. */
  lemma UnknownKey(pre: string, key: string, text: string, post: string, known: set<string>)
    requires Without(pre, '(') && (pre != "" ==> !IsWord(pre[|pre| - 1])) && Without(post, ')')
    requires IsKey(key) && Without(text, '\n') && Without(pre, ';') && Without(text, ';') && Without(post, ';')
    requires key !in known
    ensures Run(pre + key + "(" + text + ")" + post, known) == Outcome([], Some(NoValidator(key)))
  {
    RuleRuns(pre, key, text, post, known);
  }

  lemma Gapped(r: Rule, gap: string, name: string, c: string)
    requires Gap(gap, name) && Without(name, '=') && Without(c, '=')
    ensures SetParam(r, WithoutLeadingSpace(gap + name + "=" + c)) ==
      if IsMessage(name) then (r.(message := c), None)
      else if IsValue(name) then (r.(value := c), None)
      else (r, Some(UnexpectedParam(name)))
  {
    hide SetParam;
    OneParam(r, name, c);
    var text := gap + name + "=" + c;
    assert gap == " " ==> text[1..] == name + "=" + c;
    assert gap == "" ==> text == name + "=" + c && text[0] == if name == "" then '=' else name[0];
  }

  lemma OneInList(r: Rule, text: string)
    requires Without(text, ',')
    ensures SetParams(r, ParamList(text)) == SetParam(r, WithoutLeadingSpace(text))
  {
    SplitNone(text, ',');
    assert [text][1..] == [];
  }

  /** A rule with a single parameter, and with text around the rule. */
  lemma SingleParam(pre: string, key: string, gap: string, name: string, c: string, post: string, known: set<string>)
    requires Without(pre, '(') && (pre != "" ==> !IsWord(pre[|pre| - 1])) && Without(post, ')')
    requires IsKey(key) && Without(pre, ';') && Without(post, ';') && key in known
    requires Gap(gap, name) && Plain(name) && Plain(c) && Without(name, ',') && Without(c, ',')
    ensures Run(pre + key + "(" + gap + name + "=" + c + ")" + post, known) ==
      if IsMessage(name) then Outcome([Rule(key, c, "")], None)
      else if IsValue(name) then Outcome([Rule(key, "", c)], None)
      else Outcome([], Some(UnexpectedParam(name)))
  {
    hide Run, ParamList, SetParams;
    var text := gap + name + "=" + c;
    assert pre + key + "(" + gap + name + "=" + c + ")" + post == pre + key + "(" + text + ")" + post;
    RuleRuns(pre, key, text, post, known);
    OneInList(Rule(key, "", ""), text);
    Gapped(Rule(key, "", ""), gap, name, c);
  }

  /** A single parameter without '='. */
  lemma NoContent(key: string, gap: string, a: string, known: set<string>)
    requires IsKey(key) && key in known && Gap(gap, a) && Plain(a) && Without(a, ',')
    ensures Run(key + "(" + gap + a + ")", known) == Outcome([], Some(SyntaxError(a)))
  {
    SplitNone(a, '=');
    BadParam(key, gap, a, known);
  }

  /** A single parameter with two of them. */
  lemma TwoContents(key: string, gap: string, a: string, b: string, c: string, known: set<string>)
    requires IsKey(key) && key in known && Gap(gap, a) && Plain(a) && Plain(b) && Plain(c)
    requires Without(a, ',') && Without(b, ',') && Without(c, ',')
    ensures Run(key + "(" + gap + a + "=" + b + "=" + c + ")", known)
      == Outcome([], Some(SyntaxError(a + "=" + b + "=" + c)))
  {
    hide Run;
    var two := a + "=" + b + "=" + c;
    ThreeParts(a, b, c);
    assert key + "(" + gap + a + "=" + b + "=" + c + ")" == key + "(" + gap + two + ")";
    BadParam(key, gap, two, known);
  }

  lemma ThreeParts(a: string, b: string, c: string)
    requires Without(a, '=') && Without(b, '=') && Without(c, '=')
    ensures |Split(a + "=" + b + "=" + c, '=')| == 3
  {
    hide Split;
    assert a + "=" + b + "=" + c == a + ['='] + (b + ['='] + c);
    SplitAt(a, b + ['='] + c, '=');
    SplitAt(b, c, '=');
    SplitNone(c, '=');
  }

  lemma BadParam(key: string, gap: string, a: string, known: set<string>)
    requires IsKey(key) && key in known && Gap(gap, a) && |Split(a, '=')| != 2
    requires Without(a, ',') && Without(a, ';') && Without(a, '\n')
    ensures Run(key + "(" + gap + a + ")", known) == Outcome([], Some(SyntaxError(a)))
  {
    hide Run, ParamList, SetParams, Split;
    assert "" + key + "(" + (gap + a) + ")" + "" == key + "(" + gap + a + ")";
    RuleRuns("", key, gap + a, "", known);
    OneInList(Rule(key, "", ""), gap + a);
    assert gap == " " ==> (gap + a)[1..] == a;
    assert gap == "" ==> gap + a == a;
  }

  /** Two parameters, in either order; the second has everything behind the first comma. */
  lemma PairOfParams(key: string, gap: string, name: string, c: string, gap': string, name': string, c': string,
      known: set<string>)
    requires IsKey(key) && key in known && Gap(gap, name) && Gap(gap', name')
    requires Plain(name) && Plain(name') && Plain(c) && Plain(c')
    requires Without(name, ',') && Without(c, ',')
    ensures Run(key + "(" + gap + name + "=" + c + "," + gap' + name' + "=" + c' + ")", known) ==
      if !IsMessage(name) && !IsValue(name) then Outcome([], Some(UnexpectedParam(name)))
      else if !IsMessage(name') && !IsValue(name') then Outcome([], Some(UnexpectedParam(name')))
      else if IsMessage(name) && IsValue(name') then Outcome([Rule(key, c, c')], None)
      else if IsValue(name) && IsMessage(name') then Outcome([Rule(key, c', c)], None)
      else if IsMessage(name) then Outcome([Rule(key, c', "")], None)
      else Outcome([Rule(key, "", c')], None)
  {
    hide Run, ParamList, SetParams, SetParam, WithoutLeadingSpace;
    var r, a, b := Rule(key, "", ""), gap + name + "=" + c, gap' + name' + "=" + c';
    PairText(key, gap, name, c, gap', name', c');
    assert Without(a, ',') && Without(a + "," + b, ';') && Without(a + "," + b, '\n');
    hide Plain, Without, Gap;
    RuleRuns("", key, a + "," + b, "", known);
    Validators.TwoParams(a, b);
    TwoSteps(r, a, b);
    Gapped(r, gap, name, c);
    Gapped(SetParam(r, WithoutLeadingSpace(a)).0, gap', name', c');
  }

  lemma PairText(key: string, gap: string, name: string, c: string, gap': string, name': string, c': string)
    ensures key + "(" + gap + name + "=" + c + "," + gap' + name' + "=" + c' + ")"
        == "" + key + "(" + (gap + name + "=" + c + "," + (gap' + name' + "=" + c')) + ")" + ""
  {
  }
}

/**
 The rule reader of scripts/check-alerts.py: a line scanner over the hand-written shape of the alert
 file, which must never skip a rule silently.
 */
module AlertRules {
  import opened Text

  /** The six block scalar markers: `|` or `>`, alone or followed by `-` or `+`. */
  predicate Folded(value: string) {
    && 1 <= |value| <= 2
    && (value[0] == '|' || value[0] == '>')
    && (|value| == 2 ==> value[1] == '-' || value[1] == '+')
  }

  datatype Rule = Rule(group: Option<string>, alert: string, expr: string, text: string)

  datatype Problem =
    | NoExpr(group: Option<string>, alert: string)
    | RecordingRule(line: string)
    | Unrecognised(line: string)
    | ExprWithoutAlert(value: string)

  /** The scanner between two lines. */
  datatype Scan = Scan(
    group: Option<string>,
    alert: Option<string>,
    expr: Option<string>,
    block: Option<nat>,
    text: seq<string>,
    rules: seq<Rule>,
    problems: seq<Problem>)

  /** What a line outside a block scalar is to the scanner; the payload is stripped. */
  datatype Key = Group(name: string) | Alert(name: string) | Record | OtherItem | Expr(value: string) | Other

  /** A line that is neither blank nor a comment: its indentation, its stripped text and what the text is. */
  datatype Line = Line(indent: nat, text: string, key: Key)

  const START := Scan(None, None, None, None, [], [], [])

  function Indent(raw: string): nat { |raw| - |LStrip(raw)| }

  /** Comment lines and blank lines. */
  predicate Skipped(raw: string) { "#" <= LStrip(raw) || Strip(raw) == "" }

  /** A line is passed over exactly when it is blank or its first visible character is `#`. */
  lemma SkippedExactly(raw: string)
    ensures Skipped(raw) <==>
            || (forall c <- raw :: IsSpace(c))
            || exists k | 0 <= k < |raw| :: raw[k] == '#' && forall j | 0 <= j < k :: IsSpace(raw[j])
  {
    var before := LStripSplits(raw);
    var text := LStrip(raw);
    var n := |before|;
    RStripBlank(text);
    assert forall j | 0 <= j < n :: raw[j] == before[j] && IsSpace(raw[j]);
    if text == "" {
      assert raw == before;
    } else {
      assert raw[n] == text[0] && !IsSpace(raw[n]) && raw[n] in raw;
      assert "#" <= text <==> raw[n] == '#';
      if k :| 0 <= k < |raw| && raw[k] == '#' && forall j | 0 <= j < k :: IsSpace(raw[j]) {
        assert k == n;
      }
    }
  }

  /** The block scalar markers are these six. */
  lemma FoldedExactly(value: string)
    ensures Folded(value) <==> value == "|" || value == "|-" || value == "|+"
                               || value == ">" || value == ">-" || value == ">+"
  {
    if |value| == 1 { assert value == [value[0]]; }
    if |value| == 2 { assert value == [value[0], value[1]]; }
  }

  function LineAt(indent: nat, text: string): Line { Line(indent, text, Classify(text)) }

  /** The lines the scanner looks at. */
  function Content(lines: seq<string>): seq<Line> {
    if lines == [] then []
    else
      (if Skipped(lines[0]) then [] else [LineAt(Indent(lines[0]), Strip(lines[0]))]) + Content(lines[1..])
  }

  function Classify(stripped: string): Key {
    if StartsWith(stripped, "- name:") then Group(Strip(From(stripped, |"- name:"|)))
    else if StartsWith(stripped, "- alert:") then Alert(Strip(From(stripped, |"- alert:"|)))
    else if StartsWith(stripped, "- record:") then Record
    else if StartsWith(stripped, "-") then OtherItem
    else if StartsWith(stripped, "expr:") then Expr(Strip(From(stripped, |"expr:"|)))
    else Other
  }

  /** The rule in progress is reported, as a rule or as a problem. */
  function Flush(s: Scan): Scan {
    if s.alert.None? then s
    else if s.expr.None? || Strip(s.expr.value) == "" then
      s.(problems := s.problems + [NoExpr(s.group, s.alert.value)])
    else
      s.(rules := s.rules + [Rule(s.group, s.alert.value, Strip(s.expr.value), Join(s.text, "\n"))])
  }

  /** A line that is not part of a block scalar. */
  function KeyLine(s: Scan, line: Line): Scan {
    match line.key
    case Group(name) => Flush(s).(group := Some(name), alert := None, expr := None, text := [])
    case Alert(name) => Flush(s).(alert := Some(name), expr := None, text := [])
    case Record => s.(problems := s.problems + [RecordingRule(line.text)])
    case OtherItem => s.(problems := s.problems + [Unrecognised(line.text)])
    case Expr(value) =>
      if s.alert.None? then s.(problems := s.problems + [ExprWithoutAlert(value)])
      else if Folded(value) then s.(block := Some(line.indent), expr := Some(""))
      else s.(expr := Some(value), text := s.text + [line.text])
    case Other => if s.alert.Some? then s.(text := s.text + [line.text]) else s
  }

  predicate InBlock(s: Scan, line: Line) { s.block.Some? && line.indent > s.block.value }

  function BlockLine(s: Scan, line: Line): Scan {
    s.(expr := Some((if s.expr.Some? then s.expr.value else "") + " " + line.text), text := s.text + [line.text])
  }

  function Step(s: Scan, line: Line): Scan {
    if InBlock(s, line) then BlockLine(s, line) else KeyLine(s.(block := None), line)
  }

  function ScanFrom(s: Scan, lines: seq<Line>): Scan
    decreases lines
  {
    if lines == [] then s else ScanFrom(Step(s, lines[0]), lines[1..])
  }

  lemma ContentAt(lines: seq<string>, i: nat)
    requires i < |lines|
    ensures Content(lines[i..])
         == if Skipped(lines[i]) then Content(lines[i + 1..])
            else [LineAt(Indent(lines[i]), Strip(lines[i]))] + Content(lines[i + 1..])
  {
    assert lines[i..][1..] == lines[i + 1..];
  }

  lemma ScanCons(s: Scan, line: Line, rest: seq<Line>)
    ensures ScanFrom(s, [line] + rest) == ScanFrom(Step(s, line), rest)
  {
    assert ([line] + rest)[1..] == rest;
  }

  /** No rule comes back without an expression, or with blanks around it. */
  ghost predicate HaveExprs(rules: seq<Rule>) { forall r <- rules :: r.expr != "" && Strip(r.expr) == r.expr }

  lemma FlushHasExprs(s: Scan)
    requires HaveExprs(s.rules)
    ensures HaveExprs(Flush(s).rules)
  {
    if s.alert.Some? && s.expr.Some? && Strip(s.expr.value) != "" { StripTrimmed(Strip(s.expr.value)); }
  }

  lemma {:induction false} RulesHaveExprs(s: Scan, lines: seq<Line>)
    requires HaveExprs(s.rules)
    ensures HaveExprs(Flush(ScanFrom(s, lines)).rules)
    decreases lines
  {
    if lines == [] {
      FlushHasExprs(s);
    } else {
      FlushHasExprs(s.(block := None));
      RulesHaveExprs(Step(s, lines[0]), lines[1..]);
    }
  }

  /** `read_rules` over the lines of a file. */
  method ReadRules(lines: seq<string>) returns (rules: seq<Rule>, problems: seq<Problem>)
    ensures rules == Flush(ScanFrom(START, Content(lines))).rules
    ensures problems == Flush(ScanFrom(START, Content(lines))).problems
    ensures forall r <- rules :: r.expr != "" && Strip(r.expr) == r.expr
  {
    RulesHaveExprs(START, Content(lines));
    rules, problems := [], [];
    var group: Option<string>, alert: Option<string> := None, None;
    var expr: Option<string>, block: Option<nat> := None, None;
    var text: seq<string> := [];
    ghost var s := START;
    for i := 0 to |lines|
      invariant s == Scan(group, alert, expr, block, text, rules, problems)
      invariant ScanFrom(s, Content(lines[i..])) == ScanFrom(START, Content(lines))
    {
      var raw := lines[i];
      ContentAt(lines, i);
      if "#" <= LStrip(raw) || Strip(raw) == "" {
        continue;
      }
      var line := LineAt(|raw| - |LStrip(raw)|, Strip(raw));
      ScanCons(s, line, Content(lines[i + 1..]));
      s := Step(s, line);
      if block.Some? && line.indent > block.value {
        expr := Some((if expr.Some? then expr.value else "") + " " + line.text);
        text := text + [line.text];
        continue;
      }
      block := None;
      group, alert, expr, block, text, rules, problems :=
        ReadKeyLine(line, group, alert, expr, text, rules, problems);
    }
    rules, problems := FlushInto(group, alert, expr, block, text, rules, problems);
  }

  /** The branches of the loop for a line outside a block scalar. */
  method ReadKeyLine(line: Line, group: Option<string>, alert: Option<string>, expr: Option<string>,
                     text: seq<string>, rules: seq<Rule>, problems: seq<Problem>)
    returns (group': Option<string>, alert': Option<string>, expr': Option<string>, block': Option<nat>,
             text': seq<string>, rules': seq<Rule>, problems': seq<Problem>)
    ensures Scan(group', alert', expr', block', text', rules', problems')
         == KeyLine(Scan(group, alert, expr, None, text, rules, problems), line)
  {
    group', alert', expr', block', text', rules', problems' := group, alert, expr, None, text, rules, problems;
    match line.key
    case Group(name) =>
      rules', problems' := FlushInto(group, alert, expr, None, text, rules, problems);
      group', alert', expr', text' := Some(name), None, None, [];
    case Alert(name) =>
      rules', problems' := FlushInto(group, alert, expr, None, text, rules, problems);
      alert', expr', text' := Some(name), None, [];
    case Record =>
      problems' := problems + [RecordingRule(line.text)];
    case OtherItem =>
      problems' := problems + [Unrecognised(line.text)];
    case Expr(value) =>
      if alert.None? {
        problems' := problems + [ExprWithoutAlert(value)];
      } else if Folded(value) {
        block', expr' := Some(line.indent), Some("");
      } else {
        expr', text' := Some(value), text + [line.text];
      }
    case Other =>
      if alert.Some? {
        text' := text + [line.text];
      }
  }

  method FlushInto(group: Option<string>, alert: Option<string>, expr: Option<string>, ghost block: Option<nat>,
                   text: seq<string>, rules: seq<Rule>, problems: seq<Problem>)
    returns (rules': seq<Rule>, problems': seq<Problem>)
    ensures Scan(group, alert, expr, block, text, rules', problems')
         == Flush(Scan(group, alert, expr, block, text, rules, problems))
  {
    rules', problems' := rules, problems;
    if alert.None? {
      return;
    }
    if expr.None? || Strip(expr.value) == "" {
      problems' := problems + [NoExpr(group, alert.value)];
      return;
    }
    rules' := rules + [Rule(group, alert.value, Strip(expr.value), Join(text, "\n"))];
  }

  // ---------- nothing is skipped silently ----------

  type Head = (Option<string>, string)

  /** The rules begun, in order, by group and alert name: the `- alert:` lines outside comments and block scalars. */
  function HeadsFrom(s: Scan, lines: seq<Line>): seq<Head>
    decreases lines
  {
    if lines == [] then [] else HeadsAt(s, lines[0]) + HeadsFrom(Step(s, lines[0]), lines[1..])
  }

  function HeadsAt(s: Scan, line: Line): seq<Head> {
    if InBlock(s, line) then []
    else
      match line.key
      case Alert(name) => [(s.group, name)]
      case _ => []
  }

  function RuleHeads(rules: seq<Rule>): seq<Head> {
    if rules == [] then []
    else RuleHeads(rules[..|rules| - 1]) + [(rules[|rules| - 1].group, rules[|rules| - 1].alert)]
  }

  /** The alerts of the "has no expr" problems. */
  function FailedHeads(problems: seq<Problem>): seq<Head> {
    if problems == [] then []
    else
      var last := problems[|problems| - 1];
      FailedHeads(problems[..|problems| - 1]) + if last.NoExpr? then [(last.group, last.alert)] else []
  }

  function Pending(s: Scan): seq<Head> {
    if s.alert.Some? then [(s.group, s.alert.value)] else []
  }

  /** `c` is `a` and `b` shuffled together, each keeping its own order. */
  ghost predicate Interleaves(a: seq<Head>, b: seq<Head>, c: seq<Head>)
    decreases c
  {
    if c == [] then a == [] && b == []
    else
      var x, c' := c[|c| - 1], c[..|c| - 1];
      || (a != [] && a[|a| - 1] == x && Interleaves(a[..|a| - 1], b, c'))
      || (b != [] && b[|b| - 1] == x && Interleaves(a, b[..|b| - 1], c'))
  }

  ghost predicate Accounted(s: Scan, begun: seq<Head>) {
    Interleaves(RuleHeads(s.rules), FailedHeads(s.problems), begun)
  }

  lemma InterleaveSnoc(a: seq<Head>, b: seq<Head>, c: seq<Head>, x: Head)
    requires Interleaves(a, b, c)
    ensures Interleaves(a + [x], b, c + [x])
    ensures Interleaves(a, b + [x], c + [x])
  {
    assert (a + [x])[..|a|] == a && (b + [x])[..|b|] == b && (c + [x])[..|c|] == c;
  }

  lemma {:induction false} InterleaveCount(a: seq<Head>, b: seq<Head>, c: seq<Head>)
    requires Interleaves(a, b, c)
    ensures |a| + |b| == |c|
    ensures b == [] ==> a == c
    decreases c
  {
    if c != [] {
      var x, c' := c[|c| - 1], c[..|c| - 1];
      assert c == c' + [x];
      if a != [] && a[|a| - 1] == x && Interleaves(a[..|a| - 1], b, c') {
        InterleaveCount(a[..|a| - 1], b, c');
        assert a == a[..|a| - 1] + [x];
      } else {
        InterleaveCount(a, b[..|b| - 1], c');
      }
    }
  }

  lemma RuleHeadsSnoc(rules: seq<Rule>, r: Rule)
    ensures RuleHeads(rules + [r]) == RuleHeads(rules) + [(r.group, r.alert)]
  {
    assert (rules + [r])[..|rules|] == rules;
  }

  lemma ProblemsSnoc(problems: seq<Problem>, p: Problem)
    ensures p.NoExpr? ==> FailedHeads(problems + [p]) == FailedHeads(problems) + [(p.group, p.alert)]
    ensures p.NoExpr? ==> Strays(problems + [p]) == Strays(problems)
    ensures !p.NoExpr? ==> FailedHeads(problems + [p]) == FailedHeads(problems)
    ensures !p.NoExpr? ==> Strays(problems + [p]) == Strays(problems) + [p]
  {
    assert (problems + [p])[..|problems|] == problems;
  }

  lemma FlushSettles(s: Scan)
    ensures Strays(Flush(s).problems) == Strays(s.problems)
  {
    if s.alert.Some? { ProblemsSnoc(s.problems, NoExpr(s.group, s.alert.value)); }
  }

  lemma FlushAccounts(s: Scan, begun: seq<Head>)
    requires Accounted(s, begun)
    ensures Accounted(Flush(s), begun + Pending(s))
  {
    if s.alert.None? {
      assert begun + Pending(s) == begun;
    } else {
      ProblemsSnoc(s.problems, NoExpr(s.group, s.alert.value));
      if s.expr.Some? {
        RuleHeadsSnoc(s.rules, Rule(s.group, s.alert.value, Strip(s.expr.value), Join(s.text, "\n")));
      }
      InterleaveSnoc(RuleHeads(s.rules), FailedHeads(s.problems), begun, Pending(s)[0]);
    }
  }

  /** The problem a line is in itself: a list item the scanner does not understand, or an `expr:` of no alert. */
  function StraysAt(s: Scan, line: Line): seq<Problem> {
    if InBlock(s, line) then []
    else
      match line.key
      case Record => [RecordingRule(line.text)]
      case OtherItem => [Unrecognised(line.text)]
      case Expr(value) => if s.alert.None? then [ExprWithoutAlert(value)] else []
      case _ => []
  }

  function StraysFrom(s: Scan, lines: seq<Line>): seq<Problem>
    decreases lines
  {
    if lines == [] then [] else StraysAt(s, lines[0]) + StraysFrom(Step(s, lines[0]), lines[1..])
  }

  function Strays(problems: seq<Problem>): seq<Problem> {
    if problems == [] then []
    else
      var last := problems[|problems| - 1];
      Strays(problems[..|problems| - 1]) + if last.NoExpr? then [] else [last]
  }

  predicate Settles(s: Scan, line: Line) {
    !InBlock(s, line) && (line.key.Group? || line.key.Alert?)
  }

  /** The rule that is in progress before a line and no longer after it. */
  function Settled(s: Scan, line: Line): seq<Head> {
    if Settles(s, line) then Pending(s) else []
  }

  lemma StepPends(s: Scan, line: Line)
    ensures Settled(s, line) + Pending(Step(s, line)) == Pending(s) + HeadsAt(s, line)
  {
  }

  lemma StepStrays(s: Scan, line: Line)
    ensures Strays(Step(s, line).problems) == Strays(s.problems) + StraysAt(s, line)
  {
    if !InBlock(s, line) {
      match line.key
      case Group(_) => FlushSettles(s.(block := None));
      case Alert(_) => FlushSettles(s.(block := None));
      case Record => ProblemsSnoc(s.problems, RecordingRule(line.text));
      case OtherItem => ProblemsSnoc(s.problems, Unrecognised(line.text));
      case Expr(value) => ProblemsSnoc(s.problems, ExprWithoutAlert(value));
      case Other =>
    }
  }

  lemma StepKeepsHeads(s: Scan, line: Line)
    requires !Settles(s, line)
    ensures RuleHeads(Step(s, line).rules) == RuleHeads(s.rules)
    ensures FailedHeads(Step(s, line).problems) == FailedHeads(s.problems)
  {
    if !InBlock(s, line) {
      match line.key
      case Record => ProblemsSnoc(s.problems, RecordingRule(line.text));
      case OtherItem => ProblemsSnoc(s.problems, Unrecognised(line.text));
      case Expr(value) => ProblemsSnoc(s.problems, ExprWithoutAlert(value));
      case Other =>
    }
  }

  lemma StepAccounts(s: Scan, line: Line, begun: seq<Head>)
    requires Accounted(s, begun)
    ensures Accounted(Step(s, line), begun + Settled(s, line))
  {
    if Settles(s, line) {
      FlushAccounts(s.(block := None), begun);
    } else {
      StepKeepsHeads(s, line);
      assert begun + [] == begun;
    }
  }

  lemma {:induction false} EveryLineAccounted(s: Scan, lines: seq<Line>, begun: seq<Head>)
    requires Accounted(s, begun)
    ensures Accounted(Flush(ScanFrom(s, lines)), begun + Pending(s) + HeadsFrom(s, lines))
    decreases lines
  {
    if lines == [] {
      FlushAccounts(s, begun);
      assert begun + Pending(s) + [] == begun + Pending(s);
    } else {
      var line, t := lines[0], Step(s, lines[0]);
      StepAccounts(s, line, begun);
      EveryLineAccounted(t, lines[1..], begun + Settled(s, line));
      StepPends(s, line);
      Regroup(begun, Settled(s, line), Pending(t), HeadsFrom(t, lines[1..]));
      Regroup(begun, Pending(s), HeadsAt(s, line), HeadsFrom(t, lines[1..]));
    }
  }

  lemma {:induction false} EveryStrayReported(s: Scan, lines: seq<Line>)
    ensures Strays(Flush(ScanFrom(s, lines)).problems) == Strays(s.problems) + StraysFrom(s, lines)
    decreases lines
  {
    if lines == [] {
      FlushSettles(s);
    } else {
      var t := Step(s, lines[0]);
      StepStrays(s, lines[0]);
      EveryStrayReported(t, lines[1..]);
      Assoc(Strays(s.problems), StraysAt(s, lines[0]), StraysFrom(t, lines[1..]));
    }
  }

  /** Whatever the text, every rule begun ends up exactly once, in order, among the rules returned or among the
      "has no expr" problems, and nothing else does; the other problems are exactly the lines the scanner does
      not understand, in order. */
  lemma EveryRuleAccountedFor(lines: seq<Line>)
    ensures var end := Flush(ScanFrom(START, lines));
      && Interleaves(RuleHeads(end.rules), FailedHeads(end.problems), HeadsFrom(START, lines))
      && |end.rules| + |FailedHeads(end.problems)| == |HeadsFrom(START, lines)|
      && Strays(end.problems) == StraysFrom(START, lines)
  {
    var end := Flush(ScanFrom(START, lines));
    EveryLineAccounted(START, lines, []);
    EveryStrayReported(START, lines);
    assert [] + Pending(START) + HeadsFrom(START, lines) == HeadsFrom(START, lines);
    InterleaveCount(RuleHeads(end.rules), FailedHeads(end.problems), HeadsFrom(START, lines));
    RuleHeadsLength(end.rules);
  }

  lemma {:induction false} RuleHeadsLength(rules: seq<Rule>)
    ensures |RuleHeads(rules)| == |rules|
  {
    if rules != [] { RuleHeadsLength(rules[..|rules| - 1]); }
  }

  /** No problem is reported exactly when every rule begun comes back, in order, and no line is beyond the scanner. */
  lemma CleanExactly(lines: seq<Line>)
    ensures var end := Flush(ScanFrom(START, lines));
      end.problems == [] <==> RuleHeads(end.rules) == HeadsFrom(START, lines) && StraysFrom(START, lines) == []
  {
    var end := Flush(ScanFrom(START, lines));
    EveryRuleAccountedFor(lines);
    InterleaveCount(RuleHeads(end.rules), FailedHeads(end.problems), HeadsFrom(START, lines));
    RuleHeadsLength(end.rules);
    if end.problems != [] {
      var p := end.problems[|end.problems| - 1];
      assert p.NoExpr? ==> FailedHeads(end.problems) != [];
      assert !p.NoExpr? ==> Strays(end.problems) != [];
    }
  }

  // ---------- the whole text ----------

  /** The characters `str.splitlines` breaks a text at. */
  predicate IsBreak(c: char) {
    '\n' <= c <= '\r' || '\U{1c}' <= c <= '\U{1e}' || c == '\U{85}' || c == '\U{2028}' || c == '\U{2029}'
  }

  function LineLength(s: string): (k: nat)
    ensures k <= |s| && (k < |s| ==> IsBreak(s[k]))
  {
    if s == "" || IsBreak(s[0]) then 0 else 1 + LineLength(s[1..])
  }

  /** `text.splitlines()`. */
  function SplitLines(s: string): seq<string>
    decreases |s|
  {
    if s == "" then []
    else
      var k := LineLength(s);
      [s[..k]] + SplitLines(From(s, if k + 1 < |s| && s[k] == '\r' && s[k + 1] == '\n' then k + 2 else k + 1))
  }

  /** `\S+`, taken off. */
  function DropWord(s: string): (r: string)
    ensures |r| <= |s| && (s != "" && !IsSpace(s[0]) ==> |r| < |s|)
  {
    if s == "" || IsSpace(s[0]) then s else DropWord(s[1..])
  }

  /** What follows a match of `\s*(?:-\s*)?alert:\s*(\S+)` at the start of `s`. */
  function KeyMatch(s: string): (r: Option<string>)
    ensures r.Some? ==> |r.value| < |s|
  {
    var item := LStrip(s);
    var key := if StartsWith(item, "-") then LStrip(From(item, 1)) else item;
    if !StartsWith(key, "alert:") then None
    else
      var name := LStrip(From(key, |"alert:"|));
      if name == "" then None else Some(DropWord(name))
  }

  /** How many times the pattern for an alert key is found in a text, searched from the start of a line or not. */
  function Declared(lineStart: bool, s: string): nat
    decreases |s|
  {
    if s == "" then 0
    else
      match if lineStart then KeyMatch(s) else None
      case Some(rest) => 1 + Declared(false, rest)
      case None => Declared(s[0] == '\n', s[1..])
  }

  /** What `main` makes of the scanner's result and of the pattern search. */
  predicate GateOpens(declared: nat, rules: seq<Rule>, problems: seq<Problem>) {
    problems == [] && declared == |rules| && rules != []
  }

  /** The gate opens on a text exactly when the scanner began as many alerts as the pattern finds in it, and at least
      one, all those begun came back in order with their expressions, and no line was beyond the scanner. It is the
      two numbers that are compared, not the alerts. */
  lemma GateExactly(text: string)
    ensures var lines := Content(SplitLines(text));
      var end := Flush(ScanFrom(START, lines));
      GateOpens(Declared(true, text), end.rules, end.problems)
      <==> && Declared(true, text) == |HeadsFrom(START, lines)| > 0
           && RuleHeads(end.rules) == HeadsFrom(START, lines)
           && StraysFrom(START, lines) == []
    ensures forall r <- Flush(ScanFrom(START, Content(SplitLines(text)))).rules ::
              r.expr != "" && Strip(r.expr) == r.expr
  {
    var lines := Content(SplitLines(text));
    RulesHaveExprs(START, lines);
    CleanExactly(lines);
    RuleHeadsLength(Flush(ScanFrom(START, lines)).rules);
  }
}

/**
 What the rule reader makes of a file, section by section: a section is an alert and the lines below it up to
 the next alert or group. The line scanner comes to the same rules and problems.
 */
module AlertSections {
  import opened Text
  import opened AlertRules
  import opened AlertRoundTrip

  // ---------- one section ----------

  predicate Begins(line: Line) { line.key.Group? || line.key.Alert? }

  predicate OpensScalar(line: Line) { line.key.Expr? && Folded(line.key.value) }

  /** The number of lines up to the first that is not deeper. */
  function ScalarLength(lines: seq<Line>, indent: nat): (n: nat)
    ensures n <= |lines|
  {
    if lines == [] || lines[0].indent <= indent then 0 else 1 + ScalarLength(lines[1..], indent)
  }

  /** A line of a section, with its block scalar if it opens one. */
  function EntryLength(lines: seq<Line>): (n: nat)
    requires lines != []
    ensures 1 <= n <= |lines|
  {
    if OpensScalar(lines[0]) then 1 + ScalarLength(lines[1..], lines[0].indent) else 1
  }

  predicate SectionOver(lines: seq<Line>) { lines == [] || Begins(lines[0]) }

  /** How many of the lines belong to the section they are in. */
  function SectionLength(lines: seq<Line>): (n: nat)
    ensures n <= |lines| && SectionOver(lines[n..])
    decreases |lines|
  {
    if SectionOver(lines) then 0
    else
      var k := EntryLength(lines);
      var n := SectionLength(lines[k..]);
      assert lines[k..][n..] == lines[k + n..];
      k + n
  }

  /** The expression of a section: the value of its last `expr:` key, or the lines of its block scalar. */
  function Given(lines: seq<Line>): Option<string>
    decreases |lines|
  {
    if SectionOver(lines) then None
    else
      var k := EntryLength(lines);
      var later := Given(lines[k..]);
      if later.Some? then later
      else
        match lines[0].key
        case Expr(value) => Some(if Folded(value) then Join(Texts(lines[1..k]), " ") else value)
        case _ => None
  }

  /** What an entry leaves for the template check: its line, unless it is a list item; the scalar if it opens one. */
  function EntryText(lines: seq<Line>): seq<string>
    requires lines != []
  {
    if OpensScalar(lines[0]) then Texts(lines[1..EntryLength(lines)])
    else if lines[0].key.Record? || lines[0].key.OtherItem? then []
    else [lines[0].text]
  }

  function Kept(lines: seq<Line>): seq<string>
    decreases |lines|
  {
    if SectionOver(lines) then [] else EntryText(lines) + Kept(lines[EntryLength(lines)..])
  }

  /** The problem a list item is. */
  function ItemAt(line: Line): seq<Problem> {
    match line.key
    case Record => [RecordingRule(line.text)]
    case OtherItem => [Unrecognised(line.text)]
    case _ => []
  }

  function Items(lines: seq<Line>): seq<Problem>
    decreases |lines|
  {
    if SectionOver(lines) then [] else ItemAt(lines[0]) + Items(lines[EntryLength(lines)..])
  }

  predicate GivesExpr(lines: seq<Line>) { Given(lines).Some? && Given(lines).value != "" }

  // ---------- the whole file ----------

  /** The rules, the problems, and every alert with whether its section gives it an expression. */
  datatype Report = Report(rules: seq<Rule>, problems: seq<Problem>, alerts: seq<(Head, bool)>)

  function Before(rules: seq<Rule>, problems: seq<Problem>, alerts: seq<(Head, bool)>, r: Report): Report {
    Report(rules + r.rules, problems + r.problems, alerts + r.alerts)
  }

  function Sections(group: Option<string>, lines: seq<Line>): Report
    decreases |lines|
  {
    if lines == [] then Report([], [], [])
    else
      var rest := lines[1..];
      match lines[0].key
      case Alert(name) =>
        var after := Sections(group, rest[SectionLength(rest)..]);
        var fate := [((group, name), GivesExpr(rest))];
        if GivesExpr(rest) then
          Before([Rule(group, name, Given(rest).value, Join(Kept(rest), "\n"))], Items(rest), fate, after)
        else Before([], Items(rest) + [NoExpr(group, name)], fate, after)
      case _ => Before([], Aside(lines[0]), [], Sections(GroupAfter(group, lines[0]), rest))
  }

  /** The problem a line outside every section is: a list item, or an `expr:` of no alert. */
  function Aside(line: Line): seq<Problem> {
    if line.key.Expr? then [ExprWithoutAlert(line.key.value)] else ItemAt(line)
  }

  function GroupAfter(group: Option<string>, line: Line): Option<string> {
    if line.key.Group? then Some(line.key.name) else group
  }

  // ---------- the scanner reads by sections ----------

  /** What the scanner makes of the lines ahead: rules, problems, and the alerts it will begin. */
  function Outcome(s: Scan, lines: seq<Line>): (seq<Rule>, seq<Problem>, seq<Head>) {
    var end := Flush(ScanFrom(s, lines));
    (end.rules, end.problems, HeadsFrom(s, lines))
  }

  lemma {:induction false} BlockLeft(s: Scan, lines: seq<Line>)
    requires lines != [] ==> !InBlock(s, lines[0])
    ensures Outcome(s, lines) == Outcome(s.(block := None), lines)
  {
    var t := s.(block := None);
    if lines != [] { assert Step(s, lines[0]) == Step(t, lines[0]); }
  }

  /** A line that begins no alert. */
  lemma {:induction false} LineRun(s: Scan, lines: seq<Line>)
    requires lines != [] && HeadsAt(s, lines[0]) == []
    ensures Outcome(s, lines) == Outcome(Step(s, lines[0]), lines[1..])
  {
    var heads := HeadsFrom(Step(s, lines[0]), lines[1..]);
    assert [] + heads == heads;
  }

  lemma {:induction false} ScalarStep(s: Scan, lines: seq<Line>, indent: nat)
    requires s.block == Some(indent) && s.expr.Some? && ScalarLength(lines, indent) > 0
    ensures Outcome(s, lines)
         == Outcome(s.(expr := Some(s.expr.value + " " + lines[0].text), text := s.text + [lines[0].text]), lines[1..])
  {
    LineRun(s, lines);
  }

  lemma {:induction false} ScalarRun(s: Scan, lines: seq<Line>, indent: nat)
    requires s.block == Some(indent) && s.expr.Some?
    ensures var scalar, rest := lines[..ScalarLength(lines, indent)], lines[ScalarLength(lines, indent)..];
      Outcome(s, lines)
      == Outcome(s.(block := None, expr := Some(s.expr.value + Spaced(scalar)), text := s.text + Texts(scalar)), rest)
    decreases |lines|
  {
    var n := ScalarLength(lines, indent);
    if n == 0 {
      assert s.text + Texts(lines[..0]) == s.text && s.expr.value + "" == s.expr.value;
      BlockLeft(s, lines);
    } else {
      var t := s.(expr := Some(s.expr.value + " " + lines[0].text), text := s.text + [lines[0].text]);
      var scalar := lines[1..][..n - 1];
      ScalarStep(s, lines, indent);
      ScalarRun(t, lines[1..], indent);
      assert lines[..n][1..] == scalar && lines[1..][n - 1..] == lines[n..];
      assert s.text + [lines[0].text] + Texts(scalar) == s.text + Texts(lines[..n]);
      Regroup(s.expr.value, " ", lines[0].text, Spaced(scalar));
      assert Spaced(lines[..n]) == " " + lines[0].text + Spaced(scalar);
    }
  }

  /** The expression the scanner holds after an entry. */
  function Held(e: Option<string>, lines: seq<Line>): Option<string>
    requires lines != []
  {
    match lines[0].key
    case Expr(value) => Some(if Folded(value) then Spaced(lines[1..EntryLength(lines)]) else value)
    case _ => e
  }

  /** The scanner in a section, past its first entry. */
  function PastEntry(s: Scan, lines: seq<Line>): Scan
    requires lines != []
  {
    s.(expr := Held(s.expr, lines), text := s.text + EntryText(lines), problems := s.problems + ItemAt(lines[0]))
  }

  lemma {:induction false} EntryRun(s: Scan, lines: seq<Line>)
    requires s.alert.Some? && s.block.None? && !SectionOver(lines)
    ensures Outcome(s, lines) == Outcome(PastEntry(s, lines), lines[EntryLength(lines)..])
  {
    var t := Step(s, lines[0]);
    LineRun(s, lines);
    assert s.text + [] == s.text && s.problems + [] == s.problems;
    if OpensScalar(lines[0]) {
      var n := ScalarLength(lines[1..], lines[0].indent);
      ScalarRun(t, lines[1..], lines[0].indent);
      assert lines[1..][..n] == lines[1..n + 1] && lines[1..][n..] == lines[n + 1..];
      assert "" + Spaced(lines[1..n + 1]) == Spaced(lines[1..n + 1]);
    }
  }

  /** The scanner at the end of a section. */
  function PastSection(s: Scan, lines: seq<Line>): Scan
    decreases |lines|
  {
    if SectionOver(lines) then s else PastSection(PastEntry(s, lines), lines[EntryLength(lines)..])
  }

  function Stripped(e: Option<string>): Option<string> { if e.Some? then Some(Strip(e.value)) else None }

  lemma {:induction false} EntryExpr(lines: seq<Line>)
    requires !SectionOver(lines) && lines[0].key.Expr? && AllRead(lines)
    ensures var (k, value) := (EntryLength(lines), lines[0].key.value);
      if Folded(value) then Strip(Spaced(lines[1..k])) == Join(Texts(lines[1..k]), " ") else Strip(value) == value
  {
    assert Read(lines[0]);
    var scalar := lines[1..EntryLength(lines)];
    if !Folded(lines[0].key.value) {
      if lines[0].key.value != "" { ExprTrimmed(lines[0]); }
    } else if scalar != [] {
      assert AllTrimmed(scalar) by {
        forall k | 0 <= k < |scalar| ensures Trimmed(scalar[k].text) { assert Read(lines[1 + k]); }
      }
      SpacedIsJoined(scalar);
      StripTrimmed(Join(Texts(scalar), " "));
    }
  }

  lemma {:induction false} SectionRun(s: Scan, lines: seq<Line>)
    requires s.alert.Some? && s.block.None?
    ensures Outcome(s, lines) == Outcome(PastSection(s, lines), lines[SectionLength(lines)..])
    decreases |lines|
  {
    if !SectionOver(lines) {
      var k := EntryLength(lines);
      EntryRun(s, lines);
      SectionRun(PastEntry(s, lines), lines[k..]);
      assert lines[k..][SectionLength(lines[k..])..] == lines[SectionLength(lines)..];
    }
  }

  lemma {:induction false} SectionGathers(s: Scan, lines: seq<Line>)
    ensures var t := PastSection(s, lines);
      t == s.(expr := t.expr, text := s.text + Kept(lines), problems := s.problems + Items(lines))
    decreases |lines|
  {
    if SectionOver(lines) {
      assert s.text + [] == s.text && s.problems + [] == s.problems;
    } else {
      var rest := lines[EntryLength(lines)..];
      SectionGathers(PastEntry(s, lines), rest);
      Assoc(s.text, EntryText(lines), Kept(rest));
      Assoc(s.problems, ItemAt(lines[0]), Items(rest));
    }
  }

  lemma {:induction false} SectionExpr(s: Scan, lines: seq<Line>)
    requires AllRead(lines)
    ensures Stripped(PastSection(s, lines).expr) == if Given(lines).Some? then Given(lines) else Stripped(s.expr)
    decreases |lines|
  {
    if !SectionOver(lines) {
      var k := EntryLength(lines);
      ReadParts(lines[..k], lines[k..]) by { assert lines[..k] + lines[k..] == lines; }
      SectionExpr(PastEntry(s, lines), lines[k..]);
      if lines[0].key.Expr? { EntryExpr(lines); }
    }
  }

  /** At the end of a section its alert is reported. */
  lemma {:induction false} SectionEnds(s: Scan, lines: seq<Line>)
    requires s.alert.Some? && s.block.None? && SectionOver(lines)
    ensures Outcome(s, lines) == Outcome(Flush(s).(alert := None, expr := None, text := []), lines)
  {
  }

  function Heads(alerts: seq<(Head, bool)>): seq<Head> {
    if alerts == [] then [] else [alerts[0].0] + Heads(alerts[1..])
  }

  ghost predicate Comes(s: Scan, r: Report, o: (seq<Rule>, seq<Problem>, seq<Head>)) {
    o == (s.rules + r.rules, s.problems + r.problems, Heads(r.alerts))
  }

  /** The scanner with the alert of a section reported. */
  function PastAlert(s: Scan, lines: seq<Line>): Scan
    requires lines != [] && lines[0].key.Alert?
  {
    var rest, name := lines[1..], lines[0].key.name;
    if GivesExpr(rest)
    then s.(rules := s.rules + [Rule(s.group, name, Given(rest).value, Join(Kept(rest), "\n"))],
            problems := s.problems + Items(rest))
    else s.(problems := s.problems + (Items(rest) + [NoExpr(s.group, name)]))
  }

  lemma {:induction false} AlertRun(s: Scan, lines: seq<Line>)
    requires lines != [] && lines[0].key.Alert? && AllRead(lines)
    requires s.alert.None? && s.block.None? && s.expr.None? && s.text == []
    ensures var (rules, problems, heads) := Outcome(PastAlert(s, lines), lines[1..][SectionLength(lines[1..])..]);
      Outcome(s, lines) == (rules, problems, [(s.group, lines[0].key.name)] + heads)
  {
    var rest, name, u := lines[1..], lines[0].key.name, Step(s, lines[0]);
    ReadParts(lines[..1], rest) by { assert lines[..1] + rest == lines; }
    SectionRun(u, rest);
    SectionGathers(u, rest);
    SectionExpr(u, rest);
    SectionEnds(PastSection(u, rest), rest[SectionLength(rest)..]);
    assert [] + Kept(rest) == Kept(rest);
    Assoc(s.problems, Items(rest), [NoExpr(s.group, name)]);
  }

  lemma {:induction false} AlertComes(s: Scan, lines: seq<Line>)
    requires lines != [] && lines[0].key.Alert? && AllRead(lines)
    requires s.alert.None? && s.block.None? && s.expr.None? && s.text == []
    requires var after := lines[1..][SectionLength(lines[1..])..];
      Comes(PastAlert(s, lines), Sections(s.group, after), Outcome(PastAlert(s, lines), after))
    ensures Comes(s, Sections(s.group, lines), Outcome(s, lines))
  {
    var rest := lines[1..];
    var own, after := Sections(s.group, lines), Sections(s.group, rest[SectionLength(rest)..]);
    AlertRun(s, lines);
    assert own.alerts[1..] == after.alerts;
    if GivesExpr(rest) {
      var rule := Rule(s.group, lines[0].key.name, Given(rest).value, Join(Kept(rest), "\n"));
      Assoc(s.rules, [rule], after.rules);
      Assoc(s.problems, Items(rest), after.problems);
    } else {
      Assoc(s.problems, Items(rest) + [NoExpr(s.group, lines[0].key.name)], after.problems);
      assert [] + after.rules == after.rules;
    }
  }

  lemma {:induction false} AsideRun(s: Scan, lines: seq<Line>)
    requires lines != [] && !lines[0].key.Alert?
    requires s.alert.None? && s.block.None? && s.expr.None? && s.text == []
    ensures Step(s, lines[0]) == s.(group := GroupAfter(s.group, lines[0]), problems := s.problems + Aside(lines[0]))
    ensures Outcome(s, lines) == Outcome(Step(s, lines[0]), lines[1..])
  {
    LineRun(s, lines);
    assert s.problems + [] == s.problems;
  }

  lemma {:induction false} AsideComes(s: Scan, lines: seq<Line>)
    requires lines != [] && !lines[0].key.Alert?
    requires s.alert.None? && s.block.None? && s.expr.None? && s.text == []
    requires var t := Step(s, lines[0]); Comes(t, Sections(t.group, lines[1..]), Outcome(t, lines[1..]))
    ensures Comes(s, Sections(s.group, lines), Outcome(s, lines))
  {
    AsideRun(s, lines);
    var after := Sections(GroupAfter(s.group, lines[0]), lines[1..]);
    Assoc(s.problems, Aside(lines[0]), after.problems);
    assert [] + after.rules == after.rules && [] + after.alerts == after.alerts;
  }

  lemma {:induction false} ScannerReadsSections(s: Scan, lines: seq<Line>)
    requires AllRead(lines)
    requires s.alert.None? && s.block.None? && s.expr.None? && s.text == []
    ensures Comes(s, Sections(s.group, lines), Outcome(s, lines))
    decreases |lines|
  {
    if lines == [] {
      assert s.rules + [] == s.rules && s.problems + [] == s.problems;
    } else {
      var rest := lines[1..];
      ReadParts(lines[..1], rest) by { assert lines[..1] + rest == lines; }
      if lines[0].key.Alert? {
        var n := SectionLength(rest);
        ReadParts(rest[..n], rest[n..]) by { assert rest[..n] + rest[n..] == rest; }
        ScannerReadsSections(PastAlert(s, lines), rest[n..]);
        AlertComes(s, lines);
      } else {
        AsideRun(s, lines);
        ScannerReadsSections(Step(s, lines[0]), rest);
        AsideComes(s, lines);
      }
    }
  }

  /** For any file: the rules, the problems in order and the alerts begun are those of its sections. */
  lemma {:induction false} ReadsSections(lines: seq<string>)
    ensures var r, end := Sections(None, Content(lines)), Flush(ScanFrom(START, Content(lines)));
      && end.rules == r.rules && end.problems == r.problems
      && HeadsFrom(START, Content(lines)) == Heads(r.alerts)
  {
    ContentRead(lines);
    ScannerReadsSections(START, Content(lines));
    var r := Sections(None, Content(lines));
    assert [] + r.rules == r.rules && [] + r.problems == r.problems;
  }

  // ---------- which alert has no expression ----------

  /** The alerts whose sections give them an expression, or those whose sections do not. */
  function Fated(alerts: seq<(Head, bool)>, given: bool): seq<Head> {
    if alerts == [] then [] else (if alerts[0].1 == given then [alerts[0].0] else []) + Fated(alerts[1..], given)
  }

  lemma {:induction false} RuleHeadsConcat(a: seq<Rule>, b: seq<Rule>)
    ensures RuleHeads(a + b) == RuleHeads(a) + RuleHeads(b)
    decreases |b|
  {
    if b == [] {
      assert a + b == a;
    } else {
      assert (a + b)[..|a + b| - 1] == a + b[..|b| - 1];
      RuleHeadsConcat(a, b[..|b| - 1]);
    }
  }

  lemma {:induction false} ProblemsConcat(a: seq<Problem>, b: seq<Problem>)
    ensures FailedHeads(a + b) == FailedHeads(a) + FailedHeads(b)
    ensures Strays(a + b) == Strays(a) + Strays(b)
    decreases |b|
  {
    if b == [] {
      assert a + b == a;
    } else {
      assert (a + b)[..|a + b| - 1] == a + b[..|b| - 1];
      ProblemsConcat(a, b[..|b| - 1]);
    }
  }

  lemma {:induction false} AsideFailsNone(line: Line)
    ensures FailedHeads(Aside(line)) == [] && FailedHeads(ItemAt(line)) == []
  {
    assert forall p: Problem :: [p][..0] == [];
  }

  lemma {:induction false} ItemsFailNone(lines: seq<Line>)
    ensures FailedHeads(Items(lines)) == []
    decreases |lines|
  {
    if !SectionOver(lines) {
      var rest := lines[EntryLength(lines)..];
      AsideFailsNone(lines[0]);
      ItemsFailNone(rest);
      ProblemsConcat(ItemAt(lines[0]), Items(rest));
    }
  }

  lemma {:induction false} FatedConcat(a: seq<(Head, bool)>, b: seq<(Head, bool)>, given: bool)
    ensures Fated(a + b, given) == Fated(a, given) + Fated(b, given)
  {
    if a == [] {
      assert a + b == b;
    } else {
      assert (a + b)[1..] == a[1..] + b;
      FatedConcat(a[1..], b, given);
      Assoc(if a[0].1 == given then [a[0].0] else [], Fated(a[1..], given), Fated(b, given));
    }
  }

  ghost predicate FatesMatch(r: Report) {
    RuleHeads(r.rules) == Fated(r.alerts, true) && FailedHeads(r.problems) == Fated(r.alerts, false)
  }

  lemma {:induction false} FateConcat(rules: seq<Rule>, problems: seq<Problem>, alerts: seq<(Head, bool)>, r: Report)
    requires FatesMatch(Report(rules, problems, alerts)) && FatesMatch(r)
    ensures FatesMatch(Before(rules, problems, alerts, r))
  {
    RuleHeadsConcat(rules, r.rules);
    ProblemsConcat(problems, r.problems);
    FatedConcat(alerts, r.alerts, true);
    FatedConcat(alerts, r.alerts, false);
  }

  lemma {:induction false} SectionFates(group: Option<string>, lines: seq<Line>)
    ensures FatesMatch(Sections(group, lines))
    decreases |lines|
  {
    if lines != [] {
      var rest := lines[1..];
      match lines[0].key
      case Alert(name) =>
        var after := Sections(group, rest[SectionLength(rest)..]);
        var fate := [((group, name), GivesExpr(rest))];
        SectionFates(group, rest[SectionLength(rest)..]);
        ItemsFailNone(rest);
        if GivesExpr(rest) {
          var rule := Rule(group, name, Given(rest).value, Join(Kept(rest), "\n"));
          RuleHeadsSnoc([], rule);
          assert [] + [rule] == [rule];
          FateConcat([rule], Items(rest), fate, after);
        } else {
          ProblemsSnoc(Items(rest), NoExpr(group, name));
          FateConcat([], Items(rest) + [NoExpr(group, name)], fate, after);
        }
      case _ =>
        SectionFates(GroupAfter(group, lines[0]), rest);
        AsideFailsNone(lines[0]);
        FateConcat([], Aside(lines[0]), [], Sections(GroupAfter(group, lines[0]), rest));
    }
  }

  /** For any file: an alert is reported as having no expression exactly when its section gives it none or a blank
      one, and comes back as a rule otherwise, both in the order of the file. */
  lemma {:induction false} NoExprExactly(lines: seq<string>)
    ensures var r, end := Sections(None, Content(lines)), Flush(ScanFrom(START, Content(lines)));
      && RuleHeads(end.rules) == Fated(r.alerts, true)
      && FailedHeads(end.problems) == Fated(r.alerts, false)
  {
    ReadsSections(lines);
    SectionFates(None, Content(lines));
  }

  lemma {:induction false} AllGiven(alerts: seq<(Head, bool)>)
    ensures Fated(alerts, false) == [] <==> forall a <- alerts :: a.1
    ensures |Fated(alerts, true)| + |Fated(alerts, false)| == |alerts| == |Heads(alerts)|
  {
    if alerts != [] {
      AllGiven(alerts[1..]);
      assert forall a :: a in alerts <==> a == alerts[0] || a in alerts[1..];
    }
  }

  /** The gate opens on a text exactly when the pattern is found as often as the text has sections, at least once,
      every section gives its alert an expression, and nothing else is reported. */
  lemma {:induction false} GateBySections(text: string)
    ensures var lines := SplitLines(text);
      var r, end := Sections(None, Content(lines)), Flush(ScanFrom(START, Content(lines)));
      GateOpens(Declared(true, text), end.rules, end.problems)
      <==> && Declared(true, text) == |r.alerts| > 0
           && (forall a <- r.alerts :: a.1)
           && Strays(r.problems) == []
  {
    var lines := SplitLines(text);
    var r := Sections(None, Content(lines));
    ReadsSections(lines);
    SectionFates(None, Content(lines));
    RuleHeadsLength(r.rules);
    AllGiven(r.alerts);
    ProblemsSplit(r.problems);
  }

  lemma {:induction false} ProblemsSplit(problems: seq<Problem>)
    ensures problems == [] <==> FailedHeads(problems) == [] && Strays(problems) == []
  {
    if problems != [] {
      var last := problems[|problems| - 1];
      assert if last.NoExpr? then FailedHeads(problems) != [] else Strays(problems) != [];
    }
  }
}

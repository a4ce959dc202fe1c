/**
 Round trip of the rule reader: a file laid out in its hand-written shape comes back as exactly the rules it
 was written from, whatever comments, blank lines and trailing spaces are interspersed.
 */
module AlertRoundTrip {
  import opened Text
  import opened AlertRules

  /** `- alert:`, other keys, `expr:` with the block scalar below it if it has one, other keys. */
  datatype RuleDoc = RuleDoc(head: Line, before: seq<Line>, expr: Line, block: seq<Line>, after: seq<Line>)

  /** `- name:`, other keys, the rules. */
  datatype GroupDoc = GroupDoc(head: Line, keys: seq<Line>, rules: seq<RuleDoc>)

  // ---------- spelling ----------

  /** The kinds of line are told apart by how they begin, and in no other way. */
  lemma ClassifyExactly(text: string)
    ensures Classify(text).Group? <==> "- name:" <= text
    ensures Classify(text).Alert? <==> "- alert:" <= text
    ensures Classify(text).Record? <==> "- record:" <= text
    ensures Classify(text).Expr? <==> "expr:" <= text
    ensures Classify(text).Other? <==> !("-" <= text) && !("expr:" <= text)
  {
    Beginnings(text);
    BeginsAt("- name:", text, 0);
    BeginsAt("- name:", text, 2);
    BeginsAt("- alert:", text, 0);
    BeginsAt("- alert:", text, 2);
    BeginsAt("- record:", text, 0);
    BeginsAt("- record:", text, 2);
    BeginsAt("expr:", text, 0);
  }

  lemma Beginnings(text: string)
    ensures StartsWith(text, "- name:") <==> "- name:" <= text
    ensures StartsWith(text, "- alert:") <==> "- alert:" <= text
    ensures StartsWith(text, "- record:") <==> "- record:" <= text
    ensures StartsWith(text, "-") <==> "-" <= text
    ensures StartsWith(text, "expr:") <==> "expr:" <= text
  {
    StartsWithIs(text, "- name:");
    StartsWithIs(text, "- alert:");
    StartsWithIs(text, "- record:");
    StartsWithIs(text, "-");
    StartsWithIs(text, "expr:");
  }

  lemma BeginsAt(prefix: string, text: string, i: nat)
    requires i < |prefix|
    ensures prefix <= text ==> |text| > i && text[i] == prefix[i]
  {
  }

  lemma NameSpelled(title: string)
    ensures Classify("- name:" + title) == Group(Strip(title))
  {
    ClassifyExactly("- name:" + title);
    assert From("- name:" + title, |"- name:"|) == title;
  }

  lemma AlertSpelled(title: string)
    ensures Classify("- alert:" + title) == Alert(Strip(title))
  {
    ClassifyExactly("- alert:" + title);
    assert From("- alert:" + title, |"- alert:"|) == title;
  }

  lemma ExprSpelled(value: string)
    ensures Classify("expr:" + value) == Expr(Strip(value))
  {
    ClassifyExactly("expr:" + value);
    assert From("expr:" + value, |"expr:"|) == value;
  }

  // ---------- printing ----------

  function RuleLines(r: RuleDoc): seq<Line> {
    [r.head] + (r.before + ([r.expr] + (r.block + r.after)))
  }

  function RulesLines(rules: seq<RuleDoc>): seq<Line> {
    if rules == [] then [] else RuleLines(rules[0]) + RulesLines(rules[1..])
  }

  function GroupLines(g: GroupDoc): seq<Line> {
    [g.head] + (g.keys + RulesLines(g.rules))
  }

  function FileLines(groups: seq<GroupDoc>): seq<Line> {
    if groups == [] then [] else GroupLines(groups[0]) + FileLines(groups[1..])
  }

  // ---------- layout ----------

  predicate AllOther(keys: seq<Line>) { forall k :: 0 <= k < |keys| ==> keys[k].key.Other? }

  predicate Deeper(lines: seq<Line>, indent: nat) { forall k :: 0 <= k < |lines| ==> lines[k].indent > indent }

  predicate IsBlock(r: RuleDoc) { r.expr.key.Expr? && Folded(r.expr.key.value) }

  /** List items at most `depth` deep, `expr:` at least that; a block scalar is not empty, is deeper than its key,
      and ends where the indentation drops back. */
  predicate RuleLaidOut(r: RuleDoc, depth: nat) {
    && r.head.key.Alert? && r.expr.key.Expr? && r.expr.key.value != ""
    && r.head.indent <= depth <= r.expr.indent
    && AllOther(r.before) && AllOther(r.after)
    && if IsBlock(r) then
         && r.block != [] && Deeper(r.block, r.expr.indent)
         && (r.after != [] ==> r.after[0].indent <= r.expr.indent)
       else r.block == []
  }

  predicate RulesLaidOut(rules: seq<RuleDoc>, depth: nat) {
    forall k :: 0 <= k < |rules| ==> RuleLaidOut(rules[k], depth)
  }

  predicate FileLaidOut(groups: seq<GroupDoc>, depth: nat) {
    forall k :: 0 <= k < |groups| ==>
      && groups[k].head.key.Group? && groups[k].head.indent <= depth
      && AllOther(groups[k].keys) && RulesLaidOut(groups[k].rules, depth)
  }

  // ---------- what comes back ----------

  function Texts(lines: seq<Line>): (t: seq<string>)
    ensures |t| == |lines|
  {
    seq(|lines|, k requires 0 <= k < |lines| => lines[k].text)
  }

  function Expression(r: RuleDoc): string
    requires r.expr.key.Expr?
  {
    if IsBlock(r) then Join(Texts(r.block), " ") else r.expr.key.value
  }

  function BodyText(r: RuleDoc): seq<string> { if IsBlock(r) then Texts(r.block) else [r.expr.text] }

  function RuleText(r: RuleDoc): seq<string> {
    Texts(r.before) + BodyText(r) + Texts(r.after)
  }

  function Written(g: GroupDoc, r: RuleDoc): Rule
    requires g.head.key.Group? && r.head.key.Alert? && r.expr.key.Expr?
  {
    Rule(Some(g.head.key.name), r.head.key.name, Expression(r), Join(RuleText(r), "\n"))
  }

  function RulesWritten(g: GroupDoc, rules: seq<RuleDoc>, depth: nat): seq<Rule>
    requires g.head.key.Group? && RulesLaidOut(rules, depth)
  {
    if rules == [] then [] else [Written(g, rules[0])] + RulesWritten(g, rules[1..], depth)
  }

  function FileWritten(groups: seq<GroupDoc>, depth: nat): seq<Rule>
    requires FileLaidOut(groups, depth)
  {
    if groups == [] then [] else RulesWritten(groups[0], groups[0].rules, depth) + FileWritten(groups[1..], depth)
  }

  // ---------- strings ----------

  /** A line as the scanner reads it off the text. */
  predicate Read(line: Line) { Trimmed(line.text) && line.key == Classify(line.text) }

  predicate AllRead(lines: seq<Line>) { forall k :: 0 <= k < |lines| ==> Read(lines[k]) }

  lemma {:induction false} ContentRead(lines: seq<string>)
    ensures AllRead(Content(lines))
  {
    if lines != [] { ContentRead(lines[1..]); }
  }

  predicate AllTrimmed(lines: seq<Line>) { forall k :: 0 <= k < |lines| ==> Trimmed(lines[k].text) }

  lemma ReadTrimmed(lines: seq<Line>)
    requires AllRead(lines)
    ensures AllTrimmed(lines)
  {
    forall k | 0 <= k < |lines| ensures Trimmed(lines[k].text) { assert Read(lines[k]); }
  }

  lemma ExprTrimmed(line: Line)
    requires Read(line) && line.key.Expr? && line.key.value != ""
    ensures Strip(line.key.value) == line.key.value
  {
    StripTrimmed(line.key.value);
  }

  // ---------- running the scanner over a document ----------

  lemma {:induction false} ScanConcat(s: Scan, a: seq<Line>, b: seq<Line>)
    ensures ScanFrom(s, a + b) == ScanFrom(ScanFrom(s, a), b)
    decreases a
  {
    if a == [] {
      assert a + b == b;
    } else {
      assert (a + b)[1..] == a[1..] + b;
      ScanConcat(Step(s, a[0]), a[1..], b);
    }
  }

  /** Keys of a rule are kept for the template check, keys outside one are ignored. */
  lemma {:induction false} KeysRun(s: Scan, keys: seq<Line>)
    requires AllOther(keys)
    requires s.block.Some? && keys != [] ==> keys[0].indent <= s.block.value
    ensures var t := ScanFrom(s, keys);
      && (t.block == s.block || t.block.None?)
      && t == s.(block := t.block, text := if s.alert.Some? then s.text + Texts(keys) else s.text)
    decreases keys
  {
    if keys == [] {
      assert s.text + Texts(keys) == s.text;
    } else {
      var t := Step(s, keys[0]);
      KeysRun(t, keys[1..]);
      assert s.text + [keys[0].text] + Texts(keys[1..]) == s.text + Texts(keys);
    }
  }

  function Spaced(lines: seq<Line>): string {
    if lines == [] then "" else " " + lines[0].text + Spaced(lines[1..])
  }

  lemma {:induction false} BlockRun(s: Scan, lines: seq<Line>)
    requires s.block.Some? && s.expr.Some? && Deeper(lines, s.block.value)
    ensures ScanFrom(s, lines) == s.(expr := Some(s.expr.value + Spaced(lines)), text := s.text + Texts(lines))
    decreases lines
  {
    if lines == [] {
      assert s.text + Texts(lines) == s.text;
      assert s.expr.value + "" == s.expr.value;
    } else {
      var t := Step(s, lines[0]);
      BlockRun(t, lines[1..]);
      assert s.text + [lines[0].text] + Texts(lines[1..]) == s.text + Texts(lines);
      assert s.expr.value + " " + lines[0].text + Spaced(lines[1..]) == s.expr.value + Spaced(lines);
    }
  }

  lemma {:induction false} SpacedIsJoined(lines: seq<Line>)
    requires lines != [] && AllTrimmed(lines)
    ensures Spaced(lines) == " " + Join(Texts(lines), " ")
    ensures Trimmed(Join(Texts(lines), " "))
    decreases lines
  {
    var texts := Texts(lines);
    if |lines| == 1 {
      assert Spaced(lines) == " " + lines[0].text + "";
    } else {
      SpacedIsJoined(lines[1..]);
      assert texts[1..] == Texts(lines[1..]);
    }
  }

  /** Rules `done` are out or about to be, nothing is wrong, and an open block ends at any list item. */
  predicate Holds(s: Scan, done: seq<Rule>, depth: nat) {
    && Flush(s).rules == done && Flush(s).problems == []
    && (s.block.Some? ==> s.block.value >= depth)
  }

  lemma HeadRun(s: Scan, head: Line, done: seq<Rule>, depth: nat)
    requires Holds(s, done, depth) && head.indent <= depth
    ensures head.key.Alert? ==> Step(s, head) == Scan(s.group, Some(head.key.name), None, None, [], done, [])
    ensures head.key.Group? ==> Step(s, head) == Scan(Some(head.key.name), None, None, None, [], done, [])
  {
  }

  /** The expression as the scanner holds it, before it is stripped. */
  function Gathered(r: RuleDoc): string
    requires r.expr.key.Expr?
  {
    if IsBlock(r) then Spaced(r.block) else r.expr.key.value
  }

  lemma GatheredIsExpression(r: RuleDoc, depth: nat)
    requires RuleLaidOut(r, depth) && Read(r.expr) && AllRead(r.block)
    ensures Strip(Gathered(r)) == Expression(r) != ""
  {
    if IsBlock(r) {
      ReadTrimmed(r.block);
      SpacedIsJoined(r.block);
      StripTrimmed(Join(Texts(r.block), " "));
    } else {
      ExprTrimmed(r.expr);
    }
  }

  lemma PlainRun(s: Scan, expr: Line)
    requires expr.key.Expr? && !Folded(expr.key.value)
    requires s.alert.Some? && s.block.None?
    ensures ScanFrom(s, [expr]) == s.(expr := Some(expr.key.value), text := s.text + [expr.text])
  {
    assert [expr] == [expr] + [];
    ScanCons(s, expr, []);
  }

  lemma FoldedRun(s: Scan, expr: Line, block: seq<Line>)
    requires expr.key.Expr? && Folded(expr.key.value) && Deeper(block, expr.indent)
    requires s.alert.Some? && s.block.None?
    ensures ScanFrom(s, [expr] + block)
         == s.(block := Some(expr.indent), expr := Some(Spaced(block)), text := s.text + Texts(block))
  {
    ScanCons(s, expr, block);
    var t := s.(block := Some(expr.indent), expr := Some(""));
    assert Step(s, expr) == t;
    BlockRun(t, block);
    assert "" + Spaced(block) == Spaced(block);
  }

  lemma BodyRun(s: Scan, r: RuleDoc, depth: nat)
    requires RuleLaidOut(r, depth)
    requires s.alert.Some? && s.block.None?
    ensures ScanFrom(s, [r.expr] + r.block)
         == s.(block := if IsBlock(r) then Some(r.expr.indent) else None, expr := Some(Gathered(r)),
               text := s.text + BodyText(r))
  {
    if IsBlock(r) {
      FoldedRun(s, r.expr, r.block);
    } else {
      PlainRun(s, r.expr);
      assert [r.expr] + [] == [r.expr];
    }
  }

  /** The rule is in progress, with everything it was written with. */
  lemma RuleGathered(s: Scan, r: RuleDoc, depth: nat)
    requires RuleLaidOut(r, depth)
    requires s.alert.Some? && s.block.None? && s.text == []
    ensures var t := ScanFrom(s, r.before + ([r.expr] + (r.block + r.after)));
      && t == s.(block := t.block, expr := Some(Gathered(r)), text := RuleText(r))
      && (t.block.Some? ==> t.block.value >= depth)
  {
    var body := [r.expr] + r.block;
    assert [r.expr] + (r.block + r.after) == body + r.after;
    ScanConcat(s, r.before, body + r.after);
    KeysRun(s, r.before);
    var s2 := ScanFrom(s, r.before);
    assert s.text + Texts(r.before) == Texts(r.before);
    ScanConcat(s2, body, r.after);
    BodyRun(s2, r, depth);
    KeysRun(ScanFrom(s2, body), r.after);
  }

  lemma RuleBegun(s: Scan, r: RuleDoc, done: seq<Rule>, depth: nat)
    requires Holds(s, done, depth) && RuleLaidOut(r, depth)
    ensures var t := ScanFrom(s, RuleLines(r));
      && t == Scan(s.group, Some(r.head.key.name), Some(Gathered(r)), t.block, RuleText(r), done, [])
      && (t.block.Some? ==> t.block.value >= depth)
  {
    HeadRun(s, r.head, done, depth);
    ScanCons(s, r.head, r.before + ([r.expr] + (r.block + r.after)));
    RuleGathered(Step(s, r.head), r, depth);
  }

  lemma RuleFlushed(s: Scan)
    requires s.alert.Some? && s.expr.Some? && Strip(s.expr.value) != ""
    ensures Flush(s).rules == s.rules + [Rule(s.group, s.alert.value, Strip(s.expr.value), Join(s.text, "\n"))]
    ensures Flush(s).problems == s.problems
  {
  }

  lemma RuleRun(s: Scan, g: GroupDoc, r: RuleDoc, done: seq<Rule>, depth: nat)
    requires g.head.key.Group? && Holds(s, done, depth) && s.group == Some(g.head.key.name)
    requires RuleLaidOut(r, depth) && AllRead(RuleLines(r))
    ensures var t := ScanFrom(s, RuleLines(r));
      Holds(t, done + [Written(g, r)], depth) && t.group == s.group
  {
    RuleBegun(s, r, done, depth);
    assert Strip(Gathered(r)) == Expression(r) != "" by {
      RuleRead(r);
      GatheredIsExpression(r, depth);
    }
    RuleFlushed(ScanFrom(s, RuleLines(r)));
  }

  lemma ReadParts(a: seq<Line>, b: seq<Line>)
    requires AllRead(a + b)
    ensures AllRead(a) && AllRead(b)
  {
    forall k | 0 <= k < |a| ensures Read(a[k]) { assert a[k] == (a + b)[k]; }
    forall k | 0 <= k < |b| ensures Read(b[k]) { assert b[k] == (a + b)[|a| + k]; }
  }

  lemma RuleRead(r: RuleDoc)
    requires AllRead(RuleLines(r))
    ensures Read(r.expr) && AllRead(r.block)
  {
    ReadParts([r.head], r.before + ([r.expr] + (r.block + r.after)));
    ReadParts(r.before, [r.expr] + (r.block + r.after));
    ReadParts([r.expr], r.block + r.after);
    ReadParts(r.block, r.after);
    assert Read([r.expr][0]);
  }

  lemma {:induction false} RulesRun(s: Scan, g: GroupDoc, rules: seq<RuleDoc>, done: seq<Rule>, depth: nat)
    requires g.head.key.Group? && Holds(s, done, depth) && s.group == Some(g.head.key.name)
    requires RulesLaidOut(rules, depth) && AllRead(RulesLines(rules))
    ensures Holds(ScanFrom(s, RulesLines(rules)), done + RulesWritten(g, rules, depth), depth)
    decreases rules
  {
    if rules == [] {
      assert done + [] == done;
    } else {
      ReadParts(RuleLines(rules[0]), RulesLines(rules[1..]));
      RuleRun(s, g, rules[0], done, depth);
      ScanConcat(s, RuleLines(rules[0]), RulesLines(rules[1..]));
      RulesRun(ScanFrom(s, RuleLines(rules[0])), g, rules[1..], done + [Written(g, rules[0])], depth);
      Assoc(done, [Written(g, rules[0])], RulesWritten(g, rules[1..], depth));
    }
  }

  lemma GroupRun(s: Scan, g: GroupDoc, done: seq<Rule>, depth: nat)
    requires Holds(s, done, depth) && g.head.key.Group? && g.head.indent <= depth && AllOther(g.keys)
    requires RulesLaidOut(g.rules, depth) && AllRead(RulesLines(g.rules))
    ensures Holds(ScanFrom(s, GroupLines(g)), done + RulesWritten(g, g.rules, depth), depth)
  {
    HeadRun(s, g.head, done, depth);
    ScanCons(s, g.head, g.keys + RulesLines(g.rules));
    var s1 := Scan(Some(g.head.key.name), None, None, None, [], done, []);
    ScanConcat(s1, g.keys, RulesLines(g.rules));
    KeysRun(s1, g.keys);
    RulesRun(ScanFrom(s1, g.keys), g, g.rules, done, depth);
  }

  lemma {:induction false} FileRun(s: Scan, groups: seq<GroupDoc>, done: seq<Rule>, depth: nat)
    requires Holds(s, done, depth)
    requires FileLaidOut(groups, depth) && AllRead(FileLines(groups))
    ensures Holds(ScanFrom(s, FileLines(groups)), done + FileWritten(groups, depth), depth)
    decreases groups
  {
    if groups == [] {
      assert done + [] == done;
    } else {
      var g := groups[0];
      ReadParts(GroupLines(g), FileLines(groups[1..]));
      ReadParts([g.head], g.keys + RulesLines(g.rules));
      ReadParts(g.keys, RulesLines(g.rules));
      GroupRun(s, g, done, depth);
      ScanConcat(s, GroupLines(g), FileLines(groups[1..]));
      FileRun(ScanFrom(s, GroupLines(g)), groups[1..], done + RulesWritten(g, g.rules, depth), depth);
      Assoc(done, RulesWritten(g, g.rules, depth), FileWritten(groups[1..], depth));
    }
  }

  lemma DocumentRun(preamble: seq<Line>, groups: seq<GroupDoc>, depth: nat)
    requires AllOther(preamble) && FileLaidOut(groups, depth) && AllRead(FileLines(groups))
    ensures Holds(ScanFrom(START, preamble + FileLines(groups)), FileWritten(groups, depth), depth)
  {
    ScanConcat(START, preamble, FileLines(groups));
    KeysRun(START, preamble);
    FileRun(ScanFrom(START, preamble), groups, [], depth);
    assert [] + FileWritten(groups, depth) == FileWritten(groups, depth);
  }

  lemma DocumentRead(lines: seq<string>, preamble: seq<Line>, groups: seq<GroupDoc>)
    requires Content(lines) == preamble + FileLines(groups)
    ensures AllRead(FileLines(groups))
  {
    ContentRead(lines);
    ReadParts(preamble, FileLines(groups));
  }

  /** Any text whose lines, comments and blank lines aside, are the printed form of some keys and groups comes back
      as exactly the rules of those groups, in order, with no problem. */
  lemma RoundTrip(lines: seq<string>, preamble: seq<Line>, groups: seq<GroupDoc>, depth: nat)
    requires Content(lines) == preamble + FileLines(groups)
    requires AllOther(preamble) && FileLaidOut(groups, depth)
    ensures var end := Flush(ScanFrom(START, Content(lines)));
      end.rules == FileWritten(groups, depth) && end.problems == []
  {
    DocumentRead(lines, preamble, groups);
    DocumentRun(preamble, groups, depth);
  }
}

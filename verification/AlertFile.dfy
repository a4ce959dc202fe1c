/**
 The alert file as text: groups and rules are written out line by line in the file's hand-written shape, and read
 back from it.
 */
module AlertFile {
  import opened Text
  import opened AlertRules
  import opened AlertRoundTrip

  // ---------- the values ----------

  /** Another key of a group or a rule, or a line of a block scalar, `extra` deeper than its level. */
  datatype Note = Note(extra: nat, text: string)

  datatype Expr = OnLine(value: string) | Below(marker: string, lines: seq<Note>)

  datatype RuleValue = RuleValue(alert: string, before: seq<Note>, expr: Expr, after: seq<Note>)

  datatype GroupValue = GroupValue(name: string, keys: seq<Note>, rules: seq<RuleValue>)

  /** How deep groups, rules, their keys and block scalars are indented. */
  datatype Layout = Layout(group: nat, alert: nat, key: nat, block: nat)

  predicate Nested(l: Layout) { l.group <= l.alert <= l.key < l.block }

  /** A text that is neither blank nor a comment, with no space around it. */
  predicate Clean(text: string) { Trimmed(text) && text[0] != '#' }

  predicate CleanNotes(notes: seq<Note>) {
    forall n <- notes :: Clean(n.text) && Classify(n.text).Other?
  }

  predicate CleanRule(r: RuleValue) {
    && Trimmed(r.alert) && CleanNotes(r.before) && CleanNotes(r.after)
    && match r.expr
       case OnLine(value) => Trimmed(value) && !Folded(value)
       case Below(marker, lines) =>
         && Folded(marker) && lines != [] && (forall n <- lines :: Clean(n.text))
         && (r.after != [] ==> r.after[0].extra == 0)
  }

  predicate CleanGroup(g: GroupValue) {
    Trimmed(g.name) && CleanNotes(g.keys) && forall r <- g.rules :: CleanRule(r)
  }

  // ---------- writing ----------

  /** One line to be written. */
  datatype Row = Row(indent: nat, text: string)

  function Spaces(n: nat): (s: string)
    ensures |s| == n
  {
    if n == 0 then "" else " " + Spaces(n - 1)
  }

  function WriteRows(rows: seq<Row>): seq<string> {
    if rows == [] then [] else [Spaces(rows[0].indent) + rows[0].text] + WriteRows(rows[1..])
  }

  function NoteRows(notes: seq<Note>, level: nat): seq<Row> {
    if notes == [] then [] else [Row(level + notes[0].extra, notes[0].text)] + NoteRows(notes[1..], level)
  }

  function NameText(name: string): string { "- name:" + (" " + name) }

  function AlertText(alert: string): string { "- alert:" + (" " + alert) }

  function ExprText(value: string): string { "expr:" + (" " + value) }

  function ExprHead(e: Expr): string { if e.OnLine? then e.value else e.marker }

  function ExprRow(l: Layout, e: Expr): Row {
    Row(l.key, ExprText(ExprHead(e)))
  }

  function BelowRows(l: Layout, e: Expr): seq<Row> {
    if e.OnLine? then [] else NoteRows(e.lines, l.block)
  }

  function RuleRows(l: Layout, r: RuleValue): seq<Row> {
    [Row(l.alert, AlertText(r.alert))]
    + (NoteRows(r.before, l.key) + ([ExprRow(l, r.expr)] + (BelowRows(l, r.expr) + NoteRows(r.after, l.key))))
  }

  function RulesRows(l: Layout, rules: seq<RuleValue>): seq<Row> {
    if rules == [] then [] else RuleRows(l, rules[0]) + RulesRows(l, rules[1..])
  }

  function GroupRows(l: Layout, g: GroupValue): seq<Row> {
    [Row(l.group, NameText(g.name))] + (NoteRows(g.keys, l.group) + RulesRows(l, g.rules))
  }

  function FileRows(l: Layout, groups: seq<GroupValue>): seq<Row> {
    if groups == [] then [] else GroupRows(l, groups[0]) + FileRows(l, groups[1..])
  }

  /** The lines of a file: keys of its own, then the groups. */
  function WriteFile(l: Layout, preamble: seq<Note>, groups: seq<GroupValue>): seq<string> {
    WriteRows(NoteRows(preamble, 0) + FileRows(l, groups))
  }

  // ---------- what is to come back ----------

  function NoteTexts(notes: seq<Note>): seq<string> {
    if notes == [] then [] else [notes[0].text] + NoteTexts(notes[1..])
  }

  function ExprValue(e: Expr): string {
    match e case OnLine(value) => value case Below(_, lines) => Join(NoteTexts(lines), " ")
  }

  function ExprTexts(e: Expr): seq<string> {
    match e case OnLine(value) => [ExprText(value)] case Below(_, lines) => NoteTexts(lines)
  }

  function RuleOf(group: string, r: RuleValue): Rule {
    Rule(Some(group), r.alert, ExprValue(r.expr),
         Join(NoteTexts(r.before) + ExprTexts(r.expr) + NoteTexts(r.after), "\n"))
  }

  function RulesOf(group: string, rules: seq<RuleValue>): seq<Rule> {
    if rules == [] then [] else [RuleOf(group, rules[0])] + RulesOf(group, rules[1..])
  }

  function AllRules(groups: seq<GroupValue>): seq<Rule> {
    if groups == [] then [] else RulesOf(groups[0].name, groups[0].rules) + AllRules(groups[1..])
  }

  // ---------- the document the rows stand for ----------

  function RowLine(r: Row): Line { LineAt(r.indent, r.text) }

  function RowLines(rows: seq<Row>): seq<Line> {
    if rows == [] then [] else [RowLine(rows[0])] + RowLines(rows[1..])
  }

  function DocOf(l: Layout, r: RuleValue): RuleDoc {
    RuleDoc(RowLine(Row(l.alert, AlertText(r.alert))), RowLines(NoteRows(r.before, l.key)),
            RowLine(ExprRow(l, r.expr)), RowLines(BelowRows(l, r.expr)), RowLines(NoteRows(r.after, l.key)))
  }

  function DocsOf(l: Layout, rules: seq<RuleValue>): seq<RuleDoc> {
    if rules == [] then [] else [DocOf(l, rules[0])] + DocsOf(l, rules[1..])
  }

  function GroupDocOf(l: Layout, g: GroupValue): GroupDoc {
    GroupDoc(RowLine(Row(l.group, NameText(g.name))), RowLines(NoteRows(g.keys, l.group)), DocsOf(l, g.rules))
  }

  function GroupDocsOf(l: Layout, groups: seq<GroupValue>): seq<GroupDoc> {
    if groups == [] then [] else [GroupDocOf(l, groups[0])] + GroupDocsOf(l, groups[1..])
  }

  lemma {:induction false} RowLinesConcat(a: seq<Row>, b: seq<Row>)
    ensures RowLines(a + b) == RowLines(a) + RowLines(b)
    decreases a
  {
    if a == [] {
      assert a + b == b;
    } else {
      assert (a + b)[1..] == a[1..] + b;
      RowLinesConcat(a[1..], b);
      Assoc([RowLine(a[0])], RowLines(a[1..]), RowLines(b));
    }
  }

  lemma RowLinesCons(r: Row, rest: seq<Row>)
    ensures RowLines([r] + rest) == [RowLine(r)] + RowLines(rest)
  {
    assert ([r] + rest)[1..] == rest;
  }

  lemma RuleRowLines(l: Layout, r: RuleValue)
    ensures RowLines(RuleRows(l, r)) == RuleLines(DocOf(l, r))
  {
    var before, after := NoteRows(r.before, l.key), NoteRows(r.after, l.key);
    var expr, below := ExprRow(l, r.expr), BelowRows(l, r.expr);
    RowLinesConcat(below, after);
    RowLinesCons(expr, below + after);
    RowLinesConcat(before, [expr] + (below + after));
    RowLinesCons(Row(l.alert, AlertText(r.alert)), before + ([expr] + (below + after)));
  }

  lemma {:induction false} RulesRowLines(l: Layout, rules: seq<RuleValue>)
    ensures RowLines(RulesRows(l, rules)) == RulesLines(DocsOf(l, rules))
    decreases rules
  {
    if rules != [] {
      RuleRowLines(l, rules[0]);
      RulesRowLines(l, rules[1..]);
      RowLinesConcat(RuleRows(l, rules[0]), RulesRows(l, rules[1..]));
      assert DocsOf(l, rules)[1..] == DocsOf(l, rules[1..]);
    }
  }

  lemma {:induction false} FileRowLines(l: Layout, groups: seq<GroupValue>)
    ensures RowLines(FileRows(l, groups)) == FileLines(GroupDocsOf(l, groups))
    decreases groups
  {
    if groups != [] {
      var g := groups[0];
      RulesRowLines(l, g.rules);
      RowLinesConcat(NoteRows(g.keys, l.group), RulesRows(l, g.rules));
      RowLinesCons(Row(l.group, NameText(g.name)), NoteRows(g.keys, l.group) + RulesRows(l, g.rules));
      FileRowLines(l, groups[1..]);
      RowLinesConcat(GroupRows(l, g), FileRows(l, groups[1..]));
      assert GroupDocsOf(l, groups)[1..] == GroupDocsOf(l, groups[1..]);
    }
  }

  // ---------- what is written is read ----------

  predicate CleanRows(rows: seq<Row>) {
    rows == [] || (Clean(rows[0].text) && CleanRows(rows[1..]))
  }

  lemma {:induction false} CleanConcat(a: seq<Row>, b: seq<Row>)
    requires CleanRows(a) && CleanRows(b)
    ensures CleanRows(a + b)
    decreases a
  {
    if a == [] {
      assert a + b == b;
    } else {
      assert (a + b)[1..] == a[1..] + b;
      CleanConcat(a[1..], b);
    }
  }

  lemma LStripSpace(rest: string)
    ensures LStrip(" " + rest) == LStrip(rest)
  {
    assert (" " + rest)[1..] == rest;
  }

  lemma {:induction false} Indented(n: nat, text: string)
    requires text != "" && !IsSpace(text[0])
    ensures LStrip(Spaces(n) + text) == text
    decreases n
  {
    if n == 0 {
      assert "" + text == text;
    } else {
      Assoc(" ", Spaces(n - 1), text);
      LStripSpace(Spaces(n - 1) + text);
      Indented(n - 1, text);
    }
  }

  lemma RowIndent(r: Row)
    requires Trimmed(r.text)
    ensures var raw := Spaces(r.indent) + r.text; Indent(raw) == r.indent && Strip(raw) == r.text
  {
    Indented(r.indent, r.text);
    assert Strip(r.text) == r.text by { StripTrimmed(r.text); }
    assert LStrip(r.text) == r.text;
  }

  lemma RowKept(r: Row)
    requires Clean(r.text)
    ensures !Skipped(Spaces(r.indent) + r.text)
  {
    Indented(r.indent, r.text);
    RowIndent(r);
  }

  lemma {:induction false} RowsRead(rows: seq<Row>)
    requires CleanRows(rows)
    ensures Content(WriteRows(rows)) == RowLines(rows)
    decreases rows
  {
    if rows != [] {
      var raw := Spaces(rows[0].indent) + rows[0].text;
      RowIndent(rows[0]);
      RowKept(rows[0]);
      RowsRead(rows[1..]);
      ContentCons(raw, WriteRows(rows[1..]));
    }
  }

  lemma ContentCons(raw: string, rest: seq<string>)
    ensures Content([raw] + rest)
         == (if Skipped(raw) then [] else [LineAt(Indent(raw), Strip(raw))]) + Content(rest)
  {
    assert ([raw] + rest)[1..] == rest;
  }

  /** The lines of a file other than comments and blank lines. */
  function Uncommented(file: seq<string>): seq<string> {
    if file == [] then [] else (if Skipped(file[0]) then [] else [file[0]]) + Uncommented(file[1..])
  }

  lemma {:induction false} UncommentedRead(file: seq<string>)
    ensures Content(Uncommented(file)) == Content(file)
    decreases file
  {
    if file != [] {
      var rest := Uncommented(file[1..]);
      UncommentedRead(file[1..]);
      assert file == [file[0]] + file[1..];
      ContentCons(file[0], file[1..]);
      if Skipped(file[0]) { SkippedFirst(file); } else { ContentCons(file[0], rest); }
    }
  }

  lemma SkippedFirst(file: seq<string>)
    requires file != [] && Skipped(file[0])
    ensures Uncommented(file) == Uncommented(file[1..])
  {
  }

  // ---------- the rows are laid out, and stand for the values ----------

  lemma {:induction false} NotesAreKeys(notes: seq<Note>, level: nat)
    requires CleanNotes(notes)
    ensures CleanRows(NoteRows(notes, level)) && AllOther(RowLines(NoteRows(notes, level)))
    ensures Texts(RowLines(NoteRows(notes, level))) == NoteTexts(notes)
    decreases notes
  {
    if notes != [] {
      var rows := NoteRows(notes, level);
      assert notes[0] in notes;
      assert rows[1..] == NoteRows(notes[1..], level);
      NotesAreKeys(notes[1..], level);
      TextsCons(RowLine(rows[0]), RowLines(rows[1..]));
      OtherCons(RowLine(rows[0]), RowLines(rows[1..]));
    }
  }

  lemma TextsCons(line: Line, rest: seq<Line>)
    ensures Texts([line] + rest) == [line.text] + Texts(rest)
  {
  }

  lemma OtherCons(line: Line, rest: seq<Line>)
    requires line.key.Other? && AllOther(rest)
    ensures AllOther([line] + rest)
  {
  }

  lemma DeeperCons(line: Line, rest: seq<Line>, indent: nat)
    requires line.indent > indent && Deeper(rest, indent)
    ensures Deeper([line] + rest, indent)
  {
  }

  lemma {:induction false} BlockIsDeeper(lines: seq<Note>, level: nat, indent: nat)
    requires (forall n <- lines :: Clean(n.text)) && level > indent
    ensures CleanRows(NoteRows(lines, level)) && Deeper(RowLines(NoteRows(lines, level)), indent)
    ensures Texts(RowLines(NoteRows(lines, level))) == NoteTexts(lines)
    decreases lines
  {
    if lines != [] {
      var rows := NoteRows(lines, level);
      assert lines[0] in lines;
      assert rows[1..] == NoteRows(lines[1..], level);
      BlockIsDeeper(lines[1..], level, indent);
      TextsCons(RowLine(rows[0]), RowLines(rows[1..]));
      DeeperCons(RowLine(rows[0]), RowLines(rows[1..]), indent);
    }
  }

  lemma HeadClean(key: string, value: string)
    requires key != "" && !IsSpace(key[0]) && key[0] != '#' && Trimmed(value)
    ensures Clean(key + (" " + value))
  {
    var text := key + (" " + value);
    assert text[0] == key[0] && text[|text| - 1] == value[|value| - 1];
  }

  lemma NameKey(name: string)
    requires Trimmed(name)
    ensures Clean(NameText(name)) && Classify(NameText(name)) == Group(name)
  {
    HeadClean("- name:", name);
    NameSpelled(" " + name);
    StripTrimmed(name);
  }

  lemma AlertKey(alert: string)
    requires Trimmed(alert)
    ensures Clean(AlertText(alert)) && Classify(AlertText(alert)) == Alert(alert)
  {
    HeadClean("- alert:", alert);
    AlertSpelled(" " + alert);
    StripTrimmed(alert);
  }

  lemma ExprKey(value: string)
    requires Trimmed(value)
    ensures Clean(ExprText(value)) && Classify(ExprText(value)) == AlertRules.Expr(value)
  {
    HeadClean("expr:", value);
    ExprSpelled(" " + value);
    StripTrimmed(value);
  }

  lemma BelowLaidOut(l: Layout, r: RuleValue)
    requires Nested(l) && CleanRule(r) && r.expr.Below?
    ensures var d := DocOf(l, r);
      && d.block != [] && Deeper(d.block, l.key) && Texts(d.block) == NoteTexts(r.expr.lines)
      && (d.after != [] ==> d.after[0].indent <= l.key)
    ensures CleanRows(BelowRows(l, r.expr))
  {
    BlockIsDeeper(r.expr.lines, l.block, l.key);
  }

  /** What is known of the document of a rule. */
  predicate Stands(l: Layout, r: RuleValue, d: RuleDoc) {
    && d.head.key == Alert(r.alert) && d.head.indent == l.alert
    && d.expr.key == AlertRules.Expr(ExprHead(r.expr)) && d.expr.indent == l.key
    && d.expr.text == ExprText(ExprHead(r.expr))
    && AllOther(d.before) && AllOther(d.after)
    && Texts(d.before) == NoteTexts(r.before) && Texts(d.after) == NoteTexts(r.after)
    && if r.expr.OnLine? then d.block == []
       else
         && d.block != [] && Deeper(d.block, l.key) && Texts(d.block) == NoteTexts(r.expr.lines)
         && (d.after != [] ==> d.after[0].indent <= l.key)
  }

  lemma FoldedIsTrimmed(marker: string)
    requires Folded(marker)
    ensures Trimmed(marker)
  {
    assert !IsSpace('|') && !IsSpace('>') && !IsSpace('-') && !IsSpace('+');
  }

  lemma ExprHeadTrimmed(r: RuleValue)
    requires CleanRule(r)
    ensures Trimmed(ExprHead(r.expr))
  {
    if r.expr.Below? { FoldedIsTrimmed(r.expr.marker); }
  }

  lemma HeadsStand(l: Layout, r: RuleValue)
    requires Trimmed(r.alert) && Trimmed(ExprHead(r.expr))
    ensures DocOf(l, r).head.key == Alert(r.alert)
    ensures DocOf(l, r).expr.key == AlertRules.Expr(ExprHead(r.expr))
  {
    assert DocOf(l, r).head.key == Alert(r.alert) by { AlertKey(r.alert); }
    assert DocOf(l, r).expr.key == AlertRules.Expr(ExprHead(r.expr)) by { ExprKey(ExprHead(r.expr)); }
  }

  lemma DocStands(l: Layout, r: RuleValue)
    requires Nested(l) && CleanRule(r)
    ensures Stands(l, r, DocOf(l, r))
  {
    ExprHeadTrimmed(r);
    HeadsStand(l, r);
    NotesAreKeys(r.before, l.key);
    NotesAreKeys(r.after, l.key);
    if r.expr.Below? { BelowLaidOut(l, r); }
  }

  lemma RuleIsLaidOut(l: Layout, r: RuleValue, d: RuleDoc)
    requires Nested(l) && CleanRule(r) && Stands(l, r, d)
    ensures RuleLaidOut(d, l.alert)
  {
  }

  lemma RuleIsWritten(l: Layout, group: GroupDoc, name: string, r: RuleValue, d: RuleDoc)
    requires CleanRule(r) && Stands(l, r, d) && group.head.key == Group(name)
    ensures Written(group, d) == RuleOf(name, r)
  {
  }

  lemma RuleIsClean(l: Layout, r: RuleValue)
    requires Nested(l) && CleanRule(r)
    ensures CleanRows(RuleRows(l, r))
  {
    HeadRowsClean(l, r);
    NotesAreKeys(r.before, l.key);
    NotesAreKeys(r.after, l.key);
    if r.expr.Below? { BelowLaidOut(l, r); }
    RuleRowsClean(Row(l.alert, AlertText(r.alert)), NoteRows(r.before, l.key), ExprRow(l, r.expr),
                  BelowRows(l, r.expr), NoteRows(r.after, l.key));
  }

  lemma HeadRowsClean(l: Layout, r: RuleValue)
    requires CleanRule(r)
    ensures Clean(AlertText(r.alert)) && Clean(ExprRow(l, r.expr).text)
  {
    ExprHeadTrimmed(r);
    HeadClean("- alert:", r.alert);
    HeadClean("expr:", ExprHead(r.expr));
  }

  lemma RuleRowsClean(head: Row, before: seq<Row>, expr: Row, below: seq<Row>, after: seq<Row>)
    requires Clean(head.text) && Clean(expr.text) && CleanRows(before) && CleanRows(below) && CleanRows(after)
    ensures CleanRows([head] + (before + ([expr] + (below + after))))
  {
    CleanConcat(below, after);
    CleanCons(expr, below + after);
    CleanConcat(before, [expr] + (below + after));
    CleanCons(head, before + ([expr] + (below + after)));
  }

  lemma CleanCons(r: Row, rest: seq<Row>)
    requires Clean(r.text) && CleanRows(rest)
    ensures CleanRows([r] + rest)
  {
    assert ([r] + rest)[1..] == rest;
  }

  lemma {:induction false} RulesAreWritten(l: Layout, group: GroupDoc, name: string, rules: seq<RuleValue>)
    requires Nested(l) && (forall r <- rules :: CleanRule(r)) && group.head.key == Group(name)
    ensures CleanRows(RulesRows(l, rules)) && RulesLaidOut(DocsOf(l, rules), l.alert)
    ensures RulesWritten(group, DocsOf(l, rules), l.alert) == RulesOf(name, rules)
    decreases rules
  {
    if rules != [] {
      var r := rules[0];
      assert r in rules;
      RuleIsClean(l, r);
      DocStands(l, r);
      RuleIsLaidOut(l, r, DocOf(l, r));
      RuleIsWritten(l, group, name, r, DocOf(l, r));
      RulesAreWritten(l, group, name, rules[1..]);
      CleanConcat(RuleRows(l, r), RulesRows(l, rules[1..]));
      assert DocsOf(l, rules)[1..] == DocsOf(l, rules[1..]);
    }
  }

  /** What is known of the document of a group. */
  predicate GroupStands(l: Layout, g: GroupValue, d: GroupDoc) {
    && d.head.key == Group(g.name) && d.head.indent <= l.alert && AllOther(d.keys) && RulesLaidOut(d.rules, l.alert)
    && RulesWritten(d, d.rules, l.alert) == RulesOf(g.name, g.rules)
  }

  lemma GroupIsWritten(l: Layout, g: GroupValue)
    requires Nested(l) && CleanGroup(g)
    ensures CleanRows(GroupRows(l, g)) && GroupStands(l, g, GroupDocOf(l, g))
  {
    NameKey(g.name);
    NotesAreKeys(g.keys, l.group);
    RulesAreWritten(l, GroupDocOf(l, g), g.name, g.rules);
    CleanConcat(NoteRows(g.keys, l.group), RulesRows(l, g.rules));
    CleanCons(Row(l.group, NameText(g.name)), NoteRows(g.keys, l.group) + RulesRows(l, g.rules));
  }

  lemma GroupFirst(l: Layout, g: GroupValue, d: GroupDoc, rest: seq<GroupDoc>)
    requires GroupStands(l, g, d) && FileLaidOut(rest, l.alert)
    ensures FileLaidOut([d] + rest, l.alert)
    ensures FileWritten([d] + rest, l.alert) == RulesOf(g.name, g.rules) + FileWritten(rest, l.alert)
  {
    assert ([d] + rest)[1..] == rest;
  }

  lemma {:induction false} GroupsAreWritten(l: Layout, groups: seq<GroupValue>)
    requires Nested(l) && forall g <- groups :: CleanGroup(g)
    ensures CleanRows(FileRows(l, groups)) && FileLaidOut(GroupDocsOf(l, groups), l.alert)
    ensures FileWritten(GroupDocsOf(l, groups), l.alert) == AllRules(groups)
    decreases groups
  {
    if groups != [] {
      assert groups[0] in groups;
      GroupIsWritten(l, groups[0]);
      GroupsAreWritten(l, groups[1..]);
      CleanConcat(GroupRows(l, groups[0]), FileRows(l, groups[1..]));
      GroupFirst(l, groups[0], GroupDocOf(l, groups[0]), GroupDocsOf(l, groups[1..]));
    }
  }

  /** What is written is read back: for any groups and rules, any file that is their text with comments and blank
      lines interspersed comes back as exactly their (group, alert, expression) triples in order, each with its rule
      text, and with no problem. */
  lemma ReadsBack(file: seq<string>, l: Layout, preamble: seq<Note>, groups: seq<GroupValue>)
    requires Nested(l) && CleanNotes(preamble) && forall g <- groups :: CleanGroup(g)
    requires Uncommented(file) == WriteFile(l, preamble, groups)
    ensures var end := Flush(ScanFrom(START, Content(file)));
      end.rules == AllRules(groups) && end.problems == []
  {
    var rows := NoteRows(preamble, 0) + FileRows(l, groups);
    NotesAreKeys(preamble, 0);
    GroupsAreWritten(l, groups);
    CleanConcat(NoteRows(preamble, 0), FileRows(l, groups));
    RowsRead(rows);
    UncommentedRead(file);
    RowLinesConcat(NoteRows(preamble, 0), FileRows(l, groups));
    FileRowLines(l, groups);
    RoundTrip(file, RowLines(NoteRows(preamble, 0)), GroupDocsOf(l, groups), l.alert);
  }

  // ---------- the file as one text ----------

  /** Every line followed by a line feed. */
  function Unlines(lines: seq<string>): string {
    if lines == [] then "" else lines[0] + ("\n" + Unlines(lines[1..]))
  }

  predicate Unbroken(s: string) { s == "" || (!IsBreak(s[0]) && Unbroken(s[1..])) }

  predicate AllUnbroken(lines: seq<string>) {
    lines == [] || (Unbroken(lines[0]) && AllUnbroken(lines[1..]))
  }

  lemma {:induction false} LineEnds(line: string, rest: string)
    requires Unbroken(line) && rest != "" && rest[0] == '\n'
    ensures LineLength(line + rest) == |line|
    decreases line
  {
    var s := line + rest;
    if line != "" {
      assert s[0] == line[0] && s[1..] == line[1..] + rest;
      LineEnds(line[1..], rest);
    }
  }

  lemma SplitAt(s: string, n: nat)
    requires n < |s| && LineLength(s) == n && s[n] == '\n'
    ensures SplitLines(s) == [s[..n]] + SplitLines(From(s, n + 1))
  {
  }

  lemma SplitFirst(line: string, rest: string)
    requires Unbroken(line)
    ensures SplitLines(line + ("\n" + rest)) == [line] + SplitLines(rest)
  {
    var s, n := line + ("\n" + rest), |line|;
    assert s[..n] == line && s[n] == '\n' && From(s, n + 1) == rest;
    LineEnds(line, "\n" + rest);
    SplitAt(s, n);
  }

  lemma {:induction false} SplitUnlines(lines: seq<string>)
    requires AllUnbroken(lines)
    ensures SplitLines(Unlines(lines)) == lines
    decreases lines
  {
    if lines != [] {
      SplitFirst(lines[0], Unlines(lines[1..]));
      SplitUnlines(lines[1..]);
    }
  }

  /** The text of a file comes back as its groups and rules, with comments and blank lines interspersed. */
  lemma TextReadsBack(file: seq<string>, l: Layout, preamble: seq<Note>, groups: seq<GroupValue>)
    requires Nested(l) && CleanNotes(preamble) && forall g <- groups :: CleanGroup(g)
    requires AllUnbroken(file) && Uncommented(file) == WriteFile(l, preamble, groups)
    ensures var end := Flush(ScanFrom(START, Content(SplitLines(Unlines(file)))));
      end.rules == AllRules(groups) && end.problems == []
  {
    SplitUnlines(file);
    ReadsBack(file, l, preamble, groups);
  }
}

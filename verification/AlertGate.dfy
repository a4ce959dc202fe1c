/**
 The cross-check of scripts/check-alerts.py: how many alerts a pattern search finds in the text of a file, against
 the rules the scanner read from it.
 */
module AlertGate {
  import opened Text
  import opened AlertRules
  import opened AlertRoundTrip
  import opened AlertFile

  // ---------- the alerts the pattern finds ----------

  lemma {:induction false} RestOfLine(u: string, more: string)
    requires Unbroken(u)
    ensures Declared(false, u + ("\n" + more)) == Declared(true, more)
    decreases u
  {
    var s := u + ("\n" + more);
    if u == "" {
      assert s == "\n" + more && s[1..] == more;
    } else {
      assert s[1..] == u[1..] + ("\n" + more);
      RestOfLine(u[1..], more);
    }
  }

  lemma {:induction false} WordThen(word: string, rest: string)
    requires Unbroken(word) && rest != "" && IsSpace(rest[0])
    ensures DropWord(word + rest) == DropWord(word) + rest && Unbroken(DropWord(word))
    decreases word
  {
    if word == "" {
      assert word + rest == rest && DropWord(word) + rest == rest;
    } else {
      assert (word + rest)[1..] == word[1..] + rest;
      if !IsSpace(word[0]) { WordThen(word[1..], rest); }
    }
  }

  /** A text that cannot run over its line to spell `prefix` starts with it or not on its own. */
  lemma {:induction false} StartsWithin(text: string, rest: string, prefix: string)
    requires rest != "" && rest[0] !in prefix
    ensures StartsWith(text + rest, prefix) <==> StartsWith(text, prefix)
    decreases text
  {
    if text == "" {
      assert text + rest == rest;
      if prefix != "" { assert prefix[0] in prefix; }
    } else if prefix != "" {
      assert (text + rest)[1..] == text[1..] + rest;
      StartsWithin(text[1..], rest, prefix[1..]);
    }
  }

  lemma {:induction false} LStripWithin(text: string, rest: string)
    requires LStrip(text) != ""
    ensures LStrip(text + rest) == LStrip(text) + rest
    decreases text
  {
    if IsSpace(text[0]) {
      assert (text + rest)[1..] == text[1..] + rest;
      LStripWithin(text[1..], rest);
    }
  }

  lemma {:induction false} LStripBlank(text: string, rest: string)
    requires LStrip(text) == ""
    ensures LStrip(text + rest) == LStrip(rest)
    decreases text
  {
    if text == "" {
      assert text + rest == rest;
    } else {
      assert (text + rest)[1..] == text[1..] + rest;
      LStripBlank(text[1..], rest);
    }
  }

  lemma FromWithin(text: string, rest: string, n: nat)
    requires n <= |text|
    ensures From(text + rest, n) == From(text, n) + rest
  {
    assert (text + rest)[n..] == text[n..] + rest;
  }

  /** What is left of a line once its indentation and the dash of a list item are gone. */
  function KeyPart(line: string): string {
    var item := LStrip(line);
    if StartsWith(item, "-") then LStrip(From(item, 1)) else item
  }

  /** The key of the line stands alone: a dash by itself, or `alert:` with no value. The pattern would go on to the
      lines below. */
  predicate Alone(line: string) {
    || (StartsWith(LStrip(line), "-") && KeyPart(line) == "")
    || (StartsWith(KeyPart(line), "alert:") && LStrip(From(KeyPart(line), |"alert:"|)) == "")
  }

  lemma KeyPartWithin(line: string, rest: string)
    requires LStrip(line) != "" && !Alone(line) && rest != "" && rest[0] == '\n'
    ensures KeyPart(line + rest) == KeyPart(line) + rest
  {
    var item := LStrip(line);
    LStripWithin(line, rest);
    StartsWithin(item, rest, "-");
    if StartsWith(item, "-") {
      FromWithin(item, rest, 1);
      LStripWithin(From(item, 1), rest);
    }
  }

  lemma NameWithin(key: string, rest: string)
    requires StartsWith(key, "alert:") && LStrip(From(key, |"alert:"|)) != "" && Unbroken(key)
    requires rest != "" && rest[0] == '\n'
    ensures LStrip(From(key + rest, |"alert:"|)) == LStrip(From(key, |"alert:"|)) + rest
    ensures Unbroken(LStrip(From(key, |"alert:"|)))
  {
    StartsWithIs(key, "alert:");
    FromWithin(key, rest, |"alert:"|);
    LStripWithin(From(key, |"alert:"|), rest);
    UnbrokenFrom(key, |"alert:"|);
    UnbrokenLStrip(From(key, |"alert:"|));
  }

  lemma {:induction false} UnbrokenFrom(s: string, n: nat)
    requires Unbroken(s)
    ensures Unbroken(From(s, n))
    decreases n
  {
    if 0 < n <= |s| {
      UnbrokenFrom(s[1..], n - 1);
      assert s[1..][n - 1..] == s[n..];
    }
  }

  lemma {:induction false} UnbrokenLStrip(s: string)
    requires Unbroken(s)
    ensures Unbroken(LStrip(s))
    decreases s
  {
    if s != "" && IsSpace(s[0]) { UnbrokenLStrip(s[1..]); }
  }

  lemma KeyPartUnbroken(line: string)
    requires Unbroken(line)
    ensures Unbroken(KeyPart(line))
  {
    UnbrokenLStrip(line);
    UnbrokenFrom(LStrip(line), 1);
    UnbrokenLStrip(From(LStrip(line), 1));
  }

  /** In a line that is not blank and whose key does not stand alone, the pattern matches within the line or not. */
  lemma MatchWithin(line: string, rest: string)
    requires Unbroken(line) && LStrip(line) != "" && !Alone(line) && rest != "" && rest[0] == '\n'
    ensures match KeyMatch(line)
      case Some(left) => KeyMatch(line + rest) == Some(left + rest) && Unbroken(left)
      case None => KeyMatch(line + rest) == None
  {
    var key := KeyPart(line);
    KeyPartWithin(line, rest);
    StartsWithin(key, rest, "alert:");
    if StartsWith(key, "alert:") {
      KeyPartUnbroken(line);
      NameWithin(key, rest);
      WordThen(LStrip(From(key, |"alert:"|)), rest);
    }
  }

  lemma SkipsLine(line: string, more: string)
    requires Unbroken(line) && KeyMatch(line + ("\n" + more)) == None
    ensures Declared(true, line + ("\n" + more)) == Declared(true, more)
  {
    var s := line + ("\n" + more);
    if line == "" {
      assert s == "\n" + more && s[1..] == more;
    } else {
      assert s[0] == line[0] && s[1..] == line[1..] + ("\n" + more);
      RestOfLine(line[1..], more);
    }
  }

  /** A blank line adds nothing: what the pattern finds from it on it would find from the next line on. */
  lemma BlankDeclares(line: string, more: string)
    requires Unbroken(line) && LStrip(line) == ""
    ensures Declared(true, line + ("\n" + more)) == Declared(true, more)
  {
    var s := line + ("\n" + more);
    LStripBlank(line, "\n" + more);
    assert ("\n" + more)[1..] == more;
    assert LStrip(s) == LStrip(more);
    if KeyMatch(s) == None { SkipsLine(line, more); }
  }

  lemma LineDeclares(line: string, more: string)
    requires Unbroken(line) && !Alone(line)
    ensures Declared(true, line + ("\n" + more))
         == (if KeyMatch(line).Some? then 1 else 0) + Declared(true, more)
  {
    if LStrip(line) == "" {
      BlankDeclares(line, more);
    } else {
      MatchWithin(line, "\n" + more);
      match KeyMatch(line)
      case Some(left) => RestOfLine(left, more);
      case None => SkipsLine(line, more);
    }
  }

  /** The lines the pattern matches by themselves. */
  function Matches(file: seq<string>): nat {
    if file == [] then 0 else (if KeyMatch(file[0]).Some? then 1 else 0) + Matches(file[1..])
  }

  predicate NoneAlone(file: seq<string>) {
    file == [] || (!Alone(file[0]) && NoneAlone(file[1..]))
  }

  /** Where no key stands alone, the search over the whole text finds exactly the lines the pattern matches. */
  lemma {:induction false} LineByLine(file: seq<string>)
    requires AllUnbroken(file) && NoneAlone(file)
    ensures Declared(true, Unlines(file)) == Matches(file)
    decreases file
  {
    if file != [] {
      LineDeclares(file[0], Unlines(file[1..]));
      LineByLine(file[1..]);
    }
  }

  lemma Dashed(key: string)
    requires key != "" && !IsSpace(key[0])
    ensures StartsWith("-" + (" " + key), "-") && LStrip(From("-" + (" " + key), 1)) == key
  {
    assert ("-" + (" " + key))[1..] == " " + key;
    LStripSpace(key);
  }

  lemma Keyed(key: string, name: string)
    requires name != "" && !IsSpace(name[0])
    ensures StartsWith(key + (" " + name), key) && LStrip(From(key + (" " + name), |key|)) == name
  {
    StartsWithIs(key + (" " + name), key);
    assert From(key + (" " + name), |key|) == " " + name;
    LStripSpace(name);
  }

  // ---------- alert by alert ----------


  /** One line of a file, read by the scanner. */
  function StepRaw(s: Scan, raw: string): Scan {
    if Skipped(raw) then s else Step(s, LineAt(Indent(raw), Strip(raw)))
  }

  /** The scanner begins a rule at the line. */
  predicate BegunAt(s: Scan, raw: string) {
    !Skipped(raw) && HeadsAt(s, LineAt(Indent(raw), Strip(raw))) != []
  }

  /** The scanner begins a rule at every line the pattern matches. */
  predicate AllBegun(s: Scan, file: seq<string>)
    decreases file
  {
    file == []
    || ((KeyMatch(file[0]).Some? ==> BegunAt(s, file[0])) && AllBegun(StepRaw(s, file[0]), file[1..]))
  }

  lemma {:induction false} RStripWithin(s: string)
    ensures RStrip(s) <= s
    decreases s
  {
    if s != "" && IsSpace(s[|s| - 1]) { RStripWithin(s[..|s| - 1]); }
  }

  lemma BeginsIsMatched(s: Scan, raw: string)
    requires BegunAt(s, raw) && !Alone(raw)
    ensures KeyMatch(raw).Some?
  {
    var item, text := LStrip(raw), Strip(raw);
    ClassifyExactly(text);
    RStripWithin(item);
    assert "- alert:" <= item;
    ItemIsKey(item);
  }

  lemma ItemIsKey(item: string)
    requires "- alert:" <= item
    ensures StartsWith(item, "-") && StartsWith(LStrip(From(item, 1)), "alert:")
  {
    var rest := item[|"- alert:"|..];
    assert item == "- alert:" + rest;
    assert "- alert:" == "-" + (" " + "alert:");
    Regroup("-", " ", "alert:", rest);
    Dashed("alert:" + rest);
    StartsWithIs("alert:" + rest, "alert:");
  }

  /** The scanner begins rules at matched lines only, and at all of them exactly when the two numbers agree. */
  lemma {:induction false} BegunAmongMatches(s: Scan, file: seq<string>)
    requires NoneAlone(file)
    ensures |HeadsFrom(s, Content(file))| <= Matches(file)
    ensures |HeadsFrom(s, Content(file))| == Matches(file) <==> AllBegun(s, file)
    decreases file
  {
    if file != [] {
      var raw, rest := file[0], file[1..];
      BegunAmongMatches(StepRaw(s, raw), rest);
      HeadsOfFirst(s, raw, rest);
      assert file == [raw] + rest;
      if BegunAt(s, raw) { BeginsIsMatched(s, raw); }
    }
  }

  lemma HeadsOfFirst(s: Scan, raw: string, rest: seq<string>)
    ensures |HeadsFrom(s, Content([raw] + rest))|
         == (if BegunAt(s, raw) then 1 else 0) + |HeadsFrom(StepRaw(s, raw), Content(rest))|
  {
    ContentCons(raw, rest);
    if Skipped(raw) {
      assert [] + Content(rest) == Content(rest);
    } else {
      var line := LineAt(Indent(raw), Strip(raw));
      assert ([line] + Content(rest))[1..] == Content(rest);
    }
  }

  /** Alert by alert: on a file in which no key stands alone, the gate opens exactly when the pattern matches some
      line, every line it matches begins a rule, all rules begun came back in order with their expressions, and no
      line was beyond the scanner. */
  lemma GateAlertByAlert(file: seq<string>)
    requires AllUnbroken(file) && NoneAlone(file)
    ensures var text := Unlines(file);
      var lines := Content(SplitLines(text));
      var end := Flush(ScanFrom(START, lines));
      GateOpens(Declared(true, text), end.rules, end.problems)
      <==> && Matches(file) > 0 && AllBegun(START, file)
           && RuleHeads(end.rules) == HeadsFrom(START, lines)
           && StraysFrom(START, lines) == []
  {
    SplitUnlines(file);
    LineByLine(file);
    BegunAmongMatches(START, file);
    GateExactly(Unlines(file));
  }

  // ---------- the gate on files that are written ----------

  /** The text spells an alert key or could go on to: the pattern may find an alert in such a line. */
  predicate Declares(text: string) {
    StartsWith(text, "alert:") || (StartsWith(text, "-") && StartsWith(LStrip(From(text, 1)), "alert:"))
  }

  /** The row spells an alert, or nothing the pattern could take for one. */
  predicate Telling(r: Row, alert: Option<string>) {
    && Trimmed(r.text) && Unbroken(r.text)
    && match alert
       case Some(name) => Trimmed(name) && Unbroken(name) && r.text == AlertText(name)
       case None => !Declares(r.text) && r.text != "-"
  }

  lemma {:induction false} SpacesUnbroken(n: nat, text: string)
    requires Unbroken(text)
    ensures Unbroken(Spaces(n) + text)
    decreases n
  {
    if n == 0 {
      assert "" + text == text;
    } else {
      Assoc(" ", Spaces(n - 1), text);
      assert (" " + (Spaces(n - 1) + text))[1..] == Spaces(n - 1) + text;
      SpacesUnbroken(n - 1, text);
    }
  }

  lemma {:induction false} LStripNonblank(s: string)
    requires s != "" && !IsSpace(s[|s| - 1])
    ensures LStrip(s) != ""
    decreases s
  {
    if IsSpace(s[0]) { LStripNonblank(s[1..]); }
  }

  lemma QuietRow(r: Row)
    requires Telling(r, None)
    ensures var line := Spaces(r.indent) + r.text; KeyMatch(line) == None && !Alone(line)
  {
    Indented(r.indent, r.text);
    StartsWithIs(r.text, "-");
    if StartsWith(r.text, "-") { LStripNonblank(From(r.text, 1)); }
  }

  lemma AlertParts(alert: string)
    ensures AlertText(alert) == "-" + (" " + ("alert:" + (" " + alert)))
  {
    assert "- alert:" == "-" + (" " + "alert:");
    Regroup("-", " ", "alert:", " " + alert);
  }

  lemma AlertRow(r: Row, alert: string)
    requires Telling(r, Some(alert))
    ensures var line := Spaces(r.indent) + r.text; KeyMatch(line).Some? && !Alone(line)
  {
    Indented(r.indent, r.text);
    AlertParts(alert);
    Dashed("alert:" + (" " + alert));
    Keyed("alert:", alert);
  }

  /** The rows, with the alerts they spell. */
  predicate AllTelling(rows: seq<Row>, alerts: seq<Option<string>>)
    requires |rows| == |alerts|
  {
    rows == [] || (Telling(rows[0], alerts[0]) && AllTelling(rows[1..], alerts[1..]))
  }

  function Spelled(alerts: seq<Option<string>>): nat {
    if alerts == [] then 0 else (if alerts[0].Some? then 1 else 0) + Spelled(alerts[1..])
  }

  lemma {:induction false} RowsMatch(rows: seq<Row>, alerts: seq<Option<string>>)
    requires |rows| == |alerts| && AllTelling(rows, alerts)
    ensures Matches(WriteRows(rows)) == Spelled(alerts) && NoneAlone(WriteRows(rows))
    decreases rows
  {
    if rows != [] {
      RowsMatch(rows[1..], alerts[1..]);
      var lines := WriteRows(rows);
      assert lines[0] == Spaces(rows[0].indent) + rows[0].text && lines[1..] == WriteRows(rows[1..]);
      if alerts[0].Some? { AlertRow(rows[0], alerts[0].value); } else { QuietRow(rows[0]); }
    }
  }

  lemma SkippedIsQuiet(raw: string)
    requires Skipped(raw)
    ensures KeyMatch(raw) == None && !Alone(raw)
  {
    var item := LStrip(raw);
    if item != "" {
      RStripKeeps(item);
      assert item[0] == '#';
    }
  }

  lemma {:induction false} RStripKeeps(s: string)
    requires s != "" && !IsSpace(s[0])
    ensures RStrip(s) != ""
    decreases s
  {
    if IsSpace(s[|s| - 1]) { RStripKeeps(s[..|s| - 1]); }
  }

  /** Comments and blank lines change nothing. */
  lemma {:induction false} UncommentedMatches(file: seq<string>)
    ensures Matches(Uncommented(file)) == Matches(file) && (NoneAlone(Uncommented(file)) <==> NoneAlone(file))
    decreases file
  {
    if file != [] {
      UncommentedMatches(file[1..]);
      if Skipped(file[0]) {
        SkippedFirst(file);
        SkippedIsQuiet(file[0]);
      } else {
        assert Uncommented(file)[0] == file[0] && Uncommented(file)[1..] == Uncommented(file[1..]);
      }
    }
  }

  /** A text that stays on its line and that the pattern does not take for an alert. */
  predicate Quiet(text: string) { Unbroken(text) && !Declares(text) && text != "-" }

  predicate QuietNotes(notes: seq<Note>) { forall n <- notes :: Quiet(n.text) }

  predicate QuietRule(r: RuleValue) {
    && Unbroken(r.alert) && QuietNotes(r.before) && QuietNotes(r.after) && Unbroken(ExprHead(r.expr))
    && (r.expr.Below? ==> forall n <- r.expr.lines :: Quiet(n.text))
  }

  predicate QuietGroup(g: GroupValue) {
    Unbroken(g.name) && QuietNotes(g.keys) && forall r <- g.rules :: QuietRule(r)
  }

  /** Rows that spell `n` alerts. */
  ghost predicate Spell(rows: seq<Row>, n: nat) {
    exists alerts :: |alerts| == |rows| && AllTelling(rows, alerts) && Spelled(alerts) == n
  }

  lemma SpellNothing()
    ensures Spell([], 0)
  {
    assert AllTelling([], []) && Spelled([]) == 0;
  }

  lemma SpellCons(r: Row, alert: Option<string>, rows: seq<Row>, n: nat)
    requires Telling(r, alert) && Spell(rows, n)
    ensures Spell([r] + rows, (if alert.Some? then 1 else 0) + n)
  {
    var alerts :| |alerts| == |rows| && AllTelling(rows, alerts) && Spelled(alerts) == n;
    var all := [alert] + alerts;
    assert all[1..] == alerts && ([r] + rows)[1..] == rows;
    assert AllTelling([r] + rows, all) && Spelled(all) == (if alert.Some? then 1 else 0) + n;
  }

  lemma SpellFirst(rows: seq<Row>, n: nat) returns (alert: Option<string>, rest: nat)
    requires rows != [] && Spell(rows, n)
    ensures Telling(rows[0], alert) && Spell(rows[1..], rest) && n == (if alert.Some? then 1 else 0) + rest
  {
    var alerts :| |alerts| == |rows| && AllTelling(rows, alerts) && Spelled(alerts) == n;
    alert, rest := alerts[0], Spelled(alerts[1..]);
    assert |alerts[1..]| == |rows[1..]| && AllTelling(rows[1..], alerts[1..]);
  }

  lemma {:induction false} SpellConcat(a: seq<Row>, m: nat, b: seq<Row>, n: nat)
    requires Spell(a, m) && Spell(b, n)
    ensures Spell(a + b, m + n)
    decreases a
  {
    if a == [] {
      assert a + b == b;
      SpellEmpty(a, m);
    } else {
      var alert, rest := SpellFirst(a, m);
      SpellConcat(a[1..], rest, b, n);
      SpellCons(a[0], alert, a[1..] + b, rest + n);
      assert a + b == [a[0]] + (a[1..] + b);
    }
  }

  lemma SpellEmpty(rows: seq<Row>, n: nat)
    requires rows == [] && Spell(rows, n)
    ensures n == 0
  {
  }

  lemma {:induction false} NotesSpell(notes: seq<Note>, level: nat)
    requires CleanNotes(notes) && QuietNotes(notes)
    ensures Spell(NoteRows(notes, level), 0)
    decreases notes
  {
    if notes == [] {
      SpellNothing();
    } else {
      assert notes[0] in notes;
      NotesSpell(notes[1..], level);
      SpellCons(Row(level + notes[0].extra, notes[0].text), None, NoteRows(notes[1..], level), 0);
    }
  }

  lemma {:induction false} BlockSpells(lines: seq<Note>, level: nat)
    requires forall n <- lines :: Clean(n.text) && Quiet(n.text)
    ensures Spell(NoteRows(lines, level), 0)
    decreases lines
  {
    if lines == [] {
      SpellNothing();
    } else {
      assert lines[0] in lines;
      BlockSpells(lines[1..], level);
      SpellCons(Row(level + lines[0].extra, lines[0].text), None, NoteRows(lines[1..], level), 0);
    }
  }

  lemma {:induction false} UnbrokenConcat(a: string, b: string)
    requires Unbroken(a) && Unbroken(b)
    ensures Unbroken(a + b)
    decreases a
  {
    if a == [] {
      assert a + b == b;
    } else {
      assert (a + b)[1..] == a[1..] + b;
      UnbrokenConcat(a[1..], b);
    }
  }

  /** A key that is neither an alert's nor could become one is quiet, whatever its value. */
  lemma KeyQuiet(key: string, value: string)
    requires |key| > 2 && key[0] == 'e' && Unbroken(key) && Unbroken(value)
    ensures Quiet(key + (" " + value))
  {
    var text := key + (" " + value);
    assert text[0] == 'e';
    UnbrokenConcat(" ", value);
    UnbrokenConcat(key, " " + value);
  }

  lemma NameParts(name: string)
    ensures NameText(name) == "-" + (" " + ("name:" + (" " + name)))
  {
    assert "- name:" == "-" + (" " + "name:");
    Regroup("-", " ", "name:", " " + name);
  }

  lemma DashedQuiet(key: string)
    requires key != "" && !IsSpace(key[0]) && key[0] != 'a'
    ensures !Declares("-" + (" " + key))
  {
    Dashed(key);
  }

  lemma NameQuiet(name: string)
    requires Unbroken(name)
    ensures Quiet(NameText(name))
  {
    assert !Declares(NameText(name)) by {
      NameParts(name);
      DashedQuiet("name:" + (" " + name));
    }
    PrefixesUnbroken();
    UnbrokenConcat(" ", name);
    UnbrokenConcat("- name:", " " + name);
  }

  lemma PrefixesUnbroken()
    ensures Unbroken("- name:") && Unbroken("- alert:") && Unbroken("expr:")
  {
    assert forall c <- "- name:" + "- alert:" + "expr:" :: !IsBreak(c);
    AllUnbrokenChars("- name:");
    AllUnbrokenChars("- alert:");
    AllUnbrokenChars("expr:");
  }

  lemma {:induction false} AllUnbrokenChars(s: string)
    requires forall c <- s :: !IsBreak(c)
    ensures Unbroken(s)
    decreases s
  {
    if s != "" { AllUnbrokenChars(s[1..]); }
  }

  lemma AlertTells(level: nat, alert: string)
    requires Trimmed(alert) && Unbroken(alert)
    ensures Telling(Row(level, AlertText(alert)), Some(alert))
  {
    HeadClean("- alert:", alert);
    PrefixesUnbroken();
    UnbrokenConcat(" ", alert);
    UnbrokenConcat("- alert:", " " + alert);
  }

  lemma ExprTells(l: Layout, r: RuleValue)
    requires CleanRule(r) && QuietRule(r)
    ensures Telling(ExprRow(l, r.expr), None)
  {
    HeadRowsClean(l, r);
    PrefixesUnbroken();
    KeyQuiet("expr:", ExprHead(r.expr));
  }

  lemma BelowSpells(l: Layout, r: RuleValue)
    requires CleanRule(r) && QuietRule(r)
    ensures Spell(BelowRows(l, r.expr), 0)
  {
    if r.expr.Below? { BlockSpells(r.expr.lines, l.block); } else { SpellNothing(); }
  }

  lemma RuleSpells(l: Layout, r: RuleValue)
    requires CleanRule(r) && QuietRule(r)
    ensures Spell(RuleRows(l, r), 1)
  {
    var before, below, after := NoteRows(r.before, l.key), BelowRows(l, r.expr), NoteRows(r.after, l.key);
    NotesSpell(r.before, l.key);
    NotesSpell(r.after, l.key);
    BelowSpells(l, r);
    ExprTells(l, r);
    AlertTells(l.alert, r.alert);
    RowsSpell(Row(l.alert, AlertText(r.alert)), Some(r.alert), before, ExprRow(l, r.expr), below, after);
  }

  lemma RowsSpell(head: Row, alert: Option<string>, before: seq<Row>, expr: Row, below: seq<Row>, after: seq<Row>)
    requires Telling(head, alert) && alert.Some? && Telling(expr, None)
    requires Spell(before, 0) && Spell(below, 0) && Spell(after, 0)
    ensures Spell([head] + (before + ([expr] + (below + after))), 1)
  {
    SpellConcat(below, 0, after, 0);
    SpellCons(expr, None, below + after, 0);
    SpellConcat(before, 0, [expr] + (below + after), 0);
    SpellCons(head, alert, before + ([expr] + (below + after)), 0);
  }

  lemma {:induction false} RulesSpell(l: Layout, rules: seq<RuleValue>)
    requires forall r <- rules :: CleanRule(r) && QuietRule(r)
    ensures Spell(RulesRows(l, rules), |rules|)
    decreases rules
  {
    if rules == [] {
      SpellNothing();
    } else {
      assert rules[0] in rules;
      RuleSpells(l, rules[0]);
      RulesSpell(l, rules[1..]);
      SpellConcat(RuleRows(l, rules[0]), 1, RulesRows(l, rules[1..]), |rules| - 1);
    }
  }

  lemma GroupSpells(l: Layout, g: GroupValue)
    requires CleanGroup(g) && QuietGroup(g)
    ensures Spell(GroupRows(l, g), |g.rules|)
  {
    var keys, rules := NoteRows(g.keys, l.group), RulesRows(l, g.rules);
    NotesSpell(g.keys, l.group);
    RulesSpell(l, g.rules);
    SpellConcat(keys, 0, rules, |g.rules|);
    NameTells(l.group, g.name);
    SpellCons(Row(l.group, NameText(g.name)), None, keys + rules, |g.rules|);
  }

  lemma NameTells(level: nat, name: string)
    requires Trimmed(name) && Unbroken(name)
    ensures Telling(Row(level, NameText(name)), None)
  {
    NameKey(name);
    NameQuiet(name);
  }

  lemma {:induction false} RulesOfLength(group: string, rules: seq<RuleValue>)
    ensures |RulesOf(group, rules)| == |rules|
    decreases rules
  {
    if rules != [] { RulesOfLength(group, rules[1..]); }
  }

  lemma {:induction false} FileSpells(l: Layout, groups: seq<GroupValue>)
    requires forall g <- groups :: CleanGroup(g) && QuietGroup(g)
    ensures Spell(FileRows(l, groups), |AllRules(groups)|)
    decreases groups
  {
    if groups == [] {
      SpellNothing();
    } else {
      var g := groups[0];
      assert g in groups;
      GroupSpells(l, g);
      RulesOfLength(g.name, g.rules);
      FileSpells(l, groups[1..]);
      SpellConcat(GroupRows(l, g), |g.rules|, FileRows(l, groups[1..]), |AllRules(groups[1..])|);
    }
  }

  /** The rows of a file. */
  function AllRows(l: Layout, preamble: seq<Note>, groups: seq<GroupValue>): seq<Row> {
    NoteRows(preamble, 0) + FileRows(l, groups)
  }

  lemma AllRowsSpell(l: Layout, preamble: seq<Note>, groups: seq<GroupValue>)
    requires Nested(l) && CleanNotes(preamble) && forall g <- groups :: CleanGroup(g)
    requires QuietNotes(preamble) && forall g <- groups :: QuietGroup(g)
    ensures Spell(AllRows(l, preamble, groups), |AllRules(groups)|) && CleanRows(AllRows(l, preamble, groups))
  {
    NotesSpell(preamble, 0);
    FileSpells(l, groups);
    SpellConcat(NoteRows(preamble, 0), 0, FileRows(l, groups), |AllRules(groups)|);
    NotesAreKeys(preamble, 0);
    GroupsAreWritten(l, groups);
    CleanConcat(NoteRows(preamble, 0), FileRows(l, groups));
  }

  /** A file whose lines, comments and blank lines aside, are rows that spell `n` alerts: the pattern finds `n`. */
  lemma SpellDeclares(file: seq<string>, rows: seq<Row>, n: nat)
    requires AllUnbroken(file) && Uncommented(file) == WriteRows(rows) && Spell(rows, n)
    ensures Matches(file) == n && NoneAlone(file) && Declared(true, Unlines(file)) == n
  {
    var alerts :| |alerts| == |rows| && AllTelling(rows, alerts) && Spelled(alerts) == n;
    RowsMatch(rows, alerts);
    UncommentedMatches(file);
    LineByLine(file);
  }

  /** The gate opens on every file that is written from at least one rule, with comments and blank lines interspersed,
      commented-out rules among them: read back it holds exactly those rules, and the pattern search finds as many
      alerts in the text. */
  lemma GateOpensOnFile(file: seq<string>, l: Layout, preamble: seq<Note>, groups: seq<GroupValue>)
    requires Nested(l) && CleanNotes(preamble) && forall g <- groups :: CleanGroup(g)
    requires QuietNotes(preamble) && (forall g <- groups :: QuietGroup(g)) && AllRules(groups) != []
    requires AllUnbroken(file) && Uncommented(file) == WriteFile(l, preamble, groups)
    ensures var text := Unlines(file);
      var end := Flush(ScanFrom(START, Content(SplitLines(text))));
      GateOpens(Declared(true, text), end.rules, end.problems) && end.rules == AllRules(groups)
  {
    AllRowsSpell(l, preamble, groups);
    SpellDeclares(file, AllRows(l, preamble, groups), |AllRules(groups)|);
    TextReadsBack(file, l, preamble, groups);
  }
}

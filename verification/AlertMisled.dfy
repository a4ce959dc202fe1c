/**
 The cross-check of scripts/check-alerts.py compares two counts. Here is a family of files on which they agree and the
 gate opens, though the pattern search and the scanner do not mean the same alerts.
 */
module AlertMisled {
  import opened Text
  import opened AlertRules
  import opened AlertRoundTrip
  import opened AlertFile
  import opened AlertGate

  /** A rule whose block scalar ends in an alert key with no value, and a rule after it. */
  function MisleadingRules(a: string, u: string, b: string, d: string): seq<RuleValue> {
    [RuleValue(a, [], Below("|", [Note(0, u), Note(0, "- alert:")]), []), RuleValue(b, [], OnLine(d), [])]
  }

  const FLAT := Layout(0, 0, 1, 2)

  function MisleadingRows(g: string, a: string, u: string, b: string, d: string): seq<Row> {
    [Row(0, NameText(g)), Row(0, AlertText(a)), Row(1, ExprText("|")), Row(2, u), Row(2, "- alert:"),
     Row(0, AlertText(b)), Row(1, ExprText(d))]
  }

  lemma MisleadingWritten(g: string, a: string, u: string, b: string, d: string)
    ensures AllRows(FLAT, [], [GroupValue(g, [], MisleadingRules(a, u, b, d))]) == MisleadingRows(g, a, u, b, d)
  {
    var rules := MisleadingRules(a, u, b, d);
    var groups := [GroupValue(g, [], rules)];
    BlockOfTwo(u, "- alert:", 2);
    assert RuleRows(FLAT, rules[0])
        == [Row(0, AlertText(a)), Row(1, ExprText("|")), Row(2, u), Row(2, "- alert:")];
    assert RuleRows(FLAT, rules[1]) == [Row(0, AlertText(b)), Row(1, ExprText(d))];
    assert rules[1..][1..] == [] && groups[1..] == [];
    assert RulesRows(FLAT, rules[1..]) == RuleRows(FLAT, rules[1]) + [];
    assert RulesRows(FLAT, rules) == RuleRows(FLAT, rules[0]) + RuleRows(FLAT, rules[1]);
    assert FileRows(FLAT, groups) == GroupRows(FLAT, groups[0]) + [];
  }

  lemma BlockOfTwo(t: string, u: string, level: nat)
    ensures NoteRows([Note(0, t), Note(0, u)], level) == [Row(level, t), Row(level, u)]
  {
    var lines := [Note(0, t), Note(0, u)];
    assert lines[1..] == [Note(0, u)] && lines[1..][1..] == [];
    assert NoteRows(lines[1..], level) == [Row(level, u)] + [];
  }

  /** The match at a key with no value goes on to the next line and takes its dash for the value. */
  lemma LoneKeyTakesDash(indent: nat, b: string, more: string)
    requires Unbroken(b)
    ensures var next := AlertText(b) + ("\n" + more);
      Declared(true, Spaces(indent) + "- alert:" + ("\n" + next)) == 1 + Declared(true, more)
  {
    var left := " alert:" + (" " + b);
    LoneKeyMatch(indent, AlertText(b) + ("\n" + more));
    DashDropped(b, "\n" + more);
    PrefixesUnbroken();
    UnbrokenFrom("- alert:", 1);
    UnbrokenConcat(" ", b);
    UnbrokenConcat(" alert:", " " + b);
    RestOfLine(left, more);
  }

  lemma LoneParts(tail: string)
    ensures "- alert:" + tail == "-" + (" " + ("alert:" + tail))
  {
    assert "- alert:" == "-" + (" " + "alert:");
    Regroup("-", " ", "alert:", tail);
  }

  lemma LoneKeyMatch(indent: nat, next: string)
    requires next != "" && !IsSpace(next[0])
    ensures KeyMatch(Spaces(indent) + "- alert:" + ("\n" + next)) == Some(DropWord(next))
  {
    var tail := "\n" + next;
    var text := Spaces(indent) + "- alert:" + tail;
    LoneParts(tail);
    Assoc(Spaces(indent), "- alert:", tail);
    Indented(indent, "-" + (" " + ("alert:" + tail)));
    BreakStrips("alert:", next);
    KeyMatchIs(text, "alert:" + tail, next);
  }

  lemma KeyMatchIs(text: string, key: string, name: string)
    requires LStrip(text) == "-" + (" " + key) && key != "" && !IsSpace(key[0])
    requires StartsWith(key, "alert:") && LStrip(From(key, |"alert:"|)) == name != ""
    ensures KeyMatch(text) == Some(DropWord(name))
  {
    Dashed(key);
  }

  lemma BreakStrips(key: string, next: string)
    requires next != "" && !IsSpace(next[0])
    ensures StartsWith(key + ("\n" + next), key) && LStrip(From(key + ("\n" + next), |key|)) == next
  {
    var tail := "\n" + next;
    StartsWithIs(key + tail, key);
    assert From(key + tail, |key|) == tail && tail[1..] == next;
  }

  lemma MisleadingDeclares(rows: seq<Row>, a: string, b: string)
    requires |rows| == 7 && rows[4] == Row(2, "- alert:") && rows[5] == Row(0, AlertText(b)) && Unbroken(b)
    requires Telling(rows[0], None) && Telling(rows[1], Some(a)) && Telling(rows[2], None)
    requires Telling(rows[3], None) && Telling(rows[6], None)
    ensures Declared(true, Unlines(WriteRows(rows))) == 2
  {
    var last := Unlines(WriteRows(rows[6..]));
    RowDeclares(rows, 6, None);
    assert rows[7..] == [];
    assert Declared(true, last) == 0;
    assert Declared(true, Unlines(WriteRows(rows[4..]))) == 1 by {
      RowsFrom(rows, 5);
      RowsFrom(rows, 4);
      assert Spaces(0) + AlertText(b) == AlertText(b);
      LoneKeyTakesDash(2, b, last);
    }
    FourRowsDeclare(rows, a);
  }

  lemma FourRowsDeclare(rows: seq<Row>, a: string)
    requires |rows| > 4 && Telling(rows[0], None) && Telling(rows[1], Some(a)) && Telling(rows[2], None)
    requires Telling(rows[3], None)
    ensures Declared(true, Unlines(WriteRows(rows))) == 1 + Declared(true, Unlines(WriteRows(rows[4..])))
  {
    RowDeclares(rows, 3, None);
    RowDeclares(rows, 2, None);
    RowDeclares(rows, 1, Some(a));
    RowDeclares(rows, 0, None);
    assert rows[0..] == rows;
  }

  lemma RowsFrom(rows: seq<Row>, i: nat)
    requires i < |rows|
    ensures Unlines(WriteRows(rows[i..]))
         == Spaces(rows[i].indent) + rows[i].text + ("\n" + Unlines(WriteRows(rows[i + 1..])))
  {
    assert rows[i..][1..] == rows[i + 1..];
    var lines := WriteRows(rows[i..]);
    assert lines[0] == Spaces(rows[i].indent) + rows[i].text && lines[1..] == WriteRows(rows[i + 1..]);
  }

  lemma RowDeclares(rows: seq<Row>, i: nat, alert: Option<string>)
    requires i < |rows| && Telling(rows[i], alert)
    ensures Declared(true, Unlines(WriteRows(rows[i..])))
         == (if alert.Some? then 1 else 0) + Declared(true, Unlines(WriteRows(rows[i + 1..])))
  {
    RowsFrom(rows, i);
    SpacesUnbroken(rows[i].indent, rows[i].text);
    if alert.Some? { AlertRow(rows[i], alert.value); } else { QuietRow(rows[i]); }
    LineDeclares(Spaces(rows[i].indent) + rows[i].text, Unlines(WriteRows(rows[i + 1..])));
  }

  lemma ExprTextTells(level: nat, value: string)
    requires Trimmed(value) && Unbroken(value)
    ensures Telling(Row(level, ExprText(value)), None)
  {
    HeadClean("expr:", value);
    PrefixesUnbroken();
    KeyQuiet("expr:", value);
  }

  lemma MarkerTells(level: nat)
    ensures Telling(Row(level, ExprText("|")), None)
  {
    assert !IsBreak('|') && !IsSpace('|');
    AllUnbrokenChars("|");
    ExprTextTells(level, "|");
  }

  predicate UnbrokenRows(rows: seq<Row>) {
    rows == [] || (Unbroken(rows[0].text) && UnbrokenRows(rows[1..]))
  }

  lemma {:induction false} RowsKept(rows: seq<Row>)
    requires CleanRows(rows) && UnbrokenRows(rows)
    ensures AllUnbroken(WriteRows(rows)) && Uncommented(WriteRows(rows)) == WriteRows(rows)
    decreases rows
  {
    if rows != [] {
      var lines := WriteRows(rows);
      SpacesUnbroken(rows[0].indent, rows[0].text);
      RowKept(rows[0]);
      RowsKept(rows[1..]);
      assert lines[1..] == WriteRows(rows[1..]);
    }
  }

  lemma {:induction false} WriteRowsFrom(rows: seq<Row>, i: nat)
    requires i <= |rows|
    ensures |WriteRows(rows)| == |rows| && WriteRows(rows)[i..] == WriteRows(rows[i..])
    ensures i < |rows| ==> WriteRows(rows)[i] == Spaces(rows[i].indent) + rows[i].text
    decreases rows
  {
    if rows != [] {
      var lines := WriteRows(rows);
      assert lines[1..] == WriteRows(rows[1..]);
      WriteRowsFrom(rows[1..], if i == 0 then 0 else i - 1);
      if i == 0 {
        assert rows[0..] == rows && lines[0..] == lines;
      } else {
        assert rows[1..][i - 1..] == rows[i..] && lines[1..][i - 1..] == lines[i..];
      }
    }
  }

  lemma SevenUnbroken(rows: seq<Row>)
    requires |rows| == 7 && Unbroken(rows[0].text) && Unbroken(rows[1].text) && Unbroken(rows[2].text)
    requires Unbroken(rows[3].text) && Unbroken(rows[4].text) && Unbroken(rows[5].text) && Unbroken(rows[6].text)
    ensures UnbrokenRows(rows)
  {
    assert UnbrokenRows(rows[7..]);
    assert rows[6..][1..] == rows[7..] && rows[5..][1..] == rows[6..] && rows[4..][1..] == rows[5..];
    assert UnbrokenRows(rows[6..]);
    assert UnbrokenRows(rows[5..]);
    assert UnbrokenRows(rows[4..]);
    assert rows[3..][1..] == rows[4..] && rows[2..][1..] == rows[3..] && rows[1..][1..] == rows[2..];
    assert UnbrokenRows(rows[3..]);
    assert UnbrokenRows(rows[2..]);
    assert UnbrokenRows(rows[1..]);
  }

  lemma MisleadingClean(g: string, a: string, u: string, b: string, d: string)
    requires Trimmed(g) && Trimmed(a) && Clean(u) && Trimmed(b) && Trimmed(d) && !Folded(d)
    ensures CleanGroup(GroupValue(g, [], MisleadingRules(a, u, b, d)))
  {
    assert Clean("- alert:");
  }

  lemma MisleadingRead(g: string, a: string, u: string, b: string, d: string, rows: seq<Row>)
    requires Trimmed(g) && Trimmed(a) && Clean(u) && Trimmed(b) && Trimmed(d) && !Folded(d)
    requires rows == AllRows(FLAT, [], [GroupValue(g, [], MisleadingRules(a, u, b, d))]) && UnbrokenRows(rows)
    ensures var end := Flush(ScanFrom(START, Content(SplitLines(Unlines(WriteRows(rows))))));
      && end.rules == AllRules([GroupValue(g, [], MisleadingRules(a, u, b, d))]) && end.problems == []
  {
    var groups := [GroupValue(g, [], MisleadingRules(a, u, b, d))];
    MisleadingClean(g, a, u, b, d);
    NotesAreKeys([], 0);
    GroupsAreWritten(FLAT, groups);
    CleanConcat(NoteRows([], 0), FileRows(FLAT, groups));
    RowsKept(rows);
    TextReadsBack(WriteRows(rows), FLAT, [], groups);
  }

  lemma MisleadingResult(g: string, a: string, u: string, b: string, d: string)
    ensures var rules := AllRules([GroupValue(g, [], MisleadingRules(a, u, b, d))]);
      |rules| == 2 && rules[0].expr == u + " " + "- alert:"
  {
    var values := MisleadingRules(a, u, b, d);
    assert [GroupValue(g, [], values)][1..] == [];
    assert values[1..][1..] == [];
    assert RulesOf(g, values[1..]) == [RuleOf(g, values[1])] + [];
    assert RulesOf(g, values) == [RuleOf(g, values[0])] + RulesOf(g, values[1..]);
    TwoTexts(u, "- alert:");
    assert [u, "- alert:"][1..] == ["- alert:"];
    assert Join(["- alert:"], " ") == "- alert:";
  }

  lemma TwoTexts(t: string, u: string)
    ensures NoteTexts([Note(0, t), Note(0, u)]) == [t, u]
  {
    var lines := [Note(0, t), Note(0, u)];
    assert lines[1..] == [Note(0, u)] && lines[1..][1..] == [];
    assert NoteTexts(lines[1..]) == [u] + [];
  }

  lemma MisleadingMatch(rows: seq<Row>, b: string)
    requires |rows| == 7 && rows[4] == Row(2, "- alert:") && rows[5] == Row(0, AlertText(b))
    ensures KeyMatch(Unlines(WriteRows(rows[4..])))
         == Some(" alert:" + (" " + b) + ("\n" + Unlines(WriteRows(rows[6..]))))
  {
    var more := "\n" + Unlines(WriteRows(rows[6..]));
    var left := " alert:" + (" " + b);
    RowsFrom(rows, 5);
    RowsFrom(rows, 4);
    assert Spaces(0) + AlertText(b) == AlertText(b);
    LoneKeyMatch(2, AlertText(b) + more);
    DashDropped(b, more);
  }

  lemma DashDropped(b: string, more: string)
    ensures DropWord(AlertText(b) + more) == " alert:" + (" " + b) + more
  {
    var left := " alert:" + (" " + b);
    assert AlertText(b) == "-" + left by { assert "- alert:" == "-" + " alert:"; }
    Assoc("-", left, more);
    assert ("-" + (left + more))[1..] == left + more && (left + more)[0] == ' ';
  }

  /** The scanner reads two rules, and takes the line of the key into the expression of the first. */
  lemma MisleadingScan(g: string, a: string, u: string, b: string, d: string, rows: seq<Row>)
    requires Trimmed(g) && Trimmed(a) && Clean(u) && Trimmed(b) && Trimmed(d) && !Folded(d)
    requires rows == MisleadingRows(g, a, u, b, d) && UnbrokenRows(rows)
    ensures var end := Flush(ScanFrom(START, Content(SplitLines(Unlines(WriteRows(rows))))));
      end.problems == [] && |end.rules| == 2 && end.rules[0].expr == u + " " + "- alert:"
  {
    MisleadingWritten(g, a, u, b, d);
    MisleadingRead(g, a, u, b, d, rows);
    MisleadingResult(g, a, u, b, d);
  }

  /** The failing input of reading the gate alert by alert: the block scalar of the first rule ends in the line
      `- alert:`. The scanner takes that line into the expression; the pattern matches there, takes the dash of the
      second rule for the value and so misses that rule. Both count two, and the gate opens. */
  lemma CountIsMisled(g: string, a: string, u: string, b: string, d: string, rows: seq<Row>)
    requires Trimmed(g) && Trimmed(a) && Clean(u) && Trimmed(b) && Trimmed(d) && !Folded(d)
    requires Unbroken(g) && Unbroken(a) && Quiet(u) && Unbroken(b) && Unbroken(d)
    requires rows == MisleadingRows(g, a, u, b, d)
    ensures var file := WriteRows(rows);
      var end := Flush(ScanFrom(START, Content(SplitLines(Unlines(file)))));
      && GateOpens(Declared(true, Unlines(file)), end.rules, end.problems)
      && end.rules[0].expr == u + " " + "- alert:"
      && |file| == 7 && file[4] == "  - alert:"
  {
    MisleadingCount(g, a, u, b, d, rows);
    MisleadingScan(g, a, u, b, d, rows);
    WriteRowsFrom(rows, 4);
    TwoSpaces();
  }

  /** One such file. */
  lemma MisledFile()
    ensures var file := WriteRows(MisleadingRows("g", "A", "u", "B", "d"));
      var end := Flush(ScanFrom(START, Content(SplitLines(Unlines(file)))));
      GateOpens(Declared(true, Unlines(file)), end.rules, end.problems) && end.rules[0].expr == "u" + " " + "- alert:"
  {
    assert forall c <- "gAuBd" :: !IsBreak(c) && !IsSpace(c);
    AllUnbrokenChars("g");
    AllUnbrokenChars("A");
    AllUnbrokenChars("u");
    AllUnbrokenChars("B");
    AllUnbrokenChars("d");
    CountIsMisled("g", "A", "u", "B", "d", MisleadingRows("g", "A", "u", "B", "d"));
  }

  lemma MisleadingCount(g: string, a: string, u: string, b: string, d: string, rows: seq<Row>)
    requires Trimmed(g) && Trimmed(a) && Clean(u) && Trimmed(b) && Trimmed(d) && !Folded(d)
    requires Unbroken(g) && Unbroken(a) && Quiet(u) && Unbroken(b) && Unbroken(d)
    requires rows == MisleadingRows(g, a, u, b, d)
    ensures Declared(true, Unlines(WriteRows(rows))) == 2 && UnbrokenRows(rows)
  {
    NameTells(0, g);
    AlertTells(0, a);
    AlertTells(0, b);
    MarkerTells(1);
    ExprTextTells(1, d);
    SevenDeclare(Row(0, NameText(g)), Row(0, AlertText(a)), Row(1, ExprText("|")), Row(2, u), Row(2, "- alert:"),
                 Row(0, AlertText(b)), Row(1, ExprText(d)), a, b);
  }

  lemma SevenDeclare(r0: Row, r1: Row, r2: Row, r3: Row, r4: Row, r5: Row, r6: Row, a: string, b: string)
    requires Telling(r0, None) && Telling(r1, Some(a)) && Telling(r2, None) && Telling(r3, None)
    requires r4 == Row(2, "- alert:") && r5 == Row(0, AlertText(b)) && Telling(r5, Some(b)) && Telling(r6, None)
    ensures var rows := [r0, r1, r2, r3, r4, r5, r6];
      Declared(true, Unlines(WriteRows(rows))) == 2 && UnbrokenRows(rows)
  {
    var rows := [r0, r1, r2, r3, r4, r5, r6];
    assert UnbrokenRows(rows) by {
      PrefixesUnbroken();
      SevenUnbroken(rows);
    }
    MisleadingDeclares(rows, a, b);
  }

  /** From that line on the pattern matches up to the dash of the second rule, and the search goes on behind it. */
  lemma MatchTakesDash(rows: seq<Row>, b: string)
    requires |rows| == 7 && rows[4] == Row(2, "- alert:") && rows[5] == Row(0, AlertText(b))
    ensures var file := WriteRows(rows);
      && |file| == 7
      && KeyMatch(Unlines(file[4..])) == Some(" alert:" + (" " + b) + ("\n" + Unlines(file[6..])))
  {
    MisleadingMatch(rows, b);
    WriteRowsFrom(rows, 4);
    WriteRowsFrom(rows, 6);
  }

  lemma TwoSpaces()
    ensures Spaces(2) + "- alert:" == "  - alert:"
  {
    assert Spaces(1) == " " + Spaces(0) == " ";
    assert Spaces(2) == " " + Spaces(1);
  }
}

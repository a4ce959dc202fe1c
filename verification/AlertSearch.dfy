/**
 The pattern search of scripts/check-alerts.py, line by line, for every file: a key with no value takes the first word
 of a later line for one. With it, what the gate vouches for on any file.
 */
module AlertSearch {
  import opened Text
  import opened AlertRules
  import opened AlertRoundTrip
  import opened AlertFile
  import opened AlertGate

  // ---------- the search as a walk over lines ----------

  /** What the search is doing when it comes to a line: looking for a key, or waiting for the value of one. */
  datatype Mode = Looking | Waiting

  predicate Blank(line: string) { LStrip(line) == "" }

  predicate HasText(file: seq<string>) { file != [] && (!Blank(file[0]) || HasText(file[1..])) }

  predicate HasKey(line: string) { StartsWith(KeyPart(line), "alert:") }

  /** The value that stands behind the key, on the line itself. */
  function ValueOf(key: string): string { LStrip(From(key, |"alert:"|)) }

  function Next(mode: Mode, line: string): Mode {
    if Blank(line) then mode
    else if mode.Looking? && HasKey(line) && ValueOf(KeyPart(line)) == "" then Waiting
    else Looking
  }

  /** The search finds the key that stands on the line: it is looking for one, and there is a value on the line or
      some text below. */
  predicate FoundAt(mode: Mode, line: string, more: seq<string>) {
    !Blank(line) && mode.Looking? && HasKey(line) && (ValueOf(KeyPart(line)) != "" || HasText(more))
  }

  /** How many keys the search finds. */
  function Found(mode: Mode, file: seq<string>): nat
    decreases file
  {
    if file == [] then 0
    else (if FoundAt(mode, file[0], file[1..]) then 1 else 0) + Found(Next(mode, file[0]), file[1..])
  }

  // ---------- the walk is the search ----------

  /** What is left after a match of the pattern from its key on. */
  function FromKey(key: string): Option<string> {
    if StartsWith(key, "alert:") && ValueOf(key) != "" then Some(DropWord(ValueOf(key))) else None
  }

  lemma KeyMatchFrom(s: string)
    ensures KeyMatch(s) == FromKey(KeyPart(s))
  {
  }

  lemma {:induction false} NothingLeft(mode: Mode, file: seq<string>)
    requires !HasText(file) && AllUnbroken(file)
    ensures Found(mode, file) == 0 && LStrip(Unlines(file)) == ""
    decreases file
  {
    if file != [] {
      NothingLeft(mode, file[1..]);
      LStripBlank(file[0], "\n" + Unlines(file[1..]));
      BreakStripped(Unlines(file[1..]));
    }
  }

  lemma BreakStripped(more: string)
    ensures LStrip("\n" + more) == LStrip(more)
  {
    assert ("\n" + more)[1..] == more;
  }

  lemma BlankFirst(mode: Mode, file: seq<string>)
    requires file != [] && Blank(file[0])
    ensures LStrip(Unlines(file)) == LStrip(Unlines(file[1..]))
    ensures Found(mode, file) == Found(mode, file[1..]) && (HasText(file) <==> HasText(file[1..]))
  {
    LStripBlank(file[0], "\n" + Unlines(file[1..]));
    BreakStripped(Unlines(file[1..]));
  }

  lemma TextFirst(file: seq<string>)
    requires file != [] && !Blank(file[0])
    ensures LStrip(Unlines(file)) == LStrip(file[0]) + ("\n" + Unlines(file[1..]))
    ensures HasText(file)
  {
    LStripWithin(file[0], "\n" + Unlines(file[1..]));
  }

  lemma {:induction false} TextIsLeft(file: seq<string>)
    requires HasText(file)
    ensures LStrip(Unlines(file)) != ""
    decreases file
  {
    if Blank(file[0]) {
      BlankFirst(Looking, file);
      TextIsLeft(file[1..]);
    } else {
      TextFirst(file);
    }
  }

  /** The value of a key that stood alone is the first word below, and the search goes on behind it. */
  lemma {:induction false} GoesOnBehindWord(file: seq<string>)
    requires HasText(file) && AllUnbroken(file)
    ensures Declared(false, DropWord(LStrip(Unlines(file)))) == Found(Waiting, file)
    decreases |file|, 0
  {
    if Blank(file[0]) {
      BlankFirst(Waiting, file);
      GoesOnBehindWord(file[1..]);
    } else {
      var word, more := LStrip(file[0]), Unlines(file[1..]);
      TextFirst(file);
      UnbrokenLStrip(file[0]);
      WordThen(word, "\n" + more);
      RestOfLine(DropWord(word), more);
      SearchByLine(file[1..]);
    }
  }

  /** A key at which the search stands, with the lines below. */
  lemma {:induction false} FromKeyCounts(key: string, rest: seq<string>)
    requires key != "" && Unbroken(key) && AllUnbroken(rest)
    ensures match FromKey(key + ("\n" + Unlines(rest)))
      case Some(left) =>
        && StartsWith(key, "alert:") && (ValueOf(key) != "" || HasText(rest))
        && Declared(false, left) == Found(if ValueOf(key) == "" then Waiting else Looking, rest)
      case None => !(StartsWith(key, "alert:") && (ValueOf(key) != "" || HasText(rest)))
    decreases |rest|, 3
  {
    var tail := "\n" + Unlines(rest);
    StartsWithin(key, tail, "alert:");
    if StartsWith(key, "alert:") {
      if ValueOf(key) != "" {
        NameWithin(key, tail);
        WordThen(ValueOf(key), tail);
        RestOfLine(DropWord(ValueOf(key)), Unlines(rest));
        SearchByLine(rest);
      } else {
        LoneValue(key, rest);
        if HasText(rest) { GoesOnBehindWord(rest); } else { NothingLeft(Looking, rest); }
      }
    }
  }

  lemma LoneValue(key: string, rest: seq<string>)
    requires StartsWith(key, "alert:") && ValueOf(key) == ""
    ensures ValueOf(key + ("\n" + Unlines(rest))) == LStrip(Unlines(rest))
    ensures HasText(rest) ==> LStrip(Unlines(rest)) != ""
  {
    StartsWithIs(key, "alert:");
    FromWithin(key, "\n" + Unlines(rest), |"alert:"|);
    LStripBlank(From(key, |"alert:"|), "\n" + Unlines(rest));
    BreakStripped(Unlines(rest));
    if HasText(rest) { TextIsLeft(rest); }
  }

  /** Behind the dash of a list item that stands alone the search finds what it would find from the next line on. */
  lemma {:induction false} BehindDash(file: seq<string>)
    requires AllUnbroken(file)
    ensures match FromKey(LStrip(Unlines(file)))
      case Some(left) => 1 + Declared(false, left) == Found(Looking, file)
      case None => true
    decreases |file|, 1
  {
    if file == [] {
    } else if Blank(file[0]) {
      BlankFirst(Looking, file);
      BehindDash(file[1..]);
    } else {
      TextFirst(file);
      UnbrokenLStrip(file[0]);
      FromKeyCounts(LStrip(file[0]), file[1..]);
    }
  }

  lemma KeyPartOfText(line: string, rest: string)
    requires !Blank(line) && rest != "" && rest[0] == '\n'
    ensures KeyPart(line + rest) == if KeyPart(line) == "" then LStrip(rest) else KeyPart(line) + rest
  {
    var item := LStrip(line);
    LStripWithin(line, rest);
    StartsWithin(item, rest, "-");
    if StartsWith(item, "-") {
      FromWithin(item, rest, 1);
      if KeyPart(line) == "" { LStripBlank(From(item, 1), rest); } else { LStripWithin(From(item, 1), rest); }
    }
  }

  /** The search over the text of any file finds exactly the keys the walk over its lines finds. */
  lemma {:induction false} SearchByLine(file: seq<string>)
    requires AllUnbroken(file)
    ensures Declared(true, Unlines(file)) == Found(Looking, file)
    decreases |file|, 2
  {
    if file == [] {
    } else if Blank(file[0]) {
      BlankDeclares(file[0], Unlines(file[1..]));
      BlankFirst(Looking, file);
      SearchByLine(file[1..]);
    } else {
      var line, rest := file[0], file[1..];
      var tail := "\n" + Unlines(rest);
      KeyPartOfText(line, tail);
      KeyMatchFrom(line + tail);
      KeyPartUnbroken(line);
      SearchByLine(rest);
      if KeyPart(line) == "" {
        BreakStripped(Unlines(rest));
        BehindDash(rest);
      } else {
        FromKeyCounts(KeyPart(line), rest);
      }
      if KeyMatch(line + tail) == None { SkippedCounts(line, rest); }
    }
  }

  lemma SkippedCounts(line: string, rest: seq<string>)
    requires Unbroken(line) && !Blank(line) && AllUnbroken(rest) && KeyMatch(line + ("\n" + Unlines(rest))) == None
    ensures Declared(true, line + ("\n" + Unlines(rest))) == Declared(true, Unlines(rest))
    ensures !HasText(rest) ==> Found(Waiting, rest) == Found(Looking, rest)
  {
    SkipsLine(line, Unlines(rest));
    if !HasText(rest) {
      NothingLeft(Waiting, rest);
      NothingLeft(Looking, rest);
    }
  }

  // ---------- what the gate vouches for ----------

  /** Every key found begins a rule. */
  predicate FoundBegin(mode: Mode, s: Scan, file: seq<string>)
    decreases file
  {
    file != [] ==>
      && (FoundAt(mode, file[0], file[1..]) ==> BegunAt(s, file[0]))
      && FoundBegin(Next(mode, file[0]), StepRaw(s, file[0]), file[1..])
  }

  /** The search passes over a rule that is begun on the line: it takes the line's first word for the value of a key
      above, or the rule has no name and no text follows. */
  predicate PassedOver(mode: Mode, s: Scan, line: string, more: seq<string>) {
    BegunAt(s, line) && (mode.Waiting? || (ValueOf(KeyPart(line)) == "" && !HasText(more)))
  }

  predicate NonePassedOver(mode: Mode, s: Scan, file: seq<string>)
    decreases file
  {
    file != [] ==>
      && !PassedOver(mode, s, file[0], file[1..])
      && NonePassedOver(Next(mode, file[0]), StepRaw(s, file[0]), file[1..])
  }

  lemma BegunHasKey(s: Scan, raw: string)
    requires BegunAt(s, raw)
    ensures !Blank(raw) && HasKey(raw)
  {
    var item, text := LStrip(raw), Strip(raw);
    ClassifyExactly(text);
    RStripWithin(item);
    assert "- alert:" <= item;
    ItemIsKey(item);
  }

  /** How many of the keys found begin a rule. */
  function Both(mode: Mode, s: Scan, file: seq<string>): nat
    decreases file
  {
    if file == [] then 0
    else
      (if FoundAt(mode, file[0], file[1..]) && BegunAt(s, file[0]) then 1 else 0)
      + Both(Next(mode, file[0]), StepRaw(s, file[0]), file[1..])
  }

  lemma {:induction false} FoundAndBegun(mode: Mode, s: Scan, file: seq<string>)
    ensures Both(mode, s, file) <= Found(mode, file) && Both(mode, s, file) <= |HeadsFrom(s, Content(file))|
    ensures Both(mode, s, file) == Found(mode, file) <==> FoundBegin(mode, s, file)
    ensures Both(mode, s, file) == |HeadsFrom(s, Content(file))| <==> NonePassedOver(mode, s, file)
    decreases file
  {
    if file != [] {
      var raw, rest := file[0], file[1..];
      FoundAndBegun(Next(mode, raw), StepRaw(s, raw), rest);
      HeadsOfFirst(s, raw, rest);
      assert file == [raw] + rest;
      if BegunAt(s, raw) { BegunHasKey(s, raw); }
    }
  }

  /** What the gate says of any file, and when it can be read alert by alert. It opens exactly when the search finds as
      many keys as the scanner begins rules, and at least one, all rules begun came back in order with their
      expressions, and no line was beyond the scanner. When it opens, the keys found are the rules begun if and only
      if no rule begun is passed over by the search. */
  lemma GateOnAnyFile(file: seq<string>)
    requires AllUnbroken(file)
    ensures var text := Unlines(file);
      var lines := Content(SplitLines(text));
      var end := Flush(ScanFrom(START, lines));
      var opens := GateOpens(Declared(true, text), end.rules, end.problems);
      && (opens <==> && Found(Looking, file) == |HeadsFrom(START, lines)| > 0
                     && RuleHeads(end.rules) == HeadsFrom(START, lines)
                     && StraysFrom(START, lines) == [])
      && (opens ==> (FoundBegin(Looking, START, file) <==> NonePassedOver(Looking, START, file)))
  {
    SplitUnlines(file);
    SearchByLine(file);
    FoundAndBegun(Looking, START, file);
    GateExactly(Unlines(file));
  }

  /** So the gate opens with every key found beginning a rule, and every rule begun found, exactly when no rule begun
      is passed over, every key found begins a rule, there is one, and all came back with nothing beyond the scanner. */
  lemma GateAlertByAlertExactly(file: seq<string>)
    requires AllUnbroken(file)
    ensures var text := Unlines(file);
      var lines := Content(SplitLines(text));
      var end := Flush(ScanFrom(START, lines));
      GateOpens(Declared(true, text), end.rules, end.problems) && NonePassedOver(Looking, START, file)
      <==> && FoundBegin(Looking, START, file) && NonePassedOver(Looking, START, file) && Found(Looking, file) > 0
           && RuleHeads(end.rules) == HeadsFrom(START, lines)
           && StraysFrom(START, lines) == []
  {
    SplitUnlines(file);
    GateOnAnyFile(file);
    FoundAndBegun(Looking, START, file);
  }
}

/** The coverage gate of scripts/check-coverage.py: reading a profile and the arithmetic of the gap. */
module Coverage {
  import opened Text

  // ---------- one line ----------

  datatype Fault = NotABlock | NotNumeric | Negative

  datatype Entry = Skip | Block(stmts: nat, hit: bool) | Bad(fault: Fault)

  /** One past the last space, 0 when there is none. */
  function AfterLastSpace(s: string): (i: nat)
    ensures i <= |s|
    ensures forall k :: i <= k < |s| ==> s[k] != ' '
    ensures i > 0 ==> s[i - 1] == ' '
  {
    if s == "" || s[|s| - 1] == ' ' then |s| else AfterLastSpace(s[..|s| - 1])
  }

  /** `line.rsplit(" ", 2)` when it yields three fields. */
  function Fields(line: string): (f: Option<(string, string, string)>)
    ensures f.Some? ==> line == f.value.0 + " " + f.value.1 + " " + f.value.2
    ensures f.Some? ==> ' ' !in f.value.1 && ' ' !in f.value.2
  {
    var j := AfterLastSpace(line);
    if j == 0 then None
    else
      var i := AfterLastSpace(line[..j - 1]);
      if i == 0 then None else Some((line[..i - 1], line[i..j - 1], line[j..]))
  }

  /** The last two spaces of the line part it in three, and a line has three fields exactly when it has two spaces. */
  lemma FieldsExactly(line: string)
    ensures Fields(line).Some? <==> exists i, j :: 0 <= i < j < |line| && line[i] == ' ' && line[j] == ' '
  {
    var j := AfterLastSpace(line);
    if j > 0 {
      var i := AfterLastSpace(line[..j - 1]);
      if i > 0 { assert line[i - 1] == ' ' && line[j - 1] == ' '; }
    }
  }

  /** One line of a profile; `parse` is Python's `int`. */
  function ReadLine(parse: string -> Option<int>, raw: string): Entry {
    var line := Strip(raw);
    if line == "" || "mode:" <= line then Skip
    else
      var fields := Fields(line);
      if fields.None? || ':' !in fields.value.0 then Bad(NotABlock)
      else
        var stmts, count := parse(fields.value.1), parse(fields.value.2);
        if stmts.None? || count.None? then Bad(NotNumeric)
        else if stmts.value < 0 || count.value < 0 then Bad(Negative)
        else Block(stmts.value, count.value > 0)
  }

  lemma {:induction false} LastSpaceAt(u: string, v: string)
    requires ' ' !in v
    ensures AfterLastSpace(u + " " + v) == |u| + 1
    decreases v
  {
    var s := u + " " + v;
    if v != "" {
      var init := v[..|v| - 1];
      assert s[..|s| - 1] == u + " " + init;
      assert s[|s| - 1] == v[|v| - 1];
      LastSpaceAt(u, init);
    }
  }

  /** A line comes apart as it was put together, spaces in the location included. */
  lemma FieldsPutTogether(location: string, stmts: string, count: string)
    requires ' ' !in stmts && ' ' !in count
    ensures Fields(location + " " + stmts + " " + count) == Some((location, stmts, count))
  {
    var line := location + " " + stmts + " " + count;
    var head := location + " " + stmts;
    LastSpaceAt(head, count);
    assert line == head + " " + count && line[..|head|] == head;
    LastSpaceAt(location, stmts);
    assert head[..|location|] == location;
    assert line[..|location|] == location && line[|location| + 1..|head|] == stmts && line[|head| + 1..] == count;
  }

  /** A block line is read back as the block it was written for, whatever its location is called. */
  lemma BlockReadBack(parse: string -> Option<int>, raw: string, location: string, stmts: string, count: string)
    requires Strip(raw) == location + " " + stmts + " " + count && !("mode:" <= Strip(raw))
    requires ':' in location && ' ' !in stmts && ' ' !in count
    ensures ReadLine(parse, raw)
         == match (parse(stmts), parse(count))
            case (Some(n), Some(c)) => if n < 0 || c < 0 then Bad(Negative) else Block(n, c > 0)
            case _ => Bad(NotNumeric)
  {
    FieldsPutTogether(location, stmts, count);
    assert |Strip(raw)| > 0;
  }

  /** The text is three parts, spaces only in the first of them, and a colon there. */
  ghost predicate BlockLine(text: string, location: string, stmts: string, count: string) {
    text == location + " " + stmts + " " + count && ' ' !in stmts && ' ' !in count && ':' in location
  }

  /** A line is passed over exactly when it is blank or a mode line; any other is refused as no block exactly when
      it does not consist of a location with a colon and two more fields. */
  lemma ReadLineExactly(parse: string -> Option<int>, raw: string)
    ensures ReadLine(parse, raw) == Skip <==> (forall c <- raw :: IsSpace(c)) || "mode:" <= Strip(raw)
    ensures ReadLine(parse, raw) == Bad(NotABlock)
       <==> ReadLine(parse, raw) != Skip
            && !exists location, stmts, count :: BlockLine(Strip(raw), location, stmts, count)
  {
    StripBlank(raw);
    var line := Strip(raw);
    var fields := Fields(line);
    if fields.Some? && ':' in fields.value.0 {
      assert BlockLine(line, fields.value.0, fields.value.1, fields.value.2);
    }
    forall location, stmts, count | BlockLine(line, location, stmts, count)
      ensures fields == Some((location, stmts, count)) {
      FieldsPutTogether(location, stmts, count);
    }
  }

  // ---------- the whole profile ----------

  datatype Profile = Counts(covered: nat, total: nat) | Rejected(line: nat, fault: Fault)

  function Entries(parse: string -> Option<int>, lines: seq<string>): (e: seq<Entry>)
    ensures |e| == |lines|
  {
    if lines == [] then []
    else Entries(parse, lines[..|lines| - 1]) + [ReadLine(parse, lines[|lines| - 1])]
  }

  /** Statements of the blocks that were hit, or of those that were not. */
  function Statements(entries: seq<Entry>, hit: bool): nat {
    if entries == [] then 0
    else
      var e := entries[|entries| - 1];
      Statements(entries[..|entries| - 1], hit) + if e.Block? && e.hit == hit then e.stmts else 0
  }

  predicate Readable(entries: seq<Entry>) { forall i :: 0 <= i < |entries| ==> !entries[i].Bad? }

  /** `read_profile`: a profile is counted exactly when every line is one; otherwise its first bad line is named. */
  method ReadProfile(parse: string -> Option<int>, lines: seq<string>) returns (p: Profile)
    ensures p.Counts? <==> Readable(Entries(parse, lines))
    ensures p.Counts? ==>
      var entries := Entries(parse, lines);
      p.covered == Statements(entries, true) && p.total == p.covered + Statements(entries, false)
    ensures p.Rejected? ==>
      && 1 <= p.line <= |lines|
      && ReadLine(parse, lines[p.line - 1]) == Bad(p.fault)
      && Readable(Entries(parse, lines[..p.line - 1]))
  {
    var covered, total := 0, 0;
    for i := 0 to |lines|
      invariant Readable(Entries(parse, lines[..i]))
      invariant covered == Statements(Entries(parse, lines[..i]), true)
      invariant 0 <= covered <= total
      invariant total == covered + Statements(Entries(parse, lines[..i]), false)
    {
      NextLine(parse, lines, i);
      match ReadLine(parse, lines[i]) {
        case Skip =>
        case Bad(fault) =>
          return Rejected(i + 1, fault);
        case Block(stmts, hit) =>
          total := total + stmts;
          if hit {
            covered := covered + stmts;
          }
      }
    }
    assert lines[..|lines|] == lines;
    p := Counts(covered, total);
  }

  lemma NextLine(parse: string -> Option<int>, lines: seq<string>, i: nat)
    requires i < |lines|
    ensures var e := ReadLine(parse, lines[i]);
      var before, after := Entries(parse, lines[..i]), Entries(parse, lines[..i + 1]);
      && (Readable(after) <==> Readable(before) && !e.Bad?)
      && Statements(after, true) == Statements(before, true) + (if e.Block? && e.hit then e.stmts else 0)
      && Statements(after, false) == Statements(before, false) + (if e.Block? && !e.hit then e.stmts else 0)
    ensures ReadLine(parse, lines[i]).Bad? ==> !Readable(Entries(parse, lines))
  {
    assert lines[..i + 1][..i] == lines[..i];
    StatementsSnoc(Entries(parse, lines[..i]), ReadLine(parse, lines[i]));
    ReadableSnoc(Entries(parse, lines[..i]), ReadLine(parse, lines[i]));
    EntryAt(parse, lines, i);
  }

  lemma ReadableSnoc(entries: seq<Entry>, e: Entry)
    ensures Readable(entries + [e]) <==> Readable(entries) && !e.Bad?
  {
    assert (entries + [e])[|entries|] == e;
    assert forall i :: 0 <= i < |entries| ==> (entries + [e])[i] == entries[i];
  }

  lemma {:induction false} EntryAt(parse: string -> Option<int>, lines: seq<string>, i: nat)
    requires i < |lines|
    ensures Entries(parse, lines)[i] == ReadLine(parse, lines[i])
  {
    if i < |lines| - 1 { EntryAt(parse, lines[..|lines| - 1], i); }
  }

  lemma StatementsSnoc(entries: seq<Entry>, e: Entry)
    ensures Statements(entries + [e], true) == Statements(entries, true) + if e.Block? && e.hit then e.stmts else 0
    ensures Statements(entries + [e], false) == Statements(entries, false) + if e.Block? && !e.hit then e.stmts else 0
  {
    assert (entries + [e])[..|entries|] == entries;
  }

  // ---------- rounding ----------

  function Ceil(x: real): int { -((-x).Floor) }

  /** To the nearest integer, ties to the even one. */
  function RoundHalfEven(y: real): int {
    var below := y.Floor;
    var rest := y - below as real;
    if rest < 0.5 || (rest == 0.5 && below % 2 == 0) then below else below + 1
  }

  /** `round(x, 6)`. */
  function Round6(x: real): real { RoundHalfEven(x * 1000000.0) as real / 1000000.0 }

  function Frac(x: real): real { x - x.Floor as real }

  lemma CeilIs(x: real, c: int)
    requires c as real - 1.0 < x <= c as real
    ensures Ceil(x) == c
  {
  }

  lemma FloorShifted(k: int, z: real)
    ensures (k as real + z).Floor == k + z.Floor
  {
  }

  lemma EvenShift(m: int, z: real)
    ensures RoundHalfEven((2 * m) as real + z) == 2 * m + RoundHalfEven(z)
  {
    FloorShifted(2 * m, z);
  }

  lemma RoundShifted(n: int, z: real)
    ensures RoundHalfEven((n * 1000000) as real + z) == n * 1000000 + RoundHalfEven(z)
  {
    EvenShift(n * 500000, z);
  }

  lemma RoundSmall(z: real)
    requires 0.0 <= z < 1000000.0
    ensures 0 <= RoundHalfEven(z) <= 1000000
    ensures RoundHalfEven(z) == 0 <==> z <= 0.5
  {
  }

  /** Rounding to six decimals before rounding up loses nothing, unless x is above an integer by at most half a
      millionth; then it loses one. */
  lemma CeilRounded(x: real)
    ensures Ceil(Round6(x)) == if 0.0 < Frac(x) <= 0.0000005 then Ceil(x) - 1 else Ceil(x)
  {
    var n, f := x.Floor, Frac(x);
    var z := f * 1000000.0;
    assert x * 1000000.0 == (n * 1000000) as real + z;
    RoundShifted(n, z);
    RoundSmall(z);
    var k := RoundHalfEven(z);
    assert Round6(x) == n as real + k as real / 1000000.0;
    CeilIs(x, if f == 0.0 then n else n + 1);
    CeilIs(Round6(x), if k == 0 then n else n + 1);
  }

  // ---------- the gate ----------

  datatype Verdict = Held | Regressed(needed: int) | Unmeasured | Unreadable

  function Percent(covered: nat, total: nat): real
    requires total > 0
  {
    100.0 * covered as real / total as real
  }

  function Needed(floor: real, covered: nat, total: nat): int {
    Ceil(Round6(floor * total as real / 100.0)) - covered
  }

  /** The decision of `main` on a profile it could or could not read. */
  function Gate(floor: real, p: Profile): Verdict {
    match p
    case Rejected(_, _) => Unreadable
    case Counts(covered, total) =>
      if total == 0 then Unmeasured
      else if Percent(covered, total) < floor then Regressed(Needed(floor, covered, total))
      else Held
  }

  function ExitCode(v: Verdict): int {
    match v case Held => 0 case Regressed(_) => 1 case Unmeasured => 2 case Unreadable => 2
  }

  /** So many covered statements meet the floor. */
  predicate Meets(floor: real, covered: int, total: nat) { 100.0 * covered as real >= floor * total as real }

  /** The gap is known exactly: what the floor demands is a whole number of statements, or above one by more than
      half a millionth. */
  predicate Resolvable(floor: real, total: nat) {
    var x := floor * total as real / 100.0;
    Frac(x) == 0.0 || Frac(x) > 0.0000005
  }

  /** `k` more covered statements are enough, and no fewer are. */
  ghost predicate IsGap(floor: real, covered: nat, total: nat, k: int) {
    forall c: int :: Meets(floor, c, total) <==> c >= covered + k
  }

  lemma PercentMeets(floor: real, covered: nat, total: nat)
    requires total > 0
    ensures Percent(covered, total) >= floor <==> Meets(floor, covered, total)
  {
    var t := total as real;
    var p := Percent(covered, total);
    assert p * t == 100.0 * covered as real;
    if p >= floor { ScaleUp(floor, p, t); } else { ScaleUpStrict(p, floor, t); }
  }

  lemma ScaleUp(a: real, b: real, t: real)
    requires a <= b && t > 0.0
    ensures a * t <= b * t
  {
    assert (b - a) * t >= 0.0;
  }

  lemma ScaleUpStrict(a: real, b: real, t: real)
    requires a < b && t > 0.0
    ensures a * t < b * t
  {
    assert (b - a) * t > 0.0;
  }

  lemma CeilIsGap(floor: real, covered: nat, total: nat, k: int)
    ensures IsGap(floor, covered, total, k) <==> k == Ceil(floor * total as real / 100.0) - covered
  {
    var least := Ceil(floor * total as real / 100.0);
    forall c: int ensures Meets(floor, c, total) <==> c >= least {
      MeetsAtCeil(floor * total as real, c);
    }
    if IsGap(floor, covered, total, k) {
      assert Meets(floor, covered + k, total) && Meets(floor, least, total);
    }
  }

  lemma MeetsAtCeil(demand: real, c: int)
    ensures 100.0 * c as real >= demand <==> c >= Ceil(demand / 100.0)
  {
  }

  /** The number reported is the gap exactly when the floor's demand is resolvable at six decimals; otherwise it is
      one statement short. */
  lemma NeededIsGap(floor: real, covered: nat, total: nat)
    ensures IsGap(floor, covered, total, Needed(floor, covered, total)) <==> Resolvable(floor, total)
    ensures !Resolvable(floor, total) ==> IsGap(floor, covered, total, Needed(floor, covered, total) + 1)
  {
    var x := floor * total as real / 100.0;
    CeilRounded(x);
    CeilIsGap(floor, covered, total, Needed(floor, covered, total));
    CeilIsGap(floor, covered, total, Needed(floor, covered, total) + 1);
  }

  /** A floor written with at most four decimals is always resolvable, whatever the profile. */
  lemma FourDecimals(floor: real, tenThousandths: int, total: nat)
    requires floor == tenThousandths as real / 10000.0
    ensures Resolvable(floor, total)
  {
    var millionths := tenThousandths * total;
    assert tenThousandths as real * total as real == millionths as real;
    var x := floor * total as real / 100.0;
    assert x == millionths as real / 1000000.0;
    var n := x.Floor;
    assert Frac(x) == (millionths - n * 1000000) as real / 1000000.0;
  }

  lemma GateIs(floor: real, covered: nat, total: nat)
    ensures Gate(floor, Counts(covered, total))
         == if total == 0 then Unmeasured
            else if Meets(floor, covered, total) then Held
            else Regressed(Needed(floor, covered, total))
  {
    if total > 0 { PercentMeets(floor, covered, total); }
  }

  /** An empty profile never passes, and a measured one passes exactly when it meets the floor. */
  lemma PassesExactly(floor: real, p: Profile)
    ensures ExitCode(Gate(floor, p)) == 0 <==> p.Counts? && p.total > 0 && Meets(floor, p.covered, p.total)
  {
    if p.Counts? { GateIs(floor, p.covered, p.total); }
  }

  /** The gap of a gate that fails is a real one: at least one statement, and no more than are uncovered. */
  lemma GapInRange(floor: real, covered: nat, total: nat, k: int)
    requires IsGap(floor, covered, total, k)
    requires !Meets(floor, covered, total) && floor <= 100.0 && total > 0
    ensures 1 <= k <= total - covered
  {
    ScaleUp(floor, 100.0, total as real);
    assert Meets(floor, total, total);
    assert covered >= covered + k <==> Meets(floor, covered, total);
  }

  /** With the reported number of statements covered in addition the gate passes, and with fewer it fails. */
  lemma GapClosesGate(floor: real, covered: nat, total: nat, more: nat)
    requires covered <= total && floor <= 100.0 && Resolvable(floor, total)
    requires Gate(floor, Counts(covered, total)).Regressed?
    ensures var needed := Gate(floor, Counts(covered, total)).needed;
      && 1 <= needed <= total - covered
      && (Gate(floor, Counts(covered + more, total)) == Held <==> more >= needed)
  {
    GateIs(floor, covered, total);
    GateIs(floor, covered + more, total);
    NeededIsGap(floor, covered, total);
    GapInRange(floor, covered, total, Needed(floor, covered, total));
  }

  /** A floor with more decimals can fail the gate and report that nothing is missing. */
  lemma NothingMissing()
    ensures Gate(50.00000001, Counts(1, 2)) == Regressed(0)
    ensures !Resolvable(50.00000001, 2)
  {
    var x := 50.00000001 * 2.0 / 100.0;
    assert x == 1.0000000002 && x.Floor == 1;
    CeilRounded(x);
  }
}

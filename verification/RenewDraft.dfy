/** The renewal editor of webconsole/console.js: validating an edited domain set, deciding whether it
    differs from the declared one, and what to file. */
module RenewDraft {
  import opened Text

  // ---------- sorting ----------

  /** The order `sort()` puts strings in. */
  predicate Before(a: string, b: string) {
    a == "" || (b != "" && (a[0] < b[0] || (a[0] == b[0] && Before(a[1..], b[1..]))))
  }

  lemma {:induction false} BeforeTotal(a: string, b: string)
    ensures Before(a, b) || Before(b, a)
  {
    if a != "" && b != "" { BeforeTotal(a[1..], b[1..]); }
  }

  lemma {:induction false} BeforeAntisymmetric(a: string, b: string)
    requires Before(a, b) && Before(b, a)
    ensures a == b
  {
    if a != "" && b != "" {
      BeforeAntisymmetric(a[1..], b[1..]);
      assert a == [a[0]] + a[1..] && b == [b[0]] + b[1..];
    }
  }

  lemma {:induction false} BeforeTransitive(a: string, b: string, c: string)
    requires Before(a, b) && Before(b, c)
    ensures Before(a, c)
  {
    if a != "" && a[0] == b[0] && b[0] == c[0] { BeforeTransitive(a[1..], b[1..], c[1..]); }
  }

  ghost predicate Ordered(s: seq<string>) {
    forall i, j :: 0 <= i < j < |s| ==> Before(s[i], s[j])
  }

  function Insert(x: string, s: seq<string>): seq<string> {
    if s == [] || Before(x, s[0]) then [x] + s else [s[0]] + Insert(x, s[1..])
  }

  function Sort(s: seq<string>): seq<string> {
    if s == [] then [] else Insert(s[0], Sort(s[1..]))
  }

  lemma {:induction false} InsertSorts(x: string, s: seq<string>)
    requires Ordered(s)
    ensures Ordered(Insert(x, s)) && multiset(Insert(x, s)) == multiset{x} + multiset(s)
  {
    if s == [] {
    } else if Before(x, s[0]) {
      forall j | 0 <= j < |s| ensures Before(x, s[j]) {
        if j > 0 { BeforeTransitive(x, s[0], s[j]); }
      }
    } else {
      BeforeTotal(x, s[0]);
      InsertSorts(x, s[1..]);
      var r := Insert(x, s[1..]);
      assert s == [s[0]] + s[1..];
      forall j | 0 <= j < |r| ensures Before(s[0], r[j]) {
        assert r[j] in multiset(r);
        assert r[j] == x || r[j] in s[1..];
      }
    }
  }

  lemma {:induction false} SortSorts(s: seq<string>)
    ensures Ordered(Sort(s)) && multiset(Sort(s)) == multiset(s)
  {
    if s != [] {
      SortSorts(s[1..]);
      InsertSorts(s[0], Sort(s[1..]));
      assert s == [s[0]] + s[1..];
    }
  }

  lemma BagOfTail(s: seq<string>)
    requires s != []
    ensures s == [s[0]] + s[1..] && multiset(s[1..]) == multiset(s) - multiset{s[0]}
  {
    assert s == [s[0]] + s[1..];
  }

  /** A bag of strings has one ordering. */
  lemma {:induction false} OrderedUnique(a: seq<string>, b: seq<string>)
    requires Ordered(a) && Ordered(b) && multiset(a) == multiset(b)
    ensures a == b
  {
    assert |a| == |multiset(a)| == |multiset(b)| == |b|;
    if a != [] {
      assert a[0] in multiset(a) && b[0] in multiset(b);
      assert a[0] in b && b[0] in a;
      var i :| 0 <= i < |b| && b[i] == a[0];
      var j :| 0 <= j < |a| && a[j] == b[0];
      assert Before(b[0], a[0]) by { if i == 0 { BeforeTotal(a[0], a[0]); } }
      assert Before(a[0], b[0]) by { if j == 0 { BeforeTotal(a[0], a[0]); } }
      BeforeAntisymmetric(a[0], b[0]);
      BagOfTail(a);
      BagOfTail(b);
      OrderedUnique(a[1..], b[1..]);
    }
  }

  // ---------- the draft against the declaration ----------

  predicate NoDuplicates(s: seq<string>) {
    forall i, j :: 0 <= i < j < |s| ==> s[i] != s[j]
  }

  function Elements(s: seq<string>): set<string> { set x | x in s }

  /** `renewDirty`. */
  predicate Dirty(declared: seq<string>, draft: seq<string>) {
    var before, after := Sort(declared), Sort(draft);
    |before| != |after| || exists i :: 0 <= i < |before| && before[i] != after[i]
  }

  /** `s.filter(x => !other.includes(x))`. */
  function Missing(s: seq<string>, other: seq<string>): (r: seq<string>)
    ensures forall x :: x in r <==> x in s && x !in other
  {
    if s == [] then [] else (if s[0] in other then [] else [s[0]]) + Missing(s[1..], other)
  }

  lemma SameAtEveryIndex(a: seq<string>, b: seq<string>)
    requires |a| == |b| && forall i :: 0 <= i < |a| ==> a[i] == b[i]
    ensures a == b
  {}

  lemma DirtyIsBagInequality(declared: seq<string>, draft: seq<string>)
    ensures Dirty(declared, draft) <==> multiset(declared) != multiset(draft)
  {
    SortSorts(declared);
    SortSorts(draft);
    if multiset(declared) == multiset(draft) { OrderedUnique(Sort(declared), Sort(draft)); }
    if !Dirty(declared, draft) { SameAtEveryIndex(Sort(declared), Sort(draft)); }
  }

  lemma {:induction false} BagOfDistinct(s: seq<string>)
    requires NoDuplicates(s)
    ensures multiset(s) == multiset(Elements(s)) && |Elements(s)| == |s|
  {
    if s != [] {
      var rest := s[1..];
      BagOfDistinct(rest);
      assert s == [s[0]] + rest;
      assert Elements(s) == {s[0]} + Elements(rest) && s[0] !in Elements(rest);
    }
  }

  lemma {:induction false} DistinctIfBagIsSet(s: seq<string>)
    requires forall x :: multiset(s)[x] <= 1
    ensures NoDuplicates(s)
  {
    if s != [] {
      var rest := s[1..];
      assert s == [s[0]] + rest;
      forall x ensures multiset(rest)[x] <= 1 { assert multiset(rest)[x] <= multiset(s)[x]; }
      DistinctIfBagIsSet(rest);
      assert multiset(s)[s[0]] == 1 + multiset(rest)[s[0]];
    }
  }

  lemma {:induction false} MissingDistinct(s: seq<string>, other: seq<string>)
    requires NoDuplicates(s)
    ensures NoDuplicates(Missing(s, other))
  {
    if s != [] { MissingDistinct(s[1..], other); }
  }

  /** For a draft without duplicates the sort-based test says changed exactly when a name was added, a
      name was removed, or the declaration itself repeats a name. */
  lemma DirtyExactly(declared: seq<string>, draft: seq<string>)
    requires NoDuplicates(draft)
    ensures Dirty(declared, draft)
       <==> Missing(draft, declared) != [] || Missing(declared, draft) != [] || !NoDuplicates(declared)
  {
    DirtyIsBagInequality(declared, draft);
    BagOfDistinct(draft);
    var added, removed := Missing(draft, declared), Missing(declared, draft);
    if added == [] && removed == [] && NoDuplicates(declared) {
      BagOfDistinct(declared);
      SameNames(declared, draft);
    } else if multiset(declared) == multiset(draft) {
      forall x ensures x in declared <==> x in draft && multiset(declared)[x] <= 1 {
        assert x in declared <==> x in multiset(declared);
      }
      DistinctIfBagIsSet(declared);
      NothingMissing(draft, declared);
      NothingMissing(declared, draft);
    }
  }

  /** The failing input: a declaration that repeats a name counts as changed with nothing added or removed. */
  lemma RepeatCountsAsChange(name: string)
    ensures Dirty([name, name], [name])
    ensures Missing([name], [name, name]) == [] && Missing([name, name], [name]) == []
  {
    DirtyIsBagInequality([name, name], [name]);
    assert multiset([name, name])[name] == 2 && multiset([name])[name] == 1;
    NothingMissing([name], [name, name]);
    NothingMissing([name, name], [name]);
  }

  lemma {:induction false} NothingMissing(s: seq<string>, other: seq<string>)
    requires forall x :: x in s ==> x in other
    ensures Missing(s, other) == []
  {
    if s != [] { NothingMissing(s[1..], other); }
  }

  lemma SameNames(declared: seq<string>, draft: seq<string>)
    requires Missing(draft, declared) == [] && Missing(declared, draft) == []
    ensures Elements(declared) == Elements(draft)
  {
    forall x ensures x in declared <==> x in draft {
      assert x !in Missing(draft, declared) && x !in Missing(declared, draft);
    }
  }

  lemma MissingElements(s: seq<string>, other: seq<string>)
    requires NoDuplicates(s)
    ensures Elements(Missing(s, other)) == Elements(s) - Elements(other)
    ensures |Missing(s, other)| == |Elements(s) - Elements(other)|
  {
    MissingDistinct(s, other);
    BagOfDistinct(Missing(s, other));
    assert Elements(Missing(s, other)) == Elements(s) - Elements(other);
  }

  lemma Sizes(d: set<string>, f: set<string>)
    ensures f == (d - (d - f)) + (f - d)
    ensures |f| == |d| - |d - f| + |f - d|
  {
    assert f == (d * f) + (f - d) && d == (d * f) + (d - f);
  }

  /** What is filed adds up: the draft is the declaration without the removed names and with the added
      ones, and so is its size. */
  lemma DiffAddsUp(declared: seq<string>, draft: seq<string>)
    requires NoDuplicates(declared) && NoDuplicates(draft)
    ensures var added, removed := Missing(draft, declared), Missing(declared, draft);
      && Elements(draft) == (Elements(declared) - Elements(removed)) + Elements(added)
      && |draft| == |declared| - |removed| + |added|
  {
    MissingElements(draft, declared);
    MissingElements(declared, draft);
    BagOfDistinct(declared);
    BagOfDistinct(draft);
    Sizes(Elements(declared), Elements(draft));
  }

  /** The difference reported for a changed draft. */
  lemma FiledDiff(declared: seq<string>, draft: seq<string>)
    requires NoDuplicates(draft) && Dirty(declared, draft)
    ensures var added, removed := Missing(draft, declared), Missing(declared, draft);
      && Elements(added) == Elements(draft) - Elements(declared)
      && Elements(removed) == Elements(declared) - Elements(draft)
      && (NoDuplicates(declared) ==> |added| + |removed| > 0 && |draft| == |declared| - |removed| + |added|)
  {
    DirtyExactly(declared, draft);
    if NoDuplicates(declared) { DiffAddsUp(declared, draft); }
  }

  // ---------- validating and filing ----------

  datatype Problem = Empty | TooMany(cap: nat) | NotADomain(value: string) | Repeated(value: string)

  /** The rules a draft has to meet. */
  predicate Acceptable(draft: seq<string>, cap: nat, shape: string -> bool) {
    0 < |draft| <= cap && (forall x <- draft :: shape(x)) && NoDuplicates(draft)
  }

  /** `p` is the first rule, in the order they are checked, that the draft breaks, at its first culprit. */
  ghost predicate FirstBroken(draft: seq<string>, cap: nat, shape: string -> bool, p: Problem) {
    match p
    case Empty => draft == []
    case TooMany(most) => |draft| > cap == most && draft != []
    case NotADomain(value) =>
      && 0 < |draft| <= cap
      && exists i :: 0 <= i < |draft| && draft[i] == value && !shape(draft[i])
                     && forall j :: 0 <= j < i ==> shape(draft[j])
    case Repeated(value) =>
      && 0 < |draft| <= cap && (forall x <- draft :: shape(x))
      && exists i :: 0 <= i < |draft| && draft[i] == value && draft[i] in draft[..i] && NoDuplicates(draft[..i])
  }

  /** `renewValidateDraft`: the first rule the draft breaks. */
  method Validate(draft: seq<string>, cap: nat, shape: string -> bool) returns (problem: Option<Problem>)
    ensures problem.None? <==> Acceptable(draft, cap, shape)
    ensures problem.Some? ==> FirstBroken(draft, cap, shape, problem.value)
  {
    if draft == [] {
      return Some(Empty);
    }
    if |draft| > cap {
      return Some(TooMany(cap));
    }
    for i := 0 to |draft|
      invariant forall j :: 0 <= j < i ==> shape(draft[j])
    {
      if !shape(draft[i]) {
        return Some(NotADomain(draft[i]));
      }
    }
    var seen := {};
    for i := 0 to |draft|
      invariant seen == Elements(draft[..i]) && NoDuplicates(draft[..i])
    {
      if draft[i] in seen {
        return Some(Repeated(draft[i]));
      }
      seen := seen + {draft[i]};
    }
    assert draft[..|draft|] == draft;
    return None;
  }

  /** The draft is read back out of the boxes: each value normalised, empty ones dropped. */
  function FromBoxes(boxes: seq<string>, normalise: string -> string): (draft: seq<string>)
    ensures "" !in draft
    ensures forall x :: x in draft <==> x != "" && exists b <- boxes :: normalise(b) == x
  {
    if boxes == [] then []
    else
      assert boxes == [boxes[0]] + boxes[1..];
      var x := normalise(boxes[0]);
      (if x == "" then [] else [x]) + FromBoxes(boxes[1..], normalise)
  }

  /** Every box is read by itself and in its place: none is dropped for repeating another. */
  lemma {:induction false} BoxByBox(a: seq<string>, b: seq<string>, normalise: string -> string)
    ensures FromBoxes(a + b, normalise) == FromBoxes(a, normalise) + FromBoxes(b, normalise)
    ensures |a| == 1 ==> FromBoxes(a, normalise) == if normalise(a[0]) == "" then [] else [normalise(a[0])]
  {
    if a == [] {
      assert a + b == b;
    } else {
      assert (a + b)[1..] == a[1..] + b;
      var x := normalise(a[0]);
      BoxByBox(a[1..], b, normalise);
      Assoc(if x == "" then [] else [x], FromBoxes(a[1..], normalise), FromBoxes(b, normalise));
    }
  }

  /** The names reported stand in the order of the list they come from, each as often as there. */
  lemma {:induction false} NameByName(a: seq<string>, b: seq<string>, other: seq<string>)
    ensures Missing(a + b, other) == Missing(a, other) + Missing(b, other)
    ensures |a| == 1 ==> Missing(a, other) == if a[0] in other then [] else [a[0]]
  {
    if a == [] {
      assert a + b == b;
    } else {
      assert (a + b)[1..] == a[1..] + b;
      NameByName(a[1..], b, other);
      Assoc(if a[0] in other then [] else [a[0]], Missing(a[1..], other), Missing(b, other));
    }
  }

  datatype Outcome =
    | Refused(problem: Problem)
    | Unchanged
    | File(domains: seq<string>, added: seq<string>, removed: seq<string>)

  /** `applyRenew` up to the request it sends. It refuses exactly the drafts that break a rule, files exactly the
      acceptable ones that differ from the declaration, and reports exactly the difference. */
  method ApplyRenew(declared: seq<string>, boxes: seq<string>, cap: nat, normalise: string -> string,
                    shape: string -> bool)
    returns (outcome: Outcome)
    ensures outcome.Refused? <==> !Acceptable(FromBoxes(boxes, normalise), cap, shape)
    ensures outcome.Refused? ==> FirstBroken(FromBoxes(boxes, normalise), cap, shape, outcome.problem)
    ensures outcome.Unchanged? <==>
      var d := FromBoxes(boxes, normalise); Acceptable(d, cap, shape) && multiset(d) == multiset(declared)
    ensures outcome.File? ==> var d := outcome.domains;
      && d == FromBoxes(boxes, normalise)
      && outcome.added == Missing(d, declared) && outcome.removed == Missing(declared, d)
      && Elements(outcome.added) == Elements(d) - Elements(declared)
      && Elements(outcome.removed) == Elements(declared) - Elements(d)
      && (NoDuplicates(declared) ==> |outcome.added| + |outcome.removed| > 0
                                     && |d| == |declared| - |outcome.removed| + |outcome.added|)
  {
    var draft := FromBoxes(boxes, normalise);
    var problem := Validate(draft, cap, shape);
    if problem.Some? {
      return Refused(problem.value);
    }
    DirtyIsBagInequality(declared, draft);
    if !Dirty(declared, draft) {
      return Unchanged;
    }
    FiledDiff(declared, draft);
    return File(draft, Missing(draft, declared), Missing(declared, draft));
  }
}

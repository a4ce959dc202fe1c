/**
 No text escapes translation unseen: every text of a page is part of something that was looked up, unless only layout
 holds it.
 */
module HtmlLookups {
  import opened Text
  import opened HtmlTree
  import opened HtmlNormalForm
  import opened HtmlTranslate

  /** Translation never comes to look at what lies there: it is in a style, a script or another part that is not
      translated, or only layout containers hold it, or it is in a structural child other than a span. */
  predicate Unseen(lex: Lexicon, t: Tree, path: Path)
    requires Leads(t, path)
    decreases path
  {
    path == []
    || match RoleOf(lex, t)
       case Fixed => true
       case Container => Unseen(lex, t.children[path[0]], path[1..])
       case FoBlock => t.children[path[0]].data.tag != "span" && Structural(t.children[path[0]])
       case _ => false
  }

  ghost predicate Contains(text: string, part: string) {
    exists before, after :: text == before + part + after
  }

  // ---------- which lookups are about a text ----------

  /** The lookup `a` is one of those translation makes about what lies at the path: of the whole element it is in, of a
      run or a span of a foreignObject block, or, where the lookup of an element misses, of something further down. */
  predicate About(lex: Lexicon, t: Tree, path: Path, a: Ask)
    requires Leads(t, path)
    decreases t
  {
    path != []
    && match RoleOf(lex, t)
       case Fixed => false
       case SvgText => a == Ask(InnerText(t.children), "<text>")
       case Copy =>
         || a == Ask(PrintAll(t.children), "<" + t.data.tag + ">")
         || (Lookup(lex, PrintAll(t.children)).None? && About(lex, t.children[path[0]], path[1..], a))
       case Container => About(lex, t.children[path[0]], path[1..], a)
       case FoBlock => AboutBlock(lex, t.children, path[0], path[1..], a)
  }

  /** The same for a place below the i-th of the children of a foreignObject block. */
  predicate AboutBlock(lex: Lexicon, ts: seq<Tree>, i: nat, path: Path, a: Ask)
    requires i < |ts| && Leads(ts[i], path)
    decreases ts
  {
    var k := RunLen(ts);
    if k == 0 then if i == 0 then AboutMark(lex, ts[0], path, a) else AboutBlock(lex, ts[1..], i - 1, path, a)
    else if i < k then a == Ask(PrintAll(ts[..k]), "foreignObject")
    else AboutBlock(lex, ts[k..], i - k, path, a)
  }

  predicate AboutMark(lex: Lexicon, mark: Tree, path: Path, a: Ask)
    requires Leads(mark, path)
    decreases mark, 0
  {
    mark.data.tag == "span"
    && (|| a == Ask(PrintAll(mark.children), "foreignObject span")
        || (Lookup(lex, PrintAll(mark.children)).None? && path != []
            && About(lex, mark.children[path[0]], path[1..], a)))
  }

  // ---------- containment ----------

  lemma ContainsSelf(text: string)
    ensures Contains(text, text)
  {
    assert text == "" + text + "";
  }

  lemma ContainsMore(a: string, text: string, b: string, part: string)
    requires Contains(text, part)
    ensures Contains(a + text + b, part)
  {
    var before, after :| text == before + part + after;
    Regroup(a, before, part, after);
    assert a + text + b == (a + before) + part + (after + b);
  }

  // ---------- a text is part of what is printed, and of the inner text ----------

  /** The text at the end of the path. */
  predicate TextAt(t: Tree, path: Path) {
    Leads(t, path) && At(t, path).data.kind.TextRun?
  }

  lemma {:induction false} CanonicalChild(ts: seq<Tree>, i: nat)
    requires CanonicalAll(ts) && i < |ts|
    ensures Canonical(ts[i])
  {
    if i > 0 { CanonicalChild(ts[1..], i - 1); }
  }

  lemma {:induction false} PartOfAll(ts: seq<Tree>, i: nat, part: string)
    requires i < |ts| && Contains(Print(ts[i]), part)
    ensures Contains(PrintAll(ts), part)
    decreases ts
  {
    if i == 0 {
      ContainsMore("", Print(ts[0]), PrintAll(ts[1..]), part);
      assert "" + Print(ts[0]) == Print(ts[0]);
    } else {
      PartOfAll(ts[1..], i - 1, part);
      ContainsMore(Print(ts[0]), PrintAll(ts[1..]), "", part);
      assert Print(ts[0]) + PrintAll(ts[1..]) + "" == PrintAll(ts);
    }
  }

  lemma {:induction false} TextIsPrinted(t: Tree, path: Path)
    requires Canonical(t) && TextAt(t, path)
    ensures Contains(Print(t), At(t, path).data.text)
    decreases path
  {
    if path == [] {
      ContainsSelf(t.data.text);
    } else {
      var part := At(t, path).data.text;
      CanonicalChild(t.children, path[0]);
      TextIsPrinted(t.children[path[0]], path[1..]);
      PartOfAll(t.children, path[0], part);
      ContainsMore(Head(t), PrintAll(t.children), Foot(t), part);
      HeadAndFoot(t);
    }
  }

  function Head(t: Tree): string { if t.data.tag == "#root" then "" else t.data.rawOpen }

  function Foot(t: Tree): string { if t.data.tag == "#root" then "" else Closer(t.data) }

  lemma HeadAndFoot(t: Tree)
    requires Holds(t.data)
    ensures Print(t) == Head(t) + PrintAll(t.children) + Foot(t)
  {
  }

  lemma {:induction false} PartOfInner(ts: seq<Tree>, i: nat, path: Path)
    requires i < |ts| && CanonicalAll(ts) && TextAt(ts[i], path)
    ensures Contains(InnerText(ts), At(ts[i], path).data.text)
    decreases path, i
  {
    var part := At(ts[i], path).data.text;
    var t := ts[0];
    var own := match t.data.kind case TextRun => t.data.text case Elem => InnerText(t.children) case _ => "";
    if i > 0 {
      PartOfInner(ts[1..], i - 1, path);
      ContainsMore(own, InnerText(ts[1..]), "", part);
      assert own + InnerText(ts[1..]) + "" == InnerText(ts);
    } else {
      if path == [] {
        ContainsSelf(part);
      } else {
        PartOfInner(t.children, path[0], path[1..]);
      }
      ContainsMore("", own, InnerText(ts[1..]), part);
      assert "" + own == own;
    }
  }

  // ---------- every text is looked up ----------

  lemma {:induction false} AskedBelow(lex: Lexicon, ts: seq<Tree>, i: nat, a: Ask)
    requires i < |ts| && a in Asked(lex, ts[i])
    ensures a in AskedAll(lex, ts)
    decreases ts
  {
    if i > 0 { AskedBelow(lex, ts[1..], i - 1, a); }
  }

  /** The lookups about a place are lookups translation makes. */
  lemma {:induction false} AboutIsAsked(lex: Lexicon, t: Tree, path: Path, a: Ask)
    requires Leads(t, path) && About(lex, t, path, a)
    ensures a in Asked(lex, t)
    decreases t
  {
    match RoleOf(lex, t)
    case SvgText =>
    case Copy =>
      if a != Ask(PrintAll(t.children), "<" + t.data.tag + ">") {
        AboutIsAsked(lex, t.children[path[0]], path[1..], a);
        AskedBelow(lex, t.children, path[0], a);
      }
    case Container =>
      AboutIsAsked(lex, t.children[path[0]], path[1..], a);
      AskedBelow(lex, t.children, path[0], a);
    case FoBlock => AboutBlockIsAsked(lex, t.children, path[0], path[1..], a);
  }

  lemma {:induction false} AboutBlockIsAsked(lex: Lexicon, ts: seq<Tree>, i: nat, path: Path, a: Ask)
    requires i < |ts| && Leads(ts[i], path) && AboutBlock(lex, ts, i, path, a)
    ensures a in AskedFo(lex, ts)
    decreases ts
  {
    var k := RunLen(ts);
    if k == 0 {
      if i == 0 { AboutMarkIsAsked(lex, ts[0], path, a); } else { AboutBlockIsAsked(lex, ts[1..], i - 1, path, a); }
    } else if i >= k {
      AboutBlockIsAsked(lex, ts[k..], i - k, path, a);
    }
  }

  lemma {:induction false} AboutMarkIsAsked(lex: Lexicon, mark: Tree, path: Path, a: Ask)
    requires Leads(mark, path) && AboutMark(lex, mark, path, a)
    ensures a in AskedMark(lex, mark)
    decreases mark, 0
  {
    if a != Ask(PrintAll(mark.children), "foreignObject span") {
      AboutIsAsked(lex, mark.children[path[0]], path[1..], a);
      AskedBelow(lex, mark.children, path[0], a);
    }
  }

  /** The content of an element, as it is looked up, holds every text below it. */
  lemma ContentHolds(t: Tree, path: Path)
    requires CanonicalAll(t.children) && path != [] && TextAt(t, path)
    ensures Contains(PrintAll(t.children), At(t, path).data.text)
    ensures Contains(InnerText(t.children), At(t, path).data.text)
  {
    CanonicalChild(t.children, path[0]);
    TextIsPrinted(t.children[path[0]], path[1..]);
    PartOfAll(t.children, path[0], At(t, path).data.text);
    PartOfInner(t.children, path[0], path[1..]);
  }

  lemma {:induction false} CanonicalFrom(ts: seq<Tree>, k: nat)
    requires CanonicalAll(ts) && k <= |ts|
    ensures CanonicalAll(ts[k..])
  {
    if k > 0 {
      CanonicalFrom(ts[1..], k - 1);
      assert ts[1..][k - 1..] == ts[k..];
    }
  }

  lemma {:induction false} BlockTextSeen(lex: Lexicon, ts: seq<Tree>, i: nat, path: Path) returns (a: Ask)
    requires CanonicalAll(ts) && i < |ts| && TextAt(ts[i], path)
    requires Structural(ts[i]) ==> ts[i].data.tag == "span"
    ensures AboutBlock(lex, ts, i, path, a) && Contains(a.text, At(ts[i], path).data.text)
    decreases ts
  {
    var part, k := At(ts[i], path).data.text, RunLen(ts);
    CanonicalChild(ts, i);
    if k == 0 {
      if i == 0 {
        ContentHolds(ts[0], path);
        a := Ask(PrintAll(ts[0].children), "foreignObject span");
      } else {
        a := BlockTextSeen(lex, ts[1..], i - 1, path);
      }
    } else if i < k {
      TextIsPrinted(ts[i], path);
      PartOfAll(ts[..k], i, part);
      a := Ask(PrintAll(ts[..k]), "foreignObject");
    } else {
      CanonicalFrom(ts, k);
      assert ts[k..][i - k] == ts[i];
      a := BlockTextSeen(lex, ts[k..], i - k, path);
    }
  }

  /** Every text that translation does not pass over is part of something that was looked up about it. */
  lemma {:induction false} EveryTextSeen(lex: Lexicon, t: Tree, path: Path) returns (a: Ask)
    requires CanonicalAll(t.children) && TextAt(t, path) && !Unseen(lex, t, path)
    ensures About(lex, t, path, a) && a in Asked(lex, t) && Contains(a.text, At(t, path).data.text)
    decreases path
  {
    match RoleOf(lex, t) {
      case Container =>
        CanonicalChild(t.children, path[0]);
        a := EveryTextSeen(lex, t.children[path[0]], path[1..]);
      case FoBlock =>
        a := BlockTextSeen(lex, t.children, path[0], path[1..]);
      case SvgText =>
        ContentHolds(t, path);
        a := Ask(InnerText(t.children), "<text>");
      case Copy =>
        ContentHolds(t, path);
        a := Ask(PrintAll(t.children), "<" + t.data.tag + ">");
    }
    AboutIsAsked(lex, t, path, a);
  }

  // ---------- what is left standing ----------

  /** No lookup about the place was answered. */
  ghost predicate Stands(lex: Lexicon, t: Tree, path: Path)
    requires Leads(t, path)
  {
    forall a :: About(lex, t, path, a) ==> !Listed(lex, a.text)
  }

  ghost predicate StandsInBlock(lex: Lexicon, ts: seq<Tree>, i: nat, path: Path)
    requires i < |ts| && Leads(ts[i], path)
  {
    forall a :: AboutBlock(lex, ts, i, path, a) ==> !Listed(lex, a.text)
  }

  /** The node is the table's entry for something that was looked up. */
  ghost predicate IsAnswer(lex: Lexicon, asks: seq<Ask>, d: Data) {
    exists a :: a in asks && Listed(lex, a.text) && d.kind.TextRun? && d.text == lex.table[lex.plain(a.text)]
  }

  /** The node is an answer, or stood in the page and still stands. */
  ghost predicate Accounted(lex: Lexicon, t: Tree, d: Data) {
    || IsAnswer(lex, Asked(lex, t), d)
    || exists path :: TextAt(t, path) && At(t, path).data == d && Stands(lex, t, path)
  }

  ghost predicate AccountedInBlock(lex: Lexicon, ts: seq<Tree>, d: Data) {
    || IsAnswer(lex, AskedFo(lex, ts), d)
    || exists i: nat, path: Path ::
         i < |ts| && TextAt(ts[i], path) && At(ts[i], path).data == d && StandsInBlock(lex, ts, i, path)
  }

  lemma AnswerGrows(lex: Lexicon, asks: seq<Ask>, more: seq<Ask>, d: Data)
    requires IsAnswer(lex, asks, d) && forall a <- asks :: a in more
    ensures IsAnswer(lex, more, d)
  {
    var a :| a in asks && Listed(lex, a.text) && d.kind.TextRun? && d.text == lex.table[lex.plain(a.text)];
    assert a in more;
  }

  lemma OneAnswer(lex: Lexicon, a: Ask, asks: seq<Ask>)
    requires a in asks && Lookup(lex, a.text).Some?
    ensures IsAnswer(lex, asks, RawNode(Lookup(lex, a.text).value).data)
  {
  }

  /** The only text below an element whose content was replaced is the answer. */
  lemma OnlyRaw(d: Data, got: string, path: Path)
    requires TextAt(Tree(d, [RawNode(got)]), path) && d.kind.Elem?
    ensures At(Tree(d, [RawNode(got)]), path) == RawNode(got)
  {
    assert path != [] && path[0] == 0;
    assert Leads(RawNode(got), path[1..]);
    assert path[1..] == [];
  }

  lemma {:induction false} AskedChild(lex: Lexicon, ts: seq<Tree>, i: nat)
    requires i < |ts|
    ensures forall a <- Asked(lex, ts[i]) :: a in AskedAll(lex, ts)
  {
    forall a | a in Asked(lex, ts[i]) ensures a in AskedAll(lex, ts) { AskedBelow(lex, ts, i, a); }
  }

  lemma {:induction false} TrAllAt(lex: Lexicon, ts: seq<Tree>, i: nat)
    requires i < |ts|
    ensures TrAll(lex, ts)[i] == Tr(lex, ts[i])
    decreases ts
  {
    if i > 0 { TrAllAt(lex, ts[1..], i - 1); }
  }

  /** What stands below the i-th child stands below its parent, when the parent's own lookup, if any, missed. */
  lemma ChildAccounted(lex: Lexicon, t: Tree, i: nat, d: Data)
    requires i < |t.children| && Accounted(lex, t.children[i], d)
    requires RoleOf(lex, t).Container? || (RoleOf(lex, t).Copy? && Lookup(lex, PrintAll(t.children)).None?)
    ensures Accounted(lex, t, d)
  {
    var c := t.children[i];
    AskedChild(lex, t.children, i);
    if IsAnswer(lex, Asked(lex, c), d) {
      AnswerGrows(lex, Asked(lex, c), Asked(lex, t), d);
    } else {
      var path :| TextAt(c, path) && At(c, path).data == d && Stands(lex, c, path);
      assert ([i] + path)[1..] == path;
      assert TextAt(t, [i] + path) && At(t, [i] + path).data == d && Stands(lex, t, [i] + path);
    }
  }

  /** Every text of the translated tree is an answer of the table, or a text of the page no lookup about which was
      answered. */
  lemma {:induction false} TextAccounted(lex: Lexicon, t: Tree, path: Path)
    requires TextAt(Tr(lex, t), path)
    ensures Accounted(lex, t, At(Tr(lex, t), path).data)
    decreases t, 1
  {
    var d := At(Tr(lex, t), path).data;
    match RoleOf(lex, t)
    case Fixed =>
      assert Stands(lex, t, path);
    case SvgText =>
      match Lookup(lex, InnerText(t.children)) {
        case Some(got) =>
          OnlyRaw(t.data, got, path);
          OneAnswer(lex, Ask(InnerText(t.children), "<text>"), Asked(lex, t));
        case None =>
          assert Stands(lex, t, path);
      }
    case FoBlock =>
      BlockAccounted(lex, t.children, path[0], path[1..]);
      FromBlock(lex, t, d);
    case Copy =>
      match Lookup(lex, PrintAll(t.children)) {
        case Some(got) =>
          OnlyRaw(t.data, got, path);
          OneAnswer(lex, Ask(PrintAll(t.children), "<" + t.data.tag + ">"), Asked(lex, t));
        case None =>
          TrAllAt(lex, t.children, path[0]);
          TextAccounted(lex, t.children[path[0]], path[1..]);
          ChildAccounted(lex, t, path[0], d);
      }
    case Container =>
      TrAllAt(lex, t.children, path[0]);
      TextAccounted(lex, t.children[path[0]], path[1..]);
      ChildAccounted(lex, t, path[0], d);
  }

  lemma FromBlock(lex: Lexicon, t: Tree, d: Data)
    requires RoleOf(lex, t).FoBlock? && AccountedInBlock(lex, t.children, d)
    ensures Accounted(lex, t, d)
  {
    if !IsAnswer(lex, AskedFo(lex, t.children), d) {
      var i: nat, path: Path :|
        i < |t.children| && TextAt(t.children[i], path) && At(t.children[i], path).data == d
        && StandsInBlock(lex, t.children, i, path);
      assert ([i] + path)[1..] == path;
      assert TextAt(t, [i] + path) && At(t, [i] + path).data == d && Stands(lex, t, [i] + path);
    }
  }

  lemma {:induction false} BlockAccounted(lex: Lexicon, ts: seq<Tree>, j: nat, path: Path)
    requires j < |TrFo(lex, ts)| && TextAt(TrFo(lex, ts)[j], path)
    ensures AccountedInBlock(lex, ts, At(TrFo(lex, ts)[j], path).data)
    decreases ts, 0
  {
    var d, k := At(TrFo(lex, ts)[j], path).data, RunLen(ts);
    if k == 0 {
      if j == 0 {
        MarkAccounted(lex, ts, path);
      } else {
        BlockAccounted(lex, ts[1..], j - 1, path);
        BehindMark(lex, ts, d);
      }
    } else {
      var run := ts[..k];
      match Lookup(lex, PrintAll(run))
      case Some(got) =>
        if j == 0 {
          assert Leads(RawNode(got), path) && path == [];
          OneAnswer(lex, Ask(PrintAll(run), "foreignObject"), AskedFo(lex, ts));
        } else {
          BlockAccounted(lex, ts[k..], j - 1, path);
          BehindRun(lex, ts, d);
        }
      case None =>
        if j < k {
          assert StandsInBlock(lex, ts, j, path);
        } else {
          BlockAccounted(lex, ts[k..], j - k, path);
          BehindRun(lex, ts, d);
        }
    }
  }

  lemma BehindMark(lex: Lexicon, ts: seq<Tree>, d: Data)
    requires ts != [] && RunLen(ts) == 0 && AccountedInBlock(lex, ts[1..], d)
    ensures AccountedInBlock(lex, ts, d)
  {
    if IsAnswer(lex, AskedFo(lex, ts[1..]), d) {
      AnswerGrows(lex, AskedFo(lex, ts[1..]), AskedFo(lex, ts), d);
    } else {
      var i: nat, path: Path :|
        i < |ts[1..]| && TextAt(ts[1..][i], path) && At(ts[1..][i], path).data == d
        && StandsInBlock(lex, ts[1..], i, path);
      assert ts[i + 1] == ts[1..][i];
      assert StandsInBlock(lex, ts, i + 1, path);
    }
  }

  lemma BehindRun(lex: Lexicon, ts: seq<Tree>, d: Data)
    requires ts != [] && RunLen(ts) > 0 && AccountedInBlock(lex, ts[RunLen(ts)..], d)
    ensures AccountedInBlock(lex, ts, d)
  {
    var k := RunLen(ts);
    var rest := ts[k..];
    if IsAnswer(lex, AskedFo(lex, rest), d) {
      AnswerGrows(lex, AskedFo(lex, rest), AskedFo(lex, ts), d);
    } else {
      var i: nat, path: Path :|
        i < |rest| && TextAt(rest[i], path) && At(rest[i], path).data == d && StandsInBlock(lex, rest, i, path);
      assert ts[i + k] == rest[i];
      assert StandsInBlock(lex, ts, i + k, path);
    }
  }

  lemma MarkAsksFirst(lex: Lexicon, ts: seq<Tree>)
    requires ts != [] && RunLen(ts) == 0
    ensures forall a <- AskedMark(lex, ts[0]) :: a in AskedFo(lex, ts)
  {
    assert AskedFo(lex, ts) == AskedMark(lex, ts[0]) + AskedFo(lex, ts[1..]);
  }

  lemma {:induction false} MarkAccounted(lex: Lexicon, ts: seq<Tree>, path: Path)
    requires ts != [] && RunLen(ts) == 0 && TextAt(TrMark(lex, ts[0]), path)
    ensures AccountedInBlock(lex, ts, At(TrMark(lex, ts[0]), path).data)
    decreases ts[0], 2
  {
    var mark, d := ts[0], At(TrMark(lex, ts[0]), path).data;
    if mark.data.tag != "span" {
      assert StandsInBlock(lex, ts, 0, path);
    } else {
      match Lookup(lex, PrintAll(mark.children))
      case Some(got) =>
        OnlyRaw(mark.data, got, path);
        MarkAsksFirst(lex, ts);
        OneAnswer(lex, Ask(PrintAll(mark.children), "foreignObject span"), AskedFo(lex, ts));
      case None =>
        var i := path[0];
        TrAllAt(lex, mark.children, i);
        TextAccounted(lex, mark.children[i], path[1..]);
        BelowSpan(lex, ts, i, d);
    }
  }

  lemma BelowSpan(lex: Lexicon, ts: seq<Tree>, i: nat, d: Data)
    requires ts != [] && RunLen(ts) == 0 && ts[0].data.tag == "span" && Lookup(lex, PrintAll(ts[0].children)).None?
    requires i < |ts[0].children| && Accounted(lex, ts[0].children[i], d)
    ensures AccountedInBlock(lex, ts, d)
  {
    var c := ts[0].children[i];
    AskedChild(lex, ts[0].children, i);
    MarkAsksFirst(lex, ts);
    if IsAnswer(lex, Asked(lex, c), d) {
      AnswerGrows(lex, Asked(lex, c), AskedMark(lex, ts[0]), d);
      AnswerGrows(lex, AskedMark(lex, ts[0]), AskedFo(lex, ts), d);
    } else {
      var path :| TextAt(c, path) && At(c, path).data == d && Stands(lex, c, path);
      assert ([i] + path)[1..] == path;
      assert TextAt(ts[0], [i] + path) && At(ts[0], [i] + path).data == d;
      assert StandsInBlock(lex, ts, 0, [i] + path);
    }
  }

  // ---------- a page nothing is missing from ----------

  /** The text has no entry in the table because it needs none: its key, empty or not, holds no Chinese. */
  predicate NeedsNone(lex: Lexicon, text: string) {
    var key := lex.plain(text);
    forall c <- key :: !('\U{4e00}' <= c <= '\U{9fff}')
  }

  /** The text of the page at the path: translation passes over it, or it was part of something looked up about it;
      and whatever was looked up about it needed no entry. */
  ghost predicate RightlyStands(lex: Lexicon, t: Tree, path: Path)
    requires TextAt(t, path)
  {
    && (Unseen(lex, t, path) || exists a :: About(lex, t, path, a) && Contains(a.text, At(t, path).data.text))
    && forall a :: About(lex, t, path, a) ==> NeedsNone(lex, a.text)
  }

  /** The node is an answer of the table, or a text of the page that rightly stands. */
  ghost predicate Settled(lex: Lexicon, t: Tree, d: Data) {
    || IsAnswer(lex, Asked(lex, t), d)
    || exists path :: TextAt(t, path) && At(t, path).data == d && RightlyStands(lex, t, path)
  }

  ghost predicate AllSettled(lex: Lexicon, t: Tree) {
    forall path :: TextAt(Tr(lex, t), path) ==> Settled(lex, t, At(Tr(lex, t), path).data)
  }

  /** When no lookup missed, every text of the translated page is an answer of the table, or a text of the page that
      translation passes over or looked up under keys without Chinese only. */
  lemma NothingLeftOver(lex: Lexicon, evs: seq<Event>)
    requires forall a <- Asked(lex, Build(evs)) :: !Misses(lex, a.text)
    ensures AllSettled(lex, Build(evs))
  {
    var t := Build(evs);
    RunBuilt(START, evs);
    forall path | TextAt(Tr(lex, t), path) ensures Settled(lex, t, At(Tr(lex, t), path).data) {
      var d := At(Tr(lex, t), path).data;
      TextAccounted(lex, t, path);
      if !IsAnswer(lex, Asked(lex, t), d) {
        var from :| TextAt(t, from) && At(t, from).data == d && Stands(lex, t, from);
        StandsRightly(lex, t, from);
      }
    }
  }

  lemma StandsRightly(lex: Lexicon, t: Tree, path: Path)
    requires CanonicalAll(t.children) && TextAt(t, path) && Stands(lex, t, path)
    requires forall a <- Asked(lex, t) :: !Misses(lex, a.text)
    ensures RightlyStands(lex, t, path)
  {
    if !Unseen(lex, t, path) { var a := EveryTextSeen(lex, t, path); }
    forall a | About(lex, t, path, a) ensures NeedsNone(lex, a.text) {
      AboutIsAsked(lex, t, path, a);
      assert !Misses(lex, a.text) && !Listed(lex, a.text);
    }
  }

  // ---------- every entry looked up is shown ----------

  lemma ContentShown(d: Data, ts: seq<Tree>, got: string)
    requires Holds(d) && Contains(PrintAll(ts), got)
    ensures Contains(Print(Tree(d, ts)), got)
  {
    var t := Tree(d, ts);
    ContainsMore(Head(t), PrintAll(ts), Foot(t), got);
    HeadAndFoot(t);
  }

  lemma RawShown(got: string)
    ensures Contains(PrintAll([RawNode(got)]), got)
  {
    PrintOne(RawNode(got));
    ContainsSelf(got);
  }

  lemma ShownConcat(a: seq<Tree>, b: seq<Tree>, got: string)
    requires Contains(PrintAll(a), got) || Contains(PrintAll(b), got)
    ensures Contains(PrintAll(a + b), got)
  {
    PrintAllConcat(a, b);
    if Contains(PrintAll(a), got) {
      ContainsMore("", PrintAll(a), PrintAll(b), got);
      assert "" + PrintAll(a) == PrintAll(a);
    } else {
      ContainsMore(PrintAll(a), PrintAll(b), "", got);
      assert PrintAll(a) + PrintAll(b) + "" == PrintAll(a) + PrintAll(b);
    }
  }

  /** An element that was asked about, or below which something was, and found listed has children. */
  predicate Fillable(lex: Lexicon, t: Tree) { CanonicalAll(t.children) && (t.children != [] ==> Holds(t.data)) }

  /** What was looked up and is listed shows in the translated page as its entry in the table. */
  lemma {:induction false} EntryShown(lex: Lexicon, t: Tree, a: Ask)
    requires Fillable(lex, t) && lex.plain("") == "" && a in Asked(lex, t) && Listed(lex, a.text)
    ensures Contains(Print(Tr(lex, t)), lex.table[lex.plain(a.text)])
    decreases t, 1
  {
    var got := lex.table[lex.plain(a.text)];
    match RoleOf(lex, t)
    case SvgText =>
      assert t.children != [];
      RawShown(got);
      ContentShown(t.data, [RawNode(got)], got);
    case FoBlock =>
      BlockShown(lex, t.children, a);
      assert t.children != [];
      ContentShown(t.data, TrFo(lex, t.children), got);
    case Copy => UnitShown(lex, t, Ask(PrintAll(t.children), "<" + t.data.tag + ">"), a);
    case Container =>
      AllShown(lex, t.children, a);
      assert t.children != [];
      ContentShown(t.data, TrAll(lex, t.children), got);
  }

  /** An element looked up whole first, and descended into on a miss. */
  lemma {:induction false} UnitShown(lex: Lexicon, t: Tree, own: Ask, a: Ask)
    requires Fillable(lex, t) && lex.plain("") == "" && Listed(lex, a.text) && own.text == PrintAll(t.children)
    requires a == own || (!Listed(lex, own.text) && a in AskedAll(lex, t.children))
    ensures var got := lex.table[lex.plain(a.text)];
      Contains(Print(Tree(t.data, if Listed(lex, own.text) then [RawNode(got)] else TrAll(lex, t.children))), got)
    decreases t, 0
  {
    var got := lex.table[lex.plain(a.text)];
    assert t.children != [];
    if Listed(lex, own.text) {
      RawShown(got);
      ContentShown(t.data, [RawNode(got)], got);
    } else {
      AllShown(lex, t.children, a);
      ContentShown(t.data, TrAll(lex, t.children), got);
    }
  }

  lemma {:induction false} AllShown(lex: Lexicon, ts: seq<Tree>, a: Ask)
    requires CanonicalAll(ts) && lex.plain("") == "" && a in AskedAll(lex, ts) && Listed(lex, a.text)
    ensures Contains(PrintAll(TrAll(lex, ts)), lex.table[lex.plain(a.text)])
    decreases ts
  {
    var got := lex.table[lex.plain(a.text)];
    if a in Asked(lex, ts[0]) {
      EntryShown(lex, ts[0], a);
      PrintOne(Tr(lex, ts[0]));
    } else {
      AllShown(lex, ts[1..], a);
    }
    ShownConcat([Tr(lex, ts[0])], TrAll(lex, ts[1..]), got);
  }

  lemma {:induction false} BlockShown(lex: Lexicon, ts: seq<Tree>, a: Ask)
    requires CanonicalAll(ts) && lex.plain("") == "" && a in AskedFo(lex, ts) && Listed(lex, a.text)
    ensures Contains(PrintAll(TrFo(lex, ts)), lex.table[lex.plain(a.text)])
    decreases ts, 0
  {
    var got, k := lex.table[lex.plain(a.text)], RunLen(ts);
    CanonicalFrom(ts, k);
    if k == 0 {
      if a in AskedMark(lex, ts[0]) {
        UnitShown(lex, ts[0], Ask(PrintAll(ts[0].children), "foreignObject span"), a);
        PrintOne(TrMark(lex, ts[0]));
      } else {
        BlockShown(lex, ts[1..], a);
      }
      ShownConcat([TrMark(lex, ts[0])], TrFo(lex, ts[1..]), got);
    } else {
      if a in AskedRun(ts[..k]) { RawShown(got); } else { BlockShown(lex, ts[k..], a); }
      ShownConcat(FlushRun(lex, ts[..k]), TrFo(lex, ts[k..]), got);
    }
  }

  /** Every entry of the table that is looked up for a page stands in the translated page. */
  lemma EntriesShown(lex: Lexicon, evs: seq<Event>)
    requires lex.plain("") == ""
    ensures forall a <- Asked(lex, Build(evs)) :: Listed(lex, a.text) ==>
      Contains(Print(Tr(lex, Build(evs))), lex.table[lex.plain(a.text)])
  {
    RunBuilt(START, evs);
    forall a | a in Asked(lex, Build(evs)) && Listed(lex, a.text)
      ensures Contains(Print(Tr(lex, Build(evs))), lex.table[lex.plain(a.text)])
    {
      EntryShown(lex, Build(evs), a);
    }
  }
}

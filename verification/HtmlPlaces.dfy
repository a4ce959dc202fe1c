/**
 Where translation substitutes: every replaced piece has its place in the page, and the text before the piece is what
 the page prints before that place.
 */
module HtmlPlaces {
  import opened Text
  import opened HtmlTree
  import opened HtmlTranslate

  // ---------- places and the text before them ----------

  function OpenText(d: Data): string { if d.tag == "#root" then "" else d.rawOpen }

  /** What is printed before the node at the end of the path. */
  function StartOf(t: Tree, path: Path): string
    requires Leads(t, path)
    decreases path
  {
    if path == [] then ""
    else OpenText(t.data) + PrintAll(t.children[..path[0]]) + StartOf(t.children[path[0]], path[1..])
  }

  /** What is printed before the content of that node, and before its i-th child. */
  function ContentOf(t: Tree, path: Path): string
    requires Leads(t, path)
  {
    StartOf(t, path) + OpenText(At(t, path).data)
  }

  function ChildStart(t: Tree, path: Path, i: nat): string
    requires Leads(t, path) && i <= |At(t, path).children|
  {
    ContentOf(t, path) + PrintAll(At(t, path).children[..i])
  }

  /** An element that translation may look into; a span can also be reached from its foreignObject block. */
  predicate Enters(lex: Lexicon, t: Tree) { t.data.tag !in lex.skip || t.data.tag == "span" }

  /** The path leads to `u`, and not through a subtree that is never translated. */
  predicate Reaches(lex: Lexicon, t: Tree, path: Path, u: Tree)
    decreases path
  {
    if path == [] then t == u
    else path[0] < |t.children| && Enters(lex, t) && Reaches(lex, t.children[path[0]], path[1..], u)
  }

  lemma {:induction false} ReachesAt(lex: Lexicon, t: Tree, path: Path, u: Tree)
    requires Reaches(lex, t, path, u)
    ensures Leads(t, path) && At(t, path) == u
    decreases path
  {
    if path != [] { ReachesAt(lex, t.children[path[0]], path[1..], u); }
  }

  lemma {:induction false} ChildPlace(lex: Lexicon, root: Tree, path: Path, t: Tree, i: nat)
    requires Reaches(lex, root, path, t) && Leads(root, path) && At(root, path) == t
    requires Enters(lex, t) && i < |t.children|
    ensures Reaches(lex, root, path + [i], t.children[i]) && Leads(root, path + [i])
    ensures StartOf(root, path + [i]) == ChildStart(root, path, i)
    decreases path
  {
    if path == [] {
      assert (path + [i])[1..] == [];
      assert StartOf(root, path + [i]) == OpenText(root.data) + PrintAll(root.children[..i]) + "";
    } else {
      var j := path[0];
      assert (path + [i])[1..] == path[1..] + [i] && (path + [i])[0] == j;
      ChildPlace(lex, root.children[j], path[1..], t, i);
      StartsNest(OpenText(root.data) + PrintAll(root.children[..j]), StartOf(root.children[j], path[1..]),
                 OpenText(t.data), PrintAll(t.children[..i]));
    }
  }

  lemma StartsNest(a: string, b: string, c: string, d: string)
    ensures a + (b + c + d) == a + b + c + d
  {
    Regroup(a, b, c, d);
  }

  // ---------- where the substitutions are ----------

  /** The nodes from the i-th on are a whole run between structural nodes. */
  predicate RunAt(ts: seq<Tree>, i: nat, run: seq<Tree>) {
    && i + |run| <= |ts| && ts[i..i + |run|] == run
    && (i > 0 ==> Element(ts[i - 1]) && (ts[i - 1].data.tag == "span" || ts[i - 1].data.tag == "br"))
    && (i + |run| < |ts| ==> var t := ts[i + |run|]; Element(t) && (t.data.tag == "span" || t.data.tag == "br"))
  }

  ghost predicate BlockAt(lex: Lexicon, root: Tree, path: Path, block: Tree) {
    Reaches(lex, root, path, block) && Leads(root, path) && At(root, path) == block && RoleOf(lex, block).FoBlock?
  }

  ghost predicate OwnerAt(lex: Lexicon, root: Tree, path: Path, owner: Tree) {
    Reaches(lex, root, path, owner) && Leads(root, path) && At(root, path) == owner
  }

  /** The nodes a piece replaces stand in the page where its segment says and `before` is what the page prints before
      them: all the children of the `<text>` or of the piece of copy that owns them, all those of a span that is a
      child of a foreignObject block, or a whole run between structural children of such a block. */
  ghost predicate Located(lex: Lexicon, root: Tree, before: string, p: Piece)
    requires p.Swap?
  {
    match p.segment
    case Diagram(d) => exists path :: OwnerAt(lex, root, path, Tree(d, p.nodes)) && before == ContentOf(root, path)
    case Unit(d) =>
      && RoleOf(lex, Tree(d, p.nodes)).Copy?
      && exists path :: OwnerAt(lex, root, path, Tree(d, p.nodes)) && before == ContentOf(root, path)
    case Span(d) =>
      exists path, block, i: nat ::
        && BlockAt(lex, root, path, block) && i < |block.children| && block.children[i] == Tree(d, p.nodes)
        && before == ChildStart(root, path, i) + OpenText(d)
    case Run =>
      exists path, block, i: nat ::
        BlockAt(lex, root, path, block) && RunAt(block.children, i, p.nodes) && before == ChildStart(root, path, i)
  }

  /** So does every piece, when `before` is printed before the first. */
  ghost predicate AllLocated(lex: Lexicon, root: Tree, before: string, ps: seq<Piece>)
    decreases ps
  {
    ps != [] ==>
      && (ps[0].Swap? ==> Located(lex, root, before, ps[0]))
      && AllLocated(lex, root, before + OldText(ps[0]), ps[1..])
  }

  lemma {:induction false} LocatedConcat(lex: Lexicon, root: Tree, before: string, a: seq<Piece>, b: seq<Piece>)
    requires AllLocated(lex, root, before, a) && AllLocated(lex, root, before + Before(a), b)
    ensures AllLocated(lex, root, before, a + b)
    decreases a
  {
    if a == [] {
      assert a + b == b && before + "" == before;
    } else {
      assert (a + b)[1..] == a[1..] + b;
      Assoc(before, OldText(a[0]), Before(a[1..]));
      LocatedConcat(lex, root, before + OldText(a[0]), a[1..], b);
    }
  }

  lemma KeepLocated(lex: Lexicon, root: Tree, before: string, text: string)
    ensures AllLocated(lex, root, before, [Keep(text)])
  {
    assert [Keep(text)][1..] == [];
  }

  lemma SwapLocated(lex: Lexicon, root: Tree, before: string, p: Piece)
    requires p.Swap? && Located(lex, root, before, p)
    ensures AllLocated(lex, root, before, [p])
  {
    assert [p][1..] == [];
  }

  lemma FramedLocated(lex: Lexicon, root: Tree, before: string, d: Data, inner: seq<Piece>)
    requires AllLocated(lex, root, before + OpenText(d), inner)
    ensures AllLocated(lex, root, before, Framed(d, inner))
  {
    var open, close := [Keep(d.rawOpen)], [Keep(Closer(d))];
    if d.tag == "#root" {
      assert before + "" == before;
    } else if Childless(d) {
      KeepLocated(lex, root, before, d.rawOpen);
    } else {
      assert open[1..] == [] && Before(open) == d.rawOpen + "" == d.rawOpen;
      KeepLocated(lex, root, before, d.rawOpen);
      LocatedConcat(lex, root, before, open, inner);
      KeepLocated(lex, root, before + Before(open + inner), Closer(d));
      LocatedConcat(lex, root, before, open + inner, close);
    }
  }

  // ---------- every piece has its place ----------

  lemma NextStart(root: Tree, path: Path, i: nat, k: nat)
    requires Leads(root, path) && i + k <= |At(root, path).children|
    ensures ChildStart(root, path, i) + PrintAll(At(root, path).children[i..][..k]) == ChildStart(root, path, i + k)
  {
    var ts := At(root, path).children;
    assert ts[..i + k] == ts[..i] + ts[i..][..k];
    PrintAllConcat(ts[..i], ts[i..][..k]);
    Assoc(ContentOf(root, path), PrintAll(ts[..i]), PrintAll(ts[i..][..k]));
  }

  lemma NoChildren(root: Tree, path: Path)
    requires Leads(root, path)
    ensures ChildStart(root, path, 0) == ContentOf(root, path)
  {
    assert At(root, path).children[..0] == [];
    assert ContentOf(root, path) + "" == ContentOf(root, path);
  }

  lemma {:induction false} TrLocated(lex: Lexicon, root: Tree, path: Path, t: Tree)
    requires OwnerAt(lex, root, path, t)
    ensures AllLocated(lex, root, StartOf(root, path), Pieces(lex, t))
    decreases t, 1
  {
    var start := StartOf(root, path);
    match RoleOf(lex, t)
    case Fixed => KeepLocated(lex, root, start, Print(t));
    case SvgText =>
      if Lookup(lex, InnerText(t.children)).Some? {
        WholeLocated(lex, root, path, t, Swap(t.children, Diagram(t.data), Lookup(lex, InnerText(t.children)).value));
      } else {
        KeepLocated(lex, root, start, Print(t));
      }
    case FoBlock =>
      NoChildren(root, path);
      FoLocated(lex, root, path, t, 0);
      FramedLocated(lex, root, start, t.data, PiecesFo(lex, t.children));
    case Copy =>
      if Lookup(lex, PrintAll(t.children)).Some? {
        WholeLocated(lex, root, path, t, Swap(t.children, Unit(t.data), Lookup(lex, PrintAll(t.children)).value));
      } else {
        InsideLocated(lex, root, path, t);
      }
    case Container => InsideLocated(lex, root, path, t);
  }

  lemma WholeLocated(lex: Lexicon, root: Tree, path: Path, t: Tree, p: Piece)
    requires OwnerAt(lex, root, path, t) && p.Swap? && p.nodes == t.children
    requires p.segment == Diagram(t.data) || (p.segment == Unit(t.data) && RoleOf(lex, t).Copy?)
    ensures AllLocated(lex, root, StartOf(root, path), Framed(t.data, [p]))
  {
    assert t == Tree(t.data, p.nodes);
    SwapLocated(lex, root, ContentOf(root, path), p);
    FramedLocated(lex, root, StartOf(root, path), t.data, [p]);
  }

  lemma {:induction false} InsideLocated(lex: Lexicon, root: Tree, path: Path, t: Tree)
    requires OwnerAt(lex, root, path, t) && Enters(lex, t)
    ensures AllLocated(lex, root, StartOf(root, path), Framed(t.data, PiecesAll(lex, t.children)))
    decreases t, 0, |t.children| + 1
  {
    NoChildren(root, path);
    BelowLocated(lex, root, path, t, 0);
    FramedLocated(lex, root, StartOf(root, path), t.data, PiecesAll(lex, t.children));
  }

  lemma {:induction false} BelowLocated(lex: Lexicon, root: Tree, path: Path, t: Tree, i: nat)
    requires OwnerAt(lex, root, path, t) && Enters(lex, t) && i <= |t.children|
    ensures AllLocated(lex, root, ChildStart(root, path, i), PiecesAll(lex, t.children[i..]))
    decreases t, 0, |t.children| - i
  {
    if i < |t.children| {
      var child := t.children[i];
      ChildPlace(lex, root, path, t, i);
      ReachesAt(lex, root, path + [i], child);
      TrLocated(lex, root, path + [i], child);
      BelowLocated(lex, root, path, t, i + 1);
      OnePiece(lex, root, path, t, i);
      assert t.children[i..][1..] == t.children[i + 1..];
      LocatedConcat(lex, root, ChildStart(root, path, i), Pieces(lex, child), PiecesAll(lex, t.children[i + 1..]));
    }
  }

  lemma OnePiece(lex: Lexicon, root: Tree, path: Path, t: Tree, i: nat)
    requires Leads(root, path) && At(root, path) == t && i < |t.children|
    ensures ChildStart(root, path, i) + Before(Pieces(lex, t.children[i])) == ChildStart(root, path, i + 1)
  {
    TrCuts(lex, t.children[i]);
    assert t.children[i..][..1] == [t.children[i]];
    NextStart(root, path, i, 1);
  }

  /** Between the runs of a block: nothing of the run before position `i` is left. */
  predicate Between(ts: seq<Tree>, i: nat)
    requires i <= |ts|
  {
    i == 0 || i == |ts| || Structural(ts[i - 1]) || Structural(ts[i])
  }

  lemma {:induction false} FoLocated(lex: Lexicon, root: Tree, path: Path, t: Tree, i: nat)
    requires BlockAt(lex, root, path, t) && i <= |t.children| && Between(t.children, i)
    ensures AllLocated(lex, root, ChildStart(root, path, i), PiecesFo(lex, t.children[i..]))
    decreases t, 0, |t.children| - i, 1
  {
    if i < |t.children| {
      if Structural(t.children[i]) {
        FoMarkLocated(lex, root, path, t, i);
      } else {
        FoRunLocated(lex, root, path, t, i);
      }
    }
  }

  lemma {:induction false} FoMarkLocated(lex: Lexicon, root: Tree, path: Path, t: Tree, i: nat)
    requires BlockAt(lex, root, path, t) && i < |t.children| && Structural(t.children[i])
    ensures AllLocated(lex, root, ChildStart(root, path, i), PiecesFo(lex, t.children[i..]))
    decreases t, 0, |t.children| - i, 0
  {
    MarkLocated(lex, root, path, t, i);
    FoLocated(lex, root, path, t, i + 1);
    MarkFirst(lex, root, path, t, i);
  }

  lemma {:induction false} FoRunLocated(lex: Lexicon, root: Tree, path: Path, t: Tree, i: nat)
    requires BlockAt(lex, root, path, t) && i < |t.children| && Between(t.children, i) && !Structural(t.children[i])
    ensures AllLocated(lex, root, ChildStart(root, path, i), PiecesFo(lex, t.children[i..]))
    decreases t, 0, |t.children| - i, 0
  {
    var k := NextRun(t.children, i);
    FoLocated(lex, root, path, t, i + k);
    RunThen(lex, root, path, t, i, k);
  }

  lemma NextRun(ts: seq<Tree>, i: nat) returns (k: nat)
    requires i < |ts| && Between(ts, i) && !Structural(ts[i])
    ensures k == RunLen(ts[i..]) > 0 && i + k <= |ts| && Between(ts, i + k) && RunAt(ts, i, ts[i..][..k])
  {
    k := RunLen(ts[i..]);
    RunIsMaximal(ts, i, k);
  }

  lemma RunThen(lex: Lexicon, root: Tree, path: Path, t: Tree, i: nat, k: nat)
    requires BlockAt(lex, root, path, t) && i + k <= |t.children| && k == RunLen(t.children[i..]) > 0
    requires RunAt(t.children, i, t.children[i..][..k])
    requires AllLocated(lex, root, ChildStart(root, path, i + k), PiecesFo(lex, t.children[i + k..]))
    ensures AllLocated(lex, root, ChildStart(root, path, i), PiecesFo(lex, t.children[i..]))
  {
    RunLocated(lex, root, path, t, i, k);
    RunFirst(lex, root, path, t, i, k);
  }

  lemma MarkFirst(lex: Lexicon, root: Tree, path: Path, t: Tree, i: nat)
    requires Leads(root, path) && At(root, path) == t && i < |t.children| && Structural(t.children[i])
    requires AllLocated(lex, root, ChildStart(root, path, i), PiecesMark(lex, t.children[i]))
    requires AllLocated(lex, root, ChildStart(root, path, i + 1), PiecesFo(lex, t.children[i + 1..]))
    ensures AllLocated(lex, root, ChildStart(root, path, i), PiecesFo(lex, t.children[i..]))
  {
    var ts := t.children;
    assert ts[i..][0] == ts[i] && ts[i..][1..] == ts[i + 1..] && ts[i..][..1] == [ts[i]];
    MarkIsLocal(lex, ts[i]);
    NextStart(root, path, i, 1);
    LocatedConcat(lex, root, ChildStart(root, path, i), PiecesMark(lex, ts[i]), PiecesFo(lex, ts[i + 1..]));
  }

  lemma RunFirst(lex: Lexicon, root: Tree, path: Path, t: Tree, i: nat, k: nat)
    requires Leads(root, path) && At(root, path) == t && i + k <= |t.children| && k == RunLen(t.children[i..]) > 0
    requires AllLocated(lex, root, ChildStart(root, path, i), PiecesRun(lex, t.children[i..][..k]))
    requires AllLocated(lex, root, ChildStart(root, path, i + k), PiecesFo(lex, t.children[i + k..]))
    ensures AllLocated(lex, root, ChildStart(root, path, i), PiecesFo(lex, t.children[i..]))
  {
    var ts := t.children;
    assert ts[i..][k..] == ts[i + k..];
    RunIsLocal(lex, ts[i..][..k]);
    NextStart(root, path, i, k);
    LocatedConcat(lex, root, ChildStart(root, path, i), PiecesRun(lex, ts[i..][..k]), PiecesFo(lex, ts[i + k..]));
  }

  lemma {:induction false} MarkLocated(lex: Lexicon, root: Tree, path: Path, t: Tree, i: nat)
    requires BlockAt(lex, root, path, t) && i < |t.children|
    ensures AllLocated(lex, root, ChildStart(root, path, i), PiecesMark(lex, t.children[i]))
    decreases t, 0, 0
  {
    var mark, start := t.children[i], ChildStart(root, path, i);
    if mark.data.tag != "span" {
      KeepLocated(lex, root, start, Print(mark));
    } else {
      match Lookup(lex, PrintAll(mark.children))
      case Some(got) =>
        SpanLocated(lex, root, path, t, i, got);
      case None =>
        ChildPlace(lex, root, path, t, i);
        ReachesAt(lex, root, path + [i], mark);
        InsideLocated(lex, root, path + [i], mark);
    }
  }

  lemma SpanLocated(lex: Lexicon, root: Tree, path: Path, t: Tree, i: nat, got: string)
    requires BlockAt(lex, root, path, t) && i < |t.children|
    ensures var span := t.children[i];
      AllLocated(lex, root, ChildStart(root, path, i),
                 Framed(span.data, [Swap(span.children, Segment.Span(span.data), got)]))
  {
    var span, start := t.children[i], ChildStart(root, path, i);
    var p := Swap(span.children, Segment.Span(span.data), got);
    assert t.children[i] == Tree(span.data, p.nodes);
    SwapLocated(lex, root, start + OpenText(span.data), p);
    FramedLocated(lex, root, start, span.data, [p]);
  }

  lemma RunIsMaximal(ts: seq<Tree>, i: nat, k: nat)
    requires i < |ts| && Between(ts, i) && k == RunLen(ts[i..]) && !Structural(ts[i])
    ensures k > 0 && i + k <= |ts| && Between(ts, i + k)
    ensures RunAt(ts, i, ts[i..][..k])
  {
    assert ts[i..][0] == ts[i] && ts[i..][..k] == ts[i..i + k];
    if k < |ts[i..]| { assert ts[i + k] == ts[i..][k]; }
  }

  lemma RunLocated(lex: Lexicon, root: Tree, path: Path, t: Tree, i: nat, k: nat)
    requires BlockAt(lex, root, path, t) && i + k <= |t.children| && RunAt(t.children, i, t.children[i..][..k])
    ensures AllLocated(lex, root, ChildStart(root, path, i), PiecesRun(lex, t.children[i..][..k]))
  {
    var run, start := t.children[i..][..k], ChildStart(root, path, i);
    match Lookup(lex, PrintAll(run))
    case Some(got) => SwapLocated(lex, root, start, Swap(run, Run, got));
    case None => KeepLocated(lex, root, start, PrintAll(run));
  }

  /** Translation is local: the translated page is the page with disjoint pieces substituted by the table's answers
      for them, each piece standing at its place in the page, as the whole content of one looked-up unit or as one run
      of a foreignObject block, and none in a subtree that is never translated. */
  lemma TrIsLocal(lex: Lexicon, t: Tree)
    ensures Cuts(lex, Pieces(lex, t), [t], [Tr(lex, t)])
    ensures AllLocated(lex, t, "", Pieces(lex, t))
  {
    TrCuts(lex, t);
    TrLocated(lex, t, [], t);
  }
}

/**
 Translation of a tree as a value: which parts of a page are looked up, what replaces them, and what
 stays as it was.
 */
module HtmlTranslate {
  import opened Text
  import opened HtmlTree

  /** The translation table, the key function (`plain`), the test for a foreignObject block on an opening
      tag's text, and the tag classes. Everything below holds for any of them. */
  datatype Lexicon = Lexicon(
    table: map<string, string>,
    plain: string -> string,
    isFo: string -> bool,
    units: set<string>,
    inlineOnly: set<string>,
    blocky: set<string>,
    skip: set<string>)

  /** The script's own tag classes. */
  function PageLexicon(table: map<string, string>, plain: string -> string, isFo: string -> bool): Lexicon {
    Lexicon(table, plain, isFo,
            {"title", "p", "li", "td", "th", "caption", "h1", "h2", "h3", "h4",
             "h5", "h6", "summary", "button", "a", "strong", "em", "b", "i",
             "code", "span", "div", "text", "label", "figcaption", "dt", "dd",
             "option", "blockquote"},
            {"strong", "em", "b", "i", "code", "small", "u", "sub", "sup",
             "mark", "kbd", "samp", "var", "abbr", "cite", "q", "time", "br", "wbr"},
            {"div", "p", "section", "table", "thead", "tbody", "tr", "ul", "ol",
             "h1", "h2", "h3", "h4", "h5", "h6", "header", "footer", "nav", "svg",
             "figure", "caption", "blockquote", "details", "main", "article"},
            {"style", "script"})
  }

  // ---------- looking up ----------

  predicate HasCJK(s: string) { exists c <- s :: '\U{4e00}' <= c <= '\U{9fff}' }

  function Lookup(lex: Lexicon, text: string): Option<string> {
    var key := lex.plain(text);
    if key != "" && HasCJK(key) && key in lex.table then Some(lex.table[key]) else None
  }

  /** The text's key has a Chinese character and its entry in the table. */
  predicate Listed(lex: Lexicon, text: string) {
    var key := lex.plain(text);
    key in lex.table && exists c <- key :: '\U{4e00}' <= c <= '\U{9fff}'
  }

  /** A lookup answers with the entry of the text's key, and only when there is one. */
  lemma LookupIsEntry(lex: Lexicon, text: string)
    ensures Listed(lex, text) ==> Lookup(lex, text) == Some(lex.table[lex.plain(text)])
    ensures !Listed(lex, text) ==> Lookup(lex, text) == None
  {
  }

  /** A text that was looked up, and where. */
  datatype Ask = Ask(text: string, place: string)

  predicate Misses(lex: Lexicon, text: string) {
    var key := lex.plain(text);
    key != "" && HasCJK(key) && key !in lex.table
  }

  /** The record of missing keys after one lookup; the first place a key is missed stays recorded. */
  function Note(lex: Lexicon, missing: map<string, string>, a: Ask): map<string, string> {
    var key := lex.plain(a.text);
    if Misses(lex, a.text) && key !in missing then missing[key := a.place] else missing
  }

  function NoteAll(lex: Lexicon, missing: map<string, string>, asks: seq<Ask>): map<string, string>
    decreases asks
  {
    if asks == [] then missing else NoteAll(lex, Note(lex, missing, asks[0]), asks[1..])
  }

  lemma {:induction false} NoteAllConcat(lex: Lexicon, missing: map<string, string>, a: seq<Ask>, b: seq<Ask>)
    ensures NoteAll(lex, missing, a + b) == NoteAll(lex, NoteAll(lex, missing, a), b)
    decreases a
  {
    if a == [] {
      assert a + b == b;
    } else {
      assert (a + b)[1..] == a[1..] + b;
      NoteAllConcat(lex, Note(lex, missing, a[0]), a[1..], b);
    }
  }

  /** No miss slips through: a key is on record exactly when it was before or some lookup missed it. */
  lemma {:induction false} MissingIsComplete(lex: Lexicon, missing: map<string, string>, asks: seq<Ask>, key: string)
    ensures key in NoteAll(lex, missing, asks)
       <==> || key in missing
            || (&& (exists c <- key :: '\U{4e00}' <= c <= '\U{9fff}') && key !in lex.table
                && exists a <- asks :: lex.plain(a.text) == key)
    decreases asks
  {
    if asks != [] {
      MissingIsComplete(lex, Note(lex, missing, asks[0]), asks[1..], key);
      assert asks == [asks[0]] + asks[1..];
    }
  }

  /** The i-th lookup is the first that asks for the key. */
  ghost predicate FirstAsk(lex: Lexicon, asks: seq<Ask>, key: string, i: nat) {
    && i < |asks| && lex.plain(asks[i].text) == key
    && forall j | 0 <= j < i :: lex.plain(asks[j].text) != key
  }

  /** A key is on record with the place it was first missed at, whatever is looked up later. */
  lemma {:induction false} FirstPlaceStays(lex: Lexicon, missing: map<string, string>, asks: seq<Ask>, key: string)
    ensures key in missing ==> key in NoteAll(lex, missing, asks) && NoteAll(lex, missing, asks)[key] == missing[key]
    ensures forall i: nat :: key !in missing && key in NoteAll(lex, missing, asks) && FirstAsk(lex, asks, key, i) ==>
              NoteAll(lex, missing, asks)[key] == asks[i].place
    decreases asks
  {
    if asks != [] {
      FirstPlaceStays(lex, Note(lex, missing, asks[0]), asks[1..], key);
      MissingIsComplete(lex, missing, asks, key);
      forall i: nat | FirstAsk(lex, asks, key, i) && i > 0 ensures FirstAsk(lex, asks[1..], key, i - 1) {
        assert forall j | 0 <= j < i - 1 :: asks[1..][j] == asks[j + 1];
      }
    }
  }

  // ---------- the parts of a page ----------

  predicate Element(t: Tree) { t.data.kind.Elem? }

  function InnerText(ts: seq<Tree>): string {
    if ts == [] then ""
    else
      (match ts[0].data.kind
       case TextRun => ts[0].data.text
       case Elem => InnerText(ts[0].children)
       case _ => "")
      + InnerText(ts[1..])
  }

  /** The texts of the nodes, in order, comments and declarations left out. */
  function TextLeaves(ts: seq<Tree>): seq<string> {
    if ts == [] then []
    else if ts[0].data.kind.TextRun? then [ts[0].data.text] + TextLeaves(ts[1..])
    else if Element(ts[0]) then TextLeaves(ts[0].children) + TextLeaves(ts[1..])
    else TextLeaves(ts[1..])
  }

  lemma {:induction false} JoinConcat(a: seq<string>, b: seq<string>)
    ensures Join(a + b, "") == Join(a, "") + Join(b, "")
    decreases a
  {
    if a == [] {
      assert a + b == b;
    } else {
      assert (a + b)[1..] == a[1..] + b;
      JoinConcat(a[1..], b);
      JoinFirst(a);
      JoinFirst(a + b);
      Assoc(a[0], Join(a[1..], ""), Join(b, ""));
    }
  }

  lemma JoinFirst(a: seq<string>)
    requires a != []
    ensures Join(a, "") == a[0] + Join(a[1..], "")
  {
    assert a[0] + "" == a[0];
  }

  /** The inner text is the texts below, one after the other. */
  lemma {:induction false} InnerTextIsLeaves(ts: seq<Tree>)
    ensures InnerText(ts) == Join(TextLeaves(ts), "")
    decreases ts
  {
    if ts != [] {
      InnerTextIsLeaves(ts[1..]);
      if ts[0].data.kind.TextRun? {
        JoinConcat([ts[0].data.text], TextLeaves(ts[1..]));
      } else if Element(ts[0]) {
        InnerTextIsLeaves(ts[0].children);
        JoinConcat(TextLeaves(ts[0].children), TextLeaves(ts[1..]));
      }
    }
  }

  predicate HasElementChild(lex: Lexicon, t: Tree) {
    exists i | 0 <= i < |t.children| :: Element(t.children[i]) && t.children[i].data.tag !in lex.inlineOnly
  }

  predicate HasBlockChild(lex: Lexicon, t: Tree) {
    exists i | 0 <= i < |t.children| :: Element(t.children[i]) && t.children[i].data.tag in lex.blocky
  }

  /** How a node is treated: left alone, looked up as diagram text, split as a foreignObject block, looked
      up as a piece of copy, or only descended into. */
  datatype Role = Fixed | SvgText | FoBlock | Copy | Container

  function RoleOf(lex: Lexicon, t: Tree): Role {
    var tag := t.data.tag;
    if !Element(t) || tag in lex.skip then Fixed
    else if tag == "text" then SvgText
    else if tag == "div" && lex.isFo(t.data.rawOpen) then FoBlock
    else if tag in lex.units && tag !in lex.inlineOnly && !HasBlockChild(lex, t)
            && !(tag == "div" && HasElementChild(lex, t)) then Copy
    else Container
  }

  /** A child that makes its parent a container: a block, or in a `div` any element that is not purely inline. */
  predicate Contained(lex: Lexicon, parent: Data, child: Tree) {
    Element(child) && (child.data.tag in lex.blocky || (parent.tag == "div" && child.data.tag !in lex.inlineOnly))
  }

  /** Exactly which elements are looked up whole, as diagram text, block by block, or only descended into. */
  lemma RoleExactly(lex: Lexicon, t: Tree)
    ensures var tag, role := t.data.tag, RoleOf(lex, t);
      var live := Element(t) && tag !in lex.skip;
      var block := tag == "div" && lex.isFo(t.data.rawOpen);
      var copy := tag in lex.units && tag !in lex.inlineOnly && forall c <- t.children :: !Contained(lex, t.data, c);
      && (role.Fixed? <==> !live)
      && (role.SvgText? <==> live && tag == "text")
      && (role.FoBlock? <==> live && block)
      && (role.Copy? <==> live && tag != "text" && !block && copy)
      && (role.Container? <==> live && tag != "text" && !block && !copy)
  {
    if HasBlockChild(lex, t) {
      var i :| 0 <= i < |t.children| && Element(t.children[i]) && t.children[i].data.tag in lex.blocky;
      assert Contained(lex, t.data, t.children[i]);
    }
    if t.data.tag == "div" && HasElementChild(lex, t) {
      var i :| 0 <= i < |t.children| && Element(t.children[i]) && t.children[i].data.tag !in lex.inlineOnly;
      assert Contained(lex, t.data, t.children[i]);
    }
  }

  predicate Structural(t: Tree) { Element(t) && (t.data.tag == "span" || t.data.tag == "br") }

  function RawNode(text: string): Tree { Leaf(NewData("#raw", "", TextRun, text)) }

  /** The length of the run of non-structural nodes `ts` begins with. */
  function RunLen(ts: seq<Tree>): (k: nat)
    ensures k <= |ts| && (forall i :: 0 <= i < k ==> !Structural(ts[i]))
    ensures k < |ts| ==> Structural(ts[k])
  {
    if ts == [] || Structural(ts[0]) then 0 else 1 + RunLen(ts[1..])
  }

  // ---------- translation ----------

  function Tr(lex: Lexicon, t: Tree): Tree {
    match RoleOf(lex, t)
    case Fixed => t
    case SvgText =>
      (match Lookup(lex, InnerText(t.children))
       case Some(got) => Tree(t.data, [RawNode(got)])
       case None => t)
    case FoBlock => Tree(t.data, TrFo(lex, t.children))
    case Copy =>
      (match Lookup(lex, PrintAll(t.children))
       case Some(got) => Tree(t.data, [RawNode(got)])
       case None => Tree(t.data, TrAll(lex, t.children)))
    case Container => Tree(t.data, TrAll(lex, t.children))
  }

  function TrAll(lex: Lexicon, ts: seq<Tree>): (r: seq<Tree>)
    ensures |r| == |ts|
  {
    if ts == [] then [] else [Tr(lex, ts[0])] + TrAll(lex, ts[1..])
  }

  function FlushRun(lex: Lexicon, run: seq<Tree>): seq<Tree> {
    match Lookup(lex, PrintAll(run))
    case Some(got) => [RawNode(got)]
    case None => run
  }

  function TrMark(lex: Lexicon, t: Tree): Tree {
    if t.data.tag != "span" then t
    else
      match Lookup(lex, PrintAll(t.children))
      case Some(got) => Tree(t.data, [RawNode(got)])
      case None => Tree(t.data, TrAll(lex, t.children))
  }

  /** The children of a foreignObject block: each maximal run between structural nodes is looked up as
      one piece, structural nodes keep their place. */
  function TrFo(lex: Lexicon, ts: seq<Tree>): seq<Tree> {
    var k := RunLen(ts);
    if ts == [] then []
    else if k == 0 then [TrMark(lex, ts[0])] + TrFo(lex, ts[1..])
    else FlushRun(lex, ts[..k]) + TrFo(lex, ts[k..])
  }

  // ---------- the lookups made, in order ----------

  function Asked(lex: Lexicon, t: Tree): seq<Ask> {
    match RoleOf(lex, t)
    case Fixed => []
    case SvgText => [Ask(InnerText(t.children), "<text>")]
    case FoBlock => AskedFo(lex, t.children)
    case Copy =>
      var a := Ask(PrintAll(t.children), "<" + t.data.tag + ">");
      if Lookup(lex, a.text).Some? then [a] else [a] + AskedAll(lex, t.children)
    case Container => AskedAll(lex, t.children)
  }

  function AskedAll(lex: Lexicon, ts: seq<Tree>): seq<Ask> {
    if ts == [] then [] else Asked(lex, ts[0]) + AskedAll(lex, ts[1..])
  }

  function AskedMark(lex: Lexicon, t: Tree): seq<Ask> {
    if t.data.tag != "span" then []
    else
      var a := Ask(PrintAll(t.children), "foreignObject span");
      if Lookup(lex, a.text).Some? then [a] else [a] + AskedAll(lex, t.children)
  }

  function AskedRun(run: seq<Tree>): seq<Ask> {
    if run == [] then [] else [Ask(PrintAll(run), "foreignObject")]
  }

  function AskedFo(lex: Lexicon, ts: seq<Tree>): seq<Ask> {
    var k := RunLen(ts);
    if ts == [] then []
    else if k == 0 then AskedMark(lex, ts[0]) + AskedFo(lex, ts[1..])
    else AskedRun(ts[..k]) + AskedFo(lex, ts[k..])
  }

  // ---------- translation as substitution in the text ----------

  /** A page's text cut into pieces: text that stays, and the printed form of consecutive nodes that were
      looked up together and replaced. */
  datatype Piece =
    | Keep(text: string)
    | Swap(nodes: seq<Tree>, segment: Segment, got: string)

  /** What was looked up together: the whole content of a `<text>`, of a piece of copy or of a span in a
      foreignObject block, or a run between structural nodes of such a block. */
  datatype Segment = Diagram(owner: Data) | Unit(owner: Data) | Span(owner: Data) | Run

  /** The nodes may go as one. A piece of copy holds no block, and as a `div` nothing but inline elements, so that a
      replacement never wipes out layout; a run holds no structural node. */
  predicate Eligible(lex: Lexicon, segment: Segment, nodes: seq<Tree>) {
    match segment
    case Diagram(d) => d.tag == "text"
    case Unit(d) =>
      && d.tag in lex.units && d.tag !in lex.inlineOnly && d.tag !in lex.skip
      && (forall c <- nodes :: Element(c) ==> c.data.tag !in lex.blocky)
      && (d.tag == "div" ==> forall c <- nodes :: Element(c) ==> c.data.tag in lex.inlineOnly)
    case Span(d) => d.tag == "span"
    case Run => nodes != [] && forall c <- nodes :: Element(c) ==> c.data.tag != "span" && c.data.tag != "br"
  }

  function Source(segment: Segment, nodes: seq<Tree>): string {
    if segment.Diagram? then InnerText(nodes) else PrintAll(nodes)
  }

  function OldText(p: Piece): string { if p.Keep? then p.text else PrintAll(p.nodes) }

  function NewText(p: Piece): string { if p.Keep? then p.text else p.got }

  function Before(ps: seq<Piece>): string {
    if ps == [] then "" else OldText(ps[0]) + Before(ps[1..])
  }

  function After(ps: seq<Piece>): string {
    if ps == [] then "" else NewText(ps[0]) + After(ps[1..])
  }

  /** Every replacement is of nodes that may go as one, and is the table's answer for the text it replaces (its
      inner text for `<text>`). */
  predicate Licensed(lex: Lexicon, ps: seq<Piece>) {
    ps != [] ==>
      && (ps[0].Swap? ==> Eligible(lex, ps[0].segment, ps[0].nodes)
                          && Listed(lex, Source(ps[0].segment, ps[0].nodes))
                          && ps[0].got == lex.table[lex.plain(Source(ps[0].segment, ps[0].nodes))])
      && Licensed(lex, ps[1..])
  }

  lemma {:induction false} LicensedConcat(lex: Lexicon, a: seq<Piece>, b: seq<Piece>)
    requires Licensed(lex, a) && Licensed(lex, b)
    ensures Licensed(lex, a + b)
  {
    if a == [] {
      assert a + b == b;
    } else {
      assert (a + b)[1..] == a[1..] + b;
      LicensedConcat(lex, a[1..], b);
    }
  }

  lemma {:induction false} PiecesConcat(a: seq<Piece>, b: seq<Piece>)
    ensures Before(a + b) == Before(a) + Before(b)
    ensures After(a + b) == After(a) + After(b)
  {
    if a == [] {
      assert a + b == b;
    } else {
      assert (a + b)[1..] == a[1..] + b && (a + b)[0] == a[0];
      PiecesConcat(a[1..], b);
      Assoc(OldText(a[0]), Before(a[1..]), Before(b));
      Assoc(NewText(a[0]), After(a[1..]), After(b));
    }
  }

  /** The pieces of an element, given those of its children. */
  function Framed(d: Data, inner: seq<Piece>): seq<Piece> {
    if d.tag == "#root" then inner
    else if Childless(d) then [Keep(d.rawOpen)]
    else [Keep(d.rawOpen)] + inner + [Keep(Closer(d))]
  }

  lemma FramedText(lex: Lexicon, d: Data, cs: seq<Tree>, cs': seq<Tree>, inner: seq<Piece>)
    requires d.kind.Elem? && Licensed(lex, inner)
    requires Before(inner) == PrintAll(cs) && After(inner) == PrintAll(cs')
    ensures Licensed(lex, Framed(d, inner))
    ensures Before(Framed(d, inner)) == Print(Tree(d, cs))
    ensures After(Framed(d, inner)) == Print(Tree(d, cs'))
  {
    if d.tag != "#root" && !Childless(d) {
      var open, close := [Keep(d.rawOpen)], [Keep(Closer(d))];
      PiecesConcat(open + inner, close);
      PiecesConcat(open, inner);
      LicensedConcat(lex, open, inner);
      LicensedConcat(lex, open + inner, close);
      assert open[1..] == [] && close[1..] == [];
      assert Before(open) == After(open) == d.rawOpen;
      assert Before(close) == After(close) == Closer(d);
    }
  }

  function Pieces(lex: Lexicon, t: Tree): seq<Piece> {
    match RoleOf(lex, t)
    case Fixed => [Keep(Print(t))]
    case SvgText =>
      (match Lookup(lex, InnerText(t.children))
       case Some(got) => Framed(t.data, [Swap(t.children, Diagram(t.data), got)])
       case None => [Keep(Print(t))])
    case FoBlock => Framed(t.data, PiecesFo(lex, t.children))
    case Copy =>
      (match Lookup(lex, PrintAll(t.children))
       case Some(got) => Framed(t.data, [Swap(t.children, Unit(t.data), got)])
       case None => Framed(t.data, PiecesAll(lex, t.children)))
    case Container => Framed(t.data, PiecesAll(lex, t.children))
  }

  function PiecesAll(lex: Lexicon, ts: seq<Tree>): seq<Piece> {
    if ts == [] then [] else Pieces(lex, ts[0]) + PiecesAll(lex, ts[1..])
  }

  function PiecesMark(lex: Lexicon, t: Tree): seq<Piece> {
    if t.data.tag != "span" then [Keep(Print(t))]
    else
      match Lookup(lex, PrintAll(t.children))
      case Some(got) => Framed(t.data, [Swap(t.children, Span(t.data), got)])
      case None => Framed(t.data, PiecesAll(lex, t.children))
  }

  function PiecesRun(lex: Lexicon, run: seq<Tree>): seq<Piece> {
    match Lookup(lex, PrintAll(run))
    case Some(got) => [Swap(run, Run, got)]
    case None => [Keep(PrintAll(run))]
  }

  function PiecesFo(lex: Lexicon, ts: seq<Tree>): seq<Piece> {
    var k := RunLen(ts);
    if ts == [] then []
    else if k == 0 then PiecesMark(lex, ts[0]) + PiecesFo(lex, ts[1..])
    else PiecesRun(lex, ts[..k]) + PiecesFo(lex, ts[k..])
  }

  /** The cut `ps` turns the text of `cs` into the text of `cs'`. */
  ghost predicate Cuts(lex: Lexicon, ps: seq<Piece>, cs: seq<Tree>, cs': seq<Tree>) {
    Licensed(lex, ps) && Before(ps) == PrintAll(cs) && After(ps) == PrintAll(cs')
  }

  lemma CutsConcat(lex: Lexicon, p: seq<Piece>, q: seq<Piece>, a: seq<Tree>, b: seq<Tree>, a': seq<Tree>, b': seq<Tree>)
    requires Cuts(lex, p, a, a') && Cuts(lex, q, b, b')
    ensures Cuts(lex, p + q, a + b, a' + b')
  {
    PiecesConcat(p, q);
    LicensedConcat(lex, p, q);
    PrintAllConcat(a, b);
    PrintAllConcat(a', b');
  }

  lemma FramedCuts(lex: Lexicon, d: Data, cs: seq<Tree>, cs': seq<Tree>, inner: seq<Piece>)
    requires d.kind.Elem? && Cuts(lex, inner, cs, cs')
    ensures Cuts(lex, Framed(d, inner), [Tree(d, cs)], [Tree(d, cs')])
  {
    FramedText(lex, d, cs, cs', inner);
    PrintOne(Tree(d, cs));
    PrintOne(Tree(d, cs'));
  }

  lemma KeepCuts(lex: Lexicon, ts: seq<Tree>)
    ensures Cuts(lex, [Keep(PrintAll(ts))], ts, ts)
  {
    assert [Keep(PrintAll(ts))][1..] == [];
  }

  lemma SwapCuts(lex: Lexicon, ts: seq<Tree>, segment: Segment, got: string)
    requires Eligible(lex, segment, ts) && Lookup(lex, Source(segment, ts)) == Some(got)
    ensures Cuts(lex, [Swap(ts, segment, got)], ts, [RawNode(got)])
  {
    assert [Swap(ts, segment, got)][1..] == [];
    PrintOne(RawNode(got));
  }

  lemma {:induction false} TrCuts(lex: Lexicon, t: Tree)
    ensures Cuts(lex, Pieces(lex, t), [t], [Tr(lex, t)])
    decreases t
  {
    match RoleOf(lex, t)
    case Fixed =>
      PrintOne(t);
      KeepCuts(lex, [t]);
    case SvgText =>
      match Lookup(lex, InnerText(t.children)) {
        case Some(got) =>
          SwapCuts(lex, t.children, Diagram(t.data), got);
          FramedCuts(lex, t.data, t.children, [RawNode(got)], [Swap(t.children, Diagram(t.data), got)]);
        case None =>
          PrintOne(t);
          KeepCuts(lex, [t]);
      }
    case FoBlock =>
      FoIsLocal(lex, t.children);
      FramedCuts(lex, t.data, t.children, TrFo(lex, t.children), PiecesFo(lex, t.children));
    case Copy =>
      CopyIsEligible(lex, t);
      UnitIsLocal(lex, t, Unit(t.data));
    case Container =>
      AllIsLocal(lex, t.children);
      FramedCuts(lex, t.data, t.children, TrAll(lex, t.children), PiecesAll(lex, t.children));
  }

  lemma {:induction false} UnitIsLocal(lex: Lexicon, t: Tree, segment: Segment)
    requires Element(t) && !segment.Diagram? && Eligible(lex, segment, t.children)
    ensures match Lookup(lex, PrintAll(t.children))
      case Some(got) => Cuts(lex, Framed(t.data, [Swap(t.children, segment, got)]), [t], [Tree(t.data, [RawNode(got)])])
      case None => Cuts(lex, Framed(t.data, PiecesAll(lex, t.children)), [t], [Tree(t.data, TrAll(lex, t.children))])
    decreases t, 0
  {
    match Lookup(lex, PrintAll(t.children))
    case Some(got) =>
      SwapCuts(lex, t.children, segment, got);
      FramedCuts(lex, t.data, t.children, [RawNode(got)], [Swap(t.children, segment, got)]);
    case None =>
      AllIsLocal(lex, t.children);
      FramedCuts(lex, t.data, t.children, TrAll(lex, t.children), PiecesAll(lex, t.children));
  }

  lemma {:induction false} AllIsLocal(lex: Lexicon, ts: seq<Tree>)
    ensures Cuts(lex, PiecesAll(lex, ts), ts, TrAll(lex, ts))
    decreases ts
  {
    if ts != [] {
      TrCuts(lex, ts[0]);
      AllIsLocal(lex, ts[1..]);
      CutsConcat(lex, Pieces(lex, ts[0]), PiecesAll(lex, ts[1..]),
                 [ts[0]], ts[1..], [Tr(lex, ts[0])], TrAll(lex, ts[1..]));
      assert ts == [ts[0]] + ts[1..];
    }
  }

  lemma CopyIsEligible(lex: Lexicon, t: Tree)
    requires RoleOf(lex, t).Copy?
    ensures Eligible(lex, Unit(t.data), t.children)
  {
    forall c | c in t.children && Element(c)
      ensures c.data.tag !in lex.blocky && (t.data.tag == "div" ==> c.data.tag in lex.inlineOnly)
    {
      var i :| 0 <= i < |t.children| && t.children[i] == c;
    }
  }

  lemma RunIsLocal(lex: Lexicon, run: seq<Tree>)
    requires Eligible(lex, Run, run)
    ensures Cuts(lex, PiecesRun(lex, run), run, FlushRun(lex, run))
  {
    match Lookup(lex, PrintAll(run))
    case Some(got) => SwapCuts(lex, run, Run, got);
    case None => KeepCuts(lex, run);
  }

  lemma {:induction false} FoIsLocal(lex: Lexicon, ts: seq<Tree>)
    ensures Cuts(lex, PiecesFo(lex, ts), ts, TrFo(lex, ts))
    decreases ts
  {
    var k := RunLen(ts);
    if ts == [] {
    } else if k == 0 {
      MarkIsLocal(lex, ts[0]);
      FoIsLocal(lex, ts[1..]);
      assert ts[..1] == [ts[0]];
      CutsFirst(lex, PiecesMark(lex, ts[0]), [TrMark(lex, ts[0])], ts, 1);
    } else {
      RunIsLocal(lex, ts[..k]);
      FoIsLocal(lex, ts[k..]);
      CutsFirst(lex, PiecesRun(lex, ts[..k]), FlushRun(lex, ts[..k]), ts, k);
    }
  }

  lemma {:induction false} MarkIsLocal(lex: Lexicon, t: Tree)
    requires Structural(t)
    ensures Cuts(lex, PiecesMark(lex, t), [t], [TrMark(lex, t)])
    decreases t, 1
  {
    if t.data.tag == "span" {
      UnitIsLocal(lex, t, Span(t.data));
    } else {
      PrintOne(t);
      KeepCuts(lex, [t]);
    }
  }

  lemma CutsFirst(lex: Lexicon, ps: seq<Piece>, first: seq<Tree>, ts: seq<Tree>, k: nat)
    requires k <= |ts| && Cuts(lex, ps, ts[..k], first)
    requires Cuts(lex, PiecesFo(lex, ts[k..]), ts[k..], TrFo(lex, ts[k..]))
    ensures Cuts(lex, ps + PiecesFo(lex, ts[k..]), ts, first + TrFo(lex, ts[k..]))
  {
    CutsConcat(lex, ps, PiecesFo(lex, ts[k..]), ts[..k], ts[k..], first, TrFo(lex, ts[k..]));
    assert ts == ts[..k] + ts[k..];
  }

  /** What a non-empty run becomes, and is noted for, once it has been looked up. */
  lemma RunLookedUp(lex: Lexicon, missing: map<string, string>, run: seq<Tree>, got: Option<string>)
    requires run != [] && got == Lookup(lex, PrintAll(run))
    ensures RunOut(lex, run) == if got.Some? then [RawNode(got.value)] else run
    ensures NoteAll(lex, missing, AskedRun(run)) == Note(lex, missing, Ask(PrintAll(run), "foreignObject"))
  {
    assert AskedRun(run)[1..] == [];
  }

  // ---------- a table that never hits ----------

  ghost predicate NoneHit(lex: Lexicon, asks: seq<Ask>) {
    forall a <- asks :: !Listed(lex, a.text)
  }

  lemma NoneHitConcat(lex: Lexicon, a: seq<Ask>, b: seq<Ask>)
    requires NoneHit(lex, a + b)
    ensures NoneHit(lex, a) && NoneHit(lex, b)
  {
    assert forall x <- a :: x in a + b;
    assert forall x <- b :: x in a + b;
  }

  lemma NoneHitFirst(lex: Lexicon, a: Ask, b: seq<Ask>)
    requires NoneHit(lex, [a] + b)
    ensures Lookup(lex, a.text) == None && NoneHit(lex, b)
  {
    NoneHitConcat(lex, [a], b);
    assert a in [a];
  }

  /** When no lookup hits, translation changes nothing. */
  lemma {:induction false} NoHitNoChange(lex: Lexicon, t: Tree)
    requires NoneHit(lex, Asked(lex, t))
    ensures Tr(lex, t) == t
    decreases t
  {
    match RoleOf(lex, t)
    case Fixed =>
    case SvgText => assert Ask(InnerText(t.children), "<text>") in Asked(lex, t);
    case FoBlock => NoHitFo(lex, t.children);
    case Copy =>
      var a := Ask(PrintAll(t.children), "<" + t.data.tag + ">");
      assert a in Asked(lex, t);
      NoneHitFirst(lex, a, AskedAll(lex, t.children));
      NoHitAll(lex, t.children);
    case Container => NoHitAll(lex, t.children);
  }

  lemma {:induction false} NoHitAll(lex: Lexicon, ts: seq<Tree>)
    requires NoneHit(lex, AskedAll(lex, ts))
    ensures TrAll(lex, ts) == ts
    decreases ts
  {
    if ts != [] {
      NoneHitConcat(lex, Asked(lex, ts[0]), AskedAll(lex, ts[1..]));
      NoHitNoChange(lex, ts[0]);
      NoHitAll(lex, ts[1..]);
    }
  }

  lemma {:induction false} NoHitMark(lex: Lexicon, t: Tree)
    requires NoneHit(lex, AskedMark(lex, t))
    ensures TrMark(lex, t) == t
    decreases t, 0
  {
    if t.data.tag == "span" {
      var a := Ask(PrintAll(t.children), "foreignObject span");
      assert a in AskedMark(lex, t);
      NoneHitFirst(lex, a, AskedAll(lex, t.children));
      NoHitAll(lex, t.children);
    }
  }

  lemma {:induction false} NoHitRun(lex: Lexicon, run: seq<Tree>)
    requires run != [] && NoneHit(lex, AskedRun(run))
    ensures FlushRun(lex, run) == run
  {
    assert Ask(PrintAll(run), "foreignObject") in AskedRun(run);
  }

  lemma {:induction false} NoHitFo(lex: Lexicon, ts: seq<Tree>)
    requires NoneHit(lex, AskedFo(lex, ts))
    ensures TrFo(lex, ts) == ts
    decreases ts
  {
    var k := RunLen(ts);
    if ts == [] {
    } else if k == 0 {
      var mark, rest := AskedMark(lex, ts[0]), AskedFo(lex, ts[1..]);
      assert AskedFo(lex, ts) == mark + rest;
      NoneHitConcat(lex, mark, rest);
      NoHitMark(lex, ts[0]);
      NoHitFo(lex, ts[1..]);
      assert [ts[0]] + ts[1..] == ts;
    } else {
      var run, rest := AskedRun(ts[..k]), AskedFo(lex, ts[k..]);
      assert AskedFo(lex, ts) == run + rest;
      NoneHitConcat(lex, run, rest);
      NoHitRun(lex, ts[..k]);
      NoHitFo(lex, ts[k..]);
      assert ts[..k] + ts[k..] == ts;
    }
  }

  // ---------- elements survive as they were, in order ----------

  /** The elements of a forest, outermost first. */
  function Elements(ts: seq<Tree>): seq<Data> {
    if ts == [] then []
    else (if Element(ts[0]) then [ts[0].data] else []) + Elements(ts[0].children) + Elements(ts[1..])
  }

  predicate Subseq(a: seq<Data>, b: seq<Data>)
    decreases b
  {
    a == [] || (b != [] && ((a[0] == b[0] && Subseq(a[1..], b[1..])) || Subseq(a, b[1..])))
  }

  lemma {:induction false} SubseqSelf(a: seq<Data>)
    ensures Subseq(a, a)
  {
    if a != [] { SubseqSelf(a[1..]); }
  }

  lemma {:induction false} SubseqConcat(a: seq<Data>, b: seq<Data>, a': seq<Data>, b': seq<Data>)
    requires Subseq(a, a') && Subseq(b, b')
    ensures Subseq(a + b, a' + b')
    decreases a'
  {
    if a' == [] {
      assert a + b == b && a' + b' == b';
    } else {
      assert (a' + b')[1..] == a'[1..] + b';
      if a != [] && a[0] == a'[0] && Subseq(a[1..], a'[1..]) {
        assert (a + b)[1..] == a[1..] + b;
        SubseqConcat(a[1..], b, a'[1..], b');
      } else {
        SubseqConcat(a, b, a'[1..], b');
      }
    }
  }

  lemma {:induction false} ElementsConcat(a: seq<Tree>, b: seq<Tree>)
    ensures Elements(a + b) == Elements(a) + Elements(b)
  {
    if a == [] {
      assert a + b == b;
    } else {
      assert (a + b)[1..] == a[1..] + b;
      ElementsConcat(a[1..], b);
    }
  }

  lemma ElementsOne(t: Tree)
    ensures Elements([t]) == (if Element(t) then [t.data] else []) + Elements(t.children)
  {
    assert [t][1..] == [];
  }

  lemma SubseqBelow(d: Data, cs: seq<Tree>, cs': seq<Tree>)
    requires Subseq(Elements(cs'), Elements(cs))
    ensures Subseq(Elements([Tree(d, cs')]), Elements([Tree(d, cs)]))
  {
    ElementsOne(Tree(d, cs));
    ElementsOne(Tree(d, cs'));
    var own := if d.kind.Elem? then [d] else [];
    SubseqSelf(own);
    SubseqConcat(own, Elements(cs'), own, Elements(cs));
  }

  lemma RawHasNoElements(got: string)
    ensures Elements([RawNode(got)]) == []
  {
    ElementsOne(RawNode(got));
  }

  /** No element is invented, reordered or rewritten: the elements of the translated tree, with their
      opening text and name as written, are a subsequence of the original ones. */
  lemma {:induction false} ElementsSurvive(lex: Lexicon, t: Tree)
    ensures Subseq(Elements([Tr(lex, t)]), Elements([t]))
    decreases t
  {
    SubseqSelf(Elements([t]));
    match RoleOf(lex, t)
    case Fixed =>
    case SvgText =>
      match Lookup(lex, InnerText(t.children)) {
        case Some(got) =>
          RawHasNoElements(got);
          SubseqBelow(t.data, t.children, [RawNode(got)]);
        case None =>
      }
    case FoBlock =>
      SurviveFo(lex, t.children);
      SubseqBelow(t.data, t.children, TrFo(lex, t.children));
    case Copy => SurviveUnit(lex, t);
    case Container =>
      SurviveAll(lex, t.children);
      SubseqBelow(t.data, t.children, TrAll(lex, t.children));
  }

  lemma {:induction false} SurviveUnit(lex: Lexicon, t: Tree)
    ensures match Lookup(lex, PrintAll(t.children))
      case Some(got) => Subseq(Elements([Tree(t.data, [RawNode(got)])]), Elements([t]))
      case None => Subseq(Elements([Tree(t.data, TrAll(lex, t.children))]), Elements([t]))
    decreases t, 0
  {
    match Lookup(lex, PrintAll(t.children))
    case Some(got) =>
      RawHasNoElements(got);
      SubseqBelow(t.data, t.children, [RawNode(got)]);
    case None =>
      SurviveAll(lex, t.children);
      SubseqBelow(t.data, t.children, TrAll(lex, t.children));
  }

  lemma {:induction false} SurviveAll(lex: Lexicon, ts: seq<Tree>)
    ensures Subseq(Elements(TrAll(lex, ts)), Elements(ts))
    decreases ts
  {
    if ts != [] {
      ElementsSurvive(lex, ts[0]);
      SurviveAll(lex, ts[1..]);
      JoinSurvivors([ts[0]], ts[1..], [Tr(lex, ts[0])], TrAll(lex, ts[1..]));
      assert [ts[0]] + ts[1..] == ts;
    }
  }

  lemma JoinSurvivors(a: seq<Tree>, b: seq<Tree>, a': seq<Tree>, b': seq<Tree>)
    requires Subseq(Elements(a'), Elements(a)) && Subseq(Elements(b'), Elements(b))
    ensures Subseq(Elements(a' + b'), Elements(a + b))
  {
    ElementsConcat(a, b);
    ElementsConcat(a', b');
    SubseqConcat(Elements(a'), Elements(b'), Elements(a), Elements(b));
  }

  lemma {:induction false} SurviveFo(lex: Lexicon, ts: seq<Tree>)
    ensures Subseq(Elements(TrFo(lex, ts)), Elements(ts))
    decreases ts
  {
    var k := RunLen(ts);
    if ts == [] {
    } else if k == 0 {
      SubseqSelf(Elements([ts[0]]));
      if ts[0].data.tag == "span" { SurviveUnit(lex, ts[0]); }
      SurviveFo(lex, ts[1..]);
      JoinSurvivors([ts[0]], ts[1..], [TrMark(lex, ts[0])], TrFo(lex, ts[1..]));
      assert [ts[0]] + ts[1..] == ts;
    } else {
      SubseqSelf(Elements(ts[..k]));
      match Lookup(lex, PrintAll(ts[..k])) {
        case Some(got) => RawHasNoElements(got);
        case None =>
      }
      SurviveFo(lex, ts[k..]);
      JoinSurvivors(ts[..k], ts[k..], FlushRun(lex, ts[..k]), TrFo(lex, ts[k..]));
      assert ts[..k] + ts[k..] == ts;
    }
  }

  // ---------- a foreignObject block keeps its structure ----------

  /** The structural children, and between them the other children. */
  function Marks(ts: seq<Tree>): seq<Data> {
    if ts == [] then []
    else
      var d := ts[0].data;
      (if d.kind.Elem? && (d.tag == "span" || d.tag == "br") then [d] else []) + Marks(ts[1..])
  }

  /** The maximal runs of other children: the one before the first structural child, and the one after
      each, possibly empty. */
  function Runs(ts: seq<Tree>): (r: seq<seq<Tree>>)
    ensures r != []
  {
    var k := RunLen(ts);
    if k == |ts| then [ts] else [ts[..k]] + Runs(ts[k + 1..])
  }

  /** What becomes of a run: nothing of an empty one, otherwise the whole run or one replacement. */
  function RunOut(lex: Lexicon, run: seq<Tree>): seq<Tree> {
    if run == [] then [] else FlushRun(lex, run)
  }

  function RunsOut(lex: Lexicon, runs: seq<seq<Tree>>): seq<seq<Tree>> {
    if runs == [] then [] else [RunOut(lex, runs[0])] + RunsOut(lex, runs[1..])
  }

  lemma {:induction false} RunLenOfRun(run: seq<Tree>, rest: seq<Tree>)
    requires forall i :: 0 <= i < |run| ==> !Structural(run[i])
    requires rest == [] || Structural(rest[0])
    ensures RunLen(run + rest) == |run|
  {
    if run == [] {
      assert run + rest == rest;
    } else {
      assert (run + rest)[1..] == run[1..] + rest;
      RunLenOfRun(run[1..], rest);
    }
  }

  lemma FlushedIsRun(lex: Lexicon, run: seq<Tree>)
    requires forall i :: 0 <= i < |run| ==> !Structural(run[i])
    ensures forall i :: 0 <= i < |RunOut(lex, run)| ==> !Structural(RunOut(lex, run)[i])
  {}

  lemma {:induction false} MarksOfRun(run: seq<Tree>, rest: seq<Tree>)
    requires forall i :: 0 <= i < |run| ==> !Structural(run[i])
    ensures Marks(run + rest) == Marks(rest)
  {
    if run == [] {
      assert run + rest == rest;
    } else {
      assert (run + rest)[1..] == run[1..] + rest;
      MarksOfRun(run[1..], rest);
    }
  }

  lemma OneRun(run: seq<Tree>)
    requires forall i :: 0 <= i < |run| ==> !Structural(run[i])
    ensures Runs(run) == [run] && Marks(run) == []
  {
    assert run + [] == run;
    RunLenOfRun(run, []);
    MarksOfRun(run, []);
  }

  lemma RunThenMark(run: seq<Tree>, mark: Tree, rest: seq<Tree>)
    requires (forall i :: 0 <= i < |run| ==> !Structural(run[i])) && Structural(mark)
    ensures Runs(run + ([mark] + rest)) == [run] + Runs(rest)
    ensures Marks(run + ([mark] + rest)) == [mark.data] + Marks(rest)
  {
    var tail := [mark] + rest;
    var all := run + tail;
    RunLenOfRun(run, tail);
    MarksOfRun(run, tail);
    assert tail[1..] == rest;
    assert all[..|run|] == run && all[|run| + 1..] == rest;
  }

  lemma MarkStays(lex: Lexicon, t: Tree)
    requires Structural(t)
    ensures TrMark(lex, t).data == t.data && Structural(TrMark(lex, t))
  {}

  /** `out` has the structural children of `ts`, in order, and at each position between them exactly what
      becomes of the run `ts` has there. */
  ghost predicate Kept(lex: Lexicon, ts: seq<Tree>, out: seq<Tree>) {
    Marks(out) == Marks(ts) && Runs(out) == RunsOut(lex, Runs(ts))
  }

  lemma KeptRun(lex: Lexicon, run: seq<Tree>)
    requires forall i :: 0 <= i < |run| ==> !Structural(run[i])
    ensures Kept(lex, run, RunOut(lex, run))
  {
    FlushedIsRun(lex, run);
    OneRun(run);
    OneRun(RunOut(lex, run));
  }

  lemma KeptCons(lex: Lexicon, run: seq<Tree>, mark: Tree, mark': Tree, rest: seq<Tree>, out: seq<Tree>)
    requires forall i :: 0 <= i < |run| ==> !Structural(run[i])
    requires Structural(mark) && Structural(mark') && mark'.data == mark.data
    requires Kept(lex, rest, out)
    ensures Kept(lex, run + ([mark] + rest), RunOut(lex, run) + ([mark'] + out))
  {
    FlushedIsRun(lex, run);
    RunThenMark(run, mark, rest);
    RunThenMark(RunOut(lex, run), mark', out);
    assert ([run] + Runs(rest))[1..] == Runs(rest);
  }

  lemma FoOfRun(lex: Lexicon, run: seq<Tree>, rest: seq<Tree>)
    requires forall i :: 0 <= i < |run| ==> !Structural(run[i])
    requires rest == [] || Structural(rest[0])
    ensures TrFo(lex, run + rest) == RunOut(lex, run) + TrFo(lex, rest)
    ensures AskedFo(lex, run + rest) == AskedRun(run) + AskedFo(lex, rest)
  {
    RunLenOfRun(run, rest);
    var all := run + rest;
    assert all[..|run|] == run && all[|run|..] == rest;
    if run == [] { assert all == rest; }
  }

  lemma FoOfMark(lex: Lexicon, mark: Tree, rest: seq<Tree>)
    requires Structural(mark)
    ensures TrFo(lex, [mark] + rest) == [TrMark(lex, mark)] + TrFo(lex, rest)
    ensures AskedFo(lex, [mark] + rest) == AskedMark(lex, mark) + AskedFo(lex, rest)
  {
    assert ([mark] + rest)[1..] == rest;
  }

  /** Nothing lost, duplicated or reordered in a foreignObject block. */
  lemma {:induction false} FoKeepsStructure(lex: Lexicon, ts: seq<Tree>)
    ensures Kept(lex, ts, TrFo(lex, ts))
    decreases ts
  {
    var k := RunLen(ts);
    var run, rest := ts[..k], ts[k..];
    assert ts == run + rest;
    if rest == [] {
      assert ts == run;
      KeptLast(lex, run);
    } else {
      var mark, after := rest[0], rest[1..];
      assert rest == [mark] + after;
      FoKeepsStructure(lex, after);
      KeptStep(lex, run, mark, after);
    }
  }

  lemma KeptLast(lex: Lexicon, run: seq<Tree>)
    requires forall i :: 0 <= i < |run| ==> !Structural(run[i])
    ensures Kept(lex, run, TrFo(lex, run))
  {
    FoOfRun(lex, run, []);
    assert run + [] == run && RunOut(lex, run) + [] == RunOut(lex, run);
    KeptRun(lex, run);
  }

  lemma KeptStep(lex: Lexicon, run: seq<Tree>, mark: Tree, after: seq<Tree>)
    requires (forall i :: 0 <= i < |run| ==> !Structural(run[i])) && Structural(mark)
    requires Kept(lex, after, TrFo(lex, after))
    ensures Kept(lex, run + ([mark] + after), TrFo(lex, run + ([mark] + after)))
  {
    FoOfRun(lex, run, [mark] + after);
    FoOfMark(lex, mark, after);
    MarkStays(lex, mark);
    KeptCons(lex, run, mark, TrMark(lex, mark), after, TrFo(lex, after));
  }

  /** The state of the loop over a block's children `ts` before the i-th: what is output, what is in the
      run, and what has been noted agree with the final result. */
  ghost predicate FoSoFar(lex: Lexicon, was: map<string, string>, ts: seq<Tree>, i: nat,
                          out: seq<Tree>, run: seq<Tree>, noted: map<string, string>)
    requires i <= |ts|
  {
    && (forall j :: 0 <= j < |run| ==> !Structural(run[j]))
    && FoLeaves(lex, was, ts, run + ts[i..], out, noted)
  }

  /** With `left` still to come, output and notes agree with the final result. */
  ghost predicate FoLeaves(lex: Lexicon, was: map<string, string>, ts: seq<Tree>, left: seq<Tree>,
                           out: seq<Tree>, noted: map<string, string>)
  {
    && out + TrFo(lex, left) == TrFo(lex, ts)
    && NoteAll(lex, noted, AskedFo(lex, left)) == NoteAll(lex, was, AskedFo(lex, ts))
  }

  lemma FoStarts(lex: Lexicon, was: map<string, string>, ts: seq<Tree>)
    ensures FoSoFar(lex, was, ts, 0, [], [], was)
  {
    assert [] + ts[0..] == ts;
    assert [] + TrFo(lex, ts) == TrFo(lex, ts);
  }

  lemma FoOther(lex: Lexicon, was: map<string, string>, ts: seq<Tree>, i: nat,
                out: seq<Tree>, run: seq<Tree>, noted: map<string, string>)
    requires i < |ts| && FoSoFar(lex, was, ts, i, out, run, noted) && !Structural(ts[i])
    ensures FoSoFar(lex, was, ts, i + 1, out, run + [ts[i]], noted)
  {
    RunGrows(run, ts[i]);
    assert run + [ts[i]] + ts[i + 1..] == run + ts[i..];
    SameLeft(lex, was, ts, run + ts[i..], run + [ts[i]] + ts[i + 1..], out, noted);
  }

  lemma RunGrows(run: seq<Tree>, t: Tree)
    requires (forall j :: 0 <= j < |run| ==> !Structural(run[j])) && !Structural(t)
    ensures forall j :: 0 <= j < |run + [t]| ==> !Structural((run + [t])[j])
  {
  }

  lemma SameLeft(lex: Lexicon, was: map<string, string>, ts: seq<Tree>, left: seq<Tree>, left': seq<Tree>,
                 out: seq<Tree>, noted: map<string, string>)
    requires left == left' && FoLeaves(lex, was, ts, left, out, noted)
    ensures FoLeaves(lex, was, ts, left', out, noted)
  {
  }

  lemma NoteThree(lex: Lexicon, missing: map<string, string>, a: seq<Ask>, b: seq<Ask>, c: seq<Ask>)
    ensures NoteAll(lex, missing, a + (b + c)) == NoteAll(lex, NoteAll(lex, NoteAll(lex, missing, a), b), c)
  {
    NoteAllConcat(lex, missing, a, b + c);
    NoteAllConcat(lex, NoteAll(lex, missing, a), b, c);
  }

  /** One round of the loop: a structural child ends the run before it. */
  lemma FoRound(lex: Lexicon, run: seq<Tree>, mark: Tree, rest: seq<Tree>, all: seq<Tree>)
    requires (forall i :: 0 <= i < |run| ==> !Structural(run[i])) && Structural(mark)
    requires all == run + ([mark] + rest)
    ensures TrFo(lex, all) == RunOut(lex, run) + ([TrMark(lex, mark)] + TrFo(lex, rest))
    ensures AskedFo(lex, all) == AskedRun(run) + (AskedMark(lex, mark) + AskedFo(lex, rest))
  {
    FoOfRun(lex, run, [mark] + rest);
    FoOfMark(lex, mark, rest);
  }

  lemma FoMarked(lex: Lexicon, was: map<string, string>, ts: seq<Tree>, i: nat,
                 out: seq<Tree>, run: seq<Tree>, noted: map<string, string>)
    requires i < |ts| && FoSoFar(lex, was, ts, i, out, run, noted) && Structural(ts[i])
    ensures FoSoFar(lex, was, ts, i + 1, out + RunOut(lex, run) + [TrMark(lex, ts[i])], [],
                    NoteAll(lex, NoteAll(lex, noted, AskedRun(run)), AskedMark(lex, ts[i])))
  {
    var mark, rest := ts[i], ts[i + 1..];
    assert ts[i..] == [mark] + rest;
    assert [] + rest == rest;
    LeavesMarked(lex, was, ts, run + ts[i..], run, mark, rest, out, noted);
  }

  lemma LeavesMarked(lex: Lexicon, was: map<string, string>, ts: seq<Tree>, left: seq<Tree>, run: seq<Tree>,
                     mark: Tree, rest: seq<Tree>, out: seq<Tree>, noted: map<string, string>)
    requires (forall j :: 0 <= j < |run| ==> !Structural(run[j])) && Structural(mark)
    requires left == run + ([mark] + rest) && FoLeaves(lex, was, ts, left, out, noted)
    ensures FoLeaves(lex, was, ts, rest, out + RunOut(lex, run) + [TrMark(lex, mark)],
                     NoteAll(lex, NoteAll(lex, noted, AskedRun(run)), AskedMark(lex, mark)))
  {
    FoRound(lex, run, mark, rest, left);
    NoteThree(lex, noted, AskedRun(run), AskedMark(lex, mark), AskedFo(lex, rest));
    Assoc(RunOut(lex, run), [TrMark(lex, mark)], TrFo(lex, rest));
    Regroup(out, RunOut(lex, run), [TrMark(lex, mark)], TrFo(lex, rest));
  }

  lemma FoEnds(lex: Lexicon, was: map<string, string>, ts: seq<Tree>,
               out: seq<Tree>, run: seq<Tree>, noted: map<string, string>)
    requires FoSoFar(lex, was, ts, |ts|, out, run, noted)
    ensures out + RunOut(lex, run) == TrFo(lex, ts)
    ensures NoteAll(lex, noted, AskedRun(run)) == NoteAll(lex, was, AskedFo(lex, ts))
  {
    assert run + ts[|ts|..] == run + [];
    FoOfRun(lex, run, []);
    assert RunOut(lex, run) + [] == RunOut(lex, run) && AskedRun(run) + [] == AskedRun(run);
  }
}

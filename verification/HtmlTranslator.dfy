/**
 The in-place translator of scripts/build-diagram-langs.py over the node graph, proved against the
 value model of module HtmlTranslate.
 */
module HtmlTranslator {
  import opened Text
  import opened HtmlTree
  import opened HtmlBuilder
  import opened HtmlTranslate

  // ---------- sequences of nodes ----------

  /** The values of a sequence of nodes. */
  ghost function Vals(ns: seq<Node>): (r: seq<Tree>)
    reads ns
    ensures |r| == |ns|
    ensures forall i :: 0 <= i < |ns| ==> r[i] == ns[i].val
  {
    if ns == [] then [] else [ns[0].val] + Vals(ns[1..])
  }

  /** A sequence of trees that share nothing, all of them made of nodes in `foot`. */
  ghost predicate Forest(ns: seq<Node>, foot: set<Node>)
    reads foot
  {
    && (forall i :: 0 <= i < |ns| ==> ns[i] in foot && ns[i].rep <= foot && ns[i].Valid())
    && (forall i, j :: 0 <= i < j < |ns| ==> ns[i].rep !! ns[j].rep)
  }

  lemma ForestTail(ns: seq<Node>, foot: set<Node>)
    requires ns != [] && Forest(ns, foot)
    ensures Forest(ns[1..], foot - ns[0].rep)
  {
    forall i | 0 <= i < |ns| - 1
      ensures var n := ns[1..][i]; n in foot - ns[0].rep && n.rep <= foot - ns[0].rep && n.Valid()
    {
      assert ns[1..][i] == ns[i + 1] && ns[0].rep !! ns[i + 1].rep;
    }
    forall i, j | 0 <= i < j < |ns| - 1 ensures ns[1..][i].rep !! ns[1..][j].rep {
      assert ns[1..][i] == ns[i + 1] && ns[1..][j] == ns[j + 1];
    }
  }

  lemma NextChild(cs: seq<Node>, i: nat, foot: set<Node>)
    requires i < |cs| && Forest(cs[i..], foot)
    ensures cs[i].Valid() && cs[i].rep <= foot && Forest(cs[i + 1..], foot - cs[i].rep)
    ensures Vals(cs[i..])[0] == cs[i].val && Vals(cs[i..])[1..] == Vals(cs[i + 1..])
  {
    var rest := cs[i..];
    assert rest[0] == cs[i] && rest[1..] == cs[i + 1..];
    ForestTail(rest, foot);
  }

  lemma ForestCons(n: Node, ns: seq<Node>, foot: set<Node>)
    requires n.Valid() && Forest(ns, foot) && n.rep !! foot
    ensures Forest([n] + ns, n.rep + foot)
  {
    var all := [n] + ns;
    forall i | 0 <= i < |all| ensures all[i] in n.rep + foot && all[i].rep <= n.rep + foot && all[i].Valid() {
      if i > 0 { assert all[i] == ns[i - 1]; }
    }
    forall i, j | 0 <= i < j < |all| ensures all[i].rep !! all[j].rep {
      assert all[j] == ns[j - 1];
      if i > 0 { assert all[i] == ns[i - 1]; }
    }
  }

  lemma ForestSplit(a: seq<Node>, b: seq<Node>, foot: set<Node>)
    requires Forest(a + b, foot)
    ensures Forest(a, foot) && Forest(b, foot)
    ensures Vals(a + b) == Vals(a) + Vals(b)
  {
    forall i | 0 <= i < |b| ensures b[i] in foot && b[i].rep <= foot && b[i].Valid() {
      assert (a + b)[|a| + i] == b[i];
    }
    forall i, j | 0 <= i < j < |b| ensures b[i].rep !! b[j].rep {
      assert (a + b)[|a| + i] == b[i] && (a + b)[|a| + j] == b[j];
    }
    forall i | 0 <= i < |a| ensures a[i] in foot && a[i].rep <= foot && a[i].Valid() {
      assert (a + b)[i] == a[i];
    }
    forall i, j | 0 <= i < j < |a| ensures a[i].rep !! a[j].rep {
      assert (a + b)[i] == a[i] && (a + b)[j] == a[j];
    }
  }

  lemma {:induction false} ValsSnoc(ns: seq<Node>, n: Node)
    ensures Vals(ns + [n]) == Vals(ns) + [n.val]
  {}

  lemma ForestSnoc(a: seq<Node>, n: Node, foot: set<Node>)
    requires Forest(a, foot) && n.Valid() && n.rep !! foot
    ensures Forest(a + [n], foot + n.rep)
    ensures Vals(a + [n]) == Vals(a) + [n.val]
  {}

  lemma LongerRun(out: seq<Node>, run: seq<Node>, c: Node, foot: set<Node>)
    requires Forest(out + run, foot) && c.Valid() && c.rep !! foot
    ensures Forest(out + (run + [c]), foot + c.rep)
    ensures Vals(run + [c]) == Vals(run) + [c.val]
  {
    ForestSnoc(out + run, c, foot);
    assert out + run + [c] == out + (run + [c]);
    ValsSnoc(run, c);
  }

  lemma NodeData(n: Node)
    requires n.Valid()
    ensures n.val.data == n.Fields() && |n.val.children| == |n.children|
  {}

  lemma ChildData(n: Node)
    requires n.Valid()
    ensures n.val.data == n.Fields() && |n.val.children| == |n.children|
    ensures forall i :: 0 <= i < |n.children| ==>
      n.children[i].Valid() && n.val.children[i].data == n.children[i].Fields()
  {
    forall i | 0 <= i < |n.children|
      ensures n.children[i].Valid() && n.val.children[i].data == n.children[i].Fields()
    {
      assert n.Owns(n.children[i]);
      NodeData(n.children[i]);
    }
  }

  /** A valid node's children, seen as a forest. */
  lemma ChildForest(n: Node)
    requires n.Valid()
    ensures Forest(n.children, n.rep - {n})
    ensures n.val == Tree(n.Fields(), Vals(n.children))
  {
    forall i | 0 <= i < |n.children| ensures n.Owns(n.children[i]) {}
    assert n.val.children == Vals(n.children);
  }

  /** Records the present children of a node. */
  ghost method Adopt(n: Node, foot: set<Node>)
    requires Forest(n.children, foot) && n !in foot && n.val.data == n.Fields()
    modifies n`val, n`rep
    ensures n.Valid() && n.rep == {n} + foot
    ensures n.val == Tree(old(n.val).data, old(Vals(n.children)))
  {
    n.rep, n.val := {n} + foot, Tree(n.val.data, Vals(n.children));
    forall i | 0 <= i < |n.children| ensures n.children[i] in n.rep && n.Owns(n.children[i]) {
      assert n.children[i].Valid();
    }
  }

  // ---------- reading nodes ----------

  /** `inner_text`, of the children from the i-th on. */
  function InnerTextFrom(n: Node, i: nat): (s: string)
    requires n.Valid() && i <= |n.children|
    reads n, n.rep
    decreases n.rep, |n.children| - i
    ensures s == InnerText(n.val.children[i..])
  {
    if i == |n.children| then ""
    else
      var c := n.children[i];
      assert n.Owns(c);
      ChildData(n);
      assert n.val.children[i..][0] == c.val && n.val.children[i..][1..] == n.val.children[i + 1..];
      assert c.val.children[0..] == c.val.children;
      (match c.kind
       case TextRun => c.text
       case Elem => InnerTextFrom(c, 0)
       case _ => "")
      + InnerTextFrom(n, i + 1)
  }

  function SerializeAll(ns: seq<Node>, ghost foot: set<Node>): (s: string)
    requires Forest(ns, foot)
    reads foot
    decreases |ns|
    ensures s == PrintAll(Vals(ns))
  {
    if ns == [] then ""
    else
      ForestTail(ns, foot);
      ns[0].Serialize() + SerializeAll(ns[1..], foot - ns[0].rep)
  }

  /** The role of a node, decided on the node's own fields and its children's tags. */
  function NodeRole(lex: Lexicon, n: Node): (r: Role)
    requires n.Valid()
    reads n, n.rep
    ensures r == RoleOf(lex, n.val)
  {
    ChildData(n);
    var block := exists i | 0 <= i < |n.children| :: n.children[i].kind.Elem? && n.children[i].tag in lex.blocky;
    var layout := exists i | 0 <= i < |n.children| :: n.children[i].kind.Elem? && n.children[i].tag !in lex.inlineOnly;
    assert block == HasBlockChild(lex, n.val);
    assert layout == HasElementChild(lex, n.val);
    if !n.kind.Elem? || n.tag in lex.skip then Fixed
    else if n.tag == "text" then SvgText
    else if n.tag == "div" && lex.isFo(n.rawOpen) then FoBlock
    else if n.tag in lex.units && n.tag !in lex.inlineOnly && !block && !(n.tag == "div" && layout) then Copy
    else Container
  }

  // ---------- the translator ----------

  class Translator {
    const lex: Lexicon
    /** The keys nothing was found for, with the first place each was looked up at. */
    var missing: map<string, string>

    constructor (lex: Lexicon)
      ensures this.lex == lex && missing == map[]
    {
      this.lex := lex;
      missing := map[];
    }

    /** `lookup`: the table's answer, and a note of the key when there should have been one. */
    method Find(text: string, place: string) returns (got: Option<string>)
      modifies `missing
      ensures got == if Listed(lex, text) then Some(lex.table[lex.plain(text)]) else None
      ensures var key := lex.plain(text);
        missing == if key != "" && HasCJK(key) && key !in lex.table && key !in old(missing)
                   then old(missing)[key := place] else old(missing)
    {
      var key := lex.plain(text);
      if key == "" || !HasCJK(key) {
        return None;
      }
      if key in lex.table {
        return Some(lex.table[key]);
      }
      if key !in missing {
        missing := missing[key := place];
      }
      return None;
    }

    method ReplaceChildren(n: Node, rawHtml: string)
      requires n.Valid()
      modifies n
      ensures n.Valid() && fresh(n.rep - old(n.rep))
      ensures n.val == Tree(old(n.val).data, [RawNode(rawHtml)])
    {
      var raw := new Node("#raw", "", TextRun, rawHtml);
      n.children := [raw];
      Adopt(n, {raw});
    }

    method Translate(n: Node)
      requires n.Valid()
      modifies `missing, n.rep
      ensures n.Valid() && fresh(n.rep - old(n.rep))
      ensures n.val == Tr(lex, old(n.val))
      ensures missing == NoteAll(lex, old(missing), Asked(lex, old(n.val)))
      decreases n.val, 1
    {
      ghost var t := n.val;
      match NodeRole(lex, n)
      case Fixed =>
      case SvgText =>
        assert n.val.children[0..] == n.val.children;
        var got := Find(InnerTextFrom(n, 0), "<text>");
        if got.Some? { ReplaceChildren(n, got.value); }
      case FoBlock => TranslateFo(n);
      case Copy => TranslateUnit(n, "<" + n.tag + ">");
      case Container => TranslateChildren(n);
    }

    /** Looks the whole content up first, and descends only on a miss. */
    method TranslateUnit(n: Node, place: string)
      requires n.Valid()
      modifies `missing, n.rep
      ensures n.Valid() && fresh(n.rep - old(n.rep))
      ensures n.val == match Lookup(lex, PrintAll(old(n.val).children))
        case Some(got) => Tree(old(n.val).data, [RawNode(got)])
        case None => Tree(old(n.val).data, TrAll(lex, old(n.val).children))
      ensures missing == NoteAll(lex, old(missing),
        var a := Ask(PrintAll(old(n.val).children), place);
        if Lookup(lex, a.text).Some? then [a] else [a] + AskedAll(lex, old(n.val).children))
      decreases n.val, 0
    {
      assert n.val.children[0..] == n.val.children;
      ghost var a := Ask(PrintAll(n.val.children), place);
      NoteAllConcat(lex, missing, [a], AskedAll(lex, n.val.children));
      var got := Find(n.SerializeFrom(0), place);
      assert missing == NoteAll(lex, old(missing), [a]);
      if got.Some? {
        ReplaceChildren(n, got.value);
      } else {
        TranslateChildren(n);
      }
    }

    method TranslateChildren(n: Node)
      requires n.Valid()
      modifies `missing, n.rep
      ensures n.Valid() && fresh(n.rep - old(n.rep))
      ensures n.val == Tree(old(n.val).data, TrAll(lex, old(n.val).children))
      ensures missing == NoteAll(lex, old(missing), AskedAll(lex, old(n.val).children))
      decreases n.val, 0, 0
    {
      ChildForest(n);
      ghost var foot := TranslateEach(n.children, n.rep - {n});
      Adopt(n, foot);
    }

    /** `for c in n.children: translate(c)`. */
    method TranslateEach(ns: seq<Node>, ghost foot: set<Node>) returns (ghost foot': set<Node>)
      requires Forest(ns, foot)
      modifies `missing, foot
      ensures Forest(ns, foot') && fresh(foot' - foot)
      ensures Vals(ns) == TrAll(lex, old(Vals(ns)))
      ensures missing == NoteAll(lex, old(missing), AskedAll(lex, old(Vals(ns))))
      decreases Vals(ns), 3
    {
      foot' := foot;
      if ns != [] {
        var n, tail := ns[0], ns[1..];
        ghost var ts, below := Vals(ns), foot - n.rep;
        ForestTail(ns, foot);
        NoteAllConcat(lex, missing, Asked(lex, ts[0]), AskedAll(lex, ts[1..]));
        TranslateFirst(n, tail, below);
        below := TranslateRest(n, tail, below);
        ForestCons(n, tail, below);
        assert [n] + tail == ns;
        foot' := n.rep + below;
      }
    }

    /** Translating one child leaves those after it as they were. */
    method TranslateFirst(n: Node, ghost tail: seq<Node>, ghost below: set<Node>)
      requires n.Valid() && Forest(tail, below) && n.rep !! below
      modifies `missing, n.rep
      ensures n.Valid() && fresh(n.rep - old(n.rep)) && n.rep !! below
      ensures n.val == Tr(lex, old(n.val))
      ensures missing == NoteAll(lex, old(missing), Asked(lex, old(n.val)))
      ensures Forest(tail, below) && Vals(tail) == old(Vals(tail))
      decreases n.val, 2
    {
      Translate(n);
    }

    /** Translating the children after one leaves that one as it is. */
    method TranslateRest(ghost n: Node, tail: seq<Node>, ghost below: set<Node>) returns (ghost below': set<Node>)
      requires n.Valid() && Forest(tail, below) && n.rep !! below
      modifies `missing, below
      ensures n.Valid() && n.val == old(n.val) && n.rep == old(n.rep) && n.rep !! below'
      ensures Forest(tail, below') && fresh(below' - below)
      ensures Vals(tail) == TrAll(lex, old(Vals(tail)))
      ensures missing == NoteAll(lex, old(missing), AskedAll(lex, old(Vals(tail))))
      decreases Vals(tail), 4
    {
      below' := TranslateEach(tail, below);
    }

    /** The end of a run: its nodes, or the one node that replaces them, join the output. */
    method Flush(out: seq<Node>, run: seq<Node>, ghost foot: set<Node>)
      returns (out': seq<Node>, ghost foot': set<Node>)
      requires Forest(out + run, foot)
      modifies `missing
      ensures Forest(out', foot') && fresh(foot' - foot)
      ensures Vals(out') == old(Vals(out)) + RunOut(lex, old(Vals(run)))
      ensures missing == NoteAll(lex, old(missing), AskedRun(old(Vals(run))))
    {
      ForestSplit(out, run, foot);
      if run == [] {
        assert Vals(out) + [] == Vals(out);
        return out, foot;
      }
      ghost var t, was := Vals(run), missing;
      var got := Find(SerializeAll(run, foot), "foreignObject");
      RunLookedUp(lex, was, t, got);
      if got.Some? {
        out', foot' := Append(out, got.value, foot);
      } else {
        out', foot' := out + run, foot;
      }
    }

    /** `out.append(Node("#raw", kind="text", text=got))`. */
    method Append(out: seq<Node>, got: string, ghost foot: set<Node>) returns (out': seq<Node>, ghost foot': set<Node>)
      requires Forest(out, foot)
      ensures Forest(out', foot') && fresh(foot' - foot)
      ensures Vals(out') == old(Vals(out)) + [RawNode(got)]
    {
      var node := new Node("#raw", "", TextRun, got);
      ForestSnoc(out, node, foot);
      out', foot' := out + [node], foot + {node};
    }

    /** A structural child: a span is looked up whole, and descended into on a miss. */
    method TranslateMark(c: Node)
      requires c.Valid()
      modifies `missing, c.rep
      ensures c.Valid() && fresh(c.rep - old(c.rep))
      ensures c.val == TrMark(lex, old(c.val))
      ensures missing == NoteAll(lex, old(missing), AskedMark(lex, old(c.val)))
      decreases c.val, 1
    {
      NodeData(c);
      if c.tag == "span" {
        TranslateUnit(c, "foreignObject span");
      }
    }

    /** A structural child in turn: the run before it is flushed, and it joins the output. */
    method FoMark(c: Node, out: seq<Node>, run: seq<Node>, ghost foot: set<Node>)
      returns (out': seq<Node>, ghost foot': set<Node>)
      requires Forest(out + run, foot) && c.Valid() && c.rep !! foot
      modifies `missing, c.rep
      ensures Forest(out', foot') && fresh(foot' - foot - old(c.rep))
      ensures Vals(out') == old(Vals(out)) + RunOut(lex, old(Vals(run))) + [TrMark(lex, old(c.val))]
      ensures missing == NoteAll(lex, NoteAll(lex, old(missing), AskedRun(old(Vals(run)))), AskedMark(lex, old(c.val)))
      decreases c.val, 2
    {
      ghost var vals := Vals(out) + RunOut(lex, Vals(run));
      out', foot' := Flush(out, run, foot);
      assert Vals(out') == vals && c.rep !! foot';
      TranslateMark(c);
      assert Forest(out', foot') && Vals(out') == vals;
      assert c.rep !! foot';
      ForestSnoc(out', c, foot');
      out', foot' := out' + [c], foot' + c.rep;
    }

    /** One round of the loop over the children. */
    method FoStep(c: Node, out: seq<Node>, run: seq<Node>, ghost foot: set<Node>,
                  ghost was: map<string, string>, ghost ts: seq<Tree>, ghost i: nat)
      returns (out': seq<Node>, run': seq<Node>, ghost foot': set<Node>)
      requires Forest(out + run, foot) && c.Valid() && c.rep !! foot
      requires i < |ts| && c.val == ts[i] && FoSoFar(lex, was, ts, i, Vals(out), Vals(run), missing)
      modifies `missing, c.rep
      ensures Forest(out' + run', foot') && fresh(foot' - foot - old(c.rep))
      ensures FoSoFar(lex, was, ts, i + 1, Vals(out'), Vals(run'), missing)
      decreases c.val, 3
    {
      NodeData(c);
      if c.kind.Elem? && (c.tag == "span" || c.tag == "br") {
        FoMarked(lex, was, ts, i, Vals(out), Vals(run), missing);
        out', foot' := FoMark(c, out, run, foot);
        run' := [];
        assert out' + run' == out';
      } else {
        FoOther(lex, was, ts, i, Vals(out), Vals(run), missing);
        LongerRun(out, run, c, foot);
        out', run', foot' := out, run + [c], foot + c.rep;
      }
    }

    /** One round of the loop over the children, `below` being the footprint of the children still to come. */
    method FoRound(cs: seq<Node>, i: nat, out: seq<Node>, run: seq<Node>, ghost foot: set<Node>, ghost below: set<Node>,
                   ghost was: map<string, string>, ghost ts: seq<Tree>)
      returns (out': seq<Node>, run': seq<Node>, ghost foot': set<Node>, ghost below': set<Node>)
      requires Forest(out + run, foot) && foot !! below && |ts| == |cs|
      requires i < |cs| && Forest(cs[i..], below) && Vals(cs[i..]) == ts[i..]
      requires FoSoFar(lex, was, ts, i, Vals(out), Vals(run), missing)
      modifies `missing, below
      ensures Forest(out' + run', foot') && foot' !! below' && fresh(foot' - foot - below)
      ensures below' <= below && Forest(cs[i + 1..], below') && Vals(cs[i + 1..]) == ts[i + 1..]
      ensures FoSoFar(lex, was, ts, i + 1, Vals(out'), Vals(run'), missing)
      decreases cs[i].val, 4
    {
      NextChild(cs, i, below);
      below' := below - cs[i].rep;
      out', run', foot' := FoStep(cs[i], out, run, foot, was, ts, i);
    }

    /** The loop over the children: the output so far, and the run still open at the end. */
    method FoLoop(cs: seq<Node>, ghost given: set<Node>) returns (out: seq<Node>, run: seq<Node>, ghost foot: set<Node>)
      requires Forest(cs, given)
      modifies `missing, given
      ensures Forest(out + run, foot) && fresh(foot - given)
      ensures FoSoFar(lex, old(missing), old(Vals(cs)), |cs|, Vals(out), Vals(run), missing)
      decreases Vals(cs), 4
    {
      out, run, foot := [], [], {};
      ghost var ts, was, below := Vals(cs), missing, given;
      FoStarts(lex, was, ts);
      for i := 0 to |cs|
        invariant foot !! below && below <= given && fresh(foot - given)
        invariant Forest(out + run, foot) && Forest(cs[i..], below) && Vals(cs[i..]) == ts[i..]
        invariant FoSoFar(lex, was, ts, i, Vals(out), Vals(run), missing)
      {
        assert cs[i].val == ts[i] by { assert cs[i..][0] == cs[i] && Vals(cs[i..])[0] == ts[i]; }
        out, run, foot, below := FoRound(cs, i, out, run, foot, below, was, ts);
      }
    }

    method TranslateFo(n: Node)
      requires n.Valid()
      modifies `missing, n.rep
      ensures n.Valid() && fresh(n.rep - old(n.rep))
      ensures n.val == Tree(old(n.val).data, TrFo(lex, old(n.val).children))
      ensures missing == NoteAll(lex, old(missing), AskedFo(lex, old(n.val).children))
      decreases n.val, 0
    {
      ChildForest(n);
      var out, foot := FoOut(n.children, n.rep - {n});
      SetChildren(n, out, foot);
    }

    /** What becomes of the children of a foreignObject block. */
    method FoOut(cs: seq<Node>, ghost given: set<Node>) returns (out: seq<Node>, ghost foot: set<Node>)
      requires Forest(cs, given)
      modifies `missing, given
      ensures Forest(out, foot) && fresh(foot - given)
      ensures Vals(out) == TrFo(lex, old(Vals(cs)))
      ensures missing == NoteAll(lex, old(missing), AskedFo(lex, old(Vals(cs))))
      decreases Vals(cs), 5
    {
      ghost var ts, was := Vals(cs), missing;
      var run: seq<Node>;
      out, run, foot := FoLoop(cs, given);
      FoEnds(lex, was, ts, Vals(out), Vals(run), missing);
      out, foot := Flush(out, run, foot);
    }

    method SetChildren(n: Node, cs: seq<Node>, ghost foot: set<Node>)
      requires Forest(cs, foot) && n !in foot && n.val.data == n.Fields()
      modifies n`children, n`val, n`rep
      ensures n.Valid() && n.rep == {n} + foot
      ensures n.val == Tree(old(n.val).data, old(Vals(cs)))
    {
      n.children := cs;
      Adopt(n, foot);
    }
  }
}

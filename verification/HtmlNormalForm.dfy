/**
 Building is a normal form: listing a built tree's events and building again gives the same tree,
 whatever the first stream looked like.
 */
module HtmlNormalForm {
  import opened Text
  import opened HtmlTree

  // ---------- a tree as events ----------

  function Flatten(t: Tree): seq<Event> {
    var d := t.data;
    match d.kind
    case TextRun => [Chars(d.text)]
    case Comment => [CommentEvent(d.text, "<!--" + d.text + "-->")]
    case Decl => [if d.tag == "#pi" then Pi(d.text, "<!" + d.text + ">") else DeclEvent(d.text, "<!" + d.text + ">")]
    case Elem =>
      if d.selfClosed then [StartEnd(d.tag, d.rawOpen)]
      else if d.tag in VOID then [Start(d.tag, d.rawOpen)]
      else [Start(d.tag, d.rawOpen)] + FlattenAll(t.children) + [End(d.tag, Closer(d))]
  }

  function FlattenAll(ts: seq<Tree>): seq<Event> {
    if ts == [] then [] else Flatten(ts[0]) + FlattenAll(ts[1..])
  }

  // ---------- what built trees look like ----------

  predicate Holds(d: Data) { d.kind.Elem? && !Childless(d) }

  /** The fields agree with each other the way the node constructor sets them. */
  predicate BuiltData(d: Data) {
    match d.kind
    case TextRun => d == TextData(d.text)
    case Comment => d == NewData("#comment", "", Comment, d.text)
    case Decl => d == NewData(d.tag, "", Decl, d.text) && (d.tag == "#decl" || d.tag == "#pi")
    case Elem => d.rawOpen != "" && d == NewData(d.tag, d.rawOpen, Elem, "").(selfClosed := d.selfClosed)
  }

  predicate Canonical(t: Tree) {
    BuiltData(t.data) && CanonicalAll(t.children) && (t.children != [] ==> Holds(t.data))
  }

  predicate CanonicalAll(ts: seq<Tree>) {
    ts != [] ==> Canonical(ts[0]) && CanonicalAll(ts[1..])
  }

  /** The stack below the root holds elements that take children. */
  ghost predicate OpenPath(t: Tree, d: nat) {
    d > 0 ==>
      && t.children != []
      && Holds(t.children[|t.children| - 1].data)
      && OpenPath(t.children[|t.children| - 1], d - 1)
  }

  lemma {:induction false} CanonicalAllConcat(a: seq<Tree>, b: seq<Tree>)
    ensures CanonicalAll(a + b) <==> CanonicalAll(a) && CanonicalAll(b)
  {
    if a == [] {
      assert a + b == b;
    } else {
      assert (a + b)[1..] == a[1..] + b;
      CanonicalAllConcat(a[1..], b);
    }
  }

  lemma {:induction false} OpenPathSpine(t: Tree, d: nat)
    requires OpenPath(t, d)
    ensures Spine(t, d)
  {
    if d > 0 { OpenPathSpine(t.children[|t.children| - 1], d - 1); }
  }

  lemma {:induction false} OpenPathShorter(t: Tree, d: nat, i: nat)
    requires OpenPath(t, d) && i <= d
    ensures OpenPath(t, i)
  {
    if i > 0 { OpenPathShorter(t.children[|t.children| - 1], d - 1, i - 1); }
  }

  lemma CanonicalSnoc(ts: seq<Tree>, t: Tree)
    requires CanonicalAll(ts) && Canonical(t)
    ensures CanonicalAll(ts + [t])
  {
    assert [t][1..] == [];
    CanonicalAllConcat(ts, [t]);
  }

  lemma CanonicalLast(ts: seq<Tree>)
    requires ts != [] && CanonicalAll(ts)
    ensures CanonicalAll(ts[..|ts| - 1]) && Canonical(ts[|ts| - 1])
  {
    var init, last := ts[..|ts| - 1], ts[|ts| - 1];
    assert ts == init + [last];
    CanonicalAllConcat(init, [last]);
    assert [last][0] == last;
  }

  lemma {:induction false} AddCanonical(t: Tree, d: nat, n: Tree)
    requires OpenPath(t, d) && CanonicalAll(t.children) && Canonical(n)
    ensures Spine(t, d)
    ensures CanonicalAll(AddAt(t, d, n).children) && OpenPath(AddAt(t, d, n), d)
    ensures Holds(n.data) ==> OpenPath(AddAt(t, d, n), d + 1)
  {
    OpenPathSpine(t, d);
    if d == 0 {
      CanonicalSnoc(t.children, n);
    } else {
      var k := |t.children| - 1;
      CanonicalLast(t.children);
      AddCanonical(t.children[k], d - 1, n);
      CanonicalSnoc(t.children[..k], AddAt(t.children[k], d - 1, n));
    }
  }

  ghost predicate Built(s: State) {
    s.tree.data == ROOT && CanonicalAll(s.tree.children) && OpenPath(s.tree, s.depth)
  }

  lemma AddKeepsRoot(t: Tree, d: nat, n: Tree)
    requires Spine(t, d)
    ensures AddAt(t, d, n).data == t.data
  {}

  lemma NodeOfBuilt(e: Event)
    requires NodeOf(e).Some?
    ensures Canonical(Leaf(NodeOf(e).value))
    ensures Pushes(e) ==> Holds(NodeOf(e).value)
  {}

  /** Every step keeps the builder's invariant: the root stays at the bottom of the stack, the stack is
      a root-to-last-child spine of elements, and every node has the shape the builder gives it. */
  lemma StepBuilt(s: State, e: Event)
    requires Built(s)
    ensures Spine(s.tree, s.depth) && Built(Step(s, e))
  {
    OpenPathSpine(s.tree, s.depth);
    match NodeOf(e)
    case Some(d) =>
      NodeOfBuilt(e);
      AddCanonical(s.tree, s.depth, Leaf(d));
      AddKeepsRoot(s.tree, s.depth, Leaf(d));
    case None =>
      OpenPathShorter(s.tree, s.depth, Step(s, e).depth);
  }

  lemma {:induction false} RunBuilt(s: State, evs: seq<Event>)
    requires Built(s)
    ensures Spine(s.tree, s.depth) && Built(Run(s, evs))
    decreases evs
  {
    OpenPathSpine(s.tree, s.depth);
    if evs != [] {
      StepBuilt(s, evs[0]);
      RunBuilt(Step(s, evs[0]), evs[1..]);
    }
  }

  // ---------- building the listing again ----------

  function AddAll(t: Tree, d: nat, ns: seq<Tree>): (r: Tree)
    requires Spine(t, d)
    ensures Spine(r, d)
    decreases ns
  {
    if ns == [] then t
    else
      AddAtSpine(t, d, ns[0]);
      SpineShorter(AddAt(t, d, ns[0]), d + 1, d);
      AddAll(AddAt(t, d, ns[0]), d, ns[1..])
  }

  /** Adding below a node just added is adding the larger node. */
  lemma {:induction false} Deepen(t: Tree, d: nat, x: Data, cs: seq<Tree>, n: Tree)
    requires Spine(t, d)
    ensures Spine(AddAt(t, d, Tree(x, cs)), d + 1)
    ensures AddAt(AddAt(t, d, Tree(x, cs)), d + 1, n) == AddAt(t, d, Tree(x, cs + [n]))
  {
    AddAtSpine(t, d, Tree(x, cs));
    var k := |t.children| - 1;
    var u := AddAt(t, d, Tree(x, cs));
    if d == 0 {
      assert u.children[..|t.children|] == t.children;
    } else {
      Deepen(t.children[k], d - 1, x, cs, n);
      assert u.children[..k] == t.children[..k];
    }
  }

  lemma {:induction false} DeepenAll(t: Tree, d: nat, x: Data, cs: seq<Tree>, ns: seq<Tree>)
    requires Spine(t, d)
    ensures Spine(AddAt(t, d, Tree(x, cs)), d + 1)
    ensures AddAll(AddAt(t, d, Tree(x, cs)), d + 1, ns) == AddAt(t, d, Tree(x, cs + ns))
    decreases ns
  {
    AddAtSpine(t, d, Tree(x, cs));
    if ns == [] {
      assert cs + ns == cs;
    } else {
      Deepen(t, d, x, cs, ns[0]);
      DeepenAll(t, d, x, cs + [ns[0]], ns[1..]);
      assert cs + [ns[0]] + ns[1..] == cs + ns;
    }
  }

  lemma {:induction false} AddAllRoot(x: Data, cs: seq<Tree>, ns: seq<Tree>)
    ensures AddAll(Tree(x, cs), 0, ns) == Tree(x, cs + ns)
    decreases ns
  {
    if ns == [] {
      assert cs + ns == cs;
    } else {
      AddAllRoot(x, cs + [ns[0]], ns[1..]);
      assert cs + [ns[0]] + ns[1..] == cs + ns;
    }
  }

  /** The event that creates `n`, on its own. */
  function Opening(n: Tree): Event { Flatten(n)[0] }

  lemma OpeningAdds(s: State, n: Tree)
    requires Spine(s.tree, s.depth) && BuiltData(n.data)
    ensures Step(s, Opening(n))
         == State(AddAt(s.tree, s.depth, Leaf(n.data)), if Holds(n.data) then s.depth + 1 else s.depth)
    ensures Run(s, [Opening(n)]) == Step(s, Opening(n))
  {
    assert NodeOf(Opening(n)) == Some(n.data);
    StepSpine(s, Opening(n));
  }

  lemma EndCloses(t: Tree, d: nat, n: Tree)
    requires Spine(t, d)
    ensures Spine(AddAt(t, d, n), d + 1)
    ensures Run(State(AddAt(t, d, n), d + 1), [End(n.data.tag, Closer(n.data))]) == State(AddAt(t, d, n), d)
  {
    AddAtSpine(t, d, n);
    var s, e := State(AddAt(t, d, n), d + 1), End(n.data.tag, Closer(n.data));
    StepSpine(s, e);
    assert Step(s, e) == State(s.tree, d);
  }

  lemma {:induction false} Refill(t: Tree, d: nat, n: Tree)
    requires Spine(t, d) && Canonical(n)
    ensures Run(State(t, d), Flatten(n)) == State(AddAt(t, d, n), d)
    decreases n
  {
    var s := State(t, d);
    OpeningAdds(s, n);
    if Holds(n.data) {
      var mid := Step(s, Opening(n));
      var inner, last := FlattenAll(n.children), [End(n.data.tag, Closer(n.data))];
      DeepenAll(t, d, n.data, [], n.children);
      assert [] + n.children == n.children && Tree(n.data, n.children) == n;
      RefillAll(mid.tree, d + 1, n.children);
      EndCloses(t, d, n);
      RunConcat(mid, inner, last);
      RunConcat(s, [Opening(n)], inner + last);
      assert Flatten(n) == [Opening(n)] + (inner + last);
    } else {
      assert n == Leaf(n.data);
      assert Flatten(n) == [Opening(n)];
    }
  }

  lemma {:induction false} RefillAll(t: Tree, d: nat, ns: seq<Tree>)
    requires Spine(t, d) && CanonicalAll(ns)
    ensures Run(State(t, d), FlattenAll(ns)) == State(AddAll(t, d, ns), d)
    decreases ns
  {
    if ns != [] {
      Refill(t, d, ns[0]);
      AddAtSpine(t, d, ns[0]);
      SpineShorter(AddAt(t, d, ns[0]), d + 1, d);
      RefillAll(AddAt(t, d, ns[0]), d, ns[1..]);
      RunConcat(State(t, d), Flatten(ns[0]), FlattenAll(ns[1..]));
    }
  }

  /** Building again changes nothing. */
  lemma Fixpoint(evs: seq<Event>)
    ensures Build(FlattenAll(Build(evs).children)) == Build(evs)
  {
    RunBuilt(START, evs);
    var t := Build(evs);
    RefillAll(START.tree, 0, t.children);
    AddAllRoot(ROOT, [], t.children);
    assert [] + t.children == t.children;
  }
}

/**
 The mutable node graph of scripts/build-diagram-langs.py: the nodes, the builder with its stack of
 open elements, and the printer, each proved against the value model of module HtmlTree.
 */
module HtmlBuilder {
  import opened Text
  import opened HtmlTree

  class Node {
    const tag: string
    const rawName: string
    const rawOpen: string
    const kind: Kind
    const text: string
    var selfClosed: bool
    var children: seq<Node>

    /** The tree below this node, and the nodes it is made of. */
    ghost var val: Tree
    ghost var rep: set<Node>

    ghost function Fields(): Data
      reads this
    {
      Data(tag, rawName, rawOpen, kind, text, selfClosed)
    }

    /** This node is the root of a finite tree: no node is reachable along two paths. */
    ghost predicate Valid()
      reads this, rep
      decreases rep, 1
      ensures Valid() ==> this in rep
    {
      && this in rep
      && (forall i :: 0 <= i < |children| ==> children[i] in rep && Owns(children[i]))
      && (forall i, j :: 0 <= i < j < |children| ==> children[i].rep !! children[j].rep)
      && Records(|children|)
    }

    /** `c` and everything below it belong to this node, and this node is not among them. */
    ghost predicate Owns(c: Node)
      requires c in rep
      reads this, rep
      decreases rep, 0
    {
      c.rep < rep && this !in c.rep && c.Valid()
    }

    /** The recorded value agrees with the fields and with the first `k` children. */
    ghost predicate Records(k: nat)
      requires k <= |children|
      reads this, children
    {
      && val.data == Fields()
      && |val.children| == |children|
      && (forall i :: 0 <= i < k ==> val.children[i] == children[i].val)
    }

    constructor (tag: string, rawOpen: string, kind: Kind, text: string)
      ensures Valid() && fresh(rep)
      ensures rep == {this} && val == Leaf(NewData(tag, rawOpen, kind, text))
    {
      this.tag := tag;
      this.rawName := RawName(rawOpen, tag);
      this.rawOpen := rawOpen;
      this.kind := kind;
      this.text := text;
      selfClosed := false;
      children := [];
      val := Leaf(NewData(tag, rawOpen, kind, text));
      rep := {this};
      new;
      assert val.data == Fields();
    }

    /** The printer of the script, on the nodes themselves. */
    function Serialize(): (s: string)
      requires Valid()
      reads this, rep
      decreases rep, 0
      ensures s == Print(val)
    {
      match kind
      case TextRun => text
      case Comment => "<!--" + text + "-->"
      case Decl => "<!" + text + ">"
      case Elem =>
        if tag == "#root" then SerializeFrom(0)
        else if tag in VOID || selfClosed then rawOpen
        else rawOpen + SerializeFrom(0) + "</" + rawName + ">"
    }

    /** `"".join(serialize(c) for c in children[i:])`. */
    function SerializeFrom(i: nat): (s: string)
      requires Valid() && i <= |children|
      reads this, rep
      decreases rep, 0, |children| - i
      ensures s == PrintAll(val.children[i..])
    {
      if i == |children| then ""
      else
        assert Owns(children[i]);
        children[i].Serialize() + SerializeFrom(i + 1)
    }
  }

  /** `path[i+1]` is the last child of `path[i]`. */
  ghost predicate Chain(path: seq<Node>)
    reads path
  {
    forall i :: 0 <= i < |path| - 1 ==>
      path[i].children != [] && path[i + 1] == path[i].children[|path[i].children| - 1]
  }

  /** The nodes of a chain below a valid node: each is valid, inside the nodes above it and apart from
      their other children, and its value sits on the spine. */
  lemma {:induction false} ChainFacts(path: seq<Node>, i: nat)
    requires i < |path| && Chain(path) && path[0].Valid()
    ensures path[i].Valid() && path[i].rep <= path[0].rep
    ensures Spine(path[0].val, i) && SpineAt(path[0].val, i) == path[i].val
    ensures i > 0 ==> path[0] !in path[i].rep
    decreases i
  {
    if i > 0 {
      ChainTail(path);
      ChainFacts(path[1..], i - 1);
    }
  }

  lemma ChainTail(path: seq<Node>)
    requires |path| > 1 && Chain(path)
    ensures Chain(path[1..])
  {
    var tail := path[1..];
    forall j | 0 <= j < |tail| - 1
      ensures tail[j].children != [] && tail[j + 1] == tail[j].children[|tail[j].children| - 1]
    {
      assert tail[j] == path[j + 1] && tail[j + 1] == path[j + 2];
    }
  }

  method NewElement(tag: string, rawOpen: string, selfClosed: bool) returns (n: Node)
    ensures n.Valid() && fresh(n.rep) && n.rep == {n}
    ensures n.val == Leaf(NewData(tag, rawOpen, Elem, "").(selfClosed := selfClosed))
  {
    n := new Node(tag, rawOpen, Elem, "");
    n.selfClosed := selfClosed;
    n.val := Leaf(n.val.data.(selfClosed := selfClosed));
  }

  method AppendChild(p: Node, n: Node)
    requires p.Valid() && n.Valid() && n.rep == {n} && n !in p.rep
    modifies p
    ensures p.Valid() && p.rep == old(p.rep) + {n} && p.children == old(p.children) + [n]
    ensures p.val == Tree(old(p.val).data, old(p.val).children + [n.val])
  {
    p.children := p.children + [n];
    p.val := Tree(p.val.data, p.val.children + [n.val]);
    p.rep := p.rep + {n};
    assert n.Valid();
  }

  /** `p` is valid but for what it records about its last child, below which `n` has been added. */
  ghost predicate Outdated(p: Node, last: Node, n: Node)
    reads p, p.rep, last, last.rep
  {
    var k := |p.children| - 1;
    && p in p.rep && k >= 0 && last == p.children[k]
    && last.Valid() && last in p.rep && last.rep <= p.rep + {n} && p !in last.rep && n in last.rep
    && (forall j :: 0 <= j <= k ==> p.children[j] in p.rep)
    && (forall j :: 0 <= j < k ==> p.Owns(p.children[j]))
    && (forall i, j :: 0 <= i < j <= k ==> p.children[i].rep !! p.children[j].rep)
    && p.Records(k)
  }

  /** Brings the record of one node up to date with its last child. */
  ghost method Refresh(p: Node, last: Node, n: Node)
    requires Outdated(p, last, n)
    modifies p`val, p`rep
    ensures p.Valid() && p.rep == old(p.rep) + {n}
    ensures p.val == Tree(old(p.val).data, old(p.val).children[..|p.children| - 1] + [last.val])
  {
    var k := |p.children| - 1;
    var vals := p.val.children[..k] + [last.val];
    assert |vals| == |p.children| && forall j :: 0 <= j <= k ==> vals[j] == p.children[j].val;
    p.rep, p.val := p.rep + {n}, Tree(p.val.data, vals);
    assert p.Records(|p.children|);
    forall j | 0 <= j <= k ensures p.Owns(p.children[j]) {}
  }

  /** Appends the new node `n` to the children of the last node of the path. The walk down the path
      does nothing at run time: it brings the recorded values along the path up to date. */
  method AppendLast(path: seq<Node>, n: Node)
    requires path != [] && Chain(path) && path[0].Valid()
    requires n.Valid() && n.rep == {n} && n !in path[0].rep
    modifies path[0].rep
    decreases |path|, 0
    ensures path[0].Valid() && path[0].rep == old(path[0].rep) + {n}
    ensures Spine(old(path[0].val), |path| - 1)
    ensures path[0].val == AddAt(old(path[0].val), |path| - 1, n.val)
    ensures forall i :: 0 <= i < |path| - 1 ==> path[i].children == old(path[i].children)
    ensures var top := path[|path| - 1]; top.children == old(top.children) + [n]
  {
    if |path| == 1 {
      AppendChild(path[0], n);
    } else {
      ChainTail(path);
      AppendBelow(path[0], path[1..], n);
      forall i | 1 <= i < |path| - 1 ensures path[i].children == old(path[i].children) {
        assert path[i] == path[1..][i - 1];
      }
    }
  }

  method AppendBelow(p: Node, rest: seq<Node>, n: Node)
    requires rest != [] && Chain(rest) && p.Valid()
    requires p.children != [] && rest[0] == p.children[|p.children| - 1]
    requires n.Valid() && n.rep == {n} && n !in p.rep
    modifies p.rep
    decreases |rest|, 1
    ensures p.Valid() && p.rep == old(p.rep) + {n} && p.children == old(p.children)
    ensures Spine(old(p.val), |rest|)
    ensures p.val == AddAt(old(p.val), |rest|, n.val)
    ensures forall i :: 0 <= i < |rest| - 1 ==> rest[i].children == old(rest[i].children)
    ensures var top := rest[|rest| - 1]; top.children == old(top.children) + [n]
  {
    ghost var last := rest[0];
    ghost var k := |p.children| - 1;
    assert last == p.children[k] && p.Owns(last);
    AppendLast(rest, n);
    assert last.Valid() && p.Records(k);
    forall j | 0 <= j < k ensures p.Owns(p.children[j]) && p.children[j].rep !! last.rep {
      assert old(p.Owns(p.children[j]));
      assert p.children[j].rep !! old(last.rep);
    }
    Refresh(p, last, n);
  }

  /** The tree builder: `stack` runs from the root to the innermost open element. */
  class Builder {
    var root: Node
    var stack: seq<Node>

    ghost predicate Valid()
      reads this, root, root.rep
    {
      && root.Valid()
      && stack != [] && stack[0] == root
      && (forall n <- stack :: n in root.rep)
      && Chain(stack)
    }

    /** The value model's state: the tree, and the depth of the innermost open element. */
    ghost function View(): (s: State)
      requires Valid()
      reads this, root, root.rep
      ensures Spine(s.tree, s.depth)
    {
      ChainFacts(stack, |stack| - 1);
      State(root.val, |stack| - 1)
    }

    constructor ()
      ensures Valid() && fresh(root.rep) && View() == START
    {
      var r := new Node("#root", "", Elem, "");
      root := r;
      stack := [r];
    }

    /** Appends a new childless node to the innermost open element. */
    method Add(n: Node)
      requires Valid() && n.Valid() && n.rep == {n} && n !in root.rep
      modifies root.rep
      ensures Valid() && root == old(root) && stack == old(stack)
      ensures root.rep == old(root.rep) + {n}
      ensures View() == State(AddAt(old(View()).tree, old(View()).depth, n.val), old(View()).depth)
      ensures var cs := stack[|stack| - 1].children; cs != [] && cs[|cs| - 1] == n
    {
      AppendLast(stack, n);
    }

    /** Adds the node of an event that does not open an element. */
    method AddFor(n: Node, ghost e: Event)
      requires Valid() && n.Valid() && n.rep == {n} && n !in root.rep
      requires NodeOf(e) == Some(n.val.data) && n.val == Leaf(n.val.data) && !Pushes(e)
      modifies root.rep
      ensures Valid() && root == old(root) && root.rep == old(root.rep) + {n}
      ensures View() == Step(old(View()), e)
    {
      Add(n);
    }

    /** Adds the node of an event that opens an element, and opens it. */
    method AddAndPush(n: Node, ghost e: Event)
      requires Valid() && n.Valid() && n.rep == {n} && n !in root.rep
      requires NodeOf(e) == Some(n.val.data) && n.val == Leaf(n.val.data) && Pushes(e)
      modifies this`stack, root.rep
      ensures Valid() && root == old(root) && root.rep == old(root.rep) + {n}
      ensures View() == Step(old(View()), e)
    {
      Add(n);
      Push(n);
    }

    method HandleStartTag(tag: string, raw: string)
      requires Valid()
      modifies this, root.rep
      ensures Valid() && root == old(root) && fresh(root.rep - old(root.rep))
      ensures View() == Step(old(View()), Start(tag, raw))
    {
      var n := NewElement(tag, if raw == "" then "<" + tag + ">" else raw, false);
      if tag !in VOID {
        AddAndPush(n, Start(tag, raw));
      } else {
        AddFor(n, Start(tag, raw));
      }
    }

    /** The element just added becomes the innermost open one. */
    method Push(n: Node)
      requires Valid()
      requires var cs := stack[|stack| - 1].children; cs != [] && cs[|cs| - 1] == n
      modifies this`stack
      ensures Valid() && View() == State(old(View()).tree, old(View()).depth + 1)
    {
      ChainFacts(stack, |stack| - 1);
      stack := stack + [n];
    }

    /** A self-closing tag: a child that never goes on the stack. */
    method HandleStartEndTag(tag: string, raw: string)
      requires Valid()
      modifies root.rep
      ensures Valid() && root == old(root) && fresh(root.rep - old(root.rep))
      ensures View() == Step(old(View()), StartEnd(tag, raw))
    {
      var n := NewElement(tag, if raw == "" then "<" + tag + "/>" else raw, true);
      AddFor(n, StartEnd(tag, raw));
    }

    /** Text, references, comments, declarations and processing instructions. */
    method HandleLeaf(tag: string, kind: Kind, text: string, ghost e: Event)
      requires Valid() && NodeOf(e) == Some(NewData(tag, "", kind, text)) && !Pushes(e)
      modifies root.rep
      ensures Valid() && root == old(root) && fresh(root.rep - old(root.rep))
      ensures View() == Step(old(View()), e)
    {
      var n := new Node(tag, "", kind, text);
      AddFor(n, e);
    }

    /** Closes the innermost open element called `tag`, and everything opened inside it. The root is
        never closed. */
    method HandleEndTag(tag: string, ghost raw: string)
      requires Valid()
      modifies this`stack
      ensures Valid()
      ensures View() == Step(old(View()), End(tag, raw))
    {
      var i := Innermost(tag);
      if i > 0 {
        Truncate(i);
      }
    }

    /** The position of the innermost open element called `tag`; 0 when there is none. */
    method Innermost(tag: string) returns (i: nat)
      requires Valid()
      ensures i < |stack| && Spine(root.val, |stack| - 1) && i == FindOpen(root.val, |stack| - 1, tag)
    {
      i := |stack| - 1;
      ChainFacts(stack, i);
      while i > 0
        invariant i < |stack| && Spine(root.val, i)
        invariant FindOpen(root.val, |stack| - 1, tag) == FindOpen(root.val, i, tag)
      {
        ChainFacts(stack, i);
        if stack[i].tag == tag {
          return;
        }
        ChainFacts(stack, i - 1);
        i := i - 1;
      }
    }

    /** `del self.stack[i:]`. */
    method Truncate(i: nat)
      requires Valid() && 0 < i < |stack|
      modifies this`stack
      ensures Valid() && View() == State(old(View()).tree, i - 1)
    {
      stack := stack[..i];
    }

    method Handle(e: Event)
      requires Valid()
      modifies this, root.rep
      ensures Valid() && root == old(root) && fresh(root.rep - old(root.rep))
      ensures View() == Step(old(View()), e)
    {
      match e
      case Start(tag, raw) => HandleStartTag(tag, raw);
      case StartEnd(tag, raw) => HandleStartEndTag(tag, raw);
      case End(tag, raw) => HandleEndTag(tag, raw);
      case Chars(raw) => HandleLeaf("#text", TextRun, raw, e);
      case EntityRef(name, _) => HandleLeaf("#text", TextRun, "&" + name + ";", e);
      case CharRef(name, _) => HandleLeaf("#text", TextRun, "&#" + name + ";", e);
      case CommentEvent(text, _) => HandleLeaf("#comment", Comment, text, e);
      case DeclEvent(text, _) => HandleLeaf("#decl", Decl, text, e);
      case Pi(text, _) => HandleLeaf("#pi", Decl, text, e);
      case Skipped(_) =>
    }
  }

  /** The tree of a whole document, given the events its text is cut into. */
  method Parse(evs: seq<Event>) returns (root: Node)
    ensures root.Valid() && fresh(root.rep)
    ensures root.val == Build(evs)
  {
    var b := new Builder();
    for i := 0 to |evs|
      invariant b.Valid() && fresh(b) && fresh(b.root.rep)
      invariant b.View() == Run(START, evs[..i])
    {
      b.Handle(evs[i]);
      RunConcat(START, evs[..i], [evs[i]]);
      assert evs[..i + 1] == evs[..i] + [evs[i]];
    }
    assert evs[..|evs|] == evs;
    root := b.root;
  }
}

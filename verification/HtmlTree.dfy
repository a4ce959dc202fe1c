/**
 The document tree of scripts/build-diagram-langs.py as a value: what the printer emits for a
 tree, the tokenizer's events, and the tree the builder makes of an event stream.
 */
module HtmlTree {
  import opened Text

  const VOID: set<string> := {"area", "base", "br", "col", "embed", "hr", "img", "input",
                              "link", "meta", "param", "source", "track", "wbr"}

  datatype Kind = Elem | TextRun | Comment | Decl

  /** The fields of a node other than its links to other nodes. */
  datatype Data = Data(tag: string, rawName: string, rawOpen: string, kind: Kind, text: string, selfClosed: bool)

  datatype Tree = Tree(data: Data, children: seq<Tree>)

  // ---------- node construction ----------

  /** The characters that end a tag name. */
  predicate EndsName(c: char) { IsSpace(c) || c == '/' || c == '>' }

  function NamePrefix(s: string): (r: string)
    ensures r <= s
    ensures forall c <- r :: !EndsName(c)
    ensures |r| < |s| ==> EndsName(s[|r|])
  {
    if s == "" || EndsName(s[0]) then "" else [s[0]] + NamePrefix(s[1..])
  }

  /** The element name as written in `raw`, or `tag` when `raw` does not start like a tag. */
  function RawName(raw: string, tag: string): string {
    if raw == "" || raw[0] != '<' then tag
    else
      var name := NamePrefix(LStrip(raw[1..]));
      if name == "" then tag else name
  }

  function NewData(tag: string, rawOpen: string, kind: Kind, text: string): Data {
    Data(tag, RawName(rawOpen, tag), rawOpen, kind, text, false)
  }

  function ElemData(tag: string, raw: string): Data {
    NewData(tag, if raw == "" then "<" + tag + ">" else raw, Elem, "")
  }

  function SelfClosedData(tag: string, raw: string): Data {
    NewData(tag, if raw == "" then "<" + tag + "/>" else raw, Elem, "").(selfClosed := true)
  }

  function TextData(text: string): Data { NewData("#text", "", TextRun, text) }

  const ROOT: Data := NewData("#root", "", Elem, "")

  function Leaf(d: Data): Tree { Tree(d, []) }

  // ---------- the printer ----------

  function Closer(d: Data): string { "</" + d.rawName + ">" }

  /** An element printed as its opening text alone, whatever its children. */
  predicate Childless(d: Data) { d.tag in VOID || d.selfClosed }

  function Print(t: Tree): string {
    match t.data.kind
    case TextRun => t.data.text
    case Comment => "<!--" + t.data.text + "-->"
    case Decl => "<!" + t.data.text + ">"
    case Elem =>
      if t.data.tag == "#root" then PrintAll(t.children)
      else if Childless(t.data) then t.data.rawOpen
      else t.data.rawOpen + PrintAll(t.children) + Closer(t.data)
  }

  function PrintAll(ts: seq<Tree>): string {
    if ts == [] then "" else Print(ts[0]) + PrintAll(ts[1..])
  }

  lemma PrintOne(t: Tree)
    ensures PrintAll([t]) == Print(t)
  {
    assert [t][1..] == [];
  }

  lemma {:induction false} PrintAllConcat(a: seq<Tree>, b: seq<Tree>)
    ensures PrintAll(a + b) == PrintAll(a) + PrintAll(b)
  {
    if a == [] {
      assert a + b == b;
    } else {
      assert (a + b)[1..] == a[1..] + b;
      PrintAllConcat(a[1..], b);
    }
  }

  // ---------- places in a tree ----------

  /** A place in a tree: which child, of that which child, and so on. */
  type Path = seq<nat>

  predicate Leads(t: Tree, path: Path) {
    path != [] ==> path[0] < |t.children| && Leads(t.children[path[0]], path[1..])
  }

  function At(t: Tree, path: Path): Tree
    requires Leads(t, path)
    decreases path
  {
    if path == [] then t else At(t.children[path[0]], path[1..])
  }

  // ---------- tokenizer events ----------

  /** What the tokenizer reports. `raw` is the exact input text the event covers; `Skipped` is input
      that reaches no callback of the builder, such as `<![CDATA[...]]>`. */
  datatype Event =
    | Start(tag: string, raw: string)
    | StartEnd(tag: string, raw: string)
    | End(tag: string, raw: string)
    | Chars(raw: string)
    | EntityRef(name: string, raw: string)
    | CharRef(name: string, raw: string)
    | CommentEvent(text: string, raw: string)
    | DeclEvent(text: string, raw: string)
    | Pi(text: string, raw: string)
    | Skipped(raw: string)

  /** The input text a stream covers. */
  function Raw(evs: seq<Event>): string {
    if evs == [] then "" else evs[0].raw + Raw(evs[1..])
  }

  lemma {:induction false} RawSnoc(evs: seq<Event>, e: Event)
    ensures Raw(evs + [e]) == Raw(evs) + e.raw
  {
    if evs == [] {
      assert evs + [e] == [e];
    } else {
      assert (evs + [e])[1..] == evs[1..] + [e];
      RawSnoc(evs[1..], e);
    }
  }

  /** The node an event adds, for the events that add one. */
  function NodeOf(e: Event): Option<Data> {
    match e
    case Start(tag, raw) => Some(ElemData(tag, raw))
    case StartEnd(tag, raw) => Some(SelfClosedData(tag, raw))
    case End(_, _) => None
    case Chars(raw) => Some(TextData(raw))
    case EntityRef(name, _) => Some(TextData("&" + name + ";"))
    case CharRef(name, _) => Some(TextData("&#" + name + ";"))
    case CommentEvent(text, _) => Some(NewData("#comment", "", Comment, text))
    case DeclEvent(text, _) => Some(NewData("#decl", "", Decl, text))
    case Pi(text, _) => Some(NewData("#pi", "", Decl, text))
    case Skipped(_) => None
  }

  predicate Pushes(e: Event) { e.Start? && e.tag !in VOID }

  // ---------- the builder on values ----------

  /** The last children of `t`, `t` itself at depth 0: the nodes the builder's stack may hold. */
  ghost predicate Spine(t: Tree, d: nat) {
    d == 0 || (t.children != [] && Spine(t.children[|t.children| - 1], d - 1))
  }

  function SpineAt(t: Tree, d: nat): Tree
    requires Spine(t, d)
  {
    if d == 0 then t else SpineAt(t.children[|t.children| - 1], d - 1)
  }

  /** Appends `n` to the children of the spine node at depth `d`. */
  function AddAt(t: Tree, d: nat, n: Tree): Tree
    requires Spine(t, d)
  {
    if d == 0 then Tree(t.data, t.children + [n])
    else
      var k := |t.children| - 1;
      Tree(t.data, t.children[..k] + [AddAt(t.children[k], d - 1, n)])
  }

  lemma {:induction false} SpineShorter(t: Tree, d: nat, i: nat)
    requires Spine(t, d) && i <= d
    ensures Spine(t, i)
  {
    if i > 0 { SpineShorter(t.children[|t.children| - 1], d - 1, i - 1); }
  }

  lemma {:induction false} AddAtSpine(t: Tree, d: nat, n: Tree)
    requires Spine(t, d)
    ensures Spine(AddAt(t, d, n), d + 1)
    ensures SpineAt(AddAt(t, d, n), d + 1) == n
  {
    if d > 0 { AddAtSpine(t.children[|t.children| - 1], d - 1, n); }
  }

  lemma {:induction false} AddAtKeepsData(t: Tree, d: nat, n: Tree, i: nat)
    requires Spine(t, d) && i <= d
    ensures Spine(t, i) && Spine(AddAt(t, d, n), i)
    ensures SpineAt(AddAt(t, d, n), i).data == SpineAt(t, i).data
  {
    if i > 0 { AddAtKeepsData(t.children[|t.children| - 1], d - 1, n, i - 1); }
  }

  /** The innermost open element called `tag`, as a depth; 0 when there is none. */
  function FindOpen(t: Tree, d: nat, tag: string): (i: nat)
    requires Spine(t, d)
    ensures i <= d
  {
    SpineShorter(t, d, if d == 0 then 0 else d - 1);
    if d == 0 then 0 else if SpineAt(t, d).data.tag == tag then d else FindOpen(t, d - 1, tag)
  }

  /** The builder's state: the tree so far and how deep the stack reaches along its spine. */
  datatype State = State(tree: Tree, depth: nat)

  const START := State(Leaf(ROOT), 0)

  function Step(s: State, e: Event): State
    requires Spine(s.tree, s.depth)
  {
    match NodeOf(e)
    case Some(data) => State(AddAt(s.tree, s.depth, Leaf(data)), if Pushes(e) then s.depth + 1 else s.depth)
    case None =>
      if e.End? then
        var i := FindOpen(s.tree, s.depth, e.tag);
        if i == 0 then s else State(s.tree, i - 1)
      else s
  }

  lemma {:induction false} StepSpine(s: State, e: Event)
    requires Spine(s.tree, s.depth)
    ensures Spine(Step(s, e).tree, Step(s, e).depth)
  {
    match NodeOf(e)
    case Some(data) =>
      AddAtSpine(s.tree, s.depth, Leaf(data));
      SpineShorter(AddAt(s.tree, s.depth, Leaf(data)), s.depth + 1, s.depth);
    case None =>
      SpineShorter(s.tree, s.depth, Step(s, e).depth);
  }

  function Run(s: State, evs: seq<Event>): (r: State)
    requires Spine(s.tree, s.depth)
    ensures Spine(r.tree, r.depth)
    decreases evs
  {
    if evs == [] then s
    else
      StepSpine(s, evs[0]);
      Run(Step(s, evs[0]), evs[1..])
  }

  lemma {:induction false} RunConcat(s: State, a: seq<Event>, b: seq<Event>)
    requires Spine(s.tree, s.depth)
    ensures Run(s, a + b) == Run(Run(s, a), b)
    decreases a
  {
    if a == [] {
      assert a + b == b;
    } else {
      assert (a + b)[1..] == a[1..] + b;
      StepSpine(s, a[0]);
      RunConcat(Step(s, a[0]), a[1..], b);
    }
  }

  /** The tree of a whole stream. */
  function Build(evs: seq<Event>): Tree { Run(START, evs).tree }
}

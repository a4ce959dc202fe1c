/**
 When does printing the built tree give the input back? The tree printer is first shown equal to a
 streaming printer that keeps no tree; the round trip is then decided on the streams.
 */
module HtmlRoundTrip {
  import opened Text
  import opened HtmlTree

  // ---------- a printer without a tree ----------

  /** The closing tags of `open[k..]`, innermost first. */
  function Closers(open: seq<Data>, k: nat): string {
    if |open| <= k then "" else Closer(open[|open| - 1]) + Closers(open[..|open| - 1], k)
  }

  /** One more than the index of the innermost entry called `tag`; 0 when there is none. */
  function FindIn(open: seq<Data>, tag: string): (i: nat)
    ensures i <= |open|
  {
    if open == [] then 0
    else if open[|open| - 1].tag == tag then |open|
    else FindIn(open[..|open| - 1], tag)
  }

  /** An end tag closes everything down to its match; one that matches nothing disappears. */
  function EndEmits(open: seq<Data>, tag: string): string {
    var i := FindIn(open, tag);
    if i == 0 then "" else Closers(open, i - 1)
  }

  function EndLeaves(open: seq<Data>, tag: string): seq<Data> {
    var i := FindIn(open, tag);
    if i == 0 then open else open[..i - 1]
  }

  /** What one event adds to the output. */
  function Emitted(open: seq<Data>, e: Event): string {
    match NodeOf(e)
    case Some(d) => if Pushes(e) then d.rawOpen else Print(Leaf(d))
    case None => if e.End? then EndEmits(open, e.tag) else ""
  }

  function OpenAfter(open: seq<Data>, e: Event): seq<Data> {
    match NodeOf(e)
    case Some(d) => if Pushes(e) then open + [d] else open
    case None => if e.End? then EndLeaves(open, e.tag) else open
  }

  /** What a stream becomes when printed; tags the author left open are closed at the end. */
  function Normalised(open: seq<Data>, evs: seq<Event>): string
    decreases evs
  {
    if evs == [] then Closers(open, 0)
    else Emitted(open, evs[0]) + Normalised(OpenAfter(open, evs[0]), evs[1..])
  }

  /** Tag names come from markup, so none is the builder's own "#root". */
  predicate MarkupTags(evs: seq<Event>) {
    forall e <- evs :: e.Start? || e.StartEnd? ==> e.tag != "#root"
  }

  // ---------- the tree, printed up to its open elements ----------

  predicate OpenElem(d: Data) { d.kind.Elem? && !Childless(d) && d.tag != "#root" }

  function Head(d: Data): string { if d.tag == "#root" then "" else d.rawOpen }

  function Tail(d: Data): string { if d.tag == "#root" then "" else Closer(d) }

  function OpenOf(t: Tree, d: nat): (r: seq<Data>)
    requires Spine(t, d)
    ensures |r| == d
  {
    if d == 0 then []
    else
      var last := t.children[|t.children| - 1];
      [last.data] + OpenOf(last, d - 1)
  }

  /** The tree printed without the closing tags of the spine down to depth `d`. */
  function PrintOpen(t: Tree, d: nat): string
    requires Spine(t, d)
  {
    if d == 0 then Head(t.data) + PrintAll(t.children)
    else
      var k := |t.children| - 1;
      Head(t.data) + PrintAll(t.children[..k]) + PrintOpen(t.children[k], d - 1)
  }

  ghost predicate OpenSpine(t: Tree, d: nat) {
    Spine(t, d) && forall x <- OpenOf(t, d) :: OpenElem(x)
  }

  lemma {:induction false} OpenOfPrefix(t: Tree, d: nat, i: nat)
    requires Spine(t, d) && i <= d
    ensures Spine(t, i) && OpenOf(t, i) == OpenOf(t, d)[..i]
  {
    if i > 0 { OpenOfPrefix(t.children[|t.children| - 1], d - 1, i - 1); }
  }

  lemma {:induction false} OpenOfAt(t: Tree, d: nat)
    requires Spine(t, d) && d > 0
    ensures OpenOf(t, d)[d - 1] == SpineAt(t, d).data
  {
    if d > 1 { OpenOfAt(t.children[|t.children| - 1], d - 1); }
  }

  lemma {:induction false} FindAgrees(t: Tree, d: nat, tag: string)
    requires Spine(t, d)
    ensures FindOpen(t, d, tag) == FindIn(OpenOf(t, d), tag)
  {
    if d > 0 {
      OpenOfPrefix(t, d, d - 1);
      OpenOfAt(t, d);
      FindAgrees(t, d - 1, tag);
    }
  }

  lemma {:induction false} OpenOfAdd(t: Tree, d: nat, n: Tree)
    requires Spine(t, d)
    ensures Spine(AddAt(t, d, n), d) && OpenOf(AddAt(t, d, n), d) == OpenOf(t, d)
    ensures Spine(AddAt(t, d, n), d + 1) && OpenOf(AddAt(t, d, n), d + 1) == OpenOf(t, d) + [n.data]
  {
    AddAtSpine(t, d, n);
    SpineShorter(AddAt(t, d, n), d + 1, d);
    if d > 0 { OpenOfAdd(t.children[|t.children| - 1], d - 1, n); }
  }

  lemma {:induction false} ClosersCons(x: Data, open: seq<Data>, k: nat)
    ensures Closers([x] + open, k + 1) == Closers(open, k)
    ensures Closers([x] + open, 0) == Closers(open, 0) + Closer(x)
  {
    var all := [x] + open;
    if open == [] {
      assert all[..0] == [];
    } else {
      assert all[..|all| - 1] == [x] + open[..|open| - 1];
      ClosersCons(x, open[..|open| - 1], k);
    }
  }

  lemma {:induction false} SplitLast(ts: seq<Tree>)
    requires ts != []
    ensures PrintAll(ts) == PrintAll(ts[..|ts| - 1]) + Print(ts[|ts| - 1])
  {
    var k := |ts| - 1;
    assert ts == ts[..k] + [ts[k]];
    PrintAllConcat(ts[..k], [ts[k]]);
  }

  lemma {:induction false} AddPrint(t: Tree, d: nat, n: Tree)
    requires Spine(t, d)
    ensures Spine(AddAt(t, d, n), d)
    ensures PrintOpen(AddAt(t, d, n), d) == PrintOpen(t, d) + Print(n)
  {
    var u := AddAt(t, d, n);
    if d == 0 {
      PrintAllConcat(t.children, [n]);
      PrintOne(n);
      Assoc(Head(t.data), PrintAll(t.children), Print(n));
    } else {
      var k := |t.children| - 1;
      var last := t.children[k];
      AddPrint(last, d - 1, n);
      assert u.children[..k] == t.children[..k] && u.children[k] == AddAt(last, d - 1, n);
      Assoc(Head(t.data) + PrintAll(t.children[..k]), PrintOpen(last, d - 1), Print(n));
    }
  }

  lemma {:induction false} PushPrint(t: Tree, d: nat, x: Data)
    requires Spine(t, d) && OpenElem(x)
    ensures Spine(AddAt(t, d, Leaf(x)), d + 1)
    ensures PrintOpen(AddAt(t, d, Leaf(x)), d + 1) == PrintOpen(t, d) + x.rawOpen
  {
    AddAtSpine(t, d, Leaf(x));
    var u := AddAt(t, d, Leaf(x));
    if d == 0 {
      assert u.children[..|t.children|] == t.children;
      assert PrintOpen(Leaf(x), 0) == x.rawOpen + "" == x.rawOpen;
    } else {
      var k := |t.children| - 1;
      PushPrint(t.children[k], d - 1, x);
      assert u.children[..k] == t.children[..k];
      Assoc(Head(t.data) + PrintAll(t.children[..k]), PrintOpen(t.children[k], d - 1), x.rawOpen);
    }
  }

  lemma OpenSpineStep(t: Tree, d: nat)
    requires OpenSpine(t, d) && d > 0
    ensures OpenElem(t.children[|t.children| - 1].data)
    ensures OpenSpine(t.children[|t.children| - 1], d - 1)
  {
    var last := t.children[|t.children| - 1];
    assert OpenOf(t, d)[0] == last.data;
    forall x | x in OpenOf(last, d - 1) ensures OpenElem(x) {
      assert x in OpenOf(t, d);
    }
  }

  predicate Container(d: Data) { d.kind.Elem? && (d.tag == "#root" || !Childless(d)) }

  lemma PrintContainer(t: Tree)
    requires Container(t.data)
    ensures Print(t) == Head(t.data) + PrintAll(t.children) + Tail(t.data)
  {}

  /** The children of `t`, as printed, when a spine hangs from the last of them. */
  lemma {:induction false} LastPrints(t: Tree, d: nat)
    requires OpenSpine(t, d) && d > 0
    ensures var k := |t.children| - 1;
      PrintAll(t.children) == PrintAll(t.children[..k]) + PrintOpen(t.children[k], d - 1) + Closers(OpenOf(t, d), 0)
    decreases d, 0
  {
    var k := |t.children| - 1;
    var last := t.children[k];
    OpenSpineStep(t, d);
    PrintIsOpenPlusClosers(last, d - 1);
    SplitLast(t.children);
    var open := OpenOf(last, d - 1);
    ClosersCons(last.data, open, 0);
    Regroup(PrintAll(t.children[..k]), PrintOpen(last, d - 1), Closers(open, 0), Closer(last.data));
  }

  /** The whole print is the open print followed by the missing closing tags. */
  lemma {:induction false} PrintIsOpenPlusClosers(t: Tree, d: nat)
    requires OpenSpine(t, d) && Container(t.data)
    ensures Print(t) == PrintOpen(t, d) + Closers(OpenOf(t, d), 0) + Tail(t.data)
    decreases d, 1
  {
    PrintContainer(t);
    if d > 0 {
      LastPrints(t, d);
      var k := |t.children| - 1;
      Regroup(Head(t.data), PrintAll(t.children[..k]), PrintOpen(t.children[k], d - 1), Closers(OpenOf(t, d), 0));
    }
  }

  lemma PopAll(t: Tree, d: nat)
    requires OpenSpine(t, d) && d > 0
    ensures PrintOpen(t, 0) == PrintOpen(t, d) + Closers(OpenOf(t, d), 0)
  {
    var k := |t.children| - 1;
    LastPrints(t, d);
    Regroup(Head(t.data), PrintAll(t.children[..k]), PrintOpen(t.children[k], d - 1), Closers(OpenOf(t, d), 0));
  }

  /** Popping the spine back to depth `i` prints the closing tags of what was popped. */
  lemma {:induction false} PopPrint(t: Tree, d: nat, i: nat)
    requires OpenSpine(t, d) && i < d
    ensures Spine(t, i)
    ensures PrintOpen(t, i) == PrintOpen(t, d) + Closers(OpenOf(t, d), i)
  {
    SpineShorter(t, d, i);
    if i == 0 {
      PopAll(t, d);
    } else {
      var k := |t.children| - 1;
      var last := t.children[k];
      OpenSpineStep(t, d);
      PopPrint(last, d - 1, i - 1);
      var open := OpenOf(last, d - 1);
      ClosersCons(last.data, open, i - 1);
      Assoc(Head(t.data) + PrintAll(t.children[..k]), PrintOpen(last, d - 1), Closers(open, i - 1));
    }
  }

  ghost predicate Printable(s: State) {
    s.tree.data == ROOT && OpenSpine(s.tree, s.depth)
  }

  lemma NodePrints(s: State, e: Event)
    requires Printable(s) && MarkupTags([e]) && NodeOf(e).Some?
    ensures Spine(Step(s, e).tree, Step(s, e).depth)
    ensures OpenOf(Step(s, e).tree, Step(s, e).depth) == OpenAfter(OpenOf(s.tree, s.depth), e)
    ensures PrintOpen(Step(s, e).tree, Step(s, e).depth)
         == PrintOpen(s.tree, s.depth) + Emitted(OpenOf(s.tree, s.depth), e)
  {
    var x := NodeOf(e).value;
    assert e in [e];
    OpenOfAdd(s.tree, s.depth, Leaf(x));
    if Pushes(e) {
      PushPrint(s.tree, s.depth, x);
    } else {
      AddPrint(s.tree, s.depth, Leaf(x));
    }
  }

  lemma NodePrintable(s: State, e: Event)
    requires Printable(s) && MarkupTags([e]) && NodeOf(e).Some?
    ensures Printable(Step(s, e))
  {
    var x, t := NodeOf(e).value, Step(s, e);
    OpenOfAdd(s.tree, s.depth, Leaf(x));
    if Pushes(e) { PushedIsOpen(e); }
    forall y | y in OpenOf(t.tree, t.depth) ensures OpenElem(y) {
      assert y in OpenOf(s.tree, s.depth) || (Pushes(e) && y == x);
    }
  }

  lemma PushedIsOpen(e: Event)
    requires Pushes(e) && MarkupTags([e])
    ensures OpenElem(NodeOf(e).value)
  {
    assert e in [e];
  }

  lemma {:induction false} StepPrints(s: State, e: Event)
    requires Printable(s) && MarkupTags([e])
    ensures Printable(Step(s, e))
    ensures OpenOf(Step(s, e).tree, Step(s, e).depth) == OpenAfter(OpenOf(s.tree, s.depth), e)
    ensures PrintOpen(Step(s, e).tree, Step(s, e).depth)
         == PrintOpen(s.tree, s.depth) + Emitted(OpenOf(s.tree, s.depth), e)
  {
    if NodeOf(e).Some? {
      NodePrintable(s, e);
      NodePrints(s, e);
    } else if e.End? {
      EndSteps(s, e);
    }
  }

  lemma EndSteps(s: State, e: Event)
    requires Printable(s) && e.End?
    ensures Printable(Step(s, e))
    ensures OpenOf(Step(s, e).tree, Step(s, e).depth) == OpenAfter(OpenOf(s.tree, s.depth), e)
    ensures PrintOpen(Step(s, e).tree, Step(s, e).depth)
         == PrintOpen(s.tree, s.depth) + Emitted(OpenOf(s.tree, s.depth), e)
  {
    EndPrints(s, e.tag);
  }

  lemma EndPrints(s: State, tag: string)
    requires Printable(s)
    ensures FindOpen(s.tree, s.depth, tag) == FindIn(OpenOf(s.tree, s.depth), tag)
    ensures var i := FindOpen(s.tree, s.depth, tag);
      i != 0 ==>
        && Spine(s.tree, i - 1) && OpenOf(s.tree, i - 1) == OpenOf(s.tree, s.depth)[..i - 1]
        && PrintOpen(s.tree, i - 1) == PrintOpen(s.tree, s.depth) + Closers(OpenOf(s.tree, s.depth), i - 1)
  {
    var i := FindOpen(s.tree, s.depth, tag);
    FindAgrees(s.tree, s.depth, tag);
    if i != 0 {
      PopPrint(s.tree, s.depth, i - 1);
      OpenOfPrefix(s.tree, s.depth, i - 1);
    }
  }

  /** Whatever the stream, what is still to be printed from a state on depends on the open tags only. */
  lemma {:induction false} RunPrints(s: State, evs: seq<Event>)
    requires Printable(s) && MarkupTags(evs)
    ensures Print(Run(s, evs).tree)
         == PrintOpen(s.tree, s.depth) + Normalised(OpenOf(s.tree, s.depth), evs)
    decreases evs
  {
    if evs == [] {
      assert Tail(ROOT) == "";
      PrintIsOpenPlusClosers(s.tree, s.depth);
    } else {
      var e, rest := evs[0], evs[1..];
      var next := Step(s, e);
      assert e in evs;
      StepPrints(s, e);
      RunPrints(next, rest);
      var open := OpenOf(s.tree, s.depth);
      Assoc(PrintOpen(s.tree, s.depth), Emitted(open, e), Normalised(OpenAfter(open, e), rest));
    }
  }

  /** The tree printer and the streaming printer agree on every stream. */
  lemma {:induction false} BuildPrints(evs: seq<Event>)
    requires MarkupTags(evs)
    ensures Print(Build(evs)) == Normalised([], evs)
  {
    assert PrintOpen(START.tree, 0) == "";
    RunPrints(START, evs);
  }

  // ---------- which streams come back unchanged ----------

  /** The event's own text is the text the printer will emit for it. */
  predicate Spelled(open: seq<Data>, e: Event) {
    match e
    case Start(_, raw) => raw != ""
    case StartEnd(_, raw) => raw != ""
    case End(tag, raw) => open != [] && open[|open| - 1].tag == tag && raw == Closer(open[|open| - 1])
    case Chars(_) => true
    case EntityRef(name, raw) => raw == "&" + name + ";"
    case CharRef(name, raw) => raw == "&#" + name + ";"
    case CommentEvent(text, raw) => raw == "<!--" + text + "-->"
    case DeclEvent(text, raw) => raw == "<!" + text + ">"
    case Pi(text, raw) => raw == "<!" + text + ">"
    case Skipped(raw) => raw == ""
  }

  /** Every element that has to be closed is closed, in order, by `</name>` spelled as it was opened. */
  predicate WellNested(open: seq<Data>, evs: seq<Event>)
    decreases evs
  {
    if evs == [] then open == []
    else Spelled(open, evs[0]) && WellNested(OpenAfter(open, evs[0]), evs[1..])
  }

  /** The text an event that adds a node contributes to the output. */
  function NodeText(e: Event): string {
    match e
    case Start(tag, raw) => if raw == "" then "<" + tag + ">" else raw
    case StartEnd(tag, raw) => if raw == "" then "<" + tag + "/>" else raw
    case Chars(raw) => raw
    case EntityRef(name, _) => "&" + name + ";"
    case CharRef(name, _) => "&#" + name + ";"
    case CommentEvent(text, _) => "<!--" + text + "-->"
    case DeclEvent(text, _) => "<!" + text + ">"
    case Pi(text, _) => "<!" + text + ">"
    case End(_, _) => ""
    case Skipped(_) => ""
  }

  lemma EmitsNodeText(open: seq<Data>, e: Event)
    requires MarkupTags([e]) && NodeOf(e).Some?
    ensures Emitted(open, e) == NodeText(e)
  {
    assert e in [e];
    if e.Start? || e.StartEnd? {
      assert e.tag != "#root";
      var d := NodeOf(e).value;
      assert d.rawOpen == NodeText(e);
      assert !Pushes(e) ==> Childless(d);
    }
  }

  lemma ClosersTop(open: seq<Data>, k: nat)
    requires k < |open|
    ensures Closer(open[|open| - 1]) <= Closers(open, k)
    ensures k == |open| - 1 ==> Closers(open, k) == Closer(open[k])
  {
    var rest := Closers(open[..|open| - 1], k);
    assert Closers(open, k) == Closer(open[|open| - 1]) + rest;
  }

  lemma EmitsClosers(open: seq<Data>, tag: string)
    requires open != [] && FindIn(open, tag) != 0
    ensures Closer(open[|open| - 1]) <= EndEmits(open, tag)
    ensures open[|open| - 1].tag == tag ==> EndEmits(open, tag) == Closer(open[|open| - 1])
  {
    ClosersTop(open, FindIn(open, tag) - 1);
  }

  lemma SpelledEmits(open: seq<Data>, e: Event)
    requires MarkupTags([e]) && Spelled(open, e)
    ensures Emitted(open, e) == e.raw
  {
    if NodeOf(e).Some? { EmitsNodeText(open, e); }
    if e.End? {
      assert FindIn(open, e.tag) == |open|;
      EmitsClosers(open, e.tag);
    }
  }

  lemma {:induction false} WellNestedNormalised(open: seq<Data>, evs: seq<Event>)
    requires MarkupTags(evs) && WellNested(open, evs)
    ensures Normalised(open, evs) == Raw(evs)
    decreases evs
  {
    if evs != [] {
      assert evs[0] in evs;
      SpelledEmits(open, evs[0]);
      WellNestedNormalised(OpenAfter(open, evs[0]), evs[1..]);
    }
  }

  /** The lossless round trip. */
  lemma Lossless(evs: seq<Event>)
    requires MarkupTags(evs) && WellNested([], evs)
    ensures Print(Build(evs)) == Raw(evs)
  {
    BuildPrints(evs);
    WellNestedNormalised([], evs);
  }

  // ---------- and only those ----------

  predicate Clash(a: string, b: string) {
    exists i | 0 <= i < |a| && i < |b| :: a[i] != b[i]
  }

  function LowerChar(c: char): char { if 'A' <= c <= 'Z' then (c as int + 32) as char else c }

  function Lower(s: string): string { seq(|s|, i requires 0 <= i < |s| => LowerChar(s[i])) }

  /** A name as the tokenizer delivers it: nothing in it ends a name, and lower-cased it is the tag. */
  predicate NameFor(name: string, tag: string) {
    name != "" && (forall c <- name :: !EndsName(c)) && Lower(name) == tag
  }

  /** `<name ...`: a start tag's own text. */
  predicate StartText(tag: string, raw: string) {
    && tag != "#root"
    && |raw| > 2 && raw[0] == '<' && raw[1] != '/' && raw[1] != '!'
    && NamePrefix(LStrip(raw[1..])) != ""
    && NameFor(RawName(raw, tag), tag)
  }

  /** `</name>`, `</name ...>` or `</ name>`: an end tag's own text. */
  predicate EndText(tag: string, raw: string) {
    && |raw| > 2 && raw[0] == '<' && raw[1] == '/'
    && var name := NamePrefix(raw[2..]);
       if name == "" then IsSpace(raw[2])
       else
         && |raw| > 2 + |name| && NameFor(name, tag)
         && (raw[2 + |name|] == '>' ==> |raw| == 3 + |name|)
  }

  /** Output that cannot be mistaken for an end tag or for a marked section, whatever follows. */
  predicate Plain(s: string) {
    s != "" && (s[0] == '<' ==> |s| > 2 && s[1] != '/' && (s[1] == '!' ==> s[2] != '['))
  }

  /** The elements whose content is text up to their own end tag. */
  predicate RawText(tag: string) { tag == "script" || tag == "style" }

  /** The input from a lone `<` on goes on with something that does not make markup of it. */
  predicate StaysLone(rest: seq<Event>) {
    rest == []
    || (!rest[0].End? && !rest[0].Skipped? && rest[0].raw != "" && rest[0].raw[0] != '/' && rest[0].raw[0] != '!')
  }

  /** No end tag for `tag` stands at the start of `s`. */
  ghost predicate NoEndTag(s: string, tag: string) {
    forall name :: Lower(name) == tag ==> !("</" + name + ">" <= s)
  }

  /** One event in ordinary text: text that is not markup does not look like markup, a reference takes the `;` that
      follows it, and a comment or declaration in an unusual spelling differs visibly from the usual one. */
  predicate InMarkup(e: Event, rest: seq<Event>) {
    match e
    case Start(tag, raw) => StartText(tag, raw)
    case StartEnd(tag, raw) => StartText(tag, raw)
    case End(tag, raw) => EndText(tag, raw)
    case Chars(raw) => raw == "" || Plain(raw) || (raw == "<" && StaysLone(rest))
    case EntityRef(name, raw) => raw == "&" + name + ";" || (raw == "&" + name && !(";" <= Raw(rest)))
    case CharRef(name, raw) => raw == "&#" + name + ";" || (raw == "&#" + name && !(";" <= Raw(rest)))
    case CommentEvent(text, raw) => raw == "<!--" + text + "-->" || Clash(raw, "<!--" + text + "-->")
    case DeclEvent(text, raw) => (raw == "<!" + text + ">" || Clash(raw, "<!" + text + ">")) && !("[" <= text)
    case Pi(text, raw) => "<?" <= raw && !("[" <= text)
    case Skipped(raw) => raw == "</>" || "<![" <= raw
  }

  /** One event inside a script or style element: any text at all, until its own end tag; what is left of one that
      never ends is dropped. */
  ghost predicate InRawText(tag: string, e: Event, rest: seq<Event>) {
    match e
    case Chars(_) => true
    case End(t, raw) => t == tag && EndText(t, raw)
    case Skipped(raw) => rest == [] && NoEndTag(raw, tag)
    case _ => false
  }

  /** The raw-text element the tokenizer is in after an event. */
  function ModeAfter(mode: Option<string>, e: Event): Option<string> {
    match e
    case Start(tag, _) => if RawText(tag) then Some(tag) else None
    case End(_, _) => None
    case _ => mode
  }

  /** The texts a tokenizer cuts its input into, from a mode on. It can also cut off a lone `<` before an end tag, or
      unfinished markup at the very end of the input; those streams are not among these. */
  ghost predicate TokenisedFrom(mode: Option<string>, evs: seq<Event>)
    decreases evs
  {
    evs != [] ==>
      && (match mode
          case None => InMarkup(evs[0], evs[1..])
          case Some(tag) => InRawText(tag, evs[0], evs[1..]))
      && TokenisedFrom(ModeAfter(mode, evs[0]), evs[1..])
  }

  ghost predicate Tokenised(evs: seq<Event>) { TokenisedFrom(None, evs) }

  predicate Named(open: seq<Data>) {
    forall d <- open :: NameFor(d.rawName, d.tag)
  }

  lemma {:induction false} NamePrefixAt(s: string, k: nat)
    requires k < |s| && EndsName(s[k]) && forall i | 0 <= i < k :: !EndsName(s[i])
    ensures NamePrefix(s) == s[..k]
  {
    if k > 0 { NamePrefixAt(s[1..], k - 1); }
  }

  lemma SameName(n: string, u: string, text: string, v: string)
    requires n + u == text + v
    requires u != "" && EndsName(u[0]) && forall c <- n :: !EndsName(c)
    requires |NamePrefix(text)| < |text|
    ensures NamePrefix(text) == n
  {
    var all := n + u;
    NamePrefixAt(all, |n|);
    var k := |NamePrefix(text)|;
    assert all[k] == text[k];
    NamePrefixAt(all, k);
  }

  /** An element's closing tag and an end tag's text agree only when they are the same. */
  lemma CloserMeetsEnd(d: Data, tag: string, raw: string, u: string, v: string)
    requires NameFor(d.rawName, d.tag) && EndText(tag, raw)
    requires Closer(d) + u == raw + v
    ensures raw == Closer(d) && d.tag == tag
  {
    var all := raw + v;
    var n, name := d.rawName, NamePrefix(raw[2..]);
    assert Closer(d) + u == "</" + (n + (">" + u));
    assert all[2..] == n + (">" + u) == raw[2..] + v;
    assert raw[2] == all[2] == n[0];
    SameName(n, ">" + u, raw[2..], v);
    assert raw[2 + |n|] == all[2 + |n|] == '>';
  }

  predicate ClosesTop(open: seq<Data>, out: string) {
    open != [] && Closer(open[|open| - 1]) <= out
  }

  /** A whole output that does not begin with an end tag or a marked section. */
  predicate Harmless(out: string) {
    out == "" || out[0] != '<' || |out| == 1 || (out[1] != '/' && (out[1] == '!' ==> |out| > 2 && out[2] != '['))
  }

  /** The element whose raw text the tokenizer is in is the innermost one open. */
  predicate Inside(mode: Option<string>, open: seq<Data>) {
    mode.Some? ==> open != [] && open[|open| - 1].tag == mode.value
  }

  lemma RawTextPushes(tag: string)
    requires RawText(tag)
    ensures tag !in VOID
  {
    assert tag[0] == 's' && (|tag| == 6 ==> tag[1] == 'c') && |tag| >= 5;
  }

  lemma OpenAfterNamed(open: seq<Data>, e: Event, rest: seq<Event>)
    requires Named(open) && InMarkup(e, rest)
    ensures Named(OpenAfter(open, e))
  {
  }

  lemma OpenAfterInside(open: seq<Data>, e: Event)
    ensures Inside(ModeAfter(None, e), OpenAfter(open, e))
  {
    if e.Start? && RawText(e.tag) { RawTextPushes(e.tag); }
  }

  lemma {:induction false} TokenisedMarkup(mode: Option<string>, evs: seq<Event>)
    requires TokenisedFrom(mode, evs)
    ensures MarkupTags(evs)
    decreases evs
  {
    if evs != [] { TokenisedMarkup(ModeAfter(mode, evs[0]), evs[1..]); }
  }

  lemma NodeBegins(open: seq<Data>, e: Event, rest: seq<Event>)
    requires InMarkup(e, rest) && NodeOf(e).Some?
    ensures var out := Emitted(open, e); Plain(out) || (e == Chars("<") && out == "<") || e == Chars("")
  {
    EmitsNodeText(open, e);
  }

  lemma EndBegins(open: seq<Data>, e: Event)
    requires NodeOf(e).None?
    ensures var out := Emitted(open, e); (out == "" && OpenAfter(open, e) == open) || ClosesTop(open, out)
  {
    if e.End? && FindIn(open, e.tag) != 0 { EmitsClosers(open, e.tag); }
  }

  lemma ClosersBegin(open: seq<Data>)
    ensures var out := Closers(open, 0); out == "" || ClosesTop(open, out)
  {
    if open != [] { ClosersTop(open, 0); }
  }

  lemma PlainIsHarmless(out: string, more: string)
    requires Plain(out)
    ensures Harmless(out + more)
  {
    assert (out + more)[..|out|] == out;
  }

  lemma StaysLoneShows(e: Event, rest: seq<Event>)
    requires StaysLone([e] + rest) && InMarkup(e, rest)
    ensures NodeOf(e).Some? && NodeText(e) != "" && NodeText(e)[0] != '/' && NodeText(e)[0] != '!'
  {
    assert ([e] + rest)[0] == e;
  }

  lemma LoneThen(shown: string, more: string)
    requires shown == "" ==> more == ""
    requires shown != "" ==> shown[0] != '/' && shown[0] != '!'
    ensures Harmless("<" + (shown + more))
  {
    if shown != "" { assert ("<" + (shown + more))[1] == shown[0]; }
  }

  /** A lone `<` is followed in the output by something that does not make markup of it. */
  lemma LoneIsHarmless(open: seq<Data>, rest: seq<Event>)
    requires StaysLone(rest) && MarkupTags(rest)
    requires rest != [] ==> TokenisedFrom(None, rest)
    ensures Harmless("<" + Normalised(open, rest))
  {
    if rest == [] {
      ClosersBegin(open);
      LoneThen(Closers(open, 0), "");
      assert Closers(open, 0) + "" == Closers(open, 0);
    } else {
      var e := rest[0];
      assert rest == [e] + rest[1..] && e in rest;
      StaysLoneShows(e, rest[1..]);
      EmitsNodeText(open, e);
      LoneThen(NodeText(e), Normalised(OpenAfter(open, e), rest[1..]));
    }
  }

  /** How the output of a stream can begin. */
  lemma {:induction false} OutputBegins(open: seq<Data>, evs: seq<Event>)
    requires Named(open) && TokenisedFrom(None, evs)
    ensures var out := Normalised(open, evs); Harmless(out) || ClosesTop(open, out)
    decreases evs
  {
    if evs == [] {
      ClosersBegin(open);
    } else {
      var e, rest := evs[0], evs[1..];
      var more := Normalised(OpenAfter(open, e), rest);
      TokenisedMarkup(None, evs);
      if e == Chars("") {
        OutputBegins(open, rest);
        EmptyShowsNothing(open, e, more);
      } else if NodeOf(e).Some? {
        NodeBegins(open, e, rest);
        if Plain(Emitted(open, e)) { PlainIsHarmless(Emitted(open, e), more); } else { LoneIsHarmless(open, rest); }
      } else {
        EndBegins(open, e);
        if Emitted(open, e) == "" {
          OutputBegins(open, rest);
          assert Normalised(open, evs) == "" + more == more;
        }
      }
    }
  }

  lemma EmptyShowsNothing(open: seq<Data>, e: Event, more: string)
    requires e == Chars("")
    ensures Emitted(open, e) + more == more && OpenAfter(open, e) == open
  {
    assert Emitted(open, e) == "";
  }

  lemma ClashExtends(a: string, b: string, u: string, v: string)
    requires Clash(a, b)
    ensures a + u != b + v
  {
    var i :| 0 <= i < |a| && i < |b| && a[i] != b[i];
    assert (a + u)[i] == a[i] && (b + v)[i] == b[i];
  }

  lemma TakesSemicolon(raw: string, out: string, after: string)
    requires raw + ";" + out == raw + after
    ensures ";" <= after
  {
    assert (raw + after)[|raw|] == ';';
  }

  lemma NodeSpelled(open: seq<Data>, e: Event, rest: seq<Event>, out: string)
    requires InMarkup(e, rest) && NodeOf(e).Some?
    requires NodeText(e) + out == e.raw + Raw(rest)
    ensures Spelled(open, e)
  {
    var shown, raw := NodeText(e), e.raw;
    if (e.EntityRef? || e.CharRef?) && raw + ";" == shown {
      TakesSemicolon(raw, out, Raw(rest));
    } else if e.Pi? {
      assert raw[1] != shown[1];
      ClashExtends(shown, raw, out, Raw(rest));
    } else if Clash(raw, shown) {
      ClashExtends(raw, shown, Raw(rest), out);
    }
  }

  lemma TopSpelled(open: seq<Data>, out: string, tag: string, raw: string, v: string)
    requires Named(open) && ClosesTop(open, out)
    requires EndText(tag, raw) && out == raw + v
    ensures open[|open| - 1].tag == tag && raw == Closer(open[|open| - 1])
  {
    var top := open[|open| - 1];
    assert out == Closer(top) + out[|Closer(top)|..];
    CloserMeetsEnd(top, tag, raw, out[|Closer(top)|..], v);
  }

  lemma NeverSkipped(open: seq<Data>, out: string, raw: string, v: string)
    requires Named(open) && (Harmless(out) || ClosesTop(open, out))
    requires raw == "</>" || "<![" <= raw
    ensures out != raw + v
  {
    assert (raw + v)[0] == raw[0] && (raw + v)[1] == raw[1] && (raw + v)[2] == raw[2];
    if ClosesTop(open, out) {
      var top := open[|open| - 1];
      assert top.rawName[0] in top.rawName;
      assert out[2] == Closer(top)[2] == top.rawName[0];
      assert out[1] == Closer(top)[1] == '/';
    }
  }

  lemma OtherSpelled(open: seq<Data>, evs: seq<Event>)
    requires evs != [] && Named(open) && TokenisedFrom(None, evs) && NodeOf(evs[0]).None?
    requires Normalised(open, evs) == evs[0].raw + Raw(evs[1..])
    ensures Spelled(open, evs[0])
  {
    var e, out, v := evs[0], Normalised(open, evs), Raw(evs[1..]);
    OutputBegins(open, evs);
    if e.End? {
      assert out[0] == e.raw[0] && out[1] == e.raw[1];
      TopSpelled(open, out, e.tag, e.raw, v);
    } else {
      NeverSkipped(open, out, e.raw, v);
    }
  }

  /** Inside a raw-text element only the spelling of its end tag can go wrong. */
  lemma RawTextSpelled(tag: string, open: seq<Data>, evs: seq<Event>)
    requires evs != [] && Named(open) && Inside(Some(tag), open) && InRawText(tag, evs[0], evs[1..])
    requires Normalised(open, evs) == evs[0].raw + Raw(evs[1..])
    ensures Spelled(open, evs[0])
    ensures Named(OpenAfter(open, evs[0])) && Inside(ModeAfter(Some(tag), evs[0]), OpenAfter(open, evs[0]))
  {
    var e, rest, top := evs[0], evs[1..], open[|open| - 1];
    var out := Normalised(open, evs);
    if e.End? {
      EmitsClosers(open, tag);
      PrefixOfSum(Closer(top), Emitted(open, e), Normalised(OpenAfter(open, e), rest));
      TopSpelled(open, out, tag, e.raw, Raw(rest));
    } else if e.Skipped? {
      DroppedNeverShows(tag, open, e.raw, out);
    }
  }

  lemma DroppedNeverShows(tag: string, open: seq<Data>, raw: string, out: string)
    requires Named(open) && Inside(Some(tag), open) && NoEndTag(raw, tag)
    requires out == "" + Closers(open, 0)
    ensures out != raw + ""
  {
    ClosersTop(open, 0);
    assert raw + "" == raw && out == Closers(open, 0);
    assert Lower(open[|open| - 1].rawName) == tag;
  }

  lemma PrefixOfSum(a: string, b: string, c: string)
    requires a <= b
    ensures a <= b + c
  {
    assert (b + c)[..|a|] == b[..|a|];
  }

  lemma ClosersNonempty(open: seq<Data>)
    ensures open != [] ==> Closers(open, 0) != ""
  {}

  /** An event that is spelled as it prints leaves the rest to print as it reads. */
  lemma RestNormalised(open: seq<Data>, evs: seq<Event>)
    requires evs != [] && MarkupTags(evs) && Normalised(open, evs) == Raw(evs) && Spelled(open, evs[0])
    ensures Normalised(OpenAfter(open, evs[0]), evs[1..]) == Raw(evs[1..])
  {
    var e := evs[0];
    assert e in evs;
    SpelledEmits(open, e);
    assert Raw(evs)[|e.raw|..] == Raw(evs[1..]);
  }

  lemma {:induction false} NormalisedWellNested(mode: Option<string>, open: seq<Data>, evs: seq<Event>)
    requires Named(open) && Inside(mode, open) && TokenisedFrom(mode, evs) && Normalised(open, evs) == Raw(evs)
    ensures WellNested(open, evs)
    decreases evs
  {
    if evs == [] {
      ClosersNonempty(open);
    } else {
      var e, rest := evs[0], evs[1..];
      TokenisedMarkup(mode, evs);
      if mode.Some? {
        RawTextSpelled(mode.value, open, evs);
      } else {
        MarkupSpelled(open, evs);
        OpenAfterNamed(open, e, rest);
        OpenAfterInside(open, e);
      }
      RestNormalised(open, evs);
      NormalisedWellNested(ModeAfter(mode, e), OpenAfter(open, e), rest);
    }
  }

  lemma MarkupSpelled(open: seq<Data>, evs: seq<Event>)
    requires evs != [] && Named(open) && TokenisedFrom(None, evs) && Normalised(open, evs) == Raw(evs)
    ensures Spelled(open, evs[0])
  {
    var e, rest := evs[0], evs[1..];
    TokenisedMarkup(None, evs);
    if NodeOf(e).Some? {
      assert e in evs;
      EmitsNodeText(open, e);
      NodeSpelled(open, e, rest, Normalised(OpenAfter(open, e), rest));
    } else {
      OtherSpelled(open, evs);
    }
  }

  /** A tokenised document comes back byte for byte exactly when it is well nested. */
  lemma LosslessIff(evs: seq<Event>)
    requires Tokenised(evs)
    ensures Print(Build(evs)) == Raw(evs) <==> WellNested([], evs)
  {
    TokenisedMarkup(None, evs);
    BuildPrints(evs);
    if WellNested([], evs) {
      WellNestedNormalised([], evs);
    } else if Normalised([], evs) == Raw(evs) {
      NormalisedWellNested(None, [], evs);
    }
  }

  // ---------- names as written ----------

  lemma {:induction false} NamePrefixOf(name: string, rest: string)
    requires (forall c <- name :: !EndsName(c)) && (rest != "" ==> EndsName(rest[0]))
    ensures NamePrefix(name + rest) == name
    decreases name
  {
    if name == "" {
      assert name + rest == rest;
    } else {
      assert (name + rest)[1..] == name[1..] + rest;
      NamePrefixOf(name[1..], rest);
    }
  }

  /** The element keeps its name as it is written in its start tag, whatever the tokenizer makes of it. */
  lemma NameAsWritten(tag: string, name: string, rest: string)
    requires name != "" && (forall c <- name :: !EndsName(c)) && (rest != "" ==> EndsName(rest[0]))
    ensures RawName("<" + (name + rest), tag) == name
  {
    var raw := "<" + (name + rest);
    assert raw[1..] == name + rest && (name + rest)[0] == name[0];
    assert name[0] in name;
    NamePrefixOf(name, rest);
  }

  /** So an element closed by its name as written comes back, upper-case letters and all, and one closed otherwise
      does not. */
  lemma ElementComesBack(tag: string, name: string, rest: string, closer: string)
    requires name != "" && (forall c <- name :: !EndsName(c)) && (rest != "" ==> EndsName(rest[0]))
    requires tag != "#root" && tag !in VOID
    ensures var evs := [Start(tag, "<" + (name + rest)), End(tag, closer)];
      Print(Build(evs)) == "<" + (name + rest) + ("</" + name + ">")
  {
    var e, f := Start(tag, "<" + (name + rest)), End(tag, closer);
    var d := ElemData(tag, e.raw);
    NameAsWritten(tag, name, rest);
    assert [e, f][1..] == [f] && [f][1..] == [] && [d][..0] == [];
    BuildPrints([e, f]);
    assert OpenAfter([], e) == [d];
    assert FindIn([d], tag) == 1;
    assert Closers([d], 0) == Closer(d) + "" == Closer(d);
    assert OpenAfter([d], f) == [];
    assert Normalised([d], [f]) == Closer(d) + "" == Closer(d);
  }

  // ---------- two families of documents ----------

  /** A missing end tag is made up, so such a document never comes back. */
  lemma MissingEndTag(tag: string, raw: string)
    requires StartText(tag, raw) && tag !in VOID
    ensures var evs := [Start(tag, raw)];
      Tokenised(evs) && Raw(evs) == raw && Print(Build(evs)) == raw + ("</" + RawName(raw, tag) + ">")
  {
    var e := Start(tag, raw);
    assert [e][1..] == [];
    assert TokenisedFrom(ModeAfter(None, e), []) && InMarkup(e, []);
    TokenisedMarkup(None, [e]);
    BuildPrints([e]);
    RawOne(e);
    OpenedPrints(e);
  }

  lemma RawOne(e: Event)
    ensures Raw([e]) == e.raw
  {
    assert Raw([e]) == e.raw + "";
  }

  lemma OpenedPrints(e: Event)
    requires e.Start? && e.raw != "" && e.tag !in VOID
    ensures Normalised([], [e]) == e.raw + ("</" + RawName(e.raw, e.tag) + ">")
  {
    var d := ElemData(e.tag, e.raw);
    assert OpenAfter([], e) == [d] && [e][1..] == [];
    assert [d][..0] == [];
    assert Closers([d], 0) == Closer(d) + "" == Closer(d);
  }

  /** Text around a lone `<` is tokenised like any other, and comes back. */
  lemma LessThan(before: string, after: string)
    requires Plain(before) && Plain(after) && after[0] != '/' && after[0] != '!'
    ensures var evs := [Chars(before), Chars("<"), Chars(after)];
      Tokenised(evs) && Raw(evs) == before + ("<" + after) && Print(Build(evs)) == Raw(evs)
  {
    var a, b, c := Chars(before), Chars("<"), Chars(after);
    assert [c][1..] == [] && [b, c][1..] == [c] && [a, b, c][1..] == [b, c];
    RawOne(c);
    assert TokenisedFrom(None, [c]) && WellNested([], [c]) && Raw([c]) == after;
    assert TokenisedFrom(None, [b, c]) && WellNested([], [b, c]) && Raw([b, c]) == "<" + after;
    LosslessIff([a, b, c]);
  }

  /** Why some tag names are outside: the script cuts a name at any space, the tokenizer only at some. An element whose
      name is cut, and an end tag for the cut name that closes nothing, come back though they are not well nested. */
  lemma CutNameComesBack(tag: string, raw: string)
    requires raw != "" && tag != "#root" && tag !in VOID && RawName(raw, tag) != tag
    ensures var evs := [Start(tag, raw), End(RawName(raw, tag), "</" + RawName(raw, tag) + ">")];
      Print(Build(evs)) == Raw(evs) && !WellNested([], evs)
  {
    var name := RawName(raw, tag);
    var e, f, d := Start(tag, raw), End(name, "</" + name + ">"), ElemData(tag, raw);
    assert [e, f][1..] == [f];
    BuildPrints([e, f]);
    assert OpenAfter([], e) == [d];
    UnmatchedEnd(d, f);
    RawOne(f);
  }

  lemma UnmatchedEnd(d: Data, f: Event)
    requires f.End? && f.tag != d.tag
    ensures Normalised([d], [f]) == Closer(d) && !WellNested([d], [f])
  {
    assert [f][1..] == [] && [d][..0] == [];
    assert FindIn([d], f.tag) == 0;
    assert Closers([d], 0) == Closer(d) + "" == Closer(d);
    assert Normalised([d], [f]) == "" + Closers([d], 0);
  }
}

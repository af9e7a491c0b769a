// Block documents as written, and what the stack makes of their lines.
module YamlBlocks {
  import opened Wrappers
  import opened Text
  import opened YamlScan
  import opened YamlModel
  import opened YamlInline

  datatype Block =
    | BMap(entries: seq<Entry>)
    | BList(elements: seq<Element>)

  datatype Entry =
    | Leaf(key: string, value: Inline)
    | Nested(key: string, block: Block)

  // A list element is one inline value, or a map whose first entry shares the line of
  // the dash.
  datatype Element =
    | Single(value: Inline)
    | Compound(first: Entry, rest: seq<Entry>)

  // ---- writing ----

  datatype Line = Line(indent: nat, content: string)

  function Head(e: Entry): string {
    match e
    case Leaf(key, value) => WriteField(Field(key, value))
    case Nested(key, _) => key + ":"
  }

  function Below(e: Entry, n: nat): seq<Line>
    decreases e, 0
  {
    match e
    case Leaf(_, _) => []
    case Nested(_, block) => BlockLines(block, n + 2)
  }

  function EntryLines(e: Entry, n: nat): seq<Line>
    decreases e, 1
  {
    [Line(n, Head(e))] + Below(e, n)
  }

  function EntriesLines(entries: seq<Entry>, n: nat): seq<Line>
    decreases entries, 2
  {
    if entries == [] then [] else EntryLines(entries[0], n) + EntriesLines(entries[1..], n)
  }

  function ElementLines(x: Element, n: nat): seq<Line>
    decreases x, 1
  {
    match x
    case Single(value) => [Line(n, "- " + Write(value))]
    case Compound(first, rest) => [Line(n, "- " + Head(first))] + (Below(first, n + 2) + EntriesLines(rest, n + 2))
  }

  function ElementsLines(elements: seq<Element>, n: nat): seq<Line>
    decreases elements, 2
  {
    if elements == [] then [] else ElementLines(elements[0], n) + ElementsLines(elements[1..], n)
  }

  function BlockLines(b: Block, n: nat): seq<Line>
    decreases b, 3
  {
    match b
    case BMap(entries) => EntriesLines(entries, n)
    case BList(elements) => ElementsLines(elements, n)
  }

  // ---- what can be written ----

  predicate IsBlockKey(k: string) {
    IsPlain(k, ":") && !("- " <= k)
  }

  predicate SafeEntry(e: Entry) {
    match e
    case Leaf(key, value) => IsBlockKey(key) && Writable(value, "")
    case Nested(key, block) => IsBlockKey(key) && SafeBlock(block)
  }

  predicate SafeElement(x: Element) {
    match x
    case Single(value) => Writable(value, ":")
    case Compound(first, rest) => SafeEntry(first) && forall e :: e in rest ==> SafeEntry(e)
  }

  predicate SafeBlock(b: Block) {
    match b
    case BMap(entries) => forall e :: e in entries ==> SafeEntry(e)
    case BList(elements) => forall x :: x in elements ==> SafeElement(x)
  }

  // ---- what the parser makes of it ----

  // The parser's reading of a block that continues the open node `node`; None is an
  // error. The block under a first entry with a nested block continues the element,
  // not the entry.

  function ReadEntry(e: Entry, node: Node): Option<Node>
    decreases e, 0
  {
    if !node.Unknown? && !node.Map? then None else
    match e
    case Leaf(key, value) => Some(Attach(node, Key(key), Value(value)))
    case Nested(key, block) => AttachTo(node, Key(key), ReadBlock(block, Unknown))
  }

  function AttachTo(parent: Node, slot: Slot, child: Option<Node>): Option<Node> {
    if child.None? then None else Some(Attach(parent, slot, child.value))
  }

  function ReadEntries(entries: seq<Entry>, node: Node): Option<Node>
    decreases entries, 1
  {
    if entries == [] then Some(node) else
    match ReadEntry(entries[0], node)
    case None => None
    case Some(next) => ReadEntries(entries[1..], next)
  }

  function FirstOnly(e: Entry): Node {
    Map(map[e.key := if e.Leaf? then Value(e.value) else Unknown])
  }

  function ReadBelow(e: Entry, node: Node): Option<Node>
    decreases e, 0
  {
    if e.Leaf? then Some(node) else ReadBlock(e.block, node)
  }

  function ReadElement(x: Element, node: Node): Option<Node>
    decreases x, 0
  {
    if !node.Unknown? && !node.List? then None else
    match x
    case Single(value) => Some(Attach(node, Item, Value(value)))
    case Compound(first, rest) =>
      match ReadBelow(first, FirstOnly(first))
      case None => None
      case Some(item) => AttachTo(node, Item, ReadEntries(rest, item))
  }

  function ReadElements(elements: seq<Element>, node: Node): Option<Node>
    decreases elements, 1
  {
    if elements == [] then Some(node) else
    match ReadElement(elements[0], node)
    case None => None
    case Some(next) => ReadElements(elements[1..], next)
  }

  function ReadBlock(b: Block, node: Node): Option<Node>
    decreases b, 2
  {
    match b
    case BMap(entries) => ReadEntries(entries, node)
    case BList(elements) => ReadElements(elements, node)
  }

  // ---- feeding lines to the stack ----

  function FeedLines(st: Stack, lines: seq<Line>): Option<Stack>
    decreases |lines|
  {
    if lines == [] then Some(st) else
    match AddContent(st, lines[0].indent, lines[0].content)
    case Err(_) => None
    case Ok(next) => FeedLines(next, lines[1..])
  }

  lemma {:induction false} FeedConcat(st: Stack, a: seq<Line>, b: seq<Line>)
    ensures FeedLines(st, a + b) ==
            match FeedLines(st, a) { case None => None case Some(st') => FeedLines(st', b) }
    decreases |a|
  {
    if a == [] {
      assert a + b == b;
    } else {
      assert (a + b)[1..] == a[1..] + b && (a + b)[0] == a[0];
      match AddContent(st, a[0].indent, a[0].content)
      case Err(_) =>
      case Ok(next) => FeedConcat(next, a[1..], b);
    }
  }

  lemma {:induction false} PopToTwice(st: Stack, n: int, m: int)
    requires m <= n
    ensures PopTo(PopTo(st, n), m) == PopTo(st, m)
    decreases Depth(st)
  {
    if st.Frame? && st.indent >= n {
      PopToTwice(Pop(st), n, m);
    }
  }

  /** Lines at indent `n` or deeper turn the open node of `st` into `r`. */
  ghost predicate Yields(st: Stack, lines: seq<Line>, n: nat, r: Option<Node>) {
    match FeedLines(st, lines)
    case None => r.None?
    case Some(st') => r.Some? && PopTo(st', n) == With(st, r.value)
  }

  // Feeding goes on from a stack as it would from the popped stack.
  lemma FeedPopped(st: Stack, lines: seq<Line>, n: nat)
    requires lines != [] && lines[0].indent <= n
    ensures FeedLines(st, lines) == FeedLines(PopTo(st, n), lines)
  {
    PopToTwice(st, n, lines[0].indent);
  }

  lemma YieldsThen(st: Stack, a: seq<Line>, b: seq<Line>, n: nat, x: Option<Node>, y: Option<Node>)
    requires Indent(st) < n && Yields(st, a, n, x)
    requires b != [] ==> b[0].indent <= n
    requires if x.Some? then Yields(With(st, x.value), b, n, y) else y.None?
    ensures Yields(st, a + b, n, y)
  {
    FeedConcat(st, a, b);
    if x.Some? {
      var st' := FeedLines(st, a).value;
      if b != [] {
        FeedPopped(st', b, n);
      }
    }
  }

  lemma YieldsAtLess(st: Stack, lines: seq<Line>, n: nat, m: nat, r: Option<Node>)
    requires Yields(st, lines, n, r) && Indent(st) < m <= n
    ensures Yields(st, lines, m, r)
  {
    match FeedLines(st, lines)
    case None =>
    case Some(st') => PopToTwice(st', n, m);
  }

  /** A line that opens a frame, and deeper lines that complete its node. */
  lemma YieldsFrame(st: Stack, n: nat, content: string, parent: Node, slot: Slot, node: Node,
                    lines: seq<Line>, m: nat, r: Option<Node>)
    requires Indent(st) < n < m
    requires AddContent(st, n, content) == Ok(Frame(With(st, parent), slot, node, n))
    requires Yields(Frame(With(st, parent), slot, node, n), lines, m, r)
    ensures Yields(st, [Line(n, content)] + lines, n, AttachTo(parent, slot, r))
  {
    hide AddContent;
    var all := [Line(n, content)] + lines;
    assert all[0] == Line(n, content) && all[1..] == lines;
    var f := Frame(With(st, parent), slot, node, n);
    match FeedLines(f, lines)
    case None =>
    case Some(st') =>
      PopToTwice(st', m, n);
  }

  lemma YieldsError(st: Stack, n: nat, content: string, lines: seq<Line>)
    requires AddContent(st, n, content).Err?
    ensures Yields(st, [Line(n, content)] + lines, n, None)
  {
    var all := [Line(n, content)] + lines;
    assert all[0] == Line(n, content);
  }

  /** A line that completes what it adds. */
  lemma YieldsLine(st: Stack, n: nat, content: string, node: Node)
    requires Indent(st) < n && AddContent(st, n, content) == Ok(With(st, node))
    ensures Yields(st, [Line(n, content)], n, Some(node))
  {
    assert [Line(n, content)][1..] == [];
    assert FeedLines(With(st, node), []) == Some(With(st, node));
  }

  lemma FirstIndent(entries: seq<Entry>, elements: seq<Element>, n: nat)
    ensures EntriesLines(entries, n) != [] ==> EntriesLines(entries, n)[0].indent == n
    ensures ElementsLines(elements, n) != [] ==> ElementsLines(elements, n)[0].indent == n
  {
  }

  // ---- single lines ----

  lemma HeadIsNoItem(e: Entry)
    requires IsBlockKey(e.key)
    ensures !IsItem(Head(e)) && Head(e) != ""
  {
    var c := Head(e);
    assert c[..|e.key|] == e.key && c[|e.key|] == ':';
    assert |e.key| > 1 ==> e.key[..2] == c[..2];
  }

  lemma HeadKeyValue(e: Entry)
    requires SafeEntry(e)
    ensures KeyValue(Head(e)) == Some((e.key, if e.Leaf? then Write(e.value) else ""))
    ensures IsTrimmed(Head(e))
    ensures e.Leaf? ==> Write(e.value) != "" && ParseScalar(Write(e.value)) == Ok(Value(e.value))
  {
    match e
    case Leaf(key, value) =>
      KeyValueOfField(Field(key, value), ":", "");
      WrittenIsTrimmed(value, "");
      InlineRoundTrip(value, "");
    case Nested(key, block) =>
      KeyValueOf(key, ":", "");
      assert key + ":" + "" == key + ":";
  }

  // What the line of an entry does.
  lemma AddHead(st: Stack, e: Entry, n: nat)
    requires SafeEntry(e) && Indent(st) < n
    ensures AddContent(st, n, Head(e)) ==
            if !st.node.Unknown? && !st.node.Map? then Err(KeyUnderNonMap)
            else if e.Leaf? then Ok(With(st, Attach(st.node, Key(e.key), Value(e.value))))
            else Ok(Frame(With(st, if st.node.Unknown? then Map(map[]) else st.node), Key(e.key), Unknown, n))
  {
    hide KeyValue, ParseScalar, Head, SafeEntry, IsBlockKey;
    assert IsBlockKey(e.key) by {
      KeyOf(e);
    }
    HeadIsNoItem(e);
    HeadKeyValue(e);
  }

  lemma KeyOf(e: Entry)
    requires SafeEntry(e)
    ensures IsBlockKey(e.key)
  {
  }

  lemma ItemText(text: string)
    requires IsTrimmed(text)
    ensures IsItem("- " + text) && TrimSpace(("- " + text)[1..]) == text
  {
    assert ("- " + text)[1..] == " " + text;
    TrimLeadingSpace(text);
  }

  lemma AddSingle(st: Stack, v: Inline, n: nat)
    requires Writable(v, ":") && Indent(st) < n
    ensures AddContent(st, n, "- " + Write(v)) ==
            if !st.node.Unknown? && !st.node.List? then Err(ItemUnderNonList)
            else if Value(v).Map? then Ok(Frame(With(st, List(Items(st.node))), Item, Value(v), n))
            else Ok(With(st, Attach(st.node, Item, Value(v))))
  {
    hide KeyValue, ParseScalar, Writable, TrimSpace, Write;
    WrittenIsTrimmed(v, ":");
    ItemText(Write(v));
    SingleIsNoPair(v);
    InlineRoundTrip(v, ":");
  }

  lemma SingleIsNoPair(v: Inline)
    requires Writable(v, ":")
    ensures KeyValue(Write(v)).None?
  {
    WrittenIsQuiet(v, ":", START, ':');
  }

  lemma AddCompound(st: Stack, first: Entry, n: nat)
    requires SafeEntry(first) && Indent(st) < n
    ensures AddContent(st, n, "- " + Head(first)) ==
            if !st.node.Unknown? && !st.node.List? then Err(ItemUnderNonList)
            else Ok(Frame(With(st, List(Items(st.node))), Item, FirstOnly(first), n))
  {
    hide KeyValue, ParseScalar, SafeEntry, TrimSpace, Head;
    HeadKeyValue(first);
    ItemText(Head(first));
  }

  // ---- whole blocks ----

  lemma {:induction false} EntryYields(st: Stack, e: Entry, n: nat)
    requires SafeEntry(e) && Indent(st) < n
    ensures Yields(st, EntryLines(e, n), n, ReadEntry(e, st.node))
    decreases e, 0
  {
    AddHead(st, e, n);
    if !st.node.Unknown? && !st.node.Map? {
      YieldsError(st, n, Head(e), Below(e, n));
    } else {
      match e
      case Leaf(key, value) =>
        YieldsLine(st, n, Head(e), Attach(st.node, Key(key), Value(value)));
        assert EntryLines(e, n) == [Line(n, Head(e))];
      case Nested(key, block) =>
        var parent := if st.node.Unknown? then Map(map[]) else st.node;
        var f := Frame(With(st, parent), Key(key), Unknown, n);
        BlockYields(f, block, n + 2);
        YieldsFrame(st, n, Head(e), parent, Key(key), Unknown, Below(e, n), n + 2, ReadBlock(block, Unknown));
    }
  }

  lemma {:induction false} EntriesYield(st: Stack, entries: seq<Entry>, n: nat)
    requires (forall e :: e in entries ==> SafeEntry(e)) && Indent(st) < n
    ensures Yields(st, EntriesLines(entries, n), n, ReadEntries(entries, st.node))
    decreases entries, 1
  {
    if entries != [] {
      EntryYields(st, entries[0], n);
      var r := ReadEntry(entries[0], st.node);
      if r.Some? {
        EntriesYield(With(st, r.value), entries[1..], n);
      }
      FirstIndent(entries[1..], [], n);
      YieldsThen(st, EntryLines(entries[0], n), EntriesLines(entries[1..], n), n, r, ReadEntries(entries, st.node));
    }
  }

  lemma {:induction false} ElementYields(st: Stack, x: Element, n: nat)
    requires SafeElement(x) && Indent(st) < n
    ensures Yields(st, ElementLines(x, n), n, ReadElement(x, st.node))
    decreases x, 1
  {
    var parent := List(Items(st.node));
    match x
    case Single(v) =>
      SingleYields(st, v, n);
    case Compound(first, rest) =>
      AddCompound(st, first, n);
      var lines := Below(first, n + 2) + EntriesLines(rest, n + 2);
      if !st.node.Unknown? && !st.node.List? {
        YieldsError(st, n, "- " + Head(first), lines);
      } else {
        var f := Frame(With(st, parent), Item, FirstOnly(first), n);
        CompoundYields(f, x, n);
        YieldsFrame(st, n, "- " + Head(first), parent, Item, FirstOnly(first), lines, n + 2, ReadCompound(x));
      }
  }

  lemma SingleYields(st: Stack, v: Inline, n: nat)
    requires Writable(v, ":") && Indent(st) < n
    ensures Yields(st, [Line(n, "- " + Write(v))], n, ReadElement(Single(v), st.node))
  {
    var c := "- " + Write(v);
    AddSingle(st, v, n);
    assert [Line(n, c)] + [] == [Line(n, c)];
    if !st.node.Unknown? && !st.node.List? {
      YieldsError(st, n, c, []);
    } else if Value(v).Map? {
      YieldsFrame(st, n, c, List(Items(st.node)), Item, Value(v), [], n + 1, Some(Value(v)));
    } else {
      YieldsLine(st, n, c, Attach(st.node, Item, Value(v)));
    }
  }

  function ReadCompound(x: Element): Option<Node>
    requires x.Compound?
  {
    match ReadBelow(x.first, FirstOnly(x.first))
    case None => None
    case Some(item) => ReadEntries(x.rest, item)
  }

  lemma {:induction false} CompoundYields(f: Stack, x: Element, n: nat)
    requires SafeElement(x) && x.Compound? && f.node == FirstOnly(x.first) && Indent(f) == n
    ensures Yields(f, Below(x.first, n + 2) + EntriesLines(x.rest, n + 2), n + 2, ReadCompound(x))
    decreases x, 0
  {
    var r := ReadBelow(x.first, FirstOnly(x.first));
    if x.first.Nested? {
      BlockYields(f, x.first.block, n + 4);
      YieldsAtLess(f, Below(x.first, n + 2), n + 4, n + 2, r);
    }
    if r.Some? {
      EntriesYield(With(f, r.value), x.rest, n + 2);
    }
    FirstIndent(x.rest, [], n + 2);
    YieldsThen(f, Below(x.first, n + 2), EntriesLines(x.rest, n + 2), n + 2, r, ReadCompound(x));
  }

  lemma {:induction false} ElementsYield(st: Stack, elements: seq<Element>, n: nat)
    requires (forall x :: x in elements ==> SafeElement(x)) && Indent(st) < n
    ensures Yields(st, ElementsLines(elements, n), n, ReadElements(elements, st.node))
    decreases elements, 2
  {
    if elements != [] {
      ElementYields(st, elements[0], n);
      var r := ReadElement(elements[0], st.node);
      if r.Some? {
        ElementsYield(With(st, r.value), elements[1..], n);
      }
      FirstIndent([], elements[1..], n);
      YieldsThen(st, ElementLines(elements[0], n), ElementsLines(elements[1..], n), n, r,
                 ReadElements(elements, st.node));
    }
  }

  lemma {:induction false} BlockYields(st: Stack, b: Block, n: nat)
    requires SafeBlock(b) && Indent(st) < n
    ensures Yields(st, BlockLines(b, n), n, ReadBlock(b, st.node))
    decreases b, 3
  {
    match b
    case BMap(entries) => EntriesYield(st, entries, n);
    case BList(elements) => ElementsYield(st, elements, n);
  }
}

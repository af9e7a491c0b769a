// The parser of internal/config/yaml.go: inline values by recursion, blocks by a
// stack of open nodes kept in order of indentation.
module YamlModel {
  import opened Wrappers
  import opened Text
  import opened YamlScan

  datatype Node =
    | Unknown
    | Map(entries: map<string, Node>)
    | List(items: seq<Node>)
    | Scalar(text: string)

  datatype Flaw =
    | Tab
    | ItemUnderNonList
    | EmptyItem
    | NoKeyValue
    | KeyUnderNonMap
    | BadInlineEntry(part: string)

  datatype YamlError = YamlError(line: nat, flaw: Flaw)

  // ---- inline values ----

  function Longest(parts: seq<string>): nat {
    if parts == [] then 0 else
    var rest := Longest(parts[1..]);
    if |parts[0]| > rest then |parts[0]| else rest
  }

  lemma LongestFits(parts: seq<string>, n: nat)
    requires forall p :: p in parts ==> |p| <= n
    ensures Longest(parts) <= n
  {
  }

  predicate Wrapped(t: string, open: char, close: char) {
    |t| >= 2 && t[0] == open && t[|t| - 1] == close
  }

  function Inner(t: string): string
    requires |t| >= 2
  {
    t[1..|t| - 1]
  }

  function ParseScalar(s: string): Result<Node, Flaw>
    decreases |s|, 0, 0
  {
    var t := TrimSpace(s);
    if Wrapped(t, '{', '}') then
      LongestFits(TopLevel(Inner(t), ','), |Inner(t)|);
      MapParts(TopLevel(Inner(t), ','), map[])
    else if Wrapped(t, '[', ']') then
      LongestFits(TopLevel(Inner(t), ','), |Inner(t)|);
      ListParts(TopLevel(Inner(t), ','), [])
    else if Wrapped(t, '"', '"') || Wrapped(t, '\'', '\'') then Ok(Scalar(Inner(t)))
    else Ok(Scalar(t))
  }

  function MapParts(parts: seq<string>, entries: map<string, Node>): Result<Node, Flaw>
    decreases Longest(parts), 1, |parts|
  {
    if parts == [] then Ok(Map(entries)) else
    match KeyValue(TrimSpace(parts[0]))
    case None => Err(BadInlineEntry(parts[0]))
    case Some((key, value)) =>
      match ParseScalar(value)
      case Err(e) => Err(e)
      case Ok(child) => MapParts(parts[1..], entries[key := child])
  }

  function ListParts(parts: seq<string>, items: seq<Node>): Result<Node, Flaw>
    decreases Longest(parts), 1, |parts|
  {
    if parts == [] then Ok(List(items)) else
    match ParseScalar(TrimSpace(parts[0]))
    case Err(e) => Err(e)
    case Ok(item) => ListParts(parts[1..], items + [item])
  }

  function ParseItem(text: string): Result<Node, Flaw> {
    match KeyValue(text)
    case None => ParseScalar(text)
    case Some((key, value)) =>
      if value == "" then Ok(Map(map[key := Unknown])) else
      match ParseScalar(value)
      case Err(e) => Err(e)
      case Ok(child) => Ok(Map(map[key := child]))
  }

  /** An empty inline map is refused, and an empty inline list has one item. */
  lemma EmptyInlines()
    ensures ParseScalar("{}") == Err(BadInlineEntry(""))
    ensures ParseScalar("[]") == Ok(List([Scalar("")]))
  {
    assert TrimRight("{}") == "{}" && TrimRight("[]") == "[]";
    assert Inner("{}") == "" && Inner("[]") == "";
    assert TopLevel("", ',') == [""];
    assert ParseScalar("") == Ok(Scalar(""));
    assert ListParts([], [Scalar("")]) == Ok(List([Scalar("")]));
    assert [""][1..] == [] && [] + [Scalar("")] == [Scalar("")];
  }

  // The loops that fill a map or a list, one part after the other.

  method ParseScalarText(s: string) returns (r: Result<Node, Flaw>)
    ensures r == ParseScalar(s)
    decreases |s|, 0
  {
    hide MapParts, ListParts, TopLevel, TrimSpace;
    var t := TrimSpace(s);
    if t == "" {
      return Ok(Scalar(""));
    }
    if Wrapped(t, '{', '}') {
      r := ParseInlineMap(Inner(t));
    } else if Wrapped(t, '[', ']') {
      r := ParseInlineList(Inner(t));
    } else if Wrapped(t, '"', '"') || Wrapped(t, '\'', '\'') {
      r := Ok(Scalar(Inner(t)));
    } else {
      r := Ok(Scalar(t));
    }
  }

  method ParseInlineMap(s: string) returns (r: Result<Node, Flaw>)
    ensures r == MapParts(TopLevel(s, ','), map[])
    decreases |s|, 1
  {
    var entries := map[];
    var parts := SplitTopLevel(s, ',');
    assert parts[0..] == parts;
    for i := 0 to |parts|
      invariant MapParts(parts, map[]) == MapParts(parts[i..], entries)
    {
      assert parts[i..][0] == parts[i] && parts[i..][1..] == parts[i + 1..];
      var pair := SplitKeyValue(TrimSpace(parts[i]));
      if pair.None? {
        return Err(BadInlineEntry(parts[i]));
      }
      var (key, value) := pair.value;
      var child := ParseScalarText(value);
      if child.Err? {
        return Err(child.error);
      }
      entries := entries[key := child.value];
    }
    return Ok(Map(entries));
  }

  method ParseInlineList(s: string) returns (r: Result<Node, Flaw>)
    ensures r == ListParts(TopLevel(s, ','), [])
    decreases |s|, 1
  {
    var items := [];
    var parts := SplitTopLevel(s, ',');
    assert parts[0..] == parts;
    for i := 0 to |parts|
      invariant ListParts(parts, []) == ListParts(parts[i..], items)
    {
      assert parts[i..][0] == parts[i] && parts[i..][1..] == parts[i + 1..];
      var item := ParseScalarText(TrimSpace(parts[i]));
      if item.Err? {
        return Err(item.error);
      }
      items := items + [item.value];
    }
    return Ok(List(items));
  }

  // ---- the stack ----

  // Where a frame's node goes in the node below it.
  datatype Slot = Key(key: string) | Item

  // An open node joins the node below it when it is popped.
  datatype Stack =
    | Root(node: Node)
    | Frame(below: Stack, slot: Slot, node: Node, indent: nat)

  function Indent(st: Stack): int {
    if st.Root? then -1 else st.indent
  }

  function Depth(st: Stack): nat {
    if st.Root? then 0 else Depth(st.below) + 1
  }

  function With(st: Stack, node: Node): (r: Stack)
    ensures Depth(r) == Depth(st) && Indent(r) == Indent(st) && r.node == node
  {
    if st.Root? then Root(node) else Frame(st.below, st.slot, node, st.indent)
  }

  function Entries(node: Node): map<string, Node> {
    if node.Map? then node.entries else map[]
  }

  function Items(node: Node): seq<Node> {
    if node.List? then node.items else []
  }

  function Attach(parent: Node, slot: Slot, child: Node): Node {
    match slot
    case Key(k) => Map(Entries(parent)[k := child])
    case Item => List(Items(parent) + [child])
  }

  function Pop(st: Stack): Stack
    requires st.Frame?
  {
    With(st.below, Attach(st.below.node, st.slot, st.node))
  }

  function PopTo(st: Stack, indent: int): Stack
    decreases Depth(st)
  {
    if st.Frame? && st.indent >= indent then PopTo(Pop(st), indent) else st
  }

  // The tree with every open node joined to the one below.
  function Collapse(st: Stack): Node {
    PopTo(st, 0).node
  }

  // ---- lines ----

  function TrimIndent(s: string): string {
    if s != [] && s[0] == ' ' then TrimIndent(s[1..]) else s
  }

  function CountIndent(s: string): (n: nat)
    ensures n <= |s|
  {
    IndentShrinks(s);
    |s| - |TrimIndent(s)|
  }

  lemma IndentShrinks(s: string)
    ensures |TrimIndent(s)| <= |s|
  {
  }

  predicate IsItem(content: string) {
    content == "-" || "- " <= content
  }

  function AddItem(top: Stack, indent: nat, text: string): Result<Stack, Flaw> {
    var node := if top.node.Unknown? then List([]) else top.node;
    if !node.List? then Err(ItemUnderNonList)
    else if text == "" then Err(EmptyItem) else
    match ParseItem(text)
    case Err(e) => Err(e)
    case Ok(item) =>
      if item.Map? then Ok(Frame(With(top, node), Item, item, indent))
      else Ok(With(top, Attach(node, Item, item)))
  }

  function AddEntry(top: Stack, indent: nat, content: string): Result<Stack, Flaw> {
    match KeyValue(content)
    case None => Err(NoKeyValue)
    case Some((key, value)) =>
      var node := if top.node.Unknown? then Map(map[]) else top.node;
      if !node.Map? then Err(KeyUnderNonMap)
      else if value == "" then Ok(Frame(With(top, node), Key(key), Unknown, indent)) else
      match ParseScalar(value)
      case Err(e) => Err(e)
      case Ok(child) => Ok(With(top, Attach(node, Key(key), child)))
  }

  function AddContent(st: Stack, indent: nat, content: string): Result<Stack, Flaw> {
    var top := PopTo(st, indent);
    if IsItem(content) then AddItem(top, indent, TrimSpace(content[1..]))
    else AddEntry(top, indent, content)
  }

  function AddLine(st: Stack, raw: string): Result<Stack, Flaw> {
    var line := Uncommented(raw);
    if TrimSpace(line) == "" then Ok(st)
    else if '\t' in TrimIndent(line) then Err(Tab)
    else AddContent(st, CountIndent(line), TrimSpace(line))
  }

  function Feed(st: Stack, lines: seq<string>, number: nat): Result<Stack, YamlError>
    decreases |lines|
  {
    if lines == [] then Ok(st) else
    match AddLine(st, lines[0])
    case Err(e) => Err(YamlError(number, e))
    case Ok(next) => Feed(next, lines[1..], number + 1)
  }

  function Lines(s: string): (lines: seq<string>)
    ensures |lines| > 0
  {
    if s == [] then [[]]
    else if s[0] == '\n' then [[]] + Lines(s[1..]) else
    var rest := Lines(s[1..]);
    [[s[0]] + rest[0]] + rest[1..]
  }

  /** The lines joined by line breaks are the text, and none of them holds one. */
  lemma {:induction false} LinesAreTheText(s: string)
    ensures Glue(Lines(s), '\n') == s
    ensures forall line :: line in Lines(s) ==> '\n' !in line
  {
    if s != [] {
      var rest := Lines(s[1..]);
      LinesAreTheText(s[1..]);
      if s[0] == '\n' {
        assert ([[]] + rest)[1..] == rest;
      } else {
        assert ([[s[0]] + rest[0]] + rest[1..])[1..] == rest[1..];
        assert rest[0] in rest && forall line :: line in rest[1..] ==> line in rest;
      }
    }
  }

  const EMPTY := Root(Map(map[]))

  function Parse(data: string): Result<Node, YamlError> {
    match Feed(EMPTY, Lines(data), 1)
    case Err(e) => Err(e)
    case Ok(st) => Ok(Collapse(st))
  }

  // ---- what every run keeps ----

  /** Indents grow from the root's -1 upwards, and each frame's node can hold the frame
      above it. */
  predicate StackOk(st: Stack) {
    match st
    case Root(node) => node.Map?
    case Frame(below, slot, node, indent) =>
      && StackOk(below) && Indent(below) < indent && !node.Scalar?
      && match slot {
           case Key(_) => below.node.Map?
           case Item => below.node.List? && node.Map?
         }
  }

  lemma WithKeepsOk(st: Stack, node: Node)
    requires StackOk(st) && !node.Scalar?
    requires st.node.Map? ==> node.Map?
    ensures StackOk(With(st, node))
  {
  }

  lemma {:induction false} PopToKeepsOk(st: Stack, indent: int)
    requires StackOk(st)
    ensures StackOk(PopTo(st, indent))
    ensures indent >= 0 ==> Indent(PopTo(st, indent)) < indent
    decreases Depth(st)
  {
    if st.Frame? && st.indent >= indent {
      WithKeepsOk(st.below, Attach(st.below.node, st.slot, st.node));
      PopToKeepsOk(Pop(st), indent);
    }
  }

  lemma AddLineKeepsOk(st: Stack, raw: string)
    requires StackOk(st) && AddLine(st, raw).Ok?
    ensures StackOk(AddLine(st, raw).value)
  {
    hide ParseItem, ParseScalar, KeyValue, Uncommented, TrimSpace;
    PopToKeepsOk(st, CountIndent(Uncommented(raw)));
  }

  /** The stack is in order after any lines at all. */
  lemma {:induction false} FeedKeepsOk(st: Stack, lines: seq<string>, number: nat)
    requires StackOk(st) && Feed(st, lines, number).Ok?
    ensures StackOk(Feed(st, lines, number).value)
    decreases |lines|
  {
    if lines != [] {
      AddLineKeepsOk(st, lines[0]);
      FeedKeepsOk(AddLine(st, lines[0]).value, lines[1..], number + 1);
    }
  }

  /** What parses is a map at the top. */
  lemma ParsedRootIsMap(data: string)
    requires Parse(data).Ok?
    ensures Parse(data).value.Map?
  {
    FeedKeepsOk(EMPTY, Lines(data), 1);
    var st := Feed(EMPTY, Lines(data), 1).value;
    PopToKeepsOk(st, 0);
  }

  /** The error of a parse is that of the first line in trouble, by its number. */
  lemma {:induction false} ErrorIsTheFirst(st: Stack, lines: seq<string>, number: nat)
    requires Feed(st, lines, number).Err?
    ensures var e := Feed(st, lines, number).error;
            && number <= e.line < number + |lines|
            && Feed(st, lines[..e.line - number], number).Ok?
            && AddLine(Feed(st, lines[..e.line - number], number).value, lines[e.line - number]) == Err(e.flaw)
    decreases |lines|
  {
    match AddLine(st, lines[0])
    case Err(_) =>
      assert lines[..0] == [];
    case Ok(next) =>
      ErrorIsTheFirst(next, lines[1..], number + 1);
      var n := Feed(st, lines, number).error.line - number;
      assert lines[..n][1..] == lines[1..][..n - 1] && lines[..n][0] == lines[0];
  }

  // A line the parser can take: blank, or without tabs and an item or a pair.
  predicate IsWellFormed(raw: string) {
    var line := Uncommented(raw);
    var content := TrimSpace(line);
    content == "" || ('\t' !in TrimIndent(line) && content != "-" && (IsItem(content) || KeyValue(content).Some?))
  }

  /** Whatever parses consists of such lines. */
  lemma {:induction false} ParsedLinesAreWellFormed(st: Stack, lines: seq<string>, number: nat)
    requires Feed(st, lines, number).Ok?
    ensures forall line :: line in lines ==> IsWellFormed(line)
    decreases |lines|
  {
    if lines != [] {
      hide ParseItem, PopTo, KeyValue;
      assert ("-")[1..] == "" && TrimSpace("") == "";
      assert IsWellFormed(lines[0]);
      ParsedLinesAreWellFormed(AddLine(st, lines[0]).value, lines[1..], number + 1);
    }
  }

  function Stripped(r: Result<Stack, YamlError>): Result<Stack, Flaw> {
    match r
    case Ok(st) => Ok(st)
    case Err(e) => Err(e.flaw)
  }

  /** Blank lines and comments change nothing but the numbers of the lines behind. */
  lemma {:induction false} BlankLinesAreInvisible(st: Stack, before: seq<string>, blank: string, behind: seq<string>,
                                                  number: nat, number': nat)
    requires TrimSpace(Uncommented(blank)) == ""
    ensures Stripped(Feed(st, before + [blank] + behind, number)) == Stripped(Feed(st, before + behind, number'))
    decreases |before|
  {
    var with, without := before + [blank] + behind, before + behind;
    if before == [] {
      assert with[0] == blank && with[1..] == behind && without == behind;
      NumbersAreImmaterial(st, behind, number + 1, number');
    } else {
      assert with[0] == without[0] == before[0];
      assert with[1..] == before[1..] + [blank] + behind && without[1..] == before[1..] + behind;
      match AddLine(st, before[0])
      case Err(_) =>
      case Ok(next) => BlankLinesAreInvisible(next, before[1..], blank, behind, number + 1, number' + 1);
    }
  }

  lemma {:induction false} NumbersAreImmaterial(st: Stack, lines: seq<string>, number: nat, number': nat)
    ensures Stripped(Feed(st, lines, number)) == Stripped(Feed(st, lines, number'))
    decreases |lines|
  {
    if lines != [] {
      match AddLine(st, lines[0])
      case Err(_) =>
      case Ok(next) => NumbersAreImmaterial(next, lines[1..], number + 1, number' + 1);
    }
  }

  // ---- the stack is a path in the tree ----

  function Slots(st: Stack): seq<Slot> {
    if st.Root? then [] else Slots(st.below) + [st.slot]
  }

  function Child(node: Node, slot: Slot): Option<Node> {
    match slot
    case Key(k) => if node.Map? && k in node.entries then Some(node.entries[k]) else None
    case Item => if node.List? && node.items != [] then Some(node.items[|node.items| - 1]) else None
  }

  function Descend(node: Node, path: seq<Slot>): Option<Node> {
    if path == [] then Some(node) else
    match Descend(node, path[..|path| - 1])
    case None => None
    case Some(parent) => Child(parent, path[|path| - 1])
  }

  /** Each open node lies in the tree where the slots up to it lead, below the root. */
  lemma {:induction false} StackIsAPath(st: Stack)
    requires StackOk(st)
    ensures Descend(Collapse(st), Slots(st)) == Some(st.node)
    decreases Depth(st)
  {
    if st.Frame? {
      var node := Attach(st.below.node, st.slot, st.node);
      WithKeepsOk(st.below, node);
      StackIsAPath(Pop(st));
      assert Slots(Pop(st)) == Slots(st.below);
      assert Slots(st)[..|Slots(st)| - 1] == Slots(st.below);
    }
  }

  // ---- the loop over the lines ----

  method ParseYAML(data: string) returns (r: Result<Node, YamlError>)
    ensures r == Parse(data)
  {
    var stack := EMPTY;
    var lines := Lines(data);
    assert lines[0..] == lines;
    for i := 0 to |lines|
      invariant Feed(EMPTY, lines, 1) == Feed(stack, lines[i..], i + 1)
    {
      assert lines[i..][0] == lines[i] && lines[i..][1..] == lines[i + 1..];
      var line := StripComment(lines[i]);
      if TrimSpace(line) == "" {
        continue;
      }
      if '\t' in TrimIndent(line) {
        return Err(YamlError(i + 1, Tab));
      }
      var indent, content := CountIndent(line), TrimSpace(line);
      ghost var before := stack;
      while stack.Frame? && stack.indent >= indent
        invariant PopTo(before, indent) == PopTo(stack, indent)
        decreases Depth(stack)
      {
        stack := Pop(stack);
      }
      assert stack == PopTo(before, indent);
      var next := if IsItem(content) then AddItem(stack, indent, TrimSpace(content[1..]))
                  else AddEntry(stack, indent, content);
      if next.Err? {
        return Err(YamlError(i + 1, next.error));
      }
      stack := next.value;
    }
    while stack.Frame?
      invariant Collapse(Feed(EMPTY, lines, 1).value) == Collapse(stack)
      invariant Feed(EMPTY, lines, 1).Ok?
      decreases Depth(stack)
    {
      stack := Pop(stack);
    }
    return Ok(stack.node);
  }
}

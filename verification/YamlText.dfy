// Block documents as the text of a file, line by line.
module YamlText {
  import opened Wrappers
  import opened Text
  import opened YamlScan
  import opened YamlModel
  import opened YamlInline
  import opened YamlBlocks

  function Spaces(n: nat): string {
    if n == 0 then "" else " " + Spaces(n - 1)
  }

  function Source(lines: seq<Line>): string {
    if lines == [] then "" else Spaces(lines[0].indent) + lines[0].content + "\n" + Source(lines[1..])
  }

  // ---- text the line scanners leave alone ----

  /** No comment starts in it, wherever it stands, and no quote is left open; nor does
      it hold a tab or a line break. */
  predicate Clean(t: string) {
    && FindComment(t, true, None).None? && FindComment(t, false, None).None? && Requotes(None, t).None?
    && '\t' !in t && '\n' !in t
  }

  lemma CleanConcat(a: string, b: string)
    requires Clean(a) && Clean(b)
    ensures Clean(a + b)
  {
    FindCommentConcat(a, b, true, None);
    FindCommentConcat(a, b, false, None);
  }

  lemma {:induction false} InertHasNoComment(t: string, blank: bool)
    requires (forall c :: c in t ==> IsInert(c)) && NoHash(t, blank)
    ensures FindComment(t, blank, None).None? && Requotes(None, t).None?
  {
    if t != [] {
      assert t[0] in t && forall c :: c in t[1..] ==> c in t;
      InertHasNoComment(t[1..], t[0] == ' ');
    }
  }

  lemma InertIsClean(t: string)
    requires (forall c :: c in t ==> IsInert(c)) && NoHash(t, true)
    ensures Clean(t)
  {
    InertHasNoComment(t, true);
    assert NoHash(t, false);
    InertHasNoComment(t, false);
    assert !IsInert('\t') && !IsInert('\n');
  }

  lemma {:induction false} QuotedHasNoComment(t: string, blank: bool, mark: char)
    requires mark !in t
    ensures FindComment(t, blank, Some(mark)).None? && Requotes(Some(mark), t) == Some(mark)
  {
    if t != [] {
      assert t[0] in t && forall c :: c in t[1..] ==> c in t;
      QuotedHasNoComment(t[1..], IsBlank(t[0]), mark);
    }
  }

  lemma QuotedIsClean(mark: char, t: string)
    requires IsQuote(mark) && forall c :: c in t ==> c != mark && c != '\t' && c != '\n'
    ensures Clean([mark] + t + [mark])
  {
    var all := [mark] + t + [mark];
    assert all[0] == mark && all[1..] == t + [mark];
    QuotedHasNoComment(t, false, mark);
    FindCommentConcat(t, [mark], false, Some(mark));
    assert Requotes(Some(mark), [mark]) == None;
    assert FindComment([mark], false, Some(mark)) == None;
    assert FindComment([mark], true, Some(mark)) == None;
  }

  lemma {:induction false} WrittenIsClean(v: Inline, ban: string)
    requires Writable(v, ban)
    ensures Clean(Write(v))
    decreases v, 0
  {
    match v
    case Plain(text) =>
      InertIsClean(text);
    case Quoted(mark, text) =>
      QuotedIsClean(mark, text);
    case IMap(fields) =>
      FieldsAreClean(fields);
      JoinedIsClean(FieldTexts(fields));
      BetweenIsClean("{", Joined(FieldTexts(fields)), "}");
    case IList(items) =>
      ItemsAreClean(items);
      JoinedIsClean(ItemTexts(items));
      BetweenIsClean("[", Joined(ItemTexts(items)), "]");
  }

  lemma BetweenIsClean(a: string, t: string, b: string)
    requires Clean(a) && Clean(t) && Clean(b)
    ensures Clean(a + t + b)
  {
    hide Clean;
    CleanConcat(a, t);
    CleanConcat(a + t, b);
  }

  lemma FieldIsClean(key: string, ban: string, value: string)
    requires IsPlain(key, ban) && Clean(value)
    ensures Clean(key + ": " + value) && Clean(key + ":")
  {
    InertIsClean(key);
    InertIsClean(":");
    InertIsClean(": ");
    BetweenIsClean(key, ": ", value);
    CleanConcat(key, ":");
  }

  lemma {:induction false} FieldsAreClean(fields: seq<Field>)
    requires forall f :: f in fields ==> IsKey(f.key) && Writable(f.value, ",")
    ensures forall t :: t in FieldTexts(fields) ==> Clean(t)
    decreases fields, 1
  {
    if fields != [] {
      hide Clean, IsPlain, Writable;
      WrittenIsClean(fields[0].value, ",");
      FieldIsClean(fields[0].key, ",:", Write(fields[0].value));
      FieldsAreClean(fields[1..]);
    }
  }

  lemma {:induction false} ItemsAreClean(items: seq<Inline>)
    requires forall x :: x in items ==> Writable(x, ",")
    ensures forall t :: t in ItemTexts(items) ==> Clean(t)
    decreases items, 1
  {
    if items != [] {
      hide Clean, Writable;
      WrittenIsClean(items[0], ",");
      ItemsAreClean(items[1..]);
    }
  }

  lemma {:induction false} JoinedIsClean(texts: seq<string>)
    requires forall t :: t in texts ==> Clean(t)
    ensures Clean(Joined(texts))
    decreases |texts|
  {
    if texts == [] {
      InertIsClean("");
    } else {
      hide Clean;
      assert texts[0] in texts;
      if |texts| > 1 {
        InertIsClean(", ");
        JoinedIsClean(texts[1..]);
        BetweenIsClean(texts[0], ", ", Joined(texts[1..]));
      }
    }
  }

  // ---- lines ----

  predicate LineOk(content: string) {
    IsTrimmed(content) && Clean(content)
  }

  lemma ItemLineOk(text: string)
    requires LineOk(text)
    ensures LineOk("- " + text)
  {
    InertIsClean("- ");
    CleanConcat("- ", text);
  }

  lemma HeadOk(e: Entry)
    requires SafeEntry(e)
    ensures LineOk(Head(e))
  {
    HeadKeyValue(e);
    match e
    case Leaf(key, value) =>
      WrittenIsClean(value, "");
      FieldIsClean(key, ":", Write(value));
    case Nested(key, _) =>
      InertIsClean("");
      FieldIsClean(key, ":", "");
  }

  ghost predicate LinesOk(lines: seq<Line>) {
    forall l :: l in lines ==> LineOk(l.content)
  }

  lemma {:induction false} EntriesLinesOk(entries: seq<Entry>, n: nat)
    requires forall e :: e in entries ==> SafeEntry(e)
    ensures LinesOk(EntriesLines(entries, n))
    decreases entries, 1
  {
    if entries != [] {
      hide LineOk, SafeEntry;
      HeadOk(entries[0]);
      BelowOk(entries[0], n);
      EntriesLinesOk(entries[1..], n);
    }
  }

  lemma {:induction false} BelowOk(e: Entry, n: nat)
    requires SafeEntry(e)
    ensures LinesOk(Below(e, n))
    decreases e, 0
  {
    if e.Nested? {
      BlockLinesOk(e.block, n + 2);
    }
  }

  lemma {:induction false} ElementsLinesOk(elements: seq<Element>, n: nat)
    requires forall x :: x in elements ==> SafeElement(x)
    ensures LinesOk(ElementsLines(elements, n))
    decreases elements, 1
  {
    if elements != [] {
      hide LineOk, SafeEntry;
      assert SafeElement(elements[0]);
      match elements[0]
      case Single(value) =>
        WrittenIsTrimmed(value, ":");
        WrittenIsClean(value, ":");
        ItemLineOk(Write(value));
        ElementsLinesOk(elements[1..], n);
      case Compound(first, rest) =>
        HeadOk(first);
        ItemLineOk(Head(first));
        BelowOk(first, n + 2);
        EntriesLinesOk(rest, n + 2);
        ElementsLinesOk(elements[1..], n);
    }
  }

  lemma {:induction false} BlockLinesOk(b: Block, n: nat)
    requires SafeBlock(b)
    ensures LinesOk(BlockLines(b, n))
    decreases b, 2
  {
    match b
    case BMap(entries) => EntriesLinesOk(entries, n);
    case BList(elements) => ElementsLinesOk(elements, n);
  }

  lemma {:induction false} SpacesInFront(n: nat, content: string)
    requires IsTrimmed(content)
    ensures TrimLeft(Spaces(n) + content) == content
    ensures TrimIndent(Spaces(n) + content) == content
    ensures |Spaces(n)| == n && NoHash(Spaces(n), true) && forall c :: c in Spaces(n) ==> c == ' '
  {
    if n == 0 {
      assert Spaces(n) + content == content;
    } else {
      assert (Spaces(n) + content)[1..] == Spaces(n - 1) + content;
      assert Spaces(n)[1..] == Spaces(n - 1);
      SpacesInFront(n - 1, content);
    }
  }

  /** An indented line adds its content at its indent. */
  lemma LineAdds(st: Stack, n: nat, content: string)
    requires LineOk(content)
    ensures AddLine(st, Spaces(n) + content) == AddContent(st, n, content)
  {
    hide AddContent, NoHash;
    var raw := Spaces(n) + content;
    SpacesInFront(n, content);
    InertIsClean(Spaces(n));
    CleanConcat(Spaces(n), content);
    assert Uncommented(raw) == raw;
    TrimOfTrimmed(content);
    assert TrimSpace(raw) == content;
  }

  lemma {:induction false} LinesSplit(raw: string, rest: string)
    requires '\n' !in raw
    ensures Lines(raw + "\n" + rest) == [raw] + Lines(rest)
  {
    var s := raw + "\n" + rest;
    if raw == [] {
      assert s[1..] == rest;
    } else {
      assert raw[0] in raw && forall c :: c in raw[1..] ==> c in raw;
      assert s[1..] == raw[1..] + "\n" + rest;
      LinesSplit(raw[1..], rest);
      assert [raw[0]] + raw[1..] == raw;
    }
  }

  /** A file's text feeds its lines. */
  lemma {:induction false} SourceFeeds(st: Stack, lines: seq<Line>, number: nat)
    requires LinesOk(lines)
    ensures match FeedLines(st, lines)
            case None => Feed(st, Lines(Source(lines)), number).Err?
            case Some(st') => Feed(st, Lines(Source(lines)), number) == Ok(st')
    decreases |lines|
  {
    if lines == [] {
      assert Lines("") == [""] && AddLine(st, "") == Ok(st);
      assert Feed(st, [], number + 1) == Ok(st);
    } else {
      hide AddContent, AddLine, Clean;
      var l, rest := lines[0], lines[1..];
      var raw := Spaces(l.indent) + l.content;
      assert l in lines;
      LineAdds(st, l.indent, l.content);
      assert '\n' !in raw by {
        NoBreak(l);
      }
      LinesSplit(raw, Source(rest));
      assert ([raw] + Lines(Source(rest)))[1..] == Lines(Source(rest));
      match AddContent(st, l.indent, l.content)
      case Err(_) =>
      case Ok(next) => SourceFeeds(next, rest, number + 1);
    }
  }

  lemma NoBreak(l: Line)
    requires LineOk(l.content)
    ensures '\n' !in Spaces(l.indent) + l.content
  {
    SpacesInFront(l.indent, l.content);
  }

  /** Parsing the text of a block document is reading the document. */
  lemma ParseReads(entries: seq<Entry>)
    requires forall e :: e in entries ==> SafeEntry(e)
    ensures match ReadEntries(entries, Map(map[]))
            case None => Parse(Source(EntriesLines(entries, 0))).Err?
            case Some(node) => Parse(Source(EntriesLines(entries, 0))) == Ok(node)
  {
    var lines := EntriesLines(entries, 0);
    EntriesYield(EMPTY, entries, 0);
    EntriesLinesOk(entries, 0);
    SourceFeeds(EMPTY, lines, 1);
  }
}

// What the scanners and the parser make of single texts, in terms of their characters.
module YamlPlain {
  import opened Wrappers
  import opened Text
  import opened YamlScan
  import opened YamlModel

  // ---- texts without quotes ----

  predicate NoQuotes(s: string) {
    '"' !in s && '\'' !in s
  }

  predicate NoBrackets(s: string) {
    '{' !in s && '}' !in s && '[' !in s && ']' !in s
  }

  lemma {:induction false} StaysUnquoted(s: string)
    requires NoQuotes(s)
    ensures Requotes(None, s) == None
  {
    if s != [] {
      assert s[0] in s && forall c :: c in s[1..] ==> c in s;
      StaysUnquoted(s[1..]);
    }
  }

  lemma {:induction false} StaysAtStart(s: string)
    requires NoQuotes(s) && NoBrackets(s)
    ensures Run(START, s) == START
  {
    if s != [] {
      assert s[0] in s && forall c :: c in s[1..] ==> c in s;
      StaysAtStart(s[1..]);
    }
  }

  lemma {:induction false} StaysQuoted(s: string, mark: char, depth: int)
    requires mark !in s
    ensures Run(Scan(depth, Some(mark)), s) == Scan(depth, Some(mark)) && Requotes(Some(mark), s) == Some(mark)
  {
    if s != [] {
      assert s[0] in s && forall c :: c in s[1..] ==> c in s;
      StaysQuoted(s[1..], mark, depth);
    }
  }

  // ---- comments ----

  // A hash at the start of the line or behind a blank.
  predicate HashAt(line: string, i: int) {
    0 <= i < |line| && line[i] == '#' && (i == 0 || line[i - 1] == ' ' || line[i - 1] == '\t')
  }

  /** A line without quotes loses exactly what begins with its first such hash. */
  lemma CommentOfPlainLine(line: string, i: nat)
    requires NoQuotes(line)
    ensures HashAt(line, i) && (forall j :: 0 <= j < i ==> !HashAt(line, j)) ==> Uncommented(line) == line[..i]
    ensures (forall j :: 0 <= j < |line| ==> !HashAt(line, j)) ==> Uncommented(line) == line
  {
    forall j: nat | j < |line|
      ensures FindComment(line, true, None) == Some(j) ==> HashAt(line, j)
      ensures HashAt(line, j) ==> FindComment(line, true, None).Some? && FindComment(line, true, None).value <= j
    {
      assert forall c :: c in line[..j] ==> c in line;
      StaysUnquoted(line[..j]);
      CommentIsFirst(line, true, None, j);
    }
  }

  /** Inside quotes of either kind no comment starts. */
  lemma NoCommentInQuotes(mark: char, t: string)
    requires (mark == '"' || mark == '\'') && mark !in t
    ensures Uncommented([mark] + t + [mark]) == [mark] + t + [mark]
  {
    var line := [mark] + t + [mark];
    forall j: nat | j < |line|
      ensures FindComment(line, true, None) != Some(j)
    {
      CommentIsFirst(line, true, None, j);
      if 0 < j <= |t| {
        assert line[..j] == [mark] + t[..j - 1];
        assert line[..j][1..] == t[..j - 1];
        assert forall c :: c in t[..j - 1] ==> c in t;
        StaysQuoted(t[..j - 1], mark, 0);
      }
    }
  }

  // ---- separators ----

  /** Without quotes and brackets every separator cuts. */
  lemma PlainTextIsCut(s: string, sep: char, i: nat)
    requires NoQuotes(s) && NoBrackets(s) && (sep == ',' || sep == ':')
    ensures i in Offsets(TopLevel(s, sep), 0) <==> i < |s| && s[i] == sep
  {
    SplitIsExact(s, sep, i);
    if i < |s| {
      assert forall c :: c in s[..i] ==> c in s;
      StaysAtStart(s[..i]);
    }
  }

  // A text put between quotes or brackets.
  predicate Enclosing(open: char, close: char, t: string) {
    || ((open == '"' || open == '\'') && close == open && open !in t)
    || (((open == '{' && close == '}') || (open == '[' && close == ']')) && NoQuotes(t) && NoBrackets(t))
  }

  /** Between quotes or brackets of either kind none does. */
  lemma EnclosedTextIsNotCut(open: char, close: char, t: string, sep: char, i: nat)
    requires Enclosing(open, close, t) && (sep == ',' || sep == ':')
    ensures i !in Offsets(TopLevel([open] + t + [close], sep), 0)
  {
    hide TopLevel, FindCut, Offsets;
    var s := [open] + t + [close];
    SplitIsExact(s, sep, i);
    if 0 < i <= |t| {
      assert s[..i] == [open] + t[..i - 1] && s[..i][1..] == t[..i - 1];
      assert forall c :: c in t[..i - 1] ==> c in t;
      if open == '"' || open == '\'' {
        StaysQuoted(t[..i - 1], open, 0);
      } else {
        StaysDeep(t[..i - 1]);
      }
    }
  }

  lemma {:induction false} StaysDeep(s: string)
    requires NoQuotes(s) && NoBrackets(s)
    ensures Run(Scan(1, None), s) == Scan(1, None)
  {
    if s != [] {
      assert s[0] in s && forall c :: c in s[1..] ==> c in s;
      StaysDeep(s[1..]);
    }
  }

  /** A pair is cut at its first colon, whatever stands behind it. */
  lemma PairIsCutAtFirstColon(key: string, value: string)
    requires NoQuotes(key) && NoBrackets(key) && ':' !in key
    ensures KeyValue(key + ":" + value) == Some((TrimSpace(key), TrimSpace(value)))
    ensures KeyValue(key).None?
  {
    var s := key + ":" + value;
    NoColonNoCut(key);
    assert s == key + (":" + value);
    FindCutConcat(key, ":" + value, START, ':');
    StaysAtStart(key);
    assert s[..|key|] == key && s[|key| + 1..] == value;
  }

  lemma {:induction false} NoColonNoCut(s: string)
    requires NoQuotes(s) && NoBrackets(s) && ':' !in s
    ensures FindCut(s, START, ':').None?
  {
    if s != [] {
      assert s[0] in s && forall c :: c in s[1..] ==> c in s;
      NoColonNoCut(s[1..]);
    }
  }

  // ---- scalars ----

  /** Quotes of either kind come off, and what is between them is taken as it is. */
  lemma QuotedScalar(mark: char, t: string)
    requires mark == '"' || mark == '\''
    ensures ParseScalar([mark] + t + [mark]) == Ok(Scalar(t))
  {
    var s := [mark] + t + [mark];
    TrimOfTrimmed(s);
    assert Inner(s) == t;
  }

  /** A text that does not start with a quote or an opening bracket is itself, but for the
      space around it. */
  lemma PlainScalar(s: string)
    requires var t := TrimSpace(s); t == "" || (t[0] != '"' && t[0] != '\'' && t[0] != '{' && t[0] != '[')
    ensures ParseScalar(s) == Ok(Scalar(TrimSpace(s)))
  {
  }

  // ---- lines ----

  lemma {:induction false} IndentIsExact(s: string)
    ensures var n := CountIndent(s);
            && (forall i :: 0 <= i < n ==> s[i] == ' ') && (n < |s| ==> s[n] != ' ')
            && TrimIndent(s) == s[n..]
  {
    if s != [] && s[0] == ' ' {
      IndentIsExact(s[1..]);
      assert TrimIndent(s) == TrimIndent(s[1..]);
      forall i | 0 <= i < CountIndent(s)
        ensures s[i] == ' '
      {
        assert i > 0 ==> s[i] == s[1..][i - 1];
      }
    }
  }

  // The open node a line of this content belongs to.
  function TopFor(st: Stack, line: string): Node {
    PopTo(st, CountIndent(line)).node
  }

  /** What is wrong with a line, if anything: a tab anywhere; a dash under something else
      than a list; a bare dash; no pair; a pair under something else than a map; or else a
      bad entry of an inline map. */
  lemma FlawOfLine(st: Stack, raw: string)
    requires TrimSpace(Uncommented(raw)) != ""
    ensures var (line, r) := (Uncommented(raw), AddLine(st, raw));
            var (content, top) := (TrimSpace(line), TopFor(st, line));
            var dash := content == "-" || (|content| >= 2 && content[0] == '-' && content[1] == ' ');
            && (r == Err(Tab) <==> '\t' in line)
            && ('\t' !in line ==>
                  && (r == Err(ItemUnderNonList) <==> dash && (top.Map? || top.Scalar?))
                  && (r == Err(EmptyItem) <==> content == "-" && (top.List? || top.Unknown?))
                  && (r == Err(NoKeyValue) <==> !dash && KeyValue(content).None?)
                  && (r == Err(KeyUnderNonMap) <==> !dash && KeyValue(content).Some? && (top.List? || top.Scalar?))
                  && (r.Err? && r.error.BadInlineEntry? ==> (dash && (top.List? || top.Unknown?)) || (!dash && (top.Map? || top.Unknown?))))
  {
    hide TrimSpace, Uncommented, KeyValue, ParseScalar, PopTo, CountIndent, TrimIndent, IsItem, With, Attach;
    var line := Uncommented(raw);
    var content := TrimSpace(line);
    DashIsItem(content);
    ScalarFlaws(TrimSpace(content[1..]));
    if KeyValue(TrimSpace(content[1..])).Some? {
      ScalarFlaws(KeyValue(TrimSpace(content[1..])).value.1);
    }
    if KeyValue(content).Some? {
      ScalarFlaws(KeyValue(content).value.1);
    }
    TabsBehindIndent(line);
    TrimmedDash(line);
  }

  lemma TabsBehindIndent(line: string)
    ensures '\t' in TrimIndent(line) <==> '\t' in line
  {
    IndentIsExact(line);
    var n := CountIndent(line);
    assert line == line[..n] + line[n..];
  }

  lemma DashIsItem(content: string)
    ensures IsItem(content) <==> content == "-" || (|content| >= 2 && content[0] == '-' && content[1] == ' ')
  {
    if |content| >= 2 {
      assert content[..2] == [content[0], content[1]];
    }
  }

  // Behind the dash of a trimmed item there is something unless the dash is bare.
  lemma TrimmedDash(line: string)
    requires TrimSpace(line) != ""
    ensures var content := TrimSpace(line);
            IsItem(content) ==> (TrimSpace(content[1..]) == "" <==> content == "-")
  {
    var content := TrimSpace(line);
    var left, right := TrimIsExact(line);
    if content == "-" {
      assert content[1..] == "";
    } else if IsItem(content) {
      var l, r := TrimIsExact(content[1..]);
      assert content[1..][|content| - 2] == content[|content| - 1];
    }
  }

  // The only flaw of an inline value is a bad entry.
  lemma {:induction false} ScalarFlaws(s: string)
    ensures ParseScalar(s).Err? ==> ParseScalar(s).error.BadInlineEntry?
    decreases |s|, 0, 0
  {
    var t := TrimSpace(s);
    if Wrapped(t, '{', '}') {
      LongestFits(TopLevel(Inner(t), ','), |Inner(t)|);
      MapFlaws(TopLevel(Inner(t), ','), map[]);
    } else if Wrapped(t, '[', ']') {
      LongestFits(TopLevel(Inner(t), ','), |Inner(t)|);
      ListFlaws(TopLevel(Inner(t), ','), []);
    }
  }

  lemma {:induction false} MapFlaws(parts: seq<string>, entries: map<string, Node>)
    ensures MapParts(parts, entries).Err? ==> MapParts(parts, entries).error.BadInlineEntry?
    decreases Longest(parts), 1, |parts|
  {
    if parts != [] {
      match KeyValue(TrimSpace(parts[0]))
      case None =>
      case Some((key, value)) =>
        ScalarFlaws(value);
        match ParseScalar(value)
        case Err(_) =>
        case Ok(child) => MapFlaws(parts[1..], entries[key := child]);
    }
  }

  lemma {:induction false} ListFlaws(parts: seq<string>, items: seq<Node>)
    ensures ListParts(parts, items).Err? ==> ListParts(parts, items).error.BadInlineEntry?
    decreases Longest(parts), 1, |parts|
  {
    if parts != [] {
      ScalarFlaws(TrimSpace(parts[0]));
      match ParseScalar(TrimSpace(parts[0]))
      case Err(_) =>
      case Ok(item) => ListFlaws(parts[1..], items + [item]);
    }
  }
}

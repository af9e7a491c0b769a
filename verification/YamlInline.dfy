// Inline values as written, and that the parser reads them back.
module YamlInline {
  import opened Wrappers
  import opened Text
  import opened YamlScan
  import opened YamlModel

  datatype Inline =
    | Plain(text: string)
    | Quoted(mark: char, text: string)
    | IMap(fields: seq<Field>)
    | IList(items: seq<Inline>)

  datatype Field = Field(key: string, value: Inline)

  // ---- writing ----

  function Write(v: Inline): string {
    match v
    case Plain(text) => text
    case Quoted(mark, text) => [mark] + text + [mark]
    case IMap(fields) => "{" + Joined(FieldTexts(fields)) + "}"
    case IList(items) => "[" + Joined(ItemTexts(items)) + "]"
  }

  function WriteField(f: Field): string {
    f.key + ": " + Write(f.value)
  }

  function FieldTexts(fields: seq<Field>): seq<string> {
    if fields == [] then [] else [WriteField(fields[0])] + FieldTexts(fields[1..])
  }

  function ItemTexts(items: seq<Inline>): seq<string> {
    if items == [] then [] else [Write(items[0])] + ItemTexts(items[1..])
  }

  function Joined(texts: seq<string>): string {
    if texts == [] then ""
    else if |texts| == 1 then texts[0]
    else texts[0] + ", " + Joined(texts[1..])
  }

  // ---- meaning ----

  function Value(v: Inline): Node {
    match v
    case Plain(text) => Scalar(text)
    case Quoted(_, text) => Scalar(text)
    case IMap(fields) => Map(FieldValues(fields, map[]))
    case IList(items) => List(ItemValues(items))
  }

  function FieldValues(fields: seq<Field>, entries: map<string, Node>): map<string, Node> {
    if fields == [] then entries
    else FieldValues(fields[1..], entries[fields[0].key := Value(fields[0].value)])
  }

  function ItemValues(items: seq<Inline>): seq<Node> {
    if items == [] then [] else [Value(items[0])] + ItemValues(items[1..])
  }

  // ---- what can be written ----

  // No scanner changes state over such a character, and no line ends or is refused
  // at it.
  predicate IsInert(c: char) {
    !IsQuote(c) && !IsOpen(c) && !IsClose(c) && c != '\t' && c != '\n'
  }

  /** Plain text: trimmed, of inert characters outside `ban`, and without a hash where
      a comment would start. */
  predicate IsPlain(t: string, ban: string) {
    && IsTrimmed(t)
    && (forall c :: c in t ==> IsInert(c) && c !in ban)
    && NoHash(t, true)
  }

  predicate NoHash(t: string, blank: bool) {
    t == [] || (!(t[0] == '#' && blank) && NoHash(t[1..], t[0] == ' '))
  }

  predicate IsKey(k: string) {
    IsPlain(k, ",:")
  }

  predicate Writable(v: Inline, ban: string) {
    match v
    case Plain(text) => IsPlain(text, ban)
    case Quoted(mark, text) => IsQuote(mark) && forall c :: c in text ==> c != mark && c != '\t' && c != '\n'
    case IMap(fields) => fields != [] && forall f :: f in fields ==> IsKey(f.key) && Writable(f.value, ",")
    case IList(items) => items != [] && forall x :: x in items ==> Writable(x, ",")
  }

  // ---- scanning over written text ----

  /** No cut at `sep`, and the same state behind as before. */
  predicate Quiet(t: string, st: Scan, sep: char) {
    FindCut(t, st, sep).None? && Run(st, t) == st
  }

  lemma QuietConcat(a: string, b: string, st: Scan, sep: char)
    requires Quiet(a, st, sep) && Quiet(b, st, sep)
    ensures Quiet(a + b, st, sep)
  {
    RunConcat(st, a, b);
    FindCutConcat(a, b, st, sep);
  }

  lemma {:induction false} InertIsQuiet(t: string, st: Scan, sep: char)
    requires st.quote.None? && forall c :: c in t ==> IsInert(c)
    requires st.depth != 0 || sep !in t
    ensures Quiet(t, st, sep)
  {
    if t != [] {
      assert t[0] in t && forall c :: c in t[1..] ==> c in t;
      InertIsQuiet(t[1..], st, sep);
    }
  }

  lemma {:induction false} InsideQuotes(t: string, st: Scan, sep: char)
    requires st.quote.Some? && st.quote.value !in t
    ensures Quiet(t, st, sep)
  {
    if t != [] {
      assert t[0] in t && forall c :: c in t[1..] ==> c in t;
      InsideQuotes(t[1..], st, sep);
    }
  }

  /** Text between an opening and a closing character that are quiet inside. */
  lemma BracketedIsQuiet(open: char, t: string, close: char, st: Scan, inside: Scan, sep: char)
    requires st.quote.None? && (IsQuote(open) || IsOpen(open)) && !Cuts(inside, close, sep)
    requires Advance(st, open) == inside && Advance(inside, close) == st && Quiet(t, inside, sep)
    ensures Quiet([open] + t + [close], st, sep)
  {
    RunConcat(inside, t, [close]);
    FindCutConcat(t, [close], inside, sep);
    var all := [open] + t + [close];
    assert all[0] == open && all[1..] == t + [close];
    assert Run(inside, [close]) == st;
    assert FindCut([close], inside, sep).None?;
  }

  /** Written text is quiet inside brackets, and outside where its plain text is banned
      from containing the separator. */
  lemma {:induction false} WrittenIsQuiet(v: Inline, ban: string, st: Scan, sep: char)
    requires Writable(v, ban) && st.quote.None? && st.depth >= 0 && (st.depth > 0 || sep in ban)
    ensures Quiet(Write(v), st, sep)
    decreases v, 0
  {
    match v
    case Plain(text) =>
      InertIsQuiet(text, st, sep);
    case Quoted(mark, text) =>
      InsideQuotes(text, st.(quote := Some(mark)), sep);
      BracketedIsQuiet(mark, text, mark, st, st.(quote := Some(mark)), sep);
    case IMap(fields) =>
      FieldsAreQuiet(fields, st.(depth := st.depth + 1), sep);
      JoinedIsQuiet(FieldTexts(fields), st.(depth := st.depth + 1), sep);
      BracketedIsQuiet('{', Joined(FieldTexts(fields)), '}', st, st.(depth := st.depth + 1), sep);
    case IList(items) =>
      ItemsAreQuiet(items, st.(depth := st.depth + 1), sep);
      JoinedIsQuiet(ItemTexts(items), st.(depth := st.depth + 1), sep);
      BracketedIsQuiet('[', Joined(ItemTexts(items)), ']', st, st.(depth := st.depth + 1), sep);
  }

  lemma {:induction false} FieldIsQuiet(f: Field, st: Scan, sep: char)
    requires IsKey(f.key) && Writable(f.value, ",") && st.quote.None? && st.depth >= 0 && (st.depth > 0 || sep == ',')
    ensures Quiet(WriteField(f), st, sep)
    decreases f, 1
  {
    InertIsQuiet(f.key, st, sep);
    InertIsQuiet(": ", st, sep);
    WrittenIsQuiet(f.value, ",", st, sep);
    QuietConcat(f.key, ": ", st, sep);
    QuietConcat(f.key + ": ", Write(f.value), st, sep);
  }

  lemma {:induction false} FieldsAreQuiet(fields: seq<Field>, st: Scan, sep: char)
    requires forall f :: f in fields ==> IsKey(f.key) && Writable(f.value, ",")
    requires st.quote.None? && st.depth >= 0 && (st.depth > 0 || sep == ',')
    ensures forall t :: t in FieldTexts(fields) ==> Quiet(t, st, sep)
    decreases fields, 2
  {
    if fields != [] {
      FieldIsQuiet(fields[0], st, sep);
      FieldsAreQuiet(fields[1..], st, sep);
    }
  }

  lemma {:induction false} ItemsAreQuiet(items: seq<Inline>, st: Scan, sep: char)
    requires forall x :: x in items ==> Writable(x, ",")
    requires st.quote.None? && st.depth >= 0 && (st.depth > 0 || sep == ',')
    ensures forall t :: t in ItemTexts(items) ==> Quiet(t, st, sep)
    decreases items, 2
  {
    if items != [] {
      WrittenIsQuiet(items[0], ",", st, sep);
      ItemsAreQuiet(items[1..], st, sep);
    }
  }

  lemma {:induction false} JoinedIsQuiet(texts: seq<string>, st: Scan, sep: char)
    requires forall t :: t in texts ==> Quiet(t, st, sep)
    requires st.quote.None? && st.depth > 0
    ensures Quiet(Joined(texts), st, sep)
    decreases |texts|
  {
    if |texts| == 1 {
      assert texts[0] in texts;
    } else if texts != [] {
      assert texts[0] in texts;
      InertIsQuiet(", ", st, sep);
      JoinedIsQuiet(texts[1..], st, sep);
      QuietConcat(texts[0], ", ", st, sep);
      QuietConcat(texts[0] + ", ", Joined(texts[1..]), st, sep);
    }
  }

  // ---- trimming ----

  lemma WrittenIsTrimmed(v: Inline, ban: string)
    requires Writable(v, ban)
    ensures IsTrimmed(Write(v))
  {
  }

  lemma TrimmedJoin(a: string, middle: string, b: string)
    requires IsTrimmed(a) && IsTrimmed(b)
    ensures IsTrimmed(a + middle + b)
  {
  }

  lemma TrimLeadingSpace(t: string)
    requires IsTrimmed(t)
    ensures TrimSpace(" " + t) == t && TrimSpace(t) == t
  {
    assert (" " + t)[1..] == t;
    TrimOfTrimmed(t);
  }

  // ---- reading back ----

  /** A quiet part followed by a comma is split off. */
  lemma SplitOff(part: string, rest: string)
    requires Quiet(part, START, ',')
    ensures TopLevel(part, ',') == [part]
    ensures TopLevel(part + "," + rest, ',') == [part] + TopLevel(rest, ',')
  {
    var s := part + "," + rest;
    assert s == part + ("," + rest);
    FindCutConcat(part, "," + rest, START, ',');
    assert Cuts(START, ',', ',') && ("," + rest)[0] == ',';
    assert s[..|part|] == part && s[|part| + 1..] == rest;
  }

  /** A plain key before the first colon is read as the key. */
  lemma KeyValueOf(key: string, ban: string, tail: string)
    requires IsPlain(key, ban) && ':' in ban
    ensures KeyValue(key + ":" + tail) == Some((key, TrimSpace(tail)))
  {
    var s := key + ":" + tail;
    InertIsQuiet(key, START, ':');
    assert s == key + (":" + tail);
    FindCutConcat(key, ":" + tail, START, ':');
    assert Cuts(START, ':', ':') && (":" + tail)[0] == ':';
    assert s[..|key|] == key && s[|key| + 1..] == tail;
    TrimLeadingSpace(key);
  }

  lemma KeyValueOfField(f: Field, ban: string, ban': string)
    requires IsPlain(f.key, ban) && ':' in ban && Writable(f.value, ban')
    ensures IsTrimmed(WriteField(f)) && KeyValue(WriteField(f)) == Some((f.key, Write(f.value)))
  {
    hide KeyValue, Writable;
    WrittenIsTrimmed(f.value, ban');
    TrimmedJoin(f.key, ": ", Write(f.value));
    KeyValueOf(f.key, ban, " " + Write(f.value));
    assert WriteField(f) == f.key + ":" + (" " + Write(f.value));
    TrimLeadingSpace(Write(f.value));
  }

  function Lead(n: nat): string {
    if n == 0 then "" else " "
  }

  // The parts a joined body splits into: all but the first behind a space.
  function Led(texts: seq<string>, n: nat): seq<string> {
    if texts == [] then [] else [Lead(n) + texts[0]] + Led(texts[1..], 1)
  }

  lemma SplitLed(n: nat, text: string, tail: string)
    requires Quiet(text, START, ',')
    ensures TopLevel(Lead(n) + text, ',') == [Lead(n) + text]
    ensures TopLevel(Lead(n) + (text + ", " + tail), ',') == [Lead(n) + text] + TopLevel(Lead(1) + tail, ',')
  {
    hide TopLevel, Quiet;
    InertIsQuiet(Lead(n), START, ',');
    QuietConcat(Lead(n), text, START, ',');
    SplitOff(Lead(n) + text, Lead(1) + tail);
    assert ", " == "," + Lead(1);
    hide Lead;
    assert Lead(n) + (text + ("," + Lead(1)) + tail) == Lead(n) + text + "," + (Lead(1) + tail);
  }

  lemma {:induction false} SplitJoined(texts: seq<string>, n: nat)
    requires texts != [] && forall t :: t in texts ==> Quiet(t, START, ',')
    ensures TopLevel(Lead(n) + Joined(texts), ',') == Led(texts, n)
    decreases |texts|
  {
    hide TopLevel, Quiet, Lead;
    assert texts[0] in texts;
    SplitLed(n, texts[0], Joined(texts[1..]));
    if |texts| == 1 {
      assert texts[1..] == [];
    } else {
      SplitJoined(texts[1..], 1);
    }
  }

  /** Inline round trip: what is written reads back as what it means. */
  lemma {:induction false} InlineRoundTrip(v: Inline, ban: string)
    requires Writable(v, ban)
    ensures ParseScalar(Write(v)) == Ok(Value(v))
    decreases v, 0
  {
    hide ParseScalar, MapParts, ListParts, TopLevel, Led, Quiet, Joined;
    match v
    case Plain(text) =>
      PlainReads(text, ban);
    case Quoted(mark, text) =>
      QuotedReads(mark, text);
    case IMap(fields) =>
      WrapReads(v, ban, '{', Joined(FieldTexts(fields)), '}');
      FieldsAreQuiet(fields, START, ',');
      SplitJoined(FieldTexts(fields), 0);
      ReadFields(fields, 0, map[]);
    case IList(items) =>
      WrapReads(v, ban, '[', Joined(ItemTexts(items)), ']');
      ItemsAreQuiet(items, START, ',');
      SplitJoined(ItemTexts(items), 0);
      ReadItems(items, 0, []);
      assert [] + ItemValues(items) == ItemValues(items);
  }

  lemma PlainReads(text: string, ban: string)
    requires IsPlain(text, ban)
    ensures ParseScalar(text) == Ok(Scalar(text))
  {
    TrimLeadingSpace(text);
    assert text[0] in text;
  }

  lemma QuotedReads(mark: char, text: string)
    requires IsQuote(mark)
    ensures ParseScalar([mark] + text + [mark]) == Ok(Scalar(text))
  {
    var t := [mark] + text + [mark];
    TrimLeadingSpace(t);
    assert Inner(t) == text;
  }

  // Brackets lead to the body between them.
  lemma WrapReads(v: Inline, ban: string, open: char, body: string, close: char)
    requires Writable(v, ban) && Write(v) == [open] + body + [close]
    ensures Lead(0) + body == body
    ensures (open, close) == ('{', '}') ==> ParseScalar(Write(v)) == MapParts(TopLevel(body, ','), map[])
    ensures (open, close) == ('[', ']') ==> ParseScalar(Write(v)) == ListParts(TopLevel(body, ','), [])
  {
    hide TopLevel, MapParts, ListParts;
    WrittenIsTrimmed(v, ban);
    TrimLeadingSpace(Write(v));
    assert Inner(Write(v)) == body;
  }

  lemma TrimLed(n: nat, t: string)
    requires IsTrimmed(t)
    ensures TrimSpace(Lead(n) + t) == t
  {
    TrimLeadingSpace(t);
    assert "" + t == t;
  }

  lemma {:induction false} ReadFields(fields: seq<Field>, n: nat, entries: map<string, Node>)
    requires forall f :: f in fields ==> IsKey(f.key) && Writable(f.value, ",")
    ensures MapParts(Led(FieldTexts(fields), n), entries) == Ok(Map(FieldValues(fields, entries)))
    decreases fields, 1
  {
    if fields != [] {
      hide Writable, IsPlain, WriteField, Lead, KeyValue, TrimSpace, ParseScalar;
      var f, texts := fields[0], FieldTexts(fields);
      KeyValueOfField(f, ",:", ",");
      TrimLed(n, WriteField(f));
      InlineRoundTrip(f.value, ",");
      assert texts[1..] == FieldTexts(fields[1..]);
      assert Led(texts, n)[0] == Lead(n) + WriteField(f) && Led(texts, n)[1..] == Led(texts[1..], 1);
      ReadFields(fields[1..], 1, entries[f.key := Value(f.value)]);
    }
  }

  lemma {:induction false} ReadItems(items: seq<Inline>, n: nat, before: seq<Node>)
    requires forall x :: x in items ==> Writable(x, ",")
    ensures ListParts(Led(ItemTexts(items), n), before) == Ok(List(before + ItemValues(items)))
    decreases items, 1
  {
    if items == [] {
      assert before + ItemValues(items) == before;
    } else {
      hide Writable, Write, Lead, TrimSpace, ParseScalar;
      var x, texts := items[0], ItemTexts(items);
      WrittenIsTrimmed(x, ",");
      TrimLed(n, Write(x));
      InlineRoundTrip(x, ",");
      assert texts[1..] == ItemTexts(items[1..]);
      assert Led(texts, n)[0] == Lead(n) + Write(x) && Led(texts, n)[1..] == Led(texts[1..], 1);
      ReadItems(items[1..], 1, before + [Value(x)]);
      assert before + [Value(x)] + ItemValues(items[1..]) == before + ItemValues(items);
    }
  }
}

// The character scanners of internal/config/yaml.go: comments, key: value pairs
// and comma lists, each aware of quotes and the last two of brackets.
module YamlScan {
  import opened Wrappers
  import opened Text

  // ---- quotes and brackets ----

  datatype Scan = Scan(depth: int, quote: Option<char>)

  const START := Scan(0, None)

  predicate IsQuote(c: char) {
    c == '"' || c == '\''
  }

  predicate IsOpen(c: char) {
    c == '{' || c == '['
  }

  predicate IsClose(c: char) {
    c == '}' || c == ']'
  }

  function Advance(st: Scan, c: char): Scan {
    if st.quote.Some? then if c == st.quote.value then st.(quote := None) else st
    else if IsQuote(c) then st.(quote := Some(c))
    else if IsOpen(c) then st.(depth := st.depth + 1)
    else if IsClose(c) then st.(depth := st.depth - 1)
    else st
  }

  function Run(st: Scan, s: string): Scan
    decreases |s|
  {
    if s == [] then st else Run(Advance(st, s[0]), s[1..])
  }

  // Outside quotes and at depth zero, which is the start state.
  predicate Cuts(st: Scan, c: char, sep: char) {
    st == START && c == sep && !IsQuote(c) && !IsOpen(c) && !IsClose(c)
  }

  function FindCut(s: string, st: Scan, sep: char): (r: Option<nat>)
    ensures r.Some? ==> r.value < |s|
  {
    if s == [] then None
    else if Cuts(st, s[0], sep) then Some(0)
    else Shift(FindCut(s[1..], Advance(st, s[0]), sep), 1)
  }

  function Shift(at: Option<nat>, k: nat): Option<nat> {
    if at.Some? then Some(at.value + k) else None
  }

  lemma {:induction false} RunConcat(st: Scan, a: string, b: string)
    ensures Run(st, a + b) == Run(Run(st, a), b)
    decreases |a|
  {
    if a == [] {
      assert a + b == b;
    } else {
      assert (a + b)[1..] == a[1..] + b;
      RunConcat(Advance(st, a[0]), a[1..], b);
    }
  }

  lemma {:induction false} FindCutConcat(a: string, b: string, st: Scan, sep: char)
    ensures FindCut(a + b, st, sep) ==
            if FindCut(a, st, sep).Some? then FindCut(a, st, sep) else Shift(FindCut(b, Run(st, a), sep), |a|)
  {
    if a == [] {
      assert a + b == b;
    } else {
      assert (a + b)[1..] == a[1..] + b;
      if !Cuts(st, a[0], sep) {
        FindCutConcat(a[1..], b, Advance(st, a[0]), sep);
      }
    }
  }

  /** The cut found is the first position at which the scan may cut. */
  lemma {:induction false} CutIsFirst(s: string, st: Scan, sep: char, i: nat)
    requires i < |s|
    ensures FindCut(s, st, sep) == Some(i) ==> Cuts(Run(st, s[..i]), s[i], sep)
    ensures Cuts(Run(st, s[..i]), s[i], sep) ==> FindCut(s, st, sep).Some? && FindCut(s, st, sep).value <= i
  {
    if i > 0 {
      assert s[..i][1..] == s[1..][..i - 1];
      CutIsFirst(s[1..], Advance(st, s[0]), sep, i - 1);
    }
  }

  // ---- splitTopLevel ----

  function TopLevel(s: string, sep: char): (parts: seq<string>)
    ensures |parts| > 0 && forall p :: p in parts ==> |p| <= |s|
    decreases |s|
  {
    match FindCut(s, START, sep)
    case None => [s]
    case Some(i) => [s[..i]] + TopLevel(s[i + 1..], sep)
  }

  function Glue(parts: seq<string>, sep: char): string
    requires |parts| > 0
  {
    if |parts| == 1 then parts[0] else parts[0] + [sep] + Glue(parts[1..], sep)
  }

  // Where the separators between the parts stand in the glued text.
  function Offsets(parts: seq<string>, from: nat): set<nat>
    requires |parts| > 0
  {
    if |parts| == 1 then {} else {from + |parts[0]|} + Offsets(parts[1..], from + |parts[0]| + 1)
  }

  lemma {:induction false} OffsetsShift(parts: seq<string>, from: nat, k: nat, i: nat)
    requires |parts| > 0
    ensures i + k in Offsets(parts, from + k) <==> i in Offsets(parts, from)
    ensures i in Offsets(parts, from) ==> i >= from
  {
    if |parts| > 1 {
      OffsetsShift(parts[1..], from + |parts[0]| + 1, k, i);
    }
  }

  // The scan state at a position behind the first cut is that of the rest.
  lemma RunBehindCut(s: string, sep: char, j: nat, i: nat)
    requires j < i < |s| && FindCut(s, START, sep) == Some(j)
    ensures Run(START, s[..i]) == Run(START, s[j + 1..][..i - j - 1])
  {
    CutIsFirst(s, START, sep, j);
    RunConcat(START, s[..j], [s[j]]);
    assert s[..j] + [s[j]] == s[..j + 1];
    RunConcat(START, s[..j + 1], s[j + 1..][..i - j - 1]);
    assert s[..j + 1] + s[j + 1..][..i - j - 1] == s[..i];
  }

  lemma PartsUnfold(first: string, rest: seq<string>, sep: char)
    requires |rest| > 0
    ensures var parts := [first] + rest;
            && parts[0] == first && parts[1..] == rest
            && Offsets(parts, 0) == {|first|} + Offsets(rest, |first| + 1)
            && Glue(parts, sep) == first + [sep] + Glue(rest, sep)
  {
    assert ([first] + rest)[1..] == rest;
  }

  lemma SplitUnfolds(s: string, sep: char, j: nat)
    requires FindCut(s, START, sep) == Some(j)
    ensures s == s[..j] + [sep] + s[j + 1..]
    ensures TopLevel(s, sep)[0] == s[..j] && TopLevel(s, sep)[1..] == TopLevel(s[j + 1..], sep)
    ensures Offsets(TopLevel(s, sep), 0) == {j} + Offsets(TopLevel(s[j + 1..], sep), j + 1)
    ensures Glue(TopLevel(s, sep), sep) == s[..j] + [sep] + Glue(TopLevel(s[j + 1..], sep), sep)
  {
    hide FindCut, Offsets, Glue, Run;
    CutIsFirst(s, START, sep, j);
    PartsUnfold(s[..j], TopLevel(s[j + 1..], sep), sep);
  }

  /** The parts joined by the separator are the text. */
  lemma {:induction false} GlueInvertsSplit(s: string, sep: char)
    ensures Glue(TopLevel(s, sep), sep) == s
    decreases |s|
  {
    match FindCut(s, START, sep)
    case None =>
    case Some(j) =>
      SplitUnfolds(s, sep, j);
      GlueInvertsSplit(s[j + 1..], sep);
  }

  predicate CutsAt(s: string, sep: char, i: nat) {
    i < |s| && Cuts(Run(START, s[..i]), s[i], sep)
  }

  lemma CutsBehind(s: string, sep: char, j: nat, i: nat)
    requires FindCut(s, START, sep) == Some(j) && i > j
    ensures CutsAt(s, sep, i) <==> CutsAt(s[j + 1..], sep, i - j - 1)
  {
    if i < |s| {
      RunBehindCut(s, sep, j, i);
    }
  }

  lemma CutsUpTo(s: string, sep: char, j: nat, i: nat)
    requires FindCut(s, START, sep) == Some(j) && i <= j
    ensures CutsAt(s, sep, i) <==> i == j
  {
    CutIsFirst(s, START, sep, i);
  }

  /** The separators cut at are exactly those outside quotes and at depth zero. */
  lemma {:induction false} SplitIsExact(s: string, sep: char, i: nat)
    ensures i in Offsets(TopLevel(s, sep), 0) <==> CutsAt(s, sep, i)
    decreases |s|
  {
    hide TopLevel, FindCut, Offsets, CutsAt;
    match FindCut(s, START, sep)
    case None =>
      SplitOfUncut(s, sep, i);
    case Some(j) =>
      SplitUnfolds(s, sep, j);
      var rest := TopLevel(s[j + 1..], sep);
      if i > j {
        SplitIsExact(s[j + 1..], sep, i - j - 1);
        OffsetsShift(rest, 0, j + 1, i - j - 1);
        CutsBehind(s, sep, j, i);
      } else {
        OffsetsShift(rest, j + 1, 0, i);
        CutsUpTo(s, sep, j, i);
      }
  }

  lemma SplitOfUncut(s: string, sep: char, i: nat)
    requires FindCut(s, START, sep).None?
    ensures i !in Offsets(TopLevel(s, sep), 0) && !CutsAt(s, sep, i)
  {
    if i < |s| {
      CutIsFirst(s, START, sep, i);
    }
  }

  // Scanning on from `i` in state `st` finds the first cut after `start`.
  ghost predicate Scanned(s: string, sep: char, start: nat, i: nat, st: Scan)
    requires start <= i <= |s|
  {
    FindCut(s[start..], START, sep) == Shift(FindCut(s[i..], st, sep), i - start)
  }

  lemma ScanOn(s: string, sep: char, start: nat, i: nat, st: Scan)
    requires start <= i < |s| && Scanned(s, sep, start, i, st)
    ensures Cuts(st, s[i], sep) ==> TopLevel(s[start..], sep) == [s[start..i]] + TopLevel(s[i + 1..], sep)
    ensures !Cuts(st, s[i], sep) ==> Scanned(s, sep, start, i + 1, Advance(st, s[i]))
  {
    assert s[i..][0] == s[i] && s[i..][1..] == s[i + 1..];
    if Cuts(st, s[i], sep) {
      hide FindCut;
      assert FindCut(s[start..], START, sep) == Some(i - start);
      assert s[start..][..i - start] == s[start..i] && s[start..][i - start + 1..] == s[i + 1..];
    }
  }

  lemma ScanEnds(s: string, sep: char, start: nat)
    requires start <= |s|
    ensures s[0..] == s && Scanned(s, sep, start, start, START)
    ensures forall st :: Scanned(s, sep, start, |s|, st) ==> TopLevel(s[start..], sep) == [s[start..]]
  {
  }

  method SplitTopLevel(s: string, sep: char) returns (parts: seq<string>)
    ensures parts == TopLevel(s, sep)
  {
    hide TopLevel, FindCut, Scanned;
    parts := [];
    var depth, quote, start := 0, None, 0;
    ScanEnds(s, sep, 0);
    for i := 0 to |s|
      invariant start <= i
      invariant parts + TopLevel(s[start..], sep) == TopLevel(s, sep)
      invariant Scanned(s, sep, start, i, Scan(depth, quote))
    {
      var c := s[i];
      ScanOn(s, sep, start, i, Scan(depth, quote));
      if quote.Some? {
        if c == quote.value {
          quote := None;
        }
        continue;
      }
      if IsQuote(c) {
        quote := Some(c);
      } else if IsOpen(c) {
        depth := depth + 1;
      } else if IsClose(c) {
        depth := depth - 1;
      } else if c == sep && depth == 0 {
        parts := parts + [s[start..i]];
        start := i + 1;
        ScanEnds(s, sep, start);
      }
    }
    ScanEnds(s, sep, start);
    parts := parts + [s[start..]];
  }

  // ---- splitKeyValue ----

  function KeyValue(s: string): (r: Option<(string, string)>)
    ensures r.Some? ==> |r.value.0| + |r.value.1| < |s|
  {
    match FindCut(s, START, ':')
    case None => None
    case Some(i) => Some((TrimSpace(s[..i]), TrimSpace(s[i + 1..])))
  }

  method SplitKeyValue(s: string) returns (r: Option<(string, string)>)
    ensures r == KeyValue(s)
  {
    var depth, quote := 0, None;
    for i := 0 to |s|
      invariant FindCut(s, START, ':') == Shift(FindCut(s[i..], Scan(depth, quote), ':'), i)
    {
      var c := s[i];
      assert s[i..][0] == c && s[i..][1..] == s[i + 1..];
      if quote.Some? {
        if c == quote.value {
          quote := None;
        }
        continue;
      }
      if IsQuote(c) {
        quote := Some(c);
      } else if IsOpen(c) {
        depth := depth + 1;
      } else if IsClose(c) {
        depth := depth - 1;
      } else if c == ':' && depth == 0 {
        return Some((TrimSpace(s[..i]), TrimSpace(s[i + 1..])));
      }
    }
    return None;
  }

  // ---- stripComment ----

  predicate IsBlank(c: char) {
    c == ' ' || c == '\t'
  }

  function Requote(quote: Option<char>, c: char): Option<char> {
    if quote.Some? then if c == quote.value then None else quote
    else if IsQuote(c) then Some(c) else None
  }

  // `blank` says that a comment may start here: at the start or after a blank.
  function FindComment(s: string, blank: bool, quote: Option<char>): (r: Option<nat>)
    ensures r.Some? ==> r.value < |s|
  {
    if s == [] then None
    else if quote.None? && s[0] == '#' && blank then Some(0)
    else Shift(FindComment(s[1..], IsBlank(s[0]), Requote(quote, s[0])), 1)
  }

  function Uncommented(line: string): (r: string)
    ensures r <= line
  {
    match FindComment(line, true, None)
    case None => line
    case Some(i) => line[..i]
  }

  method StripComment(line: string) returns (r: string)
    ensures r == Uncommented(line)
  {
    var quote := None;
    for i := 0 to |line|
      invariant FindComment(line, true, None) ==
                Shift(FindComment(line[i..], i == 0 || IsBlank(line[i - 1]), quote), i)
    {
      var c := line[i];
      assert line[i..][0] == c && line[i..][1..] == line[i + 1..];
      if quote.Some? {
        if c == quote.value {
          quote := None;
        }
        continue;
      }
      if IsQuote(c) {
        quote := Some(c);
        continue;
      }
      if c == '#' && (i == 0 || line[i - 1] == ' ' || line[i - 1] == '\t') {
        return line[..i];
      }
    }
    return line;
  }

  function Requotes(quote: Option<char>, s: string): Option<char>
    decreases |s|
  {
    if s == [] then quote else Requotes(Requote(quote, s[0]), s[1..])
  }

  /** The comment is cut at the first unquoted hash at the line's start or after a
      blank. */
  lemma {:induction false} CommentIsFirst(s: string, blank: bool, quote: Option<char>, i: nat)
    requires i < |s|
    ensures var starts := s[i] == '#' && Requotes(quote, s[..i]).None? && (if i == 0 then blank else IsBlank(s[i - 1]));
            && (FindComment(s, blank, quote) == Some(i) ==> starts)
            && (starts ==> FindComment(s, blank, quote).Some? && FindComment(s, blank, quote).value <= i)
  {
    if i > 0 {
      assert s[..i][1..] == s[1..][..i - 1];
      CommentIsFirst(s[1..], IsBlank(s[0]), Requote(quote, s[0]), i - 1);
    }
  }

  lemma {:induction false} FindCommentConcat(a: string, b: string, blank: bool, quote: Option<char>)
    ensures FindComment(a + b, blank, quote) ==
            if FindComment(a, blank, quote).Some? then FindComment(a, blank, quote)
            else Shift(FindComment(b, if a == [] then blank else IsBlank(a[|a| - 1]), Requotes(quote, a)), |a|)
    ensures Requotes(quote, a + b) == Requotes(Requotes(quote, a), b)
  {
    if a == [] {
      assert a + b == b;
    } else {
      assert (a + b)[1..] == a[1..] + b;
      FindCommentConcat(a[1..], b, IsBlank(a[0]), Requote(quote, a[0]));
    }
  }
}

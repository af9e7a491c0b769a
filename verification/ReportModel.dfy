// The monthly aggregation of internal/report/report.go over a log of daily files.
module ReportModel {
  import opened Wrappers
  import opened Sequences
  import opened Text

  datatype Entry = Entry(ts: string, userID: string, model: string, prompt: int, completion: int, total: int,
                         status: int, error: string, latency: int)

  // One line of a file; None is blank or does not parse.
  type Line = Option<Entry>

  // File contents by the day in the file name.
  type Files = map<string, seq<Line>>

  // ---- accumulators ----

  // `latencySum` stands for the average, which is it over `requests`.
  datatype Acc = Acc(requests: int, prompt: int, completion: int, total: int, errors: int,
                     latencySum: int, latencyMax: int)

  const ZERO := Acc(0, 0, 0, 0, 0, 0, 0)

  predicate IsError(e: Entry) {
    e.status >= 400 || e.error != ""
  }

  function Unit(e: Entry): Acc {
    Acc(1, e.prompt, e.completion, e.total, if IsError(e) then 1 else 0, e.latency, Max(0, e.latency))
  }

  function Plus(a: Acc, b: Acc): Acc {
    Acc(a.requests + b.requests, a.prompt + b.prompt, a.completion + b.completion, a.total + b.total,
        a.errors + b.errors, a.latencySum + b.latencySum, Max(a.latencyMax, b.latencyMax))
  }

  // ---- keys ----

  const NUL: char := '\0'

  function Join(user: string, model: string, day: string): string {
    user + [NUL] + model + [NUL] + day
  }

  // Around the first NUL.
  function Cut(s: string): (string, string) {
    if s == [] then ([], []) else if s[0] == NUL then ([], s[1..]) else
    var (head, tail) := Cut(s[1..]);
    ([s[0]] + head, tail)
  }

  // strings.SplitN(s, NUL, 3) on a string with at least two NULs.
  function SplitKey(s: string): (string, string, string) {
    var (user, rest) := Cut(s);
    var (model, day) := Cut(rest);
    (user, model, day)
  }

  lemma {:induction false} CutAtFirst(a: string, b: string)
    requires NUL !in a
    ensures Cut(a + [NUL] + b) == (a, b)
  {
    var s := a + [NUL] + b;
    if a == [] {
      assert s[1..] == b;
    } else {
      assert s[1..] == a[1..] + [NUL] + b;
      CutAtFirst(a[1..], b);
      assert a == [a[0]] + a[1..];
    }
  }

  lemma {:induction false} CutIsClean(s: string)
    ensures NUL !in Cut(s).0
  {
    if s != [] && s[0] != NUL {
      CutIsClean(s[1..]);
    }
  }

  /** A row names its user, model and day back exactly when neither the user nor the
      model contains the separator. */
  lemma SplitInvertsJoinExactlyWhen(user: string, model: string, day: string)
    ensures SplitKey(Join(user, model, day)) == (user, model, day) <==> NUL !in user && NUL !in model
  {
    CutIsClean(Join(user, model, day));
    if NUL !in user {
      assert Join(user, model, day) == user + [NUL] + (model + [NUL] + day);
      CutAtFirst(user, model + [NUL] + day);
      CutIsClean(model + [NUL] + day);
      if NUL !in model {
        CutAtFirst(model, day);
      }
    }
  }

  /** With separators inside, different users share a row. */
  lemma SeparatorsCollide()
    ensures Join("a\0b", "c", "d") == Join("a", "b\0c", "d")
  {
  }

  // ---- which entries count ----

  function TodayFrom(ts: string, today: string): string {
    if |ts| >= 10 then ts[..10] else today
  }

  // The month read off a file name; shorter names run into the suffix.
  function PathMonth(fileDay: string): string {
    var name := fileDay + ".jsonl";
    if |name| >= 7 then name[..7] else ""
  }

  datatype Keyed = Keyed(key: string, e: Entry)

  function Keep(fileDay: string, line: Line, today: string): seq<Keyed> {
    if line.None? then [] else
    var e := line.value;
    var day := TodayFrom(e.ts, today);
    if |day| > 7 && day[..7] != PathMonth(fileDay) then [] else [Keyed(Join(e.userID, e.model, day), e)]
  }

  function KeepAll(fileDay: string, lines: seq<Line>, today: string): seq<Keyed> {
    Flat(lines, line => Keep(fileDay, line, today))
  }

  function KeepFiles(files: Files, days: seq<string>, today: string): seq<Keyed> {
    Flat(days, d => KeepAll(d, Get(files, d, []), today))
  }

  // The files the glob requests-<month>-*.jsonl matches.
  predicate Matches(month: string, day: string) {
    month + "-" <= day
  }

  function Matching(files: Files, month: string): set<string> {
    set d | d in files && Matches(month, d)
  }

  // ---- accumulation ----

  function Bump(m: map<string, Acc>, x: Keyed): map<string, Acc> {
    m[x.key := Plus(Get(m, x.key, ZERO), Unit(x.e))]
  }

  function Tally(entries: seq<Keyed>): map<string, Acc> {
    if entries == [] then map[] else Bump(Tally(entries[..|entries| - 1]), entries[|entries| - 1])
  }

  function TallyOnto(m: map<string, Acc>, entries: seq<Keyed>): map<string, Acc> {
    if entries == [] then m else Bump(TallyOnto(m, entries[..|entries| - 1]), entries[|entries| - 1])
  }

  lemma {:induction false} TallyConcat(a: seq<Keyed>, b: seq<Keyed>)
    ensures TallyOnto(Tally(a), b) == Tally(a + b)
  {
    if b == [] {
      assert a + b == a;
    } else {
      TallyConcat(a, b[..|b| - 1]);
      assert (a + b)[..|a + b| - 1] == a + b[..|b| - 1];
    }
  }

  // ---- conservation ----

  /** The direct total of the entries with key `k`, or of all entries. */
  function Direct(entries: seq<Keyed>, k: Option<string>): Acc {
    if entries == [] then ZERO else
    var x := entries[|entries| - 1];
    var before := Direct(entries[..|entries| - 1], k);
    if k.None? || k.value == x.key then Plus(before, Unit(x.e)) else before
  }

  function SumOver(keys: seq<string>, m: map<string, Acc>): Acc {
    if keys == [] then ZERO else
    Plus(SumOver(keys[..|keys| - 1], m), Get(m, keys[|keys| - 1], ZERO))
  }

  /** Each entry is counted in exactly the row of its key. */
  lemma {:induction false} RowIsDirect(entries: seq<Keyed>, k: string)
    ensures Get(Tally(entries), k, ZERO) == Direct(entries, Some(k))
    ensures k in Tally(entries) <==> exists x :: x in entries && x.key == k
  {
    if entries != [] {
      var before, x := entries[..|entries| - 1], entries[|entries| - 1];
      RowIsDirect(before, k);
      assert entries == before + [x];
      if k == x.key {
        assert x in entries;
      } else if y :| y in entries && y.key == k {
        assert y in before;
      }
    }
  }

  lemma PlusSwaps(a: Acc, b: Acc, c: Acc)
    ensures Plus(Plus(a, b), c) == Plus(Plus(a, c), b) == Plus(a, Plus(c, b))
  {
  }

  lemma {:induction false} SumBump(keys: seq<string>, m: map<string, Acc>, x: Keyed)
    requires Distinct(keys)
    ensures SumOver(keys, Bump(m, x)) ==
            if x.key in keys then Plus(SumOver(keys, m), Unit(x.e)) else SumOver(keys, m)
  {
    if keys != [] {
      var before, last := keys[..|keys| - 1], keys[|keys| - 1];
      SumBump(before, m, x);
      assert keys == before + [last];
      assert Get(Bump(m, x), last, ZERO) ==
             if last == x.key then Plus(Get(m, last, ZERO), Unit(x.e)) else Get(m, last, ZERO);
      PlusSwaps(SumOver(before, m), Unit(x.e), Get(m, last, ZERO));
    }
  }

  lemma {:induction false} SumOfNothing(keys: seq<string>)
    ensures SumOver(keys, map[]) == ZERO
  {
    if keys != [] {
      SumOfNothing(keys[..|keys| - 1]);
    }
  }

  /** Summing the rows gives what summing the entries directly gives. */
  lemma {:induction false} RowsSumToEntries(entries: seq<Keyed>, keys: seq<string>)
    requires Distinct(keys) && forall x :: x in entries ==> x.key in keys
    ensures SumOver(keys, Tally(entries)) == Direct(entries, None)
  {
    if entries == [] {
      SumOfNothing(keys);
    } else {
      var before, x := entries[..|entries| - 1], entries[|entries| - 1];
      assert entries == before + [x];
      assert x in entries && forall y :: y in before ==> y in entries;
      RowsSumToEntries(before, keys);
      SumBump(keys, Tally(before), x);
    }
  }

  lemma {:induction false} DirectCounts(entries: seq<Keyed>)
    ensures Direct(entries, None).requests == |entries|
  {
    if entries != [] {
      DirectCounts(entries[..|entries| - 1]);
    }
  }

  // ---- order does not matter ----

  lemma BumpCommutes(m: map<string, Acc>, x: Keyed, y: Keyed)
    ensures Bump(Bump(m, x), y) == Bump(Bump(m, y), x)
  {
  }

  lemma {:induction false} TallyMove(entries: seq<Keyed>, i: nat)
    requires i < |entries|
    ensures Tally(entries) == Bump(Tally(Without(entries, i)), entries[i])
  {
    WithoutUnsnoc(entries, i);
    if i < |entries| - 1 {
      TallyMove(entries[..|entries| - 1], i);
      BumpCommutes(Tally(Without(entries[..|entries| - 1], i)), entries[i], entries[|entries| - 1]);
    }
  }

  lemma {:induction false} TallyPermutes(a: seq<Keyed>, b: seq<Keyed>)
    requires multiset(a) == multiset(b)
    ensures Tally(a) == Tally(b)
    decreases |a|
  {
    if a == [] {
      EmptyPermutation(b);
    } else {
      var i := FindLast(a, b);
      TallyPermutes(a[..|a| - 1], Without(b, i));
      TallyMove(b, i);
    }
  }

  /** Neither the order of the files nor the order of the lines within them matters. */
  lemma LogOrderIsImmaterial(files: Files, files': Files, days: seq<string>, days': seq<string>, today: string)
    requires multiset(days) == multiset(days')
    requires forall d :: d in days ==> multiset(Get(files, d, [])) == multiset(Get(files', d, []))
    ensures Tally(KeepFiles(files, days, today)) == Tally(KeepFiles(files', days', today))
  {
    var f := (d: string) => KeepAll(d, Get(files, d, []), today);
    var g := (d: string) => KeepAll(d, Get(files', d, []), today);
    forall d | d in days
      ensures multiset(f(d)) == multiset(g(d))
    {
      FlatPermutes(Get(files, d, []), Get(files', d, []), line => Keep(d, line, today));
    }
    FlatPointwise(days, f, g);
    FlatPermutes(days, days', g);
    TallyPermutes(KeepFiles(files, days, today), KeepFiles(files', days', today));
  }
}

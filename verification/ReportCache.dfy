// Appending, invalidating and querying, each a step of its own, in any order.
module ReportCache {
  import opened Wrappers
  import opened Sequences
  import opened ReportModel
  import opened ReportBuild

  // An entry in its file whose month is not invalidated yet; `before` is the log
  // without it. The logger's mutex spans both steps, so there is at most one.
  datatype Pending = Pending(e: Entry, before: Files)

  datatype Site = Site(files: Files, cache: map<string, Report>, pending: Option<Pending>)

  datatype Event =
    | Append(e: Entry)
    | Invalidate
    | Query(month: string, today: string)

  // The shape of YYYY-MM-DD: dashes at 4 and 7 and nowhere else.
  predicate IsDay(d: string) {
    |d| == 10 && forall i :: 0 <= i < 10 ==> (d[i] == '-' <==> i == 4 || i == 7)
  }

  predicate IsStamped(e: Entry) {
    |e.ts| >= 10 && IsDay(e.ts[..10])
  }

  function DayOf(e: Entry): string
    requires IsStamped(e)
  {
    e.ts[..10]
  }

  ghost predicate LogOk(files: Files) {
    forall d :: d in files ==> IsDay(d) && forall line :: line in files[d] ==> line.Some? ==> IsStamped(line.value)
  }

  function Appended(files: Files, e: Entry): Files
    requires IsStamped(e)
  {
    files[DayOf(e) := Get(files, DayOf(e), []) + [Some(e)]]
  }

  ghost predicate Enabled(s: Site, ev: Event) {
    match ev
    case Append(e) => s.pending.None? && IsStamped(e)
    case Invalidate => s.pending.Some? && IsStamped(s.pending.value.e)
    case Query(_, _) => true
  }

  ghost function Answer(s: Site, month: string, today: string): Report {
    if month in s.cache then s.cache[month] else Build(s.files, month, today)
  }

  ghost function Step(s: Site, ev: Event): Site
    requires Enabled(s, ev)
  {
    match ev
    case Append(e) => s.(files := Appended(s.files, e), pending := Some(Pending(e, s.files)))
    case Invalidate => s.(cache := s.cache - {DayOf(s.pending.value.e)[..7]}, pending := None)
    case Query(month, today) => s.(cache := s.cache[month := Answer(s, month, today)])
  }

  ghost predicate Runs(s: Site, events: seq<Event>)
    decreases |events|
  {
    events == [] || (Enabled(s, events[0]) && Runs(Step(s, events[0]), events[1..]))
  }

  ghost function After(s: Site, events: seq<Event>): Site
    requires Runs(s, events)
    decreases |events|
  {
    if events == [] then s else After(Step(s, events[0]), events[1..])
  }

  /** A stamped entry counts in a day's file exactly when it is of the file's month. */
  lemma KeptExactlyWhen(d: string, e: Entry, today: string)
    requires IsDay(d) && IsStamped(e)
    ensures Keep(d, Some(e), today) ==
            if DayOf(e)[..7] == d[..7] then [Keyed(Join(e.userID, e.model, DayOf(e)), e)] else []
  {
    assert (d + ".jsonl")[..7] == d[..7];
  }

  // ---- the reading day is immaterial ----

  lemma KeepIgnoresToday(d: string, line: Line, today: string, today': string)
    requires line.Some? ==> IsStamped(line.value)
    ensures Keep(d, line, today) == Keep(d, line, today')
  {
  }

  lemma {:induction false} KeepAllIgnoresToday(d: string, lines: seq<Line>, today: string, today': string)
    requires forall line :: line in lines ==> line.Some? ==> IsStamped(line.value)
    ensures KeepAll(d, lines, today) == KeepAll(d, lines, today')
  {
    if lines != [] {
      KeepAllIgnoresToday(d, lines[..|lines| - 1], today, today');
      KeepIgnoresToday(d, lines[|lines| - 1], today, today');
    }
  }

  /** Files that agree on `days` give the same entries, whatever the day of reading. */
  lemma {:induction false} KeepFilesAgree(files: Files, files': Files, days: seq<string>, today: string, today': string)
    requires forall d :: d in days ==> d in files && d in files' && files[d] == files'[d]
    requires LogOk(files)
    ensures KeepFiles(files, days, today) == KeepFiles(files', days, today')
  {
    if days != [] {
      var last := days[|days| - 1];
      assert last in days;
      KeepFilesAgree(files, files', days[..|days| - 1], today, today');
      KeepAllIgnoresToday(last, files[last], today, today');
    }
  }

  lemma SortedIn(keys: set<string>)
    ensures forall d :: d in Sorted(keys) <==> d in keys
  {
    assert forall d :: d in Sorted(keys) <==> d in Elements(Sorted(keys));
  }

  lemma BuildIgnoresToday(files: Files, month: string, today: string, today': string)
    requires LogOk(files)
    ensures Build(files, month, today) == Build(files, month, today')
  {
    SortedIn(Matching(files, month));
    KeepFilesAgree(files, files, Sorted(Matching(files, month)), today, today');
  }

  /** A file of another month does not show in the report. */
  lemma OtherMonthsAreUntouched(files: Files, month: string, e: Entry, today: string)
    requires LogOk(files) && IsStamped(e) && !Matches(month, DayOf(e))
    ensures Build(Appended(files, e), month, today) == Build(files, month, today)
  {
    assert Matching(Appended(files, e), month) == Matching(files, month);
    SortedIn(Matching(files, month));
    KeepFilesAgree(files, Appended(files, e), Sorted(Matching(files, month)), today, today);
  }

  /** The glob takes a day for a month name of seven letters, the day's month, or of
      four, its year: nothing else. */
  lemma MatchesMonthOrYear(month: string, d: string)
    requires IsDay(d)
    ensures Matches(month, d) <==> month == d[..7] || month == d[..4]
  {
    if Matches(month, d) {
      assert d[|month|] == (month + "-")[|month|];
      assert month == (month + "-")[..|month|] == d[..|month|];
    } else {
      assert d[..7] + "-" == d[..8];
      assert d[..4] + "-" == d[..5];
    }
  }

  // ---- coherence ----

  /** What a cached month may be: the report of the log, or of the log without the one
      entry that still waits for its invalidation. */
  ghost predicate Coherent(s: Site, month: string, today: string)
    requires month in s.cache
  {
    || s.cache[month] == Build(s.files, month, today)
    || (s.pending.Some? && s.cache[month] == Build(s.pending.value.before, month, today)
        && IsStamped(s.pending.value.e) && Matches(month, DayOf(s.pending.value.e)))
  }

  ghost predicate Inv(s: Site, today: string) {
    && LogOk(s.files)
    && (s.pending.Some? ==>
          var p := s.pending.value;
          LogOk(p.before) && IsStamped(p.e) && s.files == Appended(p.before, p.e))
    && forall m :: m in s.cache && |m| != 4 ==> Coherent(s, m, today)
  }

  lemma AppendedOk(files: Files, e: Entry)
    requires LogOk(files) && IsStamped(e)
    ensures LogOk(Appended(files, e))
  {
    var lines := Get(files, DayOf(e), []);
    forall line | line in lines + [Some(e)] && line.Some?
      ensures IsStamped(line.value)
    {
      assert line in lines || line == Some(e);
    }
  }

  lemma AppendKeepsInv(s: Site, e: Entry, today: string)
    requires Inv(s, today) && Enabled(s, Append(e))
    ensures Inv(Step(s, Append(e)), today)
  {
    var s' := Step(s, Append(e));
    AppendedOk(s.files, e);
    forall m | m in s'.cache && |m| != 4
      ensures Coherent(s', m, today)
    {
      assert Coherent(s, m, today);
      if !Matches(m, DayOf(e)) {
        OtherMonthsAreUntouched(s.files, m, e, today);
      }
    }
  }

  lemma InvalidateKeepsInv(s: Site, today: string)
    requires Inv(s, today) && Enabled(s, Invalidate)
    ensures Inv(Step(s, Invalidate), today)
  {
    var s' := Step(s, Invalidate);
    var d := DayOf(s.pending.value.e);
    forall m | m in s'.cache && |m| != 4
      ensures Coherent(s', m, today)
    {
      assert Coherent(s, m, today);
      MatchesMonthOrYear(m, d);
    }
  }

  lemma QueryKeepsInv(s: Site, month: string, day: string, today: string)
    requires Inv(s, today)
    ensures Inv(Step(s, Query(month, day)), today)
  {
    var s' := Step(s, Query(month, day));
    BuildIgnoresToday(s.files, month, day, today);
    forall m | m in s'.cache && |m| != 4
      ensures Coherent(s', m, today)
    {
      if m in s.cache {
        assert Coherent(s, m, today);
      }
    }
  }

  lemma {:induction false} RunKeepsInv(s: Site, events: seq<Event>, today: string)
    requires Inv(s, today) && Runs(s, events)
    ensures Inv(After(s, events), today)
    decreases |events|
  {
    if events != [] {
      match events[0] {
        case Append(e) => AppendKeepsInv(s, e, today);
        case Invalidate => InvalidateKeepsInv(s, today);
        case Query(month, day) => QueryKeepsInv(s, month, day, today);
      }
      RunKeepsInv(Step(s, events[0]), events[1..], today);
    }
  }

  /** Over every interleaving, from an empty cache: a month's answer is the report of
      the log, or lacks exactly the one entry not yet invalidated; with no write in
      progress it is the report of the log. */
  lemma AnswersAreCoherent(files: Files, events: seq<Event>, month: string, today: string)
    requires LogOk(files) && |month| != 4
    requires Runs(Site(files, map[], None), events)
    ensures var s := After(Site(files, map[], None), events);
            || Answer(s, month, today) == Build(s.files, month, today)
            || (s.pending.Some? && Answer(s, month, today) == Build(s.pending.value.before, month, today)
                && IsStamped(s.pending.value.e)
                && s.files == Appended(s.pending.value.before, s.pending.value.e))
  {
    RunKeepsInv(Site(files, map[], None), events, today);
    var s := After(Site(files, map[], None), events);
    if month in s.cache {
      assert Coherent(s, month, today);
    }
  }

  // ---- the year report ----

  lemma {:induction false} DistinctPermutation(a: seq<string>)
    requires Distinct(a)
    ensures multiset(a) == multiset(Elements(a))
  {
    if a != [] {
      DistinctPermutation(a[..|a| - 1]);
      ElementsUnsnoc(a);
    }
  }

  /** Sorting puts one key somewhere among the others. */
  lemma SortedWith(keys: set<string>, k: string)
    requires k in keys
    ensures multiset(Sorted(keys)) == multiset(Sorted(keys - {k}) + [k])
  {
    IncreasingIsDistinct(Sorted(keys));
    IncreasingIsDistinct(Sorted(keys - {k}));
    DistinctPermutation(Sorted(keys));
    DistinctPermutation(Sorted(keys - {k}));
    assert keys == (keys - {k}) + {k};
  }

  lemma CountedSplits(files: Files, month: string, d: string, today: string)
    requires Matches(month, d)
    ensures |Counted(files, month, today)| ==
            |KeepFiles(files, Sorted(Matching(files, month) - {d}), today)| + |KeepAll(d, Get(files, d, []), today)|
  {
    var keys := Matching(files, month);
    if d in keys {
      var f := (x: string) => KeepAll(x, Get(files, x, []), today);
      var split := Sorted(keys - {d}) + [d];
      SortedWith(keys, d);
      FlatPermutes(Sorted(keys), split, f);
      assert split[..|split| - 1] == Sorted(keys - {d});
      assert |multiset(Flat(Sorted(keys), f))| == |multiset(Flat(split, f))|;
    } else {
      assert keys - {d} == keys;
    }
  }

  /** An appended entry adds one request to every report whose glob takes its file. */
  lemma AppendCounts(files: Files, month: string, e: Entry, today: string)
    requires LogOk(files) && IsStamped(e) && Matches(month, DayOf(e))
    ensures Build(Appended(files, e), month, today).summary.requests ==
            Build(files, month, today).summary.requests + 1
  {
    hide Build, Counted, Keep;
    var d, files' := DayOf(e), Appended(files, e);
    CountedSplits(files, month, d, today);
    CountedSplits(files', month, d, today);
    assert Matching(files', month) - {d} == Matching(files, month) - {d};
    SortedIn(Matching(files, month) - {d});
    KeepFilesAgree(files, files', Sorted(Matching(files, month) - {d}), today, today);
    OneMoreKept(d, Get(files, d, []), e, today);
    RequestsAreCounted(files, month, today);
    RequestsAreCounted(files', month, today);
  }

  lemma OneMoreKept(d: string, lines: seq<Line>, e: Entry, today: string)
    requires IsStamped(e) && d == DayOf(e)
    ensures |KeepAll(d, lines + [Some(e)], today)| == |KeepAll(d, lines, today)| + 1
  {
    assert (lines + [Some(e)])[..|lines|] == lines;
    KeptExactlyWhen(d, e, today);
  }

  lemma RequestsAreCounted(files: Files, month: string, today: string)
    ensures Build(files, month, today).summary.requests == |Counted(files, month, today)|
  {
    hide Counted;
    ReportConserves(files, month, today);
  }

  /** The month parameter is not checked: a cached report survives a completed write
      unchanged and stale exactly when it is the report of the entry's year. */
  lemma StaleExactlyForTheYear(s: Site, month: string, e: Entry, today: string)
    requires Inv(s, today) && Enabled(s, Append(e))
    requires month in s.cache && s.cache[month] == Build(s.files, month, today)
    ensures var s' := Step(Step(s, Append(e)), Invalidate);
            month in s'.cache && s'.cache[month] != Build(s'.files, month, today) <==> month == DayOf(e)[..4]
  {
    var s' := Step(Step(s, Append(e)), Invalidate);
    MatchesMonthOrYear(month, DayOf(e));
    if month == DayOf(e)[..4] {
      AppendCounts(s.files, month, e, today);
    } else if month != DayOf(e)[..7] {
      OtherMonthsAreUntouched(s.files, month, e, today);
    }
  }

  /** From an empty cache: a year is asked for, an entry of that year is written and its
      month invalidated, and the year's report stays without it. */
  lemma YearReportGoesStale(e: Entry, today: string)
    requires IsStamped(e) && DayOf(e) == "2026-01-02"
    ensures var (start, events) := (Site(map[], map[], None), [Query("2026", today), Append(e), Invalidate]);
            && Runs(start, events)
            && var s := After(start, events);
               s.pending.None? && "2026" in s.cache && s.cache["2026"] != Build(s.files, "2026", today)
  {
    hide Build, Appended;
    var start := Site(map[], map[], None);
    var events := [Query("2026", today), Append(e), Invalidate];
    var asked := Step(start, Query("2026", today));
    QueryKeepsInv(start, "2026", today, today);
    StaleExactlyForTheYear(asked, "2026", e, today);
    var written := Step(asked, Append(e));
    assert events[1..] == [Append(e), Invalidate] && events[1..][1..] == [Invalidate] && events[1..][1..][1..] == [];
    assert Runs(written, [Invalidate]) && After(written, [Invalidate]) == Step(written, Invalidate);
    assert Runs(asked, events[1..]) && After(asked, events[1..]) == Step(written, Invalidate);
  }
}

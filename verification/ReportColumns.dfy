// What stands in the report's columns, entry by entry.
module ReportColumns {
  import opened Wrappers
  import opened Text
  import opened Sequences
  import opened ReportModel
  import opened ReportBuild

  // ---- which entries are behind a row ----

  /** The entries with key `k`, or all entries, in order. */
  function Behind(entries: seq<Keyed>, k: Option<string>): seq<Entry> {
    if entries == [] then [] else
    var x := entries[|entries| - 1];
    var before := Behind(entries[..|entries| - 1], k);
    if k.None? || k.value == x.key then before + [x.e] else before
  }

  lemma {:induction false} BehindHas(entries: seq<Keyed>, k: Option<string>, e: Entry)
    ensures e in Behind(entries, k) <==> exists x :: x in entries && x.e == e && (k.None? || k.value == x.key)
  {
    if entries != [] {
      var before, x := entries[..|entries| - 1], entries[|entries| - 1];
      BehindHas(before, k, e);
      assert entries == before + [x];
      if k.None? || k.value == x.key {
        assert e in Behind(entries, k) <==> e in Behind(before, k) || e == x.e;
      }
    }
  }

  function SumOf(entries: seq<Entry>, f: Entry -> int): int {
    if entries == [] then 0 else SumOf(entries[..|entries| - 1], f) + f(entries[|entries| - 1])
  }

  lemma SumOfSnoc(entries: seq<Entry>, e: Entry, f: Entry -> int)
    ensures SumOf(entries + [e], f) == SumOf(entries, f) + f(e)
  {
    assert (entries + [e])[..|entries|] == entries;
  }

  // ---- the columns ----

  /** Requests are counted, tokens and latencies added up, errors are the statuses from 400
      and the entries that carry an error text, and the greatest latency is that of some
      entry, or zero when none is above zero. */
  ghost predicate Columns(a: Acc, entries: seq<Entry>) {
    && a.requests == |entries|
    && a.prompt == SumOf(entries, (e: Entry) => e.prompt)
    && a.completion == SumOf(entries, (e: Entry) => e.completion)
    && a.total == SumOf(entries, (e: Entry) => e.total)
    && a.errors == SumOf(entries, (e: Entry) => if e.status >= 400 || e.error != "" then 1 else 0)
    && a.latencySum == SumOf(entries, (e: Entry) => e.latency)
    && a.latencyMax >= 0
    && (forall e :: e in entries ==> a.latencyMax >= e.latency)
    && (a.latencyMax == 0 || exists e :: e in entries && a.latencyMax == e.latency)
  }

  lemma UnitIsColumns(a: Acc, entries: seq<Entry>, e: Entry)
    requires Columns(a, entries)
    ensures Columns(Plus(a, Unit(e)), entries + [e])
  {
    SumOfSnoc(entries, e, (x: Entry) => x.prompt);
    SumOfSnoc(entries, e, (x: Entry) => x.completion);
    SumOfSnoc(entries, e, (x: Entry) => x.total);
    SumOfSnoc(entries, e, (x: Entry) => if x.status >= 400 || x.error != "" then 1 else 0);
    SumOfSnoc(entries, e, (x: Entry) => x.latency);
    if Plus(a, Unit(e)).latencyMax != 0 {
      if e.latency > a.latencyMax {
        assert e in entries + [e];
      } else {
        var m :| m in entries && a.latencyMax == m.latency;
        assert m in entries + [e];
      }
    }
  }

  lemma {:induction false} DirectIsColumns(entries: seq<Keyed>, k: Option<string>)
    ensures Columns(Direct(entries, k), Behind(entries, k))
  {
    if entries != [] {
      var before, x := entries[..|entries| - 1], entries[|entries| - 1];
      DirectIsColumns(before, k);
      if k.None? || k.value == x.key {
        UnitIsColumns(Direct(before, k), Behind(before, k), x.e);
      }
    }
  }

  // ---- the entries counted ----

  // The day an entry is booked on.
  function BookedOn(e: Entry, today: string): string {
    if |e.ts| >= 10 then e.ts[..10] else today
  }

  /** Line `i` of the file of day `d` holds the entry, the file is one the month's pattern
      takes, and the entry is not of a month other than the file's. */
  predicate StandsAt(files: Files, month: string, e: Entry, today: string, d: string, i: int) {
    && d in files && |month| < |d| && d[..|month|] == month && d[|month|] == '-'
    && 0 <= i < |files[d]| && files[d][i] == Some(e)
    && (|BookedOn(e, today)| <= 7 || (d + ".jsonl")[..7] == BookedOn(e, today)[..7])
  }

  lemma {:induction false} FlatHas<X, Y>(xs: seq<X>, f: X -> seq<Y>, y: Y)
    ensures y in Flat(xs, f) <==> exists i :: 0 <= i < |xs| && y in f(xs[i])
  {
    if xs != [] {
      var n := |xs| - 1;
      FlatHas(xs[..n], f, y);
      if i :| 0 <= i < |xs| && y in f(xs[i]) {
        if i < n {
          assert y in f(xs[..n][i]);
        }
      }
      if i :| 0 <= i < n && y in f(xs[..n][i]) {
        assert y in f(xs[i]);
      }
    }
  }

  lemma KeepHas(d: string, line: Line, today: string, x: Keyed)
    requires d != ""
    ensures x in Keep(d, line, today) <==>
            && line == Some(x.e) && x.key == Join(x.e.userID, x.e.model, BookedOn(x.e, today))
            && (|BookedOn(x.e, today)| <= 7 || (d + ".jsonl")[..7] == BookedOn(x.e, today)[..7])
  {
  }

  lemma MatchesIsPrefix(month: string, d: string)
    ensures Matches(month, d) <==> |month| < |d| && d[..|month|] == month && d[|month|] == '-'
  {
    if |month| < |d| {
      assert d[..|month| + 1] == d[..|month|] + [d[|month|]];
    }
  }

  lemma SortedHas(keys: set<string>, d: string)
    ensures d in Sorted(keys) <==> d in keys
  {
    assert d in Sorted(keys) <==> d in Elements(Sorted(keys));
  }

  // What one file contributes.
  lemma FileHas(files: Files, month: string, today: string, x: Keyed, d: string)
    requires d in Matching(files, month)
    ensures x in KeepAll(d, Get(files, d, []), today) <==>
            && x.key == Join(x.e.userID, x.e.model, BookedOn(x.e, today))
            && exists i :: StandsAt(files, month, x.e, today, d, i)
  {
    hide Keep, Join, BookedOn;
    MatchesIsPrefix(month, d);
    FlatHas(files[d], line => Keep(d, line, today), x);
    if x in KeepAll(d, files[d], today) {
      var i :| 0 <= i < |files[d]| && x in Keep(d, files[d][i], today);
      KeepHas(d, files[d][i], today, x);
      assert StandsAt(files, month, x.e, today, d, i);
    }
    if i :| StandsAt(files, month, x.e, today, d, i) {
      KeepHas(d, files[d][i], today, x);
    }
  }

  lemma FilesHave(files: Files, month: string, today: string, x: Keyed)
    ensures x in Counted(files, month, today) <==>
            exists d :: d in Matching(files, month) && x in KeepAll(d, Get(files, d, []), today)
  {
    hide KeepAll, Matching;
    var days := Sorted(Matching(files, month));
    FlatHas(days, d => KeepAll(d, Get(files, d, []), today), x);
    if x in Counted(files, month, today) {
      var n :| 0 <= n < |days| && x in KeepAll(days[n], Get(files, days[n], []), today);
      SortedHas(Matching(files, month), days[n]);
    }
    if d :| d in Matching(files, month) && x in KeepAll(d, Get(files, d, []), today) {
      SortedHas(Matching(files, month), d);
      var n :| 0 <= n < |days| && days[n] == d;
      assert x in KeepAll(days[n], Get(files, days[n], []), today);
    }
  }

  /** An entry is counted exactly when it stands on some line of such a file, and its row
      is named after its user, model and day. */
  lemma CountedExactlyWhen(files: Files, month: string, today: string, x: Keyed)
    ensures x in Counted(files, month, today) <==>
            && x.key == x.e.userID + "\0" + x.e.model + "\0" + BookedOn(x.e, today)
            && exists d, i :: StandsAt(files, month, x.e, today, d, i)
  {
    hide Counted, KeepAll, BookedOn;
    FilesHave(files, month, today, x);
    forall d | d in Matching(files, month)
      ensures x in KeepAll(d, Get(files, d, []), today) <==>
              && x.key == Join(x.e.userID, x.e.model, BookedOn(x.e, today))
              && exists i :: StandsAt(files, month, x.e, today, d, i)
    {
      FileHas(files, month, today, x, d);
    }
    forall d, i | StandsAt(files, month, x.e, today, d, i)
      ensures d in Matching(files, month)
    {
      MatchesIsPrefix(month, d);
    }
  }

  // ---- the report's columns ----

  /** Every column of the summary is that of all counted entries, and every column of a
      row that of the counted entries with the row's key. */
  lemma ReportColumnsAreSums(files: Files, month: string, today: string)
    ensures var (entries, r) := (Counted(files, month, today), Build(files, month, today));
            var keys := Sorted(Tally(entries).Keys);
            && Columns(r.summary, Behind(entries, None))
            && |r.rows| == |keys|
            && forall i :: 0 <= i < |keys| ==> Columns(r.rows[i].acc, Behind(entries, Some(keys[i])))
  {
    hide Columns, Counted, Direct, Behind;
    var entries := Counted(files, month, today);
    var keys := Sorted(Tally(entries).Keys);
    ReportConserves(files, month, today);
    DirectIsColumns(entries, None);
    forall i | 0 <= i < |keys|
      ensures Columns(Build(files, month, today).rows[i].acc, Behind(entries, Some(keys[i])))
    {
      DirectIsColumns(entries, Some(keys[i]));
    }
  }

  /** A row names the user, model and day of each entry behind it that holds no NUL. */
  lemma RowsNameTheirEntries(files: Files, month: string, today: string, x: Keyed, i: nat)
    requires x in Counted(files, month, today) && NUL !in x.e.userID && NUL !in x.e.model
    requires i < |Sorted(Tally(Counted(files, month, today)).Keys)| && x.key == Sorted(Tally(Counted(files, month, today)).Keys)[i]
    ensures i < |Build(files, month, today).rows|
    ensures var row := Build(files, month, today).rows[i];
            row.user == x.e.userID && row.model == x.e.model && row.day == (if |x.e.ts| >= 10 then x.e.ts[..10] else today)
  {
    hide Counted, Direct;
    ReportConserves(files, month, today);
    CountedExactlyWhen(files, month, today, x);
    assert x.key == Join(x.e.userID, x.e.model, BookedOn(x.e, today));
    SplitInvertsJoinExactlyWhen(x.e.userID, x.e.model, BookedOn(x.e, today));
  }

  /** Entries without NUL share a row exactly when user, model and day are the same. */
  lemma SameRowExactlyWhen(a: Entry, b: Entry, today: string)
    requires NUL !in a.userID && NUL !in a.model && NUL !in b.userID && NUL !in b.model
    ensures Join(a.userID, a.model, BookedOn(a, today)) == Join(b.userID, b.model, BookedOn(b, today)) <==>
            a.userID == b.userID && a.model == b.model && BookedOn(a, today) == BookedOn(b, today)
  {
    SplitInvertsJoinExactlyWhen(a.userID, a.model, BookedOn(a, today));
    SplitInvertsJoinExactlyWhen(b.userID, b.model, BookedOn(b, today));
  }
}

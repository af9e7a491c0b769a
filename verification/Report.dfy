// The monthly report: which entries it counts, its rows and summary, and the
// loops that build it.
module ReportBuild {
  import opened Wrappers
  import opened Text
  import opened Sequences
  import opened ReportModel

  // ---- sorted keys ----

  ghost predicate Increasing(s: seq<string>) {
    s == [] || (Increasing(s[..|s| - 1]) && Below(s[..|s| - 1], s[|s| - 1]))
  }

  ghost predicate Below(s: seq<string>, x: string) {
    forall y :: y in s ==> StrLess(y, x)
  }

  function Insert(s: seq<string>, x: string): seq<string> {
    if s == [] then [x] else
    var last := s[|s| - 1];
    if StrLess(last, x) then s + [x] else if last == x then s else Insert(s[..|s| - 1], x) + [last]
  }

  lemma ElementsSnoc(s: seq<string>, x: string)
    ensures Elements(s + [x]) == Elements(s) + {x}
  {
  }

  lemma NoElements(s: seq<string>)
    ensures s == [] <==> Elements(s) == {}
  {
    if s != [] {
      assert s[0] in Elements(s);
    }
  }

  lemma ElementsUnsnoc(s: seq<string>)
    requires s != []
    ensures s == s[..|s| - 1] + [s[|s| - 1]]
    ensures Elements(s) == Elements(s[..|s| - 1]) + {s[|s| - 1]}
  {
    ElementsSnoc(s[..|s| - 1], s[|s| - 1]);
    assert s == s[..|s| - 1] + [s[|s| - 1]];
  }

  lemma IncreasingSnoc(s: seq<string>, x: string)
    requires Increasing(s) && Below(s, x)
    ensures Increasing(s + [x])
  {
    assert (s + [x])[..|s|] == s;
  }

  lemma {:induction false} InsertKeepsIncreasing(s: seq<string>, x: string)
    requires Increasing(s)
    ensures Increasing(Insert(s, x)) && Elements(Insert(s, x)) == Elements(s) + {x}
  {
    if s == [] {
      assert Increasing([x]) by {
        assert [x][..0] == [];
      }
    } else {
      var before, last := s[..|s| - 1], s[|s| - 1];
      ElementsUnsnoc(s);
      StrLessTotal(last, x);
      if StrLess(last, x) {
        forall y | y in s
          ensures StrLess(y, x)
        {
          if y != last {
            assert y in before;
            StrLessTransitive(y, last, x);
          }
        }
        IncreasingSnoc(s, x);
        ElementsSnoc(s, x);
      } else if last != x {
        InsertKeepsIncreasing(before, x);
        var r := Insert(before, x);
        forall y | y in r
          ensures StrLess(y, last)
        {
          assert y in Elements(r);
          assert y == x || y in Elements(before);
        }
        IncreasingSnoc(r, last);
        ElementsSnoc(r, last);
      }
    }
  }

  lemma LastIsGreatest(s: seq<string>, x: string)
    requires Increasing(s) && s != [] && x in Elements(s)
    ensures x == s[|s| - 1] || StrLess(x, s[|s| - 1])
    ensures s[|s| - 1] in Elements(s) && s[|s| - 1] !in Elements(s[..|s| - 1])
  {
    var last := s[|s| - 1];
    ElementsUnsnoc(s);
    StrLessTotal(last, last);
  }

  lemma {:induction false} IncreasingIsUnique(a: seq<string>, b: seq<string>)
    requires Increasing(a) && Increasing(b) && Elements(a) == Elements(b)
    ensures a == b
    decreases |a|
  {
    NoElements(a);
    NoElements(b);
    if a != [] {
      hide Elements;
      var x, y := a[|a| - 1], b[|b| - 1];
      LastIsGreatest(a, x);
      LastIsGreatest(b, y);
      LastIsGreatest(a, y);
      LastIsGreatest(b, x);
      StrLessTotal(x, y);
      ElementsUnsnoc(a);
      ElementsUnsnoc(b);
      assert Elements(a[..|a| - 1]) == Elements(a) - {x};
      assert Elements(b[..|b| - 1]) == Elements(b) - {x};
      IncreasingIsUnique(a[..|a| - 1], b[..|b| - 1]);
    }
  }

  lemma {:induction false} IncreasingIsDistinct(s: seq<string>)
    requires Increasing(s)
    ensures Distinct(s)
  {
    if s != [] {
      IncreasingIsDistinct(s[..|s| - 1]);
      StrLessTotal(s[|s| - 1], s[|s| - 1]);
    }
  }

  ghost function Sorted(keys: set<string>): (s: seq<string>)
    ensures Increasing(s) && Elements(s) == keys
  {
    if keys == {} then [] else
    var x :| x in keys;
    InsertKeepsIncreasing(Sorted(keys - {x}), x);
    Insert(Sorted(keys - {x}), x)
  }

  method SortStrings(keys: seq<string>) returns (s: seq<string>)
    ensures s == Sorted(Elements(keys))
  {
    s := [];
    for i := 0 to |keys|
      invariant Increasing(s) && Elements(s) == Elements(keys[..i])
    {
      InsertKeepsIncreasing(s, keys[i]);
      ElementsSnoc(keys[..i], keys[i]);
      assert keys[..i + 1] == keys[..i] + [keys[i]];
      s := Insert(s, keys[i]);
    }
    assert keys[..|keys|] == keys;
    IncreasingIsUnique(s, Sorted(Elements(keys)));
  }

  // Go ranges over map keys in an arbitrary order.
  method Listed(keys: set<string>) returns (s: seq<string>)
    ensures Elements(s) == keys
  {
    s := [];
    var rest := keys;
    while rest != {}
      invariant rest <= keys && Elements(s) == keys - rest
      decreases rest
    {
      var k :| k in rest;
      ElementsSnoc(s, k);
      s := s + [k];
      rest := rest - {k};
    }
  }

  // ---- the report ----

  datatype Row = Row(user: string, model: string, day: string, acc: Acc)

  datatype Report = Report(month: string, summary: Acc, rows: seq<Row>)

  function RowOf(key: string, acc: Acc): Row {
    var (user, model, day) := SplitKey(key);
    Row(user, model, day, acc)
  }

  function Rows(keys: seq<string>, accs: map<string, Acc>): seq<Row> {
    if keys == [] then [] else
    var k := keys[|keys| - 1];
    Rows(keys[..|keys| - 1], accs) + [RowOf(k, Get(accs, k, ZERO))]
  }

  ghost function Counted(files: Files, month: string, today: string): seq<Keyed> {
    KeepFiles(files, Sorted(Matching(files, month)), today)
  }

  ghost function Build(files: Files, month: string, today: string): Report {
    var accs := Tally(Counted(files, month, today));
    var keys := Sorted(accs.Keys);
    Report(month, SumOver(keys, accs), Rows(keys, accs))
  }

  lemma {:induction false} RowsAt(keys: seq<string>, accs: map<string, Acc>, i: nat)
    requires i < |keys|
    ensures |Rows(keys, accs)| == |keys| && Rows(keys, accs)[i] == RowOf(keys[i], Get(accs, keys[i], ZERO))
  {
    if |keys| > 1 {
      RowsAt(keys[..|keys| - 1], accs, if i < |keys| - 1 then i else 0);
    }
  }

  /** Conservation: every counted entry is in exactly one row, the rows stand in
      increasing key order, and the summary is the direct total of the entries. */
  lemma ReportConserves(files: Files, month: string, today: string)
    ensures var (entries, r) := (Counted(files, month, today), Build(files, month, today));
            var keys := Sorted(Tally(entries).Keys);
            && r.summary == Direct(entries, None) && r.summary.requests == |entries|
            && Increasing(keys) && |r.rows| == |keys|
            && (forall k :: k in keys <==> exists x :: x in entries && x.key == k)
            && (forall i :: 0 <= i < |keys| ==> r.rows[i] == RowOf(keys[i], Direct(entries, Some(keys[i]))))
  {
    var entries := Counted(files, month, today);
    var keys := Sorted(Tally(entries).Keys);
    IncreasingIsDistinct(keys);
    forall k
      ensures k in keys <==> exists x :: x in entries && x.key == k
    {
      RowIsDirect(entries, k);
      assert k in keys <==> k in Elements(keys);
    }
    RowsSumToEntries(entries, keys);
    DirectCounts(entries);
    forall i | 0 <= i < |keys|
      ensures |Rows(keys, Tally(entries))| == |keys|
      ensures Rows(keys, Tally(entries))[i] == RowOf(keys[i], Direct(entries, Some(keys[i])))
    {
      RowsAt(keys, Tally(entries), i);
      RowIsDirect(entries, keys[i]);
    }
    assert keys == [] ==> Rows(keys, Tally(entries)) == [];
  }

  /** The report does not see the order of the lines within the files. */
  lemma ReportIgnoresLineOrder(files: Files, files': Files, month: string, today: string)
    requires files.Keys == files'.Keys
    requires forall d :: d in files ==> multiset(files[d]) == multiset(files'[d])
    ensures Build(files, month, today) == Build(files', month, today)
  {
    assert Matching(files, month) == Matching(files', month);
    var days := Sorted(Matching(files, month));
    LogOrderIsImmaterial(files, files', days, days, today);
  }

  /** Nor the order the files are read in. */
  lemma ReportIgnoresFileOrder(files: Files, month: string, days: seq<string>, today: string)
    requires multiset(days) == multiset(Sorted(Matching(files, month)))
    ensures var accs := Tally(KeepFiles(files, days, today));
            Build(files, month, today) == Report(month, SumOver(Sorted(accs.Keys), accs), Rows(Sorted(accs.Keys), accs))
  {
    LogOrderIsImmaterial(files, files, Sorted(Matching(files, month)), days, today);
  }

  // ---- building it ----

  lemma OneLineMore(m: map<string, Acc>, day: string, lines: seq<Line>, i: nat, today: string)
    requires i < |lines|
    ensures var (kept, before) := (Keep(day, lines[i], today), TallyOnto(m, KeepAll(day, lines[..i], today)));
            TallyOnto(m, KeepAll(day, lines[..i + 1], today)) == if kept == [] then before else Bump(before, kept[0])
  {
    var before, kept := KeepAll(day, lines[..i], today), Keep(day, lines[i], today);
    assert lines[..i + 1][..i] == lines[..i];
    assert KeepAll(day, lines[..i + 1], today) == before + kept;
    if kept == [] {
      assert before + kept == before;
    } else {
      assert (before + kept)[..|before|] == before;
    }
  }

  method AggregateFile(day: string, lines: seq<Line>, accs: map<string, Acc>, today: string)
    returns (accs': map<string, Acc>)
    ensures accs' == TallyOnto(accs, KeepAll(day, lines, today))
  {
    accs' := accs;
    NoLines(accs, day, lines, today);
    hide TallyOnto, KeepAll, PathMonth, Join;
    for i := 0 to |lines|
      invariant accs' == TallyOnto(accs, KeepAll(day, lines[..i], today))
    {
      OneLineMore(accs, day, lines, i, today);
      if lines[i].None? {
        continue;
      }
      var e := lines[i].value;
      var entryDay := TodayFrom(e.ts, today);
      if |entryDay| > 7 && entryDay[..7] != PathMonth(day) {
        continue;
      }
      var key := Join(e.userID, e.model, entryDay);
      accs' := accs'[key := Plus(Get(accs', key, ZERO), Unit(e))];
    }
    assert lines[..|lines|] == lines;
  }

  lemma NoLines(m: map<string, Acc>, day: string, lines: seq<Line>, today: string)
    ensures TallyOnto(m, KeepAll(day, lines[..0], today)) == m
  {
    assert lines[..0] == [];
  }

  method AggregateFiles(files: Files, days: seq<string>, today: string) returns (accs: map<string, Acc>)
    ensures accs == Tally(KeepFiles(files, days, today))
  {
    accs := map[];
    ghost var f := (d: string) => KeepAll(d, Get(files, d, []), today);
    for i := 0 to |days|
      invariant accs == Tally(Flat(days[..i], f))
    {
      assert days[..i + 1][..i] == days[..i];
      TallyConcat(Flat(days[..i], f), f(days[i]));
      accs := AggregateFile(days[i], Get(files, days[i], []), accs, today);
    }
    assert days[..|days|] == days;
  }

  method MakeRows(keys: seq<string>, accs: map<string, Acc>) returns (rows: seq<Row>, summary: Acc)
    ensures rows == Rows(keys, accs) && summary == SumOver(keys, accs)
  {
    rows, summary := [], ZERO;
    for i := 0 to |keys|
      invariant rows == Rows(keys[..i], accs) && summary == SumOver(keys[..i], accs)
    {
      assert keys[..i + 1][..i] == keys[..i];
      rows := rows + [RowOf(keys[i], Get(accs, keys[i], ZERO))];
      summary := Plus(summary, Get(accs, keys[i], ZERO));
    }
    assert keys[..|keys|] == keys;
  }

  method BuildReport(files: Files, month: string, today: string) returns (r: Report)
    ensures r == Build(files, month, today)
  {
    var matches := Listed(set d | d in files && Matches(month, d));
    var days := SortStrings(matches);
    assert days == Sorted(Matching(files, month));
    var accs := AggregateFiles(files, days, today);
    var listed := Listed(accs.Keys);
    var keys := SortStrings(listed);
    var rows, summary := MakeRows(keys, accs);
    return Report(month, summary, rows);
  }
}

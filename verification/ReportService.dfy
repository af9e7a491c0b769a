// internal/report/report.go: the report cache and the request logger.
module ReportService {
  import opened Wrappers
  import opened ReportModel
  import opened ReportBuild
  import opened ReportCache

  class Service {
    var cache: map<string, Report>

    constructor ()
      ensures cache == map[]
    {
      cache := map[];
    }

    method Invalidate(month: string)
      modifies this
      ensures cache == old(cache) - {month}
    {
      cache := cache - {month};
    }

    method Monthly(month: string, files: Files, today: string) returns (r: Report)
      modifies this
      ensures r == Answer(Site(files, old(cache), None), month, today)
      ensures Site(files, cache, None) == Step(Site(files, old(cache), None), Query(month, today))
    {
      if month in cache {
        assert cache[month := cache[month]] == cache;
        return cache[month];
      }
      r := BuildReport(files, month, today);
      cache := cache[month := r];
    }
  }

  class Logger {
    var files: Files
    var day: Option<string>  // of the open file
    const reports: Service

    constructor (files: Files, reports: Service)
      ensures this.files == files && this.reports == reports && day == None
    {
      this.files := files;
      this.reports := reports;
      day := None;
    }

    // The open file exists.
    predicate Valid()
      reads this
    {
      day.Some? ==> day.value in files
    }

    ghost function Site(): ReportCache.Site
      reads this, reports
    {
      ReportCache.Site(files, reports.cache, None)
    }

    method Open(d: string)
      requires Valid()
      modifies this
      ensures Valid() && day == Some(d)
      ensures files == old(files)[d := Get(old(files), d, [])]
    {
      if day == Some(d) {
        assert files[d := files[d]] == files;
        return;
      }
      files := files[d := Get(files, d, [])];
      day := Some(d);
    }

    /** Appends to the file of the entry's day, or of today when the entry's time is too
        short to name one, then drops that month's report: for a stamped entry the two
        steps in a row. */
    method Write(e: Entry, today: string)
      requires Valid() && |today| == 10
      modifies this, reports
      ensures Valid()
      ensures var d := TodayFrom(e.ts, today);
              && files == old(files)[d := Get(old(files), d, []) + [Some(e)]]
              && reports.cache == old(reports.cache) - {d[..7]}
      ensures IsStamped(e) ==> Site() == Step(Step(old(Site()), Append(e)), ReportCache.Invalidate)
    {
      var d := TodayFrom(e.ts, today);
      Open(d);
      files := files[d := Get(files, d, []) + [Some(e)]];
      reports.Invalidate(d[..7]);
    }
  }
}

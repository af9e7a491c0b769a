// The working-hour rule and limit defaults of internal/quota/quota.go.
module Quota {
  import opened Wrappers
  import opened Clock

  datatype WorkingHour = WorkingHour(start: int, end: int)

  // `zoneShift` is the offset of the configured zone against the process-local one.
  datatype Config = Config(workingHours: seq<WorkingHour>, zoneShift: int,
                           defaultHourly: int, defaultDaily: int)
  {
    // What config.validate accepts.
    predicate Valid() {
      && (forall wh :: wh in workingHours ==> 0 <= wh.start < wh.end <= 24)
      && defaultHourly > 0 && defaultDaily > 0
    }

    function LocalHour(t: Instant): int {
      ((t + zoneShift) % DAY) / HOUR
    }

    // Whether some configured range holds hour `h` of the day.
    predicate Works(h: int) {
      exists wh :: wh in workingHours && wh.start <= h < wh.end
    }

    predicate IsWorkingHour(t: Instant) {
      Works(LocalHour(t))
    }

    /** The zones differ by whole hours, or all hours of the day are alike. */
    predicate WholeWindows() {
      zoneShift % HOUR == 0 || forall h :: 0 <= h < 24 ==> Works(h) == Works(0)
    }

    function HourlyLimit(own: int): int {
      if own > 0 then own else defaultHourly
    }

    function DailyLimit(own: int): int {
      if own > 0 then own else defaultDaily
    }
  }

  method CheckWorkingHour(cfg: Config, t: Instant) returns (working: bool)
    ensures working == cfg.IsWorkingHour(t)
  {
    var hour := cfg.LocalHour(t);
    for i := 0 to |cfg.workingHours|
      invariant forall k :: 0 <= k < i ==> !(cfg.workingHours[k].start <= hour < cfg.workingHours[k].end)
    {
      var wh := cfg.workingHours[i];
      if hour >= wh.start && hour < wh.end {
        return true;
      }
    }
    return false;
  }

  /** Every hour window lies within working hours or outside them exactly when the
      zones differ by whole hours or all hours of the day are alike. */
  lemma WorkingHourIsPerWindowExactlyWhen(cfg: Config)
    ensures (forall t :: cfg.IsWorkingHour(t) == cfg.IsWorkingHour(HourStart(t))) <==> cfg.WholeWindows()
  {
    if cfg.WholeWindows() {
      forall t
        ensures cfg.IsWorkingHour(t) == cfg.IsWorkingHour(HourStart(t))
      {
        WorkingHourIsPerWindow(cfg, t);
      }
    } else {
      var t := SplitWindow(cfg);
    }
  }

  // An instant on the other side of the rule from its hour's start.
  lemma SplitWindow(cfg: Config) returns (t: Instant)
    requires !cfg.WholeWindows()
    ensures cfg.IsWorkingHour(t) != cfg.IsWorkingHour(HourStart(t))
  {
    var h := TurningHour(cfg);
    var s, r := cfg.zoneShift / HOUR, cfg.zoneShift % HOUR;
    var n := h - 1 - s;
    t := n * HOUR + (HOUR - r);
    RemainderHour(n, HOUR - r);
    assert HourStart(t) == n * HOUR;
    LocalHourOf(cfg, HourStart(t), n + s, r);
    LocalHourOf(cfg, t, n + s + 1, 0);
  }

  lemma LocalHourOf(cfg: Config, t: Instant, n: int, r: int)
    requires 0 <= r < HOUR && t + cfg.zoneShift == n * HOUR + r
    ensures cfg.LocalHour(t) == n % 24
  {
    HourOf(n, r);
  }

  // An hour that differs from the one before it.
  lemma TurningHour(cfg: Config) returns (h: int)
    requires exists h :: 0 <= h < 24 && cfg.Works(h) != cfg.Works(0)
    ensures 1 <= h < 24 && cfg.Works(h) != cfg.Works(h - 1)
  {
    h :| 0 <= h < 24 && cfg.Works(h) != cfg.Works(0);
    while cfg.Works(h) == cfg.Works(h - 1)
      invariant 1 <= h < 24 && cfg.Works(h) != cfg.Works(0)
      decreases h
    {
      h := h - 1;
    }
  }

  lemma WorkingHourIsPerWindow(cfg: Config, t: Instant)
    requires cfg.WholeWindows()
    ensures cfg.IsWorkingHour(t) == cfg.IsWorkingHour(HourStart(t))
  {
    var s := cfg.zoneShift / HOUR;
    var q, r := t / HOUR, t % HOUR;
    if cfg.zoneShift % HOUR == 0 {
      assert cfg.zoneShift == s * HOUR;
      assert t == q * HOUR + r && HourStart(t) == q * HOUR;
      HourOf(q + s, r);
      HourOf(q + s, 0);
      assert t + cfg.zoneShift == (q + s) * HOUR + r;
      assert HourStart(t) + cfg.zoneShift == (q + s) * HOUR + 0;
    } else {
      LocalHourInRange(cfg, t);
      LocalHourInRange(cfg, HourStart(t));
    }
  }

  lemma LocalHourInRange(cfg: Config, t: Instant)
    ensures 0 <= cfg.LocalHour(t) < 24
  {
  }

  lemma HourOf(n: int, r: int)
    requires 0 <= r < HOUR
    ensures ((n * HOUR + r) % DAY) / HOUR == n % 24
  {
    var d, h := n / 24, n % 24;
    assert n * HOUR + r == d * DAY + (h * HOUR + r);
    RemainderDay(d, h * HOUR + r);
    RemainderHour(h, r);
  }

  /** With zones half an hour apart one window can be partly working. */
  lemma HalfHourZoneSplitsAWindow()
    ensures var cfg := Config([WorkingHour(9, 12)], HOUR / 2, 1, 1);
            && cfg.Valid() && HourStart(8 * HOUR) == HourStart(8 * HOUR + HOUR / 2)
            && !cfg.IsWorkingHour(8 * HOUR) && cfg.IsWorkingHour(8 * HOUR + HOUR / 2)
  {
    var cfg := Config([WorkingHour(9, 12)], HOUR / 2, 1, 1);
    assert WorkingHour(9, 12) in cfg.workingHours;
  }

  /** A valid configuration never switches a limit off: a user's own limit counts when it
      is positive, else the default of the same window. */
  lemma LimitsArePositive(cfg: Config, own: int)
    requires cfg.Valid()
    ensures cfg.HourlyLimit(own) > 0 && cfg.DailyLimit(own) > 0
    ensures own > 0 ==> cfg.HourlyLimit(own) == own && cfg.DailyLimit(own) == own
    ensures own <= 0 ==> cfg.HourlyLimit(own) == cfg.defaultHourly && cfg.DailyLimit(own) == cfg.defaultDaily
  {
  }

  // Instant `t` lies in the range on day `d` of the configured zone.
  predicate Inside(cfg: Config, t: Instant, d: int, wh: WorkingHour) {
    d * DAY + wh.start * HOUR <= t + cfg.zoneShift < d * DAY + wh.end * HOUR
  }

  /** An instant is in working hours exactly when, on some day of the configured zone, it
      lies at or after the start of a range and before its end. */
  lemma WorkingHoursAreRanges(cfg: Config, t: Instant)
    requires cfg.Valid()
    ensures cfg.IsWorkingHour(t) <==> exists wh, d :: wh in cfg.workingHours && Inside(cfg, t, d, wh)
  {
    var d0 := (t + cfg.zoneShift) / DAY;
    if cfg.IsWorkingHour(t) {
      var wh :| wh in cfg.workingHours && wh.start <= cfg.LocalHour(t) < wh.end;
      InsideToday(cfg, t, wh);
      assert Inside(cfg, t, d0, wh);
    }
    if wh, d :| wh in cfg.workingHours && Inside(cfg, t, d, wh) {
      InsideOneDay(cfg, t, d, wh);
      InsideToday(cfg, t, wh);
      assert cfg.Works(cfg.LocalHour(t));
    }
  }

  lemma InsideToday(cfg: Config, t: Instant, wh: WorkingHour)
    ensures Inside(cfg, t, (t + cfg.zoneShift) / DAY, wh) <==> wh.start <= cfg.LocalHour(t) < wh.end
  {
    var local := t + cfg.zoneShift;
    var d, h := local / DAY, cfg.LocalHour(t);
    assert d * DAY + h * HOUR <= local < d * DAY + (h + 1) * HOUR;
  }

  lemma InsideOneDay(cfg: Config, t: Instant, d: int, wh: WorkingHour)
    requires 0 <= wh.start && wh.end <= 24 && Inside(cfg, t, d, wh)
    ensures d == (t + cfg.zoneShift) / DAY
  {
    RemainderDay(d, t + cfg.zoneShift - d * DAY);
  }
}

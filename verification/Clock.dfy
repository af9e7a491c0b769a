// Window arithmetic of internal/store/state.go: instants, the hour and day a
// counter belongs to, and the lazy reset of a counter whose window has passed.
module Clock {
  import opened Wrappers

  // Nanoseconds of civil time in the process-local zone, which is taken to have
  // a fixed offset.
  type Instant = int

  const HOUR: int := 3600 * 1_000_000_000
  const DAY: int := 24 * HOUR

  /** An hour is sixty minutes of sixty seconds, a day 24 hours, in nanoseconds. */
  lemma WindowLengths()
    ensures HOUR == 60 * 60 * 1_000_000_000 == 3_600_000_000_000 && DAY == 86_400_000_000_000
  {
  }

  function HourStart(t: Instant): Instant {
    t - t % HOUR
  }

  function DayStart(t: Instant): Instant {
    t - t % DAY
  }

  // `start` is None for Go's zero time.
  datatype WindowCounter = WindowCounter(start: Option<Instant>, value: int)

  datatype UserCounters = UserCounters(hour: WindowCounter, day: WindowCounter)

  const ZERO_COUNTER := WindowCounter(None, 0)
  const ZERO_COUNTERS := UserCounters(ZERO_COUNTER, ZERO_COUNTER)

  function EnsureWindow(c: WindowCounter, start: Instant): WindowCounter {
    if c.start != Some(start) then WindowCounter(Some(start), 0) else c
  }

  function WindowValue(c: WindowCounter, now: Instant): int {
    if c.start.Some? && c.start != Some(HourStart(now)) then 0 else c.value
  }

  function EnsureCounters(c: UserCounters, now: Instant): UserCounters {
    UserCounters(EnsureWindow(c.hour, HourStart(now)), EnsureWindow(c.day, DayStart(now)))
  }

  // A window opens at the start it is named after, and every instant of an hour
  // lies in the same day.
  lemma HourDeterminesDay(t: Instant)
    ensures HourStart(HourStart(t)) == HourStart(t)
    ensures DayStart(HourStart(t)) == DayStart(t)
    ensures HourStart(t) <= t < HourStart(t) + HOUR
    ensures DayStart(DayStart(t)) == DayStart(t) <= t < DayStart(t) + DAY
  {
    var d, r := t / DAY, t % DAY;
    var q := t / HOUR;
    assert t == d * DAY + r;
    var h := r / HOUR;
    assert 0 <= h < 24;
    assert t == (24 * d + h) * HOUR + r % HOUR;
    RemainderHour(24 * d + h, r % HOUR);
    assert HourStart(t) == (24 * d + h) * HOUR == d * DAY + h * HOUR;
    RemainderHour(24 * d + h, 0);
    RemainderDay(d, h * HOUR);
    RemainderDay(d, 0);
  }

  lemma RemainderHour(q: int, r: int)
    requires 0 <= r < HOUR
    ensures (q * HOUR + r) % HOUR == r && (q * HOUR + r) / HOUR == q
  {
  }

  lemma RemainderDay(q: int, r: int)
    requires 0 <= r < DAY
    ensures (q * DAY + r) % DAY == r && (q * DAY + r) / DAY == q
  {
  }

  lemma SameHourSameDay(t: Instant, u: Instant)
    requires HourStart(t) == HourStart(u)
    ensures DayStart(t) == DayStart(u)
  {
    HourDeterminesDay(t);
    HourDeterminesDay(u);
  }

  lemma HourStartMonotone(t: Instant, u: Instant)
    requires t <= u
    ensures HourStart(t) <= HourStart(u)
  {
    assert t == (t / HOUR) * HOUR + t % HOUR;
    assert u == (u / HOUR) * HOUR + u % HOUR;
  }

  lemma DayStartMonotone(t: Instant, u: Instant)
    requires t <= u
    ensures DayStart(t) <= DayStart(u)
  {
    assert t == (t / DAY) * DAY + t % DAY;
    assert u == (u / DAY) * DAY + u % DAY;
  }

  /** The routing read never writes, the counting read resets; they show the same
      value exactly when a counter that was never opened holds nothing. */
  lemma ReadsAgree(c: WindowCounter, now: Instant)
    ensures WindowValue(c, now) == EnsureWindow(c, HourStart(now)).value <==> (c.start.None? ==> c.value == 0)
  {
  }
}

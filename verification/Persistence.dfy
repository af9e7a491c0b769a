// What the state file holds compared with memory: lazy resets are written to
// memory without marking the store dirty, so the two agree only as read.
module Persistence {
  import opened Wrappers
  import opened Clock
  import opened StoreModel

  // In-flight counts are not persisted.
  function Image(st: State): State {
    st.(inFlight := map[])
  }

  /** `c` is `d` after zero or more resets into later windows. */
  ghost predicate Rolled(c: WindowCounter, d: WindowCounter) {
    || c == d
    || (c.value == 0 && c.start.Some? && (d.start.Some? ==> d.start.value < c.start.value))
  }

  ghost predicate NotAfter(c: WindowCounter, clock: Instant) {
    c.start.Some? ==> c.start.value <= clock
  }

  ghost predicate PastWindows(st: State, clock: Instant) {
    && (forall u :: u in st.counters ==>
          NotAfter(st.counters[u].hour, clock) && NotAfter(st.counters[u].day, clock))
    && (forall k :: k in st.keyHours ==> NotAfter(st.keyHours[k], clock))
  }

  ghost predicate Agrees(mem: State, disk: State) {
    && mem.users == disk.users && mem.keys == disk.keys
    && (forall u :: Rolled(mem.Counters(u).hour, disk.Counters(u).hour)
                    && Rolled(mem.Counters(u).day, disk.Counters(u).day))
    && (forall k :: Rolled(mem.KeyHour(k), disk.KeyHour(k)))
  }

  /** Agreement as every later read sees it. */
  lemma AgreeingStatesReadTheSame(mem: State, disk: State, clock: Instant, now: Instant)
    requires Agrees(mem, disk) && mem.Valid() && PastWindows(mem, clock) && clock <= now
    ensures forall u :: mem.CountersAt(u, now) == disk.CountersAt(u, now)
    ensures forall k :: mem.KeyHourAt(k, now) == disk.KeyHourAt(k, now)
  {
    forall u
      ensures mem.CountersAt(u, now) == disk.CountersAt(u, now)
    {
      var c := mem.Counters(u);
      assert UserCounterOk(c) && NotAfter(c.hour, clock) && NotAfter(c.day, clock);
      if c.hour.start.Some? {
        HourStartMonotone(c.hour.start.value, now);
        DayStartMonotone(c.hour.start.value, now);
      }
    }
    forall k
      ensures mem.KeyHourAt(k, now) == disk.KeyHourAt(k, now)
    {
      var c := mem.KeyHour(k);
      assert KeyCounterOk(c) && NotAfter(c, clock);
      if c.start.Some? {
        HourStartMonotone(c.start.value, now);
      }
    }
  }

  lemma TouchUserAgrees(mem: State, disk: State, user: string, clock: Instant, now: Instant)
    requires Agrees(mem, disk) && mem.Valid() && PastWindows(mem, clock) && clock <= now
    ensures Agrees(mem.TouchUser(user, now), disk)
  {
    var c, after := mem.Counters(user), mem.TouchUser(user, now);
    assert UserCounterOk(c) && NotAfter(c.hour, clock) && NotAfter(c.day, clock);
    if c.hour.start.Some? {
      HourStartMonotone(c.hour.start.value, now);
      DayStartMonotone(c.hour.start.value, now);
    }
    forall u
      ensures Rolled(after.Counters(u).hour, disk.Counters(u).hour)
      ensures Rolled(after.Counters(u).day, disk.Counters(u).day)
    {
      assert u != user ==> after.Counters(u) == mem.Counters(u);
    }
    assert forall k :: after.KeyHour(k) == mem.KeyHour(k);
  }

  lemma TouchKeyAgrees(mem: State, disk: State, key: string, clock: Instant, now: Instant)
    requires Agrees(mem, disk) && mem.Valid() && PastWindows(mem, clock) && clock <= now
    ensures Agrees(mem.TouchKey(key, now), disk)
  {
    var c, after := mem.KeyHour(key), mem.TouchKey(key, now);
    assert KeyCounterOk(c) && NotAfter(c, clock);
    if c.start.Some? {
      HourStartMonotone(c.start.value, now);
    }
    forall k
      ensures Rolled(after.KeyHour(k), disk.KeyHour(k))
    {
      assert k != key ==> after.KeyHour(k) == mem.KeyHour(k);
    }
    assert forall u :: after.Counters(u) == mem.Counters(u);
  }

  /** The store's invariant: reachable counters, no window opened later than the
      clock, a clean store agreeing with its file, and a dirty one waiting for its
      timer unless the last flush failed. */
  ghost predicate Sound(st: State, disk: State, dirty: bool, timer: bool, flushFailed: bool, clock: Instant) {
    && st.Valid()
    && PastWindows(st, clock)
    && (!dirty ==> Agrees(st, disk))
    && (dirty ==> timer || flushFailed)
  }

  lemma DeletionKeepsSound(st: State, user: string, disk: State, dirty: bool, timer: bool, failed: bool, clock: Instant)
    requires Sound(st, disk, dirty, timer, failed, clock)
    ensures Sound(st.DeleteUser(user), disk, true, true, failed, clock)
  {
    hide Rolled, UserCounterOk, KeyCounterOk, NotAfter;
  }

  lemma SoundIsValid(st: State, disk: State, dirty: bool, timer: bool, failed: bool, clock: Instant)
    requires Sound(st, disk, dirty, timer, failed, clock)
    ensures st.Valid()
  {
  }

  ghost predicate UserPast(c: UserCounters, clock: Instant) {
    NotAfter(c.hour, clock) && NotAfter(c.day, clock)
  }

  /** Writing a user's counters and marking the store dirty keeps it sound. */
  lemma UserWriteKeepsSound(st: State, user: string, c: UserCounters, disk: State,
                            dirty: bool, timer: bool, failed: bool, clock: Instant, clock': Instant)
    requires Sound(st, disk, dirty, timer, failed, clock) && clock <= clock'
    requires UserCounterOk(c) && UserPast(c, clock')
    ensures Sound(st.WithCounters(user, c), disk, true, true, failed, clock')
  {
  }

  lemma KeyWriteKeepsSound(st: State, key: string, c: WindowCounter, flying: map<string, nat>, disk: State,
                           dirty: bool, timer: bool, failed: bool, clock: Instant, clock': Instant)
    requires Sound(st, disk, dirty, timer, failed, clock) && clock <= clock'
    requires KeyCounterOk(c) && NotAfter(c, clock')
    ensures Sound(st.WithKeyHour(key, c).(inFlight := flying), disk, true, true, failed, clock')
  {
  }

  // Counters read at `now` and moved by `delta` may be written back.
  lemma MovedCountersPast(st: State, user: string, delta: int, now: Instant)
    requires st.Valid()
    ensures var hc := st.CountersAt(user, now);
            var moved := UserCounters(Clamped(hc.hour, delta), Clamped(hc.day, delta));
            && UserCounterOk(hc) && UserCounterOk(moved) && UserPast(moved, now)
            && (delta >= 0 ==> moved == AddToUser(hc, delta))
            && st.TouchUser(user, now).WithCounters(user, moved) == st.WithCounters(user, moved)
  {
    CountersAtOk(st, user, now);
    var hc := st.CountersAt(user, now);
    LastWriteWins(st, user, "", hc, UserCounters(Clamped(hc.hour, delta), Clamped(hc.day, delta)), ZERO_COUNTER, ZERO_COUNTER);
  }

  lemma MovedKeyPast(st: State, key: string, delta: int, now: Instant)
    requires st.Valid()
    ensures var c := st.KeyHourAt(key, now);
            && KeyCounterOk(c) && KeyCounterOk(Clamped(c, delta)) && NotAfter(Clamped(c, delta), now)
            && (delta >= 0 ==> Clamped(c, delta) == c.(value := c.value + delta))
            && st.TouchKey(key, now).WithKeyHour(key, Clamped(c, delta)) == st.WithKeyHour(key, Clamped(c, delta))
  {
    KeyHourAtOk(st, key, now);
    var c := st.KeyHourAt(key, now);
    LastWriteWins(st, "", key, ZERO_COUNTERS, ZERO_COUNTERS, c, Clamped(c, delta));
  }

  /** A lazy reset leaves the dirty flag alone and keeps the store sound. */
  lemma TouchUserKeepsSound(st: State, user: string, disk: State, dirty: bool, timer: bool, failed: bool,
                            clock: Instant, now: Instant)
    requires Sound(st, disk, dirty, timer, failed, clock) && clock <= now
    ensures Sound(st.TouchUser(user, now), disk, dirty, timer, failed, now)
  {
    CountersAtOk(st, user, now);
    UserWriteKeepsSound(st, user, st.CountersAt(user, now), disk, dirty, timer, failed, clock, now);
    if !dirty {
      TouchUserAgrees(st, disk, user, clock, now);
    }
  }

  lemma TouchKeyKeepsSound(st: State, key: string, disk: State, dirty: bool, timer: bool, failed: bool,
                           clock: Instant, now: Instant)
    requires Sound(st, disk, dirty, timer, failed, clock) && clock <= now
    ensures Sound(st.TouchKey(key, now), disk, dirty, timer, failed, now)
  {
    KeyHourAtOk(st, key, now);
    KeyWriteKeepsSound(st, key, st.KeyHourAt(key, now), st.inFlight, disk, dirty, timer, failed, clock, now);
    if !dirty {
      TouchKeyAgrees(st, disk, key, clock, now);
    }
  }
}

// The Store of internal/store/state.go: one object whose methods are the
// critical sections under its mutex, with the dirty flag, the debounce timer and
// the state file.
module StoreClass {
  import opened Wrappers
  import opened Clock
  import opened StoreModel
  import opened Persistence
  import opened Router

  class Store {
    var users: map<string, User>
    var upstreamKeys: map<string, UpstreamKey>
    var counters: map<string, UserCounters>
    var keyHours: map<string, WindowCounter>
    var inFlight: map<string, nat>
    var dirty: bool
    var timer: bool
    var disk: State

    ghost var clock: Instant     // latest reading any section has seen
    ghost var flushFailed: bool  // the last flush that had work to do failed

    function View(): State
      reads this
    {
      State(users, upstreamKeys, counters, keyHours, inFlight)
    }

    ghost predicate Valid()
      reads this
    {
      Sound(View(), disk, dirty, timer, flushFailed, clock)
    }

    /** Starts from the state file, whatever it holds, or from the empty state when
        there is none. Only the content of the file decides whether the store is sound. */
    constructor (file: Option<State>, ghost now: Instant)
      ensures Valid() <==> (file.Some? ==> file.value.Valid() && PastWindows(file.value, now))
      ensures clock == now && !dirty && !timer
      ensures View() == Image(disk) && disk == (if file.Some? then file.value else FRESH)
      ensures users == disk.users && upstreamKeys == disk.keys && counters == disk.counters && keyHours == disk.keyHours
      ensures forall k :: View().Flying(k) == 0
    {
      var st := if file.Some? then file.value else FRESH;
      users, upstreamKeys, counters, keyHours := st.users, st.keys, st.counters, st.keyHours;
      inFlight := map[];
      dirty, timer, disk := false, false, st;
      clock, flushFailed := now, false;
    }

    /** After a restart, and at any time the store is not dirty, the file and
        memory give the same answers: only in-flight counts differ. */
    lemma CleanStoreMatchesFile(now: Instant)
      requires Valid() && !dirty && clock <= now
      ensures forall u :: View().CountersAt(u, now) == disk.CountersAt(u, now)
      ensures forall k :: View().KeyHourAt(k, now) == disk.KeyHourAt(k, now)
      ensures View().users == disk.users && View().keys == disk.keys
    {
      AgreeingStatesReadTheSame(View(), disk, clock, now);
    }

    // ---- persistence ----

    method MarkDirty()
      modifies this`dirty, this`timer
      ensures dirty && timer
    {
      dirty := true;
      timer := true;
    }

    /** Writes the file when dirty. `written` says whether the file system call
        succeeds; a failed flush leaves the store dirty with no timer. */
    method Flush(written: bool) returns (ok: bool)
      requires Valid()
      modifies this`dirty, this`timer, this`disk, this`flushFailed
      ensures Valid() && !timer
      ensures ok == (!old(dirty) || written) && dirty == !ok
      ensures disk == if old(dirty) && written then Image(View()) else old(disk)
      ensures View() == old(View())
      ensures old(dirty) && written ==>
                && disk.users == users && disk.keys == upstreamKeys && disk.counters == counters && disk.keyHours == keyHours
                && disk.inFlight == map[]
    {
      timer := false;
      if !dirty {
        return true;
      }
      if !written {
        flushFailed := true;
        return false;
      }
      disk := Image(View());
      dirty := false;
      flushFailed := false;
      assert forall u :: View().Counters(u) == disk.Counters(u);
      assert forall k :: View().KeyHour(k) == disk.KeyHour(k);
      return true;
    }

    // ---- counters ----

    method CountersLocked(user: string, now: Instant) returns (hc: UserCounters)
      modifies this`counters
      ensures View() == old(View()).TouchUser(user, now) && hc == old(View()).CountersAt(user, now)
    {
      hc := Get(counters, user, ZERO_COUNTERS);
      hc := UserCounters(EnsureWindow(hc.hour, HourStart(now)), EnsureWindow(hc.day, DayStart(now)));
      counters := counters[user := hc];
    }

    method KeyHourLocked(key: string, now: Instant) returns (c: WindowCounter)
      modifies this`keyHours
      ensures View() == old(View()).TouchKey(key, now) && c == old(View()).KeyHourAt(key, now)
    {
      c := EnsureWindow(Get(keyHours, key, ZERO_COUNTER), HourStart(now));
      keyHours := keyHours[key := c];
    }

    method ReadUser(user: string, now: Instant) returns (hc: UserCounters)
      requires Valid() && clock <= now
      modifies this`counters, this`clock
      ensures Valid() && clock == now
      ensures View() == old(View()).TouchUser(user, now) && hc == View().Counters(user)
    {
      TouchUserKeepsSound(View(), user, disk, dirty, timer, flushFailed, clock, now);
      hc := CountersLocked(user, now);
      clock := now;
    }

    method ReadKeyHour(key: string, now: Instant) returns (c: WindowCounter)
      requires Valid() && clock <= now
      modifies this`keyHours, this`clock
      ensures Valid() && clock == now
      ensures View() == old(View()).TouchKey(key, now) && c == View().KeyHour(key)
    {
      TouchKeyKeepsSound(View(), key, disk, dirty, timer, flushFailed, clock, now);
      c := KeyHourLocked(key, now);
      clock := now;
    }

    method GetUser(user: string) returns (u: Option<User>)
      ensures u == if user in users then Some(users[user]) else None
    {
      u := if user in users then Some(users[user]) else None;
    }

    // The closing writes of a section: store the counters and mark dirty.
    method WriteUser(user: string, hc: UserCounters, ghost before: State, ghost now: Instant)
      requires Sound(before, disk, dirty, timer, flushFailed, clock) && clock <= now
      requires UserCounterOk(hc) && UserPast(hc, now)
      requires View().WithCounters(user, hc) == before.WithCounters(user, hc)
      modifies this`counters, this`dirty, this`timer, this`clock
      ensures Valid() && clock == now && dirty && View() == before.WithCounters(user, hc)
    {
      UserWriteKeepsSound(before, user, hc, disk, dirty, timer, flushFailed, clock, now);
      counters := counters[user := hc];
      clock := now;
      MarkDirty();
    }

    method WriteKey(key: string, c: WindowCounter, flying: map<string, nat>, ghost before: State, ghost now: Instant)
      requires Sound(before, disk, dirty, timer, flushFailed, clock) && clock <= now
      requires KeyCounterOk(c) && NotAfter(c, now)
      requires View().WithKeyHour(key, c) == before.WithKeyHour(key, c)
      modifies this`keyHours, this`inFlight, this`dirty, this`timer, this`clock
      ensures Valid() && clock == now && dirty
      ensures View() == before.WithKeyHour(key, c).(inFlight := flying)
    {
      KeyWriteKeepsSound(before, key, c, flying, disk, dirty, timer, flushFailed, clock, now);
      keyHours := keyHours[key := c];
      inFlight := flying;
      clock := now;
      MarkDirty();
    }

    /** `now` was read by the caller before the lock was taken and may be stale. */
    method ReserveUser(user: string, est: nat, hourlyLimit: int, dailyLimit: int, working: bool, now: Instant)
      returns (err: Option<StoreError>)
      requires Valid()
      modifies this`counters, this`dirty, this`timer, this`clock
      ensures Valid() && old(clock) <= clock <= Max(old(clock), now)
      ensures (View(), err) == old(View()).ReserveUser(user, est, hourlyLimit, dailyLimit, working, now)
      ensures err.Some? ==> View() == old(View()) && dirty == old(dirty)
    {
      if user !in users || !users[user].enabled {
        return Some(UserNotFound);
      }
      hide Sound, State.Valid, UserCounterOk, HourStart, DayStart;
      SoundIsValid(View(), disk, dirty, timer, flushFailed, clock);
      MovedCountersPast(View(), user, est, now);
      var hc := Get(counters, user, ZERO_COUNTERS);
      hc := UserCounters(EnsureWindow(hc.hour, HourStart(now)), EnsureWindow(hc.day, DayStart(now)));
      if dailyLimit > 0 && hc.day.value + est > dailyLimit {
        return Some(DailyQuota);
      }
      if working && hourlyLimit > 0 && hc.hour.value + est > hourlyLimit {
        return Some(HourlyQuota);
      }
      hc := UserCounters(hc.hour.(value := hc.hour.value + est), hc.day.(value := hc.day.value + est));
      WriteUser(user, hc, View(), Max(clock, now));
      return None;
    }

    method ReleaseUser(user: string, est: nat, now: Instant)
      requires Valid() && clock <= now
      modifies this`counters, this`dirty, this`timer, this`clock
      ensures Valid() && clock == now && dirty
      ensures View() == old(View()).ReleaseUser(user, est, now)
    {
      hide Sound, State.Valid, UserCounterOk, HourStart, DayStart;
      SoundIsValid(View(), disk, dirty, timer, flushFailed, clock);
      MovedCountersPast(View(), user, 0 - est, now);
      var hc := CountersLocked(user, now);
      hc := UserCounters(hc.hour.(value := Max(0, hc.hour.value - est)),
                         hc.day.(value := Max(0, hc.day.value - est)));
      WriteUser(user, hc, old(View()), now);
    }

    method SettleUser(user: string, est: nat, actual: int, now: Instant)
      requires Valid() && clock <= now
      modifies this`counters, this`dirty, this`timer, this`clock
      ensures Valid() && clock == now && dirty
      ensures View() == old(View()).SettleUser(user, est, actual, now)
    {
      hide Sound, State.Valid, UserCounterOk, HourStart, DayStart;
      SoundIsValid(View(), disk, dirty, timer, flushFailed, clock);
      MovedCountersPast(View(), user, actual - est, now);
      var hc := CountersLocked(user, now);
      var delta := actual - est;
      hc := UserCounters(hc.hour.(value := Max(0, hc.hour.value + delta)),
                         hc.day.(value := Max(0, hc.day.value + delta)));
      WriteUser(user, hc, old(View()), now);
    }

    method ReserveKey(key: string, est: nat, limit: int, working: bool, now: Instant)
      returns (err: Option<StoreError>)
      requires Valid() && clock <= now
      modifies this`keyHours, this`inFlight, this`dirty, this`timer, this`clock
      ensures Valid() && old(clock) <= clock <= now
      ensures (View(), err) == old(View()).ReserveKey(key, est, limit, working, now)
    {
      if key !in upstreamKeys || !upstreamKeys[key].enabled {
        return Some(KeyMissing);
      }
      hide State.Valid, KeyCounterOk, HourStart, PastWindows, Agrees;
      MovedKeyPast(View(), key, est, now);
      TouchKeyKeepsSound(View(), key, disk, dirty, timer, flushFailed, clock, now);
      var c := KeyHourLocked(key, now);
      if working && limit > 0 && c.value + est > limit {
        clock := now;
        return Some(HourlyQuota);
      }
      c := c.(value := c.value + est);
      WriteKey(key, c, inFlight[key := Get(inFlight, key, 0) + 1], old(View()), now);
      return None;
    }

    method ReleaseKey(key: string, est: nat, now: Instant)
      requires Valid() && clock <= now
      modifies this`keyHours, this`inFlight, this`dirty, this`timer, this`clock
      ensures Valid() && clock == now && dirty
      ensures View() == old(View()).ReleaseKey(key, est, now)
    {
      hide Sound, State.Valid, KeyCounterOk, HourStart;
      SoundIsValid(View(), disk, dirty, timer, flushFailed, clock);
      MovedKeyPast(View(), key, 0 - est, now);
      var c := KeyHourLocked(key, now);
      c := c.(value := Max(0, c.value - est));
      var flying := inFlight;
      if Get(flying, key, 0) > 0 {
        flying := flying[key := flying[key] - 1];
      }
      WriteKey(key, c, flying, old(View()), now);
    }

    method SettleKey(key: string, est: nat, actual: int, now: Instant)
      requires Valid() && clock <= now
      modifies this`keyHours, this`inFlight, this`dirty, this`timer, this`clock
      ensures Valid() && clock == now && dirty
      ensures View() == old(View()).SettleKey(key, est, actual, now)
    {
      hide Sound, State.Valid, KeyCounterOk, HourStart;
      SoundIsValid(View(), disk, dirty, timer, flushFailed, clock);
      MovedKeyPast(View(), key, actual - est, now);
      var c := KeyHourLocked(key, now);
      c := c.(value := Max(0, c.value + actual - est));
      var flying := inFlight;
      if Get(flying, key, 0) > 0 {
        flying := flying[key := flying[key] - 1];
      }
      WriteKey(key, c, flying, old(View()), now);
    }

    // ---- routing ----

    // Go ranges over the map in an arbitrary order.
    method ListKeys() returns (keys: seq<UpstreamKey>)
      ensures Elements(keys) == upstreamKeys.Values
    {
      keys := [];
      var rest := upstreamKeys.Keys;
      while rest != {}
        invariant rest <= upstreamKeys.Keys
        invariant forall k :: k in keys <==> exists id :: id in upstreamKeys.Keys - rest && upstreamKeys[id] == k
        decreases rest
      {
        var id :| id in rest;
        keys := keys + [upstreamKeys[id]];
        rest := rest - {id};
      }
    }

    method SelectKey(user: string, model: string, working: bool, fallback: int, exclude: set<string>, now: Instant)
      returns (r: Result<UpstreamKey, RouteError>)
      ensures Selection(View().keys.Values, RouteQuery(View(), user, model, working, fallback, exclude, now), r)
      ensures Documented(View().keys.Values, RouteQuery(View(), user, model, working, fallback, exclude, now), r)
    {
      var keys := ListKeys();
      r := Select(keys, RouteQuery(View(), user, model, working, fallback, exclude, now));
    }

    // ---- records ----

    method PutUser(user: string, u: User)
      requires Valid()
      modifies this`users, this`dirty, this`timer
      ensures Valid() && dirty && View() == old(View()).PutUser(user, u)
    {
      users := users[user := u];
      MarkDirty();
    }

    method PutUpstreamKey(k: UpstreamKey)
      requires Valid()
      modifies this`upstreamKeys, this`dirty, this`timer
      ensures Valid() && dirty && View() == old(View()).PutKey(k)
    {
      upstreamKeys := upstreamKeys[k.id := k];
      MarkDirty();
    }

    method DeleteUpstreamKey(id: string) returns (err: Option<StoreError>)
      requires Valid()
      modifies this`upstreamKeys, this`keyHours, this`inFlight, this`dirty, this`timer
      ensures Valid() && View() == old(View()).DeleteKey(id)
      ensures err == if id in old(upstreamKeys) then None else Some(KeyMissing)
    {
      if id !in upstreamKeys {
        return Some(KeyMissing);
      }
      upstreamKeys, keyHours, inFlight := upstreamKeys - {id}, keyHours - {id}, inFlight - {id};
      MarkDirty();
      return None;
    }

    method DeleteUser(user: string) returns (err: Option<StoreError>)
      requires Valid()
      modifies this`users, this`counters, this`upstreamKeys, this`keyHours, this`inFlight, this`dirty, this`timer
      ensures Valid() && View() == old(View()).DeleteUser(user)
      ensures err == if user in old(users) then None else Some(UserNotFound)
    {
      if user !in users {
        return Some(UserNotFound);
      }
      hide Sound;
      DeletionKeepsSound(View(), user, disk, dirty, timer, flushFailed, clock);
      users := users - {user};
      var owned := set id | id in upstreamKeys && upstreamKeys[id].userID == user;
      upstreamKeys, keyHours, inFlight := upstreamKeys - owned, keyHours - owned, inFlight - owned;
      counters := counters - {user};
      MarkDirty();
      return None;
    }
  }
}

// The counters and routing records of internal/store/state.go as values, with
// one function per critical section. `now` is the clock reading taken inside it.
module StoreModel {
  import opened Wrappers
  import opened Clock

  datatype User = User(enabled: bool, hourlyTokens: int, dailyTokens: int)

  datatype UpstreamKey = UpstreamKey(id: string, userID: string, models: seq<string>,
                                     enabled: bool, hourlyLimit: int)

  datatype StoreError = UserNotFound | DailyQuota | HourlyQuota | KeyMissing

  datatype State = State(users: map<string, User>, keys: map<string, UpstreamKey>,
                         counters: map<string, UserCounters>, keyHours: map<string, WindowCounter>,
                         inFlight: map<string, nat>)
  {
    // ---- raw reads ----

    function Counters(user: string): UserCounters {
      Get(counters, user, ZERO_COUNTERS)
    }

    function KeyHour(key: string): WindowCounter {
      Get(keyHours, key, ZERO_COUNTER)
    }

    function Flying(key: string): nat {
      Get(inFlight, key, 0)
    }

    // ---- reads at an instant ----

    function CountersAt(user: string, now: Instant): UserCounters {
      EnsureCounters(Counters(user), now)
    }

    function KeyHourAt(key: string, now: Instant): WindowCounter {
      EnsureWindow(KeyHour(key), HourStart(now))
    }

    // ---- critical sections ----

    function WithCounters(user: string, c: UserCounters): State {
      this.(counters := counters[user := c])
    }

    function WithKeyHour(key: string, c: WindowCounter): State {
      this.(keyHours := keyHours[key := c])
    }

    function ReserveUser(user: string, est: int, hourlyLimit: int, dailyLimit: int, working: bool, now: Instant)
      : (State, Option<StoreError>)
    {
      if user !in users || !users[user].enabled then (this, Some(UserNotFound)) else
      var hc := CountersAt(user, now);
      if dailyLimit > 0 && hc.day.value + est > dailyLimit then (this, Some(DailyQuota))
      else if working && hourlyLimit > 0 && hc.hour.value + est > hourlyLimit then (this, Some(HourlyQuota))
      else (WithCounters(user, AddToUser(hc, est)), None)
    }

    function AdjustUser(user: string, delta: int, now: Instant): State {
      var hc := CountersAt(user, now);
      WithCounters(user, UserCounters(Clamped(hc.hour, delta), Clamped(hc.day, delta)))
    }

    function ReleaseUser(user: string, est: int, now: Instant): State {
      AdjustUser(user, -est, now)
    }

    function SettleUser(user: string, est: int, actual: int, now: Instant): State {
      AdjustUser(user, actual - est, now)
    }

    function TouchUser(user: string, now: Instant): State {
      WithCounters(user, CountersAt(user, now))
    }

    function ReserveKey(key: string, est: int, limit: int, working: bool, now: Instant)
      : (State, Option<StoreError>)
    {
      if key !in keys || !keys[key].enabled then (this, Some(KeyMissing)) else
      var c := KeyHourAt(key, now);
      if working && limit > 0 && c.value + est > limit then (WithKeyHour(key, c), Some(HourlyQuota))
      else
        (WithKeyHour(key, c.(value := c.value + est)).(inFlight := inFlight[key := Flying(key) + 1]), None)
    }

    function AdjustKey(key: string, delta: int, now: Instant): State {
      var st := WithKeyHour(key, Clamped(KeyHourAt(key, now), delta));
      if Flying(key) > 0 then st.(inFlight := inFlight[key := Flying(key) - 1]) else st
    }

    function ReleaseKey(key: string, est: int, now: Instant): State {
      AdjustKey(key, -est, now)
    }

    function SettleKey(key: string, est: int, actual: int, now: Instant): State {
      AdjustKey(key, actual - est, now)
    }

    function TouchKey(key: string, now: Instant): State {
      WithKeyHour(key, KeyHourAt(key, now))
    }

    // ---- records ----

    function PutUser(user: string, u: User): State {
      this.(users := users[user := u])
    }

    function PutKey(k: UpstreamKey): State {
      this.(keys := keys[k.id := k])
    }

    function OwnedBy(user: string): set<string> {
      set id | id in keys && keys[id].userID == user
    }

    function DropKeys(ids: set<string>): State {
      this.(keys := keys - ids, keyHours := keyHours - ids, inFlight := inFlight - ids)
    }

    function DeleteKey(id: string): State {
      if id in keys then DropKeys({id}) else this
    }

    function DeleteUser(user: string): State {
      if user !in users then this
      else DropKeys(OwnedBy(user)).(users := users - {user}, counters := counters - {user})
    }

    // ---- what every reachable state satisfies ----

    ghost predicate Valid() {
      && (forall id :: id in keys ==> keys[id].id == id)
      && (forall u :: u in counters ==> UserCounterOk(counters[u]))
      && (forall k :: k in keyHours ==> KeyCounterOk(keyHours[k]))
    }
  }

  const FRESH := State(map[], map[], map[], map[], map[])

  function AddToUser(hc: UserCounters, est: int): UserCounters {
    UserCounters(hc.hour.(value := hc.hour.value + est), hc.day.(value := hc.day.value + est))
  }

  function Clamped(c: WindowCounter, delta: int): WindowCounter {
    c.(value := Max(0, c.value + delta))
  }

  // The hour counter never exceeds the day counter, neither is negative, and the
  // hour window lies inside the day window.
  ghost predicate UserCounterOk(c: UserCounters) {
    && 0 <= c.hour.value <= c.day.value
    && (if c.hour.start.None? then c == ZERO_COUNTERS
        else c.day.start == Some(DayStart(c.hour.start.value)) && HourStart(c.hour.start.value) == c.hour.start.value)
  }

  ghost predicate KeyCounterOk(c: WindowCounter) {
    && c.value >= 0
    && (if c.start.None? then c.value == 0 else HourStart(c.start.value) == c.start.value)
  }

  lemma LastWriteWins(st: State, user: string, key: string, hc: UserCounters, hc': UserCounters,
                      c: WindowCounter, c': WindowCounter)
    ensures st.WithCounters(user, hc).WithCounters(user, hc') == st.WithCounters(user, hc')
    ensures st.WithKeyHour(key, c).WithKeyHour(key, c') == st.WithKeyHour(key, c')
  {
    assert st.counters[user := hc][user := hc'] == st.counters[user := hc'];
    assert st.keyHours[key := c][key := c'] == st.keyHours[key := c'];
  }

  /** A new day always brings a new hour, so the lazy reset cannot leave an hour
      counter above its day counter. */
  lemma ResetKeepsOrder(c: UserCounters, now: Instant)
    requires UserCounterOk(c)
    ensures UserCounterOk(EnsureCounters(c, now))
  {
    HourDeterminesDay(now);
    if c.hour.start == Some(HourStart(now)) {
      assert c.day.start == Some(DayStart(now));
    }
  }

  lemma CountersAtOk(st: State, user: string, now: Instant)
    requires st.Valid()
    ensures UserCounterOk(st.CountersAt(user, now))
    ensures st.CountersAt(user, now).hour.start == Some(HourStart(now))
  {
    ResetKeepsOrder(st.Counters(user), now);
  }

  lemma KeyHourAtOk(st: State, key: string, now: Instant)
    requires st.Valid()
    ensures KeyCounterOk(st.KeyHourAt(key, now))
    ensures st.KeyHourAt(key, now).value == WindowValue(st.KeyHour(key), now)
  {
    HourDeterminesDay(now);
  }

  // Every critical section, with the arguments it may be called with.
  datatype Section =
    | ReserveUserS(user: string, est: nat, hourlyLimit: int, dailyLimit: int, working: bool, now: Instant)
    | AdjustUserS(user: string, delta: int, now: Instant)
    | TouchUserS(user: string, now: Instant)
    | ReserveKeyS(key: string, est: nat, limit: int, working: bool, now: Instant)
    | AdjustKeyS(key: string, delta: int, now: Instant)
    | TouchKeyS(key: string, now: Instant)
    | PutUserS(user: string, u: User)
    | PutKeyS(k: UpstreamKey)
    | DeleteUserS(user: string)
    | DeleteKeyS(key: string)

  function Perform(st: State, s: Section): State {
    match s
    case ReserveUserS(user, est, hl, dl, working, now) => st.ReserveUser(user, est, hl, dl, working, now).0
    case AdjustUserS(user, delta, now) => st.AdjustUser(user, delta, now)
    case TouchUserS(user, now) => st.TouchUser(user, now)
    case ReserveKeyS(key, est, limit, working, now) => st.ReserveKey(key, est, limit, working, now).0
    case AdjustKeyS(key, delta, now) => st.AdjustKey(key, delta, now)
    case TouchKeyS(key, now) => st.TouchKey(key, now)
    case PutUserS(user, u) => st.PutUser(user, u)
    case PutKeyS(k) => st.PutKey(k)
    case DeleteUserS(user) => st.DeleteUser(user)
    case DeleteKeyS(key) => st.DeleteKey(key)
  }

  function PerformAll(st: State, ss: seq<Section>): State
    decreases |ss|
  {
    if ss == [] then st else PerformAll(Perform(st, ss[0]), ss[1..])
  }

  lemma SectionKeepsValid(st: State, s: Section)
    requires st.Valid()
    ensures Perform(st, s).Valid()
  {
    if s.ReserveUserS? || s.AdjustUserS? || s.TouchUserS? {
      CountersAtOk(st, s.user, s.now);
    } else if s.ReserveKeyS? || s.AdjustKeyS? || s.TouchKeyS? {
      KeyHourAtOk(st, s.key, s.now);
    }
  }

  /** Deleting a user leaves exactly the other users, with what they spent, and the keys of
      other owners, with what was counted on them. */
  lemma DeletionLeavesTheOthers(st: State, user: string)
    requires user in st.users
    ensures var st' := st.DeleteUser(user);
            && (forall u :: u in st'.users <==> u in st.users && u != user)
            && (forall u :: u in st'.users ==> st'.users[u] == st.users[u])
            && (forall u :: st'.Counters(u) == if u == user then ZERO_COUNTERS else st.Counters(u))
            && (forall id :: id in st'.keys <==> id in st.keys && st.keys[id].userID != user)
            && (forall id :: id in st'.keys ==> st'.keys[id] == st.keys[id])
            && (forall id :: var gone := id in st.keys && st.keys[id].userID == user;
                  && st'.KeyHour(id) == (if gone then ZERO_COUNTER else st.KeyHour(id))
                  && st'.Flying(id) == if gone then 0 else st.Flying(id))
  {
  }

  /** Writing or deleting a record touches that record, and what was counted on a deleted
      key, and nothing else. */
  lemma RecordsAreWritten(st: State, user: string, u: User, k: UpstreamKey, id: string)
    ensures var st' := st.PutUser(user, u); st' == st.(users := st'.users) && st'.users.Keys == st.users.Keys + {user}
    ensures forall v :: v in st.PutUser(user, u).users ==> st.PutUser(user, u).users[v] == if v == user then u else st.users[v]
    ensures var st' := st.PutKey(k); st' == st.(keys := st'.keys) && st'.keys.Keys == st.keys.Keys + {k.id}
    ensures forall j :: j in st.PutKey(k).keys ==> st.PutKey(k).keys[j] == if j == k.id then k else st.keys[j]
    ensures var st' := st.DeleteKey(id);
            && st'.users == st.users && st'.counters == st.counters && st'.keys.Keys == st.keys.Keys - {id}
            && (forall j :: j in st'.keys ==> st'.keys[j] == st.keys[j])
            && (forall j :: j != id ==> st'.KeyHour(j) == st.KeyHour(j) && st'.Flying(j) == st.Flying(j))
            && (id in st.keys ==> st'.KeyHour(id) == ZERO_COUNTER && st'.Flying(id) == 0)
  {
  }

  /** In every reachable state, whatever the clock readings, each user's hour
      counter is at most the day counter, both are non-negative, and the routing
      read of a key equals the resetting one. */
  lemma {:induction false} ReachableStatesAreValid(st: State, ss: seq<Section>)
    requires st.Valid()
    ensures var end := PerformAll(st, ss);
            && end.Valid()
            && (forall u, now :: 0 <= end.CountersAt(u, now).hour.value <= end.CountersAt(u, now).day.value)
            && (forall k, now :: WindowValue(end.KeyHour(k), now) == end.KeyHourAt(k, now).value)
    decreases |ss|
  {
    if ss == [] {
      forall u, now
        ensures 0 <= st.CountersAt(u, now).hour.value <= st.CountersAt(u, now).day.value
      {
        CountersAtOk(st, u, now);
      }
      forall k, now
        ensures WindowValue(st.KeyHour(k), now) == st.KeyHourAt(k, now).value
      {
        KeyHourAtOk(st, k, now);
      }
    } else {
      SectionKeepsValid(st, ss[0]);
      ReachableStatesAreValid(Perform(st, ss[0]), ss[1..]);
    }
  }

  /** A section's effect depends on its clock reading only through the hour. */
  lemma SectionsSeeOnlyTheHour(st: State, s: Section, t: Instant)
    requires s.ReserveUserS? || s.AdjustUserS? || s.TouchUserS? || s.ReserveKeyS? || s.AdjustKeyS? || s.TouchKeyS?
    requires HourStart(t) == HourStart(s.now)
    ensures Perform(st, s) == Perform(st, s.(now := t))
  {
    SameHourSameDay(t, s.now);
  }
}

// One run of the relay's proxy with nothing else touching the store and no window
// rollover: every clock reading of the run falls in the hour of `now`.
module RelayModule {
  import opened Wrappers
  import opened Clock
  import opened Quota
  import opened StoreModel
  import opened StoreClass
  import opened Router
  import opened Requests
  import Text

  // ---- quota.Engine ----

  function Admission(st: State, cfg: Config, user: string, est: int, now: Instant): (State, Option<StoreError>) {
    if user !in st.users then (st, Some(UserNotFound)) else
    var u := st.users[user];
    st.ReserveUser(user, est, cfg.HourlyLimit(u.hourlyTokens), cfg.DailyLimit(u.dailyTokens),
                   cfg.IsWorkingHour(now), now)
  }

  /** What a user has spent in the day and the hour of `now`; a count of another window is
      nothing. */
  function SpentToday(st: State, user: string, now: Instant): int {
    if user in st.counters && st.counters[user].day.start == Some(DayStart(now)) then st.counters[user].day.value else 0
  }

  function SpentThisHour(st: State, user: string, now: Instant): int {
    if user in st.counters && st.counters[user].hour.start == Some(HourStart(now)) then st.counters[user].hour.value else 0
  }

  /** Admission on the records: an unknown or disabled user is refused first, then an
      estimate that does not fit the day, then in working hours one that does not fit the
      hour, each against the user's own limit or else the default of that window. */
  lemma AdmissionIsDecided(st: State, cfg: Config, user: string, est: int, now: Instant)
    requires cfg.Valid()
    ensures var err := Admission(st, cfg, user, est, now).1;
            if user !in st.users || !st.users[user].enabled then err == Some(UserNotFound) else
            var u := st.users[user];
            var day := if u.dailyTokens > 0 then u.dailyTokens else cfg.defaultDaily;
            var hour := if u.hourlyTokens > 0 then u.hourlyTokens else cfg.defaultHourly;
            var fitsDay := SpentToday(st, user, now) + est <= day;
            var fitsHour := cfg.IsWorkingHour(now) ==> SpentThisHour(st, user, now) + est <= hour;
            && (err == None <==> fitsDay && fitsHour)
            && (err == Some(DailyQuota) <==> !fitsDay)
            && (err == Some(HourlyQuota) <==> fitsDay && !fitsHour)
  {
    hide HourStart, DayStart, Config.IsWorkingHour;
  }

  /** An admission raises what the user has spent in both windows by the estimate, and a
      refusal changes nothing; other users and all keys stay as they are. */
  lemma AdmissionIsCounted(st: State, cfg: Config, user: string, est: int, now: Instant)
    ensures var (st', err) := Admission(st, cfg, user, est, now);
            && (err.Some? ==> st' == st)
            && (err.None? ==>
                  && SpentToday(st', user, now) == SpentToday(st, user, now) + est
                  && SpentThisHour(st', user, now) == SpentThisHour(st, user, now) + est)
            && (forall u :: u != user ==> st'.Counters(u) == st.Counters(u))
            && st'.users == st.users && st'.keys == st.keys && st'.keyHours == st.keyHours && st'.inFlight == st.inFlight
  {
    hide HourStart, DayStart, Config.IsWorkingHour;
  }

  method CheckAndReserve(store: Store, cfg: Config, user: string, est: nat, now: Instant)
    returns (err: Option<StoreError>)
    requires store.Valid()
    modifies store
    ensures store.Valid() && store.clock <= Max(old(store.clock), now)
    ensures (store.View(), err) == Admission(old(store.View()), cfg, user, est, now)
  {
    var u := store.GetUser(user);
    if u.None? {
      return Some(UserNotFound);
    }
    var working := CheckWorkingHour(cfg, now);
    err := store.ReserveUser(user, est, cfg.HourlyLimit(u.value.hourlyTokens),
                             cfg.DailyLimit(u.value.dailyTokens), working, now);
  }

  method Release(store: Store, user: string, key: Option<string>, est: nat, now: Instant)
    requires store.Valid() && store.clock <= now
    modifies store
    ensures store.Valid()
    ensures var st := old(store.View()).ReleaseUser(user, est, now);
            store.View() == if key.Some? then st.ReleaseKey(key.value, est, now) else st
  {
    store.ReleaseUser(user, est, now);
    if key.Some? {
      store.ReleaseKey(key.value, est, now);
    }
  }

  method Settle(store: Store, user: string, key: string, est: nat, actual: int, now: Instant)
    requires store.Valid() && store.clock <= now
    modifies store
    ensures store.Valid()
    ensures store.View() == old(store.View()).SettleUser(user, est, actual, now).SettleKey(key, est, actual, now)
  {
    store.SettleUser(user, est, actual, now);
    store.SettleKey(key, est, actual, now);
  }

  // ---- states as read at an instant ----

  datatype KeyRead = KeyRead(hour: WindowCounter, flying: nat)

  ghost function KeyReads(st: State, now: Instant): imap<string, KeyRead> {
    imap k: string | true :: KeyRead(st.KeyHourAt(k, now), st.Flying(k))
  }

  ghost function UserReads(st: State, now: Instant): imap<string, UserCounters> {
    imap u: string | true :: st.CountersAt(u, now)
  }

  function Bumped(c: UserCounters, delta: int): UserCounters {
    UserCounters(Clamped(c.hour, delta), Clamped(c.day, delta))
  }

  function Landed(n: nat): nat {
    if n > 0 then n - 1 else n
  }

  ghost predicate SameKeys(a: State, b: State, now: Instant) {
    a.users == b.users && a.keys == b.keys && KeyReads(a, now) == KeyReads(b, now)
  }

  /** `b` is `a` but for `user`, whose counters moved by `delta`. */
  ghost predicate UserMoved(a: State, b: State, now: Instant, user: string, delta: int) {
    UserReads(b, now) == UserReads(a, now)[user := Bumped(a.CountersAt(user, now), delta)]
  }

  /** `b` is `a` but for `key`, whose counter moved by `delta`, with `flying` in flight. */
  ghost predicate KeyMoved(a: State, b: State, now: Instant, key: string, delta: int, flying: nat) {
    && a.users == b.users && a.keys == b.keys
    && KeyReads(b, now) == KeyReads(a, now)[key := KeyRead(Clamped(a.KeyHourAt(key, now), delta), flying)]
  }

  ghost predicate Restored(a: State, b: State, now: Instant) {
    SameKeys(a, b, now) && UserReads(a, now) == UserReads(b, now)
  }

  // ---- the direct choice ----

  predicate FitsKey(q: Query, est: nat, k: UpstreamKey) {
    q.Qualified(k) && (q.working ==> q.usage(k.id) + est <= HourlyLimit(k, q.fallback))
  }

  /** The least own key with room for the estimate, or else the least such pool key. */
  ghost predicate DirectChoice(keys: set<UpstreamKey>, q: Query, est: nat, k: UpstreamKey) {
    && k in keys && FitsKey(q, est, k)
    && (!q.Own(k) ==> forall j :: j in keys && q.Own(j) ==> !FitsKey(q, est, j))
    && (forall j :: j in keys && FitsKey(q, est, j) && q.Own(j) == q.Own(k) ==> q.Leq(k, j))
  }

  ghost predicate NoDirectChoice(keys: set<UpstreamKey>, q: Query, est: nat, reason: RouteError) {
    && (forall j :: j in keys ==> !FitsKey(q, est, j))
    && (reason == HourlyExhausted <==>
          exists j :: j in keys && q.Candidate(j) && q.working && q.usage(j.id) >= HourlyLimit(j, q.fallback))
  }

  // Keys excluded for lack of room: below their limit, but not by the estimate.
  ghost predicate ExcludedForRoom(keys: set<UpstreamKey>, q: Query, avoid: set<string>, est: nat) {
    && avoid <= q.exclude
    && (forall j :: j in keys && j.id in q.exclude - avoid ==>
          q.working && q.usage(j.id) < HourlyLimit(j, q.fallback) < q.usage(j.id) + est)
  }

  lemma ChoiceRefines(keys: set<UpstreamKey>, q: Query, avoid: set<string>, est: nat, k: UpstreamKey)
    requires ExcludedForRoom(keys, q, avoid, est) && Chosen(keys, q, k)
    requires q.working ==> q.usage(k.id) + est <= HourlyLimit(k, q.fallback)
    ensures DirectChoice(keys, q.(exclude := avoid), est, k)
  {
    var d := q.(exclude := avoid);
    forall j | j in keys && FitsKey(d, est, j)
      ensures q.Qualified(j) && d.Own(j) == q.Own(j)
    {
      assert j.id !in q.exclude;
    }
    forall j | j in keys && FitsKey(d, est, j) && d.Own(j) == d.Own(k)
      ensures d.Leq(k, j)
    {
      assert q.Leq(k, j);
    }
  }

  lemma FailureRefines(keys: set<UpstreamKey>, q: Query, avoid: set<string>, est: nat, reason: RouteError)
    requires ExcludedForRoom(keys, q, avoid, est) && Selection(keys, q, Err(reason))
    ensures NoDirectChoice(keys, q.(exclude := avoid), est, reason)
  {
    var d := q.(exclude := avoid);
    forall j | j in keys && FitsKey(d, est, j)
      ensures false
    {
      assert q.Qualified(j);
    }
    if reason == HourlyExhausted {
      var j :| j in keys && q.Candidate(j);
      assert !q.Qualified(j);
      assert d.Candidate(j);
    }
    forall j | j in keys && d.Candidate(j) && d.working && d.usage(j.id) >= HourlyLimit(j, d.fallback)
      ensures reason == HourlyExhausted
    {
      assert q.Candidate(j);
    }
  }

  lemma DirectChoiceIsUnique(keys: set<UpstreamKey>, q: Query, est: nat, k: UpstreamKey, k': UpstreamKey)
    requires DistinctIds(keys) && DirectChoice(keys, q, est, k) && DirectChoice(keys, q, est, k')
    ensures k == k'
  {
    assert q.Leq(k, k') && q.Leq(k', k);
    Text.StrLessTotal(k.id, k'.id);
  }

  /** A query is answered alike in states that read alike. */
  lemma SameQuerySameAnswer(a: State, b: State, user: string, model: string, working: bool, fallback: int,
                            exclude: set<string>, now: Instant, r: Result<UpstreamKey, RouteError>)
    requires a.Valid() && b.Valid() && SameKeys(a, b, now)
    requires Selection(b.keys.Values, RouteQuery(b, user, model, working, fallback, exclude, now), r)
    ensures Selection(a.keys.Values, RouteQuery(a, user, model, working, fallback, exclude, now), r)
  {
    var qa := RouteQuery(a, user, model, working, fallback, exclude, now);
    var qb := RouteQuery(b, user, model, working, fallback, exclude, now);
    forall id
      ensures qa.usage(id) == qb.usage(id) && qa.flying(id) == qb.flying(id)
    {
      KeyHourAtOk(a, id, now);
      KeyHourAtOk(b, id, now);
      ReadAt(a, b, now, id);
    }
    if r.Ok? {
      forall j | j in a.keys.Values && qa.Qualified(j) && qa.Own(j) == qa.Own(r.value)
        ensures qa.Leq(r.value, j)
      {
        assert qb.Qualified(j) && qb.Leq(r.value, j);
      }
      assert Chosen(a.keys.Values, qa, r.value);
    } else {
      forall k
        ensures qa.Qualified(k) == qb.Qualified(k) && qa.Candidate(k) == qb.Candidate(k)
      {
      }
      assert r.error == HourlyExhausted <==> exists k :: k in b.keys.Values && qb.Candidate(k);
      if k :| k in b.keys.Values && qb.Candidate(k) {
        assert qa.Candidate(k);
      }
      if k :| k in a.keys.Values && qa.Candidate(k) {
        assert qb.Candidate(k);
      }
    }
  }

  // ---- what pairs of sections come to ----

  /** A successful reservation, as read at `now`. */
  ghost predicate KeyTaken(a: State, b: State, now: Instant, key: string, est: nat) {
    KeyMoved(a, b, now, key, est, a.Flying(key) + 1)
  }

  // The reads of `b` at one key.
  lemma ReadAt(a: State, b: State, now: Instant, key: string)
    requires KeyReads(a, now) == KeyReads(b, now)
    ensures a.KeyHourAt(key, now) == b.KeyHourAt(key, now) && a.Flying(key) == b.Flying(key)
  {
    assert KeyReads(a, now)[key] == KeyReads(b, now)[key];
  }

  lemma ReadsAfterWrite(a: State, now: Instant, key: string, c: WindowCounter, flying: nat)
    requires c.start == Some(HourStart(now))
    ensures var b := a.WithKeyHour(key, c);
            && KeyReads(b, now) == KeyReads(a, now)[key := KeyRead(c, a.Flying(key))]
            && KeyReads(b.(inFlight := b.inFlight[key := flying]), now) == KeyReads(a, now)[key := KeyRead(c, flying)]
  {
  }

  lemma ReservationTakes(a: State, b: State, key: string, est: nat, limit: int, working: bool, now: Instant)
    requires a.Valid() && SameKeys(a, b, now)
    requires b.ReserveKey(key, est, limit, working, now).1.None?
    ensures KeyTaken(a, b.ReserveKey(key, est, limit, working, now).0, now, key, est)
  {
    KeyHourAtOk(a, key, now);
    ReadAt(a, b, now, key);
    ReadsAfterWrite(b, now, key, Clamped(b.KeyHourAt(key, now), est), b.Flying(key) + 1);
  }

  lemma RefusalLeavesReads(a: State, b: State, key: string, est: nat, limit: int, working: bool, now: Instant)
    requires SameKeys(a, b, now)
    requires b.ReserveKey(key, est, limit, working, now).1.Some?
    ensures SameKeys(a, b.ReserveKey(key, est, limit, working, now).0, now)
    ensures b.ReserveKey(key, est, limit, working, now).0.counters == b.counters
  {
    ReadsAfterWrite(b, now, key, b.KeyHourAt(key, now), 0);
    assert KeyReads(b, now)[key := KeyRead(b.KeyHourAt(key, now), b.Flying(key))] == KeyReads(b, now);
  }

  lemma AdjustedReads(b: State, key: string, delta: int, now: Instant)
    ensures KeyReads(b.AdjustKey(key, delta, now), now) ==
            KeyReads(b, now)[key := KeyRead(Clamped(b.KeyHourAt(key, now), delta), Landed(b.Flying(key)))]
    ensures b.AdjustKey(key, delta, now).users == b.users && b.AdjustKey(key, delta, now).keys == b.keys
  {
    ReadsAfterWrite(b, now, key, Clamped(b.KeyHourAt(key, now), delta), Landed(b.Flying(key)));
  }

  lemma ReadHere(b: State, now: Instant, key: string)
    ensures KeyReads(b, now)[key] == KeyRead(b.KeyHourAt(key, now), b.Flying(key))
  {
  }

  lemma AdjustedAfterTaking(a: State, b: State, key: string, est: nat, delta: int, now: Instant)
    requires a.Valid() && KeyTaken(a, b, now, key, est)
    ensures KeyMoved(a, b.AdjustKey(key, delta, now), now, key, est + delta, a.Flying(key))
  {
    hide KeyReads, State.Valid, State.KeyHourAt, State.Flying, State.AdjustKey, Clamped;
    KeyHourNotNegative(a, key, now);
    ClampTwice(a.KeyHourAt(key, now), est, delta);
    ReadHere(b, now, key);
    AdjustedReads(b, key, delta, now);
    ReplaceTwice(KeyReads(a, now), key, KeyReads(b, now)[key],
                 KeyRead(Clamped(a.KeyHourAt(key, now), est + delta), a.Flying(key)));
  }

  lemma KeyHourNotNegative(a: State, key: string, now: Instant)
    requires a.Valid()
    ensures a.KeyHourAt(key, now).value >= 0
  {
    KeyHourAtOk(a, key, now);
  }

  lemma ClampTwice(c: WindowCounter, est: nat, delta: int)
    requires c.value >= 0
    ensures Clamped(Clamped(c, est), delta) == Clamped(c, est + delta)
  {
  }

  lemma ReplaceTwice<V>(m: imap<string, V>, key: string, v: V, v': V)
    ensures m[key := v][key := v'] == m[key := v']
  {
  }

  lemma ReleasedAfterTaking(a: State, b: State, key: string, est: nat, now: Instant)
    requires a.Valid() && KeyTaken(a, b, now, key, est)
    ensures SameKeys(a, b.ReleaseKey(key, est, now), now)
  {
    AdjustedAfterTaking(a, b, key, est, 0 - est, now);
    KeyHourAtOk(a, key, now);
    assert KeyReads(a, now)[key := KeyRead(a.KeyHourAt(key, now), a.Flying(key))] == KeyReads(a, now);
  }

  lemma TakenThroughUserSection(a: State, b: State, key: string, est: nat, now: Instant, user: string, delta: int)
    requires KeyTaken(a, b, now, key, est)
    ensures KeyTaken(a, b.AdjustUser(user, delta, now), now, key, est)
  {
    assert KeyReads(b.AdjustUser(user, delta, now), now) == KeyReads(b, now);
  }

  // A second release, with nothing taken.
  lemma ReleasedAgain(a: State, b: State, key: string, est: nat, now: Instant)
    requires SameKeys(a, b, now)
    ensures KeyMoved(a, b.ReleaseKey(key, est, now), now, key, 0 - est, Landed(a.Flying(key)))
  {
    ReadAt(a, b, now, key);
    AdjustedReads(b, key, 0 - est, now);
  }

  /** The second release is invisible exactly when the key had nothing to lose. */
  lemma SecondReleaseHarmlessExactlyWhen(a: State, b: State, key: string, est: nat, now: Instant)
    requires a.Valid() && KeyMoved(a, b, now, key, 0 - est, Landed(a.Flying(key)))
    ensures SameKeys(a, b, now) <==>
            a.Flying(key) == 0 && (est == 0 || a.KeyHourAt(key, now).value == 0)
  {
    KeyHourAtOk(a, key, now);
    var r := KeyRead(a.KeyHourAt(key, now), a.Flying(key));
    assert KeyReads(a, now)[key] == r;
    assert KeyReads(a, now)[key := r] == KeyReads(a, now);
    assert KeyReads(b, now)[key] == KeyRead(Clamped(a.KeyHourAt(key, now), 0 - est), Landed(a.Flying(key)));
  }

  lemma UserReadsAfterWrite(a: State, user: string, hc: UserCounters, now: Instant)
    requires EnsureCounters(hc, now) == hc
    ensures UserReads(a.WithCounters(user, hc), now) == UserReads(a, now)[user := hc]
  {
  }

  lemma AdmittedReads(a: State, b: State, cfg: Config, user: string, est: nat, now: Instant)
    requires a.Valid() && (b, None) == Admission(a, cfg, user, est, now)
    ensures var hc := AddToUser(a.CountersAt(user, now), est);
            UserReads(b, now) == UserReads(a, now)[user := hc] && b.CountersAt(user, now) == hc
  {
    hide HourStart, DayStart, Config.IsWorkingHour, State.Valid;
    CountersAtOk(a, user, now);
    UserReadsAfterWrite(a, user, AddToUser(a.CountersAt(user, now), est), now);
  }

  lemma SameCountersSameReads(b: State, c: State, user: string, now: Instant)
    requires c.counters == b.counters
    ensures UserReads(c, now) == UserReads(b, now) && c.CountersAt(user, now) == b.CountersAt(user, now)
  {
  }

  lemma AdjustedUserReads(c: State, user: string, delta: int, now: Instant)
    ensures UserReads(c.AdjustUser(user, delta, now), now) ==
            UserReads(c, now)[user := Bumped(c.CountersAt(user, now), delta)]
  {
    hide HourStart, DayStart;
    UserReadsAfterWrite(c, user, Bumped(c.CountersAt(user, now), delta), now);
  }

  lemma BumpTwice(a: State, user: string, est: nat, delta: int, now: Instant)
    requires a.Valid()
    ensures Bumped(AddToUser(a.CountersAt(user, now), est), delta) == Bumped(a.CountersAt(user, now), est + delta)
  {
    CountersAtOk(a, user, now);
  }

  lemma AdjustedAfterAdmission(a: State, b: State, c: State, cfg: Config, user: string, est: nat, delta: int, now: Instant)
    requires a.Valid() && (b, None) == Admission(a, cfg, user, est, now) && c.counters == b.counters
    ensures UserMoved(a, c.AdjustUser(user, delta, now), now, user, est + delta)
  {
    hide UserReads, Admission, State.Valid, State.CountersAt, State.AdjustUser, Bumped, AddToUser;
    AdmittedReads(a, b, cfg, user, est, now);
    SameCountersSameReads(b, c, user, now);
    AdjustedUserReads(c, user, delta, now);
    BumpTwice(a, user, est, delta, now);
    var before := a.CountersAt(user, now);
    ReplaceTwice(UserReads(a, now), user, AddToUser(before, est), Bumped(before, est + delta));
  }

  lemma AdmissionKeepsKeys(a: State, cfg: Config, user: string, est: nat, now: Instant)
    ensures SameKeys(a, Admission(a, cfg, user, est, now).0, now)
  {
    assert KeyReads(Admission(a, cfg, user, est, now).0, now) == KeyReads(a, now);
  }

  lemma UserSectionKeepsKeys(a: State, user: string, delta: int, now: Instant)
    ensures SameKeys(a, a.AdjustUser(user, delta, now), now)
  {
    assert KeyReads(a.AdjustUser(user, delta, now), now) == KeyReads(a, now);
  }

  lemma KeySectionKeepsUsers(a: State, key: string, delta: int, now: Instant)
    ensures UserReads(a.AdjustKey(key, delta, now), now) == UserReads(a, now)
  {
  }

  lemma UserMovedByZero(a: State, b: State, now: Instant, user: string)
    requires a.Valid() && UserMoved(a, b, now, user, 0)
    ensures UserReads(a, now) == UserReads(b, now)
  {
    CountersAtOk(a, user, now);
    assert UserReads(a, now)[user := a.CountersAt(user, now)] == UserReads(a, now);
  }

  // ---- the ways out, on values: `b` is the state after admission and all key sections ----

  lemma RefundRestores(a: State, s1: State, b: State, cfg: Config, user: string, est: nat, now: Instant)
    requires a.Valid() && (s1, None) == Admission(a, cfg, user, est, now)
    requires SameKeys(a, b, now) && b.counters == s1.counters
    ensures Restored(a, b.ReleaseUser(user, est, now), now)
  {
    hide UserReads, KeyReads, State.Valid;
    AdjustedAfterAdmission(a, s1, b, cfg, user, est, 0 - est, now);
    UserSectionKeepsKeys(b, user, 0 - est, now);
    UserMovedByZero(a, b.ReleaseUser(user, est, now), now, user);
  }

  lemma HangUpMoves(a: State, s1: State, b: State, cfg: Config, user: string, key: string, est: nat, now: Instant)
    requires a.Valid() && (s1, None) == Admission(a, cfg, user, est, now)
    requires SameKeys(a, b, now) && b.counters == s1.counters
    ensures UserMoved(a, b.ReleaseUser(user, est, now).ReleaseKey(key, est, now), now, user, 0)
    ensures KeyMoved(a, b.ReleaseUser(user, est, now).ReleaseKey(key, est, now), now, key, 0 - est, Landed(a.Flying(key)))
  {
    hide UserReads, KeyReads, State.Valid;
    var d := b.ReleaseUser(user, est, now);
    assert UserMoved(a, d.ReleaseKey(key, est, now), now, user, 0) by {
      AdjustedAfterAdmission(a, s1, b, cfg, user, est, 0 - est, now);
      KeySectionKeepsUsers(d, key, 0 - est, now);
    }
    UserSectionKeepsKeys(b, user, 0 - est, now);
    ReleasedAgain(a, d, key, est, now);
  }

  lemma ChargeMovesUser(a: State, s1: State, b: State, cfg: Config, user: string, key: string, est: nat, actual: int,
                        now: Instant)
    requires a.Valid() && (s1, None) == Admission(a, cfg, user, est, now) && b.counters == s1.counters
    ensures UserMoved(a, b.SettleUser(user, est, actual, now).SettleKey(key, est, actual, now), now, user, actual)
  {
    hide UserReads, KeyReads, State.Valid;
    AdjustedAfterAdmission(a, s1, b, cfg, user, est, actual - est, now);
    KeySectionKeepsUsers(b.SettleUser(user, est, actual, now), key, actual - est, now);
  }

  lemma ChargeMovesKey(a: State, b: State, user: string, key: string, est: nat, actual: int, now: Instant)
    requires a.Valid() && KeyTaken(a, b, now, key, est)
    ensures KeyMoved(a, b.SettleUser(user, est, actual, now).SettleKey(key, est, actual, now), now, key, actual, a.Flying(key))
  {
    hide UserReads, KeyReads, State.Valid;
    TakenThroughUserSection(a, b, key, est, now, user, actual - est);
    AdjustedAfterTaking(a, b.SettleUser(user, est, actual, now), key, est, actual - est, now);
  }
}

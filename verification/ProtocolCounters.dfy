// The three kinds of window counter seen alike: each event touches a counter by one
// operation or not at all, and moves its account and the shares behind it accordingly.
module ProtocolCounters {
  import opened Wrappers
  import opened Clock
  import opened Quota
  import opened StoreModel
  import opened Requests
  import opened Ledger
  import opened Protocol
  import opened ProtocolLedger
  import opened ProtocolRuns

  datatype Counter = UserHour(user: string) | UserDay(user: string) | KeyHour(key: string)

  function AccountOf(s: System, c: Counter): Account {
    match c
    case UserHour(u) => s.HourAccount(u)
    case UserDay(u) => s.DayAccount(u)
    case KeyHour(k) => s.KeyAccount(k)
  }

  ghost function SharesOf(reqs: Table, c: Counter): Shares {
    match c
    case UserHour(u) => HourShares(reqs, u)
    case UserDay(u) => DayShares(reqs, u)
    case KeyHour(k) => KeyShares(reqs, k)
  }

  function StartOf(c: Counter, t: Instant): Instant {
    if c.UserDay? then DayStart(t) else HourStart(t)
  }

  // What an event does to a counter.
  datatype Touch = Untouched | Touched(now: Instant, op: Op)

  ghost function TouchOf(s: System, e: Event, c: Counter): Touch
    requires Enabled(s, e)
  {
    var ue, ke := UserEffectOf(s, e), KeyEffectOf(s, e);
    match c
    case UserHour(u) => if ue.OnUser? && ue.user == u then Touched(ue.now, ue.hourOp) else Untouched
    case UserDay(u) => if ue.OnUser? && ue.user == u then Touched(ue.now, ue.dayOp) else Untouched
    case KeyHour(k) => if ke.OnKey? && ke.key == k then Touched(ke.now, ke.op) else Untouched
  }

  // The event deletes what the counter belongs to.
  predicate Forgets(s: System, e: Event, c: Counter) {
    match c
    case UserHour(u) => u in ForgottenUsers(s, e)
    case UserDay(u) => u in ForgottenUsers(s, e)
    case KeyHour(k) => k in ForgottenKeys(s, e)
  }

  lemma DeletionTouchesNothing(s: System, e: Event, c: Counter)
    requires Enabled(s, e) && Forgets(s, e, c)
    ensures TouchOf(s, e, c).Untouched? && !e.OfRequest()
  {
  }

  /** Every event moves every counter by its touch. */
  lemma CounterFollows(s: System, e: Event, c: Counter)
    requires Enabled(s, e) && s.st.Valid()
    ensures var (t, before, after) := (TouchOf(s, e, c), AccountOf(s, c), AccountOf(Step(s, e), c));
            if Forgets(s, e, c) then t.Untouched? && after == NEW_ACCOUNT
            else if t.Touched? then after == Act(before, StartOf(c, t.now), t.op)
            else after == before
    ensures var (t, before, after) := (TouchOf(s, e, c), SharesOf(s.reqs, c), SharesOf(Step(s, e).reqs, c));
            if t.Touched? then Fits(before, t.op) && after == Move(before, StartOf(c, t.now), t.op)
            else after == before
  {
    hide Enabled, State.Valid, UserEffectOf, KeyEffectOf, NextStore, NextRequests, Step, HourShares, DayShares, KeyShares, Act,
         HourStart, DayStart, ForgottenUsers, ForgottenKeys;
    if Forgets(s, e, c) {
      DeletionTouchesNothing(s, e, c);
    }
    StepBooks(s, e);
    match c
    case UserHour(u) =>
      UserAccountsFollow(s, e, u);
      HourSharesFollow(s, e, u);
    case UserDay(u) =>
      UserAccountsFollow(s, e, u);
      DaySharesFollow(s, e, u);
    case KeyHour(k) =>
      KeyAccountFollows(s, e, k);
      KeySharesFollow(s, e, k);
  }

  lemma CounterIsSound(s: System, c: Counter)
    requires Inv(s)
    ensures Sound(AccountOf(s, c), SharesOf(s.reqs, c))
  {
    hide Sound, HourShares, DayShares, KeyShares, State.Valid, FlightSound;
    match c
    case UserHour(u) => assert UserBooksSound(s, u);
    case UserDay(u) => assert UserBooksSound(s, u);
    case KeyHour(k) => assert KeyBooksSound(s, k);
  }

  lemma CounterBegins(cfg: Config, users: map<string, User>, keys: map<string, UpstreamKey>, latest: Instant, c: Counter)
    ensures var s := Initial(cfg, users, keys, latest);
            AccountOf(s, c) == NEW_ACCOUNT && SharesOf(s.reqs, c) == map[]
  {
    var s := Initial(cfg, users, keys, latest);
    match c
    case UserHour(u) => assert HourShares(s.reqs, u) == map[];
    case UserDay(u) => assert DayShares(s.reqs, u) == map[];
    case KeyHour(k) => assert KeyShares(s.reqs, k) == map[];
  }
}

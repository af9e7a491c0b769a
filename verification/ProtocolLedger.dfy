// What every step of the protocol keeps: balanced books, in-flight counts and single
// give-backs.
module ProtocolLedger {
  import opened Wrappers
  import opened Clock
  import opened Quota
  import opened StoreModel
  import opened Router
  import opened Requests
  import opened Ledger
  import opened Protocol

  // ---- who accounts for what ----

  ghost function HourShares(reqs: Table, u: string): Shares {
    map r | r in reqs && reqs[r].user == u && reqs[r].UserShare().Some?
      :: Share(HourStart(reqs[r].now), reqs[r].UserShare().value)
  }

  ghost function DayShares(reqs: Table, u: string): Shares {
    map r | r in reqs && reqs[r].user == u && reqs[r].UserShare().Some?
      :: Share(DayStart(reqs[r].now), reqs[r].UserShare().value)
  }

  ghost function KeyShares(reqs: Table, k: string): Shares {
    map r | r in reqs && reqs[r].KeyShare(k).Some?
      :: Share(HourStart(reqs[r].keyAt), reqs[r].KeyShare(k).value)
  }

  ghost function Holders(reqs: Table, k: string): set<nat> {
    set r | r in reqs && reqs[r].HoldsKey(k)
  }

  // ---- a step moves each account by the effect it claims ----

  // How the sections on one user or key show in the reads of another.

  lemma UserReserved(st: State, user: string, est: nat, hl: int, dl: int, working: bool, now: Instant, u: string, k: string)
    requires st.Valid()
    ensures var ((st', err), c) := (st.ReserveUser(user, est, hl, dl, working, now), st.Counters(u));
            && st'.KeyHour(k) == st.KeyHour(k)
            && st'.Counters(u) ==
               if err.Some? || u != user then c
               else UserCounters(Shifted(c.hour, HourStart(now), est), Shifted(c.day, DayStart(now), est))
  {
    hide HourStart, DayStart, State.Valid;
    CountersAtOk(st, user, now);
  }

  lemma UserAdjusted(st: State, user: string, delta: int, now: Instant, u: string, k: string)
    requires st.Valid()
    ensures var (st', c) := (st.AdjustUser(user, delta, now), st.Counters(u));
            && st'.KeyHour(k) == st.KeyHour(k)
            && st'.Counters(u) ==
               if u != user then c
               else UserCounters(Shifted(c.hour, HourStart(now), delta), Shifted(c.day, DayStart(now), delta))
    ensures delta == 0 ==> st.TouchUser(user, now) == st.AdjustUser(user, 0, now)
  {
    hide HourStart, DayStart, State.Valid;
    CountersAtOk(st, user, now);
  }

  lemma KeyReserved(st: State, key: string, est: nat, limit: int, working: bool, now: Instant, u: string, k: string)
    requires st.Valid()
    ensures var ((st', err), c) := (st.ReserveKey(key, est, limit, working, now), st.KeyHour(k));
            && st'.Counters(u) == st.Counters(u)
            && st'.KeyHour(k) ==
               if err == Some(KeyMissing) || k != key then c
               else Shifted(c, HourStart(now), if err.Some? then 0 else est)
  {
    hide HourStart, State.Valid;
    KeyHourAtOk(st, key, now);
  }

  lemma KeyAdjusted(st: State, key: string, delta: int, now: Instant, u: string, k: string)
    ensures var (st', c) := (st.AdjustKey(key, delta, now), st.KeyHour(k));
            && st'.Counters(u) == st.Counters(u)
            && st'.KeyHour(k) == if k == key then Shifted(c, HourStart(now), delta) else c
  {
    hide HourStart;
  }

  lemma KeyTouched(st: State, key: string, now: Instant, u: string, k: string)
    requires st.Valid()
    ensures var (st', c) := (st.TouchKey(key, now), st.KeyHour(k));
            && st'.Counters(u) == st.Counters(u)
            && st'.KeyHour(k) == if k == key then Shifted(c, HourStart(now), 0) else c
  {
    hide HourStart, State.Valid;
    KeyHourAtOk(st, key, now);
  }

  ghost predicate CountersMoved(s: System, e: Event, u: string, k: string)
    requires Enabled(s, e)
  {
    var ue, ke, c, h := UserEffectOf(s, e), KeyEffectOf(s, e), s.st.Counters(u), s.st.KeyHour(k);
    && NextStore(s, e).Counters(u) ==
       (if u in ForgottenUsers(s, e) then ZERO_COUNTERS
        else if ue.OnUser? && ue.user == u then
          UserCounters(Shifted(c.hour, HourStart(ue.now), Delta(ue.hourOp)),
                       Shifted(c.day, DayStart(ue.now), Delta(ue.dayOp)))
        else c)
    && NextStore(s, e).KeyHour(k) ==
       (if k in ForgottenKeys(s, e) then ZERO_COUNTER
        else if ke.OnKey? && ke.key == k then Shifted(h, HourStart(ke.now), Delta(ke.op))
        else h)
  }

  lemma UserSectionMoves(s: System, e: Event, u: string, k: string)
    requires Enabled(s, e) && s.st.Valid() && (e.ReserveUser? || e.ReleaseUser? || e.SettleUser? || e.ReadUser?)
    ensures CountersMoved(s, e, u, k)
  {
    hide State.Valid, State.ReserveUser, State.ReserveKey, State.AdjustUser, State.AdjustKey, State.TouchKey, Shifted,
         HourStart, DayStart, Config.IsWorkingHour, Selection, Chosen;
    match e
    case ReserveUser(r, hl, dl) =>
      var q := s.reqs[r];
      UserReserved(s.st, q.user, q.est, hl, dl, s.Working(q), q.now, u, k);
    case ReleaseUser(r, now) => UserAdjusted(s.st, s.reqs[r].user, 0 - s.reqs[r].est, now, u, k);
    case SettleUser(r, now) => UserAdjusted(s.st, s.reqs[r].user, s.reqs[r].phase.actual - s.reqs[r].est, now, u, k);
    case ReadUser(user, now) => UserAdjusted(s.st, user, 0, now, u, k);
  }

  lemma KeySectionMoves(s: System, e: Event, u: string, k: string)
    requires Enabled(s, e) && s.st.Valid()
    requires e.ReserveKey? || e.Reply? || e.ReleaseKeyAgain? || e.SettleKey? || e.ReadKey?
    ensures CountersMoved(s, e, u, k)
  {
    hide State.Valid, State.ReserveUser, State.ReserveKey, State.AdjustUser, State.AdjustKey, State.TouchKey, Shifted,
         HourStart, DayStart, Config.IsWorkingHour, Selection, Chosen;
    match e
    case ReserveKey(r, now) =>
      var q := s.reqs[r];
      KeyReserved(s.st, q.phase.key, q.est, q.phase.limit, s.Working(q), now, u, k);
    case Reply(r, outcome, now) => KeyAdjusted(s.st, s.reqs[r].phase.key, 0 - s.reqs[r].est, now, u, k);
    case ReleaseKeyAgain(r, now) => KeyAdjusted(s.st, s.reqs[r].phase.key, 0 - s.reqs[r].est, now, u, k);
    case SettleKey(r, now) => KeyAdjusted(s.st, s.reqs[r].phase.key, s.reqs[r].phase.actual - s.reqs[r].est, now, u, k);
    case ReadKey(key, now) => KeyTouched(s.st, key, now, u, k);
  }

  lemma RecordChangeMoves(s: System, e: Event, u: string, k: string)
    requires Enabled(s, e)
    requires !(e.ReserveUser? || e.ReleaseUser? || e.SettleUser? || e.ReadUser?)
    requires !(e.ReserveKey? || e.Reply? || e.ReleaseKeyAgain? || e.SettleKey? || e.ReadKey?)
    ensures CountersMoved(s, e, u, k)
  {
    hide State.Valid, State.ReserveUser, State.ReserveKey, State.AdjustUser, State.AdjustKey, State.TouchKey, Shifted,
         HourStart, DayStart, Config.IsWorkingHour, Selection, Chosen;
  }

  /** Both kinds of counter move by the effects the event claims. */
  lemma CountersFollow(s: System, e: Event, u: string, k: string)
    requires Enabled(s, e) && s.st.Valid()
    ensures CountersMoved(s, e, u, k)
  {
    hide CountersMoved, Enabled, State.Valid;
    if e.ReserveUser? || e.ReleaseUser? || e.SettleUser? || e.ReadUser? {
      UserSectionMoves(s, e, u, k);
    } else if e.ReserveKey? || e.Reply? || e.ReleaseKeyAgain? || e.SettleKey? || e.ReadKey? {
      KeySectionMoves(s, e, u, k);
    } else {
      RecordChangeMoves(s, e, u, k);
    }
  }

  lemma FlyingFollows(s: System, e: Event, k: string)
    requires Enabled(s, e)
    ensures var ke, n := KeyEffectOf(s, e), s.st.Flying(k);
            NextStore(s, e).Flying(k) ==
            if k in ForgottenKeys(s, e) then 0
            else if ke.OnKey? && ke.key == k && ke.op.Enter? then n + 1
            else if ke.OnKey? && ke.key == k && !ke.op.Open? && n > 0 then n - 1
            else n
  {
    hide HourStart, DayStart, Selection, Chosen, Config.IsWorkingHour, EnsureWindow;
  }

  // The parts of a step.
  lemma StepBooks(s: System, e: Event)
    requires Enabled(s, e)
    ensures var ue, s' := UserEffectOf(s, e), Step(s, e);
            && s'.st == NextStore(s, e) && s'.reqs == NextRequests(s, e)
            && s'.hours == (if ue.OffUser? then s.hours
                            else s.hours[ue.user := Act(s.HourAccount(ue.user), HourStart(ue.now), ue.hourOp).b]) - ForgottenUsers(s, e)
            && s'.days == (if ue.OffUser? then s.days
                           else s.days[ue.user := Act(s.DayAccount(ue.user), DayStart(ue.now), ue.dayOp).b]) - ForgottenUsers(s, e)
  {
    hide Enabled, NextStore, NextRequests, UserEffectOf, KeyEffectOf, Act, HourStart, DayStart;
  }

  lemma UserAccountsFollow(s: System, e: Event, u: string)
    requires Enabled(s, e) && s.st.Valid()
    ensures var ue, s' := UserEffectOf(s, e), Step(s, e);
            if u in ForgottenUsers(s, e) then s'.HourAccount(u) == NEW_ACCOUNT == s'.DayAccount(u)
            else if ue.OnUser? && ue.user == u then
              && s'.HourAccount(u) == Act(s.HourAccount(u), HourStart(ue.now), ue.hourOp)
              && s'.DayAccount(u) == Act(s.DayAccount(u), DayStart(ue.now), ue.dayOp)
            else s'.HourAccount(u) == s.HourAccount(u) && s'.DayAccount(u) == s.DayAccount(u)
  {
    hide State.Valid, Enabled, NextStore, NextRequests, UserEffectOf, KeyEffectOf, Reading, HourStart, DayStart,
         Shifted, Ledger.Entry, Opened, Delta, Step, ForgottenUsers;
    StepBooks(s, e);
    CountersFollow(s, e, u, "");
  }

  lemma KeyAccountFollows(s: System, e: Event, k: string)
    requires Enabled(s, e) && s.st.Valid()
    ensures var ke := KeyEffectOf(s, e);
            Step(s, e).KeyAccount(k) ==
            if k in ForgottenKeys(s, e) then NEW_ACCOUNT
            else if ke.OnKey? && ke.key == k then Act(s.KeyAccount(k), HourStart(ke.now), ke.op)
            else s.KeyAccount(k)
  {
    hide State.Valid, Enabled, NextStore, NextRequests, UserEffectOf, KeyEffectOf, Reading, HourStart, DayStart;
    CountersFollow(s, e, "", k);
  }

  // ---- and each request's share with it ----

  // How an operation changes what request `r` accounts for.
  predicate Reshares(op: Op, r: nat, before: Option<nat>, after: Option<nat>) {
    match op
    case Open => after == before
    case Stray(_) => after == before
    case Enter(x, est, _) => x == r && before.None? && after == Some(est)
    case Leave(x, est) => x == r && before == Some(est) && after.None?
    case Bill(x, est, actual) => x == r && before == Some(est) && after == Some(Max(0, actual))
  }

  // A reply leaves the user's share alone and frees the key unless it is accepted.
  lemma ReplyShares(q: Request, o: Outcome, k: string)
    requires q.phase.Calling?
    ensures var q' := q.Answered(o).AfterReply(q.phase.key, o);
            && q'.user == q.user && q'.now == q.now && q'.est == q.est && q'.keyAt == q.keyAt
            && q'.UserShare() == q.UserShare() == Some(q.est) && q'.ended == q.ended
            && (if q.Accepted(o) then q'.HoldsKey(k) == q.HoldsKey(k) && q'.KeyShare(k) == q.KeyShare(k)
                else !q'.HoldsKey(k) && q'.KeyShare(k).None?)
  {
  }

  lemma ShareIgnoresCalls(q: Request, calls: seq<Made>, t: Tally, k: string)
    ensures var q' := q.(calls := calls, tally := t);
            q'.UserShare() == q.UserShare() && q'.KeyShare(k) == q.KeyShare(k) && q'.HoldsKey(k) == q.HoldsKey(k)
  {
  }

  lemma UserShareFollows(s: System, e: Event)
    requires Enabled(s, e) && e.OfRequest() && !e.Arrive?
    ensures var q, q', ue := s.reqs[e.r], NextRequest(s, e), UserEffectOf(s, e);
            && q'.user == q.user && q'.now == q.now && q'.est == q.est
            && (ue.OffUser? ==> q'.UserShare() == q.UserShare())
            && (ue.OnUser? ==> ue.user == q.user
                               && Reshares(ue.hourOp, e.r, q.UserShare(), q'.UserShare())
                               && Reshares(ue.dayOp, e.r, q.UserShare(), q'.UserShare())
                               && (ue.hourOp.Enter? ==> ue.now == q.now))
  {
    hide State.ReserveUser, State.ReserveKey, Selection, Chosen, Config.IsWorkingHour;
    if e.Reply? {
      hide Request.AfterReply, Request.UserShare;
      ReplyShares(s.reqs[e.r], e.outcome, "");
      ShareIgnoresCalls(s.reqs[e.r].Answered(e.outcome).AfterReply(s.reqs[e.r].phase.key, e.outcome),
                        NextRequest(s, e).calls, NextRequest(s, e).tally, "");
    }
  }

  lemma KeyShareFollows(s: System, e: Event, k: string)
    requires Enabled(s, e) && e.OfRequest() && !e.Arrive?
    ensures var q, q', ke := s.reqs[e.r], NextRequest(s, e), KeyEffectOf(s, e);
            && (ke.OnKey? && ke.key == k ==>
                  && Reshares(ke.op, e.r, q.KeyShare(k), q'.KeyShare(k))
                  && q'.keyAt == if ke.op.Enter? then ke.now else q.keyAt)
            && (ke.OffKey? || ke.key != k ==>
                  q'.KeyShare(k) == q.KeyShare(k) && (q.KeyShare(k).Some? ==> q'.keyAt == q.keyAt))
  {
    hide State.ReserveUser, State.ReserveKey, Selection, Chosen, Config.IsWorkingHour;
    if e.Reply? {
      ReplyShares(s.reqs[e.r], e.outcome, k);
      ShareIgnoresCalls(s.reqs[e.r].Answered(e.outcome).AfterReply(s.reqs[e.r].phase.key, e.outcome),
                        NextRequest(s, e).calls, NextRequest(s, e).tally, k);
    }
  }

  lemma HourSharesPut(reqs: Table, r: nat, q: Request, u: string)
    ensures HourShares(reqs[r := q], u) ==
            if q.user == u && q.UserShare().Some?
            then HourShares(reqs, u)[r := Share(HourStart(q.now), q.UserShare().value)]
            else HourShares(reqs, u) - {r}
  {
  }

  lemma DaySharesPut(reqs: Table, r: nat, q: Request, u: string)
    ensures DayShares(reqs[r := q], u) ==
            if q.user == u && q.UserShare().Some?
            then DayShares(reqs, u)[r := Share(DayStart(q.now), q.UserShare().value)]
            else DayShares(reqs, u) - {r}
  {
  }

  lemma KeySharesPut(reqs: Table, r: nat, q: Request, k: string)
    ensures KeyShares(reqs[r := q], k) ==
            if q.KeyShare(k).Some?
            then KeyShares(reqs, k)[r := Share(HourStart(q.keyAt), q.KeyShare(k).value)]
            else KeyShares(reqs, k) - {r}
  {
  }

  lemma HourSharesOfOwn(s: System, e: Event, u: string)
    requires Enabled(s, e) && e.OfRequest() && !e.Arrive? && e.r in s.reqs
    ensures var ue, before := UserEffectOf(s, e), HourShares(s.reqs, u);
            if ue.OnUser? && ue.user == u
            then Fits(before, ue.hourOp)
                 && HourShares(NextRequests(s, e), u) == Move(before, HourStart(ue.now), ue.hourOp)
            else HourShares(NextRequests(s, e), u) == before
  {
    hide Enabled, NextRequest, UserEffectOf, Request.UserShare, HourStart;
    HourSharesPut(s.reqs, e.r, NextRequest(s, e), u);
    UserShareFollows(s, e);
  }

  lemma HourSharesFollow(s: System, e: Event, u: string)
    requires Enabled(s, e)
    ensures var ue, before := UserEffectOf(s, e), HourShares(s.reqs, u);
            if ue.OnUser? && ue.user == u
            then Fits(before, ue.hourOp)
                 && HourShares(NextRequests(s, e), u) == Move(before, HourStart(ue.now), ue.hourOp)
            else HourShares(NextRequests(s, e), u) == before
  {
    hide HourStart, HourShares;
    if e.Arrive? {
      HourSharesPut(s.reqs, e.r, NextRequest(s, e), u);
      HourSharesWithout(s.reqs, e.r, u);
    } else if e.OfRequest() {
      HourSharesOfOwn(s, e, u);
    }
  }

  lemma HourSharesWithout(reqs: Table, r: nat, u: string)
    ensures r !in reqs ==> HourShares(reqs, u) - {r} == HourShares(reqs, u)
  {
  }

  lemma DaySharesOfOwn(s: System, e: Event, u: string)
    requires Enabled(s, e) && e.OfRequest() && !e.Arrive? && e.r in s.reqs
    ensures var ue, before := UserEffectOf(s, e), DayShares(s.reqs, u);
            if ue.OnUser? && ue.user == u
            then Fits(before, ue.dayOp)
                 && DayShares(NextRequests(s, e), u) == Move(before, DayStart(ue.now), ue.dayOp)
            else DayShares(NextRequests(s, e), u) == before
  {
    hide Enabled, NextRequest, UserEffectOf, Request.UserShare, DayStart;
    DaySharesPut(s.reqs, e.r, NextRequest(s, e), u);
    UserShareFollows(s, e);
  }

  lemma DaySharesFollow(s: System, e: Event, u: string)
    requires Enabled(s, e)
    ensures var ue, before := UserEffectOf(s, e), DayShares(s.reqs, u);
            if ue.OnUser? && ue.user == u
            then Fits(before, ue.dayOp)
                 && DayShares(NextRequests(s, e), u) == Move(before, DayStart(ue.now), ue.dayOp)
            else DayShares(NextRequests(s, e), u) == before
  {
    hide DayStart, DayShares;
    if e.Arrive? {
      DaySharesPut(s.reqs, e.r, NextRequest(s, e), u);
      DaySharesWithout(s.reqs, e.r, u);
    } else if e.OfRequest() {
      DaySharesOfOwn(s, e, u);
    }
  }

  lemma DaySharesWithout(reqs: Table, r: nat, u: string)
    ensures r !in reqs ==> DayShares(reqs, u) - {r} == DayShares(reqs, u)
  {
  }

  lemma KeySharesOfOwn(s: System, e: Event, k: string)
    requires Enabled(s, e) && e.OfRequest() && !e.Arrive? && e.r in s.reqs
    ensures var ke, before := KeyEffectOf(s, e), KeyShares(s.reqs, k);
            if ke.OnKey? && ke.key == k
            then Fits(before, ke.op)
                 && KeyShares(NextRequests(s, e), k) == Move(before, HourStart(ke.now), ke.op)
            else KeyShares(NextRequests(s, e), k) == before
  {
    hide Enabled, NextRequest, KeyEffectOf, Request.KeyShare, HourStart;
    KeySharesPut(s.reqs, e.r, NextRequest(s, e), k);
    KeyShareFollows(s, e, k);
  }

  lemma KeySharesFollow(s: System, e: Event, k: string)
    requires Enabled(s, e)
    ensures var ke, before := KeyEffectOf(s, e), KeyShares(s.reqs, k);
            if ke.OnKey? && ke.key == k
            then Fits(before, ke.op)
                 && KeyShares(NextRequests(s, e), k) == Move(before, HourStart(ke.now), ke.op)
            else KeyShares(NextRequests(s, e), k) == before
  {
    hide HourStart, KeyShares;
    if e.Arrive? {
      KeySharesPut(s.reqs, e.r, NextRequest(s, e), k);
      KeySharesWithout(s.reqs, e.r, k);
    } else if e.OfRequest() {
      KeySharesOfOwn(s, e, k);
    }
  }

  lemma KeySharesWithout(reqs: Table, r: nat, k: string)
    ensures r !in reqs ==> KeyShares(reqs, k) - {r} == KeyShares(reqs, k)
  {
  }

  // ---- the ledger invariant ----

  ghost predicate UserBooksSound(s: System, u: string) {
    && Sound(s.HourAccount(u), HourShares(s.reqs, u))
    && Sound(s.DayAccount(u), DayShares(s.reqs, u))
  }

  ghost predicate KeyBooksSound(s: System, k: string) {
    Sound(s.KeyAccount(k), KeyShares(s.reqs, k))
  }

  /** The in-flight count of a key is its number of holders, less at most the
      landings nobody accounts for. */
  ghost predicate FlightSound(s: System, k: string) {
    s.st.Flying(k) <= |Holders(s.reqs, k)| <= s.st.Flying(k) + Get(s.strays, k, 0)
  }

  ghost predicate Inv(s: System) {
    && s.st.Valid()
    && (forall u :: UserBooksSound(s, u))
    && (forall k :: KeyBooksSound(s, k) && FlightSound(s, k))
    && (forall r :: r in s.reqs ==> s.reqs[r].TallyOk())
  }

  lemma NextStoreValid(s: System, e: Event)
    requires Enabled(s, e) && s.st.Valid()
    ensures NextStore(s, e).Valid()
  {
    hide State.Valid, State.ReserveUser, State.ReserveKey, State.AdjustUser, State.AdjustKey, State.DeleteUser, State.DeleteKey;
    match e
    case ReserveUser(r, hl, dl) =>
      var q := s.reqs[r];
      SectionKeepsValid(s.st, ReserveUserS(q.user, q.est, hl, dl, s.Working(q), q.now));
    case ReserveKey(r, now) =>
      var q := s.reqs[r];
      SectionKeepsValid(s.st, ReserveKeyS(q.phase.key, q.est, q.phase.limit, s.Working(q), now));
    case Reply(r, outcome, now) =>
      SectionKeepsValid(s.st, AdjustKeyS(s.reqs[r].phase.key, 0 - s.reqs[r].est, now));
    case ReleaseUser(r, now) => SectionKeepsValid(s.st, AdjustUserS(s.reqs[r].user, 0 - s.reqs[r].est, now));
    case ReleaseKeyAgain(r, now) => SectionKeepsValid(s.st, AdjustKeyS(s.reqs[r].phase.key, 0 - s.reqs[r].est, now));
    case SettleUser(r, now) =>
      SectionKeepsValid(s.st, AdjustUserS(s.reqs[r].user, s.reqs[r].phase.actual - s.reqs[r].est, now));
    case SettleKey(r, now) =>
      SectionKeepsValid(s.st, AdjustKeyS(s.reqs[r].phase.key, s.reqs[r].phase.actual - s.reqs[r].est, now));
    case ReadUser(user, now) => SectionKeepsValid(s.st, TouchUserS(user, now));
    case ReadKey(key, now) => SectionKeepsValid(s.st, TouchKeyS(key, now));
    case PutUser(user, u) => SectionKeepsValid(s.st, PutUserS(user, u));
    case PutKey(k) => SectionKeepsValid(s.st, PutKeyS(k));
    case DeleteUser(user) => SectionKeepsValid(s.st, DeleteUserS(user));
    case DeleteKey(key) => SectionKeepsValid(s.st, DeleteKeyS(key));
    case _ =>
  }

  lemma NewAccountIsSound(shares: Shares)
    ensures Sound(NEW_ACCOUNT, shares)
  {
  }

  lemma StepKeepsUserBooks(s: System, e: Event, u: string)
    requires Enabled(s, e) && s.st.Valid() && UserBooksSound(s, u)
    ensures UserBooksSound(Step(s, e), u)
  {
    hide State.Valid, Enabled, NextStore, UserEffectOf, HourStart, DayStart, HourShares, DayShares, Sound, Act;
    NewAccountIsSound(HourShares(s.reqs, u));
    NewAccountIsSound(DayShares(s.reqs, u));
    var ue := UserEffectOf(s, e);
    UserAccountsFollow(s, e, u);
    HourSharesFollow(s, e, u);
    DaySharesFollow(s, e, u);
    if ue.OnUser? && ue.user == u {
      ActKeepsSound(s.HourAccount(u), HourShares(s.reqs, u), HourStart(ue.now), ue.hourOp);
      ActKeepsSound(s.DayAccount(u), DayShares(s.reqs, u), DayStart(ue.now), ue.dayOp);
    }
  }

  // How a step of a request changes whether it holds a key.
  lemma HoldFollows(s: System, e: Event, k: string)
    requires Enabled(s, e) && e.OfRequest()
    ensures var before := e.r in s.reqs && s.reqs[e.r].HoldsKey(k);
            var ke, after := KeyEffectOf(s, e), NextRequest(s, e).HoldsKey(k);
            if ke.OnKey? && ke.key == k && ke.op.Enter? then !before && after
            else if ke.OnKey? && ke.key == k && (ke.op.Leave? || ke.op.Bill?) then before && !after
            else after == before
  {
    hide HourStart, State.ReserveUser, State.ReserveKey, Selection, Chosen, Config.IsWorkingHour, Request.AfterReply;
    if e.Reply? {
      ReplyShares(s.reqs[e.r], e.outcome, k);
      ShareIgnoresCalls(s.reqs[e.r].Answered(e.outcome).AfterReply(s.reqs[e.r].phase.key, e.outcome),
                        NextRequest(s, e).calls, NextRequest(s, e).tally, k);
    }
  }

  lemma OffRequestsOffHolders(s: System, e: Event)
    requires Enabled(s, e) && !e.OfRequest()
    ensures var ke := KeyEffectOf(s, e); ke.OnKey? ==> ke.op.Open?
  {
  }

  lemma HoldersPut(reqs: Table, r: nat, q: Request, k: string)
    ensures Holders(reqs[r := q], k) == if q.HoldsKey(k) then Holders(reqs, k) + {r} else Holders(reqs, k) - {r}
  {
  }

  lemma HoldersFollow(s: System, e: Event, k: string)
    requires Enabled(s, e)
    ensures var ke, before, after := KeyEffectOf(s, e), Holders(s.reqs, k), Holders(NextRequests(s, e), k);
            if ke.OnKey? && ke.key == k && ke.op.Enter? then e.OfRequest() && e.r !in before && after == before + {e.r}
            else if ke.OnKey? && ke.key == k && (ke.op.Leave? || ke.op.Bill?) then
              e.OfRequest() && e.r in before && after == before - {e.r}
            else after == before
  {
    hide Enabled, KeyEffectOf, NextRequest, Request.HoldsKey;
    if e.OfRequest() {
      HoldersPut(s.reqs, e.r, NextRequest(s, e), k);
      HoldFollows(s, e, k);
    } else {
      OffRequestsOffHolders(s, e);
    }
  }

  lemma StepKeepsKeyBooks(s: System, e: Event, k: string)
    requires Enabled(s, e) && s.st.Valid() && KeyBooksSound(s, k)
    ensures KeyBooksSound(Step(s, e), k)
  {
    hide State.Valid, Enabled, NextStore, KeyEffectOf, HourStart, KeyShares, Sound, Act;
    NewAccountIsSound(KeyShares(s.reqs, k));
    var ke := KeyEffectOf(s, e);
    KeyAccountFollows(s, e, k);
    KeySharesFollow(s, e, k);
    if ke.OnKey? && ke.key == k {
      ActKeepsSound(s.KeyAccount(k), KeyShares(s.reqs, k), HourStart(ke.now), ke.op);
    }
  }

  lemma StraysFollow(s: System, e: Event, k: string)
    requires Enabled(s, e)
    ensures var ke, n := KeyEffectOf(s, e), Get(s.strays, k, 0);
            Get(Step(s, e).strays, k, 0) ==
            if k in ForgottenKeys(s, e) then n + s.st.Flying(k)
            else if ke.OnKey? && ke.key == k && ke.op.Stray? then n + 1
            else n
    ensures k in ForgottenKeys(s, e) ==> KeyEffectOf(s, e).OffKey?
  {
    hide HourStart, DayStart, Selection, Chosen, Config.IsWorkingHour, Act, NextStore, NextRequests, UserEffectOf;
  }

  lemma StepKeepsFlight(s: System, e: Event, k: string)
    requires Enabled(s, e) && FlightSound(s, k)
    ensures FlightSound(Step(s, e), k)
  {
    hide Enabled, KeyEffectOf, NextStore, NextRequests, Step, Holders, ForgottenKeys;
    StepBooks(s, e);
    FlyingFollows(s, e, k);
    StraysFollow(s, e, k);
    HoldersFollow(s, e, k);
  }

  lemma TallyIgnoresCalls(q: Request, calls: seq<Made>)
    ensures q.(calls := calls).TallyOk() <==> q.TallyOk()
  {
  }

  lemma AfterReplyKeepsTally(q: Request, o: Outcome)
    requires q.phase.Calling? && q.TallyOk()
    ensures var q' := q.AfterReply(q.phase.key, o);
            && q'.tally == q.tally
            && (if q.Accepted(o) then q' else q'.(tally := q.tally.(keyGiven := q.tally.keyGiven + 1))).TallyOk()
  {
  }

  lemma ReplyKeepsTally(q: Request, o: Outcome, now: Instant)
    requires q.phase.Calling? && q.TallyOk()
    ensures var q' := q.Answered(o).AfterReply(q.phase.key, o);
            && (q.Accepted(o) ==> q'.TallyOk())
            && (!q.Accepted(o) ==> q'.Freed(now, 0).(tally := q.tally.(keyGiven := q.tally.keyGiven + 1)).TallyOk())
  {
    hide Request.AfterReply, Request.TallyOk;
    TallyIgnoresCalls(q, q.Answered(o).calls);
    AfterReplyKeepsTally(q.Answered(o), o);
    var q' := q.Answered(o).AfterReply(q.phase.key, o);
    TallyIgnoresCalls(q'.(tally := q.tally.(keyGiven := q.tally.keyGiven + 1)), q'.Freed(now, 0).calls);
  }

  lemma StepKeepsTally(s: System, e: Event)
    requires Enabled(s, e) && e.OfRequest() && (e.r in s.reqs ==> s.reqs[e.r].TallyOk())
    ensures NextRequest(s, e).TallyOk()
  {
    hide HourStart, DayStart, Config.IsWorkingHour, Selection, Chosen, State.ReserveKey, State.ReserveUser,
         Request.Answered, Request.AfterReply;
    if e.Reply? {
      ReplyKeepsTally(s.reqs[e.r], e.outcome, e.now);
    }
  }

  lemma StepKeepsInv(s: System, e: Event)
    requires Enabled(s, e) && Inv(s)
    ensures Inv(Step(s, e))
  {
    hide Enabled, Step, NextStore, NextRequest, State.Valid, UserBooksSound, KeyBooksSound, FlightSound, Request.TallyOk;
    NextStoreValid(s, e);
    StepBooks(s, e);
    forall u
      ensures UserBooksSound(Step(s, e), u)
    {
      StepKeepsUserBooks(s, e, u);
    }
    forall k
      ensures KeyBooksSound(Step(s, e), k) && FlightSound(Step(s, e), k)
    {
      StepKeepsKeyBooks(s, e, k);
      StepKeepsFlight(s, e, k);
    }
    if e.OfRequest() {
      StepKeepsTally(s, e);
    }
  }

  lemma {:induction false} RunKeepsInv(s: System, es: seq<Event>)
    requires Run(s, es) && Inv(s)
    ensures Inv(After(s, es))
    decreases |es|
  {
    if es != [] {
      StepKeepsInv(s, es[0]);
      RunKeepsInv(Step(s, es[0]), es[1..]);
    }
  }
}

// Any number of requests interleaving their store sections, with account reads,
// record changes and deletions in between, and the books kept alongside.
module Protocol {
  import opened Wrappers
  import opened Clock
  import opened Quota
  import opened StoreModel
  import opened Router
  import opened Requests
  import opened Ledger

  type Table = map<nat, Request>

  datatype Event =
    | Arrive(r: nat, user: string, model: string, est: nat, injected: bool, now: Instant)
    | ReserveUser(r: nat, hourlyLimit: int, dailyLimit: int)
    | Select(r: nat, key: string, now: Instant)
    | SelectNone(r: nat, reason: RouteError, now: Instant)
    | ReserveKey(r: nat, now: Instant)
    | Reply(r: nat, outcome: Outcome, now: Instant)
    | ReleaseUser(r: nat, now: Instant)
    | ReleaseKeyAgain(r: nat, now: Instant)
    | SettleUser(r: nat, now: Instant)
    | SettleKey(r: nat, now: Instant)
    | ReadUser(user: string, now: Instant)
    | ReadKey(key: string, now: Instant)
    | PutUser(user: string, u: User)
    | PutKey(k: UpstreamKey)
    | DeleteUser(user: string)
    | DeleteKey(key: string)
  {
    predicate OfRequest() {
      || Arrive? || ReserveUser? || Select? || SelectNone? || ReserveKey? || Reply?
      || ReleaseUser? || ReleaseKeyAgain? || SettleUser? || SettleKey?
    }
  }

  // `strays` counts, per key, the landings that no holder accounts for; `latest`
  // is the latest hour any reading that reached the store belongs to.
  datatype System = System(cfg: Config, st: State, reqs: Table, hours: map<string, Book>, days: map<string, Book>,
                           keys: map<string, Book>, strays: map<string, nat>, latest: Instant)
  {
    function HourAccount(u: string): Account {
      Account(st.Counters(u).hour, Get(hours, u, BLANK))
    }

    function DayAccount(u: string): Account {
      Account(st.Counters(u).day, Get(days, u, BLANK))
    }

    function KeyAccount(k: string): Account {
      Account(st.KeyHour(k), Get(keys, k, BLANK))
    }

    function Working(q: Request): bool {
      cfg.IsWorkingHour(q.now)
    }

    function QueryOf(q: Request, now: Instant): Query {
      RouteQuery(st, q.user, q.model, Working(q), cfg.defaultHourly, q.exclude, now)
    }
  }

  function Initial(cfg: Config, users: map<string, User>, keys: map<string, UpstreamKey>, latest: Instant): System {
    System(cfg, State(users, keys, map[], map[], map[]), map[], map[], map[], map[], map[], latest)
  }

  // ---- which events can happen ----

  predicate At(s: System, r: nat) {
    r in s.reqs
  }

  ghost predicate Enabled(s: System, e: Event) {
    match e
    case Arrive(r, _, _, _, _, _) => r !in s.reqs
    case ReserveUser(r, _, _) => At(s, r) && s.reqs[r].phase.Arrived?
    case Select(r, key, now) =>
      && At(s, r) && s.reqs[r].phase.Selecting? && key in s.st.keys
      && Chosen(s.st.keys.Values, s.QueryOf(s.reqs[r], now), s.st.keys[key])
    case SelectNone(r, reason, now) =>
      && At(s, r) && s.reqs[r].phase.Selecting?
      && Selection(s.st.keys.Values, s.QueryOf(s.reqs[r], now), Err(reason))
    case ReserveKey(r, _) => At(s, r) && s.reqs[r].phase.Reserving?
    case Reply(r, _, _) => At(s, r) && s.reqs[r].phase.Calling?
    case ReleaseUser(r, _) => At(s, r) && (s.reqs[r].phase.Failing? || s.reqs[r].phase.GoneUser?)
    case ReleaseKeyAgain(r, _) => At(s, r) && s.reqs[r].phase.GoneKey?
    case SettleUser(r, _) => At(s, r) && s.reqs[r].phase.SettlingUser?
    case SettleKey(r, _) => At(s, r) && s.reqs[r].phase.SettlingKey?
    case PutKey(_) => true
    case _ => true
  }

  // ---- what an event does to the counters ----

  datatype UserEffect = OffUser | OnUser(user: string, now: Instant, hourOp: Op, dayOp: Op)
  datatype KeyEffect = OffKey | OnKey(key: string, now: Instant, op: Op)

  function UserReservation(s: System, q: Request, hl: int, dl: int): (State, Option<StoreError>) {
    s.st.ReserveUser(q.user, q.est, hl, dl, s.Working(q), q.now)
  }

  function KeyReservation(s: System, q: Request, now: Instant): (State, Option<StoreError>)
    requires q.phase.Reserving?
  {
    s.st.ReserveKey(q.phase.key, q.est, q.phase.limit, s.Working(q), now)
  }

  ghost function UserEffectOf(s: System, e: Event): UserEffect
    requires Enabled(s, e)
  {
    match e
    case ReserveUser(r, hl, dl) =>
      var q := s.reqs[r];
      if UserReservation(s, q, hl, dl).1.Some? then OffUser
      else OnUser(q.user, q.now, Enter(r, q.est, s.Working(q) && hl > 0), Enter(r, q.est, dl > 0))
    case ReleaseUser(r, now) =>
      var q := s.reqs[r]; OnUser(q.user, now, Leave(r, q.est), Leave(r, q.est))
    case SettleUser(r, now) =>
      var q := s.reqs[r];
      var bill := Bill(r, q.est, q.phase.actual);
      OnUser(q.user, now, bill, bill)
    case ReadUser(user, now) => OnUser(user, now, Open, Open)
    case _ => OffUser
  }

  ghost function KeyEffectOf(s: System, e: Event): KeyEffect
    requires Enabled(s, e)
  {
    match e
    case ReserveKey(r, now) =>
      var q := s.reqs[r];
      var err := KeyReservation(s, q, now).1;
      if err == Some(KeyMissing) then OffKey
      else OnKey(q.phase.key, now, if err.Some? then Open else Enter(r, q.est, s.Working(q) && q.phase.limit > 0))
    case Reply(r, outcome, now) =>
      var q := s.reqs[r];
      if q.Accepted(outcome) then OffKey else OnKey(q.phase.key, now, Leave(r, q.est))
    case ReleaseKeyAgain(r, now) =>
      var q := s.reqs[r]; OnKey(q.phase.key, now, Stray(q.est))
    case SettleKey(r, now) =>
      var q := s.reqs[r]; OnKey(q.phase.key, now, Bill(r, q.est, q.phase.actual))
    case ReadKey(key, now) => OnKey(key, now, Open)
    case _ => OffKey
  }

  // ---- the three parts of a step ----

  ghost function NextStore(s: System, e: Event): State
    requires Enabled(s, e)
  {
    match e
    case ReserveUser(r, hl, dl) => UserReservation(s, s.reqs[r], hl, dl).0
    case ReserveKey(r, now) => KeyReservation(s, s.reqs[r], now).0
    case Reply(r, outcome, now) =>
      var q := s.reqs[r];
      if q.Accepted(outcome) then s.st else s.st.ReleaseKey(q.phase.key, q.est, now)
    case ReleaseUser(r, now) => s.st.ReleaseUser(s.reqs[r].user, s.reqs[r].est, now)
    case ReleaseKeyAgain(r, now) => s.st.ReleaseKey(s.reqs[r].phase.key, s.reqs[r].est, now)
    case SettleUser(r, now) => s.st.SettleUser(s.reqs[r].user, s.reqs[r].est, s.reqs[r].phase.actual, now)
    case SettleKey(r, now) => s.st.SettleKey(s.reqs[r].phase.key, s.reqs[r].est, s.reqs[r].phase.actual, now)
    case ReadUser(user, now) => s.st.TouchUser(user, now)
    case ReadKey(key, now) => s.st.TouchKey(key, now)
    case PutUser(user, u) => s.st.PutUser(user, u)
    case PutKey(k) => s.st.PutKey(k)
    case DeleteUser(user) => s.st.DeleteUser(user)
    case DeleteKey(key) => s.st.DeleteKey(key)
    case _ => s.st
  }

  ghost function NextRequest(s: System, e: Event): Request
    requires Enabled(s, e) && e.OfRequest()
  {
    match e
    case Arrive(_, user, model, est, injected, now) =>
      Request(user, model, est, injected, now, Arrived, 0, {}, false, None, now, Tally(0, 0, 0, 0), None, [], None)
    case ReserveUser(r, hl, dl) =>
      var q := s.reqs[r];
      var err := UserReservation(s, q, hl, dl).1;
      if err.Some? then q.(phase := Done(Rejected(err.value)))
      else q.(phase := Selecting, tally := q.tally.(userTaken := q.tally.userTaken + 1))
    case Select(r, key, _) =>
      s.reqs[r].(phase := Reserving(key, HourlyLimit(s.st.keys[key], s.cfg.defaultHourly)))
    case SelectNone(r, reason, _) => s.reqs[r].(phase := Failing(NoRoute(reason)))
    case ReserveKey(r, now) =>
      var q := s.reqs[r];
      if KeyReservation(s, q, now).1.Some? then q.Exclude(q.phase.key).(phase := Selecting)
      else
        q.Calls(q.phase.key, now).(phase := Calling(q.phase.key), keyAt := now,
                              tally := q.tally.(keyTaken := q.tally.keyTaken + 1))
    case Reply(r, outcome, now) =>
      var q := s.reqs[r];
      var q' := q.Answered(outcome).AfterReply(q.phase.key, outcome);
      if q.Accepted(outcome) then q' else q'.Freed(now, 0).(tally := q.tally.(keyGiven := q.tally.keyGiven + 1))
    case ReleaseUser(r, now) =>
      var q := s.reqs[r];
      q.(phase := if q.phase.Failing? then Done(Failed(q.phase.failure)) else GoneKey(q.phase.key),
         ended := Some(now), tally := q.tally.(userGiven := q.tally.userGiven + 1))
    case ReleaseKeyAgain(r, now) =>
      var q := s.reqs[r];
      q.(phase := Done(Disconnected), again := Some(Again(q.phase.key, now)), tally := q.tally.(keyGiven := q.tally.keyGiven + 1))
    case SettleUser(r, now) =>
      var q := s.reqs[r];
      q.(phase := SettlingKey(q.phase.key, q.phase.actual), ended := Some(now), tally := q.tally.(userGiven := q.tally.userGiven + 1))
    case SettleKey(r, now) =>
      var q := s.reqs[r];
      q.Freed(now, q.phase.actual).(phase := Done(Served(q.phase.key, q.phase.actual)), tally := q.tally.(keyGiven := q.tally.keyGiven + 1))
  }

  ghost function NextRequests(s: System, e: Event): Table
    requires Enabled(s, e)
  {
    if e.OfRequest() then s.reqs[e.r := NextRequest(s, e)] else s.reqs
  }

  // Users and keys whose counters a deletion forgets.
  function ForgottenUsers(s: System, e: Event): set<string> {
    if e.DeleteUser? && e.user in s.st.users then {e.user} else {}
  }

  function ForgottenKeys(s: System, e: Event): set<string> {
    if e.DeleteUser? && e.user in s.st.users then s.st.OwnedBy(e.user)
    else if e.DeleteKey? && e.key in s.st.keys then {e.key}
    else {}
  }

  // The clock reading an event brings to the store: a user reservation brings the
  // one taken on arrival.
  ghost function Reading(s: System, e: Event): Option<Instant>
    requires Enabled(s, e)
  {
    match e
    case Arrive(_, _, _, _, _, _) => None
    case ReserveUser(r, _, _) => Some(s.reqs[r].now)
    case Select(_, _, now) => Some(now)
    case SelectNone(_, _, now) => Some(now)
    case ReserveKey(_, now) => Some(now)
    case Reply(_, _, now) => Some(now)
    case ReleaseUser(_, now) => Some(now)
    case ReleaseKeyAgain(_, now) => Some(now)
    case SettleUser(_, now) => Some(now)
    case SettleKey(_, now) => Some(now)
    case ReadUser(_, now) => Some(now)
    case ReadKey(_, now) => Some(now)
    case _ => None
  }

  ghost function Step(s: System, e: Event): System
    requires Enabled(s, e)
  {
    var ue, ke := UserEffectOf(s, e), KeyEffectOf(s, e);
    var hours := if ue.OffUser? then s.hours
                 else s.hours[ue.user := Act(s.HourAccount(ue.user), HourStart(ue.now), ue.hourOp).b];
    var days := if ue.OffUser? then s.days
                else s.days[ue.user := Act(s.DayAccount(ue.user), DayStart(ue.now), ue.dayOp).b];
    var keys := if ke.OffKey? then s.keys
                else s.keys[ke.key := Act(s.KeyAccount(ke.key), HourStart(ke.now), ke.op).b];
    var lost := ForgottenKeys(s, e);
    var strays := if e.ReleaseKeyAgain? then s.strays[ke.key := Get(s.strays, ke.key, 0) + 1]
                  else s.strays + map k | k in lost :: Get(s.strays, k, 0) + s.st.Flying(k);
    var reading := Reading(s, e);
    System(s.cfg, NextStore(s, e), NextRequests(s, e),
           hours - ForgottenUsers(s, e), days - ForgottenUsers(s, e), keys - lost, strays,
           if reading.Some? then Max(s.latest, HourStart(reading.value)) else s.latest)
  }

  // ---- runs ----

  ghost predicate Run(s: System, es: seq<Event>)
    decreases |es|
  {
    es == [] || (Enabled(s, es[0]) && Run(Step(s, es[0]), es[1..]))
  }

  ghost function After(s: System, es: seq<Event>): System
    requires Run(s, es)
    decreases |es|
  {
    if es == [] then s else After(Step(s, es[0]), es[1..])
  }
}

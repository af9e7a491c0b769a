// Statements about whole runs of the protocol from an empty ledger.
module ProtocolRuns {
  import opened Wrappers
  import opened Clock
  import opened Text
  import opened Quota
  import opened StoreModel
  import opened Router
  import opened Requests
  import opened Ledger
  import opened Protocol
  import opened ProtocolLedger

  ghost predicate ProperKeys(keys: map<string, UpstreamKey>) {
    forall id :: id in keys ==> keys[id].id == id
  }

  lemma InitialInv(cfg: Config, users: map<string, User>, keys: map<string, UpstreamKey>, latest: Instant)
    requires ProperKeys(keys)
    ensures Inv(Initial(cfg, users, keys, latest))
  {
    var s := Initial(cfg, users, keys, latest);
    forall u
      ensures UserBooksSound(s, u)
    {
      assert HourShares(s.reqs, u) == DayShares(s.reqs, u) == map[];
    }
    forall k
      ensures KeyBooksSound(s, k) && FlightSound(s, k)
    {
      assert KeyShares(s.reqs, k) == map[] && Holders(s.reqs, k) == {};
    }
  }

  /** Conservation with rollovers, for every interleaving of any number of requests
      and any clock readings, deletions included: a counter's distance from what its
      window's requests account for is bounded by the late refunds and overruns. */
  lemma Conservation(cfg: Config, users: map<string, User>, keys: map<string, UpstreamKey>, latest: Instant,
                     es: seq<Event>)
    requires ProperKeys(keys) && Run(Initial(cfg, users, keys, latest), es)
    ensures var s := After(Initial(cfg, users, keys, latest), es);
            && (forall u :: Sound(s.HourAccount(u), HourShares(s.reqs, u)) && Sound(s.DayAccount(u), DayShares(s.reqs, u)))
            && (forall k :: Sound(s.KeyAccount(k), KeyShares(s.reqs, k)))
            && (forall k :: s.st.Flying(k) <= |Holders(s.reqs, k)| <= s.st.Flying(k) + Get(s.strays, k, 0))
  {
    InitialInv(cfg, users, keys, latest);
    RunKeepsInv(Initial(cfg, users, keys, latest), es);
    var s := After(Initial(cfg, users, keys, latest), es);
    forall u
      ensures Sound(s.HourAccount(u), HourShares(s.reqs, u)) && Sound(s.DayAccount(u), DayShares(s.reqs, u))
    {
      assert UserBooksSound(s, u);
    }
    forall k
      ensures Sound(s.KeyAccount(k), KeyShares(s.reqs, k))
      ensures s.st.Flying(k) <= |Holders(s.reqs, k)| <= s.st.Flying(k) + Get(s.strays, k, 0)
    {
      assert KeyBooksSound(s, k) && FlightSound(s, k);
    }
  }

  /** Every finished request gave its user reservation back exactly once, and each
      key as often as it took it, once more after a client disconnect. */
  lemma GivenBackOnce(cfg: Config, users: map<string, User>, keys: map<string, UpstreamKey>, latest: Instant,
                      es: seq<Event>, r: nat)
    requires ProperKeys(keys) && Run(Initial(cfg, users, keys, latest), es)
    requires var s := After(Initial(cfg, users, keys, latest), es); r in s.reqs && s.reqs[r].phase.Done?
    ensures var q := After(Initial(cfg, users, keys, latest), es).reqs[r];
            && q.tally.userTaken == q.tally.userGiven == (if q.phase.exit.Rejected? then 0 else 1)
            && q.tally.keyGiven == q.tally.keyTaken + (if q.phase.exit.Disconnected? then 1 else 0)
            && q.tally.keyTaken <= ATTEMPTS
  {
    hide Enabled, Step, State.Valid, UserBooksSound, KeyBooksSound, FlightSound;
    InitialInv(cfg, users, keys, latest);
    RunKeepsInv(Initial(cfg, users, keys, latest), es);
  }

  // ---- runs whose events satisfy a side condition ----

  ghost predicate RunWith(s: System, es: seq<Event>, p: (System, Event) -> bool)
    decreases |es|
  {
    es == [] || (Enabled(s, es[0]) && p(s, es[0]) && RunWith(Step(s, es[0]), es[1..], p))
  }

  lemma {:induction false} RunWithIsRun(s: System, es: seq<Event>, p: (System, Event) -> bool)
    requires RunWith(s, es, p)
    ensures Run(s, es)
    decreases |es|
  {
    hide Enabled, Step;
    if es != [] {
      RunWithIsRun(Step(s, es[0]), es[1..], p);
    }
  }

  lemma {:induction false} RunIsRunWith(s: System, es: seq<Event>)
    requires Run(s, es)
    ensures RunWith(s, es, (x, e) => true)
    decreases |es|
  {
    hide Enabled, Step;
    if es != [] {
      RunIsRunWith(Step(s, es[0]), es[1..]);
    }
  }

  /** What every step allowed by `p` keeps holds at the end, and with it every step has
      property `q`. */
  lemma {:induction false} RunKeeps(s: System, es: seq<Event>, p: (System, Event) -> bool, inv: System -> bool,
                                    q: (System, Event) -> bool)
    requires RunWith(s, es, p) && inv(s)
    requires forall x, e :: Enabled(x, e) && p(x, e) && inv(x) ==> q(x, e) && inv(Step(x, e))
    ensures Run(s, es) && RunWith(s, es, q) && inv(After(s, es))
    decreases |es|
  {
    hide Enabled, Step;
    if es != [] {
      RunKeeps(Step(s, es[0]), es[1..], p, inv, q);
    }
  }

  /** `good` holds before the run and after each of its events. */
  ghost predicate Throughout(s: System, es: seq<Event>, good: System -> bool)
    requires Run(s, es)
    decreases |es|
  {
    good(s) && (es == [] || Throughout(Step(s, es[0]), es[1..], good))
  }

  /** If a fine event keeps what is good and any other event ends it, it is good
      throughout exactly when every event is fine. */
  lemma {:induction false} GoodThroughoutExactlyWhen(s: System, es: seq<Event>, p: (System, Event) -> bool, inv: System -> bool,
                                                     good: System -> bool, fine: (System, Event) -> bool)
    requires RunWith(s, es, p) && inv(s) && forall x :: inv(x) ==> good(x)
    requires forall x, e :: Enabled(x, e) && p(x, e) && inv(x) ==> if fine(x, e) then inv(Step(x, e)) else !good(Step(x, e))
    ensures Run(s, es) && (Throughout(s, es, good) <==> RunWith(s, es, fine))
    decreases |es|
  {
    hide Enabled, Step;
    RunWithIsRun(s, es, p);
    if es != [] && fine(s, es[0]) {
      GoodThroughoutExactlyWhen(Step(s, es[0]), es[1..], p, inv, good, fine);
    }
  }

  lemma {:induction false} GoodAtTheEnd(s: System, es: seq<Event>, good: System -> bool)
    requires Run(s, es) && Throughout(s, es, good)
    ensures good(After(s, es))
    decreases |es|
  {
    hide Enabled, Step;
    if es != [] {
      GoodAtTheEnd(Step(s, es[0]), es[1..], good);
    }
  }

  // ---- limits ----

  datatype Caps = Caps(user: string, hour: nat, day: nat, key: string, keyHour: nat)

  /** Reservations on the watched user and key are made under positive limits
      within the caps. */
  predicate LimitsWithin(s: System, e: Event, caps: Caps) {
    match e
    case ReserveUser(r, hl, dl) =>
      (r in s.reqs && s.reqs[r].user == caps.user) ==> (0 < hl <= caps.hour && 0 < dl <= caps.day)
    case ReserveKey(r, _) =>
      (r in s.reqs && s.reqs[r].phase.Reserving? && s.reqs[r].phase.key == caps.key)
        ==> (0 < s.reqs[r].phase.limit <= caps.keyHour)
    case _ => true
  }

  ghost predicate InCap(s: System, caps: Caps) {
    && s.st.Valid()
    && WithinCap(s.HourAccount(caps.user), caps.hour)
    && WithinCap(s.DayAccount(caps.user), caps.day)
    && s.DayAccount(caps.user).b.unchecked == 0
    && WithinCap(s.KeyAccount(caps.key), caps.keyHour)
  }

  // A reservation counted as enforced fits under its limit.
  lemma EnforcedFits(s: System, e: Event)
    requires Enabled(s, e)
    ensures var ue := UserEffectOf(s, e);
            ue.OnUser? ==>
              && (ue.hourOp.Enter? <==> e.ReserveUser?) && (ue.dayOp.Enter? <==> e.ReserveUser?)
              && (e.ReserveUser? && ue.hourOp.enforced ==>
                    Opened(s.HourAccount(ue.user), HourStart(ue.now)).c.value + ue.hourOp.est <= e.hourlyLimit)
              && (e.ReserveUser? && ue.dayOp.enforced ==>
                    Opened(s.DayAccount(ue.user), DayStart(ue.now)).c.value + ue.dayOp.est <= e.dailyLimit)
              && (e.ReserveUser? ==> ue.user == s.reqs[e.r].user && ue.dayOp.enforced == (e.dailyLimit > 0))
  {
    hide HourStart, DayStart, Config.IsWorkingHour, Selection, Chosen;
  }

  lemma StepKeepsUserCaps(s: System, e: Event, caps: Caps)
    requires Enabled(s, e) && InCap(s, caps) && LimitsWithin(s, e, caps)
    ensures WithinCap(Step(s, e).HourAccount(caps.user), caps.hour)
    ensures WithinCap(Step(s, e).DayAccount(caps.user), caps.day)
    ensures Step(s, e).DayAccount(caps.user).b.unchecked == 0
  {
    hide State.Valid, State.ReserveUser, NextStore, UserEffectOf, KeyEffectOf, Step, HourStart, DayStart;
    var ue, u := UserEffectOf(s, e), caps.user;
    UserAccountsFollow(s, e, u);
    EnforcedFits(s, e);
    if ue.OnUser? && ue.user == u {
      ActKeepsCap(s.HourAccount(u), HourStart(ue.now), ue.hourOp, caps.hour);
      ActKeepsCap(s.DayAccount(u), DayStart(ue.now), ue.dayOp, caps.day);
    }
  }

  lemma StepKeepsKeyCap(s: System, e: Event, caps: Caps)
    requires Enabled(s, e) && InCap(s, caps) && LimitsWithin(s, e, caps)
    ensures WithinCap(Step(s, e).KeyAccount(caps.key), caps.keyHour)
  {
    hide Enabled, NextStore, NextRequests, State.Valid, HourStart, Step, KeyEffectOf, KeyReservation, Oversteps, LimitsWithin;
    KeyEntry(s, e, caps);
    var ke, k := KeyEffectOf(s, e), caps.key;
    KeyAccountFollows(s, e, k);
    if ke.OnKey? && ke.key == k {
      ActKeepsCap(s.KeyAccount(k), HourStart(ke.now), ke.op, caps.keyHour);
    }
  }

  lemma RunKeepsCaps(s: System, es: seq<Event>, caps: Caps)
    requires RunWith(s, es, (x, e) => LimitsWithin(x, e, caps)) && InCap(s, caps)
    ensures Run(s, es) && InCap(After(s, es), caps)
  {
    hide Enabled, Step, InCap, LimitsWithin;
    forall x, e | Enabled(x, e) && LimitsWithin(x, e, caps) && InCap(x, caps)
      ensures InCap(Step(x, e), caps)
    {
      StepKeepsCaps(x, e, caps);
    }
    RunKeeps(s, es, (x, e) => LimitsWithin(x, e, caps), x => InCap(x, caps), (x, e) => true);
  }

  lemma StepKeepsCaps(s: System, e: Event, caps: Caps)
    requires Enabled(s, e) && LimitsWithin(s, e, caps) && InCap(s, caps)
    ensures InCap(Step(s, e), caps)
  {
    hide Enabled, LimitsWithin, State.Valid, WithinCap, NextStore, NextRequests, UserEffectOf, KeyEffectOf;
    StepKeepsValid(s, e);
    StepKeepsUserCaps(s, e, caps);
    StepKeepsKeyCap(s, e, caps);
  }

  lemma StepKeepsValid(s: System, e: Event)
    requires Enabled(s, e) && s.st.Valid()
    ensures Step(s, e).st.Valid()
  {
    hide Enabled, State.Valid, NextStore, NextRequests, UserEffectOf, KeyEffectOf, Act, Reading;
    NextStoreValid(s, e);
  }

  /** In every run, at every clock reading: the day counter passes its cap by no more
      than the overruns settled that day, and the hour counters of user and key by no
      more than overruns and estimates that were reserved with the limit off. */
  lemma CapSafety(cfg: Config, users: map<string, User>, keys: map<string, UpstreamKey>, latest: Instant,
                  es: seq<Event>, caps: Caps)
    requires ProperKeys(keys)
    requires RunWith(Initial(cfg, users, keys, latest), es, (x, e) => LimitsWithin(x, e, caps))
    ensures Run(Initial(cfg, users, keys, latest), es)
    ensures var s := After(Initial(cfg, users, keys, latest), es);
            && s.DayAccount(caps.user).c.value <= caps.day + s.DayAccount(caps.user).b.excess
            && s.HourAccount(caps.user).c.value
               <= caps.hour + s.HourAccount(caps.user).b.excess + s.HourAccount(caps.user).b.unchecked
            && s.KeyAccount(caps.key).c.value
               <= caps.keyHour + s.KeyAccount(caps.key).b.excess + s.KeyAccount(caps.key).b.unchecked
  {
    RunKeepsCaps(Initial(cfg, users, keys, latest), es, caps);
  }

  // ---- working hours ----

  /** The limit was off only in windows outside working hours. */
  ghost predicate OffOnlyOffHours(cfg: Config, a: Account) {
    a.b.unchecked > 0 ==> a.c.start.Some? && !cfg.IsWorkingHour(a.c.start.value)
  }

  /** A key is reserved in a working hour only by requests admitted in one. */
  predicate NoStraddling(s: System, e: Event, key: string) {
    (e.ReserveKey? && e.r in s.reqs && s.reqs[e.r].phase.Reserving? && s.reqs[e.r].phase.key == key)
      ==> (s.cfg.IsWorkingHour(e.now) ==> s.Working(s.reqs[e.r]))
  }

  lemma ActKeepsOffHours(cfg: Config, a: Account, start: Instant, op: Op)
    requires OffOnlyOffHours(cfg, a)
    requires op.Enter? && !op.enforced ==> !cfg.IsWorkingHour(start)
    ensures OffOnlyOffHours(cfg, Act(a, start, op))
  {
  }

  ghost predicate UserHoursOk(s: System, caps: Caps) {
    InCap(s, caps) && s.cfg.WholeWindows() && OffOnlyOffHours(s.cfg, s.HourAccount(caps.user))
  }

  lemma StepKeepsUserHours(s: System, e: Event, caps: Caps)
    requires Enabled(s, e) && UserHoursOk(s, caps) && LimitsWithin(s, e, caps)
    ensures UserHoursOk(Step(s, e), caps) && Step(s, e).cfg == s.cfg
  {
    hide State.Valid, HourStart, DayStart, WithinCap, Act, Config.IsWorkingHour, NextRequest, KeyEffectOf;
    NextStoreValid(s, e);
    StepKeepsUserCaps(s, e, caps);
    StepKeepsKeyCap(s, e, caps);
    var ue := UserEffectOf(s, e);
    UserAccountsFollow(s, e, caps.user);
    if ue.OnUser? && ue.user == caps.user {
      WorkingHourIsPerWindow(s.cfg, ue.now);
      ActKeepsOffHours(s.cfg, s.HourAccount(caps.user), HourStart(ue.now), ue.hourOp);
    }
  }

  lemma RunKeepsUserHours(s: System, es: seq<Event>, caps: Caps)
    requires RunWith(s, es, (x, e) => LimitsWithin(x, e, caps)) && UserHoursOk(s, caps)
    ensures Run(s, es) && UserHoursOk(After(s, es), caps) && After(s, es).cfg == s.cfg
  {
    hide Enabled, Step, UserHoursOk, LimitsWithin;
    forall x, e | Enabled(x, e) && LimitsWithin(x, e, caps) && UserHoursOk(x, caps)
      ensures UserHoursOk(Step(x, e), caps) && Step(x, e).cfg == x.cfg
    {
      StepKeepsUserHours(x, e, caps);
    }
    RunKeeps(s, es, (x, e) => LimitsWithin(x, e, caps), x => UserHoursOk(x, caps) && x.cfg == s.cfg, (x, e) => true);
  }

  /** In working hours a user's hourly limit holds up to the overruns settled in the
      hour, whatever runs between the sections of a request. */
  lemma WorkingHourUserCap(cfg: Config, users: map<string, User>, keys: map<string, UpstreamKey>, latest: Instant,
                           es: seq<Event>, caps: Caps)
    requires ProperKeys(keys) && cfg.WholeWindows()
    requires RunWith(Initial(cfg, users, keys, latest), es, (x, e) => LimitsWithin(x, e, caps))
    ensures Run(Initial(cfg, users, keys, latest), es)
    ensures var h := After(Initial(cfg, users, keys, latest), es).HourAccount(caps.user);
            h.c.start.Some? && cfg.IsWorkingHour(h.c.start.value) ==> h.c.value <= caps.hour + h.b.excess
  {
    RunKeepsUserHours(Initial(cfg, users, keys, latest), es, caps);
  }

  /** A key's counter is within its cap and the overruns settled, if its window lies in
      working hours. */
  ghost predicate KeyCapHolds(s: System, caps: Caps) {
    var a := s.KeyAccount(caps.key);
    a.c.start.Some? && s.cfg.IsWorkingHour(a.c.start.value) ==> a.c.value <= caps.keyHour + a.b.excess
  }

  /** The key is taken in a working hour by a request admitted outside working hours,
      for more than the cap leaves. */
  ghost predicate Oversteps(s: System, e: Event, caps: Caps) {
    && Enabled(s, e) && e.ReserveKey? && s.reqs[e.r].phase.key == caps.key && KeyReservation(s, s.reqs[e.r], e.now).1.None?
    && s.cfg.IsWorkingHour(e.now) && !s.Working(s.reqs[e.r])
    && var o := Opened(s.KeyAccount(caps.key), HourStart(e.now));
       o.c.value + s.reqs[e.r].est > caps.keyHour + o.b.excess
  }

  // What a reservation of the key does.
  lemma KeyEntry(s: System, e: Event, caps: Caps)
    requires Enabled(s, e) && LimitsWithin(s, e, caps)
    ensures var (ke, k) := (KeyEffectOf(s, e), caps.key);
            ke.OnKey? && ke.key == k && ke.op.Enter? <==>
            e.ReserveKey? && s.reqs[e.r].phase.key == k && KeyReservation(s, s.reqs[e.r], e.now).1.None?
    ensures var (ke, k) := (KeyEffectOf(s, e), caps.key);
            ke.OnKey? && ke.key == k && ke.op.Enter? ==>
              && ke.now == e.now && ke.op.est == s.reqs[e.r].est && (ke.op.enforced <==> s.Working(s.reqs[e.r]))
              && (ke.op.enforced ==> Opened(s.KeyAccount(k), HourStart(ke.now)).c.value + ke.op.est <= caps.keyHour)
    ensures Oversteps(s, e, caps) ==> caps.key !in ForgottenKeys(s, e)
  {
    hide HourStart, Config.IsWorkingHour, Selection, Chosen;
  }

  lemma CapOfActHoldsExactlyWhen(a: Account, start: Instant, op: Op, cap: nat)
    requires op.Enter? && op.enforced ==> Opened(a, start).c.value + op.est <= cap
    requires a.c.start == Some(start) ==> a.c.value <= cap + a.b.excess
    ensures Act(a, start, op).c.start == Some(start)
    ensures Act(a, start, op).c.value <= cap + Act(a, start, op).b.excess <==>
            !(op.Enter? && Opened(a, start).c.value + op.est > cap + Opened(a, start).b.excess)
  {
  }

  /** One step keeps the cap exactly when it does not overstep. */
  lemma StepKeepsKeyCapExactlyWhen(s: System, e: Event, caps: Caps)
    requires Enabled(s, e) && LimitsWithin(s, e, caps)
    requires s.st.Valid() && s.cfg.WholeWindows() && KeyCapHolds(s, caps)
    ensures KeyCapHolds(Step(s, e), caps) <==> !Oversteps(s, e, caps)
  {
    hide Enabled, State.Valid, KeyEffectOf, KeyReservation, NextStore, HourStart, Config.IsWorkingHour, Act, Opened,
         Config.WholeWindows, LimitsWithin;
    var ke, k := KeyEffectOf(s, e), caps.key;
    KeyAccountFollows(s, e, k);
    KeyEntry(s, e, caps);
    if ke.OnKey? && ke.key == k {
      WorkingHourIsPerWindow(s.cfg, ke.now);
      if s.cfg.IsWorkingHour(ke.now) {
        CapOfActHoldsExactlyWhen(s.KeyAccount(k), HourStart(ke.now), ke.op, caps.keyHour);
      } else {
        ActOpens(s.KeyAccount(k), HourStart(ke.now), ke.op);
      }
    }
  }

  lemma ActOpens(a: Account, start: Instant, op: Op)
    ensures Act(a, start, op).c.start == Some(start)
  {
  }

  ghost predicate KeyCapKept(s: System, caps: Caps) {
    s.st.Valid() && s.cfg.WholeWindows() && KeyCapHolds(s, caps)
  }

  lemma StepDecidesKeyCap(s: System, e: Event, caps: Caps)
    requires Enabled(s, e) && LimitsWithin(s, e, caps) && KeyCapKept(s, caps)
    ensures if Oversteps(s, e, caps) then !KeyCapHolds(Step(s, e), caps)
            else KeyCapKept(Step(s, e), caps) && Step(s, e).cfg == s.cfg
  {
    hide Enabled, LimitsWithin, State.Valid, KeyCapHolds, Oversteps, Config.WholeWindows, NextStore, NextRequests, UserEffectOf,
         KeyEffectOf, Act, Reading;
    StepKeepsValid(s, e);
    StepKeepsKeyCapExactlyWhen(s, e, caps);
  }

  /** In working hours a key's limit holds throughout a run, up to the overruns settled
      in the hour, exactly when no request admitted off hours takes the key in a working
      hour for more than is left. */
  lemma WorkingHourKeyCapExactlyWhen(cfg: Config, users: map<string, User>, keys: map<string, UpstreamKey>,
                                     latest: Instant, es: seq<Event>, caps: Caps)
    requires ProperKeys(keys) && cfg.WholeWindows()
    requires RunWith(Initial(cfg, users, keys, latest), es, (x, e) => LimitsWithin(x, e, caps))
    ensures Run(Initial(cfg, users, keys, latest), es)
    ensures Throughout(Initial(cfg, users, keys, latest), es, x => KeyCapHolds(x, caps)) <==>
            RunWith(Initial(cfg, users, keys, latest), es, (x, e) => !Oversteps(x, e, caps))
  {
    hide Enabled, Step, LimitsWithin, Oversteps, KeyCapHolds, Config.WholeWindows;
    InitialKeyCap(cfg, users, keys, latest, caps);
    forall x, e | Enabled(x, e) && LimitsWithin(x, e, caps) && KeyCapKept(x, caps)
      ensures if Oversteps(x, e, caps) then !KeyCapHolds(Step(x, e), caps) else KeyCapKept(Step(x, e), caps)
    {
      StepDecidesKeyCap(x, e, caps);
    }
    GoodThroughoutExactlyWhen(Initial(cfg, users, keys, latest), es, (x, e) => LimitsWithin(x, e, caps),
                              x => KeyCapKept(x, caps), x => KeyCapHolds(x, caps), (x, e) => !Oversteps(x, e, caps));
  }

  lemma InitialKeyCap(cfg: Config, users: map<string, User>, keys: map<string, UpstreamKey>, latest: Instant, caps: Caps)
    requires ProperKeys(keys) && cfg.WholeWindows()
    ensures KeyCapKept(Initial(cfg, users, keys, latest), caps)
  {
  }

  lemma NoStraddlingNoOverstep(s: System, e: Event, caps: Caps)
    requires NoStraddling(s, e, caps.key)
    ensures !Oversteps(s, e, caps)
  {
    hide KeyReservation, Config.IsWorkingHour, Opened;
  }

  /** In particular when no such request takes the key in a working hour at all. */
  lemma WorkingHourKeyCap(cfg: Config, users: map<string, User>, keys: map<string, UpstreamKey>, latest: Instant,
                          es: seq<Event>, caps: Caps)
    requires ProperKeys(keys) && cfg.WholeWindows()
    requires RunWith(Initial(cfg, users, keys, latest), es,
                     (x, e) => LimitsWithin(x, e, caps) && NoStraddling(x, e, caps.key))
    ensures Run(Initial(cfg, users, keys, latest), es)
    ensures var k := After(Initial(cfg, users, keys, latest), es).KeyAccount(caps.key);
            k.c.start.Some? && cfg.IsWorkingHour(k.c.start.value) ==> k.c.value <= caps.keyHour + k.b.excess
  {
    hide Enabled, Step, LimitsWithin, NoStraddling, Oversteps, Config.WholeWindows, Config.IsWorkingHour, State.Valid;
    var s := Initial(cfg, users, keys, latest);
    InitialKeyCap(cfg, users, keys, latest, caps);
    forall x, e | Enabled(x, e) && LimitsWithin(x, e, caps) && NoStraddling(x, e, caps.key) && KeyCapKept(x, caps)
      ensures KeyCapKept(Step(x, e), caps) && Step(x, e).cfg == x.cfg
    {
      NoStraddlingNoOverstep(x, e, caps);
      StepDecidesKeyCap(x, e, caps);
    }
    RunKeeps(s, es, (x, e) => LimitsWithin(x, e, caps) && NoStraddling(x, e, caps.key),
             x => KeyCapKept(x, caps) && x.cfg == cfg, (x, e) => true);
  }

  // A request admitted one instant before the working hour and routed at its start.
  const NINE: Instant := 9 * HOUR

  function StraddleConfig(): Config {
    Config([WorkingHour(9, 12)], 0, 10, 1000)
  }

  function StraddleKey(): UpstreamKey {
    UpstreamKey("k", "u", [], true, 0)
  }

  function StraddleStart(): System {
    Initial(StraddleConfig(), map["u" := User(true, 0, 0)], map["k" := StraddleKey()], 8 * HOUR)
  }

  function StraddleRun(): seq<Event> {
    [Arrive(0, "u", "m", 100, false, NINE - 1), ReserveUser(0, 10, 1000),
     Select(0, "k", NINE), ReserveKey(0, NINE)]
  }

  function StraddleCaps(): Caps {
    Caps("u", 10, 1000, "k", 10)
  }

  ghost predicate StraddleAt(s: System, phase: Phase) {
    && 0 in s.reqs && s.reqs[0].user == "u" && s.reqs[0].est == 100 && s.reqs[0].now == NINE - 1
    && s.reqs[0].exclude == {} && s.reqs[0].phase == phase
    && s.cfg == StraddleConfig() && s.st.keys == map["k" := StraddleKey()]
    && s.st.users == map["u" := User(true, 0, 0)]
    && s.st.keyHours == map[] && s.keys == map[]
    && (phase == Arrived ==> s.st.counters == map[])
  }

  lemma StraddleHours()
    ensures !StraddleConfig().IsWorkingHour(NINE - 1) && StraddleConfig().IsWorkingHour(NINE) && HourStart(NINE) == NINE
  {
    assert WorkingHour(9, 12) in StraddleConfig().workingHours;
  }

  lemma StraddleReserves(s: System)
    requires StraddleAt(s, Arrived)
    ensures Enabled(s, StraddleRun()[1]) && StraddleAt(Step(s, StraddleRun()[1]), Selecting)
  {
    StraddleHours();
  }

  lemma StraddleSelects(s: System)
    requires StraddleAt(s, Selecting)
    ensures Enabled(s, StraddleRun()[2]) && StraddleAt(Step(s, StraddleRun()[2]), Reserving("k", 10))
  {
    var q := s.QueryOf(s.reqs[0], NINE);
    StraddleHours();
    StrLessTotal("k", "k");
    assert s.st.keys.Values == {StraddleKey()};
    assert Chosen({StraddleKey()}, q, StraddleKey());
  }

  lemma StraddlePasses(s: System)
    requires StraddleAt(s, Reserving("k", 10))
    ensures Enabled(s, StraddleRun()[3])
    ensures Step(s, StraddleRun()[3]).KeyAccount("k") == Account(WindowCounter(Some(NINE), 100), Book(map[0 := 100], 0, 0, 0, 100))
  {
    StraddleHours();
  }

  lemma FourEvents(s: System, a: Event, b: Event, c: Event, d: Event, p: (System, Event) -> bool)
    requires Enabled(s, a) && p(s, a)
    requires var s1 := Step(s, a); Enabled(s1, b) && p(s1, b)
    requires var s2 := Step(Step(s, a), b); Enabled(s2, c) && p(s2, c)
    requires var s3 := Step(Step(Step(s, a), b), c); Enabled(s3, d) && p(s3, d)
    ensures RunWith(s, [a, b, c, d], p) && Run(s, [a, b, c, d])
    ensures After(s, [a, b, c, d]) == Step(Step(Step(Step(s, a), b), c), d)
  {
    hide Run, RunWith, After, Step, Enabled;
    var s1 := Step(s, a);
    var s2 := Step(s1, b);
    var s3 := Step(s2, c);
    RunNothing(Step(s3, d), p);
    RunOneMore(s3, d, [], p);
    assert [d] == [d] + [];
    RunOneMore(s2, c, [d], p);
    assert [c, d] == [c] + [d];
    RunOneMore(s1, b, [c, d], p);
    assert [b, c, d] == [b] + [c, d];
    RunOneMore(s, a, [b, c, d], p);
    assert [a, b, c, d] == [a] + [b, c, d];
  }

  lemma StraddleArrives()
    ensures Enabled(StraddleStart(), StraddleRun()[0])
    ensures StraddleAt(Step(StraddleStart(), StraddleRun()[0]), Arrived)
  {
  }

  ghost predicate StraddleBreaksCap(s: System, es: seq<Event>, caps: Caps) {
    && RunWith(s, es, (x, e) => LimitsWithin(x, e, caps)) && Run(s, es)
    && var k := After(s, es).KeyAccount(caps.key);
       && k.c.start.Some? && s.cfg.IsWorkingHour(k.c.start.value)
       && k.c.value > caps.keyHour + k.b.excess
  }

  /** Without that condition the key's limit is passed in a working hour although
      nothing has been settled: the working flag is read once, on arrival. */
  lemma StraddlingRequestPassesTheKeyCap()
    ensures StraddleBreaksCap(StraddleStart(), StraddleRun(), StraddleCaps())
  {
    var s, es := StraddleStart(), StraddleRun();
    StraddleArrives();
    var s1 := Step(s, es[0]);
    StraddleReserves(s1);
    var s2 := Step(s1, es[1]);
    StraddleSelects(s2);
    var s3 := Step(s2, es[2]);
    StraddlePasses(s3);
    FourEvents(s, es[0], es[1], es[2], es[3], (x, e) => LimitsWithin(x, e, StraddleCaps()));
    StraddleHours();
  }

  lemma RunNothing(s: System, p: (System, Event) -> bool)
    ensures RunWith(s, [], p) && Run(s, []) && After(s, []) == s
  {
  }

  lemma RunOneMore(s: System, e: Event, es: seq<Event>, p: (System, Event) -> bool)
    requires Enabled(s, e) && p(s, e) && RunWith(Step(s, e), es, p) && Run(Step(s, e), es)
    ensures RunWith(s, [e] + es, p) && Run(s, [e] + es) && After(s, [e] + es) == After(Step(s, e), es)
  {
    assert ([e] + es)[1..] == es;
  }
}

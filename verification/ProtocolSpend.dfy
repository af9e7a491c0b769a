// Whole runs: exactly when the books of a counter are those of its present window, and
// exactly when what is spent stays within the limit, whatever the clock readings.
module ProtocolSpend {
  import opened Wrappers
  import opened Clock
  import opened Quota
  import opened StoreModel
  import opened Requests
  import opened Ledger
  import opened Protocol
  import opened ProtocolLedger
  import opened ProtocolRuns
  import opened ProtocolCounters

  // ---- the parts are the present window ----

  ghost predicate Parts(s: System, c: Counter) {
    PartsOk(AccountOf(s, c), SharesOf(s.reqs, c))
  }

  /** The event resets the counter into a window that requests still account for. */
  ghost predicate ReopensWindow(s: System, e: Event, c: Counter) {
    && Enabled(s, e)
    && var t := TouchOf(s, e, c);
       t.Touched? && Reopens(AccountOf(s, c), SharesOf(s.reqs, c), StartOf(c, t.now), t.op)
  }

  /** One step keeps the parts exact exactly when it reopens no window. */
  lemma StepKeepsPartsExactlyWhen(s: System, e: Event, c: Counter)
    requires Enabled(s, e) && s.st.Valid() && Parts(s, c)
    ensures Parts(Step(s, e), c) <==> !ReopensWindow(s, e, c)
  {
    hide Enabled, Step, State.Valid, AccountOf, SharesOf, TouchOf, StartOf, Reopens, Act, Move, InWindow, Forgets;
    CounterFollows(s, e, c);
    var t := TouchOf(s, e, c);
    if t.Touched? {
      ActKeepsPartsExactlyWhen(AccountOf(s, c), SharesOf(s.reqs, c), StartOf(c, t.now), t.op);
    }
  }

  /** In every run, with any readings and deletions: the parts behind the bounds of
      Conservation are throughout the open estimates and settled actuals of the requests
      that reserved in the counter's window exactly when no section resets the counter
      into a window that requests still account for. */
  lemma PartsAreThePresentWindowExactlyWhen(cfg: Config, users: map<string, User>, keys: map<string, UpstreamKey>,
                                            latest: Instant, es: seq<Event>, c: Counter)
    requires ProperKeys(keys) && Run(Initial(cfg, users, keys, latest), es)
    ensures Throughout(Initial(cfg, users, keys, latest), es, x => Parts(x, c)) <==>
            RunWith(Initial(cfg, users, keys, latest), es, (x, e) => !ReopensWindow(x, e, c))
  {
    hide Enabled, Step, AccountOf, SharesOf, State.Valid, ReopensWindow;
    var s := Initial(cfg, users, keys, latest);
    InitialIsValid(cfg, users, keys, latest);
    CounterBegins(cfg, users, keys, latest, c);
    RunIsRunWith(s, es);
    forall x, e | Enabled(x, e) && x.st.Valid() && Parts(x, c)
      ensures Step(x, e).st.Valid() && (Parts(Step(x, e), c) <==> !ReopensWindow(x, e, c))
    {
      StepKeepsValid(x, e);
      StepKeepsPartsExactlyWhen(x, e, c);
    }
    GoodThroughoutExactlyWhen(s, es, (x, e) => true, (x: System) => x.st.Valid() && Parts(x, c), x => Parts(x, c),
                              (x, e) => !ReopensWindow(x, e, c));
  }

  lemma InitialIsValid(cfg: Config, users: map<string, User>, keys: map<string, UpstreamKey>, latest: Instant)
    requires ProperKeys(keys)
    ensures Initial(cfg, users, keys, latest).st.Valid()
  {
  }

  // ---- the books are squared ----

  ghost predicate SquaredCounter(s: System, c: Counter) {
    Squared(AccountOf(s, c))
  }

  /** The event would take the counter below zero. */
  ghost predicate ClipsCounter(s: System, e: Event, c: Counter) {
    && Enabled(s, e)
    && var t := TouchOf(s, e, c);
       t.Touched? && Clipped(AccountOf(s, c), StartOf(c, t.now), t.op)
  }

  lemma StepKeepsSquaredExactlyWhen(s: System, e: Event, c: Counter)
    requires Enabled(s, e) && Inv(s) && SquaredCounter(s, c)
    ensures SquaredCounter(Step(s, e), c) <==> !ClipsCounter(s, e, c)
  {
    hide Enabled, Step, State.Valid, AccountOf, SharesOf, TouchOf, StartOf, Clipped, Squared, Act, Move, Forgets, Sound, UserBooksSound,
         KeyBooksSound, FlightSound;
    CounterIsSound(s, c);
    CounterFollows(s, e, c);
    NewAccountIsSquared();
    var t := TouchOf(s, e, c);
    if t.Touched? {
      ActKeepsSquaredExactlyWhen(AccountOf(s, c), SharesOf(s.reqs, c), StartOf(c, t.now), t.op);
    }
  }

  lemma NewAccountIsSquared()
    ensures Squared(NEW_ACCOUNT)
  {
  }

  /** Conservation as an equation. In every run, with any readings and deletions: a counter
      is throughout exactly what its window's parts account for, with the overruns and less
      the refunds carried in from other windows, exactly when no section would take it
      below zero. */
  lemma ConservationIsExactExactlyWhen(cfg: Config, users: map<string, User>, keys: map<string, UpstreamKey>,
                                       latest: Instant, es: seq<Event>, c: Counter)
    requires ProperKeys(keys) && Run(Initial(cfg, users, keys, latest), es)
    ensures Throughout(Initial(cfg, users, keys, latest), es, x => SquaredCounter(x, c)) <==>
            RunWith(Initial(cfg, users, keys, latest), es, (x, e) => !ClipsCounter(x, e, c))
  {
    hide Enabled, Step, AccountOf, Inv, ClipsCounter, Squared;
    var s := Initial(cfg, users, keys, latest);
    InitialInv(cfg, users, keys, latest);
    CounterBegins(cfg, users, keys, latest, c);
    NewAccountIsSquared();
    RunIsRunWith(s, es);
    forall x, e | Enabled(x, e) && Inv(x) && SquaredCounter(x, c)
      ensures Inv(Step(x, e)) && (SquaredCounter(Step(x, e), c) <==> !ClipsCounter(x, e, c))
    {
      StepKeepsInv(x, e);
      StepKeepsSquaredExactlyWhen(x, e, c);
    }
    GoodThroughoutExactlyWhen(s, es, (x, e) => true, x => Inv(x) && SquaredCounter(x, c), x => SquaredCounter(x, c),
                              (x, e) => !ClipsCounter(x, e, c));
  }

  // ---- what is spent ----

  ghost predicate Spent(s: System, c: Counter, cap: int) {
    SpentOk(AccountOf(s, c), SharesOf(s.reqs, c), cap)
  }

  /** The event spends past the cap. */
  ghost predicate SpendsTooMuch(s: System, e: Event, c: Counter, cap: int) {
    && Enabled(s, e)
    && var t := TouchOf(s, e, c);
       t.Touched? && Overspends(AccountOf(s, c), SharesOf(s.reqs, c), StartOf(c, t.now), t.op, cap)
  }

  /** One step keeps what is spent within the cap exactly when it does not spend too
      much. */
  lemma StepKeepsSpentExactlyWhen(s: System, e: Event, c: Counter, cap: int)
    requires Enabled(s, e) && s.st.Valid() && Spent(s, c, cap)
    ensures Spent(Step(s, e), c, cap) <==> !SpendsTooMuch(s, e, c, cap)
  {
    hide Enabled, Step, State.Valid, AccountOf, SharesOf, TouchOf, StartOf, Overspends, Act, Move, InWindow, Forgets, Sum;
    CounterFollows(s, e, c);
    var t := TouchOf(s, e, c);
    if t.Touched? {
      ActKeepsSpentExactlyWhen(AccountOf(s, c), SharesOf(s.reqs, c), StartOf(c, t.now), t.op, cap);
    }
  }

  /** In every run, with any readings and deletions: what the requests of a counter's
      window account for stays throughout within the cap, the overruns settled, the
      estimates reserved unchecked and what was given back late, exactly when no
      reservation takes more than that leaves and no reset is into a window that has
      already taken more. */
  lemma SpentWithinLimitExactlyWhen(cfg: Config, users: map<string, User>, keys: map<string, UpstreamKey>,
                                    latest: Instant, es: seq<Event>, c: Counter, cap: nat)
    requires ProperKeys(keys) && Run(Initial(cfg, users, keys, latest), es)
    ensures Throughout(Initial(cfg, users, keys, latest), es, x => Spent(x, c, cap)) <==>
            RunWith(Initial(cfg, users, keys, latest), es, (x, e) => !SpendsTooMuch(x, e, c, cap))
  {
    hide Enabled, Step, AccountOf, SharesOf, State.Valid, SpendsTooMuch;
    var s := Initial(cfg, users, keys, latest);
    InitialIsValid(cfg, users, keys, latest);
    CounterBegins(cfg, users, keys, latest, c);
    RunIsRunWith(s, es);
    forall x, e | Enabled(x, e) && x.st.Valid() && Spent(x, c, cap)
      ensures Step(x, e).st.Valid() && (Spent(Step(x, e), c, cap) <==> !SpendsTooMuch(x, e, c, cap))
    {
      StepKeepsValid(x, e);
      StepKeepsSpentExactlyWhen(x, e, c, cap);
    }
    GoodThroughoutExactlyWhen(s, es, (x, e) => true, (x: System) => x.st.Valid() && Spent(x, c, cap), x => Spent(x, c, cap),
                              (x, e) => !SpendsTooMuch(x, e, c, cap));
  }

  // ---- limits in force ----

  function CapOf(caps: Caps, c: Counter): nat {
    match c
    case UserHour(_) => caps.hour
    case UserDay(_) => caps.day
    case KeyHour(_) => caps.keyHour
  }

  predicate Watched(caps: Caps, c: Counter) {
    c == UserHour(caps.user) || c == UserDay(caps.user) || c == KeyHour(caps.key)
  }

  // A checked reservation fits under the cap.
  lemma CheckedFits(s: System, e: Event, caps: Caps, c: Counter)
    requires Enabled(s, e) && LimitsWithin(s, e, caps) && Watched(caps, c)
    ensures var t := TouchOf(s, e, c);
            t.Touched? && t.op.Enter? && t.op.enforced ==>
              Opened(AccountOf(s, c), StartOf(c, t.now)).c.value + t.op.est <= CapOf(caps, c)
    ensures c.UserDay? ==> var t := TouchOf(s, e, c); t.Touched? && t.op.Enter? ==> t.op.enforced
  {
    EnforcedFits(s, e);
    KeyEntry(s, e, caps);
  }

  lemma CheckedStepSpendsEnough(s: System, e: Event, caps: Caps, c: Counter)
    requires Enabled(s, e) && LimitsWithin(s, e, caps) && Watched(caps, c) && Inv(s)
    requires Parts(s, c) && Spent(s, c, CapOf(caps, c)) && !ReopensWindow(s, e, c)
    ensures !SpendsTooMuch(s, e, c, CapOf(caps, c))
  {
    hide Enabled, Inv, AccountOf, SharesOf, TouchOf, StartOf, Overspends, Reopens, PartsOk, SpentOk, CapOf, LimitsWithin, Watched,
         Opened;
    CheckedFits(s, e, caps, c);
    CounterIsSound(s, c);
    StepFits(s, e, c);
    var t := TouchOf(s, e, c);
    if t.Touched? {
      CheckedFitsTheRoom(AccountOf(s, c), SharesOf(s.reqs, c), StartOf(c, t.now), t.op, CapOf(caps, c));
    }
  }

  lemma StepFits(s: System, e: Event, c: Counter)
    requires Enabled(s, e) && Inv(s)
    ensures TouchOf(s, e, c).Touched? ==> Fits(SharesOf(s.reqs, c), TouchOf(s, e, c).op)
  {
    hide Enabled, TouchOf, SharesOf, AccountOf, State.Valid, Step;
    CounterFollows(s, e, c);
  }

  // What a run under limits that reopens nothing keeps.
  ghost predicate Funded(s: System, caps: Caps, c: Counter) {
    Inv(s) && Parts(s, c) && Spent(s, c, CapOf(caps, c))
  }

  lemma StepKeepsFunded(s: System, e: Event, caps: Caps, c: Counter)
    requires Enabled(s, e) && LimitsWithin(s, e, caps) && !ReopensWindow(s, e, c) && Watched(caps, c) && Funded(s, caps, c)
    ensures Funded(Step(s, e), caps, c)
  {
    hide Enabled, Step, Inv, Parts, Spent, SpendsTooMuch, ReopensWindow, LimitsWithin, Watched, CapOf;
    InvIsValid(s);
    CheckedStepSpendsEnough(s, e, caps, c);
    StepKeepsInv(s, e);
    StepKeepsPartsExactlyWhen(s, e, c);
    StepKeepsSpentExactlyWhen(s, e, c, CapOf(caps, c));
  }

  lemma InvIsValid(s: System)
    requires Inv(s)
    ensures s.st.Valid()
  {
  }

  lemma InitialFunded(cfg: Config, users: map<string, User>, keys: map<string, UpstreamKey>, latest: Instant, caps: Caps,
                      c: Counter)
    requires ProperKeys(keys)
    ensures Funded(Initial(cfg, users, keys, latest), caps, c)
  {
    hide Inv, AccountOf, SharesOf;
    InitialInv(cfg, users, keys, latest);
    CounterBegins(cfg, users, keys, latest, c);
  }

  /** In particular when the limits are in force and no window is reopened. */
  lemma SpentWithinLimit(cfg: Config, users: map<string, User>, keys: map<string, UpstreamKey>, latest: Instant,
                         es: seq<Event>, caps: Caps, c: Counter)
    requires ProperKeys(keys) && Watched(caps, c)
    requires RunWith(Initial(cfg, users, keys, latest), es, (x, e) => LimitsWithin(x, e, caps) && !ReopensWindow(x, e, c))
    ensures Run(Initial(cfg, users, keys, latest), es)
    ensures Spent(After(Initial(cfg, users, keys, latest), es), c, CapOf(caps, c))
    ensures Throughout(Initial(cfg, users, keys, latest), es, x => Spent(x, c, CapOf(caps, c)))
  {
    hide Enabled, Step, LimitsWithin, Watched, CapOf, ReopensWindow, Inv, Parts, Spent;
    var s := Initial(cfg, users, keys, latest);
    InitialFunded(cfg, users, keys, latest, caps, c);
    forall x, e | Enabled(x, e) && LimitsWithin(x, e, caps) && !ReopensWindow(x, e, c) && Funded(x, caps, c)
      ensures Funded(Step(x, e), caps, c)
    {
      StepKeepsFunded(x, e, caps, c);
    }
    GoodThroughoutExactlyWhen(s, es, (x, e) => LimitsWithin(x, e, caps) && !ReopensWindow(x, e, c), x => Funded(x, caps, c),
                              x => Spent(x, c, CapOf(caps, c)), (x, e) => true);
    RunWithIsRun(s, es, (x, e) => LimitsWithin(x, e, caps) && !ReopensWindow(x, e, c));
    RunIsRunWith(s, es);
    GoodAtTheEnd(s, es, x => Spent(x, c, CapOf(caps, c)));
  }
}

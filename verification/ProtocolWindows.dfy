// Runs whose clock readings reach the store in order, and runs within one hour: when
// the books are those of the present window and when a counter is a plain total.
module ProtocolWindows {
  import opened Wrappers
  import opened Clock
  import opened Quota
  import opened StoreModel
  import opened Router
  import opened Requests
  import opened Ledger
  import opened Protocol
  import opened ProtocolLedger
  import opened ProtocolRuns
  import opened ProtocolCounters
  import opened ProtocolSpend

  // The window of a counter that the hour starting at `hour` lies in.
  function WindowOf(c: Counter, hour: Instant): Instant {
    if c.UserDay? then DayStart(hour) else hour
  }

  // ---- readings in order ----

  /** No reading comes from an hour before the latest one seen, and nothing is deleted. */
  ghost predicate InOrder(s: System, e: Event) {
    && !e.DeleteUser? && !e.DeleteKey?
    && (Enabled(s, e) && Reading(s, e).Some? ==> s.latest <= HourStart(Reading(s, e).value))
  }

  ghost predicate CurrentCounter(s: System, c: Counter) {
    Current(AccountOf(s, c), SharesOf(s.reqs, c), WindowOf(c, s.latest))
  }

  ghost predicate WindowsCurrent(s: System) {
    s.st.Valid() && forall c :: CurrentCounter(s, c)
  }

  // A touch comes with the event's reading.
  lemma TouchIsRead(s: System, e: Event, c: Counter)
    requires Enabled(s, e)
    ensures TouchOf(s, e, c).Touched? ==> Reading(s, e) == Some(TouchOf(s, e, c).now)
  {
    hide State.ReserveUser, State.ReserveKey, HourStart;
  }

  lemma LatestFollows(s: System, e: Event)
    requires Enabled(s, e)
    ensures Step(s, e).latest ==
            if Reading(s, e).Some? then Max(s.latest, HourStart(Reading(s, e).value)) else s.latest
  {
    hide Enabled, UserEffectOf, KeyEffectOf, NextStore, NextRequests, Reading, HourStart, DayStart, Act;
  }

  lemma WindowsGrow(c: Counter, early: Instant, late: Instant)
    requires early <= late
    ensures WindowOf(c, early) <= WindowOf(c, late)
  {
    DayStartMonotone(early, late);
  }

  lemma StartIsWindow(c: Counter, now: Instant)
    ensures StartOf(c, now) == WindowOf(c, HourStart(now))
  {
    HourDeterminesDay(now);
  }

  lemma InOrderTouch(s: System, e: Event, c: Counter)
    requires Enabled(s, e) && InOrder(s, e)
    ensures !Forgets(s, e, c) && s.latest <= Step(s, e).latest
    ensures var t := TouchOf(s, e, c);
            t.Touched? ==> WindowOf(c, s.latest) <= StartOf(c, t.now) == WindowOf(c, Step(s, e).latest)
  {
    InOrderForgetsNothing(s, e, c);
    LatestFollows(s, e);
    TouchIsRead(s, e, c);
    hide Enabled, TouchOf, Reading, Step, Forgets, HourStart, DayStart, WindowOf, StartOf;
    var t := TouchOf(s, e, c);
    if t.Touched? {
      StartIsWindow(c, t.now);
      WindowsGrow(c, s.latest, HourStart(t.now));
    }
  }

  lemma InOrderForgetsNothing(s: System, e: Event, c: Counter)
    requires !e.DeleteUser? && !e.DeleteKey?
    ensures !Forgets(s, e, c)
  {
  }

  lemma StepKeepsCounterCurrent(s: System, e: Event, c: Counter)
    requires Enabled(s, e) && InOrder(s, e) && s.st.Valid() && CurrentCounter(s, c)
    ensures CurrentCounter(Step(s, e), c) && !ReopensWindow(s, e, c)
  {
    hide Enabled, InOrder, State.Valid, AccountOf, SharesOf, TouchOf, StartOf, WindowOf, Current, Reopens, Act, Move, Step, Forgets;
    CounterFollows(s, e, c);
    InOrderTouch(s, e, c);
    var t := TouchOf(s, e, c);
    if t.Touched? {
      InOrderReopensNothing(AccountOf(s, c), SharesOf(s.reqs, c), WindowOf(c, s.latest), StartOf(c, t.now), t.op);
      ActKeepsCurrent(AccountOf(s, c), SharesOf(s.reqs, c), WindowOf(c, s.latest), StartOf(c, t.now), t.op);
    } else {
      WindowsGrow(c, s.latest, Step(s, e).latest);
      CurrentLater(AccountOf(s, c), SharesOf(s.reqs, c), WindowOf(c, s.latest), WindowOf(c, Step(s, e).latest));
    }
  }

  lemma StepKeepsWindows(s: System, e: Event)
    requires Enabled(s, e) && InOrder(s, e) && WindowsCurrent(s)
    ensures WindowsCurrent(Step(s, e)) && forall c :: !ReopensWindow(s, e, c)
  {
    hide Enabled, InOrder, State.Valid, CurrentCounter, ReopensWindow, Step;
    StepKeepsValid(s, e);
    forall c
      ensures CurrentCounter(Step(s, e), c) && !ReopensWindow(s, e, c)
    {
      StepKeepsCounterCurrent(s, e, c);
    }
  }

  lemma InitialCurrent(cfg: Config, users: map<string, User>, keys: map<string, UpstreamKey>, latest: Instant)
    requires ProperKeys(keys)
    ensures WindowsCurrent(Initial(cfg, users, keys, latest))
  {
    hide AccountOf, SharesOf;
    var s := Initial(cfg, users, keys, latest);
    forall c
      ensures CurrentCounter(s, c)
    {
      CounterBegins(cfg, users, keys, latest, c);
    }
  }

  /** When readings arrive in order no window is reopened, so the parts behind every
      bound of Conservation are throughout those of the counter's present window. */
  lemma PartsAreThePresentWindow(cfg: Config, users: map<string, User>, keys: map<string, UpstreamKey>,
                                 latest: Instant, es: seq<Event>, c: Counter)
    requires ProperKeys(keys) && RunWith(Initial(cfg, users, keys, latest), es, (x, e) => InOrder(x, e))
    ensures Run(Initial(cfg, users, keys, latest), es)
    ensures Throughout(Initial(cfg, users, keys, latest), es, x => Parts(x, c))
    ensures WindowsCurrent(After(Initial(cfg, users, keys, latest), es))
  {
    hide Enabled, Step, InOrder, WindowsCurrent, ReopensWindow, Parts;
    var s := Initial(cfg, users, keys, latest);
    InitialCurrent(cfg, users, keys, latest);
    forall x, e | Enabled(x, e) && InOrder(x, e) && WindowsCurrent(x)
      ensures WindowsCurrent(Step(x, e)) && !ReopensWindow(x, e, c)
    {
      StepKeepsWindows(x, e);
    }
    RunKeeps(s, es, (x, e) => InOrder(x, e), x => WindowsCurrent(x), (x, e) => !ReopensWindow(x, e, c));
    PartsAreThePresentWindowExactlyWhen(cfg, users, keys, latest, es, c);
  }

  // ---- one hour ----

  /** Every reading lies in the hour `w`. */
  ghost predicate Calm(s: System, e: Event, w: Instant) {
    Enabled(s, e) && Reading(s, e).Some? ==> HourStart(Reading(s, e).value) == w
  }

  ghost predicate ExactCounter(s: System, c: Counter, w: Instant) {
    Exact(AccountOf(s, c), SharesOf(s.reqs, c), WindowOf(c, w))
  }

  /** The counter is the sum of the open estimates and the settled actuals. */
  ghost predicate Plain(s: System, c: Counter) {
    AccountOf(s, c).c.value == Sum(Amounts(SharesOf(s.reqs, c)))
  }

  /** The event takes away from the counter what other requests account for, by an
      operation on it or by deleting what it belongs to. */
  ghost predicate Undercut(s: System, e: Event, c: Counter) {
    || (Enabled(s, e) && TouchOf(s, e, c).Touched? && Undercuts(SharesOf(s.reqs, c), TouchOf(s, e, c).op))
    || (Forgets(s, e, c) && Sum(Amounts(SharesOf(s.reqs, c))) != 0)
  }

  lemma CalmTouch(s: System, e: Event, c: Counter, w: Instant)
    requires Enabled(s, e) && Calm(s, e, w)
    ensures TouchOf(s, e, c).Touched? ==> StartOf(c, TouchOf(s, e, c).now) == WindowOf(c, w)
  {
    TouchIsRead(s, e, c);
    hide Enabled, TouchOf, Reading, HourStart, DayStart, WindowOf, StartOf;
    if TouchOf(s, e, c).Touched? {
      StartIsWindow(c, TouchOf(s, e, c).now);
    }
  }

  lemma ExactCounterIsPlain(s: System, c: Counter, w: Instant)
    requires ExactCounter(s, c, w)
    ensures Plain(s, c)
  {
    hide AccountOf, SharesOf, Sum;
  }

  ghost predicate ExactState(s: System, c: Counter, w: Instant) {
    s.st.Valid() && ExactCounter(s, c, w)
  }

  lemma NewAccountIsExactExactlyWhen(shares: Shares, w: Instant)
    ensures Exact(NEW_ACCOUNT, shares, w) <==> Sum(Amounts(shares)) == 0
    ensures NEW_ACCOUNT.c.value == 0
  {
  }

  /** One step within the hour keeps a counter a plain total exactly when it does not
      undercut it. */
  lemma StepKeepsExactExactlyWhen(s: System, e: Event, c: Counter, w: Instant)
    requires Enabled(s, e) && Calm(s, e, w) && ExactState(s, c, w)
    ensures if Undercut(s, e, c) then !Plain(Step(s, e), c) else ExactState(Step(s, e), c, w)
  {
    hide Enabled, Calm, State.Valid, AccountOf, SharesOf, TouchOf, StartOf, WindowOf, Exact, Undercuts, Act, Move, Step, Forgets, Sum,
         Amounts;
    StepKeepsValid(s, e);
    CounterFollows(s, e, c);
    CalmTouch(s, e, c, w);
    var t := TouchOf(s, e, c);
    if t.Touched? {
      ActKeepsExactExactlyWhen(AccountOf(s, c), SharesOf(s.reqs, c), WindowOf(c, w), t.op);
    }
    NewAccountIsExactExactlyWhen(SharesOf(s.reqs, c), WindowOf(c, w));
  }

  lemma PlainThroughoutExactlyWhen(s: System, es: seq<Event>, c: Counter, w: Instant)
    requires RunWith(s, es, (x, e) => Calm(x, e, w)) && ExactState(s, c, w)
    ensures Run(s, es)
    ensures Throughout(s, es, x => Plain(x, c)) <==> RunWith(s, es, (x, e) => !Undercut(x, e, c))
  {
    hide Enabled, Step, Calm, State.Valid, ExactCounter, Plain, Undercut;
    forall x, e | Enabled(x, e) && Calm(x, e, w) && ExactState(x, c, w)
      ensures if Undercut(x, e, c) then !Plain(Step(x, e), c) else ExactState(Step(x, e), c, w)
    {
      StepKeepsExactExactlyWhen(x, e, c, w);
    }
    forall x | ExactState(x, c, w)
      ensures Plain(x, c)
    {
      ExactCounterIsPlain(x, c, w);
    }
    GoodThroughoutExactlyWhen(s, es, (x, e) => Calm(x, e, w), x => ExactState(x, c, w), x => Plain(x, c),
                              (x, e) => !Undercut(x, e, c));
  }

  lemma RunKeepsExact(s: System, es: seq<Event>, c: Counter, w: Instant)
    requires RunWith(s, es, (x, e) => Calm(x, e, w) && !Undercut(x, e, c)) && ExactState(s, c, w)
    ensures Run(s, es) && ExactState(After(s, es), c, w)
  {
    hide Enabled, Step, Calm, ExactState, Undercut;
    forall x, e | Enabled(x, e) && Calm(x, e, w) && !Undercut(x, e, c) && ExactState(x, c, w)
      ensures ExactState(Step(x, e), c, w)
    {
      StepKeepsExactExactlyWhen(x, e, c, w);
    }
    RunKeeps(s, es, (x, e) => Calm(x, e, w) && !Undercut(x, e, c), x => ExactState(x, c, w), (x, e) => true);
  }

  lemma InitialExact(cfg: Config, users: map<string, User>, keys: map<string, UpstreamKey>, latest: Instant,
                     c: Counter, w: Instant)
    requires ProperKeys(keys)
    ensures ExactState(Initial(cfg, users, keys, latest), c, w)
  {
    hide AccountOf, SharesOf, State.Valid;
    InitialIsValid(cfg, users, keys, latest);
    CounterBegins(cfg, users, keys, latest, c);
    AmountsOfNothing();
  }

  /** Within one hour, for every interleaving of any number of requests, disconnects,
      negative usage and deletions included: a counter of a user or a key is the sum of
      the open estimates and the settled actuals throughout a run exactly when no section
      takes away from it what others account for, by a second release, a bill for less
      than nothing or a deletion. */
  lemma ExactWithinOneHourExactlyWhen(cfg: Config, users: map<string, User>, keys: map<string, UpstreamKey>,
                                      latest: Instant, es: seq<Event>, c: Counter, w: Instant)
    requires ProperKeys(keys) && RunWith(Initial(cfg, users, keys, latest), es, (x, e) => Calm(x, e, w))
    ensures Run(Initial(cfg, users, keys, latest), es)
    ensures Throughout(Initial(cfg, users, keys, latest), es, x => Plain(x, c)) <==>
            RunWith(Initial(cfg, users, keys, latest), es, (x, e) => !Undercut(x, e, c))
  {
    hide Enabled, Step, Calm, ExactState, Plain, Undercut;
    InitialExact(cfg, users, keys, latest, c, w);
    PlainThroughoutExactlyWhen(Initial(cfg, users, keys, latest), es, c, w);
  }

  // No estimate that is part of a plain counter exceeds it.
  lemma PlainFits(s: System, c: Counter, r: nat)
    requires Plain(s, c) && r in SharesOf(s.reqs, c)
    ensures SharesOf(s.reqs, c)[r].amount <= AccountOf(s, c).c.value
  {
    hide Sum, AccountOf, SharesOf;
    SumSplit(Amounts(SharesOf(s.reqs, c)), r);
  }

  // ---- the usual case ----

  predicate NonNegative(e: Event) {
    e.Reply? && e.outcome.Response? ==> e.outcome.actual >= 0
  }

  predicate Settles(q: Request) {
    q.phase.SettlingUser? || q.phase.SettlingKey? ==> q.phase.actual >= 0
  }

  predicate Deletes(e: Event) {
    e.DeleteUser? || e.DeleteKey?
  }

  // Disconnects undercut no user, and a key only by releasing it again.
  lemma NonNegativeUndercutsNothing(s: System, e: Event, c: Counter)
    requires Enabled(s, e) && forall r :: r in s.reqs ==> Settles(s.reqs[r])
    requires !Deletes(e) && (c.KeyHour? ==> NotReleasedAgain(s, e, c.key))
    ensures !Undercut(s, e, c)
  {
    hide State.ReserveUser, State.ReserveKey, HourStart, SharesOf, Sum;
  }

  lemma ReplySettles(q: Request, o: Outcome, used: int, at: Instant)
    requires q.phase.Calling? && (o.Response? ==> o.actual >= 0)
    ensures var q' := q.AfterReply(q.phase.key, o); Settles(q') && Settles(q'.Freed(at, used))
  {
  }

  lemma AnsweringWaits(q: Request, o: Outcome)
    ensures q.Answered(o).phase == q.phase
  {
  }

  lemma NextRequestSettles(s: System, e: Event)
    requires Enabled(s, e) && e.OfRequest() && NonNegative(e) && (e.r in s.reqs ==> Settles(s.reqs[e.r]))
    ensures Settles(NextRequest(s, e))
  {
    hide HourStart, State.ReserveUser, State.ReserveKey, Config.IsWorkingHour, Selection, Chosen, Request.AfterReply, Request.Answered;
    if e.Reply? {
      AnsweringWaits(s.reqs[e.r], e.outcome);
      ReplySettles(s.reqs[e.r].Answered(e.outcome), e.outcome, 0, e.now);
    }
  }

  ghost predicate NotReleasedAgain(s: System, e: Event, k: string) {
    e.ReleaseKeyAgain? && e.r in s.reqs && s.reqs[e.r].phase.GoneKey? ==> s.reqs[e.r].phase.key != k
  }

  ghost predicate Usual(s: System, e: Event, c: Counter) {
    NonNegative(e) && !Deletes(e) && (c.KeyHour? ==> NotReleasedAgain(s, e, c.key))
  }

  ghost predicate UsualState(s: System, c: Counter, w: Instant) {
    ExactState(s, c, w) && forall r :: r in s.reqs ==> Settles(s.reqs[r])
  }

  lemma StepKeepsUsual(s: System, e: Event, c: Counter, w: Instant)
    requires Enabled(s, e) && Calm(s, e, w) && Usual(s, e, c) && UsualState(s, c, w)
    ensures !Undercut(s, e, c) && UsualState(Step(s, e), c, w)
  {
    hide Enabled, Step, Calm, NextRequest, NextStore, UserEffectOf, KeyEffectOf, ExactState, Undercut, Settles, NonNegative,
         NotReleasedAgain, Deletes;
    NonNegativeUndercutsNothing(s, e, c);
    StepKeepsExactExactlyWhen(s, e, c, w);
    StepBooks(s, e);
    if e.OfRequest() {
      NextRequestSettles(s, e);
    }
  }

  /** In particular, without negative usage and deletions: every user's counters, whatever
      disconnects, and every key that no disconnect releases again, whatever happens to
      other keys. No open estimate exceeds such a counter, so giving it back never meets
      the clamp. */
  lemma ExactWithinOneHour(cfg: Config, users: map<string, User>, keys: map<string, UpstreamKey>,
                           latest: Instant, es: seq<Event>, c: Counter, w: Instant)
    requires ProperKeys(keys)
    requires RunWith(Initial(cfg, users, keys, latest), es, (x, e) => Calm(x, e, w) && Usual(x, e, c))
    ensures Run(Initial(cfg, users, keys, latest), es)
    ensures var s := After(Initial(cfg, users, keys, latest), es);
            Plain(s, c) && forall r :: r in SharesOf(s.reqs, c) ==> SharesOf(s.reqs, c)[r].amount <= AccountOf(s, c).c.value
  {
    hide Enabled, Step, Calm, Usual, UsualState, Plain, AccountOf, SharesOf;
    var s0 := Initial(cfg, users, keys, latest);
    InitialUsual(cfg, users, keys, latest, c, w);
    forall x, e | Enabled(x, e) && Calm(x, e, w) && Usual(x, e, c) && UsualState(x, c, w)
      ensures UsualState(Step(x, e), c, w)
    {
      StepKeepsUsual(x, e, c, w);
    }
    RunKeeps(s0, es, (x, e) => Calm(x, e, w) && Usual(x, e, c), x => UsualState(x, c, w), (x, e) => true);
    var s := After(s0, es);
    UsualIsPlain(s, c, w);
    forall r | r in SharesOf(s.reqs, c)
      ensures SharesOf(s.reqs, c)[r].amount <= AccountOf(s, c).c.value
    {
      PlainFits(s, c, r);
    }
  }

  lemma ExactStateIsPlain(s: System, c: Counter, w: Instant)
    requires ExactState(s, c, w)
    ensures Plain(s, c)
  {
    hide State.Valid, ExactCounter, Plain;
    ExactCounterIsPlain(s, c, w);
  }

  // ---- in flight ----

  ghost predicate FlightPlain(s: System, k: string) {
    s.st.Flying(k) == |Holders(s.reqs, k)|
  }

  /** The event is a second release, or a deletion, of the key while it is held. */
  ghost predicate Strands(s: System, e: Event, k: string) {
    && Enabled(s, e) && Holders(s.reqs, k) != {}
    && (k in ForgottenKeys(s, e) || (e.ReleaseKeyAgain? && s.reqs[e.r].phase.key == k))
  }

  lemma StrayIsSecondRelease(s: System, e: Event, k: string)
    requires Enabled(s, e)
    ensures var ke := KeyEffectOf(s, e);
            e.ReleaseKeyAgain? && s.reqs[e.r].phase.key == k <==> ke.OnKey? && ke.key == k && ke.op.Stray?
    ensures k in ForgottenKeys(s, e) ==> KeyEffectOf(s, e).OffKey?
  {
    hide State.ReserveKey, HourStart;
  }

  /** One step keeps the in-flight count of a key the number of its holders exactly when
      it strands none of them. */
  lemma StepKeepsFlightExactlyWhen(s: System, e: Event, k: string)
    requires Enabled(s, e) && FlightPlain(s, k)
    ensures FlightPlain(Step(s, e), k) <==> !Strands(s, e, k)
  {
    StrayIsSecondRelease(s, e, k);
    FlightFollows(s, e, k);
  }

  lemma FlightFollows(s: System, e: Event, k: string)
    requires Enabled(s, e) && FlightPlain(s, k)
    ensures var ke := KeyEffectOf(s, e);
            FlightPlain(Step(s, e), k) <==>
            Holders(s.reqs, k) == {} || (k !in ForgottenKeys(s, e) && !(ke.OnKey? && ke.key == k && ke.op.Stray?))
  {
    hide Enabled, KeyEffectOf, NextStore, NextRequests, Step, Holders, ForgottenKeys;
    StepBooks(s, e);
    FlyingFollows(s, e, k);
    HoldersFollow(s, e, k);
    ForgottenIsOff(s, e, k);
  }

  lemma ForgottenIsOff(s: System, e: Event, k: string)
    requires Enabled(s, e)
    ensures k in ForgottenKeys(s, e) ==> KeyEffectOf(s, e).OffKey?
  {
  }

  /** In every run, with any readings and deletions: a key's in-flight count is the number
      of its open reservations throughout exactly when no second release and no deletion
      comes while the key is held. */
  lemma FlightExactExactlyWhen(cfg: Config, users: map<string, User>, keys: map<string, UpstreamKey>,
                               latest: Instant, es: seq<Event>, k: string)
    requires Run(Initial(cfg, users, keys, latest), es)
    ensures Throughout(Initial(cfg, users, keys, latest), es, x => FlightPlain(x, k)) <==>
            RunWith(Initial(cfg, users, keys, latest), es, (x, e) => !Strands(x, e, k))
  {
    hide Enabled, Step, FlightPlain, Strands;
    var s := Initial(cfg, users, keys, latest);
    InitialFlight(cfg, users, keys, latest, k);
    RunIsRunWith(s, es);
    forall x, e | Enabled(x, e) && FlightPlain(x, k)
      ensures FlightPlain(Step(x, e), k) <==> !Strands(x, e, k)
    {
      StepKeepsFlightExactlyWhen(x, e, k);
    }
    GoodThroughoutExactlyWhen(s, es, (x, e) => true, x => FlightPlain(x, k), x => FlightPlain(x, k),
                              (x, e) => !Strands(x, e, k));
  }

  lemma InitialFlight(cfg: Config, users: map<string, User>, keys: map<string, UpstreamKey>, latest: Instant, k: string)
    ensures FlightPlain(Initial(cfg, users, keys, latest), k)
  {
    assert Holders(Initial(cfg, users, keys, latest).reqs, k) == {};
  }

  // ---- both totals of a key ----

  /** A key's counter is the sum of its requests, and its in-flight count their number. */
  ghost predicate PlainKey(s: System, k: string) {
    Plain(s, KeyHour(k)) && FlightPlain(s, k)
  }

  /** The second release after a disconnect leaves its key's totals plain exactly when
      nobody holds the key and there is nothing to take away. */
  lemma SecondReleaseKeepsTotalsExactlyWhen(s: System, r: nat, now: Instant)
    requires Enabled(s, ReleaseKeyAgain(r, now)) && s.st.Valid()
    requires var c := s.st.KeyHour(s.reqs[r].phase.key).start; c.None? || c == Some(HourStart(now))
    requires PlainKey(s, s.reqs[r].phase.key)
    ensures var k := s.reqs[r].phase.key;
            PlainKey(Step(s, ReleaseKeyAgain(r, now)), k) <==>
            Holders(s.reqs, k) == {} && (s.reqs[r].est == 0 || Sum(Amounts(KeyShares(s.reqs, k))) == 0)
  {
    SecondReleaseEffect(s, r, now);
    SecondReleaseTotals(s, ReleaseKeyAgain(r, now), s.reqs[r].phase.key, s.reqs[r].est, now);
    TotalsKeptExactlyWhen(s, Step(s, ReleaseKeyAgain(r, now)), s.reqs[r].phase.key, s.reqs[r].est);
  }

  lemma SecondReleaseTotals(s: System, e: Event, k: string, est: nat, now: Instant)
    requires Enabled(s, e) && s.st.Valid() && KeyEffectOf(s, e) == OnKey(k, now, Stray(est)) && ForgottenKeys(s, e) == {}
    requires s.st.KeyHour(k).start.None? || s.st.KeyHour(k).start == Some(HourStart(now))
    ensures var s' := Step(s, e);
            && s'.st.KeyHour(k).value == Max(0, s.st.KeyHour(k).value - est)
            && s'.st.Flying(k) == (if s.st.Flying(k) > 0 then s.st.Flying(k) - 1 else 0)
            && KeyShares(s'.reqs, k) == KeyShares(s.reqs, k) && Holders(s'.reqs, k) == Holders(s.reqs, k)
  {
    hide Sum, HourStart, DayStart, KeyShares, Holders, Enabled, KeyEffectOf, UserEffectOf, NextStore, NextRequests, Step,
         State.Valid, ForgottenKeys, ForgottenUsers, Shifted, State.KeyHour, State.Flying;
    UnopenedIsZero(s.st, k);
    StepBooks(s, e);
    KeySharesFollow(s, e, k);
    HoldersFollow(s, e, k);
    FlyingFollows(s, e, k);
    CountersFollow(s, e, "", k);
    LoweredValue(s.st.KeyHour(k), HourStart(now), est);
  }

  lemma UnopenedIsZero(st: State, k: string)
    requires st.Valid()
    ensures st.KeyHour(k).start.None? ==> st.KeyHour(k).value == 0
    ensures st.KeyHour(k).value >= 0
  {
  }

  lemma LoweredValue(c: WindowCounter, start: Instant, est: nat)
    requires if c.start.None? then c.value == 0 else c.start == Some(start)
    ensures Shifted(c, start, 0 - est).value == Max(0, c.value - est)
  {
  }

  lemma TotalsKeptExactlyWhen(s: System, s': System, k: string, est: nat)
    requires PlainKey(s, k)
    requires s'.st.KeyHour(k).value == Max(0, s.st.KeyHour(k).value - est)
    requires s'.st.Flying(k) == if s.st.Flying(k) > 0 then s.st.Flying(k) - 1 else 0
    requires KeyShares(s'.reqs, k) == KeyShares(s.reqs, k) && Holders(s'.reqs, k) == Holders(s.reqs, k)
    ensures PlainKey(s', k) <==> Holders(s.reqs, k) == {} && (est == 0 || Sum(Amounts(KeyShares(s.reqs, k))) == 0)
  {
    hide Sum, KeyShares, Holders, Amounts, State.KeyHour, State.Flying;
  }

  lemma SecondReleaseEffect(s: System, r: nat, now: Instant)
    requires Enabled(s, ReleaseKeyAgain(r, now))
    ensures var e := ReleaseKeyAgain(r, now);
            && KeyEffectOf(s, e) == OnKey(s.reqs[r].phase.key, now, Stray(s.reqs[r].est))
            && ForgottenKeys(s, e) == {} && Reading(s, e) == Some(now)
  {
  }

  ghost predicate ExactKey(s: System, k: string, w: Instant) {
    ExactState(s, KeyHour(k), w) && FlightPlain(s, k)
  }

  lemma StepDecidesKey(s: System, e: Event, k: string, w: Instant)
    requires Enabled(s, e) && Calm(s, e, w) && ExactKey(s, k, w)
    ensures if Undercut(s, e, KeyHour(k)) || Strands(s, e, k) then !PlainKey(Step(s, e), k) else ExactKey(Step(s, e), k, w)
  {
    hide Enabled, Step, Calm, ExactState, Plain, FlightPlain, Undercut, Strands;
    StepKeepsExactExactlyWhen(s, e, KeyHour(k), w);
    StepKeepsFlightExactlyWhen(s, e, k);
  }

  /** Within one hour a key's counter is the sum of its open estimates and settled
      actuals, and its in-flight count the number of its holders, throughout a run exactly
      when nothing undercuts it and no second release comes while it is held. */
  lemma KeyExactWithinOneHourExactlyWhen(cfg: Config, users: map<string, User>, keys: map<string, UpstreamKey>,
                                         latest: Instant, es: seq<Event>, k: string, w: Instant)
    requires ProperKeys(keys) && RunWith(Initial(cfg, users, keys, latest), es, (x, e) => Calm(x, e, w))
    ensures Run(Initial(cfg, users, keys, latest), es)
    ensures Throughout(Initial(cfg, users, keys, latest), es, x => PlainKey(x, k)) <==>
            RunWith(Initial(cfg, users, keys, latest), es, (x, e) => !Undercut(x, e, KeyHour(k)) && !Strands(x, e, k))
  {
    hide Enabled, Step, Calm, ExactState, Plain, FlightPlain, Undercut, Strands;
    InitialExact(cfg, users, keys, latest, KeyHour(k), w);
    InitialFlight(cfg, users, keys, latest, k);
    forall x, e | Enabled(x, e) && Calm(x, e, w) && ExactKey(x, k, w)
      ensures if Undercut(x, e, KeyHour(k)) || Strands(x, e, k) then !PlainKey(Step(x, e), k) else ExactKey(Step(x, e), k, w)
    {
      StepDecidesKey(x, e, k, w);
    }
    forall x | ExactKey(x, k, w)
      ensures PlainKey(x, k)
    {
      ExactStateIsPlain(x, KeyHour(k), w);
    }
    GoodThroughoutExactlyWhen(Initial(cfg, users, keys, latest), es, (x, e) => Calm(x, e, w), x => ExactKey(x, k, w),
                              x => PlainKey(x, k), (x, e) => !Undercut(x, e, KeyHour(k)) && !Strands(x, e, k));
  }

  /** In particular a key that no disconnect releases again, without negative usage and
      deletions: both totals are exact, whatever happens to other keys. */
  lemma KeyExactWithinOneHour(cfg: Config, users: map<string, User>, keys: map<string, UpstreamKey>,
                              latest: Instant, es: seq<Event>, k: string, w: Instant)
    requires ProperKeys(keys)
    requires RunWith(Initial(cfg, users, keys, latest), es, (x, e) => Calm(x, e, w) && Usual(x, e, KeyHour(k)))
    ensures Run(Initial(cfg, users, keys, latest), es) && PlainKey(After(Initial(cfg, users, keys, latest), es), k)
  {
    hide Enabled, Step, Calm, Usual, UsualState, Plain, FlightPlain;
    var s0 := Initial(cfg, users, keys, latest);
    InitialUsual(cfg, users, keys, latest, KeyHour(k), w);
    InitialFlight(cfg, users, keys, latest, k);
    forall x, e | Enabled(x, e) && Calm(x, e, w) && Usual(x, e, KeyHour(k)) && UsualState(x, KeyHour(k), w) && FlightPlain(x, k)
      ensures UsualState(Step(x, e), KeyHour(k), w) && FlightPlain(Step(x, e), k)
    {
      StepKeepsUsual(x, e, KeyHour(k), w);
      UsualStrandsNobody(x, e, k);
      StepKeepsFlightExactlyWhen(x, e, k);
    }
    RunKeeps(s0, es, (x, e) => Calm(x, e, w) && Usual(x, e, KeyHour(k)), x => UsualState(x, KeyHour(k), w) && FlightPlain(x, k),
             (x, e) => true);
    UsualIsPlain(After(s0, es), KeyHour(k), w);
  }

  lemma InitialUsual(cfg: Config, users: map<string, User>, keys: map<string, UpstreamKey>, latest: Instant,
                     c: Counter, w: Instant)
    requires ProperKeys(keys)
    ensures UsualState(Initial(cfg, users, keys, latest), c, w)
  {
    hide ExactState;
    InitialExact(cfg, users, keys, latest, c, w);
  }

  lemma UsualIsPlain(s: System, c: Counter, w: Instant)
    requires UsualState(s, c, w)
    ensures Plain(s, c)
  {
    hide ExactState, Plain;
    ExactStateIsPlain(s, c, w);
  }

  lemma UsualStrandsNobody(s: System, e: Event, k: string)
    requires Enabled(s, e) && Usual(s, e, KeyHour(k))
    ensures !Strands(s, e, k)
  {
    hide Holders, State.ReserveUser, State.ReserveKey;
  }

  // ---- the race for a key ----

  /** With plain totals a reservation is refused for room exactly when the estimate does
      not fit beside what the key's requests account for. */
  lemma RefusedExactlyWhen(s: System, r: nat, now: Instant)
    requires Enabled(s, ReserveKey(r, now)) && s.st.Valid() && Plain(s, KeyHour(s.reqs[r].phase.key))
    requires var c := s.st.KeyHour(s.reqs[r].phase.key).start; c.None? || c == Some(HourStart(now))
    ensures var q := s.reqs[r];
            var (k, e) := (q.phase.key, ReserveKey(r, now));
            NextRequest(s, e).phase.Selecting? <==>
            || k !in s.st.keys || !s.st.keys[k].enabled
            || (s.Working(q) && q.phase.limit > 0 && Sum(Amounts(KeyShares(s.reqs, k))) + q.est > q.phase.limit)
  {
    hide Sum, HourStart, KeyShares, Config.IsWorkingHour;
    KeyHourAtOk(s.st, s.reqs[r].phase.key, now);
  }

  lemma {:induction false} LastStep(s: System, es: seq<Event>)
    requires Run(s, es) && es != []
    ensures var n := |es| - 1;
            && Run(s, es[..n]) && Enabled(After(s, es[..n]), es[n])
            && After(s, es) == Step(After(s, es[..n]), es[n])
    decreases |es|
  {
    var n := |es| - 1;
    if n == 0 {
      assert es[..0] == [] && es[1..] == [];
    } else {
      LastStep(Step(s, es[0]), es[1..]);
      assert es[1..][..n - 1] == es[..n][1..] && es[..n][0] == es[0];
    }
  }

  predicate OfOthers(es: seq<Event>, r: nat) {
    forall e :: e in es ==> !(e.OfRequest() && e.r == r)
  }

  lemma {:induction false} OthersLeaveAlone(s: System, es: seq<Event>, r: nat)
    requires Run(s, es) && OfOthers(es, r) && r in s.reqs
    ensures r in After(s, es).reqs && After(s, es).reqs[r] == s.reqs[r] && After(s, es).cfg == s.cfg
    decreases |es|
  {
    if es != [] {
      assert es[0] in es;
      OneLeavesAlone(s, es[0], r);
      OthersLeaveAlone(Step(s, es[0]), es[1..], r);
    }
  }

  lemma OneLeavesAlone(s: System, e: Event, r: nat)
    requires Enabled(s, e) && !(e.OfRequest() && e.r == r) && r in s.reqs
    ensures r in Step(s, e).reqs && Step(s, e).reqs[r] == s.reqs[r] && Step(s, e).cfg == s.cfg
  {
    hide Enabled, UserEffectOf, KeyEffectOf, NextStore, NextRequest, Act, Reading;
  }

  lemma SelectReserves(s: System, r: nat, key: string, at: Instant)
    requires Enabled(s, Select(r, key, at))
    ensures var s' := Step(s, Select(r, key, at));
            && key in s.st.keys && r in s'.reqs
            && s'.reqs[r].phase == Reserving(key, HourlyLimit(s.st.keys[key], s.cfg.defaultHourly))
  {
  }

  /** The request is refused at `s'` exactly when the key is gone or disabled, or what was
      taken of it since `s` and the estimate exceed the room it had then. */
  ghost predicate LostSince(s: System, s': System, r: nat, key: string, now: Instant)
    requires r in s.reqs && s.reqs[r].phase.Reserving?
  {
    && Enabled(s', ReserveKey(r, now))
    && var (q, e) := (s.reqs[r], ReserveKey(r, now));
       var room := q.phase.limit - s.st.KeyHour(key).value;
       var taken := Sum(Amounts(KeyShares(s'.reqs, key))) - Sum(Amounts(KeyShares(s.reqs, key)));
       NextRequest(s', e).phase.Selecting? <==>
       || key !in s'.st.keys || !s'.st.keys[key].enabled
       || (s.Working(q) && q.phase.limit > 0 && taken + q.est > room)
  }

  lemma PlainRaceIsLostExactlyWhen(s: System, s': System, r: nat, key: string, now: Instant, w: Instant)
    requires ExactCounter(s, KeyHour(key), w) && ExactCounter(s', KeyHour(key), w) && s'.st.Valid()
    requires r in s.reqs && s.reqs[r].phase.Reserving? && s.reqs[r].phase.key == key
    requires r in s'.reqs && s'.reqs[r] == s.reqs[r] && s'.cfg == s.cfg && HourStart(now) == w
    ensures LostSince(s, s', r, key, now)
  {
    hide Sum, KeyShares, State.Valid, Plain, ExactCounter, Config.IsWorkingHour, HourStart, NextRequest;
    ExactCounterIsPlain(s, KeyHour(key), w);
    ExactCounterIsPlain(s', KeyHour(key), w);
    ExactKeyWindow(s', key, w);
    PlainKeyValue(s, key);
    RefusedExactlyWhen(s', r, now);
  }

  lemma RaceIsLostAfterAnExactState(s: System, r: nat, key: string, between: seq<Event>, now: Instant, w: Instant)
    requires ExactState(s, KeyHour(key), w) && HourStart(now) == w && OfOthers(between, r)
    requires r in s.reqs && s.reqs[r].phase.Reserving? && s.reqs[r].phase.key == key
    requires RunWith(s, between, (x, e) => Calm(x, e, w) && !Undercut(x, e, KeyHour(key)))
    ensures Run(s, between) && LostSince(s, After(s, between), r, key, now)
  {
    hide Calm, Undercut, State.Valid, ExactCounter, HourStart, LostSince, Enabled, Step;
    RunKeepsExact(s, between, KeyHour(key), w);
    OthersLeaveAlone(s, between, r);
    PlainRaceIsLostExactlyWhen(s, After(s, between), r, key, now, w);
  }

  // Right after a selection made in a run that undercuts nothing.
  lemma ExactAtSelection(cfg: Config, users: map<string, User>, keys: map<string, UpstreamKey>, latest: Instant,
                         selected: seq<Event>, r: nat, key: string, at: Instant, w: Instant)
    requires ProperKeys(keys) && selected != [] && selected[|selected| - 1] == Select(r, key, at)
    requires RunWith(Initial(cfg, users, keys, latest), selected, (x, e) => Calm(x, e, w) && !Undercut(x, e, KeyHour(key)))
    ensures Run(Initial(cfg, users, keys, latest), selected)
    ensures var s := After(Initial(cfg, users, keys, latest), selected);
            && ExactState(s, KeyHour(key), w)
            && r in s.reqs && s.reqs[r].phase.Reserving? && s.reqs[r].phase.key == key
  {
    hide Calm, Undercut, ExactState, Enabled, Step;
    var s0 := Initial(cfg, users, keys, latest);
    InitialExact(cfg, users, keys, latest, KeyHour(key), w);
    RunKeepsExact(s0, selected, KeyHour(key), w);
    LastStep(s0, selected);
    SelectReserves(After(s0, selected[..|selected| - 1]), r, key, at);
  }

  /** A race lost: within one hour, in any run in which nothing undercuts the key, a
      request that has just selected it is refused after whatever others did in between
      exactly when the key is gone or disabled, or what they took of it and the request's
      estimate exceed the room it was selected by. */
  lemma RaceIsLostExactlyWhen(cfg: Config, users: map<string, User>, keys: map<string, UpstreamKey>, latest: Instant,
                              selected: seq<Event>, r: nat, key: string, at: Instant, between: seq<Event>, now: Instant, w: Instant)
    requires ProperKeys(keys) && HourStart(now) == w
    requires selected != [] && selected[|selected| - 1] == Select(r, key, at) && OfOthers(between, r)
    requires RunWith(Initial(cfg, users, keys, latest), selected, (x, e) => Calm(x, e, w) && !Undercut(x, e, KeyHour(key)))
    requires Run(Initial(cfg, users, keys, latest), selected) ==>
               RunWith(After(Initial(cfg, users, keys, latest), selected), between,
                       (x, e) => Calm(x, e, w) && !Undercut(x, e, KeyHour(key)))
    ensures Run(Initial(cfg, users, keys, latest), selected)
    ensures var s := After(Initial(cfg, users, keys, latest), selected);
            && r in s.reqs && s.reqs[r].phase.Reserving? && s.reqs[r].phase.key == key
            && Run(s, between) && LostSince(s, After(s, between), r, key, now)
  {
    hide Calm, Undercut, ExactState, HourStart, LostSince, RunWith, Run, After, OfOthers;
    ExactAtSelection(cfg, users, keys, latest, selected, r, key, at, w);
    RaceIsLostAfterAnExactState(After(Initial(cfg, users, keys, latest), selected), r, key, between, now, w);
  }

  lemma ExactKeyWindow(s: System, k: string, w: Instant)
    requires ExactCounter(s, KeyHour(k), w)
    ensures s.st.KeyHour(k).start.None? || s.st.KeyHour(k).start == Some(w)
  {
  }

  lemma PlainKeyValue(s: System, k: string)
    requires Plain(s, KeyHour(k))
    ensures s.st.KeyHour(k).value == Sum(Amounts(KeyShares(s.reqs, k)))
  {
  }
}

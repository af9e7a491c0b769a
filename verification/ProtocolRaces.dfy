// Runs that show what interleaving can do: reachable from an empty ledger, with a
// validated configuration and limits in force.
module ProtocolRaces {
  import opened Wrappers
  import opened Clock
  import opened Text
  import opened Quota
  import opened StoreModel
  import opened Router
  import opened Requests
  import opened Ledger
  import opened Protocol
  import opened ProtocolLedger
  import opened ProtocolRuns
  import opened ProtocolCounters
  import opened ProtocolSpend
  import opened ProtocolWindows

  // All hours are working hours; one user owns the one key.
  function DemoConfig(): Config {
    Config([WorkingHour(0, 24)], 0, 10, 1000)
  }

  function DemoUser(): User {
    User(true, 100, 1000)
  }

  function DemoKey(): UpstreamKey {
    UpstreamKey("k", "u", [], true, 0)
  }

  function DemoStart(): System {
    Initial(DemoConfig(), map["u" := DemoUser()], map["k" := DemoKey()], 0)
  }

  lemma DemoIsValid()
    ensures DemoConfig().Valid() && ProperKeys(map["k" := DemoKey()])
    ensures forall t :: DemoConfig().IsWorkingHour(t)
  {
    forall t
      ensures DemoConfig().IsWorkingHour(t)
    {
      LocalHourInRange(DemoConfig(), t);
      assert WorkingHour(0, 24) in DemoConfig().workingHours;
    }
  }

  // ---- joining runs ----

  lemma RunOne(s: System, e: Event)
    requires Enabled(s, e)
    ensures Run(s, [e]) && After(s, [e]) == Step(s, e)
  {
    assert [e][1..] == [];
  }

  lemma {:induction false} RunConcat(s: System, a: seq<Event>, b: seq<Event>)
    requires Run(s, a) && Run(After(s, a), b)
    ensures Run(s, a + b) && After(s, a + b) == After(After(s, a), b)
    decreases |a|
  {
    if a == [] {
      assert a + b == b;
    } else {
      hide Enabled, Step;
      assert (a + b)[1..] == a[1..] + b && (a + b)[0] == a[0];
      RunConcat(Step(s, a[0]), a[1..], b);
    }
  }

  lemma RunMore(s: System, es: seq<Event>, e: Event)
    requires Run(s, es) && Enabled(After(s, es), e)
    ensures Run(s, es + [e]) && After(s, es + [e]) == Step(After(s, es), e)
  {
    RunOne(After(s, es), e);
    RunConcat(s, es, [e]);
  }

  // ---- within the hour of instant 0 ----

  /** The demo records, with `spent` on the user's counters, `used` on the key's and
      `flying` requests in flight. */
  ghost predicate Demo(s: System, spent: nat, used: nat, flying: nat) {
    && s.cfg == DemoConfig() && s.st.users == map["u" := DemoUser()] && s.st.keys == map["k" := DemoKey()]
    && s.st.CountersAt("u", 0).hour.value == spent == s.st.CountersAt("u", 0).day.value
    && s.st.KeyHourAt("k", 0).value == used && s.st.Flying("k") == flying
    && s.st.Valid()
  }

  ghost predicate At(s: System, r: nat, est: nat, phase: Phase) {
    && r in s.reqs && s.reqs[r].phase == phase && s.reqs[r].est == est
    && s.reqs[r].user == "u" && s.reqs[r].model == "m" && s.reqs[r].now == 0
    && s.reqs[r].exclude == {} && !s.reqs[r].injected
  }

  ghost predicate OthersStay(s: System, s': System, r: nat) {
    r in s'.reqs && s'.reqs == s.reqs[r := s'.reqs[r]]
  }

  lemma Arrives(s: System, r: nat, est: nat, spent: nat, used: nat, flying: nat)
    requires Demo(s, spent, used, flying) && r !in s.reqs
    ensures var e := Arrive(r, "u", "m", est, false, 0);
            Enabled(s, e) && Demo(Step(s, e), spent, used, flying) && At(Step(s, e), r, est, Arrived)
            && OthersStay(s, Step(s, e), r)
  {
    hide UserEffectOf, KeyEffectOf, Act, Selection, Chosen;
  }

  lemma Admitted(s: System, r: nat, est: nat, spent: nat, used: nat, flying: nat)
    requires Demo(s, spent, used, flying) && At(s, r, est, Arrived) && spent + est <= 100
    ensures var e := ReserveUser(r, 100, 1000);
            Enabled(s, e) && Demo(Step(s, e), spent + est, used, flying) && At(Step(s, e), r, est, Selecting)
            && OthersStay(s, Step(s, e), r)
  {
    hide UserEffectOf, KeyEffectOf, Act, Selection, Chosen;
    NextStoreValid(s, ReserveUser(r, 100, 1000));
  }

  lemma Selects(s: System, r: nat, est: nat, spent: nat, used: nat, flying: nat)
    requires Demo(s, spent, used, flying) && At(s, r, est, Selecting) && used < 10
    ensures var e := Select(r, "k", 0);
            Enabled(s, e) && Demo(Step(s, e), spent, used, flying) && At(Step(s, e), r, est, Reserving("k", 10))
            && OthersStay(s, Step(s, e), r)
  {
    OneKeyIsChosen(s, r, used);
  }

  lemma OneKeyIsChosen(s: System, r: nat, used: nat)
    requires s.cfg == DemoConfig() && s.st.keys == map["k" := DemoKey()] && s.st.Valid() && r in s.reqs
    requires s.reqs[r].exclude == {} && s.st.KeyHourAt("k", 0).value == used < 10
    ensures Chosen(s.st.keys.Values, s.QueryOf(s.reqs[r], 0), s.st.keys["k"])
  {
    KeyHourAtOk(s.st, "k", 0);
    StrLessTotal("k", "k");
    assert s.st.keys["k"] in s.st.keys.Values;
    assert forall j :: j in s.st.keys.Values ==> j == DemoKey();
  }

  lemma Takes(s: System, r: nat, est: nat, spent: nat, used: nat, flying: nat)
    requires Demo(s, spent, used, flying) && At(s, r, est, Reserving("k", 10)) && used + est <= 10
    ensures var e := ReserveKey(r, 0);
            Enabled(s, e) && Demo(Step(s, e), spent, used + est, flying + 1) && At(Step(s, e), r, est, Calling("k"))
            && OthersStay(s, Step(s, e), r)
  {
    hide UserEffectOf, KeyEffectOf, Act, Selection, Chosen;
    NextStoreValid(s, ReserveKey(r, 0));
  }

  lemma Refused(s: System, r: nat, est: nat, spent: nat, used: nat, flying: nat)
    requires Demo(s, spent, used, flying) && At(s, r, est, Reserving("k", 10)) && used + est > 10
    ensures var e := ReserveKey(r, 0);
            && Enabled(s, e) && r in Step(s, e).reqs
            && Step(s, e).reqs[r].phase == Selecting && Step(s, e).reqs[r].exclude == {"k"}
  {
    hide UserEffectOf, KeyEffectOf, Act, Selection, Chosen;
    DemoIsValid();
  }

  lemma Disconnects(s: System, r: nat, est: nat, spent: nat, used: nat, flying: nat)
    requires Demo(s, spent, used, flying) && At(s, r, est, Calling("k")) && est <= used && flying > 0
    ensures var e := Reply(r, ClientGone, 0);
            Enabled(s, e) && Demo(Step(s, e), spent, used - est, flying - 1) && At(Step(s, e), r, est, GoneUser("k"))
            && OthersStay(s, Step(s, e), r)
  {
    hide UserEffectOf, KeyEffectOf, Act, Selection, Chosen, Config.IsWorkingHour;
    NextStoreValid(s, Reply(r, ClientGone, 0));
  }

  lemma GivesBack(s: System, r: nat, est: nat, spent: nat, used: nat, flying: nat)
    requires Demo(s, spent, used, flying) && At(s, r, est, GoneUser("k")) && est <= spent
    ensures var e := Protocol.ReleaseUser(r, 0);
            Enabled(s, e) && Demo(Step(s, e), spent - est, used, flying) && At(Step(s, e), r, est, GoneKey("k"))
            && OthersStay(s, Step(s, e), r)
  {
    hide UserEffectOf, KeyEffectOf, Act, Selection, Chosen, Config.IsWorkingHour;
    NextStoreValid(s, Protocol.ReleaseUser(r, 0));
  }

  lemma ReleasesAgain(s: System, r: nat, est: nat, spent: nat, used: nat, flying: nat)
    requires Demo(s, spent, used, flying) && At(s, r, est, GoneKey("k")) && est <= used && flying > 0
    ensures var e := ReleaseKeyAgain(r, 0);
            Enabled(s, e) && Demo(Step(s, e), spent, used - est, flying - 1)
            && OthersStay(s, Step(s, e), r)
  {
    hide UserEffectOf, KeyEffectOf, Act, Selection, Chosen, Config.IsWorkingHour;
    NextStoreValid(s, ReleaseKeyAgain(r, 0));
  }

  // Arrival, admission and selection in a row.
  lemma Routed(s: System, r: nat, est: nat, spent: nat, used: nat, flying: nat) returns (es: seq<Event>)
    requires Demo(s, spent, used, flying) && r !in s.reqs && spent + est <= 100 && used < 10
    ensures Run(s, es)
    ensures var s' := After(s, es);
            Demo(s', spent + est, used, flying) && At(s', r, est, Reserving("k", 10)) && OthersStay(s, s', r)
  {
    hide Demo, At, Enabled, Step;
    var a, b, c := Arrive(r, "u", "m", est, false, 0), ReserveUser(r, 100, 1000), Select(r, "k", 0);
    Arrives(s, r, est, spent, used, flying);
    RunOne(s, a);
    Admitted(Step(s, a), r, est, spent, used, flying);
    RunMore(s, [a], b);
    Selects(Step(Step(s, a), b), r, est, spent + est, used, flying);
    RunMore(s, [a] + [b], c);
    es := [a] + [b] + [c];
  }

  lemma DemoBegins()
    ensures Demo(DemoStart(), 0, 0, 0)
  {
  }

  lemma OthersKeepPlace(s: System, s': System, r: nat, o: nat, est: nat, phase: Phase)
    requires At(s, o, est, phase) && OthersStay(s, s', r) && o != r
    ensures At(s', o, est, phase)
  {
  }

  /** Selection and reservation can be raced: a key is selected with room for the
      estimate, another request takes the room, and the reservation is refused. */
  lemma RoomIsTakenInBetween() returns (before: seq<Event>, between: seq<Event>)
    ensures Run(DemoStart(), before) && Run(After(DemoStart(), before), between)
    ensures var s := After(DemoStart(), before);
            && At(s, 0, 6, Reserving("k", 10)) && KeyReservation(s, s.reqs[0], 0).1.None?
    ensures var s := After(After(DemoStart(), before), between);
            && At(s, 0, 6, Reserving("k", 10)) && At(s, 1, 6, Calling("k")) && Enabled(s, ReserveKey(0, 0))
            && Step(s, ReserveKey(0, 0)).reqs[0].phase == Selecting && Step(s, ReserveKey(0, 0)).reqs[0].exclude == {"k"}
  {
    hide Enabled, Step, Run, After, At, Demo, KeyReservation;
    var s0 := DemoStart();
    DemoBegins();
    before := Routed(s0, 0, 6, 0, 0, 0);
    var s1 := After(s0, before);
    RoomAtSelection(s1, 0, 6, 6, 0, 0);
    var es := Routed(s1, 1, 6, 6, 0, 0);
    var s2 := After(s1, es);
    OthersKeepPlace(s1, s2, 1, 0, 6, Reserving("k", 10));
    Takes(s2, 1, 6, 12, 0, 0);
    RunMore(s1, es, ReserveKey(1, 0));
    between := es + [ReserveKey(1, 0)];
    var s3 := Step(s2, ReserveKey(1, 0));
    OthersKeepPlace(s2, s3, 1, 0, 6, Reserving("k", 10));
    Refused(s3, 0, 6, 12, 6, 1);
  }

  lemma RoomAtSelection(s: System, r: nat, est: nat, spent: nat, used: nat, flying: nat)
    requires Demo(s, spent, used, flying) && At(s, r, est, Reserving("k", 10)) && used + est <= 10
    ensures KeyReservation(s, s.reqs[r], 0).1.None?
  {
  }

  // Two requests of three tokens each under way on the one key.
  lemma TwoCalls() returns (es: seq<Event>)
    ensures Run(DemoStart(), es)
    ensures var s := After(DemoStart(), es);
            Demo(s, 6, 6, 2) && At(s, 0, 3, Calling("k")) && At(s, 1, 3, Calling("k"))
  {
    hide Enabled, Step, Run, After, At, Demo;
    var s0 := DemoStart();
    DemoBegins();
    var a := Routed(s0, 0, 3, 0, 0, 0);
    var s1 := After(s0, a);
    Takes(s1, 0, 3, 3, 0, 0);
    RunMore(s0, a, ReserveKey(0, 0));
    var s2 := Step(s1, ReserveKey(0, 0));
    TwoOnOneKey(s2);
    var b := Routed(s2, 1, 3, 3, 3, 1);
    RunConcat(s0, a + [ReserveKey(0, 0)], b);
    var s3 := After(s2, b);
    OthersKeepPlace(s2, s3, 1, 0, 3, Calling("k"));
    Takes(s3, 1, 3, 6, 3, 1);
    RunMore(s0, a + [ReserveKey(0, 0)] + b, ReserveKey(1, 0));
    OthersKeepPlace(s3, Step(s3, ReserveKey(1, 0)), 1, 0, 3, Calling("k"));
    es := a + [ReserveKey(0, 0)] + b + [ReserveKey(1, 0)];
  }

  /** The second release after a disconnect takes away what another request accounts
      for: the key reads as idle and unused while a call on it is under way. */
  lemma DisconnectStrandsTheOther() returns (es: seq<Event>)
    ensures Run(DemoStart(), es)
    ensures var s := After(DemoStart(), es);
            At(s, 1, 3, Calling("k")) && s.st.Flying("k") == 0 && s.st.KeyHourAt("k", 0).value == 0
  {
    hide Enabled, Step, Run, After, At, Demo;
    var s0 := DemoStart();
    var a := TwoCalls();
    var s1 := After(s0, a);
    var b := HangsUp(s1, 0, 3, 6, 6, 2);
    RunConcat(s0, a, b);
    es := a + b;
    OthersKeepPlace(s1, After(s1, b), 0, 1, 3, Calling("k"));
    DemoReads(After(s1, b), 3, 0, 0);
  }

  lemma TwoOnOneKey(s: System)
    requires s.reqs.Keys == {0}
    ensures 1 !in s.reqs
  {
  }

  lemma DemoReads(s: System, spent: nat, used: nat, flying: nat)
    requires Demo(s, spent, used, flying)
    ensures s.st.Flying("k") == flying && s.st.KeyHourAt("k", 0).value == used && s.st.CountersAt("u", 0).hour.value == spent
  {
  }

  lemma HangsUp(s: System, r: nat, est: nat, spent: nat, used: nat, flying: nat) returns (es: seq<Event>)
    requires Demo(s, spent, used, flying) && At(s, r, est, Calling("k"))
    requires est <= spent && 2 * est <= used && flying >= 2
    ensures Run(s, es)
    ensures var s' := After(s, es); Demo(s', spent - est, used - 2 * est, flying - 2) && OthersStay(s, s', r)
  {
    hide Demo, At, Enabled, Step;
    var a, b, c := Reply(r, ClientGone, 0), Protocol.ReleaseUser(r, 0), ReleaseKeyAgain(r, 0);
    Disconnects(s, r, est, spent, used, flying);
    RunOne(s, a);
    GivesBack(Step(s, a), r, est, spent, used - est, flying - 1);
    RunMore(s, [a], b);
    ReleasesAgain(Step(Step(s, a), b), r, est, spent - est, used - est, flying - 1);
    RunMore(s, [a] + [b], c);
    es := [a] + [b] + [c];
  }

  // ---- negative usage ----

  lemma Accepts(s: System, r: nat, est: nat, actual: int, spent: nat, used: nat, flying: nat)
    requires Demo(s, spent, used, flying) && At(s, r, est, Calling("k"))
    ensures var e := Reply(r, Response(200, actual), 0);
            Enabled(s, e) && Demo(Step(s, e), spent, used, flying) && At(Step(s, e), r, est, SettlingUser("k", actual))
            && OthersStay(s, Step(s, e), r)
  {
    hide UserEffectOf, KeyEffectOf, Act, Selection, Chosen, Config.IsWorkingHour;
  }

  lemma Bills(s: System, r: nat, est: nat, actual: int, spent: nat, used: nat, flying: nat)
    requires Demo(s, spent, used, flying) && At(s, r, est, SettlingUser("k", actual))
    ensures var e := Protocol.SettleUser(r, 0);
            Enabled(s, e) && Demo(Step(s, e), Max(0, spent + actual - est), used, flying) && OthersStay(s, Step(s, e), r)
  {
    hide UserEffectOf, KeyEffectOf, Act, Selection, Chosen, Config.IsWorkingHour;
    NextStoreValid(s, Protocol.SettleUser(r, 0));
  }

  /** A bill for less than nothing takes away what another request accounts for: the user
      reads as having spent nothing while a reservation is open. */
  lemma NegativeUsageUndercutsTheOther() returns (es: seq<Event>)
    ensures Run(DemoStart(), es)
    ensures var s := After(DemoStart(), es);
            At(s, 1, 3, Calling("k")) && s.st.CountersAt("u", 0).hour.value == 0
  {
    hide Enabled, Step, Run, After, At, Demo;
    var s0 := DemoStart();
    var a := TwoCalls();
    var s1 := After(s0, a);
    var e := Reply(0, Response(200, -5), 0);
    Accepts(s1, 0, 3, -5, 6, 6, 2);
    RunMore(s0, a, e);
    var s2 := Step(s1, e);
    OthersKeepPlace(s1, s2, 0, 1, 3, Calling("k"));
    Bills(s2, 0, 3, -5, 6, 6, 2);
    RunMore(s0, a + [e], Protocol.SettleUser(0, 0));
    OthersKeepPlace(s2, Step(s2, Protocol.SettleUser(0, 0)), 0, 1, 3, Calling("k"));
    es := a + [e] + [Protocol.SettleUser(0, 0)];
    DemoReads(After(s0, es), 0, 6, 2);
  }

  // ---- a stale reading ----

  // An arrival and an admission under the limits 10 and 1000.
  function Entering(r: nat, est: nat, now: Instant): seq<Event> {
    [Arrive(r, "u", "m", est, false, now)] + [ReserveUser(r, 10, 1000)]
  }

  ghost predicate DemoUsers(s: System) {
    s.cfg == DemoConfig() && s.st.users == map["u" := DemoUser()] && s.st.Valid()
  }

  ghost predicate Entered(s: System, s': System, r: nat, est: nat, now: Instant) {
    && DemoUsers(s') && r in s'.reqs && s'.reqs == s.reqs[r := s'.reqs[r]]
    && s'.reqs[r].user == "u" && s'.reqs[r].now == now && s'.reqs[r].UserShare() == Some(est)
    && s'.HourAccount("u") == Act(s.HourAccount("u"), HourStart(now), Enter(r, est, true))
    && s'.DayAccount("u") == Act(s.DayAccount("u"), DayStart(now), Enter(r, est, true))
  }

  lemma ArrivesAt(s: System, r: nat, est: nat, now: Instant)
    requires DemoUsers(s) && r !in s.reqs
    ensures var e := Arrive(r, "u", "m", est, false, now);
            && Enabled(s, e) && DemoUsers(Step(s, e)) && Step(s, e).reqs == s.reqs[r := NextRequest(s, e)]
            && NextRequest(s, e).phase.Arrived? && NextRequest(s, e).user == "u" && NextRequest(s, e).est == est
            && NextRequest(s, e).now == now
            && Step(s, e).HourAccount("u") == s.HourAccount("u") && Step(s, e).DayAccount("u") == s.DayAccount("u")
  {
  }

  lemma AdmittedAt(s: System, r: nat, est: nat, now: Instant)
    requires DemoUsers(s) && r in s.reqs && s.reqs[r].phase.Arrived? && s.reqs[r].user == "u"
    requires s.reqs[r].est == est && s.reqs[r].now == now
    requires Opened(s.HourAccount("u"), HourStart(now)).c.value + est <= 10
    requires Opened(s.DayAccount("u"), DayStart(now)).c.value + est <= 1000
    ensures Enabled(s, ReserveUser(r, 10, 1000)) && Entered(s, Step(s, ReserveUser(r, 10, 1000)), r, est, now)
  {
    var e := ReserveUser(r, 10, 1000);
    DemoIsValid();
    NextStoreValid(s, e);
    UserAccountsFollow(s, e, "u");
  }

  lemma Enters(s: System, r: nat, est: nat, now: Instant)
    requires DemoUsers(s) && r !in s.reqs
    requires Opened(s.HourAccount("u"), HourStart(now)).c.value + est <= 10
    requires Opened(s.DayAccount("u"), DayStart(now)).c.value + est <= 1000
    ensures Run(s, Entering(r, est, now)) && Entered(s, After(s, Entering(r, est, now)), r, est, now)
  {
    hide Enabled, Step, DemoUsers, HourStart, DayStart, Act, Opened;
    var e := Arrive(r, "u", "m", est, false, now);
    ArrivesAt(s, r, est, now);
    RunOne(s, e);
    AdmittedAt(Step(s, e), r, est, now);
    RunMore(s, [e], ReserveUser(r, 10, 1000));
  }

  ghost predicate UnderLimits(es: seq<Event>) {
    forall e :: e in es ==> e.Arrive? || (e.ReserveUser? && e.hourlyLimit == 10 && e.dailyLimit == 1000)
  }

  lemma {:induction false} LimitsInForce(s: System, es: seq<Event>, caps: Caps)
    requires Run(s, es) && UnderLimits(es) && caps.hour == 10 && caps.day == 1000
    ensures RunWith(s, es, (x, e) => LimitsWithin(x, e, caps))
    decreases |es|
  {
    if es != [] {
      hide Enabled, Step;
      assert es[0] in es;
      LimitsInForce(Step(s, es[0]), es[1..], caps);
    }
  }

  function StaleRun(): seq<Event> {
    Entering(0, 6, HOUR) + Entering(1, 1, 0) + Entering(2, 6, HOUR)
  }

  // The hour account after each of the three admissions.
  lemma StaleAccounts(a: Account)
    requires a == NEW_ACCOUNT
    ensures var a1 := Act(a, HOUR, Enter(0, 6, true));
            var a2 := Act(a1, 0, Enter(1, 1, true));
            && a1 == Account(WindowCounter(Some(HOUR), 6), BLANK.(parts := map[0 := 6]))
            && Opened(a1, 0).c.value == 0 && Opened(a2, HOUR).c.value == 0
            && Act(a2, HOUR, Enter(2, 6, true)) == Account(WindowCounter(Some(HOUR), 6), BLANK.(parts := map[2 := 6]))
  {
  }

  lemma StaleDays(a: Account)
    requires a == NEW_ACCOUNT
    ensures var a1 := Act(a, 0, Enter(0, 6, true));
            var a2 := Act(a1, 0, Enter(1, 1, true));
            Opened(a, 0).c.value == 0 && Opened(a1, 0).c.value == 6 && Opened(a2, 0).c.value == 7
  {
  }

  lemma StaleStarts()
    ensures HourStart(HOUR) == HOUR && HourStart(0) == 0 && DayStart(HOUR) == 0 == DayStart(0)
  {
  }

  lemma EnteredShares(s: System, s': System, r: nat, est: nat, now: Instant)
    requires Entered(s, s', r, est, now)
    ensures HourShares(s'.reqs, "u") == HourShares(s.reqs, "u")[r := Share(HourStart(now), est)]
  {
    HourSharesPut(s.reqs, r, s'.reqs[r], "u");
  }

  lemma TwelveInTheHour(shares: Shares)
    requires shares == map[0 := Share(HOUR, 6), 1 := Share(0, 1), 2 := Share(HOUR, 6)]
    ensures Sum(InWindow(shares, HOUR)) == 12
  {
    var m := InWindow(shares, HOUR);
    assert m == map[0 := 6, 2 := 6];
    SumSplit(m, 0);
    assert m - {0} == map[2 := 6];
    SumSplit(m - {0}, 2);
    assert m - {0} - {2} == map[];
  }

  /** An admission whose reading is an hour old resets the hour counter, and the hour then
      takes more than its limit with nothing overrun, given back or unchecked. */
  lemma StaleReadingSpendsPastTheLimit()
    ensures RunWith(DemoStart(), StaleRun(), (x, e) => LimitsWithin(x, e, Caps("u", 10, 1000, "k", 10)))
    ensures Run(DemoStart(), StaleRun())
    ensures var s := After(DemoStart(), StaleRun());
            var a := s.HourAccount("u");
            && a.c == WindowCounter(Some(HOUR), 6) && a.b.excess == a.b.credit == a.b.unchecked == 0
            && Sum(InWindow(HourShares(s.reqs, "u"), HOUR)) == 12 > 10
  {
    hide Enabled, Step, Run, After, RunWith, Act, HourShares, Sum, InWindow, HourStart, DayStart, LimitsWithin, Opened;
    StaleStarts();
    StaleAccounts(NEW_ACCOUNT);
    StaleDays(NEW_ACCOUNT);
    var s0 := DemoStart();
    StaleBegins();
    Enters(s0, 0, 6, HOUR);
    var s1 := After(s0, Entering(0, 6, HOUR));
    EnteredShares(s0, s1, 0, 6, HOUR);
    Enters(s1, 1, 1, 0);
    var s2 := After(s1, Entering(1, 1, 0));
    EnteredShares(s1, s2, 1, 1, 0);
    Enters(s2, 2, 6, HOUR);
    var s3 := After(s2, Entering(2, 6, HOUR));
    EnteredShares(s2, s3, 2, 6, HOUR);
    RunConcat(s0, Entering(0, 6, HOUR), Entering(1, 1, 0));
    RunConcat(s0, Entering(0, 6, HOUR) + Entering(1, 1, 0), Entering(2, 6, HOUR));
    TwelveInTheHour(HourShares(s3.reqs, "u"));
    LimitsInForce(s0, StaleRun(), Caps("u", 10, 1000, "k", 10));
  }

  // The account and total that StaleReadingSpendsPastTheLimit ends with are past the cap.
  lemma TwelveIsTooMuch(a: Account, shares: Shares)
    requires a.c.start == Some(HOUR) && a.b.excess == a.b.credit == a.b.unchecked == 0 && Sum(InWindow(shares, HOUR)) == 12
    ensures !SpentOk(a, shares, 10)
  {
  }

  lemma {:induction false} RunWithBoth(s: System, es: seq<Event>, p: (System, Event) -> bool, q: (System, Event) -> bool,
                                       both: (System, Event) -> bool)
    requires RunWith(s, es, p) && RunWith(s, es, q) && forall x, e :: p(x, e) && q(x, e) ==> both(x, e)
    ensures RunWith(s, es, both)
    decreases |es|
  {
    hide Enabled, Step;
    if es != [] {
      RunWithBoth(Step(s, es[0]), es[1..], p, q, both);
    }
  }

  /** That run meets both failing conditions: it reopens the hour and overspends it. */
  lemma StaleRunReopensAndOverspends()
    ensures Run(DemoStart(), StaleRun())
    ensures !RunWith(DemoStart(), StaleRun(), (x, e) => !ReopensWindow(x, e, UserHour("u")))
    ensures !RunWith(DemoStart(), StaleRun(), (x, e) => !SpendsTooMuch(x, e, UserHour("u"), 10))
  {
    hide Enabled, Step, Run, After, RunWith, Throughout, HourShares, Sum, InWindow, StaleRun, LimitsWithin, SpentOk, ReopensWindow,
         SpendsTooMuch;
    StaleReadingSpendsPastTheLimit();
    DemoIsValid();
    var (s0, c, caps) := (DemoStart(), UserHour("u"), Caps("u", 10, 1000, "k", 10));
    var s := After(s0, StaleRun());
    TwelveIsTooMuch(AccountOf(s, c), SharesOf(s.reqs, c));
    if Throughout(s0, StaleRun(), x => Spent(x, c, 10)) {
      GoodAtTheEnd(s0, StaleRun(), x => Spent(x, c, 10));
    }
    SpentWithinLimitExactlyWhen(DemoConfig(), map["u" := DemoUser()], map["k" := DemoKey()], 0, StaleRun(), c, 10);
    if RunWith(s0, StaleRun(), (x, e) => !ReopensWindow(x, e, c)) {
      RunWithBoth(s0, StaleRun(), (x, e) => LimitsWithin(x, e, caps), (x, e) => !ReopensWindow(x, e, c),
                  (x, e) => LimitsWithin(x, e, caps) && !ReopensWindow(x, e, c));
      SpentWithinLimit(DemoConfig(), map["u" := DemoUser()], map["k" := DemoKey()], 0, StaleRun(), caps, c);
    }
  }

  lemma StaleBegins()
    ensures DemoUsers(DemoStart()) && DemoStart().reqs == map[] && HourShares(map[], "u") == map[]
    ensures DemoStart().HourAccount("u") == DemoStart().DayAccount("u") == NEW_ACCOUNT
    ensures Opened(NEW_ACCOUNT, HOUR).c.value == 0
  {
  }
}

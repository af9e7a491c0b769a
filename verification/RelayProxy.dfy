// The retry loop of Relay.proxy, run alone within one hour.
module RelayProxy {
  import opened Wrappers
  import opened Clock
  import opened Quota
  import opened StoreModel
  import opened StoreClass
  import opened Router
  import opened Requests
  import opened RelayModule
  import Text

  datatype Call = Call(key: string, outcome: Outcome)

  function Start(user: string, model: string, est: nat, injected: bool, now: Instant): Request {
    Request(user, model, est, injected, now, Selecting, 0, {}, false, None, now, Tally(0, 0, 0, 0), None, [], None)
  }

  function AfterCall(q: Request, c: Call): Request {
    q.(phase := Calling(c.key)).AfterReply(c.key, c.outcome)
  }

  /** Where the protocol's request stands after these calls. */
  function Replay(q: Request, calls: seq<Call>): Request {
    if calls == [] then q else AfterCall(Replay(q, calls[..|calls| - 1]), calls[|calls| - 1])
  }

  function QueryOf(st: State, cfg: Config, q: Request): Query {
    RouteQuery(st, q.user, q.model, cfg.IsWorkingHour(q.now), cfg.defaultHourly, q.exclude, q.now)
  }

  /** Each call went to the direct choice among the keys not yet failed, as the
      counters stood before the run, and got the upstream's answer. */
  ghost predicate Follows(st: State, cfg: Config, q: Request, calls: seq<Call>, upstream: nat -> Outcome) {
    calls == [] ||
    var before, last := calls[..|calls| - 1], calls[|calls| - 1];
    var p := Replay(q, before);
    && Follows(st, cfg, q, before, upstream)
    && p.phase.Selecting? && last.outcome == upstream(p.attempt)
    && last.key in st.keys && DirectChoice(st.keys.Values, QueryOf(st, cfg, p), p.est, st.keys[last.key])
  }

  /** How the calls made determine the way out. */
  ghost predicate Verdict(st: State, cfg: Config, q: Request, exit: Exit) {
    match exit
    case Rejected(_) => false
    case Served(key, actual) => q.phase == SettlingUser(key, actual)
    case Disconnected => q.phase.GoneUser?
    case Failed(NoRoute(reason)) =>
      q.phase.Selecting? && NoDirectChoice(st.keys.Values, QueryOf(st, cfg, q), q.est, reason)
    case Failed(UpstreamFailed(last)) => q.phase == Failing(UpstreamFailed(last))
  }

  /** What the run leaves behind. */
  ghost predicate Effect(a: State, b: State, user: string, est: nat, last: Option<Call>, exit: Exit, now: Instant) {
    match exit
    case Rejected(_) => a == b
    case Failed(_) => Restored(a, b, now)
    case Served(key, actual) => UserMoved(a, b, now, user, actual) && KeyMoved(a, b, now, key, actual, a.Flying(key))
    case Disconnected =>
      last.Some? && UserMoved(a, b, now, user, 0) && KeyMoved(a, b, now, last.value.key, 0 - est, Landed(a.Flying(last.value.key)))
  }

  function Last(calls: seq<Call>): Option<Call> {
    if calls == [] then None else Some(calls[|calls| - 1])
  }

  lemma AttemptsCountCalls(q: Request, calls: seq<Call>, st: State, cfg: Config, upstream: nat -> Outcome)
    requires q.phase.Selecting? && q.attempt == 0 && Follows(st, cfg, q, calls, upstream)
    ensures |calls| <= ATTEMPTS
    ensures Replay(q, calls).phase.Selecting? ==> Replay(q, calls).attempt == |calls| < ATTEMPTS
  {
    if calls != [] {
      AttemptsCountCalls(q, calls[..|calls| - 1], st, cfg, upstream);
    }
  }

  lemma ChoiceAvoids(keys: set<UpstreamKey>, q: Query, est: nat, k: UpstreamKey)
    requires DirectChoice(keys, q, est, k)
    ensures k.id !in q.exclude
  {
  }

  /** A run makes at most two calls, and repeats a key exactly when the first call
      was answered 400 with injected stream options. */
  lemma RepeatsOnlyStripped(st: State, cfg: Config, user: string, model: string, est: nat, injected: bool, now: Instant,
                            calls: seq<Call>, upstream: nat -> Outcome)
    requires st.Valid() && Follows(st, cfg, Start(user, model, est, injected, now), calls, upstream)
    ensures |calls| <= ATTEMPTS
    ensures |calls| == 2 ==>
              (calls[0].key == calls[1].key <==> injected && calls[0].outcome.Response? && calls[0].outcome.status == 400)
  {
    hide DirectChoice;
    var q := Start(user, model, est, injected, now);
    AttemptsCountCalls(q, calls, st, cfg, upstream);
    if |calls| == 2 {
      var first := calls[..1];
      var p := Replay(q, first);
      assert first[..0] == [] && Replay(q, first[..0]) == q;
      assert Follows(st, cfg, q, first, upstream);
      if p.exclude == {} {
        assert QueryOf(st, cfg, p) == QueryOf(st, cfg, q);
        assert DistinctIds(st.keys.Values);
        DirectChoiceIsUnique(st.keys.Values, QueryOf(st, cfg, q), est, st.keys[calls[0].key], st.keys[calls[1].key]);
        assert st.keys[calls[0].key].id == calls[0].key && st.keys[calls[1].key].id == calls[1].key;
      } else {
        assert p.exclude == {calls[0].key};
        ChoiceAvoids(st.keys.Values, QueryOf(st, cfg, p), est, st.keys[calls[1].key]);
        assert st.keys[calls[1].key].id == calls[1].key;
      }
    }
  }

  /** A failing run leaves every counter as it was, unless the client disconnected
      while the key carried other traffic. */
  lemma FailureRestoresExactlyWhen(a: State, b: State, user: string, est: nat, last: Option<Call>, exit: Exit, now: Instant)
    requires a.Valid() && Effect(a, b, user, est, last, exit, now) && !exit.Served?
    ensures Restored(a, b, now) <==>
            (exit.Disconnected? ==>
               a.Flying(last.value.key) == 0 && (est == 0 || a.KeyHourAt(last.value.key, now).value == 0))
  {
    if exit.Disconnected? {
      UserMovedByZero(a, b, now, user);
      SecondReleaseHarmlessExactlyWhen(a, b, last.value.key, est, now);
    }
  }

  /** After a first answer that excludes its key, 429 or 5xx, the run ends as a routing
      failure, and that status is lost, exactly when no other key has room; otherwise
      there is a second call, whose status is passed through when it fails too. */
  lemma FirstErrorIsMaskedExactlyWhen(st: State, cfg: Config, r: Request, calls: seq<Call>, upstream: nat -> Outcome, exit: Exit)
    requires r.phase.Selecting? && r.attempt == 0
    requires |calls| >= 1 && calls[0].outcome.Response? && (calls[0].outcome.status == 429 || calls[0].outcome.status >= 500)
    requires Follows(st, cfg, r, calls, upstream) && Verdict(st, cfg, Replay(r, calls), exit)
    ensures exit.Failed? && exit.failure.NoRoute? <==>
            forall k :: k in st.keys.Values ==> !FitsKey(QueryOf(st, cfg, Replay(r, calls[..1])), r.est, k)
  {
    AttemptsCountCalls(r, calls, st, cfg, upstream);
    var first := calls[..1];
    assert first[..0] == [] && Replay(r, first[..0]) == r;
    if |calls| == 1 {
      assert first == calls;
    } else {
      SecondCallDecides(st, cfg, r, calls, upstream);
    }
  }

  function OneKeyState(): State {
    State(map["u" := User(true, 100, 1000)], map["k" := UpstreamKey("k", "u", [], true, 0)], map[], map[], map[])
  }

  function AllDay(): Config {
    Config([WorkingHour(0, 24)], 0, 10, 1000)
  }

  lemma OneKeyIsTheDirectChoice(q: Query, est: nat)
    requires q.exclude == {} && q.user == "u" && q.fallback == 10 && q.usage("k") == 0 && est <= 10
    ensures DirectChoice({OneKeyState().keys["k"]}, q, est, OneKeyState().keys["k"])
  {
    Text.StrLessTotal("k", "k");
  }

  /** A run with a masked error: the one key answers 429, and the run ends as if there
      had been no key. */
  lemma FirstErrorIsMasked()
    ensures var (st, cfg, r) := (OneKeyState(), AllDay(), Start("u", "m", 3, false, 0));
            var (calls, exit) := ([Call("k", Response(429, 0))], Failed(NoRoute(NoKey)));
            && st.Valid() && cfg.Valid()
            && Follows(st, cfg, r, calls, n => Response(429, 0)) && Verdict(st, cfg, Replay(r, calls), exit)
  {
    var (st, cfg, r) := (OneKeyState(), AllDay(), Start("u", "m", 3, false, 0));
    var calls := [Call("k", Response(429, 0))];
    assert calls[..0] == [] && Replay(r, calls[..0]) == r;
    assert st.keys.Values == {st.keys["k"]};
    OneKeyIsTheDirectChoice(QueryOf(st, cfg, r), 3);
  }

  // A second call goes to a key with room, and no third follows it.
  lemma SecondCallDecides(st: State, cfg: Config, r: Request, calls: seq<Call>, upstream: nat -> Outcome)
    requires r.phase.Selecting? && r.attempt == 0 && |calls| == 2 && Follows(st, cfg, r, calls, upstream)
    ensures calls[1].key in st.keys && FitsKey(QueryOf(st, cfg, Replay(r, calls[..1])), r.est, st.keys[calls[1].key])
    ensures !Replay(r, calls).phase.Selecting?
  {
    AttemptsCountCalls(r, calls, st, cfg, upstream);
    var first := calls[..1];
    assert first[..0] == [] && Replay(r, first[..0]) == r;
    assert Follows(st, cfg, r, first, upstream);
  }

  // The variables of the retry loop.
  datatype Progress = Progress(attempt: nat, exclude: set<string>, stripped: bool, last: Option<int>)

  // What an upstream reply leads to.
  datatype Turn = Next(progress: Progress) | Fail(last: Option<int>) | Hang | Accept(actual: int)

  /** The loop's variables against the protocol's request `q`: the same progress,
      and beyond the failed keys only keys without room are excluded. */
  ghost predicate InStep(st: State, cfg: Config, q: Request, pr: Progress) {
    && q.attempt == pr.attempt <= ATTEMPTS && q.stripped == pr.stripped && q.last == pr.last
    && q.phase == (if pr.attempt < ATTEMPTS then Selecting else Failing(UpstreamFailed(pr.last)))
    && ExcludedForRoom(st.keys.Values, QueryOf(st, cfg, q).(exclude := pr.exclude), q.exclude, q.est)
  }

  ghost predicate SameCaller(q: Request, user: string, model: string, est: nat, injected: bool, now: Instant) {
    q.user == user && q.model == model && q.est == est && q.injected == injected && q.now == now
  }

  lemma SameCallerAfterCall(q: Request, c: Call, r: Request)
    requires SameCaller(q, r.user, r.model, r.est, r.injected, r.now)
    ensures SameCaller(AfterCall(q, c), r.user, r.model, r.est, r.injected, r.now)
  {
  }

  lemma CallExtends(st: State, cfg: Config, q: Request, calls: seq<Call>, upstream: nat -> Outcome, key: UpstreamKey)
    requires st.Valid() && Follows(st, cfg, q, calls, upstream) && Replay(q, calls).phase.Selecting?
    requires var p := Replay(q, calls); DirectChoice(st.keys.Values, QueryOf(st, cfg, p), p.est, key)
    ensures var p := Replay(q, calls);
            var c := Call(key.id, upstream(p.attempt));
            Follows(st, cfg, q, calls + [c], upstream) && Replay(q, calls + [c]) == AfterCall(p, c)
  {
    var c := Call(key.id, upstream(Replay(q, calls).attempt));
    assert (calls + [c])[..|calls|] == calls;
    assert key.id in st.keys && st.keys[key.id] == key;
  }

  lemma RefusedForRoom(st: State, cfg: Config, q: Request, pr: Progress, key: UpstreamKey)
    requires st.Valid() && InStep(st, cfg, q, pr)
    requires Chosen(st.keys.Values, QueryOf(st, cfg, q).(exclude := pr.exclude), key)
    requires var d := QueryOf(st, cfg, q); d.working && d.usage(key.id) + q.est > HourlyLimit(key, d.fallback)
    ensures InStep(st, cfg, q, pr.(exclude := pr.exclude + {key.id}))
    ensures st.keys.Keys - (pr.exclude + {key.id}) < st.keys.Keys - pr.exclude
  {
    assert key.id in st.keys.Keys - pr.exclude;
  }

  // Failing a key adds it to both sides; a stripped retry to neither.
  lemma AgainInStep(st: State, cfg: Config, q: Request, pr: Progress, q': Request, pr': Progress, key: string)
    requires InStep(st, cfg, q, pr) && pr.attempt < ATTEMPTS
    requires pr'.attempt == pr.attempt + 1 == q'.attempt && q'.stripped == pr'.stripped && q'.last == pr'.last
    requires q'.phase == (if pr'.attempt < ATTEMPTS then Selecting else Failing(UpstreamFailed(pr'.last)))
    requires SameCaller(q', q.user, q.model, q.est, q.injected, q.now)
    requires || (q'.exclude == q.exclude + {key} && pr'.exclude == pr.exclude + {key})
             || (q'.exclude == q.exclude && pr'.exclude == pr.exclude)
    ensures InStep(st, cfg, q', pr')
  {
    assert QueryOf(st, cfg, q').(exclude := pr.exclude) == QueryOf(st, cfg, q).(exclude := pr.exclude);
  }

  class Relay {
    const store: Store
    const cfg: Config

    constructor (store: Store, cfg: Config)
      ensures this.store == store && this.cfg == cfg
    {
      this.store := store;
      this.cfg := cfg;
    }

    // ---- store sections, seen from the state `a` before any key was taken ----

    method Route(q: Request, working: bool, exclude: set<string>, ghost a: State)
      returns (choice: Result<UpstreamKey, RouteError>)
      requires store.Valid() && a.Valid() && SameKeys(a, store.View(), q.now) && working == cfg.IsWorkingHour(q.now)
      ensures Selection(a.keys.Values, QueryOf(a, cfg, q).(exclude := exclude), choice)
    {
      choice := store.SelectKey(q.user, q.model, working, cfg.defaultHourly, exclude, q.now);
      SameQuerySameAnswer(a, store.View(), q.user, q.model, working, cfg.defaultHourly, exclude, q.now, choice);
      assert QueryOf(a, cfg, q).(exclude := exclude) ==
             RouteQuery(a, q.user, q.model, working, cfg.defaultHourly, exclude, q.now);
    }

    method Take(key: UpstreamKey, est: nat, limit: int, working: bool, now: Instant, ghost a: State)
      returns (refused: bool)
      requires store.Valid() && store.clock <= now && a.Valid() && SameKeys(a, store.View(), now)
      requires key.id in a.keys && a.keys[key.id] == key && key.enabled && limit > 0
      modifies store
      ensures store.Valid() && store.clock <= now && store.counters == old(store.counters)
      ensures refused == (working && a.KeyHourAt(key.id, now).value + est > limit)
      ensures refused ==> SameKeys(a, store.View(), now)
      ensures !refused ==> KeyTaken(a, store.View(), now, key.id, est)
    {
      ghost var b := store.View();
      ReadAt(a, b, now, key.id);
      var err := store.ReserveKey(key.id, est, limit, working, now);
      if err.None? {
        ReservationTakes(a, b, key.id, est, limit, working, now);
      } else {
        RefusalLeavesReads(a, b, key.id, est, limit, working, now);
      }
      return err.Some?;
    }

    method GiveBack(key: string, est: nat, now: Instant, ghost a: State)
      requires store.Valid() && store.clock <= now && a.Valid()
      requires KeyTaken(a, store.View(), now, key, est)
      modifies store
      ensures store.Valid() && store.clock <= now && store.counters == old(store.counters)
      ensures SameKeys(a, store.View(), now)
    {
      ReleasedAfterTaking(a, store.View(), key, est, now);
      store.ReleaseKey(key, est, now);
    }

    method GiveUp(user: string, est: nat, now: Instant, ghost s0: State, ghost s1: State)
      requires store.Valid() && store.clock <= now && s0.Valid()
      requires SameKeys(s0, store.View(), now) && store.counters == s1.counters
      requires (s1, None) == Admission(s0, cfg, user, est, now)
      modifies store
      ensures store.Valid() && Restored(s0, store.View(), now)
    {
      RefundRestores(s0, s1, store.View(), cfg, user, est, now);
      Release(store, user, None, est, now);
    }

    method HangUp(user: string, key: string, est: nat, now: Instant, ghost s0: State, ghost s1: State)
      requires store.Valid() && store.clock <= now && s0.Valid()
      requires SameKeys(s0, store.View(), now) && store.counters == s1.counters
      requires (s1, None) == Admission(s0, cfg, user, est, now)
      modifies store
      ensures store.Valid()
      ensures UserMoved(s0, store.View(), now, user, 0) && KeyMoved(s0, store.View(), now, key, 0 - est, Landed(s0.Flying(key)))
    {
      HangUpMoves(s0, s1, store.View(), cfg, user, key, est, now);
      Release(store, user, Some(key), est, now);
    }

    method Charge(user: string, key: string, est: nat, actual: int, now: Instant, ghost s0: State, ghost s1: State)
      requires store.Valid() && store.clock <= now && s0.Valid()
      requires KeyTaken(s0, store.View(), now, key, est) && store.counters == s1.counters
      requires (s1, None) == Admission(s0, cfg, user, est, now)
      modifies store
      ensures store.Valid()
      ensures UserMoved(s0, store.View(), now, user, actual) && KeyMoved(s0, store.View(), now, key, actual, s0.Flying(key))
    {
      ChargeMovesUser(s0, s1, store.View(), cfg, user, key, est, actual, now);
      ChargeMovesKey(s0, store.View(), user, key, est, actual, now);
      Settle(store, user, key, est, actual, now);
    }

    /** Acts on the upstream's reply to a call made with `key` taken. */
    method React(key: string, outcome: Outcome, pr: Progress, injected: bool, est: nat, now: Instant,
                 ghost q: Request, ghost a: State)
      returns (turn: Turn)
      requires store.Valid() && store.clock <= now && a.Valid() && KeyTaken(a, store.View(), now, key, est)
      requires InStep(a, cfg, q, pr) && pr.attempt < ATTEMPTS && q.injected == injected
      modifies store
      ensures store.Valid() && store.clock <= now && store.counters == old(store.counters)
      ensures var q' := AfterCall(q, Call(key, outcome));
              match turn
              case Next(pr') => InStep(a, cfg, q', pr') && pr'.attempt == pr.attempt + 1
              case Fail(last) => q'.phase == Failing(UpstreamFailed(last))
              case Hang => q'.phase.GoneUser?
              case Accept(actual) => q'.phase == SettlingUser(key, actual)
      ensures if turn.Accept? then KeyTaken(a, store.View(), now, key, est) else SameKeys(a, store.View(), now)
    {
      hide State.Valid, Store.Valid, SameKeys, KeyMoved, ExcludedForRoom, RouteQuery;
      ghost var q' := AfterCall(q, Call(key, outcome));
      if outcome.Response? && 200 <= outcome.status < 300 {
        return Accept(outcome.actual);
      }
      GiveBack(key, est, now, a);
      if outcome.ClientGone? {
        return Hang;
      }
      var pr' := pr.(attempt := pr.attempt + 1);
      if outcome.NetworkError? {
        pr' := pr'.(exclude := pr.exclude + {key});
      } else if outcome.status == 400 && injected && !pr.stripped {
        pr' := pr'.(stripped := true);
      } else if outcome.status == 429 || outcome.status >= 500 {
        pr' := pr'.(last := Some(outcome.status), exclude := pr.exclude + {key});
      } else {
        return Fail(Some(outcome.status));
      }
      AgainInStep(a, cfg, q, pr, q', pr', key);
      return Next(pr');
    }

    /** Selects and takes a key, excluding those without room, or finds none. */
    method Acquire(r: Request, working: bool, pr: Progress, ghost q: Request, ghost a: State)
      returns (choice: Result<UpstreamKey, RouteError>, pr': Progress)
      requires store.Valid() && store.clock <= r.now && cfg.Valid() && working == cfg.IsWorkingHour(r.now)
      requires a.Valid() && SameKeys(a, store.View(), r.now)
      requires InStep(a, cfg, q, pr) && pr.attempt < ATTEMPTS && SameCaller(q, r.user, r.model, r.est, r.injected, r.now)
      modifies store
      ensures store.Valid() && store.clock <= r.now && store.counters == old(store.counters)
      ensures InStep(a, cfg, q, pr') && pr'.attempt == pr.attempt
      ensures if choice.Err? then
                SameKeys(a, store.View(), r.now)
                && NoDirectChoice(a.keys.Values, QueryOf(a, cfg, q), r.est, choice.error)
              else
                KeyTaken(a, store.View(), r.now, choice.value.id, r.est)
                && DirectChoice(a.keys.Values, QueryOf(a, cfg, q), r.est, choice.value)
    {
      pr' := pr;
      while true
        invariant store.Valid() && store.clock <= r.now && store.counters == old(store.counters)
        invariant SameKeys(a, store.View(), r.now) && InStep(a, cfg, q, pr') && pr'.attempt == pr.attempt
        decreases a.keys.Keys - pr'.exclude
      {
        choice := Route(r, working, pr'.exclude, a);
        assert QueryOf(a, cfg, r).(exclude := pr'.exclude) == QueryOf(a, cfg, q).(exclude := pr'.exclude);
        if choice.Err? {
          FailureRefines(a.keys.Values, QueryOf(a, cfg, q).(exclude := pr'.exclude), q.exclude, r.est, choice.error);
          return;
        }
        var key := choice.value;
        var limit := if key.hourlyLimit <= 0 then cfg.defaultHourly else key.hourlyLimit;
        KeyHourAtOk(a, key.id, r.now);
        var refused := Take(key, r.est, limit, working, r.now, a);
        if !refused {
          ChoiceRefines(a.keys.Values, QueryOf(a, cfg, q).(exclude := pr'.exclude), q.exclude, r.est, key);
          return;
        }
        RefusedForRoom(a, cfg, q, pr', key);
        pr' := pr'.(exclude := pr'.exclude + {key.id});
      }
    }

    /** One pass of the loop from the protocol's request `q`: the call made, if any,
        and a way out or the progress to the next attempt. */
    method Pass(r: Request, working: bool, pr: Progress, upstream: nat -> Outcome,
                   ghost q: Request, ghost s0: State, ghost s1: State)
      returns (exit: Option<Exit>, pr': Progress, call: Option<Call>)
      requires store.Valid() && store.clock <= r.now && cfg.Valid() && working == cfg.IsWorkingHour(r.now)
      requires s0.Valid() && (s1, None) == Admission(s0, cfg, r.user, r.est, r.now)
      requires SameKeys(s0, store.View(), r.now) && store.counters == s1.counters
      requires InStep(s0, cfg, q, pr) && pr.attempt < ATTEMPTS
      requires SameCaller(q, r.user, r.model, r.est, r.injected, r.now)
      modifies store
      ensures store.Valid() && (exit.None? ==> store.clock <= r.now)
      ensures call.Some? ==>
                && call.value.outcome == upstream(pr.attempt)
                && call.value.key in s0.keys && s0.keys[call.value.key].id == call.value.key
                && DirectChoice(s0.keys.Values, QueryOf(s0, cfg, q), r.est, s0.keys[call.value.key])
      ensures call.None? ==> exit.Some? && exit.value.Failed?
      ensures exit.Some? ==>
                && Verdict(s0, cfg, if call.Some? then AfterCall(q, call.value) else q, exit.value)
                && Effect(s0, store.View(), r.user, r.est, call, exit.value, r.now)
      ensures exit.None? ==>
                && SameKeys(s0, store.View(), r.now) && store.counters == s1.counters
                && call.Some? && InStep(s0, cfg, AfterCall(q, call.value), pr') && pr'.attempt == pr.attempt + 1
    {
      var choice;
      choice, pr' := Acquire(r, working, pr, q, s0);
      if choice.Err? {
        GiveUp(r.user, r.est, r.now, s0, s1);
        return Some(Failed(NoRoute(choice.error))), pr', None;
      }
      var key, outcome := choice.value.id, upstream(pr'.attempt);
      call := Some(Call(key, outcome));
      var turn := React(key, outcome, pr', r.injected, r.est, r.now, q, s0);
      if turn.Next? {
        return None, turn.progress, call;
      }
      var way := Finish(turn, r, key, call, s0, s1);
      return Some(way), pr', call;
    }

    /** The last sections after the final reply. */
    method Finish(turn: Turn, r: Request, key: string, ghost call: Option<Call>, ghost s0: State, ghost s1: State)
      returns (exit: Exit)
      requires store.Valid() && store.clock <= r.now && s0.Valid() && !turn.Next?
      requires (s1, None) == Admission(s0, cfg, r.user, r.est, r.now) && store.counters == s1.counters
      requires if turn.Accept? then KeyTaken(s0, store.View(), r.now, key, r.est) else SameKeys(s0, store.View(), r.now)
      requires call.Some? && call.value.key == key
      modifies store
      ensures store.Valid() && Effect(s0, store.View(), r.user, r.est, call, exit, r.now)
      ensures exit == match turn
                      case Fail(last) => Failed(UpstreamFailed(last))
                      case Hang => Disconnected
                      case Accept(actual) => Served(key, actual)
    {
      hide UserReads, KeyReads, State.Valid, Admission;
      match turn
      case Fail(last) =>
        GiveUp(r.user, r.est, r.now, s0, s1);
        return Failed(UpstreamFailed(last));
      case Hang =>
        HangUp(r.user, key, r.est, r.now, s0, s1);
        return Disconnected;
      case Accept(actual) =>
        Charge(r.user, key, r.est, actual, r.now, s0, s1);
        return Served(key, actual);
    }

    /** The same, recorded at the end of the calls made so far. */
    method Attempt(r: Request, working: bool, pr: Progress, calls: seq<Call>, upstream: nat -> Outcome,
                   ghost s0: State, ghost s1: State)
      returns (exit: Option<Exit>, pr': Progress, calls': seq<Call>)
      requires store.Valid() && store.clock <= r.now && cfg.Valid() && working == cfg.IsWorkingHour(r.now)
      requires s0.Valid() && (s1, None) == Admission(s0, cfg, r.user, r.est, r.now)
      requires SameKeys(s0, store.View(), r.now) && store.counters == s1.counters
      requires Follows(s0, cfg, r, calls, upstream) && InStep(s0, cfg, Replay(r, calls), pr) && pr.attempt < ATTEMPTS
      requires SameCaller(Replay(r, calls), r.user, r.model, r.est, r.injected, r.now)
      modifies store
      ensures store.Valid() && (exit.None? ==> store.clock <= r.now)
      ensures Follows(s0, cfg, r, calls', upstream)
      ensures exit.Some? ==>
                && Verdict(s0, cfg, Replay(r, calls'), exit.value)
                && Effect(s0, store.View(), r.user, r.est, Last(calls'), exit.value, r.now)
      ensures exit.None? ==>
                && SameKeys(s0, store.View(), r.now) && store.counters == s1.counters
                && InStep(s0, cfg, Replay(r, calls'), pr') && pr'.attempt == pr.attempt + 1
                && SameCaller(Replay(r, calls'), r.user, r.model, r.est, r.injected, r.now)
    {
      hide AfterCall, Store.Valid, State.Valid, Verdict, Replay, Follows, DirectChoice, NoDirectChoice, ExcludedForRoom, Admission, SameKeys, UserMoved, KeyMoved;
      var call;
      exit, pr', call := Pass(r, working, pr, upstream, Replay(r, calls), s0, s1);
      if call.None? {
        return exit, pr', calls;
      }
      CallExtends(s0, cfg, r, calls, upstream, s0.keys[call.value.key]);
      calls' := calls + [call.value];
      assert Last(calls') == call;
      SameCallerAfterCall(Replay(r, calls), call.value, r);
    }

    /** `upstream(i)` is what the upstream would answer on attempt `i`. */
    method Proxy(user: string, model: string, est: nat, injected: bool, upstream: nat -> Outcome, now: Instant)
      returns (exit: Exit, calls: seq<Call>)
      requires store.Valid() && store.clock <= now && cfg.Valid()
      modifies store
      ensures store.Valid()
      ensures exit.Rejected? <==> Admission(old(store.View()), cfg, user, est, now).1.Some?
      ensures exit.Rejected? ==> calls == [] && Admission(old(store.View()), cfg, user, est, now).1 == Some(exit.error)
      ensures Follows(old(store.View()), cfg, Start(user, model, est, injected, now), calls, upstream)
      ensures !exit.Rejected? ==>
                Verdict(old(store.View()), cfg, Replay(Start(user, model, est, injected, now), calls), exit)
      ensures Effect(old(store.View()), store.View(), user, est, Last(calls), exit, now)
    {
      ghost var s0 := store.View();
      var r := Start(user, model, est, injected, now);
      var err := CheckAndReserve(store, cfg, user, est, now);
      calls := [];
      if err.Some? {
        return Rejected(err.value), calls;
      }
      ghost var s1 := store.View();
      AdmissionKeepsKeys(s0, cfg, user, est, now);
      var working := CheckWorkingHour(cfg, now);
      var pr := Progress(0, {}, false, None);
      while pr.attempt < ATTEMPTS
        invariant store.Valid() && store.clock <= now
        invariant SameKeys(s0, store.View(), now) && store.counters == s1.counters
        invariant Follows(s0, cfg, r, calls, upstream)
        invariant InStep(s0, cfg, Replay(r, calls), pr) && SameCaller(Replay(r, calls), user, model, est, injected, now)
        decreases ATTEMPTS - pr.attempt
      {
        var out;
        out, pr, calls := Attempt(r, working, pr, calls, upstream, s0, s1);
        if out.Some? {
          return out.value, calls;
        }
      }
      GiveUp(user, est, now, s0, s1);
      return Failed(UpstreamFailed(pr.last)), calls;
    }
  }
}

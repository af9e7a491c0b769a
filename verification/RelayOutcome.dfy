// How a run of the retry loop ends, read off the upstream's answers alone.
module RelayOutcome {
  import opened Wrappers
  import opened Clock
  import opened Quota
  import opened StoreModel
  import opened Router
  import opened Requests
  import opened RelayModule
  import opened RelayProxy

  // ---- answers ----

  predicate Answers(o: Outcome, status: int) {
    o.Response? && o.status == status
  }

  /** A first answer after which the loop tries again: no answer, 429, 5xx, or 400 while
      stream options are injected, which are then stripped. */
  predicate TriesAgain(first: Outcome, injected: bool) {
    first.NetworkError? || Answers(first, 429) || (first.Response? && first.status >= 500) || (injected && Answers(first, 400))
  }

  predicate Succeeds(o: Outcome) {
    o.Response? && 200 <= o.status <= 299
  }

  /** Call `i` is the one that strips the stream options: the first answered 400. */
  predicate Strips(calls: seq<Call>, injected: bool, i: nat)
    requires i < |calls|
  {
    injected && Answers(calls[i].outcome, 400) && forall j :: 0 <= j < i ==> !Answers(calls[j].outcome, 400)
  }

  /** Call `i` was answered with a status that can be passed through. */
  predicate Passable(calls: seq<Call>, injected: bool, i: nat)
    requires i < |calls|
  {
    calls[i].outcome.Response? && !Strips(calls, injected, i)
  }

  /** `last` is the status of the last such call, None if there is none. */
  predicate LastPassable(calls: seq<Call>, injected: bool, last: Option<int>) {
    match last
    case None => forall i :: 0 <= i < |calls| ==> !Passable(calls, injected, i)
    case Some(status) =>
      exists i :: 0 <= i < |calls| && Passable(calls, injected, i) && calls[i].outcome.status == status
                  && forall j :: i < j < |calls| ==> !Passable(calls, injected, j)
  }

  // ---- keys ----

  /** The query of the run once the keys in `failed` have failed. */
  function Asked(st: State, cfg: Config, r: Request, failed: set<string>): Query {
    RouteQuery(st, r.user, r.model, cfg.IsWorkingHour(r.now), cfg.defaultHourly, failed, r.now)
  }

  ghost predicate SomeFits(st: State, cfg: Config, r: Request, failed: set<string>) {
    exists k :: k in st.keys.Values && FitsKey(Asked(st, cfg, r, failed), r.est, k)
  }

  /** Which keys have failed after the first call: its key, unless the call stripped. */
  function FailedAfter(first: Call): set<string> {
    if Answers(first.outcome, 400) then {} else {first.key}
  }

  // ---- the loop unfolded ----

  lemma ReplayOne(q: Request, c: Call)
    ensures Replay(q, []) == q && Replay(q, [c]) == AfterCall(q, c)
  {
    assert [c][..0] == [];
  }

  lemma ReplayTwo(q: Request, c: Call, d: Call)
    ensures Replay(q, [c, d]) == AfterCall(AfterCall(q, c), d)
  {
    hide AfterCall;
    assert [c, d][..1] == [c];
    ReplayOne(q, c);
  }

  // Where the request stands after one call.
  lemma AfterFirst(r: Request, c: Call)
    requires r.phase.Selecting? && r.attempt == 0 && r.exclude == {} && !r.stripped && r.last.None?
    ensures var p := AfterCall(r, c);
            && (p.phase.Selecting? <==> TriesAgain(c.outcome, r.injected))
            && (p.phase.Selecting? ==> p.attempt == 1 && p.exclude == FailedAfter(c))
            && (p.stripped <==> r.injected && Answers(c.outcome, 400))
            && p.last == (if c.outcome.Response? && !Succeeds(c.outcome) && !p.stripped then Some(c.outcome.status) else None)
            && (c.outcome.ClientGone? ==> p.phase.GoneUser?)
            && (Succeeds(c.outcome) ==> p.phase == SettlingUser(c.key, c.outcome.actual))
            && (!p.phase.Selecting? && !c.outcome.ClientGone? && !Succeeds(c.outcome) ==> p.phase == Failing(UpstreamFailed(p.last)))
            && p.user == r.user && p.model == r.model && p.est == r.est && p.injected == r.injected && p.now == r.now
  {
  }

  // And after a second.
  lemma AfterSecond(p: Request, d: Call)
    requires p.phase.Selecting? && p.attempt == 1
    ensures var q := AfterCall(p, d);
            && !q.phase.Selecting?
            && (d.outcome.ClientGone? ==> q.phase.GoneUser?)
            && (Succeeds(d.outcome) ==> q.phase == SettlingUser(d.key, d.outcome.actual))
            && (!d.outcome.ClientGone? && !Succeeds(d.outcome) ==>
                  q.phase == Failing(UpstreamFailed(
                    if d.outcome.NetworkError? || (p.injected && !p.stripped && Answers(d.outcome, 400)) then p.last
                    else Some(d.outcome.status))))
  {
  }

  // ---- what a run does ----

  predicate Fresh(r: Request) {
    r.phase.Selecting? && r.attempt == 0 && r.exclude == {} && !r.stripped && r.last.None?
  }

  lemma StartIsFresh(user: string, model: string, est: nat, injected: bool, now: Instant)
    ensures var r := Start(user, model, est, injected, now);
            Fresh(r) && r.user == user && r.model == model && r.est == est && r.injected == injected && r.now == now
  {
  }

  lemma FollowsPrefix(st: State, cfg: Config, r: Request, calls: seq<Call>, upstream: nat -> Outcome)
    requires Fresh(r) && Follows(st, cfg, r, calls, upstream)
    ensures |calls| <= 2
    ensures |calls| >= 1 ==>
              && calls[0].key in st.keys && DirectChoice(st.keys.Values, QueryOf(st, cfg, r), r.est, st.keys[calls[0].key])
    ensures |calls| == 2 ==>
              var p := AfterCall(r, calls[0]);
              && p.phase.Selecting?
              && calls[1].key in st.keys && DirectChoice(st.keys.Values, QueryOf(st, cfg, p), p.est, st.keys[calls[1].key])
  {
    hide DirectChoice, AfterCall, QueryOf;
    AttemptsCountCalls(r, calls, st, cfg, upstream);
    if |calls| == 1 {
      assert calls[..0] == [];
    } else if |calls| == 2 {
      assert calls[..1] == [calls[0]] && calls[..1][..0] == [];
      ReplayOne(r, calls[0]);
      assert Follows(st, cfg, r, calls[..1], upstream);
    }
  }

  lemma ChoiceFits(keys: set<UpstreamKey>, q: Query, est: nat, k: UpstreamKey)
    requires DirectChoice(keys, q, est, k)
    ensures k in keys && FitsKey(q, est, k)
  {
  }

  // A direct choice is made exactly when some key fits.
  lemma NoChoiceNoFit(st: State, cfg: Config, q: Request, r: Request, failed: set<string>, exit: Exit)
    requires q.phase.Selecting? && Verdict(st, cfg, q, exit) && QueryOf(st, cfg, q) == Asked(st, cfg, r, failed) && q.est == r.est
    ensures exit.Failed? && exit.failure.NoRoute? && !SomeFits(st, cfg, r, failed)
  {
  }

  lemma ChoiceIsFit(st: State, cfg: Config, r: Request, failed: set<string>, key: string)
    requires key in st.keys && DirectChoice(st.keys.Values, Asked(st, cfg, r, failed), r.est, st.keys[key])
    ensures SomeFits(st, cfg, r, failed)
  {
    ChoiceFits(st.keys.Values, Asked(st, cfg, r, failed), r.est, st.keys[key]);
  }

  /** Which calls a run makes: one exactly when some key has room for the estimate, a
      second exactly when the first answer is one to try again after and a key other than
      the failed one has room, or any key after a stripped 400; and no third. */
  ghost predicate CallsAsAnswered(st: State, cfg: Config, r: Request, calls: seq<Call>, upstream: nat -> Outcome) {
    && |calls| <= 2
    && (calls != [] <==> SomeFits(st, cfg, r, {}))
    && (calls != [] ==>
          && calls[0].outcome == upstream(0) && calls[0].key in st.keys
          && DirectChoice(st.keys.Values, Asked(st, cfg, r, {}), r.est, st.keys[calls[0].key])
          && (|calls| == 2 <==>
                TriesAgain(calls[0].outcome, r.injected) && SomeFits(st, cfg, r, FailedAfter(calls[0]))))
    && (|calls| == 2 ==>
          && calls[1].outcome == upstream(1) && calls[1].key in st.keys
          && DirectChoice(st.keys.Values, Asked(st, cfg, r, FailedAfter(calls[0])), r.est, st.keys[calls[1].key]))
  }

  /** How a run ends: it is served exactly when its last answer succeeds, with that key
      and usage; it is cut off exactly when the client went away during its last call; it
      finds no route exactly when it made no call, or only one to try again after; else
      the status passed through is that of the last answer but the stripped one. */
  predicate EndsAsAnswered(calls: seq<Call>, injected: bool, exit: Exit) {
    && !exit.Rejected?
    && (exit.Served? <==> calls != [] && Succeeds(calls[|calls| - 1].outcome))
    && (exit.Served? ==> exit == Served(calls[|calls| - 1].key, calls[|calls| - 1].outcome.actual))
    && (exit.Disconnected? <==> calls != [] && calls[|calls| - 1].outcome.ClientGone?)
    && (exit.Failed? && exit.failure.NoRoute? <==>
          calls == [] || (|calls| == 1 && TriesAgain(calls[0].outcome, injected)))
    && (exit.Failed? && exit.failure.UpstreamFailed? ==> LastPassable(calls, injected, exit.failure.last))
  }

  lemma NoCallEnds(st: State, cfg: Config, r: Request, calls: seq<Call>, upstream: nat -> Outcome, exit: Exit)
    requires Fresh(r) && calls == [] && Verdict(st, cfg, Replay(r, calls), exit)
    ensures CallsAsAnswered(st, cfg, r, calls, upstream) && EndsAsAnswered(calls, r.injected, exit)
  {
    hide FitsKey, DirectChoice, NoDirectChoice, SomeFits;
    NoChoiceNoFit(st, cfg, r, r, {}, exit);
  }

  lemma OneCallEnds(st: State, cfg: Config, r: Request, calls: seq<Call>, upstream: nat -> Outcome, exit: Exit)
    requires Fresh(r) && |calls| == 1 && Follows(st, cfg, r, calls, upstream) && Verdict(st, cfg, Replay(r, calls), exit)
    ensures CallsAsAnswered(st, cfg, r, calls, upstream) && EndsAsAnswered(calls, r.injected, exit)
  {
    hide DirectChoice, NoDirectChoice, FitsKey, AfterCall, Replay, Follows, SomeFits, TriesAgain;
    var c := calls[0];
    assert calls == [c];
    ReplayOne(r, c);
    FollowsPrefix(st, cfg, r, calls, upstream);
    FollowsAnswers(st, cfg, r, calls, upstream);
    ChoiceIsFit(st, cfg, r, {}, c.key);
    AfterFirst(r, c);
    var p := AfterCall(r, c);
    if TriesAgain(c.outcome, r.injected) {
      NoChoiceNoFit(st, cfg, p, r, FailedAfter(c), exit);
    }
  }

  lemma TwoCallsEnd(st: State, cfg: Config, r: Request, calls: seq<Call>, upstream: nat -> Outcome, exit: Exit)
    requires Fresh(r) && |calls| == 2 && Follows(st, cfg, r, calls, upstream) && Verdict(st, cfg, Replay(r, calls), exit)
    ensures CallsAsAnswered(st, cfg, r, calls, upstream) && EndsAsAnswered(calls, r.injected, exit)
  {
    hide DirectChoice, NoDirectChoice, FitsKey, AfterCall, Replay, Follows, SomeFits;
    var c, d := calls[0], calls[1];
    assert calls == [c, d];
    ReplayTwo(r, c, d);
    FollowsPrefix(st, cfg, r, calls, upstream);
    FollowsAnswers(st, cfg, r, calls, upstream);
    ChoiceIsFit(st, cfg, r, {}, c.key);
    AfterFirst(r, c);
    var p := AfterCall(r, c);
    ChoiceIsFit(st, cfg, r, FailedAfter(c), d.key);
    AfterSecond(p, d);
  }

  lemma FollowsAnswers(st: State, cfg: Config, r: Request, calls: seq<Call>, upstream: nat -> Outcome)
    requires Fresh(r) && Follows(st, cfg, r, calls, upstream)
    ensures |calls| >= 1 ==> calls[0].outcome == upstream(0)
    ensures |calls| == 2 ==> calls[1].outcome == upstream(1)
  {
    hide DirectChoice, QueryOf;
    AttemptsCountCalls(r, calls, st, cfg, upstream);
    if |calls| == 1 {
      assert calls[..0] == [];
    } else if |calls| == 2 {
      assert calls[..1] == [calls[0]] && calls[..1][..0] == [];
      ReplayOne(r, calls[0]);
      assert Follows(st, cfg, r, calls[..1], upstream);
      AttemptsCountCalls(r, calls[..1], st, cfg, upstream);
    }
  }

  /** For every sequence of answers: the calls of a run, its exit and the status it passes
      through are those. */
  lemma RunIsAsAnswered(st: State, cfg: Config, user: string, model: string, est: nat, injected: bool, now: Instant,
                        calls: seq<Call>, upstream: nat -> Outcome, exit: Exit)
    requires Follows(st, cfg, Start(user, model, est, injected, now), calls, upstream)
    requires Verdict(st, cfg, Replay(Start(user, model, est, injected, now), calls), exit)
    ensures CallsAsAnswered(st, cfg, Start(user, model, est, injected, now), calls, upstream)
    ensures EndsAsAnswered(calls, injected, exit)
  {
    hide Follows, Verdict, Replay, CallsAsAnswered, EndsAsAnswered, Start;
    var r := Start(user, model, est, injected, now);
    StartIsFresh(user, model, est, injected, now);
    FollowsPrefix(st, cfg, r, calls, upstream);
    if |calls| == 0 {
      NoCallEnds(st, cfg, r, calls, upstream, exit);
    } else if |calls| == 1 {
      OneCallEnds(st, cfg, r, calls, upstream, exit);
    } else {
      TwoCallsEnd(st, cfg, r, calls, upstream, exit);
    }
  }
}

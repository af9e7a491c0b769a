// Which keys a request calls, in every interleaving.
module ProtocolCalls {
  import opened Wrappers
  import opened Clock
  import opened Quota
  import opened StoreModel
  import opened Router
  import opened Requests
  import opened Protocol
  import opened ProtocolLedger
  import opened ProtocolRuns

  /** The answer that makes the loop try again without the injected options. */
  predicate Strips(q: Request, o: Option<Outcome>) {
    o.Some? && o.value.Response? && o.value.status == 400 && q.injected
  }

  predicate Fails(o: Option<Outcome>) {
    o.Some? && (o.value.NetworkError? || (o.value.Response? && (o.value.status == 429 || o.value.status >= 500)))
  }

  predicate Open(q: Request) {
    q.phase.Arrived? || q.phase.Selecting? || q.phase.Reserving? || q.phase.Calling?
  }

  // How many of the calls are answered.
  function Replies(q: Request): nat {
    if q.phase.Calling? && q.calls != [] then |q.calls| - 1 else |q.calls|
  }

  // A call the loop has gone on from.
  predicate GoneOn(q: Request, c: Made) {
    Strips(q, c.outcome) || (Fails(c.outcome) && c.key in q.exclude)
  }

  /** A key is called again only after the answer that strips. */
  ghost predicate NoRepeats(q: Request) {
    forall i, j :: 0 <= i < j < |q.calls| && q.calls[i].key == q.calls[j].key ==> Strips(q, q.calls[i].outcome)
  }

  ghost predicate CallsOk(q: Request) {
    && |q.calls| == q.tally.keyTaken
    && (q.phase.Calling? ==> q.calls != [] && q.calls[|q.calls| - 1].key == q.phase.key && q.calls[|q.calls| - 1].outcome.None?)
    && (q.phase.Reserving? ==> q.phase.key !in q.exclude)
    && (Open(q) ==> forall i :: 0 <= i < Replies(q) ==> GoneOn(q, q.calls[i]))
    && NoRepeats(q)
  }

  lemma CallKeepsOk(q: Request, now: Instant, t: Tally)
    requires q.phase.Reserving? && CallsOk(q) && t.keyTaken == q.tally.keyTaken + 1
    ensures CallsOk(q.Calls(q.phase.key, now).(phase := Calling(q.phase.key), keyAt := now, tally := t))
  {
  }

  lemma ReplyKeepsOk(q: Request, o: Outcome, t: Tally)
    requires q.phase.Calling? && CallsOk(q) && t.keyTaken == q.tally.keyTaken
    ensures CallsOk(q.Answered(o).AfterReply(q.phase.key, o).(tally := t))
    ensures !q.Answered(o).AfterReply(q.phase.key, o).phase.Calling?
  {
    var q' := q.Answered(o).AfterReply(q.phase.key, o);
    assert q'.calls == q.calls[..|q.calls| - 1] + [q.calls[|q.calls| - 1].(outcome := Some(o))];
    assert q'.injected == q.injected && q.exclude <= q'.exclude;
    assert q'.phase.Selecting? ==> GoneOn(q', q'.calls[|q'.calls| - 1]);
  }

  // Giving a key back changes no key, no answer and nothing else of a request.
  lemma FreedKeepsOk(q: Request, now: Instant, used: int, t: Tally)
    requires CallsOk(q) && !q.phase.Calling? && t.keyTaken == q.tally.keyTaken
    ensures CallsOk(q.Freed(now, used).(tally := t))
  {
    var q' := q.Freed(now, used).(tally := t);
    assert |q'.calls| == |q.calls|;
    assert forall i :: 0 <= i < |q.calls| ==> q'.calls[i].key == q.calls[i].key && q'.calls[i].outcome == q.calls[i].outcome;
  }

  // A step that neither calls nor is answered.
  lemma OtherKeepsOk(q: Request, q': Request)
    requires CallsOk(q) && q'.calls == q.calls && q'.injected == q.injected && q'.tally.keyTaken == q.tally.keyTaken
    requires q.exclude <= q'.exclude && !q'.phase.Calling? && !q.phase.Calling?
    requires (q'.phase.Reserving? ==> q'.phase.key !in q'.exclude) && (Open(q') ==> Open(q))
    ensures CallsOk(q')
  {
  }

  lemma ReplyUnfolds(s: System, e: Event)
    requires Enabled(s, e) && e.Reply?
    ensures var q := s.reqs[e.r];
            && q.phase.Calling? && NextRequest(s, e).tally.keyTaken == q.tally.keyTaken
            && var q' := q.Answered(e.outcome).AfterReply(q.phase.key, e.outcome);
               NextRequest(s, e) == (if q.Accepted(e.outcome) then q' else q'.Freed(e.now, 0)).(tally := NextRequest(s, e).tally)
  {
  }

  lemma StepKeepsCallsOk(s: System, e: Event)
    requires Enabled(s, e) && e.OfRequest() && s.st.Valid() && (e.r in s.reqs ==> CallsOk(s.reqs[e.r]))
    ensures CallsOk(NextRequest(s, e))
  {
    hide HourStart, State.ReserveUser, State.ReserveKey, Config.IsWorkingHour, CallsOk, Request.AfterReply, Selection, State.Valid;
    if e.Arrive? {
      FreshOk(NextRequest(s, e));
    } else if e.Reply? {
      var q := s.reqs[e.r];
      ReplyUnfolds(s, e);
      ReplyKeepsOk(q, e.outcome, NextRequest(s, e).tally);
      ReplyKeepsOk(q, e.outcome, q.tally);
      FreedKeepsOk(q.Answered(e.outcome).AfterReply(q.phase.key, e.outcome).(tally := q.tally), e.now, 0, NextRequest(s, e).tally);
    } else if e.SettleKey? {
      FreedKeepsOk(s.reqs[e.r], e.now, s.reqs[e.r].phase.actual, NextRequest(s, e).tally);
      OtherKeepsOk(s.reqs[e.r].Freed(e.now, s.reqs[e.r].phase.actual).(tally := NextRequest(s, e).tally), NextRequest(s, e));
    } else if e.ReserveKey? && KeyReservation(s, s.reqs[e.r], e.now).1.None? {
      CallKeepsOk(s.reqs[e.r], e.now, NextRequest(s, e).tally);
    } else {
      if e.Select? {
        IdsMatch(s.st, e.key);
      }
      OtherKeepsOk(s.reqs[e.r], NextRequest(s, e));
    }
  }

  lemma IdsMatch(st: State, key: string)
    requires st.Valid() && key in st.keys
    ensures st.keys[key].id == key
  {
  }

  lemma FreshOk(q: Request)
    requires q.calls == [] && q.phase.Arrived? && q.tally.keyTaken == 0
    ensures CallsOk(q)
  {
  }

  ghost predicate AllCallsOk(s: System) {
    Inv(s) && forall r :: r in s.reqs ==> CallsOk(s.reqs[r])
  }

  lemma {:induction false} RunKeepsCallsOk(s: System, es: seq<Event>)
    requires Run(s, es) && AllCallsOk(s)
    ensures AllCallsOk(After(s, es))
    decreases |es|
  {
    if es != [] {
      hide CallsOk;
      StepKeepsInv(s, es[0]);
      if es[0].OfRequest() {
        StepKeepsCallsOk(s, es[0]);
      }
      RunKeepsCallsOk(Step(s, es[0]), es[1..]);
    }
  }

  /** In every run: a request makes at most two calls, what it is about to reserve is
      no key it has excluded, and it calls a key again only after that key answered 400
      on an injected stream, so never after it failed. */
  lemma CallsOnceUnlessStripped(cfg: Config, users: map<string, User>, keys: map<string, UpstreamKey>, latest: Instant,
                                es: seq<Event>, r: nat)
    requires ProperKeys(keys) && Run(Initial(cfg, users, keys, latest), es)
    requires r in After(Initial(cfg, users, keys, latest), es).reqs
    ensures var q := After(Initial(cfg, users, keys, latest), es).reqs[r];
            && |q.calls| <= ATTEMPTS
            && (q.phase.Reserving? ==> q.phase.key !in q.exclude)
            && forall i, j :: 0 <= i < j < |q.calls| && q.calls[i].key == q.calls[j].key ==>
                 && q.injected && q.calls[i].outcome.Some?
                 && q.calls[i].outcome.value.Response? && q.calls[i].outcome.value.status == 400
  {
    var s0 := Initial(cfg, users, keys, latest);
    InitialInv(cfg, users, keys, latest);
    RunKeepsCallsOk(s0, es);
    var q := After(s0, es).reqs[r];
    assert CallsOk(q) && q.TallyOk();
  }
}

// Every request can always take its next section, and takes boundedly many.
module ProtocolProgress {
  import opened Wrappers
  import opened Clock
  import opened StoreModel
  import opened Router
  import opened Requests
  import opened Protocol
  import opened ProtocolLedger
  import opened ProtocolRuns

  /** The key records stay within the ids `ids`. */
  ghost predicate Within(s: System, e: Event, ids: set<string>) {
    e.PutKey? ==> e.k.id in ids
  }

  // A chosen key has not been tried in vain.
  ghost predicate Reachable(s: System, r: nat, ids: set<string>) {
    && s.st.keys.Keys <= ids
    && s.st.Valid()
    && r in s.reqs
    && s.reqs[r].attempt <= ATTEMPTS
    && (s.reqs[r].phase.Selecting? || s.reqs[r].phase.Reserving? || s.reqs[r].phase.Calling? ==> s.reqs[r].attempt < ATTEMPTS)
    && (s.reqs[r].phase.Arrived? ==> s.reqs[r].attempt < ATTEMPTS)
    && (s.reqs[r].phase.Reserving? ==> s.reqs[r].phase.key in ids - s.reqs[r].exclude)
  }

  lemma ExcludingShrinks(ids: set<string>, exclude: set<string>, key: string)
    ensures |ids - (exclude + {key})| <= |ids - exclude|
    ensures key in ids - exclude ==> |ids - (exclude + {key})| < |ids - exclude|
  {
    assert ids - (exclude + {key}) == (ids - exclude) - {key};
  }

  lemma AgainDescends(q: Request, p: Request, ids: set<string>)
    requires q.phase.Calling? && q.attempt < ATTEMPTS && p.attempt == q.attempt
    requires p.exclude == q.exclude || p.exclude == q.exclude + {q.phase.key}
    ensures p.Again().Rank(ids) < q.Rank(ids)
  {
    ExcludingShrinks(ids, q.exclude, q.phase.key);
  }

  lemma ExitDescends(q: Request, p: Request, ids: set<string>, calls: seq<Made>, tally: Tally)
    ensures p.(calls := calls, tally := tally).Rank(ids) == p.Rank(ids)
    ensures q.phase.Calling? && (p.phase.GoneUser? || p.phase.SettlingUser? || p.phase.Failing?) ==> p.Rank(ids) < q.Rank(ids)
  {
  }

  lemma ReplyDescends(q: Request, o: Outcome, ids: set<string>, calls: seq<Made>, tally: Tally)
    requires q.phase.Calling? && q.attempt < ATTEMPTS
    ensures var q' := q.AfterReply(q.phase.key, o);
            && q'.(calls := calls, tally := tally).Rank(ids) == q'.Rank(ids) < q.Rank(ids)
            && q'.attempt <= ATTEMPTS && (q'.phase.Selecting? ==> q'.attempt < ATTEMPTS)
            && !q'.phase.Arrived? && !q'.phase.Reserving? && !q'.phase.Calling?
  {
    hide Request.Rank;
    var key := q.phase.key;
    ExitDescends(q, q.AfterReply(key, o), ids, calls, tally);
    AgainDescends(q, q.Exclude(key), ids);
    AgainDescends(q, q.(stripped := true), ids);
    if o.Response? {
      AgainDescends(q, q.(last := Some(o.status)).Exclude(key), ids);
    }
  }

  lemma AnsweredKeepsRank(q: Request, o: Outcome, ids: set<string>)
    ensures q.Answered(o).Rank(ids) == q.Rank(ids)
  {
  }

  lemma OwnRankDescends(s: System, e: Event, ids: set<string>)
    requires e.OfRequest() && !e.Arrive? && Enabled(s, e) && Reachable(s, e.r, ids)
    ensures NextRequest(s, e).Rank(ids) < s.reqs[e.r].Rank(ids)
  {
    hide State.ReserveKey, State.ReserveUser, Chosen, Selection, Request.Rank;
    var q := s.reqs[e.r];
    if e.Reply? {
      AnsweredKeepsRank(q, e.outcome, ids);
      ReplyDescends(q.Answered(e.outcome), e.outcome, ids, NextRequest(s, e).calls, NextRequest(s, e).tally);
    } else if e.ReserveKey? {
      ReservingDescends(q, ids, e.now, NextRequest(s, e).tally);
    } else {
      var q' := NextRequest(s, e);
      assert q'.exclude == q.exclude && q'.attempt == q.attempt;
      MovesOnDescends(q, q', ids);
    }
  }

  // Phases that only move on, in the order they come.
  predicate MovesOn(before: Phase, after: Phase) {
    || (before.Arrived? && (after.Selecting? || after.Done?))
    || (before.Selecting? && (after.Reserving? || after.Failing?))
    || ((before.Failing? || before.GoneKey? || before.SettlingKey?) && after.Done?)
    || (before.GoneUser? && after.GoneKey?)
    || (before.SettlingUser? && after.SettlingKey?)
  }

  lemma MovesOnDescends(q: Request, q': Request, ids: set<string>)
    requires q'.exclude == q.exclude && q'.attempt == q.attempt && MovesOn(q.phase, q'.phase)
    ensures q'.Rank(ids) < q.Rank(ids)
  {
  }

  lemma ReservingDescends(q: Request, ids: set<string>, now: Instant, tally: Tally)
    requires q.phase.Reserving? && q.phase.key in ids - q.exclude
    ensures q.Exclude(q.phase.key).(phase := Selecting).Rank(ids) < q.Rank(ids)
    ensures q.Calls(q.phase.key, now).(phase := Calling(q.phase.key), keyAt := now, tally := tally).Rank(ids) < q.Rank(ids)
  {
    ExcludingShrinks(ids, q.exclude, q.phase.key);
  }

  // Where a request's own step puts it.
  lemma OwnStepStaysReachable(s: System, e: Event, ids: set<string>)
    requires e.OfRequest() && !e.Arrive? && Enabled(s, e) && Reachable(s, e.r, ids)
    ensures var q := NextRequest(s, e);
            && q.attempt <= ATTEMPTS && !q.phase.Arrived?
            && (q.phase.Selecting? || q.phase.Reserving? || q.phase.Calling? ==> q.attempt < ATTEMPTS)
            && (q.phase.Reserving? ==> q.phase.key in ids - q.exclude)
  {
    hide State.ReserveKey, State.ReserveUser, Request.AfterReply, Request.Rank;
    var q := s.reqs[e.r];
    if e.Reply? {
      ReplyDescends(q.Answered(e.outcome), e.outcome, ids, NextRequest(s, e).calls, NextRequest(s, e).tally);
    } else if e.Select? {
      assert s.st.keys[e.key].id == e.key;
    }
  }

  lemma OwnStepDescends(s: System, e: Event, ids: set<string>)
    requires e.OfRequest() && !e.Arrive? && Enabled(s, e) && Reachable(s, e.r, ids)
    ensures NextRequest(s, e).Rank(ids) < s.reqs[e.r].Rank(ids)
    ensures Reachable(Step(s, e), e.r, ids) && Step(s, e).reqs[e.r] == NextRequest(s, e)
  {
    hide Enabled, NextStore, NextRequest, Step, Request.Rank, State.Valid, UserEffectOf, KeyEffectOf;
    NextStoreValid(s, e);
    OwnRankDescends(s, e, ids);
    OwnStepStaysReachable(s, e, ids);
    SameKeyIds(s, e);
    StepBooks(s, e);
  }

  // Only record changes touch the key ids.
  lemma SameKeyIds(s: System, e: Event)
    requires Enabled(s, e)
    ensures e.OfRequest() ==> NextStore(s, e).keys == s.st.keys
  {
    hide HourStart, DayStart, Selection, Chosen, EnsureWindow, State.CountersAt, State.KeyHourAt;
  }

  lemma KeyIdsStay(s: System, e: Event, ids: set<string>)
    requires Enabled(s, e) && Within(s, e, ids) && s.st.keys.Keys <= ids
    ensures NextStore(s, e).keys.Keys <= ids
  {
    hide HourStart, State.CountersAt, State.KeyHourAt, Selection, Chosen;
  }

  lemma OtherStepKeepsRank(s: System, e: Event, r: nat, ids: set<string>)
    requires Enabled(s, e) && Within(s, e, ids) && Reachable(s, r, ids) && !(e.OfRequest() && e.r == r)
    ensures Step(s, e).reqs[r] == s.reqs[r] && Reachable(Step(s, e), r, ids)
  {
    hide UserEffectOf, KeyEffectOf, NextRequest, Enabled, NextStore, Step, State.Valid, Within;
    NextStoreValid(s, e);
    KeyIdsStay(s, e, ids);
    StepBooks(s, e);
  }

  // How many of the events are sections of request `r`.
  function Work(es: seq<Event>, r: nat): nat {
    if es == [] then 0 else (if es[0].OfRequest() && es[0].r == r then 1 else 0) + Work(es[1..], r)
  }

  lemma {:induction false} WorkIsBounded(s: System, es: seq<Event>, r: nat, ids: set<string>)
    requires RunWith(s, es, (x, e) => Within(x, e, ids)) && Reachable(s, r, ids)
    ensures Run(s, es) && r in After(s, es).reqs
    ensures Work(es, r) + After(s, es).reqs[r].Rank(ids) <= s.reqs[r].Rank(ids)
    ensures Reachable(After(s, es), r, ids)
    decreases |es|
  {
    hide Step, NextStore, NextRequest, UserEffectOf, KeyEffectOf, State.Valid, Within, Request.Rank, Selection, Chosen;
    if es != [] {
      var e := es[0];
      if e.OfRequest() && e.r == r {
        OwnStepDescends(s, e, ids);
      } else {
        OtherStepKeepsRank(s, e, r, ids);
      }
      WorkIsBounded(Step(s, e), es[1..], r, ids);
    }
  }

  /** The retry loop terminates in every interleaving: once arrived, a request takes
      at most 2|ids| + 14 sections however the others interfere. */
  lemma EveryRequestTerminates(s: System, r: nat, arrival: Event, es: seq<Event>, ids: set<string>)
    requires s.st.Valid() && s.st.keys.Keys <= ids
    requires arrival.Arrive? && arrival.r == r && Enabled(s, arrival)
    requires RunWith(Step(s, arrival), es, (x, e) => Within(x, e, ids))
    ensures Work(es, r) <= 2 * |ids| + 14
  {
    var s' := Step(s, arrival);
    assert ids - {} == ids;
    WorkIsBounded(s', es, r, ids);
  }

  /** No request ever waits: in every phase but the last it has an enabled event. */
  lemma NeverStuck(s: System, r: nat, now: Instant) returns (e: Event)
    requires r in s.reqs && !s.reqs[r].phase.Done? && s.st.Valid()
    ensures e.OfRequest() && !e.Arrive? && e.r == r && Enabled(s, e)
  {
    var q := s.reqs[r];
    match q.phase
    case Arrived => e := ReserveUser(r, 0, 0);
    case Selecting =>
      var choice := SelectionExists(s.st.keys.Values, s.QueryOf(q, now));
      if choice.Ok? {
        e := Select(r, choice.value.id, now);
      } else {
        e := SelectNone(r, choice.error, now);
      }
    case Reserving(_, _) => e := ReserveKey(r, now);
    case Calling(_) => e := Reply(r, NetworkError, now);
    case GoneUser(_) => e := ReleaseUser(r, now);
    case GoneKey(_) => e := ReleaseKeyAgain(r, now);
    case Failing(_) => e := ReleaseUser(r, now);
    case SettlingUser(_, _) => e := SettleUser(r, now);
    case SettlingKey(_, _) => e := SettleKey(r, now);
  }
}

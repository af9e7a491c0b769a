// The bounds of conservation and of the limits as sums over requests: over what
// reservations of other windows, second releases and negative usage took from or
// added to a counter in the window it stands in.
module ProtocolLate {
  import opened Wrappers
  import opened Clock
  import opened Quota
  import opened StoreModel
  import opened Router
  import opened Requests
  import opened Ledger
  import opened Protocol
  import opened ProtocolLedger
  import opened ProtocolRuns
  import opened ProtocolCounters
  import opened ProtocolSpend
  import opened ProtocolWindows

  // ---- ended reservations of one counter ----

  // The n-th reservation that request `r` made on a counter.
  datatype Id = Id(r: nat, n: nat)

  // The windows a reservation was made and ended in, and what was used in the end.
  datatype Ended = Ended(made: Instant, ended: Instant, est: nat, used: int)

  type Record = map<Id, Ended>

  /** What it gave back that its window did not hold: all it gave back if it was made in
      another window, else the part of its usage below zero. */
  function Refund(x: Ended): nat {
    if x.made != x.ended then Max(0, x.est - x.used) else Max(0, -x.used)
  }

  /** What it took in a window other than its own. */
  function Overrun(x: Ended): nat {
    if x.made != x.ended then Max(0, x.used - x.est) else 0
  }

  /** By how much it overran its estimate. */
  function Excess(x: Ended): nat {
    Max(0, x.used - x.est)
  }

  /** `f` of every reservation that ended in window `w`. */
  ghost function Over(record: Record, w: Instant, f: Ended -> nat): map<Id, nat> {
    map i | i in record && record[i].ended == w :: f(record[i])
  }

  function UsedBy(op: Op): int {
    if op.Bill? then op.actual else 0
  }

  predicate Ends(op: Op) {
    op.Leave? || op.Bill?
  }

  /** An operation enters the reservation it ends, and a second release, in the records. */
  function End(record: Record, i: Id, shares: Shares, start: Instant, op: Op): Record {
    if Ends(op) && op.r in shares then record[i := Ended(shares[op.r].window, start, op.est, UsedBy(op))] else record
  }

  function EndAgain(again: Shares, r: nat, start: Instant, op: Op): Shares {
    if op.Stray? then again[r := Share(start, op.est)] else again
  }

  /** The accumulated bounds of the books are sums over the reservations that ended, and
      the second releases that came, in the counter's window. */
  ghost predicate Summed(a: Account, record: Record, again: Shares) {
    if a.c.start.None? then record == map[] && again == map[] && a.b.credit == a.b.surplus == a.b.excess == 0
    else
      var w := a.c.start.value;
      && (forall i :: i in record ==> record[i].ended <= w) && (forall r :: r in again ==> again[r].window <= w)
      && a.b.credit == Sum(Over(record, w, Refund)) + Sum(InWindow(again, w))
      && a.b.surplus == Sum(Over(record, w, Overrun))
      && a.b.excess == Sum(Over(record, w, Excess))
  }

  lemma NothingEnded(record: Record, again: Shares, w: Instant, f: Ended -> nat)
    requires forall i :: i in record ==> record[i].ended < w
    requires forall r :: r in again ==> again[r].window < w
    ensures Sum(Over(record, w, f)) == 0 && Sum(InWindow(again, w)) == 0
  {
    assert Over(record, w, f) == map[] && InWindow(again, w) == map[];
  }

  lemma OpeningKeepsSummed(a: Account, record: Record, again: Shares, start: Instant)
    requires Summed(a, record, again) && (a.c.start.Some? ==> a.c.start.value <= start)
    ensures Summed(Opened(a, start), record, again)
  {
    if a.c.start != Some(start) {
      hide Sum, Over, InWindow;
      NothingEnded(record, again, start, Refund);
      NothingEnded(record, again, start, Overrun);
      NothingEnded(record, again, start, Excess);
    }
  }

  lemma OverWith(record: Record, i: Id, x: Ended, w: Instant, f: Ended -> nat)
    requires i !in record && x.ended == w
    ensures Sum(Over(record[i := x], w, f)) == Sum(Over(record, w, f)) + f(x)
  {
    hide Sum;
    assert Over(record[i := x], w, f) == Over(record, w, f)[i := f(x)];
    SumWith(Over(record, w, f), i, f(x));
  }

  lemma AgainWith(again: Shares, r: nat, w: Instant, est: nat)
    requires r !in again
    ensures Sum(InWindow(again[r := Share(w, est)], w)) == Sum(InWindow(again, w)) + est
  {
    hide Sum;
    assert InWindow(again[r := Share(w, est)], w) == InWindow(again, w)[r := est];
    SumWith(InWindow(again, w), r, est);
  }

  // An operation on an account whose window is open.
  lemma EntryKeepsSummed(o: Account, shares: Shares, record: Record, again: Shares, i: Id, r: nat, start: Instant, op: Op)
    requires o.c.start == Some(start) && o.b.parts == InWindow(shares, start) && Summed(o, record, again)
    requires Fits(shares, op) && (Ends(op) ==> i !in record) && (op.Stray? ==> r !in again)
    ensures Summed(Account(o.c, Ledger.Entry(o.b, op)), End(record, i, shares, start, op), EndAgain(again, r, start, op))
  {
    hide Sum, Over;
    if Ends(op) {
      assert op.r in o.b.parts <==> shares[op.r].window == start;
      var x := Ended(shares[op.r].window, start, op.est, UsedBy(op));
      OverWith(record, i, x, start, Refund);
      OverWith(record, i, x, start, Overrun);
      OverWith(record, i, x, start, Excess);
    } else if op.Stray? {
      AgainWith(again, r, start, op.est);
    }
  }

  lemma SummedIgnoresValue(a: Account, record: Record, again: Shares, v: int)
    requires Summed(a, record, again)
    ensures Summed(Account(a.c.(value := v), a.b), record, again)
  {
  }

  lemma OpenedIsCurrent(a: Account, shares: Shares, latest: Instant, start: Instant)
    requires Current(a, shares, latest) && latest <= start
    ensures Opened(a, start).c.start == Some(start) && Opened(a, start).b.parts == InWindow(shares, start)
    ensures a.c.start.Some? ==> a.c.start.value <= start
  {
    if a.c.start != Some(start) {
      assert forall r :: r in shares ==> shares[r].window < start;
      assert InWindow(shares, start) == map[];
    }
  }

  /** With readings in order every operation, a second release and negative usage
      included, keeps the bounds those sums. */
  lemma ActKeepsSummed(a: Account, shares: Shares, record: Record, again: Shares, latest: Instant,
                       i: Id, r: nat, start: Instant, op: Op)
    requires Current(a, shares, latest) && latest <= start && Summed(a, record, again)
    requires Fits(shares, op) && (Ends(op) ==> i !in record) && (op.Stray? ==> r !in again)
    ensures Summed(Act(a, start, op), End(record, i, shares, start, op), EndAgain(again, r, start, op))
  {
    hide Summed, Current, Sum, InWindow, Ledger.Entry, End, EndAgain, Fits;
    var o := Opened(a, start);
    OpenedIsCurrent(a, shares, latest, start);
    OpeningKeepsSummed(a, record, again, start);
    EntryKeepsSummed(o, shares, record, again, i, r, start, op);
    SummedIgnoresValue(Account(o.c, Ledger.Entry(o.b, op)), End(record, i, shares, start, op), EndAgain(again, r, start, op),
                       Act(a, start, op).c.value);
  }

  // ---- what each request has ended ----

  /** The usage a user is billed in the end. */
  function Used(q: Request): int {
    if q.phase.SettlingKey? then q.phase.actual
    else if q.phase.Done? && q.phase.exit.Served? then q.phase.exit.actual
    else 0
  }

  /** The n-th reservation of the request on a counter, if it has ended. A user is reserved
      once, a key for each call to it. */
  function EndedOf(q: Request, c: Counter, n: nat): Option<Ended> {
    match c
    case KeyHour(k) =>
      if n < |q.calls| && q.calls[n].key == k && q.calls[n].ended.Some?
      then Some(Ended(HourStart(q.calls[n].at), HourStart(q.calls[n].ended.value), q.est, q.calls[n].used))
      else None
    case _ =>
      if n == 0 && q.user == c.user && q.ended.Some?
      then Some(Ended(StartOf(c, q.now), StartOf(c, q.ended.value), q.est, Used(q)))
      else None
  }

  /** What the request released a second time. */
  function AgainOn(q: Request, c: Counter): Option<Share> {
    if c.KeyHour? && q.again.Some? && q.again.value.key == c.key
    then Some(Share(HourStart(q.again.value.at), q.est))
    else None
  }

  ghost function Ids(reqs: Table): set<Id> {
    set r, n | r in reqs && 0 <= n <= |reqs[r].calls| :: Id(r, n)
  }

  ghost function RecordOf(reqs: Table, c: Counter): Record {
    map i | i in Ids(reqs) && EndedOf(reqs[i.r], c, i.n).Some? :: EndedOf(reqs[i.r], c, i.n).value
  }

  ghost function AgainOf(reqs: Table, c: Counter): Shares {
    map r | r in reqs && AgainOn(reqs[r], c).Some? :: AgainOn(reqs[r], c).value
  }

  lemma RecordHas(reqs: Table, c: Counter, i: Id)
    ensures i in RecordOf(reqs, c) <==> i.r in reqs && EndedOf(reqs[i.r], c, i.n).Some?
    ensures i in RecordOf(reqs, c) ==> RecordOf(reqs, c)[i] == EndedOf(reqs[i.r], c, i.n).value
  {
    hide HourStart, DayStart, Used;
  }

  // A request that ends nothing, or its n-th reservation.
  lemma RecordPutSame(reqs: Table, r: nat, q: Request, c: Counter)
    requires forall n :: EndedOf(q, c, n) == if r in reqs then EndedOf(reqs[r], c, n) else None
    ensures RecordOf(reqs[r := q], c) == RecordOf(reqs, c)
  {
    hide EndedOf, RecordOf;
    forall i
      ensures i in RecordOf(reqs[r := q], c) <==> i in RecordOf(reqs, c)
      ensures i in RecordOf(reqs, c) ==> RecordOf(reqs[r := q], c)[i] == RecordOf(reqs, c)[i]
    {
      RecordHas(reqs, c, i);
      RecordHas(reqs[r := q], c, i);
    }
  }

  lemma RecordPutOne(reqs: Table, r: nat, q: Request, c: Counter, n: nat, x: Ended)
    requires r in reqs && EndedOf(reqs[r], c, n).None? && EndedOf(q, c, n) == Some(x)
    requires forall m :: m != n ==> EndedOf(q, c, m) == EndedOf(reqs[r], c, m)
    ensures Id(r, n) !in RecordOf(reqs, c) && RecordOf(reqs[r := q], c) == RecordOf(reqs, c)[Id(r, n) := x]
  {
    hide EndedOf, RecordOf;
    RecordHas(reqs, c, Id(r, n));
    var after, expected := RecordOf(reqs[r := q], c), RecordOf(reqs, c)[Id(r, n) := x];
    forall i
      ensures i in after <==> i in expected
      ensures i in after ==> after[i] == expected[i]
    {
      RecordHas(reqs, c, i);
      RecordHas(reqs[r := q], c, i);
    }
  }

  lemma AgainPut(reqs: Table, r: nat, q: Request, c: Counter)
    ensures AgainOf(reqs[r := q], c) ==
            if AgainOn(q, c).Some? then AgainOf(reqs, c)[r := AgainOn(q, c).value] else AgainOf(reqs, c) - {r}
  {
    hide AgainOn;
  }

  // ---- one step of a request ----

  predicate Holding(q: Request) {
    q.phase.Calling? || q.phase.SettlingUser? || q.phase.SettlingKey?
  }

  /** A user's estimate has ended exactly in the phases after it was given back or
      settled; the last call is open while its key is held; the second release is the
      last section after a disconnect. */
  predicate EndOk(q: Request) {
    && (q.ended.Some? <==> q.phase.GoneKey? || q.phase.SettlingKey? || (q.phase.Done? && !q.phase.exit.Rejected?))
    && (Holding(q) ==> q.calls != []
                       && var last := q.calls[|q.calls| - 1];
                          last.key == q.phase.key && last.at == q.keyAt && last.ended.None?)
    && (q.again.Some? ==> q.phase.Done?)
  }

  lemma ReplyEnds(q: Request, o: Outcome)
    requires q.phase.Calling?
    ensures var q' := q.AfterReply(q.phase.key, o);
            && q'.calls == q.calls && q'.ended == q.ended && q'.again == q.again && q'.keyAt == q.keyAt
            && q'.est == q.est && q'.user == q.user && q'.now == q.now
            && !q'.phase.GoneKey? && !q'.phase.SettlingKey? && !q'.phase.Done?
            && (if q.Accepted(o) then q'.phase.SettlingUser? && q'.phase.key == q.phase.key else !Holding(q'))
  {
  }

  lemma UserEndFollows(s: System, e: Event)
    requires Enabled(s, e) && e.OfRequest() && !e.Arrive? && EndOk(s.reqs[e.r])
    ensures var q, q', ue := s.reqs[e.r], NextRequest(s, e), UserEffectOf(s, e);
            && q'.user == q.user && q'.now == q.now && q'.est == q.est
            && (ue.OnUser? ==> ue.user == q.user && Ends(ue.hourOp) == Ends(ue.dayOp))
            && (if ue.OnUser? && Ends(ue.hourOp)
                then q.ended.None? && q'.ended == Some(ue.now) && UsedBy(ue.hourOp) == UsedBy(ue.dayOp) == Used(q')
                     && ue.hourOp.r == ue.dayOp.r == e.r && ue.hourOp.est == ue.dayOp.est == q.est
                else q'.ended == q.ended && (q.ended.Some? ==> Used(q') == Used(q)))
  {
    hide State.ReserveUser, State.ReserveKey, Config.IsWorkingHour, Selection, Chosen, Request.AfterReply;
    if e.Reply? {
      ReplyEnds(s.reqs[e.r].Answered(e.outcome), e.outcome);
    }
  }

  lemma UserEndedFollows(s: System, e: Event, c: Counter, n: nat)
    requires Enabled(s, e) && e.OfRequest() && !e.Arrive? && EndOk(s.reqs[e.r]) && !c.KeyHour?
    ensures var t, q, q' := TouchOf(s, e, c), s.reqs[e.r], NextRequest(s, e);
            if t.Touched? && Ends(t.op)
            then && t.op.r == e.r && EndedOf(q, c, 0).None?
                 && EndedOf(q', c, n) ==
                    if n == 0 then Some(Ended(StartOf(c, q.now), StartOf(c, t.now), t.op.est, UsedBy(t.op))) else EndedOf(q, c, n)
            else EndedOf(q', c, n) == EndedOf(q, c, n)
  {
    hide Enabled, NextRequest, UserEffectOf, KeyEffectOf, EndOk, Used, HourStart, DayStart;
    UserEndFollows(s, e);
  }

  // How a step changes what a request has called.
  lemma CallsFollow(s: System, e: Event)
    requires Enabled(s, e) && e.OfRequest() && !e.Arrive? && EndOk(s.reqs[e.r])
    ensures var q, q', ke := s.reqs[e.r], NextRequest(s, e), KeyEffectOf(s, e);
            && q'.est == q.est
            && (ke.OnKey? && ke.op.Enter? ==> q'.calls == q.calls + [Made(ke.key, ke.now, None, None, 0)])
            && (ke.OnKey? && Ends(ke.op) ==>
                  && Holding(q) && q.phase.key == ke.key && ke.op.r == e.r && ke.op.est == q.est
                  && |q'.calls| == |q.calls|
                  && (forall n :: 0 <= n < |q.calls| - 1 ==> q'.calls[n] == q.calls[n])
                  && q'.calls[|q.calls| - 1].(outcome := None) ==
                     q.calls[|q.calls| - 1].(outcome := None, ended := Some(ke.now), used := UsedBy(ke.op)))
            && (!(ke.OnKey? && (ke.op.Enter? || Ends(ke.op))) ==>
                  && |q'.calls| == |q.calls|
                  && forall n :: 0 <= n < |q.calls| ==> q'.calls[n].(outcome := None) == q.calls[n].(outcome := None))
  {
    hide State.ReserveUser, State.ReserveKey, Config.IsWorkingHour, Selection, Chosen, Request.AfterReply;
    if e.Reply? {
      ReplyEnds(s.reqs[e.r].Answered(e.outcome), e.outcome);
    }
  }

  lemma KeyEndedFollows(s: System, e: Event, k: string, n: nat)
    requires Enabled(s, e) && e.OfRequest() && !e.Arrive? && EndOk(s.reqs[e.r])
    ensures var c, q, q' := KeyHour(k), s.reqs[e.r], NextRequest(s, e);
            var t := TouchOf(s, e, c);
            if t.Touched? && Ends(t.op)
            then && t.op.r == e.r && q.calls != [] && EndedOf(q, c, |q.calls| - 1).None?
                 && EndedOf(q', c, n) ==
                    if n == |q.calls| - 1 then Some(Ended(HourStart(q.keyAt), HourStart(t.now), t.op.est, UsedBy(t.op)))
                    else EndedOf(q, c, n)
            else EndedOf(q', c, n) == EndedOf(q, c, n)
  {
    hide Enabled, NextRequest, UserEffectOf, KeyEffectOf, HourStart, DayStart;
    CallsFollow(s, e);
  }

  lemma AgainFollows(s: System, e: Event, c: Counter)
    requires Enabled(s, e) && e.OfRequest() && !e.Arrive? && EndOk(s.reqs[e.r])
    ensures var t, q, q' := TouchOf(s, e, c), s.reqs[e.r], NextRequest(s, e);
            if t.Touched? && t.op.Stray? then AgainOn(q, c).None? && AgainOn(q', c) == Some(Share(StartOf(c, t.now), t.op.est))
            else AgainOn(q', c) == AgainOn(q, c)
  {
    hide State.ReserveUser, State.ReserveKey, Config.IsWorkingHour, Selection, Chosen, Request.AfterReply, HourStart, DayStart;
    if e.Reply? {
      ReplyEnds(s.reqs[e.r].Answered(e.outcome), e.outcome);
    }
  }

  lemma NextEndOk(s: System, e: Event)
    requires Enabled(s, e) && e.OfRequest() && (e.r in s.reqs ==> EndOk(s.reqs[e.r]))
    ensures EndOk(NextRequest(s, e))
  {
    hide State.ReserveUser, State.ReserveKey, Config.IsWorkingHour, Selection, Chosen, Request.AfterReply;
    if e.Reply? {
      ReplyEnds(s.reqs[e.r].Answered(e.outcome), e.outcome);
    }
  }

  // ---- one step of a counter ----

  // The window of the reservation that a touch ends.
  lemma ShareWindow(reqs: Table, c: Counter, r: nat)
    requires r in SharesOf(reqs, c)
    ensures r in reqs
    ensures SharesOf(reqs, c)[r].window == if c.KeyHour? then HourStart(reqs[r].keyAt) else StartOf(c, reqs[r].now)
  {
    hide HourStart, DayStart;
  }

  lemma OwnRecordFollows(s: System, e: Event, c: Counter, n: nat)
    requires Enabled(s, e) && e.OfRequest() && !e.Arrive? && e.r in s.reqs && EndOk(s.reqs[e.r])
    requires n == if c.KeyHour? && s.reqs[e.r].calls != [] then |s.reqs[e.r].calls| - 1 else 0
    requires TouchOf(s, e, c).Touched? ==> Fits(SharesOf(s.reqs, c), TouchOf(s, e, c).op)
    ensures var t, record := TouchOf(s, e, c), RecordOf(s.reqs, c);
            if t.Touched?
            then && RecordOf(NextRequests(s, e), c) == End(record, Id(e.r, n), SharesOf(s.reqs, c), StartOf(c, t.now), t.op)
                 && (Ends(t.op) ==> Id(e.r, n) !in record)
            else RecordOf(NextRequests(s, e), c) == record
  {
    hide Enabled, NextRequest, TouchOf, SharesOf, RecordOf, EndOk, EndedOf, HourStart, DayStart;
    var t, q' := TouchOf(s, e, c), NextRequest(s, e);
    forall m: nat
      ensures if t.Touched? && Ends(t.op)
              then && t.op.r == e.r && EndedOf(s.reqs[e.r], c, n).None?
                   && EndedOf(q', c, m) ==
                      if m == n then Some(Ended(if c.KeyHour? then HourStart(s.reqs[e.r].keyAt) else StartOf(c, s.reqs[e.r].now),
                                                StartOf(c, t.now), t.op.est, UsedBy(t.op)))
                      else EndedOf(s.reqs[e.r], c, m)
              else EndedOf(q', c, m) == EndedOf(s.reqs[e.r], c, m)
    {
      if c.KeyHour? {
        KeyEndedFollows(s, e, c.key, m);
      } else {
        UserEndedFollows(s, e, c, m);
      }
    }
    if t.Touched? && Ends(t.op) {
      assert EndedOf(q', c, n).Some?;
      ShareWindow(s.reqs, c, e.r);
      RecordPutOne(s.reqs, e.r, q', c, n, Ended(SharesOf(s.reqs, c)[e.r].window, StartOf(c, t.now), t.op.est, UsedBy(t.op)));
    } else {
      RecordPutSame(s.reqs, e.r, q', c);
    }
  }

  lemma OwnAgainFollows(s: System, e: Event, c: Counter)
    requires Enabled(s, e) && e.OfRequest() && !e.Arrive? && e.r in s.reqs && EndOk(s.reqs[e.r])
    ensures var t, again := TouchOf(s, e, c), AgainOf(s.reqs, c);
            if t.Touched?
            then && AgainOf(NextRequests(s, e), c) == EndAgain(again, e.r, StartOf(c, t.now), t.op)
                 && (t.op.Stray? ==> e.r !in again)
            else AgainOf(NextRequests(s, e), c) == again
  {
    hide Enabled, NextRequest, TouchOf, EndOk, AgainOn, HourStart, DayStart;
    AgainPut(s.reqs, e.r, NextRequest(s, e), c);
    AgainFollows(s, e, c);
    var again := AgainOf(s.reqs, c);
    if AgainOn(s.reqs[e.r], c).Some? {
      assert again[e.r := again[e.r]] == again;
    } else {
      assert again - {e.r} == again;
    }
  }

  // An arrival and events of no request end nothing.
  lemma OthersEndNothing(s: System, e: Event, c: Counter)
    requires Enabled(s, e) && (e.Arrive? || !e.OfRequest())
    ensures RecordOf(NextRequests(s, e), c) == RecordOf(s.reqs, c) && AgainOf(NextRequests(s, e), c) == AgainOf(s.reqs, c)
    ensures TouchOf(s, e, c).Touched? ==> TouchOf(s, e, c).op == Open
  {
    hide HourStart, DayStart, RecordOf, AgainOf;
    if e.Arrive? {
      RecordPutSame(s.reqs, e.r, NextRequest(s, e), c);
      AgainPut(s.reqs, e.r, NextRequest(s, e), c);
      NoneReleasedAgain(s.reqs, e.r, c);
    }
  }

  lemma NoneReleasedAgain(reqs: Table, r: nat, c: Counter)
    requires r !in reqs
    ensures AgainOf(reqs, c) - {r} == AgainOf(reqs, c)
  {
  }

  // ---- runs ----

  ghost predicate SummedCounter(s: System, c: Counter) {
    Summed(AccountOf(s, c), RecordOf(s.reqs, c), AgainOf(s.reqs, c))
  }

  ghost predicate AllSummed(s: System) {
    && WindowsCurrent(s)
    && (forall r :: r in s.reqs ==> EndOk(s.reqs[r]))
    && (forall c :: SummedCounter(s, c))
  }

  // What a step enters in the records of a counter.
  lemma RecordsFollow(s: System, e: Event, c: Counter) returns (i: Id, r: nat)
    requires Enabled(s, e) && s.st.Valid() && forall r :: r in s.reqs ==> EndOk(s.reqs[r])
    ensures var t, record, again := TouchOf(s, e, c), RecordOf(s.reqs, c), AgainOf(s.reqs, c);
            var (record', again') := (RecordOf(Step(s, e).reqs, c), AgainOf(Step(s, e).reqs, c));
            if t.Touched?
            then && record' == End(record, i, SharesOf(s.reqs, c), StartOf(c, t.now), t.op) && (Ends(t.op) ==> i !in record)
                 && again' == EndAgain(again, r, StartOf(c, t.now), t.op) && (t.op.Stray? ==> r !in again)
            else record' == record && again' == again
  {
    hide Enabled, State.Valid, TouchOf, SharesOf, RecordOf, AgainOf, EndOk, NextRequests, HourStart, DayStart, Step, AccountOf, Act,
         Move, Forgets, Fits, NextStore;
    StepBooks(s, e);
    CounterFollows(s, e, c);
    i, r := Id(0, 0), 0;
    if e.OfRequest() && !e.Arrive? {
      RequestIsThere(s, e);
      r := e.r;
      i := Id(r, if c.KeyHour? && s.reqs[r].calls != [] then |s.reqs[r].calls| - 1 else 0);
      OwnRecordFollows(s, e, c, i.n);
      OwnAgainFollows(s, e, c);
    } else {
      OthersEndNothing(s, e, c);
    }
  }

  lemma RequestIsThere(s: System, e: Event)
    requires Enabled(s, e) && e.OfRequest() && !e.Arrive?
    ensures e.r in s.reqs
  {
  }

  lemma StepKeepsSummed(s: System, e: Event, c: Counter)
    requires Enabled(s, e) && InOrder(s, e) && AllSummed(s)
    ensures SummedCounter(Step(s, e), c)
  {
    hide Enabled, InOrder, State.Valid, TouchOf, SharesOf, RecordOf, AgainOf, EndOk, AccountOf, Act, Move, Step, Forgets, Summed,
         Current, End, EndAgain, Fits, StartOf, WindowOf;
    assert CurrentCounter(s, c) && SummedCounter(s, c);
    var i, r := RecordsFollow(s, e, c);
    CounterFollows(s, e, c);
    InOrderTouch(s, e, c);
    var t := TouchOf(s, e, c);
    if t.Touched? {
      ActKeepsSummed(AccountOf(s, c), SharesOf(s.reqs, c), RecordOf(s.reqs, c), AgainOf(s.reqs, c), WindowOf(c, s.latest),
                     i, r, StartOf(c, t.now), t.op);
    }
  }

  lemma StepKeepsAllSummed(s: System, e: Event)
    requires Enabled(s, e) && InOrder(s, e) && AllSummed(s)
    ensures AllSummed(Step(s, e))
  {
    hide WindowsCurrent, SummedCounter, EndOk, Enabled, NextStore, NextRequest, Step, InOrder, UserEffectOf, KeyEffectOf;
    StepKeepsWindows(s, e);
    StepBooks(s, e);
    if e.OfRequest() {
      NextEndOk(s, e);
    }
    forall c
      ensures SummedCounter(Step(s, e), c)
    {
      StepKeepsSummed(s, e, c);
    }
  }

  lemma RunKeepsAllSummed(s: System, es: seq<Event>)
    requires RunWith(s, es, (x, e) => InOrder(x, e)) && AllSummed(s)
    ensures Run(s, es) && AllSummed(After(s, es))
  {
    hide Enabled, Step, InOrder, AllSummed;
    forall x, e | Enabled(x, e) && InOrder(x, e) && AllSummed(x)
      ensures AllSummed(Step(x, e))
    {
      StepKeepsAllSummed(x, e);
    }
    RunKeeps(s, es, (x, e) => InOrder(x, e), x => AllSummed(x), (x, e) => true);
  }

  lemma InitialSummed(cfg: Config, users: map<string, User>, keys: map<string, UpstreamKey>, latest: Instant)
    requires ProperKeys(keys)
    ensures AllSummed(Initial(cfg, users, keys, latest))
  {
    hide AccountOf, SharesOf, WindowsCurrent;
    var s := Initial(cfg, users, keys, latest);
    InitialCurrent(cfg, users, keys, latest);
    forall c
      ensures SummedCounter(s, c)
    {
      CounterBegins(cfg, users, keys, latest, c);
      assert RecordOf(s.reqs, c) == map[] && AgainOf(s.reqs, c) == map[];
    }
  }

  /** T, what the window's requests account for, against the counter V. */
  ghost predicate WithinLate(a: Account, shares: Shares, record: Record, again: Shares) {
    a.c.start.Some? ==>
      var w := a.c.start.value;
      && a.c.value - Sum(Over(record, w, Overrun)) <= Sum(InWindow(shares, w))
      && Sum(InWindow(shares, w)) <= a.c.value + Sum(Over(record, w, Refund)) + Sum(InWindow(again, w))
  }

  lemma SoundAndSummed(a: Account, shares: Shares, record: Record, again: Shares, latest: Instant)
    requires Sound(a, shares) && Current(a, shares, latest) && Summed(a, record, again)
    ensures WithinLate(a, shares, record, again)
  {
    hide Sum, Over, InWindow;
  }

  /** Conservation across rollovers, for readings in order: a counter V of a user or a key
      differs from T, the open estimates and settled actuals of the requests that reserved
      in its window, by no more than the sums over the reservations that ended in it, of
      what was taken for another window on one side and, on the other, of what was given
      back for another window, below zero, or a second time. */
  lemma ConservationAcrossWindows(cfg: Config, users: map<string, User>, keys: map<string, UpstreamKey>,
                                  latest: Instant, es: seq<Event>)
    requires ProperKeys(keys) && RunWith(Initial(cfg, users, keys, latest), es, (x, e) => InOrder(x, e))
    ensures Run(Initial(cfg, users, keys, latest), es)
    ensures var s := After(Initial(cfg, users, keys, latest), es);
            forall c :: WithinLate(AccountOf(s, c), SharesOf(s.reqs, c), RecordOf(s.reqs, c), AgainOf(s.reqs, c))
  {
    hide InOrder, State.Valid, Sound, Current, Summed, WithinLate, RecordOf, AgainOf, SharesOf, AccountOf, EndOk, Inv;
    var s0 := Initial(cfg, users, keys, latest);
    InitialSummed(cfg, users, keys, latest);
    RunKeepsAllSummed(s0, es);
    InitialInv(cfg, users, keys, latest);
    RunKeepsInv(s0, es);
    var s := After(s0, es);
    forall c
      ensures WithinLate(AccountOf(s, c), SharesOf(s.reqs, c), RecordOf(s.reqs, c), AgainOf(s.reqs, c))
    {
      CounterIsSound(s, c);
      assert CurrentCounter(s, c) && SummedCounter(s, c);
      SoundAndSummed(AccountOf(s, c), SharesOf(s.reqs, c), RecordOf(s.reqs, c), AgainOf(s.reqs, c), WindowOf(c, s.latest));
    }
  }

  lemma SquaredAndSummed(a: Account, shares: Shares, record: Record, again: Shares, latest: Instant)
    requires Squared(a) && Current(a, shares, latest) && Summed(a, record, again) && a.c.start.Some?
    ensures var w := a.c.start.value;
            a.c.value == Sum(InWindow(shares, w)) + Sum(Over(record, w, Overrun)) - Sum(Over(record, w, Refund)) - Sum(InWindow(again, w))
  {
    hide Sum, Over, InWindow;
  }

  /** And exactly: as long as no section would take it below zero, a counter is what its
      window's requests account for, with what was taken for other windows and less what was
      given back for them, below zero or a second time. */
  lemma ConservationIsExactAcrossWindows(cfg: Config, users: map<string, User>, keys: map<string, UpstreamKey>,
                                         latest: Instant, es: seq<Event>, c: Counter)
    requires ProperKeys(keys)
    requires RunWith(Initial(cfg, users, keys, latest), es, (x, e) => InOrder(x, e) && !ClipsCounter(x, e, c))
    ensures Run(Initial(cfg, users, keys, latest), es)
    ensures var s := After(Initial(cfg, users, keys, latest), es);
            var a := AccountOf(s, c);
            a.c.start.Some? ==>
              var w := a.c.start.value;
              a.c.value == Sum(InWindow(SharesOf(s.reqs, c), w)) + Sum(Over(RecordOf(s.reqs, c), w, Overrun))
                           - Sum(Over(RecordOf(s.reqs, c), w, Refund)) - Sum(InWindow(AgainOf(s.reqs, c), w))
  {
    hide Enabled, Step, InOrder, ClipsCounter, Inv, AllSummed, Sum, Over, InWindow, RecordOf, AgainOf, SharesOf, AccountOf, Squared;
    var s0 := Initial(cfg, users, keys, latest);
    InitialSummed(cfg, users, keys, latest);
    InitialInv(cfg, users, keys, latest);
    CounterBegins(cfg, users, keys, latest, c);
    NewAccountIsSquared();
    forall x, e | Enabled(x, e) && InOrder(x, e) && !ClipsCounter(x, e, c) && AllSummed(x) && Inv(x) && SquaredCounter(x, c)
      ensures AllSummed(Step(x, e)) && Inv(Step(x, e)) && SquaredCounter(Step(x, e), c)
    {
      StepKeepsAllSummed(x, e);
      StepKeepsInv(x, e);
      StepKeepsSquaredExactlyWhen(x, e, c);
    }
    RunKeeps(s0, es, (x, e) => InOrder(x, e) && !ClipsCounter(x, e, c), x => AllSummed(x) && Inv(x) && SquaredCounter(x, c),
             (x, e) => true);
    SummedIsCurrent(After(s0, es), c);
    var s := After(s0, es);
    if AccountOf(s, c).c.start.Some? {
      SquaredAndSummed(AccountOf(s, c), SharesOf(s.reqs, c), RecordOf(s.reqs, c), AgainOf(s.reqs, c), WindowOf(c, s.latest));
    }
  }

  lemma SummedIsCurrent(s: System, c: Counter)
    requires AllSummed(s)
    ensures Current(AccountOf(s, c), SharesOf(s.reqs, c), WindowOf(c, s.latest))
    ensures Summed(AccountOf(s, c), RecordOf(s.reqs, c), AgainOf(s.reqs, c))
  {
    hide State.Valid, Current, Summed, AccountOf, SharesOf, RecordOf, AgainOf, EndOk;
    assert CurrentCounter(s, c) && SummedCounter(s, c);
  }

  // ---- what is spent ----

  /** What the requests of the present window account for stays within the cap and the
      sums of what ended in it overran and gave back. */
  ghost predicate SpentWithin(a: Account, shares: Shares, record: Record, again: Shares, cap: int) {
    a.c.start.Some? ==>
      var w := a.c.start.value;
      Sum(InWindow(shares, w)) <= cap + Sum(Over(record, w, Excess)) + Sum(Over(record, w, Refund)) + Sum(InWindow(again, w))
  }

  lemma SpentAndSummed(a: Account, shares: Shares, record: Record, again: Shares, cap: nat)
    requires SpentOk(a, shares, cap) && Summed(a, record, again)
    ensures SpentWithin(a, shares, record, again, cap + a.b.unchecked)
  {
    hide Sum, Over, InWindow;
  }

  /** The limits hold for what is spent, not only for the counters: with readings in
      order, which reopen no window, the requests of a day spend no more than its limit
      and those sums, and the requests of an hour no more than that and what was reserved
      unchecked. */
  lemma SpentWithinLimits(cfg: Config, users: map<string, User>, keys: map<string, UpstreamKey>, latest: Instant,
                          es: seq<Event>, caps: Caps, c: Counter)
    requires ProperKeys(keys) && Watched(caps, c)
    requires RunWith(Initial(cfg, users, keys, latest), es, (x, e) => InOrder(x, e) && LimitsWithin(x, e, caps))
    ensures Run(Initial(cfg, users, keys, latest), es)
    ensures var s := After(Initial(cfg, users, keys, latest), es);
            && SpentWithin(AccountOf(s, c), SharesOf(s.reqs, c), RecordOf(s.reqs, c), AgainOf(s.reqs, c),
                           CapOf(caps, c) + AccountOf(s, c).b.unchecked)
            && (c.UserDay? ==> AccountOf(s, c).b.unchecked == 0)
  {
    hide Enabled, Step, InOrder, LimitsWithin, SpentWithin, Spent, SummedCounter, RecordOf, AgainOf, SharesOf, AccountOf,
         ReopensWindow, WindowsCurrent, EndOk, InCap, CapOf;
    var s0 := Initial(cfg, users, keys, latest);
    var p := (x, e) => InOrder(x, e) && LimitsWithin(x, e, caps);
    InitialSummed(cfg, users, keys, latest);
    InitialInCap(cfg, users, keys, latest, caps);
    forall x, e | Enabled(x, e) && InOrder(x, e) && LimitsWithin(x, e, caps) && AllSummed(x) && InCap(x, caps)
      ensures !ReopensWindow(x, e, c) && AllSummed(Step(x, e)) && InCap(Step(x, e), caps)
    {
      StepKeepsWindows(x, e);
      StepKeepsAllSummed(x, e);
      StepKeepsCaps(x, e, caps);
    }
    RunKeeps(s0, es, p, x => AllSummed(x) && InCap(x, caps), (x, e) => LimitsWithin(x, e, caps) && !ReopensWindow(x, e, c));
    SpentWithinLimit(cfg, users, keys, latest, es, caps, c);
    SummedAndInCap(After(s0, es), caps, c);
  }

  lemma SummedAndInCap(s: System, caps: Caps, c: Counter)
    requires AllSummed(s) && InCap(s, caps) && Watched(caps, c) && Spent(s, c, CapOf(caps, c))
    ensures SpentWithin(AccountOf(s, c), SharesOf(s.reqs, c), RecordOf(s.reqs, c), AgainOf(s.reqs, c),
                        CapOf(caps, c) + AccountOf(s, c).b.unchecked)
    ensures c.UserDay? ==> AccountOf(s, c).b.unchecked == 0
  {
    hide SpentWithin, SpentOk, Summed, RecordOf, AgainOf, SharesOf, EndOk, WindowsCurrent, State.Valid, WithinCap, CapOf;
    assert SummedCounter(s, c);
    SpentAndSummed(AccountOf(s, c), SharesOf(s.reqs, c), RecordOf(s.reqs, c), AgainOf(s.reqs, c), CapOf(caps, c));
  }

  lemma InitialInCap(cfg: Config, users: map<string, User>, keys: map<string, UpstreamKey>, latest: Instant, caps: Caps)
    requires ProperKeys(keys)
    ensures InCap(Initial(cfg, users, keys, latest), caps)
  {
  }
}

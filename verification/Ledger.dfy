// Bookkeeping for one window counter: what its value should be, who contributed,
// and by how much late refunds and overruns may have pulled it away.
module Ledger {
  import opened Wrappers
  import opened Clock

  /** The books of the counter's current window.
      - parts: what each request that reserved in this window still accounts for
      - credit: refunds of amounts that are not among the parts
      - surplus: overruns of requests that are not among the parts
      - excess: actual use above the estimate, over every settlement in the window
      - unchecked: estimates reserved without the limit being enforced */
  datatype Book = Book(parts: map<nat, nat>, credit: nat, surplus: nat, excess: nat, unchecked: nat)

  const BLANK := Book(map[], 0, 0, 0, 0)

  datatype Account = Account(c: WindowCounter, b: Book)

  const NEW_ACCOUNT := Account(ZERO_COUNTER, BLANK)

  // ---- sums over a map ----

  ghost function Pick<K(!new)>(m: map<K, nat>): K
    requires m != map[]
    ensures Pick(m) in m
  {
    var k :| k in m; k
  }

  ghost function Sum<K(!new)>(m: map<K, nat>): nat
    decreases |m|
  {
    if m == map[] then 0 else
    var k := Pick(m);
    m[k] + Sum(m - {k})
  }

  /** The sum does not depend on the order of summation. */
  lemma {:induction false} SumSplit<K(!new)>(m: map<K, nat>, k: K)
    requires k in m
    ensures Sum(m) == m[k] + Sum(m - {k})
    decreases |m|
  {
    var j := Pick(m);
    if j != k {
      SumSplit(m - {j}, k);
      SumSplit(m - {k}, j);
      assert m - {j} - {k} == m - {k} - {j};
    }
  }

  lemma SumUpdate<K(!new)>(m: map<K, nat>, k: K, v: nat)
    ensures Sum(m[k := v]) == v + Sum(m - {k})
  {
    assert m[k := v] - {k} == m - {k};
    SumSplit(m[k := v], k);
  }

  lemma SumWithout<K(!new)>(m: map<K, nat>, k: K)
    requires k !in m
    ensures m - {k} == m
  {
  }

  lemma SumWith<K(!new)>(m: map<K, nat>, k: K, v: nat)
    requires k !in m
    ensures Sum(m[k := v]) == Sum(m) + v
  {
    SumUpdate(m, k, v);
    SumWithout(m, k);
  }

  // ---- operations on an account ----

  datatype Op =
    | Open
    | Enter(r: nat, est: nat, enforced: bool)
    | Leave(r: nat, est: nat)
    | Bill(r: nat, est: nat, actual: int)
    | Stray(est: nat)

  function Opened(a: Account, start: Instant): Account {
    Account(EnsureWindow(a.c, start), if a.c.start == Some(start) then a.b else BLANK)
  }

  function Delta(op: Op): int {
    match op
    case Open => 0
    case Enter(_, est, _) => est
    case Leave(_, est) => 0 - est
    case Bill(_, est, actual) => actual - est
    case Stray(est) => 0 - est
  }

  function Entry(b: Book, op: Op): Book {
    match op
    case Open => b
    case Enter(r, est, enforced) =>
      b.(parts := b.parts[r := est], unchecked := b.unchecked + if enforced then 0 else est)
    case Leave(r, est) =>
      if r in b.parts then b.(parts := b.parts - {r}) else b.(credit := b.credit + est)
    case Bill(r, est, actual) =>
      var b' := b.(excess := b.excess + Max(0, actual - est));
      if r in b.parts then
        b'.(parts := b.parts[r := Max(0, actual)], credit := b.credit + Max(0, -actual))
      else
        b'.(credit := b.credit + Max(0, est - actual), surplus := b.surplus + Max(0, actual - est))
    case Stray(est) => b.(credit := b.credit + est)
  }

  function Shifted(c: WindowCounter, start: Instant, delta: int): WindowCounter {
    var o := EnsureWindow(c, start);
    o.(value := Max(0, o.value + delta))
  }

  /** One critical section on the counter, in the window that starts at `start`. */
  function Act(a: Account, start: Instant, op: Op): Account {
    Account(Shifted(a.c, start, Delta(op)), Entry(Opened(a, start).b, op))
  }

  // ---- the requests behind an account ----

  // What a request accounts for, and the window its reservation was made in.
  datatype Share = Share(window: Instant, amount: nat)

  type Shares = map<nat, Share>

  function Move(shares: Shares, start: Instant, op: Op): Shares {
    match op
    case Enter(r, est, _) => shares[r := Share(start, est)]
    case Leave(r, _) => shares - {r}
    case Bill(r, _, actual) => if r in shares then shares[r := shares[r].(amount := Max(0, actual))] else shares
    case _ => shares
  }

  predicate Fits(shares: Shares, op: Op) {
    match op
    case Enter(r, _, _) => r !in shares
    case Leave(r, est) => r in shares && shares[r].amount == est
    case Bill(r, est, _) => r in shares && shares[r].amount == est
    case _ => true
  }

  /** The counter differs from the total of its window's parts by no more than the
      refunds and overruns of requests outside the parts. */
  ghost predicate Balanced(a: Account) {
    && 0 <= a.c.value
    && a.c.value - a.b.surplus <= Sum(a.b.parts) <= a.c.value + a.b.credit
  }

  ghost predicate Sound(a: Account, shares: Shares) {
    && Balanced(a)
    && (forall r :: r in a.b.parts ==> r in shares && shares[r].amount == a.b.parts[r])
  }

  lemma ActKeepsSound(a: Account, shares: Shares, start: Instant, op: Op)
    requires Sound(a, shares) && Fits(shares, op)
    ensures Sound(Act(a, start, op), Move(shares, start, op))
  {
    var o := Opened(a, start);
    if op.Enter? || op.Leave? || op.Bill? {
      var parts := o.b.parts;
      if op.r in parts {
        SumSplit(parts, op.r);
      } else {
        SumWithout(parts, op.r);
      }
      SumUpdate(parts, op.r, if op.Enter? then op.est else if op.Bill? then Max(0, op.actual) else 0);
    }
  }

  /** The counter is exactly the total of its window's parts, with the overruns and less
      the refunds of requests outside them. */
  ghost predicate Squared(a: Account) {
    a.c.value == Sum(a.b.parts) + a.b.surplus - a.b.credit
  }

  /** The operation would take the counter below zero. */
  predicate Clipped(a: Account, start: Instant, op: Op) {
    Opened(a, start).c.value + Delta(op) < 0
  }

  /** An operation keeps that equation exactly when the clamp at zero does not cut it. */
  lemma ActKeepsSquaredExactlyWhen(a: Account, shares: Shares, start: Instant, op: Op)
    requires Squared(a) && Sound(a, shares) && Fits(shares, op)
    ensures Squared(Act(a, start, op)) <==> !Clipped(a, start, op)
  {
    var parts := Opened(a, start).b.parts;
    assert Sum<nat>(map[]) == 0;
    if op.Enter? || op.Leave? || op.Bill? {
      if op.r in parts {
        SumSplit(parts, op.r);
      } else {
        SumWithout(parts, op.r);
      }
      SumUpdate(parts, op.r, if op.Enter? then op.est else if op.Bill? then Max(0, op.actual) else 0);
    }
  }

  // ---- shares by window ----

  ghost function InWindow(shares: Shares, start: Instant): map<nat, nat> {
    map r | r in shares && shares[r].window == start :: shares[r].amount
  }

  /** The parts are exactly the shares of the window the counter stands in. */
  ghost predicate PartsOk(a: Account, shares: Shares) {
    a.b.parts == if a.c.start.None? then map[] else InWindow(shares, a.c.start.value)
  }

  /** The operation resets the counter into a window that requests other than its own
      still account for. */
  ghost predicate Reopens(a: Account, shares: Shares, start: Instant, op: Op) {
    a.c.start != Some(start) && InWindow(if op.Leave? then shares - {op.r} else shares, start) != map[]
  }

  // What an operation does to the shares of its window.
  lemma MoveInWindow(shares: Shares, start: Instant, op: Op)
    requires Fits(shares, op)
    ensures var (before, after) := (InWindow(shares, start), InWindow(Move(shares, start, op), start));
            match op
            case Enter(r, est, _) => r !in before && after == before[r := est]
            case Leave(r, _) => after == before - {r} && after == InWindow(shares - {r}, start)
            case Bill(r, _, actual) => after == if r in before then before[r := Max(0, actual)] else before
            case _ => after == before
  {
  }

  lemma ActParts(a: Account, start: Instant, op: Op)
    ensures var (o, r) := (Opened(a, start), Act(a, start, op));
            && r.c.start == Some(start)
            && o.b.parts == (if a.c.start == Some(start) then a.b.parts else map[])
            && match op {
                 case Enter(r', est, _) => r.b.parts == o.b.parts[r' := est]
                 case Leave(r', _) => r.b.parts == o.b.parts - {r'}
                 case Bill(r', _, actual) => r.b.parts == if r' in o.b.parts then o.b.parts[r' := Max(0, actual)] else o.b.parts
                 case _ => r.b.parts == o.b.parts
               }
  {
  }

  /** An operation leaves the parts exact exactly when it does not reopen a window. */
  lemma ActKeepsPartsExactlyWhen(a: Account, shares: Shares, start: Instant, op: Op)
    requires PartsOk(a, shares) && Fits(shares, op)
    ensures PartsOk(Act(a, start, op), Move(shares, start, op)) <==> !Reopens(a, shares, start, op)
  {
    hide Act, Opened, InWindow, Move;
    ActParts(a, start, op);
    MoveInWindow(shares, start, op);
    if a.c.start != Some(start) {
      var none: map<nat, nat> := map[];
      match op
      case Leave(r, _) => assert none - {r} == none;
      case Enter(r, est, _) =>
        assert InWindow(shares, start)[r := est] - {r} == InWindow(shares, start);
        assert none[r := est] - {r} == none;
      case Bill(r, _, _) => assert r in InWindow(shares, start) ==> InWindow(shares, start) != map[];
      case _ =>
    }
  }

  /** The parts are exact, and no share belongs to a later window. */
  ghost predicate Current(a: Account, shares: Shares, latest: Instant) {
    && PartsOk(a, shares)
    && (if a.c.start.None? then shares == map[] else
          a.c.start.value <= latest && forall r :: r in shares ==> shares[r].window <= a.c.start.value)
  }

  // In order, a reset is into a window nobody accounts for.
  lemma InOrderReopensNothing(a: Account, shares: Shares, latest: Instant, start: Instant, op: Op)
    requires Current(a, shares, latest) && latest <= start
    ensures !Reopens(a, shares, start, op)
  {
    if a.c.start != Some(start) {
      assert forall r :: r in shares ==> shares[r].window < start;
      assert InWindow(if op.Leave? then shares - {op.r} else shares, start) == map[];
    }
  }

  lemma ActKeepsCurrent(a: Account, shares: Shares, latest: Instant, start: Instant, op: Op)
    requires Current(a, shares, latest) && Fits(shares, op) && latest <= start
    ensures Current(Act(a, start, op), Move(shares, start, op), start)
  {
    InOrderReopensNothing(a, shares, latest, start, op);
    ActKeepsPartsExactlyWhen(a, shares, start, op);
  }

  lemma CurrentLater(a: Account, shares: Shares, latest: Instant, later: Instant)
    requires Current(a, shares, latest) && latest <= later
    ensures Current(a, shares, later)
  {
  }

  // ---- one window ----

  ghost function Amounts(shares: Shares): map<nat, nat> {
    map r | r in shares :: shares[r].amount
  }

  /** Nothing but window `w` has happened, and the counter is the plain total of what the
      requests account for. */
  ghost predicate Exact(a: Account, shares: Shares, w: Instant) {
    && (if a.c.start.None? then a.c == ZERO_COUNTER else a.c.start == Some(w))
    && a.c.value == Sum(Amounts(shares))
  }

  ghost predicate Clean(op: Op) {
    !op.Stray? && (op.Bill? ==> op.actual >= 0)
  }

  /** The operation takes away what others account for: a second release, or a bill for
      less than nothing. */
  ghost predicate Undercuts(shares: Shares, op: Op) {
    match op
    case Stray(est) => est != 0 && Sum(Amounts(shares)) != 0
    case Bill(r, _, actual) => actual < 0 && Sum(Amounts(shares) - {r}) != 0
    case _ => false
  }

  lemma AmountsOfNothing()
    ensures Amounts(map[]) == map[] && Sum<nat>(map[]) == 0
  {
    assert Amounts(map[]) == map[];
  }

  lemma MoveAmounts(shares: Shares, w: Instant, op: Op)
    requires Fits(shares, op)
    ensures var (before, after) := (Amounts(shares), Amounts(Move(shares, w, op)));
            match op
            case Enter(r, est, _) => r !in before && after == before[r := est]
            case Leave(r, est) => r in before && before[r] == est && after == before - {r}
            case Bill(r, est, actual) => r in before && before[r] == est && after == before[r := Max(0, actual)]
            case _ => after == before
  {
  }

  // The total after an operation.
  lemma MoveTotals(shares: Shares, w: Instant, op: Op)
    requires Fits(shares, op)
    ensures var (before, after) := (Sum(Amounts(shares)), Sum(Amounts(Move(shares, w, op))));
            match op
            case Enter(r, est, _) => after == before + est
            case Leave(r, est) => after == before - est
            case Bill(r, est, actual) =>
              var others := Sum(Amounts(shares) - {r});
              after == others + Max(0, actual) && before == others + est
            case _ => after == before
  {
    hide Sum, Amounts, Move;
    MoveAmounts(shares, w, op);
    match op
    case Enter(r, est, _) => SumWith(Amounts(shares), r, est);
    case Leave(r, _) => SumSplit(Amounts(shares), r);
    case Bill(r, _, actual) =>
      SumSplit(Amounts(shares), r);
      SumUpdate(Amounts(shares), r, Max(0, actual));
    case _ =>
  }

  lemma ActValue(a: Account, start: Instant, op: Op)
    ensures Act(a, start, op).c == WindowCounter(Some(start), Max(0, Opened(a, start).c.value + Delta(op)))
    ensures a.c == ZERO_COUNTER || a.c.start == Some(start) ==> Opened(a, start).c.value == a.c.value
  {
  }

  /** Within its window an operation keeps a counter the plain total of its requests
      exactly when it does not undercut the others; an operation that neither releases
      again nor bills less than nothing never does, and never meets the clamp at zero. */
  lemma ActKeepsExactExactlyWhen(a: Account, shares: Shares, w: Instant, op: Op)
    requires Exact(a, shares, w) && Fits(shares, op)
    ensures if Undercuts(shares, op) then Act(a, w, op).c.value != Sum(Amounts(Move(shares, w, op)))
            else Exact(Act(a, w, op), Move(shares, w, op), w)
    ensures Clean(op) ==> !Undercuts(shares, op) && Opened(a, w).c.value + Delta(op) >= 0
  {
    hide Sum, Amounts, Move, Act, Opened;
    MoveTotals(shares, w, op);
    ActValue(a, w, op);
  }

  // ---- what is spent ----

  /** What may be spent in the window the counter stands in: the cap, the overruns
      settled, the estimates reserved unchecked and what was given back late. */
  function Room(b: Book, cap: int): int {
    cap + b.excess + b.unchecked + b.credit
  }

  ghost predicate SpentOk(a: Account, shares: Shares, cap: int) {
    a.c.start.Some? ==> Sum(InWindow(shares, a.c.start.value)) <= Room(a.b, cap)
  }

  // What an operation adds to the room of a window it resets the counter into.
  function Slack(op: Op): nat {
    match op
    case Open => 0
    case Enter(_, est, enforced) => if enforced then 0 else est
    case Leave(_, est) => est
    case Bill(_, est, actual) => Max(0, actual - est) + Max(0, est - actual)
    case Stray(est) => est
  }

  /** The operation spends past the cap: a reservation for more than the room its window
      has, or a reset into a window whose requests already account for more. */
  ghost predicate Overspends(a: Account, shares: Shares, start: Instant, op: Op, cap: int) {
    if op.Enter? then
      Sum(InWindow(shares, start)) + op.est > Room(Opened(a, start).b, cap) + Slack(op)
    else
      a.c.start != Some(start) && Sum(InWindow(Move(shares, start, op), start)) > cap + Slack(op)
  }

  lemma MoveSpends(shares: Shares, start: Instant, op: Op)
    requires Fits(shares, op)
    ensures var (before, after) := (Sum(InWindow(shares, start)), Sum(InWindow(Move(shares, start, op), start)));
            match op
            case Enter(_, est, _) => after == before + est
            case Leave(_, _) => after <= before
            case Bill(_, est, actual) => after <= before + Max(0, actual - est)
            case _ => after == before
  {
    hide Sum, Move;
    MoveInWindow(shares, start, op);
    var before := InWindow(shares, start);
    match op
    case Enter(r, est, _) => SumWith(before, r, est);
    case Leave(r, _) =>
      if r in before {
        SumSplit(before, r);
      } else {
        SumWithout(before, r);
      }
    case Bill(r, _, actual) =>
      if r in before {
        SumSplit(before, r);
        SumUpdate(before, r, Max(0, actual));
      }
    case _ =>
  }

  lemma ActRoom(a: Account, start: Instant, op: Op, cap: int)
    ensures var (o, r) := (Opened(a, start), Act(a, start, op));
            && r.c.start == Some(start)
            && (a.c.start == Some(start) ==> o.b == a.b)
            && (a.c.start != Some(start) ==> o.b == BLANK && Room(r.b, cap) == cap + Slack(op))
            && Room(r.b, cap) >= Room(o.b, cap) + (if op.Bill? then Max(0, op.actual - op.est) else 0)
            && (op.Enter? ==> Room(r.b, cap) == Room(o.b, cap) + Slack(op))
  {
  }

  /** An operation keeps what is spent within the room exactly when it does not
      overspend. */
  lemma ActKeepsSpentExactlyWhen(a: Account, shares: Shares, start: Instant, op: Op, cap: int)
    requires SpentOk(a, shares, cap) && Fits(shares, op)
    ensures SpentOk(Act(a, start, op), Move(shares, start, op), cap) <==> !Overspends(a, shares, start, op, cap)
  {
    hide Act, Opened, InWindow, Move, Sum, Room, Slack;
    MoveSpends(shares, start, op);
    ActRoom(a, start, op, cap);
  }

  // With exact parts, a checked reservation that reopens nothing fits the room.
  lemma CheckedFitsTheRoom(a: Account, shares: Shares, start: Instant, op: Op, cap: nat)
    requires Sound(a, shares) && PartsOk(a, shares) && SpentOk(a, shares, cap) && Fits(shares, op)
    requires !Reopens(a, shares, start, op)
    requires op.Enter? && op.enforced ==> Opened(a, start).c.value + op.est <= cap
    ensures !Overspends(a, shares, start, op, cap)
  {
    hide InWindow, Move, Sum;
    AmountsOfNothing();
    MoveInWindow(shares, start, op);
    if a.c.start != Some(start) {
      match op
      case Leave(r, _) =>
      case Bill(r, _, _) =>
      case _ =>
    }
  }

  // ---- limits ----

  ghost predicate WithinCap(a: Account, cap: nat) {
    a.c.value <= cap + a.b.excess + a.b.unchecked
  }

  /** A counter never passes its cap by more than the overruns settled and the
      estimates reserved unchecked in the window it stands in. */
  lemma ActKeepsCap(a: Account, start: Instant, op: Op, cap: nat)
    requires WithinCap(a, cap)
    requires op.Enter? && op.enforced ==> Opened(a, start).c.value + op.est <= cap
    ensures WithinCap(Act(a, start, op), cap)
  {
  }
}

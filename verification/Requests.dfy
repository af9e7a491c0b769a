// The control flow of one relayed request, from internal/api/relay.go: where it
// stands, what it holds, and how an upstream reply moves it on.
module Requests {
  import opened Wrappers
  import opened Clock
  import opened StoreModel
  import opened Router

  // An upstream call fails in transit, is cut off by the client, or answers with
  // a status; `actual` is the usage reported by a successful answer.
  datatype Outcome = NetworkError | ClientGone | Response(status: int, actual: int)

  // Why no upstream answer was accepted: no key to try, or the attempts failed,
  // the last error status being the one passed through.
  datatype Failure = NoRoute(reason: RouteError) | UpstreamFailed(last: Option<int>)

  datatype Exit =
    | Rejected(error: StoreError)
    | Failed(failure: Failure)
    | Disconnected
    | Served(key: string, actual: int)

  // One constructor per place the request waits at for its next store section.
  datatype Phase =
    | Arrived
    | Selecting
    | Reserving(key: string, limit: int)
    | Calling(key: string)
    | GoneUser(key: string)
    | GoneKey(key: string)
    | Failing(failure: Failure)
    | SettlingUser(key: string, actual: int)
    | SettlingKey(key: string, actual: int)
    | Done(exit: Exit)

  // How often the request reserved and gave back.
  datatype Tally = Tally(userTaken: nat, userGiven: nat, keyTaken: nat, keyGiven: nat)

  const ATTEMPTS := 2

  // An upstream call: the reading its key was reserved at, the answer, and the reading
  // the reservation was given back or settled at, with what was used in the end.
  datatype Made = Made(key: string, at: Instant, outcome: Option<Outcome>, ended: Option<Instant>, used: int)

  // A key released once more after a disconnect.
  datatype Again = Again(key: string, at: Instant)

  // `now` is read once on arrival; `keyAt` is the reading of the last successful
  // key reservation, `ended` the one at which the user's estimate was given back or
  // settled. `calls` are the upstream calls so far, `again` is the second release.
  datatype Request = Request(user: string, model: string, est: nat, injected: bool, now: Instant,
                             phase: Phase, attempt: nat, exclude: set<string>, stripped: bool,
                             last: Option<int>, keyAt: Instant, tally: Tally,
                             ended: Option<Instant>, calls: seq<Made>, again: Option<Again>)
  {
    function Calls(key: string, now: Instant): Request {
      this.(calls := calls + [Made(key, now, None, None, 0)])
    }

    function Freed(now: Instant, used: int): Request {
      if calls == [] then this
      else this.(calls := calls[..|calls| - 1] + [calls[|calls| - 1].(ended := Some(now), used := used)])
    }

    function Answered(o: Outcome): Request {
      if calls == [] then this
      else this.(calls := calls[..|calls| - 1] + [calls[|calls| - 1].(outcome := Some(o))])
    }

    function Again(): Request {
      this.(attempt := attempt + 1,
            phase := if attempt + 1 < ATTEMPTS then Selecting else Failing(UpstreamFailed(last)))
    }

    function Exclude(key: string): Request {
      this.(exclude := exclude + {key})
    }

    predicate Accepted(o: Outcome) {
      o.Response? && 200 <= o.status < 300
    }

    predicate RetriesStripped(o: Outcome) {
      o.Response? && o.status == 400 && injected && !stripped
    }

    function AfterReply(key: string, o: Outcome): Request {
      match o
      case NetworkError => Exclude(key).Again()
      case ClientGone => this.(phase := GoneUser(key))
      case Response(status, actual) =>
        if RetriesStripped(o) then this.(stripped := true).Again()
        else if Accepted(o) then this.(phase := SettlingUser(key, actual))
        else
          var q := this.(last := Some(status));
          if status == 429 || status >= 500 then q.Exclude(key).Again()
          else q.(phase := Failing(UpstreamFailed(q.last)))
    }

    // ---- what it holds ----

    predicate HoldsUser() {
      phase.Selecting? || phase.Reserving? || phase.Calling? || phase.GoneUser? || phase.Failing? || phase.SettlingUser?
    }

    predicate HoldsKey(k: string) {
      (phase.Calling? || phase.SettlingUser? || phase.SettlingKey?) && phase.key == k
    }

    /** What the request accounts for on its user's counters. */
    function UserShare(): Option<nat> {
      if HoldsUser() then Some(est)
      else if phase.SettlingKey? then Some(Max(0, phase.actual))
      else if phase.Done? && phase.exit.Served? then Some(Max(0, phase.exit.actual))
      else None
    }

    /** What the request accounts for on the counter of key `k`. */
    function KeyShare(k: string): Option<nat> {
      if HoldsKey(k) then Some(est)
      else if phase.Done? && phase.exit.Served? && phase.exit.key == k then Some(Max(0, phase.exit.actual))
      else None
    }

    // ---- exactly-once ----

    /** The user reservation is given back once, each key reservation once, and at
        most ATTEMPTS keys are ever held; only a client disconnect gives a key back
        once more than it was taken. */
    ghost predicate TallyOk() {
      && (if phase.Arrived? || (phase.Done? && phase.exit.Rejected?) then tally == Tally(0, 0, 0, 0)
          else tally.userTaken == 1 && tally.userGiven == (if HoldsUser() then 0 else 1))
      && tally.keyTaken + (if phase.Done? && phase.exit.Disconnected? then 1 else 0)
         == tally.keyGiven + (if phase.Calling? || phase.SettlingUser? || phase.SettlingKey? then 1 else 0)
      && tally.keyTaken <= ATTEMPTS
      && (phase.Arrived? ==> attempt == 0)
      && (phase.Selecting? || phase.Reserving? ==> tally.keyTaken == attempt < ATTEMPTS)
      && (phase.Calling? ==> tally.keyTaken == attempt + 1 <= ATTEMPTS)
    }

    /** An upper bound on the request's remaining store sections while the key ids
        stay within `ids`. */
    ghost function Rank(ids: set<string>): nat {
      var left := if attempt < ATTEMPTS then ATTEMPTS - attempt else 0;
      var untried := |ids - exclude|;
      match phase
      case Arrived => 4 * left + 2 * untried + 6
      case Selecting => 4 * left + 2 * untried + 5
      case Reserving(_, _) => 4 * left + 2 * untried + 4
      case Calling(_) => 4 * left + 2 * untried + 3
      case GoneUser(_) => 2
      case SettlingUser(_, _) => 2
      case GoneKey(_) => 1
      case SettlingKey(_, _) => 1
      case Failing(_) => 1
      case Done(_) => 0
    }
  }
}

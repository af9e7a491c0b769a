# A verified model of CodeAgentRouter

CodeAgentRouter relays OpenAI-style requests over a shared pool of upstream keys. Each request
reserves an estimate on its user's hour and day counters, picks a key, reserves the estimate on the
key's hour counter, calls the upstream at most twice, and settles with the real usage or gives the
reservation back. The store lock covers single operations only, so requests interleave between them.
Around this sit a sliding-window rate limiter, a monthly report with a cache, and a parser for a small
YAML subset. The project models these parts and proves what they keep.

| files | what they hold |
|---|---|
| `Wrappers`, `Text`, `Clock`, `Sequences` | option types, string order and trimming, windows, permutations |
| `StoreModel`, `Persistence`, `Store` | the counters as values, memory against the state file, the store object |
| `Quota`, `Router` | working hours and limits, key selection |
| `Requests`, `Ledger`, `Protocol`, `ProtocolLedger`, `ProtocolRuns`, `ProtocolCounters`, `ProtocolSpend`, `ProtocolWindows`, `ProtocolLate`, `ProtocolCalls`, `ProtocolProgress`, `ProtocolRaces` | any number of requests interleaving their store sections, and books kept beside the counters |
| `Relay`, `RelayProxy`, `RelayOutcome` | one run of the retry loop alone, against a direct description of its choices and effect, and its calls and exit read off the upstream's answers |
| `RateLimit` | the limiter with its slices compacted in place, against the full log |
| `Tokenize` | the token estimates |
| `ReportModel`, `Report`, `ReportColumns`, `ReportCache`, `ReportService` | the aggregation, the report, its columns entry by entry, its cache under interleaving, the service and logger objects |
| `YamlScan`, `YamlModel`, `YamlPlain`, `YamlInline`, `YamlBlocks`, `YamlText`, `YamlRoundTrip`, `YamlTree` | the scanners, the parser, documents as written, which of them read back as meant, and a canonical document for every tree |

`dafny verify dfyconfig.toml` checks everything.

## How the source is represented

- Time is an integer of nanoseconds in the process-local zone with a fixed offset; Go's zero time is
  `None`. Each section takes its clock reading as a parameter, as the source reads the clock inside it;
  `ReserveUser` alone uses the reading its caller took earlier, so that reading may be older than what
  the store has already seen. No theorem about runs assumes ordered readings unless it says so.
- The upstream is an arbitrary outcome per call: a network error, a client that went away, or a status
  with the usage reported. The report log is a map from day to lines, a line being an entry or something
  that does not parse. The state file is an optional snapshot.
- Map iteration order is arbitrary: the methods that list keys pick them nondeterministically.
- Strings are sequences of characters that stand for bytes. White space and letter case are ASCII.
- An open YAML node is joined to its parent when its frame is popped, instead of being shared by reference;
  the path from the root to it is proved to be where the node ends up.

## Where the code differs from what it says

- `internal/store/state.go:656-657` says a selected key is reserved without racing other requests. The
  selection and the reservation are two sections (`internal/api/relay.go:214`, `:233`), and another
  request can take the room in between (`RoomIsTakenInBetween`). Within an hour, in every run that
  undercuts the key nowhere, the reservation is refused exactly when the key is gone or disabled or what was
  taken in between and the estimate exceed the room at selection (`RaceIsLostExactlyWhen`).
- After a client disconnect the key is released twice (`internal/api/relay.go:240` and `:242`). The
  second release is invisible exactly when the key has nothing else in flight and its counter holds
  nothing (or the estimate is zero): `SecondReleaseHarmlessExactlyWhen` for a run alone,
  `KeyExactWithinOneHourExactlyWhen` for all interleavings. A key's in-flight count is the number of its
  holders in every run, at any clock readings, exactly when no second release and no deletion comes while
  it is held (`FlightExactExactlyWhen`). `DisconnectStrandsTheOther` is a run after which a key reads as
  idle and unused while a call on it is under way. Users' counters are not touched.
- The working-hour flag is taken on admission and used when the key is reserved, which may be in a later
  hour: a request admitted just before working hours can pass a key's limit inside them
  (`StraddlingRequestPassesTheKeyCap`). The limit holds throughout a run exactly when no such request
  takes more than is left (`WorkingHourKeyCapExactlyWhen`).
- An hour window can be partly working, as with zones half an hour apart (`HalfHourZoneSplitsAWindow`).
  It never is exactly when the zones differ by whole hours or all hours of the day are alike
  (`WorkingHourIsPerWindowExactlyWhen`).
- `ReserveUser` uses a reading its caller took earlier. A reading from the hour before zeroes the hour
  counter, and the hour can then take more than its limit (`StaleReadingSpendsPastTheLimit`). A counter
  stands for its present window throughout a run exactly when no section resets it into a window that
  requests still account for (`PartsAreThePresentWindowExactlyWhen`), and what is spent stays within the
  limit exactly when no reservation takes more than the window has left and no reset is into a window that
  has already taken more (`SpentWithinLimitExactlyWhen`). Under limits in force the first condition implies
  the second (`SpentWithinLimit`), and readings in order imply both (`SpentWithinLimits`).
- A first answer of 429 or 5xx is lost, and the run ends as a routing failure, exactly when no other key
  has room (`FirstErrorIsMaskedExactlyWhen`; `FirstErrorIsMasked` is such a run). Otherwise
  there is a second call, and a failing status of that one is passed through whether or not there are more
  keys.
- Negative usage reports are accepted and the counters clamped at zero, so a bill for less than nothing
  takes away what other requests account for (`NegativeUsageUndercutsTheOther`). Within one hour a counter
  is the sum of what its requests account for throughout a run exactly when nothing undercuts it: no such
  bill, second release or deletion while others account for anything (`ExactWithinOneHourExactlyWhen`).
- `int64(maxTokens) * int64(n)` can wrap: the exact condition is `CompletionIsCappedExactlyWhen`, and an
  overflowing request can reserve a negative amount.
- The limiter's clock reading is taken before its lock. Without any order among the readings its guarantee
  holds exactly for limit one: at any other limit a reading one instant late lets one request too many
  into a window (`DisorderIsSafeExactlyWhen`).
- Report keys are joined with NUL bytes, and a row names its user and model back exactly when neither
  contains one (`SplitInvertsJoinExactlyWhen`).
- The report's month parameter is not checked (`internal/api/admin.go:379-383`). A year as the parameter
  matches every file of the year, its report is cached, and no later write ever drops it
  (`StaleExactlyForTheYear`; `YearReportGoesStale` is such a run).
- In YAML, `[]` is a list of one empty scalar and `{}` an error (`EmptyInlines`). A tab anywhere behind
  the indentation is refused, though the message speaks of indentation. What is nested under the first
  key of a list element joins the element and not the key; documents read back as meant exactly when
  no element starts that way (`RoundTripExactlyWhen`).

## Model

| member | source | states |
|---|---|---|
| Clock.HourDeterminesDay | internal/store/state.go:677-685 | a window start is the start of its own window, and all instants of an hour share their day |
| Clock.ReadsAgree | internal/store/state.go:687-700 | the routing read of a counter equals the resetting read exactly when an unopened counter holds nothing |
| Clock.WindowLengths | internal/store/state.go:677-685 | an hour is 3600 seconds and a day 24 hours, in nanoseconds |
| Text.TrimIsExact | internal/config/yaml.go:56 | trimming takes away exactly the white space at both ends |
| StoreModel.ResetKeepsOrder | internal/store/state.go:536-543 | a lazy reset keeps the hour counter at most the day counter, because a new day always brings a new hour |
| StoreModel.SectionKeepsValid | internal/store/state.go:568-654 | every section keeps hour <= day, non-negative counters and aligned windows, whatever its clock reading |
| StoreModel.ReachableStatesAreValid | internal/store/state.go:530-700 | in every reachable state 0 <= hour <= day for each user, and the routing read of each key equals the resetting one |
| StoreModel.SectionsSeeOnlyTheHour | internal/store/state.go:677-693 | a section's effect depends on its clock reading only through the hour |
| StoreModel.DeletionLeavesTheOthers | internal/store/state.go:316-340 | deleting a user leaves exactly the other users with what they spent and the keys of other owners with what was counted on them |
| StoreModel.RecordsAreWritten | internal/store/state.go:481-507 | writing or deleting a record touches that record, and what was counted on a deleted key, and nothing else |
| Persistence.AgreeingStatesReadTheSame | internal/store/state.go:536-557 | a memory that is its file up to resets into later windows answers every later read as the file does |
| Persistence.TouchUserKeepsSound | internal/store/state.go:530-543 | a reset that is not marked dirty keeps file and memory in agreement |
| Persistence.TouchKeyKeepsSound | internal/store/state.go:545-557 | the same for a key's counter |
| StoreClass.Store.constructor | internal/store/state.go:77-131 | a store starts clean with the records and counters of its file, whatever the file holds, and with nothing in flight; it is sound exactly when the file's counters are and no window in it lies ahead of the clock |
| StoreClass.Store.CleanStoreMatchesFile | internal/store/state.go:133-183 | a store that is not dirty and its file give the same records and counter reads from now on |
| StoreClass.Store.Flush | internal/store/state.go:133-159 | a flush writes the records and counters, without the in-flight counts, when dirty, clears the flag only on success and always drops the timer; dirty implies an armed timer unless the last flush failed |
| StoreClass.Store.ReserveUser | internal/store/state.go:568-589 | reserves on both counters or refuses with the first limit passed, leaving memory untouched, with a reading that may be stale |
| StoreClass.Store.ReleaseUser | internal/store/state.go:591-599 | takes the estimate off both counters of the present windows, clamped at zero |
| StoreClass.Store.SettleUser | internal/store/state.go:603-612 | moves both counters by actual minus estimate, clamped at zero |
| StoreClass.Store.ReserveKey | internal/store/state.go:614-630 | reserves on the key's hour and its in-flight count, or refuses, writing only the reset |
| StoreClass.Store.ReleaseKey | internal/store/state.go:632-642 | takes the estimate off the key's hour, clamped, and lands one request if any is in flight |
| StoreClass.Store.SettleKey | internal/store/state.go:644-654 | moves the key's hour by actual minus estimate, clamped, and lands one request |
| StoreClass.Store.SelectKey | internal/store/state.go:658-675 | selects as the routing rules say among all keys in whatever order the map is listed |
| StoreClass.Store.DeleteUser | internal/store/state.go:316-340 | forgets the user, its counters, its keys and what the keys counted |
| StoreClass.Store.DeleteUpstreamKey | internal/store/state.go:496-507 | forgets the key, its counter and in-flight count |
| Quota.CheckWorkingHour | internal/quota/quota.go:35-43 | the loop answers whether some configured range holds the local hour |
| Quota.WorkingHoursAreRanges | internal/quota/quota.go:35-43 | an instant is in working hours exactly when on some day of the configured zone it lies at or after the start of a range and before its end |
| Quota.WorkingHourIsPerWindowExactlyWhen | internal/quota/quota.go:35-43 | the rule is constant over every hour window exactly when the zones differ by whole hours or all hours of the day are alike |
| Quota.HalfHourZoneSplitsAWindow | internal/quota/quota.go:35-43 | an example with zones half an hour apart |
| Quota.LimitsArePositive | internal/quota/quota.go:53-65 | a validated configuration never switches a limit off: a user's own positive limit counts, else the default of the same window |
| Router.SelectionIsUnique | internal/router/router.go:22-70 | for distinct ids at most one answer meets the description, so no listing order can matter |
| Router.SelectionExists | internal/router/router.go:22-70 | every set of keys and query has an answer |
| Router.SelectionIsDocumented | internal/router/router.go:22-104 | the description of an answer holds exactly when the routing rules do, put in the records' own fields: enabled, not excluded, serving the model, below its own limit or the default; a key of another user only if no such key is the user's; least by usage, then in-flight count, then id |
| Router.RouteQueryReads | internal/store/state.go:658-675 | the usage a selection reads is the key's count of this hour, nothing for another hour, and its concurrency the key's in-flight count |
| Text.NormalizeTwice | internal/router/router.go:31-39 | normalising a model name again, as selection does, changes nothing |
| Text.NormalizeIgnoresCase | internal/router/router.go:72-82 | two names are the same exactly when, without the space around them, they are the same letters in either case |
| Text.StrLessAtFirstDifference | internal/router/router.go:91-104 | texts compare at the first position they differ, and a beginning comes before the whole |
| Router.CheckServes | internal/router/router.go:72-82 | a key without models serves all, any other the models it names up to case and surrounding space |
| Router.Select | internal/router/router.go:22-70 | the loops answer as the routing rules say: own keys before the pool, the least of its tier, exhaustion exactly when only limits stand in the way, no key exactly when there is no candidate |
| Router.SelectAnyOrder | internal/router/router.go:31-70 | two listings of the same keys select the same |
| Router.Best | internal/router/router.go:91-104 | sorting in place permutes the list and its first key is least by usage, in-flight count and id |
| Ledger.SumSplit | internal/store/state.go:568-612 | the sum of what requests account for does not depend on the order of summation |
| Ledger.ActKeepsSound | internal/store/state.go:568-654 | a section on a counter keeps its value within the late refunds and overruns of what its window's requests account for |
| Ledger.ActKeepsSquaredExactlyWhen | internal/store/state.go:568-654 | a section keeps the counter exactly the total of its parts, plus overruns and less refunds of other windows, exactly when it is not clamped at zero |
| Ledger.ActKeepsPartsExactlyWhen | internal/store/state.go:687-693 | a section leaves the parts of a counter exactly the shares of the window it stands in exactly when it does not reset the counter into a window that requests still account for |
| Ledger.ActKeepsCurrent | internal/store/state.go:687-693 | with readings in order a section never does, so the parts of a counter stay exactly the shares of its window |
| Ledger.ActKeepsSpentExactlyWhen | internal/store/state.go:568-654 | a section keeps what the window's requests account for within cap, overruns, unchecked estimates and late refunds exactly when it is no reservation for more than is left and no reset into a window that has taken more |
| Ledger.ActKeepsExactExactlyWhen | internal/store/state.go:568-654 | within one window a section keeps the counter the total of what its requests account for exactly when it does not take away what others account for, and otherwise breaks it; one that neither releases again nor bills below zero never does, nor meets the clamp at zero |
| Ledger.ActKeepsCap | internal/store/state.go:568-654 | a checked reservation cannot lift a counter above its cap plus overruns and unchecked estimates |
| ProtocolLedger.CountersFollow | internal/store/state.go:568-654 | an event moves the counters of every user and key by exactly the effect it claims, and no others |
| ProtocolLedger.StepKeepsInv | internal/api/relay.go:158-306 | each section of any request keeps the books, the in-flight counts and the give-back tallies |
| ProtocolLedger.StepKeepsTally | internal/api/relay.go:213-301 | each step of a request keeps its count of reservations taken and given back |
| ProtocolRuns.Conservation | internal/store/state.go:568-654 | in every run, across rollovers, deletions and any clock readings, V - surplus <= T <= V + credit for each counter of users and keys, and the in-flight count lies within the unaccounted landings of the number of holders |
| ProtocolRuns.GivenBackOnce | internal/api/relay.go:213-301 | a finished request gave its user reservation back exactly once and each key as often as it took it, once more after a disconnect |
| ProtocolRuns.CapSafety | internal/store/state.go:568-589 | in every run the day counter exceeds its cap by no more than the overruns settled that day, the hour counters also by estimates reserved with the limit off |
| ProtocolRuns.WorkingHourUserCap | internal/store/state.go:568-589 | in working hours a user's hour counter stays within cap plus overruns, whatever runs in between |
| ProtocolRuns.WorkingHourKeyCapExactlyWhen | internal/store/state.go:614-630 | in working hours a key's counter stays within cap plus overruns throughout a run exactly when no request admitted off hours takes the key for more than is left |
| ProtocolRuns.StepKeepsKeyCapExactlyWhen | internal/store/state.go:614-630 | the same for one step, for any state within the cap |
| ProtocolRuns.WorkingHourKeyCap | internal/store/state.go:614-630 | in particular when no request admitted off hours takes the key in a working hour |
| ProtocolRuns.StraddlingRequestPassesTheKeyCap | internal/api/relay.go:200-236 | a four-step run in which a request admitted before working hours passes a key's limit in them |
| ProtocolCounters.CounterFollows | internal/store/state.go:568-654 | every event moves each counter of a user or a key, and the shares behind it, by one operation in one window, forgets it, or leaves it alone |
| ProtocolSpend.StepKeepsPartsExactlyWhen | internal/store/state.go:687-693 | one step of the protocol keeps the parts of a counter those of its present window exactly when it reopens no window, whatever its reading |
| ProtocolSpend.PartsAreThePresentWindowExactlyWhen | internal/store/state.go:687-693 | in every run the T of Conservation is throughout the open estimates and settled actuals of the counter's present window exactly when no section reopens a window |
| ProtocolSpend.ConservationIsExactExactlyWhen | internal/store/state.go:568-654 | in every run, at any readings, V = T + surplus - credit throughout, for each counter, exactly when no section would take it below zero |
| ProtocolSpend.StepKeepsSpentExactlyWhen | internal/store/state.go:568-630 | one step keeps what is spent in a counter's window within its cap and the accumulated bounds exactly when it does not overspend |
| ProtocolSpend.SpentWithinLimitExactlyWhen | internal/store/state.go:568-630 | in every run, at any clock readings, that holds throughout exactly when no reservation takes more than is left and no reset is into a window that has taken more, for the hour and day of a user and the hour of a key |
| ProtocolSpend.SpentWithinLimit | internal/store/state.go:568-630 | in particular under limits in force when no window is reopened |
| ProtocolWindows.PartsAreThePresentWindow | internal/store/state.go:687-693 | with readings in order no window is reopened, so the T of Conservation is that of the present window |
| ProtocolWindows.StepKeepsExactExactlyWhen | internal/store/state.go:568-654 | one step within the hour keeps a counter the sum of open estimates and settled actuals exactly when it does not undercut it, and otherwise leaves it different |
| ProtocolWindows.ExactWithinOneHourExactlyWhen | internal/store/state.go:568-654 | for every interleaving within one hour, with disconnects, negative usage and deletions: a counter of a user or a key is that sum throughout exactly when nothing undercuts it |
| ProtocolWindows.ExactWithinOneHour | internal/store/state.go:568-654 | in particular, without negative usage and deletions, for every user whatever disconnects and every key that no disconnect releases again, and no open estimate exceeds such a counter |
| ProtocolWindows.StepKeepsFlightExactlyWhen | internal/store/state.go:614-654 | one step keeps a key's in-flight count the number of its holders exactly when it is no second release and no deletion of a key that is held |
| ProtocolWindows.FlightExactExactlyWhen | internal/store/state.go:614-654 | the same throughout every run, at any clock readings |
| ProtocolWindows.KeyExactWithinOneHourExactlyWhen | internal/store/state.go:614-654 | within one hour a key's counter is that sum and its in-flight count the number of open reservations, throughout a run, exactly when nothing undercuts it and nobody holds it at a second release or deletion |
| ProtocolWindows.KeyExactWithinOneHour | internal/store/state.go:614-654 | in particular, without negative usage and deletions, for every key that no disconnect releases again, whatever happens to others |
| ProtocolWindows.RefusedExactlyWhen | internal/store/state.go:614-630 | a reservation is refused for room exactly when the estimate does not fit beside what the key's requests account for |
| ProtocolWindows.RaceIsLostExactlyWhen | internal/api/relay.go:213-237 | within one hour, in any run that undercuts the key nowhere, a request that has just selected it is refused after whatever others do exactly when the key is gone or disabled or what they took and the estimate exceed the room at selection |
| ProtocolLate.ActKeepsSummed | internal/store/state.go:568-654 | with readings in order every section keeps the bounds in the books sums over ended reservations and second releases |
| ProtocolLate.ConservationAcrossWindows | internal/store/state.go:568-654 | with readings in order, V - (sum of max(0, actual - est)) <= T <= V + (sum of max(0, est - actual)) + (estimates released a second time) for each counter of users and keys, the sums over the reservations made in an earlier window and ended in this one, a release counting as actual 0; usage below zero of the window's own is added to the right |
| ProtocolLate.ConservationIsExactAcrossWindows | internal/store/state.go:568-654 | with readings in order and no clamping, V is exactly T plus the overruns and less the refunds and second releases, as those sums |
| ProtocolLate.SpentWithinLimits | internal/store/state.go:568-630 | with readings in order the requests of a day account for no more than its limit, the overruns of those that ended in it and those sums; the same for an hour of a user or a key plus what was reserved unchecked |
| ProtocolRaces.StaleReadingSpendsPastTheLimit | internal/store/state.go:576-577 | a run under valid limits in which an old reading lets an hour take 12 under a limit of 10 |
| ProtocolRaces.StaleRunReopensAndOverspends | internal/store/state.go:576-577 | that run fails the condition of both exact statements |
| ProtocolRaces.NegativeUsageUndercutsTheOther | internal/api/relay.go:326-327 | a run in which a reply with negative usage leaves a user at zero while another of its requests is under way |
| ProtocolRaces.RoomIsTakenInBetween | internal/api/relay.go:213-237 | a run in which another request takes the room between selection and reservation |
| ProtocolRaces.DisconnectStrandsTheOther | internal/api/relay.go:238-247 | a run in which a disconnect leaves the key of another request under way at zero in flight and zero used |
| ProtocolWindows.SecondReleaseKeepsTotalsExactlyWhen | internal/api/relay.go:240-242 | after a disconnect the second release keeps a key's plain totals exactly when nobody holds the key and there is nothing to take away |
| ProtocolProgress.OwnRankDescends | internal/api/relay.go:213-274 | each section of a request lowers its bound on attempts left and keys untried, in spite of the attempt given back after a refused reservation |
| ProtocolProgress.EveryRequestTerminates | internal/api/relay.go:213-301 | in every interleaving a request takes at most 2n + 14 sections for n key ids |
| ProtocolProgress.NeverStuck | internal/api/relay.go:213-301 | an unfinished request always has an enabled section |
| RelayModule.CheckAndReserve | internal/quota/quota.go:45-51 | admits or refuses with the user's limits and the working-hour rule, as AdmissionIsDecided and AdmissionIsCounted spell out |
| RelayModule.AdmissionIsDecided | internal/quota/quota.go:45-65 | for valid configurations: an unknown or disabled user is refused first, then exactly an estimate that does not fit the day's own or default limit, then in working hours exactly one that does not fit the hour's |
| RelayModule.AdmissionIsCounted | internal/store/state.go:568-589 | an admission raises what was spent today and this hour by the estimate, a refusal changes nothing, and no other user and no key is touched |
| RelayModule.Release | internal/quota/quota.go:67-72 | gives the user's share back and the key's when a key is named |
| RelayModule.Settle | internal/quota/quota.go:74-79 | settles the user's and the key's share |
| RelayModule.ChoiceRefines | internal/api/relay.go:213-237 | what selecting with an exclusion set finds is the direct choice: the least own key with room, or else the least such pool key |
| RelayModule.FailureRefines | internal/api/relay.go:213-228 | selecting fails only when no key has room, and exhaustion is reported exactly when some candidate is at its limit |
| RelayModule.DirectChoiceIsUnique | internal/router/router.go:91-104 | there is at most one direct choice |
| RelayModule.SameQuerySameAnswer | internal/store/state.go:658-675 | states that read alike at an instant route alike |
| RelayModule.SecondReleaseHarmlessExactlyWhen | internal/api/relay.go:240-242 | the second release changes nothing exactly when the key has no other request in flight and nothing counted, or a zero estimate |
| RelayModule.RefundRestores | internal/api/relay.go:213-228 | admission, key sections that cancel and a refund leave every read as it was |
| RelayModule.ChargeMovesUser | internal/quota/quota.go:74-79 | admission and settlement together raise the user's counters by the actual usage |
| RelayModule.ChargeMovesKey | internal/quota/quota.go:74-79 | reservation and settlement together raise the key's counter by the actual usage and leave its in-flight count |
| RelayProxy.Relay.Acquire | internal/api/relay.go:213-237 | the select, reserve, exclude loop takes exactly the direct choice, or fails exactly when there is none |
| RelayProxy.Relay.React | internal/api/relay.go:238-274 | after a reply the loop's variables stand where the protocol's request does, and the key is given back unless the reply is accepted |
| RelayProxy.Relay.Proxy | internal/api/relay.go:158-306 | for every sequence of upstream outcomes: calls go to direct choices, the exit follows from them as RunIsAsAnswered says, and a failed run restores all reads, a served one moves the user and one key by the actual usage |
| RelayOutcome.RunIsAsAnswered | internal/api/relay.go:213-289 | from the answers alone: a first call is made exactly when some key has room, a second exactly when the first was no answer, 429, 5xx or a 400 that strips and another key (after stripping, any) has room; the run is served exactly when its last answer is 200 to 299, cut off exactly when the client left, without route exactly when the next call found no key, and else passes through the status of the last answer that is not the stripped 400, a bare failure exactly when there is none |
| RelayProxy.RepeatsOnlyStripped | internal/api/relay.go:213-274 | at most two calls are made, and they go to one key exactly when the first was answered 400 on an injected stream |
| ProtocolCalls.CallsOnceUnlessStripped | internal/api/relay.go:213-274 | in every interleaving a request makes at most two calls, never reserves a key it excluded, and calls a key again only after that key answered 400 on an injected stream |
| RelayProxy.FailureRestoresExactlyWhen | internal/api/relay.go:238-247 | an unsuccessful run restores everything exactly when it was no disconnect or the key had nothing else to lose |
| RelayProxy.FirstErrorIsMaskedExactlyWhen | internal/api/relay.go:261-289 | after a first 429 or 5xx the run ends as a routing failure exactly when no other key has room |
| RelayProxy.FirstErrorIsMasked | internal/api/relay.go:261-289 | with one key that answers 429 the run ends as if there were no key |
| RateLimit.KeptRefinesLog | internal/ratelimit/ratelimit.go:26-48 | for readings in order the compacted hits are sorted, at most limit, and equal the full log cut off at the window |
| RateLimit.ServeTracks | internal/ratelimit/ratelimit.go:30-48 | a request is granted exactly when fewer than limit granted hits lie in its window |
| RateLimit.WindowSafety | internal/ratelimit/ratelimit.go:26-48 | no interval (a, a + window] holds more than limit granted requests |
| RateLimit.RetryIsExact | internal/ratelimit/ratelimit.go:42-47 | after a denial with delay r a request is denied before r and granted at r |
| RateLimit.DisorderIsSafeExactlyWhen | internal/ratelimit/ratelimit.go:26-48 | for readings in any order every window holds at most limit granted requests exactly when the limit is one |
| RateLimit.Limiter.Allow | internal/ratelimit/ratelimit.go:26-48 | the stored slice, the decision and the delay are those of the specification, and other users' slices stay |
| RateLimit.Compact | internal/ratelimit/ratelimit.go:32-37 | compaction in place keeps the hits after the cutoff, in order |
| Tokenize.EstimateText | internal/tokenize/tokenize.go:16-26 | the loop computes the estimate |
| Tokenize.EstimateCountsCharacters | internal/tokenize/tokenize.go:16-26 | the estimate is the wide characters plus a quarter of the others rounded up |
| Tokenize.WideCountsPositions | internal/tokenize/tokenize.go:16-26 | the wide count is the number of positions with a wide character |
| Tokenize.SplittingCostsRounding | internal/tokenize/tokenize.go:36-55 | estimating k texts one by one is at least the estimate of their concatenation and at most 3k/4 above |
| Tokenize.EstimatePrompt | internal/tokenize/tokenize.go:74-94 | a string costs its estimate, a list the sum over its positions of the estimate of each string and nothing for others, anything else nothing |
| Tokenize.EstimateChatPrompt | internal/tokenize/tokenize.go:36-55 | each message adds its overhead and its texts |
| Tokenize.ChatCostsByMessage | internal/tokenize/tokenize.go:36-55 | a chat costs the sum over its messages of 4 and what the content costs |
| Tokenize.ChatCountsMessagesAndTexts | internal/tokenize/tokenize.go:36-55 | a chat costs four tokens a message plus its texts one by one |
| Tokenize.CompletionIsCappedExactlyWhen | internal/tokenize/tokenize.go:58-70 | the estimate is the capped product exactly when the product fits 64 bits or wraps past the cap, and then lies in 1 to 16384 |
| Tokenize.CompletionDefaults | internal/tokenize/tokenize.go:58-70 | short of overflow the estimate is max_tokens, or 4096, times n, or 1, and at most 16384 |
| Tokenize.OverflowReservesNegative | internal/tokenize/tokenize.go:58-70 | an overflowing request has a negative estimate |
| Tokenize.ReservationIsPositive | internal/tokenize/tokenize.go:97-117 | a chat or completion reservation is positive when the product fits |
| ReportModel.SplitInvertsJoinExactlyWhen | internal/report/report.go:194-199 | a row's key splits back into user, model and day exactly when user and model hold no NUL |
| ReportModel.SeparatorsCollide | internal/report/report.go:254 | with NULs inside, two users share a row |
| ReportModel.RowIsDirect | internal/report/report.go:255-273 | a row exists exactly for the keys of counted entries and holds the direct total of its entries |
| ReportModel.RowsSumToEntries | internal/report/report.go:212-221 | the sum over the rows is the direct total of all counted entries |
| ReportModel.TallyPermutes | internal/report/report.go:233-276 | permuting the entries leaves all rows |
| ReportBuild.ReportConserves | internal/report/report.go:173-223 | each counted entry is in exactly one row, the rows stand in strictly increasing key order, and the summary is the direct total |
| ReportBuild.ReportIgnoresLineOrder | internal/report/report.go:233-276 | permuting lines within the files leaves the report |
| ReportBuild.ReportIgnoresFileOrder | internal/report/report.go:179-185 | reading the files in another order leaves the report |
| ReportBuild.IncreasingIsUnique | internal/report/report.go:187-191 | sorting the map's keys gives one result in whatever order the map is listed |
| ReportBuild.AggregateFile | internal/report/report.go:233-276 | the loop over a file's lines adds exactly its counted entries to the rows |
| ReportBuild.BuildReport | internal/report/report.go:173-223 | the loops compute the report whose columns ReportColumnsAreSums describes |
| ReportColumns.ReportColumnsAreSums | internal/report/report.go:187-276 | in the summary and in each row: requests counts the entries behind it, prompt, completion and total tokens and the latency are their sums, errors counts statuses from 400 and error texts, and the greatest latency is that of some entry or zero |
| ReportColumns.BehindHas | internal/report/report.go:254-259 | the entries behind a row are those with its key, and behind the summary all |
| ReportColumns.CountedExactlyWhen | internal/report/report.go:174-254 | an entry is counted exactly when it stands on a line of a file of the month and is of no other month than the file |
| ReportColumns.RowsNameTheirEntries | internal/report/report.go:194-201 | a row names the user, model and day of each entry behind it that holds no NUL |
| ReportColumns.SameRowExactlyWhen | internal/report/report.go:254 | entries without NUL share a row exactly when user, model and day agree |
| ReportCache.KeptExactlyWhen | internal/report/report.go:250-253 | a stamped entry counts in a day's file exactly when it is of the file's month |
| ReportCache.MatchesMonthOrYear | internal/report/report.go:174-175 | the file pattern takes a day for its month, for its year, and for nothing else |
| ReportCache.AnswersAreCoherent | internal/report/report.go:51-69 | over every interleaving of appends, invalidations and queries, a month's answer is the rebuilt report or lacks exactly the one entry whose invalidation is pending |
| ReportCache.StaleExactlyForTheYear | internal/report/report.go:153-171 | a cached report outlives a completed write and is stale exactly when its parameter is the entry's year |
| ReportCache.YearReportGoesStale | internal/report/report.go:153-171 | a run from an empty cache after which the report of 2026 lacks an entry of that year |
| ReportService.Service.Monthly | internal/report/report.go:159-171 | answers from the cache or builds and caches |
| ReportService.Logger.Write | internal/report/report.go:51-69 | an entry of any time goes to the file of its day, or of today when the time is too short, and that month's report is dropped; for a stamped entry this is an append followed by its invalidation |
| YamlScan.GlueInvertsSplit | internal/config/yaml.go:197-226 | the parts of a split joined by the separator are the text |
| YamlScan.SplitIsExact | internal/config/yaml.go:197-226 | the separators cut at are exactly those outside quotes and at depth zero |
| YamlScan.SplitTopLevel | internal/config/yaml.go:197-226 | the loop computes the split |
| YamlScan.CutIsFirst | internal/config/yaml.go:170-195 | the colon a pair is cut at is the first outside quotes and at depth zero |
| YamlScan.SplitKeyValue | internal/config/yaml.go:170-195 | the loop computes the pair |
| YamlScan.CommentIsFirst | internal/config/yaml.go:228-247 | a comment starts at the first unquoted hash at the line's start or after a blank |
| YamlScan.StripComment | internal/config/yaml.go:228-247 | the loop computes the line without its comment |
| YamlPlain.CommentOfPlainLine | internal/config/yaml.go:228-247 | a line without quotes loses exactly what begins with its first hash at the start or behind a space or tab |
| YamlPlain.NoCommentInQuotes | internal/config/yaml.go:228-247 | between quotes of either kind no comment starts |
| YamlPlain.PlainTextIsCut | internal/config/yaml.go:197-226 | without quotes and brackets every separator cuts |
| YamlPlain.EnclosedTextIsNotCut | internal/config/yaml.go:197-226 | between quotes or brackets of either kind none does |
| YamlPlain.PairIsCutAtFirstColon | internal/config/yaml.go:170-195 | a plain key ends at the first colon, whatever follows, and a text without one is no pair |
| YamlModel.ParseScalarText | internal/config/yaml.go:125-140 | inline parsing terminates on every string and is the recursive description |
| YamlPlain.QuotedScalar | internal/config/yaml.go:136-138 | quotes of either kind come off any text and nothing else changes |
| YamlPlain.PlainScalar | internal/config/yaml.go:125-140 | a text that starts with no quote and no bracket is itself, trimmed |
| YamlModel.ParseInlineMap | internal/config/yaml.go:142-156 | the loop fills the map part by part and stops at the first bad one |
| YamlModel.ParseInlineList | internal/config/yaml.go:158-168 | the loop fills the list part by part |
| YamlModel.EmptyInlines | internal/config/yaml.go:142-168 | an empty inline map is an error and an empty inline list has one empty scalar |
| YamlModel.FeedKeepsOk | internal/config/yaml.go:43-109 | after any lines indents strictly increase from the root's -1, and each frame's node can hold the one above |
| YamlModel.StackIsAPath | internal/config/yaml.go:43-109 | each open node lies in the tree where the slots of the frames lead |
| YamlModel.ParsedRootIsMap | internal/config/yaml.go:43-109 | whatever parses is a map at the top |
| YamlModel.ErrorIsTheFirst | internal/config/yaml.go:43-109 | a parse error names the first line in trouble and what is wrong with it |
| YamlPlain.FlawOfLine | internal/config/yaml.go:47-109 | which flaw a line has, exactly: a tab, a dash under no list, a bare dash, no pair, a pair under no map, in this order, or a bad inline entry |
| YamlModel.LinesAreTheText | internal/config/yaml.go:47 | the lines joined by line breaks are the text, and none holds one |
| YamlModel.ParsedLinesAreWellFormed | internal/config/yaml.go:47-92 | in whatever parses each line is blank, or has no tab behind its indentation and is a non-empty item or a pair |
| YamlModel.BlankLinesAreInvisible | internal/config/yaml.go:47-51 | blank lines and comments anywhere change nothing but later line numbers |
| YamlModel.ParseYAML | internal/config/yaml.go:43-109 | the loop over the lines computes the parse, with the line of the first error |
| YamlInline.InlineRoundTrip | internal/config/yaml.go:125-168 | every written inline value, nested to any depth, parses to what it means |
| YamlBlocks.BlockYields | internal/config/yaml.go:43-109 | the lines of a block at some indent turn the open node into exactly what the reading function says, errors included |
| YamlText.LineAdds | internal/config/yaml.go:47-55 | an indented written line is read with its indent and content |
| YamlText.ParseReads | internal/config/yaml.go:43-109 | parsing the text of any document is reading the document |
| YamlRoundTrip.RoundTripExactlyWhen | internal/config/yaml.go:43-123 | a document of maps with distinct keys parses to what it means exactly when no list element starts with an entry that has something under it |
| YamlRoundTrip.RoundTrip | internal/config/yaml.go:43-123 | for such documents the parse is the meaning even with repeated keys, the last one counting |
| YamlRoundTrip.NestingUnderADashIsLost | internal/config/yaml.go:111-123 | an example of a nested first entry: its child lands beside it |
| YamlTree.InlineMeansTree | internal/config/yaml.go:125-168 | every tree of non-empty maps and lists with plain keys and quotable texts has an inline form that means it |
| YamlTree.EveryTreeRoundTrips | internal/config/yaml.go:43-168 | every such tree with a map at the top, written canonically, parses back to itself |

## Left out

- HTTP handling, headers, authentication, SSE forwarding and the upstream client: an upstream call is an arbitrary outcome.
- Encryption, password hashing, sessions, access keys, random ids and the admin and user handlers: they would add only easy members. User and key records are put and deleted as a whole.
- JSON and CSV encoding, directories and file system errors other than a failed state flush. A report that cannot be built for an I/O error is not modelled.
- A report is built from one snapshot of the log. The service's lock covers the building and the invalidation, so an entry appended meanwhile is invalidated afterwards.
- Glob characters and path separators in the month parameter: the month is matched literally.
- 64-bit overflow of the counters; only the completion estimate's product is modelled with wrap-around.
- Zones with changing offsets: an hour and a day have a fixed length in local time.
- White space and letter case beyond ASCII.
- Floating-point averages and rounding in the report, and the minimum latency it keeps but never shows: a row carries the latency sum and count instead.
- The table that says which characters are wide: it is a parameter of the estimates.
- The library's sorting algorithm: sorts are by insertion, and their results are proved to be the only possible ones.
- The debounce delay: a timer is armed or not.
- YAML trees are built by values joined on popping; aliasing of nodes between the stack and the tree is replaced by StackIsAPath.
- Written YAML plain text keeps to characters that open no quote or bracket, so that an unquoted apostrophe in a value, which the parser reads in a way that depends on the rest of the line, is outside the round trip; so are keys with such characters, and texts that hold both kinds of quote, a tab or a line break, which the subset cannot express.
- GivenBackOnce: says nothing about panics between two sections, which the source recovers from without giving anything back.
- Conservation: gives the two bounds as accumulated in the books; as sums over the requests ConservationAcrossWindows gives them, for readings in order.
- ConservationIsExactAcrossWindows: leaves out runs with clamping, in which ConservationAcrossWindows gives bounds.
- ConservationAcrossWindows: leaves out deletions and readings out of order, which Conservation covers with its bounds.
- Proxy: describes a run with no other request and within one hour; runs with others are those of Protocol.

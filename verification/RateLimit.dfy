// The sliding-window limiter of internal/ratelimit/ratelimit.go.
module RateLimit {
  import opened Wrappers
  import opened Clock

  // ---- what one request does to a user's hits ----

  /** The hits strictly after the cutoff, in order. */
  function Recent(hits: seq<Instant>, cutoff: Instant): seq<Instant> {
    if hits == [] then [] else
    var n := |hits| - 1;
    Recent(hits[..n], cutoff) + if hits[n] > cutoff then [hits[n]] else []
  }

  datatype Answer = Answer(hits: seq<Instant>, ok: bool, retry: int)

  datatype Rule = Rule(limit: int, window: int) {
    // What config.validate and main establish.
    predicate Valid() {
      limit > 0 && window > 0
    }

    function Serve(hits: seq<Instant>, now: Instant): Answer
      requires Valid()
    {
      var kept := Recent(hits, now - window);
      if |kept| < limit then Answer(kept + [now], true, 0)
      else Answer(kept, false, Max(0, window - (now - kept[0])))
    }
  }

  // ---- a user's whole history ----

  function Kept(rule: Rule, times: seq<Instant>): seq<Instant>
    requires rule.Valid()
  {
    if times == [] then [] else
    var n := |times| - 1;
    rule.Serve(Kept(rule, times[..n]), times[n]).hits
  }

  function Granted(rule: Rule, times: seq<Instant>, now: Instant): bool
    requires rule.Valid()
  {
    rule.Serve(Kept(rule, times), now).ok
  }

  /** Every request let through so far: the full log a limiter without compaction
      would keep. */
  function Allowed(rule: Rule, times: seq<Instant>): seq<Instant>
    requires rule.Valid()
  {
    if times == [] then [] else
    var n := |times| - 1;
    Allowed(rule, times[..n]) + if Granted(rule, times[..n], times[n]) then [times[n]] else []
  }

  // Each element is at least every earlier one.
  ghost predicate Ordered(s: seq<Instant>) {
    s == [] || (Ordered(s[..|s| - 1]) && AtMost(s[..|s| - 1], s[|s| - 1]))
  }

  ghost predicate AtMost(s: seq<Instant>, t: Instant) {
    forall x :: x in s ==> x <= t
  }

  lemma OrderedSnoc(s: seq<Instant>, t: Instant)
    ensures Ordered(s + [t]) <==> Ordered(s) && AtMost(s, t)
  {
    assert (s + [t])[..|s|] == s;
  }

  lemma {:induction false} HeadIsLeast(s: seq<Instant>)
    requires Ordered(s) && s != []
    ensures forall x :: x in s ==> s[0] <= x
  {
    if |s| > 1 {
      HeadIsLeast(s[..|s| - 1]);
      assert s[0] in s[..|s| - 1];
      assert s == s[..|s| - 1] + [s[|s| - 1]];
    }
  }

  // How many of the hits lie in (after, upTo].
  function Count(hits: seq<Instant>, after: Instant, upTo: Instant): nat {
    if hits == [] then 0 else
    var n := |hits| - 1;
    Count(hits[..n], after, upTo) + if after < hits[n] <= upTo then 1 else 0
  }

  // ---- filters ----

  lemma {:induction false} RecentMembers(hits: seq<Instant>, cutoff: Instant)
    ensures forall t :: t in Recent(hits, cutoff) <==> t in hits && t > cutoff
    ensures Ordered(hits) ==> Ordered(Recent(hits, cutoff))
    ensures |Recent(hits, cutoff)| <= |hits|
  {
    if hits != [] {
      var n := |hits| - 1;
      var r := Recent(hits[..n], cutoff);
      RecentMembers(hits[..n], cutoff);
      assert hits == hits[..n] + [hits[n]];
      OrderedSnoc(r, hits[n]);
      assert r + [] == r;
    }
  }

  lemma {:induction false} RecentOfRecent(hits: seq<Instant>, early: Instant, late: Instant)
    requires early <= late
    ensures Recent(Recent(hits, early), late) == Recent(hits, late)
  {
    if hits != [] {
      var n := |hits| - 1;
      RecentOfRecent(hits[..n], early, late);
      if hits[n] > early {
        RecentAppend(Recent(hits[..n], early), hits[n], late);
      } else {
        assert Recent(hits[..n], early) + [] == Recent(hits[..n], early);
      }
    }
  }

  lemma RecentAppend(hits: seq<Instant>, t: Instant, cutoff: Instant)
    ensures Recent(hits + [t], cutoff) == Recent(hits, cutoff) + if t > cutoff then [t] else []
  {
    assert (hits + [t])[..|hits|] == hits;
  }

  lemma {:induction false} RecentKeepsAll(hits: seq<Instant>, cutoff: Instant)
    requires forall t :: t in hits ==> t > cutoff
    ensures Recent(hits, cutoff) == hits
  {
    if hits != [] {
      var n := |hits| - 1;
      assert hits[n] in hits && hits == hits[..n] + [hits[n]];
      assert forall t :: t in hits[..n] ==> t in hits;
      RecentKeepsAll(hits[..n], cutoff);
    }
  }

  lemma {:induction false} RecentDropsHead(hits: seq<Instant>, cutoff: Instant)
    requires hits != [] && hits[0] <= cutoff
    ensures |Recent(hits, cutoff)| < |hits|
  {
    var n := |hits| - 1;
    if n > 0 {
      RecentDropsHead(hits[..n], cutoff);
    }
  }

  lemma {:induction false} CountWithinRecent(hits: seq<Instant>, after: Instant, upTo: Instant, cutoff: Instant)
    requires cutoff <= after
    ensures Count(hits, after, upTo) <= |Recent(hits, cutoff)|
  {
    if hits != [] {
      CountWithinRecent(hits[..|hits| - 1], after, upTo, cutoff);
    }
  }

  lemma CountAppend(hits: seq<Instant>, t: Instant, after: Instant, upTo: Instant)
    ensures Count(hits + [t], after, upTo) == Count(hits, after, upTo) + if after < t <= upTo then 1 else 0
  {
    assert (hits + [t])[..|hits|] == hits;
  }

  // ---- refinement and safety ----

  /** The compacted slice is the full log cut off at the latest request's window. */
  ghost predicate Tracks(rule: Rule, kept: seq<Instant>, log: seq<Instant>, latest: Instant) {
    && Ordered(log) && AtMost(log, latest)
    && kept == Recent(log, latest - rule.window)
    && |kept| <= rule.limit
  }

  function Logged(log: seq<Instant>, ok: bool, now: Instant): seq<Instant> {
    if ok then log + [now] else log
  }

  /** A request is granted exactly when fewer than `limit` granted requests lie in the
      window ending with it, and the slice goes on tracking the log. */
  lemma ServeTracks(rule: Rule, kept: seq<Instant>, log: seq<Instant>, latest: Instant, now: Instant)
    requires rule.Valid() && Tracks(rule, kept, log, latest) && latest <= now
    ensures var a := rule.Serve(kept, now);
            && (a.ok <==> |Recent(log, now - rule.window)| < rule.limit)
            && Tracks(rule, a.hits, Logged(log, a.ok, now), now)
  {
    hide Recent, Ordered;
    RecentOfRecent(log, latest - rule.window, now - rule.window);
    RecentMembers(kept, now - rule.window);
    RecentAppend(log, now, now - rule.window);
    OrderedSnoc(log, now);
  }

  lemma ServeIsSafe(rule: Rule, kept: seq<Instant>, log: seq<Instant>, latest: Instant, now: Instant, after: Instant)
    requires rule.Valid() && Tracks(rule, kept, log, latest) && latest <= now
    requires Count(log, after, after + rule.window) <= rule.limit
    ensures Count(Logged(log, rule.Serve(kept, now).ok, now), after, after + rule.window) <= rule.limit
  {
    ServeTracks(rule, kept, log, latest, now);
    CountAppend(log, now, after, after + rule.window);
    if after < now <= after + rule.window {
      CountWithinRecent(log, after, after + rule.window, now - rule.window);
    }
  }

  // A full slice denies until its oldest hit leaves the window, and grants then.
  lemma FullSliceWaitsForItsHead(rule: Rule, hits: seq<Instant>, later: Instant)
    requires rule.Valid() && Ordered(hits) && |hits| == rule.limit
    ensures later < hits[0] + rule.window ==> !rule.Serve(hits, later).ok
    ensures later == hits[0] + rule.window ==> rule.Serve(hits, later).ok
  {
    hide Recent, Ordered;
    if later < hits[0] + rule.window {
      HeadIsLeast(hits);
      RecentKeepsAll(hits, later - rule.window);
    } else if later == hits[0] + rule.window {
      RecentDropsHead(hits, later - rule.window);
    }
  }

  lemma RetryOfTracked(rule: Rule, kept: seq<Instant>, log: seq<Instant>, latest: Instant, now: Instant, later: Instant)
    requires rule.Valid() && Tracks(rule, kept, log, latest) && latest <= now <= later && !rule.Serve(kept, now).ok
    ensures var a := rule.Serve(kept, now);
            && 0 < a.retry <= rule.window
            && (later < now + a.retry ==> !rule.Serve(a.hits, later).ok)
            && (later == now + a.retry ==> rule.Serve(a.hits, later).ok)
  {
    var hits := rule.Serve(kept, now).hits;
    ServeTracks(rule, kept, log, latest, now);
    RecentMembers(log, now - rule.window);
    assert hits[0] in hits && now - rule.window < hits[0] <= now;
    FullSliceWaitsForItsHead(rule, hits, later);
  }

  // ---- whole histories ----

  lemma HistorySnoc(rule: Rule, times: seq<Instant>, now: Instant)
    requires rule.Valid()
    ensures Allowed(rule, times + [now]) == Logged(Allowed(rule, times), Granted(rule, times, now), now)
    ensures Kept(rule, times + [now]) == rule.Serve(Kept(rule, times), now).hits
  {
    assert (times + [now])[..|times|] == times;
    assert Allowed(rule, times) + [] == Allowed(rule, times);
  }

  function Latest(times: seq<Instant>, otherwise: Instant): Instant {
    if times == [] then otherwise else times[|times| - 1]
  }

  lemma OrderedUnsnoc(times: seq<Instant>)
    requires Ordered(times) && times != []
    ensures var (before, now) := (times[..|times| - 1], times[|times| - 1]);
            Ordered(before) && Latest(before, now) <= now && times == before + [now]
  {
    var before := times[..|times| - 1];
    assert before != [] ==> before[|before| - 1] in before;
  }

  /** Forgetting old hits loses no decision: after any ordered history the slice is
      the full log cut off at the window. */
  lemma {:induction false} KeptRefinesLog(rule: Rule, times: seq<Instant>, latest: Instant)
    requires rule.Valid() && Ordered(times)
    requires latest == Latest(times, latest)
    ensures Tracks(rule, Kept(rule, times), Allowed(rule, times), latest)
  {
    if times != [] {
      var before, now := times[..|times| - 1], times[|times| - 1];
      var earlier := Latest(before, now);
      OrderedUnsnoc(times);
      KeptRefinesLog(rule, before, earlier);
      ServeTracks(rule, Kept(rule, before), Allowed(rule, before), earlier, now);
      HistorySnoc(rule, before, now);
    }
  }

  /** No interval of one window's length holds more than `limit` granted requests. */
  lemma {:induction false} WindowSafety(rule: Rule, times: seq<Instant>, after: Instant)
    requires rule.Valid() && Ordered(times)
    ensures Count(Allowed(rule, times), after, after + rule.window) <= rule.limit
  {
    if times != [] {
      var before, now := times[..|times| - 1], times[|times| - 1];
      var earlier := Latest(before, now);
      OrderedUnsnoc(times);
      WindowSafety(rule, before, after);
      KeptRefinesLog(rule, before, earlier);
      ServeIsSafe(rule, Kept(rule, before), Allowed(rule, before), earlier, now, after);
      HistorySnoc(rule, before, now);
    }
  }

  /** After a denial that names the delay `retry`, and with no other request between,
      a request is denied before that delay and granted at it. */
  lemma RetryIsExact(rule: Rule, times: seq<Instant>, now: Instant, later: Instant)
    requires rule.Valid() && Ordered(times + [now]) && now <= later
    requires !Granted(rule, times, now)
    ensures var retry := rule.Serve(Kept(rule, times), now).retry;
            && 0 < retry <= rule.window
            && (later < now + retry ==> !Granted(rule, times + [now], later))
            && (later == now + retry ==> Granted(rule, times + [now], later))
  {
    OrderedSnoc(times, now);
    var latest := Latest(times, now);
    assert times != [] ==> latest in times;
    KeptRefinesLog(rule, times, latest);
    RetryOfTracked(rule, Kept(rule, times), Allowed(rule, times), latest, now, later);
    HistorySnoc(rule, times, now);
  }

  // ---- readings out of order ----

  function Zeros(n: nat): seq<Instant> {
    if n == 0 then [] else Zeros(n - 1) + [0]
  }

  lemma {:induction false} ZerosAreKept(n: nat, cutoff: Instant)
    requires cutoff < 0
    ensures |Zeros(n)| == n && Recent(Zeros(n), cutoff) == Zeros(n)
  {
    if n > 0 {
      ZerosAreKept(n - 1, cutoff);
      RecentAppend(Zeros(n - 1), 0, cutoff);
    }
  }

  lemma {:induction false} ZerosAreDropped(n: nat)
    ensures Recent(Zeros(n), 0) == []
  {
    if n > 0 {
      ZerosAreDropped(n - 1);
      RecentAppend(Zeros(n - 1), 0, 0);
    }
  }

  lemma {:induction false} ZerosCount(n: nat, upTo: Instant)
    requires upTo >= 0
    ensures Count(Zeros(n), -1, upTo) == n
  {
    if n > 0 {
      ZerosCount(n - 1, upTo);
      CountAppend(Zeros(n - 1), 0, -1, upTo);
    }
  }

  // Every request was granted and none is forgotten.
  ghost predicate AllKept(rule: Rule, times: seq<Instant>)
    requires rule.Valid()
  {
    Allowed(rule, times) == times && Kept(rule, times) == times
  }

  lemma GrantGrows(rule: Rule, times: seq<Instant>, now: Instant)
    requires rule.Valid() && rule.Serve(times, now) == Answer(times + [now], true, 0)
    requires AllKept(rule, times)
    ensures AllKept(rule, times + [now])
  {
    hide Allowed, Kept, Rule.Serve;
    HistorySnoc(rule, times, now);
  }

  lemma NothingYet(rule: Rule)
    requires rule.Valid()
    ensures AllKept(rule, [])
  {
  }

  lemma ZeroIsServed(rule: Rule, n: nat)
    requires rule.Valid() && n < rule.limit
    ensures rule.Serve(Zeros(n), 0) == Answer(Zeros(n) + [0], true, 0)
  {
    hide Recent;
    ZerosAreKept(n, 0 - rule.window);
  }

  // Up to the limit, requests at one instant are all granted.
  lemma {:induction false} ZerosAreGranted(rule: Rule, n: nat)
    requires rule.Valid() && n <= rule.limit
    ensures AllKept(rule, Zeros(n))
  {
    hide AllKept, Rule.Serve;
    if n == 0 {
      NothingYet(rule);
    } else {
      ZerosAreGranted(rule, n - 1);
      ZeroIsServed(rule, n - 1);
      GrantGrows(rule, Zeros(n - 1), 0);
    }
  }

  /** A full window at 0, a request just outside it, and one that was read a moment
      before that: the log that the three leave. */
  function OneMomentLate(rule: Rule): seq<Instant>
    requires rule.Valid()
  {
    Zeros(rule.limit) + [rule.window] + [rule.window - 1]
  }

  lemma OneMomentLateIsGranted(rule: Rule)
    requires rule.Valid() && rule.limit >= 2
    ensures Allowed(rule, OneMomentLate(rule)) == OneMomentLate(rule)
    ensures Count(OneMomentLate(rule), -1, rule.window - 1) == rule.limit + 1
  {
    hide Recent, Allowed, Kept, Count, Zeros;
    var full, w := Zeros(rule.limit), rule.window;
    ZerosAreGranted(rule, rule.limit);
    HistorySnoc(rule, full, w);
    ZerosAreDropped(rule.limit);
    assert rule.Serve(full, w) == Answer([w], true, 0);
    HistorySnoc(rule, full + [w], w - 1);
    RecentKeepsAll([w], w - 1 - w);
    assert rule.Serve([w], w - 1).ok;
    ZerosCount(rule.limit, w - 1);
    CountAppend(full, w, -1, w - 1);
    CountAppend(full + [w], w - 1, -1, w - 1);
  }

  // With limit one the slice is the last granted request.
  ghost predicate KeepsLast(kept: seq<Instant>, log: seq<Instant>) {
    Ordered(log) && kept == if log == [] then [] else [log[|log| - 1]]
  }

  lemma LastIsLatest(log: seq<Instant>)
    requires Ordered(log) && log != []
    ensures AtMost(log, log[|log| - 1])
  {
    assert log == log[..|log| - 1] + [log[|log| - 1]];
  }

  lemma {:induction false} NoneAfter(log: seq<Instant>, after: Instant, upTo: Instant)
    requires AtMost(log, after)
    ensures Count(log, after, upTo) == 0
  {
    if log != [] {
      var before, last := log[..|log| - 1], log[|log| - 1];
      assert last in log;
      assert AtMost(before, after) by {
        assert log == before + [last];
        assert forall x :: x in before ==> x in before + [last];
      }
      NoneAfter(log[..|log| - 1], after, upTo);
    }
  }

  lemma RecentOne(t: Instant, cutoff: Instant)
    ensures Recent([t], cutoff) == if t > cutoff then [t] else []
  {
    RecentAppend([], t, cutoff);
    assert [] + [t] == [t];
  }

  lemma ServeKeepsLast(rule: Rule, kept: seq<Instant>, log: seq<Instant>, now: Instant, after: Instant)
    requires rule.Valid() && rule.limit == 1 && KeepsLast(kept, log)
    requires Count(log, after, after + rule.window) <= 1
    ensures var a := rule.Serve(kept, now);
            && KeepsLast(a.hits, Logged(log, a.ok, now))
            && Count(Logged(log, a.ok, now), after, after + rule.window) <= 1
  {
    hide Recent, Count, Ordered;
    OrderedSnoc(log, now);
    CountAppend(log, now, after, after + rule.window);
    if log == [] {
      RecentKeepsAll([], now - rule.window);
      NoneAfter([], after, after + rule.window);
    } else {
      var last := log[|log| - 1];
      LastIsLatest(log);
      RecentOne(last, now - rule.window);
      if last <= now - rule.window && now <= after + rule.window {
        NoneAfter(log, after, after + rule.window);
      }
    }
  }

  lemma {:induction false} LimitOneIsSafe(rule: Rule, times: seq<Instant>, after: Instant)
    requires rule.Valid() && rule.limit == 1
    ensures KeepsLast(Kept(rule, times), Allowed(rule, times))
    ensures Count(Allowed(rule, times), after, after + rule.window) <= 1
  {
    if times != [] {
      var before, now := times[..|times| - 1], times[|times| - 1];
      LimitOneIsSafe(rule, before, after);
      assert times == before + [now];
      HistorySnoc(rule, before, now);
      ServeKeepsLast(rule, Kept(rule, before), Allowed(rule, before), now, after);
    }
  }

  ghost predicate WithinLimit(rule: Rule, times: seq<Instant>, after: Instant)
    requires rule.Valid()
  {
    Count(Allowed(rule, times), after, after + rule.window) <= rule.limit
  }

  /** Without any order among the readings the guarantee holds exactly for limit one:
      at any other limit a reading that is one instant late lets one request too many
      into a window. */
  lemma DisorderIsSafeExactlyWhen(rule: Rule)
    requires rule.Valid()
    ensures (forall times, after :: WithinLimit(rule, times, after)) <==> rule.limit == 1
  {
    if rule.limit == 1 {
      forall times, after
        ensures WithinLimit(rule, times, after)
      {
        LimitOneIsSafe(rule, times, after);
      }
    } else {
      OneMomentLateIsGranted(rule);
      assert !WithinLimit(rule, OneMomentLate(rule), -1);
    }
  }

  // ---- the limiter itself ----

  // A Go slice that starts at its backing array.
  datatype Slice = Slice(buf: array<Instant>, len: nat)

  class Limiter {
    const rule: Rule
    var windows: map<string, Slice>

    ghost function Buffers(): set<object>
      reads this
    {
      set u | u in windows :: windows[u].buf
    }

    // Users never share a backing array.
    ghost predicate Valid()
      reads this, Buffers()
    {
      && rule.Valid()
      && (forall u :: u in windows ==> windows[u].len <= windows[u].buf.Length)
      && (forall u, v :: u in windows && v in windows && u != v ==> windows[u].buf != windows[v].buf)
    }

    function Hits(user: string): seq<Instant>
      requires user in windows ==> windows[user].len <= windows[user].buf.Length
      reads this, if user in windows then {windows[user].buf} else {}
    {
      if user in windows then windows[user].buf[..windows[user].len] else []
    }

    constructor (rule: Rule)
      requires rule.Valid()
      ensures Valid() && this.rule == rule && forall u :: Hits(u) == []
    {
      this.rule := rule;
      windows := map[];
    }

    method Put(user: string, s: Slice)
      requires Valid() && s.len <= s.buf.Length
      requires forall u :: u in windows && u != user ==> windows[u].buf != s.buf
      modifies this
      ensures Valid() && windows == old(windows)[user := s]
      ensures Hits(user) == s.buf[..s.len] && forall u :: u != user ==> Hits(u) == old(Hits(u))
    {
      windows := windows[user := s];
    }

    /** Records the hit when the user is inside the limit, and otherwise says how long
        to wait. Other users' hits stay as they are. */
    method Allow(user: string, now: Instant) returns (ok: bool, retry: int)
      requires Valid()
      modifies this, Buffers()
      ensures Valid() && fresh(Buffers() - old(Buffers()))
      ensures Answer(Hits(user), ok, retry) == rule.Serve(old(Hits(user)), now)
      ensures forall u :: u != user ==> Hits(u) == old(Hits(u))
    {
      hide Recent;
      var hits: Slice;
      if user in windows {
        hits := windows[user];
      } else {
        var buf := new Instant[0];
        hits := Slice(buf, 0);
      }
      var kept := Compact(hits.buf, hits.len, now - rule.window);
      assert hits.buf[..kept] == Recent(old(Hits(user)), now - rule.window);
      assert forall u :: u in windows && u != user ==> windows[u].buf != hits.buf;
      if kept < rule.limit {
        var grown := Append(hits.buf, kept, now);
        Put(user, grown);
        return true, 0;
      }
      Put(user, Slice(hits.buf, kept));
      retry := rule.window - (now - hits.buf[0]);
      if retry < 0 {
        retry := 0;
      }
      return false, retry;
    }
  }

  // Moves the hits after the cutoff to the front, as appending to hits[:0] does.
  method Compact(buf: array<Instant>, len: nat, cutoff: Instant) returns (kept: nat)
    requires len <= buf.Length
    modifies buf
    ensures kept <= len && buf[..kept] == Recent(old(buf[..len]), cutoff)
  {
    kept := 0;
    for i := 0 to len
      invariant kept <= i
      invariant buf[..kept] == Recent(old(buf[..i]), cutoff)
      invariant forall j :: i <= j < len ==> buf[j] == old(buf[j])
    {
      assert old(buf[..i + 1])[..i] == old(buf[..i]);
      if buf[i] > cutoff {
        buf[kept] := buf[i];
        kept := kept + 1;
      }
    }
  }

  // Go's append: in place while there is room, else into a larger array.
  method Append(buf: array<Instant>, len: nat, t: Instant) returns (s: Slice)
    requires len <= buf.Length
    modifies buf
    ensures s.len == len + 1 <= s.buf.Length && s.buf[..s.len] == old(buf[..len]) + [t]
    ensures s.buf == buf || fresh(s.buf)
  {
    if len < buf.Length {
      buf[len] := t;
      return Slice(buf, len + 1);
    }
    var bigger := new Instant[2 * len + 1](i requires 0 <= i reads buf => if i < len && i < buf.Length then buf[i] else 0);
    bigger[len] := t;
    return Slice(bigger, len + 1);
  }
}

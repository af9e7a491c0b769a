// Key selection of internal/router/router.go: own keys first, then the shared
// pool, the least used key first and ties broken by concurrency and id.
module Router {
  import opened Wrappers
  import opened Clock
  import opened Text
  import opened StoreModel

  datatype RouteError = NoKey | HourlyExhausted

  function HourlyLimit(k: UpstreamKey, fallback: int): int {
    if k.hourlyLimit > 0 then k.hourlyLimit else fallback
  }

  predicate ServesModel(k: UpstreamKey, model: string) {
    k.models == [] || exists m :: m in k.models && Normalize(m) == Normalize(model)
  }

  // What a selection depends on besides the listed keys.
  datatype Query = Query(user: string, model: string, working: bool, fallback: int,
                         exclude: set<string>, usage: string -> int, flying: string -> int)
  {
    predicate Candidate(k: UpstreamKey) {
      k.enabled && k.id !in exclude && ServesModel(k, model)
    }

    predicate Qualified(k: UpstreamKey) {
      Candidate(k) && (working ==> usage(k.id) < HourlyLimit(k, fallback))
    }

    predicate Own(k: UpstreamKey) {
      k.userID == user
    }

    // The sort order of `best`, as "not after".
    predicate Leq(a: UpstreamKey, b: UpstreamKey) {
      var (ua, ub) := (usage(a.id), usage(b.id));
      var (fa, fb) := (flying(a.id), flying(b.id));
      if ua != ub then ua < ub else if fa != fb then fa < fb else StrLeq(a.id, b.id)
    }
  }

  /** The query a store in state `st` answers at `now`. */
  function RouteQuery(st: State, user: string, model: string, working: bool, fallback: int,
                      exclude: set<string>, now: Instant): Query
  {
    Query(user, model, working, fallback, exclude,
          id => WindowValue(st.KeyHour(id), now), id => st.Flying(id))
  }

  /** `k` is the documented choice among `keys`: least of the qualified own keys, or
      of the qualified pool keys when no own key qualifies. */
  ghost predicate Chosen(keys: set<UpstreamKey>, q: Query, k: UpstreamKey) {
    && k in keys && q.Qualified(k)
    && (!q.Own(k) ==> forall j :: j in keys && q.Own(j) ==> !q.Qualified(j))
    && (forall j :: j in keys && q.Qualified(j) && q.Own(j) == q.Own(k) ==> q.Leq(k, j))
  }

  ghost predicate Selection(keys: set<UpstreamKey>, q: Query, r: Result<UpstreamKey, RouteError>) {
    match r
    case Ok(k) => Chosen(keys, q, k)
    case Err(e) =>
      && (forall k :: k in keys ==> !q.Qualified(k))
      && (e == HourlyExhausted <==> exists k :: k in keys && q.Candidate(k))
  }

  ghost predicate DistinctIds(keys: set<UpstreamKey>) {
    forall a, b :: a in keys && b in keys && a.id == b.id ==> a == b
  }

  /** For distinct ids the answer is a function of the set of keys: no listing
      order can change it. */
  lemma SelectionIsUnique(keys: set<UpstreamKey>, q: Query,
                          r: Result<UpstreamKey, RouteError>, r': Result<UpstreamKey, RouteError>)
    requires DistinctIds(keys) && Selection(keys, q, r) && Selection(keys, q, r')
    ensures r == r'
  {
    if r.Ok? && r'.Ok? {
      assert q.Leq(r.value, r'.value) && q.Leq(r'.value, r.value);
      StrLessTotal(r.value.id, r'.value.id);
    }
  }

  /** Every nonempty set of keys has a least one. */
  lemma {:induction false} LeastExists(keys: set<UpstreamKey>, q: Query) returns (k: UpstreamKey)
    requires keys != {}
    ensures k in keys && forall j :: j in keys ==> q.Leq(k, j)
  {
    k :| k in keys;
    LeqTotal(q, k, k);
    if keys != {k} {
      var k' := LeastExists(keys - {k}, q);
      LeqTotal(q, k, k');
      if q.Leq(k, k') {
        forall j | j in keys && j != k
          ensures q.Leq(k, j)
        {
          assert j in keys - {k};
          LeqTransitive(q, k, k', j);
        }
      } else {
        k := k';
      }
    }
  }

  lemma SelectionExists(keys: set<UpstreamKey>, q: Query) returns (r: Result<UpstreamKey, RouteError>)
    ensures Selection(keys, q, r)
  {
    var own := set k | k in keys && q.Qualified(k) && q.Own(k);
    var pool := set k | k in keys && q.Qualified(k) && !q.Own(k);
    if own != {} {
      var k := LeastExists(own, q);
      r := Ok(k);
    } else if pool != {} {
      var k := LeastExists(pool, q);
      assert forall j :: j in keys && q.Own(j) && q.Qualified(j) ==> j in own;
      r := Ok(k);
    } else {
      assert forall j :: j in keys && q.Qualified(j) ==> j in own || j in pool;
      r := Err(if exists k :: k in keys && q.Candidate(k) then HourlyExhausted else NoKey);
    }
  }

  // ---- the documented rules ----

  /** The answer as the routing rules put it, on the records alone: enabled keys that are
      not excluded and serve the model, in working hours below their own limit or else the
      default one; the user's own before all others; the least used, then the one with the
      fewest requests in flight, then the first by id. Without such a key, exhaustion means
      that only the limits stand in the way. */
  ghost predicate Documented(keys: set<UpstreamKey>, q: Query, r: Result<UpstreamKey, RouteError>) {
    var open := (j: UpstreamKey) =>
      j in keys && j.enabled && j.id !in q.exclude
      && (j.models == [] || exists m :: m in j.models && Normalize(m) == Normalize(q.model));
    var room := (j: UpstreamKey) =>
      q.working ==> q.usage(j.id) < (if j.hourlyLimit > 0 then j.hourlyLimit else q.fallback);
    match r
    case Ok(k) =>
      && open(k) && room(k)
      && (k.userID != q.user ==> forall j :: j in keys && j.userID == q.user ==> !(open(j) && room(j)))
      && (forall j :: j in keys && open(j) && room(j) && (j.userID == q.user <==> k.userID == q.user) ==>
            || q.usage(k.id) < q.usage(j.id)
            || (q.usage(k.id) == q.usage(j.id) && q.flying(k.id) < q.flying(j.id))
            || (q.usage(k.id) == q.usage(j.id) && q.flying(k.id) == q.flying(j.id)
                && (k.id == j.id || StrLess(k.id, j.id))))
    case Err(e) =>
      && (forall j :: j in keys ==> !(open(j) && room(j)))
      && (e == HourlyExhausted <==> exists j :: j in keys && open(j))
  }

  lemma LeqIsDocumented(q: Query, k: UpstreamKey, j: UpstreamKey)
    ensures q.Leq(k, j) <==>
            || q.usage(k.id) < q.usage(j.id)
            || (q.usage(k.id) == q.usage(j.id) && q.flying(k.id) < q.flying(j.id))
            || (q.usage(k.id) == q.usage(j.id) && q.flying(k.id) == q.flying(j.id) && (k.id == j.id || StrLess(k.id, j.id)))
  {
    StrLessTotal(k.id, j.id);
  }

  /** What is selected is what the rules say, and nothing else. */
  lemma SelectionIsDocumented(keys: set<UpstreamKey>, q: Query, r: Result<UpstreamKey, RouteError>)
    ensures Selection(keys, q, r) <==> Documented(keys, q, r)
  {
    if r.Ok? {
      forall j
        ensures q.Leq(r.value, j) <==>
                || q.usage(r.value.id) < q.usage(j.id)
                || (q.usage(r.value.id) == q.usage(j.id) && q.flying(r.value.id) < q.flying(j.id))
                || (q.usage(r.value.id) == q.usage(j.id) && q.flying(r.value.id) == q.flying(j.id)
                    && (r.value.id == j.id || StrLess(r.value.id, j.id)))
      {
        LeqIsDocumented(q, r.value, j);
      }
    }
  }

  /** What the store's query reads: this hour's count of a key, nothing when it was last
      counted in another hour, and its requests in flight. */
  lemma RouteQueryReads(st: State, user: string, model: string, working: bool, fallback: int, exclude: set<string>,
                        now: Instant, id: string)
    requires st.Valid()
    ensures var q := RouteQuery(st, user, model, working, fallback, exclude, now);
            && q.user == user && q.model == model && q.working == working && q.fallback == fallback && q.exclude == exclude
            && q.usage(id) == (if id in st.keyHours && st.keyHours[id].start == Some(HourStart(now)) then st.keyHours[id].value else 0)
            && q.flying(id) == (if id in st.inFlight then st.inFlight[id] else 0)
  {
  }

  lemma LeqTransitive(q: Query, a: UpstreamKey, b: UpstreamKey, c: UpstreamKey)
    requires q.Leq(a, b) && q.Leq(b, c)
    ensures q.Leq(a, c)
  {
    if StrLeq(a.id, b.id) && StrLeq(b.id, c.id) {
      StrLeqTransitive(a.id, b.id, c.id);
    }
  }

  lemma LeqTotal(q: Query, a: UpstreamKey, b: UpstreamKey)
    ensures q.Leq(a, b) || q.Leq(b, a)
  {
    StrLessTotal(a.id, b.id);
  }

  ghost predicate SortedUpTo(a: seq<UpstreamKey>, n: int, q: Query)
    requires 0 <= n <= |a|
  {
    forall i, j :: 0 <= i < j < n ==> q.Leq(a[i], a[j])
  }

  /** Sorts the list in place and returns its head. */
  method Best(list: array<UpstreamKey>, q: Query) returns (k: UpstreamKey)
    requires list.Length > 0
    modifies list
    ensures multiset(list[..]) == multiset(old(list[..])) && SortedUpTo(list[..], list.Length, q)
    ensures k in old(list[..]) && forall j :: j in old(list[..]) ==> q.Leq(k, j)
  {
    for n := 1 to list.Length
      invariant multiset(list[..]) == multiset(old(list[..]))
      invariant SortedUpTo(list[..], n, q)
    {
      Insert(list, n, q);
    }
    k := list[0];
    assert k in multiset(list[..]);
    forall j | j in old(list[..])
      ensures q.Leq(k, j)
    {
      assert j in multiset(list[..]);
      LeqTotal(q, k, k);
    }
  }

  // Sorted but for the element at `i`, which has to move further down.
  ghost predicate SortedExcept(a: seq<UpstreamKey>, n: int, i: int, q: Query)
    requires 0 <= i < n <= |a|
  {
    && (forall x, y :: 0 <= x < y < n && x != i && y != i ==> q.Leq(a[x], a[y]))
    && (forall y :: i < y < n ==> q.Leq(a[i], a[y]))
  }

  method Swap(list: array<UpstreamKey>, i: int)
    requires 1 <= i < list.Length
    modifies list
    ensures list[..] == old(list[..])[i - 1 := old(list[i])][i := old(list[i - 1])]
    ensures multiset(list[..]) == multiset(old(list[..]))
  {
    list[i - 1], list[i] := list[i], list[i - 1];
  }

  lemma SwapMovesHole(a: seq<UpstreamKey>, n: int, i: int, q: Query)
    requires 1 <= i < n <= |a| && SortedExcept(a, n, i, q) && q.Leq(a[i], a[i - 1])
    ensures SortedExcept(a[i - 1 := a[i]][i := a[i - 1]], n, i - 1, q)
  {
  }

  lemma HoleInPlace(a: seq<UpstreamKey>, n: int, i: int, q: Query)
    requires 0 <= i < n <= |a| && SortedExcept(a, n, i, q) && (i > 0 ==> q.Leq(a[i - 1], a[i]))
    ensures SortedUpTo(a, n, q)
  {
    forall x | 0 <= x < i
      ensures q.Leq(a[x], a[i])
    {
      if x < i - 1 {
        LeqTransitive(q, a[x], a[i - 1], a[i]);
      }
    }
  }

  // Moves list[n] down to its place in the sorted prefix.
  method Insert(list: array<UpstreamKey>, n: int, q: Query)
    requires 1 <= n < list.Length && SortedUpTo(list[..], n, q)
    modifies list
    ensures multiset(list[..]) == multiset(old(list[..])) && SortedUpTo(list[..], n + 1, q)
  {
    var i := n;
    while i > 0 && !q.Leq(list[i - 1], list[i])
      invariant 0 <= i <= n
      invariant multiset(list[..]) == multiset(old(list[..]))
      invariant SortedExcept(list[..], n + 1, i, q)
    {
      LeqTotal(q, list[i - 1], list[i]);
      SwapMovesHole(list[..], n + 1, i, q);
      Swap(list, i);
      i := i - 1;
    }
    HoleInPlace(list[..], n + 1, i, q);
  }

  /** The qualified keys of one tier, in listing order. */
  method Qualify(list: seq<UpstreamKey>, q: Query) returns (res: seq<UpstreamKey>)
    requires forall k :: k in list ==> q.Candidate(k)
    ensures forall k :: k in res <==> k in list && q.Qualified(k)
  {
    if !q.working {
      return list;
    }
    res := [];
    for i := 0 to |list|
      invariant forall k :: k in res <==> k in list[..i] && q.Qualified(k)
    {
      assert list[..i + 1] == list[..i] + [list[i]];
      if q.usage(list[i].id) < HourlyLimit(list[i], q.fallback) {
        res := res + [list[i]];
      }
    }
    assert list[..|list|] == list;
  }

  method CheckServes(k: UpstreamKey, model: string) returns (serves: bool)
    ensures serves == ServesModel(k, model)
  {
    if |k.models| == 0 {
      return true;
    }
    var want := Normalize(model);
    for i := 0 to |k.models|
      invariant forall m :: m in k.models[..i] ==> Normalize(m) != want
    {
      if Normalize(k.models[i]) == want {
        return true;
      }
      assert k.models[..i + 1] == k.models[..i] + [k.models[i]];
    }
    assert k.models[..|k.models|] == k.models;
    return false;
  }

  method Select(keys: seq<UpstreamKey>, q: Query) returns (r: Result<UpstreamKey, RouteError>)
    ensures Selection(Elements(keys), q, r) && Documented(Elements(keys), q, r)
  {
    hide Documented;
    var modelKey := Normalize(q.model);
    NormalizeTwice(q.model);
    var own, pool := [], [];
    for i := 0 to |keys|
      invariant forall k :: k in own <==> k in keys[..i] && q.Candidate(k) && q.Own(k)
      invariant forall k :: k in pool <==> k in keys[..i] && q.Candidate(k) && !q.Own(k)
    {
      assert keys[..i + 1] == keys[..i] + [keys[i]];
      var k := keys[i];
      var serves := CheckServes(k, modelKey);
      if k.enabled && k.id !in q.exclude && serves {
        if k.userID == q.user {
          own := own + [k];
        } else {
          pool := pool + [k];
        }
      }
    }
    assert keys[..|keys|] == keys;
    var qualified := Qualify(own, q);
    if qualified == [] {
      assert forall k :: k in keys && q.Own(k) && q.Qualified(k) ==> k in qualified;
      qualified := Qualify(pool, q);
      assert forall k :: k in keys && !q.Own(k) && q.Qualified(k) ==> k in qualified;
    }
    if qualified != [] {
      var list := new UpstreamKey[|qualified|](i requires 0 <= i < |qualified| => qualified[i]);
      assert list[..] == qualified;
      var k := Best(list, q);
      SelectionIsDocumented(Elements(keys), q, Ok(k));
      return Ok(k);
    }
    if own != [] || pool != [] {
      assert exists k :: k in keys && q.Candidate(k) by {
        var k := if own != [] then own[0] else pool[0];
        assert k in own || k in pool;
      }
      SelectionIsDocumented(Elements(keys), q, Err(HourlyExhausted));
      return Err(HourlyExhausted);
    }
    assert forall k :: k in keys && q.Candidate(k) ==> k in own || k in pool;
    SelectionIsDocumented(Elements(keys), q, Err(NoKey));
    return Err(NoKey);
  }

  /** Listing the keys in any other order, with repeats or not, selects the same. */
  method SelectAnyOrder(keys: seq<UpstreamKey>, keys': seq<UpstreamKey>, q: Query)
    returns (r: Result<UpstreamKey, RouteError>, r': Result<UpstreamKey, RouteError>)
    requires Elements(keys) == Elements(keys') && DistinctIds(Elements(keys))
    ensures r == r' && Selection(Elements(keys), q, r)
  {
    r := Select(keys, q);
    r' := Select(keys', q);
    SelectionIsUnique(Elements(keys), q, r, r');
  }
}

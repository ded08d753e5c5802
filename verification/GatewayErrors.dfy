/** The gateway error cache: failure counts with exponential backoff, and queries that evict expired entries. */
module GatewayErrors {
  import opened Outcomes

  /** Times and ages are in seconds. */
  datatype Entry = Entry(error: string, timestamp: real, count: nat)

  type Cache = map<string, Entry>

  /** `get_gateway_error_ttl` */
  function Ttl(count: int): real {
    if count == 1 then 300.0
    else if count == 2 then 900.0
    else if count == 3 then 1800.0
    else 3600.0
  }

  predicate Expired(e: Entry, now: real) {
    now - e.timestamp >= Ttl(e.count)
  }

  /** The answer of a query. */
  predicate InError(m: Cache, gateway: string, now: real) {
    gateway in m && !Expired(m[gateway], now)
  }

  datatype Op =
    | SetError(gateway: string, message: string, at: real)
    | Query(gateway: string, at: real)
    | Clear(gateway: string)

  function Apply(m: Cache, op: Op): Cache {
    match op
    case SetError(g, message, at) => m[g := Entry(message, at, if g in m then m[g].count + 1 else 1)]
    case Query(g, at) => if g in m && Expired(m[g], at) then m - {g} else m
    case Clear(g) => m - {g}
  }

  function At(m: Cache, gateway: string): Option<Entry> {
    if gateway in m then Some(m[gateway]) else None
  }

  /** What an operation on its gateway makes of the entry. */
  function Next(e: Option<Entry>, op: Op): Option<Entry> {
    match op
    case SetError(_, message, at) => Some(Entry(message, at, if e.Some? then e.value.count + 1 else 1))
    case Query(_, at) => if e.Some? && Expired(e.value, at) then None else e
    case Clear(_) => None
  }

  lemma ApplyAt(m: Cache, op: Op, gateway: string)
    ensures At(Apply(m, op), gateway) == if op.gateway == gateway then Next(At(m, gateway), op) else At(m, gateway)
  {
  }

  /** The cache after a run of operations. */
  function Run(m: Cache, ops: seq<Op>): Cache {
    if ops == [] then m else Apply(Run(m, ops[..|ops| - 1]), ops[|ops| - 1])
  }

  /** The module-level dictionary and the functions that change it. */
  class ErrorCache {
    var entries: Cache

    constructor ()
      ensures entries == map[]
    {
      entries := map[];
    }

    method SetGatewayError(gateway: string, message: string, now: real)
      modifies this
      ensures entries == Apply(old(entries), SetError(gateway, message, now))
      ensures entries.Keys == old(entries).Keys + {gateway}
      ensures entries[gateway].error == message && entries[gateway].timestamp == now
      ensures entries[gateway].count == 1 + if gateway in old(entries) then old(entries)[gateway].count else 0
      ensures forall g <- entries :: g != gateway ==> entries[g] == old(entries)[g]
    {
      var count := 1;
      if gateway in entries {
        count := entries[gateway].count + 1;
      }
      entries := entries[gateway := Entry(message, now, count)];
    }

    method ClearGatewayError(gateway: string)
      modifies this
      ensures entries == Apply(old(entries), Clear(gateway)) == old(entries) - {gateway}
    {
      if gateway in entries {
        entries := entries - {gateway};
      }
      assert gateway !in old(entries) ==> entries == old(entries) - {gateway};
    }

    method IsGatewayInErrorState(gateway: string, now: real) returns (answer: bool)
      modifies this
      ensures answer == InError(old(entries), gateway, now)
      ensures entries == Apply(old(entries), Query(gateway, now))
      ensures answer ==> gateway in entries && entries == old(entries)
      ensures gateway in old(entries) ==>
        var e := old(entries)[gateway];
        && (e.count == 1 ==> (answer <==> now - e.timestamp < 300.0))
        && (e.count == 2 ==> (answer <==> now - e.timestamp < 900.0))
        && (e.count == 3 ==> (answer <==> now - e.timestamp < 1800.0))
        && (e.count > 3 ==> (answer <==> now - e.timestamp < 3600.0))
      ensures !answer ==> entries == old(entries) - {gateway}
    {
      if gateway !in entries {
        return false;
      }
      var ttl := Ttl(entries[gateway].count);
      var age := now - entries[gateway].timestamp;
      if age >= ttl {
        ClearGatewayError(gateway);
        return false;
      }
      return true;
    }

    method GetGatewayErrorMessage(gateway: string, now: real) returns (message: Option<string>)
      modifies this
      ensures entries == Apply(old(entries), Query(gateway, now))
      ensures message == if InError(old(entries), gateway, now) then Some(old(entries)[gateway].error) else None
    {
      var answer := IsGatewayInErrorState(gateway, now);
      message := if answer then Some(entries[gateway].error) else None;
    }
  }

  // ----- What a run leaves in the cache -----

  /** Operation `i` ends a streak of failures: a clear, or a query that finds an expired entry. */
  predicate Resets(ops: seq<Op>, i: nat, gateway: string)
    requires i < |ops|
  {
    && ops[i].gateway == gateway
    && (match ops[i]
        case SetError(_, _, _) => false
        case Clear(_) => true
        case Query(_, at) =>
          var m := Run(map[], ops[..i]);
          gateway in m && Expired(m[gateway], at))
  }

  /** The streak of `gateway` starts at position `k`. */
  predicate StreakFrom(ops: seq<Op>, k: nat, gateway: string)
    requires k <= |ops|
  {
    && (k == 0 || Resets(ops, k - 1, gateway))
    && forall i :: k <= i < |ops| ==> !Resets(ops, i, gateway)
  }

  predicate SetsFor(op: Op, gateway: string) {
    op.SetError? && op.gateway == gateway
  }

  function CountSets(ops: seq<Op>, gateway: string): nat {
    if ops == [] then 0
    else CountSets(ops[..|ops| - 1], gateway) + if SetsFor(ops[|ops| - 1], gateway) then 1 else 0
  }

  /** The last failure recorded for `gateway`. */
  function LastSet(ops: seq<Op>, gateway: string): (op: Op)
    requires CountSets(ops, gateway) > 0
    ensures SetsFor(op, gateway) && op in ops
  {
    var last := ops[|ops| - 1];
    if SetsFor(last, gateway) then last else LastSet(ops[..|ops| - 1], gateway)
  }

  lemma StreakPrior(ops: seq<Op>, k: nat, gateway: string)
    requires k < |ops| && StreakFrom(ops, k, gateway)
    ensures StreakFrom(ops[..|ops| - 1], k, gateway) && !Resets(ops, |ops| - 1, gateway)
  {
    var prior := ops[..|ops| - 1];
    forall i: nat | i < |prior| ensures Resets(prior, i, gateway) == Resets(ops, i, gateway) {
      assert prior[..i] == ops[..i];
    }
  }

  lemma CountLast(ops: seq<Op>, k: nat, gateway: string)
    requires k < |ops|
    ensures var n := |ops| - 1; var prior := ops[..n][k..];
      && CountSets(ops[k..], gateway) == CountSets(prior, gateway) + (if SetsFor(ops[n], gateway) then 1 else 0)
      && (CountSets(ops[k..], gateway) > 0 ==>
            LastSet(ops[k..], gateway) == if SetsFor(ops[n], gateway) then ops[n] else LastSet(prior, gateway))
  {
    assert ops[k..][..|ops| - 1 - k] == ops[..|ops| - 1][k..];
  }

  /** What the entry of a gateway should be after a streak of operations. */
  function EntryFor(streak: seq<Op>, gateway: string): Option<Entry> {
    var count := CountSets(streak, gateway);
    if count == 0 then None
    else var last := LastSet(streak, gateway); Some(Entry(last.message, last.at, count))
  }

  lemma {:induction false} EntryCounts(ops: seq<Op>, k: nat, gateway: string)
    requires k <= |ops| && StreakFrom(ops, k, gateway)
    ensures At(Run(map[], ops), gateway) == EntryFor(ops[k..], gateway)
  {
    if k < |ops| {
      var n := |ops| - 1;
      StreakPrior(ops, k, gateway);
      EntryCounts(ops[..n], k, gateway);
      CountLast(ops, k, gateway);
      ApplyAt(Run(map[], ops[..n]), ops[n], gateway);
    } else {
      assert ops[k..] == [];
      if k > 0 {
        assert ops[..k - 1] == ops[..|ops| - 1];
        ApplyAt(Run(map[], ops[..k - 1]), ops[k - 1], gateway);
      }
    }
  }

  /** In every run the entry of a gateway counts the failures since the last clear or expired query, and carries the
      time and message of the last one; a query says whether the age of that failure is below its backoff time. */
  lemma EntryMeaning(ops: seq<Op>, k: nat, gateway: string)
    requires k <= |ops| && StreakFrom(ops, k, gateway)
    ensures var m, streak := Run(map[], ops), ops[k..];
      && (gateway in m <==> CountSets(streak, gateway) > 0)
      && (gateway in m ==>
            var last := LastSet(streak, gateway);
            && m[gateway] == Entry(last.message, last.at, CountSets(streak, gateway))
            && forall now :: InError(m, gateway, now) <==> now - last.at < Ttl(CountSets(streak, gateway)))
  {
    EntryCounts(ops, k, gateway);
  }

  /** The seconds of error time after one, two, three and more failures in a row, counted from the last of them. */
  lemma BackoffSeconds(ops: seq<Op>, k: nat, gateway: string, now: real)
    requires k <= |ops| && StreakFrom(ops, k, gateway) && CountSets(ops[k..], gateway) > 0
    ensures var m, n, age := Run(map[], ops), CountSets(ops[k..], gateway), now - LastSet(ops[k..], gateway).at;
      && (n == 1 ==> (InError(m, gateway, now) <==> age < 300.0))
      && (n == 2 ==> (InError(m, gateway, now) <==> age < 900.0))
      && (n == 3 ==> (InError(m, gateway, now) <==> age < 1800.0))
      && (n >= 4 ==> (InError(m, gateway, now) <==> age < 3600.0))
  {
    EntryMeaning(ops, k, gateway);
  }

  lemma {:induction false} StreakExists(ops: seq<Op>, gateway: string) returns (k: nat)
    ensures k <= |ops| && StreakFrom(ops, k, gateway)
  {
    k := |ops|;
    while k > 0 && !Resets(ops, k - 1, gateway)
      invariant k <= |ops| && forall i :: k <= i < |ops| ==> !Resets(ops, i, gateway)
    {
      k := k - 1;
    }
  }

  /** The operations on one gateway. */
  function Only(ops: seq<Op>, gateway: string): seq<Op> {
    if ops == [] then []
    else Only(ops[..|ops| - 1], gateway) + if ops[|ops| - 1].gateway == gateway then [ops[|ops| - 1]] else []
  }

  lemma RunOnly(m: Cache, ops: seq<Op>, gateway: string)
    requires ops != []
    ensures Run(m, Only(ops, gateway))
         == var before := Run(m, Only(ops[..|ops| - 1], gateway));
            if ops[|ops| - 1].gateway == gateway then Apply(before, ops[|ops| - 1]) else before
  {
    var only := Only(ops[..|ops| - 1], gateway);
    if ops[|ops| - 1].gateway == gateway {
      assert Only(ops, gateway)[..|only|] == only;
    } else {
      assert Only(ops, gateway) == only;
    }
  }

  /** Gateways do not affect each other. */
  lemma {:induction false} GatewaysIndependent(m: Cache, ops: seq<Op>, gateway: string)
    ensures gateway in Run(m, ops) <==> gateway in Run(m, Only(ops, gateway))
    ensures gateway in Run(m, ops) ==> Run(m, ops)[gateway] == Run(m, Only(ops, gateway))[gateway]
  {
    if ops != [] {
      var prior, last := ops[..|ops| - 1], ops[|ops| - 1];
      GatewaysIndependent(m, prior, gateway);
      RunOnly(m, ops, gateway);
    }
  }

  // ----- What queries change -----

  function WithoutQueries(ops: seq<Op>): seq<Op> {
    if ops == [] then []
    else WithoutQueries(ops[..|ops| - 1]) + if ops[|ops| - 1].Query? then [] else [ops[|ops| - 1]]
  }

  lemma RunErased(m: Cache, ops: seq<Op>)
    requires ops != []
    ensures Run(m, WithoutQueries(ops))
         == var before := Run(m, WithoutQueries(ops[..|ops| - 1]));
            if ops[|ops| - 1].Query? then before else Apply(before, ops[|ops| - 1])
  {
    var erased := WithoutQueries(ops[..|ops| - 1]);
    var last := ops[|ops| - 1];
    if last.Query? {
      assert WithoutQueries(ops) == erased;
    } else {
      assert WithoutQueries(ops)[..|erased|] == erased;
    }
  }

  /** `e'` records the same failure as `e` with at least its count. */
  predicate AtLeast(e: Option<Entry>, e': Option<Entry>) {
    e.Some? ==>
      && e'.Some? && e'.value.error == e.value.error && e'.value.timestamp == e.value.timestamp
      && 1 <= e.value.count <= e'.value.count
  }

  /** The run without those queries that stand at the given positions. */
  function Without(ops: seq<Op>, dropped: set<nat>): seq<Op> {
    if ops == [] then []
    else
      var n := |ops| - 1;
      Without(ops[..n], dropped) + if ops[n].Query? && n in dropped then [] else [ops[n]]
  }

  lemma RunWithout(ops: seq<Op>, dropped: set<nat>)
    requires ops != []
    ensures var n := |ops| - 1;
      var before := Run(map[], Without(ops[..n], dropped));
      Run(map[], Without(ops, dropped)) == if ops[n].Query? && n in dropped then before else Apply(before, ops[n])
  {
    var n := |ops| - 1;
    var left := Without(ops[..n], dropped);
    if ops[n].Query? && n in dropped {
      assert Without(ops, dropped) == left;
    } else {
      assert Without(ops, dropped)[..|left|] == left;
    }
  }

  /** An operation on both sides, or a query on the first only, keeps the relation. */
  lemma NextAtLeast(e: Option<Entry>, e': Option<Entry>, op: Op)
    requires AtLeast(e, e')
    ensures AtLeast(Next(e, op), Next(e', op))
    ensures op.Query? ==> AtLeast(Next(e, op), e')
  {
  }

  lemma {:induction false} WithoutSimulates(ops: seq<Op>, dropped: set<nat>, gateway: string)
    ensures AtLeast(At(Run(map[], ops), gateway), At(Run(map[], Without(ops, dropped)), gateway))
  {
    if ops != [] {
      var n := |ops| - 1;
      var m, m' := Run(map[], ops[..n]), Run(map[], Without(ops[..n], dropped));
      WithoutSimulates(ops[..n], dropped, gateway);
      RunWithout(ops, dropped);
      ApplyAt(m, ops[n], gateway);
      ApplyAt(m', ops[n], gateway);
      NextAtLeast(At(m, gateway), At(m', gateway), ops[n]);
    }
  }

  lemma {:induction false} AllDropped(ops: seq<Op>, dropped: set<nat>)
    requires forall i :: 0 <= i < |ops| ==> i in dropped
    ensures Without(ops, dropped) == WithoutQueries(ops)
  {
    if ops != [] {
      AllDropped(ops[..|ops| - 1], dropped);
    }
  }

  function Upto(n: nat): (positions: set<nat>)
    ensures forall i: nat :: i < n ==> i in positions
  {
    if n == 0 then {} else Upto(n - 1) + {n - 1}
  }

  lemma ErasedSimulates(ops: seq<Op>, gateway: string)
    ensures AtLeast(At(Run(map[], ops), gateway), At(Run(map[], WithoutQueries(ops)), gateway))
  {
    var dropped := Upto(|ops|);
    WithoutSimulates(ops, dropped, gateway);
    AllDropped(ops, dropped);
  }

  /** Dropping any earlier queries never turns an error state into a healthy one: same message, at least the backoff,
      and whatever is added lasts less than an hour after the last failure. */
  lemma ErasureOnlyAdds(ops: seq<Op>, dropped: set<nat>, gateway: string, now: real)
    ensures var m, m' := Run(map[], ops), Run(map[], Without(ops, dropped));
      && (InError(m, gateway, now) ==> InError(m', gateway, now) && m'[gateway].error == m[gateway].error)
      && (InError(m', gateway, now) && !InError(m, gateway, now) ==>
            && now - m'[gateway].timestamp < 3600.0
            && (gateway !in m || m[gateway].count < m'[gateway].count))
  {
    WithoutSimulates(ops, dropped, gateway);
  }

  /** Counts above three all have the longest backoff. */
  function Level(count: int): int {
    if count <= 4 then count else 4
  }

  /** The two caches answer alike at all times exactly when both or neither have an entry and the counts have the same
      backoff. */
  lemma SameAnswers(m: Cache, m': Cache, gateway: string)
    requires AtLeast(At(m, gateway), At(m', gateway)) && (gateway in m' ==> m'[gateway].count >= 1)
    ensures (forall now :: InError(m, gateway, now) == InError(m', gateway, now))
       <==> (gateway in m <==> gateway in m') && (gateway in m ==> Level(m[gateway].count) == Level(m'[gateway].count))
  {
    if gateway in m' {
      var probe := if gateway in m then m'[gateway].timestamp + Ttl(m[gateway].count) else m'[gateway].timestamp;
      assert InError(m, gateway, probe) == InError(m', gateway, probe)
        <==> gateway in m && Level(m[gateway].count) == Level(m'[gateway].count);
    }
  }

  /** Position `k` is just after the last clear of `gateway`, or the start. */
  predicate ClearedAt(ops: seq<Op>, k: nat, gateway: string)
    requires k <= |ops|
  {
    && (k == 0 || ops[k - 1] == Clear(gateway))
    && forall i :: k <= i < |ops| ==> ops[i] != Clear(gateway)
  }

  /** Without the queries, one more operation only matters when it is for the gateway and no query. */
  lemma ErasedNext(ops: seq<Op>, gateway: string)
    requires ops != []
    ensures var last := ops[|ops| - 1];
      var before := At(Run(map[], WithoutQueries(ops[..|ops| - 1])), gateway);
      At(Run(map[], WithoutQueries(ops)), gateway)
      == if last.gateway == gateway && !last.Query? then Next(before, last) else before
  {
    RunErased(map[], ops);
    ApplyAt(Run(map[], WithoutQueries(ops[..|ops| - 1])), ops[|ops| - 1], gateway);
  }

  lemma NothingCounted(ops: seq<Op>, gateway: string)
    requires ops == [] || ops[|ops| - 1] == Clear(gateway)
    ensures At(Run(map[], WithoutQueries(ops)), gateway) == None == EntryFor(ops[|ops|..], gateway)
  {
    assert ops[|ops|..] == [];
    if ops != [] {
      ErasedNext(ops, gateway);
    }
  }

  /** One more operation in a streak. */
  lemma EntryForNext(ops: seq<Op>, k: nat, gateway: string)
    requires k < |ops|
    ensures var e, last := EntryFor(ops[..|ops| - 1][k..], gateway), ops[|ops| - 1];
      EntryFor(ops[k..], gateway) == if SetsFor(last, gateway) then Next(e, last) else e
  {
    CountLast(ops, k, gateway);
  }

  /** An operation that is no clear of the gateway counts when it is a failure of it. */
  lemma ErasedFailure(ops: seq<Op>, gateway: string)
    requires ops != [] && ops[|ops| - 1] != Clear(gateway)
    ensures var e, last := At(Run(map[], WithoutQueries(ops[..|ops| - 1])), gateway), ops[|ops| - 1];
      At(Run(map[], WithoutQueries(ops)), gateway) == if SetsFor(last, gateway) then Next(e, last) else e
  {
    ErasedNext(ops, gateway);
  }

  /** Without the queries the entry counts all failures since the last clear. */
  lemma {:induction false} ErasedCounts(ops: seq<Op>, k: nat, gateway: string)
    requires k <= |ops| && ClearedAt(ops, k, gateway)
    ensures At(Run(map[], WithoutQueries(ops)), gateway) == EntryFor(ops[k..], gateway)
  {
    if k < |ops| {
      ErasedCounts(ops[..|ops| - 1], k, gateway);
      ErasedFailure(ops, gateway);
      EntryForNext(ops, k, gateway);
    } else {
      NothingCounted(ops, gateway);
    }
  }

  /** In every run: the answers do not depend on the earlier queries, at any time, exactly when the failures since the
      last clear or expired query and the failures since the last clear have the same backoff. */
  lemma ErasureInvisible(ops: seq<Op>, gateway: string, k: nat, cleared: nat)
    requires k <= |ops| && StreakFrom(ops, k, gateway)
    requires cleared <= |ops| && ClearedAt(ops, cleared, gateway)
    ensures (forall now ::
               InError(Run(map[], ops), gateway, now) == InError(Run(map[], WithoutQueries(ops)), gateway, now))
       <==> Level(CountSets(ops[k..], gateway)) == Level(CountSets(ops[cleared..], gateway))
  {
    ErasedSimulates(ops, gateway);
    EntryCounts(ops, k, gateway);
    ErasedCounts(ops, cleared, gateway);
    SameAnswers(Run(map[], ops), Run(map[], WithoutQueries(ops)), gateway);
  }

  lemma ClearExists(ops: seq<Op>, gateway: string) returns (k: nat)
    ensures k <= |ops| && ClearedAt(ops, k, gateway)
  {
    k := |ops|;
    while k > 0 && ops[k - 1] != Clear(gateway)
      invariant k <= |ops| && forall i :: k <= i < |ops| ==> ops[i] != Clear(gateway)
    {
      k := k - 1;
    }
  }

  /** No query of the run found an expired entry. */
  predicate NothingExpired(ops: seq<Op>) {
    forall i :: 0 <= i < |ops| && ops[i].Query? ==> !Resets(ops, i, ops[i].gateway)
  }

  lemma {:induction false} UnexpiredQueriesErasable(ops: seq<Op>)
    requires NothingExpired(ops)
    ensures Run(map[], ops) == Run(map[], WithoutQueries(ops))
  {
    if ops != [] {
      var n := |ops| - 1;
      forall i: nat | i < n && ops[..n][i].Query? ensures !Resets(ops[..n], i, ops[..n][i].gateway) {
        assert ops[..n][..i] == ops[..i];
        assert !Resets(ops, i, ops[i].gateway);
      }
      UnexpiredQueriesErasable(ops[..n]);
      RunErased(map[], ops);
      assert ops[n].Query? ==> !Resets(ops, n, ops[n].gateway);
    }
  }

  /** Queries up to now are invisible until the next failure: eviction only removes what has expired anyway. */
  lemma {:induction false} EvictionIsLazy(m: Cache, queries: seq<Op>, gateway: string, now: real)
    requires forall q <- queries :: q.Query? && q.at <= now
    ensures InError(Run(m, queries), gateway, now) == InError(m, gateway, now)
    ensures gateway in Run(m, queries) ==> gateway in m && Run(m, queries)[gateway] == m[gateway]
  {
    if queries != [] {
      assert queries[|queries| - 1] in queries;
      EvictionIsLazy(m, queries[..|queries| - 1], gateway, now);
    }
  }

  /** A query between two failures does matter: it restarts the backoff, so the later answer can be shorter-lived. */
  lemma QueryRestartsBackoff(gateway: string, message: string, first: real, query: real, second: real)
    requires first + 300.0 <= query
    ensures var ops := [SetError(gateway, message, first), Query(gateway, query), SetError(gateway, message, second)];
      && !InError(Run(map[], ops), gateway, second + 300.0)
      && InError(Run(map[], WithoutQueries(ops)), gateway, second + 300.0)
  {
    var ops := [SetError(gateway, message, first), Query(gateway, query), SetError(gateway, message, second)];
    RunErased(map[], ops);
    RunErased(map[], ops[..2]);
    RunErased(map[], ops[..1]);
    assert ops[..2][..1] == ops[..1] && ops[..1][..0] == [];
    assert Run(map[], ops[..1]) == map[gateway := Entry(message, first, 1)];
    assert Run(map[], ops[..2]) == map[];
    assert Run(map[], WithoutQueries(ops[..2])) == map[gateway := Entry(message, first, 1)];
  }
}

/** The usage ledger shared by the agents: append-only records, per-agent buckets and rounded totals. */
module Ledger {
  import opened OrderStatistics
  import opened Outcomes

  datatype Usage = Usage(agent: string, cost: real, tokens: int, cacheRead: int, timestamp: int)

  /** A line of the ledger file; lines that do not decode are skipped. */
  datatype Line = Entry(usage: Usage) | Undecodable

  // ----- Sums over records -----

  function Total(us: seq<Usage>): real {
    if us == [] then 0.0 else Total(us[..|us| - 1]) + us[|us| - 1].cost
  }

  function Tokens(us: seq<Usage>): int {
    if us == [] then 0 else Tokens(us[..|us| - 1]) + us[|us| - 1].tokens
  }

  function CacheReads(us: seq<Usage>): int {
    if us == [] then 0 else CacheReads(us[..|us| - 1]) + us[|us| - 1].cacheRead
  }

  function Of(us: seq<Usage>, agent: string): seq<Usage> {
    if us == [] then []
    else Of(us[..|us| - 1], agent) + if us[|us| - 1].agent == agent then [us[|us| - 1]] else []
  }

  /** The records before `end`. */
  function Until(us: seq<Usage>, end: int): seq<Usage> {
    if us == [] then []
    else
      var before, last := Until(us[..|us| - 1], end), us[|us| - 1];
      if last.timestamp < end then before + [last] else before
  }

  /** The records not before `start`. */
  function From(us: seq<Usage>, start: int): seq<Usage> {
    if us == [] then []
    else
      var before, last := From(us[..|us| - 1], start), us[|us| - 1];
      if last.timestamp < start then before else before + [last]
  }

  lemma FromAppend(us: seq<Usage>, u: Usage, start: int)
    ensures From(us + [u], start) == if u.timestamp < start then From(us, start) else From(us, start) + [u]
  {
    assert (us + [u])[..|us|] == us;
  }

  lemma SumsAppend(us: seq<Usage>, u: Usage)
    ensures Total(us + [u]) == Total(us) + u.cost
    ensures Tokens(us + [u]) == Tokens(us) + u.tokens
    ensures CacheReads(us + [u]) == CacheReads(us) + u.cacheRead
  {
    assert (us + [u])[..|us|] == us;
  }

  lemma OfAppend(us: seq<Usage>, u: Usage, agent: string)
    ensures Of(us + [u], agent) == if u.agent == agent then Of(us, agent) + [u] else Of(us, agent)
  {
    assert (us + [u])[..|us|] == us;
  }

  /** The line decodes to a record that is not before `since`; a `since` of zero leaves out nothing. */
  predicate Counts(line: Line, since: Option<int>) {
    line.Entry? && !(since.Some? && since.value != 0 && line.usage.timestamp < since.value)
  }

  function Records(lines: seq<Line>, since: Option<int>): seq<Usage> {
    if lines == [] then []
    else
      var before, last := Records(lines[..|lines| - 1], since), lines[|lines| - 1];
      if Counts(last, since) then before + [last.usage] else before
  }

  /** The agents in the order they first appear. */
  function Agents(us: seq<Usage>): seq<string> {
    if us == [] then []
    else
      var before, last := Agents(us[..|us| - 1]), us[|us| - 1].agent;
      if last in before then before else before + [last]
  }

  datatype Bucket = Bucket(cost: real, tokens: int, calls: nat)

  function BucketOf(us: seq<Usage>, agent: string): Bucket {
    var own := Of(us, agent);
    Bucket(Total(own), Tokens(own), |own|)
  }

  /** `round(x, 4)` */
  function Round4(x: real): real {
    RoundHalfEven(x * 10000.0) as real / 10000.0
  }

  datatype Summary = Summary(
    records: nat, totalCost: real, totalTokens: int, cacheReads: int, agents: seq<string>, byAgent: map<string, Bucket>)

  function RoundBucket(b: Bucket): Bucket {
    b.(cost := Round4(b.cost))
  }

  /** `s` reports on the records `us`: counts and sums over all of them and over each agent, with rounded costs. */
  ghost predicate Reports(s: Summary, us: seq<Usage>) {
    && s.records == |us| && s.totalCost == Round4(Total(us)) && s.totalTokens == Tokens(us)
    && s.cacheReads == CacheReads(us)
    && s.agents == Agents(us)
    && (forall agent :: agent in s.byAgent <==> agent in s.agents)
    && (forall agent :: agent in s.byAgent ==> s.byAgent[agent] == RoundBucket(BucketOf(us, agent)))
  }

  lemma AgentsAppend(us: seq<Usage>, u: Usage)
    ensures Agents(us + [u]) == if u.agent in Agents(us) then Agents(us) else Agents(us) + [u.agent]
  {
    assert (us + [u])[..|us|] == us;
  }

  function Charge(b: Bucket, u: Usage): Bucket {
    Bucket(b.cost + u.cost, b.tokens + u.tokens, b.calls + 1)
  }

  lemma BucketAppend(us: seq<Usage>, u: Usage, agent: string)
    ensures BucketOf(us + [u], agent)
         == if u.agent == agent then Charge(BucketOf(us, agent), u) else BucketOf(us, agent)
  {
    OfAppend(us, u, agent);
    SumsAppend(Of(us, agent), u);
  }

  lemma {:induction false} AgentsCover(us: seq<Usage>)
    ensures forall agent :: agent in Agents(us) <==> exists i :: 0 <= i < |us| && us[i].agent == agent
    ensures forall i, j :: 0 <= i < j < |Agents(us)| ==> Agents(us)[i] != Agents(us)[j]
  {
    if us != [] {
      var init := us[..|us| - 1];
      AgentsCover(init);
      assert forall i :: 0 <= i < |init| ==> init[i] == us[i];
    }
  }

  lemma {:induction false} AbsentAgent(us: seq<Usage>, agent: string)
    requires forall i :: 0 <= i < |us| ==> us[i].agent != agent
    ensures Of(us, agent) == []
  {
    if us != [] {
      AbsentAgent(us[..|us| - 1], agent);
    }
  }

  /** `table` holds the unrounded buckets of exactly the agents seen. */
  ghost predicate Tracks(us: seq<Usage>, table: map<string, Bucket>) {
    && (forall agent :: agent in table <==> agent in Agents(us))
    && (forall agent :: agent in table ==> table[agent] == BucketOf(us, agent))
  }

  /** `by_agent.setdefault(agent, empty)` */
  function BucketIn(table: map<string, Bucket>, agent: string): Bucket {
    if agent in table then table[agent] else Bucket(0.0, 0, 0)
  }

  /** An agent that is not in the table has an empty bucket. */
  lemma BucketInTracks(us: seq<Usage>, table: map<string, Bucket>, agent: string)
    requires Tracks(us, table)
    ensures BucketIn(table, agent) == BucketOf(us, agent)
  {
    if agent !in table {
      AgentsCover(us);
      AbsentAgent(us, agent);
    }
  }

  lemma TracksAppend(us: seq<Usage>, u: Usage, table: map<string, Bucket>)
    requires Tracks(us, table)
    ensures Tracks(us + [u], table[u.agent := Charge(BucketIn(table, u.agent), u)])
  {
    var longer := table[u.agent := Charge(BucketIn(table, u.agent), u)];
    BucketInTracks(us, table, u.agent);
    AgentsAppend(us, u);
    assert forall agent :: agent in longer <==> agent in Agents(us + [u]);
    forall agent | agent in longer ensures longer[agent] == BucketOf(us + [u], agent) {
      BucketAppend(us, u, agent);
    }
  }

  /** The running figures of the loop. */
  datatype Running = Running(
    count: nat, cost: real, tokens: int, cacheReads: int, agents: seq<string>, byAgent: map<string, Bucket>)

  const NOTHING := Running(0, 0.0, 0, 0, [], map[])

  /** One loop step for a record that counts. */
  function Add(r: Running, u: Usage): Running {
    Running(r.count + 1, r.cost + u.cost, r.tokens + u.tokens, r.cacheReads + u.cacheRead,
            if u.agent in r.byAgent then r.agents else r.agents + [u.agent],
            r.byAgent[u.agent := Charge(BucketIn(r.byAgent, u.agent), u)])
  }

  /** The figures are those of the records `us`. */
  ghost predicate Sums(r: Running, us: seq<Usage>) {
    Amounts(r, us) && r.agents == Agents(us) && Tracks(us, r.byAgent)
  }

  predicate Amounts(r: Running, us: seq<Usage>) {
    r.count == |us| && r.cost == Total(us) && r.tokens == Tokens(us) && r.cacheReads == CacheReads(us)
  }

  lemma AmountsAdd(r: Running, us: seq<Usage>, u: Usage)
    requires Amounts(r, us)
    ensures Amounts(Add(r, u), us + [u])
  {
    SumsAppend(us, u);
  }

  lemma SumsAdd(r: Running, us: seq<Usage>, u: Usage)
    requires Sums(r, us)
    ensures Sums(Add(r, u), us + [u])
  {
    AmountsAdd(r, us, u);
    AgentsAppend(us, u);
    TracksAppend(us, u, r.byAgent);
  }

  lemma SumsReport(r: Running, us: seq<Usage>)
    requires Sums(r, us)
    ensures Reports(Rounded(r), us)
  {
  }

  /** The returned summary: costs are rounded at the end. */
  function Rounded(r: Running): Summary {
    Summary(r.count, Round4(r.cost), r.tokens, r.cacheReads, r.agents,
            map a | a in r.byAgent :: RoundBucket(r.byAgent[a]))
  }

  lemma RecordsTake(lines: seq<Line>, since: Option<int>, i: nat)
    requires i < |lines|
    ensures Records(lines[..i + 1], since)
         == if Counts(lines[i], since) then Records(lines[..i], since) + [lines[i].usage]
            else Records(lines[..i], since)
  {
    assert lines[..i + 1][..i] == lines[..i];
  }

  class UsageLedger {
    var lines: seq<Line>

    constructor ()
      ensures lines == []
    {
      lines := [];
    }

    method Record(u: Usage)
      modifies this
      ensures lines == old(lines) + [Entry(u)]
    {
      lines := lines + [Entry(u)];
    }

    /** `summarize`: one pass over the lines with running figures, rounded at the end. */
    method Summarize(since: Option<int>) returns (s: Summary)
      ensures Reports(s, Records(lines, since))
    {
      var r := NOTHING;
      for i := 0 to |lines|
        invariant Sums(r, Records(lines[..i], since))
      {
        RecordsTake(lines, since, i);
        if Counts(lines[i], since) {
          SumsAdd(r, Records(lines[..i], since), lines[i].usage);
          r := Add(r, lines[i].usage);
        }
      }
      assert lines[..|lines|] == lines;
      SumsReport(r, Records(lines, since));
      s := Rounded(r);
    }
  }

  class Agent {
    const name: string
    const ledger: UsageLedger
    var usage: seq<Usage>

    constructor (name: string, ledger: UsageLedger)
      ensures this.name == name && this.ledger == ledger && usage == []
    {
      this.name, this.ledger, this.usage := name, ledger, [];
    }

    /** One call: its usage goes under the agent's name to the ledger and to the agent's own run. */
    method Think(u: Usage)
      modifies this`usage, ledger
      ensures usage == old(usage) + [u.(agent := name)]
      ensures ledger.lines == old(ledger.lines) + [Entry(u.(agent := name))]
    {
      var own := u.(agent := name);
      ledger.Record(own);
      usage := usage + [own];
    }
  }

  // ----- Conservation -----

  lemma {:induction false} TotalConcat(a: seq<Usage>, b: seq<Usage>)
    ensures Total(a + b) == Total(a) + Total(b)
  {
    if b == [] {
      assert a + b == a;
    } else {
      assert (a + b)[..|a + b| - 1] == a + b[..|b| - 1];
      TotalConcat(a, b[..|b| - 1]);
    }
  }

  function SumOver(us: seq<Usage>, agents: seq<string>): real {
    if agents == [] then 0.0 else SumOver(us, agents[..|agents| - 1]) + Total(Of(us, agents[|agents| - 1]))
  }

  lemma {:induction false} SumOverAppend(us: seq<Usage>, u: Usage, agents: seq<string>)
    requires forall i, j :: 0 <= i < j < |agents| ==> agents[i] != agents[j]
    ensures SumOver(us + [u], agents) == SumOver(us, agents) + if u.agent in agents then u.cost else 0.0
  {
    if agents != [] {
      var init, last := agents[..|agents| - 1], agents[|agents| - 1];
      SumOverAppend(us, u, init);
      assert agents == init + [last];
      OfAppend(us, u, last);
      SumsAppend(Of(us, last), u);
    }
  }

  /** The unrounded total is the sum of the buckets. */
  lemma {:induction false} TotalIsSumOfBuckets(us: seq<Usage>)
    ensures Total(us) == SumOver(us, Agents(us))
  {
    if us != [] {
      var init, last := us[..|us| - 1], us[|us| - 1];
      var agents := Agents(init);
      TotalIsSumOfBuckets(init);
      AgentsCover(init);
      assert us == init + [last];
      SumOverAppend(init, last, agents);
      SumsAppend(init, last);
      AgentsAppend(init, last);
      if last.agent !in agents {
        AbsentAgent(init, last.agent);
        assert (agents + [last.agent])[..|agents|] == agents;
        OfAppend(init, last, last.agent);
        SumsAppend([], last);
        assert [] + [last] == [last];
      }
    }
  }

  function SumReported(s: Summary, agents: seq<string>): real
    requires forall i :: 0 <= i < |agents| ==> agents[i] in s.byAgent
  {
    if agents == [] then 0.0 else SumReported(s, agents[..|agents| - 1]) + s.byAgent[agents[|agents| - 1]].cost
  }

  lemma RoundingError(x: real)
    ensures x - 0.00005 <= Round4(x) <= x + 0.00005
  {
    RoundMonotone(x * 10000.0, x * 10000.0);
  }

  lemma {:induction false} SumReportedError(s: Summary, us: seq<Usage>, agents: seq<string>)
    requires Reports(s, us) && forall i :: 0 <= i < |agents| ==> agents[i] in s.byAgent
    ensures SumOver(us, agents) - |agents| as real * 0.00005 <= SumReported(s, agents)
    ensures SumReported(s, agents) <= SumOver(us, agents) + |agents| as real * 0.00005
  {
    if agents != [] {
      SumReportedError(s, us, agents[..|agents| - 1]);
      RoundingError(Total(Of(us, agents[|agents| - 1])));
    }
  }

  /** With `k` agents, the reported total and the sum of the reported buckets differ by at most (k + 1) * 0.00005. */
  lemma RoundedTotalsClose(s: Summary, us: seq<Usage>)
    requires Reports(s, us)
    ensures var k := (|s.agents| + 1) as real;
      SumReported(s, s.agents) - k * 0.00005 <= s.totalCost <= SumReported(s, s.agents) + k * 0.00005
  {
    TotalIsSumOfBuckets(us);
    SumReportedError(s, us, s.agents);
    RoundingError(Total(us));
  }

  /** The figures of a list of records. */
  datatype Figures = Figures(cost: real, tokens: int, cacheReads: int, calls: nat) {
    function Plus(other: Figures): Figures {
      Figures(cost + other.cost, tokens + other.tokens, cacheReads + other.cacheReads, calls + other.calls)
    }
  }

  function FiguresOf(us: seq<Usage>): Figures {
    Figures(Total(us), Tokens(us), CacheReads(us), |us|)
  }

  function OneCall(u: Usage): Figures {
    Figures(u.cost, u.tokens, u.cacheRead, 1)
  }

  lemma FiguresAppend(us: seq<Usage>, u: Usage)
    ensures FiguresOf(us + [u]) == FiguresOf(us).Plus(OneCall(u))
  {
    SumsAppend(us, u);
  }

  lemma UntilAppend(us: seq<Usage>, u: Usage, end: int)
    ensures Until(us + [u], end) == if u.timestamp < end then Until(us, end) + [u] else Until(us, end)
  {
    assert (us + [u])[..|us|] == us;
  }

  lemma {:induction false} SplitAt(us: seq<Usage>, b: int)
    ensures FiguresOf(us) == FiguresOf(Until(us, b)).Plus(FiguresOf(From(us, b)))
  {
    if us != [] {
      var init, last := us[..|us| - 1], us[|us| - 1];
      assert us == init + [last];
      SplitAt(init, b);
      FiguresAppend(init, last);
      UntilAppend(init, last, b);
      FromAppend(init, last, b);
      FiguresAppend(if last.timestamp < b then Until(init, b) else From(init, b), last);
    }
  }

  /** Cutting in time and picking an agent commute. */
  lemma {:induction false} UntilOf(us: seq<Usage>, agent: string, b: int)
    ensures Of(Until(us, b), agent) == Until(Of(us, agent), b)
  {
    if us != [] {
      var init, last := us[..|us| - 1], us[|us| - 1];
      assert us == init + [last];
      UntilOf(init, agent, b);
      OfAppend(init, last, agent);
      UntilAppend(init, last, b);
      OfAppend(Until(init, b), last, agent);
      UntilAppend(Of(init, agent), last, b);
    }
  }

  lemma {:induction false} FromOf(us: seq<Usage>, agent: string, b: int)
    ensures Of(From(us, b), agent) == From(Of(us, agent), b)
  {
    if us != [] {
      var init, last := us[..|us| - 1], us[|us| - 1];
      assert us == init + [last];
      FromOf(init, agent, b);
      OfAppend(init, last, agent);
      FromAppend(init, last, b);
      OfAppend(From(init, b), last, agent);
      FromAppend(Of(init, agent), last, b);
    }
  }

  /** What is counted from `b` on is counted from `since` on, too; `since` may be absent or zero. */
  predicate Earlier(since: Option<int>, b: int) {
    b != 0 && (since.Some? && since.value != 0 ==> since.value <= b)
  }

  lemma {:induction false} LaterRecords(lines: seq<Line>, since: Option<int>, b: int)
    requires Earlier(since, b)
    ensures Records(lines, Some(b)) == From(Records(lines, since), b)
  {
    if lines != [] {
      var init, last := lines[..|lines| - 1], lines[|lines| - 1];
      LaterRecords(init, since, b);
      if last.Entry? {
        FromAppend(Records(init, since), last.usage, b);
      }
    }
  }

  /** Summaries add over adjacent windows, as a whole and for every agent: what two summaries differ by are the records
      between their start times; the earlier one may be of the whole ledger. */
  lemma WindowsAdd(lines: seq<Line>, since: Option<int>, b: int, agent: string)
    requires Earlier(since, b)
    ensures var all, between, later := Records(lines, since), Until(Records(lines, since), b), Records(lines, Some(b));
      && FiguresOf(all) == FiguresOf(between).Plus(FiguresOf(later))
      && FiguresOf(Of(all, agent)) == FiguresOf(Of(between, agent)).Plus(FiguresOf(Of(later, agent)))
  {
    var all := Records(lines, since);
    LaterRecords(lines, since, b);
    SplitAt(all, b);
    UntilOf(all, agent, b);
    FromOf(all, agent, b);
    SplitAt(Of(all, agent), b);
  }

  // ----- Any interleaving of agents -----

  /** One call: which agent makes it, and the usage it records. */
  datatype Call = Call(who: nat, usage: Usage)

  /** What the ledger gets from calls in the order they happen. */
  function LedgerOf(calls: seq<Call>): seq<Usage> {
    seq(|calls|, i requires 0 <= i < |calls| => calls[i].usage)
  }

  /** The run of agent `k`. */
  function RunOf(calls: seq<Call>, k: nat): seq<Usage> {
    if calls == [] then []
    else
      var last := calls[|calls| - 1];
      RunOf(calls[..|calls| - 1], k) + if last.who == k then [last.usage] else []
  }

  /** The run totals of the first `n` agents together. */
  function SumRuns(calls: seq<Call>, n: nat): real {
    if n == 0 then 0.0 else SumRuns(calls, n - 1) + Total(RunOf(calls, n - 1))
  }

  lemma RunAppend(calls: seq<Call>, call: Call, k: nat)
    ensures RunOf(calls + [call], k) == if call.who == k then RunOf(calls, k) + [call.usage] else RunOf(calls, k)
  {
    assert (calls + [call])[..|calls|] == calls;
  }

  lemma RunTotalAppend(calls: seq<Call>, call: Call, k: nat)
    ensures Total(RunOf(calls + [call], k)) == Total(RunOf(calls, k)) + if call.who == k then call.usage.cost else 0.0
  {
    RunAppend(calls, call, k);
    SumsAppend(RunOf(calls, k), call.usage);
  }

  lemma {:induction false} SumRunsAppend(calls: seq<Call>, call: Call, n: nat)
    ensures SumRuns(calls + [call], n) == SumRuns(calls, n) + if call.who < n then call.usage.cost else 0.0
  {
    if n > 0 {
      SumRunsAppend(calls, call, n - 1);
      RunTotalAppend(calls, call, n - 1);
    }
  }

  lemma LedgerAppend(calls: seq<Call>, call: Call)
    ensures LedgerOf(calls + [call]) == LedgerOf(calls) + [call.usage]
  {
  }

  lemma {:induction false} NoRuns(n: nat)
    ensures SumRuns([], n) == 0.0
  {
    if n > 0 {
      NoRuns(n - 1);
    }
  }

  lemma {:induction false} LedgerTotal(calls: seq<Call>, n: nat)
    requires forall i :: 0 <= i < |calls| ==> calls[i].who < n
    ensures Total(LedgerOf(calls)) == SumRuns(calls, n)
  {
    if calls == [] {
      NoRuns(n);
    } else {
      var init, last := calls[..|calls| - 1], calls[|calls| - 1];
      assert calls == init + [last];
      LedgerTotal(init, n);
      SumRunsAppend(init, last, n);
      LedgerAppend(init, last);
      SumsAppend(LedgerOf(init), last.usage);
    }
  }

  /** Whatever the interleaving of `n` agents, the ledger total is the sum of the agents' run totals and of the ledger's
      buckets. */
  lemma LedgerIsSumOfRuns(calls: seq<Call>, n: nat)
    requires forall i :: 0 <= i < |calls| ==> calls[i].who < n
    ensures Total(LedgerOf(calls)) == SumRuns(calls, n) == SumOver(LedgerOf(calls), Agents(LedgerOf(calls)))
  {
    LedgerTotal(calls, n);
    TotalIsSumOfBuckets(LedgerOf(calls));
  }

  function Entries(us: seq<Usage>): seq<Line> {
    seq(|us|, i requires 0 <= i < |us| => Entry(us[i]))
  }

  /** What is written to the ledger is what a summary of all of it counts. */
  lemma {:induction false} EntriesCount(us: seq<Usage>)
    ensures Records(Entries(us), None) == us
  {
    if us != [] {
      var init := us[..|us| - 1];
      EntriesCount(init);
      assert Entries(us)[..|us| - 1] == Entries(init);
      assert us == init + [us[|us| - 1]];
    }
  }

  /** The records of agent `k`, when it alone records under its name. */
  lemma {:induction false} OfIsRun(calls: seq<Call>, k: nat, name: string)
    requires forall i :: 0 <= i < |calls| ==> (calls[i].usage.agent == name <==> calls[i].who == k)
    ensures Of(LedgerOf(calls), name) == RunOf(calls, k)
  {
    if calls != [] {
      var init, last := calls[..|calls| - 1], calls[|calls| - 1];
      assert calls == init + [last];
      OfIsRun(init, k, name);
      LedgerAppend(init, last);
      OfAppend(LedgerOf(init), last.usage, name);
      RunAppend(init, last, k);
    }
  }

  /** End to end: the summary of a ledger that `n` agents have written reports the sum of their run totals, rounded, and
      under the name of each agent the total of its own run. */
  lemma SummaryOfRuns(s: Summary, calls: seq<Call>, n: nat, k: nat, name: string)
    requires Reports(s, Records(LinesAfter([], calls), None))
    requires forall i :: 0 <= i < |calls| ==> calls[i].who < n
    requires forall i :: 0 <= i < |calls| ==> (calls[i].usage.agent == name <==> calls[i].who == k)
    ensures s.records == |calls| && s.totalCost == Round4(SumRuns(calls, n))
    ensures name in s.byAgent <==> RunOf(calls, k) != []
    ensures name in s.byAgent ==>
      && s.byAgent[name].cost == Round4(Total(RunOf(calls, k)))
      && s.byAgent[name].tokens == Tokens(RunOf(calls, k)) && s.byAgent[name].calls == |RunOf(calls, k)|
  {
    var us := LedgerOf(calls);
    assert [] + Entries(us) == Entries(us);
    EntriesCount(us);
    LedgerTotal(calls, n);
    OfIsRun(calls, k, name);
    AgentPresent(us, name);
  }

  lemma {:induction false} AgentPresent(us: seq<Usage>, agent: string)
    ensures agent in Agents(us) <==> Of(us, agent) != []
  {
    if us != [] {
      var init, last := us[..|us| - 1], us[|us| - 1];
      assert us == init + [last];
      AgentPresent(init, agent);
      AgentsAppend(init, last);
      OfAppend(init, last, agent);
    }
  }

  /** The usages of the agents after some calls, on top of what they had. */
  function RunsAfter(runs: seq<seq<Usage>>, calls: seq<Call>): seq<seq<Usage>> {
    seq(|runs|, k requires 0 <= k < |runs| => runs[k] + RunOf(calls, k))
  }

  lemma RunsAppend(runs: seq<seq<Usage>>, calls: seq<Call>, call: Call)
    requires call.who < |runs|
    ensures RunsAfter(runs, calls + [call])
         == RunsAfter(runs, calls)[call.who := RunsAfter(runs, calls)[call.who] + [call.usage]]
  {
    forall k | 0 <= k < |runs|
      ensures runs[k] + RunOf(calls + [call], k)
           == if k == call.who then runs[k] + RunOf(calls, k) + [call.usage] else runs[k] + RunOf(calls, k)
    {
      RunAppend(calls, call, k);
    }
  }

  /** The ledger file after some calls. */
  function LinesAfter(lines: seq<Line>, calls: seq<Call>): seq<Line> {
    lines + Entries(LedgerOf(calls))
  }

  lemma LinesAppend(lines: seq<Line>, calls: seq<Call>, call: Call)
    ensures LinesAfter(lines, calls + [call]) == LinesAfter(lines, calls) + [Entry(call.usage)]
  {
    LedgerAppend(calls, call);
    assert Entries(LedgerOf(calls) + [call.usage]) == Entries(LedgerOf(calls)) + [Entry(call.usage)];
  }

  lemma NothingYet(runs: seq<seq<Usage>>, lines: seq<Line>)
    ensures RunsAfter(runs, []) == runs && LinesAfter(lines, []) == lines
  {
    forall k | 0 <= k < |runs| ensures runs[k] + RunOf([], k) == runs[k] {
    }
    assert Entries(LedgerOf([])) == [];
  }

  function Usages(agents: seq<Agent>): seq<seq<Usage>>
    reads agents
  {
    seq(|agents|, k requires 0 <= k < |agents| reads agents => agents[k].usage)
  }

  /** Every usage goes under the name of the agent that makes the call. */
  function Named(names: seq<string>, schedule: seq<Call>): seq<Call>
    requires forall i :: 0 <= i < |schedule| ==> schedule[i].who < |names|
  {
    seq(|schedule|, i requires 0 <= i < |schedule| => NamedCall(schedule[i], names[schedule[i].who]))
  }

  function NamedCall(call: Call, name: string): Call {
    call.(usage := call.usage.(agent := name))
  }

  /** Agents sharing one ledger, calling in the order of the schedule: the ledger gets all calls, each agent its own. */
  method RunAll(agents: seq<Agent>, ledger: UsageLedger, names: seq<string>, schedule: seq<Call>)
    requires |names| == |agents| && forall i :: 0 <= i < |schedule| ==> schedule[i].who < |agents|
    requires forall k :: 0 <= k < |agents| ==> agents[k].ledger == ledger && agents[k].name == names[k]
    requires forall k, l :: 0 <= k < l < |agents| ==> agents[k] != agents[l]
    modifies ledger, agents
    ensures ledger.lines == LinesAfter(old(ledger.lines), Named(names, schedule))
    ensures Usages(agents) == RunsAfter(old(Usages(agents)), Named(names, schedule))
  {
    ghost var runs, lines, calls := Usages(agents), ledger.lines, Named(names, schedule);
    NothingYet(runs, lines);
    for i := 0 to |schedule|
      invariant ledger.lines == LinesAfter(lines, calls[..i])
      invariant Usages(agents) == RunsAfter(runs, calls[..i])
    {
      assert calls[..i + 1] == calls[..i] + [calls[i]];
      LinesAppend(lines, calls[..i], calls[i]);
      RunsAppend(runs, calls[..i], calls[i]);
      var who := schedule[i].who;
      ghost var before := Usages(agents);
      agents[who].Think(schedule[i].usage);
      assert Usages(agents) == before[who := before[who] + [calls[i].usage]];
    }
    assert calls[..|schedule|] == calls;
  }
}

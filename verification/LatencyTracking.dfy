/** Latency trackers per test category, and the overall statistics they combine to. */
module LatencyTracking {
  import opened OrderStatistics
  import opened Outcomes

  datatype Metrics = Metrics(
    ttfb: real, ttfc: Option<real>, duration: real, inputTokens: int, outputTokens: int, reasoningTokens: int)
  {
    /** `tokens_per_second` */
    function TokensPerSecond(): real {
      if duration > 0.0 then outputTokens as real / duration else 0.0
    }
  }

  // ----- Statistics of a list of metrics -----

  datatype Summary = Summary(
    mean: real, median: real, p50: real, p90: real, p95: real, p99: real, min: real, max: real)

  /** `_calculate_percentile_stats` without the standard deviation. */
  function Summarize(values: seq<real>): Summary {
    if values == [] then Summary(0.0, 0.0, 0.0, 0.0, 0.0, 0.0, 0.0, 0.0)
    else
      Summary(Mean(values), Median(values), Percentile(values, 50.0), Percentile(values, 90.0),
              Percentile(values, 95.0), Percentile(values, 99.0), Min(values), Max(values))
  }

  /** What `f` reads from one request. */
  function Read(m: Metrics, f: Metrics -> Option<real>): seq<real> {
    match f(m)
    case Some(x) => [x]
    case None => []
  }

  /** A list comprehension with a filter. */
  function Collect(ms: seq<Metrics>, f: Metrics -> Option<real>): seq<real> {
    if ms == [] then [] else Read(ms[0], f) + Collect(ms[1..], f)
  }

  const TTFB := (m: Metrics) => Some(m.ttfb)
  const TTFC := (m: Metrics) => m.ttfc
  const DURATION := (m: Metrics) => Some(m.duration)
  const TPS := (m: Metrics) => if m.TokensPerSecond() > 0.0 then Some(m.TokensPerSecond()) else None
  const INPUT := (m: Metrics) => Some(m.inputTokens as real)
  const OUTPUT := (m: Metrics) => Some(m.outputTokens as real)
  const REASONING := (m: Metrics) => Some(m.reasoningTokens as real)

  datatype Stats = Stats(
    ttfb: Summary, ttfc: Option<Summary>, duration: Summary, tps: Summary,
    avgInput: real, avgOutput: real, avgReasoning: real, totalTokens: real, samples: nat)

  /** `LatencyTracker.get_stats` */
  function StatsOf(ms: seq<Metrics>): Stats
    requires ms != []
  {
    var n := |ms| as real;
    var input, output, reasoning := Sum(Collect(ms, INPUT)), Sum(Collect(ms, OUTPUT)), Sum(Collect(ms, REASONING));
    var ttfc := Collect(ms, TTFC);
    Stats(Summarize(Collect(ms, TTFB)),
          if ttfc == [] then None else Some(Summarize(ttfc)),
          Summarize(Collect(ms, DURATION)),
          Summarize(Collect(ms, TPS)),
          input / n, output / n, reasoning / n, input + output + reasoning, |ms|)
  }

  // ----- The figures in plain terms -----

  lemma QuotientTimes(q: real, x: real, n: real)
    requires n > 0.0 && q == x / n
    ensures q * n == x
  {
  }

  lemma SummaryPercentiles(values: seq<real>)
    requires values != []
    ensures Summarize(values).min == Percentile(values, 0.0) && Summarize(values).max == Percentile(values, 100.0)
    ensures Summarize(values).median == Summarize(values).p50 == Percentile(values, 50.0)
    ensures Summarize(values).p90 == Percentile(values, 90.0)
    ensures Summarize(values).p95 == Percentile(values, 95.0)
    ensures Summarize(values).p99 == Percentile(values, 99.0)
  {
    PercentileEnds(values);
    MedianIsP50(values);
  }

  /** Every figure of a summary. The percentiles are fixed by their interpolation. */
  lemma SummaryFigures(values: seq<real>)
    requires values != []
    ensures Summarize(values).mean * |values| as real == Sum(values)
    ensures Summarize(values).min in values && Summarize(values).max in values
    ensures forall x <- values :: Summarize(values).min <= x <= Summarize(values).max
    ensures Summarize(values).median == Summarize(values).p50 == Percentile(values, 50.0)
    ensures Summarize(values).p90 == Percentile(values, 90.0)
    ensures Summarize(values).p95 == Percentile(values, 95.0)
    ensures Summarize(values).p99 == Percentile(values, 99.0)
  {
    QuotientTimes(Summarize(values).mean, Sum(values), |values| as real);
    MinMaxBound(values);
    SummaryPercentiles(values);
  }

  /** No request, no figures: everything is zero. */
  lemma NoFigures()
    ensures Summarize([]) == Summary(0.0, 0.0, 0.0, 0.0, 0.0, 0.0, 0.0, 0.0)
  {
  }

  /** The times to the first chunk of the requests that have one. */
  function FirstChunks(ms: seq<Metrics>): seq<real> {
    if ms == [] then []
    else if ms[0].ttfc == None then FirstChunks(ms[1..])
    else [ms[0].ttfc.value] + FirstChunks(ms[1..])
  }

  /** Output tokens over duration, for the requests where both are positive. */
  function Rates(ms: seq<Metrics>): seq<real>
  {
    if ms == [] then []
    else if ms[0].duration > 0.0 && ms[0].outputTokens > 0 then
      [ms[0].outputTokens as real / ms[0].duration] + Rates(ms[1..])
    else Rates(ms[1..])
  }

  function InputTokens(ms: seq<Metrics>): int {
    if ms == [] then 0 else ms[0].inputTokens + InputTokens(ms[1..])
  }

  function OutputTokens(ms: seq<Metrics>): int {
    if ms == [] then 0 else ms[0].outputTokens + OutputTokens(ms[1..])
  }

  function ReasoningTokens(ms: seq<Metrics>): int {
    if ms == [] then 0 else ms[0].reasoningTokens + ReasoningTokens(ms[1..])
  }

  lemma PositiveQuotient(x: real, y: real)
    requires x > 0.0 && y > 0.0
    ensures x / y > 0.0
  {
    DivideMonotone(0.0, x, y);
    QuotientTimes(x / y, x, y);
  }

  lemma RatePositive(m: Metrics)
    ensures m.TokensPerSecond() > 0.0 <==> m.duration > 0.0 && m.outputTokens > 0
  {
    if m.duration > 0.0 && m.outputTokens > 0 {
      PositiveQuotient(m.outputTokens as real, m.duration);
    } else if m.duration > 0.0 {
      DivideMonotone(m.outputTokens as real, 0.0, m.duration);
    }
  }

  lemma {:induction false} TimesAre(ms: seq<Metrics>)
    ensures Collect(ms, TTFB) == seq(|ms|, i requires 0 <= i < |ms| => ms[i].ttfb)
    ensures Collect(ms, DURATION) == seq(|ms|, i requires 0 <= i < |ms| => ms[i].duration)
  {
    if ms != [] {
      TimesAre(ms[1..]);
    }
  }

  lemma {:induction false} FirstChunksAre(ms: seq<Metrics>)
    ensures Collect(ms, TTFC) == FirstChunks(ms)
  {
    if ms != [] {
      FirstChunksAre(ms[1..]);
    }
  }

  lemma {:induction false} RatesAre(ms: seq<Metrics>)
    ensures Collect(ms, TPS) == Rates(ms)
  {
    if ms != [] {
      RatesAre(ms[1..]);
      RatePositive(ms[0]);
    }
  }

  lemma {:induction false} TokensAre(ms: seq<Metrics>)
    ensures Sum(Collect(ms, INPUT)) == InputTokens(ms) as real
    ensures Sum(Collect(ms, OUTPUT)) == OutputTokens(ms) as real
    ensures Sum(Collect(ms, REASONING)) == ReasoningTokens(ms) as real
  {
    if ms != [] {
      TokensAre(ms[1..]);
      SumSplit(Read(ms[0], INPUT), Collect(ms[1..], INPUT));
      SumSplit(Read(ms[0], OUTPUT), Collect(ms[1..], OUTPUT));
      SumSplit(Read(ms[0], REASONING), Collect(ms[1..], REASONING));
    }
  }

  /** The summaries of the statistics, from the fields of the requests. */
  lemma StatsSummaries(ms: seq<Metrics>)
    requires ms != []
    ensures StatsOf(ms).ttfb == Summarize(seq(|ms|, i requires 0 <= i < |ms| => ms[i].ttfb))
    ensures StatsOf(ms).duration == Summarize(seq(|ms|, i requires 0 <= i < |ms| => ms[i].duration))
    ensures StatsOf(ms).ttfc == (if FirstChunks(ms) == [] then None else Some(Summarize(FirstChunks(ms))))
    ensures StatsOf(ms).tps == Summarize(Rates(ms))
  {
    TimesAre(ms);
    FirstChunksAre(ms);
    RatesAre(ms);
  }

  /** The token counts of the statistics, from the fields of the requests. */
  lemma StatsTokens(ms: seq<Metrics>)
    requires ms != []
    ensures StatsOf(ms).avgInput == InputTokens(ms) as real / |ms| as real
    ensures StatsOf(ms).avgOutput == OutputTokens(ms) as real / |ms| as real
    ensures StatsOf(ms).avgReasoning == ReasoningTokens(ms) as real / |ms| as real
    ensures StatsOf(ms).totalTokens == (InputTokens(ms) + OutputTokens(ms) + ReasoningTokens(ms)) as real
    ensures StatsOf(ms).samples == |ms|
  {
    TokensAre(ms);
  }

  // ----- The statistics do not depend on the order of the samples -----

  lemma SameSorted(a: seq<real>, b: seq<real>, p: real)
    requires a != [] && |a| == |b| && Sort(a) == Sort(b) && 0.0 <= p <= 100.0
    ensures b != [] && Percentile(a, p) == Percentile(b, p) && Median(a) == Median(b)
  {
  }

  lemma SameEnds(a: seq<real>, b: seq<real>)
    requires a != [] && |a| == |b| && Sort(a) == Sort(b)
    ensures b != [] && Min(a) == Min(b) && Max(a) == Max(b)
  {
    MinMaxSorted(a);
    MinMaxSorted(b);
  }

  lemma SummarizePermutation(a: seq<real>, b: seq<real>)
    requires multiset(a) == multiset(b)
    ensures Summarize(a) == Summarize(b)
  {
    assert |a| == |multiset(a)| && |b| == |multiset(b)|;
    SumPermutation(a, b);
    SortPermutation(a, b);
    if a != [] {
      SameEnds(a, b);
      SameSorted(a, b, 50.0);
      SameSorted(a, b, 90.0);
      SameSorted(a, b, 95.0);
      SameSorted(a, b, 99.0);
    }
  }

  lemma {:induction false} CollectSplit(a: seq<Metrics>, b: seq<Metrics>, f: Metrics -> Option<real>)
    ensures Collect(a + b, f) == Collect(a, f) + Collect(b, f)
  {
    if a == [] {
      assert a + b == b;
    } else {
      assert (a + b)[1..] == a[1..] + b;
      CollectSplit(a[1..], b, f);
    }
  }

  lemma CollectCons(m: Metrics, rest: seq<Metrics>, f: Metrics -> Option<real>)
    ensures Collect([m] + rest, f) == Read(m, f) + Collect(rest, f)
  {
    assert ([m] + rest)[1..] == rest;
  }

  lemma Shuffle(x: seq<real>, y: seq<real>, z: seq<real>)
    ensures multiset(x + (y + z)) == multiset(y) + multiset(x + z)
  {
  }

  lemma CollectMiddle(before: seq<Metrics>, m: Metrics, after: seq<Metrics>, f: Metrics -> Option<real>)
    ensures multiset(Collect(before + ([m] + after), f)) == multiset(Read(m, f)) + multiset(Collect(before + after, f))
  {
    CollectSplit(before, [m] + after, f);
    CollectCons(m, after, f);
    CollectSplit(before, after, f);
    Shuffle(Collect(before, f), Read(m, f), Collect(after, f));
  }

  lemma CutOut(b: seq<Metrics>, i: nat)
    requires i < |b|
    ensures b == b[..i] + ([b[i]] + b[i + 1..])
  {
  }

  lemma {:induction false} CollectPermutation(a: seq<Metrics>, b: seq<Metrics>, f: Metrics -> Option<real>)
    requires multiset(a) == multiset(b)
    ensures multiset(Collect(a, f)) == multiset(Collect(b, f))
  {
    if a == [] {
      assert |b| == |multiset(b)|;
    } else {
      var i := MatchHead(a, b);
      CollectPermutation(a[1..], Without(b, i), f);
      CutOut(a, 0);
      CutOut(b, i);
      CollectMiddle([], a[0], a[1..], f);
      CollectMiddle(b[..i], b[i], b[i + 1..], f);
      assert [] + a[1..] == a[1..] && a[..0] == [];
    }
  }

  lemma FieldPermutation(a: seq<Metrics>, b: seq<Metrics>, f: Metrics -> Option<real>)
    requires multiset(a) == multiset(b)
    ensures Collect(a, f) == [] <==> Collect(b, f) == []
    ensures Summarize(Collect(a, f)) == Summarize(Collect(b, f)) && Sum(Collect(a, f)) == Sum(Collect(b, f))
  {
    CollectPermutation(a, b, f);
    assert |Collect(a, f)| == |multiset(Collect(a, f))| && |Collect(b, f)| == |multiset(Collect(b, f))|;
    SummarizePermutation(Collect(a, f), Collect(b, f));
    SumPermutation(Collect(a, f), Collect(b, f));
  }

  lemma StatsPermutation(a: seq<Metrics>, b: seq<Metrics>)
    requires a != [] && multiset(a) == multiset(b)
    ensures b != [] && StatsOf(a) == StatsOf(b)
  {
    assert |a| == |multiset(a)| && |b| == |multiset(b)|;
    FieldPermutation(a, b, TTFB);
    FieldPermutation(a, b, TTFC);
    FieldPermutation(a, b, DURATION);
    FieldPermutation(a, b, TPS);
    FieldPermutation(a, b, INPUT);
    FieldPermutation(a, b, OUTPUT);
    FieldPermutation(a, b, REASONING);
  }

  lemma {:induction false} SumBetween(values: seq<real>, low: real, high: real)
    requires forall i :: 0 <= i < |values| ==> low <= values[i] <= high
    ensures |values| as real * low <= Sum(values) <= |values| as real * high
  {
    if values != [] {
      SumBetween(values[1..], low, high);
    }
  }

  lemma MeanWithin(values: seq<real>, low: real, high: real)
    requires values != [] && forall i :: 0 <= i < |values| ==> low <= values[i] <= high
    ensures low <= Mean(values) <= high
  {
    SumBetween(values, low, high);
    QuotientBetween(Sum(values), |values| as real, low, high);
  }

  lemma MeanBetween(values: seq<real>)
    requires values != []
    ensures Min(values) <= Mean(values) <= Max(values)
  {
    MinMaxBound(values);
    forall i | 0 <= i < |values| ensures Min(values) <= values[i] <= Max(values) {
      assert values[i] in values;
    }
    MeanWithin(values, Min(values), Max(values));
  }

  lemma QuotientBetween(sum: real, n: real, low: real, high: real)
    requires n > 0.0 && n * low <= sum <= n * high
    ensures low <= sum / n <= high
  {
    DivideMonotone(n * low, sum, n);
    DivideMonotone(sum, n * high, n);
    assert n * low / n == low && n * high / n == high;
  }

  /** The reported figures are in order, and the two medians are one. */
  lemma SummaryOrdered(values: seq<real>)
    requires values != []
    ensures var s := Summarize(values);
      s.min <= s.p50 == s.median <= s.p90 <= s.p95 <= s.p99 <= s.max && s.min <= s.mean <= s.max
  {
    MedianIsP50(values);
    PercentileMonotone(values, 50.0, 90.0);
    PercentileMonotone(values, 90.0, 95.0);
    PercentileMonotone(values, 95.0, 99.0);
    PercentileMonotone(values, 99.0, 99.0);
    MeanBetween(values);
  }

  /** Every figure of `a` is at most that of `b`. */
  predicate Below(a: Summary, b: Summary) {
    a.mean <= b.mean && a.median <= b.median && a.p50 <= b.p50 && a.p90 <= b.p90 && a.p95 <= b.p95 && a.p99 <= b.p99
    && a.min <= b.min && a.max <= b.max
  }

  lemma SummaryDominates(x: seq<real>, y: seq<real>)
    requires |x| == |y| && forall i :: 0 <= i < |x| ==> x[i] <= y[i]
    ensures Below(Summarize(x), Summarize(y))
  {
    if x != [] {
      PercentileDominates(x, y, 50.0);
      PercentileDominates(x, y, 90.0);
      PercentileDominates(x, y, 95.0);
      PercentileDominates(x, y, 99.0);
      PercentileDominates(x, y, 0.0);
      PercentileDominates(x, y, 100.0);
      PercentileEnds(x);
      PercentileEnds(y);
      MedianIsP50(x);
      MedianIsP50(y);
      SumDominates(x, y);
      DivideMonotone(Sum(x), Sum(y), |x| as real);
    }
  }

  /** `f` reads a figure from the same requests of `a` and `b`, and nowhere a larger one from `a`. */
  ghost predicate NowhereLarger(a: seq<Metrics>, b: seq<Metrics>, f: Metrics -> Option<real>) {
    |a| == |b| && forall i :: 0 <= i < |a| ==> NoLarger(f(a[i]), f(b[i]))
  }

  predicate NoLarger(x: Option<real>, y: Option<real>) {
    (x.Some? <==> y.Some?) && (x.Some? ==> x.value <= y.value)
  }

  lemma {:induction false} CollectDominates(a: seq<Metrics>, b: seq<Metrics>, f: Metrics -> Option<real>)
    requires NowhereLarger(a, b, f)
    ensures |Collect(a, f)| == |Collect(b, f)|
    ensures forall i :: 0 <= i < |Collect(a, f)| ==> Collect(a, f)[i] <= Collect(b, f)[i]
  {
    if a != [] {
      CollectDominates(a[1..], b[1..], f);
      assert NoLarger(f(a[0]), f(b[0]));
    }
  }

  lemma MeasureDominates(a: seq<Metrics>, b: seq<Metrics>, f: Metrics -> Option<real>)
    requires a != [] && |a| == |b|
    ensures NowhereLarger(a, b, f) ==>
      && (Collect(a, f) == [] <==> Collect(b, f) == [])
      && Below(Summarize(Collect(a, f)), Summarize(Collect(b, f)))
      && Sum(Collect(a, f)) <= Sum(Collect(b, f))
      && Sum(Collect(a, f)) / |a| as real <= Sum(Collect(b, f)) / |a| as real
  {
    if NowhereLarger(a, b, f) {
      CollectDominates(a, b, f);
      SummaryDominates(Collect(a, f), Collect(b, f));
      SumDominates(Collect(a, f), Collect(b, f));
      DivideMonotone(Sum(Collect(a, f)), Sum(Collect(b, f)), |a| as real);
    }
  }

  /** Each reported figure depends monotonically on its own measurement and on no other; requests without a first chunk
      or a token rate may stay without. */
  lemma StatsDominate(a: seq<Metrics>, b: seq<Metrics>)
    requires a != [] && |a| == |b|
    ensures NowhereLarger(a, b, TTFB) ==> Below(StatsOf(a).ttfb, StatsOf(b).ttfb)
    ensures NowhereLarger(a, b, DURATION) ==> Below(StatsOf(a).duration, StatsOf(b).duration)
    ensures NowhereLarger(a, b, TTFC) ==>
      && (StatsOf(a).ttfc.Some? <==> StatsOf(b).ttfc.Some?)
      && (StatsOf(a).ttfc.Some? ==> Below(StatsOf(a).ttfc.value, StatsOf(b).ttfc.value))
    ensures NowhereLarger(a, b, TPS) ==> Below(StatsOf(a).tps, StatsOf(b).tps)
    ensures NowhereLarger(a, b, INPUT) ==> StatsOf(a).avgInput <= StatsOf(b).avgInput
    ensures NowhereLarger(a, b, OUTPUT) ==> StatsOf(a).avgOutput <= StatsOf(b).avgOutput
    ensures NowhereLarger(a, b, REASONING) ==> StatsOf(a).avgReasoning <= StatsOf(b).avgReasoning
    ensures NowhereLarger(a, b, INPUT) && NowhereLarger(a, b, OUTPUT) && NowhereLarger(a, b, REASONING) ==>
      StatsOf(a).totalTokens <= StatsOf(b).totalTokens
  {
    MeasureDominates(a, b, TTFB);
    MeasureDominates(a, b, DURATION);
    MeasureDominates(a, b, TTFC);
    MeasureDominates(a, b, TPS);
    MeasureDominates(a, b, INPUT);
    MeasureDominates(a, b, OUTPUT);
    MeasureDominates(a, b, REASONING);
  }

  // ----- Splitting a log of records by category -----

  type Record = (string, Metrics)

  function All(log: seq<Record>): seq<Metrics> {
    if log == [] then [] else All(log[..|log| - 1]) + [log[|log| - 1].1]
  }

  /** The records of one category, in order. */
  function Of(log: seq<Record>, category: string): seq<Metrics> {
    if log == [] then []
    else Of(log[..|log| - 1], category) + if log[|log| - 1].0 == category then [log[|log| - 1].1] else []
  }

  /** The records of the categories in `order`, category by category. */
  function Grouped(log: seq<Record>, order: seq<string>): seq<Metrics> {
    if order == [] then [] else Of(log, order[0]) + Grouped(log, order[1..])
  }

  predicate Distinct(order: seq<string>) {
    forall i, j :: 0 <= i < j < |order| ==> order[i] != order[j]
  }

  lemma OfAppend(log: seq<Record>, r: Record, category: string)
    ensures Of(log + [r], category) == if r.0 == category then Of(log, category) + [r.1] else Of(log, category)
  {
    assert (log + [r])[..|log|] == log;
  }

  lemma {:induction false} GroupedAppend(log: seq<Record>, r: Record, order: seq<string>)
    requires Distinct(order)
    ensures multiset(Grouped(log + [r], order))
         == multiset(Grouped(log, order)) + if r.0 in order then multiset{r.1} else multiset{}
  {
    if order != [] {
      assert r.0 in order <==> r.0 == order[0] || r.0 in order[1..];
      GroupedAppend(log, r, order[1..]);
      OfAppend(log, r, order[0]);
    }
  }

  lemma {:induction false} GroupedEmpty(order: seq<string>)
    ensures Grouped([], order) == []
  {
    if order != [] {
      GroupedEmpty(order[1..]);
    }
  }

  lemma AllAppend(log: seq<Record>, r: Record)
    ensures All(log + [r]) == All(log) + [r.1]
  {
    assert (log + [r])[..|log|] == log;
  }

  predicate CategoriesIn(log: seq<Record>, order: seq<string>) {
    forall i :: 0 <= i < |log| ==> log[i].0 in order
  }

  /** However the records are split into categories, together they are the flat log. */
  lemma {:induction false} GroupedIsAll(log: seq<Record>, order: seq<string>)
    requires Distinct(order) && CategoriesIn(log, order)
    ensures multiset(Grouped(log, order)) == multiset(All(log))
  {
    if log == [] {
      GroupedEmpty(order);
    } else {
      var init, last := log[..|log| - 1], log[|log| - 1];
      assert log == init + [last];
      GroupedIsAll(init, order);
      GroupedAppend(init, last, order);
      AllAppend(init, last);
    }
  }

  lemma {:induction false} GroupedExtend(log: seq<Record>, order: seq<string>, category: string)
    ensures Grouped(log, order + [category]) == Grouped(log, order) + Of(log, category)
  {
    if order == [] {
      assert [category][1..] == [];
    } else {
      assert (order + [category])[1..] == order[1..] + [category];
      GroupedExtend(log, order[1..], category);
    }
  }

  lemma GroupedTake(log: seq<Record>, order: seq<string>, i: nat)
    requires i < |order|
    ensures Grouped(log, order[..i + 1]) == Grouped(log, order[..i]) + Of(log, order[i])
  {
    GroupedExtend(log, order[..i], order[i]);
    assert order[..i + 1] == order[..i] + [order[i]];
  }

  lemma {:induction false} NoRecords(log: seq<Record>, category: string)
    requires forall i :: 0 <= i < |log| ==> log[i].0 != category
    ensures Of(log, category) == []
  {
    if log != [] {
      NoRecords(log[..|log| - 1], category);
    }
  }

  lemma {:induction false} AllLength(log: seq<Record>)
    ensures |All(log)| == |log|
  {
    if log != [] {
      AllLength(log[..|log| - 1]);
    }
  }

  /** The statistics of the regrouped records are those of the flat log. */
  lemma RegroupedStats(log: seq<Record>, order: seq<string>)
    requires Distinct(order) && CategoriesIn(log, order)
    ensures Grouped(log, order) == [] <==> log == []
    ensures log != [] ==> All(log) != [] && StatsOf(Grouped(log, order)) == StatsOf(All(log))
  {
    GroupedIsAll(log, order);
    AllLength(log);
    var grouped, all := Grouped(log, order), All(log);
    assert |grouped| == |multiset(grouped)| && |all| == |multiset(all)|;
    if log != [] {
      StatsPermutation(grouped, all);
    }
  }

  // ----- The trackers -----

  class LatencyTracker {
    var metrics: seq<Metrics>

    constructor ()
      ensures metrics == []
    {
      metrics := [];
    }

    method Record(m: Metrics)
      modifies this
      ensures metrics == old(metrics) + [m]
    {
      metrics := metrics + [m];
    }

    method GetStats() returns (stats: Try<Stats>)
      ensures stats == if metrics == [] then Raise else Ok(StatsOf(metrics))
    {
      if metrics == [] {
        return Raise;
      }
      return Ok(StatsOf(metrics));
    }
  }

  class CategoryLatencyTracker {
    var trackers: map<string, LatencyTracker>
    var order: seq<string>           // the insertion order of the dictionary
    ghost var log: seq<Record>       // every call of `Record`
    ghost var Repr: set<LatencyTracker>

    ghost predicate Valid()
      reads this, Repr
    {
      && (forall c :: c in trackers ==> trackers[c] in Repr)
      && Distinct(order) && (forall c :: c in order <==> c in trackers)
      && (forall c, d :: c in trackers && d in trackers && c != d ==> trackers[c] != trackers[d])
      && (forall c :: c in trackers ==> trackers[c].metrics == Of(log, c))
      && (forall i :: 0 <= i < |log| ==> log[i].0 in trackers)
    }

    constructor ()
      ensures Valid() && log == [] && trackers == map[]
    {
      trackers, order, log, Repr := map[], [], [], {};
    }

    /** Get or create the tracker of a category. */
    method GetTracker(category: string) returns (tracker: LatencyTracker)
      requires Valid()
      modifies this
      ensures Valid() && log == old(log)
      ensures category in trackers && tracker == trackers[category]
      ensures old(trackers).Keys <= trackers.Keys && forall c <- old(trackers) :: trackers[c] == old(trackers[c])
      ensures fresh(Repr - old(Repr))
      ensures forall c <- trackers :: c in old(trackers) || c == category
    {
      if category !in trackers {
        NoRecords(log, category);
        var created := new LatencyTracker();
        trackers, order := trackers[category := created], order + [category];
        Repr := Repr + {created};
      }
      tracker := trackers[category];
    }

    method Record(category: string, m: Metrics)
      requires Valid()
      modifies this, Repr
      ensures Valid() && fresh(Repr - old(Repr)) && log == old(log) + [(category, m)]
    {
      var tracker := GetTracker(category);
      tracker.Record(m);
      ghost var longer := log + [(category, m)];
      assert forall c :: c in trackers ==> trackers[c].metrics == Of(longer, c) by {
        forall c | c in trackers ensures trackers[c].metrics == Of(longer, c) {
          OfAppend(log, (category, m), c);
        }
      }
      log := longer;
    }

    /** Re-record the metrics of one tracker in another. */
    static method RecordAll(overall: LatencyTracker, ms: seq<Metrics>)
      modifies overall
      ensures overall.metrics == old(overall.metrics) + ms
    {
      for i := 0 to |ms|
        invariant overall.metrics == old(overall.metrics) + ms[..i]
      {
        overall.Record(ms[i]);
        assert ms[..i + 1] == ms[..i] + [ms[i]];
      }
      assert ms[..|ms|] == ms;
    }

    /** Re-record everything in one tracker: the statistics are those of the flat log. */
    method GetOverallStats() returns (stats: Try<Stats>)
      requires Valid()
      ensures stats == if log == [] then Raise else Ok(StatsOf(All(log)))
    {
      var overall := new LatencyTracker();
      for i := 0 to |order|
        invariant fresh(overall) && overall.metrics == Grouped(log, order[..i])
      {
        GroupedTake(log, order, i);
        assert order[i] in order && order[i] in trackers;
        RecordAll(overall, trackers[order[i]].metrics);
      }
      assert order[..|order|] == order;
      assert CategoriesIn(log, order);
      RegroupedStats(log, order);
      if overall.metrics == [] {
        return Raise;
      }
      stats := overall.GetStats();
    }
  }
}
